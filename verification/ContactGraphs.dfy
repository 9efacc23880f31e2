/** Simple undirected graphs on the nodes 0..n-1: degrees, walks, connectivity, and
    the double-edge swap that the contact network sampler proposes. */
module ContactGraphs {
  import opened Prelude

  /** An undirected edge, stored with its smaller end first. */
  datatype Edge = Edge(low: nat, high: nat)

  function Link(a: nat, b: nat): Edge {
    if a <= b then Edge(a, b) else Edge(b, a)
  }

  predicate Simple(n: nat, edges: set<Edge>) {
    forall e :: e in edges ==> e.low < e.high < n
  }

  function Neighbors(n: nat, edges: set<Edge>, v: nat): set<nat> {
    set u: nat | u < n && Link(u, v) in edges
  }

  function Degree(n: nat, edges: set<Edge>, v: nat): nat {
    |Neighbors(n, edges, v)|
  }

  predicate SameDegrees(n: nat, edges: set<Edge>, other: set<Edge>) {
    forall v {:trigger Degree(n, other, v)} :: 0 <= v < n ==> Degree(n, other, v) == Degree(n, edges, v)
  }

  predicate Regular(n: nat, edges: set<Edge>, degree: nat) {
    forall v {:trigger Degree(n, edges, v)} :: 0 <= v < n ==> Degree(n, edges, v) == degree
  }

  // ----- walks and connectivity -----

  ghost predicate Walk(edges: set<Edge>, u: nat, v: nat, path: seq<nat>) {
    && |path| > 0 && path[0] == u && path[|path| - 1] == v
    && forall i :: 0 < i < |path| ==> Link(path[i - 1], path[i]) in edges
  }

  ghost predicate Linked(edges: set<Edge>, u: nat, v: nat) {
    exists path :: Walk(edges, u, v, path)
  }

  ghost predicate Connected(n: nat, edges: set<Edge>) {
    forall u: nat, v: nat {:trigger Linked(edges, u, v)} :: u < n && v < n ==> Linked(edges, u, v)
  }

  lemma {:induction false} LinkedSelf(edges: set<Edge>, u: nat)
    ensures Linked(edges, u, u)
  {
    assert Walk(edges, u, u, [u]);
  }

  lemma {:induction false} LinkedStep(edges: set<Edge>, u: nat, v: nat, w: nat)
    requires Linked(edges, u, v) && Link(v, w) in edges
    ensures Linked(edges, u, w)
  {
    var path :| Walk(edges, u, v, path);
    assert Walk(edges, u, w, path + [w]);
  }

  lemma {:induction false} LinkedReverse(edges: set<Edge>, u: nat, v: nat)
    requires Linked(edges, u, v)
    ensures Linked(edges, v, u)
  {
    var path :| Walk(edges, u, v, path);
    var back := seq(|path|, i requires 0 <= i < |path| => path[|path| - 1 - i]);
    forall i | 0 < i < |back| ensures Link(back[i - 1], back[i]) in edges {
      assert Link(path[|path| - 1 - i], path[|path| - i]) in edges;
    }
    assert Walk(edges, v, u, back);
  }

  lemma {:induction false} LinkedTransitive(edges: set<Edge>, u: nat, v: nat, w: nat)
    requires Linked(edges, u, v) && Linked(edges, v, w)
    ensures Linked(edges, u, w)
  {
    var p :| Walk(edges, u, v, p);
    var q :| Walk(edges, v, w, q);
    var path := p + q[1..];
    forall i | 0 < i < |path| ensures Link(path[i - 1], path[i]) in edges {
      if i >= |p| {
        assert path[i] == q[i - |p| + 1] && path[i - 1] == q[i - |p|];
      }
    }
    assert Walk(edges, u, w, path);
  }

  lemma {:induction false} ConnectedThrough(n: nat, edges: set<Edge>, hub: nat)
    requires forall v: nat {:trigger Linked(edges, v, hub)} :: v < n ==> Linked(edges, v, hub)
    ensures Connected(n, edges)
  {
    forall u: nat, v: nat | u < n && v < n ensures Linked(edges, u, v) {
      LinkedReverse(edges, v, hub);
      LinkedTransitive(edges, u, hub, v);
    }
  }

  /** A walk cannot leave a set of nodes that contains all their neighbours. */
  lemma {:induction false} ClosedSetKeepsWalk(n: nat, edges: set<Edge>, closed: set<nat>, u: nat, v: nat,
                                              path: seq<nat>)
    requires Simple(n, edges) && u in closed && Walk(edges, u, v, path)
    requires forall w {:trigger Neighbors(n, edges, w)} :: w in closed ==> Neighbors(n, edges, w) <= closed
    ensures v in closed
    decreases |path|
  {
    if |path| > 1 {
      var w := path[|path| - 2];
      ClosedSetKeepsWalk(n, edges, closed, u, w, path[..|path| - 1]);
      assert Link(w, v) in edges && Link(v, w) in edges;
      assert v in Neighbors(n, edges, w);
    }
  }

  /** The library's connectivity test: a search from one node must see every node. */
  method IsConnected(n: nat, edges: set<Edge>) returns (connected: bool)
    requires n > 0 && Simple(n, edges)
    ensures connected <==> Connected(n, edges)
  {
    ghost var all := Numbers(n);
    var seen, frontier := {0}, {0};
    LinkedSelf(edges, 0);
    while frontier != {}
      invariant 0 in seen && frontier <= seen <= all
      invariant forall v {:trigger Linked(edges, 0, v)} :: v in seen ==> Linked(edges, 0, v)
      invariant forall v {:trigger Neighbors(n, edges, v)} ::
                  v in seen && v !in frontier ==> Neighbors(n, edges, v) <= seen
      decreases all - seen, frontier
    {
      var v :| v in frontier;
      var found := Neighbors(n, edges, v) - seen;
      forall w | w in found ensures Linked(edges, 0, w) {
        assert Link(w, v) == Link(v, w);
        LinkedStep(edges, 0, v, w);
      }
      seen, frontier := seen + found, frontier - {v} + found;
    }
    connected := |seen| == n;
    if connected {
      SubsetOfSameSize(seen, all);
      AllReached(n, edges);
    } else {
      assert all == seen + (all - seen);
      ghost var v :| v in all - seen;
      UnseenIsUnlinked(n, edges, seen, v);
    }
  }

  lemma {:induction false} AllReached(n: nat, edges: set<Edge>)
    requires forall v: nat {:trigger Linked(edges, 0, v)} :: v < n ==> Linked(edges, 0, v)
    ensures Connected(n, edges)
  {
    forall v: nat {:trigger Linked(edges, v, 0)} | v < n ensures Linked(edges, v, 0) {
      assert Linked(edges, 0, v);
      LinkedReverse(edges, 0, v);
    }
    ConnectedThrough(n, edges, 0);
  }

  lemma {:induction false} UnseenIsUnlinked(n: nat, edges: set<Edge>, seen: set<nat>, v: nat)
    requires Simple(n, edges) && 0 in seen && 0 < n && v < n && v !in seen
    requires forall w {:trigger Neighbors(n, edges, w)} :: w in seen ==> Neighbors(n, edges, w) <= seen
    ensures !Connected(n, edges)
  {
    if Linked(edges, 0, v) {
      var path :| Walk(edges, 0, v, path);
      ClosedSetKeepsWalk(n, edges, seen, 0, v, path);
    }
  }

  // ----- the double-edge swap -----

  function Swapped(edges: set<Edge>, a: nat, b: nat, c: nat, d: nat): set<Edge> {
    edges - {Link(a, b), Link(c, d)} + {Link(a, d), Link(c, b)}
  }

  /** What a proposal checks before it rewires: four distinct ends, no parallel edge. */
  predicate Swappable(edges: set<Edge>, a: nat, b: nat, c: nat, d: nat) {
    && Link(a, b) in edges && Link(c, d) in edges
    && a != b && a != c && a != d && b != c && b != d && c != d
    && Link(a, d) !in edges && Link(c, b) !in edges
  }

  /** The first end of a swap trades one neighbour for another. */
  lemma {:induction false} SwapTradesNeighbor(n: nat, edges: set<Edge>, a: nat, b: nat, c: nat, d: nat)
    requires Simple(n, edges) && Swappable(edges, a, b, c, d)
    ensures Neighbors(n, Swapped(edges, a, b, c, d), a) == Neighbors(n, edges, a) - {b} + {d}
  {
    assert Link(b, a) == Link(a, b) && Link(d, a) == Link(a, d);
    forall u: nat | u != b && u != d
      ensures Link(u, a) in Swapped(edges, a, b, c, d) <==> Link(u, a) in edges
    {
      assert Link(u, a) !in {Link(a, b), Link(c, d), Link(a, d), Link(c, b)};
    }
  }

  lemma {:induction false} SwapEnd(n: nat, edges: set<Edge>, a: nat, b: nat, c: nat, d: nat)
    requires Simple(n, edges) && Swappable(edges, a, b, c, d)
    ensures Degree(n, Swapped(edges, a, b, c, d), a) == Degree(n, edges, a)
  {
    SwapTradesNeighbor(n, edges, a, b, c, d);
    assert Link(b, a) == Link(a, b) && Link(d, a) == Link(a, d);
    assert b in Neighbors(n, edges, a) && d !in Neighbors(n, edges, a);
  }

  lemma {:induction false} SwapIsSymmetric(edges: set<Edge>, a: nat, b: nat, c: nat, d: nat)
    ensures Swapped(edges, a, b, c, d) == Swapped(edges, c, d, a, b)
    ensures Swapped(edges, a, b, c, d) == Swapped(edges, b, a, d, c)
    ensures Swappable(edges, a, b, c, d) ==> Swappable(edges, c, d, a, b) && Swappable(edges, b, a, d, c)
  {
    assert Link(a, b) == Link(b, a) && Link(c, d) == Link(d, c) && Link(a, d) == Link(d, a) && Link(c, b) == Link(b, c);
  }

  lemma {:induction false} SwapKeepsDegree(n: nat, edges: set<Edge>, a: nat, b: nat, c: nat, d: nat, v: nat)
    requires Simple(n, edges) && Swappable(edges, a, b, c, d) && v < n
    ensures Degree(n, Swapped(edges, a, b, c, d), v) == Degree(n, edges, v)
  {
    SwapIsSymmetric(edges, a, b, c, d);
    SwapIsSymmetric(edges, c, d, a, b);
    if v == a {
      SwapEnd(n, edges, a, b, c, d);
    } else if v == b {
      SwapEnd(n, edges, b, a, d, c);
    } else if v == c {
      SwapEnd(n, edges, c, d, a, b);
    } else if v == d {
      SwapEnd(n, edges, d, c, b, a);
    } else {
      assert Neighbors(n, Swapped(edges, a, b, c, d), v) == Neighbors(n, edges, v);
    }
  }

  /** The swap keeps the graph simple, the edge count and every degree. */
  lemma {:induction false} SwapKeepsDegrees(n: nat, edges: set<Edge>, a: nat, b: nat, c: nat, d: nat)
    requires Simple(n, edges) && Swappable(edges, a, b, c, d)
    ensures Simple(n, Swapped(edges, a, b, c, d))
    ensures |Swapped(edges, a, b, c, d)| == |edges|
    ensures SameDegrees(n, edges, Swapped(edges, a, b, c, d))
  {
    forall v: nat | v < n ensures Degree(n, Swapped(edges, a, b, c, d), v) == Degree(n, edges, v) {
      SwapKeepsDegree(n, edges, a, b, c, d, v);
    }
    assert |edges - {Link(a, b), Link(c, d)}| == |edges| - 2;
  }

  /** Swapping back restores exactly the graph before the swap. */
  lemma {:induction false} SwapBack(edges: set<Edge>, a: nat, b: nat, c: nat, d: nat)
    requires Swappable(edges, a, b, c, d)
    ensures Swappable(Swapped(edges, a, b, c, d), a, d, c, b)
    ensures Swapped(Swapped(edges, a, b, c, d), a, d, c, b) == edges
  {
  }

  // ----- mixing -----

  /** Two sampled edges, and whether the second is read backwards. */
  datatype Pick = Pick(first: Edge, second: Edge, flip: bool) {
    function Third(): nat { if flip then second.high else second.low }

    function Fourth(): nat { if flip then second.low else second.high }
  }

  predicate Sampled(edges: set<Edge>, pick: Pick) {
    pick.first in edges && pick.second in edges && pick.first != pick.second
  }

  ghost predicate Accepted(n: nat, edges: set<Edge>, pick: Pick) {
    var a, b, c, d := pick.first.low, pick.first.high, pick.Third(), pick.Fourth();
    Swappable(edges, a, b, c, d) && Connected(n, Swapped(edges, a, b, c, d))
  }

  /** The graph after one proposal: swapped when that is possible and keeps it connected,
      and otherwise exactly the graph before. */
  ghost function Proposed(n: nat, edges: set<Edge>, pick: Pick): set<Edge> {
    if Accepted(n, edges, pick) then
      Swapped(edges, pick.first.low, pick.first.high, pick.Third(), pick.Fourth())
    else edges
  }

  ghost predicate MixedAt(n: nat, states: seq<set<Edge>>, picks: seq<Pick>, k: nat)
    requires |states| == |picks| + 1 && k < |picks|
  {
    Sampled(states[k], picks[k]) && states[k + 1] == Proposed(n, states[k], picks[k])
  }

  ghost predicate Mixing(n: nat, states: seq<set<Edge>>, picks: seq<Pick>) {
    && |states| == |picks| + 1
    && forall k {:trigger MixedAt(n, states, picks, k)} :: 0 <= k < |picks| ==> MixedAt(n, states, picks, k)
  }

  /** A simple connected graph with the degrees of another one. */
  ghost predicate SameNetwork(n: nat, first: set<Edge>, edges: set<Edge>) {
    Simple(n, edges) && Connected(n, edges) && |edges| == |first| && SameDegrees(n, first, edges)
  }

  /** Any number of proposals, with any draws, keeps every graph along the way simple and
      connected, with the edge count and the degree of every node of the first. */
  lemma {:induction false} MixingKeepsNetwork(n: nat, states: seq<set<Edge>>, picks: seq<Pick>, last: nat)
    requires Mixing(n, states, picks) && last < |states|
    requires Simple(n, states[0]) && Connected(n, states[0])
    ensures forall k {:trigger SameNetwork(n, states[0], states[k])} :: 0 <= k <= last ==>
              SameNetwork(n, states[0], states[k])
  {
    if last > 0 {
      var k := last - 1;
      MixingKeepsNetwork(n, states, picks, k);
      assert MixedAt(n, states, picks, k) && SameNetwork(n, states[0], states[k]);
      var pick := picks[k];
      if Accepted(n, states[k], pick) {
        SwapKeepsDegrees(n, states[k], pick.first.low, pick.first.high, pick.Third(), pick.Fourth());
        SameDegreesChain(n, states[0], states[k], states[last]);
      }
    }
  }

  lemma {:induction false} SameDegreesChain(n: nat, first: set<Edge>, second: set<Edge>, third: set<Edge>)
    requires SameDegrees(n, first, second) && SameDegrees(n, second, third)
    ensures SameDegrees(n, first, third)
  {
    forall v: nat | v < n ensures Degree(n, first, v) == Degree(n, third, v) {
      assert Degree(n, first, v) == Degree(n, second, v);
    }
  }

  lemma {:induction false} MixingNext(n: nat, states: seq<set<Edge>>, picks: seq<Pick>, pick: Pick)
    requires Mixing(n, states, picks) && Sampled(states[|picks|], pick)
    ensures Mixing(n, states + [Proposed(n, states[|picks|], pick)], picks + [pick])
  {
    var longer, more := states + [Proposed(n, states[|picks|], pick)], picks + [pick];
    forall k | 0 <= k < |more| ensures MixedAt(n, longer, more, k) {
      assert k < |picks| ==> MixedAt(n, states, picks, k);
    }
  }

  class ContactGraph {
    const n: nat
    var edges: set<Edge>

    constructor (n: nat, edges: set<Edge>)
      ensures this.n == n && this.edges == edges
    {
      this.n, this.edges := n, edges;
    }

    method RemoveEdges(gone: set<Edge>)
      modifies this
      ensures edges == old(edges) - gone
    {
      edges := edges - gone;
    }

    method AddEdges(more: set<Edge>)
      modifies this
      ensures edges == old(edges) + more
    {
      edges := edges + more;
    }

    /** One proposal: swap two sampled edges, and undo the swap if it disconnects. */
    method Propose(pick: Pick) returns (accepted: bool)
      requires n > 0 && Simple(n, edges) && Sampled(edges, pick)
      modifies this
      ensures accepted <==> Accepted(n, old(edges), pick)
      ensures edges == Proposed(n, old(edges), pick) && Simple(n, edges)
    {
      var a, b, c, d := pick.first.low, pick.first.high, pick.Third(), pick.Fourth();
      assert Link(c, d) == pick.second && Link(a, b) == pick.first;
      FewEnds(a, b, c, d);
      if |{a, b, c, d}| < 4 || Link(a, d) in edges || Link(c, b) in edges {
        return false;
      }
      SwapKeepsDegrees(n, edges, a, b, c, d);
      SwapBack(edges, a, b, c, d);
      RemoveEdges({Link(a, b), Link(c, d)});
      AddEdges({Link(a, d), Link(c, b)});
      assert edges == Swapped(old(edges), a, b, c, d);
      accepted := IsConnected(n, edges);
      if !accepted {
        RemoveEdges({Link(a, d), Link(c, b)});
        AddEdges({Link(a, b), Link(c, d)});
      }
    }

    /** The loop of proposals; every sample is a pair of different edges. */
    method MixEdges(proposals: nat) returns (ghost states: seq<set<Edge>>, ghost picks: seq<Pick>)
      requires n > 0 && |edges| >= 2 && Simple(n, edges) && Connected(n, edges)
      modifies this
      ensures Mixing(n, states, picks) && |picks| == proposals
      ensures states[0] == old(edges) && states[proposals] == edges
      ensures Simple(n, edges) && Connected(n, edges) && |edges| == |old(edges)|
      ensures SameDegrees(n, old(edges), edges)
    {
      states, picks := [edges], [];
      for k := 0 to proposals
        invariant Mixing(n, states, picks) && |picks| == k
        invariant states[0] == old(edges) && states[k] == edges
      {
        MixingKeepsNetwork(n, states, picks, k);
        assert SameNetwork(n, states[0], states[k]);
        var first :| first in edges;
        assert |edges - {first}| > 0;
        var second :| second in edges && second != first;
        var flip: bool := *;
        var pick := Pick(first, second, flip);
        MixingNext(n, states, picks, pick);
        var _ := Propose(pick);
        states, picks := states + [edges], picks + [pick];
      }
      MixingKeepsNetwork(n, states, picks, proposals);
      assert SameNetwork(n, states[0], states[proposals]);
    }
  }

  lemma {:induction false} FewEnds(a: nat, b: nat, c: nat, d: nat)
    ensures |{a, b, c, d}| < 4 <==> a == b || a == c || a == d || b == c || b == d || c == d
  {
    if a == b {
      assert {a, b, c, d} == {a, c, d};
    } else if c == d {
      assert {a, b, c, d} == {a, b, c};
    } else if a == c || b == c {
      assert {a, b, c, d} == {a, b, d};
    } else if a == d || b == d {
      assert {a, b, c, d} == {a, b, c};
    }
  }
}
