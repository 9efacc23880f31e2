/** Construction of the contact network for each topology, and the choice of a pair. */
module ContactNetworks {
  import opened Prelude
  import opened ContactGraphs

  datatype Topology = Complete | Ring | Mixed | Community | Barbell

  predicate ValidTopology(topology: Topology, agents: nat, degree: int) {
    && (topology.Mixed? || topology.Community? ==>
          agents % 2 == 0 && degree >= 2 && degree % 2 == 0 && degree < agents / 2)
    && (topology.Barbell? ==> agents >= 4 && agents % 2 == 0)
  }

  function Image(group: seq<nat>, positions: set<nat>): set<nat>
    requires forall j :: j in positions ==> j < |group|
  {
    set j | j in positions :: group[j]
  }

  lemma {:induction false} ImageSize(group: seq<nat>, positions: set<nat>)
    requires Distinct(group) && forall j :: j in positions ==> j < |group|
    ensures |Image(group, positions)| == |positions|
    decreases |positions|
  {
    if positions != {} {
      var j :| j in positions;
      var rest := positions - {j};
      ImageSize(group, rest);
      assert group[j] !in Image(group, rest);
      assert Image(group, positions) == Image(group, rest) + {group[j]};
    }
  }

  // ----- regular rings -----

  /** The position `offset` places further round a ring of `m`. */
  function Ahead(i: nat, offset: nat, m: nat): nat {
    if i + offset >= m then (i + offset) - m else i + offset
  }

  lemma {:induction false} AheadIsModulo(i: nat, offset: nat, m: nat)
    requires i < m && offset < m
    ensures (i + offset) % m == Ahead(i, offset, m)
  {
    var x := i + offset;
    var q, r := x / m, x % m;
    assert x == q * m + r;
    assert q > 1 ==> q * m >= 2 * m;
    assert q == 1 ==> r == x - m;
  }

  /** How far round the ring `j` lies ahead of `i`. */
  function Gap(i: nat, j: nat, m: nat): int {
    if j >= i then j - i else j + m - i
  }

  /** The positions within `reach` of `i`, in both directions. */
  function Near(i: nat, reach: nat, m: nat): set<nat>
    requires i < m && reach < m
  {
    if reach == 0 then {} else Near(i, reach - 1, m) + {Ahead(i, reach, m), Ahead(i, m - reach, m)}
  }

  lemma {:induction false} GapOfAhead(i: nat, offset: nat, m: nat)
    requires i < m && 1 <= offset < m
    ensures Ahead(i, offset, m) < m
    ensures Gap(i, Ahead(i, offset, m), m) == offset && Gap(Ahead(i, offset, m), i, m) == m - offset
  {
  }

  lemma {:induction false} NearMember(i: nat, reach: nat, m: nat, j: nat)
    requires i < m && 2 * reach < m
    ensures j in Near(i, reach, m) <==> j < m && (1 <= Gap(i, j, m) <= reach || 1 <= Gap(j, i, m) <= reach)
  {
    if reach > 0 {
      NearMember(i, reach - 1, m, j);
      GapOfAhead(i, reach, m);
      GapOfAhead(i, m - reach, m);
    }
  }

  lemma {:induction false} NearSize(i: nat, reach: nat, m: nat)
    requires i < m && 2 * reach < m
    ensures |Near(i, reach, m)| == 2 * reach
  {
    if reach > 0 {
      var forward, back := Ahead(i, reach, m), Ahead(i, m - reach, m);
      NearSize(i, reach - 1, m);
      NearMember(i, reach - 1, m, forward);
      NearMember(i, reach - 1, m, back);
      GapOfAhead(i, reach, m);
      GapOfAhead(i, m - reach, m);
      assert forward != back;
    }
  }

  /** Join each node to the `reach` nodes that follow it in the group. */
  function RingEdges(group: seq<nat>, reach: nat): set<Edge>
    requires reach < |group|
  {
    set i, o | 0 <= i < |group| && 1 <= o <= reach :: Link(group[i], group[Ahead(i, o, |group|)])
  }

  lemma {:induction false} RingSimple(n: nat, group: seq<nat>, reach: nat)
    requires reach < |group| && Distinct(group) && forall i :: 0 <= i < |group| ==> group[i] < n
    ensures Simple(n, RingEdges(group, reach))
  {
  }

  lemma {:induction false} RingNeighborIsNear(group: seq<nat>, reach: nat, i: nat, u: nat) returns (j: nat)
    requires 2 * reach < |group| && i < |group| && Distinct(group)
    requires Link(u, group[i]) in RingEdges(group, reach)
    ensures j in Near(i, reach, |group|) && j < |group| && group[j] == u
  {
    var m := |group|;
    var x, o :| 0 <= x < m && 1 <= o <= reach && Link(group[x], group[Ahead(x, o, m)]) == Link(u, group[i]);
    var y := Ahead(x, o, m);
    GapOfAhead(x, o, m);
    j := if group[x] == group[i] && group[y] == u then y else x;
    NearMember(i, reach, m, j);
  }

  lemma {:induction false} NearIsRingNeighbor(group: seq<nat>, reach: nat, i: nat, j: nat)
    requires 2 * reach < |group| && i < |group|
    requires j in Near(i, reach, |group|)
    ensures j < |group| && Link(group[j], group[i]) in RingEdges(group, reach)
  {
    var m := |group|;
    NearMember(i, reach, m, j);
    var x, y := if 1 <= Gap(i, j, m) <= reach then i else j, if 1 <= Gap(i, j, m) <= reach then j else i;
    var g := Gap(x, y, m);
    assert Ahead(x, g, m) == y;
    assert Link(group[x], group[Ahead(x, g, m)]) in RingEdges(group, reach);
    assert Link(group[x], group[y]) == Link(group[j], group[i]);
  }

  lemma {:induction false} RingDegree(n: nat, group: seq<nat>, reach: nat, i: nat)
    requires 2 * reach < |group| && i < |group|
    requires Distinct(group) && forall k :: 0 <= k < |group| ==> group[k] < n
    ensures Degree(n, RingEdges(group, reach), group[i]) == 2 * reach
  {
    var edges, near := RingEdges(group, reach), Near(i, reach, |group|);
    forall j | j in near ensures j < |group| && group[j] in Neighbors(n, edges, group[i]) {
      NearIsRingNeighbor(group, reach, i, j);
    }
    forall u | u in Neighbors(n, edges, group[i]) ensures u in Image(group, near) {
      var j := RingNeighborIsNear(group, reach, i, u);
    }
    assert Neighbors(n, edges, group[i]) == Image(group, near);
    ImageSize(group, near);
    NearSize(i, reach, |group|);
  }

  /** Walking round a ring whose first edge may be missing: every node reaches the second. */
  lemma {:induction false} RingReaches(edges: set<Edge>, group: seq<nat>, reach: nat, i: nat)
    requires 3 <= |group| && 1 <= reach < |group| && Distinct(group) && i < |group|
    requires RingEdges(group, reach) - {Link(group[0], group[1])} <= edges
    ensures Linked(edges, group[i], group[1])
    decreases if i == 0 then |group| else i
  {
    var m := |group|;
    if i == 1 {
      LinkedSelf(edges, group[1]);
    } else {
      var before := if i == 0 then m - 1 else i - 1;
      RingReaches(edges, group, reach, before);
      assert Ahead(before, 1, m) == i;
      assert Link(group[before], group[Ahead(before, 1, m)]) in RingEdges(group, reach);
      LinkedReverse(edges, group[before], group[1]);
      LinkedStep(edges, group[1], group[before], group[i]);
      LinkedReverse(edges, group[1], group[i]);
    }
  }

  lemma {:induction false} RingReachesFirst(edges: set<Edge>, group: seq<nat>, reach: nat, i: nat)
    requires 1 <= reach < |group| && i < |group| && RingEdges(group, reach) <= edges
    ensures Linked(edges, group[i], group[0])
  {
    if i == 0 {
      LinkedSelf(edges, group[0]);
    } else {
      RingReachesFirst(edges, group, reach, i - 1);
      assert Link(group[i - 1], group[Ahead(i - 1, 1, |group|)]) in RingEdges(group, reach);
      LinkedReverse(edges, group[i - 1], group[0]);
      LinkedStep(edges, group[0], group[i - 1], group[i]);
      LinkedReverse(edges, group[0], group[i]);
    }
  }

  /** A ring through all nodes is simple and connected. */
  lemma {:induction false} RingIsConnected(n: nat, order: seq<nat>, reach: nat)
    requires Permutation(order, n) && 1 <= reach < n
    ensures Simple(n, RingEdges(order, reach)) && Connected(n, RingEdges(order, reach))
  {
    RingSimple(n, order, reach);
    forall v: nat | v < n ensures Linked(RingEdges(order, reach), v, order[0]) {
      PermutationHas(order, n, v);
      var i :| 0 <= i < n && order[i] == v;
      RingReachesFirst(RingEdges(order, reach), order, reach, i);
    }
    ConnectedThrough(n, RingEdges(order, reach), order[0]);
  }

  lemma {:induction false} EnoughEdges(n: nat, edges: set<Edge>, order: seq<nat>, reach: nat)
    requires Permutation(order, n) && n >= 3 && 1 <= reach < n && edges == RingEdges(order, reach)
    ensures |edges| >= 2
  {
    var e, f := Link(order[0], order[Ahead(0, 1, n)]), Link(order[1], order[Ahead(1, 1, n)]);
    assert e in edges && f in edges && e != f;
    assert edges == edges - {e, f} + {e, f};
  }

  lemma {:induction false} RingIsRegular(n: nat, order: seq<nat>, reach: nat)
    requires Permutation(order, n) && 2 * reach < n
    ensures Regular(n, RingEdges(order, reach), 2 * reach)
  {
    forall v | 0 <= v < n ensures Degree(n, RingEdges(order, reach), v) == 2 * reach {
      PermutationHas(order, n, v);
      var i :| 0 <= i < n && order[i] == v;
      RingDegree(n, order, reach, i);
    }
  }

  // ----- two communities -----

  /** The two halves of the shuffled nodes. */
  predicate Halves(order: seq<nat>, n: nat, left: seq<nat>, right: seq<nat>) {
    Permutation(order, n) && n % 2 == 0 && left == order[..n / 2] && right == order[n / 2..]
  }

  function CrossEdges(edges: set<Edge>, left: seq<nat>): set<Edge> {
    set e | e in edges && (e.low in left) != (e.high in left)
  }

  function TwoRings(left: seq<nat>, right: seq<nat>, reach: nat): set<Edge>
    requires reach < |left| && reach < |right|
  {
    RingEdges(left, reach) + RingEdges(right, reach)
  }

  /** Two rings, with one edge of each replaced by two bridges. */
  function CommunityEdges(left: seq<nat>, right: seq<nat>, reach: nat): set<Edge>
    requires 1 < |left| && 1 < |right| && reach < |left| && reach < |right|
  {
    Swapped(TwoRings(left, right, reach), left[0], left[1], right[1], right[0])
  }

  lemma {:induction false} HalvesAreGroups(order: seq<nat>, n: nat, left: seq<nat>, right: seq<nat>)
    requires Halves(order, n, left, right)
    ensures |left| == |right| == n / 2 && Distinct(left) && Distinct(right)
    ensures forall v :: v in left ==> v < n && v !in right
    ensures forall v :: v in right ==> v < n && v !in left
    ensures forall v: nat :: v < n ==> v in left || v in right
  {
    assert forall i :: 0 <= i < |right| ==> right[i] == order[n / 2 + i];
    forall v: nat | v < n ensures v in left || v in right {
      PermutationHas(order, n, v);
      var i :| 0 <= i < n && order[i] == v;
      assert if i < n / 2 then left[i] == v else right[i - n / 2] == v;
    }
  }

  lemma {:induction false} RingEdgesStayInside(group: seq<nat>, reach: nat)
    requires reach < |group|
    ensures forall e :: e in RingEdges(group, reach) ==> e.low in group && e.high in group
  {
  }

  lemma {:induction false} TwoRingsDegree(n: nat, left: seq<nat>, right: seq<nat>, reach: nat, v: nat)
    requires |left| == |right| && 2 * reach < |left| && Distinct(left) && v in left
    requires forall u :: u in left ==> u < n && u !in right
    ensures Degree(n, TwoRings(left, right, reach), v) == 2 * reach
    ensures Degree(n, TwoRings(right, left, reach), v) == 2 * reach
  {
    var i :| 0 <= i < |left| && left[i] == v;
    RingEdgesStayInside(right, reach);
    assert Neighbors(n, TwoRings(left, right, reach), v) == Neighbors(n, RingEdges(left, reach), v);
    assert Neighbors(n, TwoRings(right, left, reach), v) == Neighbors(n, RingEdges(left, reach), v);
    assert forall k :: 0 <= k < |left| ==> left[k] in left;
    RingDegree(n, left, reach, i);
  }

  lemma {:induction false} CommunitySwap(n: nat, order: seq<nat>, left: seq<nat>, right: seq<nat>, reach: nat)
    requires Halves(order, n, left, right) && 1 <= reach && 2 * reach < n / 2
    ensures |left| == |right| == n / 2
    ensures Simple(n, TwoRings(left, right, reach))
    ensures Swappable(TwoRings(left, right, reach), left[0], left[1], right[1], right[0])
  {
    HalvesAreGroups(order, n, left, right);
    RingSimple(n, left, reach);
    RingSimple(n, right, reach);
    RingEdgesStayInside(left, reach);
    RingEdgesStayInside(right, reach);
    assert Link(left[0], left[Ahead(0, 1, |left|)]) in RingEdges(left, reach);
    assert Link(right[0], right[Ahead(0, 1, |right|)]) in RingEdges(right, reach);
  }

  lemma {:induction false} CommunityIsRegular(n: nat, order: seq<nat>, left: seq<nat>, right: seq<nat>, reach: nat)
    requires Halves(order, n, left, right) && 1 <= reach && 2 * reach < n / 2
    ensures |left| == |right| == n / 2
    ensures Simple(n, CommunityEdges(left, right, reach))
    ensures Regular(n, CommunityEdges(left, right, reach), 2 * reach)
  {
    HalvesAreGroups(order, n, left, right);
    CommunitySwap(n, order, left, right, reach);
    SwapKeepsDegrees(n, TwoRings(left, right, reach), left[0], left[1], right[1], right[0]);
    forall v | 0 <= v < n ensures Degree(n, CommunityEdges(left, right, reach), v) == 2 * reach {
      if v in left {
        TwoRingsDegree(n, left, right, reach, v);
      } else {
        TwoRingsDegree(n, right, left, reach, v);
      }
    }
  }

  lemma {:induction false} CommunityIsConnected(n: nat, order: seq<nat>, left: seq<nat>, right: seq<nat>, reach: nat)
    requires Halves(order, n, left, right) && 1 <= reach && 2 * reach < n / 2
    ensures |left| == |right| == n / 2
    ensures Connected(n, CommunityEdges(left, right, reach))
  {
    HalvesAreGroups(order, n, left, right);
    var edges := CommunityEdges(left, right, reach);
    RingEdgesStayInside(left, reach);
    RingEdgesStayInside(right, reach);
    assert Link(right[1], right[0]) == Link(right[0], right[1]) && Link(right[1], left[1]) in edges;
    forall v: nat | v < n ensures Linked(edges, v, left[1]) {
      if v in left {
        var i :| 0 <= i < |left| && left[i] == v;
        RingReaches(edges, left, reach, i);
      } else {
        var i :| 0 <= i < |right| && right[i] == v;
        RingReaches(edges, right, reach, i);
        LinkedStep(edges, v, right[1], left[1]);
      }
    }
    ConnectedThrough(n, edges, left[1]);
  }

  /** Exactly the two bridges join the communities. */
  lemma {:induction false} CommunityBridges(n: nat, order: seq<nat>, left: seq<nat>, right: seq<nat>, reach: nat)
    requires Halves(order, n, left, right) && 1 <= reach && 2 * reach < n / 2
    ensures |left| == |right| == n / 2
    ensures CrossEdges(CommunityEdges(left, right, reach), left)
            == {Link(left[0], right[0]), Link(left[1], right[1])}
    ensures |CrossEdges(CommunityEdges(left, right, reach), left)| == 2
  {
    HalvesAreGroups(order, n, left, right);
    RingEdgesStayInside(left, reach);
    RingEdgesStayInside(right, reach);
    var bridges := {Link(left[0], right[0]), Link(left[1], right[1])};
    assert Link(right[1], left[1]) == Link(left[1], right[1]);
    assert CrossEdges(CommunityEdges(left, right, reach), left) == bridges;
    assert Link(left[0], right[0]) != Link(left[1], right[1]);
  }

  // ----- cliques -----

  function Clique(group: seq<nat>): set<Edge> {
    set i, j | 0 <= i < j < |group| :: Link(group[i], group[j])
  }

  lemma {:induction false} CliqueLinks(group: seq<nat>, i: nat, j: nat)
    requires i < |group| && j < |group| && i != j
    ensures Link(group[i], group[j]) in Clique(group)
  {
    assert Link(group[i], group[j]) == Link(group[j], group[i]);
  }

  lemma {:induction false} CliqueReaches(edges: set<Edge>, group: seq<nat>, i: nat, j: nat)
    requires i < |group| && j < |group| && Clique(group) <= edges
    ensures Linked(edges, group[i], group[j])
  {
    LinkedSelf(edges, group[i]);
    if i != j {
      CliqueLinks(group, i, j);
      LinkedStep(edges, group[i], group[i], group[j]);
    }
  }

  function BarbellEdges(left: seq<nat>, right: seq<nat>): set<Edge>
    requires left != [] && right != []
  {
    Clique(left) + Clique(right) + {Link(left[|left| - 1], right[0])}
  }

  lemma {:induction false} BarbellIsSimple(n: nat, order: seq<nat>, left: seq<nat>, right: seq<nat>)
    requires Halves(order, n, left, right) && n >= 4
    ensures |left| == |right| == n / 2
    ensures Simple(n, BarbellEdges(left, right))
    ensures CrossEdges(BarbellEdges(left, right), left) == {Link(left[|left| - 1], right[0])}
  {
    HalvesAreGroups(order, n, left, right);
    var bridge := Link(left[|left| - 1], right[0]);
    CliqueStaysInside(n, left);
    CliqueStaysInside(n, right);
    assert bridge.low < bridge.high < n && left[|left| - 1] in left && right[0] in right;
    forall e ensures e in CrossEdges(BarbellEdges(left, right), left) <==> e == bridge {
      assert e in Clique(right) ==> e.low in right && e.high in right;
    }
  }

  lemma {:induction false} CliqueStaysInside(n: nat, group: seq<nat>)
    requires Distinct(group) && forall v :: v in group ==> v < n
    ensures forall e :: e in Clique(group) ==> e.low < e.high < n && e.low in group && e.high in group
  {
    forall e | e in Clique(group) ensures e.low < e.high < n && e.low in group && e.high in group {
      var i, j :| 0 <= i < j < |group| && e == Link(group[i], group[j]);
      assert group[i] in group && group[j] in group && group[i] != group[j];
    }
  }

  /** Two cliques and one bridge: simple, connected, one cross edge. */
  lemma {:induction false} BarbellIsConnected(n: nat, order: seq<nat>, left: seq<nat>, right: seq<nat>)
    requires Halves(order, n, left, right) && n >= 4
    ensures |left| == |right| == n / 2
    ensures Connected(n, BarbellEdges(left, right))
  {
    HalvesAreGroups(order, n, left, right);
    var edges, last := BarbellEdges(left, right), |left| - 1;
    assert Link(right[0], left[last]) == Link(left[last], right[0]);
    forall v: nat | v < n ensures Linked(edges, v, left[last]) {
      if v in left {
        var i :| 0 <= i < |left| && left[i] == v;
        CliqueReaches(edges, left, i, last);
      } else {
        var i :| 0 <= i < |right| && right[i] == v;
        CliqueReaches(edges, right, i, 0);
        LinkedStep(edges, v, right[0], left[last]);
      }
    }
    ConnectedThrough(n, edges, left[last]);
  }

  function Identity(n: nat): seq<nat> {
    seq(n, i => i)
  }

  lemma {:induction false} CompleteIsConnected(n: nat)
    requires n >= 2
    ensures Simple(n, Clique(Identity(n))) && Connected(n, Clique(Identity(n)))
    ensures forall u: nat, v: nat :: u < n && v < n && u != v ==> Link(u, v) in Clique(Identity(n))
  {
    var order := Identity(n);
    forall v: nat | v < n ensures Linked(Clique(order), v, 0) {
      CliqueReaches(Clique(order), order, v, 0);
    }
    ConnectedThrough(n, Clique(order), 0);
    forall u: nat, v: nat | u < n && v < n && u != v ensures Link(u, v) in Clique(order) {
      CliqueLinks(order, u, v);
    }
  }

  // ----- the generator -----

  /** The successor of a node on the plain cycle. */
  function Next(v: nat, n: nat): nat
    requires n > 0
  {
    (v + 1) % n
  }

  /** What every constructed network satisfies, topology by topology. */
  ghost predicate Network(topology: Topology, n: nat, degree: int, order: seq<nat>, edges: set<Edge>)
    requires |order| == n
  {
    && Simple(n, edges) && Connected(n, edges)
    && (topology.Complete? ==> forall u: nat, v: nat :: u < n && v < n && u != v ==> Link(u, v) in edges)
    && (topology.Ring? ==> edges == set v | 0 <= v < n :: Link(v, Next(v, n)))
    && (topology.Mixed? || topology.Community? ==> degree >= 0 && Regular(n, edges, degree))
    && (topology.Community? ==> |CrossEdges(edges, order[..n / 2])| == 2)
    && (topology.Barbell? ==> |CrossEdges(edges, order[..n / 2])| == 1
                              && CliqueOn(edges, order[..n / 2]) && CliqueOn(edges, order[n / 2..]))
  }

  /** Every two members of the group are joined. */
  predicate CliqueOn(edges: set<Edge>, group: seq<nat>) {
    forall i, j :: 0 <= i < j < |group| ==> Link(group[i], group[j]) in edges
  }

  /** The loop that adds a ring to the graph, edge by edge. */
  method AddRegularRing(graph: ContactGraph, group: seq<nat>, degree: nat)
    requires degree / 2 < |group|
    modifies graph
    ensures graph.edges == old(graph.edges) + RingEdges(group, degree / 2)
  {
    var m, reach := |group|, degree / 2;
    ghost var start := graph.edges;
    for i := 0 to m
      invariant graph.edges == start + set x, o | 0 <= x < i && 1 <= o <= reach :: Link(group[x], group[Ahead(x, o, m)])
    {
      ghost var row := graph.edges;
      for offset := 1 to reach + 1
        invariant graph.edges == row + set o | 1 <= o < offset :: Link(group[i], group[Ahead(i, o, m)])
      {
        AheadIsModulo(i, offset, m);
        graph.AddEdges({Link(group[i], group[(i + offset) % m])});
      }
    }
  }

  method BuildRing(graph: ContactGraph)
    requires graph.n >= 2 && graph.edges == {}
    modifies graph
    ensures Simple(graph.n, graph.edges) && Connected(graph.n, graph.edges)
    ensures graph.edges == set v | 0 <= v < graph.n :: Link(v, Next(v, graph.n))
  {
    var n := graph.n;
    AddRegularRing(graph, Identity(n), 2);
    assert graph.edges == RingEdges(Identity(n), 1);
    RingIsConnected(n, Identity(n), 1);
    PlainCycle(n);
  }

  lemma {:induction false} PlainCycle(n: nat)
    requires n >= 2
    ensures RingEdges(Identity(n), 1) == set v | 0 <= v < n :: Link(v, Next(v, n))
  {
    forall v: nat | v < n
      ensures Link(v, Next(v, n)) == Link(Identity(n)[v], Identity(n)[Ahead(v, 1, n)])
    {
      AheadIsModulo(v, 1, n);
    }
    forall e ensures e in RingEdges(Identity(n), 1) <==> e in set v | 0 <= v < n :: Link(v, Next(v, n)) {
      if v :| 0 <= v < n && e == Link(v, Next(v, n)) {
        assert e == Link(Identity(n)[v], Identity(n)[Ahead(v, 1, n)]);
      }
    }
  }

  method BuildMixed(graph: ContactGraph, order: seq<nat>, degree: nat)
    requires Permutation(order, graph.n) && graph.edges == {}
    requires ValidTopology(Mixed, graph.n, degree)
    modifies graph
    ensures Simple(graph.n, graph.edges) && Connected(graph.n, graph.edges) && Regular(graph.n, graph.edges, degree)
  {
    var n, proposals := graph.n, 20 * graph.n * degree;
    AddRegularRing(graph, order, degree);
    assert graph.edges == RingEdges(order, degree / 2);
    MixedStart(n, order, degree);
    var _, _ := graph.MixEdges(proposals);
    RegularCarries(n, RingEdges(order, degree / 2), graph.edges, degree);
  }

  lemma {:induction false} MixedStart(n: nat, order: seq<nat>, degree: nat)
    requires Permutation(order, n) && ValidTopology(Mixed, n, degree)
    ensures var edges := RingEdges(order, degree / 2);
            Simple(n, edges) && Connected(n, edges) && Regular(n, edges, degree) && |edges| >= 2
  {
    RingIsConnected(n, order, degree / 2);
    RingIsRegular(n, order, degree / 2);
    EnoughEdges(n, RingEdges(order, degree / 2), order, degree / 2);
  }

  lemma {:induction false} RegularCarries(n: nat, before: set<Edge>, after: set<Edge>, degree: nat)
    requires Regular(n, before, degree) && SameDegrees(n, before, after)
    ensures Regular(n, after, degree)
  {
    forall v | 0 <= v < n ensures Degree(n, after, v) == degree {
      assert Degree(n, before, v) == degree;
    }
  }

  method BuildCommunity(graph: ContactGraph, order: seq<nat>, degree: nat)
    requires Permutation(order, graph.n) && graph.edges == {}
    requires ValidTopology(Community, graph.n, degree)
    modifies graph
    ensures Simple(graph.n, graph.edges) && Connected(graph.n, graph.edges) && Regular(graph.n, graph.edges, degree)
    ensures |CrossEdges(graph.edges, order[..graph.n / 2])| == 2
  {
    var n, reach := graph.n, degree / 2;
    var left, right := order[..n / 2], order[n / 2..];
    AddRegularRing(graph, left, degree);
    AddRegularRing(graph, right, degree);
    assert graph.edges == TwoRings(left, right, reach);
    graph.RemoveEdges({Link(left[0], left[1]), Link(right[0], right[1])});
    graph.AddEdges({Link(left[0], right[0]), Link(left[1], right[1])});
    assert Link(right[1], left[1]) == Link(left[1], right[1]) && Link(right[1], right[0]) == Link(right[0], right[1]);
    assert graph.edges == CommunityEdges(left, right, reach);
    CommunityIsRegular(n, order, left, right, reach);
    CommunityIsConnected(n, order, left, right, reach);
    CommunityBridges(n, order, left, right, reach);
  }

  /** Generate the selected topology over a shuffled list of the nodes. */
  method CreateContactNetwork(topology: Topology, n: nat, degree: int, order: seq<nat>)
    returns (network: Option<set<Edge>>)
    requires Permutation(order, n)
    ensures network.Some? <==> n >= 2 && ValidTopology(topology, n, degree)
    ensures network.Some? ==> Network(topology, n, degree, order, network.value)
  {
    if n < 2 || !ValidTopology(topology, n, degree) {
      return None;
    }
    var graph := new ContactGraph(n, {});
    match topology {
      case Complete =>
        graph.AddEdges(Clique(Identity(n)));
        assert graph.edges == Clique(Identity(n));
        CompleteIsConnected(n);
      case Ring =>
        BuildRing(graph);
      case Community =>
        BuildCommunity(graph, order, degree);
      case Barbell =>
        var left, right := order[..n / 2], order[n / 2..];
        graph.AddEdges(BarbellEdges(left, right));
        assert graph.edges == BarbellEdges(left, right);
        BarbellIsSimple(n, order, left, right);
        BarbellIsConnected(n, order, left, right);
      case Mixed =>
        BuildMixed(graph, order, degree);
    }
    network := Some(graph.edges);
  }

  /** A connected graph on at least two nodes gives every node a neighbour. */
  lemma {:induction false} ConnectedHasNeighbor(n: nat, edges: set<Edge>, v: nat)
    requires n >= 2 && Simple(n, edges) && Connected(n, edges) && v < n
    ensures Neighbors(n, edges, v) != {}
  {
    var u: nat := if v == 0 then 1 else 0;
    assert Linked(edges, v, u);
    var path :| Walk(edges, v, u, path);
    assert Link(path[0], path[1]) in edges && Link(path[1], v) in edges;
    assert path[1] in Neighbors(n, edges, v);
  }

  /** A step to either side on the plain cycle, in the model's modular arithmetic. */
  predicate BesideOnRing(first: nat, second: nat, n: nat)
    requires n > 0
  {
    second == (first + 1) % n || second == (first - 1) % n
  }

  lemma {:induction false} BesideIsNext(first: nat, second: nat, n: nat)
    requires n >= 2 && first < n && BesideOnRing(first, second, n)
    ensures second < n && second != first && (second == Next(first, n) || first == Next(second, n))
  {
    AheadIsModulo(first, 1, n);
    AheadIsModulo(first, n - 1, n);
    if second != (first + 1) % n {
      RemainderIsUnique(first - 1, n, if first == 0 then -1 else 0, Ahead(first, n - 1, n));
      AheadIsModulo(second, 1, n);
    }
  }

  /** The pairs that the model may sample in a network. */
  predicate Picks(topology: Topology, n: nat, edges: set<Edge>, first: nat, second: nat) {
    && first < n
    && if topology.Ring? then BesideOnRing(first, second, n)
       else if topology.Complete? then second < n && second != first
       else second in Neighbors(n, edges, first)
  }

  /** Whatever pair is sampled, it is the two distinct ends of an edge. */
  lemma {:induction false} PickIsContact(topology: Topology, n: nat, degree: int, order: seq<nat>, edges: set<Edge>,
                                         first: nat, second: nat)
    requires n >= 2 && |order| == n && Network(topology, n, degree, order, edges)
    requires Picks(topology, n, edges, first, second)
    ensures first < n && second < n && first != second && Link(first, second) in edges
  {
    assert Link(first, second) == Link(second, first);
    if topology.Ring? {
      BesideIsNext(first, second, n);
    }
  }

  /** Sample an allowed contact. */
  method ChoosePair(topology: Topology, n: nat, degree: int, order: seq<nat>, edges: set<Edge>)
    returns (first: nat, second: nat)
    requires n >= 2 && |order| == n && Network(topology, n, degree, order, edges)
    ensures Picks(topology, n, edges, first, second)
    ensures first < n && second < n && first != second && Link(first, second) in edges
  {
    first :| first < n;
    if topology.Ring? {
      var ahead: bool := *;
      second := if ahead then (first + 1) % n else (first - 1) % n;
    } else if topology.Complete? {
      assert (if first == 0 then 1 else 0) < n;
      second :| second < n && second != first;
    } else {
      ConnectedHasNeighbor(n, edges, first);
      second :| second in Neighbors(n, edges, first);
    }
    PickIsContact(topology, n, degree, order, edges, first, second);
  }
}
