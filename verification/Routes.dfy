/** Route distances on the evacuation floor: breadth-first search over the cells
    that are inside the grid, free of walls and not burning. */
module Routes {
  import opened Prelude

  type Position = (int, int)

  /** The part of the floor that never changes during an episode. */
  datatype Floor = Floor(width: int, height: int, walls: set<Position>) {
    predicate Valid(p: Position) {
      0 <= p.0 < width && 0 <= p.1 < height && p !in walls
    }

    predicate Open(fire: set<Position>, p: Position) {
      Valid(p) && p !in fire
    }
  }

  const DIRECTIONS: seq<Position> := [(0, -1), (0, 1), (-1, 0), (1, 0)]

  predicate Adjacent(p: Position, q: Position) {
    || (p.0 == q.0 && (p.1 == q.1 + 1 || q.1 == p.1 + 1))
    || (p.1 == q.1 && (p.0 == q.0 + 1 || q.0 == p.0 + 1))
  }

  method NeighborsOf(floor: Floor, p: Position) returns (result: seq<Position>)
    ensures forall q :: q in result <==> Adjacent(p, q) && floor.Valid(q)
  {
    result := [];
    for k := 0 to 4
      invariant forall q :: q in result <==> floor.Valid(q) && exists j {:trigger DIRECTIONS[j]} ::
                                0 <= j < k && q == (p.0 + DIRECTIONS[j].0, p.1 + DIRECTIONS[j].1)
    {
      var next := (p.0 + DIRECTIONS[k].0, p.1 + DIRECTIONS[k].1);
      if floor.Valid(next) {
        result := result + [next];
      }
    }
    forall q ensures q in result <==> Adjacent(p, q) && floor.Valid(q) {
      assert DIRECTIONS[0] == (0, -1) && DIRECTIONS[1] == (0, 1);
      assert DIRECTIONS[2] == (-1, 0) && DIRECTIONS[3] == (1, 0);
    }
  }

  /** A walk from `target` to `p`; every cell after the first must be open. */
  ghost predicate RouteTo(floor: Floor, fire: set<Position>, target: Position, p: Position, route: seq<Position>) {
    && |route| > 0 && route[0] == target && route[|route| - 1] == p
    && forall i :: 0 < i < |route| ==> floor.Open(fire, route[i]) && Adjacent(route[i - 1], route[i])
  }

  ghost predicate HasRoute(floor: Floor, fire: set<Position>, target: Position, p: Position, steps: nat) {
    exists route :: |route| == steps + 1 && RouteTo(floor, fire, target, p, route)
  }

  /** The exact distance map: its keys are the cells some route reaches, and its
      values are the lengths of the shortest routes. */
  ghost predicate IsRouteMap(floor: Floor, fire: set<Position>, target: Position, m: map<Position, nat>) {
    && (forall p :: p in m ==> HasRoute(floor, fire, target, p, m[p]))
    && (forall p, steps: nat :: HasRoute(floor, fire, target, p, steps) ==> p in m && m[p] <= steps)
  }

  /** Every open neighbour of `p` is in the map, at most one step further out. */
  ghost predicate Settled(floor: Floor, fire: set<Position>, m: map<Position, nat>, p: Position)
    requires p in m
  {
    forall q :: Adjacent(p, q) && floor.Open(fire, q) ==> q in m && m[q] <= m[p] + 1
  }

  lemma {:induction false} ExtendRoute(floor: Floor, fire: set<Position>, target: Position, p: Position, q: Position,
                                       steps: nat)
    requires HasRoute(floor, fire, target, p, steps)
    requires Adjacent(p, q) && floor.Open(fire, q)
    ensures HasRoute(floor, fire, target, q, steps + 1)
  {
    var route :| |route| == steps + 1 && RouteTo(floor, fire, target, p, route);
    var longer := route + [q];
    assert RouteTo(floor, fire, target, q, longer);
  }

  /** A map that is closed under open steps bounds the length of every route. */
  lemma {:induction false} SettledMapCoversRoute(
        floor: Floor, fire: set<Position>, target: Position, m: map<Position, nat>, p: Position, route: seq<Position>)
    requires target in m && m[target] == 0
    requires forall q {:trigger Settled(floor, fire, m, q)} :: q in m ==> Settled(floor, fire, m, q)
    requires RouteTo(floor, fire, target, p, route)
    ensures p in m && m[p] < |route|
    decreases |route|
  {
    if |route| > 1 {
      var shorter := route[..|route| - 1];
      SettledMapCoversRoute(floor, fire, target, m, route[|route| - 2], shorter);
      assert Settled(floor, fire, m, route[|route| - 2]);
      assert Adjacent(route[|route| - 2], route[|route| - 1]);
    }
  }

  /** All cells of the floor. */
  function Cells(floor: Floor): (cells: set<Position>)
    ensures forall p {:trigger p in cells} :: p in cells <==> 0 <= p.0 < floor.width && 0 <= p.1 < floor.height
  {
    set x, y | 0 <= x < floor.width && 0 <= y < floor.height :: (x, y)
  }

  /** What the search maintains: every known cell has a route of its recorded length,
      and every known cell that is no longer pending is settled. */
  ghost predicate Searched(floor: Floor, fire: set<Position>, target: Position, distances: map<Position, nat>,
                           pending: seq<Position>)
  {
    && target in distances && distances[target] == 0
    && distances.Keys <= Cells(floor) + {target}
    && (forall p {:trigger HasRoute(floor, fire, target, p, distances[p])} ::
          p in distances ==> HasRoute(floor, fire, target, p, distances[p]))
    && (forall p {:trigger Settled(floor, fire, distances, p)} ::
          p in distances ==> p in pending || Settled(floor, fire, distances, p))
  }

  /** The pending cells are ordered by distance and nothing lies more than one step
      beyond the first of them. */
  ghost predicate Ordered(distances: map<Position, nat>, pending: seq<Position>) {
    && (forall i :: 0 <= i < |pending| ==> pending[i] in distances)
    && (forall i, j :: 0 <= i < j < |pending| ==> distances[pending[i]] <= distances[pending[j]])
    && (pending != [] ==> forall p :: p in distances ==> distances[p] <= distances[pending[0]] + 1)
  }

  ghost predicate Pending(floor: Floor, fire: set<Position>, target: Position, distances: map<Position, nat>,
                          current: Position, frontier: seq<Position>)
  {
    Searched(floor, fire, target, distances, [current] + frontier) && Ordered(distances, [current] + frontier)
  }

  lemma {:induction false} Discover(floor: Floor, fire: set<Position>, target: Position, current: Position,
                                    known: map<Position, nat>, frontier: seq<Position>, neighbor: Position)
    requires current in known && neighbor !in known
    requires Searched(floor, fire, target, known, [current] + frontier)
    requires Ordered(known, [current] + frontier)
    requires Adjacent(current, neighbor) && floor.Open(fire, neighbor)
    ensures Searched(floor, fire, target, known[neighbor := known[current] + 1], [current] + (frontier + [neighbor]))
    ensures Ordered(known[neighbor := known[current] + 1], [current] + (frontier + [neighbor]))
  {
    var distances := known[neighbor := known[current] + 1];
    var pending := [current] + frontier;
    assert [current] + (frontier + [neighbor]) == pending + [neighbor];
    ExtendRoute(floor, fire, target, current, neighbor, known[current]);
    assert neighbor in Cells(floor);
    forall p | p in distances
      ensures p in pending + [neighbor] || Settled(floor, fire, distances, p)
    {
      if p != neighbor && p !in pending {
        assert Settled(floor, fire, known, p);
      }
    }
    assert pending[0] == current;
  }

  lemma {:induction false} SettleCurrent(floor: Floor, fire: set<Position>, target: Position, current: Position,
                                         distances: map<Position, nat>, frontier: seq<Position>,
                                         neighbors: seq<Position>)
    requires current in distances && Searched(floor, fire, target, distances, [current] + frontier)
    requires Ordered(distances, [current] + frontier)
    requires forall q :: Adjacent(current, q) && floor.Valid(q) ==> q in neighbors
    requires forall i :: 0 <= i < |neighbors| ==> neighbors[i] in fire || neighbors[i] in distances
    ensures Searched(floor, fire, target, distances, frontier) && Ordered(distances, frontier)
  {
    var pending := [current] + frontier;
    assert pending[0] == current && pending[1..] == frontier;
    assert Settled(floor, fire, distances, current);
    assert frontier != [] ==> pending[1] == frontier[0];
    forall i, j | 0 <= i < j < |frontier| ensures distances[frontier[i]] <= distances[frontier[j]] {
      assert pending[i + 1] == frontier[i] && pending[j + 1] == frontier[j];
    }
  }

  /** One neighbour of `current`: a new one gets its distance and joins the queue. */
  method Visit(floor: Floor, fire: set<Position>, target: Position, current: Position, known: map<Position, nat>,
               queue: seq<Position>, neighbor: Position)
    returns (distances: map<Position, nat>, frontier: seq<Position>)
    requires current in known && Pending(floor, fire, target, known, current, queue)
    requires Adjacent(current, neighbor) && floor.Valid(neighbor)
    ensures Pending(floor, fire, target, distances, current, frontier)
    ensures known.Keys <= distances.Keys && (distances.Keys == known.Keys ==> frontier == queue)
    ensures neighbor in fire || neighbor in distances
  {
    distances, frontier := known, queue;
    if !(neighbor in fire || neighbor in distances) {
      Discover(floor, fire, target, current, distances, frontier, neighbor);
      distances := distances[neighbor := distances[current] + 1];
      frontier := frontier + [neighbor];
    }
  }

  /** The body of the search loop: give every new neighbour of `current` its distance. */
  method Expand(floor: Floor, fire: set<Position>, target: Position, current: Position, known: map<Position, nat>,
                queue: seq<Position>)
    returns (distances: map<Position, nat>, frontier: seq<Position>)
    requires current in known && Pending(floor, fire, target, known, current, queue)
    ensures Searched(floor, fire, target, distances, frontier) && Ordered(distances, frontier)
    ensures known.Keys <= distances.Keys && (distances.Keys == known.Keys ==> frontier == queue)
  {
    distances, frontier := known, queue;
    var neighbors := NeighborsOf(floor, current);
    for k := 0 to |neighbors|
      invariant known.Keys <= distances.Keys && (distances.Keys == known.Keys ==> frontier == queue)
      invariant Pending(floor, fire, target, distances, current, frontier)
      invariant forall i :: 0 <= i < k ==> neighbors[i] in fire || neighbors[i] in distances
    {
      assert neighbors[k] in neighbors;
      distances, frontier := Visit(floor, fire, target, current, distances, frontier, neighbors[k]);
    }
    SettleCurrent(floor, fire, target, current, distances, frontier, neighbors);
  }

  /** The search of the model: a queue of cells and a dictionary of distances. */
  method BuildRouteDistanceMap(floor: Floor, fire: set<Position>, target: Position)
    returns (distances: map<Position, nat>)
    ensures IsRouteMap(floor, fire, target, distances)
  {
    distances := map[target := 0];
    var frontier := [target];
    SearchStarts(floor, fire, target);
    while frontier != []
      invariant Searched(floor, fire, target, distances, frontier) && Ordered(distances, frontier)
      decreases Cells(floor) + {target} - distances.Keys, |frontier|
    {
      var current := frontier[0];
      assert frontier == [current] + frontier[1..];
      distances, frontier := Expand(floor, fire, target, current, distances, frontier[1..]);
    }
    SearchedIsExact(floor, fire, target, distances);
  }

  lemma {:induction false} SearchStarts(floor: Floor, fire: set<Position>, target: Position)
    ensures Searched(floor, fire, target, map[target := 0], [target])
  {
    assert RouteTo(floor, fire, target, target, [target]);
    assert HasRoute(floor, fire, target, target, 0);
  }

  lemma {:induction false} SearchedIsExact(floor: Floor, fire: set<Position>, target: Position, m: map<Position, nat>)
    requires Searched(floor, fire, target, m, [])
    ensures IsRouteMap(floor, fire, target, m)
  {
    assert forall p :: p in m ==> HasRoute(floor, fire, target, p, m[p]);
    forall p, steps: nat | HasRoute(floor, fire, target, p, steps)
      ensures p in m && m[p] <= steps
    {
      var route :| |route| == steps + 1 && RouteTo(floor, fire, target, p, route);
      SettledMapCoversRoute(floor, fire, target, m, p, route);
    }
  }

  /** The exact map is unique, so a cached map and a fresh search cannot differ. */
  lemma {:induction false} RouteMapUnique(floor: Floor, fire: set<Position>, target: Position, m: map<Position, nat>,
                                          n: map<Position, nat>)
    requires IsRouteMap(floor, fire, target, m) && IsRouteMap(floor, fire, target, n)
    ensures m == n
  {
    assert forall p :: p in m ==> p in n && m[p] == n[p];
    assert forall p :: p in n ==> p in m;
  }

  /** One step between neighbouring cells changes the distance by at most one and
      never changes reachability. */
  lemma {:induction false} NeighborDistances(floor: Floor, fire: set<Position>, target: Position, m: map<Position, nat>,
                                             p: Position, q: Position)
    requires IsRouteMap(floor, fire, target, m)
    requires Adjacent(p, q) && floor.Open(fire, p) && floor.Open(fire, q)
    ensures p in m <==> q in m
    ensures p in m ==> m[p] <= m[q] + 1 && m[q] <= m[p] + 1
  {
    if p in m {
      ExtendRoute(floor, fire, target, p, q, m[p]);
    }
    if q in m {
      ExtendRoute(floor, fire, target, q, p, m[q]);
    }
  }

  /** When the fire grows, cells can only become unreachable or move further away:
      a map kept from before a spread is an optimistic bound, never a pessimistic one. */
  lemma {:induction false} GrowingFireLengthensRoutes(
        floor: Floor, fire: set<Position>, later: set<Position>, target: Position, m: map<Position, nat>,
        n: map<Position, nat>)
    requires fire <= later
    requires IsRouteMap(floor, fire, target, m) && IsRouteMap(floor, later, target, n)
    ensures n.Keys <= m.Keys
    ensures forall p :: p in n ==> m[p] <= n[p]
  {
    forall p | p in n ensures p in m && m[p] <= n[p] {
      var route :| |route| == n[p] + 1 && RouteTo(floor, later, target, p, route);
      assert RouteTo(floor, fire, target, p, route);
      assert HasRoute(floor, fire, target, p, n[p]);
    }
  }

  /** From every reachable cell some neighbour is exactly one step closer, so an
      evacuee that can reach its exit always has a progressing move. */
  lemma {:induction false} CloserNeighbor(floor: Floor, fire: set<Position>, target: Position, m: map<Position, nat>,
                                          p: Position)
    requires IsRouteMap(floor, fire, target, m)
    requires p in m && p != target
    ensures floor.Open(fire, p)
    ensures exists q :: Adjacent(q, p) && q in m && m[q] + 1 == m[p]
  {
    var route :| |route| == m[p] + 1 && RouteTo(floor, fire, target, p, route);
    assert |route| > 1;
    var q := route[|route| - 2];
    var shorter := route[..|route| - 1];
    assert RouteTo(floor, fire, target, q, shorter);
    assert HasRoute(floor, fire, target, q, m[p] - 1);
    ExtendRoute(floor, fire, target, q, p, m[q]);
    assert Adjacent(q, p);
  }

  /** Shortest route length, stated without any search. */
  ghost function Distance(floor: Floor, fire: set<Position>, target: Position, p: Position): Option<nat> {
    if exists steps: nat :: HasRoute(floor, fire, target, p, steps) then
      Some(Fewest(floor, fire, target, p))
    else
      None
  }

  ghost function Fewest(floor: Floor, fire: set<Position>, target: Position, p: Position): (least: nat)
    requires exists steps: nat :: HasRoute(floor, fire, target, p, steps)
    ensures HasRoute(floor, fire, target, p, least)
    ensures forall steps: nat :: HasRoute(floor, fire, target, p, steps) ==> least <= steps
  {
    var some: nat :| HasRoute(floor, fire, target, p, some);
    FewestUpTo(floor, fire, target, p, some);
    var least: nat :| HasRoute(floor, fire, target, p, least)
                      && forall steps: nat :: HasRoute(floor, fire, target, p, steps) ==> least <= steps;
    least
  }

  lemma {:induction false} FewestUpTo(floor: Floor, fire: set<Position>, target: Position, p: Position, some: nat)
    requires HasRoute(floor, fire, target, p, some)
    ensures exists least: nat :: HasRoute(floor, fire, target, p, least)
                                 && forall steps: nat :: HasRoute(floor, fire, target, p, steps) ==> least <= steps
    decreases some
  {
    if smaller: nat :| smaller < some && HasRoute(floor, fire, target, p, smaller) {
      FewestUpTo(floor, fire, target, p, smaller);
    }
  }

  /** Looking a cell up in an exact map gives its distance. */
  lemma {:induction false} LookupIsDistance(floor: Floor, fire: set<Position>, target: Position, m: map<Position, nat>,
                                            p: Position)
    requires IsRouteMap(floor, fire, target, m)
    ensures Distance(floor, fire, target, p) == if p in m then Some(m[p]) else None
  {
  }

  /** The progress of one move: how much closer it brought the walker, or zero when
      either end is cut off from the target. */
  ghost function Advance(floor: Floor, fire: set<Position>, target: Position, from: Position, to: Position): int {
    var before, after := Distance(floor, fire, target, from), Distance(floor, fire, target, to);
    if before.None? || after.None? then 0 else before.value - after.value
  }

  /** A move between open cells that are equal or neighbouring advances by at most
      one step, so clamping the difference to [-1, 1] never changes it. */
  lemma {:induction false} AdvanceIsBounded(floor: Floor, fire: set<Position>, target: Position, from: Position,
                                            to: Position)
    requires floor.Open(fire, from) && floor.Open(fire, to) && (from == to || Adjacent(from, to))
    ensures -1 <= Advance(floor, fire, target, from, to) <= 1
    ensures Distance(floor, fire, target, from).Some? <==> Distance(floor, fire, target, to).Some?
  {
    if from != to {
      if steps: nat :| HasRoute(floor, fire, target, from, steps) {
        ExtendRoute(floor, fire, target, from, to, Fewest(floor, fire, target, from));
      }
      if steps: nat :| HasRoute(floor, fire, target, to, steps) {
        ExtendRoute(floor, fire, target, to, from, Fewest(floor, fire, target, to));
      }
    }
  }
}
