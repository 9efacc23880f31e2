/** The commons landscape: fertile patches, their connected components, and the
    synchronous regrowth of the resource grid. */
module Landscape {
  import opened Prelude

  /** A cell by column and row. */
  type Cell = (int, int)

  datatype Land = Land(width: nat, height: nat, fertile: set<Cell>) {
    predicate Inside(c: Cell) {
      0 <= c.0 < width && 0 <= c.1 < height
    }

    ghost predicate WellFormed() {
      forall c :: c in fertile ==> Inside(c)
    }
  }

  /** All cells of the land. */
  function Area(land: Land): (cells: set<Cell>)
    ensures forall c :: c in cells <==> land.Inside(c)
  {
    set x, y | 0 <= x < land.width && 0 <= y < land.height :: (x, y)
  }

  const STEPS: seq<Cell> := [(0, -1), (0, 1), (-1, 0), (1, 0)]

  function Shift(c: Cell, k: nat): Cell
    requires k < 4
  {
    (c.0 + STEPS[k].0, c.1 + STEPS[k].1)
  }

  /** Cardinal adjacency. */
  predicate Touches(a: Cell, b: Cell) {
    exists k {:trigger Shift(a, k)} :: 0 <= k < 4 && b == Shift(a, k)
  }

  lemma {:induction false} TouchesIsSymmetric(a: Cell, b: Cell)
    requires Touches(a, b)
    ensures Touches(b, a)
  {
    var k :| 0 <= k < 4 && b == Shift(a, k);
    var back := if k == 0 then 1 else if k == 1 then 0 else if k == 2 then 3 else 2;
    assert a == Shift(b, back);
  }

  // ----- connected components -----

  ghost predicate Trail(land: set<Cell>, a: Cell, b: Cell, path: seq<Cell>) {
    && |path| > 0 && path[0] == a && path[|path| - 1] == b
    && (forall i :: 0 <= i < |path| ==> path[i] in land)
    && forall i :: 0 < i < |path| ==> Touches(path[i - 1], path[i])
  }

  ghost predicate Joined(land: set<Cell>, a: Cell, b: Cell) {
    exists path :: Trail(land, a, b, path)
  }

  /** No fertile neighbour of a member lies outside. */
  ghost predicate Closed(fertile: set<Cell>, part: set<Cell>) {
    forall a, b {:trigger Touches(a, b)} :: a in part && b in fertile && Touches(a, b) ==> b in part
  }

  /** One component: listed without repeats, closed, and joined through fertile cells. */
  ghost predicate IsComponent(fertile: set<Cell>, component: seq<Cell>) {
    && component != [] && Distinct(component) && Elements(component) <= fertile
    && Closed(fertile, Elements(component))
    && forall c {:trigger Joined(fertile, component[0], c)} :: c in component ==> Joined(fertile, component[0], c)
  }

  /** The components partition the fertile cells. */
  ghost predicate IsPartition(fertile: set<Cell>, components: seq<seq<Cell>>) {
    && (forall k {:trigger IsComponent(fertile, components[k])} ::
          0 <= k < |components| ==> IsComponent(fertile, components[k]))
    && (forall k, c :: 0 <= k < |components| && c in components[k] ==> c in fertile)
    && (forall c :: c in fertile ==> exists k :: 0 <= k < |components| && c in components[k])
    && forall j, k, c :: 0 <= j < k < |components| && c in components[j] ==> c !in components[k]
  }

  lemma {:induction false} JoinedStep(land: set<Cell>, a: Cell, b: Cell, c: Cell)
    requires Joined(land, a, b) && Touches(b, c) && c in land
    ensures Joined(land, a, c)
  {
    var path :| Trail(land, a, b, path);
    assert Trail(land, a, c, path + [c]);
  }

  /** A trail that starts in a closed set stays there. */
  lemma {:induction false} ClosedKeepsTrail(fertile: set<Cell>, part: set<Cell>, a: Cell, b: Cell, path: seq<Cell>)
    requires Closed(fertile, part) && a in part && Trail(fertile, a, b, path)
    ensures b in part
    decreases |path|
  {
    if |path| > 1 {
      var shorter := path[..|path| - 1];
      assert Trail(fertile, a, path[|path| - 2], shorter);
      ClosedKeepsTrail(fertile, part, a, path[|path| - 2], shorter);
      assert Touches(path[|path| - 2], path[|path| - 1]);
    }
  }

  /** The flood fill yields exactly the reachability classes of the fertile cells. */
  lemma {:induction false} ComponentsAreReachability(
        fertile: set<Cell>, components: seq<seq<Cell>>, k: nat, a: Cell, b: Cell)
    requires IsPartition(fertile, components) && k < |components|
    requires components[k] != [] && a == components[k][0] && b in fertile
    ensures b in components[k] <==> Joined(fertile, a, b)
  {
    assert IsComponent(fertile, components[k]);
    if Joined(fertile, a, b) {
      var path :| Trail(fertile, a, b, path);
      ClosedKeepsTrail(fertile, Elements(components[k]), a, b, path);
    }
  }

  /** What the inner loop keeps while it grows one component from `start`. */
  ghost predicate Growing(fertile: set<Cell>, pool: set<Cell>, start: Cell, remaining: set<Cell>, component: seq<Cell>,
                          todo: seq<Cell>)
  {
    && component != [] && component[0] == start && Distinct(component)
    && remaining !! Elements(component) && remaining + Elements(component) == pool
    && (forall c :: c in todo ==> c in component)
    && (forall c {:trigger Joined(fertile, start, c)} :: c in component ==> Joined(fertile, start, c))
    && forall a, b {:trigger Touches(a, b)} ::
           a in component && a !in todo && Touches(a, b) && b in pool ==> b in component
  }

  lemma {:induction false} GrowOne(fertile: set<Cell>, pool: set<Cell>, start: Cell, remaining: set<Cell>,
                                   component: seq<Cell>, todo: seq<Cell>, from: Cell, neighbor: Cell)
    requires Growing(fertile, pool, start, remaining, component, todo + [from])
    requires pool <= fertile && Touches(from, neighbor) && neighbor in remaining
    ensures Growing(fertile, pool, start, remaining - {neighbor}, component + [neighbor], todo + [neighbor] + [from])
  {
    assert from in todo + [from] && Joined(fertile, start, from);
    JoinedStep(fertile, start, from, neighbor);
    assert neighbor !in Elements(component);
    assert Elements(component + [neighbor]) == Elements(component) + {neighbor};
  }

  /** Visit the four neighbours of one cell taken from the stack. */
  method Visit(fertile: set<Cell>, ghost pool: set<Cell>, ghost start: Cell, remaining: set<Cell>, component: seq<Cell>,
               todo: seq<Cell>, from: Cell)
    returns (remaining': set<Cell>, component': seq<Cell>, todo': seq<Cell>)
    requires pool <= fertile && Growing(fertile, pool, start, remaining, component, todo + [from])
    ensures Growing(fertile, pool, start, remaining', component', todo')
    ensures remaining' <= remaining && (remaining' == remaining ==> todo' == todo)
  {
    remaining', component', todo' := remaining, component, todo;
    for k := 0 to 4
      invariant Growing(fertile, pool, start, remaining', component', todo' + [from])
      invariant remaining' <= remaining && (remaining' == remaining ==> todo' == todo)
      invariant forall j {:trigger Shift(from, j)} :: 0 <= j < k && Shift(from, j) in pool ==>
                Shift(from, j) in component'
    {
      var neighbor := Shift(from, k);
      if neighbor in remaining' {
        assert Touches(from, neighbor);
        GrowOne(fertile, pool, start, remaining', component', todo', from, neighbor);
        remaining' := remaining' - {neighbor};
        component' := component' + [neighbor];
        todo' := todo' + [neighbor];
      }
    }
    assert from in todo' + [from];
    assert forall c :: c in todo' + [from] <==> c in todo' || c == from;
  }

  /** Grow the component of `start` until the stack is empty. */
  method FillComponent(fertile: set<Cell>, pool: set<Cell>, start: Cell)
    returns (remaining: set<Cell>, component: seq<Cell>)
    requires start in pool && pool <= fertile && Closed(fertile, pool)
    ensures IsComponent(fertile, component)
    ensures remaining !! Elements(component) && remaining + Elements(component) == pool
    ensures Closed(fertile, remaining)
  {
    remaining, component := pool - {start}, [start];
    var todo := [start];
    assert Trail(fertile, start, start, [start]) && Joined(fertile, start, start);
    while todo != []
      invariant Growing(fertile, pool, start, remaining, component, todo)
      decreases remaining, |todo|
    {
      var from := todo[|todo| - 1];
      var rest := todo[..|todo| - 1];
      assert todo == rest + [from];
      remaining, component, todo := Visit(fertile, pool, start, remaining, component, rest, from);
    }
    forall a, b | a in remaining && b in fertile && Touches(a, b) ensures b in remaining {
      TouchesIsSymmetric(a, b);
    }
  }

  /** The flood fill: repeatedly grow a component from a remaining fertile cell. */
  method FindComponents(fertile: set<Cell>) returns (components: seq<seq<Cell>>)
    ensures IsPartition(fertile, components)
  {
    var remaining := fertile;
    components := [];
    while remaining != {}
      invariant remaining <= fertile && Closed(fertile, remaining)
      invariant forall k {:trigger IsComponent(fertile, components[k])} ::
                  0 <= k < |components| ==> IsComponent(fertile, components[k])
      invariant forall k, c :: 0 <= k < |components| && c in components[k] ==> c in fertile && c !in remaining
      invariant forall c :: c in fertile && c !in remaining ==> exists k :: 0 <= k < |components| && c in components[k]
      invariant forall j, k, c :: 0 <= j < k < |components| && c in components[j] ==> c !in components[k]
      decreases remaining
    {
      var start :| start in remaining;
      var rest, component := FillComponent(fertile, remaining, start);
      assert component[0] in Elements(component);
      ghost var before := components;
      components := components + [component];
      forall c | c in fertile && c !in rest ensures exists k :: 0 <= k < |components| && c in components[k] {
        if c in remaining {
          assert c in Elements(component) && c in components[|before|];
        } else {
          var k :| 0 <= k < |before| && c in before[k];
          assert c in components[k];
        }
      }
      assert forall c :: c in component ==> c in Elements(component);
      remaining := rest;
    }
  }

  // ----- regrowth -----

  /** The grid has an entry for every cell inside the land, and for no other. */
  ghost predicate Covers(land: Land, grid: map<Cell, nat>) {
    forall c :: c in grid <==> land.Inside(c)
  }

  /** Which draw of the round belongs to a cell: every cell has its own, row by row. */
  function DrawIndex(land: Land, c: Cell): int {
    c.1 * land.width + c.0
  }

  function Live(grid: map<Cell, nat>, c: Cell): nat {
    if c in grid && grid[c] > 0 then 1 else 0
  }

  /** How many of the cell and its four neighbours still hold a unit. */
  function Seeds(grid: map<Cell, nat>, c: Cell): nat {
    Live(grid, c) + Live(grid, Shift(c, 0)) + Live(grid, Shift(c, 1)) + Live(grid, Shift(c, 2))
    + Live(grid, Shift(c, 3))
  }

  /** The growth threshold of a cell: the rate in proportion to its seeds out of five. */
  function Chance(rate: real, seeds: nat): real {
    rate * (seeds as real) / 5.0
  }

  /** A cell after the round, judged on the grid before the round. */
  function GrownCell(land: Land, capacity: nat, rate: real, draw: real, previous: map<Cell, nat>, c: Cell): nat
    requires c in previous
  {
    if c in land.fertile && previous[c] != capacity && draw < Chance(rate, Seeds(previous, c)) then previous[c] + 1
    else previous[c]
  }

  /** Synchronous regrowth of the whole grid under one field of draws. */
  function Regrown(land: Land, capacity: nat, rate: real, field: int -> real, previous: map<Cell, nat>): map<Cell, nat>
  {
    map c | c in previous :: GrownCell(land, capacity, rate, field(DrawIndex(land, c)), previous, c)
  }

  /** A draw of random(): at least zero and below one. */
  ghost predicate IsField(field: int -> real) {
    forall k :: 0.0 <= field(k) < 1.0
  }

  ghost predicate Below(small: map<Cell, nat>, large: map<Cell, nat>) {
    && small.Keys == large.Keys
    && forall c :: c in small ==> small[c] <= large[c]
  }

  lemma {:induction false} SeedsGrow(small: map<Cell, nat>, large: map<Cell, nat>, c: Cell)
    requires Below(small, large)
    ensures Seeds(small, c) <= Seeds(large, c)
  {
    assert forall d :: Live(small, d) <= Live(large, d);
  }

  lemma {:induction false} ChanceGrows(rate: real, rate': real, seeds: nat, seeds': nat)
    requires 0.0 <= rate <= rate' && seeds <= seeds'
    ensures Chance(rate, seeds) <= Chance(rate', seeds')
  {
    var a, b := seeds as real, seeds' as real;
    assert rate * a <= rate' * a;
    assert rate' * a <= rate' * b;
  }

  lemma {:induction false} GrownCellIsMonotone(land: Land, capacity: nat, rate: real, rate': real, draw: real,
                                               small: map<Cell, nat>, large: map<Cell, nat>, c: Cell)
    requires Below(small, large) && 0.0 <= rate <= rate' && c in small
    requires large[c] <= capacity
    ensures GrownCell(land, capacity, rate, draw, small, c) <= GrownCell(land, capacity, rate', draw, large, c)
  {
    SeedsGrow(small, large, c);
    ChanceGrows(rate, rate', Seeds(small, c), Seeds(large, c));
  }

  /** Common random numbers couple two regrowths: with the same landscape and the same
      draws, less stock and a lower rate can only give less stock. */
  lemma {:induction false} RegrowthIsMonotone(land: Land, capacity: nat, rate: real, rate': real, field: int -> real,
                                              small: map<Cell, nat>, large: map<Cell, nat>)
    requires Below(small, large) && 0.0 <= rate <= rate'
    requires forall c :: c in large ==> large[c] <= capacity
    ensures Below(Regrown(land, capacity, rate, field, small), Regrown(land, capacity, rate', field, large))
  {
    forall c | c in small
      ensures Regrown(land, capacity, rate, field, small)[c] <= Regrown(land, capacity, rate', field, large)[c]
    {
      GrownCellIsMonotone(land, capacity, rate, rate', field(DrawIndex(land, c)), small, large, c);
    }
  }

  /** One cell of the loop; the draw is consumed whether or not the cell is eligible. */
  method RegrowCell(land: Land, capacity: nat, rate: real, draw: real, previous: map<Cell, nat>,
                    resources: map<Cell, nat>, c: Cell)
    returns (resources': map<Cell, nat>)
    requires c in previous && c in resources && resources[c] == previous[c]
    ensures resources' == resources[c := GrownCell(land, capacity, rate, draw, previous, c)]
  {
    resources' := resources;
    if c !in land.fertile || previous[c] == capacity {
      return;
    }
    if draw < Chance(rate, Seeds(previous, c)) {
      resources' := resources'[c := resources'[c] + 1];
    }
  }

  /** The grid once the cells before (x, y), row by row, have been treated. */
  ghost predicate Treated(previous: map<Cell, nat>, target: map<Cell, nat>, resources: map<Cell, nat>, x: int, y: int) {
    && previous.Keys == target.Keys == resources.Keys
    && forall c :: c in previous ==>
                     resources[c] == if c.1 < y || (c.1 == y && c.0 < x) then target[c] else previous[c]
  }

  lemma {:induction false} TreatNext(previous: map<Cell, nat>, target: map<Cell, nat>, resources: map<Cell, nat>,
                                     x: int, y: int)
    requires Treated(previous, target, resources, x, y) && (x, y) in previous
    ensures resources[(x, y)] == previous[(x, y)]
    ensures Treated(previous, target, resources[(x, y) := target[(x, y)]], x + 1, y)
  {
  }

  method RegrowRow(land: Land, capacity: nat, rate: real, field: int -> real, previous: map<Cell, nat>,
                   resources: map<Cell, nat>, y: nat, drawn: int)
    returns (resources': map<Cell, nat>, drawn': int)
    requires Covers(land, previous) && y < land.height && drawn == DrawIndex(land, (0, y))
    requires Treated(previous, Regrown(land, capacity, rate, field, previous), resources, 0, y)
    ensures drawn' == drawn + land.width
    ensures Treated(previous, Regrown(land, capacity, rate, field, previous), resources', land.width, y)
  {
    ghost var target := Regrown(land, capacity, rate, field, previous);
    resources', drawn' := resources, drawn;
    for x := 0 to land.width
      invariant drawn' == drawn + x && Treated(previous, target, resources', x, y)
    {
      var c := (x, y);
      TreatNext(previous, target, resources', x, y);
      assert DrawIndex(land, c) == drawn';
      assert target[c] == GrownCell(land, capacity, rate, field(drawn'), previous, c);
      resources' := RegrowCell(land, capacity, rate, field(drawn'), previous, resources', c);
      drawn' := drawn' + 1;
    }
  }

  /** The loop of the model: one draw for every cell, eligible or not, in row order. */
  method Regrow(land: Land, capacity: nat, rate: real, field: int -> real, previous: map<Cell, nat>)
    returns (resources: map<Cell, nat>)
    requires Covers(land, previous)
    ensures resources == Regrown(land, capacity, rate, field, previous)
  {
    resources := previous;
    ghost var target := Regrown(land, capacity, rate, field, previous);
    var drawn := 0;
    for y := 0 to land.height
      invariant drawn == DrawIndex(land, (0, y)) && Treated(previous, target, resources, 0, y)
    {
      resources, drawn := RegrowRow(land, capacity, rate, field, previous, resources, y, drawn);
      assert DrawIndex(land, (0, y + 1)) == DrawIndex(land, (0, y)) + land.width;
      assert Treated(previous, target, resources, 0, y + 1);
    }
    assert forall c :: c in previous ==> resources[c] == target[c];
  }
}
