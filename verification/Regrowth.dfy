/** What regrowth does to a grid: the exact condition under which a cell gains a unit, and the
    recovery of a component that has kept a single live cell. */
module Regrowth {
  import opened Prelude
  import opened Landscape

  predicate Beside(a: Cell, b: Cell) {
    Abs(a.0 - b.0) + Abs(a.1 - b.1) == 1
  }

  lemma {:induction false} TouchesIff(a: Cell, b: Cell)
    ensures Touches(a, b) <==> Beside(a, b)
  {
    if Beside(a, b) {
      assert b == Shift(a, if b.1 < a.1 then 0 else if b.1 > a.1 then 1 else if b.0 < a.0 then 2 else 3);
    }
  }

  /** The cell and the cells beside it that hold a unit. */
  function LiveAround(grid: map<Cell, nat>, c: Cell): set<Cell> {
    set d | d in grid && grid[d] > 0 && (d == c || Beside(d, c))
  }

  /** The cell by itself, if it holds a unit. */
  function Alone(grid: map<Cell, nat>, c: Cell): (alone: set<Cell>)
    ensures |alone| == Live(grid, c)
  {
    if c in grid && grid[c] > 0 then {c} else {}
  }

  lemma {:induction false} ApartAdds<T>(a: set<T>, b: set<T>)
    requires a !! b
    ensures |a + b| == |a| + |b|
  {
  }

  lemma {:induction false} BesideIsShift(d: Cell, c: Cell)
    ensures Beside(d, c) <==> d in [Shift(c, 0), Shift(c, 1), Shift(c, 2), Shift(c, 3)]
  {
    assert Shift(c, 0) == (c.0, c.1 - 1) && Shift(c, 1) == (c.0, c.1 + 1);
    assert Shift(c, 2) == (c.0 - 1, c.1) && Shift(c, 3) == (c.0 + 1, c.1);
  }

  lemma {:induction false} FiveCells(grid: map<Cell, nat>, c: Cell)
    ensures LiveAround(grid, c) == Alone(grid, c) + Alone(grid, Shift(c, 0)) + Alone(grid, Shift(c, 1))
                                   + Alone(grid, Shift(c, 2)) + Alone(grid, Shift(c, 3))
  {
    var five := Alone(grid, c) + Alone(grid, Shift(c, 0)) + Alone(grid, Shift(c, 1))
                + Alone(grid, Shift(c, 2)) + Alone(grid, Shift(c, 3));
    forall d ensures d in LiveAround(grid, c) <==> d in five {
      BesideIsShift(d, c);
    }
  }

  lemma {:induction false} SeedsAreLive(grid: map<Cell, nat>, c: Cell)
    ensures Seeds(grid, c) == |LiveAround(grid, c)|
  {
    FiveCells(grid, c);
    var own, up, down := Alone(grid, c), Alone(grid, Shift(c, 0)), Alone(grid, Shift(c, 1));
    var left, right := Alone(grid, Shift(c, 2)), Alone(grid, Shift(c, 3));
    ApartAdds(own, up);
    ApartAdds(own + up, down);
    ApartAdds(own + up + down, left);
    ApartAdds(own + up + down + left, right);
  }

  /** A cell gains a unit when it is fertile and not full, and five times its own draw, the
      next one in row order, is less than the rate times the number of live cells around. */
  predicate Gains(land: Land, capacity: nat, rate: real, field: int -> real, grid: map<Cell, nat>, c: Cell)
    requires c in grid
  {
    && c in land.fertile && grid[c] != capacity
    && 5.0 * field(c.1 * land.width + c.0) < rate * |LiveAround(grid, c)| as real
  }

  lemma {:induction false} FifthOf(draw: real, rate: real, seeds: nat)
    ensures draw < Chance(rate, seeds) <==> 5.0 * draw < rate * seeds as real
  {
    var product := rate * seeds as real;
    assert Chance(rate, seeds) == product / 5.0;
  }

  lemma {:induction false} GainsIff(land: Land, capacity: nat, rate: real, field: int -> real, grid: map<Cell, nat>,
                                    c: Cell)
    requires c in grid
    ensures Gains(land, capacity, rate, field, grid, c) <==>
            c in land.fertile && grid[c] != capacity && field(DrawIndex(land, c)) < Chance(rate, Seeds(grid, c))
  {
    SeedsAreLive(grid, c);
    FifthOf(field(DrawIndex(land, c)), rate, Seeds(grid, c));
  }

  /** Regrowth adds one unit to exactly these cells and leaves the others alone. */
  lemma {:induction false} GrowsExactly(land: Land, capacity: nat, rate: real, field: int -> real, grid: map<Cell, nat>,
                                        c: Cell)
    requires c in grid
    ensures Regrown(land, capacity, rate, field, grid)[c]
            == grid[c] + if Gains(land, capacity, rate, field, grid, c) then 1 else 0
  {
    GainsIff(land, capacity, rate, field, grid, c);
    assert Regrown(land, capacity, rate, field, grid)[c]
           == GrownCell(land, capacity, rate, field(DrawIndex(land, c)), grid, c);
  }

  // ----- recovery -----

  /** Every fertile cell draws less than a fifth of the rate. */
  predicate Fruitful(land: Land, rate: real, field: int -> real) {
    forall c :: c in land.fertile ==> 5.0 * field(c.1 * land.width + c.0) < rate
  }

  function LiveIn(grid: map<Cell, nat>, part: set<Cell>): set<Cell> {
    set c | c in part && c in grid && grid[c] > 0
  }

  /** After `rounds` fruitful rounds so many cells of the part are live, and each of them has
      grown for as long as all of them have been. */
  ghost predicate Recovering(capacity: nat, grid: map<Cell, nat>, part: set<Cell>, rounds: int) {
    && |LiveIn(grid, part)| >= Min(|part|, rounds + 1)
    && forall c :: c in part && c in grid ==> Min(capacity, rounds + 2 - |part|) <= grid[c] <= capacity
  }

  /** A fruitful round adds a unit to every cell of the land that is live or beside a live one. */
  lemma {:induction false} FruitfulGrows(land: Land, capacity: nat, rate: real, field: int -> real,
                                         grid: map<Cell, nat>, c: Cell, d: Cell)
    requires rate > 0.0 && Fruitful(land, rate, field) && c in land.fertile && c in grid && grid[c] <= capacity
    requires d in grid && grid[d] > 0 && (d == c || Beside(d, c))
    ensures Regrown(land, capacity, rate, field, grid)[c] == Min(capacity, grid[c] + 1)
  {
    GrowsExactly(land, capacity, rate, field, grid, c);
    LiveNeighborSuffices(land, capacity, rate, field, grid, c, d);
  }

  lemma {:induction false} LiveNeighborSuffices(land: Land, capacity: nat, rate: real, field: int -> real,
                                                grid: map<Cell, nat>, c: Cell, d: Cell)
    requires rate > 0.0 && Fruitful(land, rate, field) && c in land.fertile && c in grid
    requires d in grid && grid[d] > 0 && (d == c || Beside(d, c))
    ensures Gains(land, capacity, rate, field, grid, c) <==> grid[c] != capacity
  {
    assert d in LiveAround(grid, c);
    BelowManyTimes(5.0 * field(c.1 * land.width + c.0), rate, |LiveAround(grid, c)|);
  }

  lemma {:induction false} BelowManyTimes(draw: real, rate: real, n: nat)
    requires 0.0 < rate && draw < rate && n >= 1
    ensures draw < rate * n as real
  {
    var times := n as real;
    assert rate * (times - 1.0) >= 0.0;
    assert rate * times == rate + rate * (times - 1.0);
  }

  /** A connected part that is neither all live nor all dead has a live cell beside a dead one. */
  lemma {:induction false} LiveMeetsDead(fertile: set<Cell>, component: seq<Cell>, live: set<Cell>)
    returns (a: Cell, b: Cell)
    requires IsComponent(fertile, component) && live < Elements(component) && live != {}
    ensures a in live && b in Elements(component) && b !in live && Beside(a, b)
  {
    var part := Elements(component);
    if x, y :| x in live && y in part && y !in live && Beside(x, y) {
      return x, y;
    }
    assert Closed(fertile, live) && Closed(fertile, part - live) by {
      forall x, y | x in part && y in fertile && Touches(x, y) ensures x in live <==> y in live {
        TouchesIff(x, y);
        assert y in part && Beside(y, x);
      }
    }
    var some :| some in live;
    var none :| none in part && none !in live;
    var first := component[0];
    assert first in part && none in component && some in component;
    assert Joined(fertile, first, none) && Joined(fertile, first, some);
    if first in live {
      var path :| Trail(fertile, first, none, path);
      ClosedKeepsTrail(fertile, live, first, none, path);
    } else {
      var path :| Trail(fertile, first, some, path);
      ClosedKeepsTrail(fertile, part - live, first, some, path);
    }
    assert false;
    a, b := first, first;
  }

  /** A cell that is live or beside a live one has gained a unit, unless it was full. */
  predicate Nourished(capacity: nat, grid: map<Cell, nat>, later: map<Cell, nat>, c: Cell) {
    && c in grid && c in later && grid[c] <= later[c] <= capacity
    && ((exists d :: d in grid && grid[d] > 0 && (d == c || Beside(d, c))) ==> later[c] >= Min(capacity, grid[c] + 1))
  }

  ghost predicate AllNourished(capacity: nat, grid: map<Cell, nat>, later: map<Cell, nat>, part: set<Cell>) {
    forall c {:trigger Nourished(capacity, grid, later, c)} :: c in part ==> Nourished(capacity, grid, later, c)
  }

  lemma {:induction false} FruitfulNourishes(land: Land, capacity: nat, rate: real, field: int -> real,
                                             grid: map<Cell, nat>, part: set<Cell>)
    requires rate > 0.0 && Fruitful(land, rate, field) && part <= land.fertile
    requires forall c :: c in part ==> c in grid && grid[c] <= capacity
    ensures AllNourished(capacity, grid, Regrown(land, capacity, rate, field, grid), part)
  {
    forall c | c in part ensures Nourished(capacity, grid, Regrown(land, capacity, rate, field, grid), c) {
      GrowsExactly(land, capacity, rate, field, grid, c);
      if d :| d in grid && grid[d] > 0 && (d == c || Beside(d, c)) {
        FruitfulGrows(land, capacity, rate, field, grid, c, d);
      }
    }
  }

  lemma {:induction false} LiveSpreads(fertile: set<Cell>, capacity: nat, grid: map<Cell, nat>, later: map<Cell, nat>,
                                       component: seq<Cell>)
    requires capacity >= 1 && IsComponent(fertile, component)
    requires AllNourished(capacity, grid, later, Elements(component)) && LiveIn(grid, Elements(component)) != {}
    ensures |LiveIn(later, Elements(component))| >= Min(|Elements(component)|, |LiveIn(grid, Elements(component))| + 1)
  {
    var part := Elements(component);
    var live, live' := LiveIn(grid, part), LiveIn(later, part);
    forall c | c in live ensures c in live' {
      assert Nourished(capacity, grid, later, c);
    }
    if live == part {
      SubsetSize(live, live');
    } else {
      var a, b := LiveMeetsDead(fertile, component, live);
      assert Nourished(capacity, grid, later, b);
      assert live + {b} <= live';
      SubsetSize(live + {b}, live');
    }
  }

  lemma {:induction false} StockGrows(capacity: nat, grid: map<Cell, nat>, later: map<Cell, nat>, part: set<Cell>,
                                      rounds: nat)
    requires capacity >= 1 && AllNourished(capacity, grid, later, part)
    requires Recovering(capacity, grid, part, rounds) && |LiveIn(later, part)| >= Min(|part|, rounds + 2)
    ensures Recovering(capacity, later, part, rounds + 1)
  {
    if rounds + 1 >= |part| {
      AllLive(grid, part);
    }
    if rounds + 2 >= |part| {
      AllLive(later, part);
    }
    forall c | c in part && c in later ensures Min(capacity, rounds + 3 - |part|) <= later[c] <= capacity {
      assert Nourished(capacity, grid, later, c);
      if rounds + 1 >= |part| {
        assert c in LiveIn(grid, part);
      }
      if rounds + 2 >= |part| {
        assert c in LiveIn(later, part);
      }
    }
  }

  /** One fruitful round brings the recovery one round further. */
  lemma {:induction false} RecoveryGoesOn(land: Land, capacity: nat, rate: real, field: int -> real,
                                          grid: map<Cell, nat>, component: seq<Cell>, rounds: nat)
    requires rate > 0.0 && capacity >= 1 && Fruitful(land, rate, field) && IsComponent(land.fertile, component)
    requires forall c :: c in Elements(component) ==> c in grid
    requires Recovering(capacity, grid, Elements(component), rounds)
    ensures Recovering(capacity, Regrown(land, capacity, rate, field, grid), Elements(component), rounds + 1)
  {
    var part, later := Elements(component), Regrown(land, capacity, rate, field, grid);
    assert component[0] in part;
    FruitfulNourishes(land, capacity, rate, field, grid, part);
    LiveSpreads(land.fertile, capacity, grid, later, component);
    StockGrows(capacity, grid, later, part, rounds);
  }

  lemma {:induction false} AllLive(grid: map<Cell, nat>, part: set<Cell>)
    requires |LiveIn(grid, part)| >= |part|
    ensures LiveIn(grid, part) == part
  {
    SubsetSize(LiveIn(grid, part), part);
    SubsetOfSameSize(LiveIn(grid, part), part);
  }

  lemma {:induction false} SubsetSize<T>(a: set<T>, b: set<T>)
    requires a <= b
    ensures |a| <= |b|
  {
    assert b == a + (b - a);
  }
}
