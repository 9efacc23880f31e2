/** What an agent's neighbourhood, its satisfaction and the segregation index mean, by sets of
    cells instead of a scan. */
module SchellingLaws {
  import opened Schelling

  /** The occupied cells among the eight around a cell. */
  ghost function OccupiedAround(w: World, c: Cell): set<Cell> {
    set x, y | c.0 - 1 <= x <= c.0 + 1 && c.1 - 1 <= y <= c.1 + 1 && (x, y) != c && Someone(w, (x, y)) :: (x, y)
  }

  /** Those where somebody of the group stands. */
  ghost function AlikeAround(w: World, c: Cell, group: int): set<Cell> {
    set x, y | c.0 - 1 <= x <= c.0 + 1 && c.1 - 1 <= y <= c.1 + 1 && (x, y) != c && SomeoneOf(w, (x, y), group)
      :: (x, y)
  }

  ghost function Scanned(w: World, c: Cell, k: nat): set<Cell>
    requires k <= 8
  {
    set m: nat | m < k && Someone(w, Shift(c, m)) :: Shift(c, m)
  }

  ghost function ScannedOf(w: World, c: Cell, group: int, k: nat): set<Cell>
    requires k <= 8
  {
    set m: nat | m < k && SomeoneOf(w, Shift(c, m), group) :: Shift(c, m)
  }

  lemma {:induction false} ShiftsDiffer(c: Cell, j: nat, k: nat)
    requires j < k < 8
    ensures Shift(c, j) != Shift(c, k)
  {
    assert OFFSETS[j] != OFFSETS[k];
  }

  lemma {:induction false} ScannedNext(w: World, c: Cell, k: nat)
    requires k < 8
    ensures |Scanned(w, c, k + 1)| == |Scanned(w, c, k)| + if Someone(w, Shift(c, k)) then 1 else 0
  {
    var n, fewer := Shift(c, k), Scanned(w, c, k);
    forall m: nat | m < k ensures Shift(c, m) != n {
      ShiftsDiffer(c, m, k);
    }
    assert n !in fewer;
    assert Scanned(w, c, k + 1) == if Someone(w, n) then fewer + {n} else fewer;
  }

  lemma {:induction false} ScannedOfNext(w: World, c: Cell, group: int, k: nat)
    requires k < 8
    ensures |ScannedOf(w, c, group, k + 1)|
            == |ScannedOf(w, c, group, k)| + if SomeoneOf(w, Shift(c, k), group) then 1 else 0
  {
    var n, fewer := Shift(c, k), ScannedOf(w, c, group, k);
    forall m: nat | m < k ensures Shift(c, m) != n {
      ShiftsDiffer(c, m, k);
    }
    assert n !in fewer;
    assert ScannedOf(w, c, group, k + 1) == if SomeoneOf(w, n, group) then fewer + {n} else fewer;
  }

  lemma {:induction false} ScanIsSize(w: World, c: Cell, group: int, k: nat)
    requires k <= 8
    ensures Scan(w, c, group, k) == (|ScannedOf(w, c, group, k)|, |Scanned(w, c, k)|)
  {
    if k > 0 {
      ScanIsSize(w, c, group, k - 1);
      ScannedNext(w, c, k - 1);
      ScannedOfNext(w, c, group, k - 1);
    }
  }

  lemma {:induction false} EightAround(c: Cell, d: Cell)
    ensures (exists m: nat {:trigger Shift(c, m)} :: m < 8 && d == Shift(c, m)) <==>
            c.0 - 1 <= d.0 <= c.0 + 1 && c.1 - 1 <= d.1 <= c.1 + 1 && d != c
  {
    if c.0 - 1 <= d.0 <= c.0 + 1 && c.1 - 1 <= d.1 <= c.1 + 1 && d != c {
      var m := 3 * (d.0 - c.0 + 1) + (d.1 - c.1 + 1);
      assert d == Shift(c, if m < 4 then m else m - 1);
    }
  }

  /** The counts of an agent are the sizes of the two sets around its cell. */
  lemma {:induction false} CountsAreSizes(w: World, i: nat)
    requires i < |w.people|
    ensures var p := w.people[i];
            Counts(w, i) == (|AlikeAround(w, p.cell, p.group)|, |OccupiedAround(w, p.cell)|)
  {
    var p := w.people[i];
    ScanIsSize(w, p.cell, p.group, 8);
    forall d ensures d in OccupiedAround(w, p.cell) <==> d in Scanned(w, p.cell, 8) {
      EightAround(p.cell, d);
    }
    forall d ensures d in AlikeAround(w, p.cell, p.group) <==> d in ScannedOf(w, p.cell, p.group, 8) {
      EightAround(p.cell, d);
    }
    assert OccupiedAround(w, p.cell) == Scanned(w, p.cell, 8);
    assert AlikeAround(w, p.cell, p.group) == ScannedOf(w, p.cell, p.group, 8);
  }

  /** An agent is satisfied exactly when at least the threshold's share of the occupied cells
      around it is its own group's; one without neighbours always is. */
  lemma {:induction false} SatisfiedIff(w: World, threshold: real, i: nat)
    requires i < |w.people|
    ensures var (alike, all) := (|AlikeAround(w, w.people[i].cell, w.people[i].group)|,
                                 |OccupiedAround(w, w.people[i].cell)|);
            Satisfied(w, threshold, i) <==> alike as real >= threshold * all as real
  {
    CountsAreSizes(w, i);
  }

  // ----- the segregation index -----

  /** The share of its own group around an agent that has neighbours. */
  ghost function Share(w: World, i: nat): real
    requires i < |w.people|
  {
    var p := w.people[i];
    var all := OccupiedAround(w, p.cell);
    if all == {} then 0.0 else |AlikeAround(w, p.cell, p.group)| as real / |all| as real
  }

  ghost function Shares(w: World, k: nat): real
    requires k <= |w.people|
  {
    if k == 0 then 0.0 else Shares(w, k - 1) + Share(w, k - 1)
  }

  /** The first `k` agents that have neighbours. */
  ghost function Sociable(w: World, k: nat): set<nat>
    requires k <= |w.people|
  {
    set i: nat | i < k && OccupiedAround(w, w.people[i].cell) != {}
  }

  lemma {:induction false} SociableNext(w: World, k: nat)
    requires k < |w.people|
    ensures |Sociable(w, k + 1)|
            == |Sociable(w, k)| + if OccupiedAround(w, w.people[k].cell) != {} then 1 else 0
  {
    var fewer := Sociable(w, k);
    assert k !in fewer;
    assert Sociable(w, k + 1) == if OccupiedAround(w, w.people[k].cell) != {} then fewer + {k} else fewer;
  }

  lemma {:induction false} RatioNext(w: World, k: nat)
    requires k < |w.people|
    ensures var more := if OccupiedAround(w, w.people[k].cell) != {} then 1 else 0;
            Ratios(w, k + 1) == (Ratios(w, k).0 + Share(w, k), Ratios(w, k).1 + more)
  {
    CountsAreSizes(w, k);
    var pair := Counts(w, k);
    assert pair.1 > 0 ==> Share(w, k) == pair.0 as real / pair.1 as real;
  }

  /** The sum of the ratios so far is the sum of the shares. */
  ghost predicate SumsShares(w: World, k: nat)
    requires k <= |w.people|
  {
    Ratios(w, k).0 == Shares(w, k)
  }

  lemma {:induction false} SharesNext(w: World, k: nat)
    requires k < |w.people| && SumsShares(w, k)
    ensures SumsShares(w, k + 1)
  {
    RatioNext(w, k);
  }

  lemma {:induction false} RatiosSum(w: World, k: nat)
    requires k <= |w.people|
    ensures forall m: nat {:trigger SumsShares(w, m)} :: m <= k ==> SumsShares(w, m)
  {
    assert SumsShares(w, 0);
    if k > 0 {
      RatiosSum(w, k - 1);
      SharesNext(w, k - 1);
    }
  }

  lemma {:induction false} RatiosCount(w: World, k: nat)
    requires k <= |w.people|
    ensures Ratios(w, k).1 == |Sociable(w, k)|
  {
    if k > 0 {
      RatiosCount(w, k - 1);
      RatioNext(w, k - 1);
      SociableNext(w, k - 1);
    }
  }

  /** The segregation index is the mean share over the agents that have neighbours. */
  lemma {:induction false} SegregationIsMean(w: World)
    ensures var sociable := Sociable(w, |w.people|);
            Segregation(w) == if sociable == {} then 0.0 else Shares(w, |w.people|) / |sociable| as real
  {
    RatiosSum(w, |w.people|);
    assert SumsShares(w, |w.people|);
    RatiosCount(w, |w.people|);
  }
}
