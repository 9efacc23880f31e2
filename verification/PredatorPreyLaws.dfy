/** What every run of the predators and their prey does: how grass grows back, who is seen, how
    far animals go, and who survives and multiplies. */
module PredatorPreyLaws {
  import opened Prelude
  import opened PredatorPrey

  // ----- grass -----

  /** The `i`-th sheep of a day eats at the cell. */
  ghost predicate EatsAt(day: Day, cell: Cell, i: nat)
    requires |day.pastures| == |day.grazed| + 1
  {
    i < |day.grazed| && day.grazed[i].animal.cell == cell && cell in day.pastures[i] && day.pastures[i][cell] == 0
  }

  /** Nobody before the `k`-th sheep of a day eats at the cell. */
  ghost predicate Spared(day: Day, cell: Cell, k: nat)
    requires |day.pastures| == |day.grazed| + 1
  {
    forall i {:trigger EatsAt(day, cell, i)} :: 0 <= i < k ==> !EatsAt(day, cell, i)
  }

  lemma {:induction false} SparedStays(c: Config, sheep: seq<Animal>, day: Day, cell: Cell, k: nat)
    requires c.WellFormed() && Grazing(c, sheep, day.pastures, day.grazed) && k <= |day.grazed|
    requires cell in day.pastures[0] && Spared(day, cell, k)
    ensures cell in day.pastures[k] && day.pastures[k][cell] == day.pastures[0][cell]
  {
    if k > 0 {
      SparedStays(c, sheep, day, cell, k - 1);
      assert GrazesAt(c, sheep, day.pastures, day.grazed, k - 1) && !EatsAt(day, cell, k - 1);
    }
  }

  lemma {:induction false} EatenIsShort(c: Config, sheep: seq<Animal>, day: Day, cell: Cell, i: nat, k: nat)
    requires c.WellFormed() && Grazing(c, sheep, day.pastures, day.grazed) && i < k <= |day.grazed|
    requires EatsAt(day, cell, i)
    ensures cell in day.pastures[k] && day.pastures[k][cell] == c.regrowthSteps
  {
    assert GrazesAt(c, sheep, day.pastures, day.grazed, k - 1);
    if i < k - 1 {
      EatenIsShort(c, sheep, day, cell, i, k - 1);
    }
  }

  /** How long a cell that was eaten `steps` ago has still to grow. */
  function TimeLeft(c: Config, steps: nat): nat {
    if steps >= c.regrowthSteps then 0 else c.regrowthSteps - steps
  }

  ghost predicate DayAt(trace: seq<World>, days: seq<Day>, k: nat)
    requires |trace| == |days| + 1 && k < |days|
  {
    && SteppedAt(trace, days, k) && trace[k].config == trace[0].config
    && |days[k].grazed| == |trace[k].sheep| && |days[k].pastures| == |days[k].grazed| + 1
    && forall cell :: trace[0].config.OnTorus(cell) ==> cell in trace[k].grass
  }

  lemma {:induction false} DaysOfRun(trace: seq<World>, days: seq<Day>, k: nat)
    requires Run(trace, days) && k < |days|
    ensures DayAt(trace, days, k)
    decreases k
  {
    RunIsSound(trace, days, k);
    assert SteppedAt(trace, days, k) && Sound(trace[k]);
    if k > 0 {
      DaysOfRun(trace, days, k - 1);
    }
  }

  ghost predicate EatenIn(trace: seq<World>, days: seq<Day>, j: nat, cell: Cell)
    requires |trace| == |days| + 1 && j < |days|
  {
    DayAt(trace, days, j) && exists i {:trigger EatsAt(days[j], cell, i)} :: EatsAt(days[j], cell, i)
  }

  ghost predicate SparedIn(trace: seq<World>, days: seq<Day>, j: nat, cell: Cell)
    requires |trace| == |days| + 1 && j < |days|
  {
    DayAt(trace, days, j) && Spared(days[j], cell, |days[j].grazed|)
  }

  /** Grass grows by one in a step in which nobody eats it. */
  lemma {:induction false} TimerFalls(trace: seq<World>, days: seq<Day>, cell: Cell, k: nat)
    requires |trace| == |days| + 1 && k < |days| && DayAt(trace, days, k) && trace[0].config.OnTorus(cell)
    ensures cell in trace[k].grass && cell in days[k].pastures[0]
    ensures days[k].pastures[0][cell] == if trace[k].grass[cell] > 0 then trace[k].grass[cell] - 1 else 0
    ensures SparedIn(trace, days, k, cell) ==>
              cell in trace[k + 1].grass && trace[k + 1].grass[cell] == days[k].pastures[0][cell]
  {
    if SparedIn(trace, days, k, cell) {
      SparedStays(trace[k].config, trace[k].sheep, days[k], cell, |days[k].grazed|);
    }
  }

  /** Eaten grass grows back: so many steps after the meal the timer of a cell that nobody has
      eaten since is what is left of the regrowth time. */
  lemma {:induction false} GrassGrowsBack(trace: seq<World>, days: seq<Day>, cell: Cell, j: nat, k: nat)
    requires Run(trace, days) && j <= k < |days| && trace[0].config.OnTorus(cell) && EatenIn(trace, days, j, cell)
    requires forall m {:trigger SparedIn(trace, days, m, cell)} :: j < m <= k ==> SparedIn(trace, days, m, cell)
    ensures cell in trace[k + 1].grass && trace[k + 1].grass[cell] == TimeLeft(trace[0].config, k - j)
    decreases k
  {
    if j == k {
      var i :| EatsAt(days[j], cell, i);
      EatenIsShort(trace[j].config, trace[j].sheep, days[j], cell, i, |days[j].grazed|);
    } else {
      GrassGrowsBack(trace, days, cell, j, k - 1);
      assert SparedIn(trace, days, k, cell);
      TimerFalls(trace, days, cell, k);
    }
  }

  /** A cell feeds again exactly from the step on that comes the regrowth time after the meal:
      the first sheep to reach it in a later step eats if and only if that much time has passed. */
  lemma {:induction false} FeedsAgainIff(trace: seq<World>, days: seq<Day>, cell: Cell, j: nat, k: nat, i: nat)
    requires Run(trace, days) && j < k < |days| && trace[0].config.OnTorus(cell) && EatenIn(trace, days, j, cell)
    requires forall m {:trigger SparedIn(trace, days, m, cell)} :: j < m < k ==> SparedIn(trace, days, m, cell)
    requires |days[k].pastures| == |days[k].grazed| + 1 && i < |days[k].grazed|
    requires days[k].grazed[i].animal.cell == cell && Spared(days[k], cell, i)
    ensures EatsAt(days[k], cell, i) <==> k - j >= trace[0].config.regrowthSteps
  {
    GrassGrowsBack(trace, days, cell, j, k - 1);
    DaysOfRun(trace, days, k);
    TimerFalls(trace, days, cell, k);
    SparedStays(trace[k].config, trace[k].sheep, days[k], cell, i);
  }

  // ----- how far animals see and go -----

  /** The shorter way round a ring. */
  function Gap(a: int, b: int, size: int): int {
    var direct := if a < b then b - a else a - b;
    if direct <= size - direct then direct else size - direct
  }

  /** A wolf sees exactly the sheep within its radius on the torus. */
  lemma {:induction false} VisibleIff(c: Config, from: Cell, a: Animal)
    requires c.OnTorus(from) && c.OnTorus(a.cell)
    ensures var (dx, dy) := (Gap(from.0, a.cell.0, c.width), Gap(from.1, a.cell.1, c.height));
            Visible(c, from, a) <==> dx * dx + dy * dy <= c.sight * c.sight
  {
    DistanceSqIsProduct(c, from, a.cell);
    SquareIsProduct(c.sight);
  }

  lemma {:induction false} NextOnRing(a: int, b: int, size: nat)
    requires 0 <= a < size && 0 <= b < size
    ensures Gap(a, b, size) == 0 <==> a == b
    ensures Gap(a, b, size) <= 1 <==> b == a || b == (a + 1) % size || b == (a - 1) % size
  {
    RemainderIsUnique(a + 1, size, if a + 1 == size then 1 else 0, if a + 1 == size then 0 else a + 1);
    RemainderIsUnique(a - 1, size, if a == 0 then -1 else 0, if a == 0 then size - 1 else a - 1);
  }

  /** A random move leads to exactly the cells that are at most one step away around the torus. */
  lemma {:induction false} WandersIff(c: Config, from: Cell, to: Cell)
    requires c.WellFormed() && c.OnTorus(from) && c.OnTorus(to)
    ensures Wanders(c, from, to) <==> Gap(from.0, to.0, c.width) + Gap(from.1, to.1, c.height) <= 1
  {
    NextOnRing(from.0, to.0, c.width);
    NextOnRing(from.1, to.1, c.height);
    RemainderIsUnique(from.0, c.width, 0, from.0);
    RemainderIsUnique(from.1, c.height, 0, from.1);
    assert Wrapped(c, from, STEPS[0]) == ((from.0 + 1) % c.width, from.1);
    assert Wrapped(c, from, STEPS[1]) == ((from.0 - 1) % c.width, from.1);
    assert Wrapped(c, from, STEPS[2]) == (from.0, (from.1 + 1) % c.height);
    assert Wrapped(c, from, STEPS[3]) == (from.0, (from.1 - 1) % c.height);
    assert Wrapped(c, from, STEPS[4]) == from;
  }

  // ----- the hunt -----

  /** The squared distance on the torus, by the shorter ways round. */
  function Far(c: Config, from: Cell, to: Cell): int {
    var (dx, dy) := (Gap(from.0, to.0, c.width), Gap(from.1, to.1, c.height));
    dx * dx + dy * dy
  }

  lemma {:induction false} FarIsDistance(c: Config, from: Cell, to: Cell)
    requires c.OnTorus(from) && c.OnTorus(to)
    ensures Far(c, from, to) == DistanceSq(c, from, to)
  {
    DistanceSqIsProduct(c, from, to);
  }

  /** The first of the closest sheep of the herd, and within the radius. */
  predicate FirstClosest(c: Config, from: Cell, herd: seq<Animal>, j: nat) {
    && j < |herd| && Far(c, from, herd[j].cell) <= c.sight * c.sight
    && (forall k {:trigger herd[k]} :: 0 <= k < |herd| ==> Far(c, from, herd[j].cell) <= Far(c, from, herd[k].cell))
    && (forall k {:trigger herd[k]} :: 0 <= k < j ==> Far(c, from, herd[j].cell) < Far(c, from, herd[k].cell))
  }

  /** One step along the axis with the larger difference of coordinates, the shorter way round. */
  predicate Closes(c: Config, from: Cell, to: Cell, target: Cell) {
    if Abs(target.0 - from.0) > Abs(target.1 - from.1) then
      to.1 == from.1 && Gap(to.0, target.0, c.width) == Gap(from.0, target.0, c.width) - 1
    else if target.1 != from.1 then
      to.0 == from.0 && Gap(to.1, target.1, c.height) == Gap(from.1, target.1, c.height) - 1
    else
      to == from
  }

  lemma {:induction false} PursuitCloses(c: Config, from: Cell, target: Cell)
    requires c.WellFormed() && c.OnTorus(from) && c.OnTorus(target)
    ensures Closes(c, from, MoveToward(c, from, target), target)
  {
    if from == target {
      MoveNowhere(c, from);
    } else if Abs(target.0 - from.0) > Abs(target.1 - from.1) {
      MoveAcross(c, from, target);
    } else {
      MoveAlong(c, from, target);
    }
  }

  lemma {:induction false} TargetIff(c: Config, from: Cell, herd: seq<Animal>, j: nat)
    requires c.OnTorus(from) && OnTorusAll(c, herd)
    ensures IsTarget(c, from, herd, j) <==> FirstClosest(c, from, herd, j)
  {
    SquareIsProduct(c.sight);
    forall k | 0 <= k < |herd| ensures Far(c, from, herd[k].cell) == DistanceSq(c, from, herd[k].cell) {
      FarIsDistance(c, from, herd[k].cell);
    }
  }

  /** A wolf chases the first of the closest sheep, if one is within its radius, and otherwise
      goes at most one step. */
  ghost predicate Chases(c: Config, from: Cell, herd: seq<Animal>, to: Cell) {
    if forall a :: a in herd ==> Far(c, from, a.cell) > c.sight * c.sight then
      Gap(from.0, to.0, c.width) + Gap(from.1, to.1, c.height) <= 1
    else
      exists j {:trigger FirstClosest(c, from, herd, j)} ::
        0 <= j < |herd| && FirstClosest(c, from, herd, j) && Closes(c, from, to, herd[j].cell)
  }

  lemma {:induction false} HuntsIsChase(c: Config, from: Cell, herd: seq<Animal>, to: Cell)
    requires c.WellFormed() && c.OnTorus(from) && OnTorusAll(c, herd) && Hunts(c, from, herd, to)
    ensures Chases(c, from, herd, to)
  {
    if SeesSome(c, from, herd) {
      var j: nat :| IsTarget(c, from, herd, j) && to == MoveToward(c, from, herd[j].cell);
      TargetIff(c, from, herd, j);
      PursuitCloses(c, from, herd[j].cell);
      assert herd[j] in herd && Far(c, from, herd[j].cell) <= c.sight * c.sight;
    } else {
      forall a | a in herd ensures Far(c, from, a.cell) > c.sight * c.sight {
        var i :| 0 <= i < |herd| && herd[i] == a;
        VisibleIff(c, from, herd[i]);
      }
      WanderingStays(c, from, to);
      WandersIff(c, from, to);
    }
  }

  /** Of several sheep on the wolf's cell the last one is eaten, and of none nobody. */
  ghost predicate LastEaten(herd: seq<Animal>, cell: Cell, left: seq<Animal>) {
    if forall a :: a in herd ==> a.cell != cell then left == herd
    else
      exists e {:trigger herd[e]} ::
        && 0 <= e < |herd| && herd[e].cell == cell && (forall k :: e < k < |herd| ==> herd[k].cell != cell)
        && left == herd[..e] + herd[e + 1..]
  }

  lemma {:induction false} LastOfStack(herd: seq<Animal>, cell: Cell, k: nat) returns (e: nat)
    requires k <= |herd| && StackOf(herd, cell, k) != []
    ensures e < k && herd[e].cell == cell && StackOf(herd, cell, k)[|StackOf(herd, cell, k)| - 1] == herd[e]
    ensures forall j :: e < j < k ==> herd[j].cell != cell
  {
    if herd[k - 1].cell == cell {
      e := k - 1;
    } else {
      e := LastOfStack(herd, cell, k - 1);
    }
  }

  /** The first `k` animals without the one at position `e`. */
  function Rest(herd: seq<Animal>, e: nat, k: nat): seq<Animal>
    requires e < |herd| && k <= |herd|
  {
    if k <= e then herd[..k] else herd[..e] + herd[e + 1..k]
  }

  lemma {:induction false} RestNext(herd: seq<Animal>, e: nat, k: nat)
    requires e < |herd| && 0 < k <= |herd|
    ensures Rest(herd, e, k) == Rest(herd, e, k - 1) + if k - 1 == e then [] else [herd[k - 1]]
  {
    if k > e + 1 {
      assert herd[e + 1..k] == herd[e + 1..k - 1] + [herd[k - 1]];
    }
  }

  lemma {:induction false} WithoutIsRest(herd: seq<Animal>, e: nat, k: nat)
    requires UniqueIds(herd) && e < |herd| && k <= |herd|
    ensures Without(herd, herd[e].id, k) == Rest(herd, e, k)
  {
    if k > 0 {
      WithoutIsRest(herd, e, k - 1);
      RestNext(herd, e, k);
      assert herd[k - 1].id == herd[e].id <==> k - 1 == e;
    }
  }

  lemma {:induction false} BiteIsLastEaten(herd: seq<Animal>, cell: Cell)
    requires UniqueIds(herd)
    ensures LastEaten(herd, cell, Bite(herd, cell))
  {
    StackedIff(herd, cell, |herd|);
    assert herd[..|herd|] == herd;
    if StackOf(herd, cell, |herd|) != [] {
      var e := LastOfStack(herd, cell, |herd|);
      WithoutIsRest(herd, e, |herd|);
      assert herd[e + 1..|herd|] == herd[e + 1..];
    }
  }

  /** Every wolf in turn chases within the herd that the ones before it left, and eats the last
      sheep of the cell it reaches. */
  lemma {:induction false} WolvesHunt(w: World, day: Day, next: World, i: nat)
    requires Sound(w) && Stepped(w, day, next) && i < |w.wolves|
    ensures Chases(w.config, w.wolves[i].cell, day.herds[i], day.hunted[i].animal.cell)
    ensures LastEaten(day.herds[i], day.hunted[i].animal.cell, day.herds[i + 1])
  {
    FlockIsUnique(w, day, next);
    HuntShrinksHerd(w.config, w.wolves, day.herds, day.hunted, i);
    PartOfHerd(w.config, day.herds[i], day.herds[0], next.nextSheepId);
    assert FeedsAt(w.config, w.wolves, day.herds, day.hunted, i);
    HuntsIsChase(w.config, w.wolves[i].cell, day.herds[i], day.hunted[i].animal.cell);
    BiteIsLastEaten(day.herds[i], day.hunted[i].animal.cell);
  }

  // ----- who survives and multiplies -----

  /** The animals with energy left. */
  function Alive(outcomes: seq<Outcome>, k: nat): set<nat>
    requires k <= |outcomes|
  {
    set i: nat | i < k && outcomes[i].animal.energy > 0.0
  }

  /** Those of them with the energy to bear, and the luck. */
  function Bearing(outcomes: seq<Outcome>, threshold: real, k: nat): set<nat>
    requires k <= |outcomes|
  {
    set i: nat | i < k && outcomes[i].animal.energy > 0.0 && outcomes[i].favoured
                 && outcomes[i].animal.energy >= threshold
  }

  lemma {:induction false} StaysCount(o: Outcome, threshold: real)
    ensures |Stays(o, threshold)| == if o.animal.energy > 0.0 then 1 else 0
  {
  }

  /** As many animals stay as have energy left. */
  lemma {:induction false} SurvivorsCount(outcomes: seq<Outcome>, threshold: real, k: nat)
    requires k <= |outcomes|
    ensures |Survivors(outcomes, threshold, k)| == |Alive(outcomes, k)|
  {
    if k > 0 {
      SurvivorsCount(outcomes, threshold, k - 1);
      AliveNext(outcomes, k);
      StaysCount(outcomes[k - 1], threshold);
    }
  }

  lemma {:induction false} AliveNext(outcomes: seq<Outcome>, k: nat)
    requires 0 < k <= |outcomes|
    ensures |Alive(outcomes, k)| == |Alive(outcomes, k - 1)| + if outcomes[k - 1].animal.energy > 0.0 then 1 else 0
  {
    var fewer := Alive(outcomes, k - 1);
    if outcomes[k - 1].animal.energy > 0.0 {
      assert Alive(outcomes, k) == fewer + {k - 1} && k - 1 !in fewer;
    } else {
      assert Alive(outcomes, k) == fewer;
    }
  }

  /** As many are born as bear. */
  lemma {:induction false} NewbornCount(outcomes: seq<Outcome>, threshold: real, next: nat, k: nat)
    requires k <= |outcomes|
    ensures |Newborn(outcomes, threshold, next, k)| == |Bearing(outcomes, threshold, k)|
  {
    if k > 0 {
      NewbornCount(outcomes, threshold, next, k - 1);
      BearingNext(outcomes, threshold, k);
    }
  }

  lemma {:induction false} BearingNext(outcomes: seq<Outcome>, threshold: real, k: nat)
    requires 0 < k <= |outcomes|
    ensures |Bearing(outcomes, threshold, k)|
            == |Bearing(outcomes, threshold, k - 1)| + if outcomes[k - 1].Bears(threshold) then 1 else 0
  {
    var fewer := Bearing(outcomes, threshold, k - 1);
    if outcomes[k - 1].Bears(threshold) {
      assert Bearing(outcomes, threshold, k) == fewer + {k - 1} && k - 1 !in fewer;
    } else {
      assert Bearing(outcomes, threshold, k) == fewer;
    }
  }

  /** Sheep bear from six units of energy on, wolves from fourteen. */
  lemma {:induction false} BirthsOfStep(w: World, day: Day, next: World)
    requires Sound(w) && Stepped(w, day, next)
    ensures next.timeStep == w.timeStep + 1 && next.config == w.config
    ensures next.nextSheepId == w.nextSheepId + |Bearing(day.grazed, 6.0, |w.sheep|)|
    ensures next.nextWolfId == w.nextWolfId + |Bearing(day.hunted, 14.0, |w.wolves|)|
    ensures |next.wolves| == |Alive(day.hunted, |w.wolves|)| + |Bearing(day.hunted, 14.0, |w.wolves|)|
    ensures |next.sheep| == |Alive(day.grazed, |w.sheep|)| + |Bearing(day.grazed, 6.0, |w.sheep|)|
                            - Kills(day.herds, day.hunted, |w.wolves|)
  {
    StepAccounting(w, day, next);
    SurvivorsCount(day.grazed, SHEEP_BREEDS, |w.sheep|);
    SurvivorsCount(day.hunted, WOLF_BREEDS, |w.wolves|);
    NewbornCount(day.grazed, SHEEP_BREEDS, 0, |w.sheep|);
    NewbornCount(day.hunted, WOLF_BREEDS, 0, |w.wolves|);
  }

  /** An animal with energy left stays where it is, with half of it after a birth, and its
      young stands beside it with the other half. */
  ghost predicate Continues(o: Outcome, threshold: real, next: nat, herd: seq<Animal>) {
    var bears := o.favoured && o.animal.energy >= threshold && o.animal.energy > 0.0;
    && (o.animal.energy > 0.0 ==>
          o.animal.(energy := if bears then o.animal.energy / 2.0 else o.animal.energy) in herd)
    && (bears ==> exists young {:trigger young in herd} ::
          && young in herd && young.id >= next
          && young == Animal(young.id, o.animal.cell, o.animal.energy / 2.0, 0))
  }

  lemma {:induction false} StaysInHerd(outcomes: seq<Outcome>, threshold: real, i: nat, k: nat)
    requires i < k <= |outcomes|
    ensures forall a :: a in Stays(outcomes[i], threshold) ==> a in Survivors(outcomes, threshold, k)
  {
    if i < k - 1 {
      StaysInHerd(outcomes, threshold, i, k - 1);
    }
  }

  lemma {:induction false} BornInHerd(outcomes: seq<Outcome>, threshold: real, next: nat, i: nat, k: nat)
    returns (id: nat)
    requires i < k <= |outcomes|
    ensures id >= next
    ensures forall a :: a in Born(outcomes[i], threshold, id) ==> a in Newborn(outcomes, threshold, next, k)
  {
    if i < k - 1 {
      id := BornInHerd(outcomes, threshold, next, i, k - 1);
    } else {
      id := next + |Newborn(outcomes, threshold, next, i)|;
    }
  }

  lemma {:induction false} OutcomeContinues(outcomes: seq<Outcome>, threshold: real, next: nat, i: nat)
    requires i < |outcomes|
    ensures Continues(outcomes[i], threshold, next, NextHerd(outcomes, threshold, next))
  {
    var o, herd := outcomes[i], NextHerd(outcomes, threshold, next);
    StaysInHerd(outcomes, threshold, i, |outcomes|);
    var id := BornInHerd(outcomes, threshold, next, i, |outcomes|);
    if o.animal.energy > 0.0 {
      assert Stays(o, threshold)[0] in Stays(o, threshold) && Stays(o, threshold)[0] in herd;
    }
    if o.Bears(threshold) {
      assert Born(o, threshold, id)[0] in Born(o, threshold, id) && Born(o, threshold, id)[0] in herd;
    }
  }

  /** One wolf in a step: a year older, it has paid its loss and gained by a meal; with energy
      left it is in the next pack, maybe with a young one. */
  lemma {:induction false} WolfInStep(w: World, day: Day, next: World, i: nat)
    requires Sound(w) && Stepped(w, day, next) && i < |w.wolves|
    ensures var (start, o) := (w.wolves[i], day.hunted[i]);
            && o.animal.id == start.id && o.animal.age == start.age + 1
            && o.animal.energy == start.energy - w.config.wolfLoss
                                  + (if exists a :: a in day.herds[i] && a.cell == o.animal.cell
                                     then w.config.wolfGain else 0.0)
            && Continues(o, 14.0, w.nextWolfId, next.wolves)
  {
    assert FeedsAt(w.config, w.wolves, day.herds, day.hunted, i);
    OutcomeContinues(day.hunted, WOLF_BREEDS, w.nextWolfId, i);
    StackedIff(day.herds[i], day.hunted[i].animal.cell, |day.herds[i]|);
  }

  lemma {:induction false} StackedIff(herd: seq<Animal>, cell: Cell, k: nat)
    requires k <= |herd|
    ensures StackOf(herd, cell, k) != [] <==> exists a :: a in herd[..k] && a.cell == cell
  {
    if k > 0 {
      StackedIff(herd, cell, k - 1);
      assert herd[..k] == herd[..k - 1] + [herd[k - 1]];
    }
    assert k == |herd| ==> herd[..k] == herd;
  }

  /** One sheep in a step, before the hunt. */
  lemma {:induction false} SheepInStep(w: World, day: Day, next: World, i: nat)
    requires Sound(w) && Stepped(w, day, next) && i < |w.sheep|
    ensures var (start, o) := (w.sheep[i], day.grazed[i]);
            && o.animal.id == start.id && o.animal.age == start.age + 1
            && o.animal.energy == start.energy - w.config.sheepLoss
                                  + (if EatsAt(day, o.animal.cell, i) then w.config.sheepGain else 0.0)
            && Continues(o, 6.0, w.nextSheepId, day.herds[0])
  {
    assert GrazesAt(w.config, w.sheep, day.pastures, day.grazed, i);
    OutcomeContinues(day.grazed, SHEEP_BREEDS, w.nextSheepId, i);
  }
}
