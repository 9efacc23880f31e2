/** What one step and a whole episode of the evacuation do, in coordinates, radii and rounds:
    laws of the step relation and of runs that do not depend on how the relation is put together. */
module EvacuationLaws {
  import opened Prelude
  import opened Routes
  import opened Evacuation

  // ----- the guide -----

  /** Where an action leads: up, down, left and right, and nowhere for all other numbers. */
  function Ahead(p: Position, action: int): Position {
    (p.0 + (if action == 3 then -1 else if action == 4 then 1 else 0),
     p.1 + (if action == 1 then -1 else if action == 2 then 1 else 0))
  }

  predicate OnFloor(c: Config, p: Position) {
    0 <= p.0 < c.floor.width && 0 <= p.1 < c.floor.height && p !in c.floor.walls
  }

  /** The guide walks where its action leads when no wall and no fire is there. A sideways
      action points to an outermost exit of that side, and no other action to a new one. */
  lemma {:induction false} GuideAfterStep(s: State, input: Input, next: State, stats: StepStats)
    requires Step(s, input, next, stats) && !Done(s)
    ensures var ahead := Ahead(s.guide, input.action);
            && next.guide == (if OnFloor(s.config, ahead) && ahead !in s.fire then ahead else s.guide)
            && (stats.validAction <==>
                  0 <= input.action <= 4 && (input.action > 0 ==> OnFloor(s.config, ahead) && ahead !in s.fire))
    ensures input.action != 3 && input.action != 4 ==> next.preferred == s.preferred
    ensures input.action == 3 || input.action == 4 ==>
              next.preferred.Some? && next.preferred.value in s.config.exits
              && forall e :: e in s.config.exits ==>
                   if input.action == 3 then next.preferred.value.0 <= e.0 else e.0 <= next.preferred.value.0
  {
  }

  // ----- whom the guide redirects -----

  /** Evacuee `i` is inside the building, close to the guide, and its draw says that it follows. */
  predicate Hears(s: State, input: Input, guide: Position, i: nat)
    requires i < |s.people|
  {
    var p := s.people[i];
    && p.alive && !p.evacuated && input.draws.follows(i)
    && Abs(p.pos.0 - guide.0) + Abs(p.pos.1 - guide.1) <= s.config.guideRadius
  }

  /** The target afterwards is the preferred exit, if there is one and the evacuee hears the
      guide, and otherwise the old one. */
  lemma {:induction false} TargetAfterStep(s: State, input: Input, next: State, stats: StepStats, i: nat)
    requires Step(s, input, next, stats) && !Done(s) && i < |s.people|
    ensures |next.people| == |s.people|
    ensures next.people[i].target
            == if next.preferred.Some? && Hears(s, input, next.guide, i) then next.preferred.value
               else s.people[i].target
  {
    assert RoundAt(s, next, Burning(s, next), input.draws, i);
  }

  /** The fire that evacuees are exposed to in a step. */
  function Burning(s: State, next: State): set<Position> {
    if (s.steps + 1) % s.config.spreadInterval == 0 then next.fire else {}
  }

  /** Over a run, an evacuee that the guide never comes close to keeps its first target. */
  lemma {:induction false} OutOfRangeKeepsTarget(
        trace: seq<State>, inputs: seq<Input>, stats: seq<StepStats>, k: nat, i: nat)
    requires Run(trace, inputs, stats) && k < |trace| && i < |trace[0].people|
    requires forall j :: 0 <= j < k && i < |trace[j].people| ==>
               var p := trace[j].people[i].pos;
               Abs(p.0 - trace[j + 1].guide.0) + Abs(p.1 - trace[j + 1].guide.1) > trace[0].config.guideRadius
    ensures |trace[k].people| == |trace[0].people| && trace[k].config == trace[0].config
    ensures trace[k].people[i].target == trace[0].people[i].target
    decreases k
  {
    if k > 0 {
      OutOfRangeKeepsTarget(trace, inputs, stats, k - 1, i);
      assert Step(trace[k - 1], inputs[k - 1], trace[k], stats[k - 1]);
      if !Done(trace[k - 1]) {
        TargetAfterStep(trace[k - 1], inputs[k - 1], trace[k], stats[k - 1], i);
      }
    }
  }

  // ----- how evacuees move, leave and die -----

  /** An active evacuee stays or goes one cell on, onto no wall and no fire; it has left exactly
      when it stands on an exit, and is dead exactly when the fire that spread in this step
      burns where it stands. Everybody else stays as it is. */
  predicate Fares(s: State, next: State, i: nat)
    requires i < |s.people| == |next.people|
  {
    var (p, q) := (s.people[i], next.people[i]);
    if p.alive && !p.evacuated then
      && Abs(p.pos.0 - q.pos.0) + Abs(p.pos.1 - q.pos.1) <= 1 && OnFloor(s.config, q.pos) && q.pos !in s.fire
      && (q.evacuated <==> q.pos in s.config.exits)
      && (q.alive <==> q.evacuated || !((s.steps + 1) % s.config.spreadInterval == 0 && q.pos in next.fire))
    else
      q == p
  }

  /** An active evacuee may stay where nothing burns, and go to each free cell beside it. */
  lemma {:induction false} CandidateIff(c: Config, fire: set<Position>, from: Position, to: Position)
    ensures Candidate(c, fire, from, to) <==>
            OnFloor(c, to) && to !in fire && Abs(from.0 - to.0) + Abs(from.1 - to.1) <= 1
  {
  }

  lemma {:induction false} FaresInStep(s: State, input: Input, next: State, stats: StepStats, i: nat)
    requires Invariant(s) && Step(s, input, next, stats) && !Done(s) && i < |s.people|
    ensures |next.people| == |s.people| && Fares(s, next, i)
  {
    assert RoundAt(s, next, Burning(s, next), input.draws, i);
    assert Safe(s.config, s.fire, s.people[i]);
  }

  // ----- the fire -----

  /** In the rounds of its interval the fire takes exactly the cells that a burning cell beside
      them sets alight, and in the other steps none. */
  lemma {:induction false} FireAfterStep(s: State, input: Input, next: State, stats: StepStats, p: Position)
    requires Step(s, input, next, stats) && !Done(s)
    ensures p in next.fire <==>
            p in s.fire
            || ((s.steps + 1) % s.config.spreadInterval == 0 && OnFloor(s.config, p) && p !in s.config.exits
                && exists q :: q in s.fire && Abs(p.0 - q.0) + Abs(p.1 - q.1) == 1 && input.draws.ignites(q, p))
  {
    if q :| q in s.fire && Abs(p.0 - q.0) + Abs(p.1 - q.1) == 1 && input.draws.ignites(q, p) {
      assert Adjacent(q, p);
    }
    if q :| q in s.fire && Adjacent(q, p) && input.draws.ignites(q, p) {
      assert Abs(p.0 - q.0) + Abs(p.1 - q.1) == 1;
    }
  }

  /** A cell that the fire can reach in so many rounds, cell by cell, if nothing resists. */
  ghost predicate Reached(c: Config, fire: set<Position>, p: Position, rounds: nat)
    decreases rounds
  {
    if rounds == 0 then p in fire
    else
      Reached(c, fire, p, rounds - 1)
      || (OnFloor(c, p) && p !in c.exits
          && exists q :: Reached(c, fire, q, rounds - 1) && Abs(p.0 - q.0) + Abs(p.1 - q.1) == 1)
  }

  ghost predicate NothingResists(input: Input) {
    forall q, p :: input.draws.ignites(q, p)
  }

  /** The burning cells are those that the first ones reach in so many rounds. */
  ghost predicate Front(c: Config, first: set<Position>, fire: set<Position>, rounds: nat) {
    forall p {:trigger p in fire} :: p in fire <==> Reached(c, first, p, rounds)
  }

  lemma {:induction false} FrontMoves(s: State, input: Input, next: State, stats: StepStats, first: set<Position>,
                                      rounds: nat)
    requires Step(s, input, next, stats) && !Done(s) && NothingResists(input) && Front(s.config, first, s.fire, rounds)
    ensures Front(s.config, first, next.fire, rounds + if (s.steps + 1) % s.config.spreadInterval == 0 then 1 else 0)
  {
    forall p {:trigger p in next.fire}
      ensures p in next.fire <==>
              Reached(s.config, first, p, rounds + if (s.steps + 1) % s.config.spreadInterval == 0 then 1 else 0)
    {
      FireAfterStep(s, input, next, stats, p);
      assert forall q :: input.draws.ignites(q, p);
    }
  }

  /** How many of the first `k` steps are rounds of the fire. */
  function Rounds(k: nat, interval: Interval): nat {
    if k == 0 then 0 else Rounds(k - 1, interval) + if k % interval == 0 then 1 else 0
  }

  /** Every `interval` steps there is one round. */
  lemma {:induction false} RoundsAreQuotient(k: nat, interval: Interval)
    ensures Rounds(k, interval) == k / interval
  {
    if k > 0 {
      RoundsAreQuotient(k - 1, interval);
      QuotientBefore(k, interval, k / interval, k % interval);
    }
  }

  ghost predicate Unresisted(trace: seq<State>, inputs: seq<Input>, j: nat)
    requires j < |inputs| < |trace|
  {
    NothingResists(inputs[j]) && !Done(trace[j])
  }

  lemma {:induction false} FrontPasses(trace: seq<State>, inputs: seq<Input>, stats: seq<StepStats>, k: nat,
                                       rounds: nat)
    requires Run(trace, inputs, stats) && k < |inputs| && Unresisted(trace, inputs, k)
    requires Front(trace[0].config, trace[0].fire, trace[k].fire, rounds)
    ensures Front(trace[0].config, trace[0].fire, trace[k + 1].fire,
                  rounds + if (k + 1) % trace[0].config.spreadInterval == 0 then 1 else 0)
  {
    EpisodeAccounting(trace, inputs, stats, k);
    FrontMoves(trace[k], inputs[k], trace[k + 1], stats[k], trace[0].fire, rounds);
  }

  /** The front of the fire: where nothing resists, after `k` steps exactly the cells burn that
      it reaches in the rounds so far. */
  lemma {:induction false} FireFront(trace: seq<State>, inputs: seq<Input>, stats: seq<StepStats>, k: nat)
    requires Run(trace, inputs, stats) && k < |trace|
    requires forall j {:trigger Unresisted(trace, inputs, j)} :: 0 <= j < k ==> Unresisted(trace, inputs, j)
    ensures Front(trace[0].config, trace[0].fire, trace[k].fire, Rounds(k, trace[0].config.spreadInterval))
    decreases k
  {
    if k > 0 {
      FireFront(trace, inputs, stats, k - 1);
      FrontPasses(trace, inputs, stats, k - 1, Rounds(k - 1, trace[0].config.spreadInterval));
    }
  }

  // ----- when an episode ends, and what a step reports -----

  lemma {:induction false} ActiveIsSize(people: seq<Person>)
    ensures ActiveCount(people) == |set i | 0 <= i < |people| && people[i].Active()|
  {
    if people != [] {
      var last := |people| - 1;
      ActiveIsSize(people[..last]);
      var fewer := set i | 0 <= i < last && people[i].Active();
      assert fewer == set i | 0 <= i < last && people[..last][i].Active();
      assert (set i | 0 <= i < |people| && people[i].Active())
             == fewer + if people[last].Active() then {last} else {};
    }
  }

  /** The episode is over exactly when its steps are used up or nobody is left inside. */
  lemma {:induction false} DoneIff(s: State)
    ensures Done(s) <==> s.steps >= s.config.maxSteps || forall p :: p in s.people ==> p.evacuated || !p.alive
  {
    CountsPartition(s.people);
    ActiveIsSize(s.people);
    var active := set i | 0 <= i < |s.people| && s.people[i].Active();
    if p :| p in s.people && p.Active() {
      var i :| 0 <= i < |s.people| && s.people[i] == p;
      assert i in active;
    }
    if i :| i in active {
      assert s.people[i] in s.people;
    }
  }

  /** The reported numbers as sizes of sets: evacuees with a new target, and active evacuees
      beyond the first of each cell. */
  lemma {:induction false} StepReports(s: State, input: Input, next: State, stats: StepStats)
    requires Step(s, input, next, stats) && !Done(s) && |next.people| == |s.people|
    ensures stats.redirects == |set i | 0 <= i < |s.people| && next.people[i].target != s.people[i].target|
    ensures stats.congestion == |set i | 0 <= i < |next.people| && next.people[i].Active()|
                                - |set i | 0 <= i < |next.people| && next.people[i].Active() :: next.people[i].pos|
  {
    RedirectsIsSize(s.people, next.people, |s.people|);
    ActiveIsSize(next.people);
    OccupiedIsSet(next.people, |next.people|);
  }

  /** The evacuees that left in between, and those that died inside. */
  function Left(before: seq<Person>, after: seq<Person>, k: nat): set<nat>
    requires k <= |before| == |after|
  {
    set i: nat | i < k && after[i].evacuated && !before[i].evacuated
  }

  function Died(before: seq<Person>, after: seq<Person>, k: nat): set<nat>
    requires k <= |before| == |after|
  {
    set i: nat | i < k && !after[i].alive && before[i].alive
  }

  /** Outcomes are final, and nobody is dead and out at once. */
  predicate Settles(p: Person, q: Person) {
    && (p.evacuated ==> q.evacuated) && (!p.alive ==> !q.alive)
    && (p.alive || !p.evacuated) && (q.alive || !q.evacuated)
  }

  /** The reported deltas are exactly the evacuees that left and that died in this step. */
  lemma {:induction false} DeltasAreNew(s: State, input: Input, next: State, stats: StepStats)
    requires Invariant(s) && Step(s, input, next, stats) && !Done(s)
    ensures |next.people| == |s.people|
    ensures stats.evacuatedDelta == |Left(s.people, next.people, |s.people|)|
    ensures stats.deadDelta == |Died(s.people, next.people, |s.people|)|
  {
    forall i {:trigger Settles(s.people[i], next.people[i])} | 0 <= i < |s.people|
      ensures Settles(s.people[i], next.people[i])
    {
      FaresInStep(s, input, next, stats, i);
      assert Safe(s.config, s.fire, s.people[i]);
    }
    CountsDiffer(s.people, next.people, |s.people|);
    assert s.people[..|s.people|] == s.people && next.people[..|s.people|] == next.people;
  }

  lemma {:induction false} LeftNext(before: seq<Person>, after: seq<Person>, k: nat)
    requires 0 < k <= |before| == |after|
    ensures |Left(before, after, k)|
            == |Left(before, after, k - 1)| + if after[k - 1].evacuated && !before[k - 1].evacuated then 1 else 0
  {
    var last := if after[k - 1].evacuated && !before[k - 1].evacuated then {k - 1} else {};
    assert Left(before, after, k) == Left(before, after, k - 1) + last;
  }

  lemma {:induction false} DiedNext(before: seq<Person>, after: seq<Person>, k: nat)
    requires 0 < k <= |before| == |after|
    ensures |Died(before, after, k)|
            == |Died(before, after, k - 1)| + if !after[k - 1].alive && before[k - 1].alive then 1 else 0
  {
    var last := if !after[k - 1].alive && before[k - 1].alive then {k - 1} else {};
    assert Died(before, after, k) == Died(before, after, k - 1) + last;
  }

  lemma {:induction false} CountNext(people: seq<Person>, k: nat)
    requires 0 < k <= |people|
    ensures EvacuatedCount(people[..k]) == EvacuatedCount(people[..k - 1]) + if people[k - 1].evacuated then 1 else 0
    ensures DeadCount(people[..k])
            == DeadCount(people[..k - 1]) + if !people[k - 1].alive && !people[k - 1].evacuated then 1 else 0
  {
    assert people[..k][..k - 1] == people[..k - 1];
  }

  lemma {:induction false} CountsDiffer(before: seq<Person>, after: seq<Person>, k: nat)
    requires k <= |before| == |after|
    requires forall i {:trigger Settles(before[i], after[i])} :: 0 <= i < k ==> Settles(before[i], after[i])
    ensures EvacuatedCount(after[..k]) - EvacuatedCount(before[..k]) == |Left(before, after, k)|
    ensures DeadCount(after[..k]) - DeadCount(before[..k]) == |Died(before, after, k)|
  {
    if k > 0 {
      CountsDiffer(before, after, k - 1);
      CountNext(before, k);
      CountNext(after, k);
      LeftNext(before, after, k);
      DiedNext(before, after, k);
      assert Settles(before[k - 1], after[k - 1]);
    }
  }

  lemma {:induction false} RedirectsIsSize(before: seq<Person>, after: seq<Person>, k: nat)
    requires k <= |before| == |after|
    ensures Redirects(before, after, k) == |set i | 0 <= i < k && after[i].target != before[i].target|
  {
    if k > 0 {
      RedirectsIsSize(before, after, k - 1);
      var fewer := set i | 0 <= i < k - 1 && after[i].target != before[i].target;
      var last := if after[k - 1].target != before[k - 1].target then {k - 1} else {};
      assert (set i | 0 <= i < k && after[i].target != before[i].target) == fewer + last;
    }
  }

  lemma {:induction false} OccupiedIsSet(people: seq<Person>, k: nat)
    requires k <= |people|
    ensures Occupied(people, k) == set i | 0 <= i < k && people[i].Active() :: people[i].pos
  {
    if k > 0 {
      OccupiedIsSet(people, k - 1);
      var fewer := set i | 0 <= i < k - 1 && people[i].Active() :: people[i].pos;
      var last := if people[k - 1].Active() then {people[k - 1].pos} else {};
      assert (set i | 0 <= i < k && people[i].Active() :: people[i].pos) == fewer + last;
    }
  }

  // ----- progress -----

  /** How much closer to its new target the step brought evacuee `i`, if it was active and is
      not cut off. */
  ghost function Gain(s: State, next: State, i: nat): int
    requires i < |s.people| == |next.people|
  {
    var (p, q) := (s.people[i], next.people[i]);
    var before := Distance(s.config.floor, s.fire, q.target, p.pos);
    var after := Distance(s.config.floor, s.fire, q.target, q.pos);
    if p.alive && !p.evacuated && before.Some? && after.Some? then before.value - after.value else 0
  }

  ghost function Gains(s: State, next: State, k: nat): int
    requires k <= |s.people| == |next.people|
  {
    if k == 0 then 0 else Gains(s, next, k - 1) + Gain(s, next, k - 1)
  }

  /** The reported progress is what all evacuees gained together. */
  lemma {:induction false} ProgressIsGain(s: State, input: Input, next: State, stats: StepStats)
    requires Step(s, input, next, stats) && !Done(s) && |next.people| == |s.people|
    ensures stats.movementProgress == Gains(s, next, |s.people|)
  {
    AdvanceIsGain(s, next, |s.people|);
    assert s.people[..|s.people|] == s.people && next.people[..|s.people|] == next.people;
  }

  lemma {:induction false} AdvanceIsGain(s: State, next: State, k: nat)
    requires k <= |s.people| == |next.people|
    ensures TotalAdvance(s.config, s.fire, s.people[..k], next.people[..k]) == Gains(s, next, k)
  {
    if k > 0 {
      AdvanceIsGain(s, next, k - 1);
      assert s.people[..k][..k - 1] == s.people[..k - 1] && next.people[..k][..k - 1] == next.people[..k - 1];
    }
  }

  /** From every cell with a route some move gains exactly one. */
  lemma {:induction false} SomeMoveGains(floor: Floor, fire: set<Position>, target: Position, m: map<Position, nat>,
                                         p: Position)
    requires IsRouteMap(floor, fire, target, m) && p in m && p != target
    ensures exists q: Position :: Abs(p.0 - q.0) + Abs(p.1 - q.1) == 1 && Advance(floor, fire, target, p, q) == 1
  {
    CloserNeighbor(floor, fire, target, m, p);
    var q :| Adjacent(q, p) && q in m && m[q] + 1 == m[p];
    LookupIsDistance(floor, fire, target, m, p);
    LookupIsDistance(floor, fire, target, m, q);
    assert Abs(p.0 - q.0) + Abs(p.1 - q.1) == 1;
  }
}
