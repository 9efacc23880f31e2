/** The fire evacuation episode: guide, evacuees, fire spread, exposure and the
    per-step accounting, with the route cache that the evacuees read. */
module Evacuation {
  import opened Prelude
  import opened Routes

  /** The configured spread interval is at least one step. */
  type Interval = n: int | 1 <= n witness 1

  datatype Config = Config(
    floor: Floor,
    exits: set<Position>,
    maxSteps: int,
    spreadInterval: Interval,
    guideRadius: int)
  {
    predicate Burnable(p: Position) {
      floor.Valid(p) && p !in exits
    }

    predicate WellFormed() {
      exits != {}
    }
  }

  /** One evacuee as a value. */
  datatype Person = Person(
    pos: Position,
    alive: bool,
    evacuated: bool,
    target: Position,
    countedEvacuated: bool,
    countedDead: bool)
  {
    predicate Active() { alive && !evacuated }
    predicate Dead() { !alive && !evacuated }
  }

  datatype State = State(
    config: Config,
    fire: set<Position>,
    guide: Position,
    preferred: Option<Position>,
    people: seq<Person>,
    steps: nat)

  datatype StepStats = StepStats(
    evacuatedDelta: int,
    deadDelta: int,
    congestion: int,
    redirects: int,
    movementProgress: int,
    validAction: bool)

  /** The random outcomes of one step: who would follow the guide, and which burning cell
      would ignite which neighbour. */
  datatype Draws = Draws(follows: nat -> bool, ignites: (Position, Position) -> bool)

  datatype Input = Input(action: int, draws: Draws)

  /** The cells on which active evacuees stand. */
  function Occupied(people: seq<Person>, k: nat): set<Position>
    requires k <= |people|
  {
    if k == 0 then {}
    else Occupied(people, k - 1) + if people[k - 1].Active() then {people[k - 1].pos} else {}
  }

  ghost function ActiveCount(people: seq<Person>): nat {
    CountWhere(people, (p: Person) => p.Active())
  }

  /** How many active evacuees share a cell with another one, beyond the first of each cell. */
  ghost function Congestion(people: seq<Person>): int {
    ActiveCount(people) - |Occupied(people, |people|)|
  }

  ghost function EvacuatedCount(people: seq<Person>): nat {
    CountWhere(people, (p: Person) => p.evacuated)
  }

  ghost function DeadCount(people: seq<Person>): nat {
    CountWhere(people, (p: Person) => p.Dead())
  }

  ghost predicate Done(s: State) {
    EvacuatedCount(s.people) + DeadCount(s.people) == |s.people| || s.steps >= s.config.maxSteps
  }

  // ----- one step as a relation between values -----

  predicate Candidate(c: Config, fire: set<Position>, from: Position, to: Position) {
    c.floor.Open(fire, to) && (to == from || Adjacent(from, to))
  }

  predicate LeftExit(exits: set<Position>, e: Position) {
    e in exits && forall other :: other in exits ==> e.0 <= other.0
  }

  predicate RightExit(exits: set<Position>, e: Position) {
    e in exits && forall other :: other in exits ==> other.0 <= e.0
  }

  /** The guide signals one of the outer exits on a sideways action and walks onto
      valid, unburnt cells only. */
  ghost predicate GuideMoved(s: State, action: int, guide: Position, preferred: Option<Position>, valid: bool) {
    if !(0 <= action < 5) then
      !valid && guide == s.guide && preferred == s.preferred
    else
      var delta := ([(0, 0)] + DIRECTIONS)[action];
      var next := (s.guide.0 + delta.0, s.guide.1 + delta.1);
      && (valid <==> action == 0 || s.config.floor.Open(s.fire, next))
      && guide == (if s.config.floor.Open(s.fire, next) then next else s.guide)
      && (if action == 3 then preferred.Some? && LeftExit(s.config.exits, preferred.value)
          else if action == 4 then preferred.Some? && RightExit(s.config.exits, preferred.value)
          else preferred == s.preferred)
  }

  function Exposed(burnt: set<Position>, p: Person): Person {
    if p.Active() && p.pos in burnt then p.(alive := false) else p
  }

  function Counted(p: Person): Person {
    p.(countedEvacuated := p.countedEvacuated || p.evacuated, countedDead := p.countedDead || p.Dead())
  }

  /** The guide's signal replaces the target of an active evacuee in range that follows it. */
  function Signalled(c: Config, guide: Position, preferred: Option<Position>, follows: bool, p: Person): Person {
    if preferred.Some? && p.Active() && Manhattan(p.pos, guide) <= c.guideRadius && follows
    then p.(target := preferred.value) else p
  }

  /** An active evacuee moves to any candidate cell and leaves on reaching an exit. */
  predicate Moved(c: Config, fire: set<Position>, p: Person, q: Person) {
    if !p.Active() then q == p
    else Candidate(c, fire, p.pos, q.pos) && q == p.(pos := q.pos, evacuated := q.pos in c.exits)
  }

  /** Signal, movement, exposure to the newly burning cells and accounting, for one evacuee. */
  predicate PersonRound(s: State, next: State, burnt: set<Position>, follows: bool, p: Person, q: Person) {
    var signalled := Signalled(s.config, next.guide, next.preferred, follows, p);
    var moved := if p.Active() then signalled.(pos := q.pos, evacuated := q.pos in s.config.exits) else signalled;
    && Moved(s.config, s.fire, signalled, moved)
    && q == Counted(Exposed(burnt, moved))
  }

  predicate AllRounds(s: State, next: State, burnt: set<Position>, draws: Draws) {
    && |next.people| == |s.people|
    && forall i: nat {:trigger RoundAt(s, next, burnt, draws, i)} :: i < |s.people| ==>
          RoundAt(s, next, burnt, draws, i)
  }

  predicate RoundAt(s: State, next: State, burnt: set<Position>, draws: Draws, i: nat)
    requires i < |s.people| == |next.people|
  {
    PersonRound(s, next, burnt, draws.follows(i), s.people[i], next.people[i])
  }

  /** One of the burning cells sets a burnable neighbour alight. */
  ghost predicate Ignited(c: Config, sources: set<Position>, draws: Draws, p: Position) {
    c.Burnable(p) && exists q :: q in sources && Adjacent(q, p) && draws.ignites(q, p)
  }

  /** The fire afterwards: what burnt before, and exactly the cells that were ignited. */
  ghost predicate FireSpread(c: Config, fire: set<Position>, draws: Draws, later: set<Position>) {
    forall p {:trigger p in later} :: p in later <==> p in fire || Ignited(c, fire, draws, p)
  }

  /** The fire once some of the burning cells have been asked. */
  ghost predicate SpreadFrom(c: Config, fire: set<Position>, asked: set<Position>, draws: Draws, later: set<Position>) {
    forall p {:trigger p in later} :: p in later <==> p in fire || Ignited(c, asked, draws, p)
  }

  /** How many evacuees have another target than before. */
  function Redirects(before: seq<Person>, after: seq<Person>, k: nat): nat
    requires k <= |before| && k <= |after|
  {
    if k == 0 then 0
    else Redirects(before, after, k - 1) + if before[k - 1].target != after[k - 1].target then 1 else 0
  }

  ghost function TotalAdvance(c: Config, fire: set<Position>, before: seq<Person>, after: seq<Person>): int
    requires |before| == |after|
  {
    if before == [] then 0
    else
      var last := |before| - 1;
      TotalAdvance(c, fire, before[..last], after[..last])
      + if before[last].Active() then Advance(c.floor, fire, after[last].target, before[last].pos, after[last].pos)
        else 0
  }

  ghost predicate Step(s: State, input: Input, next: State, stats: StepStats) {
    if Done(s) then
      next == s && stats == StepStats(0, 0, 0, 0, 0, stats.validAction)
    else
      var spreads := (s.steps + 1) % s.config.spreadInterval == 0;
      && next.config == s.config && next.steps == s.steps + 1
      && GuideMoved(s, input.action, next.guide, next.preferred, stats.validAction)
      && (if spreads then FireSpread(s.config, s.fire, input.draws, next.fire) else next.fire == s.fire)
      && AllRounds(s, next, if spreads then next.fire else {}, input.draws)
      && stats.evacuatedDelta == EvacuatedCount(next.people) - EvacuatedCount(s.people)
      && stats.deadDelta == DeadCount(next.people) - DeadCount(s.people)
      && stats.congestion == Congestion(next.people)
      && stats.redirects == Redirects(s.people, next.people, |s.people|)
      && stats.movementProgress == TotalAdvance(s.config, s.fire, s.people, next.people)
  }

  // ----- invariants -----

  /** What holds of every evacuee between steps. */
  predicate Safe(c: Config, fire: set<Position>, p: Person) {
    && (p.Active() ==> c.Burnable(p.pos) && p.pos !in fire)
    && (p.evacuated ==> p.alive && p.pos in c.exits)
    && p.target in c.exits
    && p.countedEvacuated == p.evacuated
    && p.countedDead == p.Dead()
  }

  predicate AllSafe(c: Config, fire: set<Position>, people: seq<Person>) {
    forall i {:trigger Safe(c, fire, people[i])} :: 0 <= i < |people| ==> Safe(c, fire, people[i])
  }

  ghost predicate Invariant(s: State) {
    && s.config.WellFormed()
    && (s.preferred.Some? ==> s.preferred.value in s.config.exits)
    && AllSafe(s.config, s.fire, s.people)
  }

  /** A fresh model: every evacuee is active on a free, unburnt cell that is no exit. */
  ghost predicate Initial(s: State) {
    && s.config.WellFormed() && s.preferred.None? && s.steps == 0
    && forall i :: 0 <= i < |s.people| ==>
                     var p := s.people[i];
                     && p.Active() && s.config.Burnable(p.pos) && p.pos !in s.fire && p.target in s.config.exits
                     && !p.countedEvacuated && !p.countedDead
  }

  lemma {:induction false} StepKeepsInvariant(s: State, input: Input, next: State, stats: StepStats)
    requires Invariant(s) && Step(s, input, next, stats)
    ensures Invariant(next)
  {
    if !Done(s) {
      forall i | 0 <= i < |next.people| ensures Safe(next.config, next.fire, next.people[i]) {
        assert Safe(s.config, s.fire, s.people[i]);
        var spreads := (s.steps + 1) % s.config.spreadInterval == 0;
        assert RoundAt(s, next, if spreads then next.fire else {}, input.draws, i);
      }
    }
  }

  ghost predicate Run(trace: seq<State>, inputs: seq<Input>, stats: seq<StepStats>) {
    && |trace| == |inputs| + 1 && |stats| == |inputs|
    && Initial(trace[0])
    && forall i :: 0 <= i < |inputs| ==> Step(trace[i], inputs[i], trace[i + 1], stats[i])
  }

  lemma {:induction false} RunKeepsInvariant(trace: seq<State>, inputs: seq<Input>, stats: seq<StepStats>, last: nat)
    requires Run(trace, inputs, stats) && last < |trace|
    ensures forall k {:trigger Invariant(trace[k])} :: 0 <= k <= last ==> Invariant(trace[k])
  {
    if last > 0 {
      RunKeepsInvariant(trace, inputs, stats, last - 1);
      assert Invariant(trace[last - 1]);
      StepKeepsInvariant(trace[last - 1], inputs[last - 1], trace[last], stats[last - 1]);
    }
  }

  lemma {:induction false} CountsPartition(people: seq<Person>)
    ensures ActiveCount(people) + EvacuatedCount(people) + DeadCount(people) == |people|
  {
    if people != [] {
      CountsPartition(people[..|people| - 1]);
    }
  }

  /** What time cannot undo: the population stays, outcomes are final, the fire only grows and
      takes burnable cells only. */
  ghost predicate GoesOn(s: State, next: State) {
    && next.config == s.config && |next.people| == |s.people|
    && (forall i :: 0 <= i < |s.people| && s.people[i].evacuated ==> next.people[i].evacuated)
    && (forall i :: 0 <= i < |s.people| && s.people[i].Dead() ==> next.people[i].Dead())
    && s.fire <= next.fire
    && forall p :: p in next.fire && p !in s.fire ==> s.config.Burnable(p)
  }

  lemma {:induction false} StepGoesOn(s: State, input: Input, next: State, stats: StepStats)
    requires Invariant(s) && Step(s, input, next, stats)
    ensures GoesOn(s, next)
  {
    if !Done(s) {
      var burnt := if (s.steps + 1) % s.config.spreadInterval == 0 then next.fire else {};
      forall i | 0 <= i < |s.people|
        ensures s.people[i].evacuated ==> next.people[i].evacuated
        ensures s.people[i].Dead() ==> next.people[i].Dead()
      {
        assert RoundAt(s, next, burnt, input.draws, i);
      }
    }
  }

  lemma {:induction false} RunGoesOn(trace: seq<State>, inputs: seq<Input>, stats: seq<StepStats>, last: nat)
    requires Run(trace, inputs, stats) && last < |trace|
    ensures forall j {:trigger GoesOn(trace[j], trace[last])} :: 0 <= j <= last ==> GoesOn(trace[j], trace[last])
  {
    if last > 0 {
      var k := last - 1;
      RunGoesOn(trace, inputs, stats, k);
      RunKeepsInvariant(trace, inputs, stats, k);
      assert Invariant(trace[k]);
      StepGoesOn(trace[k], inputs[k], trace[last], stats[k]);
      forall j {:trigger GoesOn(trace[j], trace[last])} | 0 <= j <= last ensures GoesOn(trace[j], trace[last]) {
        assert j < last ==> GoesOn(trace[j], trace[k]);
      }
    }
  }

  /** Safety of a whole episode, for any actions and any draws: the population is the
      disjoint sum of active, evacuated and dead; leaving and dying are final; no active
      evacuee stands on fire, on a wall or on an exit; the fire only grows and takes
      burnable cells only. */
  lemma {:induction false} EpisodeSafety(trace: seq<State>, inputs: seq<Input>, stats: seq<StepStats>, j: nat, k: nat)
    requires Run(trace, inputs, stats) && j <= k < |trace|
    ensures |trace[k].people| == |trace[0].people|
    ensures ActiveCount(trace[k].people) + EvacuatedCount(trace[k].people) + DeadCount(trace[k].people)
            == |trace[0].people|
    ensures forall i {:trigger trace[k].people[i].Active()} ::
              0 <= i < |trace[k].people| && trace[k].people[i].Active() ==>
                          trace[k].people[i].pos !in trace[k].fire + trace[k].config.exits
                          && trace[k].config.floor.Valid(trace[k].people[i].pos)
    ensures |trace[j].people| == |trace[k].people|
    ensures forall i :: 0 <= i < |trace[k].people| && trace[j].people[i].evacuated ==> trace[k].people[i].evacuated
    ensures forall i :: 0 <= i < |trace[k].people| && trace[j].people[i].Dead() ==> trace[k].people[i].Dead()
    ensures trace[k].config == trace[j].config
    ensures trace[j].fire <= trace[k].fire
    ensures forall p :: p in trace[k].fire && p !in trace[j].fire ==> trace[j].config.Burnable(p)
    decreases k
  {
    RunKeepsInvariant(trace, inputs, stats, k);
    assert Invariant(trace[k]);
    CountsPartition(trace[k].people);
    forall i | 0 <= i < |trace[k].people| ensures Safe(trace[k].config, trace[k].fire, trace[k].people[i]) {
    }
    RunGoesOn(trace, inputs, stats, k);
    assert GoesOn(trace[0], trace[k]) && GoesOn(trace[j], trace[k]);
  }

  ghost function EvacuatedSum(stats: seq<StepStats>): int {
    if stats == [] then 0 else EvacuatedSum(stats[..|stats| - 1]) + stats[|stats| - 1].evacuatedDelta
  }

  ghost function DeadSum(stats: seq<StepStats>): int {
    if stats == [] then 0 else DeadSum(stats[..|stats| - 1]) + stats[|stats| - 1].deadDelta
  }

  lemma {:induction false} NobodyCountedAtStart(people: seq<Person>)
    requires forall i :: 0 <= i < |people| ==> people[i].Active()
    ensures EvacuatedCount(people) == 0 && DeadCount(people) == 0
  {
    if people != [] {
      NobodyCountedAtStart(people[..|people| - 1]);
    }
  }

  /** The deltas reported step by step add up to the final counts, and the episode is
      over after at most `maxSteps` steps. */
  lemma {:induction false} EpisodeAccounting(trace: seq<State>, inputs: seq<Input>, stats: seq<StepStats>, k: nat)
    requires Run(trace, inputs, stats) && k < |trace|
    ensures EvacuatedSum(stats[..k]) == EvacuatedCount(trace[k].people)
    ensures DeadSum(stats[..k]) == DeadCount(trace[k].people)
    ensures Done(trace[k]) || trace[k].steps == k
    ensures trace[k].config == trace[0].config
    ensures k >= trace[0].config.maxSteps ==> Done(trace[k])
    decreases k
  {
    if k == 0 {
      NobodyCountedAtStart(trace[0].people);
    } else {
      EpisodeAccounting(trace, inputs, stats, k - 1);
      assert Step(trace[k - 1], inputs[k - 1], trace[k], stats[k - 1]);
      assert stats[..k][..k - 1] == stats[..k - 1];
    }
  }

  // ----- how the phases of a step compose -----

  ghost function NewlyEvacuated(people: seq<Person>): nat {
    CountWhere(people, (p: Person) => p.evacuated && !p.countedEvacuated)
  }

  ghost function NewlyDead(people: seq<Person>): nat {
    CountWhere(people, (p: Person) => p.Dead() && !p.countedDead)
  }

  /** `after` is `middle` counted, and `middle` still carries the flags of `before`. */
  predicate Carries(p: Person, middle: Person, after: Person) {
    && middle.countedEvacuated == p.evacuated && middle.countedDead == p.Dead()
    && (p.evacuated ==> middle.evacuated) && (p.Dead() ==> middle.Dead())
    && after == Counted(middle)
  }

  lemma {:induction false} DeltasAreDifferences(before: seq<Person>, middle: seq<Person>, after: seq<Person>)
    requires |before| == |middle| == |after|
    requires forall i :: 0 <= i < |before| ==> Carries(before[i], middle[i], after[i])
    ensures NewlyEvacuated(middle) == EvacuatedCount(after) - EvacuatedCount(before)
    ensures NewlyDead(middle) == DeadCount(after) - DeadCount(before)
  {
    if before != [] {
      var last := |before| - 1;
      DeltasAreDifferences(before[..last], middle[..last], after[..last]);
      assert Carries(before[last], middle[last], after[last]);
    }
  }

  /** Progress only depends on who was active, where they stood, and where they went. */
  lemma {:induction false} SameTotalAdvance(c: Config, fire: set<Position>, before: seq<Person>, after: seq<Person>,
                                            before': seq<Person>, after': seq<Person>)
    requires |before| == |after| == |before'| == |after'|
    requires forall i :: 0 <= i < |before| ==>
                           before[i].Active() == before'[i].Active() && before[i].pos == before'[i].pos
    requires forall i :: 0 <= i < |after| ==> after[i].target == after'[i].target && after[i].pos == after'[i].pos
    ensures TotalAdvance(c, fire, before, after) == TotalAdvance(c, fire, before', after')
  {
    if before != [] {
      var last := |before| - 1;
      SameTotalAdvance(c, fire, before[..last], after[..last], before'[..last], after'[..last]);
    }
  }

  lemma {:induction false} NextAdvance(c: Config, fire: set<Position>, before: seq<Person>, moved: seq<Person>, k: nat,
                                       q: Person)
    requires |moved| == k < |before|
    ensures TotalAdvance(c, fire, before[..k + 1], moved + [q])
            == TotalAdvance(c, fire, before[..k], moved)
               + if before[k].Active() then Advance(c.floor, fire, q.target, before[k].pos, q.pos) else 0
  {
    assert before[..k + 1][..k] == before[..k] && (moved + [q])[..k] == moved;
  }

  predicate AllSignalled(c: Config, guide: Position, preferred: Option<Position>, draws: Draws, before: seq<Person>,
                         after: seq<Person>)
  {
    |before| == |after| && SomeSignalled(c, guide, preferred, draws, before, after)
  }

  /** The first evacuees have received the signal. */
  predicate SomeSignalled(c: Config, guide: Position, preferred: Option<Position>, draws: Draws, before: seq<Person>,
                          after: seq<Person>)
  {
    |after| <= |before|
    && forall i {:trigger after[i]} :: 0 <= i < |after| ==>
           after[i] == Signalled(c, guide, preferred, draws.follows(i), before[i])
  }

  lemma {:induction false} SignalNext(c: Config, guide: Position, preferred: Option<Position>, draws: Draws,
                                      before: seq<Person>, after: seq<Person>)
    requires SomeSignalled(c, guide, preferred, draws, before, after) && |after| < |before|
    ensures var k := |after|;
            var p := Signalled(c, guide, preferred, draws.follows(k), before[k]);
            && SomeSignalled(c, guide, preferred, draws, before, after + [p])
            && Redirects(before, after + [p], k + 1)
               == Redirects(before, after, k) + if p.target != before[k].target then 1 else 0
  {
    RedirectsMore(before, after, Signalled(c, guide, preferred, draws.follows(|after|), before[|after|]), |after|);
  }

  predicate AllMoved(c: Config, fire: set<Position>, before: seq<Person>, after: seq<Person>) {
    |before| == |after| && SomeMoved(c, fire, before, after)
  }

  /** The first evacuees have moved. */
  predicate SomeMoved(c: Config, fire: set<Position>, before: seq<Person>, after: seq<Person>) {
    |after| <= |before|
    && forall i {:trigger after[i]} :: 0 <= i < |after| ==> Moved(c, fire, before[i], after[i])
  }

  lemma {:induction false} MovedNext(c: Config, fire: set<Position>, before: seq<Person>, after: seq<Person>, p: Person)
    requires SomeMoved(c, fire, before, after) && |after| < |before| && Moved(c, fire, before[|after|], p)
    ensures SomeMoved(c, fire, before, after + [p])
  {
  }

  predicate AllExposed(burnt: set<Position>, before: seq<Person>, after: seq<Person>) {
    |before| == |after|
    && forall i {:trigger after[i]} :: 0 <= i < |after| ==> after[i] == Exposed(burnt, before[i])
  }

  predicate AllCounted(before: seq<Person>, after: seq<Person>) {
    |before| == |after|
    && forall i {:trigger after[i]} :: 0 <= i < |after| ==> after[i] == Counted(before[i])
  }

  lemma {:induction false} SignalKeepsSafe(c: Config, fire: set<Position>, guide: Position, preferred: Option<Position>,
                                           draws: Draws, before: seq<Person>, after: seq<Person>)
    requires AllSafe(c, fire, before) && AllSignalled(c, guide, preferred, draws, before, after)
    requires preferred.Some? ==> preferred.value in c.exits
    ensures AllSafe(c, fire, after)
  {
    forall i | 0 <= i < |after| ensures Safe(c, fire, after[i]) {
      assert Safe(c, fire, before[i]) && after[i] == Signalled(c, guide, preferred, draws.follows(i), before[i]);
    }
  }

  lemma {:induction false} PhasesMakeRounds(s: State, draws: Draws, next: State, burnt: set<Position>,
                                            signalled: seq<Person>, moved: seq<Person>, exposed: seq<Person>)
    requires Invariant(s) && next.config == s.config
    requires AllSignalled(s.config, next.guide, next.preferred, draws, s.people, signalled)
    requires AllMoved(s.config, s.fire, signalled, moved)
    requires AllExposed(burnt, moved, exposed) && AllCounted(exposed, next.people)
    ensures AllRounds(s, next, burnt, draws)
    ensures forall i :: 0 <= i < |s.people| ==> Carries(s.people[i], exposed[i], next.people[i])
    ensures forall i :: 0 <= i < |s.people| ==>
              next.people[i].target == signalled[i].target && next.people[i].pos == moved[i].pos
  {
    forall i | 0 <= i < |s.people|
      ensures RoundAt(s, next, burnt, draws, i) && next.people[i].target == signalled[i].target
      ensures Carries(s.people[i], exposed[i], next.people[i])
    {
      assert Safe(s.config, s.fire, s.people[i]);
      assert signalled[i] == Signalled(s.config, next.guide, next.preferred, draws.follows(i), s.people[i]);
      assert Moved(s.config, s.fire, signalled[i], moved[i]);
      assert exposed[i] == Exposed(burnt, moved[i]) && next.people[i] == Counted(exposed[i]);
    }
  }

  /** What the phases count along the way is what changed over the whole step. */
  lemma {:induction false} PhasesAdd(s: State, draws: Draws, next: State, burnt: set<Position>, signalled: seq<Person>,
                                     moved: seq<Person>, exposed: seq<Person>)
    requires Invariant(s) && next.config == s.config
    requires AllSignalled(s.config, next.guide, next.preferred, draws, s.people, signalled)
    requires AllMoved(s.config, s.fire, signalled, moved)
    requires AllExposed(burnt, moved, exposed) && AllCounted(exposed, next.people)
    ensures AllRounds(s, next, burnt, draws)
    ensures NewlyEvacuated(exposed) == EvacuatedCount(next.people) - EvacuatedCount(s.people)
    ensures NewlyDead(exposed) == DeadCount(next.people) - DeadCount(s.people)
    ensures Redirects(s.people, signalled, |s.people|) == Redirects(s.people, next.people, |s.people|)
    ensures TotalAdvance(s.config, s.fire, signalled, moved) == TotalAdvance(s.config, s.fire, s.people, next.people)
  {
    PhasesMakeRounds(s, draws, next, burnt, signalled, moved, exposed);
    DeltasAreDifferences(s.people, exposed, next.people);
    SameRedirects(s.people, signalled, next.people, |s.people|);
    SameTotalAdvance(s.config, s.fire, signalled, moved, s.people, next.people);
  }

  /** The signal and the moves: `signalled` is the population in between. */
  ghost predicate FirstHalf(s: State, action: int, draws: Draws, middle: State, valid: bool, redirected: nat,
                            progress: int, signalled: seq<Person>)
  {
    && middle == s.(guide := middle.guide, preferred := middle.preferred, people := middle.people)
    && GuideMoved(s, action, middle.guide, middle.preferred, valid)
    && AllSignalled(s.config, middle.guide, middle.preferred, draws, s.people, signalled)
    && redirected == Redirects(s.people, signalled, |s.people|)
    && AllMoved(s.config, s.fire, signalled, middle.people)
    && progress == TotalAdvance(s.config, s.fire, signalled, middle.people)
  }

  /** The fire has spread, if this step is one of its rounds, and has exposed evacuees. */
  ghost predicate Burnt(middle: State, draws: Draws, burnt: State) {
    var spreads := (middle.steps + 1) % middle.config.spreadInterval == 0;
    && burnt == middle.(fire := burnt.fire, people := burnt.people)
    && (if spreads then FireSpread(middle.config, middle.fire, draws, burnt.fire) else burnt.fire == middle.fire)
    && AllExposed(if spreads then burnt.fire else {}, middle.people, burnt.people)
  }

  /** Outcomes and the step have been counted. */
  ghost predicate Tallies(burnt: State, last: State, evacuatedDelta: nat, deadDelta: nat, congestion: int) {
    && last == burnt.(people := last.people, steps := burnt.steps + 1) && AllCounted(burnt.people, last.people)
    && evacuatedDelta == NewlyEvacuated(burnt.people) && deadDelta == NewlyDead(burnt.people)
    && congestion == Congestion(last.people)
  }

  lemma {:induction false} NothingBurns(people: seq<Person>)
    ensures AllExposed({}, people, people)
  {
  }

  /** The phases of a step, in the order of the code, make a step of the relation. */
  lemma {:induction false} HalvesMakeStep(s: State, input: Input, middle: State, burnt: State, next: State,
                                          stats: StepStats, signalled: seq<Person>)
    requires Invariant(s) && !Done(s) && stats.redirects >= 0 && stats.evacuatedDelta >= 0 && stats.deadDelta >= 0
    requires FirstHalf(s, input.action, input.draws, middle, stats.validAction, stats.redirects,
                       stats.movementProgress, signalled)
    requires Burnt(middle, input.draws, burnt)
    requires Tallies(burnt, next, stats.evacuatedDelta, stats.deadDelta, stats.congestion)
    ensures Step(s, input, next, stats)
  {
    var fire := if (s.steps + 1) % s.config.spreadInterval == 0 then next.fire else {};
    PhasesAdd(s, input.draws, next, fire, signalled, middle.people, burnt.people);
  }

  lemma {:induction false} NoRedirects(before: seq<Person>, after: seq<Person>, k: nat)
    requires before == after && k <= |before|
    ensures Redirects(before, after, k) == 0
  {
    if k > 0 {
      NoRedirects(before, after, k - 1);
    }
  }

  lemma {:induction false} RedirectsMore(before: seq<Person>, after: seq<Person>, p: Person, k: nat)
    requires k <= |after| && k <= |before|
    ensures Redirects(before, after + [p], k) == Redirects(before, after, k)
  {
    if k > 0 {
      RedirectsMore(before, after, p, k - 1);
    }
  }

  lemma {:induction false} SameRedirects(before: seq<Person>, after: seq<Person>, after': seq<Person>, k: nat)
    requires k <= |before| == |after| == |after'|
    requires forall i :: 0 <= i < |after| ==> after'[i].target == after[i].target
    ensures Redirects(before, after, k) == Redirects(before, after', k)
  {
    if k > 0 {
      SameRedirects(before, after, after', k - 1);
    }
  }

  lemma {:induction false} OuterExits(exits: set<Position>)
    requires exits != {}
    ensures exists e :: LeftExit(exits, e)
    ensures exists e :: RightExit(exits, e)
  {
    var some :| some in exits;
    var rest := exits - {some};
    assert exits == rest + {some};
    if rest == {} {
      assert LeftExit(exits, some) && RightExit(exits, some);
    } else {
      OuterExits(rest);
      var low :| LeftExit(rest, low);
      var high :| RightExit(rest, high);
      assert LeftExit(exits, if some.0 < low.0 then some else low);
      assert RightExit(exits, if high.0 < some.0 then some else high);
    }
  }

  // ----- the congestion counter -----

  function Sum(counts: seq<nat>, k: nat): nat
    requires k <= |counts|
  {
    if k == 0 then 0 else Sum(counts, k - 1) + counts[k - 1]
  }

  lemma {:induction false} SumUpdate(counts: seq<nat>, i: nat, v: nat, k: nat)
    requires i < |counts| && k <= |counts|
    ensures Sum(counts[i := v], k) == Sum(counts, k) + if i < k then v - counts[i] else 0
  {
    if k > 0 {
      SumUpdate(counts, i, v, k - 1);
    }
  }

  lemma {:induction false} SumMore(counts: seq<nat>, v: nat, k: nat)
    requires k <= |counts|
    ensures Sum(counts + [v], k) == Sum(counts, k)
  {
    if k > 0 {
      SumMore(counts, v, k - 1);
    }
  }

  /** The counter of the first `k` evacuees: their cells, each once, with how many stand there. */
  ghost predicate Tallied(people: seq<Person>, k: nat, cells: seq<Position>, counts: seq<nat>)
    requires k <= |people|
  {
    && |cells| == |counts| && Distinct(cells) && Elements(cells) == Occupied(people, k)
    && Sum(counts, |counts|) == ActiveCount(people[..k])
    && forall i :: 0 <= i < |counts| ==> counts[i] >= 1
  }

  /** One more on a cell: a known cell counts up, a new one is appended. */
  ghost predicate CountsUp(cells: seq<Position>, counts: seq<nat>, pos: Position, cells': seq<Position>,
                           counts': seq<nat>)
    requires |cells| == |counts|
  {
    if pos in cells then
      cells' == cells && exists i :: 0 <= i < |cells| && cells[i] == pos && counts' == counts[i := counts[i] + 1]
    else cells' == cells + [pos] && counts' == counts + [1]
  }

  method Tally(cells: seq<Position>, counts: seq<nat>, pos: Position) returns (cells': seq<Position>, counts': seq<nat>)
    requires |cells| == |counts|
    ensures CountsUp(cells, counts, pos, cells', counts')
  {
    for i := 0 to |cells|
      invariant pos !in cells[..i]
    {
      if cells[i] == pos {
        return cells, counts[i := counts[i] + 1];
      }
    }
    assert cells[..|cells|] == cells;
    cells', counts' := cells + [pos], counts + [1];
  }

  lemma {:induction false} TallyNext(people: seq<Person>, k: nat, cells: seq<Position>, counts: seq<nat>,
                                     cells': seq<Position>, counts': seq<nat>)
    requires k < |people| && people[k].Active() && Tallied(people, k, cells, counts)
    requires CountsUp(cells, counts, people[k].pos, cells', counts')
    ensures Tallied(people, k + 1, cells', counts')
  {
    assert people[..k + 1][..k] == people[..k];
    var pos := people[k].pos;
    if pos in cells {
      var i :| 0 <= i < |cells| && cells[i] == pos && counts' == counts[i := counts[i] + 1];
      SumUpdate(counts, i, counts[i] + 1, |counts|);
      assert pos in Elements(cells);
    } else {
      SumMore(counts, 1, |counts|);
      assert Elements(cells') == Elements(cells) + {pos};
    }
  }

  lemma {:induction false} TallySkips(people: seq<Person>, k: nat, cells: seq<Position>, counts: seq<nat>)
    requires k < |people| && !people[k].Active() && Tallied(people, k, cells, counts)
    ensures Tallied(people, k + 1, cells, counts)
  {
    assert people[..k + 1][..k] == people[..k];
  }

  /** The surplus over one on each cell. */
  method Surplus(counts: seq<nat>) returns (surplus: nat)
    ensures (forall i :: 0 <= i < |counts| ==> counts[i] >= 1) ==> surplus == Sum(counts, |counts|) - |counts|
  {
    surplus := 0;
    for k := 0 to |counts|
      invariant (forall i :: 0 <= i < |counts| ==> counts[i] >= 1) ==> surplus == Sum(counts, k) - k
    {
      if counts[k] > 1 {
        surplus := surplus + counts[k] - 1;
      }
    }
  }

  // ----- the mutable model -----

  class EvacueeAgent {
    var pos: Position
    var alive: bool
    var evacuated: bool
    var targetExit: Position
    var countedEvacuated: bool
    var countedDead: bool

    constructor (pos: Position, targetExit: Position)
      ensures View() == Person(pos, true, false, targetExit, false, false)
    {
      this.pos, this.alive, this.evacuated, this.targetExit := pos, true, false, targetExit;
      this.countedEvacuated, this.countedDead := false, false;
    }

    function View(): Person
      reads this
    {
      Person(pos, alive, evacuated, targetExit, countedEvacuated, countedDead)
    }

    /** Advance one evacuee and return its bounded route progress. */
    method Step(model: EvacuationModel) returns (progress: int)
      requires Safe(model.config, model.fire, View()) && model.CacheExact()
      modifies this, model`routeCache
      ensures model.CacheExact()
      ensures Moved(model.config, model.fire, old(View()), View())
      ensures progress == if !old(View()).Active() then 0
                          else Advance(model.config.floor, model.fire, targetExit, old(pos), pos)
    {
      if !alive || evacuated {
        return 0;
      }
      if pos in model.fire {
        assert false;
      }
      var before := model.RouteDistance(pos, targetExit);
      var candidates := model.MovementCandidates(pos);
      assert pos in candidates;
      // The scores are floating point: any candidate may win.
      var best :| best in candidates;
      var from := pos;
      if best != pos {
        pos := best;
      }
      if pos in model.config.exits {
        evacuated := true;
      } else if pos in model.fire {
        assert false;
      }
      var after := model.RouteDistance(pos, targetExit);
      if before.None? || after.None? {
        return 0;
      }
      AdvanceIsBounded(model.config.floor, model.fire, targetExit, from, pos);
      var difference := before.value as int - after.value as int;
      progress := if difference < -1 then -1 else if difference > 1 then 1 else difference;
    }
  }

  class EvacuationModel {
    const config: Config
    var fire: set<Position>
    var guide: Position
    var preferred: Option<Position>
    var evacuees: seq<EvacueeAgent>
    var steps: nat
    var routeCache: map<Position, map<Position, nat>>

    function People(): seq<Person>
      reads this`evacuees, evacuees
    {
      var es := evacuees;
      seq(|es|, i requires 0 <= i < |es| reads es => es[i].View())
    }

    function View(): State
      reads this, evacuees
    {
      State(config, fire, guide, preferred, People(), steps)
    }

    /** Every cached map is the exact map of the current fire. */
    ghost predicate CacheExact()
      reads this`fire, this`routeCache
    {
      forall t {:trigger IsRouteMap(config.floor, fire, t, routeCache[t])} ::
        t in routeCache ==> IsRouteMap(config.floor, fire, t, routeCache[t])
    }

    ghost predicate Valid()
      reads this, evacuees
    {
      Distinct(evacuees) && CacheExact() && Invariant(View())
    }

    /** A fresh model; the spawn cells and default exits are the outcome of the sampling. */
    constructor (config: Config, fire: set<Position>, guide: Position, spawns: seq<Position>, targets: seq<Position>)
      requires config.WellFormed() && |spawns| == |targets|
      requires forall i :: 0 <= i < |spawns| ==> config.Burnable(spawns[i]) && spawns[i] !in fire
      requires forall i :: 0 <= i < |targets| ==> targets[i] in config.exits
      ensures Valid() && Initial(View()) && fresh(evacuees)
      ensures this.config == config && this.fire == fire && this.guide == guide && |evacuees| == |spawns|
      ensures forall i {:trigger View().people[i]} :: 0 <= i < |spawns| ==>
                View().people[i] == Person(spawns[i], true, false, targets[i], false, false)
    {
      this.config, this.fire, this.guide, this.preferred := config, fire, guide, None;
      this.steps, this.routeCache, this.evacuees := 0, map[], [];
      new;
      for k := 0 to |spawns|
        invariant |evacuees| == k && fresh(evacuees) && Distinct(evacuees)
        invariant this.config == config && this.fire == fire && this.guide == guide
        invariant preferred.None? && steps == 0 && routeCache == map[]
        invariant forall i :: 0 <= i < k ==>
                                evacuees[i].View() == Person(spawns[i], true, false, targets[i], false, false)
      {
        var agent := new EvacueeAgent(spawns[k], targets[k]);
        evacuees := evacuees + [agent];
      }
    }

    /** Read a distance through the cache; the answer is always that of a fresh search. */
    method RouteDistance(pos: Position, target: Position) returns (d: Option<nat>)
      requires CacheExact()
      modifies this`routeCache
      ensures CacheExact() && target in routeCache
      ensures d == Distance(config.floor, fire, target, pos)
    {
      if target !in routeCache {
        var distances := BuildRouteDistanceMap(config.floor, fire, target);
        routeCache := routeCache[target := distances];
      }
      assert IsRouteMap(config.floor, fire, target, routeCache[target]);
      LookupIsDistance(config.floor, fire, target, routeCache[target], pos);
      d := if pos in routeCache[target] then Some(routeCache[target][pos]) else None;
    }

    method MovementCandidates(pos: Position) returns (candidates: seq<Position>)
      ensures forall to :: to in candidates <==> Candidate(config, fire, pos, to)
    {
      candidates := if config.floor.Open(fire, pos) then [pos] else [];
      var neighbors := NeighborsOf(config.floor, pos);
      for k := 0 to |neighbors|
        invariant forall to :: to in candidates <==>
                                 (to == pos && config.floor.Open(fire, to)) || (to in neighbors[..k] && to !in fire)
      {
        if neighbors[k] !in fire {
          candidates := candidates + [neighbors[k]];
        }
      }
      assert neighbors[..|neighbors|] == neighbors;
    }

    method MoveGuide(action: int) returns (valid: bool)
      requires config.WellFormed() && Distinct(evacuees) && this !in (set e: object | e in evacuees)
      modifies this`guide, this`preferred
      ensures GuideMoved(old(View()), action, guide, preferred, valid)
      ensures preferred == old(preferred) || (preferred.Some? && preferred.value in config.exits)
    {
      if !(0 <= action < 5) {
        return false;
      }
      OuterExits(config.exits);
      if action == 3 {
        var exit :| LeftExit(config.exits, exit);
        preferred := Some(exit);
      } else if action == 4 {
        var exit :| RightExit(config.exits, exit);
        preferred := Some(exit);
      }
      var delta := ([(0, 0)] + DIRECTIONS)[action];
      var next := (guide.0 + delta.0, guide.1 + delta.1);
      if !config.floor.Open(fire, next) {
        return action == 0;
      }
      guide := next;
      valid := true;
    }

    /** The signal to one evacuee. */
    method Signal(e: EvacueeAgent, follows: bool) returns (changed: bool)
      requires preferred.Some?
      modifies e
      ensures e.View() == Signalled(config, guide, preferred, follows, old(e.View()))
      ensures changed <==> e.targetExit != old(e.targetExit)
    {
      if !e.alive || e.evacuated || Manhattan(e.pos, guide) > config.guideRadius
         || e.targetExit == preferred.value || !follows {
        return false;
      }
      e.targetExit := preferred.value;
      changed := true;
    }

    method ApplyGuideSignal(draws: Draws) returns (redirected: nat)
      requires Distinct(evacuees)
      modifies evacuees
      ensures AllSignalled(config, guide, preferred, draws, old(People()), People())
      ensures redirected == Redirects(old(People()), People(), |evacuees|)
    {
      redirected := 0;
      ghost var before := People();
      if preferred.None? {
        NoRedirects(before, before, |before|);
        return;
      }
      ghost var after: seq<Person> := [];
      for k := 0 to |evacuees|
        invariant |after| == k && SomeSignalled(config, guide, preferred, draws, before, after)
        invariant forall i {:trigger after[i]} :: 0 <= i < k ==> after[i] == evacuees[i].View()
        invariant forall i :: k <= i < |evacuees| ==> evacuees[i].View() == before[i]
        invariant redirected == Redirects(before, after, k)
      {
        var changed := Signal(evacuees[k], draws.follows(k));
        if changed {
          redirected := redirected + 1;
        }
        SignalNext(config, guide, preferred, draws, before, after);
        after := after + [evacuees[k].View()];
      }
      assert People() == after;
    }

    method MoveEvacuees() returns (progress: int)
      requires Distinct(evacuees) && CacheExact()
      requires AllSafe(config, fire, People())
      modifies evacuees, this`routeCache
      ensures AllMoved(config, fire, old(People()), People())
      ensures progress == TotalAdvance(config, fire, old(People()), People())
    {
      progress := 0;
      ghost var before, moved: seq<Person> := People(), [];
      for k := 0 to |evacuees|
        invariant CacheExact() && |moved| == k && SomeMoved(config, fire, before, moved)
        invariant forall i {:trigger moved[i]} :: 0 <= i < k ==> moved[i] == evacuees[i].View()
        invariant forall i {:trigger before[i]} :: k <= i < |evacuees| ==> evacuees[i].View() == before[i]
        invariant progress == TotalAdvance(config, fire, before[..k], moved)
      {
        assert Safe(config, fire, before[k]);
        ghost var known := moved;
        var advanced := evacuees[k].Step(this);
        MovedNext(config, fire, before, moved, evacuees[k].View());
        NextAdvance(config, fire, before, moved, k, evacuees[k].View());
        progress, moved := progress + advanced, moved + [evacuees[k].View()];
        assert forall i {:trigger moved[i]} :: 0 <= i < k ==> moved[i] == known[i];
      }
      assert before[..|evacuees|] == before && People() == moved;
    }

    /** Every burning cell is asked once about each of its burnable neighbours. */
    method SpreadFire(draws: Draws)
      modifies this`fire
      ensures FireSpread(config, old(fire), draws, fire)
    {
      var burning := fire;
      var newFire, pending := burning, burning;
      while pending != {}
        invariant pending <= burning && SpreadFrom(config, burning, burning - pending, draws, newFire)
        decreases pending
      {
        var source :| source in pending;
        newFire := IgniteAround(source, draws, burning, burning - pending, newFire);
        pending := pending - {source};
      }
      fire := newFire;
    }

    method IgniteAround(source: Position, draws: Draws, ghost burning: set<Position>, ghost asked: set<Position>,
                        known: set<Position>)
      returns (newFire: set<Position>)
      requires SpreadFrom(config, burning, asked, draws, known)
      ensures SpreadFrom(config, burning, asked + {source}, draws, newFire)
    {
      newFire := known;
      var neighbors := NeighborsOf(config.floor, source);
      for k := 0 to |neighbors|
        invariant forall p {:trigger p in newFire} :: p in newFire <==>
                    p in known || (p in neighbors[..k] && p !in config.exits && draws.ignites(source, p))
      {
        if neighbors[k] !in config.exits && draws.ignites(source, neighbors[k]) {
          newFire := newFire + {neighbors[k]};
        }
      }
      assert neighbors[..|neighbors|] == neighbors;
    }

    method ResolveFireExposure()
      requires Distinct(evacuees)
      modifies evacuees
      ensures AllExposed(fire, old(People()), People())
    {
      for k := 0 to |evacuees|
        invariant forall i :: 0 <= i < k ==> evacuees[i].View() == Exposed(fire, old(evacuees[i].View()))
        invariant forall i :: k <= i < |evacuees| ==> evacuees[i].View() == old(evacuees[i].View())
      {
        var e := evacuees[k];
        if e.alive && !e.evacuated && e.pos in fire {
          e.alive := false;
        }
      }
    }

    /** Count the evacuees that stand on a cell beside another one: a counter of the occupied
        cells, in the order of their first evacuee, and then the surplus of each. */
    method CountCongestion() returns (congestion: nat)
      ensures congestion == Congestion(People())
    {
      var cells: seq<Position>, counts: seq<nat> := [], [];
      ghost var people := People();
      for k := 0 to |evacuees|
        invariant Tallied(people, k, cells, counts)
      {
        if evacuees[k].alive && !evacuees[k].evacuated {
          ghost var cells', counts' := cells, counts;
          cells, counts := Tally(cells, counts, evacuees[k].pos);
          TallyNext(people, k, cells', counts', cells, counts);
        } else {
          TallySkips(people, k, cells, counts);
        }
      }
      congestion := Surplus(counts);
      DistinctSize(cells);
      assert people[..|evacuees|] == people;
    }

    method CollectStepStats() returns (evacuatedDelta: nat, deadDelta: nat, congestion: nat)
      requires Distinct(evacuees)
      modifies evacuees
      ensures evacuatedDelta == NewlyEvacuated(old(People())) && deadDelta == NewlyDead(old(People()))
      ensures AllCounted(old(People()), People())
      ensures congestion == Congestion(People())
    {
      evacuatedDelta, deadDelta := 0, 0;
      ghost var before := People();
      for k := 0 to |evacuees|
        invariant evacuatedDelta == NewlyEvacuated(before[..k]) && deadDelta == NewlyDead(before[..k])
      {
        var e := evacuees[k];
        assert before[..k + 1][..k] == before[..k] && before[k] == e.View();
        if e.evacuated && !e.countedEvacuated {
          evacuatedDelta := evacuatedDelta + 1;
        }
        if !e.alive && !e.evacuated && !e.countedDead {
          deadDelta := deadDelta + 1;
        }
      }
      assert before[..|evacuees|] == before;
      for k := 0 to |evacuees|
        invariant forall i :: 0 <= i < k ==> evacuees[i].View() == Counted(before[i])
        invariant forall i :: k <= i < |evacuees| ==> evacuees[i].View() == before[i]
      {
        var e := evacuees[k];
        if e.evacuated {
          e.countedEvacuated := true;
        }
        if !e.alive && !e.evacuated {
          e.countedDead := true;
        }
      }
      congestion := CountCongestion();
    }

    method IsDone() returns (done: bool)
      ensures done <==> Done(View())
    {
      var evacuated, dead := 0, 0;
      ghost var people := People();
      for k := 0 to |evacuees|
        invariant evacuated == EvacuatedCount(people[..k]) && dead == DeadCount(people[..k])
      {
        assert people[..k + 1][..k] == people[..k] && people[k] == evacuees[k].View();
        if evacuees[k].evacuated {
          evacuated := evacuated + 1;
        }
        if !evacuees[k].alive && !evacuees[k].evacuated {
          dead := dead + 1;
        }
      }
      assert people[..|evacuees|] == people;
      done := evacuated + dead == |evacuees| || steps >= config.maxSteps;
    }

    /** First half of a step: the guide acts, then every active evacuee moves. */
    method GuideAndMove(action: int, draws: Draws)
      returns (valid: bool, redirected: nat, progress: int, ghost signalled: seq<Person>)
      requires Valid()
      modifies this`guide, this`preferred, this`routeCache, evacuees
      ensures FirstHalf(old(View()), action, draws, View(), valid, redirected, progress, signalled)
    {
      routeCache := map[];
      ghost var s := View();
      valid := MoveGuide(action);
      assert People() == s.people;
      redirected := ApplyGuideSignal(draws);
      signalled := People();
      SignalKeepsSafe(config, fire, guide, preferred, draws, s.people, signalled);
      progress := MoveEvacuees();
    }

    /** In the rounds of its interval the fire spreads and exposes evacuees. */
    method Burn(draws: Draws)
      requires Distinct(evacuees)
      modifies this`fire, evacuees
      ensures Burnt(old(View()), draws, View())
    {
      ghost var before := People();
      if (steps + 1) % config.spreadInterval == 0 {
        SpreadFire(draws);
        ResolveFireExposure();
      } else {
        NothingBurns(before);
      }
    }

    /** Outcomes and the step are counted, and the route cache is dropped. */
    method CountStep() returns (evacuatedDelta: nat, deadDelta: nat, congestion: nat)
      requires Distinct(evacuees)
      modifies this`routeCache, this`steps, evacuees
      ensures Tallies(old(View()), View(), evacuatedDelta, deadDelta, congestion)
      ensures routeCache == map[]
    {
      evacuatedDelta, deadDelta, congestion := CollectStepStats();
      ghost var last := People();
      routeCache := map[];
      steps := steps + 1;
      assert People() == last;
    }

    /** The effective part of a step, when the episode is not over. */
    method RunStep(input: Input) returns (stats: StepStats)
      requires Valid() && !Done(View())
      modifies this`fire, this`guide, this`preferred, this`steps, this`routeCache, evacuees
      ensures Distinct(evacuees) && routeCache == map[] && Step(old(View()), input, View(), stats)
    {
      ghost var s := View();
      var valid, redirected, progress, signalled := GuideAndMove(input.action, input.draws);
      ghost var middle := View();
      Burn(input.draws);
      ghost var burnt := View();
      var evacuatedDelta, deadDelta, congestion := CountStep();
      stats := StepStats(evacuatedDelta, deadDelta, congestion, redirected, progress, valid);
      HalvesMakeStep(s, input, middle, burnt, View(), stats, signalled);
    }

    /** One environment step: a step of the relation, and the model is valid again. */
    method EnvStep(input: Input) returns (stats: StepStats, done: bool)
      requires Valid()
      modifies this`fire, this`guide, this`preferred, this`steps, this`routeCache, evacuees
      ensures Valid() && Step(old(View()), input, View(), stats)
      ensures done <==> Done(View())
    {
      done := IsDone();
      if done {
        return StepStats(0, 0, 0, 0, 0, true), true;
      }
      stats := RunStep(input);
      StepKeepsInvariant(old(View()), input, View(), stats);
      done := IsDone();
    }
  }
}
