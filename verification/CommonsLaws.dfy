/** What a step and a whole run of the commons do, in coordinates, counts and rounds: laws of
    the transition that do not depend on how it is put together. */
module CommonsLaws {
  import opened Prelude
  import opened Landscape
  import opened Regrowth
  import opened Commons

  // ----- one activation -----

  /** The agent whose turn it is goes one cell in the direction of its action, a harvest is
      credited to it, and nobody else changes. */
  predicate Activated(s: State, d: Decision, next: State)
    requires s.config.agents > 0
  {
    var i := s.tick % s.config.agents;
    && |next.agents| == |s.agents| == s.config.agents && next.config == s.config && next.tick == s.tick + 1
    && (forall j :: 0 <= j < |s.agents| && j != i ==> next.agents[j] == s.agents[j])
    && var (p, q) := (s.agents[i], next.agents[i]);
       && q.position == (p.position.0 + (if d.action.East? then 1 else if d.action.West? then -1 else 0),
                         p.position.1 + (if d.action.South? then 1 else if d.action.North? then -1 else 0))
       && q.harvested == p.harvested + (if d.action.Harvest? then 1 else 0)
       && q.lastAction == d.action && q.message == d.message
       && next.lastEvent == Some(Event(s.tick + 1, i, d.action, q.position, q.harvested - p.harvested, d.message))
  }

  lemma {:induction false} StepActivates(s: State, d: Decision, field: int -> real)
    requires Sound(s) && Acceptable(s, d)
    ensures Activated(s, d, Next(s, d, field))
  {
  }

  /** The share of the regrowth that is left in a round, by the schedule of the drought. */
  function RoundRate(c: Config, round: nat): real {
    if c.droughtDuration > 0 && c.droughtStart <= round && round < c.droughtStart + c.droughtDuration then
      c.regrowth * c.droughtMultiplier
    else c.regrowth
  }

  /** The grid after the harvest of an activation. */
  function Harvested(s: State, d: Decision): map<Cell, nat>
    requires |s.agents| == s.config.agents > 0
    requires var p := s.agents[s.tick % s.config.agents].position;
             d.action.Harvest? ==> p in s.resources && s.resources[p] > 0
  {
    var p := s.agents[s.tick % s.config.agents].position;
    map c | c in s.resources :: if d.action.Harvest? && c == p then s.resources[c] - 1 else s.resources[c]
  }

  /** The next activation completes a round. */
  predicate EndsRound(s: State)
    requires s.config.agents > 0
  {
    (s.tick + 1) % s.config.agents == 0
  }

  /** The number of that round. */
  function RoundAfter(s: State): nat
    requires s.config.agents > 0
  {
    (s.tick + 1) / s.config.agents
  }

  lemma {:induction false} GridAfterStep(s: State, d: Decision, field: int -> real)
    requires Sound(s) && Acceptable(s, d)
    ensures var p := s.agents[s.tick % s.config.agents].position;
            d.action.Harvest? ==> p in s.resources && s.resources[p] > 0
    ensures Next(s, d, field).resources
            == if EndsRound(s) then
                 Regrown(s.config.land, s.config.capacity, RoundRate(s.config, RoundAfter(s)), field, Harvested(s, d))
               else Harvested(s, d)
  {
    assert s.config.land.Inside(s.agents[Turn(s)].position);
    assert Acted(s, d).resources == Harvested(s, d);
    assert EffectiveRegrowth(s.config, RoundAfter(s)) == RoundRate(s.config, RoundAfter(s));
  }

  /** A harvest takes one unit from the cell of the acting agent. Then, when this was the last
      activation of a round and only then, the cells that meet the growth condition gain one. */
  lemma {:induction false} CellAfterStep(s: State, d: Decision, field: int -> real, c: Cell)
    requires Sound(s) && Acceptable(s, d) && c in s.resources
    ensures var p := s.agents[s.tick % s.config.agents].position;
            d.action.Harvest? ==> p in s.resources && s.resources[p] > 0
    ensures c in Next(s, d, field).resources
    ensures Next(s, d, field).resources[c]
            == Harvested(s, d)[c]
               + if EndsRound(s) && Gains(s.config.land, s.config.capacity, RoundRate(s.config, RoundAfter(s)), field,
                                          Harvested(s, d), c) then 1 else 0
  {
    GridAfterStep(s, d, field);
    GrowsExactly(s.config.land, s.config.capacity, RoundRate(s.config, RoundAfter(s)), field, Harvested(s, d), c);
  }

  // ----- harvests over a run -----

  ghost predicate HarvestsAt(trace: seq<State>, inputs: seq<Input>, i: nat, k: nat)
    requires k < |inputs| < |trace|
  {
    && Sound(trace[k]) && Acceptable(trace[k], inputs[k].decision) && inputs[k].decision.action.Harvest?
    && trace[k].tick % trace[k].config.agents == i
  }

  /** In how many of the first `k` steps agent `i` harvested. */
  ghost function Harvests(trace: seq<State>, inputs: seq<Input>, i: nat, k: nat): nat
    requires k <= |inputs| < |trace|
  {
    if k == 0 then 0 else Harvests(trace, inputs, i, k - 1) + if HarvestsAt(trace, inputs, i, k - 1) then 1 else 0
  }

  lemma {:induction false} StepCredits(s: State, d: Decision, field: int -> real, i: nat)
    requires Sound(s) && i < |s.agents|
    ensures var next := Next(s, d, field);
            && |next.agents| == |s.agents|
            && next.agents[i].harvested
               == s.agents[i].harvested
                  + if Acceptable(s, d) && d.action.Harvest? && s.tick % s.config.agents == i then 1 else 0
  {
    if Acceptable(s, d) {
      StepActivates(s, d, field);
    }
  }

  /** Over every run an agent is credited with exactly the harvests it made. */
  lemma {:induction false} HarvestsAreCredited(trace: seq<State>, inputs: seq<Input>, i: nat, k: nat)
    requires Run(trace, inputs) && Initial(trace[0]) && k < |trace| && i < trace[0].config.agents
    ensures |trace[k].agents| == trace[0].config.agents
    ensures trace[k].agents[i].harvested == Harvests(trace, inputs, i, k)
    decreases k
  {
    if k > 0 {
      HarvestsAreCredited(trace, inputs, i, k - 1);
      assert StepAt(trace, inputs, k - 1);
      StepCredits(trace[k - 1], inputs[k - 1].decision, inputs[k - 1].field, i);
    }
  }

  // ----- recovery -----

  /** A step in which nothing is harvested and, if it ends a round, every fertile cell beside a
      live one grows. */
  ghost predicate Sparing(s: State, input: Input)
    requires Sound(s)
  {
    && Acceptable(s, input.decision) && !input.decision.action.Harvest?
    && RoundRate(s.config, RoundAfter(s)) > 0.0
    && Fruitful(s.config.land, RoundRate(s.config, RoundAfter(s)), input.field)
  }

  ghost predicate SparingAt(trace: seq<State>, inputs: seq<Input>, k: nat)
    requires k < |inputs| && |trace| == |inputs| + 1
  {
    StepAt(trace, inputs, k) && Sparing(trace[k], inputs[k])
  }

  /** How many rounds have ended when the clock says `tick`. */
  function RoundsBy(tick: nat, agents: nat): nat {
    if tick == 0 || agents == 0 then 0 else RoundsBy(tick - 1, agents) + if tick % agents == 0 then 1 else 0
  }

  /** Rounds are complete every so many activations. */
  lemma {:induction false} RoundsAreQuotient(tick: nat, agents: nat)
    requires agents > 0
    ensures RoundsBy(tick, agents) == tick / agents
  {
    if tick > 0 {
      RoundsAreQuotient(tick - 1, agents);
      QuotientBefore(tick, agents, tick / agents, tick % agents);
    }
  }

  lemma {:induction false} ComponentIsOnGrid(s: State, component: seq<Cell>)
    requires Sound(s) && IsComponent(s.config.land.fertile, component)
    ensures forall c :: c in Elements(component) ==> c in s.resources
  {
    forall c | c in Elements(component) ensures c in s.resources {
      assert s.config.land.Inside(c);
    }
  }

  lemma {:induction false} SparingStep(s: State, input: Input, component: seq<Cell>, rounds: nat)
    requires Sound(s) && Sparing(s, input) && IsComponent(s.config.land.fertile, component)
    requires Recovering(s.config.capacity, s.resources, Elements(component), rounds)
    ensures var next := Next(s, input.decision, input.field);
            && next.tick == s.tick + 1 && next.config == s.config
            && Recovering(s.config.capacity, next.resources, Elements(component),
                          rounds + if EndsRound(s) then 1 else 0)
  {
    GridAfterStep(s, input.decision, input.field);
    ComponentIsOnGrid(s, component);
    assert Harvested(s, input.decision) == s.resources;
    if EndsRound(s) {
      RecoveryGoesOn(s.config.land, s.config.capacity, RoundRate(s.config, RoundAfter(s)), input.field, s.resources,
                     component, rounds);
    }
  }

  /** Since step `i` the component has recovered for as many rounds as have ended. */
  ghost predicate RecoveringSince(trace: seq<State>, component: seq<Cell>, i: nat, k: nat)
    requires i < |trace| && k < |trace|
  {
    var rounds := RoundsBy(trace[k].tick, trace[0].config.agents) - RoundsBy(trace[i].tick, trace[0].config.agents);
    && trace[k].config == trace[0].config && trace[k].tick == trace[i].tick + k - i && rounds >= 0
    && Recovering(trace[0].config.capacity, trace[k].resources, Elements(component), rounds)
  }

  lemma {:induction false} RecoveryPasses(trace: seq<State>, inputs: seq<Input>, component: seq<Cell>, i: nat, k: nat)
    requires |trace| == |inputs| + 1 && i <= k < |inputs| && IsComponent(trace[0].config.land.fertile, component)
    requires SparingAt(trace, inputs, k) && RecoveringSince(trace, component, i, k)
    ensures RecoveringSince(trace, component, i, k + 1)
  {
    SparingStep(trace[k], inputs[k], component,
                RoundsBy(trace[k].tick, trace[0].config.agents) - RoundsBy(trace[i].tick, trace[0].config.agents));
  }

  lemma {:induction false} RecoveryRuns(trace: seq<State>, inputs: seq<Input>, component: seq<Cell>, i: nat, k: nat)
    requires |trace| == |inputs| + 1 && i <= k < |trace| && IsComponent(trace[0].config.land.fertile, component)
    requires forall j {:trigger SparingAt(trace, inputs, j)} :: i <= j < k ==> SparingAt(trace, inputs, j)
    requires RecoveringSince(trace, component, i, i)
    ensures forall m {:trigger RecoveringSince(trace, component, i, m)} :: i <= m <= k ==>
              RecoveringSince(trace, component, i, m)
    decreases k
  {
    if i < k {
      RecoveryRuns(trace, inputs, component, i, k - 1);
      assert SparingAt(trace, inputs, k - 1);
      RecoveryPasses(trace, inputs, component, i, k - 1);
    }
  }

  /** The converse of extinction: a component that has kept one unit is full again after as many
      rounds as it has cells and a cell holds units, less two, when nothing is harvested and
      every draw is below a fifth of the rate. */
  lemma {:induction false} RecoveryIsComplete(trace: seq<State>, inputs: seq<Input>, component: seq<Cell>, i: nat,
                                              k: nat)
    requires Run(trace, inputs) && i <= k < |trace| && IsComponent(trace[0].config.land.fertile, component)
    requires forall j {:trigger SparingAt(trace, inputs, j)} :: i <= j < k ==> SparingAt(trace, inputs, j)
    requires exists c :: c in component && c in trace[i].resources && trace[i].resources[c] > 0
    requires RoundsBy(trace[k].tick, trace[0].config.agents)
             >= RoundsBy(trace[i].tick, trace[0].config.agents) + |component| + trace[0].config.capacity - 2
    ensures forall c :: c in component ==> c in trace[k].resources && trace[k].resources[c] == trace[0].config.capacity
  {
    RunIsSound(trace, inputs, k);
    DistinctSize(component);
    StartsRecovering(trace[i], component);
    RecoveryRuns(trace, inputs, component, i, k);
    assert RecoveringSince(trace, component, i, k);
    ComponentIsOnGrid(trace[k], component);
    assert forall c :: c in component ==> c in Elements(component);
  }

  lemma {:induction false} StartsRecovering(s: State, component: seq<Cell>)
    requires Sound(s) && IsComponent(s.config.land.fertile, component)
    requires exists c :: c in component && c in s.resources && s.resources[c] > 0
    ensures Recovering(s.config.capacity, s.resources, Elements(component), 0)
  {
    var part := Elements(component);
    var c :| c in component && c in s.resources && s.resources[c] > 0;
    assert c in LiveIn(s.resources, part) && c in part;
    if |part| == 1 {
      assert {c} <= part;
      SubsetOfSameSize({c}, part);
    }
  }
}
