/** The spatial commons: round-robin activation, harvesting, messages and regrowth, as a
    deterministic transition under explicit decisions and draws, and its run theorems. */
module Commons {
  import opened Prelude
  import opened Landscape
  import opened Signals

  datatype Rule = Greedy | Conserve | Signal

  datatype Action = Wait | Harvest | North | South | West | East {
    predicate Move() { North? || South? || West? || East? }

    function Offset(): Cell {
      match this
      case North => (0, -1)
      case South => (0, 1)
      case West => (-1, 0)
      case East => (1, 0)
      case _ => (0, 0)
    }
  }

  datatype Config = Config(
    land: Land,
    agents: nat,
    memory: nat,
    capacity: nat,
    rule: Rule,
    delivers: bool,
    regrowth: real,
    droughtStart: nat,
    droughtDuration: nat,
    droughtMultiplier: real)
  {
    ghost predicate WellFormed() {
      && land.WellFormed() && land.width <= 40 && land.height <= 40 && agents >= 2 && memory >= 1 && capacity >= 1
      && 0.0 <= regrowth <= 1.0 && 0.0 <= droughtMultiplier <= 1.0
    }
  }

  datatype Event = Event(tick: nat, agent: nat, action: Action, position: Cell, gain: nat, message: Text)

  datatype Message = Message(tick: nat, agent: nat, position: Cell, text: Text)

  datatype Harvester = Harvester(
    position: Cell,
    harvested: nat,
    lastAction: Action,
    message: Text,
    history: seq<Event>)

  datatype State = State(
    config: Config,
    resources: map<Cell, nat>,
    agents: seq<Harvester>,
    tick: nat,
    messages: seq<Message>,
    lastEvent: Option<Event>)

  datatype Decision = Decision(action: Action, message: Text)

  const MESSAGE_LIMIT := 160

  // ----- the transition -----

  function Turn(s: State): nat
    requires s.config.agents > 0
  {
    s.tick % s.config.agents
  }

  /** Dimensions, bounds and barrenness of a state. */
  ghost predicate Sound(s: State) {
    && s.config.WellFormed() && |s.agents| == s.config.agents
    && Covers(s.config.land, s.resources)
    && (forall c :: c in s.resources ==> s.resources[c] <= if c in s.config.land.fertile then s.config.capacity else 0)
    && forall i :: 0 <= i < |s.agents| ==> s.config.land.Inside(s.agents[i].position)
  }

  function Moved(c: Cell, a: Action): Cell {
    (c.0 + a.Offset().0, c.1 + a.Offset().1)
  }

  predicate Legal(land: Land, resources: map<Cell, nat>, position: Cell, a: Action)
    requires position in resources
  {
    match a
    case Wait => true
    case Harvest => resources[position] > 0
    case _ => land.Inside(Moved(position, a))
  }

  /** A decision the step accepts: a legal action and a short message. */
  ghost predicate Acceptable(s: State, d: Decision)
    requires Sound(s)
  {
    Legal(s.config.land, s.resources, s.agents[Turn(s)].position, d.action) && |d.message| <= MESSAGE_LIMIT
  }

  /** The messages among the first `k` that are less than two rounds old. */
  function UnexpiredOf(messages: seq<Message>, k: nat, tick: nat, agents: nat): seq<Message>
    requires k <= |messages|
  {
    if k == 0 then []
    else if tick - messages[k - 1].tick < 2 * agents then
      UnexpiredOf(messages, k - 1, tick, agents) + [messages[k - 1]]
    else UnexpiredOf(messages, k - 1, tick, agents)
  }

  function Unexpired(messages: seq<Message>, tick: nat, agents: nat): seq<Message> {
    UnexpiredOf(messages, |messages|, tick, agents)
  }

  function Said(e: Event): seq<Message> {
    if e.message == [] then [] else [Message(e.tick, e.agent, e.position, e.message)]
  }

  function EventOf(s: State, d: Decision): Event
    requires |s.agents| == s.config.agents > 0
  {
    var i := Turn(s);
    Event(s.tick + 1, i, d.action, Moved(s.agents[i].position, d.action), if d.action.Harvest? then 1 else 0, d.message)
  }

  /** Activation of one agent, before any regrowth. */
  ghost function Acted(s: State, d: Decision): State
    requires Sound(s) && Acceptable(s, d)
  {
    var i := Turn(s);
    var p := s.agents[i];
    var e := EventOf(s, d);
    State(
      s.config,
      if d.action.Harvest? then s.resources[p.position := s.resources[p.position] - 1] else s.resources,
      s.agents[i := Harvester(e.position, p.harvested + e.gain, d.action, d.message,
                              LastOf(p.history + [e], s.config.memory))],
      s.tick + 1,
      Unexpired(s.messages, s.tick + 1, s.config.agents) + Said(e),
      Some(e))
  }

  predicate DroughtActive(c: Config, round: nat) {
    c.droughtDuration > 0 && c.droughtStart <= round < c.droughtStart + c.droughtDuration
  }

  function EffectiveRegrowth(c: Config, round: nat): real {
    c.regrowth * if DroughtActive(c, round) then c.droughtMultiplier else 1.0
  }

  /** One completed step: activation, and regrowth at the end of a round. */
  ghost function Next(s: State, d: Decision, field: int -> real): State
    requires Sound(s)
  {
    if !Acceptable(s, d) then s
    else
      var t := Acted(s, d);
      if t.tick % t.config.agents != 0 then t
      else t.(resources := Regrown(t.config.land, t.config.capacity,
                                   EffectiveRegrowth(t.config, t.tick / t.config.agents), field, t.resources))
  }

  /** A fresh model: full fertile cells, agents inside, nothing remembered. */
  ghost predicate Initial(s: State) {
    && Sound(s) && s.tick == 0 && s.messages == [] && s.lastEvent == None
    && (forall c :: c in s.config.land.fertile ==> s.resources[c] == s.config.capacity)
    && forall i :: 0 <= i < |s.agents| ==> s.agents[i].history == [] && s.agents[i].harvested == 0
                                           && s.agents[i].lastAction == Wait && s.agents[i].message == []
                                           && s.agents[i].position in s.config.land.fertile
  }

  lemma {:induction false} ActedIsSound(s: State, d: Decision)
    requires Sound(s) && Acceptable(s, d)
    ensures Sound(Acted(s, d))
  {
    assert s.config.land.Inside(s.agents[Turn(s)].position);
  }

  lemma {:induction false} NextIsSound(s: State, d: Decision, field: int -> real)
    requires Sound(s)
    ensures Sound(Next(s, d, field))
    ensures Next(s, d, field).config == s.config
  {
    if Acceptable(s, d) {
      ActedIsSound(s, d);
    }
  }

  datatype Input = Input(decision: Decision, field: int -> real)

  ghost predicate StepAt(trace: seq<State>, inputs: seq<Input>, k: nat)
    requires k < |inputs| && |trace| == |inputs| + 1
  {
    && Sound(trace[k]) && IsField(inputs[k].field)
    && trace[k + 1] == Next(trace[k], inputs[k].decision, inputs[k].field)
  }

  /** Any sequence of steps, under any decisions and any draws. */
  ghost predicate Run(trace: seq<State>, inputs: seq<Input>) {
    && |trace| == |inputs| + 1 && Sound(trace[0])
    && forall k {:trigger StepAt(trace, inputs, k)} :: 0 <= k < |inputs| ==> StepAt(trace, inputs, k)
  }

  lemma {:induction false} RunIsSound(trace: seq<State>, inputs: seq<Input>, last: nat)
    requires Run(trace, inputs) && last < |trace|
    ensures forall k {:trigger trace[k]} :: 0 <= k <= last ==> Sound(trace[k]) && trace[k].config == trace[0].config
  {
    if last > 0 {
      RunIsSound(trace, inputs, last - 1);
      assert StepAt(trace, inputs, last - 1);
      NextIsSound(trace[last - 1], inputs[last - 1].decision, inputs[last - 1].field);
    }
  }

  // ----- extinction -----

  ghost predicate Extinct(grid: map<Cell, nat>, part: set<Cell>) {
    forall c :: c in part && c in grid ==> grid[c] == 0
  }

  /** The stock metric of one component. */
  function Stock(grid: map<Cell, nat>, component: seq<Cell>): nat
    requires forall c :: c in component ==> c in grid
  {
    if component == [] then 0
    else grid[component[|component| - 1]] + Stock(grid, component[..|component| - 1])
  }

  lemma {:induction false} StockZeroIsExtinct(grid: map<Cell, nat>, component: seq<Cell>)
    requires forall c :: c in component ==> c in grid
    ensures Stock(grid, component) == 0 <==> Extinct(grid, Elements(component))
  {
    if component != [] {
      var last := |component| - 1;
      StockZeroIsExtinct(grid, component[..last]);
      assert component == component[..last] + [component[last]];
      assert Elements(component) == Elements(component[..last]) + {component[last]};
    }
  }

  lemma {:induction false} NoSeedsNoGrowth(land: Land, capacity: nat, rate: real, draw: real, grid: map<Cell, nat>,
                                           part: set<Cell>, c: Cell)
    requires land.WellFormed() && Covers(land, grid) && draw >= 0.0
    requires Closed(land.fertile, part) && part <= land.fertile && Extinct(grid, part) && c in part && c in grid
    requires forall d :: d in grid && d !in land.fertile ==> grid[d] == 0
    ensures GrownCell(land, capacity, rate, draw, grid, c) == 0
  {
    forall k | 0 <= k < 4 ensures Live(grid, Shift(c, k)) == 0 {
      assert Touches(c, Shift(c, k));
    }
    assert Seeds(grid, c) == 0;
    assert Chance(rate, 0) == 0.0;
  }

  /** Extinction survives any single step. */
  lemma {:induction false} ExtinctionStep(s: State, d: Decision, field: int -> real, part: set<Cell>)
    requires Sound(s) && IsField(field)
    requires Closed(s.config.land.fertile, part) && part <= s.config.land.fertile && Extinct(s.resources, part)
    ensures Extinct(Next(s, d, field).resources, part)
  {
    if Acceptable(s, d) {
      ActedIsSound(s, d);
      var t := Acted(s, d);
      assert Extinct(t.resources, part);
      if t.tick % t.config.agents == 0 {
        var rate := EffectiveRegrowth(t.config, t.tick / t.config.agents);
        forall c | c in part && c in t.resources ensures Next(s, d, field).resources[c] == 0 {
          var draw := field(DrawIndex(t.config.land, c));
          NoSeedsNoGrowth(t.config.land, t.config.capacity, rate, draw, t.resources, part, c);
        }
      }
    }
  }

  lemma {:induction false} ExtinctionRun(trace: seq<State>, inputs: seq<Input>, part: set<Cell>, i: nat, j: nat)
    requires Run(trace, inputs) && i <= j < |trace| && part <= trace[0].config.land.fertile
    requires Closed(trace[0].config.land.fertile, part) && Extinct(trace[i].resources, part)
    ensures Extinct(trace[j].resources, part)
    decreases j
  {
    if i < j {
      ExtinctionRun(trace, inputs, part, i, j - 1);
      RunIsSound(trace, inputs, j - 1);
      assert StepAt(trace, inputs, j - 1);
      ExtinctionStep(trace[j - 1], inputs[j - 1].decision, inputs[j - 1].field, part);
    }
  }

  /** Once the stock of a component found by the flood fill is zero, it is zero in every
      later state, whatever is decided and drawn. */
  lemma {:induction false} ExtinctionIsPermanent(
        trace: seq<State>, inputs: seq<Input>, components: seq<seq<Cell>>, k: nat, i: nat, j: nat)
    requires Run(trace, inputs) && i <= j < |trace| && k < |components|
    requires IsPartition(trace[0].config.land.fertile, components)
    ensures forall c :: c in components[k] ==> c in trace[i].resources && c in trace[j].resources
    ensures Stock(trace[i].resources, components[k]) == 0 ==> Stock(trace[j].resources, components[k]) == 0
  {
    RunIsSound(trace, inputs, j);
    assert IsComponent(trace[0].config.land.fertile, components[k]);
    var component := components[k];
    assert forall c :: c in component ==> c in Elements(component);
    StockZeroIsExtinct(trace[i].resources, component);
    StockZeroIsExtinct(trace[j].resources, component);
    if Extinct(trace[i].resources, Elements(component)) {
      ExtinctionRun(trace, inputs, Elements(component), i, j);
    }
  }

  // ----- drought coupling -----

  /** The grid after `rounds` rounds of regrowth alone. */
  ghost function RegrowthRun(c: Config, fields: seq<int -> real>, start: map<Cell, nat>, rounds: nat): map<Cell, nat>
    requires rounds <= |fields|
  {
    if rounds == 0 then start
    else Regrown(c.land, c.capacity, EffectiveRegrowth(c, rounds), fields[rounds - 1],
                 RegrowthRun(c, fields, start, rounds - 1))
  }

  lemma {:induction false} RegrowthRunIsBounded(c: Config, fields: seq<int -> real>, start: map<Cell, nat>, rounds: nat)
    requires rounds <= |fields| && forall d :: d in start ==> start[d] <= c.capacity
    ensures forall d :: d in RegrowthRun(c, fields, start, rounds) ==>
              RegrowthRun(c, fields, start, rounds)[d] <= c.capacity
  {
    if rounds > 0 {
      RegrowthRunIsBounded(c, fields, start, rounds - 1);
    }
  }

  lemma {:induction false} DroughtLowersTheRate(dry: Config, round: nat)
    requires dry.WellFormed()
    ensures 0.0 <= EffectiveRegrowth(dry, round) <= EffectiveRegrowth(dry.(droughtDuration := 0), round)
  {
    var r, m := dry.regrowth, dry.droughtMultiplier;
    var normal := dry.(droughtDuration := 0);
    assert 0.0 <= r * m <= r * 1.0 == r;
    assert !DroughtActive(normal, round) && EffectiveRegrowth(normal, round) == r * 1.0;
    assert EffectiveRegrowth(dry, round) == if DroughtActive(dry, round) then r * m else r * 1.0;
  }

  /** With the same draws, the grid under a drought never exceeds the grid without it,
      in any cell and after any number of rounds. */
  lemma {:induction false} DroughtNeverHelps(dry: Config, fields: seq<int -> real>, start: map<Cell, nat>, rounds: nat)
    requires dry.WellFormed() && rounds <= |fields|
    requires forall d :: d in start ==> start[d] <= dry.capacity
    ensures var normal := dry.(droughtDuration := 0);
            Below(RegrowthRun(dry, fields, start, rounds), RegrowthRun(normal, fields, start, rounds))
  {
    var normal := dry.(droughtDuration := 0);
    if rounds > 0 {
      DroughtNeverHelps(dry, fields, start, rounds - 1);
      RegrowthRunIsBounded(normal, fields, start, rounds - 1);
      var low, high := EffectiveRegrowth(dry, rounds), EffectiveRegrowth(normal, rounds);
      DroughtLowersTheRate(dry, rounds);
      RegrowthIsMonotone(dry.land, dry.capacity, low, high, fields[rounds - 1],
                         RegrowthRun(dry, fields, start, rounds - 1), RegrowthRun(normal, fields, start, rounds - 1));
    }
  }

  // ----- the scripted rules -----

  /** A message that reaches agent `i`: an unexpired one of somebody else, sent nearby. */
  predicate Reaches(s: State, i: nat, m: Message)
    requires i < |s.agents|
  {
    && Manhattan(m.position, s.agents[i].position) <= 3 && m.agent != i
    && s.tick - m.tick < 2 * s.config.agents
  }

  function ReachingOf(s: State, i: nat, k: nat): seq<Message>
    requires i < |s.agents| && k <= |s.messages|
  {
    if k == 0 then []
    else ReachingOf(s, i, k - 1) + if Reaches(s, i, s.messages[k - 1]) then [s.messages[k - 1]] else []
  }

  /** What agent `i` hears: the last six messages that reach it, when messages are delivered. */
  function Audible(s: State, i: nat): seq<Message>
    requires i < |s.agents|
  {
    if s.config.delivers then LastOf(ReachingOf(s, i, |s.messages|), 6) else []
  }

  /** The cells that the messages agent `i` hears warn of. */
  function Protected(s: State, i: nat): set<Cell>
    requires i < |s.agents|
  {
    set m | m in Audible(s, i) && Heard(m.text).Some? :: Heard(m.text).value
  }

  /** How much of a cell the rule of agent `i` leaves standing. */
  function ReserveAt(s: State, i: nat, c: Cell): nat
    requires i < |s.agents|
  {
    match s.config.rule
    case Greedy => 0
    case Conserve => 1
    case Signal => if c in Protected(s, i) then 1 else 0
  }

  /** What the rule says: the signalling one warns of its own fertile cell at two units or less. */
  function Spoken(s: State, i: nat): Text
    requires Sound(s) && i < |s.agents|
  {
    var from := s.agents[i].position;
    assert s.config.land.Inside(from);
    if s.config.rule.Signal? && from in s.config.land.fertile && s.resources[from] <= 2 then Warning(from) else []
  }

  lemma {:induction false} SpokenIsShort(s: State, i: nat)
    requires Sound(s) && i < |s.agents|
    ensures |Spoken(s, i)| <= MESSAGE_LIMIT
  {
    var from := s.agents[i].position;
    assert s.config.land.Inside(from);
    assert |Decimal(from.0)| <= 2 && |Decimal(from.1)| <= 2;
  }

  /** The visible cells whose stock exceeds the reserve of agent `i`. */
  function Food(s: State, i: nat): set<Cell>
    requires i < |s.agents|
  {
    set c | c in s.resources && Manhattan(c, s.agents[i].position) <= 2 && s.resources[c] > ReserveAt(s, i, c)
  }

  predicate Nearest(food: set<Cell>, from: Cell, target: Cell) {
    target in food && forall other :: other in food ==> Manhattan(target, from) <= Manhattan(other, from)
  }

  lemma {:induction false} NearestExists(food: set<Cell>, from: Cell)
    requires food != {}
    ensures exists target :: Nearest(food, from, target)
  {
    var c :| c in food;
    var rest := food - {c};
    assert food == rest + {c};
    if rest == {} {
      assert Nearest(food, from, c);
    } else {
      NearestExists(rest, from);
      var best :| Nearest(rest, from, best);
      assert Nearest(food, from, if Manhattan(c, from) < Manhattan(best, from) then c else best);
    }
  }

  /** The move brings an agent strictly closer to a nearest food cell. */
  ghost predicate Approaches(food: set<Cell>, from: Cell, a: Action) {
    && a.Move()
    && exists target :: Nearest(food, from, target) && Manhattan(Moved(from, a), target) < Manhattan(from, target)
  }

  /** What the scripted rule may decide: harvest exactly above the reserve, otherwise approach
      a nearest visible food cell, and explore without harvesting when none is visible. */
  ghost predicate Scripted(s: State, d: Decision)
    requires Sound(s)
  {
    var i := Turn(s);
    var from, food := s.agents[i].position, Food(s, i);
    && Acceptable(s, d) && d.message == Spoken(s, i)
    && (d.action.Harvest? <==> from in s.resources && s.resources[from] > ReserveAt(s, i, from))
    && (!d.action.Harvest? && food != {} ==> Approaches(food, from, d.action))
  }

  // ----- the conserving rule -----

  /** A decision that does not harvest the last unit of a cell. */
  ghost predicate RespectsReserve(s: State, d: Decision)
    requires Sound(s)
  {
    d.action.Harvest? ==> s.resources[s.agents[Turn(s)].position] > 1
  }

  lemma {:induction false} ConservingRespectsReserve(s: State, d: Decision)
    requires Sound(s) && s.config.rule.Conserve? && Scripted(s, d)
    ensures RespectsReserve(s, d)
  {
    assert s.config.land.Inside(s.agents[Turn(s)].position);
  }

  /** Under the signalling rule a warning that is heard of the own cell keeps its last unit. */
  lemma {:induction false} HeardWarningIsHeeded(s: State, d: Decision, m: Message)
    requires Sound(s) && s.config.rule.Signal? && Scripted(s, d)
    requires m in Audible(s, Turn(s)) && Heard(m.text) == Some(s.agents[Turn(s)].position)
    ensures RespectsReserve(s, d)
  {
    assert s.config.land.Inside(s.agents[Turn(s)].position);
    assert s.agents[Turn(s)].position in Protected(s, Turn(s));
  }

  ghost predicate AllFertileLive(s: State) {
    forall c :: c in s.config.land.fertile && c in s.resources ==> s.resources[c] > 0
  }

  lemma {:induction false} ConserveStep(s: State, d: Decision, field: int -> real)
    requires Sound(s) && AllFertileLive(s) && RespectsReserve(s, d)
    ensures AllFertileLive(Next(s, d, field))
  {
    if Acceptable(s, d) {
      assert AllFertileLive(Acted(s, d));
    }
  }

  ghost predicate ScriptedAt(trace: seq<State>, inputs: seq<Input>, k: nat)
    requires k < |inputs| && |trace| == |inputs| + 1
  {
    Sound(trace[k]) && Scripted(trace[k], inputs[k].decision)
  }

  /** A run of the scripted policy: every decision is one the rule can make. */
  ghost predicate ScriptedRun(trace: seq<State>, inputs: seq<Input>) {
    && Run(trace, inputs)
    && forall k {:trigger ScriptedAt(trace, inputs, k)} :: 0 <= k < |inputs| ==> ScriptedAt(trace, inputs, k)
  }

  /** Under the conserving rule no fertile cell is ever emptied. */
  lemma {:induction false} ConserveNeverEmpties(trace: seq<State>, inputs: seq<Input>, k: nat)
    requires ScriptedRun(trace, inputs) && Initial(trace[0]) && trace[0].config.rule.Conserve? && k < |trace|
    ensures AllFertileLive(trace[k])
    decreases k
  {
    if k > 0 {
      ConserveNeverEmpties(trace, inputs, k - 1);
      RunIsSound(trace, inputs, k - 1);
      assert StepAt(trace, inputs, k - 1) && ScriptedAt(trace, inputs, k - 1);
      ConservingRespectsReserve(trace[k - 1], inputs[k - 1].decision);
      ConserveStep(trace[k - 1], inputs[k - 1].decision, inputs[k - 1].field);
    }
  }

  const MOVES: seq<Action> := [North, South, West, East]

  // ----- the mutable model -----

  class MiniCommons {
    const config: Config
    var resources: map<Cell, nat>
    var agents: seq<Harvester>
    var tick: nat
    var messages: seq<Message>
    var lastEvent: Option<Event>
    var rng: nat
    var policyRng: nat

    function View(): State
      reads this
    {
      State(config, resources, agents, tick, messages, lastEvent)
    }

    ghost predicate Valid()
      reads this
    {
      Sound(View())
    }

    /** A fresh model on the given landscape and start cells, with its two random states. */
    constructor (config: Config, starts: seq<Cell>, rng: nat, policyRng: nat)
      requires config.WellFormed() && |starts| == config.agents
      requires forall i :: 0 <= i < |starts| ==> starts[i] in config.land.fertile
      ensures Initial(View()) && this.config == config && this.rng == rng && this.policyRng == policyRng
      ensures forall i :: 0 <= i < |starts| ==> agents[i].position == starts[i]
    {
      this.config, this.rng, this.policyRng := config, rng, policyRng;
      resources := map c | c in Area(config.land) :: if c in config.land.fertile then config.capacity else 0;
      agents := seq(|starts|, i requires 0 <= i < |starts| => Harvester(starts[i], 0, Wait, [], []));
      tick, messages, lastEvent := 0, [], None;
    }

    method LegalActions(position: Cell) returns (actions: seq<Action>)
      requires position in resources
      ensures forall a :: a in actions <==> Legal(config.land, resources, position, a)
    {
      actions := if resources[position] > 0 then [Wait, Harvest] else [Wait];
      for k := 0 to 4
        invariant forall a :: a in actions <==>
                                Legal(config.land, resources, position, a) && (a.Move() ==> a in MOVES[..k])
      {
        if config.land.Inside(Moved(position, MOVES[k])) {
          actions := actions + [MOVES[k]];
        }
      }
      assert MOVES[..4] == [North, South, West, East];
    }

    /** One step of directed search: strictly closer to a nearest visible food cell. Ties are
        drawn, so only the policy's random state changes. */
    method MoveTowardFood(from: Cell, food: set<Cell>, actions: seq<Action>) returns (a: Action)
      requires config.land.Inside(from) && food != {} && from !in food
      requires forall c :: c in food ==> config.land.Inside(c)
      requires forall m: Action :: m.Move() && config.land.Inside(Moved(from, m)) ==> m in actions
      modifies this`policyRng
      ensures a in actions && Approaches(food, from, a)
    {
      NearestExists(food, from);
      var target :| Nearest(food, from, target);
      var moves: seq<Action> := [];
      for k := 0 to 4
        invariant forall m :: m in moves <==>
                                m in MOVES[..k] && m in actions
                                      && Manhattan(Moved(from, m), target) < Manhattan(from, target)
      {
        if MOVES[k] in actions && Manhattan(Moved(from, MOVES[k]), target) < Manhattan(from, target) {
          moves := moves + [MOVES[k]];
        }
      }
      assert MOVES[..4] == [North, South, West, East];
      ghost var closer := if target.0 > from.0 then East else if target.0 < from.0 then West
                          else if target.1 > from.1 then South else North;
      assert Manhattan(Moved(from, closer), target) < Manhattan(from, target) && closer in MOVES[..4];
      assert closer in moves;
      a :| a in moves;
      policyRng := *;
    }

    /** Approach visible food, or explore without harvesting when there is none. */
    method Forage(i: nat) returns (a: Action)
      requires Valid() && i < |agents| && agents[i].position !in Food(View(), i)
      modifies this`policyRng
      ensures Legal(config.land, resources, agents[i].position, a) && !a.Harvest?
      ensures Food(View(), i) != {} ==> Approaches(Food(View(), i), agents[i].position, a)
    {
      var from := agents[i].position;
      assert config.land.Inside(from);
      var actions := LegalActions(from);
      var food := Food(View(), i);
      if food == {} {
        assert Wait in actions;
        a :| a in actions && a != Harvest;
        policyRng := *;
      } else {
        a := MoveTowardFood(from, food, actions);
      }
    }

    /** The last messages that reach an agent. */
    method AudibleMessages(i: nat) returns (audible: seq<Message>)
      requires i < |agents|
      ensures audible == Audible(View(), i)
    {
      if !config.delivers {
        return [];
      }
      var reaching: seq<Message> := [];
      for k := 0 to |messages|
        invariant reaching == ReachingOf(View(), i, k)
      {
        if Reaches(View(), i, messages[k]) {
          reaching := reaching + [messages[k]];
        }
      }
      audible := LastOf(reaching, 6);
    }

    /** The warned cells among what an agent hears. */
    method Warnings(i: nat) returns (protected: set<Cell>)
      requires i < |agents|
      ensures protected == Protected(View(), i)
    {
      var audible := AudibleMessages(i);
      protected := {};
      for k := 0 to |audible|
        invariant protected == set m | m in audible[..k] && Heard(m.text).Some? :: Heard(m.text).value
      {
        assert audible[..k + 1] == audible[..k] + [audible[k]];
        var heard := Heard(audible[k].text);
        if heard.Some? {
          protected := protected + {heard.value};
        }
      }
      assert audible[..|audible|] == audible;
    }

    /** Greedy but for the warnings it hears, and warning of its own nearly empty cell. */
    method SignalDecision() returns (d: Decision)
      requires Valid() && config.rule.Signal?
      modifies this`policyRng
      ensures Scripted(View(), d)
    {
      var i := tick % config.agents;
      var from := agents[i].position;
      assert config.land.Inside(from);
      var protected := Warnings(i);
      var message := if from in config.land.fertile && resources[from] <= 2 then Warning(from) else [];
      SpokenIsShort(View(), i);
      var reserve := if from in protected then 1 else 0;
      if resources[from] > reserve {
        return Decision(Harvest, message);
      }
      var a := Forage(i);
      d := Decision(a, message);
    }

    /** Harvest above the reserve; otherwise approach visible food or explore. */
    method RuleDecision() returns (d: Decision)
      requires Valid()
      modifies this`policyRng
      ensures Scripted(View(), d)
    {
      if config.rule == Signal {
        d := SignalDecision();
        return;
      }
      var i := tick % config.agents;
      var from := agents[i].position;
      assert config.land.Inside(from);
      var reserve := if config.rule == Conserve then 1 else 0;
      if resources[from] > reserve {
        return Decision(Harvest, []);
      }
      var a := Forage(i);
      d := Decision(a, []);
    }

    method ApplyAction(i: nat, a: Action) returns (gain: nat)
      requires Valid() && i < |agents| && Legal(config.land, resources, agents[i].position, a)
      modifies this`resources, this`agents
      ensures gain == if a.Harvest? then 1 else 0
      ensures resources == if a.Harvest?
                           then old(resources)[old(agents[i].position) := old(resources)[old(agents[i].position)] - 1]
                           else old(resources)
      ensures agents == old(agents)[i := old(agents[i]).(position := Moved(old(agents[i].position), a),
                                                         harvested := old(agents[i]).harvested + gain)]
    {
      var p := agents[i];
      gain := 0;
      if a == Harvest {
        resources := resources[p.position := resources[p.position] - 1];
        p := p.(harvested := p.harvested + 1);
        gain := 1;
      } else if a.Move() {
        p := p.(position := Moved(p.position, a));
      }
      agents := agents[i := p];
    }

    method RememberActivation(i: nat, d: Decision, gain: nat)
      requires i < |agents| && config.memory >= 1
      modifies this`agents, this`lastEvent
      ensures var e := Event(tick, i, d.action, old(agents[i].position), gain, d.message);
              && lastEvent == Some(e)
              && agents == old(agents)[i := old(agents[i]).(lastAction := d.action, message := d.message,
                                                      history := LastOf(old(agents[i].history) + [e], config.memory))]
    {
      var p := agents[i];
      var e := Event(tick, i, d.action, p.position, gain, d.message);
      lastEvent := Some(e);
      agents := agents[i := p.(lastAction := d.action, message := d.message,
                               history := LastOf(p.history + [e], config.memory))];
    }

    method PublishMessage(i: nat, message: Text)
      requires i < |agents|
      modifies this`messages
      ensures messages == Unexpired(old(messages), tick, config.agents)
                          + if message == [] then [] else [Message(tick, i, agents[i].position, message)]
    {
      var kept: seq<Message> := [];
      for k := 0 to |messages|
        invariant kept == UnexpiredOf(messages, k, tick, config.agents)
      {
        if tick - messages[k].tick < 2 * config.agents {
          kept := kept + [messages[k]];
        }
      }
      messages := kept;
      if message != [] {
        messages := messages + [Message(tick, i, agents[i].position, message)];
      }
    }

    /** The three updates of an accepted activation, in the model's order. */
    method Activate(d: Decision)
      requires Valid() && Acceptable(View(), d)
      modifies this`resources, this`agents, this`tick, this`messages, this`lastEvent
      ensures View() == Acted(old(View()), d)
    {
      var i := tick % config.agents;
      tick := tick + 1;
      var gain := ApplyAction(i, d.action);
      RememberActivation(i, d, gain);
      PublishMessage(i, d.message);
    }

    /** The validation of an answer before anything changes. */
    method Accepts(d: Decision) returns (ok: bool)
      requires Valid()
      ensures ok <==> Acceptable(View(), d)
    {
      assert config.land.Inside(agents[Turn(View())].position);
      var actions := LegalActions(agents[tick % config.agents].position);
      ok := d.action in actions && |d.message| <= MESSAGE_LIMIT;
    }

    /** Regrowth, once per complete round. */
    method EndActivation(field: int -> real)
      requires Valid()
      modifies this`resources
      ensures resources == if tick % config.agents != 0 then old(resources)
                           else Regrown(config.land, config.capacity,
                                        EffectiveRegrowth(config, tick / config.agents), field, old(resources))
    {
      if tick % config.agents == 0 {
        var rate := EffectiveRegrowth(config, tick / config.agents);
        resources := Regrow(config.land, config.capacity, rate, field, resources);
      }
    }

    /** One activation. The decision may be missing (the backend failed) or invalid; then
        nothing changes. */
    method Step(decision: Option<Decision>, field: int -> real) returns (completed: bool)
      requires Valid()
      modifies this`resources, this`agents, this`tick, this`messages, this`lastEvent
      ensures Valid()
      ensures completed <==> decision.Some? && Acceptable(old(View()), decision.value)
      ensures View() == if completed then Next(old(View()), decision.value, field) else old(View())
    {
      if decision.None? {
        return false;
      }
      completed := Accepts(decision.value);
      if completed {
        NextIsSound(View(), decision.value, field);
        ActedIsSound(View(), decision.value);
        Activate(decision.value);
        EndActivation(field);
      }
    }
  }
}
