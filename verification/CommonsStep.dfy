/** One step of the commons against a decision tape: a transaction over the tape cursor, the
    random states and the model, with answers judged by what is legal at that moment. */
module CommonsStep {
  import opened Prelude
  import opened Tapes
  import opened Landscape
  import opened Commons
  import CommonsMemory
  import Checkpoint

  /** The model with its two random states. */
  type Full = Checkpoint.Core<Config, State>

  function Whole(s: State, rng: nat, policyRng: nat): Full {
    Checkpoint.Core(s.config, s.tick, rng, policyRng, s)
  }

  /** The observation behind a prompt, and the regrowth draws of each round. */
  datatype Draws = Draws(prompt: State -> Request, field: (Config, nat) -> (int -> real))

  ghost predicate LawfulField(d: Draws, c: Config, round: nat) {
    IsField(d.field(c, round))
  }

  ghost predicate Lawful(d: Draws) {
    forall c: Config, round: nat {:trigger LawfulField(d, c, round)} :: LawfulField(d, c, round)
  }

  function ActionOf(choice: Text): Option<Action> {
    if choice == Spelled("wait") then Some(Wait)
    else if choice == Spelled("harvest") then Some(Harvest)
    else if choice == Spelled("north") then Some(North)
    else if choice == Spelled("south") then Some(South)
    else if choice == Spelled("west") then Some(West)
    else if choice == Spelled("east") then Some(East)
    else None
  }

  /** A legal action of the agent whose turn it is, and a short message. */
  predicate ValidAnswer(s: State, a: Answer) {
    var action := ActionOf(a.choice);
    && |s.agents| == s.config.agents > 0
    && var p := s.agents[Turn(s)].position;
       && action.Some? && p in s.resources && Legal(s.config.land, s.resources, p, action.value)
       && |a.note| <= MESSAGE_LIMIT
  }

  function ValidAt(f: Full): Answer -> bool {
    (a: Answer) => ValidAnswer(f.state, a)
  }

  function DecisionOf(a: Answer): Decision {
    var action := ActionOf(a.choice);
    Decision(if action.Some? then action.value else Wait, a.note)
  }

  /** An answer passes the check exactly when the step accepts its decision. */
  lemma {:induction false} ValidIsAcceptable(s: State, a: Answer)
    requires Commons.Sound(s)
    ensures ValidAnswer(s, a) <==> ActionOf(a.choice).Some? && Acceptable(s, DecisionOf(a))
  {
    assert s.config.land.Inside(s.agents[Turn(s)].position);
  }

  /** The round that a completed step belongs to when it is over. */
  function RoundAfter(s: State): nat
    requires s.config.agents > 0
  {
    (s.tick + 1) / s.config.agents
  }

  ghost function Finished(d: Draws, f: Full, answers: seq<Answer>): Full {
    var s := f.state;
    if !Commons.Sound(s) || |answers| != 1 then f
    else Whole(Next(s, DecisionOf(answers[0]), d.field(s.config, RoundAfter(s))), f.rng, f.policyRng)
  }

  /** The commons as a client of the tape: one prompt, for the agent whose turn it is. */
  ghost function CommonsClient(d: Draws): Client<Full> {
    Client((f: Full) => [d.prompt(f.state)],
           (f: Full) => ValidAt(f),
           (f: Full, answers: seq<Answer>) => Finished(d, f, answers))
  }

  /** Ask, check the answer against the legal actions, and only then change the model. On any
      failure random states and cursor go back; spent calls do not. */
  method Step(model: MiniCommons, tape: DecisionTape, d: Draws, outcome: Outcome) returns (completed: bool)
    requires model.Valid()
    modifies model, tape
    ensures (Whole(model.View(), model.rng, model.policyRng), tape.View(), completed)
            == Tapes.Step(CommonsClient(d), old(Whole(model.View(), model.rng, model.policyRng)),
                          old(tape.View()), [outcome])
    ensures !completed ==> unchanged(model) && tape.cursor == old(tape.cursor)
    ensures completed ==> model.Valid() && model.tick == old(model.tick) + 1
  {
    var s := model.View();
    var mark := (model.rng, model.policyRng);
    var f := Whole(s, model.rng, model.policyRng);
    var answers := tape.AskAll(ValidAt(f), [d.prompt(s)], [outcome]);
    if answers.None? {
      model.rng, model.policyRng := mark.0, mark.1;
      return false;
    }
    ghost var start := old(tape.View());
    AskedOnce(ValidAt(f), d.prompt(s), start, outcome);
    ValidIsAcceptable(s, answers.value[0]);
    completed := model.Step(Some(DecisionOf(answers.value[0])), d.field(s.config, RoundAfter(s)));
  }

  /** A completed attempt at one prompt brings one valid answer. */
  lemma {:induction false} AskedOnce(valid: Answer -> bool, request: Request, t: Tape, outcome: Outcome)
    ensures var answers := Attempt(valid, [request], t, [outcome]).1;
            answers.Some? ==> |answers.value| == 1 && valid(answers.value[0])
  {
    assert [request][1..] == [] && [outcome][1..] == [];
  }

  ghost predicate AgreesWith(f: Full, log: seq<Event>) {
    f == Whole(f.state, f.rng, f.policyRng) && Commons.Sound(f.state) && CommonsMemory.Consistent(f.state, log)
  }

  /** A reachable commons: some log of activations that its state agrees with. */
  ghost predicate Reachable(f: Full) {
    exists log :: AgreesWith(f, log)
  }

  /** A step of a reachable commons leads to a reachable one. */
  lemma {:induction false} StepIsReachable(d: Draws, f: Full, t: Tape, outcomes: seq<Outcome>)
    requires Reachable(f) && |outcomes| == 1
    ensures var (g, _, completed) := Tapes.Step(CommonsClient(d), f, t, outcomes);
            Reachable(g) && (!completed ==> g == f)
  {
    var s := f.state;
    assert outcomes == [outcomes[0]];
    var answers := Attempt(ValidAt(f), [d.prompt(s)], t, outcomes).1;
    AskedOnce(ValidAt(f), d.prompt(s), t, outcomes[0]);
    if answers.Some? {
      var log :| AgreesWith(f, log);
      var decision := DecisionOf(answers.value[0]);
      ValidIsAcceptable(s, answers.value[0]);
      CommonsMemory.NextIsConsistent(s, log, decision, d.field(s.config, RoundAfter(s)));
      assert AgreesWith(Finished(d, f, answers.value), CommonsMemory.LogNext(s, log, decision));
    }
  }

  /** What is extinct stays extinct, whatever the provider answers. */
  lemma {:induction false} ExtinctionSurvivesStep(d: Draws, f: Full, t: Tape, outcomes: seq<Outcome>, part: set<Cell>)
    requires Lawful(d) && Commons.Sound(f.state) && |outcomes| == 1
    requires Closed(f.state.config.land.fertile, part) && part <= f.state.config.land.fertile
    requires Extinct(f.state.resources, part)
    ensures Extinct(Tapes.Step(CommonsClient(d), f, t, outcomes).0.state.resources, part)
  {
    var s := f.state;
    var answers := Attempt(ValidAt(f), [d.prompt(s)], t, outcomes).1;
    if answers.Some? && |answers.value| == 1 {
      assert LawfulField(d, s.config, RoundAfter(s));
      ExtinctionStep(s, DecisionOf(answers.value[0]), d.field(s.config, RoundAfter(s)), part);
    }
  }

  /** The moves of an experiment: steps, and rewinds to reachable states. */
  ghost predicate Experimental(move: Tapes.Move<Full>) {
    match move
    case Try(_) => true
    case Rewind(f, _) => Reachable(f)
    case Change(_) => false
  }

  /** Every experiment stays among the reachable states, whatever the provider answers. */
  lemma {:induction false} RunIsReachable(d: Draws, f: Full, t: Tape, moves: seq<Tapes.Move<Full>>)
    requires Reachable(f)
    requires forall k {:trigger Experimental(moves[k])} :: 0 <= k < |moves| ==> Experimental(moves[k])
    ensures Reachable(Tapes.Run(CommonsClient(d), f, t, moves).0)
    decreases |moves|
  {
    if moves != [] {
      var rest := moves[1..];
      assert Experimental(moves[0]);
      forall k {:trigger Experimental(rest[k])} | 0 <= k < |rest| ensures Experimental(rest[k]) {
        assert Experimental(moves[k + 1]);
      }
      match moves[0]
      case Rewind(g, cursor) =>
        RunIsReachable(d, g, t.(cursor := cursor), rest);
      case Try(outcomes) =>
        if |outcomes| != 1 {
          RunIsReachable(d, f, t, rest);
        } else {
          StepIsReachable(d, f, t, outcomes);
          var (g, u, _) := Tapes.Step(CommonsClient(d), f, t, outcomes);
          RunIsReachable(d, g, u, rest);
        }
    }
  }

  /** A failed step leaves model, random states and cursor in place, and its retry sends at
      most one request: none when the failed answer was recorded. */
  lemma {:induction false} RetryPaysOnce(d: Draws, f: Full, t: Tape, outcomes: seq<Outcome>, again: seq<Outcome>)
    requires |outcomes| == |again| == 1
    requires !Tapes.Step(CommonsClient(d), f, t, outcomes).2
    ensures var (g, u, _) := Tapes.Step(CommonsClient(d), f, t, outcomes);
            var retried := Tapes.Step(CommonsClient(d), f, u, again).1;
            && g == f && u.cursor == t.cursor && retried.liveCalls <= u.liveCalls + 1
            && ((u.cursor, d.prompt(f.state).fingerprint) in u.records ==> retried.liveCalls == u.liveCalls)
  {
    var requests := [d.prompt(f.state)];
    assert requests[1..] == [];
    RetryPaysForTheRest(CommonsClient(d), f, t, outcomes, again);
    AttemptFollows(ValidAt(f), requests, Tapes.Step(CommonsClient(d), f, t, outcomes).1, again);
    AttemptPaysForMissing(ValidAt(f), requests, Tapes.Step(CommonsClient(d), f, t, outcomes).1, again);
  }

  /** A recorded answer that is illegal at that moment fails every retry of the step. */
  lemma {:induction false} IllegalAnswerIsFinal(d: Draws, f: Full, t: Tape, again: seq<Outcome>)
    requires |again| == 1
    requires var key := (t.cursor, d.prompt(f.state).fingerprint);
             key in t.records && !ValidAnswer(f.state, t.records[key].response)
    ensures !Tapes.Step(CommonsClient(d), f, t, again).2
  {
  }

  /** Whatever fits in a message can do it: an agent that waits and says two letters with a
      line separator between them completes the step, and the recording cannot be opened. */
  lemma {:induction false} SpokenSeparatorBreaksRecording(d: Draws, f: Full)
    requires Commons.Sound(f.state) && Fits(d.prompt(f.state))
    ensures var spoken := Answer(Spelled("wait"), ['a' as int, 0x2028, 'b' as int], []);
            var (g, t, completed) := Tapes.Step(CommonsClient(d), f, LiveTape(1), [Completed(spoken, 0)]);
            && completed && g.state.tick == f.state.tick + 1
            && |t.recording| == 1 && t.recording[0].index == 0 && Load(t.recording).None?
  {
    var spoken := Answer(Spelled("wait"), ['a' as int, 0x2028, 'b' as int], []);
    WaitingIsValid(f.state, spoken);
    assert Separator(spoken.Written()[5]);
    SeparatorBreaksRecording(CommonsClient(d), f, d.prompt(f.state), spoken);
  }

  /** And one that says a lone surrogate completes on the retry, from the cache, but its
      recording has no line for it and does not replay. */
  lemma {:induction false} SpokenSurrogateIsLost(d: Draws, f: Full)
    requires Commons.Sound(f.state) && Fits(d.prompt(f.state))
    ensures var spoken := Answer(Spelled("wait"), [0xD800], []);
            var moves := [Try([Completed(spoken, 0)]), Try([Failed(0)])];
            var (g, t, kept) := Tapes.Run(CommonsClient(d), f, LiveTape(1), moves);
            && kept == [Stepped] && g.state.tick == f.state.tick + 1
            && Load(t.recording) == Some(map[]) && Replay(CommonsClient(d), f, Fresh(map[]), kept).None?
  {
    var spoken := Answer(Spelled("wait"), [0xD800], []);
    WaitingIsValid(f.state, spoken);
    assert spoken.Written()[4] == 0xD800;
    UnwritableAnswerIsLost(CommonsClient(d), f, d.prompt(f.state), spoken);
  }

  lemma {:induction false} WaitingIsValid(s: State, a: Answer)
    requires Commons.Sound(s) && a.choice == Spelled("wait") && |a.note| <= MESSAGE_LIMIT
    ensures ValidAnswer(s, a) && DecisionOf(a) == Decision(Wait, a.note)
    ensures Acceptable(s, DecisionOf(a))
  {
    assert s.config.land.Inside(s.agents[Turn(s)].position);
  }

  /** Every live run of the commons, with failures, retries and rewinds, leaves a recording
      that loads exactly when its lines are legible, and then it replays offline to the same
      grid, agents, messages and random states exactly when the answers used were writable. */
  lemma {:induction false} CommonsRunReplays(d: Draws, f: Full, budget: nat)
    ensures forall moves {:trigger RecordingReplays(CommonsClient(d), f, budget, moves)} ::
              RecordingReplays(CommonsClient(d), f, budget, moves)
  {
    forall moves {:trigger RecordingReplays(CommonsClient(d), f, budget, moves)}
      ensures RecordingReplays(CommonsClient(d), f, budget, moves)
    {
      RecordedRunReplays(CommonsClient(d), f, budget, moves);
    }
  }
}
