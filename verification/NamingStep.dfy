/** One step of the naming game against a decision tape: a transaction over two random
    states, the tape cursor and the model, across treatments that change the network. */
module NamingStep {
  import opened Prelude
  import opened Tapes
  import opened Naming
  import opened ContactGraphs
  import ContactNetworks
  import Checkpoint

  /** The model with its two random states. */
  type Full = Checkpoint.Core<Config, State>

  function Whole(s: State, rng: nat, policyRng: nat): Full {
    Checkpoint.Core(s.config, s.tick, rng, policyRng, s)
  }

  /** What the random streams decide. The shuffles and the network are functions of the
      configuration; a pair is drawn from the one running state, the prompts from the other. */
  datatype Draws = Draws(
    order: (nat, nat) -> seq<nat>,
    minority: (nat, nat) -> seq<nat>,
    network: Config -> set<Edge>,
    pick: (Config, nat) -> (nat, nat, nat),
    prompt: (State, nat, nat) -> (Request, nat))

  ghost predicate LawfulNetwork(d: Draws, c: Config) {
    var order := d.order(c.seed, c.agents);
    Permutation(order, c.agents) && ContactNetworks.Network(c.topology, c.agents, c.degree, order, d.network(c))
  }

  ghost predicate LawfulPick(d: Draws, c: Config, rng: nat) {
    ContactNetworks.Picks(c.topology, c.agents, d.network(c), d.pick(c, rng).0, d.pick(c, rng).1)
  }

  /** Every accepted configuration gets a network of its topology, and pairs come from it. */
  ghost predicate Lawful(d: Draws) {
    && (forall c: Config {:trigger LawfulNetwork(d, c)} :: c.Accepted() ==> LawfulNetwork(d, c))
    && (forall c: Config, rng: nat {:trigger LawfulPick(d, c, rng)} :: c.Accepted() ==> LawfulPick(d, c, rng))
  }

  /** The two players of a step are distinct neighbours in the network of the moment. */
  lemma {:induction false} PickedMeet(d: Draws, c: Config, rng: nat)
    requires Lawful(d) && c.Accepted()
    ensures var (a, b, _) := d.pick(c, rng);
            a < c.agents && b < c.agents && a != b && Link(a, b) in d.network(c)
  {
    assert LawfulNetwork(d, c) && LawfulPick(d, c, rng);
    ContactNetworks.PickIsContact(c.topology, c.agents, c.degree, d.order(c.seed, c.agents), d.network(c),
                                  d.pick(c, rng).0, d.pick(c, rng).1);
  }

  /** The players of the fixed minority: the first of a seeded shuffle. */
  predicate Fixed(d: Draws, c: Config, i: nat) {
    var shuffled := d.minority(c.seed, c.agents);
    i in if c.committed <= |shuffled| then shuffled[..c.committed] else shuffled
  }

  predicate ValidChoice(a: Answer) {
    a.choice == Spelled("Q") || a.choice == Spelled("M")
  }

  function NameOf(choice: Text): Name {
    if choice == Spelled("Q") then Q else M
  }

  /** The prompts of the two players, in order; players of the fixed minority have none. */
  function Prompts(d: Draws, f: Full): (seq<Request>, nat) {
    var (a, b, _) := d.pick(f.state.config, f.rng);
    var (first, p) := if Fixed(d, f.state.config, a) then ([], f.policyRng)
                      else var (r, q) := d.prompt(f.state, a, f.policyRng); ([r], q);
    var (second, q) := if Fixed(d, f.state.config, b) then ([], p)
                       else var (r, q) := d.prompt(f.state, b, p); ([r], q);
    (first + second, q)
  }

  function Chosen(d: Draws, c: Config, i: nat, answers: seq<Answer>, k: nat): Decision {
    if Fixed(d, c, i) then Decision(c.committedName, Spelled("exogenous fixed-name policy"))
    else if k < |answers| then Decision(NameOf(answers[k].choice), answers[k].note)
    else Decision(Q, [])
  }

  /** The decisions of the two players. */
  function Pair(d: Draws, f: Full, answers: seq<Answer>): (Decision, Decision) {
    var c := f.state.config;
    var (a, b, _) := d.pick(c, f.rng);
    (Chosen(d, c, a, answers, 0), Chosen(d, c, b, answers, if Fixed(d, c, a) then 0 else 1))
  }

  /** The completed step: both players receive their decisions at once. */
  function Finished(d: Draws, f: Full, answers: seq<Answer>): Full {
    var c := f.state.config;
    var (a, b, rng) := d.pick(c, f.rng);
    if |f.state.players| != c.agents || a >= c.agents || b >= c.agents then f
    else
      var (x, y) := Pair(d, f, answers);
      Whole(Interacted(f.state, a, b, x, y), rng, Prompts(d, f).1)
  }

  /** The naming game as a client of the tape. */
  function NamingClient(d: Draws): Client<Full> {
    Client((f: Full) => Prompts(d, f).0,
           (f: Full) => ValidChoice,
           (f: Full, answers: seq<Answer>) => Finished(d, f, answers))
  }

  /** A treatment as a change of the model from outside; an invalid one changes nothing. */
  function Branched(f: Full, treatment: Treatment): Full {
    if Reconfigured(f.state.config, treatment).Accepted() then
      Whole(Treated(f.state, treatment), f.rng, f.policyRng)
    else f
  }

  function Treating(treatment: Treatment): Tapes.Move<Full> {
    Tapes.Change((f: Full) => Branched(f, treatment))
  }

  /** Choose a pair, ask both, validate both, and only then change the model. On any
      failure both random states and the cursor go back; spent calls do not. */
  method Step(model: NamingGame, tape: DecisionTape, d: Draws, outcomes: seq<Outcome>) returns (completed: bool)
    requires Naming.Sound(model.View()) && model.config.Accepted() && Lawful(d)
    requires model.network == d.network(model.config)
    requires |outcomes| == |Prompts(d, Whole(model.View(), model.rng, model.policyRng)).0|
    modifies model, tape
    ensures (Whole(model.View(), model.rng, model.policyRng), tape.View(), completed)
            == Tapes.Step(NamingClient(d), old(Whole(model.View(), model.rng, model.policyRng)),
                          old(tape.View()), outcomes)
    ensures !completed ==> unchanged(model) && tape.cursor == old(tape.cursor)
    ensures completed ==> Naming.Sound(model.View()) && model.tick == old(model.tick) + 1
    ensures completed ==> model.lastInteraction.Some?
                          && model.lastInteraction.value.Ends() in model.network
  {
    var f := Whole(model.View(), model.rng, model.policyRng);
    var mark := (model.rng, model.policyRng);
    PickedMeet(d, model.config, model.rng);
    var (a, b, rng) := d.pick(model.config, model.rng);
    var (requests, policyRng) := Prompts(d, f);
    model.rng, model.policyRng := rng, policyRng;
    var answers := tape.AskAll(ValidChoice, requests, outcomes);
    if answers.None? {
      model.rng, model.policyRng := mark.0, mark.1;
      return false;
    }
    var (x, y) := Pair(d, f, answers.value);
    model.ApplyInteraction(a, b, x, y);
    completed := true;
  }

  /** A step of a reachable game leads to a reachable game: its log grows by the meeting. */
  lemma {:induction false} StepIsConsistent(d: Draws, f: Full, log: seq<Meeting>, t: Tape, outcomes: seq<Outcome>)
    requires Lawful(d) && f == Whole(f.state, f.rng, f.policyRng) && f.state.config.Accepted()
    requires Naming.Consistent(f.state, log) && |outcomes| == |Prompts(d, f).0|
    ensures var (g, _, completed) := Tapes.Step(NamingClient(d), f, t, outcomes);
            && g == Whole(g.state, g.rng, g.policyRng) && g.config == f.config
            && if completed then exists m :: Naming.Consistent(g.state, log + [m]) && m.Ends() in d.network(f.config)
               else g == f
  {
    var answers := Attempt(ValidChoice, Prompts(d, f).0, t, outcomes).1;
    if answers.Some? {
      PickedMeet(d, f.config, f.rng);
      var (a, b, _) := d.pick(f.config, f.rng);
      var (x, y) := Pair(d, f, answers.value);
      InteractionIsConsistent(f.state, log, a, b, x, y);
      assert Naming.Consistent(Finished(d, f, answers.value).state, log + [Met(f.state, a, b, x, y)]);
    }
  }

  ghost predicate AgreesWith(f: Full, log: seq<Meeting>) {
    f == Whole(f.state, f.rng, f.policyRng) && f.state.config.Accepted() && Naming.Consistent(f.state, log)
  }

  /** A reachable game: accepted configuration, and some log that its state agrees with. */
  ghost predicate Reachable(f: Full) {
    exists log :: AgreesWith(f, log)
  }

  /** The moves of an experiment: steps, treatments, and rewinds to reachable games. */
  ghost predicate Experimental(move: Tapes.Move<Full>) {
    match move
    case Try(_) => true
    case Rewind(f, _) => Reachable(f)
    case Change(change) => exists treatment :: change == Treating(treatment).change
  }

  lemma {:induction false} BranchIsReachable(f: Full, treatment: Treatment)
    requires Reachable(f)
    ensures Reachable(Branched(f, treatment))
  {
    var log :| AgreesWith(f, log);
    TreatmentIsConsistent(f.state, log, treatment);
    assert AgreesWith(Branched(f, treatment), log);
  }

  lemma {:induction false} StepIsReachable(d: Draws, f: Full, t: Tape, outcomes: seq<Outcome>)
    requires Lawful(d) && Reachable(f) && |outcomes| == |NamingClient(d).asks(f)|
    ensures Reachable(Tapes.Step(NamingClient(d), f, t, outcomes).0)
  {
    var log :| AgreesWith(f, log);
    StepIsConsistent(d, f, log, t, outcomes);
    var (g, _, completed) := Tapes.Step(NamingClient(d), f, t, outcomes);
    if completed {
      var m :| Naming.Consistent(g.state, log + [m]);
      assert AgreesWith(g, log + [m]);
    }
  }

  /** Every experiment stays among the reachable games, whatever the provider answers. */
  lemma {:induction false} RunIsReachable(d: Draws, f: Full, t: Tape, moves: seq<Tapes.Move<Full>>)
    requires Lawful(d) && Reachable(f)
    requires forall k {:trigger Experimental(moves[k])} :: 0 <= k < |moves| ==> Experimental(moves[k])
    ensures Reachable(Tapes.Run(NamingClient(d), f, t, moves).0)
    decreases |moves|
  {
    if moves != [] {
      var rest := moves[1..];
      assert Experimental(moves[0]);
      forall k {:trigger Experimental(rest[k])} | 0 <= k < |rest| ensures Experimental(rest[k]) {
        assert Experimental(moves[k + 1]);
      }
      match moves[0]
      case Rewind(g, cursor) =>
        RunIsReachable(d, g, t.(cursor := cursor), rest);
      case Change(change) =>
        var treatment :| change == Treating(treatment).change;
        BranchIsReachable(f, treatment);
        RunIsReachable(d, change(f), t, rest);
      case Try(outcomes) =>
        if |outcomes| != |NamingClient(d).asks(f)| {
          RunIsReachable(d, f, t, rest);
        } else {
          StepIsReachable(d, f, t, outcomes);
          var (g, u, _) := Tapes.Step(NamingClient(d), f, t, outcomes);
          RunIsReachable(d, g, u, rest);
        }
    }
  }

  /** A naming step that fails on its second answer leaves everything in place, and its
      retry sends at most the one missing request. */
  lemma {:induction false} RetryPaysForTheSecondAnswer(
        d: Draws, f: Full, t: Tape, outcomes: seq<Outcome>, again: seq<Outcome>)
    requires |outcomes| == |again| == |Prompts(d, f).0| == 2
    requires !Tapes.Step(NamingClient(d), f, t, outcomes).2
    requires Answered(ValidChoice, Prompts(d, f).0, t, outcomes) == 1
    ensures var (g, u, _) := Tapes.Step(NamingClient(d), f, t, outcomes);
            g == f && u.cursor == t.cursor
            && Tapes.Step(NamingClient(d), f, u, again).1.liveCalls - u.liveCalls <= 1
  {
    RetryPaysForTheRest(NamingClient(d), f, t, outcomes, again);
  }

  /** When the second answer was malformed but recorded, that retry is free and futile. */
  lemma {:induction false} MalformedSecondAnswerIsFinal(d: Draws, f: Full, t: Tape, again: seq<Outcome>)
    requires |again| == |Prompts(d, f).0| == 2
    requires var key := (t.cursor + 1, Prompts(d, f).0[1].fingerprint);
             key in t.records && !ValidChoice(t.records[key].response)
    ensures !Tapes.Step(NamingClient(d), f, t, again).2
  {
    var requests := Prompts(d, f).0;
    assert requests[1..][0] == requests[1];
    assert !Answerable(ValidChoice, t.records, t.cursor + 1, requests[1..]);
    if Attempt(ValidChoice, requests, t, again).1.Some? {
      CompletedWasAnswerable(ValidChoice, requests, t, again);
    }
  }

  /** Every live naming run, with failures, retries, rewinds and treatments, leaves a
      recording that loads exactly when its lines are legible, and then it replays offline to
      the same players, ledger, edges and random states exactly when the answers used were
      writable. */
  lemma {:induction false} NamingRunReplays(d: Draws, f: Full, budget: nat)
    ensures forall moves {:trigger RecordingReplays(NamingClient(d), f, budget, moves)} ::
              RecordingReplays(NamingClient(d), f, budget, moves)
  {
    forall moves {:trigger RecordingReplays(NamingClient(d), f, budget, moves)}
      ensures RecordingReplays(NamingClient(d), f, budget, moves)
    {
      RecordedRunReplays(NamingClient(d), f, budget, moves);
    }
  }
}
