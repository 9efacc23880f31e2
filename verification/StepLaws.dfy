/** What the provider's answers do in a completed step of either game. */
module StepLaws {
  import opened Prelude
  import opened Tapes
  import Naming
  import NamingStep
  import Commons
  import CommonsLaws
  import CommonsStep

  // ----- the naming game -----

  /** The players that play the fixed name: the first of the minority's shuffle. */
  predicate InMinority(d: NamingStep.Draws, c: Naming.Config, i: nat) {
    exists k {:trigger d.minority(c.seed, c.agents)[k]} ::
      0 <= k < |d.minority(c.seed, c.agents)| && k < c.committed && d.minority(c.seed, c.agents)[k] == i
  }

  lemma {:induction false} FixedIff(d: NamingStep.Draws, c: Naming.Config, i: nat)
    ensures NamingStep.Fixed(d, c, i) <==> InMinority(d, c, i)
  {
    var shuffled := d.minority(c.seed, c.agents);
    var first := if c.committed <= |shuffled| then shuffled[..c.committed] else shuffled;
    if NamingStep.Fixed(d, c, i) {
      var k :| 0 <= k < |first| && first[k] == i;
      assert shuffled[k] == i;
    }
    if InMinority(d, c, i) {
      var k :| 0 <= k < |shuffled| && k < c.committed && shuffled[k] == i;
      assert first[k] == i;
    }
  }

  /** A shuffle of all players fixes as many of them as the configuration commits. */
  lemma {:induction false} MinorityIsExact(d: NamingStep.Draws, c: Naming.Config)
    requires Permutation(d.minority(c.seed, c.agents), c.agents) && c.committed <= c.agents
    ensures |set i: nat | i < c.agents && InMinority(d, c, i)| == c.committed
  {
    var shuffled := d.minority(c.seed, c.agents);
    var first := shuffled[..c.committed];
    DistinctSize(first);
    forall i: nat ensures i < c.agents && InMinority(d, c, i) <==> i in Elements(first) {
      if i in Elements(first) {
        var k :| 0 <= k < |first| && first[k] == i;
        assert shuffled[k] == i;
      }
      if InMinority(d, c, i) {
        var k :| 0 <= k < |shuffled| && k < c.committed && shuffled[k] == i;
        assert first[k] == i;
      }
    }
    assert (set i: nat | i < c.agents && InMinority(d, c, i)) == Elements(first);
  }

  /** How a name is written. */
  function Written(name: Naming.Name): Text {
    if name.Q? then Spelled("Q") else Spelled("M")
  }

  /** The name that player `i` plays: the fixed one in the minority, and otherwise the one its
      answer writes. */
  predicate Plays(d: NamingStep.Draws, c: Naming.Config, i: nat, answers: seq<Answer>, k: nat, name: Naming.Name) {
    if InMinority(d, c, i) then name == c.committedName
    else k < |answers| && answers[k].choice == Written(name)
  }

  /** A completed step asks each of the two drawn players that is not in the minority once, the
      first one first, and lets them meet with the names of their answers. */
  lemma {:induction false} NamesAreAnswered(d: NamingStep.Draws, f: NamingStep.Full, t: Tape, outcomes: seq<Outcome>)
    requires NamingStep.Lawful(d) && f.state.config.Accepted() && |f.state.players| == f.state.config.agents
    requires |outcomes| == |NamingStep.Prompts(d, f).0|
    requires Step(NamingStep.NamingClient(d), f, t, outcomes).2
    ensures var c := f.state.config;
            var (a, b, rng) := d.pick(c, f.rng);
            var answers := Attempt(NamingStep.ValidChoice, NamingStep.Prompts(d, f).0, t, outcomes).1;
            var g := Step(NamingStep.NamingClient(d), f, t, outcomes).0;
            && answers.Some? && g.rng == rng && g.state.lastInteraction.Some?
            && var m := g.state.lastInteraction.value;
               && (m.tick, m.first, m.second) == (f.state.tick + 1, a, b)
               && Plays(d, c, a, answers.value, 0, m.firstName)
               && Plays(d, c, b, answers.value, if InMinority(d, c, a) then 0 else 1, m.secondName)
  {
    var c := f.state.config;
    var (a, b, _) := d.pick(c, f.rng);
    var requests := NamingStep.Prompts(d, f).0;
    NamingStep.PickedMeet(d, c, f.rng);
    FixedIff(d, c, a);
    FixedIff(d, c, b);
    AttemptFollows(NamingStep.ValidChoice, requests, t, outcomes);
    AnswersAreValid(NamingStep.ValidChoice, requests, t, outcomes);
  }

  /** The answers of a completed attempt are valid, one for each request. */
  lemma {:induction false} AnswersAreValid(valid: Answer -> bool, requests: seq<Request>, t: Tape,
                                           outcomes: seq<Outcome>)
    requires |outcomes| == |requests|
    ensures var answers := Attempt(valid, requests, t, outcomes).1;
            answers.Some? ==> |answers.value| == |requests|
                              && forall k :: 0 <= k < |answers.value| ==> valid(answers.value[k])
  {
    if requests != [] {
      AnswersAreValid(valid, requests[1..], Decided(t, requests[0], outcomes[0]).0, outcomes[1..]);
    }
  }

  // ----- the commons -----

  /** How an action is written. */
  function Spelling(a: Commons.Action): Text {
    match a
    case Wait => Spelled("wait")
    case Harvest => Spelled("harvest")
    case North => Spelled("north")
    case South => Spelled("south")
    case West => Spelled("west")
    case East => Spelled("east")
  }

  /** A completed step does what the answer writes, and says what it notes. */
  lemma {:induction false} ActionsAreAnswered(d: CommonsStep.Draws, f: CommonsStep.Full, t: Tape, outcome: Outcome)
    requires Commons.Sound(f.state) && Step(CommonsStep.CommonsClient(d), f, t, [outcome]).2
    ensures var (answer, g) := (Attempt(CommonsStep.ValidAt(f), [d.prompt(f.state)], t, [outcome]).1,
                                Step(CommonsStep.CommonsClient(d), f, t, [outcome]).0);
            && answer.Some? && |answer.value| == 1 && g.rng == f.rng && g.policyRng == f.policyRng
            && exists a {:trigger Spelling(a)} ::
                 answer.value[0].choice == Spelling(a)
                 && CommonsLaws.Activated(f.state, Commons.Decision(a, answer.value[0].note), g.state)
  {
    var s, request := f.state, d.prompt(f.state);
    var answers := Attempt(CommonsStep.ValidAt(f), [request], t, [outcome]).1;
    CommonsStep.AskedOnce(CommonsStep.ValidAt(f), request, t, outcome);
    var answer := answers.value[0];
    CommonsStep.ValidIsAcceptable(s, answer);
    var decision := CommonsStep.DecisionOf(answer);
    CommonsLaws.StepActivates(s, decision, d.field(s.config, CommonsStep.RoundAfter(s)));
    assert answer.choice == Spelling(decision.action);
  }
}
