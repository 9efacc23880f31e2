/** What a reachable commons state remembers of its run: the bounded histories and the
    message queue, both tied to the full log of activations. */
module CommonsMemory {
  import opened Prelude
  import opened Commons

  /** Messages spoken by the activations `start`, ..., `upto - 1` of the log, oldest first. */
  ghost function Since(log: seq<Event>, start: nat, upto: nat): seq<Message>
    requires upto <= |log|
  {
    if upto <= start then [] else Since(log, start, upto - 1) + Said(log[upto - 1])
  }

  /** Where the last `age` of `length` activations begin. */
  function Start(length: nat, age: nat): nat {
    if length > age then length - age else 0
  }

  /** One logged activation: the agent of the round-robin turn acted inside the grid. */
  ghost predicate Logged(c: Config, e: Event, t: nat)
    requires c.agents > 0
  {
    && e.tick == t + 1 && e.agent == t % c.agents
    && c.land.Inside(e.position) && e.gain <= 1 && |e.message| <= MESSAGE_LIMIT
  }

  ghost predicate IsLog(c: Config, log: seq<Event>)
    requires c.agents > 0
  {
    forall t {:trigger Logged(c, log[t], t)} :: 0 <= t < |log| ==> Logged(c, log[t], t)
  }

  predicate RoundApart(history: seq<Event>, agents: nat, k: int)
    requires 0 < k < |history|
  {
    history[k].tick == history[k - 1].tick + agents
  }

  /** A history holds the latest activations of one agent, one round apart, without gaps. */
  ghost predicate Remembers(c: Config, history: seq<Event>, log: seq<Event>, i: nat) {
    && |history| <= c.memory
    && (forall k {:trigger history[k]} :: 0 <= k < |history| ==>
          1 <= history[k].tick <= |log| && history[k] == log[history[k].tick - 1] && history[k].agent == i)
    && (forall k {:trigger RoundApart(history, c.agents, k)} :: 0 < k < |history| ==> RoundApart(history, c.agents, k))
    && (history == [] ==> |log| <= i)
    && (history != [] ==> |log| - c.agents < history[|history| - 1].tick)
    && (history != [] && |history| < c.memory ==> history[0].tick == i + 1)
  }

  ghost predicate AllRemember(c: Config, agents: seq<Harvester>, log: seq<Event>) {
    forall i {:trigger Remembers(c, agents[i].history, log, i)} ::
      0 <= i < |agents| ==> Remembers(c, agents[i].history, log, i)
  }

  /** The state is what a fresh model became by the logged activations. */
  ghost predicate Consistent(s: State, log: seq<Event>)
    requires Sound(s)
  {
    && s.tick == |log| && IsLog(s.config, log)
    && AllRemember(s.config, s.agents, log)
    && (forall i {:trigger s.agents[i]} :: 0 <= i < |s.agents| ==>
          s.agents[i].harvested <= s.tick && |s.agents[i].message| <= MESSAGE_LIMIT)
    && s.messages == Since(log, Start(|log|, 2 * s.config.agents), |log|)
    && s.lastEvent == if log == [] then None else Some(log[|log| - 1])
  }

  lemma {:induction false} SameTurn(a: nat, b: nat, n: nat)
    requires n > 0 && a < b < a + 2 * n && a % n == b % n
    ensures b == a + n
  {
    var q := b / n - a / n;
    assert b - a == n * q;
    assert q >= 2 ==> n * q >= 2 * n;
    assert q <= 0 ==> n * q <= 0;
  }

  lemma {:induction false} TurnBelow(a: nat, n: nat)
    requires n > 0
    ensures 0 <= a % n < n && a % n <= a
  {
    assert n * (a / n) >= 0;
  }

  lemma {:induction false} OneRoundLater(a: nat, n: nat)
    requires n > 0
    ensures (a + n) % n == a % n
    ensures a < n ==> a % n == a
  {
    RemainderIsUnique(a + n, n, a / n + 1, a % n);
    if a < n {
      RemainderIsUnique(a, n, 0, a);
    }
  }

  /** The acting agent's history after its activation, before it is cut to size. */
  lemma {:induction false} ActorExtends(c: Config, history: seq<Event>, log: seq<Event>, i: nat, e: Event)
    requires c.agents > 0 && IsLog(c, log)
    requires Remembers(c, history, log, i) && i == |log| % c.agents && Logged(c, e, |log|)
    ensures history == [] ==> |log| == i
    ensures history != [] ==> history[|history| - 1].tick + c.agents == |log| + 1
  {
    if history == [] {
      OneRoundLater(|log|, c.agents);
    } else {
      var last := history[|history| - 1];
      assert Logged(c, log[last.tick - 1], last.tick - 1);
      SameTurn(last.tick - 1, |log|, c.agents);
    }
  }

  lemma {:induction false} ActorRemembers(c: Config, history: seq<Event>, log: seq<Event>, i: nat, e: Event)
    requires c.agents > 0 && c.memory >= 1 && IsLog(c, log)
    requires Remembers(c, history, log, i) && i == |log| % c.agents && Logged(c, e, |log|)
    ensures Remembers(c, LastOf(history + [e], c.memory), log + [e], i)
  {
    ActorExtends(c, history, log, i, e);
    var h, longer := history + [e], log + [e];
    var kept := LastOf(h, c.memory);
    var skipped := |h| - |kept|;
    forall k | 0 <= k < |kept|
      ensures 1 <= kept[k].tick <= |longer| && kept[k] == longer[kept[k].tick - 1] && kept[k].agent == i
    {
      assert kept[k] == h[skipped + k];
      if skipped + k < |history| {
        assert h[skipped + k] == history[skipped + k];
      }
    }
    forall k | 0 < k < |kept| ensures RoundApart(kept, c.agents, k) {
      assert kept[k] == h[skipped + k] && kept[k - 1] == h[skipped + k - 1];
      if skipped + k < |history| {
        assert RoundApart(history, c.agents, skipped + k);
      }
    }
    assert kept[|kept| - 1] == e;
  }

  /** Everybody else's history still reaches back without a gap. */
  lemma {:induction false} OtherRemembers(c: Config, history: seq<Event>, log: seq<Event>, j: nat, e: Event)
    requires c.agents > 0 && IsLog(c, log) && j < c.agents
    requires Remembers(c, history, log, j) && j != |log| % c.agents
    ensures Remembers(c, history, log + [e], j)
  {
    var n := c.agents;
    if history == [] {
      OneRoundLater(|log|, n);
    } else {
      var last := history[|history| - 1];
      assert Logged(c, log[last.tick - 1], last.tick - 1);
      if last.tick == |log| + 1 - n {
        OneRoundLater(|log| - n, n);
        assert false;
      }
    }
  }

  lemma {:induction false} UnexpiredIgnoresLater(
        messages: seq<Message>, more: seq<Message>, k: nat, tick: nat, agents: nat)
    requires k <= |messages|
    ensures UnexpiredOf(messages + more, k, tick, agents) == UnexpiredOf(messages, k, tick, agents)
  {
    if k > 0 {
      UnexpiredIgnoresLater(messages, more, k - 1, tick, agents);
    }
  }

  lemma {:induction false} UnexpiredSaid(messages: seq<Message>, e: Event, tick: nat, agents: nat)
    ensures Unexpired(messages + Said(e), tick, agents)
            == if tick - e.tick < 2 * agents then Unexpired(messages, tick, agents) + Said(e)
               else Unexpired(messages, tick, agents)
  {
    UnexpiredIgnoresLater(messages, Said(e), |messages|, tick, agents);
    if e.message == [] {
      assert messages + [] == messages;
      assert Unexpired(messages, tick, agents) + [] == Unexpired(messages, tick, agents);
    }
  }

  ghost predicate Ticked(log: seq<Event>) {
    forall t {:trigger log[t]} :: 0 <= t < |log| ==> log[t].tick == t + 1
  }

  /** Expiry moves the start of the queue to the first activation that is young enough. */
  lemma {:induction false} ExpiryMovesStart(log: seq<Event>, agents: nat, start: nat, upto: nat, tick: nat)
    requires Ticked(log) && upto <= |log| && start <= Start(tick, 2 * agents)
    ensures Unexpired(Since(log, start, upto), tick, agents) == Since(log, Start(tick, 2 * agents), upto)
  {
    if upto > start {
      ExpiryMovesStart(log, agents, start, upto - 1, tick);
      UnexpiredSaid(Since(log, start, upto - 1), log[upto - 1], tick, agents);
    }
  }

  lemma {:induction false} SinceIgnoresLater(log: seq<Event>, e: Event, start: nat, upto: nat)
    requires upto <= |log|
    ensures Since(log + [e], start, upto) == Since(log, start, upto)
  {
    if upto > start {
      SinceIgnoresLater(log, e, start, upto - 1);
    }
  }

  lemma {:induction false} QueueAdvances(c: Config, log: seq<Event>, e: Event)
    requires c.agents > 0 && IsLog(c, log)
    ensures Unexpired(Since(log, Start(|log|, 2 * c.agents), |log|), |log| + 1, c.agents) + Said(e)
            == Since(log + [e], Start(|log| + 1, 2 * c.agents), |log| + 1)
  {
    forall t | 0 <= t < |log| ensures log[t].tick == t + 1 {
      assert Logged(c, log[t], t);
    }
    ExpiryMovesStart(log, c.agents, Start(|log|, 2 * c.agents), |log|, |log| + 1);
    SinceIgnoresLater(log, e, Start(|log| + 1, 2 * c.agents), |log|);
  }

  /** An accepted activation extends the log by exactly its event. */
  lemma {:induction false} ActedIsConsistent(s: State, log: seq<Event>, d: Decision)
    requires Sound(s) && Consistent(s, log) && Acceptable(s, d)
    ensures Sound(Acted(s, d)) && Consistent(Acted(s, d), log + [EventOf(s, d)])
  {
    ActedIsSound(s, d);
    var t, e, n := Acted(s, d), EventOf(s, d), s.config.agents;
    var longer := log + [e];
    assert Logged(s.config, e, |log|) by {
      assert t.config.land.Inside(t.agents[Turn(s)].position);
    }
    forall k | 0 <= k < |longer| ensures Logged(s.config, longer[k], k) {
      if k < |log| {
        assert Logged(s.config, log[k], k);
      }
    }
    forall i | 0 <= i < |t.agents| ensures Remembers(s.config, t.agents[i].history, longer, i) {
      assert Remembers(s.config, s.agents[i].history, log, i);
      if i == Turn(s) {
        ActorRemembers(s.config, s.agents[i].history, log, i, e);
      } else {
        OtherRemembers(s.config, s.agents[i].history, log, i, e);
      }
    }
    QueueAdvances(s.config, log, e);
  }

  /** The log after a decision: an accepted one adds its event. */
  ghost function LogNext(s: State, log: seq<Event>, d: Decision): seq<Event>
    requires Sound(s)
  {
    log + if Acceptable(s, d) then [EventOf(s, d)] else []
  }

  /** A step keeps the state in agreement with the log, also when regrowth ends the round. */
  lemma {:induction false} NextIsConsistent(s: State, log: seq<Event>, d: Decision, field: int -> real)
    requires Sound(s) && Consistent(s, log)
    ensures Sound(Next(s, d, field)) && Consistent(Next(s, d, field), LogNext(s, log, d))
  {
    NextIsSound(s, d, field);
    if Acceptable(s, d) {
      ActedIsConsistent(s, log, d);
    } else {
      assert log + [] == log;
    }
  }

  /** The log of a run: one event for every accepted decision. */
  ghost function LogOf(trace: seq<State>, inputs: seq<Input>, k: nat): seq<Event>
    requires Run(trace, inputs) && k < |trace|
  {
    if k == 0 then []
    else
      assert StepAt(trace, inputs, k - 1);
      LogNext(trace[k - 1], LogOf(trace, inputs, k - 1), inputs[k - 1].decision)
  }

  /** Every state of every run from a fresh model is consistent with its log. */
  lemma {:induction false} RunIsConsistent(trace: seq<State>, inputs: seq<Input>, last: nat)
    requires Run(trace, inputs) && Initial(trace[0]) && last < |trace|
    ensures forall k {:trigger LogOf(trace, inputs, k)} :: 0 <= k <= last ==>
              Sound(trace[k]) && Consistent(trace[k], LogOf(trace, inputs, k))
  {
    if last > 0 {
      var k := last - 1;
      RunIsConsistent(trace, inputs, k);
      assert StepAt(trace, inputs, k);
      NextIsConsistent(trace[k], LogOf(trace, inputs, k), inputs[k].decision, inputs[k].field);
    }
  }
}
