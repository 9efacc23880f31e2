/** Warnings on their way: a warning that is sent stays audible near its cell for the next
    activations, and the signalling rule of whoever stands there heeds it. */
module CommonsSignals {
  import opened Prelude
  import opened Signals
  import opened Commons

  /** The message is among the last `n`. */
  ghost predicate Recent(messages: seq<Message>, m: Message, n: nat) {
    exists k {:trigger messages[k]} :: 0 <= k < |messages| && messages[k] == m && |messages| - k <= n
  }

  /** Expiry drops no young message, and moves none towards the front of the queue. */
  lemma {:induction false} YoungStays(messages: seq<Message>, k: nat, tick: nat, agents: nat, at: nat) returns (p: nat)
    requires at < k <= |messages| && tick - messages[at].tick < 2 * agents
    ensures var left := UnexpiredOf(messages, k, tick, agents);
            p < |left| && left[p] == messages[at] && |left| - p <= k - at
  {
    if at == k - 1 {
      p := |UnexpiredOf(messages, k - 1, tick, agents)|;
    } else {
      p := YoungStays(messages, k - 1, tick, agents, at);
    }
  }

  /** What reaches an agent keeps its place from the end as well. */
  lemma {:induction false} ReachingStays(s: State, i: nat, k: nat, at: nat) returns (p: nat)
    requires i < |s.agents| && at < k <= |s.messages| && Reaches(s, i, s.messages[at])
    ensures var left := ReachingOf(s, i, k);
            p < |left| && left[p] == s.messages[at] && |left| - p <= k - at
  {
    if at == k - 1 {
      p := |ReachingOf(s, i, k - 1)|;
    } else {
      p := ReachingStays(s, i, k - 1, at);
    }
  }

  /** One of the last six messages is heard by every agent that it reaches. */
  lemma {:induction false} RecentIsAudible(s: State, i: nat, m: Message)
    requires i < |s.agents| && s.config.delivers && Recent(s.messages, m, 6) && Reaches(s, i, m)
    ensures m in Audible(s, i)
  {
    var at :| 0 <= at < |s.messages| && s.messages[at] == m && |s.messages| - at <= 6;
    var p := ReachingStays(s, i, |s.messages|, at);
    var reaching := ReachingOf(s, i, |s.messages|);
    var start := if |reaching| > 6 then |reaching| - 6 else 0;
    assert LastOf(reaching, 6) == reaching[start..];
    assert reaching[start..][p - start] == m;
  }

  /** A step pushes a young message back by at most one place. */
  lemma {:induction false} StepPushesBack(s: State, d: Decision, field: int -> real, m: Message, n: nat)
    requires Sound(s) && Recent(s.messages, m, n) && s.tick + 1 - m.tick < 2 * s.config.agents
    ensures Recent(Next(s, d, field).messages, m, n + 1)
  {
    var at :| 0 <= at < |s.messages| && s.messages[at] == m && |s.messages| - at <= n;
    var after := Next(s, d, field).messages;
    if Acceptable(s, d) {
      var p := YoungStays(s.messages, |s.messages|, s.tick + 1, s.config.agents, at);
      assert after == Unexpired(s.messages, s.tick + 1, s.config.agents) + Said(EventOf(s, d));
      assert after[p] == m;
    } else {
      assert after[at] == m;
    }
  }

  /** What the agent whose turn it is sends when it warns of its cell. */
  function WarningOf(s: State, d: Decision): Message
    requires Sound(s)
  {
    var i := Turn(s);
    var p := s.agents[i].position;
    assert s.config.land.Inside(p);
    Message(s.tick + 1, i, Moved(p, d.action), Warning(p))
  }

  /** A scripted signalling agent on a fertile cell of two units or less warns of it. */
  lemma {:induction false} WarningIsSent(s: State, d: Decision, field: int -> real)
    requires Sound(s) && s.config.rule.Signal? && Scripted(s, d)
    requires var p := s.agents[Turn(s)].position; p in s.config.land.fertile && s.resources[p] <= 2
    ensures Recent(Next(s, d, field).messages, WarningOf(s, d), 1)
  {
    var kept := Unexpired(s.messages, s.tick + 1, s.config.agents);
    var after := Next(s, d, field).messages;
    assert s.config.land.Inside(s.agents[Turn(s)].position);
    assert after == kept + [WarningOf(s, d)];
    assert after[|kept|] == WarningOf(s, d);
  }

  /** The warning sent by step `j` is among the latest messages some steps later. */
  lemma {:induction false} WarningStays(trace: seq<State>, inputs: seq<Input>, j: nat, k: nat, m: Message)
    requires Run(trace, inputs) && j < k < |trace| && Recent(trace[j + 1].messages, m, 1)
    requires m.tick == trace[j].tick + 1 && k - j <= 2 * trace[0].config.agents
    ensures Recent(trace[k].messages, m, k - j) && trace[k].tick <= trace[j].tick + k - j
    decreases k
  {
    RunIsSound(trace, inputs, k - 1);
    assert StepAt(trace, inputs, k - 1);
    if k > j + 1 {
      WarningStays(trace, inputs, j, k - 1, m);
      StepPushesBack(trace[k - 1], inputs[k - 1].decision, inputs[k - 1].field, m, k - 1 - j);
    }
  }

  /** What the signalling rule is for: when an agent acts on a fertile cell of at most two
      units, nobody else who acts on that cell within the next six activations, and within
      two rounds, takes its last unit, whatever everybody in between decides. */
  lemma {:induction false} SignalKeepsLastUnit(trace: seq<State>, inputs: seq<Input>, j: nat, k: nat)
    requires Run(trace, inputs) && trace[0].config.rule.Signal? && trace[0].config.delivers
    requires j < k < |inputs| && k - j <= 6 && k - j <= 2 * trace[0].config.agents
    requires ScriptedAt(trace, inputs, j) && ScriptedAt(trace, inputs, k)
    requires Turn(trace[k]) != Turn(trace[j])
    requires var p := trace[j].agents[Turn(trace[j])].position;
             && p in trace[j].config.land.fertile && trace[j].resources[p] <= 2
             && trace[k].agents[Turn(trace[k])].position == p
    ensures RespectsReserve(trace[k], inputs[k].decision)
  {
    RunIsSound(trace, inputs, k);
    assert StepAt(trace, inputs, j);
    var s, d, t := trace[j], inputs[j].decision, trace[k];
    var m := WarningOf(s, d);
    WarningIsSent(s, d, inputs[j].field);
    WarningStays(trace, inputs, j, k, m);
    RecentIsAudible(t, Turn(t), m);
    WarningIsHeard(s.agents[Turn(s)].position);
    HeardWarningIsHeeded(t, inputs[k].decision, m);
  }
}
