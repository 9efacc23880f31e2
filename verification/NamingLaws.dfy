/** What every run of the naming game keeps of its meetings, entry by entry: edges, measurement
    window, memories, scores and names, with nothing missing. */
module NamingLaws {
  import opened Prelude
  import opened Naming

  /** The edge that a meeting leaves, some ticks later. */
  predicate LeftBy(e: Interaction, m: Meeting, now: nat) {
    && e.ends.low == Min(m.first, m.second) && e.ends.low + e.ends.high == m.first + m.second
    && e.success == (m.firstName == m.secondName) && e.age == now - e.tick
  }

  /** In every run the recent edges are left by exactly those of the last twelve meetings whose
      pair has not met again since, oldest first. */
  lemma {:induction false} RecentEdgesAreLatest(trace: seq<State>, moves: seq<Move>, k: nat)
    requires Run(trace, moves) && k < |trace|
    ensures forall t: nat {:trigger DatedAt(trace[k].recentEdges, t + 1)} ::
              DatedAt(trace[k].recentEdges, t + 1) <==>
              trace[k].tick - t <= 12 && Latest(LogOf(trace, moves, k), t)
    ensures var (edges, log) := (trace[k].recentEdges, LogOf(trace, moves, k));
            && (forall j {:trigger edges[j]} :: 0 <= j < |edges| ==>
                  1 <= edges[j].tick <= |log| && LeftBy(edges[j], log[edges[j].tick - 1], trace[k].tick))
            && forall i, j :: 0 <= i < j < |edges| ==> edges[i].tick < edges[j].tick
  {
    RunIsConsistent(trace, moves, k);
    var s, log := trace[k], LogOf(trace, moves, k);
    assert Consistent(s, log);
    forall t: nat {:trigger DatedAt(s.recentEdges, t + 1)}
      ensures DatedAt(s.recentEdges, t + 1) <==> s.tick - t <= 12 && Latest(log, t)
    {
      if j :| 0 <= j < |s.recentEdges| && s.recentEdges[j].tick == t + 1 {
        assert Dated(s.recentEdges[j], log);
      }
    }
    forall j {:trigger s.recentEdges[j]} | 0 <= j < |s.recentEdges|
      ensures 1 <= s.recentEdges[j].tick <= |log| && LeftBy(s.recentEdges[j], log[s.recentEdges[j].tick - 1], s.tick)
    {
      assert Dated(s.recentEdges[j], log);
    }
  }

  /** The tick of the last treatment before move `k`, or zero. */
  ghost function TreatedAt(trace: seq<State>, moves: seq<Move>, k: nat): nat
    requires |trace| == |moves| + 1 && k < |trace|
  {
    if k == 0 then 0 else if moves[k - 1].Treat? then trace[k - 1].tick else TreatedAt(trace, moves, k - 1)
  }

  lemma {:induction false} TreatmentIsDated(trace: seq<State>, moves: seq<Move>, k: nat)
    requires Run(trace, moves) && k < |trace|
    ensures trace[k].treatmentTick == TreatedAt(trace, moves, k)
  {
    if k > 0 {
      TreatmentIsDated(trace, moves, k - 1);
      assert PlayedAt(trace, moves, k - 1);
    }
  }

  /** In every run the measurement window is all meetings since the last treatment, up to the
      last four for each player. */
  lemma {:induction false} WindowIsExact(trace: seq<State>, moves: seq<Move>, k: nat)
    requires Run(trace, moves) && k < |trace|
    ensures TreatedAt(trace, moves, k) <= |LogOf(trace, moves, k)|
    ensures trace[k].events
            == LastOf(LogOf(trace, moves, k)[TreatedAt(trace, moves, k)..], 4 * trace[k].config.agents)
  {
    RunIsConsistent(trace, moves, k);
    TreatmentIsDated(trace, moves, k);
    assert Consistent(trace[k], LogOf(trace, moves, k));
  }

  /** What a player of a meeting keeps of it. */
  function Entry(m: Meeting, i: nat): Memory {
    var success := m.firstName == m.secondName;
    var payoff := if success then 1 else -1;
    if i == m.first then Memory(m.tick, m.second, m.firstName, m.secondName, success, payoff)
    else Memory(m.tick, m.first, m.secondName, m.firstName, success, payoff)
  }

  /** In every run a player's memory consists of its own meetings, in order and without a gap,
      and is full unless it holds all of them; score and name are those of its meetings. */
  lemma {:induction false} MemoriesAreExact(trace: seq<State>, moves: seq<Move>, k: nat, i: nat)
    requires Run(trace, moves) && k < |trace| && i < |trace[k].players|
    ensures var (p, log) := (trace[k].players[i], LogOf(trace, moves, k));
            && (forall j {:trigger p.history[j]} :: 0 <= j < |p.history| ==>
                  && 1 <= p.history[j].tick <= |log| && log[p.history[j].tick - 1].Involves(i)
                  && p.history[j] == Entry(log[p.history[j].tick - 1], i))
            && (forall t {:trigger log[t].Involves(i)} :: 0 <= t < |log| && log[t].Involves(i) ==>
                  Holds(p, t + 1)
                  || (p.history != [] && |p.history| == trace[k].config.memory && t + 1 < p.history[0].tick))
            && |p.history| <= trace[k].config.memory && p.score == ScoreOf(log, i)
            && (NameIn(log, i).Some? ==> p.name == NameIn(log, i))
  {
    RunIsConsistent(trace, moves, k);
    var s, log := trace[k], LogOf(trace, moves, k);
    assert Consistent(s, log);
    var p := s.players[i];
    assert Remembers(s.config, p, log, i) && NoGaps(p, log, i) && Tracks(s.config, p, log, i);
    forall j {:trigger p.history[j]} | 0 <= j < |p.history|
      ensures 1 <= p.history[j].tick <= |log| && log[p.history[j].tick - 1].Involves(i)
              && p.history[j] == Entry(log[p.history[j].tick - 1], i)
    {
      assert Recalls(p.history[j], log, i);
    }
  }
}
