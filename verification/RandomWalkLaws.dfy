/** The walks of a run as one endless round over the agents, whatever the ticks they fall into. */
module RandomWalkLaws {
  import opened Prelude
  import opened RandomWalk

  /** Where agent `i` stands after the first `walks` walks of a run, counted across all ticks:
      walk `n` moves agent `n` modulo their number, by the next two draws of the stream. */
  function Position(c: Config, i: nat, walks: nat): Point
    requires i < c.agentCount
  {
    if walks == 0 then Point(c.start(c.draw(2 * i)), c.start(c.draw(2 * i + 1)))
    else
      var (before, n) := (Position(c, i, walks - 1), walks - 1);
      if n % c.agentCount != i then before
      else
        var cursor := 2 * c.agentCount + 2 * n;
        Point(c.move(before.x, c.draw(cursor)), c.move(before.y, c.draw(cursor + 1)))
  }

  /** Everybody stands where so many walks lead. */
  ghost predicate Reached(c: Config, at: seq<Point>, walks: nat) {
    |at| == c.agentCount && forall i {:trigger at[i]} :: 0 <= i < c.agentCount ==> at[i] == Position(c, i, walks)
  }

  lemma {:induction false} NextWalk(c: Config, at: seq<Point>, n: nat, w: nat)
    requires c.agentCount > 0 && Reached(c, at, n) && w == n % c.agentCount
    ensures var cursor := 2 * c.agentCount + 2 * n;
            Reached(c, at[w := Point(c.move(at[w].x, c.draw(cursor)), c.move(at[w].y, c.draw(cursor + 1)))], n + 1)
  {
    var cursor := 2 * c.agentCount + 2 * n;
    var next := at[w := Point(c.move(at[w].x, c.draw(cursor)), c.move(at[w].y, c.draw(cursor + 1)))];
    forall i | 0 <= i < c.agentCount ensures next[i] == Position(c, i, n + 1) {
      assert at[i] == Position(c, i, n);
    }
  }

  lemma {:induction false} TickContinues(c: Config, at: seq<Point>, tick: nat, walks: nat, k: nat)
    requires c.agentCount > 0 && walks == tick * c.changedAgents && Reached(c, at, walks)
    ensures Reached(c, Walked(c, at, 2 * c.agentCount + 2 * walks, tick, k), walks + k)
  {
    if k > 0 {
      TickContinues(c, at, tick, walks, k - 1);
      var before := Walked(c, at, 2 * c.agentCount + 2 * walks, tick, k - 1);
      assert Walker(c, tick, k - 1) == (walks + (k - 1)) % c.agentCount;
      NextWalk(c, before, walks + (k - 1), Walker(c, tick, k - 1));
    }
  }

  lemma {:induction false} OneTickMore(ticks: nat, changed: nat)
    requires ticks > 0
    ensures ticks * changed == (ticks - 1) * changed + changed
  {
  }

  /** After so many ticks the stream and everybody stand where `walks` walks lead. */
  ghost predicate Continues(c: Config, ticks: nat, walks: nat)
    requires c.agentCount > 0
  {
    && walks == ticks * c.changedAgents && Reached(c, Simulated(c, ticks).0, walks)
    && Simulated(c, ticks).1 == 2 * c.agentCount + 2 * walks
  }

  lemma {:induction false} NextTick(c: Config, ticks: nat, walks: nat)
    requires c.agentCount > 0 && Continues(c, ticks, walks)
    ensures Continues(c, ticks + 1, walks + c.changedAgents)
  {
    OneTickMore(ticks + 1, c.changedAgents);
    TickContinues(c, Simulated(c, ticks).0, ticks, walks, c.changedAgents);
  }

  lemma {:induction false} TicksContinue(c: Config, ticks: nat)
    requires c.agentCount > 0
    ensures exists walks: nat :: Continues(c, ticks, walks)
  {
    if ticks == 0 {
      assert Continues(c, 0, 0);
    } else {
      TicksContinue(c, ticks - 1);
      var walks: nat :| Continues(c, ticks - 1, walks);
      NextTick(c, ticks - 1, walks);
      assert Continues(c, ticks, walks + c.changedAgents);
    }
  }

  /** A run is one sequence of walks: its positions depend on their number alone, and every
      tick takes up the draws and the agents where the one before it stopped. */
  lemma {:induction false} RunIsOneSequence(c: Config, ticks: nat)
    requires c.agentCount > 0
    ensures Reached(c, Simulated(c, ticks).0, ticks * c.changedAgents)
    ensures Simulated(c, ticks).1 == 2 * c.agentCount + 2 * (ticks * c.changedAgents)
  {
    TicksContinue(c, ticks);
  }

  /** So the same number of walks gives the same positions however it is split into ticks. */
  lemma {:induction false} SplitDoesNotMatter(c: Config, d: Config, ticks: nat, others: nat)
    requires c.agentCount > 0 && d == c.(changedAgents := d.changedAgents)
    requires ticks * c.changedAgents == others * d.changedAgents
    ensures Simulated(c, ticks) == Simulated(d, others)
  {
    RunIsOneSequence(c, ticks);
    RunIsOneSequence(d, others);
    forall i | 0 <= i < c.agentCount ensures Simulated(c, ticks).0[i] == Simulated(d, others).0[i] {
      SamePosition(c, d, i, ticks * c.changedAgents);
    }
    assert Simulated(c, ticks).0 == Simulated(d, others).0;
  }

  lemma {:induction false} SamePosition(c: Config, d: Config, i: nat, walks: nat)
    requires i < c.agentCount && d == c.(changedAgents := d.changedAgents)
    ensures Position(c, i, walks) == Position(d, i, walks)
  {
    if walks > 0 {
      SamePosition(c, d, i, walks - 1);
    }
  }

  /** The agent of the recorded update number `n`, counted across all ticks. */
  function Recorded(c: Config, n: nat): nat
    requires c.agentCount > 0 && c.changedAgents > 0
  {
    Delta(c, n / c.changedAgents)[n % c.changedAgents].id
  }

  /** Any `agentCount` consecutive walks move every agent exactly once. */
  lemma {:induction false} EverybodyOnce(c: Config, first: nat, i: nat)
    requires c.agentCount > 0 && c.changedAgents > 0 && i < c.agentCount
    ensures exists n: nat {:trigger Recorded(c, n)} ::
              && first <= n < first + c.agentCount && Recorded(c, n) == i
              && forall m: nat {:trigger Recorded(c, m)} ::
                   first <= m < first + c.agentCount && Recorded(c, m) == i ==> m == n
  {
    var count := c.agentCount;
    var base := first / count;
    var n := if i >= first % count then base * count + i else (base + 1) * count + i;
    assert first == count * base + first % count;
    assert (base + 1) * count == base * count + count;
    RemainderIsUnique(n, count, if i >= first % count then base else base + 1, i);
    RecordedInTurn(c, n);
    forall m: nat {:trigger Recorded(c, m)} | first <= m < first + count && Recorded(c, m) == i ensures m == n {
      RecordedInTurn(c, m);
      SameRemainder(m, n, count);
    }
  }

  lemma {:induction false} RecordedInTurn(c: Config, n: nat)
    requires c.agentCount > 0 && c.changedAgents > 0
    ensures Recorded(c, n) == n % c.agentCount
  {
    assert n == (n / c.changedAgents) * c.changedAgents + n % c.changedAgents;
  }

  lemma {:induction false} SameRemainder(m: nat, n: nat, count: nat)
    requires count > 0 && m % count == n % count && m < n + count && n < m + count
    ensures m == n
  {
    var d, size: int := m / count - n / count, count;
    assert m - n == size * d;
    assert d >= 1 ==> size * d >= size;
    assert d <= -1 ==> size * d <= -size;
  }
}
