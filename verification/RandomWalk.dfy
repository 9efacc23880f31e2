/** A precomputed random-walk trace: replaying the recorded deltas reproduces the direct
    simulation, although agents are mutated in place while the trace is recorded. */
module RandomWalk {
  import opened Prelude

  datatype Point = Point(x: real, y: real)

  /** `draw` is the seeded random stream; `start` and `move` are the arithmetic of one
      coordinate, for a fresh agent and for one walk. */
  datatype Config = Config(
    agentCount: nat,
    changedAgents: nat,
    draw: nat -> real,
    start: real -> real,
    move: (real, real) -> real)

  datatype Update = Update(id: nat, at: Point)

  // ----- the walk as a function -----

  /** Initial positions use two draws per agent, in order. */
  function Initial(c: Config): seq<Point> {
    seq(c.agentCount, i requires 0 <= i < c.agentCount => Point(c.start(c.draw(2 * i)), c.start(c.draw(2 * i + 1))))
  }

  /** The agent that moves at one offset of a tick. */
  function Walker(c: Config, tick: nat, offset: nat): nat
    requires c.agentCount > 0
  {
    (tick * c.changedAgents + offset) % c.agentCount
  }

  /** The positions after the first `k` walks of a tick; a walker may move repeatedly. */
  function Walked(c: Config, at: seq<Point>, cursor: nat, tick: nat, k: nat): seq<Point>
    requires |at| == c.agentCount > 0
    ensures |Walked(c, at, cursor, tick, k)| == |at|
  {
    if k == 0 then at
    else
      var before := Walked(c, at, cursor, tick, k - 1);
      var i := Walker(c, tick, k - 1);
      before[i := Point(c.move(before[i].x, c.draw(cursor + 2 * (k - 1))),
                        c.move(before[i].y, c.draw(cursor + 2 * (k - 1) + 1)))]
  }

  /** Direct simulation: the positions and the stream position after some ticks. */
  function Simulated(c: Config, ticks: nat): (seq<Point>, nat)
    requires c.agentCount > 0
    ensures |Simulated(c, ticks).0| == c.agentCount
  {
    if ticks == 0 then (Initial(c), 2 * c.agentCount)
    else
      var (at, cursor) := Simulated(c, ticks - 1);
      (Walked(c, at, cursor, ticks - 1, c.changedAgents), cursor + 2 * c.changedAgents)
  }

  /** What one tick records: for each walk in order, the walker's position after the tick. */
  function Delta(c: Config, tick: nat): seq<Update>
    requires c.agentCount > 0
  {
    var after := Simulated(c, tick + 1).0;
    seq(c.changedAgents, k requires 0 <= k < c.changedAgents => Update(Walker(c, tick, k), after[Walker(c, tick, k)]))
  }

  /** Apply the first `k` updates of a delta in order. */
  function Applied(at: seq<Point>, delta: seq<Update>, k: nat): seq<Point>
    requires k <= |delta| && forall j :: 0 <= j < k ==> delta[j].id < |at|
    ensures |Applied(at, delta, k)| == |at|
  {
    if k == 0 then at else Applied(at, delta, k - 1)[delta[k - 1].id := delta[k - 1].at]
  }

  predicate Touches(delta: seq<Update>, k: nat, i: nat)
    requires k <= |delta|
  {
    exists j :: 0 <= j < k && delta[j].id == i
  }

  lemma {:induction false} UntouchedStays(c: Config, at: seq<Point>, cursor: nat, tick: nat, k: nat, i: nat)
    requires |at| == c.agentCount > 0 && i < |at|
    requires forall j :: 0 <= j < k ==> Walker(c, tick, j) != i
    ensures Walked(c, at, cursor, tick, k)[i] == at[i]
  {
    if k > 0 {
      UntouchedStays(c, at, cursor, tick, k - 1, i);
    }
  }

  /** An agent absent from a delta is unchanged; one that is present gets its new value. */
  lemma {:induction false} AppliedAt(at: seq<Point>, delta: seq<Update>, k: nat, i: nat, value: Point)
    requires k <= |delta| && i < |at| && forall j :: 0 <= j < |delta| ==> delta[j].id < |at|
    requires forall j :: 0 <= j < k && delta[j].id == i ==> delta[j].at == value
    ensures Applied(at, delta, k)[i] == if Touches(delta, k, i) then value else at[i]
  {
    if k > 0 {
      AppliedAt(at, delta, k - 1, i, value);
      if delta[k - 1].id != i {
        assert Touches(delta, k, i) <==> Touches(delta, k - 1, i);
      }
    }
  }

  /** Applying one tick's delta to the positions before it gives the positions after it. */
  lemma {:induction false} DeltaAdvances(c: Config, tick: nat)
    requires c.agentCount > 0
    ensures forall j :: 0 <= j < |Delta(c, tick)| ==> Delta(c, tick)[j].id < c.agentCount
    ensures Applied(Simulated(c, tick).0, Delta(c, tick), |Delta(c, tick)|) == Simulated(c, tick + 1).0
  {
    var (at, cursor) := Simulated(c, tick);
    var delta, after := Delta(c, tick), Simulated(c, tick + 1).0;
    forall i: nat | i < c.agentCount ensures Applied(at, delta, |delta|)[i] == after[i] {
      AppliedAt(at, delta, |delta|, i, after[i]);
      if !Touches(delta, |delta|, i) {
        assert forall j :: 0 <= j < c.changedAgents ==> delta[j].id == Walker(c, tick, j);
        UntouchedStays(c, at, cursor, tick, c.changedAgents, i);
      }
    }
  }

  /** Replay of a recorded trace from its initial positions. */
  function Replayed(start: seq<Point>, frames: seq<seq<Update>>, steps: nat): seq<Point>
    requires steps <= |frames|
    requires forall f, j :: 0 <= f < |frames| && 0 <= j < |frames[f]| ==> frames[f][j].id < |start|
    ensures |Replayed(start, frames, steps)| == |start|
  {
    if steps == 0 then start
    else Applied(Replayed(start, frames, steps - 1), frames[steps - 1], |frames[steps - 1]|)
  }

  function Frames(c: Config, count: nat): seq<seq<Update>>
    requires c.agentCount > 0
  {
    seq(count, f requires 0 <= f < count => Delta(c, f))
  }

  lemma {:induction false} FramesNameAgents(c: Config, count: nat)
    requires c.agentCount > 0
    ensures forall f, j :: 0 <= f < count && 0 <= j < |Frames(c, count)[f]| ==> Frames(c, count)[f][j].id < |Initial(c)|
  {
    forall f | 0 <= f < count
      ensures forall j :: 0 <= j < |Frames(c, count)[f]| ==> Frames(c, count)[f][j].id < |Initial(c)|
    {
      DeltaAdvances(c, f);
    }
  }

  /** The trace refines the simulation: replaying any prefix of the recorded deltas from the
      regenerated initial positions gives the directly simulated positions. */
  lemma {:induction false} TraceRefinesSimulation(c: Config, count: nat, steps: nat)
    requires c.agentCount > 0 && steps <= count
    ensures forall f, j :: 0 <= f < count && 0 <= j < |Frames(c, count)[f]| ==> Frames(c, count)[f][j].id < |Initial(c)|
    ensures Replayed(Initial(c), Frames(c, count), steps) == Simulated(c, steps).0
    decreases steps
  {
    FramesNameAgents(c, count);
    if steps > 0 {
      TraceRefinesSimulation(c, count, steps - 1);
      DeltaAdvances(c, steps - 1);
    }
  }

  // ----- the mutable simulation -----

  class Agent {
    const id: nat
    var x: real
    var y: real

    constructor (id: nat, at: Point)
      ensures this.id == id && At() == at
    {
      this.id, x, y := id, at.x, at.y;
    }

    function At(): Point
      reads this
    {
      Point(x, y)
    }
  }

  class Random {
    const draw: nat -> real
    var cursor: nat

    constructor (draw: nat -> real)
      ensures this.draw == draw && cursor == 0
    {
      this.draw, cursor := draw, 0;
    }

    method Next() returns (r: real)
      modifies this
      ensures r == draw(old(cursor)) && cursor == old(cursor) + 1
    {
      r := draw(cursor);
      cursor := cursor + 1;
    }
  }

  /** Distinct agents in order of identity, standing at the given positions. */
  ghost predicate Stand(agents: seq<Agent>, at: seq<Point>)
    reads agents
  {
    && |agents| == |at|
    && (forall i {:trigger agents[i]} :: 0 <= i < |agents| ==> agents[i].id == i && agents[i].At() == at[i])
  }

  method CreateAgents(c: Config, random: Random) returns (agents: seq<Agent>)
    requires random.draw == c.draw && random.cursor == 0
    modifies random
    ensures fresh(agents) && Stand(agents, Initial(c)) && random.cursor == 2 * c.agentCount
  {
    agents := [];
    for i := 0 to c.agentCount
      invariant random.cursor == 2 * i && fresh(agents) && |agents| == i
      invariant forall j {:trigger agents[j]} :: 0 <= j < i ==> agents[j].id == j && agents[j].At() == Initial(c)[j]
    {
      var x := random.Next();
      var y := random.Next();
      var agent := new Agent(i, Point(c.start(x), c.start(y)));
      agents := agents + [agent];
    }
  }

  /** One walk: two draws move one agent, and no other. */
  method Walk(c: Config, agents: seq<Agent>, index: nat, random: Random, ghost at: seq<Point>)
    requires index < |agents| && Stand(agents, at) && random.draw == c.draw
    modifies agents, random
    ensures random.cursor == old(random.cursor) + 2
    ensures Stand(agents, at[index := Point(c.move(at[index].x, c.draw(old(random.cursor))),
                                            c.move(at[index].y, c.draw(old(random.cursor) + 1)))])
  {
    var agent := agents[index];
    assert agent.At() == at[index];
    var r := random.Next();
    agent.x := c.move(agent.x, r);
    r := random.Next();
    agent.y := c.move(agent.y, r);
  }

  /** One tick: the walkers move in place, and the list of moved agents is returned. */
  method StepRandomWalk(c: Config, agents: seq<Agent>, random: Random, tick: nat, ghost at: seq<Point>)
    returns (changed: seq<Agent>)
    requires c.agentCount > 0 && random.draw == c.draw && |at| == c.agentCount && Stand(agents, at)
    modifies agents, random
    ensures Stand(agents, Walked(c, at, old(random.cursor), tick, c.changedAgents))
    ensures random.cursor == old(random.cursor) + 2 * c.changedAgents
    ensures |changed| == c.changedAgents
    ensures forall k {:trigger changed[k]} :: 0 <= k < |changed| ==> changed[k] == agents[Walker(c, tick, k)]
  {
    changed := [];
    ghost var cursor := random.cursor;
    for offset := 0 to c.changedAgents
      invariant Stand(agents, Walked(c, at, cursor, tick, offset))
      invariant random.cursor == cursor + 2 * offset && |changed| == offset
      invariant forall k {:trigger changed[k]} :: 0 <= k < offset ==> changed[k] == agents[Walker(c, tick, k)]
    {
      var index := (tick * c.changedAgents + offset) % |agents|;
      assert index == Walker(c, tick, offset);
      Walk(c, agents, index, random, Walked(c, at, cursor, tick, offset));
      changed := changed + [agents[index]];
    }
  }

  /** A tick of the simulation, started where the previous one ended. */
  method Tick(c: Config, agents: seq<Agent>, random: Random, tick: nat) returns (changed: seq<Agent>)
    requires c.agentCount > 0 && random.draw == c.draw && Stand(agents, Simulated(c, tick).0)
    requires random.cursor == Simulated(c, tick).1
    modifies agents, random
    ensures Stand(agents, Simulated(c, tick + 1).0) && random.cursor == Simulated(c, tick + 1).1
    ensures |changed| == c.changedAgents
    ensures forall k {:trigger changed[k]} :: 0 <= k < |changed| ==> changed[k] == agents[Walker(c, tick, k)]
  {
    changed := StepRandomWalk(c, agents, random, tick, Simulated(c, tick).0);
  }

  /** Detach the moved agents: the copies keep their values when the originals move on. */
  method CloneAll(changed: seq<Agent>) returns (copies: seq<Agent>)
    ensures fresh(copies) && |copies| == |changed|
    ensures forall k {:trigger copies[k]} :: 0 <= k < |copies| ==>
              copies[k].id == changed[k].id && copies[k].At() == changed[k].At()
  {
    copies := [];
    for k := 0 to |changed|
      invariant fresh(copies) && |copies| == k
      invariant forall j {:trigger copies[j]} :: 0 <= j < k ==>
                  copies[j].id == changed[j].id && copies[j].At() == changed[j].At()
    {
      var copy := new Agent(changed[k].id, Point(changed[k].x, changed[k].y));
      copies := copies + [copy];
    }
  }

  /** A recorded frame holds exactly the updates of its delta. */
  ghost predicate Records(frame: seq<Agent>, delta: seq<Update>)
    reads frame
  {
    && |frame| == |delta|
    && forall k {:trigger frame[k]} :: 0 <= k < |frame| ==> Update(frame[k].id, frame[k].At()) == delta[k]
  }

  ghost predicate Kept(frame: seq<Agent>, kept: set<Agent>) {
    forall k {:trigger frame[k]} :: 0 <= k < |frame| ==> frame[k] in kept
  }

  /** Every recorded frame holds its delta, in objects that belong to the trace alone. */
  ghost predicate Recorded(frames: seq<seq<Agent>>, deltas: seq<seq<Update>>, kept: set<Agent>)
    reads kept
  {
    && |frames| <= |deltas|
    && forall f {:trigger frames[f]} :: 0 <= f < |frames| ==> Kept(frames[f], kept) && Records(frames[f], deltas[f])
  }

  /** One tick of recording: the walkers move and detached copies of them are returned. */
  method RecordTick(c: Config, agents: seq<Agent>, random: Random, tick: nat) returns (frame: seq<Agent>)
    requires c.agentCount > 0 && random.draw == c.draw && Stand(agents, Simulated(c, tick).0)
    requires random.cursor == Simulated(c, tick).1
    modifies agents, random
    ensures Stand(agents, Simulated(c, tick + 1).0) && random.cursor == Simulated(c, tick + 1).1
    ensures fresh(frame) && Records(frame, Delta(c, tick))
  {
    var changed := Tick(c, agents, random, tick);
    frame := CloneAll(changed);
    ghost var after := Simulated(c, tick + 1).0;
    assert Stand(agents, after);
    forall k | 0 <= k < |frame| ensures Update(frame[k].id, frame[k].At()) == Delta(c, tick)[k] {
      assert changed[k] == agents[Walker(c, tick, k)];
    }
  }

  lemma {:induction false} RecordedNext(frames: seq<seq<Agent>>, deltas: seq<seq<Update>>, kept: set<Agent>,
                                        frame: seq<Agent>, more: set<Agent>)
    requires Recorded(frames, deltas, kept) && |frames| < |deltas|
    requires Records(frame, deltas[|frames|]) && kept <= more && Kept(frame, more)
    ensures Recorded(frames + [frame], deltas, more)
  {
  }

  /** Record a trace while the simulation runs; the earlier frames stay what they were. */
  method CreateTrace(c: Config, count: nat)
    returns (initial: seq<Agent>, frames: seq<seq<Agent>>, ghost kept: set<Agent>)
    requires c.agentCount > 0
    ensures fresh(initial) && Stand(initial, Initial(c))
    ensures |frames| == count && fresh(kept) && Recorded(frames, Frames(c, count), kept)
  {
    ghost var deltas := Frames(c, count);
    var random := new Random(c.draw);
    var agents := CreateAgents(c, random);
    frames, kept := [], {};
    for tick := 0 to count
      invariant fresh(agents) && fresh(random) && random.draw == c.draw
      invariant Stand(agents, Simulated(c, tick).0) && random.cursor == Simulated(c, tick).1
      invariant |frames| == tick && fresh(kept) && forall a {:trigger a in kept} :: a in agents ==> a !in kept
      invariant Recorded(frames, deltas, kept)
    {
      var frame := RecordTick(c, agents, random, tick);
      ghost var more := kept + set a | a in frame;
      RecordedNext(frames, deltas, kept, frame, more);
      frames, kept := frames + [frame], more;
    }
    var again := new Random(c.draw);
    initial := CreateAgents(c, again);
  }

  // ----- replay -----

  /** The first `k` updates of a delta all name an existing agent. */
  predicate Known(delta: seq<Update>, k: nat, agentCount: nat)
    requires k <= |delta|
  {
    forall j :: 0 <= j < k ==> delta[j].id < agentCount
  }

  /** Apply a recorded frame in place.  An unknown agent stops it after the updates before it. */
  method ApplyDelta(agents: seq<Agent>, frame: seq<Agent>, ghost at: seq<Point>, ghost delta: seq<Update>)
    returns (ok: bool, ghost applied: nat)
    requires Stand(agents, at) && Records(frame, delta)
    requires forall k {:trigger frame[k]} :: 0 <= k < |frame| ==> frame[k] !in agents
    modifies agents
    ensures ok <==> Known(delta, |delta|, |at|)
    ensures applied <= |delta| && Known(delta, applied, |at|)
    ensures if ok then applied == |delta| else applied < |delta| && delta[applied].id >= |at|
    ensures Stand(agents, Applied(at, delta, applied))
  {
    applied := 0;
    for k := 0 to |frame|
      invariant applied == k && Known(delta, k, |at|) && Stand(agents, Applied(at, delta, k)) && Records(frame, delta)
    {
      var update := frame[k];
      assert Update(update.id, update.At()) == delta[k];
      if update.id >= |agents| {
        return false, applied;
      }
      var agent := agents[update.id];
      agent.x, agent.y := update.x, update.y;
      applied := k + 1;
    }
    ok := true;
  }

  /** A recorded frame advances agents that stand where its tick began. */
  method ApplyFrame(c: Config, agents: seq<Agent>, frame: seq<Agent>, tick: nat)
    requires c.agentCount > 0 && Stand(agents, Simulated(c, tick).0) && Records(frame, Delta(c, tick))
    requires forall k {:trigger frame[k]} :: 0 <= k < |frame| ==> frame[k] !in agents
    modifies agents
    ensures Stand(agents, Simulated(c, tick + 1).0)
  {
    DeltaAdvances(c, tick);
    var ok, _ := ApplyDelta(agents, frame, Simulated(c, tick).0, Delta(c, tick));
    assert ok;
  }

  /** Agents that belong to no frame of a trace. */
  ghost predicate Apart(agents: seq<Agent>, kept: set<Agent>) {
    forall a {:trigger a in kept} :: a in agents ==> a !in kept
  }

  /** One step of a replay; the trace itself stays what it was. */
  method ReplayStep(c: Config, agents: seq<Agent>, frames: seq<seq<Agent>>, index: nat, ghost deltas: seq<seq<Update>>,
                    ghost kept: set<Agent>)
    requires c.agentCount > 0 && Stand(agents, Simulated(c, index).0)
    requires index < |frames| && Recorded(frames, deltas, kept) && Apart(agents, kept)
          && deltas[index] == Delta(c, index)
    modifies agents
    ensures Stand(agents, Simulated(c, index + 1).0) && Recorded(frames, deltas, kept)
  {
    assert Kept(frames[index], kept) && Records(frames[index], deltas[index]);
    ApplyFrame(c, agents, frames[index], index);
  }

  /** Replay the first `steps` frames of a trace that shares no object with `agents`. */
  method Replay(c: Config, agents: seq<Agent>, frames: seq<seq<Agent>>, steps: nat, ghost deltas: seq<seq<Update>>,
                ghost kept: set<Agent>)
    requires c.agentCount > 0 && Stand(agents, Simulated(c, 0).0)
    requires steps <= |frames| && Recorded(frames, deltas, kept) && Apart(agents, kept)
    requires forall f {:trigger deltas[f]} :: 0 <= f < |deltas| ==> deltas[f] == Delta(c, f)
    modifies agents
    ensures Stand(agents, Simulated(c, steps).0)
  {
    for index := 0 to steps
      invariant Stand(agents, Simulated(c, index).0) && Recorded(frames, deltas, kept)
    {
      ReplayStep(c, agents, frames, index, deltas, kept);
    }
  }

  /** The positions after replaying `steps` frames of a trace; asking for more frames than it has fails. */
  method TraceExpected(c: Config, initial: seq<Agent>, frames: seq<seq<Agent>>, steps: nat, ghost kept: set<Agent>)
    returns (expected: Result<seq<Agent>>)
    requires c.agentCount > 0 && Stand(initial, Initial(c)) && Recorded(frames, Frames(c, |frames|), kept)
    ensures expected == Rejected <==> steps > |frames|
    ensures expected.Ok? ==> fresh(expected.value) && Stand(expected.value, Simulated(c, steps).0)
  {
    if steps > |frames| {
      return Rejected;
    }
    var agents := CloneAll(initial);
    Replay(c, agents, frames, steps, Frames(c, |frames|), kept);
    expected := Ok(agents);
  }

  /** The positions of the direct simulation. */
  method Expected(c: Config, steps: nat) returns (agents: seq<Agent>)
    requires c.agentCount > 0
    ensures fresh(agents) && Stand(agents, Simulated(c, steps).0)
  {
    var random := new Random(c.draw);
    agents := CreateAgents(c, random);
    for tick := 0 to steps
      invariant fresh(agents) && fresh(random) && random.draw == c.draw
      invariant Stand(agents, Simulated(c, tick).0) && random.cursor == Simulated(c, tick).1
    {
      var _ := Tick(c, agents, random, tick);
    }
  }
}
