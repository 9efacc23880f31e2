/** The naming game: pairwise interactions, payoffs, bounded memories and recent edges, and
    what every reachable state keeps of its run. */
module Naming {
  import opened Prelude
  import opened ContactGraphs
  import ContactNetworks

  datatype Name = Q | M

  datatype Decision = Decision(name: Name, note: Text)

  /** A player's record of its last decision: empty before its first one. A record that comes
      from outside may hold a note alone. */
  datatype LastDecision = Empty | Noted(note: Text) | Taken(decision: Decision)

  /** One remembered interaction, from one player's side. */
  datatype Memory = Memory(tick: nat, partner: nat, own: Name, other: Name, success: bool, payoff: int)

  datatype Player = Player(name: Option<Name>, score: int, history: seq<Memory>, lastDecision: LastDecision)

  /** A recently used contact; the ends are stored in order. */
  datatype Interaction = Interaction(ends: Edge, tick: nat, success: bool, age: int)

  /** One interaction of the whole game. */
  datatype Meeting = Meeting(tick: nat, first: nat, second: nat, firstName: Name, secondName: Name) {
    predicate Success() { firstName == secondName }
    predicate Involves(i: nat) { i == first || i == second }
    function Partner(i: nat): nat { if i == first then second else first }
    function Own(i: nat): Name { if i == first then firstName else secondName }
    function Other(i: nat): Name { if i == first then secondName else firstName }
    function Ends(): Edge { Link(first, second) }

    /** What player `i` remembers of it. */
    function SeenBy(i: nat): Memory {
      Memory(tick, Partner(i), Own(i), Other(i), Success(), if Success() then 1 else -1)
    }
  }

  datatype Config = Config(
    agents: nat,
    memory: nat,
    topology: ContactNetworks.Topology,
    degree: nat,
    committed: nat,
    committedName: Name,
    seed: nat)
  {
    /** The configurations that a game accepts. */
    predicate Accepted() {
      && 2 <= agents <= 200 && 1 <= memory <= 12 && 2 <= degree <= 198
      && committed < agents && seed < 0x1_0000_0000
      && ContactNetworks.ValidTopology(topology, agents, degree)
    }
  }

  datatype State = State(
    config: Config,
    players: seq<Player>,
    tick: nat,
    successes: nat,
    recentEdges: seq<Interaction>,
    lastInteraction: Option<Meeting>,
    events: seq<Meeting>,
    treatmentTick: nat)

  const EDGE_AGE := 12

  ghost predicate Sound(s: State) {
    s.config.agents >= 2 && s.config.memory >= 1 && |s.players| == s.config.agents
  }

  // ----- the transition -----

  function Remember(c: Config, p: Player, m: Meeting, i: nat, d: Decision): Player {
    var payoff := if m.Success() then 1 else -1;
    Player(Some(d.name), p.score + payoff, LastOf(p.history + [m.SeenBy(i)], c.memory), Taken(d))
  }

  /** The edges that stay: young enough, and not the pair that just met. */
  function Fading(edges: seq<Interaction>, tick: nat, met: Edge): seq<Interaction> {
    if edges == [] then []
    else
      var last := edges[|edges| - 1];
      Fading(edges[..|edges| - 1], tick, met)
      + if tick - last.tick < EDGE_AGE && last.ends != met then [last.(age := tick - last.tick)] else []
  }

  function Met(s: State, a: nat, b: nat, x: Decision, y: Decision): Meeting {
    Meeting(s.tick + 1, a, b, x.name, y.name)
  }

  /** Both players adopt and remember their answers; the clock, the score ledger, the
      recent edges and the measurement window advance. */
  function Interacted(s: State, a: nat, b: nat, x: Decision, y: Decision): State
    requires |s.players| == s.config.agents && a < s.config.agents && b < s.config.agents
  {
    var m := Met(s, a, b, x, y);
    State(
      s.config,
      s.players[a := Remember(s.config, s.players[a], m, a, x)][b := Remember(s.config, s.players[b], m, b, y)],
      s.tick + 1,
      s.successes + (if m.Success() then 1 else 0),
      Fading(s.recentEdges, s.tick + 1, m.Ends()) + [Interaction(m.Ends(), s.tick + 1, m.Success(), 0)],
      Some(m),
      LastOf(s.events + [m], 4 * s.config.agents),
      s.treatmentTick)
  }

  /** What a treatment sets: who may meet, and how many players hold which name for good. */
  datatype Treatment = Treatment(topology: ContactNetworks.Topology, committed: nat, name: Name)

  function Reconfigured(c: Config, treatment: Treatment): Config {
    c.(topology := treatment.topology, committed := treatment.committed, committedName := treatment.name)
  }

  /** A treatment branches the run: players and clock stay, the measurement window restarts. */
  function Treated(s: State, treatment: Treatment): State {
    s.(config := Reconfigured(s.config, treatment), treatmentTick := s.tick, events := [])
  }

  ghost predicate Initial(s: State) {
    && Sound(s) && s.tick == 0 && s.successes == 0 && s.recentEdges == [] && s.lastInteraction.None?
    && s.events == [] && s.treatmentTick == 0
    && forall i :: 0 <= i < |s.players| ==> s.players[i].score == 0 && s.players[i].history == []
                                            && s.players[i].lastDecision.Empty?
  }

  // ----- what a reachable state keeps of its log -----

  ghost predicate Logged(c: Config, m: Meeting, t: nat) {
    m.tick == t + 1 && m.first < c.agents && m.second < c.agents && m.first != m.second
  }

  ghost predicate IsLog(c: Config, log: seq<Meeting>) {
    forall t {:trigger Logged(c, log[t], t)} :: 0 <= t < |log| ==> Logged(c, log[t], t)
  }

  /** An entry of player `i`'s memory is its view of the logged meeting of that tick. */
  ghost predicate Recalls(e: Memory, log: seq<Meeting>, i: nat) {
    && 1 <= e.tick <= |log|
    && log[e.tick - 1].Involves(i) && e == log[e.tick - 1].SeenBy(i)
  }

  ghost predicate Increasing(history: seq<Memory>) {
    forall j, k :: 0 <= j < k < |history| ==> history[j].tick < history[k].tick
  }

  ghost predicate Remembers(c: Config, p: Player, log: seq<Meeting>, i: nat) {
    && |p.history| <= c.memory && Increasing(p.history)
    && -(|log| as int) <= p.score <= |log|
    && forall k {:trigger Recalls(p.history[k], log, i)} :: 0 <= k < |p.history| ==> Recalls(p.history[k], log, i)
  }

  predicate Holds(p: Player, tick: nat) {
    exists k :: 0 <= k < |p.history| && p.history[k].tick == tick
  }

  /** A memory has no gaps: from its first entry on it holds every meeting of the player. */
  ghost predicate NoGaps(p: Player, log: seq<Meeting>, i: nat) {
    forall t {:trigger log[t].Involves(i)} :: 0 <= t < |log| && log[t].Involves(i) ==>
      p.history != [] && (t + 1 < p.history[0].tick || Holds(p, t + 1))
  }

  /** What player `i` scored: one up for every success, one down for every failure. */
  ghost function ScoreOf(log: seq<Meeting>, i: nat): int {
    if log == [] then 0
    else
      var last := log[|log| - 1];
      ScoreOf(log[..|log| - 1], i)
      + if !last.Involves(i) then 0 else if last.firstName == last.secondName then 1 else -1
  }

  /** The name that player `i` used in its latest meeting. */
  ghost function NameIn(log: seq<Meeting>, i: nat): Option<Name> {
    if log == [] then None
    else if log[|log| - 1].Involves(i) then Some(log[|log| - 1].Own(i))
    else NameIn(log[..|log| - 1], i)
  }

  /** A player's memory is full or holds all its meetings; its score is what it scored, and it
      goes by the name it used last. */
  ghost predicate Tracks(c: Config, p: Player, log: seq<Meeting>, i: nat) {
    && (|p.history| == c.memory || forall t {:trigger log[t].Involves(i)} ::
          0 <= t < |log| && log[t].Involves(i) ==> Holds(p, t + 1))
    && p.score == ScoreOf(log, i)
    && match NameIn(log, i)
       case None => true
       case Some(name) => p.name == Some(name) && p.lastDecision.Taken? && p.lastDecision.decision.name == name
  }

  ghost predicate AllTrack(c: Config, players: seq<Player>, log: seq<Meeting>) {
    forall i {:trigger Tracks(c, players[i], log, i)} :: 0 <= i < |players| ==> Tracks(c, players[i], log, i)
  }

  /** A recent edge is the latest logged meeting of its pair, less than twelve ticks old. */
  ghost predicate Dated(e: Interaction, log: seq<Meeting>) {
    && 1 <= e.tick <= |log| && |log| - e.tick < EDGE_AGE && e.age == |log| - e.tick
    && e.ends == log[e.tick - 1].Ends() && e.success == log[e.tick - 1].Success()
    && forall t {:trigger log[t].Ends()} :: e.tick <= t < |log| ==> log[t].Ends() != e.ends
  }

  /** The ticks increase and no pair occurs twice. */
  ghost predicate Ordered(edges: seq<Interaction>) {
    forall j, k :: 0 <= j < k < |edges| ==> edges[j].tick < edges[k].tick && edges[j].ends != edges[k].ends
  }

  /** The meeting after `t` ticks is the latest one of its pair. */
  ghost predicate Latest(log: seq<Meeting>, t: nat) {
    && t < |log|
    && forall u {:trigger log[u].Ends()} :: t < u < |log| ==> log[u].Ends() != log[t].Ends()
  }

  predicate DatedAt(edges: seq<Interaction>, tick: nat) {
    exists k :: 0 <= k < |edges| && edges[k].tick == tick
  }

  /** Every latest meeting of the last twelve ticks has its edge. */
  ghost predicate NoneMissing(edges: seq<Interaction>, log: seq<Meeting>) {
    forall t: nat {:trigger Latest(log, t)} :: |log| - 12 <= t && Latest(log, t) ==> DatedAt(edges, t + 1)
  }

  /** The recent edges are exactly the latest meetings of the last twelve ticks, in order. */
  ghost predicate Recent(edges: seq<Interaction>, log: seq<Meeting>) {
    && (forall k {:trigger Dated(edges[k], log)} :: 0 <= k < |edges| ==> Dated(edges[k], log))
    && Ordered(edges) && NoneMissing(edges, log)
  }

  ghost function TotalScore(players: seq<Player>): int {
    if players == [] then 0 else TotalScore(players[..|players| - 1]) + players[|players| - 1].score
  }

  /** The measurement window holds all meetings since the treatment, up to four a player. */
  ghost predicate Window(s: State, log: seq<Meeting>) {
    && s.treatmentTick <= |log| && |s.events| == Min(4 * s.config.agents, |log| - s.treatmentTick)
    && forall k :: 0 <= k < |s.events| ==> s.events[k] == log[|log| - |s.events| + k]
  }

  ghost predicate Consistent(s: State, log: seq<Meeting>) {
    && Sound(s) && s.tick == |log| && IsLog(s.config, log)
    && (forall i {:trigger Remembers(s.config, s.players[i], log, i)} ::
          0 <= i < |s.players| ==> Remembers(s.config, s.players[i], log, i))
    && (forall i {:trigger NoGaps(s.players[i], log, i)} ::
          0 <= i < |s.players| ==> NoGaps(s.players[i], log, i))
    && AllTrack(s.config, s.players, log)
    && Recent(s.recentEdges, log)
    && TotalScore(s.players) == 4 * s.successes - 2 * s.tick && s.successes <= s.tick
    && s.lastInteraction == (if log == [] then None else Some(log[|log| - 1]))
    && Window(s, log)
  }

  // ----- preservation -----

  lemma {:induction false} TotalScoreUpdate(players: seq<Player>, i: nat, p: Player)
    requires i < |players|
    ensures TotalScore(players[i := p]) == TotalScore(players) - players[i].score + p.score
    decreases |players|
  {
    var last := |players| - 1;
    if i == last {
      assert players[i := p][..last] == players[..last];
    } else {
      assert players[i := p][..last] == players[..last][i := p];
      TotalScoreUpdate(players[..last], i, p);
    }
  }

  lemma {:induction false} ActorRemembers(c: Config, p: Player, log: seq<Meeting>, i: nat, m: Meeting, d: Decision)
    requires c.memory >= 1 && Remembers(c, p, log, i) && Logged(c, m, |log|) && m.Involves(i)
    ensures Remembers(c, Remember(c, p, m, i, d), log + [m], i)
  {
    var longer, h, kept := log + [m], p.history + [m.SeenBy(i)], LastOf(p.history + [m.SeenBy(i)], c.memory);
    var skipped := |h| - |kept|;
    forall k | 0 <= k < |h| ensures Recalls(h[k], longer, i) {
      if k < |p.history| {
        assert h[k] == p.history[k] && Recalls(p.history[k], log, i);
      }
    }
    forall k | 0 <= k < |kept| ensures Recalls(kept[k], longer, i) {
      assert kept[k] == h[skipped + k];
    }
    forall k | 0 <= k < |p.history| ensures p.history[k].tick <= |log| {
      assert Recalls(p.history[k], log, i);
    }
    forall j, k | 0 <= j < k < |kept| ensures kept[j].tick < kept[k].tick {
      assert kept[j] == h[skipped + j] && kept[k] == h[skipped + k];
    }
  }

  lemma {:induction false} ActorKeepsUp(c: Config, p: Player, log: seq<Meeting>, i: nat, m: Meeting, d: Decision)
    requires c.memory >= 1 && Remembers(c, p, log, i) && NoGaps(p, log, i) && Logged(c, m, |log|) && m.Involves(i)
    ensures NoGaps(Remember(c, p, m, i, d), log + [m], i)
  {
    RememberedTicks(c, p, log, i);
    var h := p.history + [m.SeenBy(i)];
    assert h[0..] == h;
    ActorHasNoGaps(p, Remember(c, p, m, i, d), log, i, m, if |h| > c.memory then |h| - c.memory else 0);
  }

  lemma {:induction false} RememberedTicks(c: Config, p: Player, log: seq<Meeting>, i: nat)
    requires Remembers(c, p, log, i)
    ensures forall k :: 0 <= k < |p.history| ==> p.history[k].tick <= |log|
  {
    forall k | 0 <= k < |p.history| ensures p.history[k].tick <= |log| {
      assert Recalls(p.history[k], log, i);
    }
  }

  /** A history that ends in the new meeting and is cut at the front only has no gaps either. */
  lemma {:induction false} ActorHasNoGaps(p: Player, q: Player, log: seq<Meeting>, i: nat, m: Meeting, skipped: nat)
    requires NoGaps(p, log, i) && Increasing(p.history) && m.tick == |log| + 1 && m.Involves(i)
    requires forall k :: 0 <= k < |p.history| ==> p.history[k].tick <= |log|
    requires skipped <= |p.history| && q.history == (p.history + [m.SeenBy(i)])[skipped..]
    ensures NoGaps(q, log + [m], i)
  {
    var longer := log + [m];
    forall t | 0 <= t < |longer| && longer[t].Involves(i)
      ensures t + 1 < q.history[0].tick || Holds(q, t + 1)
    {
      if t == |log| {
        assert q.history[|q.history| - 1].tick == t + 1;
      } else if t + 1 >= q.history[0].tick {
        assert log[t].Involves(i);
        assert q.history[0] == (p.history + [m.SeenBy(i)])[skipped];
        assert p.history[0].tick <= q.history[0].tick;
        var k :| 0 <= k < |p.history| && p.history[k].tick == t + 1;
        assert k >= skipped;
        assert q.history[k - skipped].tick == t + 1;
      }
    }
  }

  lemma {:induction false} OtherRemembers(c: Config, p: Player, log: seq<Meeting>, i: nat, m: Meeting)
    requires Remembers(c, p, log, i) && NoGaps(p, log, i) && !m.Involves(i)
    ensures Remembers(c, p, log + [m], i) && NoGaps(p, log + [m], i)
  {
    var longer := log + [m];
    forall k | 0 <= k < |p.history| ensures Recalls(p.history[k], longer, i) {
      assert Recalls(p.history[k], log, i);
    }
    forall t | 0 <= t < |longer| && longer[t].Involves(i)
      ensures p.history != [] && (t + 1 < p.history[0].tick || Holds(p, t + 1))
    {
      assert t < |log| && log[t].Involves(i);
    }
  }

  /** An edge that stays is one of the old edges, young enough and of another pair. */
  ghost predicate StaysFrom(edges: seq<Interaction>, tick: nat, met: Edge, e: Interaction, j: int) {
    && 0 <= j < |edges| && tick - edges[j].tick < EDGE_AGE && edges[j].ends != met
    && e == edges[j].(age := tick - edges[j].tick)
  }

  lemma {:induction false} FadingMember(edges: seq<Interaction>, tick: nat, met: Edge, k: nat)
    requires k < |Fading(edges, tick, met)|
    ensures exists j :: StaysFrom(edges, tick, met, Fading(edges, tick, met)[k], j)
    decreases |edges|
  {
    var before := edges[..|edges| - 1];
    if k < |Fading(before, tick, met)| {
      FadingMember(before, tick, met, k);
      var j :| StaysFrom(before, tick, met, Fading(before, tick, met)[k], j);
      assert StaysFrom(edges, tick, met, Fading(edges, tick, met)[k], j);
    } else {
      assert StaysFrom(edges, tick, met, Fading(edges, tick, met)[k], |edges| - 1);
    }
  }

  lemma {:induction false} FadingOrdered(edges: seq<Interaction>, tick: nat, met: Edge)
    requires Ordered(edges)
    ensures Ordered(Fading(edges, tick, met))
    decreases |edges|
  {
    if edges != [] {
      var before := edges[..|edges| - 1];
      FadingOrdered(before, tick, met);
      var rest, faded := Fading(before, tick, met), Fading(edges, tick, met);
      forall j, k | 0 <= j < k < |faded| ensures faded[j].tick < faded[k].tick && faded[j].ends != faded[k].ends {
        if k == |rest| {
          FadingMember(before, tick, met, j);
          var l :| StaysFrom(before, tick, met, rest[j], l);
          assert edges[l].tick < edges[|before|].tick && edges[l].ends != edges[|before|].ends;
        }
      }
    }
  }

  lemma {:induction false} FadingKeeps(edges: seq<Interaction>, tick: nat, met: Edge, j: nat)
    requires j < |edges| && tick - edges[j].tick < 12 && edges[j].ends != met
    ensures DatedAt(Fading(edges, tick, met), edges[j].tick)
    decreases |edges|
  {
    var before := edges[..|edges| - 1];
    var faded := Fading(edges, tick, met);
    if j < |before| {
      FadingKeeps(before, tick, met, j);
      var k :| 0 <= k < |Fading(before, tick, met)| && Fading(before, tick, met)[k].tick == edges[j].tick;
      assert faded[k].tick == edges[j].tick;
    } else {
      assert faded[|faded| - 1].tick == edges[j].tick;
    }
  }

  /** After fading, no latest meeting of the last twelve ticks is missing but the new one. */
  lemma {:induction false} FadingMissesNone(edges: seq<Interaction>, log: seq<Meeting>, m: Meeting, t: nat)
    requires Recent(edges, log) && |log| - 11 <= t < |log| && Latest(log + [m], t)
    ensures DatedAt(Fading(edges, |log| + 1, m.Ends()), t + 1)
  {
    var longer := log + [m];
    forall u {:trigger log[u].Ends()} | t < u < |log| ensures log[u].Ends() != log[t].Ends() {
      assert longer[u].Ends() != longer[t].Ends();
    }
    assert Latest(log, t);
    var j :| 0 <= j < |edges| && edges[j].tick == t + 1;
    assert Dated(edges[j], log) && longer[|log|].Ends() != longer[t].Ends();
    FadingKeeps(edges, |log| + 1, m.Ends(), j);
  }

  /** After fading, the edges are recent for the longer log, and none joins the new pair. */
  lemma {:induction false} FadingIsRecent(edges: seq<Interaction>, log: seq<Meeting>, m: Meeting)
    requires Recent(edges, log)
    ensures var faded := Fading(edges, |log| + 1, m.Ends());
            && (forall k {:trigger Dated(faded[k], log + [m])} :: 0 <= k < |faded| ==> Dated(faded[k], log + [m]))
            && Ordered(faded)
            && forall k :: 0 <= k < |faded| ==> faded[k].ends != m.Ends() && faded[k].tick <= |log|
  {
    var faded := Fading(edges, |log| + 1, m.Ends());
    FadingOrdered(edges, |log| + 1, m.Ends());
    forall k | 0 <= k < |faded|
      ensures Dated(faded[k], log + [m]) && faded[k].ends != m.Ends() && faded[k].tick <= |log|
    {
      FadingMember(edges, |log| + 1, m.Ends(), k);
      var j :| StaysFrom(edges, |log| + 1, m.Ends(), faded[k], j);
      assert Dated(edges[j], log);
    }
  }

  lemma {:induction false} EdgeRecorded(edges: seq<Interaction>, log: seq<Meeting>, m: Meeting)
    requires Recent(edges, log) && m.tick == |log| + 1
    ensures Recent(Fading(edges, |log| + 1, m.Ends()) + [Interaction(m.Ends(), |log| + 1, m.Success(), 0)], log + [m])
  {
    FadingIsRecent(edges, log, m);
    var faded := Fading(edges, |log| + 1, m.Ends());
    var all := faded + [Interaction(m.Ends(), |log| + 1, m.Success(), 0)];
    forall k | 0 <= k < |all| ensures Dated(all[k], log + [m]) {
      if k < |faded| {
        assert Dated(faded[k], log + [m]);
      }
    }
    forall t: nat {:trigger Latest(log + [m], t)} | |log| - 11 <= t && Latest(log + [m], t)
      ensures DatedAt(all, t + 1)
    {
      if t < |log| {
        FadingMissesNone(edges, log, m, t);
        var k :| 0 <= k < |faded| && faded[k].tick == t + 1;
        assert all[k].tick == t + 1;
      } else {
        assert all[|faded|].tick == t + 1;
      }
    }
  }

  lemma {:induction false} WindowAdvances(s: State, log: seq<Meeting>, m: Meeting)
    requires Window(s, log) && s.config.agents > 0
    ensures Window(s.(events := LastOf(s.events + [m], 4 * s.config.agents)), log + [m])
  {
  }

  /** One interaction keeps every player's memory tied to the log. */
  lemma {:induction false} PlayersRemember(s: State, log: seq<Meeting>, a: nat, b: nat, x: Decision, y: Decision)
    requires Consistent(s, log) && a < s.config.agents && b < s.config.agents && a != b
    ensures var t := Interacted(s, a, b, x, y);
            var longer := log + [Met(s, a, b, x, y)];
            forall i :: 0 <= i < |t.players| ==>
              Remembers(s.config, t.players[i], longer, i) && NoGaps(t.players[i], longer, i)
  {
    var t, m := Interacted(s, a, b, x, y), Met(s, a, b, x, y);
    forall i | 0 <= i < |t.players|
      ensures Remembers(s.config, t.players[i], log + [m], i) && NoGaps(t.players[i], log + [m], i)
    {
      assert Remembers(s.config, s.players[i], log, i) && NoGaps(s.players[i], log, i);
      if i == a {
        ActorRemembers(s.config, s.players[i], log, i, m, x);
        ActorKeepsUp(s.config, s.players[i], log, i, m, x);
      } else if i == b {
        ActorRemembers(s.config, s.players[i], log, i, m, y);
        ActorKeepsUp(s.config, s.players[i], log, i, m, y);
      } else {
        OtherRemembers(s.config, s.players[i], log, i, m);
      }
    }
  }

  lemma {:induction false} ActorTracks(c: Config, p: Player, log: seq<Meeting>, i: nat, m: Meeting, d: Decision)
    requires c.memory >= 1 && Tracks(c, p, log, i) && m.Involves(i) && m.tick == |log| + 1 && m.Own(i) == d.name
    requires |p.history| <= c.memory
    ensures Tracks(c, Remember(c, p, m, i, d), log + [m], i)
  {
    var q, longer := Remember(c, p, m, i, d), log + [m];
    assert longer[..|log|] == log;
    if |q.history| != c.memory {
      assert q.history == p.history + [m.SeenBy(i)];
      forall t | 0 <= t < |longer| && longer[t].Involves(i) ensures Holds(q, t + 1) {
        if t < |log| {
          assert log[t].Involves(i) && Holds(p, t + 1);
          var k :| 0 <= k < |p.history| && p.history[k].tick == t + 1;
          assert q.history[k].tick == t + 1;
        } else {
          assert q.history[|p.history|].tick == t + 1;
        }
      }
    }
  }

  lemma {:induction false} OtherTracks(c: Config, p: Player, log: seq<Meeting>, i: nat, m: Meeting)
    requires Tracks(c, p, log, i) && !m.Involves(i)
    ensures Tracks(c, p, log + [m], i)
  {
    assert (log + [m])[..|log|] == log;
    assert forall t {:trigger (log + [m])[t].Involves(i)} ::
        0 <= t < |log + [m]| && (log + [m])[t].Involves(i) ==> t < |log| && log[t].Involves(i);
  }

  lemma {:induction false} PlayersTrack(s: State, log: seq<Meeting>, a: nat, b: nat, x: Decision, y: Decision)
    requires Consistent(s, log) && a < s.config.agents && b < s.config.agents && a != b
    ensures AllTrack(s.config, Interacted(s, a, b, x, y).players, log + [Met(s, a, b, x, y)])
  {
    var t, m := Interacted(s, a, b, x, y), Met(s, a, b, x, y);
    forall i | 0 <= i < |t.players| ensures Tracks(s.config, t.players[i], log + [m], i) {
      assert Tracks(s.config, s.players[i], log, i) && Remembers(s.config, s.players[i], log, i);
      if i == a {
        ActorTracks(s.config, s.players[i], log, i, m, x);
      } else if i == b {
        ActorTracks(s.config, s.players[i], log, i, m, y);
      } else {
        OtherTracks(s.config, s.players[i], log, i, m);
      }
    }
  }

  lemma {:induction false} ScoresMove(s: State, a: nat, b: nat, x: Decision, y: Decision)
    requires Sound(s) && a < s.config.agents && b < s.config.agents && a != b
    ensures TotalScore(Interacted(s, a, b, x, y).players)
            == TotalScore(s.players) + if x.name == y.name then 2 else -2
  {
    var m := Met(s, a, b, x, y);
    var once := s.players[a := Remember(s.config, s.players[a], m, a, x)];
    TotalScoreUpdate(s.players, a, once[a]);
    TotalScoreUpdate(once, b, Remember(s.config, s.players[b], m, b, y));
  }

  lemma {:induction false} InteractionIsConsistent(
        s: State, log: seq<Meeting>, a: nat, b: nat, x: Decision, y: Decision)
    requires Consistent(s, log) && a < s.config.agents && b < s.config.agents && a != b
    ensures Consistent(Interacted(s, a, b, x, y), log + [Met(s, a, b, x, y)])
  {
    var t, m := Interacted(s, a, b, x, y), Met(s, a, b, x, y);
    var longer := log + [m];
    forall k | 0 <= k < |longer| ensures Logged(s.config, longer[k], k) {
      if k < |log| {
        assert Logged(s.config, log[k], k);
      }
    }
    PlayersRemember(s, log, a, b, x, y);
    PlayersTrack(s, log, a, b, x, y);
    ScoresMove(s, a, b, x, y);
    EdgeRecorded(s.recentEdges, log, m);
    WindowAdvances(s, log, m);
    assert t.players == s.players[a := t.players[a]][b := t.players[b]];
  }

  lemma {:induction false} TreatmentIsConsistent(s: State, log: seq<Meeting>, treatment: Treatment)
    requires Consistent(s, log)
    ensures Consistent(Treated(s, treatment), log)
  {
    var t := Treated(s, treatment);
    forall k | 0 <= k < |log| ensures Logged(t.config, log[k], k) {
      assert Logged(s.config, log[k], k);
    }
    forall i | 0 <= i < |t.players|
      ensures Remembers(t.config, t.players[i], log, i) && NoGaps(t.players[i], log, i)
      ensures Tracks(t.config, t.players[i], log, i)
    {
      assert Remembers(s.config, s.players[i], log, i) && NoGaps(s.players[i], log, i);
      assert Tracks(s.config, s.players[i], log, i);
    }
  }

  // ----- runs -----

  datatype Move = Interact(a: nat, b: nat, x: Decision, y: Decision) | Treat(treatment: Treatment)

  /** A move of the game: an interaction of two distinct players, or a treatment. */
  ghost predicate Playable(s: State, move: Move) {
    move.Interact? ==> move.a < s.config.agents && move.b < s.config.agents && move.a != move.b
  }

  ghost function Play(s: State, move: Move): State
    requires Sound(s) && Playable(s, move)
  {
    match move
    case Interact(a, b, x, y) => Interacted(s, a, b, x, y)
    case Treat(treatment) => Treated(s, treatment)
  }

  ghost predicate PlayedAt(trace: seq<State>, moves: seq<Move>, k: nat)
    requires k < |moves| && |trace| == |moves| + 1
  {
    Sound(trace[k]) && Playable(trace[k], moves[k]) && trace[k + 1] == Play(trace[k], moves[k])
  }

  ghost predicate Run(trace: seq<State>, moves: seq<Move>) {
    && |trace| == |moves| + 1 && Initial(trace[0])
    && forall k {:trigger PlayedAt(trace, moves, k)} :: 0 <= k < |moves| ==> PlayedAt(trace, moves, k)
  }

  ghost function LogOf(trace: seq<State>, moves: seq<Move>, k: nat): seq<Meeting>
    requires |trace| == |moves| + 1 && k < |trace|
  {
    if k == 0 then []
    else
      LogOf(trace, moves, k - 1)
      + match moves[k - 1]
        case Interact(a, b, x, y) => [Met(trace[k - 1], a, b, x, y)]
        case Treat(_) => []
  }

  lemma {:induction false} NobodyScoredYet(players: seq<Player>)
    requires forall i :: 0 <= i < |players| ==> players[i].score == 0
    ensures TotalScore(players) == 0
  {
    if players != [] {
      NobodyScoredYet(players[..|players| - 1]);
    }
  }

  lemma {:induction false} RunIsConsistent(trace: seq<State>, moves: seq<Move>, last: nat)
    requires Run(trace, moves) && last < |trace|
    ensures forall k {:trigger LogOf(trace, moves, k)} :: 0 <= k <= last ==>
              Consistent(trace[k], LogOf(trace, moves, k))
  {
    if last == 0 {
      FreshIsConsistent(trace[0]);
    } else {
      RunIsConsistent(trace, moves, last - 1);
      var s, log := trace[last - 1], LogOf(trace, moves, last - 1);
      assert PlayedAt(trace, moves, last - 1) && Consistent(s, log);
      match moves[last - 1]
      case Interact(a, b, x, y) =>
        InteractionIsConsistent(s, log, a, b, x, y);
      case Treat(treatment) =>
        TreatmentIsConsistent(s, log, treatment);
        assert LogOf(trace, moves, last) == log;
    }
  }

  lemma {:induction false} FreshIsConsistent(s: State)
    requires Initial(s)
    ensures Consistent(s, [])
  {
    NobodyScoredYet(s.players);
    forall i | 0 <= i < |s.players| ensures Remembers(s.config, s.players[i], [], i) && NoGaps(s.players[i], [], i) {
    }
  }

  lemma {:induction false} FewRecentEdges(edges: seq<Interaction>, log: seq<Meeting>, k: nat)
    requires Recent(edges, log) && k < |edges|
    ensures edges[k].tick >= edges[0].tick + k
  {
    if k > 0 {
      FewRecentEdges(edges, log, k - 1);
    }
  }

  /** The ledger of every run from a fresh model: the scores sum to 4 successes minus 2
      ticks, and the recent edges are at most twelve distinct ordered pairs, each less
      than twelve ticks old. */
  lemma {:induction false} NamingLedger(trace: seq<State>, moves: seq<Move>, k: nat)
    requires Run(trace, moves) && k < |trace|
    ensures var s := trace[k];
            && TotalScore(s.players) == 4 * s.successes - 2 * s.tick && s.successes <= s.tick
            && |s.recentEdges| <= EDGE_AGE
            && (forall i :: 0 <= i < |s.recentEdges| ==>
                  var e := s.recentEdges[i];
                  e.ends.low < e.ends.high < s.config.agents && 0 <= s.tick - e.tick < EDGE_AGE
                  && e.age == s.tick - e.tick)
            && (forall i, j :: 0 <= i < j < |s.recentEdges| ==> s.recentEdges[i].ends != s.recentEdges[j].ends)
  {
    RunIsConsistent(trace, moves, k);
    assert Consistent(trace[k], LogOf(trace, moves, k));
    var s, log := trace[k], LogOf(trace, moves, k);
    RecentEdgesFit(s, log);
  }

  lemma {:induction false} RecentEdgesFit(s: State, log: seq<Meeting>)
    requires Consistent(s, log)
    ensures |s.recentEdges| <= EDGE_AGE
    ensures forall i :: 0 <= i < |s.recentEdges| ==>
                          var e := s.recentEdges[i];
                          e.ends.low < e.ends.high < s.config.agents && 0 <= s.tick - e.tick < EDGE_AGE
                          && e.age == s.tick - e.tick
  {
    forall i | 0 <= i < |s.recentEdges|
      ensures var e := s.recentEdges[i];
              e.ends.low < e.ends.high < s.config.agents && 0 <= s.tick - e.tick < EDGE_AGE && e.age == s.tick - e.tick
    {
      var e := s.recentEdges[i];
      assert Dated(e, log) && Logged(s.config, log[e.tick - 1], e.tick - 1);
    }
    if s.recentEdges != [] {
      FewRecentEdges(s.recentEdges, log, |s.recentEdges| - 1);
    }
  }

  // ----- loading a state -----

  predicate LoadablePlayer(c: Config, p: Player) {
    -LIMIT <= p.score <= LIMIT && |p.history| <= c.memory
  }

  predicate LoadableEdge(c: Config, tick: nat, e: Interaction) {
    e.ends.low < e.ends.high < c.agents && e.tick <= tick
  }

  predicate LoadableEvent(c: Config, m: Meeting) {
    m.first < c.agents && m.second < c.agents && m.first != m.second
  }

  /** Real meetings after the treatment, in strictly increasing order. */
  ghost predicate LoadableWindow(c: Config, tick: nat, start: nat, events: seq<Meeting>) {
    && (forall i {:trigger events[i]} :: 0 <= i < |events| ==>
          LoadableEvent(c, events[i]) && start < events[i].tick <= tick)
    && (forall i, j :: 0 <= i < j < |events| ==> events[i].tick < events[j].tick)
  }

  /** The checks of load_state on a candidate at a given time. */
  ghost predicate Loadable(s: State) {
    && |s.players| == s.config.agents
    && (forall i {:trigger s.players[i]} :: 0 <= i < |s.players| ==> LoadablePlayer(s.config, s.players[i]))
    && |s.recentEdges| <= EDGE_AGE
    && (forall i {:trigger s.recentEdges[i]} :: 0 <= i < |s.recentEdges| ==>
          LoadableEdge(s.config, s.tick, s.recentEdges[i]) && s.recentEdges[i].age == s.tick - s.recentEdges[i].tick)
    && (forall i, j :: 0 <= i < j < |s.recentEdges| ==> s.recentEdges[i].ends != s.recentEdges[j].ends)
    && s.successes <= LIMIT && s.treatmentTick <= s.tick
    && |s.events| <= 4 * s.config.agents
    && LoadableWindow(s.config, s.tick, s.treatmentTick, s.events)
  }

  /** load_state accepts every state of every run, up to the clock limit. */
  lemma {:induction false} ReachableIsLoadable(s: State, log: seq<Meeting>)
    requires Consistent(s, log) && s.tick <= LIMIT
    ensures Loadable(s)
  {
    forall i | 0 <= i < |s.players| ensures LoadablePlayer(s.config, s.players[i]) {
      assert Remembers(s.config, s.players[i], log, i);
    }
    RecentEdgesFit(s, log);
    var start := |log| - |s.events|;
    forall i | 0 <= i < |s.events| ensures LoadableEvent(s.config, s.events[i]) && s.events[i].tick == start + i + 1 {
      assert Logged(s.config, log[start + i], start + i);
    }
  }

  /** The new state assembled from its parts. */
  lemma {:induction false} InteractionByParts(s: State, a: nat, b: nat, x: Decision, y: Decision, players: seq<Player>,
                                              edges: seq<Interaction>, events: seq<Meeting>)
    requires Sound(s) && a < s.config.agents && b < s.config.agents && a != b
    requires var m := Met(s, a, b, x, y);
             && players == s.players[a := Remember(s.config, s.players[a], m, a, x)]
                                    [b := Remember(s.config, s.players[b], m, b, y)]
             && edges == Fading(s.recentEdges, s.tick + 1, m.Ends())
                         + [Interaction(m.Ends(), s.tick + 1, m.Success(), 0)]
             && events == LastOf(s.events + [m], 4 * s.config.agents)
    ensures Interacted(s, a, b, x, y)
            == State(s.config, players, s.tick + 1, s.successes + (if x.name == y.name then 1 else 0), edges,
                     Some(Met(s, a, b, x, y)), events, s.treatmentTick)
  {
  }

  // ----- the mutable model -----

  class NamingGame {
    var config: Config
    var players: seq<Player>
    var tick: nat
    var successes: nat
    var recentEdges: seq<Interaction>
    var lastInteraction: Option<Meeting>
    var events: seq<Meeting>
    var treatmentTick: nat
    var rng: nat
    var policyRng: nat
    var network: set<Edge>

    function View(): State
      reads this
    {
      State(config, players, tick, successes, recentEdges, lastInteraction, events, treatmentTick)
    }

    /** A fresh model with its contact network and its two independent random states. */
    constructor (config: Config, names: seq<Option<Name>>, network: set<Edge>, rng: nat, policyRng: nat)
      requires config.agents >= 2 && config.memory >= 1 && |names| == config.agents
      ensures Initial(View()) && this.config == config
      ensures this.network == network && this.rng == rng && this.policyRng == policyRng
      ensures forall i :: 0 <= i < |names| ==> players[i].name == names[i]
    {
      this.network := network;
      this.config, this.rng, this.policyRng := config, rng, policyRng;
      players := seq(|names|, i requires 0 <= i < |names| => Player(names[i], 0, [], Empty));
      tick, successes, treatmentTick := 0, 0, 0;
      recentEdges, events, lastInteraction := [], [], None;
    }

    /** Update one player and keep only its configured number of memories. */
    method RememberInteraction(i: nat, m: Meeting, d: Decision)
      requires i < |players|
      modifies this`players
      ensures players == old(players)[i := Remember(config, old(players)[i], m, i, d)]
    {
      var p := players[i];
      p := p.(name := Some(d.name), lastDecision := Taken(d));
      p := p.(score := p.score + if m.Success() then 1 else -1);
      p := p.(history := LastOf(p.history + [m.SeenBy(i)], config.memory));
      players := players[i := p];
    }

    method RememberBoth(m: Meeting, x: Decision, y: Decision)
      requires m.first < |players| && m.second < |players| && m.first != m.second
      modifies this`players
      ensures players == old(players)[m.first := Remember(config, old(players)[m.first], m, m.first, x)]
                                     [m.second := Remember(config, old(players)[m.second], m, m.second, y)]
    {
      RememberInteraction(m.first, m, x);
      RememberInteraction(m.second, m, y);
    }

    /** Retain one undirected edge per pair for the last twelve ticks. */
    method RecordEdge(m: Meeting)
      modifies this`recentEdges
      ensures recentEdges == Fading(old(recentEdges), tick, m.Ends()) + [Interaction(m.Ends(), tick, m.Success(), 0)]
    {
      var kept: seq<Interaction> := [];
      ghost var before := recentEdges;
      for k := 0 to |recentEdges|
        invariant kept == Fading(before[..k], tick, m.Ends())
      {
        assert before[..k + 1][..k] == before[..k];
        var contact := recentEdges[k];
        contact := contact.(age := tick - contact.tick);
        if contact.age < EDGE_AGE && contact.ends != m.Ends() {
          kept := kept + [contact];
        }
      }
      assert before[..|before|] == before;
      recentEdges := kept + [Interaction(m.Ends(), tick, m.Success(), 0)];
    }

    /** The model-wide records of one interaction: ledger, edges, last event, window. */
    method RecordInteraction(m: Meeting)
      requires |players| == config.agents
      modifies this`successes, this`recentEdges, this`lastInteraction, this`events
      ensures successes == old(successes) + if m.Success() then 1 else 0
      ensures recentEdges == Fading(old(recentEdges), tick, m.Ends()) + [Interaction(m.Ends(), tick, m.Success(), 0)]
      ensures lastInteraction == Some(m)
      ensures events == LastOf(old(events) + [m], 4 * config.agents)
    {
      successes := successes + if m.Success() then 1 else 0;
      RecordEdge(m);
      lastInteraction := Some(m);
      events := LastOf(events + [m], 4 * |players|);
    }

    /** Advance the clock and give both players the same payoff. */
    method ApplyInteraction(a: nat, b: nat, x: Decision, y: Decision)
      requires Sound(View()) && a < config.agents && b < config.agents && a != b
      modifies this`tick, this`players, this`successes, this`recentEdges, this`lastInteraction, this`events
      ensures View() == Interacted(old(View()), a, b, x, y)
    {
      tick := tick + 1;
      var m := Meeting(tick, a, b, x.name, y.name);
      RememberBoth(m, x, y);
      RecordInteraction(m);
      InteractionByParts(old(View()), a, b, x, y, players, recentEdges, events);
    }

    /** Branch at a checkpoint without replacing players, histories, clock or random states.
        A treatment that is no valid configuration changes nothing; `order` is the seeded
        shuffle of the players from which the new network is built. */
    method ApplyTreatment(treatment: Treatment, order: seq<nat>) returns (ok: bool)
      requires config.Accepted() && Permutation(order, config.agents)
      modifies this`config, this`network, this`treatmentTick, this`events
      ensures ok <==> Reconfigured(old(config), treatment).Accepted()
      ensures View() == if ok then Treated(old(View()), treatment) else old(View())
      ensures ok ==> treatmentTick == tick && events == []
      ensures ok ==> config == old(config).(topology := treatment.topology, committed := treatment.committed,
                                            committedName := treatment.name)
      ensures if ok then
                ContactNetworks.Network(treatment.topology, config.agents, config.degree, order, network)
              else network == old(network)
    {
      var candidate := Reconfigured(config, treatment);
      if candidate.committed >= candidate.agents {
        return false;
      }
      var created := ContactNetworks.CreateContactNetwork(candidate.topology, config.agents, config.degree, order);
      if created.None? {
        return false;
      }
      config, network := candidate, created.value;
      treatmentTick := tick;
      events := [];
      ok := true;
    }

    /** Validate a detached candidate, then install it; a rejected candidate changes
        nothing. Edge ages are recomputed from the clock. */
    method LoadState(candidate: State) returns (ok: bool)
      requires Sound(View())
      modifies this`players, this`successes, this`recentEdges, this`lastInteraction, this`treatmentTick, this`events
      ensures var t := candidate.(config := config, tick := tick, recentEdges := Aged(candidate.recentEdges, tick));
              && (ok <==> Loadable(t))
              && View() == if ok then t else old(View())
    {
      var edges := Aged(candidate.recentEdges, tick);
      var window := ValidateWindow(config, tick, candidate.treatmentTick, candidate.events);
      ok := |candidate.players| == config.agents
            && (forall i :: 0 <= i < |candidate.players| ==> LoadablePlayer(config, candidate.players[i]))
            && |edges| <= EDGE_AGE
            && (forall i :: 0 <= i < |edges| ==> LoadableEdge(config, tick, edges[i]))
            && (forall i, j :: 0 <= i < j < |edges| ==> edges[i].ends != edges[j].ends)
            && candidate.successes <= LIMIT && candidate.treatmentTick <= tick
            && |candidate.events| <= 4 * config.agents && window;
      if ok {
        players, successes, recentEdges := candidate.players, candidate.successes, edges;
        lastInteraction, treatmentTick, events := candidate.lastInteraction, candidate.treatmentTick, candidate.events;
      }
    }
  }

  /** The running check over a measurement window. */
  method ValidateWindow(c: Config, tick: nat, start: nat, events: seq<Meeting>) returns (ok: bool)
    ensures ok <==> LoadableWindow(c, tick, start, events)
  {
    var previous := start;
    for k := 0 to |events|
      invariant previous == if k == 0 then start else events[k - 1].tick
      invariant LoadableWindow(c, tick, start, events[..k])
    {
      var event := events[k];
      assert events[..k + 1] == events[..k] + [event];
      if !(previous + 1 <= event.tick <= tick) || !LoadableEvent(c, event) {
        return false;
      }
      previous := event.tick;
    }
    assert events[..|events|] == events;
    ok := true;
  }

  function Aged(edges: seq<Interaction>, tick: nat): seq<Interaction> {
    seq(|edges|, i requires 0 <= i < |edges| => edges[i].(age := tick - edges[i].tick))
  }
}
