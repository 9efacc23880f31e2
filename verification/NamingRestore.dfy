/** Restoring a naming game from its published scene: what the projection determines, for
    current scenes and for older scenes whose edges carry no dates. */
module NamingRestore {
  import opened Prelude
  import opened ContactGraphs
  import opened SceneRecords
  import opened Naming

  const NOTE_LIMIT := 160

  // ----- the published scene -----

  datatype PlayerItem = PlayerItem(name: Option<Name>, score: int, history: seq<Memory>, lastDecision: LastDecision)

  /** A published edge between two players; older scenes lack the dates. */
  datatype EdgeItem = EdgeItem(source: nat, target: nat, data: Option<(nat, bool)>)

  /** Presentation shortens a long note and ends it with an ellipsis. */
  function Shortened(note: Text): Text {
    if |note| > NOTE_LIMIT then note[..NOTE_LIMIT - 1] + [0x2026] else note
  }

  /** A published record always has a note: without a decision it is an empty one. */
  function Shown(d: LastDecision): LastDecision {
    match d
    case Empty => Noted([])
    case Noted(note) => Noted(Shortened(note))
    case Taken(decision) => Taken(decision.(note := Shortened(decision.note)))
  }

  function PlayerItemOf(p: Player): PlayerItem {
    PlayerItem(p.name, p.score, p.history, Shown(p.lastDecision))
  }

  function PlayerItems(s: State): map<nat, PlayerItem> {
    map i: nat | i < |s.players| :: PlayerItemOf(s.players[i])
  }

  /** The interaction layer keeps the order of the edges; either end may come first. */
  ghost predicate PublishesEdge(item: EdgeItem, e: Interaction) {
    && Link(item.source, item.target) == e.ends
    && (item.data.None? || item.data == Some((e.tick, e.success)))
  }

  /** The contacts list every edge of the network once, either end first. */
  ghost predicate ContactsOf(contacts: seq<(nat, nat)>, network: set<Edge>) {
    && (forall j, k :: 0 <= j < k < |contacts| ==>
          Link(contacts[j].0, contacts[j].1) != Link(contacts[k].0, contacts[k].1))
    && network == set k | 0 <= k < |contacts| :: Link(contacts[k].0, contacts[k].1)
  }

  /** Players in any order, contacts in any order, interactions in order. */
  ghost predicate Published(s: State, network: set<Edge>, players: seq<(nat, PlayerItem)>, contacts: seq<(nat, nat)>,
                            interactions: seq<EdgeItem>)
  {
    && Lists(players, PlayerItems(s))
    && ContactsOf(contacts, network)
    && |interactions| == |s.recentEdges|
    && forall k {:trigger interactions[k]} :: 0 <= k < |interactions| ==>
          PublishesEdge(interactions[k], s.recentEdges[k])
  }

  // ----- meetings recovered from the memories -----

  /** A meeting with its players in order, as both memories of it describe it. */
  function Canonical(m: Meeting): Meeting {
    if m.first <= m.second then m else Meeting(m.tick, m.second, m.first, m.secondName, m.firstName)
  }

  function Recalled(i: nat, e: Memory): Meeting {
    if i <= e.partner then Meeting(e.tick, i, e.partner, e.own, e.other)
    else Meeting(e.tick, e.partner, i, e.other, e.own)
  }

  lemma {:induction false} BothSidesAgree(m: Meeting, i: nat)
    requires m.Involves(i) && m.first != m.second
    ensures Recalled(i, m.SeenBy(i)) == Canonical(m)
  {
  }

  predicate ValidMemory(agents: nat, i: nat, e: Memory) {
    && e.partner < agents && e.partner != i
    && e.success == (e.own == e.other) && e.payoff == if e.success then 1 else -1
  }

  ghost predicate Fits(events: map<nat, Meeting>, i: nat, e: Memory) {
    e.tick in events && events[e.tick] == Recalled(i, e)
  }

  /** The map holds the meetings of the given memories, and nothing else. */
  ghost predicate Collected(players: seq<Player>, events: map<nat, Meeting>) {
    && (forall i, k {:trigger Fits(events, i, players[i].history[k])} ::
          0 <= i < |players| && 0 <= k < |players[i].history| ==> Fits(events, i, players[i].history[k]))
    && forall t :: t in events ==> events[t].tick == t && HeldBySome(players, t)
  }

  ghost predicate HeldBySome(players: seq<Player>, tick: nat) {
    exists i {:trigger players[i]} :: 0 <= i < |players| && Holds(players[i], tick)
  }

  /** Memories as a reachable state has them: every entry is a view of the log. */
  ghost predicate Faithful(c: Config, players: seq<Player>, log: seq<Meeting>) {
    && IsLog(c, log) && |players| == c.agents
    && forall i, k {:trigger Recalls(players[i].history[k], log, i)} ::
           0 <= i < |players| && 0 <= k < |players[i].history| ==> Recalls(players[i].history[k], log, i)
  }

  ghost predicate FromLog(events: map<nat, Meeting>, log: seq<Meeting>) {
    forall t {:trigger t in events} :: t in events ==> 1 <= t <= |log| && events[t] == Canonical(log[t - 1])
  }

  /** A memory as the restoration understands it: a valid view of a logged meeting. */
  ghost predicate Understood(c: Config, log: seq<Meeting>, i: nat, e: Memory) {
    ValidMemory(c.agents, i, e) && 1 <= e.tick <= |log| && Recalled(i, e) == Canonical(log[e.tick - 1])
  }

  lemma {:induction false} FaithfulMemories(c: Config, players: seq<Player>, log: seq<Meeting>)
    requires Faithful(c, players, log)
    ensures forall i, k {:trigger Understood(c, log, i, players[i].history[k])} ::
              0 <= i < |players| && 0 <= k < |players[i].history| ==> Understood(c, log, i, players[i].history[k])
  {
    forall i, k {:trigger Understood(c, log, i, players[i].history[k])} |
      0 <= i < |players| && 0 <= k < |players[i].history|
      ensures Understood(c, log, i, players[i].history[k])
    {
      var e := players[i].history[k];
      assert Recalls(e, log, i) && Logged(c, log[e.tick - 1], e.tick - 1);
      BothSidesAgree(log[e.tick - 1], i);
    }
  }

  ghost function Prefix(players: seq<Player>, i: nat, k: nat): seq<Player>
    requires i < |players| && k <= |players[i].history|
  {
    players[..i] + [players[i].(history := players[i].history[..k])]
  }

  lemma {:induction false} CollectNext(players: seq<Player>, i: nat, k: nat, events: map<nat, Meeting>)
    requires i < |players| && k < |players[i].history| && Collected(Prefix(players, i, k), events)
    requires var e := players[i].history[k]; e.tick in events ==> events[e.tick] == Recalled(i, e)
    ensures var e := players[i].history[k];
            Collected(Prefix(players, i, k + 1), events[e.tick := Recalled(i, e)])
  {
    var before, now, e := Prefix(players, i, k), Prefix(players, i, k + 1), players[i].history[k];
    var more := events[e.tick := Recalled(i, e)];
    forall j, l | 0 <= j < |now| && 0 <= l < |now[j].history| ensures Fits(more, j, now[j].history[l]) {
      if j == i && l == k {
        assert now[j].history[l] == e;
      } else {
        assert now[j].history[l] == before[j].history[l];
        assert Fits(events, j, before[j].history[l]);
      }
    }
    forall t | t in more ensures HeldBySome(now, t) {
      if t == e.tick {
        assert now[i].history[k].tick == t;
        assert Holds(now[i], t);
      } else {
        assert HeldBySome(before, t);
        var j :| 0 <= j < |before| && Holds(before[j], t);
        var l :| 0 <= l < |before[j].history| && before[j].history[l].tick == t;
        assert now[j].history[l].tick == t;
        assert Holds(now[j], t);
      }
    }
  }

  lemma {:induction false} SamePrefix(players: seq<Player>, i: nat, events: map<nat, Meeting>)
    requires i < |players| && Collected(players[..i], events)
    ensures Collected(Prefix(players, i, 0), events)
  {
    var before, now := players[..i], Prefix(players, i, 0);
    forall j, l | 0 <= j < |now| && 0 <= l < |now[j].history| ensures Fits(events, j, now[j].history[l]) {
      assert now[j] == before[j] && Fits(events, j, before[j].history[l]);
    }
    forall t | t in events ensures HeldBySome(now, t) {
      assert HeldBySome(before, t);
      var j :| 0 <= j < |before| && Holds(before[j], t);
      assert now[j] == before[j];
    }
  }

  /** Collect the memories of one player; an invalid or conflicting one rejects. */
  method CollectPlayer(c: Config, players: seq<Player>, i: nat, known: map<nat, Meeting>, ghost log: seq<Meeting>)
    returns (events: Option<map<nat, Meeting>>)
    requires i < |players| && Collected(Prefix(players, i, 0), known)
    requires Faithful(c, players, log) ==> FromLog(known, log)
    ensures events.Some? ==> Collected(Prefix(players, i, |players[i].history|), events.value)
    ensures Faithful(c, players, log) ==> events.Some? && FromLog(events.value, log)
  {
    var found: map<nat, Meeting> := known;
    for k := 0 to |players[i].history|
      invariant Collected(Prefix(players, i, k), found)
      invariant Faithful(c, players, log) ==> FromLog(found, log)
    {
      var e := players[i].history[k];
      if Faithful(c, players, log) {
        FaithfulMemories(c, players, log);
        assert Understood(c, log, i, e);
      }
      if !ValidMemory(c.agents, i, e) || (e.tick in found && found[e.tick] != Recalled(i, e)) {
        return None;
      }
      CollectNext(players, i, k, found);
      found := found[e.tick := Recalled(i, e)];
    }
    events := Some(found);
  }

  method CollectMeetings(c: Config, players: seq<Player>, ghost log: seq<Meeting>)
    returns (events: Option<map<nat, Meeting>>)
    ensures events.Some? ==> Collected(players, events.value)
    ensures Faithful(c, players, log) ==> events.Some? && FromLog(events.value, log)
  {
    var found: map<nat, Meeting> := map[];
    for i := 0 to |players|
      invariant Collected(players[..i], found)
      invariant Faithful(c, players, log) ==> FromLog(found, log)
    {
      SamePrefix(players, i, found);
      var more := CollectPlayer(c, players, i, found, log);
      if more.None? {
        return None;
      }
      found := more.value;
      assert players[i].(history := players[i].history[..|players[i].history|]) == players[i];
      assert Prefix(players, i, |players[i].history|) == players[..i + 1];
    }
    assert players[..|players|] == players;
    events := Some(found);
  }

  // ----- dating the recent edges -----

  /** The latest collected meeting of a pair. */
  function LatestOf(events: map<nat, Meeting>, ends: Edge, upto: nat): Option<nat> {
    if upto == 0 then None
    else if upto in events && events[upto].Ends() == ends then Some(upto)
    else LatestOf(events, ends, upto - 1)
  }

  lemma {:induction false} LatestOfIsLatest(events: map<nat, Meeting>, ends: Edge, upto: nat)
    ensures var latest := LatestOf(events, ends, upto);
            if latest.Some? then
              && 1 <= latest.value <= upto && latest.value in events && events[latest.value].Ends() == ends
              && forall t :: latest.value < t <= upto && t in events ==> events[t].Ends() != ends
            else forall t :: 1 <= t <= upto && t in events ==> events[t].Ends() != ends
  {
    if upto > 0 {
      LatestOfIsLatest(events, ends, upto - 1);
    }
  }

  function EdgeData(item: EdgeItem, events: map<nat, Meeting>, tick: nat): Option<(nat, bool)> {
    if item.data.Some? then item.data
    else
      var latest := LatestOf(events, Link(item.source, item.target), tick);
      if latest.None? || latest.value !in events then None else Some((latest.value, events[latest.value].Success()))
  }

  /** One edge of the interaction layer, or nothing if it is malformed or cannot be dated. */
  function RestoredEdge(agents: nat, tick: nat, item: EdgeItem, events: map<nat, Meeting>): Option<Interaction> {
    if item.source >= agents || item.target >= agents || item.source == item.target then None
    else
      var data := EdgeData(item, events, tick);
      if data.None? || !(1 <= data.value.0 <= tick && tick - data.value.0 < EDGE_AGE) then None
      else Some(Interaction(Link(item.source, item.target), data.value.0, data.value.1, tick - data.value.0))
  }

  /** A published edge can be dated: it carries its date, or a memory still holds it. */
  predicate Datable(s: State, item: EdgeItem, e: Interaction) {
    || item.data.Some?
    || exists i {:trigger s.players[i]} :: 0 <= i < |s.players| && Holds(s.players[i], e.tick)
  }

  lemma {:induction false} HeldIsCollected(players: seq<Player>, events: map<nat, Meeting>, tick: nat)
    requires Collected(players, events)
    ensures tick in events <==> HeldBySome(players, tick)
  {
    if HeldBySome(players, tick) {
      var i :| 0 <= i < |players| && Holds(players[i], tick);
      var k :| 0 <= k < |players[i].history| && players[i].history[k].tick == tick;
      assert Fits(events, i, players[i].history[k]);
    }
  }

  /** A remembered earlier meeting of the pair means the edge's own meeting is remembered. */
  lemma {:induction false} EarlierMeansCollected(
        s: State, log: seq<Meeting>, events: map<nat, Meeting>, e: Interaction, t: nat)
    requires Consistent(s, log) && Collected(s.players, events) && FromLog(events, log)
    requires Dated(e, log) && t in events && events[t].Ends() == e.ends
    ensures t <= e.tick && e.tick in events
  {
    assert Logged(s.config, log[t - 1], t - 1) && Logged(s.config, log[e.tick - 1], e.tick - 1);
    assert log[t - 1].Ends() == e.ends;
    assert HeldBySome(s.players, t);
    var i :| 0 <= i < |s.players| && Holds(s.players[i], t);
    var k :| 0 <= k < |s.players[i].history| && s.players[i].history[k].tick == t;
    assert Remembers(s.config, s.players[i], log, i) && NoGaps(s.players[i], log, i);
    assert Recalls(s.players[i].history[k], log, i) && log[t - 1].Involves(i);
    assert log[e.tick - 1].Involves(i);
    assert s.players[i].history[0].tick <= t;
    assert Holds(s.players[i], e.tick);
    HeldIsCollected(s.players, events, e.tick);
  }

  /** An edge of a reachable state comes back exactly, or is rejected when it carries no
      date and every memory of its meeting is gone; it is never dated wrongly. */
  lemma {:induction false} EdgeComesBackIff(s: State, log: seq<Meeting>, events: map<nat, Meeting>, item: EdgeItem,
                                            e: Interaction)
    requires Consistent(s, log) && Collected(s.players, events) && FromLog(events, log)
    requires Dated(e, log) && PublishesEdge(item, e)
    ensures RestoredEdge(s.config.agents, s.tick, item, events) == if Datable(s, item, e) then Some(e) else None
  {
    assert Logged(s.config, log[e.tick - 1], e.tick - 1);
    HeldIsCollected(s.players, events, e.tick);
    if item.data.None? {
      LatestOfIsLatest(events, e.ends, s.tick);
      var latest := LatestOf(events, e.ends, s.tick);
      if latest.Some? {
        EarlierMeansCollected(s, log, events, e, latest.value);
      }
      if e.tick in events {
        assert events[e.tick] == Canonical(log[e.tick - 1]) && events[e.tick].Ends() == e.ends;
      }
    }
  }

  /** The edges of a scene, all of them or none. */
  predicate RestoredEdges(agents: nat, tick: nat, items: seq<EdgeItem>, events: map<nat, Meeting>,
                          edges: Option<seq<Interaction>>)
  {
    && (edges.Some? <==> forall k {:trigger items[k]} :: 0 <= k < |items| ==>
                           RestoredEdge(agents, tick, items[k], events).Some?)
    && (edges.Some? ==> |edges.value| == |items| && forall k {:trigger edges.value[k]} :: 0 <= k < |items| ==>
                          Some(edges.value[k]) == RestoredEdge(agents, tick, items[k], events))
  }

  method RestoreEdges(agents: nat, tick: nat, items: seq<EdgeItem>, events: map<nat, Meeting>)
    returns (edges: Option<seq<Interaction>>)
    ensures RestoredEdges(agents, tick, items, events, edges)
  {
    var found: seq<Interaction> := [];
    for k := 0 to |items|
      invariant |found| == k
      invariant forall j {:trigger items[j]} :: 0 <= j < k ==> RestoredEdge(agents, tick, items[j], events).Some?
      invariant forall j {:trigger found[j]} :: 0 <= j < k ==>
                  Some(found[j]) == RestoredEdge(agents, tick, items[j], events)
    {
      var edge := RestoredEdge(agents, tick, items[k], events);
      if edge.None? {
        return None;
      }
      found := found + [edge.value];
    }
    edges := Some(found);
  }

  // ----- the measurement window -----

  /** The collected meetings less than four rounds old, in order of their ticks. */
  function Rebuilt(events: map<nat, Meeting>, agents: nat, tick: nat, upto: nat): seq<Meeting> {
    if upto == 0 then []
    else
      Rebuilt(events, agents, tick, upto - 1)
      + if upto in events && tick - upto < 4 * agents then [events[upto]] else []
  }

  lemma {:induction false} RebuiltFitsWindow(c: Config, log: seq<Meeting>, events: map<nat, Meeting>, tick: nat,
                                             upto: nat)
    requires IsLog(c, log) && FromLog(events, log) && upto <= tick == |log|
    ensures var window := Rebuilt(events, c.agents, tick, upto);
            && |window| <= (if upto + 4 * c.agents > tick then upto + 4 * c.agents - tick else 0)
            && (forall k {:trigger window[k]} :: 0 <= k < |window| ==>
                  LoadableEvent(c, window[k]) && 0 < window[k].tick <= upto && window[k].tick <= |log|
                  && window[k] == Canonical(log[window[k].tick - 1]))
            && forall j, k :: 0 <= j < k < |window| ==> window[j].tick < window[k].tick
  {
    if upto > 0 {
      RebuiltFitsWindow(c, log, events, tick, upto - 1);
      if upto in events {
        assert Logged(c, log[upto - 1], upto - 1);
      }
    }
  }

  predicate Dates(window: seq<Meeting>, tick: nat) {
    exists k :: 0 <= k < |window| && window[k].tick == tick
  }

  lemma {:induction false} OneMoreDates(window: seq<Meeting>, m: Meeting)
    ensures forall t: nat {:trigger Dates(window + [m], t)} ::
              Dates(window + [m], t) <==> Dates(window, t) || t == m.tick
  {
    var longer := window + [m];
    forall t: nat {:trigger Dates(longer, t)} | Dates(window, t) || t == m.tick ensures Dates(longer, t) {
      if k :| 0 <= k < |window| && window[k].tick == t {
        assert longer[k] == window[k];
      } else {
        assert longer[|window|] == m;
      }
    }
  }

  /** No collected meeting of the last four rounds is missing. */
  lemma {:induction false} RebuiltIsWhole(events: map<nat, Meeting>, agents: nat, tick: nat, upto: nat)
    requires forall t :: t in events ==> events[t].tick == t
    ensures forall t: nat {:trigger Dates(Rebuilt(events, agents, tick, upto), t)} ::
              Dates(Rebuilt(events, agents, tick, upto), t) <==>
              1 <= t <= upto && t in events && tick - t < 4 * agents
  {
    if upto > 0 {
      RebuiltIsWhole(events, agents, tick, upto - 1);
      if upto in events && tick - upto < 4 * agents {
        OneMoreDates(Rebuilt(events, agents, tick, upto - 1), events[upto]);
      } else {
        assert Rebuilt(events, agents, tick, upto) == Rebuilt(events, agents, tick, upto - 1);
      }
    }
  }

  /** The window holds, in order, exactly the meetings of the last four rounds that some player
      still remembers. */
  ghost predicate RememberedWindow(c: Config, now: nat, players: seq<Player>, window: seq<Meeting>) {
    && (forall j, k :: 0 <= j < k < |window| ==> window[j].tick < window[k].tick)
    && forall t: nat {:trigger Dates(window, t)} ::
         Dates(window, t) <==> t <= now && now - t < 4 * c.agents && HeldBySome(players, t)
  }

  lemma {:induction false} RebuiltIsRemembered(c: Config, log: seq<Meeting>, players: seq<Player>,
                                               events: map<nat, Meeting>, tick: nat)
    requires IsLog(c, log) && FromLog(events, log) && Collected(players, events) && tick == |log|
    ensures RememberedWindow(c, tick, players, Rebuilt(events, c.agents, tick, tick))
  {
    RebuiltFitsWindow(c, log, events, tick, tick);
    RebuiltIsWhole(events, c.agents, tick, tick);
    forall t: nat {:trigger Dates(Rebuilt(events, c.agents, tick, tick), t)}
      ensures Dates(Rebuilt(events, c.agents, tick, tick), t) <==>
              t <= tick && tick - t < 4 * c.agents && HeldBySome(players, t)
    {
      HeldIsCollected(players, events, t);
    }
  }

  // ----- the restoration -----

  ghost function TicksOf(history: seq<Memory>): seq<nat> {
    seq(|history|, k requires 0 <= k < |history| => history[k].tick)
  }

  ghost predicate ValidItem(c: Config, tick: nat, item: PlayerItem) {
    -(tick as int) <= item.score <= tick && ValidTicks(TicksOf(item.history), c.memory, tick)
  }

  function PlayerOf(item: PlayerItem): Player {
    Player(item.name, item.score, item.history, item.lastDecision)
  }

  /** Read the players in order of identity. */
  method RebuildPlayers(c: Config, tick: nat, items: map<nat, PlayerItem>) returns (players: Option<seq<Player>>)
    requires forall i :: i in items <==> 0 <= i < c.agents
    ensures players.Some? <==> forall i {:trigger items[i]} :: 0 <= i < c.agents ==> ValidItem(c, tick, items[i])
    ensures players.Some? ==> |players.value| == c.agents
                              && forall i {:trigger players.value[i]} :: 0 <= i < c.agents ==>
                                     players.value[i] == PlayerOf(items[i])
  {
    var found: seq<Player> := [];
    for i := 0 to c.agents
      invariant |found| == i
      invariant forall j {:trigger items[j]} :: 0 <= j < i ==> ValidItem(c, tick, items[j])
      invariant forall j {:trigger found[j]} :: 0 <= j < i ==> found[j] == PlayerOf(items[j])
    {
      var item := items[i];
      var ticks: seq<nat> := seq(|item.history|, k requires 0 <= k < |item.history| => item.history[k].tick);
      assert ticks == TicksOf(item.history);
      var ordered := ValidateHistory(ticks, c.memory, tick);
      if !ordered || !(-(tick as int) <= item.score <= tick) {
        return None;
      }
      found := found + [PlayerOf(item)];
    }
    players := Some(found);
  }

  method SumScores(players: seq<Player>) returns (total: int)
    ensures total == TotalScore(players)
  {
    total := 0;
    for i := 0 to |players|
      invariant total == TotalScore(players[..i])
    {
      assert players[..i + 1][..i] == players[..i];
      total := total + players[i].score;
    }
    assert players[..|players|] == players;
  }

  /** What the published scene brings back of a reachable state: players exactly but for the
      record of the last decision, which comes back as shown, an empty one as an empty note;
      successes and recent edges exactly; the last interaction up to the order of its
      players; and a measurement window of the remembered meetings of the last four rounds. */
  ghost predicate RecoveredFrom(s: State, log: seq<Meeting>, t: State) {
    && t.config == s.config && t.tick == s.tick && t.successes == s.successes
    && |t.players| == |s.players|
    && (forall i {:trigger t.players[i]} :: 0 <= i < |t.players| ==>
          t.players[i] == s.players[i].(lastDecision := Shown(s.players[i].lastDecision)))
    && t.recentEdges == s.recentEdges
    && t.lastInteraction == (if s.lastInteraction.None? then None else Some(Canonical(s.lastInteraction.value)))
    && t.treatmentTick == 0 && RememberedWindow(t.config, t.tick, t.players, t.events)
    && forall k {:trigger t.events[k]} :: 0 <= k < |t.events| ==>
           1 <= t.events[k].tick <= |log| && t.events[k] == Canonical(log[t.events[k].tick - 1])
  }

  ghost predicate SceneOf(c: Config, tick: nat, network: set<Edge>, players: seq<(nat, PlayerItem)>,
                          contacts: seq<(nat, nat)>, interactions: seq<EdgeItem>, s: State, log: seq<Meeting>)
  {
    && Consistent(s, log) && s.config == c && s.tick == tick <= LIMIT
    && Published(s, network, players, contacts, interactions)
  }

  ghost predicate AllDatable(s: State, interactions: seq<EdgeItem>) {
    |interactions| == |s.recentEdges|
    && forall k {:trigger interactions[k]} :: 0 <= k < |interactions| ==> Datable(s, interactions[k], s.recentEdges[k])
  }

  lemma {:induction false} SceneItemsAreValid(s: State, log: seq<Meeting>)
    requires Consistent(s, log)
    ensures PlayerItems(s).Keys == Numbers(s.config.agents)
    ensures forall i: nat :: i < s.config.agents ==> ValidItem(s.config, s.tick, PlayerItems(s)[i])
  {
    forall i: nat | i < s.config.agents ensures ValidItem(s.config, s.tick, PlayerItems(s)[i]) {
      var h := s.players[i].history;
      assert Remembers(s.config, s.players[i], log, i);
      forall k | 0 <= k < |h| ensures 1 <= h[k].tick <= s.tick {
        assert Recalls(h[k], log, i);
      }
    }
  }

  lemma {:induction false} DecodedIsFaithful(s: State, log: seq<Meeting>, players: seq<Player>)
    requires Consistent(s, log) && |players| == |s.players|
    requires forall i {:trigger players[i]} :: 0 <= i < |players| ==> players[i] == PlayerOf(PlayerItemOf(s.players[i]))
    ensures Faithful(s.config, players, log) && TotalScore(players) == TotalScore(s.players)
  {
    forall i, k | 0 <= i < |players| && 0 <= k < |players[i].history| ensures Recalls(players[i].history[k], log, i) {
      assert Remembers(s.config, s.players[i], log, i) && Recalls(s.players[i].history[k], log, i);
    }
    SameScores(players, s.players);
  }

  lemma {:induction false} SameScores(p: seq<Player>, q: seq<Player>)
    requires |p| == |q| && forall i {:trigger p[i]} :: 0 <= i < |p| ==> p[i].score == q[i].score
    ensures TotalScore(p) == TotalScore(q)
    decreases |p|
  {
    if p != [] {
      SameScores(p[..|p| - 1], q[..|q| - 1]);
    }
  }

  /** The decoded memories are those of the state, so they collect the same meetings. */
  lemma {:induction false} CollectedSameHistories(p: seq<Player>, q: seq<Player>, events: map<nat, Meeting>)
    requires |p| == |q| && forall i {:trigger p[i]} :: 0 <= i < |p| ==> p[i].history == q[i].history
    requires Collected(p, events)
    ensures Collected(q, events)
  {
    forall i, k | 0 <= i < |q| && 0 <= k < |q[i].history| ensures Fits(events, i, q[i].history[k]) {
      assert p[i].history == q[i].history && Fits(events, i, p[i].history[k]);
    }
    forall t | t in events ensures HeldBySome(q, t) {
      assert HeldBySome(p, t);
      var i :| 0 <= i < |p| && Holds(p[i], t);
      assert Holds(q[i], t);
    }
  }

  /** The players of a scene, or nothing if the layer is malformed. */
  method DecodePlayers(c: Config, tick: nat, items: seq<(nat, PlayerItem)>, ghost s: State, ghost log: seq<Meeting>)
    returns (players: Option<seq<Player>>)
    ensures players.Some? ==> |players.value| == c.agents
    ensures players.Some? ==> forall i {:trigger players.value[i]} :: 0 <= i < c.agents ==>
              -(tick as int) <= players.value[i].score <= tick && |players.value[i].history| <= c.memory
    ensures Consistent(s, log) && s.config == c && s.tick == tick && Lists(items, PlayerItems(s)) ==>
              players.Some? && forall i {:trigger players.value[i]} :: 0 <= i < c.agents ==>
                                   players.value[i] == PlayerOf(PlayerItemOf(s.players[i]))
  {
    var found := Records(items);
    if Consistent(s, log) && s.config == c && s.tick == tick && Lists(items, PlayerItems(s)) {
      ListsIsUnique(items, found.value, PlayerItems(s));
      assert PlayerItems(s).Keys == Numbers(c.agents);
      SceneItemsAreValid(s, log);
    }
    if found.None? || found.value.Keys != Numbers(c.agents) {
      return None;
    }
    players := RebuildPlayers(c, tick, found.value);
    if players.Some? {
      forall i | 0 <= i < c.agents
        ensures -(tick as int) <= players.value[i].score <= tick && |players.value[i].history| <= c.memory
      {
        assert ValidItem(c, tick, found.value[i]) && players.value[i] == PlayerOf(found.value[i]);
      }
    }
  }

  /** The published contacts must be exactly the active network. */
  method ContactsMatch(contacts: seq<(nat, nat)>, network: set<Edge>) returns (ok: bool)
    ensures ok <==> ContactsOf(contacts, network)
  {
    var found: set<Edge> := {};
    for k := 0 to |contacts|
      invariant found == set j | 0 <= j < k :: Link(contacts[j].0, contacts[j].1)
      invariant forall i, j :: 0 <= i < j < k ==>
                Link(contacts[i].0, contacts[i].1) != Link(contacts[j].0, contacts[j].1)
    {
      var pair := Link(contacts[k].0, contacts[k].1);
      if pair in found {
        return false;
      }
      found := found + {pair};
    }
    ok := found == network;
  }

  lemma {:induction false} SceneEdges(s: State, log: seq<Meeting>, interactions: seq<EdgeItem>, players: seq<Player>,
                                      events: map<nat, Meeting>)
    requires Consistent(s, log) && |interactions| == |s.recentEdges|
    requires forall k {:trigger interactions[k]} :: 0 <= k < |interactions| ==>
               PublishesEdge(interactions[k], s.recentEdges[k])
    requires |players| == |s.players| && forall i :: 0 <= i < |players| ==> players[i].history == s.players[i].history
    requires Collected(players, events) && FromLog(events, log)
    ensures forall k {:trigger interactions[k]} :: 0 <= k < |interactions| ==>
              RestoredEdge(s.config.agents, s.tick, interactions[k], events)
              == if Datable(s, interactions[k], s.recentEdges[k]) then Some(s.recentEdges[k]) else None
    ensures s.lastInteraction == None ==> s.tick !in events
    ensures s.lastInteraction != None ==> s.tick in events && events[s.tick] == Canonical(s.lastInteraction.value)
  {
    CollectedSameHistories(players, s.players, events);
    forall k | 0 <= k < |interactions|
      ensures RestoredEdge(s.config.agents, s.tick, interactions[k], events)
              == if Datable(s, interactions[k], s.recentEdges[k]) then Some(s.recentEdges[k]) else None
    {
      assert Dated(s.recentEdges[k], log);
      EdgeComesBackIff(s, log, events, interactions[k], s.recentEdges[k]);
    }
    if log != [] {
      LastMeetingHeld(s, log);
      HeldIsCollected(s.players, events, s.tick);
    }
  }

  lemma {:induction false} LastMeetingHeld(s: State, log: seq<Meeting>)
    requires Consistent(s, log) && log != []
    ensures HeldBySome(s.players, |log|)
  {
    var m := log[|log| - 1];
    assert Logged(s.config, m, |log| - 1) && m.Involves(m.first);
    var p := s.players[m.first];
    assert NoGaps(p, log, m.first) && Remembers(s.config, p, log, m.first);
    assert Recalls(p.history[0], log, m.first);
    assert Holds(p, |log|);
  }

  /** The candidate assembled from a decoded scene. */
  function Candidate(c: Config, tick: nat, players: seq<Player>, total: nat, edges: seq<Interaction>,
                     events: map<nat, Meeting>): State
  {
    State(c, players, tick, total / 4, edges, if tick in events then Some(events[tick]) else None,
          Rebuilt(events, c.agents, tick, tick), 0)
  }

  lemma {:induction false} CandidateIsLoadable(s: State, log: seq<Meeting>, t: State)
    requires Consistent(s, log) && s.tick <= LIMIT
    requires t.config == s.config && t.tick == s.tick && t.recentEdges == s.recentEdges && t.treatmentTick == 0
    requires t.successes == s.successes && |t.players| == |s.players|
    requires forall i {:trigger t.players[i]} :: 0 <= i < |t.players| ==>
               t.players[i].score == s.players[i].score && t.players[i].history == s.players[i].history
    requires |t.events| <= 4 * t.config.agents
    requires forall i {:trigger t.events[i]} :: 0 <= i < |t.events| ==>
               LoadableEvent(t.config, t.events[i]) && 0 < t.events[i].tick <= t.tick
    requires forall i, j :: 0 <= i < j < |t.events| ==> t.events[i].tick < t.events[j].tick
    ensures Loadable(t) && Aged(t.recentEdges, t.tick) == t.recentEdges
  {
    ReachableIsLoadable(s, log);
    forall i | 0 <= i < |t.players| ensures LoadablePlayer(t.config, t.players[i]) {
      assert LoadablePlayer(s.config, s.players[i]);
    }
    assert forall k :: 0 <= k < |t.recentEdges| ==> t.recentEdges[k].age == t.tick - t.recentEdges[k].tick;
  }

  lemma {:induction false} CandidateIsRecovered(s: State, log: seq<Meeting>, interactions: seq<EdgeItem>,
                                                players: seq<Player>, events: map<nat, Meeting>, total: nat)
    requires Consistent(s, log) && s.tick <= LIMIT && AllDatable(s, interactions)
    requires |players| == |s.players|
    requires forall i {:trigger players[i]} :: 0 <= i < |players| ==> players[i] == PlayerOf(PlayerItemOf(s.players[i]))
    requires total == TotalScore(players) + 2 * s.tick
    requires Collected(players, events) && FromLog(events, log)
    requires forall k {:trigger interactions[k]} :: 0 <= k < |interactions| ==>
               PublishesEdge(interactions[k], s.recentEdges[k])
    ensures var t := Candidate(s.config, s.tick, players, total, s.recentEdges, events);
            RecoveredFrom(s, log, t) && Loadable(t) && Aged(t.recentEdges, t.tick) == t.recentEdges
  {
    DecodedIsFaithful(s, log, players);
    SceneEdges(s, log, interactions, players, events);
    RebuiltFitsWindow(s.config, log, events, s.tick, s.tick);
    RebuiltIsRemembered(s.config, log, players, events, s.tick);
    CandidateIsLoadable(s, log, Candidate(s.config, s.tick, players, total, s.recentEdges, events));
  }

  /** A restored game publishes the players of the scene it was restored from. */
  lemma {:induction false} PublishesAgain(s: State, log: seq<Meeting>, t: State)
    requires RecoveredFrom(s, log, t)
    ensures PlayerItems(t) == PlayerItems(s)
  {
    forall i: nat | i < |s.players| ensures PlayerItemOf(t.players[i]) == PlayerItemOf(s.players[i]) {
      assert t.players[i] == s.players[i].(lastDecision := Shown(s.players[i].lastDecision));
    }
  }

  /** A candidate that brings a reachable state back and that the load check leaves as it is. */
  ghost predicate Restores(s: State, log: seq<Meeting>, t: State) {
    RecoveredFrom(s, log, t) && Loadable(t) && Aged(t.recentEdges, t.tick) == t.recentEdges
  }

  /** The players of a genuine scene, and the meetings that they remember. */
  ghost predicate Gathered(s: State, log: seq<Meeting>, players: seq<Player>, events: map<nat, Meeting>) {
    && |players| == |s.players|
    && (forall i {:trigger players[i]} :: 0 <= i < |players| ==> players[i] == PlayerOf(PlayerItemOf(s.players[i])))
    && Collected(players, events) && FromLog(events, log)
  }

  method DecodeMemories(c: Config, tick: nat, items: seq<(nat, PlayerItem)>, ghost s: State, ghost log: seq<Meeting>)
    returns (players: Option<seq<Player>>, events: map<nat, Meeting>)
    ensures Consistent(s, log) && s.config == c && s.tick == tick && Lists(items, PlayerItems(s)) ==>
              players.Some? && Gathered(s, log, players.value, events)
  {
    events := map[];
    players := DecodePlayers(c, tick, items, s, log);
    if players.Some? {
      if Consistent(s, log) && s.config == c && s.tick == tick && Lists(items, PlayerItems(s)) {
        DecodedIsFaithful(s, log, players.value);
      }
      var collected := CollectMeetings(c, players.value, log);
      if collected.None? {
        return None, map[];
      }
      events := collected.value;
    }
  }

  lemma {:induction false} DatableEdgesComeBack(s: State, items: seq<EdgeItem>, events: map<nat, Meeting>,
                                                edges: Option<seq<Interaction>>)
    requires |items| == |s.recentEdges| && RestoredEdges(s.config.agents, s.tick, items, events, edges)
    requires forall k {:trigger items[k]} :: 0 <= k < |items| ==>
               RestoredEdge(s.config.agents, s.tick, items[k], events)
               == if Datable(s, items[k], s.recentEdges[k]) then Some(s.recentEdges[k]) else None
    ensures edges == if AllDatable(s, items) then Some(s.recentEdges) else None
  {
    if edges.Some? {
      forall k | 0 <= k < |items| ensures Datable(s, items[k], s.recentEdges[k]) && edges.value[k] == s.recentEdges[k] {
        assert RestoredEdge(s.config.agents, s.tick, items[k], events).Some?;
      }
      assert edges.value == s.recentEdges;
    }
  }

  /** Of a genuine scene with decoded players and their meetings, the edges decide alone. */
  lemma {:induction false} EdgesDecide(s: State, log: seq<Meeting>, interactions: seq<EdgeItem>, players: seq<Player>,
                                       events: map<nat, Meeting>, edges: Option<seq<Interaction>>)
    requires Consistent(s, log) && s.tick <= LIMIT && Gathered(s, log, players, events)
    requires |interactions| == |s.recentEdges|
    requires forall k {:trigger interactions[k]} :: 0 <= k < |interactions| ==>
               PublishesEdge(interactions[k], s.recentEdges[k])
    requires RestoredEdges(s.config.agents, s.tick, interactions, events, edges)
    ensures edges == if AllDatable(s, interactions) then Some(s.recentEdges) else None
    ensures edges.Some? ==>
              var total := TotalScore(players) + 2 * s.tick;
              && total % 4 == 0 && 0 <= total / 4 <= s.tick
              && Restores(s, log, Candidate(s.config, s.tick, players, total, edges.value, events))
  {
    SceneEdges(s, log, interactions, players, events);
    DatableEdgesComeBack(s, interactions, events, edges);
    if edges.Some? {
      ScoresFit(s, log, players);
      CandidateIsRecovered(s, log, interactions, players, events, TotalScore(players) + 2 * s.tick);
    }
  }

  lemma {:induction false} ScoresFit(s: State, log: seq<Meeting>, players: seq<Player>)
    requires Consistent(s, log) && |players| == |s.players|
    requires forall i {:trigger players[i]} :: 0 <= i < |players| ==> players[i] == PlayerOf(PlayerItemOf(s.players[i]))
    ensures var total := TotalScore(players) + 2 * s.tick;
            total % 4 == 0 && 0 <= total / 4 <= s.tick
  {
    DecodedIsFaithful(s, log, players);
  }

  /** The candidate that a scene describes, or nothing if the scene is malformed. */
  method DecodeScene(c: Config, tick: nat, network: set<Edge>, players: seq<(nat, PlayerItem)>,
                     contacts: seq<(nat, nat)>, interactions: seq<EdgeItem>, ghost s: State, ghost log: seq<Meeting>)
    returns (candidate: Option<State>)
    ensures candidate.Some? ==> candidate.value.config == c && candidate.value.tick == tick
    ensures SceneOf(c, tick, network, players, contacts, interactions, s, log) ==>
              (candidate.Some? <==> AllDatable(s, interactions))
              && (candidate.Some? ==> Restores(s, log, candidate.value))
  {
    var decoded, events := DecodeMemories(c, tick, players, s, log);
    var matching := ContactsMatch(contacts, network);
    if decoded.None? || !matching {
      return None;
    }
    var edges := RestoreEdges(c.agents, tick, interactions, events);
    var score := SumScores(decoded.value);
    if SceneOf(c, tick, network, players, contacts, interactions, s, log) {
      EdgesDecide(s, log, interactions, decoded.value, events, edges);
    }
    var total := score + 2 * tick;
    if edges.None? || total % 4 != 0 || !(0 <= total / 4 <= tick) {
      return None;
    }
    candidate := Some(Candidate(c, tick, decoded.value, total, edges.value, events));
  }

  /** Restore the game from a scene at its current time. A malformed scene changes nothing.
      The scene of a reachable state is accepted exactly when every recent edge is dated or
      still remembered, and then brings the state back. */
  method RestoreLayers(model: NamingGame, players: seq<(nat, PlayerItem)>, contacts: seq<(nat, nat)>,
                       interactions: seq<EdgeItem>, ghost s: State, ghost log: seq<Meeting>)
    returns (ok: bool)
    requires Sound(model.View())
    modifies model`players, model`successes, model`recentEdges
    modifies model`lastInteraction, model`treatmentTick, model`events
    ensures !ok ==> model.View() == old(model.View())
    ensures ok ==> Loadable(model.View())
    ensures SceneOf(model.config, model.tick, model.network, players, contacts, interactions, s, log) ==>
              (ok <==> AllDatable(s, interactions)) && (ok ==> RecoveredFrom(s, log, model.View()))
  {
    var candidate := DecodeScene(model.config, model.tick, model.network, players, contacts, interactions, s, log);
    if candidate.None? {
      return false;
    }
    ok := model.LoadState(candidate.value);
  }
}
