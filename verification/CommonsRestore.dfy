/** Restoring a commons model from its published scene: the inverse of the projection,
    and exactly when the message queue comes back whole. */
module CommonsRestore {
  import opened Prelude
  import opened Landscape
  import opened Commons
  import opened CommonsMemory
  import opened SceneRecords

  // ----- the published scene -----

  datatype CellItem = CellItem(x: int, y: int, value: int, fertile: bool)

  datatype AgentItem = AgentItem(
    x: int,
    y: int,
    harvested: int,
    lastAction: Action,
    message: Text,
    history: seq<Event>)

  /** Model rows run downwards, scene rows upwards. */
  function SceneRow(land: Land, y: int): int {
    land.height - 1 - y
  }

  function CellItems(s: State): map<Cell, CellItem> {
    map c | c in s.resources :: CellItem(c.0, SceneRow(s.config.land, c.1), s.resources[c], c in s.config.land.fertile)
  }

  function AgentItemOf(land: Land, p: Harvester): AgentItem {
    AgentItem(p.position.0, SceneRow(land, p.position.1), p.harvested, p.lastAction, p.message, p.history)
  }

  function AgentItems(s: State): map<nat, AgentItem> {
    map i: nat | i < |s.agents| :: AgentItemOf(s.config.land, s.agents[i])
  }

  /** The two layers list the state's cells and agents, each in any order. */
  ghost predicate Published(s: State, cells: seq<(Cell, CellItem)>, agents: seq<(nat, AgentItem)>) {
    Lists(cells, CellItems(s)) && Lists(agents, AgentItems(s))
  }

  // ----- loading a state -----

  /** The checks on a candidate's grid, agents and messages. */
  ghost predicate Loadable(c: Config, resources: map<Cell, nat>, agents: seq<Harvester>, messages: seq<Message>) {
    && Covers(c.land, resources)
    && (forall d :: d in resources ==> resources[d] <= if d in c.land.fertile then c.capacity else 0)
    && |agents| == c.agents
    && (forall i {:trigger LoadableAgent(c, agents[i])} :: 0 <= i < |agents| ==> LoadableAgent(c, agents[i]))
    && |messages| <= 2 * c.agents
  }

  predicate LoadableAgent(c: Config, p: Harvester) {
    && c.land.Inside(p.position) && p.harvested <= LIMIT
    && |p.message| <= MESSAGE_LIMIT && |p.history| <= c.memory
  }

  lemma {:induction false} SinceIsShort(log: seq<Event>, start: nat, upto: nat)
    requires start <= upto <= |log|
    ensures |Since(log, start, upto)| <= upto - start
  {
    if upto > start {
      SinceIsShort(log, start, upto - 1);
    }
  }

  /** Every state of every run up to the clock limit passes the checks of load_state. */
  lemma {:induction false} ReachableIsLoadable(s: State, log: seq<Event>)
    requires Sound(s) && Consistent(s, log) && s.tick <= LIMIT
    ensures Loadable(s.config, s.resources, s.agents, s.messages)
  {
    SinceIsShort(log, Start(|log|, 2 * s.config.agents), |log|);
    forall i | 0 <= i < |s.agents| ensures LoadableAgent(s.config, s.agents[i]) {
      assert Remembers(s.config, s.agents[i].history, log, i);
    }
  }

  // ----- rebuilding the queue from the histories -----

  ghost predicate Holds(agents: seq<Harvester>, e: Event) {
    exists i, k {:trigger agents[i].history[k]} ::
      0 <= i < |agents| && 0 <= k < |agents[i].history| && agents[i].history[k] == e
  }

  /** The map holds exactly the events of all histories, by tick. */
  ghost predicate Collected(agents: seq<Harvester>, events: map<nat, Event>) {
    && (forall i, k {:trigger agents[i].history[k]} :: 0 <= i < |agents| && 0 <= k < |agents[i].history| ==>
          var e := agents[i].history[k]; e.tick in events && events[e.tick] == e)
    && forall t :: t in events ==> events[t].tick == t && Holds(agents, events[t])
  }

  /** The messages of the collected events that have not expired, oldest first. */
  function Gathered(events: map<nat, Event>, agents: nat, tick: nat, upto: nat): seq<Message> {
    if upto == 0 then []
    else
      Gathered(events, agents, tick, upto - 1)
      + if upto in events && tick - upto < 2 * agents then Said(events[upto]) else []
  }

  /** The activations that survive in a bounded history: the agent's latest, and with a
      memory of two or more also the one before it. */
  lemma {:induction false} RecentInHistory(c: Config, h: seq<Event>, log: seq<Event>, i: nat, t: nat) returns (k: nat)
    requires c.agents > 0 && IsLog(c, log) && Remembers(c, h, log, i)
    requires 1 <= t <= |log| && i == (t - 1) % c.agents
    requires |log| - t < c.agents || (c.memory >= 2 && |log| - t < 2 * c.agents)
    ensures k < |h| && h[k] == log[t - 1]
  {
    var n := c.agents;
    TurnBelow(t - 1, n);
    assert h != [];
    k := |h| - 1;
    var last := h[k].tick;
    assert Logged(c, log[last - 1], last - 1);
    if last < t {
      SameTurn(last - 1, t - 1, n);
      assert false;
    } else if t < last {
      SameTurn(t - 1, last - 1, n);
      assert |h| > 1;
      assert RoundApart(h, n, k);
      k := k - 1;
    }
  }

  /** The collected events inside the expiry window are exactly the last `age` of the log. */
  ghost predicate Reaches(events: map<nat, Event>, log: seq<Event>, agents: nat, age: nat) {
    forall t: nat {:trigger t in events} :: 1 <= t <= |log| ==>
      && (t in events && |log| - t < 2 * agents <==> |log| - t < age)
      && (t in events ==> events[t] == log[t - 1])
  }

  lemma {:induction false} GatheredIsSince(events: map<nat, Event>, log: seq<Event>, agents: nat, age: nat, start: nat,
                                           upto: nat)
    requires Reaches(events, log, agents, age) && upto <= |log| && start == Start(|log|, age)
    ensures Gathered(events, agents, |log|, upto) == Since(log, start, upto)
  {
    if upto > 0 {
      GatheredIsSince(events, log, agents, age, start, upto - 1);
      assert upto in events && |log| - upto < 2 * agents <==> upto > start;
      if upto <= start {
        assert Since(log, start, upto - 1) == [];
      }
    }
  }

  /** The queue a restoration finds in histories of the given memory. */
  ghost function RestoredQueue(c: Config, log: seq<Event>): seq<Message> {
    Since(log, Start(|log|, Reach(c)), |log|)
  }

  function Reach(c: Config): nat {
    if c.memory >= 2 then 2 * c.agents else c.agents
  }

  lemma {:induction false} RecentIsCollected(s: State, log: seq<Event>, events: map<nat, Event>, t: nat)
    requires Sound(s) && Consistent(s, log) && Collected(s.agents, events)
    requires 1 <= t <= |log| && |log| - t < Reach(s.config)
    ensures t in events
  {
    var i := (t - 1) % s.config.agents;
    var h := s.agents[i].history;
    assert Remembers(s.config, h, log, i) && Logged(s.config, log[t - 1], t - 1);
    var k := RecentInHistory(s.config, h, log, i, t);
    assert s.agents[i].history[k].tick == t;
  }

  lemma {:induction false} CollectedIsLogged(s: State, log: seq<Event>, events: map<nat, Event>, t: nat)
    requires Sound(s) && Consistent(s, log) && Collected(s.agents, events) && t in events
    ensures 1 <= t <= |log| && events[t] == log[t - 1]
    ensures s.config.memory == 1 ==> |log| - t < s.config.agents
  {
    var i, k :| 0 <= i < |s.agents| && 0 <= k < |s.agents[i].history| && s.agents[i].history[k] == events[t];
    assert Remembers(s.config, s.agents[i].history, log, i);
    RememberedIsLogged(s.config, s.agents[i].history, log, i, k);
  }

  lemma {:induction false} RememberedIsLogged(c: Config, h: seq<Event>, log: seq<Event>, i: nat, k: nat)
    requires c.agents > 0 && Remembers(c, h, log, i) && k < |h|
    ensures 1 <= h[k].tick <= |log| && h[k] == log[h[k].tick - 1]
    ensures c.memory == 1 ==> |log| - h[k].tick < c.agents
  {
  }

  lemma {:induction false} CollectedReaches(s: State, log: seq<Event>, events: map<nat, Event>)
    requires Sound(s) && Consistent(s, log) && Collected(s.agents, events)
    ensures Reaches(events, log, s.config.agents, Reach(s.config))
  {
    forall t: nat | 1 <= t <= |log|
      ensures t in events && |log| - t < 2 * s.config.agents <==> |log| - t < Reach(s.config)
      ensures t in events ==> events[t] == log[t - 1]
    {
      if |log| - t < Reach(s.config) {
        RecentIsCollected(s, log, events, t);
      }
      if t in events {
        CollectedIsLogged(s, log, events, t);
      }
    }
  }

  lemma {:induction false} RestoredQueueIsGathered(s: State, log: seq<Event>, events: map<nat, Event>)
    requires Sound(s) && Consistent(s, log) && Collected(s.agents, events)
    ensures Gathered(events, s.config.agents, s.tick, s.tick) == RestoredQueue(s.config, log)
  {
    CollectedReaches(s, log, events);
    GatheredIsSince(events, log, s.config.agents, Reach(s.config), Start(|log|, Reach(s.config)), |log|);
  }

  lemma {:induction false} SinceSplits(log: seq<Event>, start: nat, middle: nat, upto: nat)
    requires start <= middle <= upto <= |log|
    ensures Since(log, start, upto) == Since(log, start, middle) + Since(log, middle, upto)
  {
    if upto > middle {
      SinceSplits(log, start, middle, upto - 1);
      ConcatAssociates(Since(log, start, middle), Since(log, middle, upto - 1), Said(log[upto - 1]));
    } else {
      assert Since(log, start, middle) + [] == Since(log, start, middle);
    }
  }

  /** The messages of a stretch are dated inside it. */
  lemma {:induction false} SinceTicks(c: Config, log: seq<Event>, start: nat, upto: nat)
    requires c.agents > 0 && IsLog(c, log) && upto <= |log|
    ensures forall k :: 0 <= k < |Since(log, start, upto)| ==> start < Since(log, start, upto)[k].tick <= upto
  {
    if upto > start {
      SinceTicks(c, log, start, upto - 1);
      assert Logged(c, log[upto - 1], upto - 1);
    }
  }

  /** Restoration returns the whole queue exactly when the memory reaches two activations
      back, or no waiting message is older than one round. */
  lemma {:induction false} QueueComesBackIff(s: State, log: seq<Event>)
    requires Sound(s) && Consistent(s, log)
    ensures RestoredQueue(s.config, log) == s.messages <==>
            s.config.memory >= 2 || forall k :: 0 <= k < |s.messages| ==> s.tick - s.messages[k].tick < s.config.agents
  {
    if s.config.memory == 1 {
      var n := s.config.agents;
      var first, middle := Start(|log|, 2 * n), Start(|log|, n);
      SinceSplits(log, first, middle, |log|);
      SinceTicks(s.config, log, first, middle);
      SinceTicks(s.config, log, middle, |log|);
      assert s.messages == Since(log, first, |log|);
      AgedOrNot(s.messages, Since(log, first, middle), Since(log, middle, |log|), s.tick, n);
    }
  }

  /** A queue made of an aged part and a recent part is its recent part exactly when no
      message in it is aged. */
  lemma {:induction false} AgedOrNot(queue: seq<Message>, aged: seq<Message>, recent: seq<Message>, tick: nat, n: nat)
    requires queue == aged + recent
    requires forall k :: 0 <= k < |aged| ==> tick - aged[k].tick >= n
    requires forall k :: 0 <= k < |recent| ==> tick - recent[k].tick < n
    ensures recent == queue <==> forall k :: 0 <= k < |queue| ==> tick - queue[k].tick < n
  {
    if aged == [] {
      assert queue == recent;
    } else {
      assert queue[0] == aged[0];
    }
  }

  // ----- the restoration -----

  /** The checks on one remembered activation of agent `i`. */
  predicate ValidEvent(c: Config, i: nat, e: Event) {
    e.agent == i && c.land.Inside(e.position) && e.gain <= 1 && |e.message| <= MESSAGE_LIMIT
  }

  ghost predicate ValidHistory(c: Config, i: nat, history: seq<Event>) {
    forall k {:trigger history[k]} :: 0 <= k < |history| ==> ValidEvent(c, i, history[k])
  }

  ghost predicate SameSlot(agents: seq<Harvester>, i: int, k: int, j: int, l: int)
    requires 0 <= i < |agents| && 0 <= k < |agents[i].history|
    requires 0 <= j < |agents| && 0 <= l < |agents[j].history|
  {
    agents[i].history[k].tick == agents[j].history[l].tick ==> i == j && k == l
  }

  /** Histories the restoration accepts: valid events, no tick used twice. */
  ghost predicate ValidHistories(c: Config, agents: seq<Harvester>) {
    && (forall i {:trigger agents[i]} :: 0 <= i < |agents| ==> ValidHistory(c, i, agents[i].history))
    && forall i, k, j, l {:trigger agents[i].history[k], agents[j].history[l]} ::
           0 <= i < |agents| && 0 <= k < |agents[i].history| && 0 <= j < |agents| && 0 <= l < |agents[j].history| ==>
             SameSlot(agents, i, k, j, l)
  }

  /** The agents before `i`, and the first `k` activations of agent `i`. */
  ghost function Prefix(agents: seq<Harvester>, i: nat, k: nat): seq<Harvester>
    requires i < |agents| && k <= |agents[i].history|
  {
    agents[..i] + [agents[i].(history := agents[i].history[..k])]
  }

  lemma {:induction false} CollectNext(agents: seq<Harvester>, i: nat, k: nat, events: map<nat, Event>)
    requires i < |agents| && k < |agents[i].history|
    requires Collected(Prefix(agents, i, k), events) && agents[i].history[k].tick !in events
    ensures Collected(Prefix(agents, i, k + 1), events[agents[i].history[k].tick := agents[i].history[k]])
  {
    var before, now, e := Prefix(agents, i, k), Prefix(agents, i, k + 1), agents[i].history[k];
    assert now[i].history[k] == e && Holds(now, e);
    forall t | t in events ensures Holds(now, events[t]) {
      assert Holds(before, events[t]);
      var j, l :| 0 <= j < |before| && 0 <= l < |before[j].history| && before[j].history[l] == events[t];
      assert now[j].history[l] == events[t];
    }
    forall j, l | 0 <= j < |now| && 0 <= l < |now[j].history|
      ensures var f := now[j].history[l]; if j == i && l == k then f == e
                                          else f.tick != e.tick && f.tick in events && events[f.tick] == f
    {
      if !(j == i && l == k) {
        assert before[j].history[l] == now[j].history[l];
      }
    }
  }

  lemma {:induction false} RejectedIsInvalid(c: Config, agents: seq<Harvester>, i: nat, k: nat, events: map<nat, Event>)
    requires i < |agents| && k < |agents[i].history| && Collected(Prefix(agents, i, k), events)
    requires !ValidEvent(c, i, agents[i].history[k]) || agents[i].history[k].tick in events
    ensures !ValidHistories(c, agents)
  {
    var before, e := Prefix(agents, i, k), agents[i].history[k];
    if !ValidEvent(c, i, e) {
      assert !ValidHistory(c, i, agents[i].history);
    } else {
      assert Holds(before, events[e.tick]);
      var j, l :| 0 <= j < |before| && 0 <= l < |before[j].history| && before[j].history[l] == events[e.tick];
      assert agents[j].history[l] == before[j].history[l];
      assert !SameSlot(agents, i, k, j, l);
    }
  }

  /** Collect the activations of one agent; a foreign, invalid or repeated one rejects. */
  method CollectAgent(c: Config, agents: seq<Harvester>, i: nat, known: map<nat, Event>)
    returns (events: Option<map<nat, Event>>)
    requires i < |agents| && Collected(Prefix(agents, i, 0), known)
    ensures events.Some? ==> Collected(Prefix(agents, i, |agents[i].history|), events.value)
    ensures ValidHistories(c, agents) ==> events.Some?
  {
    var history := agents[i].history;
    var found: map<nat, Event> := known;
    for k := 0 to |history|
      invariant Collected(Prefix(agents, i, k), found)
    {
      var e := history[k];
      if !ValidEvent(c, i, e) || e.tick in found {
        RejectedIsInvalid(c, agents, i, k, found);
        return None;
      }
      CollectNext(agents, i, k, found);
      found := found[e.tick := e];
    }
    events := Some(found);
  }

  /** Collect the activations of all agents by tick. */
  method CollectEvents(c: Config, agents: seq<Harvester>) returns (events: Option<map<nat, Event>>)
    ensures events.Some? ==> Collected(agents, events.value)
    ensures ValidHistories(c, agents) ==> events.Some?
  {
    var found: map<nat, Event> := map[];
    for i := 0 to |agents|
      invariant Collected(agents[..i], found)
    {
      SamePrefix(agents, i, found);
      var more := CollectAgent(c, agents, i, found);
      if more.None? {
        return None;
      }
      found := more.value;
      assert agents[i].(history := agents[i].history[..|agents[i].history|]) == agents[i];
      assert Prefix(agents, i, |agents[i].history|) == agents[..i + 1];
    }
    assert agents[..|agents|] == agents;
    events := Some(found);
  }

  lemma {:induction false} SamePrefix(agents: seq<Harvester>, i: nat, events: map<nat, Event>)
    requires i < |agents| && Collected(agents[..i], events)
    ensures Collected(Prefix(agents, i, 0), events)
  {
    var before, now := agents[..i], Prefix(agents, i, 0);
    forall t | t in events ensures Holds(now, events[t]) {
      var j, l :| 0 <= j < |before| && 0 <= l < |before[j].history| && before[j].history[l] == events[t];
      assert now[j].history[l] == events[t];
    }
    forall j, l | 0 <= j < |now| && 0 <= l < |now[j].history|
      ensures var f := now[j].history[l]; f.tick in events && events[f.tick] == f
    {
      assert before[j].history[l] == now[j].history[l];
    }
  }

  /** The queue is rebuilt in order of the ticks. */
  method GatherMessages(events: map<nat, Event>, agents: nat, tick: nat) returns (messages: seq<Message>)
    ensures messages == Gathered(events, agents, tick, tick)
  {
    messages := [];
    for t := 1 to tick + 1
      invariant messages == Gathered(events, agents, tick, t - 1)
    {
      if t in events && tick - t < 2 * agents {
        messages := messages + Said(events[t]);
      }
    }
  }

  predicate ValidCell(c: Config, d: Cell, item: CellItem) {
    && item.x == d.0 && item.y == SceneRow(c.land, d.1) && item.fertile == (d in c.land.fertile)
    && 0 <= item.value <= if d in c.land.fertile then c.capacity else 0
  }

  ghost predicate ValidCells(c: Config, items: map<Cell, CellItem>) {
    && (forall d :: d in items <==> c.land.Inside(d))
    && forall d :: d in items ==> ValidCell(c, d, items[d])
  }

  /** Read every cell of the land from its record, row by row. */
  method RebuildGrid(c: Config, items: map<Cell, CellItem>) returns (grid: Option<map<Cell, nat>>)
    requires forall d :: d in items <==> c.land.Inside(d)
    ensures grid.Some? <==> ValidCells(c, items)
    ensures grid.Some? ==> grid.value.Keys == items.Keys && forall d :: d in items ==> grid.value[d] == items[d].value
  {
    var found: map<Cell, nat> := map[];
    for y := 0 to c.land.height
      invariant forall d :: d in found <==> c.land.Inside(d) && d.1 < y
      invariant forall d :: d in found ==> ValidCell(c, d, items[d]) && found[d] == items[d].value
    {
      for x := 0 to c.land.width
        invariant forall d :: d in found <==> c.land.Inside(d) && (d.1 < y || (d.1 == y && d.0 < x))
        invariant forall d :: d in found ==> ValidCell(c, d, items[d]) && found[d] == items[d].value
      {
        var d := (x, y);
        if !ValidCell(c, d, items[d]) {
          return None;
        }
        found := found[d := items[d].value];
      }
    }
    grid := Some(found);
  }

  ghost function TicksOf(history: seq<Event>): seq<nat> {
    seq(|history|, k requires 0 <= k < |history| => history[k].tick)
  }

  ghost predicate ValidItem(c: Config, tick: nat, item: AgentItem) {
    && 0 <= item.x < c.land.width && 0 <= item.y < c.land.height && 0 <= item.harvested <= LIMIT
    && |item.message| <= MESSAGE_LIMIT && ValidTicks(TicksOf(item.history), c.memory, tick)
  }

  /** The agent behind a record, its row turned back to the model's orientation. */
  ghost predicate Rebuilt(c: Config, item: AgentItem, p: Harvester) {
    AgentItemOf(c.land, p) == item
  }

  /** Read the agents in order of identity. */
  method RebuildAgents(c: Config, tick: nat, items: map<nat, AgentItem>) returns (agents: Option<seq<Harvester>>)
    requires forall i :: i in items <==> 0 <= i < c.agents
    ensures agents.Some? <==> forall i {:trigger items[i]} :: 0 <= i < c.agents ==> ValidItem(c, tick, items[i])
    ensures agents.Some? ==> |agents.value| == c.agents
                             && forall i {:trigger agents.value[i]} :: 0 <= i < c.agents ==>
                                    Rebuilt(c, items[i], agents.value[i])
  {
    var found: seq<Harvester> := [];
    for i := 0 to c.agents
      invariant |found| == i
      invariant forall j {:trigger items[j]} :: 0 <= j < i ==> ValidItem(c, tick, items[j])
      invariant forall j {:trigger found[j]} :: 0 <= j < i ==> Rebuilt(c, items[j], found[j])
    {
      var item := items[i];
      var ticks: seq<nat> := seq(|item.history|, k requires 0 <= k < |item.history| => item.history[k].tick);
      assert ticks == TicksOf(item.history);
      var ordered := ValidateHistory(ticks, c.memory, tick);
      if !ordered || !(0 <= item.x < c.land.width && 0 <= item.y < c.land.height)
         || !(0 <= item.harvested <= LIMIT) || |item.message| > MESSAGE_LIMIT {
        return None;
      }
      found := found + [Harvester((item.x, SceneRow(c.land, item.y)), item.harvested, item.lastAction, item.message,
                                  item.history)];
    }
    agents := Some(found);
  }

  // ----- the published scene of a reachable state is accepted -----

  lemma {:induction false} HistoryIncreases(c: Config, h: seq<Event>, log: seq<Event>, i: nat, j: nat, k: nat)
    requires Remembers(c, h, log, i) && c.agents > 0 && j < k < |h|
    ensures h[j].tick < h[k].tick
    decreases k
  {
    assert RoundApart(h, c.agents, k);
    if j < k - 1 {
      HistoryIncreases(c, h, log, i, j, k - 1);
    }
  }

  lemma {:induction false} PublishedItemsAreValid(s: State, log: seq<Event>)
    requires Sound(s) && Consistent(s, log) && s.tick <= LIMIT
    ensures forall i {:trigger s.agents[i]} :: 0 <= i < |s.agents| ==>
              ValidItem(s.config, s.tick, AgentItemOf(s.config.land, s.agents[i]))
              && ValidHistory(s.config, i, s.agents[i].history)
  {
    forall i {:trigger s.agents[i]} | 0 <= i < |s.agents|
      ensures ValidItem(s.config, s.tick, AgentItemOf(s.config.land, s.agents[i]))
              && ValidHistory(s.config, i, s.agents[i].history)
    {
      var h := s.agents[i].history;
      assert Remembers(s.config, h, log, i) && s.config.land.Inside(s.agents[i].position);
      forall k | 0 <= k < |h| ensures ValidEvent(s.config, i, h[k]) && 1 <= h[k].tick <= s.tick {
        assert Logged(s.config, log[h[k].tick - 1], h[k].tick - 1);
      }
      forall j, k | 0 <= j < k < |h| ensures h[j].tick < h[k].tick {
        HistoryIncreases(s.config, h, log, i, j, k);
      }
    }
  }

  lemma {:induction false} PublishedHistoriesAreValid(s: State, log: seq<Event>)
    requires Sound(s) && Consistent(s, log) && s.tick <= LIMIT
    ensures ValidHistories(s.config, s.agents)
  {
    PublishedItemsAreValid(s, log);
    forall i, k, j, l | 0 <= i < |s.agents| && 0 <= k < |s.agents[i].history|
                        && 0 <= j < |s.agents| && 0 <= l < |s.agents[j].history|
      ensures SameSlot(s.agents, i, k, j, l)
    {
      TickHasOneSlot(s, log, i, k, j, l);
    }
  }

  lemma {:induction false} TickHasOneSlot(s: State, log: seq<Event>, i: nat, k: nat, j: nat, l: nat)
    requires Sound(s) && Consistent(s, log)
    requires i < |s.agents| && k < |s.agents[i].history| && j < |s.agents| && l < |s.agents[j].history|
    ensures SameSlot(s.agents, i, k, j, l)
  {
    var g, h := s.agents[i].history, s.agents[j].history;
    assert Remembers(s.config, g, log, i) && Remembers(s.config, h, log, j);
    if g[k].tick == h[l].tick {
      assert g[k] == h[l] && i == j;
      if k < l {
        HistoryIncreases(s.config, g, log, i, k, l);
      } else if l < k {
        HistoryIncreases(s.config, g, log, i, l, k);
      }
    }
  }

  /** The state a scene restoration makes of a published state. */
  ghost function Recovered(s: State, log: seq<Event>): State {
    s.(messages := RestoredQueue(s.config, log))
  }

  /** The scene is the projection of a reachable state of this model at this time. */
  ghost predicate SceneOf(c: Config, tick: nat, cells: seq<(Cell, CellItem)>, items: seq<(nat, AgentItem)>, s: State,
                          log: seq<Event>)
  {
    Sound(s) && Consistent(s, log) && s.config == c && s.tick == tick <= LIMIT && Published(s, cells, items)
  }

  lemma {:induction false} SceneIsWellFormed(c: Config, tick: nat, cells: seq<(Cell, CellItem)>,
                                             items: seq<(nat, AgentItem)>, s: State, log: seq<Event>)
    requires SceneOf(c, tick, cells, items, s, log)
    ensures ValidCells(c, CellItems(s)) && CellItems(s).Keys == Area(c.land)
    ensures AgentItems(s).Keys == Numbers(c.agents)
    ensures forall i {:trigger AgentItems(s)[i]} :: 0 <= i < c.agents ==> ValidItem(c, tick, AgentItems(s)[i])
  {
    PublishedItemsAreValid(s, log);
  }

  lemma {:induction false} SceneDecodes(c: Config, tick: nat, cells: seq<(Cell, CellItem)>,
                                        items: seq<(nat, AgentItem)>, s: State, log: seq<Event>, grid: map<Cell, nat>,
                                        agents: seq<Harvester>)
    requires SceneOf(c, tick, cells, items, s, log)
    requires grid.Keys == CellItems(s).Keys && forall d :: d in grid ==> grid[d] == CellItems(s)[d].value
    requires |agents| == c.agents
    requires forall i {:trigger agents[i]} :: 0 <= i < c.agents ==> Rebuilt(c, AgentItems(s)[i], agents[i])
    ensures grid == s.resources && agents == s.agents
  {
    assert forall i :: 0 <= i < c.agents ==> agents[i] == s.agents[i];
  }

  lemma {:induction false} DecodedIsLoadable(c: Config, tick: nat, cells: map<Cell, CellItem>,
                                             items: map<nat, AgentItem>, grid: map<Cell, nat>, agents: seq<Harvester>)
    requires ValidCells(c, cells) && grid.Keys == cells.Keys && forall d :: d in grid ==> grid[d] == cells[d].value
    requires |agents| == c.agents && items.Keys == Numbers(c.agents)
    requires forall i {:trigger items[i]} :: 0 <= i < c.agents ==> ValidItem(c, tick, items[i])
    requires forall i {:trigger agents[i]} :: 0 <= i < c.agents ==> Rebuilt(c, items[i], agents[i])
    ensures Loadable(c, grid, agents, [])
  {
    forall i | 0 <= i < c.agents ensures LoadableAgent(c, agents[i]) {
      assert ValidItem(c, tick, items[i]) && Rebuilt(c, items[i], agents[i]);
    }
  }

  /** The grid and the agents say what the records say: each unit and agent stands in the
      column of its record, and as many rows below the top as its record stands above the bottom. */
  ghost predicate ReadsBack(land: Land, cells: seq<(Cell, CellItem)>, items: seq<(nat, AgentItem)>,
                            grid: map<Cell, nat>, agents: seq<Harvester>)
  {
    && (forall k {:trigger cells[k]} :: 0 <= k < |cells| ==>
          var (d, item) := cells[k];
          d in grid && grid[d] == item.value && item.x == d.0 && item.y + 1 + d.1 == land.height)
    && forall k {:trigger items[k]} :: 0 <= k < |items| ==>
         var (i, item) := items[k];
         && i < |agents| && agents[i].position.0 == item.x && agents[i].position.1 + 1 + item.y == land.height
         && agents[i].harvested == item.harvested && agents[i].lastAction == item.lastAction
         && agents[i].message == item.message && agents[i].history == item.history
  }

  /** The grid and agents a scene describes, or nothing if a layer is malformed. */
  method DecodeLayers(c: Config, tick: nat, cells: seq<(Cell, CellItem)>, items: seq<(nat, AgentItem)>, ghost s: State,
                      ghost log: seq<Event>)
    returns (decoded: Option<(map<Cell, nat>, seq<Harvester>)>)
    ensures decoded.Some? ==> Loadable(c, decoded.value.0, decoded.value.1, [])
                              && ReadsBack(c.land, cells, items, decoded.value.0, decoded.value.1)
    ensures SceneOf(c, tick, cells, items, s, log) ==> decoded == Some((s.resources, s.agents))
  {
    var cellMap := Records(cells);
    var itemMap := Records(items);
    if SceneOf(c, tick, cells, items, s, log) {
      SceneIsWellFormed(c, tick, cells, items, s, log);
      ListsIsUnique(cells, cellMap.value, CellItems(s));
      ListsIsUnique(items, itemMap.value, AgentItems(s));
    }
    if cellMap.None? || itemMap.None? || cellMap.value.Keys != Area(c.land) || itemMap.value.Keys != Numbers(c.agents) {
      return None;
    }
    var grid := RebuildGrid(c, cellMap.value);
    var agents := RebuildAgents(c, tick, itemMap.value);
    if grid.None? || agents.None? {
      return None;
    }
    DecodedIsLoadable(c, tick, cellMap.value, itemMap.value, grid.value, agents.value);
    if SceneOf(c, tick, cells, items, s, log) {
      SceneDecodes(c, tick, cells, items, s, log, grid.value, agents.value);
    }
    decoded := Some((grid.value, agents.value));
  }

  /** Restore the model from a scene at its current time. A malformed scene changes
      nothing; the scene of a reachable state, in any order of its records, brings back
      its grid, its agents, its last event, and the recent message queue. */
  method RestoreLayers(model: MiniCommons, cells: seq<(Cell, CellItem)>, items: seq<(nat, AgentItem)>, ghost s: State,
                       ghost log: seq<Event>)
    returns (ok: bool)
    modifies model`resources, model`agents, model`messages, model`lastEvent
    ensures !ok ==> model.View() == old(model.View())
    ensures ok ==> Loadable(model.config, model.resources, model.agents, model.messages)
                   && ReadsBack(model.config.land, cells, items, model.resources, model.agents)
    ensures SceneOf(model.config, model.tick, cells, items, s, log) ==> ok && model.View() == Recovered(s, log)
  {
    var decoded := DecodeLayers(model.config, model.tick, cells, items, s, log);
    if decoded.None? {
      return false;
    }
    var (grid, agents) := decoded.value;
    var events := CollectEvents(model.config, agents);
    if SceneOf(model.config, model.tick, cells, items, s, log) {
      PublishedHistoriesAreValid(s, log);
      RestoredQueueIsGathered(s, log, events.value);
      LastIsCollected(s, log, events.value);
      SinceIsShort(log, Start(|log|, Reach(s.config)), |log|);
    }
    if events.None? {
      return false;
    }
    var messages := GatherMessages(events.value, model.config.agents, model.tick);
    if |messages| > 2 * model.config.agents {
      return false;
    }
    model.resources, model.agents, model.messages := grid, agents, messages;
    model.lastEvent := if model.tick in events.value then Some(events.value[model.tick]) else None;
    ok := true;
  }

  lemma {:induction false} LastIsCollected(s: State, log: seq<Event>, events: map<nat, Event>)
    requires Sound(s) && Consistent(s, log) && Collected(s.agents, events)
    ensures s.lastEvent == if s.tick in events then Some(events[s.tick]) else None
  {
    if log != [] {
      RecentIsCollected(s, log, events, |log|);
    }
    if s.tick in events {
      CollectedIsLogged(s, log, events, s.tick);
    }
  }

  /** The restoration is the exact inverse of the projection precisely when the memory
      holds two activations, or no waiting message is older than one round. */
  lemma {:induction false} RestorationIsExactIff(s: State, log: seq<Event>)
    requires Sound(s) && Consistent(s, log)
    ensures Recovered(s, log) == s <==>
            s.config.memory >= 2 || forall k :: 0 <= k < |s.messages| ==> s.tick - s.messages[k].tick < s.config.agents
  {
    QueueComesBackIff(s, log);
  }

  /** Two agents with a memory of one: after "hello" and two silent turns the message is
      still waiting, but its speaker has forgotten it, and the restored queue loses it. */
  lemma {:induction false} MemoryOfOneLosesAMessage(trace: seq<State>, inputs: seq<Input>)
    requires Run(trace, inputs) && Initial(trace[0]) && trace[0].config.agents == 2 && trace[0].config.memory == 1
    requires |inputs| == 3 && inputs[0].decision == Decision(Wait, Spelled("hello"))
    requires inputs[1].decision == inputs[2].decision == Decision(Wait, [])
    ensures exists log :: Sound(trace[3]) && Consistent(trace[3], log) && Recovered(trace[3], log) != trace[3]
  {
    RunIsConsistent(trace, inputs, 3);
    RunIsSound(trace, inputs, 3);
    var log := LogOf(trace, inputs, 3);
    assert LogOf(trace, inputs, 0) == [];
    var first := WaitIsLogged(trace, inputs, 0);
    var second := WaitIsLogged(trace, inputs, 1);
    var third := WaitIsLogged(trace, inputs, 2);
    assert Consistent(trace[3], log);
    HelloIsForgotten(trace[3], log, first, second, third);
  }

  lemma {:induction false} WaitIsLogged(trace: seq<State>, inputs: seq<Input>, k: nat) returns (e: Event)
    requires Run(trace, inputs) && k < |inputs| && Sound(trace[k])
    requires inputs[k].decision.action == Wait && |inputs[k].decision.message| <= MESSAGE_LIMIT
    ensures LogOf(trace, inputs, k + 1) == LogOf(trace, inputs, k) + [e]
    ensures e.tick == trace[k].tick + 1 && e.message == inputs[k].decision.message
  {
    assert trace[k].config.land.Inside(trace[k].agents[Turn(trace[k])].position);
    e := EventOf(trace[k], inputs[k].decision);
  }

  lemma {:induction false} HelloIsForgotten(c: State, log: seq<Event>, first: Event, second: Event, third: Event)
    requires Sound(c) && Consistent(c, log) && c.config.agents == 2 && c.config.memory == 1
    requires log == [] + [first] + [second] + [third] && first.tick == 1
    requires first.message == Spelled("hello") && second.message == [] && third.message == []
    ensures Recovered(c, log) != c
  {
    HelloStillWaits(log, first, second, third);
    assert c.messages[0] == Said(first)[0];
    RestorationIsExactIff(c, log);
  }

  lemma {:induction false} HelloStillWaits(log: seq<Event>, first: Event, second: Event, third: Event)
    requires log == [] + [first] + [second] + [third] && second.message == [] && third.message == []
    ensures Since(log, 0, 3) == Said(first)
  {
    assert Since(log, 0, 1) == Said(log[0]);
    assert Since(log, 0, 2) == Since(log, 0, 1);
  }
}
