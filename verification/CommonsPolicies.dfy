/** What agents of the commons may do, what they hear, and what the scripted rules make of it,
    in coordinates and counts. */
module CommonsPolicies {
  import opened Prelude
  import opened Landscape
  import opened Signals
  import opened Commons

  // ----- what may be done -----

  /** Waiting always, a harvest from a cell that holds something, and steps that stay on the land. */
  predicate Permitted(land: Land, stock: nat, p: Cell, a: Action) {
    match a
    case Wait => true
    case Harvest => stock >= 1
    case North => p.1 >= 1
    case South => p.1 + 1 < land.height
    case West => p.0 >= 1
    case East => p.0 + 1 < land.width
  }

  /** A decision is accepted exactly when its action is permitted where the agent stands and its
      message has at most 160 letters. */
  lemma {:induction false} AcceptableIff(s: State, d: Decision)
    requires Sound(s)
    ensures var p := s.agents[s.tick % s.config.agents].position;
            && p in s.resources
            && (Acceptable(s, d) <==> Permitted(s.config.land, s.resources[p], p, d.action) && |d.message| <= 160)
  {
    assert s.config.land.Inside(s.agents[Turn(s)].position);
  }

  // ----- what is heard -----

  /** Agent `i` is near enough to the place from which somebody else sent the message, not more
      than two rounds ago. */
  predicate InEarshot(s: State, i: nat, m: Message)
    requires i < |s.agents|
  {
    var p := s.agents[i].position;
    && m.agent != i && s.tick < m.tick + 2 * s.config.agents
    && Abs(p.0 - m.position.0) + Abs(p.1 - m.position.1) <= 3
  }

  /** How many of the messages from `k` on are in earshot. */
  function InEarshotFrom(s: State, i: nat, k: nat): nat
    requires i < |s.agents| && k <= |s.messages|
    decreases |s.messages| - k
  {
    if k == |s.messages| then 0
    else InEarshotFrom(s, i, k + 1) + if InEarshot(s, i, s.messages[k]) then 1 else 0
  }

  lemma {:induction false} ReachesIff(s: State, i: nat, m: Message)
    requires i < |s.agents|
    ensures Reaches(s, i, m) <==> InEarshot(s, i, m)
  {
  }

  lemma {:induction false} ReachingFrom(s: State, i: nat, k: nat)
    requires i < |s.agents| && k <= |s.messages|
    ensures |ReachingOf(s, i, |s.messages|)| == |ReachingOf(s, i, k)| + InEarshotFrom(s, i, k)
    decreases |s.messages| - k
  {
    if k < |s.messages| {
      ReachingFrom(s, i, k + 1);
      ReachesIff(s, i, s.messages[k]);
    }
  }

  lemma {:induction false} ReachingKeeps(s: State, i: nat, k: nat, n: nat)
    requires i < |s.agents| && k < n <= |s.messages| && Reaches(s, i, s.messages[k])
    ensures |ReachingOf(s, i, k)| < |ReachingOf(s, i, n)|
    ensures ReachingOf(s, i, n)[|ReachingOf(s, i, k)|] == s.messages[k]
  {
    if k + 1 < n {
      ReachingKeeps(s, i, k, n - 1);
    }
  }

  /** A message in earshot is heard when fewer than six later ones are, and messages are delivered. */
  lemma {:induction false} HeardWhenRecent(s: State, i: nat, k: nat)
    requires i < |s.agents| && s.config.delivers && k < |s.messages| && InEarshot(s, i, s.messages[k])
    requires InEarshotFrom(s, i, k + 1) < 6
    ensures s.messages[k] in Audible(s, i)
  {
    ReachesIff(s, i, s.messages[k]);
    ReachingFrom(s, i, k + 1);
    ReachingKeeps(s, i, k, |s.messages|);
    var all, at := ReachingOf(s, i, |s.messages|), |ReachingOf(s, i, k)|;
    assert |ReachingOf(s, i, k + 1)| == at + 1;
    var start := if |all| > 6 then |all| - 6 else 0;
    assert LastOf(all, 6) == all[start..] && all[start..][at - start] == s.messages[k];
  }

  /** Nothing else is heard: no message out of earshot, none without delivery, at most six. */
  lemma {:induction false} OnlyEarshotIsHeard(s: State, i: nat)
    requires i < |s.agents|
    ensures |Audible(s, i)| == if s.config.delivers then Min(6, InEarshotFrom(s, i, 0)) else 0
    ensures forall m :: m in Audible(s, i) ==> s.config.delivers && m in s.messages && InEarshot(s, i, m)
  {
    ReachingFrom(s, i, 0);
    ReachingAreInEarshot(s, i, |s.messages|);
  }

  lemma {:induction false} ReachingAreInEarshot(s: State, i: nat, k: nat)
    requires i < |s.agents| && k <= |s.messages|
    ensures forall m :: m in ReachingOf(s, i, k) ==> m in s.messages && InEarshot(s, i, m)
  {
    if k > 0 {
      ReachingAreInEarshot(s, i, k - 1);
      ReachesIff(s, i, s.messages[k - 1]);
    }
  }

  // ----- what the rules decide -----

  /** What a rule leaves of a cell: nothing when it is greedy, one unit when it conserves, and
      one unit of a cell that a message it hears warns of when it signals. */
  ghost predicate Kept(s: State, i: nat, c: Cell)
    requires i < |s.agents|
  {
    match s.config.rule
    case Greedy => false
    case Conserve => true
    case Signal => exists m, x, y {:trigger Reads(m.text, x, y, c)} :: m in Audible(s, i) && Reads(m.text, x, y, c)
  }

  lemma {:induction false} KeptIff(s: State, i: nat, c: Cell)
    requires i < |s.agents|
    ensures ReserveAt(s, i, c) == if Kept(s, i, c) then 1 else 0
  {
    if s.config.rule.Signal? {
      if m, x, y :| m in Audible(s, i) && Reads(m.text, x, y, c) {
        HeardIff(m.text, c);
      }
      if c in Protected(s, i) {
        var m :| m in Audible(s, i) && Heard(m.text).Some? && Heard(m.text).value == c;
        HeardIff(m.text, c);
      }
    }
  }

  /** A scripted agent harvests exactly when its own cell holds more than it keeps. */
  lemma {:induction false} HarvestsIff(s: State, d: Decision)
    requires Sound(s) && Scripted(s, d)
    ensures var i := s.tick % s.config.agents;
            var p := s.agents[i].position;
            p in s.resources && (d.action.Harvest? <==> s.resources[p] > if Kept(s, i, p) then 1 else 0)
  {
    var i := Turn(s);
    assert s.config.land.Inside(s.agents[i].position);
    KeptIff(s, i, s.agents[i].position);
  }

  /** A cell that agent `i` sees and would harvest. */
  ghost predicate Promising(s: State, i: nat, c: Cell)
    requires i < |s.agents|
  {
    var p := s.agents[i].position;
    && c in s.resources && Abs(p.0 - c.0) + Abs(p.1 - c.1) <= 2
    && s.resources[c] > if Kept(s, i, c) then 1 else 0
  }

  /** Where an action leads. */
  function Ahead(p: Cell, a: Action): Cell {
    (p.0 + (if a.East? then 1 else if a.West? then -1 else 0),
     p.1 + (if a.South? then 1 else if a.North? then -1 else 0))
  }

  lemma {:induction false} FoodIsPromising(s: State, i: nat, c: Cell)
    requires i < |s.agents|
    ensures c in Food(s, i) <==> Promising(s, i, c)
  {
    KeptIff(s, i, c);
  }

  lemma {:induction false} ApproachesByOne(food: set<Cell>, p: Cell, a: Action, seen: Cell) returns (c: Cell)
    requires Approaches(food, p, a) && seen in food
    ensures var q := Ahead(p, a);
            && c in food && Abs(q.0 - c.0) + Abs(q.1 - c.1) == Abs(p.0 - c.0) + Abs(p.1 - c.1) - 1
            && Abs(p.0 - c.0) + Abs(p.1 - c.1) <= Abs(p.0 - seen.0) + Abs(p.1 - seen.1)
  {
    c :| Nearest(food, p, c) && Manhattan(Moved(p, a), c) < Manhattan(p, c);
  }

  /** A scripted agent that does not harvest but sees a promising cell comes one step closer to
      one that is nearest. */
  lemma {:induction false} ForagesTowards(s: State, d: Decision, seen: Cell) returns (c: Cell)
    requires Sound(s) && Scripted(s, d) && !d.action.Harvest? && Promising(s, s.tick % s.config.agents, seen)
    ensures var i := s.tick % s.config.agents;
            var (p, q) := (s.agents[i].position, Ahead(s.agents[i].position, d.action));
            && Promising(s, i, c)
            && Abs(q.0 - c.0) + Abs(q.1 - c.1) == Abs(p.0 - c.0) + Abs(p.1 - c.1) - 1
            && Abs(p.0 - c.0) + Abs(p.1 - c.1) <= Abs(p.0 - seen.0) + Abs(p.1 - seen.1)
  {
    var i := Turn(s);
    var p := s.agents[i].position;
    FoodIsPromising(s, i, seen);
    c := ApproachesByOne(Food(s, i), p, d.action, seen);
    FoodIsPromising(s, i, c);
  }

  /** Only the signalling rule speaks: it warns of its own fertile cell, in digits, exactly when
      that holds at most two units before it acts. */
  lemma {:induction false} SpeaksIff(s: State, d: Decision)
    requires Sound(s) && Scripted(s, d)
    ensures var p := s.agents[s.tick % s.config.agents].position;
            && p in s.resources
            && if s.config.rule.Signal? && p in s.config.land.fertile && s.resources[p] <= 2 then
                 Heard(d.message) == Some(p)
               else d.message == []
  {
    var p := s.agents[Turn(s)].position;
    assert s.config.land.Inside(p);
    WarningIsHeard(p);
  }
}
