/** Schelling segregation on a bounded Moore grid: neighbour counts read through a cache,
    batch relocation, and early stopping of a trial. */
module Schelling {
  import opened Prelude

  type Cell = (int, int)

  datatype Person = Person(cell: Cell, group: int)

  /** The population as values: who stands where, in agent order. */
  datatype World = World(width: nat, height: nat, people: seq<Person>)

  predicate Inside(w: World, c: Cell) {
    0 <= c.0 < w.width && 0 <= c.1 < w.height
  }

  /** Everybody stands inside the grid, at most one to a cell. */
  ghost predicate OnePerCell(w: World) {
    && (forall i {:trigger w.people[i]} :: 0 <= i < |w.people| ==> Inside(w, w.people[i].cell))
    && forall i, j :: 0 <= i < j < |w.people| ==> w.people[i].cell != w.people[j].cell
  }

  const OFFSETS: seq<Cell> := [(-1, -1), (-1, 0), (-1, 1), (0, -1), (0, 1), (1, -1), (1, 0), (1, 1)]

  function Shift(c: Cell, k: nat): Cell
    requires k < 8
  {
    (c.0 + OFFSETS[k].0, c.1 + OFFSETS[k].1)
  }

  ghost predicate Someone(w: World, c: Cell) {
    exists j {:trigger w.people[j]} :: 0 <= j < |w.people| && w.people[j].cell == c
  }

  ghost predicate SomeoneOf(w: World, c: Cell, group: int) {
    exists j {:trigger w.people[j]} :: 0 <= j < |w.people| && w.people[j] == Person(c, group)
  }

  /** A fresh neighbourhood scan: same-group and occupied cells among the first `k` of the
      eight neighbours. */
  ghost function Scan(w: World, c: Cell, group: int, k: nat): (nat, nat)
    requires k <= 8
  {
    if k == 0 then (0, 0)
    else
      var (same, occupied) := Scan(w, c, group, k - 1);
      var n := Shift(c, k - 1);
      (same + (if SomeoneOf(w, n, group) then 1 else 0), occupied + (if Someone(w, n) then 1 else 0))
  }

  ghost function Counts(w: World, i: nat): (nat, nat)
    requires i < |w.people|
  {
    Scan(w, w.people[i].cell, w.people[i].group, 8)
  }

  /** The ratios of the first `k` agents that have neighbours: their sum and their number. */
  ghost function Ratios(w: World, k: nat): (real, nat)
    requires k <= |w.people|
  {
    if k == 0 then (0.0, 0) else WithRatio(Ratios(w, k - 1), Counts(w, k - 1))
  }

  /** An agent without neighbours has no ratio. */
  function WithRatio(sum: (real, nat), pair: (nat, nat)): (real, nat) {
    if pair.1 > 0 then (sum.0 + pair.0 as real / pair.1 as real, sum.1 + 1) else sum
  }

  ghost function Segregation(w: World): real {
    var (total, count) := Ratios(w, |w.people|);
    if count == 0 then 0.0 else total / count as real
  }

  predicate Content(counts: (nat, nat), threshold: real) {
    counts.1 == 0 || counts.0 as real >= threshold * (counts.1 as real)
  }

  ghost predicate Satisfied(w: World, threshold: real, i: nat)
    requires i < |w.people|
  {
    Content(Counts(w, i), threshold)
  }

  ghost predicate Empty(w: World, c: Cell) {
    Inside(w, c) && !Someone(w, c)
  }

  // ----- one tick as a relation -----

  /** `movers` and `targets` list the unsatisfied agents and the empty cells of the old
      world, each once, in some order. */
  ghost predicate Candidates(w: World, threshold: real, movers: seq<nat>, targets: seq<Cell>) {
    && Distinct(movers) && Distinct(targets)
    && (forall i: nat :: i in movers <==> i < |w.people| && !Satisfied(w, threshold, i))
    && (forall c :: c in targets <==> Empty(w, c))
  }

  /** The people after the first `k` pairs have moved. */
  ghost function Relocated(people: seq<Person>, movers: seq<nat>, targets: seq<Cell>, k: nat): seq<Person>
    requires k <= |movers| && k <= |targets| && forall i :: 0 <= i < |movers| ==> movers[i] < |people|
    ensures |Relocated(people, movers, targets, k)| == |people|
  {
    if k == 0 then people
    else
      var before := Relocated(people, movers, targets, k - 1);
      before[movers[k - 1] := Person(targets[k - 1], before[movers[k - 1]].group)]
  }

  ghost predicate TickBy(w: World, threshold: real, next: World, swapped: nat, movers: seq<nat>, targets: seq<Cell>) {
    && Candidates(w, threshold, movers, targets)
    && (forall i :: 0 <= i < |movers| ==> movers[i] < |w.people|)
    && swapped == Min(|movers|, |targets|)
    && next == w.(people := Relocated(w.people, movers, targets, swapped))
  }

  /** One tick: as many unsatisfied agents as there are empty cells move, the rest stay. */
  ghost predicate Tick(w: World, threshold: real, next: World, swapped: nat) {
    exists movers, targets :: TickBy(w, threshold, next, swapped, movers, targets)
  }

  lemma {:induction false} RelocatedPeople(people: seq<Person>, movers: seq<nat>, targets: seq<Cell>, k: nat)
    requires k <= |movers| && k <= |targets| && Distinct(movers)
    requires forall i :: 0 <= i < |movers| ==> movers[i] < |people|
    ensures forall i :: 0 <= i < |people| ==>
                          Relocated(people, movers, targets, k)[i].group == people[i].group
    ensures forall i :: 0 <= i < |people| && i !in movers[..k] ==> Relocated(people, movers, targets, k)[i] == people[i]
    ensures forall j :: 0 <= j < k ==> Relocated(people, movers, targets, k)[movers[j]].cell == targets[j]
  {
    if k > 0 {
      RelocatedPeople(people, movers, targets, k - 1);
      assert movers[..k] == movers[..k - 1] + [movers[k - 1]];
    }
  }

  /** The unsatisfied agents. */
  ghost function Restless(w: World, threshold: real): set<nat> {
    set i: nat | i < |w.people| && !Satisfied(w, threshold, i)
  }

  /** The empty cells. */
  ghost function Vacant(w: World): set<Cell> {
    set x, y | 0 <= x < w.width && 0 <= y < w.height && Empty(w, (x, y)) :: (x, y)
  }

  /** The agents that a tick relocated. */
  ghost function Moved(w: World, next: World): set<nat> {
    set i: nat | i < |w.people| && i < |next.people| && next.people[i] != w.people[i]
  }

  /** A tick relocates exactly min(unsatisfied, empty) agents: the number reported, the number
      of agents that stand elsewhere afterwards, and that minimum are equal. */
  lemma {:induction false} TickMovesExactly(w: World, threshold: real, next: World, swapped: nat)
    requires OnePerCell(w) && Tick(w, threshold, next, swapped)
    ensures |Moved(w, next)| == swapped == Min(|Restless(w, threshold)|, |Vacant(w)|)
  {
    var movers, targets :| TickBy(w, threshold, next, swapped, movers, targets);
    CandidatesCount(w, threshold, movers, targets);
    MovedAreMovers(w, threshold, movers, targets, swapped, next);
    DistinctSize(movers[..swapped]);
  }

  lemma {:induction false} CandidatesCount(w: World, threshold: real, movers: seq<nat>, targets: seq<Cell>)
    requires Candidates(w, threshold, movers, targets)
    ensures |movers| == |Restless(w, threshold)| && |targets| == |Vacant(w)|
  {
    DistinctSize(movers);
    DistinctSize(targets);
    assert Elements(movers) == Restless(w, threshold);
    assert Elements(targets) == Vacant(w);
  }

  lemma {:induction false} MovedAreMovers(w: World, threshold: real, movers: seq<nat>, targets: seq<Cell>, k: nat,
                                          next: World)
    requires OnePerCell(w) && Candidates(w, threshold, movers, targets) && k <= |movers| && k <= |targets|
    requires forall i :: 0 <= i < |movers| ==> movers[i] < |w.people|
    requires next == w.(people := Relocated(w.people, movers, targets, k))
    ensures Moved(w, next) == Elements(movers[..k])
  {
    RelocatedPeople(w.people, movers, targets, k);
    forall i | i in movers[..k] ensures i in Moved(w, next) {
      var j :| 0 <= j < k && movers[j] == i;
      assert targets[j] in targets && !Someone(w, targets[j]);
    }
  }

  /** A tick keeps one agent per cell and every agent's group, and moves unsatisfied agents
      only, each to a cell that was empty. */
  lemma {:induction false} TickKeepsOnePerCell(w: World, threshold: real, next: World, swapped: nat)
    requires OnePerCell(w) && Tick(w, threshold, next, swapped)
    ensures OnePerCell(next) && |next.people| == |w.people|
    ensures forall i :: 0 <= i < |w.people| ==> next.people[i].group == w.people[i].group
    ensures forall i :: 0 <= i < |w.people| && next.people[i] != w.people[i] ==>
                          !Satisfied(w, threshold, i) && Empty(w, next.people[i].cell)
  {
    var movers, targets :| TickBy(w, threshold, next, swapped, movers, targets);
    RelocatedPeople(w.people, movers, targets, swapped);
    forall i | 0 <= i < |w.people|
      ensures next.people[i] != w.people[i] ==>
                exists j :: 0 <= j < swapped && movers[j] == i && next.people[i].cell == targets[j]
    {
      if i in movers[..swapped] {
        var j :| 0 <= j < swapped && movers[j] == i;
      }
    }
    forall i, j | 0 <= i < j < |w.people| ensures next.people[i].cell != next.people[j].cell {
      CellsStayApart(w, threshold, movers, targets, swapped, i, j);
    }
    forall i | 0 <= i < |w.people|
      ensures Inside(next, next.people[i].cell)
      ensures next.people[i] != w.people[i] ==> !Satisfied(w, threshold, i) && Empty(w, next.people[i].cell)
    {
      if next.people[i] != w.people[i] {
        var j :| 0 <= j < swapped && movers[j] == i && next.people[i].cell == targets[j];
        assert movers[j] in movers && targets[j] in targets;
      }
    }
  }

  lemma {:induction false} CellsStayApart(w: World, threshold: real, movers: seq<nat>, targets: seq<Cell>, k: nat,
                                          i: nat, j: nat)
    requires OnePerCell(w) && Candidates(w, threshold, movers, targets) && k <= |movers| && k <= |targets|
    requires i < j < |w.people| && forall l :: 0 <= l < |movers| ==> movers[l] < |w.people|
    ensures Relocated(w.people, movers, targets, k)[i].cell != Relocated(w.people, movers, targets, k)[j].cell
  {
    RelocatedPeople(w.people, movers, targets, k);
    var next := Relocated(w.people, movers, targets, k);
    if i in movers[..k] && j in movers[..k] {
      var a :| 0 <= a < k && movers[a] == i;
      var b :| 0 <= b < k && movers[b] == j;
      assert a != b && targets[a] != targets[b];
    } else if i in movers[..k] {
      var a :| 0 <= a < k && movers[a] == i;
      assert targets[a] in targets && !Someone(w, targets[a]);
    } else if j in movers[..k] {
      var b :| 0 <= b < k && movers[b] == j;
      assert targets[b] in targets && !Someone(w, targets[b]);
    }
  }

  // ----- early stopping -----

  ghost predicate AllSatisfied(w: World, threshold: real) {
    forall i: nat {:trigger Satisfied(w, threshold, i)} :: i < |w.people| ==> Satisfied(w, threshold, i)
  }

  ghost predicate Full(w: World) {
    forall c {:trigger Empty(w, c)} :: !Empty(w, c)
  }

  /** A tick moves nobody exactly when everybody is satisfied or no cell is empty; then the
      world does not change. */
  lemma {:induction false} StandstillIff(w: World, threshold: real, next: World, swapped: nat)
    requires Tick(w, threshold, next, swapped)
    ensures swapped == 0 <==> AllSatisfied(w, threshold) || Full(w)
    ensures swapped == 0 ==> next == w
  {
    var movers, targets :| TickBy(w, threshold, next, swapped, movers, targets);
    if movers != [] {
      assert movers[0] in movers;
      assert !Satisfied(w, threshold, movers[0]);
    } else {
      assert forall i: nat :: i < |w.people| ==> i !in movers;
    }
    if targets != [] {
      assert targets[0] in targets;
      assert Empty(w, targets[0]);
    } else {
      assert forall c :: Empty(w, c) ==> c in targets;
    }
  }

  ghost predicate TickAt(trace: seq<World>, swaps: seq<nat>, threshold: real, k: nat)
    requires |trace| == |swaps| + 1 && k < |swaps|
  {
    Tick(trace[k], threshold, trace[k + 1], swaps[k])
  }

  ghost predicate Run(trace: seq<World>, swaps: seq<nat>, threshold: real) {
    && |trace| == |swaps| + 1
    && forall k {:trigger TickAt(trace, swaps, threshold, k)} :: 0 <= k < |swaps| ==> TickAt(trace, swaps, threshold, k)
  }

  /** Once a tick moves nobody, no later tick at the same threshold moves anybody: stopping
      there ends with the same world as running any larger budget. */
  lemma {:induction false} StandstillIsFinal(trace: seq<World>, swaps: seq<nat>, threshold: real, k: nat, j: nat)
    requires Run(trace, swaps, threshold) && k < |swaps| && swaps[k] == 0 && k <= j < |swaps|
    ensures swaps[j] == 0 && trace[j + 1] == trace[k + 1] == trace[k]
    decreases j
  {
    assert TickAt(trace, swaps, threshold, k) && TickAt(trace, swaps, threshold, j);
    StandstillIff(trace[k], threshold, trace[k + 1], swaps[k]);
    if k < j {
      StandstillIsFinal(trace, swaps, threshold, k, j - 1);
      StandstillIff(trace[j], threshold, trace[j + 1], swaps[j]);
    }
  }

  /** The `k`-th target is still empty when its turn comes. */
  ghost predicate TargetEmptyAt(w: World, movers: seq<nat>, targets: seq<Cell>, k: nat)
    requires k < |movers| && k < |targets| && forall i :: 0 <= i < |movers| ==> movers[i] < |w.people|
  {
    Empty(w.(people := Relocated(w.people, movers, targets, k)), targets[k])
  }

  lemma {:induction false} TargetsStayEmpty(w: World, threshold: real, movers: seq<nat>, targets: seq<Cell>)
    requires Candidates(w, threshold, movers, targets)
    requires forall i :: 0 <= i < |movers| ==> movers[i] < |w.people|
    ensures forall k {:trigger TargetEmptyAt(w, movers, targets, k)} ::
              0 <= k < Min(|movers|, |targets|) ==> TargetEmptyAt(w, movers, targets, k)
  {
    forall k {:trigger TargetEmptyAt(w, movers, targets, k)} | 0 <= k < Min(|movers|, |targets|)
      ensures TargetEmptyAt(w, movers, targets, k)
    {
      RelocatedPeople(w.people, movers, targets, k);
      var people := Relocated(w.people, movers, targets, k);
      assert targets[k] in targets && Empty(w, targets[k]);
      forall i | 0 <= i < |people| ensures people[i].cell != targets[k] {
        if i in movers[..k] {
          var a :| 0 <= a < k && movers[a] == i;
          assert targets[a] != targets[k];
        } else {
          assert people[i] == w.people[i];
        }
      }
    }
  }

  /** A shuffle under arbitrary draws: the same elements, each as often as before. */
  method Shuffle<T(==)>(s: seq<T>) returns (r: seq<T>)
    requires Distinct(s)
    ensures Distinct(r) && |r| == |s| && forall x :: x in r <==> x in s
  {
    r := s;
    for i := 0 to |s|
      invariant Distinct(r) && |r| == |s| && forall x :: x in r <==> x in s
    {
      var j: nat :| j < |r|;
      ghost var before := r;
      r := r[i := r[j]][j := r[i]];
      assert r[i] == before[j] && r[j] == before[i];
      assert forall k :: 0 <= k < |r| && k != i && k != j ==> r[k] == before[k];
      forall x | x in before ensures x in r {
        var k :| 0 <= k < |before| && before[k] == x;
        assert r[if k == i then j else if k == j then i else k] == x;
      }
    }
  }

  lemma {:induction false} StaysWithout<T>(s: seq<T>, i: nat, x: T)
    requires i < |s| && x in s && x != s[i]
    ensures x in s[..i] + s[i + 1..]
  {
    var j :| 0 <= j < |s| && s[j] == x;
    assert (s[..i] + s[i + 1..])[if j < i then j else j - 1] == x;
  }

  class SchellingAgent {
    var cell: Option<Cell>
    var group: int

    constructor (group: int)
      ensures cell == None && this.group == group
    {
      cell, this.group := None, group;
    }
  }

  class SchellingModel {
    const width: nat
    const height: nat
    var agents: seq<SchellingAgent>
    var occupant: map<Cell, SchellingAgent>
    var threshold: real
    var collectData: bool
    var counts: map<SchellingAgent, (nat, nat)>
    var lastSwapped: nat
    var tick: nat

    function View(): World
      reads this`agents, agents
    {
      var all := agents;
      World(width, height, seq(|all|, i requires 0 <= i < |all| reads all =>
                                 Person(if all[i].cell.Some? then all[i].cell.value else (0, 0), all[i].group)))
    }

    /** Agents and cells point at each other, one agent to a cell. */
    ghost predicate Placed()
      reads this`agents, this`occupant, agents
    {
      && (forall i, j :: 0 <= i < j < |agents| ==> agents[i] != agents[j])
      && (forall i {:trigger agents[i]} :: 0 <= i < |agents| ==>
            agents[i].cell.Some? && agents[i].cell.value in occupant && occupant[agents[i].cell.value] == agents[i])
      && forall c {:trigger c in occupant} :: c in occupant ==>
             Inside(World(width, height, []), c) && occupant[c] in agents && occupant[c].cell == Some(c)
    }

    /** Every cached pair equals a fresh scan. */
    ghost predicate CacheFresh()
      reads this`agents, this`counts, agents
    {
      forall i {:trigger Counts(View(), i)} :: 0 <= i < |agents| && agents[i] in counts ==>
        counts[agents[i]] == Counts(View(), i)
    }

    ghost predicate Valid()
      reads this`agents, this`occupant, this`counts, agents
    {
      Placed() && CacheFresh()
    }

    /** An empty grid; the population is added cell by cell. */
    constructor (width: nat, height: nat, threshold: real, collectData: bool)
      ensures Valid() && View() == World(width, height, []) && agents == []
    {
      this.width, this.height, this.threshold, this.collectData := width, height, threshold, collectData;
      agents, occupant, counts, lastSwapped, tick := [], map[], map[], 0, 0;
    }

    lemma {:induction false} OccupantIsSomeone(c: Cell, group: int)
      requires Placed()
      ensures Someone(View(), c) <==> c in occupant
      ensures SomeoneOf(View(), c, group) <==> c in occupant && occupant[c].group == group
    {
      if c in occupant {
        var j :| 0 <= j < |agents| && agents[j] == occupant[c];
        assert View().people[j] == Person(c, occupant[c].group);
      }
    }

    lemma {:induction false} PlacedIsOnePerCell()
      requires Placed()
      ensures OnePerCell(View())
    {
      forall i | 0 <= i < |agents| ensures Inside(View(), View().people[i].cell) {
        assert agents[i].cell.value in occupant;
      }
      forall i, j | 0 <= i < j < |agents| ensures View().people[i].cell != View().people[j].cell {
        assert occupant[agents[i].cell.value] == agents[i] && occupant[agents[j].cell.value] == agents[j];
      }
    }

    /** The scan of the eight neighbouring cells. */
    method ScanNeighbors(i: nat) returns (result: (nat, nat))
      requires Placed() && i < |agents|
      ensures result == Counts(View(), i)
    {
      var same, occupied := 0, 0;
      var cell, group := agents[i].cell.value, agents[i].group;
      for k := 0 to 8
        invariant (same, occupied) == Scan(View(), cell, group, k)
      {
        var n := Shift(cell, k);
        OccupantIsSomeone(n, group);
        if n in occupant {
          occupied := occupied + 1;
          if occupant[n].group == group {
            same := same + 1;
          }
        }
      }
      result := (same, occupied);
    }

    /** Counts through the cache; the cache is filled only while data is collected. */
    method NeighborCounts(i: nat) returns (result: (nat, nat))
      requires Valid() && i < |agents|
      modifies this`counts
      ensures Valid() && result == Counts(View(), i)
    {
      assert agents[i] in counts ==> counts[agents[i]] == Counts(View(), i);
      if collectData && agents[i] in counts {
        return counts[agents[i]];
      }
      result := ScanNeighbors(i);
      if collectData {
        counts := counts[agents[i] := result];
      }
    }

    method IsSatisfied(i: nat) returns (satisfied: bool)
      requires Valid() && i < |agents|
      modifies this`counts
      ensures Valid() && (satisfied <==> Satisfied(View(), threshold, i))
    {
      var pair: (nat, nat);
      if collectData {
        pair := NeighborCounts(i);
      } else {
        pair := ScanNeighbors(i);
      }
      satisfied := Content(pair, threshold);
    }

    /** Move an agent to an empty cell; the derived counts are discarded. */
    method SetCell(i: nat, c: Cell)
      requires Valid() && i < |agents| && Empty(View(), c)
      modifies this`occupant, this`counts, agents[i]
      ensures Valid() && View().people == old(View().people)[i := Person(c, old(agents[i].group))]
    {
      OccupantIsSomeone(c, 0);
      var agent := agents[i];
      ghost var people := View().people;
      occupant := (occupant - {agent.cell.value})[c := agent];
      agent.cell := Some(c);
      counts := map[];
      assert View().people == people[i := Person(c, agent.group)];
    }

    method SetGroup(i: nat, group: int)
      requires Valid() && i < |agents|
      modifies this`counts, agents[i]
      ensures Valid() && View().people == old(View().people)[i := Person(old(View().people[i].cell), group)]
    {
      ghost var people := View().people;
      agents[i].group := group;
      counts := map[];
      assert View().people == people[i := Person(people[i].cell, group)];
    }

    method Add(c: Cell, group: int)
      requires Valid() && Empty(View(), c)
      modifies this`agents, this`occupant, this`counts
      ensures Valid() && View().people == old(View().people) + [Person(c, group)]
      ensures fresh(agents[|agents| - 1]) && agents[..|agents| - 1] == old(agents)
    {
      OccupantIsSomeone(c, group);
      ghost var people := View().people;
      var agent := new SchellingAgent(group);
      agent.cell := Some(c);
      occupant := occupant[c := agent];
      agents := agents + [agent];
      counts := map[];
      assert View().people == people + [Person(c, group)];
    }

    method Remove(i: nat)
      requires Valid() && i < |agents|
      modifies this`agents, this`occupant, this`counts, agents[i]
      ensures Valid() && View().people == old(View().people)[..i] + old(View().people)[i + 1..]
    {
      ghost var people := View().people;
      var agent := agents[i];
      agents := agents[..i] + agents[i + 1..];
      occupant := occupant - {agent.cell.value};
      agent.cell := None;
      counts := map[];
      ghost var was := old(agents);
      assert forall j {:trigger agents[j]} :: 0 <= j < |agents| ==> agents[j] == was[if j < i then j else j + 1];
      assert View().people == people[..i] + people[i + 1..];
      forall c | c in occupant ensures occupant[c] in agents {
        StaysWithout(was, i, occupant[c]);
      }
    }

    method SetThreshold(value: real)
      modifies this`threshold
      ensures 0.0 <= threshold <= 1.0 && (0.0 <= value <= 1.0 ==> threshold == value)
    {
      threshold := if value < 0.0 then 0.0 else if value > 1.0 then 1.0 else value;
    }

    method SetCollectData(value: bool)
      modifies this`collectData
      ensures collectData == value
    {
      collectData := value;
    }

    /** The unsatisfied agents, judged on the current world. */
    method Unsatisfied() returns (result: seq<nat>)
      requires Valid()
      modifies this`counts
      ensures Valid() && Distinct(result)
      ensures forall i: nat :: i in result <==> i < |agents| && !Satisfied(View(), threshold, i)
    {
      result := [];
      for i := 0 to |agents|
        invariant Valid() && Distinct(result)
        invariant forall j: nat :: j in result <==> j < i && !Satisfied(View(), threshold, j)
      {
        var satisfied := IsSatisfied(i);
        if !satisfied {
          result := result + [i];
        }
      }
    }

    method EmptyCells() returns (result: seq<Cell>)
      requires Placed()
      ensures Distinct(result) && forall c :: c in result <==> Empty(View(), c)
    {
      result := [];
      for x := 0 to width
        invariant Distinct(result)
        invariant forall c :: c in result <==> Inside(View(), c) && c.0 < x && c !in occupant
      {
        for y := 0 to height
          invariant Distinct(result)
          invariant forall c :: c in result <==>
                                  Inside(View(), c) && (c.0 < x || (c.0 == x && c.1 < y)) && c !in occupant
        {
          if (x, y) !in occupant {
            result := result + [(x, y)];
          }
        }
      }
      forall c ensures c in result <==> Empty(View(), c) {
        OccupantIsSomeone(c, 0);
      }
    }

    /** Pair the movers with the targets, one move at a time. */
    method RelocateAll(movers: seq<nat>, targets: seq<Cell>) returns (swapped: nat)
      requires Valid() && Candidates(View(), threshold, movers, targets)
      requires forall i :: 0 <= i < |movers| ==> movers[i] < |agents|
      modifies this`occupant, this`counts, agents
      ensures Valid() && swapped == Min(|movers|, |targets|)
      ensures View() == old(View()).(people := Relocated(old(View().people), movers, targets, swapped))
    {
      ghost var w := View();
      swapped := Min(|movers|, |targets|);
      TargetsStayEmpty(w, threshold, movers, targets);
      for k := 0 to swapped
        invariant Valid() && View() == w.(people := Relocated(w.people, movers, targets, k))
      {
        assert TargetEmptyAt(w, movers, targets, k);
        SetCell(movers[k], targets[k]);
      }
    }

    /** The unsatisfied agents and the empty cells at the start of the tick, shuffled. */
    method ChooseMoves() returns (movers: seq<nat>, targets: seq<Cell>)
      requires Valid()
      modifies this`counts
      ensures Valid() && Candidates(View(), threshold, movers, targets)
    {
      var unsatisfied := Unsatisfied();
      var empties := EmptyCells();
      movers := Shuffle(unsatisfied);
      targets := Shuffle(empties);
    }

    /** The mean share of same-group neighbours, read through the cache or by scanning. */
    method SegregationIndex() returns (index: real)
      requires Valid()
      modifies this`counts
      ensures Valid() && index == Segregation(View())
    {
      ghost var w := View();
      var sum := (0.0, 0);
      for i := 0 to |agents|
        invariant Valid() && View() == w && sum == Ratios(w, i)
      {
        var pair := NeighborCounts(i);
        sum := WithRatio(sum, pair);
      }
      index := if sum.1 == 0 then 0.0 else sum.0 / sum.1 as real;
    }

    /** Choose the moves on the current world and carry them out. */
    method Relocate() returns (swapped: nat)
      requires Valid()
      modifies this`occupant, this`counts, agents
      ensures Valid() && OnePerCell(View()) && Tick(old(View()), threshold, View(), swapped)
      ensures swapped == Min(|Restless(old(View()), threshold)|, |Vacant(old(View()))|)
    {
      ghost var w := View();
      var movers, targets := ChooseMoves();
      CandidatesAreIndices(w, threshold, movers, targets);
      swapped := RelocateAll(movers, targets);
      RelocationIsTick(w, threshold, movers, targets, View());
      CandidatesCount(w, threshold, movers, targets);
      PlacedIsOnePerCell();
    }

    /** One batch relocation: a tick of the relation at the current threshold. */
    method Advance() returns (moved: bool)
      requires Valid()
      modifies this`occupant, this`counts, this`lastSwapped, this`tick, agents
      ensures Valid() && Tick(old(View()), threshold, View(), lastSwapped) && tick == old(tick) + 1
      ensures OnePerCell(View()) && (moved <==> lastSwapped > 0)
      ensures lastSwapped == Min(|Restless(old(View()), threshold)|, |Vacant(old(View()))|)
    {
      var swapped := Relocate();
      lastSwapped := swapped;
      tick := tick + 1;
      moved := swapped > 0;
    }
  }

  lemma {:induction false} RelocationIsTick(w: World, threshold: real, movers: seq<nat>, targets: seq<Cell>,
                                            next: World)
    requires Candidates(w, threshold, movers, targets) && forall i :: 0 <= i < |movers| ==> movers[i] < |w.people|
    requires next == w.(people := Relocated(w.people, movers, targets, Min(|movers|, |targets|)))
    ensures Tick(w, threshold, next, Min(|movers|, |targets|))
  {
    assert TickBy(w, threshold, next, Min(|movers|, |targets|), movers, targets);
  }

  lemma {:induction false} CandidatesAreIndices(w: World, threshold: real, movers: seq<nat>, targets: seq<Cell>)
    requires Candidates(w, threshold, movers, targets)
    ensures forall i :: 0 <= i < |movers| ==> movers[i] < |w.people|
  {
    forall i | 0 <= i < |movers| ensures movers[i] < |w.people| {
      assert movers[i] in movers;
    }
  }

  lemma {:induction false} RunNext(trace: seq<World>, swaps: seq<nat>, threshold: real, next: World, swapped: nat)
    requires Run(trace, swaps, threshold) && Tick(trace[|swaps|], threshold, next, swapped)
    ensures Run(trace + [next], swaps + [swapped], threshold)
  {
    var longer, more := trace + [next], swaps + [swapped];
    forall k | 0 <= k < |more| ensures TickAt(longer, more, threshold, k) {
      assert k < |swaps| ==> TickAt(trace, swaps, threshold, k);
    }
  }

  /** Run up to `steps` ticks; in convergence mode stop at the first that moves nobody. The
      trace names the worlds passed through. */
  method AdvanceTrial(model: SchellingModel, steps: nat, convergence: bool)
    returns (stepsRun: nat, stopped: bool, ghost trace: seq<World>, ghost swaps: seq<nat>)
    requires model.Valid()
    modifies model`occupant, model`counts, model`lastSwapped, model`tick, model.agents
    ensures model.Valid() && OnePerCell(model.View()) && model.agents == old(model.agents)
    ensures Run(trace, swaps, model.threshold) && |swaps| == stepsRun <= steps
    ensures trace[0] == old(model.View()) && trace[stepsRun] == model.View()
    ensures stopped ==> convergence && stepsRun > 0 && swaps[stepsRun - 1] == 0 && model.lastSwapped == 0
    ensures !stopped ==> stepsRun == steps
    ensures stopped ==> AllSatisfied(model.View(), model.threshold) || Full(model.View())
  {
    trace, swaps := [model.View()], [];
    model.PlacedIsOnePerCell();
    for done := 0 to steps
      invariant model.Valid() && OnePerCell(model.View()) && model.agents == old(model.agents)
      invariant |trace| == done + 1 && |swaps| == done && trace[0] == old(model.View()) && trace[done] == model.View()
      invariant Run(trace, swaps, model.threshold)
    {
      ghost var before := model.View();
      var moved := model.Advance();
      RunNext(trace, swaps, model.threshold, model.View(), model.lastSwapped);
      trace, swaps := trace + [model.View()], swaps + [model.lastSwapped];
      if convergence && model.lastSwapped == 0 {
        StandstillIff(before, model.threshold, model.View(), 0);
        return done + 1, true, trace, swaps;
      }
    }
    return steps, false, trace, swaps;
  }

  datatype Termination = AllContent | Jammed | Limit

  /** The outcome of a finished trial. */
  method Summarize(model: SchellingModel, stopped: bool) returns (termination: Termination)
    requires model.Valid()
    modifies model`counts
    ensures model.Valid()
    ensures termination == if !stopped then Limit
                           else if AllSatisfied(model.View(), model.threshold) then AllContent else Jammed
  {
    var unhappy := model.Unsatisfied();
    if unhappy != [] {
      assert unhappy[0] in unhappy && !Satisfied(model.View(), model.threshold, unhappy[0]);
    }
    termination := if !stopped then Limit else if unhappy == [] then AllContent else Jammed;
  }

  /** A trial that stopped early is jammed only when no cell is empty, and any longer run
      from its last world, with other shuffles, ends in that same world. */
  lemma {:induction false} EarlyStopIsSound(trace: seq<World>, swaps: seq<nat>, longer: seq<World>, more: seq<nat>,
                                            threshold: real)
    requires Run(trace, swaps, threshold) && |swaps| > 0 && swaps[|swaps| - 1] == 0
    requires Run(longer, more, threshold) && longer[0] == trace[|trace| - 1]
    ensures longer[|longer| - 1] == trace[|trace| - 1]
    ensures forall j :: 0 <= j < |more| ==> more[j] == 0
    ensures !AllSatisfied(trace[|trace| - 1], threshold) ==> Full(trace[|trace| - 1])
  {
    var last := |swaps| - 1;
    assert TickAt(trace, swaps, threshold, last);
    StandstillIff(trace[last], threshold, trace[last + 1], 0);
    if |more| > 0 {
      assert TickAt(longer, more, threshold, 0);
      StandstillIff(longer[0], threshold, longer[1], more[0]);
      forall j | 0 <= j < |more| ensures more[j] == 0 && longer[j + 1] == longer[0] {
        StandstillIsFinal(longer, more, threshold, 0, j);
      }
      StandstillIsFinal(longer, more, threshold, 0, |more| - 1);
    }
  }
}
