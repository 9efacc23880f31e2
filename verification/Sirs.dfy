/** A grid SIRS model: sampling the first infections without replacement, the synchronous step,
    checkpoints, and rebuilding the people from a published scene in any order. */
module Sirs {
  import opened Prelude

  /** `Unknown` is any other text a payload may carry. */
  datatype Health = Susceptible | Infected | Recovered | Unknown(text: string)

  datatype Person = Person(id: int, state: Health)

  datatype Config = Config(beta: real, gamma: real, xi: real, initialInfected: int, rows: int, cols: int, seed: nat)
  {
    predicate InRange() {
      rows > 0 && cols > 0 && initialInfected >= 0 && Probability(beta) && Probability(gamma) && Probability(xi)
    }
  }

  datatype Snapshot = Snapshot(config: Config, people: seq<Person>, tick: int, rng: nat)

  predicate Probability(value: real) {
    0.0 <= value <= 1.0
  }

  // ----- the random stream -----

  const MODULUS: nat := 0x1_0000_0000

  function NextRng(r: nat): nat {
    (r * 1664525 + 1013904223) % MODULUS
  }

  /** The draw made when the stream reaches state `r`. */
  function Uniform(r: nat): real {
    r as real / MODULUS as real
  }

  function Offset(r: nat, size: nat): int {
    (Uniform(r) * size as real).Floor
  }

  lemma {:induction false} OffsetIsBelow(r: nat, size: nat)
    requires size > 0
    ensures 0 <= Offset(NextRng(r), size) < size
  {
    var u := Uniform(NextRng(r));
    Scaled(u, size as real);
    Floored(u * size as real, size);
  }

  lemma {:induction false} Floored(x: real, bound: nat)
    requires 0.0 <= x < bound as real
    ensures 0 <= x.Floor < bound
  {
    assert x.Floor as real <= x;
  }

  lemma {:induction false} Scaled(u: real, size: real)
    requires 0.0 <= u < 1.0 && size > 0.0
    ensures 0.0 <= u * size < size
  {
    assert (1.0 - u) * size > 0.0;
  }

  // ----- sampling without replacement -----

  /** The index list and the stream after `k` rounds of a partial shuffle of `0..n`. */
  function Shuffled(seed: nat, n: nat, k: nat): (r: (seq<nat>, nat))
    requires k <= n
    ensures |r.0| == n
  {
    if k == 0 then (seq(n, i => i), seed)
    else
      var (indices, rng) := Shuffled(seed, n, k - 1);
      var next := NextRng(rng);
      OffsetIsBelow(rng, n - (k - 1));
      var j := k - 1 + Offset(next, n - (k - 1));
      (Exchanged(indices, k - 1, j), next)
  }

  function Exchanged(s: seq<nat>, i: nat, j: nat): (r: seq<nat>)
    requires i < |s| && j < |s|
    ensures |r| == |s|
  {
    s[i := s[j]][j := s[i]]
  }

  /** Where the next round of the shuffle draws from. */
  lemma {:induction false} ShuffledNext(seed: nat, n: nat, k: nat)
    requires k < n
    ensures var (indices, rng) := Shuffled(seed, n, k);
            var j := k + Offset(NextRng(rng), n - k);
            k <= j < n && Shuffled(seed, n, k + 1) == (Exchanged(indices, k, j), NextRng(rng))
  {
    OffsetIsBelow(Shuffled(seed, n, k).1, n - k);
  }

  function Picked(seed: nat, n: nat, k: nat): seq<nat>
    requires k <= n
  {
    Shuffled(seed, n, k).0[..k]
  }

  lemma {:induction false} SwapPermutes(s: seq<nat>, i: nat, j: nat)
    requires i < |s| && j < |s| && Permutation(s, |s|)
    ensures Permutation(Exchanged(s, i, j), |s|)
  {
  }

  lemma {:induction false} ShuffleKeepsPermutation(seed: nat, n: nat, k: nat)
    requires k <= n
    ensures Permutation(Shuffled(seed, n, k).0, n)
  {
    if k > 0 {
      ShuffleKeepsPermutation(seed, n, k - 1);
      var (indices, rng) := Shuffled(seed, n, k - 1);
      OffsetIsBelow(rng, n - (k - 1));
      SwapPermutes(indices, k - 1, k - 1 + Offset(NextRng(rng), n - (k - 1)));
    }
  }

  /** A later round leaves the indices already picked alone. */
  lemma {:induction false} PickedGrows(seed: nat, n: nat, k: nat)
    requires k < n
    ensures Picked(seed, n, k + 1) == Picked(seed, n, k) + [Shuffled(seed, n, k + 1).0[k]]
  {
    OffsetIsBelow(Shuffled(seed, n, k).1, n - k);
  }

  predicate DistinctBelow(s: seq<nat>, n: nat) {
    Distinct(s) && forall i :: 0 <= i < |s| ==> s[i] < n
  }

  /** Everybody susceptible except the given people. */
  function Seeded(n: nat, infected: seq<nat>): seq<Person> {
    seq(n, id => Person(id, if id in infected then Infected else Susceptible))
  }

  function Count(people: seq<Person>, h: Health, upto: nat): nat
    requires upto <= |people|
  {
    if upto == 0 then 0 else Count(people, h, upto - 1) + if people[upto - 1].state == h then 1 else 0
  }

  lemma {:induction false} CountsPartition(people: seq<Person>, upto: nat)
    requires upto <= |people| && forall id :: 0 <= id < |people| ==> !people[id].state.Unknown?
    ensures Count(people, Susceptible, upto) + Count(people, Infected, upto) + Count(people, Recovered, upto) == upto
  {
    if upto > 0 {
      CountsPartition(people, upto - 1);
    }
  }

  lemma {:induction false} CountOneMore(n: nat, infected: seq<nat>, x: nat, upto: nat)
    requires x < n && x !in infected && upto <= n
    ensures Count(Seeded(n, infected + [x]), Infected, upto)
         == Count(Seeded(n, infected), Infected, upto) + if x < upto then 1 else 0
  {
    if upto > 0 {
      CountOneMore(n, infected, x, upto - 1);
    }
  }

  lemma {:induction false} CountNone(n: nat, upto: nat)
    requires upto <= n
    ensures Count(Seeded(n, []), Infected, upto) == 0
  {
    if upto > 0 {
      CountNone(n, upto - 1);
    }
  }

  lemma {:induction false} CountSeeded(n: nat, infected: seq<nat>)
    requires DistinctBelow(infected, n)
    ensures Count(Seeded(n, infected), Infected, n) == |infected|
  {
    if infected == [] {
      CountNone(n, n);
    } else {
      var rest, x := infected[..|infected| - 1], infected[|infected| - 1];
      assert infected == rest + [x];
      CountSeeded(n, rest);
      CountOneMore(n, rest, x, n);
    }
  }

  /** How many people a reset infects. */
  function InitialCount(c: Config, n: nat): nat {
    if c.initialInfected < 0 then 0 else Min(c.initialInfected, n)
  }

  /** A reset infects exactly the requested number of people, or everybody if there are fewer:
      the sample has no repetition. */
  lemma {:induction false} ResetInfects(c: Config, n: nat)
    ensures var k := InitialCount(c, n);
            && DistinctBelow(Picked(c.seed, n, k), n) && |Picked(c.seed, n, k)| == k
            && Count(Seeded(n, Picked(c.seed, n, k)), Infected, n) == k
            && Count(Seeded(n, Picked(c.seed, n, k)), Susceptible, n) == n - k
            && Permutation(Shuffled(c.seed, n, k).0, n)
  {
    var k := InitialCount(c, n);
    var people := Seeded(n, Picked(c.seed, n, k));
    ShuffleKeepsPermutation(c.seed, n, k);
    CountSeeded(n, Picked(c.seed, n, k));
    CountsPartition(people, n);
    NoneRecovered(people, n);
  }

  lemma {:induction false} NoneRecovered(people: seq<Person>, upto: nat)
    requires upto <= |people| && forall id :: 0 <= id < |people| ==> !people[id].state.Recovered?
    ensures Count(people, Recovered, upto) == 0
  {
    if upto > 0 {
      NoneRecovered(people, upto - 1);
    }
  }

  // ----- the grid -----

  /** The neighbours of a cell in the order in which they are asked. */
  function NeighborsOf(rows: int, cols: int, id: nat): seq<int>
    requires cols > 0
  {
    var row, col := id / cols, id % cols;
    (if row > 0 then [id - cols] else []) + (if row + 1 < rows then [id + cols] else [])
    + (if col > 0 then [id - 1] else []) + (if col + 1 < cols then [id + 1] else [])
  }

  /** Two cells of the grid that share a side. */
  predicate Adjacent(cols: int, a: int, b: int)
    requires cols > 0
  {
    Abs(a / cols - b / cols) + Abs(a % cols - b % cols) == 1
  }

  lemma {:induction false} CellInGrid(rows: int, cols: int, row: int, col: int)
    requires cols > 0 && 0 <= row < rows && 0 <= col < cols
    ensures 0 <= row * cols + col < rows * cols
    ensures (row * cols + col) / cols == row && (row * cols + col) % cols == col
  {
    RemainderIsUnique(row * cols + col, cols, row, col);
    assert (rows - row - 1) * cols >= 0;
  }

  lemma {:induction false} PlaceOf(rows: int, cols: int, id: int)
    requires cols > 0 && 0 <= id < rows * cols
    ensures 0 <= id / cols < rows && id == (id / cols) * cols + id % cols
  {
    var d := id / cols - rows;
    assert id == d * cols + rows * cols + id % cols;
    assert d >= 0 ==> d * cols >= 0;
  }

  lemma {:induction false} NeighborIsAdjacent(rows: int, cols: int, id: nat, other: int)
    requires rows > 0 && cols > 0 && id < rows * cols && other in NeighborsOf(rows, cols, id)
    ensures 0 <= other < rows * cols && Adjacent(cols, id, other)
  {
    var row, col := id / cols, id % cols;
    PlaceOf(rows, cols, id);
    var (row2, col2) :=
      if other == id - cols && row > 0 then (row - 1, col)
      else if other == id + cols && row + 1 < rows then (row + 1, col)
      else if other == id - 1 && col > 0 then (row, col - 1)
      else (row, col + 1);
    SidesMeet(cols, row, col, row2, col2);
    CellInGrid(rows, cols, row2, col2);
  }

  lemma {:induction false} AdjacentIsNeighbor(rows: int, cols: int, id: nat, other: int)
    requires rows > 0 && cols > 0 && id < rows * cols
    requires 0 <= other < rows * cols && Adjacent(cols, id, other)
    ensures other in NeighborsOf(rows, cols, id)
  {
    PlaceOf(rows, cols, id);
    PlaceOf(rows, cols, other);
    SidesMeet(cols, id / cols, id % cols, other / cols, other % cols);
  }

  lemma {:induction false} SidesMeet(cols: int, row: int, col: int, row2: int, col2: int)
    requires Abs(row - row2) + Abs(col - col2) == 1
    ensures var d := (row2 * cols + col2) - (row * cols + col);
            || (row2 == row && col2 == col - 1 && d == -1) || (row2 == row && col2 == col + 1 && d == 1)
            || (row2 == row - 1 && col2 == col && d == -cols) || (row2 == row + 1 && col2 == col && d == cols)
  {
    assert row2 * cols - row * cols == (row2 - row) * cols;
  }

  /** The neighbours are the cells of the grid that share a side with it, and no others. */
  lemma {:induction false} NeighborsShareASide(rows: int, cols: int, id: nat, other: int)
    requires rows > 0 && cols > 0 && id < rows * cols
    ensures other in NeighborsOf(rows, cols, id) <==> 0 <= other < rows * cols && Adjacent(cols, id, other)
  {
    if other in NeighborsOf(rows, cols, id) {
      NeighborIsAdjacent(rows, cols, id, other);
    }
    if 0 <= other < rows * cols && Adjacent(cols, id, other) {
      AdjacentIsNeighbor(rows, cols, id, other);
    }
  }

  // ----- one synchronous step -----

  /** Ask the neighbours from position `k` on; an infected one costs a draw, and a success ends it. */
  function Exposure(c: Config, people: seq<Person>, others: seq<int>, k: nat, rng: nat): (bool, nat)
    requires k <= |others| && forall i :: 0 <= i < |others| ==> 0 <= others[i] < |people|
    decreases |others| - k
  {
    if k == |others| then (false, rng)
    else if people[others[k]].state == Infected then
      var next := NextRng(rng);
      if Uniform(next) < c.beta then (true, next) else Exposure(c, people, others, k + 1, next)
    else Exposure(c, people, others, k + 1, rng)
  }

  predicate Fits(c: Config, people: seq<Person>) {
    c.rows > 0 && c.cols > 0 && |people| == c.rows * c.cols
  }

  lemma {:induction false} NeighborsExist(c: Config, people: seq<Person>, id: nat)
    requires Fits(c, people) && id < |people|
    ensures forall i :: 0 <= i < |NeighborsOf(c.rows, c.cols, id)| ==>
              0 <= NeighborsOf(c.rows, c.cols, id)[i] < |people|
  {
    forall i | 0 <= i < |NeighborsOf(c.rows, c.cols, id)| ensures 0 <= NeighborsOf(c.rows, c.cols, id)[i] < |people| {
      NeighborsShareASide(c.rows, c.cols, id, NeighborsOf(c.rows, c.cols, id)[i]);
    }
  }

  /** The next state of one person, and the stream after its draws. */
  function Fate(c: Config, people: seq<Person>, id: nat, rng: nat): (Health, nat)
    requires Fits(c, people) && id < |people|
  {
    match people[id].state
    case Susceptible =>
      NeighborsExist(c, people, id);
      var (caught, next) := Exposure(c, people, NeighborsOf(c.rows, c.cols, id), 0, rng);
      (if caught then Infected else Susceptible, next)
    case Infected =>
      var next := NextRng(rng);
      (if Uniform(next) < c.gamma then Recovered else Infected, next)
    case Recovered =>
      var next := NextRng(rng);
      (if Uniform(next) < c.xi then Susceptible else Recovered, next)
    case Unknown(_) => (people[id].state, rng)
  }

  /** The people and the stream after the first `upto` people have been dealt with. */
  function Stepped(c: Config, people: seq<Person>, rng: nat, upto: nat): (r: (seq<Person>, nat))
    requires Fits(c, people) && upto <= |people|
    ensures |r.0| == |people|
  {
    if upto == 0 then (people, rng)
    else
      var (next, before) := Stepped(c, people, rng, upto - 1);
      var (state, after) := Fate(c, people, upto - 1, before);
      (next[upto - 1 := Person(next[upto - 1].id, state)], after)
  }

  predicate Moves(before: Health, after: Health) {
    match before
    case Susceptible => after == Susceptible || after == Infected
    case Infected => after == Infected || after == Recovered
    case Recovered => after == Recovered || after == Susceptible
    case Unknown(_) => after == before
  }

  /** Someone infected shares a side with this person. */
  predicate Exposed(c: Config, people: seq<Person>, id: nat)
    requires Fits(c, people)
  {
    exists other :: 0 <= other < |people| && Adjacent(c.cols, id, other) && people[other].state == Infected
  }

  lemma {:induction false} CatchingNeedsContact(c: Config, people: seq<Person>, id: nat, k: nat, rng: nat)
    requires Fits(c, people) && id < |people| && k <= |NeighborsOf(c.rows, c.cols, id)|
    requires forall i :: 0 <= i < |NeighborsOf(c.rows, c.cols, id)| ==>
              0 <= NeighborsOf(c.rows, c.cols, id)[i] < |people|
    requires Exposure(c, people, NeighborsOf(c.rows, c.cols, id), k, rng).0
    ensures Exposed(c, people, id)
    decreases |NeighborsOf(c.rows, c.cols, id)| - k
  {
    var others := NeighborsOf(c.rows, c.cols, id);
    if people[others[k]].state == Infected {
      NeighborsShareASide(c.rows, c.cols, id, others[k]);
      if Uniform(NextRng(rng)) >= c.beta {
        CatchingNeedsContact(c, people, id, k + 1, NextRng(rng));
      }
    } else {
      CatchingNeedsContact(c, people, id, k + 1, rng);
    }
  }

  /** The step is synchronous: whatever order people are dealt with in, everybody keeps the
      identity, moves along the cycle, and catches the disease only from a neighbour who was
      infected before the step. */
  predicate Synchronous(c: Config, people: seq<Person>, next: seq<Person>, id: nat)
    requires Fits(c, people) && |next| == |people| && id < |people|
  {
    && next[id].id == people[id].id && Moves(people[id].state, next[id].state)
    && (people[id].state == Susceptible && next[id].state == Infected ==> Exposed(c, people, id))
  }

  lemma {:induction false} StepIsSynchronous(c: Config, people: seq<Person>, rng: nat, upto: nat, id: nat)
    requires Fits(c, people) && upto <= |people| && id < |people|
    ensures var next := Stepped(c, people, rng, upto).0;
            if id < upto then Synchronous(c, people, next, id) else next[id] == people[id]
  {
    if upto > 0 {
      StepIsSynchronous(c, people, rng, upto - 1, id);
      var before := Stepped(c, people, rng, upto - 1).1;
      if id == upto - 1 && people[id].state == Susceptible {
        NeighborsExist(c, people, id);
        if Exposure(c, people, NeighborsOf(c.rows, c.cols, id), 0, before).0 {
          CatchingNeedsContact(c, people, id, 0, before);
        }
      }
    }
  }

  // ----- whole runs -----

  /** The rates may be changed between ticks, the grid may not. */
  predicate SameGrid(configs: seq<Config>, c: Config) {
    forall k {:trigger configs[k]} :: 0 <= k < |configs| ==> configs[k].rows == c.rows && configs[k].cols == c.cols
  }

  function Run(c: Config, configs: seq<Config>, people: seq<Person>, rng: nat, ticks: nat): (r: (seq<Person>, nat))
    requires Fits(c, people) && SameGrid(configs, c) && ticks <= |configs|
    ensures |r.0| == |people|
  {
    if ticks == 0 then (people, rng)
    else
      var (before, mid) := Run(c, configs, people, rng, ticks - 1);
      Stepped(configs[ticks - 1], before, mid, |people|)
  }

  /** A cell that at most `steps` moves between cells sharing a side lead to from an infected one. */
  ghost predicate Within(c: Config, people: seq<Person>, id: int, steps: nat)
    requires Fits(c, people)
    decreases steps
  {
    && 0 <= id < |people|
    && if steps == 0 then people[id].state == Infected
       else Within(c, people, id, steps - 1)
            || exists other {:trigger Within(c, people, other, steps - 1)} ::
                 Within(c, people, other, steps - 1) && Adjacent(c.cols, id, other)
  }

  /** The disease travels at most one cell a tick, over every run: nobody is infected after
      some ticks who is further than that from the first infections. */
  lemma {:induction false} InfectionTravels(c: Config, configs: seq<Config>, people: seq<Person>, rng: nat, ticks: nat,
                                            id: nat)
    requires Fits(c, people) && SameGrid(configs, c) && ticks <= |configs| && id < |people|
    ensures Run(c, configs, people, rng, ticks).0[id].state == Infected ==> Within(c, people, id, ticks)
  {
    if ticks > 0 && Run(c, configs, people, rng, ticks).0[id].state == Infected {
      var (before, mid) := Run(c, configs, people, rng, ticks - 1);
      StepIsSynchronous(configs[ticks - 1], before, mid, |people|, id);
      if before[id].state == Infected {
        InfectionTravels(c, configs, people, rng, ticks - 1, id);
      } else {
        var other :| 0 <= other < |people| && Adjacent(c.cols, id, other) && before[other].state == Infected;
        InfectionTravels(c, configs, people, rng, ticks - 1, other);
      }
    }
  }

  lemma {:induction false} NothingWithin(c: Config, people: seq<Person>, id: int, steps: nat)
    requires Fits(c, people) && forall i :: 0 <= i < |people| ==> people[i].state != Infected
    ensures !Within(c, people, id, steps)
    decreases steps
  {
    if steps > 0 {
      NothingWithin(c, people, id, steps - 1);
      var fewer := steps - 1;
      forall other | 0 <= other < |people| ensures !Within(c, people, other, fewer) {
        NothingWithin(c, people, other, fewer);
      }
    }
  }

  /** An epidemic that has died out stays out, whatever the rates become. */
  lemma {:induction false} ExtinctionIsFinal(c: Config, configs: seq<Config>, people: seq<Person>, rng: nat, ticks: nat,
                                             id: nat)
    requires Fits(c, people) && SameGrid(configs, c) && ticks <= |configs| && id < |people|
    requires forall i :: 0 <= i < |people| ==> people[i].state != Infected
    ensures Run(c, configs, people, rng, ticks).0[id].state != Infected
  {
    if Run(c, configs, people, rng, ticks).0[id].state == Infected {
      InfectionTravels(c, configs, people, rng, ticks, id);
      NothingWithin(c, people, id, ticks);
    }
  }

  // ----- checkpoints -----

  const WORD: int := 0x1_0000_0000_0000_0000

  /** The product of the dimensions as a 64-bit machine computes it. */
  function CellCount(c: Config): int {
    var low := c.rows * c.cols % WORD;
    if low < WORD / 2 then low else low - WORD
  }

  lemma {:induction false} CellCountIsExactIff(c: Config)
    ensures CellCount(c) == c.rows * c.cols <==> -(WORD / 2) <= c.rows * c.cols < WORD / 2
  {
    var product := c.rows * c.cols;
    if 0 <= product < WORD / 2 {
      RemainderIsUnique(product, WORD, 0, product);
    } else if -(WORD / 2) <= product < 0 {
      RemainderIsUnique(product, WORD, -1, product + WORD);
    }
  }

  /** The state right after a reset. */
  function ResetState(c: Config): Snapshot
    requires CellCount(c) >= 0
  {
    var n := CellCount(c);
    var k := InitialCount(c, n);
    Snapshot(c, Seeded(n, Picked(c.seed, n, k)), 0, Shuffled(c.seed, n, k).1)
  }

  function StepState(s: Snapshot): Snapshot
    requires Fits(s.config, s.people)
  {
    var (people, rng) := Stepped(s.config, s.people, s.rng, |s.people|);
    Snapshot(s.config, people, s.tick + 1, rng)
  }

  predicate Canonical(people: seq<Person>, upto: nat)
    requires upto <= |people|
  {
    forall id :: 0 <= id < upto ==> people[id].id == id && !people[id].state.Unknown?
  }

  /** The checkpoints that a restore accepts. */
  predicate Accepted(s: Snapshot) {
    && s.config.InRange() && s.tick >= 0 && |s.people| == CellCount(s.config) && Canonical(s.people, |s.people|)
  }

  /** The checkpoints of a model with one person in each cell of its grid. */
  predicate Restorable(s: Snapshot) {
    && s.config.InRange() && s.tick >= 0 && Fits(s.config, s.people) && Canonical(s.people, |s.people|)
  }

  /** An accepted checkpoint has one person for each cell exactly when the number of cells
      is a machine integer; a list that can exist is never longer than that. */
  lemma {:induction false} AcceptedFitsIff(s: Snapshot)
    requires |s.people| < WORD / 2
    ensures Restorable(s) <==> Accepted(s) && s.config.rows * s.config.cols < WORD / 2
  {
    CellCountIsExactIff(s.config);
    if s.config.InRange() {
      assert s.config.rows * s.config.cols > 0;
    }
  }

  /** A checkpoint of a grid of 2**32 rows and columns is accepted without a single person. */
  lemma {:induction false} EmptyHugeGridIsAccepted(c: Config, rng: nat)
    requires c.InRange() && c.rows == c.cols == 0x1_0000_0000
    ensures var s := Snapshot(c, [], 0, rng);
            Accepted(s) && !Restorable(s)
  {
    assert c.rows * c.cols == WORD;
  }

  /** A reset leads to a checkpoint that is accepted whenever there are people to make, and
      to one that fits its grid when the number of cells is a machine integer. */
  lemma {:induction false} ResetIsRestorable(c: Config)
    requires c.InRange() && CellCount(c) >= 0
    ensures Accepted(ResetState(c))
    ensures Restorable(ResetState(c)) <==> c.rows * c.cols < WORD / 2
  {
    CellCountIsExactIff(c);
    assert c.rows * c.cols > 0;
  }

  /** A step leads from a checkpoint that is accepted to one that is accepted. */
  lemma {:induction false} StepIsRestorable(s: Snapshot)
    requires Restorable(s)
    ensures Restorable(StepState(s))
  {
    var next := StepState(s).people;
    forall id | 0 <= id < |next| ensures next[id].id == id && !next[id].state.Unknown? {
      StepIsSynchronous(s.config, s.people, s.rng, |s.people|, id);
    }
  }

  // ----- people from a published scene -----

  /** A published item; a field that is missing or of the wrong type is `None`. */
  datatype Item = Item(id: Option<real>, x: Option<real>, y: Option<real>, state: Option<Health>)
  {
    /** The checks one item must pass by itself. */
    predicate Readable(cols: int, n: nat) {
      && id.Some? && 0.0 <= id.value < n as real && id.value.Floor as real == id.value
      && cols > 0
      && x == Some((id.value.Floor % cols) as real) && y == Some((id.value.Floor / cols) as real)
      && state.Some? && !state.value.Unknown?
    }

    function Place(): int
      requires id.Some?
    {
      id.value.Floor
    }
  }

  /** Every item is readable and no two name the same person. */
  predicate Readables(items: seq<Item>, cols: int, upto: nat)
    requires upto <= |items|
  {
    && (forall k {:trigger items[k]} :: 0 <= k < upto ==> items[k].Readable(cols, |items|))
    && (forall j, k {:trigger items[j], items[k]} :: 0 <= j < k < upto ==> items[j].Place() != items[k].Place())
  }

  /** Each item's person is where the item says. */
  predicate Filled(items: seq<Item>, upto: nat, people: seq<Person>)
    requires upto <= |items|
    requires forall k {:trigger items[k]} :: 0 <= k < upto ==> items[k].id.Some? && items[k].state.Some?
  {
    forall k {:trigger items[k]} :: 0 <= k < upto ==>
      0 <= items[k].Place() < |people| && people[items[k].Place()] == Person(items[k].Place(), items[k].state.value)
  }

  /** Every slot is filled. */
  lemma {:induction false} EverySlotIsFilled(items: seq<Item>, cols: int, id: int)
    requires Readables(items, cols, |items|) && 0 <= id < |items|
    ensures exists k {:trigger items[k]} :: 0 <= k < |items| && items[k].Place() == id
  {
    assert forall k {:trigger items[k]} :: 0 <= k < |items| ==> items[k].Readable(cols, |items|);
    var ids: seq<nat> := seq(|items|, k requires 0 <= k < |items| => items[k].Place());
    PermutationHas(ids, |ids|, id);
    var k :| 0 <= k < |ids| && ids[k] == id;
    assert items[k].Place() == id;
  }

  /** So the items determine the people, whatever their order. */
  lemma {:induction false} FilledIsUnique(items: seq<Item>, cols: int, a: seq<Person>, b: seq<Person>)
    requires Readables(items, cols, |items|) && |a| == |b| == |items|
    requires Filled(items, |items|, a) && Filled(items, |items|, b)
    ensures a == b && Canonical(a, |a|)
  {
    forall id | 0 <= id < |a| ensures a[id] == b[id] && a[id].id == id && !a[id].state.Unknown? {
      EverySlotIsFilled(items, cols, id);
      var k :| 0 <= k < |items| && items[k].Place() == id;
    }
  }

  /** What the scene publishes about one person. */
  function Published(cols: int, p: Person): Item
    requires cols > 0
  {
    Item(Some(p.id as real), Some((p.id % cols) as real), Some((p.id / cols) as real), Some(p.state))
  }

  /** A scene of these people: one item for each, in any order. */
  predicate SceneOf(items: seq<Item>, cols: int, people: seq<Person>, order: seq<nat>)
    requires cols > 0
  {
    && |items| == |people| == |order| && Permutation(order, |order|)
    && forall k {:trigger items[k]} :: 0 <= k < |items| ==> items[k] == Published(cols, people[order[k]])
  }

  /** The published people are accepted in any order, and only they fit the items. */
  lemma {:induction false} SceneRestoresPeople(items: seq<Item>, cols: int, people: seq<Person>, order: seq<nat>,
                                               rebuilt: seq<Person>)
    requires cols > 0 && Canonical(people, |people|) && SceneOf(items, cols, people, order)
    ensures Readables(items, cols, |items|) && Filled(items, |items|, people)
    ensures |rebuilt| == |items| && Filled(items, |items|, rebuilt) ==> rebuilt == people
  {
    SceneIsReadable(items, cols, people, order);
    if |rebuilt| == |items| && Filled(items, |items|, rebuilt) {
      FilledIsUnique(items, cols, rebuilt, people);
    }
  }

  lemma {:induction false} SceneIsReadable(items: seq<Item>, cols: int, people: seq<Person>, order: seq<nat>)
    requires cols > 0 && Canonical(people, |people|) && SceneOf(items, cols, people, order)
    ensures Readables(items, cols, |items|) && Filled(items, |items|, people)
  {
    forall k | 0 <= k < |items| ensures items[k].Readable(cols, |items|) && items[k].Place() == order[k] {
      assert people[order[k]].id == order[k];
    }
  }

  // ----- the mutable model -----

  class Model {
    var config: Config
    var people: array<Person>
    var tick: int
    var rng: nat

    ghost function State(): Snapshot
      reads this, people
    {
      Snapshot(config, people[..], tick, rng)
    }

    constructor (config: Config)
      requires CellCount(config) >= 0
      ensures State() == ResetState(config) && fresh(people)
    {
      this.config, tick, rng := config, 0, 0;
      people := new Person[0](_ => Person(0, Susceptible));
      new;
      Reset();
    }

    method Random() returns (value: real)
      modifies this`rng
      ensures rng == NextRng(old(rng)) && value == Uniform(rng)
    {
      rng := NextRng(rng);
      value := rng as real / MODULUS as real;
    }

    /** Start over: everybody susceptible, then the first infections are sampled. */
    method Reset()
      requires CellCount(config) >= 0
      modifies this`people, this`tick, this`rng
      ensures State() == ResetState(config) && fresh(people)
    {
      var n := CellCount(config);
      people := new Person[n](id => Person(id, Susceptible));
      rng := config.seed;
      assert people[..] == Seeded(n, []);
      Sample(n);
      tick := 0;
    }

    method Draw(size: nat) returns (offset: int)
      modifies this`rng
      ensures rng == NextRng(old(rng)) && offset == Offset(rng, size)
    {
      var u := Random();
      offset := (u * size as real).Floor;
    }

    /** One round of the partial shuffle. */
    method Swap(indices: array<nat>, i: nat)
      requires i < indices.Length && indices[..] == Shuffled(config.seed, indices.Length, i).0
      requires rng == Shuffled(config.seed, indices.Length, i).1
      modifies this`rng, indices
      ensures indices[..] == Shuffled(config.seed, indices.Length, i + 1).0
      ensures rng == Shuffled(config.seed, indices.Length, i + 1).1
    {
      ghost var before := indices[..];
      ShuffledNext(config.seed, indices.Length, i);
      var offset := Draw(indices.Length - i);
      var j := i + offset;
      indices[i], indices[j] := indices[j], indices[i];
      assert indices[..] == Exchanged(before, i, j);
    }

    /** One round of the sampling: draw a person that is left and infect it. */
    method SampleOne(indices: array<nat>, i: nat)
      requires i < indices.Length == people.Length && indices[..] == Shuffled(config.seed, people.Length, i).0
      requires rng == Shuffled(config.seed, people.Length, i).1
      requires people[..] == Seeded(people.Length, Picked(config.seed, people.Length, i))
      modifies this`rng, indices, people
      ensures indices[..] == Shuffled(config.seed, people.Length, i + 1).0
      ensures rng == Shuffled(config.seed, people.Length, i + 1).1
      ensures people[..] == Seeded(people.Length, Picked(config.seed, people.Length, i + 1))
    {
      ghost var picked := Picked(config.seed, people.Length, i);
      Swap(indices, i);
      PickedGrows(config.seed, people.Length, i);
      ShuffleKeepsPermutation(config.seed, people.Length, i + 1);
      Infect(indices, i, picked);
    }

    /** The sampling loop of a reset. */
    method Sample(n: nat)
      requires people.Length == n && people[..] == Seeded(n, []) && rng == config.seed
      modifies this`rng, people
      ensures var k := InitialCount(config, n);
              people[..] == Seeded(n, Picked(config.seed, n, k)) && rng == Shuffled(config.seed, n, k).1
    {
      var indices := new nat[n](i => i);
      var i := 0;
      while i < config.initialInfected && i < n
        invariant 0 <= i <= n && (i > 0 ==> i <= config.initialInfected)
        invariant indices[..] == Shuffled(config.seed, n, i).0 && rng == Shuffled(config.seed, n, i).1
        invariant people[..] == Seeded(n, Picked(config.seed, n, i))
      {
        SampleOne(indices, i);
        i := i + 1;
      }
    }

    /** The person drawn by round `i` falls ill. */
    method Infect(indices: array<nat>, i: nat, ghost picked: seq<nat>)
      requires i < indices.Length == people.Length && Permutation(indices[..], indices.Length)
      requires people[..] == Seeded(people.Length, picked)
      modifies people
      ensures people[..] == Seeded(people.Length, picked + [indices[i]])
    {
      assert indices[..][i] < people.Length;
      people[indices[i]] := Person(people[indices[i]].id, Infected);
    }

    /** Ask the neighbours one after the other until one passes the disease on. */
    method Expose(others: seq<int>) returns (caught: bool)
      requires forall i :: 0 <= i < |others| ==> 0 <= others[i] < people.Length
      modifies this`rng
      ensures (caught, rng) == Exposure(config, people[..], others, 0, old(rng))
    {
      for k := 0 to |others|
        invariant Exposure(config, people[..], others, k, rng) == Exposure(config, people[..], others, 0, old(rng))
      {
        if people[others[k]].state == Infected {
          var u := Random();
          if u < config.beta {
            return true;
          }
        }
      }
      caught := false;
    }

    method Meet(id: nat) returns (state: Health)
      requires Fits(config, people[..]) && id < people.Length
      modifies this`rng
      ensures (state, rng) == Fate(config, people[..], id, old(rng))
    {
      state := people[id].state;
      match people[id].state
      case Susceptible =>
        NeighborsExist(config, people[..], id);
        var caught := Expose(NeighborsOf(config.rows, config.cols, id));
        if caught {
          state := Infected;
        }
      case Infected =>
        var u := Random();
        if u < config.gamma {
          state := Recovered;
        }
      case Recovered =>
        var u := Random();
        if u < config.xi {
          state := Susceptible;
        }
      case Unknown(_) =>
    }

    /** One tick: the people read the old states while the new ones are written to a copy. */
    method Step()
      requires Fits(config, people[..])
      modifies this`people, this`tick, this`rng
      ensures State() == StepState(old(State())) && fresh(people)
      ensures Restorable(old(State())) ==> Restorable(State())
    {
      if Restorable(State()) {
        StepIsRestorable(State());
      }
      var next := new Person[people.Length](i requires 0 <= i < people.Length reads this, people => people[i]);
      assert next[..] == people[..];
      for id := 0 to people.Length
        invariant people == old(people) && people[..] == old(people[..]) && tick == old(tick)
        invariant next[..] == Stepped(config, people[..], old(rng), id).0
        invariant rng == Stepped(config, people[..], old(rng), id).1
      {
        var state := Meet(id);
        next[id] := Person(next[id].id, state);
      }
      people := next;
      tick := tick + 1;
    }

    method Counts() returns (s: nat, i: nat, r: nat)
      ensures s == Count(people[..], Susceptible, people.Length)
      ensures i == Count(people[..], Infected, people.Length)
      ensures r == Count(people[..], Recovered, people.Length)
      ensures Canonical(people[..], people.Length) ==> s + i + r == people.Length
    {
      s, i, r := 0, 0, 0;
      for id := 0 to people.Length
        invariant s == Count(people[..], Susceptible, id)
        invariant i == Count(people[..], Infected, id)
        invariant r == Count(people[..], Recovered, id)
      {
        match people[id].state
        case Susceptible => s := s + 1;
        case Infected => i := i + 1;
        case Recovered => r := r + 1;
        case Unknown(_) =>
      }
      if Canonical(people[..], people.Length) {
        CountsPartition(people[..], people.Length);
      }
    }

    method TakeSnapshot() returns (s: Snapshot)
      ensures s == State()
    {
      s := Snapshot(config, people[..], tick, rng);
    }

    /** A checkpoint is taken over whole or, when it is not well formed, not at all. */
    method Restore(state: Snapshot) returns (ok: bool)
      modifies this
      ensures ok <==> Accepted(state)
      ensures if ok then State() == state && fresh(people) else unchanged(this)
    {
      if !state.config.InRange() || state.tick < 0 || |state.people| != CellCount(state.config) {
        return false;
      }
      for id := 0 to |state.people|
        invariant Canonical(state.people, id) && unchanged(this)
      {
        if state.people[id].id != id || state.people[id].state.Unknown? {
          return false;
        }
      }
      config, tick, rng := state.config, state.tick, state.rng;
      people := new Person[|state.people|](i requires 0 <= i < |state.people| => state.people[i]);
      assert people[..] == state.people;
      ok := true;
    }

    /** Rebuild the people from published items in any order; nothing changes unless every
        item is readable and all of them together name every person once. */
    method RestorePeople(items: seq<Item>) returns (ok: bool)
      requires config.cols > 0
      modifies this`people
      ensures ok <==> |items| == people.Length && Readables(items, config.cols, |items|)
      ensures ok ==> fresh(people) && people.Length == |items| && Filled(items, |items|, people[..])
      ensures ok ==> Canonical(people[..], people.Length)
      ensures !ok ==> people == old(people)
    {
      if |items| != people.Length {
        return false;
      }
      var rebuilt := new Person[|items|](_ => Person(0, Unknown("")));
      var seen := new bool[|items|](_ => false);
      ghost var ids := [];
      for k := 0 to |items|
        invariant Readables(items, config.cols, k) && people == old(people)
        invariant |ids| == k && forall j {:trigger items[j]} :: 0 <= j < k ==> ids[j] == items[j].Place()
        invariant forall id :: 0 <= id < |items| ==> (seen[id] <==> id in ids)
        invariant Filled(items, k, rebuilt[..])
      {
        var item := items[k];
        if !item.Readable(config.cols, |items|) {
          return false;
        }
        var id := item.Place();
        if seen[id] {
          ghost var j :| 0 <= j < |ids| && ids[j] == id;
          assert items[j].Place() == items[k].Place();
          return false;
        }
        seen[id] := true;
        rebuilt[id] := Person(id, item.state.value);
        ids := ids + [id];
      }
      FilledIsUnique(items, config.cols, rebuilt[..], rebuilt[..]);
      people := rebuilt;
      ok := true;
    }
  }
}
