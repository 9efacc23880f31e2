/** Wolves and sheep on a torus: pursuit strictly approaches its target, the per-cell prey
    index stays exact while wolves eat, and every sheep is accounted for. */
module PredatorPrey {
  import opened Prelude

  type Cell = (int, int)

  datatype Animal = Animal(id: nat, cell: Cell, energy: real, age: nat)

  datatype Config = Config(
    width: nat,
    height: nat,
    sheepGain: real,
    wolfGain: real,
    sheepLoss: real,
    wolfLoss: real,
    sight: nat,
    regrowthSteps: nat)
  {
    predicate WellFormed() { width > 0 && height > 0 }

    predicate OnTorus(c: Cell) { 0 <= c.0 < width && 0 <= c.1 < height }
  }

  // ----- pursuit -----

  /** The unit step that shortens the way round a ring of `size`, or zero. */
  function ToroidalDelta(source: int, target: int, size: int): int {
    var direct := target - source;
    if 2 * Abs(direct) <= size then (if direct > 0 then 1 else if direct < 0 then -1 else 0)
    else if direct > 0 then -1 else 1
  }

  function MoveToward(c: Config, from: Cell, target: Cell): Cell
    requires c.WellFormed()
  {
    if Abs(target.0 - from.0) > Abs(target.1 - from.1) then
      ((from.0 + ToroidalDelta(from.0, target.0, c.width)) % c.width, from.1)
    else
      (from.0, (from.1 + ToroidalDelta(from.1, target.1, c.height)) % c.height)
  }

  /** The distance along one axis of the torus. */
  function Around(a: int, b: int, size: int): int {
    Min(Abs(a - b), size - Abs(a - b))
  }

  function DistanceSq(c: Config, a: Cell, b: Cell): int {
    var dx, dy := Around(a.0, b.0, c.width), Around(a.1, b.1, c.height);
    Square(dx) + Square(dy)
  }

  /** The square of a distance, by its differences. */
  function Square(d: int): nat {
    if d <= 0 then 0 else Square(d - 1) + 2 * d - 1
  }

  lemma {:induction false} SquareIsProduct(d: nat)
    ensures Square(d) == d * d
  {
    if d > 0 {
      SquareIsProduct(d - 1);
    }
  }

  /** The squared distance is the sum of the squares along the two axes. */
  lemma {:induction false} DistanceSqIsProduct(c: Config, a: Cell, b: Cell)
    requires c.OnTorus(a) && c.OnTorus(b)
    ensures var dx, dy := Around(a.0, b.0, c.width), Around(a.1, b.1, c.height);
            DistanceSq(c, a, b) == dx * dx + dy * dy
  {
    SquareIsProduct(Around(a.0, b.0, c.width));
    SquareIsProduct(Around(a.1, b.1, c.height));
  }

  lemma {:induction false} WrapOnce(x: int, size: int)
    requires size > 0 && -1 <= x <= size
    ensures x % size == if x == -1 then size - 1 else if x == size then 0 else x
  {
    RemainderIsUnique(x, size, if x == -1 then -1 else if x == size then 1 else 0,
                      if x == -1 then size - 1 else if x == size then 0 else x);
  }

  /** One step along an axis brings the walker exactly one closer, unless it is there. */
  lemma {:induction false} AxisStepApproaches(a: int, b: int, size: int)
    requires 0 <= a < size && 0 <= b < size && a != b
    ensures var next := (a + ToroidalDelta(a, b, size)) % size;
            0 <= next < size && Around(next, b, size) == Around(a, b, size) - 1
  {
    WrapOnce(a + ToroidalDelta(a, b, size), size);
  }

  lemma {:induction false} MoveAcross(c: Config, from: Cell, target: Cell)
    requires c.WellFormed() && c.OnTorus(from) && c.OnTorus(target) && Abs(target.0 - from.0) > Abs(target.1 - from.1)
    ensures var to := MoveToward(c, from, target);
            && c.OnTorus(to) && to.1 == from.1
            && Around(to.0, target.0, c.width) == Around(from.0, target.0, c.width) - 1
  {
    AxisStepApproaches(from.0, target.0, c.width);
  }

  lemma {:induction false} MoveAlong(c: Config, from: Cell, target: Cell)
    requires c.WellFormed() && c.OnTorus(from) && c.OnTorus(target)
    requires Abs(target.0 - from.0) <= Abs(target.1 - from.1) && from.1 != target.1
    ensures var to := MoveToward(c, from, target);
            && c.OnTorus(to) && to.0 == from.0
            && Around(to.1, target.1, c.height) == Around(from.1, target.1, c.height) - 1
  {
    AxisStepApproaches(from.1, target.1, c.height);
  }

  lemma {:induction false} MoveNowhere(c: Config, from: Cell)
    requires c.WellFormed() && c.OnTorus(from)
    ensures MoveToward(c, from, from) == from
  {
    WrapOnce(from.1, c.height);
  }

  lemma {:induction false} CloserAlongAxis(c: Config, from: Cell, to: Cell, target: Cell)
    requires c.OnTorus(target) && c.OnTorus(to)
    requires || (to.1 == from.1 && Around(to.0, target.0, c.width) == Around(from.0, target.0, c.width) - 1)
             || (to.0 == from.0 && Around(to.1, target.1, c.height) == Around(from.1, target.1, c.height) - 1)
    ensures DistanceSq(c, to, target) < DistanceSq(c, from, target)
  {
  }

  /** A wolf that chases a target strictly lowers its squared distance on the torus, and
      stays put exactly when it is already there. */
  lemma {:induction false} PursuitApproaches(c: Config, from: Cell, target: Cell)
    requires c.WellFormed() && c.OnTorus(from) && c.OnTorus(target)
    ensures c.OnTorus(MoveToward(c, from, target))
    ensures from == target ==> MoveToward(c, from, target) == from
    ensures from != target ==> DistanceSq(c, MoveToward(c, from, target), target) < DistanceSq(c, from, target)
  {
    if from == target {
      MoveNowhere(c, from);
    } else {
      if Abs(target.0 - from.0) > Abs(target.1 - from.1) {
        MoveAcross(c, from, target);
      } else {
        MoveAlong(c, from, target);
      }
      CloserAlongAxis(c, from, MoveToward(c, from, target), target);
    }
  }

  // ----- herds and the prey index -----

  predicate UniqueIds(herd: seq<Animal>) {
    forall i, j :: 0 <= i < j < |herd| ==> herd[i].id != herd[j].id
  }

  /** Some animal among the first `k` has the identity. */
  predicate HasId(herd: seq<Animal>, k: nat, id: nat)
    requires k <= |herd|
  {
    exists j :: 0 <= j < k && herd[j].id == id
  }

  predicate IdsBelow(herd: seq<Animal>, bound: nat) {
    forall i :: 0 <= i < |herd| ==> herd[i].id < bound
  }

  predicate OnTorusAll(c: Config, herd: seq<Animal>) {
    forall i :: 0 <= i < |herd| ==> c.OnTorus(herd[i].cell)
  }

  /** Those among the first `k` that stand at a cell, in order. */
  function StackOf(herd: seq<Animal>, cell: Cell, k: nat): seq<Animal>
    requires k <= |herd|
  {
    if k == 0 then []
    else StackOf(herd, cell, k - 1) + (if herd[k - 1].cell == cell then [herd[k - 1]] else [])
  }

  function StackAt(index: map<Cell, seq<Animal>>, cell: Cell): seq<Animal> {
    if cell in index then index[cell] else []
  }

  /** The index lists, at each cell, exactly the members of the herd that stand there, in
      the order of the herd. */
  ghost predicate Indexes(herd: seq<Animal>, index: map<Cell, seq<Animal>>) {
    forall cell {:trigger StackAt(index, cell)} :: StackAt(index, cell) == StackOf(herd, cell, |herd|)
  }

  /** The first `k` animals without the one of the given id. */
  function Without(herd: seq<Animal>, id: nat, k: nat): seq<Animal>
    requires k <= |herd|
  {
    if k == 0 then []
    else if herd[k - 1].id == id then Without(herd, id, k - 1)
    else Without(herd, id, k - 1) + [herd[k - 1]]
  }

  lemma {:induction false} WithoutMembers(herd: seq<Animal>, id: nat, k: nat)
    requires k <= |herd|
    ensures forall a :: a in Without(herd, id, k) <==> a in herd[..k] && a.id != id
  {
    if k > 0 {
      WithoutMembers(herd, id, k - 1);
      assert herd[..k] == herd[..k - 1] + [herd[k - 1]];
    }
  }

  lemma {:induction false} WithoutUnique(herd: seq<Animal>, id: nat, k: nat)
    requires k <= |herd| && UniqueIds(herd)
    ensures UniqueIds(Without(herd, id, k))
    ensures |Without(herd, id, k)| == k - if HasId(herd, k, id) then 1 else 0
  {
    if k > 0 {
      WithoutUnique(herd, id, k - 1);
      WithoutMembers(herd, id, k - 1);
      var rest := Without(herd, id, k - 1);
      forall i | 0 <= i < |rest| ensures rest[i].id != herd[k - 1].id {
        assert rest[i] in rest && rest[i] in herd[..k - 1];
      }
      if herd[k - 1].id == id {
        assert forall i :: 0 <= i < k - 1 ==> herd[i].id != id;
      }
    }
  }

  lemma {:induction false} StackOfMore(herd: seq<Animal>, a: Animal, cell: Cell, k: nat)
    requires k <= |herd|
    ensures StackOf(herd + [a], cell, k) == StackOf(herd, cell, k)
  {
    if k > 0 {
      StackOfMore(herd, a, cell, k - 1);
    }
  }

  lemma {:induction false} WithoutMore(herd: seq<Animal>, a: Animal, id: nat, k: nat)
    requires k <= |herd|
    ensures Without(herd + [a], id, k) == Without(herd, id, k)
  {
    if k > 0 {
      WithoutMore(herd, a, id, k - 1);
    }
  }

  /** Filtering the herd filters every stack. */
  lemma {:induction false} StackWithout(herd: seq<Animal>, id: nat, cell: Cell, k: nat)
    requires k <= |herd|
    ensures var fewer, stack := Without(herd, id, k), StackOf(herd, cell, k);
            StackOf(fewer, cell, |fewer|) == Without(stack, id, |stack|)
  {
    if k > 0 {
      StackWithout(herd, id, cell, k - 1);
      var a, stack, fewer := herd[k - 1], StackOf(herd, cell, k - 1), Without(herd, id, k - 1);
      WithoutMore(stack, a, id, |stack|);
      StackOfMore(fewer, a, cell, |fewer|);
      assert (stack + [a])[|stack|] == a && (fewer + [a])[|fewer|] == a;
      assert StackOf(herd, cell, k) == if a.cell == cell then stack + [a] else stack;
    }
  }

  lemma {:induction false} WithoutNone(herd: seq<Animal>, id: nat, k: nat)
    requires k <= |herd| && forall i :: 0 <= i < k ==> herd[i].id != id
    ensures Without(herd, id, k) == herd[..k]
  {
    if k > 0 {
      WithoutNone(herd, id, k - 1);
    }
  }

  lemma {:induction false} StackMember(herd: seq<Animal>, cell: Cell, k: nat, i: nat) returns (j: nat)
    requires k <= |herd| && i < |StackOf(herd, cell, k)|
    ensures j < k && herd[j] == StackOf(herd, cell, k)[i] && herd[j].cell == cell
  {
    if i < |StackOf(herd, cell, k - 1)| {
      j := StackMember(herd, cell, k - 1, i);
    } else {
      j := k - 1;
    }
  }

  lemma {:induction false} StackIsUnique(herd: seq<Animal>, cell: Cell, k: nat)
    requires k <= |herd| && UniqueIds(herd)
    ensures UniqueIds(StackOf(herd, cell, k))
  {
    if k > 0 {
      StackIsUnique(herd, cell, k - 1);
      var stack := StackOf(herd, cell, k - 1);
      forall i | 0 <= i < |stack| ensures stack[i].id != herd[k - 1].id {
        var j := StackMember(herd, cell, k - 1, i);
      }
    }
  }

  /** What a wolf arriving at a cell leaves of the herd: the last sheep of the cell is eaten. */
  function Bite(herd: seq<Animal>, cell: Cell): seq<Animal> {
    var stack := StackOf(herd, cell, |herd|);
    if stack == [] then herd else Without(herd, stack[|stack| - 1].id, |herd|)
  }

  /** A bite takes the last sheep off its own stack and leaves every other stack alone. */
  lemma {:induction false} BittenStack(herd: seq<Animal>, cell: Cell, d: Cell)
    requires UniqueIds(herd) && StackOf(herd, cell, |herd|) != []
    ensures var left, stack := Bite(herd, cell), StackOf(herd, d, |herd|);
            StackOf(left, d, |left|) == if d == cell then stack[..|stack| - 1] else stack
  {
    var stack, at := StackOf(herd, cell, |herd|), StackOf(herd, d, |herd|);
    var last := |stack| - 1;
    var id := stack[last].id;
    StackWithout(herd, id, d, |herd|);
    if d == cell {
      StackIsUnique(herd, cell, |herd|);
      WithoutNone(stack, id, last);
    } else {
      var e := StackMember(herd, cell, |herd|, last);
      forall i | 0 <= i < |at| ensures at[i].id != id {
        var j := StackMember(herd, d, |herd|, i);
      }
      WithoutNone(at, id, |at|);
    }
  }

  /** Popping a sheep from its stack and filtering it from the herd keeps the index exact. */
  lemma {:induction false} EatingKeepsIndex(herd: seq<Animal>, index: map<Cell, seq<Animal>>, cell: Cell)
    requires UniqueIds(herd) && Indexes(herd, index) && StackAt(index, cell) != []
    ensures Indexes(Bite(herd, cell), index[cell := index[cell][..|index[cell]| - 1]])
  {
    var left, less := Bite(herd, cell), index[cell := index[cell][..|index[cell]| - 1]];
    assert StackAt(index, cell) == StackOf(herd, cell, |herd|);
    forall d {:trigger StackAt(less, d)} ensures StackAt(less, d) == StackOf(left, d, |left|) {
      assert StackAt(index, d) == StackOf(herd, d, |herd|);
      BittenStack(herd, cell, d);
    }
  }

  lemma {:induction false} BiteTakesOne(herd: seq<Animal>, cell: Cell)
    requires UniqueIds(herd)
    ensures UniqueIds(Bite(herd, cell)) && forall a :: a in Bite(herd, cell) ==> a in herd
    ensures |Bite(herd, cell)| == |herd| - if StackOf(herd, cell, |herd|) != [] then 1 else 0
  {
    var stack := StackOf(herd, cell, |herd|);
    if stack != [] {
      var id := stack[|stack| - 1].id;
      var e := StackMember(herd, cell, |herd|, |stack| - 1);
      WithoutUnique(herd, id, |herd|);
      WithoutMembers(herd, id, |herd|);
      assert herd[..|herd|] == herd;
    }
  }

  lemma {:induction false} IndexNext(herd: seq<Animal>, a: Animal, index: map<Cell, seq<Animal>>)
    requires Indexes(herd, index)
    ensures Indexes(herd + [a], index[a.cell := StackAt(index, a.cell) + [a]])
  {
    var more := index[a.cell := StackAt(index, a.cell) + [a]];
    forall cell {:trigger StackAt(more, cell)} ensures StackAt(more, cell) == StackOf(herd + [a], cell, |herd| + 1) {
      StackOfMore(herd, a, cell, |herd|);
      assert StackAt(index, cell) == StackOf(herd, cell, |herd|);
    }
  }

  // ----- survival and births, alike for both species -----

  /** An animal after its move and meal, and whether the birth draw favours it. */
  datatype Outcome = Outcome(animal: Animal, favoured: bool) {
    predicate Bears(threshold: real) { animal.energy > 0.0 && favoured && animal.energy >= threshold }
  }

  /** A starved animal is gone; a birth halves the energy of its parent. */
  function Stays(o: Outcome, threshold: real): seq<Animal> {
    if o.animal.energy <= 0.0 then []
    else if o.Bears(threshold) then [o.animal.(energy := o.animal.energy * 0.5)] else [o.animal]
  }

  /** The newborn takes the other half, at the same place, under its own identity. */
  function Born(o: Outcome, threshold: real, id: nat): seq<Animal> {
    if o.Bears(threshold) then [Animal(id, o.animal.cell, o.animal.energy * 0.5, 0)] else []
  }

  function Survivors(outcomes: seq<Outcome>, threshold: real, k: nat): seq<Animal>
    requires k <= |outcomes|
  {
    if k == 0 then [] else Survivors(outcomes, threshold, k - 1) + Stays(outcomes[k - 1], threshold)
  }

  /** The newborn in order, under fresh consecutive identities. */
  function Newborn(outcomes: seq<Outcome>, threshold: real, next: nat, k: nat): seq<Animal>
    requires k <= |outcomes|
  {
    if k == 0 then []
    else
      var born := Newborn(outcomes, threshold, next, k - 1);
      born + Born(outcomes[k - 1], threshold, next + |born|)
  }

  lemma {:induction false} OutcomesMore(outcomes: seq<Outcome>, o: Outcome, threshold: real, next: nat, k: nat)
    requires k <= |outcomes|
    ensures Survivors(outcomes + [o], threshold, k) == Survivors(outcomes, threshold, k)
    ensures Newborn(outcomes + [o], threshold, next, k) == Newborn(outcomes, threshold, next, k)
  {
    if k > 0 {
      OutcomesMore(outcomes, o, threshold, next, k - 1);
    }
  }

  /** The animals that are settled so far. */
  predicate Settled(outcomes: seq<Outcome>, threshold: real, next: nat, kept: seq<Animal>, newborn: seq<Animal>) {
    kept == Survivors(outcomes, threshold, |outcomes|) && newborn == Newborn(outcomes, threshold, next, |outcomes|)
  }

  lemma {:induction false} SettledNext(outcomes: seq<Outcome>, o: Outcome, threshold: real, next: nat,
                                       kept: seq<Animal>, newborn: seq<Animal>)
    requires Settled(outcomes, threshold, next, kept, newborn)
    ensures Settled(outcomes + [o], threshold, next, kept + Stays(o, threshold),
                    newborn + Born(o, threshold, next + |newborn|))
  {
    OutcomesMore(outcomes, o, threshold, next, |outcomes|);
    assert (outcomes + [o])[|outcomes|] == o;
  }

  function Energy(herd: seq<Animal>, k: nat): real
    requires k <= |herd|
  {
    if k == 0 then 0.0 else Energy(herd, k - 1) + herd[k - 1].energy
  }

  lemma {:induction false} EnergyMore(herd: seq<Animal>, a: Animal, k: nat)
    requires k <= |herd|
    ensures Energy(herd + [a], k) == Energy(herd, k)
  {
    if k > 0 {
      EnergyMore(herd, a, k - 1);
    }
  }

  function LivingEnergy(outcomes: seq<Outcome>, k: nat): real
    requires k <= |outcomes|
  {
    if k == 0 then 0.0
    else LivingEnergy(outcomes, k - 1)
         + if outcomes[k - 1].animal.energy > 0.0 then outcomes[k - 1].animal.energy else 0.0
  }

  /** Births share energy and never create it. */
  lemma {:induction false} BirthsConserveEnergy(outcomes: seq<Outcome>, threshold: real, next: nat, k: nat)
    requires k <= |outcomes|
    ensures var kept, born := Survivors(outcomes, threshold, k), Newborn(outcomes, threshold, next, k);
            Energy(kept, |kept|) + Energy(born, |born|) == LivingEnergy(outcomes, k)
  {
    if k > 0 {
      BirthsConserveEnergy(outcomes, threshold, next, k - 1);
      EnergyStays(Survivors(outcomes, threshold, k - 1), outcomes[k - 1], threshold);
      EnergyBorn(Newborn(outcomes, threshold, next, k - 1), outcomes[k - 1], threshold, next);
    }
  }

  lemma {:induction false} EnergyStays(kept: seq<Animal>, o: Outcome, threshold: real)
    ensures var more := kept + Stays(o, threshold);
            Energy(more, |more|) == Energy(kept, |kept|)
              + if o.animal.energy <= 0.0 then 0.0
                else if o.Bears(threshold) then o.animal.energy * 0.5 else o.animal.energy
  {
    if o.animal.energy <= 0.0 {
      assert kept + [] == kept;
    } else {
      var a := Stays(o, threshold)[0];
      EnergyMore(kept, a, |kept|);
      assert kept + Stays(o, threshold) == kept + [a] && (kept + [a])[|kept|] == a;
    }
  }

  lemma {:induction false} EnergyBorn(born: seq<Animal>, o: Outcome, threshold: real, next: nat)
    ensures var more := born + Born(o, threshold, next + |born|);
            Energy(more, |more|) == Energy(born, |born|) + if o.Bears(threshold) then o.animal.energy * 0.5 else 0.0
  {
    if o.Bears(threshold) {
      var a := Born(o, threshold, next + |born|)[0];
      EnergyMore(born, a, |born|);
      assert born + Born(o, threshold, next + |born|) == born + [a] && (born + [a])[|born|] == a;
    } else {
      assert born + [] == born;
    }
  }

  /** The outcomes belong to the herd, one for each animal in order. */
  predicate OutcomesOf(c: Config, herd: seq<Animal>, outcomes: seq<Outcome>) {
    && |outcomes| == |herd|
    && forall i {:trigger outcomes[i]} :: 0 <= i < |herd| ==>
          outcomes[i].animal.id == herd[i].id && c.OnTorus(outcomes[i].animal.cell)
  }

  lemma {:induction false} SurvivorsStay(c: Config, herd: seq<Animal>, outcomes: seq<Outcome>, threshold: real, k: nat)
    requires OutcomesOf(c, herd, outcomes) && UniqueIds(herd) && k <= |herd|
    ensures var kept := Survivors(outcomes, threshold, k);
            && UniqueIds(kept) && OnTorusAll(c, kept) && |kept| <= k
            && forall i {:trigger kept[i]} :: 0 <= i < |kept| ==> HasId(herd, k, kept[i].id)
  {
    if k > 0 {
      SurvivorsStay(c, herd, outcomes, threshold, k - 1);
      var kept := Survivors(outcomes, threshold, k - 1);
      assert outcomes[k - 1].animal.id == herd[k - 1].id;
      forall i | 0 <= i < |kept| ensures kept[i].id != herd[k - 1].id && HasId(herd, k, kept[i].id) {
        var j :| 0 <= j < k - 1 && herd[j].id == kept[i].id;
      }
    }
  }

  lemma {:induction false} NewbornAreNew(c: Config, herd: seq<Animal>, outcomes: seq<Outcome>, threshold: real,
                                         next: nat, k: nat)
    requires OutcomesOf(c, herd, outcomes) && k <= |herd|
    ensures var born := Newborn(outcomes, threshold, next, k);
            OnTorusAll(c, born) && forall i {:trigger born[i]} :: 0 <= i < |born| ==> born[i].id == next + i
  {
    if k > 0 {
      NewbornAreNew(c, herd, outcomes, threshold, next, k - 1);
      assert outcomes[k - 1].animal.id == herd[k - 1].id;
    }
  }

  function NextHerd(outcomes: seq<Outcome>, threshold: real, next: nat): seq<Animal> {
    Survivors(outcomes, threshold, |outcomes|) + Newborn(outcomes, threshold, next, |outcomes|)
  }

  /** Survivors and newborn form a herd again; every member is an old one or a new one. */
  lemma {:induction false} HerdIsUnique(c: Config, herd: seq<Animal>, outcomes: seq<Outcome>, threshold: real,
                                        next: nat)
    requires OutcomesOf(c, herd, outcomes) && UniqueIds(herd) && IdsBelow(herd, next)
    ensures var after := NextHerd(outcomes, threshold, next);
            var bound := next + |Newborn(outcomes, threshold, next, |outcomes|)|;
            && UniqueIds(after) && OnTorusAll(c, after) && IdsBelow(after, bound)
            && forall i {:trigger after[i]} :: 0 <= i < |after| ==>
                  next <= after[i].id || HasId(herd, |herd|, after[i].id)
  {
    SurvivorsStay(c, herd, outcomes, threshold, |herd|);
    NewbornAreNew(c, herd, outcomes, threshold, next, |herd|);
    var kept, born := Survivors(outcomes, threshold, |herd|), Newborn(outcomes, threshold, next, |herd|);
    forall i | 0 <= i < |kept| ensures kept[i].id < next {
      var j :| 0 <= j < |herd| && herd[j].id == kept[i].id;
    }
  }

  // ----- one step as a relation -----

  const STEPS: seq<Cell> := [(1, 0), (-1, 0), (0, 1), (0, -1), (0, 0)]

  function Wrapped(c: Config, from: Cell, delta: Cell): Cell
    requires c.WellFormed()
  {
    ((from.0 + delta.0) % c.width, (from.1 + delta.1) % c.height)
  }

  /** A random move: to one of the four sides, or nowhere. */
  predicate Wanders(c: Config, from: Cell, to: Cell)
    requires c.WellFormed()
  {
    exists k :: 0 <= k < |STEPS| && to == Wrapped(c, from, STEPS[k])
  }

  predicate Visible(c: Config, from: Cell, a: Animal) {
    DistanceSq(c, from, a.cell) <= Square(c.sight)
  }

  /** The first of the visible sheep that are closest. */
  predicate IsTarget(c: Config, from: Cell, herd: seq<Animal>, i: nat) {
    && i < |herd| && Visible(c, from, herd[i])
    && (forall j {:trigger herd[j]} :: 0 <= j < |herd| ==>
          DistanceSq(c, from, herd[i].cell) <= DistanceSq(c, from, herd[j].cell))
    && (forall j {:trigger herd[j]} :: 0 <= j < i ==>
          DistanceSq(c, from, herd[i].cell) < DistanceSq(c, from, herd[j].cell))
  }

  predicate SeesSome(c: Config, from: Cell, herd: seq<Animal>) {
    exists i :: 0 <= i < |herd| && Visible(c, from, herd[i])
  }

  /** A wolf chases its target, or wanders when it sees none. */
  ghost predicate Hunts(c: Config, from: Cell, herd: seq<Animal>, to: Cell)
    requires c.WellFormed()
  {
    if SeesSome(c, from, herd) then
      exists i: nat :: IsTarget(c, from, herd, i) && to == MoveToward(c, from, herd[i].cell)
    else Wanders(c, from, to)
  }

  /** A sheep ages, loses energy, wanders, and grazes the cell it reaches if that is grown. */
  ghost predicate Grazes(c: Config, s: Animal, before: map<Cell, nat>, after: map<Cell, nat>, moved: Animal)
    requires c.WellFormed()
  {
    && moved.id == s.id && moved.age == s.age + 1 && Wanders(c, s.cell, moved.cell) && moved.cell in before
    && if before[moved.cell] == 0 then
         moved.energy == s.energy - c.sheepLoss + c.sheepGain && after == before[moved.cell := c.regrowthSteps]
       else
         moved.energy == s.energy - c.sheepLoss && after == before
  }

  predicate Eats(herd: seq<Animal>, cell: Cell) {
    StackOf(herd, cell, |herd|) != []
  }

  /** A wolf ages, loses energy, hunts, and eats the last sheep of the cell it reaches. */
  ghost predicate Feeds(c: Config, wolf: Animal, before: seq<Animal>, after: seq<Animal>, moved: Animal)
    requires c.WellFormed()
  {
    && moved.id == wolf.id && moved.age == wolf.age + 1 && Hunts(c, wolf.cell, before, moved.cell)
    && moved.energy == wolf.energy - c.wolfLoss + (if Eats(before, moved.cell) then c.wolfGain else 0.0)
    && after == Bite(before, moved.cell)
  }

  const SHEEP_BREEDS: real := 6.0
  const WOLF_BREEDS: real := 14.0

  datatype World = World(
    config: Config,
    sheep: seq<Animal>,
    wolves: seq<Animal>,
    nextSheepId: nat,
    nextWolfId: nat,
    timeStep: nat,
    grass: map<Cell, nat>)

  /** The course of one step: the pasture around each sheep's turn and the herd around each
      wolf's turn, with the outcome of every turn. */
  datatype Day = Day(pastures: seq<map<Cell, nat>>, grazed: seq<Outcome>, herds: seq<seq<Animal>>, hunted: seq<Outcome>)

  ghost predicate GrazesAt(c: Config, sheep: seq<Animal>, pastures: seq<map<Cell, nat>>, grazed: seq<Outcome>, k: nat)
    requires c.WellFormed() && k < |grazed| <= |sheep| && |pastures| == |grazed| + 1
  {
    Grazes(c, sheep[k], pastures[k], pastures[k + 1], grazed[k].animal)
  }

  ghost predicate FeedsAt(c: Config, wolves: seq<Animal>, herds: seq<seq<Animal>>, hunted: seq<Outcome>, k: nat)
    requires c.WellFormed() && k < |hunted| <= |wolves| && |herds| == |hunted| + 1
  {
    Feeds(c, wolves[k], herds[k], herds[k + 1], hunted[k].animal)
  }

  ghost predicate Grazing(c: Config, sheep: seq<Animal>, pastures: seq<map<Cell, nat>>, grazed: seq<Outcome>)
    requires c.WellFormed()
  {
    && |grazed| <= |sheep| && |pastures| == |grazed| + 1
    && forall k {:trigger GrazesAt(c, sheep, pastures, grazed, k)} :: 0 <= k < |grazed| ==>
          GrazesAt(c, sheep, pastures, grazed, k)
  }

  ghost predicate Hunting(c: Config, wolves: seq<Animal>, herds: seq<seq<Animal>>, hunted: seq<Outcome>)
    requires c.WellFormed()
  {
    && |hunted| <= |wolves| && |herds| == |hunted| + 1
    && forall k {:trigger FeedsAt(c, wolves, herds, hunted, k)} :: 0 <= k < |hunted| ==>
          FeedsAt(c, wolves, herds, hunted, k)
  }

  lemma {:induction false} GrazingNext(c: Config, sheep: seq<Animal>, pastures: seq<map<Cell, nat>>,
                                       grazed: seq<Outcome>, after: map<Cell, nat>, o: Outcome)
    requires c.WellFormed() && Grazing(c, sheep, pastures, grazed) && |grazed| < |sheep|
    requires Grazes(c, sheep[|grazed|], pastures[|grazed|], after, o.animal)
    ensures Grazing(c, sheep, pastures + [after], grazed + [o])
  {
    forall k | 0 <= k <= |grazed| ensures GrazesAt(c, sheep, pastures + [after], grazed + [o], k) {
      assert k < |grazed| ==> GrazesAt(c, sheep, pastures, grazed, k);
    }
  }

  lemma {:induction false} HuntingNext(c: Config, wolves: seq<Animal>, herds: seq<seq<Animal>>, hunted: seq<Outcome>,
                                       after: seq<Animal>, o: Outcome)
    requires c.WellFormed() && Hunting(c, wolves, herds, hunted) && |hunted| < |wolves|
    requires Feeds(c, wolves[|hunted|], herds[|hunted|], after, o.animal)
    ensures Hunting(c, wolves, herds + [after], hunted + [o])
  {
    forall k | 0 <= k <= |hunted| ensures FeedsAt(c, wolves, herds + [after], hunted + [o], k) {
      assert k < |hunted| ==> FeedsAt(c, wolves, herds, hunted, k);
    }
  }

  function Ripened(grass: map<Cell, nat>): map<Cell, nat> {
    map cell | cell in grass :: if grass[cell] > 0 then grass[cell] - 1 else 0
  }

  function Births(outcomes: seq<Outcome>, threshold: real): nat {
    |Newborn(outcomes, threshold, 0, |outcomes|)|
  }

  lemma {:induction false} BirthsIgnoreNames(outcomes: seq<Outcome>, threshold: real, next: nat, k: nat)
    requires k <= |outcomes|
    ensures |Newborn(outcomes, threshold, next, k)| == |Newborn(outcomes, threshold, 0, k)|
  {
    if k > 0 {
      BirthsIgnoreNames(outcomes, threshold, next, k - 1);
    }
  }

  /** Grass ripens, every sheep takes its turn, then every wolf. */
  ghost predicate Stepped(w: World, day: Day, next: World)
    requires w.config.WellFormed()
  {
    && Grazing(w.config, w.sheep, day.pastures, day.grazed) && |day.grazed| == |w.sheep|
    && day.pastures[0] == Ripened(w.grass)
    && Hunting(w.config, w.wolves, day.herds, day.hunted) && |day.hunted| == |w.wolves|
    && day.herds[0] == NextHerd(day.grazed, SHEEP_BREEDS, w.nextSheepId)
    && next == World(w.config, day.herds[|w.wolves|], NextHerd(day.hunted, WOLF_BREEDS, w.nextWolfId),
                     w.nextSheepId + Births(day.grazed, SHEEP_BREEDS), w.nextWolfId + Births(day.hunted, WOLF_BREEDS),
                     w.timeStep + 1, day.pastures[|w.sheep|])
  }

  ghost predicate Sound(w: World) {
    && w.config.WellFormed()
    && UniqueIds(w.sheep) && IdsBelow(w.sheep, w.nextSheepId) && OnTorusAll(w.config, w.sheep)
    && UniqueIds(w.wolves) && IdsBelow(w.wolves, w.nextWolfId) && OnTorusAll(w.config, w.wolves)
    && forall cell :: cell in w.grass <==> w.config.OnTorus(cell)
  }

  lemma {:induction false} WanderingStays(c: Config, from: Cell, to: Cell)
    requires c.WellFormed() && Wanders(c, from, to)
    ensures c.OnTorus(to)
  {
  }

  lemma {:induction false} HuntingStays(c: Config, from: Cell, herd: seq<Animal>, to: Cell)
    requires c.WellFormed() && c.OnTorus(from) && OnTorusAll(c, herd) && Hunts(c, from, herd, to)
    ensures c.OnTorus(to)
  {
    if SeesSome(c, from, herd) {
      var i: nat :| IsTarget(c, from, herd, i) && to == MoveToward(c, from, herd[i].cell);
      PursuitApproaches(c, from, herd[i].cell);
    }
  }

  /** A wolf that sees prey comes strictly closer to its target, or already stands on it. */
  lemma {:induction false} HuntingApproaches(c: Config, from: Cell, herd: seq<Animal>, to: Cell)
    requires c.WellFormed() && c.OnTorus(from) && OnTorusAll(c, herd)
    ensures SeesSome(c, from, herd) && Hunts(c, from, herd, to) ==>
              exists i: nat :: IsTarget(c, from, herd, i)
                && (if from == herd[i].cell then to == from && Eats(herd, to)
                    else DistanceSq(c, to, herd[i].cell) < DistanceSq(c, from, herd[i].cell))
  {
    if SeesSome(c, from, herd) && Hunts(c, from, herd, to) {
      var i: nat :| IsTarget(c, from, herd, i) && to == MoveToward(c, from, herd[i].cell);
      PursuitApproaches(c, from, herd[i].cell);
      StandingAtCell(herd, i, |herd|);
    }
  }

  lemma {:induction false} StandingAtCell(herd: seq<Animal>, i: nat, k: nat)
    requires i < k <= |herd|
    ensures StackOf(herd, herd[i].cell, k) != []
  {
    if i < k - 1 {
      StandingAtCell(herd, i, k - 1);
    }
  }

  // ----- what every step keeps -----

  lemma {:induction false} GrazedOutcomes(c: Config, sheep: seq<Animal>, pastures: seq<map<Cell, nat>>,
                                          grazed: seq<Outcome>)
    requires c.WellFormed() && Grazing(c, sheep, pastures, grazed) && |grazed| == |sheep|
    ensures OutcomesOf(c, sheep, grazed)
  {
    forall i {:trigger grazed[i]} | 0 <= i < |sheep|
      ensures grazed[i].animal.id == sheep[i].id && c.OnTorus(grazed[i].animal.cell)
    {
      assert GrazesAt(c, sheep, pastures, grazed, i);
      WanderingStays(c, sheep[i].cell, grazed[i].animal.cell);
    }
  }

  lemma {:induction false} PastureKeepsCells(c: Config, sheep: seq<Animal>, pastures: seq<map<Cell, nat>>,
                                             grazed: seq<Outcome>, k: nat)
    requires c.WellFormed() && Grazing(c, sheep, pastures, grazed) && k <= |grazed|
    ensures pastures[k].Keys == pastures[0].Keys
  {
    if k > 0 {
      PastureKeepsCells(c, sheep, pastures, grazed, k - 1);
      assert GrazesAt(c, sheep, pastures, grazed, k - 1);
    }
  }

  /** Where grass was eaten it stays short for the rest of the step: with a positive
      regrowth time no cell feeds two sheep in one step. */
  lemma {:induction false} CellFeedsOnce(c: Config, sheep: seq<Animal>, pastures: seq<map<Cell, nat>>,
                                         grazed: seq<Outcome>, i: nat, k: nat)
    requires c.WellFormed() && c.regrowthSteps > 0 && Grazing(c, sheep, pastures, grazed) && i < k <= |grazed|
    requires grazed[i].animal.cell in pastures[i] && pastures[i][grazed[i].animal.cell] == 0
    ensures var cell := grazed[i].animal.cell; cell in pastures[k] && pastures[k][cell] == c.regrowthSteps
  {
    assert GrazesAt(c, sheep, pastures, grazed, k - 1);
    if i < k - 1 {
      CellFeedsOnce(c, sheep, pastures, grazed, i, k - 1);
    }
  }

  /** How many of the first `k` sheep found grass, and how many of the first `k` wolves ate. */
  function Meals(pastures: seq<map<Cell, nat>>, grazed: seq<Outcome>, k: nat): nat
    requires k <= |grazed| && k < |pastures|
  {
    if k == 0 then 0
    else
      var cell := grazed[k - 1].animal.cell;
      Meals(pastures, grazed, k - 1) + if cell in pastures[k - 1] && pastures[k - 1][cell] == 0 then 1 else 0
  }

  function Kills(herds: seq<seq<Animal>>, hunted: seq<Outcome>, k: nat): nat
    requires k <= |hunted| && k < |herds|
  {
    if k == 0 then 0
    else Kills(herds, hunted, k - 1) + if Eats(herds[k - 1], hunted[k - 1].animal.cell) then 1 else 0
  }

  function OutcomeEnergy(outcomes: seq<Outcome>, k: nat): real
    requires k <= |outcomes|
  {
    if k == 0 then 0.0 else OutcomeEnergy(outcomes, k - 1) + outcomes[k - 1].animal.energy
  }

  /** The sum of `k` equal amounts. */
  function Times(amount: real, k: nat): real {
    if k == 0 then 0.0 else Times(amount, k - 1) + amount
  }

  lemma {:induction false} TimesIsProduct(amount: real, k: nat)
    ensures Times(amount, k) == amount * k as real
  {
    if k > 0 {
      TimesIsProduct(amount, k - 1);
    }
  }

  lemma {:induction false} GrazingSums(c: Config, sheep: seq<Animal>, pastures: seq<map<Cell, nat>>,
                                       grazed: seq<Outcome>, k: nat)
    requires c.WellFormed() && Grazing(c, sheep, pastures, grazed) && k <= |grazed|
    ensures OutcomeEnergy(grazed, k)
            == Energy(sheep, k) - Times(c.sheepLoss, k) + Times(c.sheepGain, Meals(pastures, grazed, k))
  {
    if k > 0 {
      GrazingSums(c, sheep, pastures, grazed, k - 1);
      assert GrazesAt(c, sheep, pastures, grazed, k - 1);
    }
  }

  /** The energy ledger of grazing: every sheep pays the loss, every meal brings the gain. */
  lemma {:induction false} GrazingLedger(c: Config, sheep: seq<Animal>, pastures: seq<map<Cell, nat>>,
                                         grazed: seq<Outcome>, k: nat)
    requires c.WellFormed() && Grazing(c, sheep, pastures, grazed) && k <= |grazed|
    ensures OutcomeEnergy(grazed, k)
            == Energy(sheep, k) - c.sheepLoss * k as real + c.sheepGain * Meals(pastures, grazed, k) as real
  {
    GrazingSums(c, sheep, pastures, grazed, k);
    TimesIsProduct(c.sheepLoss, k);
    TimesIsProduct(c.sheepGain, Meals(pastures, grazed, k));
  }

  lemma {:induction false} HuntingSums(c: Config, wolves: seq<Animal>, herds: seq<seq<Animal>>, hunted: seq<Outcome>,
                                       k: nat)
    requires c.WellFormed() && Hunting(c, wolves, herds, hunted) && k <= |hunted|
    ensures OutcomeEnergy(hunted, k)
            == Energy(wolves, k) - Times(c.wolfLoss, k) + Times(c.wolfGain, Kills(herds, hunted, k))
  {
    if k > 0 {
      HuntingSums(c, wolves, herds, hunted, k - 1);
      assert FeedsAt(c, wolves, herds, hunted, k - 1);
    }
  }

  /** The energy ledger of the hunt: every wolf pays the loss, every kill brings the gain. */
  lemma {:induction false} HuntingLedger(c: Config, wolves: seq<Animal>, herds: seq<seq<Animal>>, hunted: seq<Outcome>,
                                         k: nat)
    requires c.WellFormed() && Hunting(c, wolves, herds, hunted) && k <= |hunted|
    ensures OutcomeEnergy(hunted, k)
            == Energy(wolves, k) - c.wolfLoss * k as real + c.wolfGain * Kills(herds, hunted, k) as real
  {
    HuntingSums(c, wolves, herds, hunted, k);
    TimesIsProduct(c.wolfLoss, k);
    TimesIsProduct(c.wolfGain, Kills(herds, hunted, k));
  }

  /** The hunt removes one sheep for every wolf that ate, and no other. */
  lemma {:induction false} HuntShrinksHerd(c: Config, wolves: seq<Animal>, herds: seq<seq<Animal>>,
                                           hunted: seq<Outcome>, k: nat)
    requires c.WellFormed() && Hunting(c, wolves, herds, hunted) && k <= |hunted| && UniqueIds(herds[0])
    ensures UniqueIds(herds[k]) && |herds[k]| == |herds[0]| - Kills(herds, hunted, k)
    ensures forall a :: a in herds[k] ==> a in herds[0]
  {
    if k > 0 {
      HuntShrinksHerd(c, wolves, herds, hunted, k - 1);
      assert FeedsAt(c, wolves, herds, hunted, k - 1);
      BiteTakesOne(herds[k - 1], hunted[k - 1].animal.cell);
    }
  }

  lemma {:induction false} PartOfHerd(c: Config, part: seq<Animal>, herd: seq<Animal>, bound: nat)
    requires forall a :: a in part ==> a in herd
    requires OnTorusAll(c, herd) && IdsBelow(herd, bound)
    ensures forall i {:trigger part[i]} :: 0 <= i < |part| ==>
              c.OnTorus(part[i].cell) && part[i].id < bound && HasId(herd, |herd|, part[i].id)
  {
    forall i | 0 <= i < |part|
      ensures c.OnTorus(part[i].cell) && part[i].id < bound && HasId(herd, |herd|, part[i].id)
    {
      assert part[i] in part && part[i] in herd;
    }
  }

  lemma {:induction false} HuntedOutcomes(c: Config, wolves: seq<Animal>, herds: seq<seq<Animal>>, hunted: seq<Outcome>)
    requires c.WellFormed() && Hunting(c, wolves, herds, hunted) && |hunted| == |wolves|
    requires OnTorusAll(c, wolves) && UniqueIds(herds[0]) && OnTorusAll(c, herds[0])
    ensures OutcomesOf(c, wolves, hunted)
  {
    forall i {:trigger hunted[i]} | 0 <= i < |wolves|
      ensures hunted[i].animal.id == wolves[i].id && c.OnTorus(hunted[i].animal.cell)
    {
      HuntShrinksHerd(c, wolves, herds, hunted, i);
      forall j | 0 <= j < |herds[i]| ensures c.OnTorus(herds[i][j].cell) {
        assert herds[i][j] in herds[i] && herds[i][j] in herds[0];
      }
      assert FeedsAt(c, wolves, herds, hunted, i);
      HuntingStays(c, wolves[i].cell, herds[i], hunted[i].animal.cell);
    }
  }

  lemma {:induction false} FlockIsUnique(w: World, day: Day, next: World)
    requires Sound(w) && Stepped(w, day, next)
    ensures var flock := day.herds[0];
            && UniqueIds(flock) && OnTorusAll(w.config, flock) && IdsBelow(flock, next.nextSheepId)
            && forall i {:trigger flock[i]} :: 0 <= i < |flock| ==>
                 w.nextSheepId <= flock[i].id || HasId(w.sheep, |w.sheep|, flock[i].id)
  {
    GrazedOutcomes(w.config, w.sheep, day.pastures, day.grazed);
    HerdIsUnique(w.config, w.sheep, day.grazed, SHEEP_BREEDS, w.nextSheepId);
    BirthsIgnoreNames(day.grazed, SHEEP_BREEDS, w.nextSheepId, |w.sheep|);
  }

  /** A step keeps identities unique and everybody on the torus; afterwards every animal is
      an old one or carries an identity that was never used before. */
  lemma {:induction false} StepKeepsSound(w: World, day: Day, next: World)
    requires Sound(w) && Stepped(w, day, next)
    ensures Sound(next) && next.nextSheepId >= w.nextSheepId && next.nextWolfId >= w.nextWolfId
    ensures forall i {:trigger next.sheep[i]} :: 0 <= i < |next.sheep| ==>
              w.nextSheepId <= next.sheep[i].id || HasId(w.sheep, |w.sheep|, next.sheep[i].id)
    ensures forall i {:trigger next.wolves[i]} :: 0 <= i < |next.wolves| ==>
              w.nextWolfId <= next.wolves[i].id || HasId(w.wolves, |w.wolves|, next.wolves[i].id)
  {
    var c, flock := w.config, day.herds[0];
    FlockIsUnique(w, day, next);
    HuntShrinksHerd(c, w.wolves, day.herds, day.hunted, |w.wolves|);
    PartOfHerd(c, next.sheep, flock, next.nextSheepId);
    forall i {:trigger next.sheep[i]} | 0 <= i < |next.sheep|
      ensures w.nextSheepId <= next.sheep[i].id || HasId(w.sheep, |w.sheep|, next.sheep[i].id)
    {
      assert next.sheep[i] in next.sheep && next.sheep[i] in flock;
    }
    HuntedOutcomes(c, w.wolves, day.herds, day.hunted);
    HerdIsUnique(c, w.wolves, day.hunted, WOLF_BREEDS, w.nextWolfId);
    BirthsIgnoreNames(day.hunted, WOLF_BREEDS, w.nextWolfId, |w.wolves|);
    PastureKeepsCells(c, w.sheep, day.pastures, day.grazed, |w.sheep|);
    assert day.pastures[0].Keys == w.grass.Keys;
    forall cell ensures cell in next.grass <==> c.OnTorus(cell) {
      assert cell in next.grass.Keys <==> cell in w.grass.Keys;
    }
  }

  /** The final sheep count is the survivors plus the births minus the wolves that ate. */
  lemma {:induction false} StepAccounting(w: World, day: Day, next: World)
    requires Sound(w) && Stepped(w, day, next)
    ensures |next.sheep| == |Survivors(day.grazed, SHEEP_BREEDS, |w.sheep|)| + (next.nextSheepId - w.nextSheepId)
                            - Kills(day.herds, day.hunted, |w.wolves|)
    ensures |next.wolves| == |Survivors(day.hunted, WOLF_BREEDS, |w.wolves|)| + (next.nextWolfId - w.nextWolfId)
  {
    FlockIsUnique(w, day, next);
    BirthsIgnoreNames(day.grazed, SHEEP_BREEDS, w.nextSheepId, |w.sheep|);
    BirthsIgnoreNames(day.hunted, WOLF_BREEDS, w.nextWolfId, |w.wolves|);
    HuntShrinksHerd(w.config, w.wolves, day.herds, day.hunted, |w.wolves|);
  }

  /** What the animals among the first `k` that starved fell short of zero. */
  function Debt(outcomes: seq<Outcome>, k: nat): real
    requires k <= |outcomes|
  {
    if k == 0 then 0.0
    else Debt(outcomes, k - 1) + if outcomes[k - 1].animal.energy <= 0.0 then -outcomes[k - 1].animal.energy else 0.0
  }

  /** The energy of the sheep that the first `k` wolves ate. */
  function Eaten(herds: seq<seq<Animal>>, hunted: seq<Outcome>, k: nat): real
    requires k <= |hunted| && k < |herds|
  {
    if k == 0 then 0.0
    else
      var stack := StackOf(herds[k - 1], hunted[k - 1].animal.cell, |herds[k - 1]|);
      Eaten(herds, hunted, k - 1) + if stack == [] then 0.0 else stack[|stack| - 1].energy
  }

  lemma {:induction false} LivingAndStarved(outcomes: seq<Outcome>, k: nat)
    requires k <= |outcomes|
    ensures LivingEnergy(outcomes, k) == OutcomeEnergy(outcomes, k) + Debt(outcomes, k)
  {
    if k > 0 {
      LivingAndStarved(outcomes, k - 1);
    }
  }

  lemma {:induction false} EnergyAdds(a: seq<Animal>, b: seq<Animal>, k: nat)
    requires k <= |b|
    ensures Energy(a + b, |a| + k) == Energy(a, |a|) + Energy(b, k)
  {
    if k > 0 {
      EnergyAdds(a, b, k - 1);
    } else {
      EnergyOfPart(a, b, |a|);
    }
  }

  lemma {:induction false} EnergyOfPart(a: seq<Animal>, b: seq<Animal>, k: nat)
    requires k <= |a|
    ensures Energy(a + b, k) == Energy(a, k)
  {
    if k > 0 {
      EnergyOfPart(a, b, k - 1);
    }
  }

  lemma {:induction false} NextHerdEnergy(outcomes: seq<Outcome>, threshold: real, next: nat)
    ensures var herd := NextHerd(outcomes, threshold, next);
            Energy(herd, |herd|) == OutcomeEnergy(outcomes, |outcomes|) + Debt(outcomes, |outcomes|)
  {
    var born := Newborn(outcomes, threshold, next, |outcomes|);
    BirthsConserveEnergy(outcomes, threshold, next, |outcomes|);
    EnergyAdds(Survivors(outcomes, threshold, |outcomes|), born, |born|);
    LivingAndStarved(outcomes, |outcomes|);
  }

  lemma {:induction false} WithoutEnergy(herd: seq<Animal>, e: nat, k: nat)
    requires UniqueIds(herd) && e < |herd| && k <= |herd|
    ensures var left := Without(herd, herd[e].id, k);
            Energy(left, |left|) == Energy(herd, k) - if e < k then herd[e].energy else 0.0
  {
    if k > 0 {
      WithoutEnergy(herd, e, k - 1);
      var left := Without(herd, herd[e].id, k - 1);
      EnergyMore(left, herd[k - 1], |left|);
    }
  }

  lemma {:induction false} BiteTakesEnergy(herd: seq<Animal>, cell: Cell)
    requires UniqueIds(herd)
    ensures var stack, left := StackOf(herd, cell, |herd|), Bite(herd, cell);
            Energy(left, |left|) == Energy(herd, |herd|) - if stack == [] then 0.0 else stack[|stack| - 1].energy
  {
    var stack := StackOf(herd, cell, |herd|);
    if stack != [] {
      var e := StackMember(herd, cell, |herd|, |stack| - 1);
      WithoutEnergy(herd, e, |herd|);
    }
  }

  lemma {:induction false} HuntBites(c: Config, wolves: seq<Animal>, herds: seq<seq<Animal>>, hunted: seq<Outcome>,
                                     k: nat)
    requires c.WellFormed() && Hunting(c, wolves, herds, hunted) && k < |hunted|
    ensures herds[k + 1] == Bite(herds[k], hunted[k].animal.cell)
  {
    assert FeedsAt(c, wolves, herds, hunted, k);
  }

  /** The herd loses exactly the energy of the sheep that are eaten. */
  lemma {:induction false} HuntTakesEnergy(c: Config, wolves: seq<Animal>, herds: seq<seq<Animal>>,
                                           hunted: seq<Outcome>, k: nat)
    requires c.WellFormed() && Hunting(c, wolves, herds, hunted) && k <= |hunted| && UniqueIds(herds[0])
    ensures Energy(herds[k], |herds[k]|) == Energy(herds[0], |herds[0]|) - Eaten(herds, hunted, k)
  {
    if k > 0 {
      HuntTakesEnergy(c, wolves, herds, hunted, k - 1);
      HuntShrinksHerd(c, wolves, herds, hunted, k - 1);
      HuntBites(c, wolves, herds, hunted, k - 1);
      BiteTakesEnergy(herds[k - 1], hunted[k - 1].animal.cell);
    }
  }

  /** What the sheep of a day start from and gain by grazing, starving and births. */
  function Pastured(c: Config, sheep: seq<Animal>, pastures: seq<map<Cell, nat>>, grazed: seq<Outcome>): real
    requires |pastures| == |grazed| + 1 == |sheep| + 1
  {
    var n := |sheep|;
    Energy(sheep, n) - Times(c.sheepLoss, n) + Times(c.sheepGain, Meals(pastures, grazed, n)) + Debt(grazed, n)
  }

  /** The same of the wolves and their hunt. */
  function Fed(c: Config, wolves: seq<Animal>, herds: seq<seq<Animal>>, hunted: seq<Outcome>): real
    requires |herds| == |hunted| + 1 == |wolves| + 1
  {
    var n := |wolves|;
    Energy(wolves, n) - Times(c.wolfLoss, n) + Times(c.wolfGain, Kills(herds, hunted, n)) + Debt(hunted, n)
  }

  lemma {:induction false} FlockLedger(c: Config, sheep: seq<Animal>, pastures: seq<map<Cell, nat>>,
                                       grazed: seq<Outcome>, next: nat)
    requires c.WellFormed() && Grazing(c, sheep, pastures, grazed) && |grazed| == |sheep|
    ensures var flock := NextHerd(grazed, SHEEP_BREEDS, next);
            Energy(flock, |flock|) == Pastured(c, sheep, pastures, grazed)
  {
    GrazingSums(c, sheep, pastures, grazed, |sheep|);
    NextHerdEnergy(grazed, SHEEP_BREEDS, next);
  }

  lemma {:induction false} PackLedger(c: Config, wolves: seq<Animal>, herds: seq<seq<Animal>>, hunted: seq<Outcome>,
                                      next: nat)
    requires c.WellFormed() && Hunting(c, wolves, herds, hunted) && |hunted| == |wolves|
    ensures var pack := NextHerd(hunted, WOLF_BREEDS, next);
            Energy(pack, |pack|) == Fed(c, wolves, herds, hunted)
  {
    HuntingSums(c, wolves, herds, hunted, |wolves|);
    NextHerdEnergy(hunted, WOLF_BREEDS, next);
  }

  /** The energy ledger of a whole step. Sheep pay their loss, gain by their meals, and lose
      what is eaten; wolves pay their loss and gain by their kills. Starving animals leave
      with what they fell short, and births change nothing. */
  lemma {:induction false} StepLedger(w: World, day: Day, next: World)
    requires Sound(w) && Stepped(w, day, next)
    ensures Energy(next.sheep, |next.sheep|)
            == Pastured(w.config, w.sheep, day.pastures, day.grazed) - Eaten(day.herds, day.hunted, |w.wolves|)
    ensures Energy(next.wolves, |next.wolves|) == Fed(w.config, w.wolves, day.herds, day.hunted)
  {
    FlockIsUnique(w, day, next);
    FlockLedger(w.config, w.sheep, day.pastures, day.grazed, w.nextSheepId);
    HuntTakesEnergy(w.config, w.wolves, day.herds, day.hunted, |w.wolves|);
    PackLedger(w.config, w.wolves, day.herds, day.hunted, w.nextWolfId);
  }

  // ----- whole runs -----

  ghost predicate SteppedAt(trace: seq<World>, days: seq<Day>, k: nat)
    requires |trace| == |days| + 1 && k < |days|
  {
    trace[k].config.WellFormed() && Stepped(trace[k], days[k], trace[k + 1])
  }

  ghost predicate Run(trace: seq<World>, days: seq<Day>) {
    && |trace| == |days| + 1 && Sound(trace[0])
    && forall k {:trigger SteppedAt(trace, days, k)} :: 0 <= k < |days| ==> SteppedAt(trace, days, k)
  }

  lemma {:induction false} RunIsSound(trace: seq<World>, days: seq<Day>, last: nat)
    requires Run(trace, days) && last < |trace|
    ensures forall k {:trigger Sound(trace[k])} :: 0 <= k <= last ==> Sound(trace[k])
  {
    if last > 0 {
      RunIsSound(trace, days, last - 1);
      assert SteppedAt(trace, days, last - 1) && Sound(trace[last - 1]);
      StepKeepsSound(trace[last - 1], days[last - 1], trace[last]);
    }
  }

  lemma {:induction false} StaysRetired(before: seq<Animal>, after: seq<Animal>, next: nat, id: nat)
    requires id < next && !HasId(before, |before|, id)
    requires forall i {:trigger after[i]} :: 0 <= i < |after| ==>
              next <= after[i].id || HasId(before, |before|, after[i].id)
    ensures !HasId(after, |after|, id)
  {
  }

  /** Over a whole run an identity that has died out never returns. */
  lemma {:induction false} IdentitiesNeverReturn(trace: seq<World>, days: seq<Day>, j: nat, k: nat, id: nat)
    requires Run(trace, days) && j <= k < |trace|
    ensures trace[j].nextSheepId <= trace[k].nextSheepId && trace[j].nextWolfId <= trace[k].nextWolfId
    ensures id < trace[j].nextSheepId && !HasId(trace[j].sheep, |trace[j].sheep|, id) ==>
              !HasId(trace[k].sheep, |trace[k].sheep|, id)
    ensures id < trace[j].nextWolfId && !HasId(trace[j].wolves, |trace[j].wolves|, id) ==>
              !HasId(trace[k].wolves, |trace[k].wolves|, id)
    decreases k
  {
    if j < k {
      IdentitiesNeverReturn(trace, days, j, k - 1, id);
      RunIsSound(trace, days, k - 1);
      assert SteppedAt(trace, days, k - 1) && Sound(trace[k - 1]);
      var w, next := trace[k - 1], trace[k];
      StepKeepsSound(w, days[k - 1], next);
      if id < trace[j].nextSheepId && !HasId(w.sheep, |w.sheep|, id) {
        StaysRetired(w.sheep, next.sheep, w.nextSheepId, id);
      }
      if id < trace[j].nextWolfId && !HasId(w.wolves, |w.wolves|, id) {
        StaysRetired(w.wolves, next.wolves, w.nextWolfId, id);
      }
    }
  }

  // ----- the mutable simulation -----

  class PredatorPreySimulation {
    const config: Config
    var sheep: seq<Animal>
    var wolves: seq<Animal>
    var nextSheepId: nat
    var nextWolfId: nat
    var timeStep: nat
    var grass: map<Cell, nat>

    function View(): World
      reads this
    {
      World(config, sheep, wolves, nextSheepId, nextWolfId, timeStep, grass)
    }

    ghost predicate Valid()
      reads this
    {
      Sound(View())
    }

    /** An empty world with all grass grown. */
    constructor (config: Config)
      requires config.WellFormed()
      ensures Valid() && this.config == config && sheep == [] && wolves == [] && timeStep == 0
      ensures forall cell :: cell in grass ==> grass[cell] == 0
    {
      this.config := config;
      sheep, wolves, nextSheepId, nextWolfId, timeStep := [], [], 0, 0, 0;
      grass := map x, y | 0 <= x < config.width && 0 <= y < config.height :: (x, y) := 0;
    }

    method MoveRandom(from: Cell) returns (to: Cell)
      requires config.WellFormed()
      ensures Wanders(config, from, to)
    {
      var k :| 0 <= k < |STEPS|;
      to := ((from.0 + STEPS[k].0) % config.width, (from.1 + STEPS[k].1) % config.height);
      assert to == Wrapped(config, from, STEPS[k]);
    }

    /** Every timer counts down by one, to zero at least. */
    method UpdateGrass()
      modifies this`grass
      ensures grass == Ripened(old(grass))
    {
      grass := map cell | cell in grass :: if grass[cell] > 0 then grass[cell] - 1 else 0;
    }

    /** One sheep ages, moves and grazes. */
    method Graze(s: Animal) returns (moved: Animal)
      requires config.WellFormed() && forall cell :: config.OnTorus(cell) ==> cell in grass
      modifies this`grass
      ensures Grazes(config, s, old(grass), grass, moved)
      ensures grass.Keys == old(grass.Keys)
    {
      var cell := MoveRandom(s.cell);
      WanderingStays(config, s.cell, cell);
      var energy := s.energy - config.sheepLoss;
      if grass[cell] == 0 {
        energy := energy + config.sheepGain;
        grass := grass[cell := config.regrowthSteps];
      }
      moved := Animal(s.id, cell, energy, s.age + 1);
    }

    /** Starve, or stay and maybe give birth. */
    method Settle(o: Outcome, threshold: real, next: nat) returns (stays: seq<Animal>, born: seq<Animal>)
      ensures stays == Stays(o, threshold) && born == Born(o, threshold, next)
    {
      var animal := o.animal;
      if animal.energy <= 0.0 {
        return [], [];
      }
      born := [];
      if o.favoured && animal.energy >= threshold {
        animal := animal.(energy := animal.energy * 0.5);
        born := [Animal(next, animal.cell, animal.energy, 0)];
      }
      stays := [animal];
    }

    /** The sheep loop: graze, starve or stay, maybe give birth. */
    method SheepPhase() returns (flock: seq<Animal>, ghost pastures: seq<map<Cell, nat>>, ghost grazed: seq<Outcome>)
      requires config.WellFormed() && forall cell :: config.OnTorus(cell) ==> cell in grass
      modifies this`grass, this`nextSheepId
      ensures Grazing(config, sheep, pastures, grazed) && |grazed| == |sheep|
      ensures pastures[0] == old(grass) && grass == pastures[|sheep|]
      ensures flock == NextHerd(grazed, SHEEP_BREEDS, old(nextSheepId))
      ensures nextSheepId == old(nextSheepId) + |Newborn(grazed, SHEEP_BREEDS, old(nextSheepId), |grazed|)|
    {
      var kept, newborn := [], [];
      pastures, grazed := [grass], [];
      for k := 0 to |sheep|
        invariant Grazing(config, sheep, pastures, grazed) && |grazed| == k
        invariant pastures[0] == old(grass) && grass == pastures[k] && grass.Keys == old(grass.Keys)
        invariant Settled(grazed, SHEEP_BREEDS, old(nextSheepId), kept, newborn)
        invariant nextSheepId == old(nextSheepId) + |newborn|
      {
        var moved := Graze(sheep[k]);
        var favoured: bool := *;
        var o := Outcome(moved, favoured);
        var stays, born := Settle(o, SHEEP_BREEDS, nextSheepId);
        SettledNext(grazed, o, SHEEP_BREEDS, old(nextSheepId), kept, newborn);
        GrazingNext(config, sheep, pastures, grazed, grass, o);
        pastures, grazed := pastures + [grass], grazed + [o];
        kept, newborn := kept + stays, newborn + born;
        nextSheepId := nextSheepId + |born|;
      }
      flock := kept + newborn;
    }

    /** Group the herd by cell. */
    method BuildIndex(herd: seq<Animal>) returns (index: map<Cell, seq<Animal>>)
      ensures Indexes(herd, index)
    {
      index := map[];
      for k := 0 to |herd|
        invariant Indexes(herd[..k], index)
      {
        var a := herd[k];
        assert herd[..k + 1] == herd[..k] + [a];
        IndexNext(herd[..k], a, index);
        index := index[a.cell := StackAt(index, a.cell) + [a]];
      }
      assert herd[..|herd|] == herd;
    }

    /** The first visible sheep at minimal distance, if any is visible. */
    method FindPrey(from: Cell, herd: seq<Animal>) returns (target: Option<nat>)
      ensures target.Some? <==> SeesSome(config, from, herd)
      ensures target.Some? ==> IsTarget(config, from, herd, target.value)
    {
      target := None;
      for k := 0 to |herd|
        invariant target.None? ==> forall j :: 0 <= j < k ==> !Visible(config, from, herd[j])
        invariant target.Some? ==> target.value < k && Visible(config, from, herd[target.value])
        invariant target.Some? ==> forall j {:trigger herd[j]} :: 0 <= j < k ==>
                    var d := DistanceSq(config, from, herd[target.value].cell);
                    var e := DistanceSq(config, from, herd[j].cell);
                    d <= e && (j < target.value ==> d < e)
      {
        var d := DistanceSq(config, from, herd[k].cell);
        if d <= Square(config.sight) && (target.None? || d < DistanceSq(config, from, herd[target.value].cell)) {
          target := Some(k);
        }
      }
    }

    /** Chase the closest visible sheep, or wander. */
    method Hunt(from: Cell, herd: seq<Animal>) returns (to: Cell)
      requires config.WellFormed()
      ensures Hunts(config, from, herd, to)
    {
      var prey := FindPrey(from, herd);
      if prey.None? {
        to := MoveRandom(from);
        return;
      }
      to := MoveToward(config, from, herd[prey.value].cell);
    }

    /** One wolf hunts, and eats from the stack of the cell it reaches. */
    method Feed(wolf: Animal, herd: seq<Animal>, index: map<Cell, seq<Animal>>)
      returns (moved: Animal, left: seq<Animal>, index': map<Cell, seq<Animal>>)
      requires config.WellFormed() && UniqueIds(herd) && Indexes(herd, index)
      ensures Feeds(config, wolf, herd, left, moved)
      ensures UniqueIds(left) && Indexes(left, index')
    {
      var cell := Hunt(wolf.cell, herd);
      var energy := wolf.energy - config.wolfLoss;
      left, index' := herd, index;
      BiteTakesOne(herd, cell);
      assert StackAt(index, cell) == StackOf(herd, cell, |herd|);
      if cell in index && index[cell] != [] {
        EatingKeepsIndex(herd, index, cell);
        var last := |index[cell]| - 1;
        left := Without(herd, index[cell][last].id, |herd|);
        index' := index[cell := index[cell][..last]];
        energy := energy + config.wolfGain;
      }
      moved := Animal(wolf.id, cell, energy, wolf.age + 1);
    }

    /** One wolf's turn: its move and meal, then its survival and a birth. */
    method TakeTurn(wolf: Animal, herd: seq<Animal>, byCell: map<Cell, seq<Animal>>)
      returns (o: Outcome, left: seq<Animal>, index: map<Cell, seq<Animal>>, stays: seq<Animal>, born: seq<Animal>)
      requires config.WellFormed() && UniqueIds(herd) && Indexes(herd, byCell)
      modifies this`nextWolfId
      ensures Feeds(config, wolf, herd, left, o.animal) && UniqueIds(left) && Indexes(left, index)
      ensures stays == Stays(o, WOLF_BREEDS) && born == Born(o, WOLF_BREEDS, old(nextWolfId))
      ensures nextWolfId == old(nextWolfId) + |born|
    {
      var moved: Animal;
      moved, left, index := Feed(wolf, herd, byCell);
      var favoured: bool := *;
      o := Outcome(moved, favoured);
      stays, born := Settle(o, WOLF_BREEDS, nextWolfId);
      nextWolfId := nextWolfId + |born|;
    }

    /** The wolf loop: feed, starve or stay, maybe give birth. The index matches the herd
        throughout. */
    method WolfPhase(flock: seq<Animal>)
      returns (left: seq<Animal>, pack: seq<Animal>, ghost herds: seq<seq<Animal>>, ghost hunted: seq<Outcome>)
      requires config.WellFormed() && UniqueIds(flock)
      modifies this`nextWolfId
      ensures Hunting(config, wolves, herds, hunted) && |hunted| == |wolves|
      ensures herds[0] == flock && left == herds[|wolves|]
      ensures pack == NextHerd(hunted, WOLF_BREEDS, old(nextWolfId))
      ensures nextWolfId == old(nextWolfId) + |Newborn(hunted, WOLF_BREEDS, old(nextWolfId), |hunted|)|
    {
      var byCell := BuildIndex(flock);
      var kept, newborn := [], [];
      left, herds, hunted := flock, [flock], [];
      for k := 0 to |wolves|
        invariant Hunting(config, wolves, herds, hunted) && |hunted| == k
        invariant herds[0] == flock && left == herds[k] && UniqueIds(left) && Indexes(left, byCell)
        invariant Settled(hunted, WOLF_BREEDS, old(nextWolfId), kept, newborn)
        invariant nextWolfId == old(nextWolfId) + |newborn|
      {
        var o: Outcome, stays, born;
        o, left, byCell, stays, born := TakeTurn(wolves[k], left, byCell);
        SettledNext(hunted, o, WOLF_BREEDS, old(nextWolfId), kept, newborn);
        HuntingNext(config, wolves, herds, hunted, left, o);
        herds, hunted := herds + [left], hunted + [o];
        kept, newborn := kept + stays, newborn + born;
      }
      pack := kept + newborn;
    }

    /** One step of the world. */
    method Step() returns (ghost day: Day)
      requires Valid()
      modifies this
      ensures Valid() && Stepped(old(View()), day, View())
    {
      ghost var w := View();
      UpdateGrass();
      var flock, pastures, grazed := SheepPhase();
      FlockHasUniqueIds(w, grazed, pastures);
      var left, pack, herds, hunted := WolfPhase(flock);
      sheep, wolves := left, pack;
      timeStep := timeStep + 1;
      day := Day(pastures, grazed, herds, hunted);
      DayIsStep(w, day, View());
      StepKeepsSound(w, day, View());
    }
  }

  lemma {:induction false} FlockHasUniqueIds(w: World, grazed: seq<Outcome>, pastures: seq<map<Cell, nat>>)
    requires Sound(w) && Grazing(w.config, w.sheep, pastures, grazed) && |grazed| == |w.sheep|
    ensures UniqueIds(NextHerd(grazed, SHEEP_BREEDS, w.nextSheepId))
  {
    GrazedOutcomes(w.config, w.sheep, pastures, grazed);
    HerdIsUnique(w.config, w.sheep, grazed, SHEEP_BREEDS, w.nextSheepId);
  }

  /** The two loops, one after the other, make a step. */
  lemma {:induction false} DayIsStep(w: World, day: Day, next: World)
    requires Sound(w)
    requires Grazing(w.config, w.sheep, day.pastures, day.grazed) && |day.grazed| == |w.sheep|
    requires Hunting(w.config, w.wolves, day.herds, day.hunted) && |day.hunted| == |w.wolves|
    requires day.pastures[0] == Ripened(w.grass) && day.herds[0] == NextHerd(day.grazed, SHEEP_BREEDS, w.nextSheepId)
    requires next == World(w.config, day.herds[|w.wolves|], NextHerd(day.hunted, WOLF_BREEDS, w.nextWolfId),
                           w.nextSheepId + |Newborn(day.grazed, SHEEP_BREEDS, w.nextSheepId, |day.grazed|)|,
                           w.nextWolfId + |Newborn(day.hunted, WOLF_BREEDS, w.nextWolfId, |day.hunted|)|,
                           w.timeStep + 1, day.pastures[|w.sheep|])
    ensures Stepped(w, day, next)
  {
    BirthsIgnoreNames(day.grazed, SHEEP_BREEDS, w.nextSheepId, |day.grazed|);
    BirthsIgnoreNames(day.hunted, WOLF_BREEDS, w.nextWolfId, |day.hunted|);
  }
}
