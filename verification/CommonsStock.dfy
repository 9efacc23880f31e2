/** The ledger of units in the spatial commons: harvesting only moves units from the grid to
    the agents, and regrowth is the only source of new ones. */
module CommonsStock {
  import opened Prelude
  import opened Landscape
  import opened Commons

  function Harvested(agents: seq<Harvester>, k: nat): nat
    requires k <= |agents|
  {
    if k == 0 then 0 else Harvested(agents, k - 1) + agents[k - 1].harvested
  }

  /** The cells are the fertile ones, each once. */
  ghost predicate ListsFertile(land: Land, cells: seq<Cell>) {
    && Distinct(cells)
    && forall c {:trigger c in cells} :: c in cells <==> c in land.fertile
  }

  ghost predicate Counted(s: State, cells: seq<Cell>) {
    Sound(s) && ListsFertile(s.config.land, cells)
  }

  lemma {:induction false} FertileIsCovered(s: State, cells: seq<Cell>)
    requires Counted(s, cells)
    ensures forall c :: c in cells ==> c in s.resources
  {
    assert forall c :: c in s.config.land.fertile ==> s.config.land.Inside(c);
  }

  /** Everything there is: units in the ground and units taken. */
  ghost function Units(s: State, cells: seq<Cell>): nat
    requires Counted(s, cells)
  {
    FertileIsCovered(s, cells);
    Stock(s.resources, cells) + Harvested(s.agents, |s.agents|)
  }

  lemma {:induction false} StockUpdate(grid: map<Cell, nat>, cells: seq<Cell>, c: Cell, v: nat)
    requires (forall d :: d in cells ==> d in grid) && Distinct(cells) && c in grid
    ensures Stock(grid[c := v], cells) == Stock(grid, cells) + if c in cells then v - grid[c] else 0
  {
    if cells != [] {
      var last := |cells| - 1;
      var rest := cells[..last];
      assert cells == rest + [cells[last]];
      StockUpdate(grid, rest, c, v);
    }
  }

  lemma {:induction false} HarvestedUpdate(agents: seq<Harvester>, i: nat, p: Harvester, k: nat)
    requires i < |agents| && k <= |agents|
    ensures Harvested(agents[i := p], k)
            == Harvested(agents, k) + if i < k then p.harvested - agents[i].harvested else 0
  {
    if k > 0 {
      HarvestedUpdate(agents, i, p, k - 1);
    }
  }

  /** An activation creates and destroys nothing: a harvested unit leaves the ground and is
      credited to its harvester. */
  lemma {:induction false} ActivationConservesUnits(s: State, d: Decision, cells: seq<Cell>)
    requires Counted(s, cells) && Acceptable(s, d)
    ensures Counted(Acted(s, d), cells) && Units(Acted(s, d), cells) == Units(s, cells)
  {
    ActedIsSound(s, d);
    FertileIsCovered(s, cells);
    var i, t := Turn(s), Acted(s, d);
    HarvestedUpdate(s.agents, i, t.agents[i], |s.agents|);
    if d.action.Harvest? {
      var c := s.agents[i].position;
      assert c in s.config.land.fertile;
      StockUpdate(s.resources, cells, c, s.resources[c] - 1);
    }
  }

  lemma {:induction false} RegrowthAddsUnits(land: Land, capacity: nat, rate: real, field: int -> real,
                                             grid: map<Cell, nat>, cells: seq<Cell>)
    requires forall c :: c in cells ==> c in grid
    ensures forall c :: c in cells ==> c in Regrown(land, capacity, rate, field, grid)
    ensures var grown := Stock(Regrown(land, capacity, rate, field, grid), cells);
            Stock(grid, cells) <= grown <= Stock(grid, cells) + |cells|
  {
    if cells != [] {
      var last := |cells| - 1;
      assert cells == cells[..last] + [cells[last]];
      RegrowthAddsUnits(land, capacity, rate, field, grid, cells[..last]);
    }
  }

  /** A completed step leaves the number of units alone, or ends a round; then it grows by at
      most one unit for each fertile cell. */
  lemma {:induction false} StepUnits(s: State, d: Decision, field: int -> real, cells: seq<Cell>)
    requires Counted(s, cells)
    ensures Counted(Next(s, d, field), cells)
    ensures Units(s, cells) <= Units(Next(s, d, field), cells) <= Units(s, cells) + |cells|
    ensures Next(s, d, field).tick % s.config.agents != 0 ==> Units(Next(s, d, field), cells) == Units(s, cells)
  {
    NextIsSound(s, d, field);
    if Acceptable(s, d) {
      ActivationConservesUnits(s, d, cells);
      var t := Acted(s, d);
      FertileIsCovered(t, cells);
      RegrowthAddsUnits(t.config.land, t.config.capacity, EffectiveRegrowth(t.config, t.tick / t.config.agents),
                        field, t.resources, cells);
    }
  }

  /** No tick of the stretch ends a round. */
  ghost predicate WithinRound(trace: seq<State>, j: nat, k: nat)
    requires j <= k < |trace|
  {
    forall i {:trigger trace[i]} :: j < i <= k ==>
          trace[i].config.agents > 0 && trace[i].tick % trace[i].config.agents != 0
  }

  /** Between two states units do not get lost, and are as many within a round. */
  ghost predicate Kept(trace: seq<State>, cells: seq<Cell>, j: nat, k: nat)
    requires j <= k < |trace|
  {
    && Counted(trace[j], cells) && Counted(trace[k], cells)
    && Units(trace[j], cells) <= Units(trace[k], cells)
    && (WithinRound(trace, j, k) ==> Units(trace[k], cells) == Units(trace[j], cells))
  }

  /** Over every run units are never lost, and between two round ends their number does not
      change at all, whoever harvests what. */
  lemma {:induction false} UnitsNeverVanish(trace: seq<State>, inputs: seq<Input>, cells: seq<Cell>, last: nat)
    requires Run(trace, inputs) && last < |trace| && ListsFertile(trace[0].config.land, cells)
    ensures forall j: nat {:trigger Kept(trace, cells, j, last)} :: j <= last ==> Kept(trace, cells, j, last)
  {
    RunIsSound(trace, inputs, last);
    if last > 0 {
      var k := last - 1;
      UnitsNeverVanish(trace, inputs, cells, k);
      assert StepAt(trace, inputs, k) && Kept(trace, cells, k, k);
      StepUnits(trace[k], inputs[k].decision, inputs[k].field, cells);
      forall j: nat {:trigger Kept(trace, cells, j, last)} | j <= last ensures Kept(trace, cells, j, last) {
        if j < last {
          assert Kept(trace, cells, j, k);
          assert WithinRound(trace, j, last) ==> WithinRound(trace, j, k);
        }
      }
    }
  }
}
