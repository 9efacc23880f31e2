/** Setting up an evacuation episode: sampling the guide's and the evacuees' cells, and the
    exact condition under which there is no room for them. */
module EvacuationSetup {
  import opened Prelude
  import opened Routes
  import opened Evacuation

  /** The cells on which somebody may start. */
  function Free(c: Config, fire: set<Position>): set<Position> {
    Cells(c.floor) - c.exits - c.floor.walls - fire
  }

  /** The columns strictly between the outermost columns of walls, or the middle third when the
      walls do not stand in two columns. */
  predicate CentralColumn(floor: Floor, x: int) {
    if exists p, q :: p in floor.walls && q in floor.walls && p.0 != q.0 then
      (exists p :: p in floor.walls && p.0 < x) && exists q :: q in floor.walls && x < q.0
    else
      floor.width / 3 <= x <= 2 * floor.width / 3
  }

  /** Between walls the centre reaches from one to the other, whatever stands in between;
      otherwise it is the middle third, rounded outwards on the left and inwards on the right. */
  lemma {:induction false} CentralIff(floor: Floor, left: Position, right: Position, x: int)
    requires left in floor.walls && right in floor.walls
    requires forall w :: w in floor.walls ==> left.0 <= w.0 <= right.0
    ensures CentralColumn(floor, x) <==>
            if left.0 < right.0 then left.0 < x < right.0 else floor.width < 3 * (x + 1) && 3 * x <= 2 * floor.width
  {
    assert forall w :: w in floor.walls && w.0 < x ==> left.0 < x;
    assert forall w :: w in floor.walls && x < w.0 ==> x < right.0;
  }

  /** The area in the middle of the floor where evacuees start if they can. */
  function Central(floor: Floor): set<Position> {
    set p | p in Cells(floor) && CentralColumn(floor, p.0) && Abs(p.1 - floor.height / 2) <= 3
  }

  /** The burning cells at the start: one of several sources if it is to be drawn. */
  predicate DrawnFrom(sources: seq<Position>, draw: bool, fire: set<Position>) {
    if draw && |sources| > 1 then exists k :: 0 <= k < |sources| && fire == {sources[k]}
    else fire == Elements(sources)
  }

  method DrawFire(sources: seq<Position>, draw: bool) returns (fire: set<Position>)
    ensures DrawnFrom(sources, draw, fire)
  {
    if draw && |sources| > 1 {
      var k :| 0 <= k < |sources|;
      return {sources[k]};
    }
    fire := set p | p in sources;
  }

  /** A cell of the grid outside `exclude`, or nothing when there is none. */
  method SampleSpawn(floor: Floor, exclude: set<Position>) returns (pos: Option<Position>)
    ensures pos.None? <==> Cells(floor) <= exclude
    ensures pos.Some? ==> pos.value in Cells(floor) - exclude
  {
    var candidates := Cells(floor) - exclude;
    NothingLeftOver(Cells(floor), exclude);
    if candidates == {} {
      return None;
    }
    var p :| p in candidates;
    pos := Some(p);
  }

  /** Prefer the central area; fall back to the whole grid when it is taken. */
  method SampleEvacueeSpawn(floor: Floor, exclude: set<Position>) returns (pos: Option<Position>)
    ensures pos.None? <==> Cells(floor) <= exclude
    ensures pos.Some? ==> pos.value in Cells(floor) - exclude
    ensures pos.Some? && !(Central(floor) <= exclude) ==> pos.value in Central(floor)
  {
    var candidates := Central(floor) - exclude;
    NothingLeftOver(Central(floor), exclude);
    if candidates == {} {
      pos := SampleSpawn(floor, exclude);
      return;
    }
    var p :| p in candidates;
    pos := Some(p);
  }

  /** The guide starts in the centre if it is free, and anywhere free otherwise. */
  method GuideSpawn(c: Config, fire: set<Position>) returns (pos: Option<Position>)
    ensures pos.None? <==> Free(c, fire) == {}
    ensures pos.Some? ==> pos.value in Free(c, fire)
    ensures (c.floor.width / 2, c.floor.height / 2) in Free(c, fire) ==>
              pos == Some((c.floor.width / 2, c.floor.height / 2))
  {
    var center := (c.floor.width / 2, c.floor.height / 2);
    if c.floor.Open(fire, center) && center !in c.exits {
      assert center in Free(c, fire);
      return Some(center);
    }
    NothingLeftOver(Cells(c.floor), c.exits + c.floor.walls + fire);
    assert Free(c, fire) == Cells(c.floor) - (c.exits + c.floor.walls + fire);
    pos := SampleSpawn(c.floor, c.exits + c.floor.walls + fire);
  }

  /** An exit that no other exit is closer than. */
  predicate NearestExit(exits: set<Position>, pos: Position, e: Position) {
    e in exits && forall other :: other in exits ==> Manhattan(pos, e) <= Manhattan(pos, other)
  }

  lemma {:induction false} NearestExitExists(exits: set<Position>, pos: Position)
    requires exits != {}
    ensures exists e :: NearestExit(exits, pos, e)
  {
    var some :| some in exits;
    var rest := exits - {some};
    assert exits == rest + {some};
    if rest == {} {
      assert NearestExit(exits, pos, some);
    } else {
      NearestExitExists(rest, pos);
      var best :| NearestExit(rest, pos, best);
      assert NearestExit(exits, pos, if Manhattan(pos, some) < Manhattan(pos, best) then some else best);
    }
  }

  /** The cells taken so far: the evacuees before `k`, each on its own free cell, and none on
      the guide's. */
  ghost predicate Seated(c: Config, fire: set<Position>, guide: Position, spawns: seq<Position>) {
    && guide in Free(c, fire) && guide !in spawns && Distinct(spawns)
    && forall i :: 0 <= i < |spawns| ==> spawns[i] in Free(c, fire)
  }

  lemma {:induction false} RoomLeft(c: Config, fire: set<Position>, guide: Position, spawns: seq<Position>)
    requires Seated(c, fire, guide, spawns)
    ensures |spawns| + 1 <= |Free(c, fire)|
    ensures Free(c, fire) <= Elements(spawns) + {guide} <==> |Free(c, fire)| == |spawns| + 1
  {
    var taken := Elements(spawns) + {guide};
    DistinctSize(spawns);
    assert |taken| == |spawns| + 1 && taken <= Free(c, fire);
    assert Free(c, fire) == taken + (Free(c, fire) - taken);
    if |Free(c, fire)| == |spawns| + 1 {
      SubsetOfSameSize(taken, Free(c, fire));
    }
  }

  /** A free cell for the next evacuee, or nothing when everybody seated takes the last one. */
  method NextSpawn(c: Config, fire: set<Position>, guide: Position, spawns: seq<Position>)
    returns (pos: Option<Position>)
    requires Seated(c, fire, guide, spawns)
    ensures pos.None? <==> |Free(c, fire)| == |spawns| + 1
    ensures pos.Some? ==> pos.value in Free(c, fire) && pos.value != guide && pos.value !in spawns
    ensures pos.Some? && (exists p :: p in Central(c.floor) && p in Free(c, fire) && p != guide && p !in spawns) ==>
              pos.value in Central(c.floor)
  {
    ghost var taken := Elements(spawns) + {guide};
    RoomLeft(c, fire, guide, spawns);
    var occupied := (set p | p in spawns) + {guide} + c.exits + c.floor.walls + fire;
    assert Cells(c.floor) <= occupied <==> Free(c, fire) <= taken;
    pos := SampleEvacueeSpawn(c.floor, occupied);
  }

  lemma {:induction false} SeatedNext(c: Config, fire: set<Position>, guide: Position, spawns: seq<Position>,
                                      p: Position)
    requires Seated(c, fire, guide, spawns) && p in Free(c, fire) && p != guide && p !in spawns
    ensures Seated(c, fire, guide, spawns + [p])
  {
  }

  /** The guide first, then the evacuees one after the other on cells that nobody occupies. */
  method Populate(c: Config, fire: set<Position>, count: nat) returns (model: EvacuationModel?)
    requires c.WellFormed()
    ensures model == null <==> |Free(c, fire)| < count + 1
    ensures model != null ==> fresh(model) && model.Valid() && Initial(model.View())
    ensures model != null ==> model.config == c && model.fire == fire && |model.evacuees| == count
    ensures model != null ==> Seated(c, fire, model.guide, Spots(model.View()))
    ensures model != null ==> forall i {:trigger model.View().people[i]} :: 0 <= i < count ==>
              NearestExit(c.exits, model.View().people[i].pos, model.View().people[i].target)
  {
    var start := GuideSpawn(c, fire);
    if start.None? {
      return null;
    }
    var guide := start.value;
    var spawns, targets := [], [];
    RoomLeft(c, fire, guide, spawns);
    for k := 0 to count
      invariant |spawns| == |targets| == k && Seated(c, fire, guide, spawns) && k + 1 <= |Free(c, fire)|
      invariant forall i :: 0 <= i < k ==> NearestExit(c.exits, spawns[i], targets[i])
    {
      var pos := NextSpawn(c, fire, guide, spawns);
      if pos.None? {
        return null;
      }
      NearestExitExists(c.exits, pos.value);
      var exit :| NearestExit(c.exits, pos.value, exit);
      SeatedNext(c, fire, guide, spawns, pos.value);
      spawns, targets := spawns + [pos.value], targets + [exit];
    }
    model := new EvacuationModel(c, fire, guide, spawns, targets);
    assert Spots(model.View()) == spawns;
  }

  /** Create an episode: draw the fire, then seat everybody. It fails exactly when the free
      cells do not suffice for the guide and all evacuees. */
  method CreateEpisode(c: Config, sources: seq<Position>, draw: bool, count: nat)
    returns (model: EvacuationModel?, fire: set<Position>)
    requires c.WellFormed()
    ensures DrawnFrom(sources, draw, fire)
    ensures model == null <==> |Free(c, fire)| < count + 1
    ensures model != null ==> fresh(model) && model.Valid() && Initial(model.View())
    ensures model != null ==> model.config == c && model.fire == fire && |model.evacuees| == count
    ensures model != null ==> Seated(c, fire, model.guide, Spots(model.View()))
    ensures model != null ==> forall i {:trigger model.View().people[i]} :: 0 <= i < count ==>
              NearestExit(c.exits, model.View().people[i].pos, model.View().people[i].target)
  {
    fire := DrawFire(sources, draw);
    model := Populate(c, fire, count);
  }

  /** Where the evacuees stand. */
  function Spots(s: State): seq<Position> {
    seq(|s.people|, i requires 0 <= i < |s.people| => s.people[i].pos)
  }
}
