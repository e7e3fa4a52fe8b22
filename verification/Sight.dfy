/** sight.rs: the cells a side sees, scanned viewer by viewer. */
module Sight {
  import opened Machine
  import opened Arithmetic
  import opened Cells

  /** A unit of a snapshot: where it is, whose, how far it sees, and a grant of sight it carries to a side. */
  datatype Unit = Unit(pos: Vec2, team: nat, vision: i32, grant: Option<(nat, i32)>)

  datatype Viewer = Viewer(pos: Vec2, radius: i32)

  /** What stops a line of sight: the ground's tier at a point, the boss pits, and the sight rule
      from a point on a tier to another. */
  datatype Ground = Ground(tier: Vec2 -> nat, pitClear: (Vec2, Vec2) -> bool, clear: (Vec2, nat, Vec2) -> bool)

  /** No unit sees farther than the farthest the rules give any. */
  type Vision = v: i32 | 0 < v <= 32767 * 65536 witness 1

  function RadiusOf(unit: Unit, team: nat, farthest: Vision): i32 {
    Min(Max(if unit.team == team then unit.vision else 0,
            if unit.grant.Some? && unit.grant.value.0 == team then unit.grant.value.1 else 0),
        farthest)
  }

  function Viewers(units: seq<Unit>, team: nat, farthest: Vision): (viewers: seq<Viewer>)
    ensures forall i :: 0 <= i < |viewers| ==> 0 < viewers[i].radius <= farthest
  {
    if units == [] then []
    else
      var last := units[|units| - 1];
      var radius := RadiusOf(last, team, farthest);
      Viewers(units[..|units| - 1], team, farthest) + if radius > 0 then [Viewer(last.pos, radius)] else []
  }

  /** `Vec2::distance_squared`, which saturates. */
  function DistanceSquared(a: Vec2, b: Vec2): i64 {
    SquaresFit(a.x - b.x, a.y - b.y);
    Min((a.x - b.x) * (a.x - b.x) + (a.y - b.y) * (a.y - b.y), I64_MAX)
  }

  lemma SquaresFit(dx: int, dy: int)
    ensures dx * dx >= 0 && dy * dy >= 0
  {
  }

  predicate Within(from: Vec2, at: Vec2, radius: i32) { DistanceSquared(from, at) <= radius * radius }

  /** A point in range, with nothing between it and the viewer and the ground under it no higher. */
  predicate SeesFrom(ground: Ground, viewer: Viewer, at: Vec2) {
    Within(viewer.pos, at, viewer.radius) && ground.pitClear(viewer.pos, at) &&
    ground.tier(at) <= ground.tier(viewer.pos) && ground.clear(viewer.pos, ground.tier(viewer.pos), at)
  }

  /** Whether a side sees a point: the plain question. */
  ghost predicate Sees(ground: Ground, viewers: seq<Viewer>, at: Vec2) {
    exists i :: 0 <= i < |viewers| && SeesFrom(ground, viewers[i], at)
  }

  /** Whether a viewer standing on the map sees a cell's centre. */
  predicate Marks(ground: Ground, viewer: Viewer, cell: Cell)
    requires OnGrid(cell)
  {
    CellOf(viewer.pos).Some? && SeesFrom(ground, viewer, CellCenter(cell))
  }

  function Reach(radius: i32): int { ToInt(radius) / GRID_CELL_SIZE + 1 }

  /** The cells a scan looks at: those of a square about the viewer's own. */
  predicate InSquare(viewer: Viewer, cell: Cell) {
    CellOf(viewer.pos).Some? &&
    var (cx, cy) := CellOf(viewer.pos).value;
    cx - Reach(viewer.radius) <= cell.0 <= cx + Reach(viewer.radius) &&
      cy - Reach(viewer.radius) <= cell.1 <= cy + Reach(viewer.radius)
  }

  // ---------- the square covers all in reach ----------

  lemma WithinAxis(d: int, e: int, radius: nat)
    requires radius < 0x8000_0000 && Min(d * d + e * e, I64_MAX) <= radius * radius
    ensures Abs(d) <= radius
  {
    SquareMono(radius, 0x7fff_ffff);
    SquaresFit(d, e);
    assert Abs(d) * Abs(d) == d * d;
    if Abs(d) > radius {
      SquareStrict(radius, Abs(d));
    }
  }

  /** Along one axis: a cell whose centre is within the radius is within the reach. */
  lemma AxisInReach(p: i32, x: nat, radius: i32)
    requires 0 <= p && x < GRID_CELLS && radius > 0
    requires Abs(p - (x * GRID_CELL_SIZE + GRID_CELL_SIZE / 2) * ONE) <= radius
    ensures ToInt(p) / GRID_CELL_SIZE - Reach(radius) <= x <= ToInt(p) / GRID_CELL_SIZE + Reach(radius)
  {
  }

  lemma SquareCovers(ground: Ground, viewer: Viewer, cell: Cell)
    requires OnGrid(cell) && viewer.radius > 0 && Marks(ground, viewer, cell)
    ensures InSquare(viewer, cell)
  {
    var p, c := viewer.pos, CellCenter(cell);
    WithinAxis(p.x - c.x, p.y - c.y, viewer.radius);
    WithinAxis(p.y - c.y, p.x - c.x, viewer.radius);
    AxisInReach(p.x, cell.0, viewer.radius);
    AxisInReach(p.y, cell.1, viewer.radius);
  }

  // ---------- the scan ----------

  /** One row of a scanned square. */
  method MarkRow(ground: Ground, viewer: Viewer, y: nat, low: nat, high: nat, lit: array<bool>)
    requires lit.Length == CELLS && y < GRID_CELLS && low <= high + 1 <= GRID_CELLS
    modifies lit
    ensures forall k :: 0 <= k < CELLS ==>
              OnGrid(CellAt(k)) &&
              lit[k] == (old(lit[k]) || (CellAt(k).1 == y && low <= CellAt(k).0 <= high &&
                SeesFrom(ground, viewer, CellCenter(CellAt(k)))))
  {
    hide SeesFrom;
    for x := low to high + 1
      invariant forall k :: 0 <= k < CELLS ==>
                  OnGrid(CellAt(k)) &&
                  lit[k] == (old(lit[k]) || (CellAt(k).1 == y && low <= CellAt(k).0 < x &&
                    SeesFrom(ground, viewer, CellCenter(CellAt(k)))))
    {
      IndexInverts((x, y));
      var k := y * GRID_CELLS + x;
      if !lit[k] {
        lit[k] := SeesFrom(ground, viewer, CellCenter((x, y)));
      }
    }
  }

  /** All a viewer sees, marked beside what already was. */
  method MarkViewer(ground: Ground, viewer: Viewer, lit: array<bool>)
    requires lit.Length == CELLS && viewer.radius > 0
    modifies lit
    ensures forall k ::
            0 <= k < CELLS ==> OnGrid(CellAt(k)) && lit[k] == (old(lit[k]) || Marks(ground, viewer, CellAt(k)))
  {
    hide SeesFrom, CellOf;
    forall k | 0 <= k < CELLS
      ensures OnGrid(CellAt(k)) && (Marks(ground, viewer, CellAt(k)) ==> InSquare(viewer, CellAt(k)))
    {
      AtInverts(k);
      if Marks(ground, viewer, CellAt(k)) {
        SquareCovers(ground, viewer, CellAt(k));
      }
    }
    var home := CellOf(viewer.pos);
    if home == None {
      return;
    }
    var (cx, cy) := home.value;
    var reach := Reach(viewer.radius);
    var south, north := Max(cy - reach, 0), Min(cy + reach, GRID_CELLS - 1);
    var west, east := Max(cx - reach, 0), Min(cx + reach, GRID_CELLS - 1);
    for y := south to north + 1
      invariant forall k :: 0 <= k < CELLS ==>
                  lit[k] == (old(lit[k]) ||
                             (south <= CellAt(k).1 < y && west <= CellAt(k).0 <= east &&
                               SeesFrom(ground, viewer, CellCenter(CellAt(k)))))
    {
      MarkRow(ground, viewer, y, west, east, lit);
    }
  }

  ghost predicate SeenOnMap(ground: Ground, viewers: seq<Viewer>, cell: Cell)
    requires OnGrid(cell)
  {
    exists i :: 0 <= i < |viewers| && Marks(ground, viewers[i], cell)
  }

  // ---------- what a side is shown, unit by unit ----------

  /** The point lies within the radius of the place, in real units squared, on ground no higher, and
      neither a pit nor the sight rule is in the way. */
  predicate Spots(ground: Ground, place: Vec2, radius: i32, at: Vec2) {
    (place.x - at.x) * (place.x - at.x) + (place.y - at.y) * (place.y - at.y) <= radius * radius &&
    ground.tier(at) <= ground.tier(place) && ground.pitClear(place, at) && ground.clear(place, ground.tier(place), at)
  }

  /** A unit spots a point for a side: by its own vision if it is the side's, or by the sight it
      grants the side; as far as the positive radius goes, and no farther than any unit sees. */
  predicate SpotsFor(ground: Ground, unit: Unit, team: nat, farthest: Vision, at: Vec2) {
    (unit.team == team && unit.vision > 0 && Spots(ground, unit.pos, Min(unit.vision, farthest), at)) ||
    (unit.grant.Some? && unit.grant.value.0 == team && unit.grant.value.1 > 0 &&
     Spots(ground, unit.pos, Min(unit.grant.value.1, farthest), at))
  }

  /** Some unit standing on the map spots the cell's centre for the side. */
  ghost predicate ShownTo(ground: Ground, units: seq<Unit>, team: nat, farthest: Vision, cell: Cell)
    requires OnGrid(cell)
  {
    exists i :: 0 <= i < |units| && CellOf(units[i].pos).Some? &&
                SpotsFor(ground, units[i], team, farthest, CellCenter(cell))
  }

  lemma SeesIsSpots(ground: Ground, viewer: Viewer, at: Vec2)
    requires viewer.radius > 0
    ensures SeesFrom(ground, viewer, at) <==> Spots(ground, viewer.pos, viewer.radius, at)
  {
    SquareMono(viewer.radius, 0x7fff_ffff);
  }

  lemma SpotsFarther(ground: Ground, place: Vec2, near: i32, far: i32, at: Vec2)
    requires 0 < near <= far && Spots(ground, place, near, at)
    ensures Spots(ground, place, far, at)
  {
    SquareMono(near, far);
  }

  /** Of its own vision and the sight it grants, a unit's reach is the wider. */
  lemma RadiusSpots(ground: Ground, unit: Unit, team: nat, farthest: Vision, at: Vec2)
    ensures SpotsFor(ground, unit, team, farthest, at) <==>
            RadiusOf(unit, team, farthest) > 0 && SeesFrom(ground, Viewer(unit.pos, RadiusOf(unit, team, farthest)), at)
  {
    var radius := RadiusOf(unit, team, farthest);
    if radius > 0 {
      SeesIsSpots(ground, Viewer(unit.pos, radius), at);
    }
    hide SeesFrom;
    if unit.team == team && unit.vision > 0 && Spots(ground, unit.pos, Min(unit.vision, farthest), at) {
      SpotsFarther(ground, unit.pos, Min(unit.vision, farthest), radius, at);
    }
    if unit.grant.Some? && unit.grant.value.0 == team && unit.grant.value.1 > 0 &&
       Spots(ground, unit.pos, Min(unit.grant.value.1, farthest), at) {
      SpotsFarther(ground, unit.pos, Min(unit.grant.value.1, farthest), radius, at);
    }
    hide Spots;
  }

  /** What one unit adds to the viewers. */
  function ViewerOf(unit: Unit, team: nat, farthest: Vision): seq<Viewer> {
    if RadiusOf(unit, team, farthest) > 0 then [Viewer(unit.pos, RadiusOf(unit, team, farthest))] else []
  }

  lemma OneUnit(ground: Ground, unit: Unit, team: nat, farthest: Vision, cell: Cell)
    requires OnGrid(cell)
    ensures SeenOnMap(ground, ViewerOf(unit, team, farthest), cell) <==>
            CellOf(unit.pos).Some? && SpotsFor(ground, unit, team, farthest, CellCenter(cell))
  {
    RadiusSpots(ground, unit, team, farthest, CellCenter(cell));
    hide SpotsFor, SeesFrom, CellOf, RadiusOf;
    var one := ViewerOf(unit, team, farthest);
    if one != [] {
      assert one[0] == Viewer(unit.pos, RadiusOf(unit, team, farthest));
    }
  }

  /** The viewers stand for the units: they mark a cell exactly when it is shown to the side. */
  lemma {:induction false} ViewersAreUnits(ground: Ground, units: seq<Unit>, team: nat, farthest: Vision, cell: Cell)
    requires OnGrid(cell)
    ensures SeenOnMap(ground, Viewers(units, team, farthest), cell) <==> ShownTo(ground, units, team, farthest, cell)
  {
    hide SpotsFor, SeesFrom, CellOf, RadiusOf, Marks;
    if units != [] {
      var rest, last := units[..|units| - 1], units[|units| - 1];
      ViewersAreUnits(ground, rest, team, farthest, cell);
      OneUnit(ground, last, team, farthest, cell);
      assert units == rest + [last];
      assert Viewers(units, team, farthest) == Viewers(rest, team, farthest) + ViewerOf(last, team, farthest);
      hide SeenOnMap, ShownTo, ViewerOf, Viewers;
      ShownSplits(ground, rest, last, team, farthest, cell);
      SeenSplits(ground, Viewers(rest, team, farthest), ViewerOf(last, team, farthest), cell);
    }
  }

  lemma ShownSplits(ground: Ground, units: seq<Unit>, last: Unit, team: nat, farthest: Vision, cell: Cell)
    requires OnGrid(cell)
    ensures ShownTo(ground, units + [last], team, farthest, cell) <==>
            ShownTo(ground, units, team, farthest, cell) ||
            (CellOf(last.pos).Some? && SpotsFor(ground, last, team, farthest, CellCenter(cell)))
  {
    hide SpotsFor, CellOf;
    var all := units + [last];
    if ShownTo(ground, units, team, farthest, cell) {
      var i :| 0 <= i < |units| && CellOf(units[i].pos).Some? &&
               SpotsFor(ground, units[i], team, farthest, CellCenter(cell));
      assert all[i] == units[i];
    }
    assert all[|units|] == last;
  }

  lemma SeenSplits(ground: Ground, viewers: seq<Viewer>, more: seq<Viewer>, cell: Cell)
    requires OnGrid(cell)
    ensures SeenOnMap(ground, viewers + more, cell) <==>
            SeenOnMap(ground, viewers, cell) || SeenOnMap(ground, more, cell)
  {
    hide Marks;
    var all := viewers + more;
    if SeenOnMap(ground, viewers, cell) {
      var i :| 0 <= i < |viewers| && Marks(ground, viewers[i], cell);
      assert all[i] == viewers[i];
    }
    if SeenOnMap(ground, more, cell) {
      var i :| 0 <= i < |more| && Marks(ground, more[i], cell);
      assert all[|viewers| + i] == more[i];
    }
  }

  /** Units of other sides that grant a side nothing show it nothing. */
  lemma StrangersShowNothing(ground: Ground, units: seq<Unit>, others: seq<Unit>, team: nat, farthest: Vision,
                             cell: Cell)
    requires OnGrid(cell)
    requires forall i :: 0 <= i < |others| ==>
               others[i].team != team && (others[i].grant.Some? ==> others[i].grant.value.0 != team)
    ensures ShownTo(ground, units + others, team, farthest, cell) <==> ShownTo(ground, units, team, farthest, cell)
  {
    hide Spots, CellOf;
    var all := units + others;
    if ShownTo(ground, units, team, farthest, cell) {
      var i :| 0 <= i < |units| && CellOf(units[i].pos).Some? &&
               SpotsFor(ground, units[i], team, farthest, CellCenter(cell));
      assert all[i] == units[i];
    }
    if ShownTo(ground, all, team, farthest, cell) {
      var i :| 0 <= i < |all| && CellOf(all[i].pos).Some? && SpotsFor(ground, all[i], team, farthest, CellCenter(cell));
      assert i >= |units| ==> all[i] == others[i - |units|];
    }
  }

  /** Fast sight: for one entry per cell, every cell is lit exactly when some unit standing on the
      map shows its centre to the side; anything else is left as it was. */
  method Lit(ground: Ground, units: seq<Unit>, team: nat, farthest: Vision, lit: array<bool>)
    modifies lit
    ensures lit.Length != CELLS ==> lit[..] == old(lit[..])
    ensures lit.Length == CELLS ==>
              forall cell: Cell :: OnGrid(cell) ==>
                cell.1 * 288 + cell.0 < lit.Length &&
                (lit[cell.1 * 288 + cell.0] <==> ShownTo(ground, units, team, farthest, cell))
  {
    if lit.Length != CELLS {
      return;
    }
    hide Marks;
    forall k | 0 <= k < CELLS {
      lit[k] := false;
    }
    var viewers := Viewers(units, team, farthest);
    for v := 0 to |viewers|
      invariant forall k :: 0 <= k < CELLS ==> OnGrid(CellAt(k)) && lit[k] == SeenOnMap(ground, viewers[..v], CellAt(k))
    {
      MarkViewer(ground, viewers[v], lit);
      assert viewers[..v + 1] == viewers[..v] + [viewers[v]];
    }
    assert viewers[..|viewers|] == viewers;
    forall cell: Cell | OnGrid(cell)
      ensures IndexOf(cell) < CELLS && CellAt(IndexOf(cell)) == cell
      ensures SeenOnMap(ground, viewers, cell) <==> ShownTo(ground, units, team, farthest, cell)
    {
      IndexInverts(cell);
      ViewersAreUnits(ground, units, team, farthest, cell);
    }
    hide SeenOnMap, ShownTo;
  }

  // ---------- fast and plain sight agree ----------

  /** The scan lights no cell the side does not see, and with every viewer on the map all it does. */
  lemma FastIsPlain(ground: Ground, viewers: seq<Viewer>, cell: Cell)
    requires OnGrid(cell)
    ensures SeenOnMap(ground, viewers, cell) ==> Sees(ground, viewers, CellCenter(cell))
    ensures (forall i :: 0 <= i < |viewers| ==> CellOf(viewers[i].pos).Some?) ==>
              (SeenOnMap(ground, viewers, cell) <==> Sees(ground, viewers, CellCenter(cell)))
  {
    hide SeesFrom, CellOf;
    if SeenOnMap(ground, viewers, cell) {
      var i :| 0 <= i < |viewers| && Marks(ground, viewers[i], cell);
      assert SeesFrom(ground, viewers[i], CellCenter(cell));
    }
    if Sees(ground, viewers, CellCenter(cell)) {
      var i :| 0 <= i < |viewers| && SeesFrom(ground, viewers[i], CellCenter(cell));
      assert CellOf(viewers[i].pos).Some? ==> Marks(ground, viewers[i], cell);
    }
  }

  lemma {:induction false} ViewersStand(units: seq<Unit>, team: nat, farthest: Vision)
    requires forall i :: 0 <= i < |units| ==> CellOf(units[i].pos).Some?
    ensures forall i ::
            0 <= i < |Viewers(units, team, farthest)| ==> CellOf(Viewers(units, team, farthest)[i].pos).Some?
  {
    hide CellOf;
    if units != [] {
      ViewersStand(units[..|units| - 1], team, farthest);
    }
  }

  /** Every unit a session lets through stands on the map, so for an accepted snapshot the two
      agree on every cell, and say what the units show. */
  lemma SnapshotSight(ground: Ground, units: seq<Unit>, team: nat, farthest: Vision, cell: Cell)
    requires OnGrid(cell)
    requires forall i :: 0 <= i < |units| ==>
               0 <= units[i].pos.x <= MapMaximumRaw(GRID_CELLS) && 0 <= units[i].pos.y <= MapMaximumRaw(GRID_CELLS)
    ensures ShownTo(ground, units, team, farthest, cell) <==>
            Sees(ground, Viewers(units, team, farthest), CellCenter(cell))
    ensures ShownTo(ground, units, team, farthest, cell) <==>
            exists i :: 0 <= i < |units| && SpotsFor(ground, units[i], team, farthest, CellCenter(cell))
  {
    forall i | 0 <= i < |units|
      ensures CellOf(units[i].pos).Some?
    {
      OnMapHasCell(units[i].pos);
    }
    hide SeesFrom, SpotsFor, CellOf;
    ViewersStand(units, team, farthest);
    ViewersAreUnits(ground, units, team, farthest, cell);
    FastIsPlain(ground, Viewers(units, team, farthest), cell);
  }
}
