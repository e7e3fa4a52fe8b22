/** Facings in binary radians, as movement.rs turns and aims them. */
module Angles {
  import opened Machine
  import opened Arithmetic

  /** The same facing, whatever whole turns were added: `&` with `0xFFFF`, on a value of either sign. */
  function Wrap(brads: int): u16 { brads % 0x1_0000 }

  function AngleDelta(from: u16, to: u16): (delta: int)
    ensures -0x8000 < delta <= 0x8000 && Wrap(from + delta) == to
  {
    var d := Wrap(to - from);
    if d > 32768 then d - 65536 else d
  }

  /** The delta is the one rotation of its range that leads from the one facing to the other. */
  lemma DeltaUnique(from: u16, to: u16, delta: int)
    requires -0x8000 < delta <= 0x8000 && Wrap(from + delta) == to
    ensures delta == AngleDelta(from, to)
  {
  }

  function TurnTowards(from: u16, to: u16, rate: u16): u16 {
    Wrap(from + Clamp(AngleDelta(from, to), 0 - rate, rate))
  }

  function FacingGap(a: u16, b: u16): u16 { Abs(AngleDelta(a, b)) }

  function DivCeil(n: nat, d: nat): nat
    requires d > 0
  {
    (n + d - 1) / d
  }

  function TurnTicks(facing: u16, wanted: u16, rate: u16, tolerance: u16): nat {
    DivCeil(SatSub32(FacingGap(facing, wanted), tolerance), Max(rate, 1))
  }

  /** The facing after `ticks` ticks of turning. */
  function Turned(from: u16, to: u16, rate: u16, ticks: nat): u16
    decreases ticks
  {
    if ticks == 0 then from else Turned(TurnTowards(from, to, rate), to, rate, ticks - 1)
  }

  lemma OneTurn(from: u16, to: u16, rate: u16)
    ensures AngleDelta(TurnTowards(from, to, rate), to) ==
            AngleDelta(from, to) - Clamp(AngleDelta(from, to), 0 - rate, rate)
    ensures FacingGap(TurnTowards(from, to, rate), to) == Max(FacingGap(from, to) - rate, 0)
  {
    var delta := AngleDelta(from, to);
    var turn := Clamp(delta, 0 - rate, rate);
    assert Wrap(Wrap(from + turn) + (delta - turn)) == Wrap(from + delta);
    DeltaUnique(TurnTowards(from, to, rate), to, delta - turn);
  }

  /** Every tick of turning closes the gap by the rate, across the wrap and from exactly
      opposite as well. */
  lemma {:induction false} GapAfter(from: u16, to: u16, rate: u16, ticks: nat)
    ensures FacingGap(Turned(from, to, rate, ticks), to) == Max(FacingGap(from, to) - ticks * rate, 0)
    decreases ticks
  {
    if ticks > 0 {
      OneTurn(from, to, rate);
      GapAfter(TurnTowards(from, to, rate), to, rate, ticks - 1);
      Successor(ticks - 1, rate);
    }
  }

  /** `turn_ticks` is exactly when the facing comes within the tolerance: from then on it stays
      within, and before it never is. */
  lemma TurnTicksExact(facing: u16, wanted: u16, rate: u16, tolerance: u16, ticks: nat)
    requires rate >= 1
    ensures FacingGap(Turned(facing, wanted, rate, ticks), wanted) <= tolerance <==>
            ticks >= TurnTicks(facing, wanted, rate, tolerance)
  {
    GapAfter(facing, wanted, rate, ticks);
    TicksClose(FacingGap(facing, wanted), rate, tolerance, ticks);
  }

  lemma TicksClose(gap: u16, rate: u16, tolerance: u16, ticks: nat)
    requires rate >= 1
    ensures Max(gap - ticks * rate, 0) <= tolerance <==> ticks >= DivCeil(SatSub32(gap, tolerance), Max(rate, 1))
  {
    CeilBound(SatSub32(gap, tolerance), rate, ticks);
  }

  lemma CeilBound(n: nat, d: nat, k: nat)
    requires d > 0
    ensures k >= DivCeil(n, d) <==> k * d >= n
  {
    var c := DivCeil(n, d);
    Floored(n + d - 1, d);
    if k >= c {
      NatMono(d, c, k);
    } else {
      NatMono(d, k + 1, c);
      Successor(k, d);
    }
  }

  /** A body that cannot turn faces where it faced, and comes within the tolerance only if it starts there. */
  lemma {:induction false} NeverWithoutRate(facing: u16, wanted: u16, tolerance: u16, ticks: nat)
    ensures Turned(facing, wanted, 0, ticks) == facing
    ensures FacingGap(Turned(facing, wanted, 0, ticks), wanted) <= tolerance <==> FacingGap(facing, wanted) <= tolerance
    decreases ticks
  {
    if ticks > 0 {
      NeverWithoutRate(facing, wanted, tolerance, ticks - 1);
      NoTurn(facing, wanted);
    }
  }

  lemma NoTurn(facing: u16, wanted: u16)
    ensures TurnTowards(facing, wanted, 0) == facing
  {
  }

  /** The reckoning holds for every number of ticks if and only if the body can turn at all, or need
      not: at rate zero it goes by a rate of one, and a gap beyond the tolerance stays. */
  lemma TurnTicksMeant(facing: u16, wanted: u16, rate: u16, tolerance: u16)
    ensures (forall ticks: nat :: FacingGap(Turned(facing, wanted, rate, ticks), wanted) <= tolerance <==>
                                  ticks >= TurnTicks(facing, wanted, rate, tolerance)) <==>
            rate >= 1 || FacingGap(facing, wanted) <= tolerance
  {
    hide FacingGap, TurnTicks;
    if rate >= 1 {
      forall ticks: nat
        ensures FacingGap(Turned(facing, wanted, rate, ticks), wanted) <= tolerance <==>
                ticks >= TurnTicks(facing, wanted, rate, tolerance)
      {
        TurnTicksExact(facing, wanted, rate, tolerance, ticks);
      }
    } else {
      var reckoned := TurnTicks(facing, wanted, 0, tolerance);
      if FacingGap(facing, wanted) <= tolerance {
        NoTicksWithin(facing, wanted, tolerance);
      }
      NeverWithoutRate(facing, wanted, tolerance, reckoned);
      forall ticks: nat
        ensures FacingGap(Turned(facing, wanted, 0, ticks), wanted) <= tolerance <==>
                FacingGap(facing, wanted) <= tolerance
      {
        NeverWithoutRate(facing, wanted, tolerance, ticks);
      }
    }
  }

  lemma NoTicksWithin(facing: u16, wanted: u16, tolerance: u16)
    requires FacingGap(facing, wanted) <= tolerance
    ensures TurnTicks(facing, wanted, 0, tolerance) == 0
  {
  }

  /** A body facing away that cannot turn: half a turn's worth of ticks is reckoned, and after any
      number of them it still faces away. */
  lemma FacingAwayForEver(ticks: nat)
    ensures TurnTicks(0, 32768, 0, 0) == 32768 && FacingGap(Turned(0, 32768, 0, ticks), 32768) == 32768
  {
    NeverWithoutRate(0, 32768, 0, ticks);
    CeilOfOne(32768);
  }

  lemma CeilOfOne(n: nat)
    ensures DivCeil(n, 1) == n
  {
  }

  /** `Vec2::from_ints` and the sum of two points, which the program asserts to fit. */
  predicate Fits(p: Vec2, offset: (int, int)) {
    I32_MIN <= p.x + offset.0 <= I32_MAX && I32_MIN <= p.y + offset.1 <= I32_MAX
  }

  /** An offset of raw units looking where a facing looks. */
  function HeadingOf(brads: u16): (offset: (int, int)) {
    var slope := brads % 8192;
    var d :=
      match brads / 8192
      case 0 => (8192, slope)
      case 1 => (8192 - slope, 8192)
      case 2 => (-slope, 8192)
      case 3 => (-8192, 8192 - slope)
      case 4 => (-8192, -slope)
      case 5 => (-(8192 - slope), -8192)
      case 6 => (slope, -8192)
      case _ => (8192, -(8192 - slope));
    (d.0 * ONE, d.1 * ONE)
  }

  function FacingTowards(from: Vec2, to: Vec2): u16 { FacingOf(to.x - from.x, to.y - from.y) }

  /** The slope of an offset, mapped onto one octant. */
  function Slope(short: nat, long: nat): nat
    requires long > 0
  {
    short * 8192 / long
  }

  lemma SlopeOf(units: nat, short: nat, long: nat)
    requires short == units * ONE && long == 8192 * ONE
    ensures Slope(short, long) == units
  {
    assert Slope(units * ONE, 8192 * ONE) == units;
  }

  /** Where in the turn an offset points, by the octant it lies in. */
  function Octant(dx: int, dy: int): int
    requires dx != 0 || dy != 0
  {
    var adx, ady := Abs(dx), Abs(dy);
    var slope := if adx >= ady then Slope(ady, adx) else Slope(adx, ady);
    match (dx >= 0, dy >= 0, adx >= ady)
    case (true, true, true) => slope
    case (true, true, false) => 16384 - slope
    case (false, true, false) => 16384 + slope
    case (false, true, true) => 32768 - slope
    case (false, false, true) => 32768 + slope
    case (false, false, false) => 49152 - slope
    case (true, false, false) => 49152 + slope
    case (true, false, true) => 65536 - slope
  }

  function FacingOf(dx: int, dy: int): u16 { if dx == 0 && dy == 0 then 0 else Wrap(Octant(dx, dy)) }

  /** Looking along the heading of a facing is that facing, from every point the heading leads
      from without overflow. */
  lemma HeadingInverts(p: Vec2, brads: u16)
    requires Fits(p, HeadingOf(brads))
    ensures FacingTowards(p, Vec2(p.x + HeadingOf(brads).0, p.y + HeadingOf(brads).1)) == brads
  {
    var d := HeadingOf(brads);
    var long, short := Max(Abs(d.0), Abs(d.1)), Min(Abs(d.0), Abs(d.1));
    var slope := brads % 8192;
    SlopeOf(if brads / 8192 % 2 == 0 then slope else 8192 - slope, short, long);
    SlopeOf(8192, 8192 * ONE, 8192 * ONE);
    hide Slope, FacingOf;
    if brads < 16384 {
      FirstQuarter(brads, d.0, d.1);
    } else if brads < 32768 {
      SecondQuarter(brads, d.0, d.1);
    } else if brads < 49152 {
      ThirdQuarter(brads, d.0, d.1);
    } else {
      LastQuarter(brads, d.0, d.1);
    }
  }

  /** The slope of a heading, the diagonal's among them. */
  ghost predicate Sloped(brads: u16, dx: int, dy: int) {
    (dx, dy) == HeadingOf(brads) && Slope(8192 * ONE, 8192 * ONE) == 8192 &&
    Slope(Min(Abs(dx), Abs(dy)), Max(Abs(dx), Abs(dy))) ==
      if brads / 8192 % 2 == 0 then brads % 8192 else 8192 - brads % 8192
  }

  lemma FirstQuarter(brads: u16, dx: int, dy: int)
    requires brads < 16384 && Sloped(brads, dx, dy)
    ensures FacingOf(dx, dy) == brads
  {
    hide Slope;
  }

  lemma ThirdOctant(brads: u16, dx: int, dy: int)
    requires 16384 <= brads < 24576 && Sloped(brads, dx, dy)
    ensures FacingOf(dx, dy) == brads
  {
    hide Slope;
  }

  lemma FourthOctant(brads: u16, dx: int, dy: int)
    requires 24576 <= brads < 32768 && Sloped(brads, dx, dy)
    ensures FacingOf(dx, dy) == brads
  {
    hide Slope;
  }

  lemma SecondQuarter(brads: u16, dx: int, dy: int)
    requires 16384 <= brads < 32768 && Sloped(brads, dx, dy)
    ensures FacingOf(dx, dy) == brads
  {
    hide FacingOf, Sloped;
    if brads < 24576 {
      ThirdOctant(brads, dx, dy);
    } else {
      FourthOctant(brads, dx, dy);
    }
  }

  lemma ThirdQuarter(brads: u16, dx: int, dy: int)
    requires 32768 <= brads < 49152 && Sloped(brads, dx, dy)
    ensures FacingOf(dx, dy) == brads
  {
    hide Slope;
  }

  lemma LastQuarter(brads: u16, dx: int, dy: int)
    requires 49152 <= brads && Sloped(brads, dx, dy)
    ensures FacingOf(dx, dy) == brads
  {
    hide Slope;
  }

  /** On the map no heading overflows. */
  lemma HeadingFits(p: Vec2, brads: u16)
    requires 0 <= p.x <= 18432 * ONE && 0 <= p.y <= 18432 * ONE
    ensures Fits(p, HeadingOf(brads))
  {
  }

  // ---------- every offset ----------

  /** In the first octant the facing is the floored slope, in the brads of one octant. */
  lemma FacingInOctant(from: Vec2, to: Vec2)
    requires to.x > from.x && 0 <= to.y - from.y <= to.x - from.x
    ensures var dx, dy, r := to.x - from.x, to.y - from.y, FacingTowards(from, to);
            r * dx <= 8192 * dy < (r + 1) * dx && r <= 8192
  {
    SlopeFloors(to.y - from.y, to.x - from.x);
    hide Slope;
  }

  lemma SlopeFloors(short: nat, long: nat)
    requires short <= long && long > 0
    ensures Slope(short, long) * long <= 8192 * short < (Slope(short, long) + 1) * long && Slope(short, long) <= 8192
  {
    var r := Slope(short, long);
    assert 8192 * short == r * long + 8192 * short % long;
    assert (r + 1) * long == r * long + long;
    if r > 8192 {
      NatMono(long, 8193, r);
    }
  }

  /** Turning an offset over about either axis, or about the first diagonal, turns its facing over
      with it: the first octant decides them all. */
  lemma FacingMirrors(dx: int, dy: int)
    requires dx != 0 || dy != 0
    ensures FacingOf(-dx, dy) == Wrap(32768 - FacingOf(dx, dy))
    ensures FacingOf(dx, -dy) == Wrap(0 - FacingOf(dx, dy))
    ensures dx >= 0 && dy >= 0 ==> FacingOf(dy, dx) == Wrap(16384 - FacingOf(dx, dy))
  {
    OctantAcross(dx, dy);
    OctantDown(dx, dy);
    hide Octant, Wrap;
    WrapTurns(32768, Octant(dx, dy), Octant(-dx, dy));
    WrapTurns(0, Octant(dx, dy), Octant(dx, -dy));
    if dx >= 0 && dy >= 0 {
      OctantTurned(dx, dy);
      WrapTurns(16384, Octant(dx, dy), Octant(dy, dx));
    }
  }

  lemma WrapTurns(turn: int, a: int, b: int)
    requires a + b - turn in {0, 65536, 131072}
    ensures Wrap(b) == Wrap(turn - Wrap(a))
  {
  }

  /** The slope of an offset: flat on an axis, and steepest on a diagonal. */
  lemma SlopesKnown(dx: int, dy: int)
    requires dx != 0 || dy != 0
    ensures Abs(dx) >= Abs(dy) ==> Slope(Abs(dy), Abs(dx)) <= 8192 && (dy == 0 ==> Slope(Abs(dy), Abs(dx)) == 0)
    ensures Abs(dx) < Abs(dy) ==> Slope(Abs(dx), Abs(dy)) <= 8192 && (dx == 0 ==> Slope(Abs(dx), Abs(dy)) == 0)
    ensures Abs(dx) == Abs(dy) ==> Slope(Abs(dy), Abs(dx)) == Slope(Abs(dx), Abs(dy)) == 8192
  {
    SlopeFloors(Min(Abs(dx), Abs(dy)), Max(Abs(dx), Abs(dy)));
    SlopeFlat(Max(Abs(dx), Abs(dy)));
    SlopeSteep(Max(Abs(dx), Abs(dy)));
    hide Slope;
  }

  lemma OctantAcross(dx: int, dy: int)
    requires dx != 0 || dy != 0
    ensures Octant(dx, dy) + Octant(-dx, dy) - 32768 in {0, 65536}
  {
    SlopesKnown(dx, dy);
    hide Slope;
  }

  lemma OctantDown(dx: int, dy: int)
    requires dx != 0 || dy != 0
    ensures Octant(dx, dy) + Octant(dx, -dy) in {0, 65536}
  {
    SlopesKnown(dx, dy);
    hide Slope;
  }

  lemma OctantTurned(dx: int, dy: int)
    requires dx >= 0 && dy >= 0 && (dx != 0 || dy != 0)
    ensures Octant(dx, dy) + Octant(dy, dx) == 16384
  {
    SlopesKnown(dx, dy);
    hide Slope;
  }

  lemma SlopeFlat(long: nat)
    requires long > 0
    ensures Slope(0, long) == 0
  {
  }

  lemma SlopeSteep(long: nat)
    requires long > 0
    ensures Slope(long, long) == 8192
  {
  }

  /** The facing is exact on the axes and the diagonals, however long the offset. */
  lemma FacingExact(n: int)
    requires n > 0
    ensures FacingOf(n, 0) == 0 && FacingOf(0, n) == 16384 && FacingOf(-n, 0) == 32768 && FacingOf(0, -n) == 49152
    ensures FacingOf(n, n) == 8192 && FacingOf(-n, n) == 24576 && FacingOf(-n, -n) == 40960 && FacingOf(n, -n) == 57344
    ensures FacingOf(0, 0) == 0
  {
    SlopeFlat(n);
    SlopeSteep(n);
    hide Slope;
  }
}
