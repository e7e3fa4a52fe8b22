/** Stepping over the map with a floored root and truncated division, as movement.rs does it. */
module Stepping {
  import opened Machine
  import opened Arithmetic

  /** `Fixed::from_int(rules::MAP_SIZE)` */
  const MAP_RAW: int := 18432 * ONE

  predicate OnMap(p: Vec2) { 0 <= p.x <= MAP_RAW && 0 <= p.y <= MAP_RAW }

  ghost predicate IsRoot(n: nat, r: nat) { r * r <= n < (r + 1) * (r + 1) }

  /** The integer root, rounded down. */
  ghost function Isqrt(n: nat): (root: nat)
    ensures IsRoot(n, root)
  {
    RootExists(n);
    var root: nat :| IsRoot(n, root);
    root
  }

  lemma {:induction false} RootExists(n: nat)
    ensures exists root: nat :: IsRoot(n, root)
  {
    if n == 0 {
      assert IsRoot(0, 0);
    } else {
      RootExists(n - 1);
      var r: nat :| IsRoot(n - 1, r);
      if (r + 1) * (r + 1) <= n {
        assert (r + 2) * (r + 2) == (r + 1) * (r + 1) + 2 * r + 3;
        assert IsRoot(n, r + 1);
      } else {
        assert IsRoot(n, r);
      }
    }
  }

  lemma RootUnique(n: nat, r: nat)
    requires IsRoot(n, r)
    ensures r == Isqrt(n)
  {
    RootLess(r, Isqrt(n) + 1);
    RootLess(Isqrt(n), r + 1);
  }

  /** The two correcting loops settle the root whatever the floating-point seed was, as long
      as its own square fits. */
  method Isqrt64(n: i64, seed: u64) returns (root: i64)
    requires seed < 0xffff_ffff
    ensures n > 0 ==> root == Isqrt(n)
    ensures n <= 0 ==> root == 0
  {
    if n <= 0 {
      return 0;
    }
    var r: u64 := seed;
    while r * r > n
      invariant r <= seed
    {
      SquareFits(r);
      r := r - 1;
    }
    while (r + 1) * (r + 1) <= n
      invariant r * r <= n && r < 0xffff_ffff
      decreases n - r * r
    {
      RootLess(r + 1, 0xffff_ffff);
      SquareFits(r);
      assert (r + 1) * (r + 1) == r * r + 2 * r + 1;
      r := r + 1;
    }
    RootUnique(n, r);
    root := r;
  }

  /** The squares the loops compare fit an unsigned 64-bit word. */
  lemma SquareFits(r: nat)
    requires r < 0xffff_ffff
    ensures 0 <= r * r < 0x1_0000_0000_0000_0000 && 0 <= (r + 1) * (r + 1) < 0x1_0000_0000_0000_0000
  {
    SquareMono(r, 0xffff_ffff);
    SquareMono(r + 1, 0xffff_ffff);
  }

  function DistanceSquared(p: Vec2, q: Vec2): nat {
    SquareNonNegative(q.x - p.x);
    SquareNonNegative(q.y - p.y);
    (q.x - p.x) * (q.x - p.x) + (q.y - p.y) * (q.y - p.y)
  }

  lemma SquareNonNegative(d: int)
    ensures d * d == Abs(d) * Abs(d) >= 0
  {
    if d < 0 { assert d * d == -d * -d; }
  }

  /** `i32::saturating_add` */
  function SatAddI32(a: i32, b: int): i32 { Clamp(a + b, I32_MIN, I32_MAX) }

  function OffsetAlong(from: Vec2, dx: int, dy: int, span: int, distance: i32): Vec2
    requires span > 0
  {
    Vec2(SatAddI32(from.x, TruncDiv(dx * distance, span)), SatAddI32(from.y, TruncDiv(dy * distance, span)))
  }

  /** One step towards `target`. On the map every intermediate fits (`IntermediatesFit`). */
  ghost function MoveTowards(pos: Vec2, target: Vec2, step: i32): Vec2
    requires OnMap(pos) && OnMap(target) && step >= 0
  {
    var span := Isqrt(DistanceSquared(pos, target));
    if span <= step then target else OffsetAlong(pos, target.x - pos.x, target.y - pos.y, span, step)
  }

  lemma IntermediatesFit(pos: Vec2, target: Vec2, step: i32)
    requires OnMap(pos) && OnMap(target) && step >= 0
    ensures DistanceSquared(pos, target) <= I64_MAX
    ensures Abs((target.x - pos.x) * step) <= I64_MAX && Abs((target.y - pos.y) * step) <= I64_MAX
  {
    var dx, dy := target.x - pos.x, target.y - pos.y;
    SquareNonNegative(dx); SquareNonNegative(dy);
    SquareMono(Abs(dx), MAP_RAW); SquareMono(Abs(dy), MAP_RAW);
    Product(dx, step); Product(dy, step);
  }

  lemma Product(d: int, step: nat)
    requires Abs(d) <= MAP_RAW && step < 0x8000_0000
    ensures Abs(d * step) == Abs(d) * step <= I64_MAX
  {
    if d < 0 { assert d * step == -(-d * step); }
    assert Abs(d) * step <= MAP_RAW * step by { assert (MAP_RAW - Abs(d)) * step >= 0; }
  }

  /** The share of one axis: `d` of a run no longer than `span`, cut to `step`. */
  lemma AxisShare(d: int, span: nat, step: nat)
    requires step < span && Abs(d) <= span
    ensures var s := TruncDiv(d * step, span);
            (d >= 0 ==> 0 <= s <= d) && (d <= 0 ==> d <= s <= 0) && Abs(s) == Abs(d) * step / span <= step
  {
    var q := Abs(d) * step / span;
    assert d < 0 ==> -(d * step) == Abs(d) * step;
    assert d >= 0 ==> d * step >= 0;
    assert Abs(d) * step >= 0;
    DivBound(Abs(d), step, span);
    DivBound(step, Abs(d), span);
    assert Abs(d) * step == step * Abs(d);
    if d < 0 && d * step == 0 { assert q == 0; }
  }

  /** `p q / r` is at most `p` when `q <= r`. */
  lemma DivBound(p: nat, q: nat, r: nat)
    requires r > 0 && q <= r
    ensures 0 <= p * q / r <= p
  {
    NatMono(p, q, r);
    Floored(p * q, r);
    AtMost(r, p * q / r, p);
  }

  /** A step on the map stays between where it starts and where it goes, and covers no more
      than `step` as the same floored root measures it. */
  lemma StepIsBounded(pos: Vec2, target: Vec2, step: i32)
    requires OnMap(pos) && OnMap(target) && step >= 0
    ensures var next := MoveTowards(pos, target, step);
            Min(pos.x, target.x) <= next.x <= Max(pos.x, target.x) &&
            Min(pos.y, target.y) <= next.y <= Max(pos.y, target.y) &&
            OnMap(next) && Isqrt(DistanceSquared(pos, next)) <= step
  {
    var dx, dy := target.x - pos.x, target.y - pos.y;
    var span := Isqrt(DistanceSquared(pos, target));
    if span > step {
      Shares(dx, dy, span, step);
      var next := MoveTowards(pos, target, step);
      assert next.x - pos.x == TruncDiv(dx * step, span) && next.y - pos.y == TruncDiv(dy * step, span);
      Covered(pos, next, step);
    } else {
      Covered(pos, target, step);
    }
  }

  lemma Covered(pos: Vec2, next: Vec2, step: nat)
    requires DistanceSquared(pos, next) < (step + 1) * (step + 1)
    ensures Isqrt(DistanceSquared(pos, next)) <= step
  {
    RootLess(Isqrt(DistanceSquared(pos, next)), step + 1);
  }

  /** Both axes of a cut run: between nothing and the whole, and together within `step`. */
  lemma Shares(dx: int, dy: int, span: nat, step: nat)
    requires step < span && dx * dx + dy * dy >= 0 && IsRoot(dx * dx + dy * dy, span)
    ensures var sx, sy := TruncDiv(dx * step, span), TruncDiv(dy * step, span);
            (if dx >= 0 then 0 <= sx <= dx else dx <= sx <= 0) && (if dy >= 0 then 0 <= sy <= dy else dy <= sy <= 0) &&
            sx * sx + sy * sy < (step + 1) * (step + 1)
  {
    SpanCovers(dx, dy, span);
    AxisShare(dx, span, step);
    AxisShare(dy, span, step);
    SquareNonNegative(dx); SquareNonNegative(dy);
    var sx, sy := TruncDiv(dx * step, span), TruncDiv(dy * step, span);
    CoverBound(Abs(dx), Abs(dy), span, step, Abs(sx), Abs(sy));
    SquareNonNegative(sx); SquareNonNegative(sy);
  }

  /** Neither axis of a run is longer than its floored root. */
  lemma SpanCovers(dx: int, dy: int, span: nat)
    requires dx * dx + dy * dy < (span + 1) * (span + 1)
    ensures Abs(dx) <= span && Abs(dy) <= span
  {
    SquareNonNegative(dx); SquareNonNegative(dy);
    RootLess(Abs(dx), span + 1);
    RootLess(Abs(dy), span + 1);
  }

  /** With `s = floor(d step / span)` on both axes: `span^2 |s|^2 <= step^2 |d|^2 < span^2 (step + 1)^2`. */
  lemma CoverBound(p: nat, q: nat, span: nat, step: nat, s: nat, t: nat)
    requires step < span && p * p + q * q < (span + 1) * (span + 1)
    requires s == p * step / span && t == q * step / span
    ensures s * s + t * t < (step + 1) * (step + 1)
  {
    Scaled(p, step, span, s);
    Scaled(q, step, span, t);
    var kept := (span * span) * (s * s + t * t);
    var run := (step * step) * (p * p + q * q);
    var limit := (span * span) * ((step + 1) * (step + 1));
    assert kept == (span * span) * (s * s) + (span * span) * (t * t);
    assert run == (step * step) * (p * p) + (step * step) * (q * q);
    NatMono(step * step, p * p + q * q, (span + 1) * (span + 1));
    Widened(step, span);
    NatCancel(span * span, s * s + t * t, (step + 1) * (step + 1));
  }

  lemma Widened(step: nat, span: nat)
    requires step < span
    ensures (step * step) * ((span + 1) * (span + 1)) < (span * span) * ((step + 1) * (step + 1))
  {
    SquareOfProduct(step, span + 1);
    SquareOfProduct(span, step + 1);
    assert step * (span + 1) == step * span + step;
    assert span * (step + 1) == step * span + span;
    SquareStrict(step * (span + 1), span * (step + 1));
  }

  lemma Scaled(p: nat, step: nat, span: nat, s: nat)
    requires span > 0 && s == p * step / span
    ensures (span * span) * (s * s) <= (step * step) * (p * p)
  {
    assert s * span <= p * step;
    SquareOfProduct(span, s);
    SquareOfProduct(step, p);
    assert span * s == s * span && step * p == p * step;
    SquareMono(s * span, p * step);
  }

  /** How far one axis goes of its share: the exact one, rounded towards standing still. */
  predicate SharesExactly(d: int, moved: int, span: nat, step: nat) {
    Abs(d) * step - span < Abs(moved) * span <= Abs(d) * step && (d >= 0 ==> moved >= 0) && (d <= 0 ==> moved <= 0)
  }

  /** A target no further than the step is reached, and towards any other each axis covers its share
      of exactly the step. */
  lemma StepIsExact(pos: Vec2, target: Vec2, step: i32)
    requires OnMap(pos) && OnMap(target) && step >= 0
    ensures var next, span := MoveTowards(pos, target, step), Isqrt(DistanceSquared(pos, target));
            (span <= step ==> next == target) &&
            (span > step ==>
               SharesExactly(target.x - pos.x, next.x - pos.x, span, step) &&
               SharesExactly(target.y - pos.y, next.y - pos.y, span, step))
  {
    var dx, dy := target.x - pos.x, target.y - pos.y;
    var span := Isqrt(DistanceSquared(pos, target));
    if span > step {
      SpanCovers(dx, dy, span);
      AxisExact(dx, span, step);
      AxisExact(dy, span, step);
      var next := MoveTowards(pos, target, step);
      assert next.x - pos.x == TruncDiv(dx * step, span) && next.y - pos.y == TruncDiv(dy * step, span);
      hide SharesExactly;
    }
  }

  lemma AxisExact(d: int, span: nat, step: nat)
    requires step < span && Abs(d) <= span
    ensures SharesExactly(d, TruncDiv(d * step, span), span, step)
    ensures d >= 0 ==> 0 <= TruncDiv(d * step, span) <= d
    ensures d <= 0 ==> d <= TruncDiv(d * step, span) <= 0
  {
    AxisShare(d, span, step);
    Remainder(Abs(d) * step, span);
  }

  lemma Remainder(n: nat, d: nat)
    requires d > 0
    ensures n - d < n / d * d <= n
  {
  }

  /** What is left to go, both axes together. */
  function Left(pos: Vec2, target: Vec2): nat { Abs(target.x - pos.x) + Abs(target.y - pos.y) }

  /** From two raw units a tick on, the longer axis always moves. */
  lemma StepProgresses(pos: Vec2, target: Vec2, step: i32)
    requires OnMap(pos) && OnMap(target) && step >= 2 && pos != target
    ensures Left(MoveTowards(pos, target, step), target) < Left(pos, target)
  {
    var dx, dy := target.x - pos.x, target.y - pos.y;
    var span := Isqrt(DistanceSquared(pos, target));
    if span > step {
      SpanCovers(dx, dy, span);
      AxisShare(dx, span, step);
      AxisShare(dy, span, step);
      SquareNonNegative(dx); SquareNonNegative(dy);
      LongerAxisMoves(Abs(dx), Abs(dy), span, step);
    }
  }

  lemma LongerAxisMoves(p: nat, q: nat, span: nat, step: nat)
    requires 2 <= step < span && span * span <= p * p + q * q
    ensures p * step / span >= 1 || q * step / span >= 1
  {
    var m := Max(p, q);
    SquareMono(Min(p, q), m);
    assert span * span <= (2 * m) * (2 * m);
    if 2 * m < span { SquareStrict(2 * m, span); }
    NatMono(m, 2, step);
    Quotient(m * step, span);
  }

  lemma Quotient(n: nat, d: nat)
    requires 0 < d <= n
    ensures n / d >= 1
  {
  }

  /** Where `ticks` steps lead. */
  ghost function Walk(pos: Vec2, target: Vec2, step: i32, ticks: nat): (end: Vec2)
    requires OnMap(pos) && OnMap(target) && step >= 0
    ensures OnMap(end)
    decreases ticks
  {
    if ticks == 0 then pos
    else
      StepIsBounded(pos, target, step);
      Walk(MoveTowards(pos, target, step), target, step, ticks - 1)
  }

  ghost predicate Arrives(step: i32)
    requires step >= 0
  {
    forall pos, target :: OnMap(pos) && OnMap(target) ==> exists ticks: nat :: Walk(pos, target, step, ticks) == target
  }

  lemma {:induction false} Arrival(pos: Vec2, target: Vec2, step: i32) returns (ticks: nat)
    requires OnMap(pos) && OnMap(target) && step >= 2
    ensures ticks <= Left(pos, target) && Walk(pos, target, step, ticks) == target
    decreases Left(pos, target)
  {
    if pos == target {
      ticks := 0;
    } else {
      StepIsBounded(pos, target, step);
      StepProgresses(pos, target, step);
      ticks := Arrival(MoveTowards(pos, target, step), target, step);
      ticks := ticks + 1;
    }
  }

  // ---------- how long it takes ----------

  /** Of one axis, what is left is its share of the run that is left, and less than one unit more. */
  lemma AxisLeft(p: nat, span: nat, step: nat, s: nat)
    requires step < span && p * step - span < s * span <= p * step && s <= p
    ensures (p - s) * span <= p * (span - step) + span
  {
    assert (p - s) * span == p * span - s * span;
    assert p * (span - step) == p * span - p * step;
  }

  /** Two axes are together at most half as long again as their run. */
  lemma AxesWithin(p: nat, q: nat, span: nat)
    requires p * p + q * q < (span + 1) * (span + 1)
    ensures 2 * (p + q) < 3 * (span + 1)
  {
    var sum, reach := p + q, span + 1;
    assert sum * sum == p * p + q * q + 2 * (p * q);
    assert 2 * (p * q) <= p * p + q * q by {
      SquareNonNegative(p - q);
      assert (p - q) * (p - q) == p * p + q * q - 2 * (p * q);
    }
    assert (2 * sum) * (2 * sum) == 4 * (sum * sum) && (3 * reach) * (3 * reach) == 9 * (reach * reach);
    RootLess(2 * sum, 3 * reach);
  }

  /** `(pk + n)^2 + (qk + n)^2`, spelled out. */
  lemma SquaresSpelled(p: nat, q: nat, k: nat, n: nat)
    ensures (p * k + n) * (p * k + n) + (q * k + n) * (q * k + n) ==
            (k * k) * (p * p + q * q) + (k * n) * (2 * (p + q)) + 2 * (n * n)
  {
    SquareSpelled(p, k, n);
    SquareSpelled(q, k, n);
    SumSpelled(k * k, k * n, n * n, p * p, q * q, 2 * p, 2 * q);
  }

  lemma SumSpelled(kk: nat, kn: nat, nn: nat, pp: nat, qq: nat, p: nat, q: nat)
    ensures (kk * pp + p * kn + nn) + (kk * qq + q * kn + nn) == kk * (pp + qq) + kn * (p + q) + 2 * nn
  {
  }

  lemma SquareSpelled(p: nat, k: nat, n: nat)
    ensures (p * k + n) * (p * k + n) == (k * k) * (p * p) + (2 * p) * (k * n) + n * n
  {
    SquareOfProduct(p, k);
    var m := p * k;
    assert (m + n) * (m + n) == m * m + 2 * (m * n) + n * n;
    assert m * n == p * (k * n);
    assert (p * p) * (k * k) == (k * k) * (p * p);
  }

  /** `k^2 (n + 1)^2 + 3 (n + 1) k n + 2 n^2 < (k + 3)^2 n^2` below `n`. */
  lemma RoomEnough(k: nat, n: nat)
    requires 0 < k < n
    ensures (k * k) * ((n + 1) * (n + 1)) + (k * n) * (3 * (n + 1)) + 2 * (n * n) < ((k + 3) * (k + 3)) * (n * n)
  {
    Grown(k * k, n);
    Regroup(k, k, n);
    Regroup(k, n, n);
    Distributed(k * n, n);
    ThreeMore(k, n * n);
    NatMono(k, k, n);
    NatMono(n, k, n);
    NatMono(k, k * n, n * n);
    SquareStrict(0, n);
    Flipped(k, n);
    RoomLeft((k * k) * (n * n), k * (k * n), k * k, k * (n * n), k * n, n * n);
  }

  lemma Flipped(p: nat, q: nat)
    ensures p * q == q * p
  {
  }

  lemma Regroup(p: nat, q: nat, r: nat)
    ensures (p * q) * r == p * (q * r)
  {
  }

  lemma Grown(p: nat, n: nat)
    ensures p * ((n + 1) * (n + 1)) == p * (n * n) + 2 * (p * n) + p
  {
    assert (n + 1) * (n + 1) == n * n + 2 * n + 1;
  }

  lemma Distributed(p: nat, n: nat)
    ensures p * (3 * (n + 1)) == 3 * (p * n) + 3 * p
  {
  }

  lemma ThreeMore(k: nat, nn: nat)
    ensures ((k + 3) * (k + 3)) * nn == (k * k) * nn + 6 * (k * nn) + 9 * nn
  {
    assert (k + 3) * (k + 3) == k * k + 6 * k + 9;
  }

  lemma RoomLeft(kknn: nat, kkn: nat, kk: nat, knn: nat, kn: nat, nn: nat)
    requires kkn <= knn && kk <= kn <= nn && nn > 0
    ensures (kknn + 2 * kkn + kk) + (3 * knn + 3 * kn) + 2 * nn < kknn + 6 * knn + 9 * nn
  {
  }

  /** A step that does not arrive shortens the floored root by the step, but for two units. */
  lemma SpanShrinks(pos: Vec2, target: Vec2, step: i32)
    requires OnMap(pos) && OnMap(target) && step >= 1 && Isqrt(DistanceSquared(pos, target)) > step
    ensures Isqrt(DistanceSquared(MoveTowards(pos, target, step), target)) <=
            Isqrt(DistanceSquared(pos, target)) - step + 2
  {
    var dx, dy := target.x - pos.x, target.y - pos.y;
    var span, next := Isqrt(DistanceSquared(pos, target)), MoveTowards(pos, target, step);
    var sx, sy, k := next.x - pos.x, next.y - pos.y, span - step;
    StepIsExact(pos, target, step);
    StepIsBounded(pos, target, step);
    SquareNonNegative(dx); SquareNonNegative(dy);
    AxisLeft(Abs(dx), span, step, Abs(sx));
    AxisLeft(Abs(dy), span, step, Abs(sy));
    LeftSquares(Abs(dx), Abs(dy), span, k, Abs(dx) - Abs(sx), Abs(dy) - Abs(sy));
    SquareNonNegative(target.x - next.x); SquareNonNegative(target.y - next.y);
    assert Abs(target.x - next.x) == Abs(dx) - Abs(sx) && Abs(target.y - next.y) == Abs(dy) - Abs(sy);
    Covered(next, target, k + 2);
  }

  lemma SquaresBounded(p: nat, q: nat, n: nat, k: nat)
    requires 0 < k < n && p * p + q * q < (n + 1) * (n + 1)
    ensures (p * k + n) * (p * k + n) + (q * k + n) * (q * k + n) < ((k + 3) * (k + 3)) * (n * n)
  {
    AxesWithin(p, q, n);
    SquaresSpelled(p, q, k, n);
    RoomEnough(k, n);
    NatMono(k * k, p * p + q * q, (n + 1) * (n + 1));
    NatMono(k * n, 2 * (p + q), 3 * (n + 1));
  }

  /** A square scaled by `n^2` is at most that of what its root scaled by `n` is at most. */
  lemma ScaledSquare(u: nat, n: nat, most: nat)
    requires u * n <= most
    ensures (n * n) * (u * u) <= most * most
  {
    SquareMono(u * n, most);
    SquareOfProduct(u, n);
  }

  lemma LeftSquares(p: nat, q: nat, span: nat, k: nat, u: nat, v: nat)
    requires 0 < k < span && p * p + q * q < (span + 1) * (span + 1)
    requires u * span <= p * k + span && v * span <= q * k + span
    ensures u * u + v * v < (k + 3) * (k + 3)
  {
    SquaresBounded(p, q, span, k);
    ScaledSquare(u, span, p * k + span);
    ScaledSquare(v, span, q * k + span);
    CancelSum(span * span, u * u, v * v, (k + 3) * (k + 3));
  }

  lemma CancelSum(n: nat, a: nat, b: nat, c: nat)
    requires n * a + n * b < c * n
    ensures a + b < c
  {
    assert n * (a + b) == n * a + n * b && c * n == n * c;
    NatCancel(n, a + b, c);
  }

  /** From three raw units a tick on, the ticks it takes are no more than the floored root of the way
      divided by the step but for two units, and one. */
  lemma {:induction false} ArrivalTicks(pos: Vec2, target: Vec2, step: i32) returns (ticks: nat)
    requires OnMap(pos) && OnMap(target) && step >= 3
    ensures Walk(pos, target, step, ticks) == target
    ensures ticks > 0 && (ticks - 1) * (step - 2) <= Isqrt(DistanceSquared(pos, target))
    decreases Isqrt(DistanceSquared(pos, target))
  {
    var next := MoveTowards(pos, target, step);
    StepIsBounded(pos, target, step);
    if Isqrt(DistanceSquared(pos, target)) <= step {
      ticks := 1;
      assert Walk(next, target, step, 0) == next;
    } else {
      SpanShrinks(pos, target, step);
      ticks := ArrivalTicks(next, target, step);
      assert ticks * (step - 2) == (ticks - 1) * (step - 2) + (step - 2);
      ticks := ticks + 1;
    }
  }

  lemma {:induction false} Stuck(pos: Vec2, target: Vec2, step: i32, ticks: nat)
    requires OnMap(pos) && OnMap(target) && step >= 0
    requires MoveTowards(pos, target, step) == pos
    ensures Walk(pos, target, step, ticks) == pos
  {
    if ticks > 0 {
      Stuck(pos, target, step, ticks - 1);
    }
  }

  /** A step of one raw unit is lost to the truncation on a diagonal of three. */
  lemma LostStep(step: i32)
    requires 0 <= step < 2
    ensures MoveTowards(Vec2(0, 0), Vec2(3, 3), step) == Vec2(0, 0)
  {
    assert DistanceSquared(Vec2(0, 0), Vec2(3, 3)) == 18;
    RootUnique(18, 4);
    assert TruncDiv(3 * step, 4) == 0;
  }

  /** Two raw units a tick is exactly what it takes to arrive from everywhere. */
  lemma ArrivesFromTwo(step: i32)
    requires step >= 0
    ensures Arrives(step) <==> step >= 2
  {
    if step >= 2 {
      forall pos, target | OnMap(pos) && OnMap(target)
        ensures exists ticks: nat :: Walk(pos, target, step, ticks) == target
      {
        var ticks := Arrival(pos, target, step);
      }
    } else {
      forall ticks: nat
        ensures Walk(Vec2(0, 0), Vec2(3, 3), step, ticks) != Vec2(3, 3)
      {
        LostStep(step);
        Stuck(Vec2(0, 0), Vec2(3, 3), step, ticks);
      }
      assert OnMap(Vec2(0, 0)) && OnMap(Vec2(3, 3));
    }
  }
}
