/** `segment_hits_box` of movement.rs, exact against the real segment and the real box. */
module BoxTest {
  import opened Machine

  /** How far along one axis the parameter `t` takes a run of length `d`. */
  ghost function Along(t: real, d: real): real { t * d }

  /** At some parameter of the closed unit interval a run `(dx, dy)` from the origin is within
      the closed bounds on both axes. */
  ghost predicate Meets(dx: real, dy: real, x0: real, x1: real, y0: real, y1: real) {
    exists t: real :: 0.0 <= t <= 1.0 && x0 <= Along(t, dx) <= x1 && y0 <= Along(t, dy) <= y1
  }

  /** Some point of the closed real segment lies in the closed box. */
  ghost predicate Touches(a: Vec2, b: Vec2, lo: Vec2, hi: Vec2) {
    Meets((b.x - a.x) as real, (b.y - a.y) as real,
          (lo.x - a.x) as real, (hi.x - a.x) as real, (lo.y - a.y) as real, (hi.y - a.y) as real)
  }

  /** The corners in the order the source walks them. */
  function Corner(lo: Vec2, hi: Vec2, k: nat): Vec2
    requires k < 4
  {
    if k == 0 then lo else if k == 1 then Vec2(hi.x, lo.y) else if k == 2 then hi else Vec2(lo.x, hi.y)
  }

  /** Which side of the line through the origin along `(dx, dy)` a point is on. */
  function Side(dx: int, dy: int, rx: int, ry: int): int { -dy * rx + dx * ry }

  function SideOf(a: Vec2, b: Vec2, c: Vec2): int { Side(b.x - a.x, b.y - a.y, c.x - a.x, c.y - a.y) }

  ghost predicate Straddles(a: Vec2, b: Vec2, lo: Vec2, hi: Vec2) {
    (exists k :: 0 <= k < 4 && SideOf(a, b, Corner(lo, hi, k)) <= 0) &&
    (exists k :: 0 <= k < 4 && SideOf(a, b, Corner(lo, hi, k)) >= 0)
  }

  predicate Overlaps(a: int, b: int, lo: int, hi: int) {
    !(Max(a, b) < lo) && !(Min(a, b) > hi)
  }

  method SegmentHitsBox(a: Vec2, b: Vec2, lo: Vec2, hi: Vec2) returns (hits: bool)
    ensures lo.x <= hi.x && lo.y <= hi.y ==> (hits <==> Touches(a, b, lo, hi))
  {
    if lo.x <= hi.x && lo.y <= hi.y {
      SeparatingAxes(a, b, lo, hi);
    }
    if Max(a.x, b.x) < lo.x || Min(a.x, b.x) > hi.x || Max(a.y, b.y) < lo.y || Min(a.y, b.y) > hi.y {
      return false;
    }
    var dx: i64, dy: i64 := b.x - a.x, b.y - a.y;
    if dx == 0 && dy == 0 {
      assert SideOf(a, b, Corner(lo, hi, 0)) == 0;
      return true;
    }
    var least: i128, most: i128 := I128_MAX, I128_MIN;
    ghost var low: nat, high: nat := 0, 0;
    for k := 0 to 4
      invariant low < 4 && high < 4
      invariant forall j :: 0 <= j < k ==> least <= SideOf(a, b, Corner(lo, hi, j)) <= most
      invariant k > 0 ==> least == SideOf(a, b, Corner(lo, hi, low)) && most == SideOf(a, b, Corner(lo, hi, high))
      invariant k == 0 ==> least == I128_MAX && most == I128_MIN
    {
      var c := Corner(lo, hi, k);
      SideFits(dx, dy, c.x - a.x, c.y - a.y);
      var side: i128 := Side(dx, dy, c.x - a.x, c.y - a.y);
      low, high := if k == 0 || side < least then k else low, if k == 0 || side > most then k else high;
      least := Min(least, side);
      most := Max(most, side);
    }
    hits := least <= 0 && most >= 0;
    assert hits <==> Straddles(a, b, lo, hi);
  }

  /** The run and the bounds of the box as seen from its start, with each axis turned so that
      the run grows on it: the near and the far bound of each. */
  datatype Frame = Frame(dx: int, dy: int, x0: int, x1: int, y0: int, y1: int)

  function Flip(flip: bool, v: int): int { if flip then -v else v }

  function Grown(a: Vec2, b: Vec2, lo: Vec2, hi: Vec2): Frame {
    var fx, fy := b.x < a.x, b.y < a.y;
    Frame(Flip(fx, b.x - a.x), Flip(fy, b.y - a.y),
          Flip(fx, (if fx then hi.x else lo.x) - a.x), Flip(fx, (if fx then lo.x else hi.x) - a.x),
          Flip(fy, (if fy then hi.y else lo.y) - a.y), Flip(fy, (if fy then lo.y else hi.y) - a.y))
  }

  ghost predicate FrameMeets(f: Frame) {
    Meets(f.dx as real, f.dy as real, f.x0 as real, f.x1 as real, f.y0 as real, f.y1 as real)
  }

  /** The box reaches both sides of the run's line. */
  predicate Reaches(f: Frame) { f.dx * f.y0 <= f.dy * f.x1 && f.dy * f.x0 <= f.dx * f.y1 }

  /** Three axes decide: the two of the box and the segment's normal. */
  lemma SeparatingAxes(a: Vec2, b: Vec2, lo: Vec2, hi: Vec2)
    requires lo.x <= hi.x && lo.y <= hi.y
    ensures Touches(a, b, lo, hi) <==>
            Overlaps(a.x, b.x, lo.x, hi.x) && Overlaps(a.y, b.y, lo.y, hi.y) && Straddles(a, b, lo, hi)
  {
    Reflected(a, b, lo, hi);
    Extremes(a, b, lo, hi);
    var f := Grown(a, b, lo, hi);
    assert Overlaps(a.x, b.x, lo.x, hi.x) <==> f.x0 <= f.dx && f.x1 >= 0;
    assert Overlaps(a.y, b.y, lo.y, hi.y) <==> f.y0 <= f.dy && f.y1 >= 0;
    GrowingFrame(f);
  }

  /** Turning an axis over changes no meeting. */
  lemma Reflected(a: Vec2, b: Vec2, lo: Vec2, hi: Vec2)
    ensures Touches(a, b, lo, hi) <==> FrameMeets(Grown(a, b, lo, hi))
  {
    var dx, dy := (b.x - a.x) as real, (b.y - a.y) as real;
    forall t: real
      ensures Along(t, -dx) == -Along(t, dx) && Along(t, -dy) == -Along(t, dy)
    {
      FlipAlong(t, dx);
      FlipAlong(t, dy);
    }
  }

  lemma FlipAlong(t: real, d: real)
    ensures Along(t, -d) == -Along(t, d)
  {
  }

  /** For a run that grows on both axes: the bounds are met on each, and the box reaches both
      sides of the run's line. */
  lemma GrowingFrame(f: Frame)
    requires f.dx >= 0 && f.dy >= 0 && f.x0 <= f.x1 && f.y0 <= f.y1
    ensures FrameMeets(f) <==> f.x0 <= f.dx && f.x1 >= 0 && f.y0 <= f.dy && f.y1 >= 0 && Reaches(f)
  {
    ReachesCast(f);
    hide Reaches, Meets;
    var dx, dy := f.dx as real, f.dy as real;
    if FrameMeets(f) {
      BoundsMet(dx, dy, f.x0 as real, f.x1 as real, f.y0 as real, f.y1 as real);
    } else if f.x0 <= f.dx && f.x1 >= 0 && f.y0 <= f.dy && f.y1 >= 0 && Reaches(f) {
      BoundsMeet(dx, dy, f.x0 as real, f.x1 as real, f.y0 as real, f.y1 as real);
    }
  }

  /** Reaching both sides, said of the reals. */
  lemma ReachesCast(f: Frame)
    ensures Reaches(f) <==>
            f.dx as real * f.y0 as real <= f.dy as real * f.x1 as real &&
            f.dy as real * f.x0 as real <= f.dx as real * f.y1 as real
  {
    CastProducts(f.dx, f.y0, f.dy, f.x1);
    CastProducts(f.dy, f.x0, f.dx, f.y1);
  }

  lemma CastProducts(p: int, q: int, r: int, s: int)
    ensures p * q <= r * s <==> p as real * q as real <= r as real * s as real
  {
    assert (p * q) as real == p as real * q as real;
    assert (r * s) as real == r as real * s as real;
  }

  /** A common parameter puts the near bound of one axis before the far bound of the other. */
  lemma Cross(d: real, e: real, near: real, far: real, t: real)
    requires d >= 0.0 && e >= 0.0 && near <= Along(t, e) && Along(t, d) <= far
    ensures d * near <= e * far
  {
    Scale(near, t * e, d);
    Scale(t * d, far, e);
    assert (t * e) * d == (t * d) * e;
  }

  lemma BoundsMet(dx: real, dy: real, x0: real, x1: real, y0: real, y1: real)
    requires dx >= 0.0 && dy >= 0.0 && Meets(dx, dy, x0, x1, y0, y1)
    ensures x0 <= dx && x1 >= 0.0 && y0 <= dy && y1 >= 0.0 && dx * y0 <= dy * x1 && dy * x0 <= dx * y1
  {
    var t: real :| 0.0 <= t <= 1.0 && x0 <= Along(t, dx) <= x1 && y0 <= Along(t, dy) <= y1;
    InRun(t, dx);
    InRun(t, dy);
    Cross(dx, dy, y0, x1, t);
    Cross(dy, dx, x0, y1, t);
  }

  lemma InRun(t: real, d: real)
    requires 0.0 <= t <= 1.0 && d >= 0.0
    ensures 0.0 <= Along(t, d) <= d
  {
    NonNegative(t, d);
    NonNegative(1.0 - t, d);
    assert (1.0 - t) * d == d - t * d;
  }

  lemma NonNegative(p: real, q: real)
    requires p >= 0.0 && q >= 0.0
    ensures p * q >= 0.0
  {
  }

  lemma BoundsMeet(dx: real, dy: real, x0: real, x1: real, y0: real, y1: real)
    requires dx >= 0.0 && dy >= 0.0 && x0 <= x1 && y0 <= y1
    requires x0 <= dx && x1 >= 0.0 && y0 <= dy && y1 >= 0.0 && dx * y0 <= dy * x1 && dy * x0 <= dx * y1
    ensures Meets(dx, dy, x0, x1, y0, y1)
  {
    var s := Entry(dx, x0, x1);
    var u := Entry(dy, y0, y1);
    Later(dx, dy, x1, y0, u);
    Later(dy, dx, y1, x0, s);
    Common(s, u, dx, x0, x1);
    Common(u, s, dy, y0, y1);
    var t := if s >= u then s else u;
    assert x0 <= Along(t, dx) <= x1 && y0 <= Along(t, dy) <= y1;
  }

  lemma Common(s: real, u: real, d: real, near: real, far: real)
    requires d >= 0.0 && near <= s * d <= far && u * d <= far
    ensures near <= Along(if s >= u then s else u, d) <= far
  {
    if s < u { Scale(s, u, d); }
  }

  /** The first parameter at which a growing run has reached its near bound. */
  lemma Entry(d: real, near: real, far: real) returns (t: real)
    requires d >= 0.0 && near <= far && near <= d && far >= 0.0
    ensures 0.0 <= t <= 1.0 && near <= t * d <= far
    ensures t > 0.0 ==> d > 0.0 && t * d == near
  {
    if near <= 0.0 {
      t := 0.0;
    } else {
      t := near / d;
      assert t * d == near;
      if t > 1.0 { Scale(1.0, t, d); assert (t - 1.0) * d > 0.0; }
    }
  }

  /** The second axis is entered before the first is left. */
  lemma Later(d: real, e: real, far: real, near: real, t: real)
    requires d >= 0.0 && e >= 0.0 && far >= 0.0 && d * near <= e * far
    requires t >= 0.0 && (t > 0.0 ==> e > 0.0 && t * e == near)
    ensures t * d <= far
  {
    if t > 0.0 {
      assert (t * d) * e == d * near;
      Cancel(t * d, far, e);
    }
  }

  lemma Cancel(p: real, q: real, d: real)
    requires d > 0.0 && p * d <= q * d
    ensures p <= q
  {
  }

  lemma Scale(s: real, t: real, d: real)
    requires s <= t && d >= 0.0
    ensures s * d <= t * d
  {
    assert (t - s) * d == t * d - s * d;
  }

  /** Of the four corners two opposite ones lie farthest to either side. */
  lemma Extremes(a: Vec2, b: Vec2, lo: Vec2, hi: Vec2)
    requires lo.x <= hi.x && lo.y <= hi.y
    ensures Straddles(a, b, lo, hi) <==> Reaches(Grown(a, b, lo, hi))
  {
    var fx, fy := b.x < a.x, b.y < a.y;
    var dx, dy := b.x - a.x, b.y - a.y;
    var f := Grown(a, b, lo, hi);
    var p0, p1 := dy * (lo.x - a.x), dy * (hi.x - a.x);
    var q0, q1 := dx * (lo.y - a.y), dx * (hi.y - a.y);
    assert Straddles(a, b, lo, hi) <==>
           (q0 <= p0 || q0 <= p1 || q1 <= p1 || q1 <= p0) && (q0 >= p0 || q0 >= p1 || q1 >= p1 || q1 >= p0)
    by {
      CornerSides(a, b, lo, hi);
    }
    assert f.dx * f.y0 == Flip(fx != fy, if fy then q1 else q0) &&
      f.dx * f.y1 == Flip(fx != fy, if fy then q0 else q1) by {
      FlipProduct(fx, fy, dx, lo.y - a.y);
      FlipProduct(fx, fy, dx, hi.y - a.y);
    }
    assert f.dy * f.x0 == Flip(fx != fy, if fx then p1 else p0) &&
      f.dy * f.x1 == Flip(fx != fy, if fx then p0 else p1) by {
      FlipProduct(fx, fy, dy, lo.x - a.x);
      FlipProduct(fx, fy, dy, hi.x - a.x);
    }
    assert if dy >= 0 then p0 <= p1 else p1 <= p0 by { Products(dy, lo.x - a.x, hi.x - a.x); }
    assert if dx >= 0 then q0 <= q1 else q1 <= q0 by { Products(dx, lo.y - a.y, hi.y - a.y); }
  }

  lemma CornerSides(a: Vec2, b: Vec2, lo: Vec2, hi: Vec2)
    ensures var dx, dy := b.x - a.x, b.y - a.y;
            var p0, p1 := dy * (lo.x - a.x), dy * (hi.x - a.x);
            var q0, q1 := dx * (lo.y - a.y), dx * (hi.y - a.y);
            Straddles(a, b, lo, hi) <==>
            (q0 <= p0 || q0 <= p1 || q1 <= p1 || q1 <= p0) && (q0 >= p0 || q0 >= p1 || q1 >= p1 || q1 >= p0)
  {
    var dx, dy := b.x - a.x, b.y - a.y;
    var p0, p1 := dy * (lo.x - a.x), dy * (hi.x - a.x);
    var q0, q1 := dx * (lo.y - a.y), dx * (hi.y - a.y);
    assert SideOf(a, b, Corner(lo, hi, 0)) == q0 - p0 && SideOf(a, b, Corner(lo, hi, 1)) == q0 - p1;
    assert SideOf(a, b, Corner(lo, hi, 2)) == q1 - p1 && SideOf(a, b, Corner(lo, hi, 3)) == q1 - p0;
    StraddlesByCorners(a, b, lo, hi, p0, p1, q0, q1);
  }

  lemma StraddlesByCorners(a: Vec2, b: Vec2, lo: Vec2, hi: Vec2, p0: int, p1: int, q0: int, q1: int)
    requires SideOf(a, b, Corner(lo, hi, 0)) == q0 - p0 && SideOf(a, b, Corner(lo, hi, 1)) == q0 - p1
    requires SideOf(a, b, Corner(lo, hi, 2)) == q1 - p1 && SideOf(a, b, Corner(lo, hi, 3)) == q1 - p0
    ensures Straddles(a, b, lo, hi) <==>
            (q0 <= p0 || q0 <= p1 || q1 <= p1 || q1 <= p0) && (q0 >= p0 || q0 >= p1 || q1 >= p1 || q1 >= p0)
  {
    hide SideOf, Corner;
  }

  lemma Products(d: int, r: int, s: int)
    requires r <= s
    ensures if d >= 0 then d * r <= d * s else d * s <= d * r
  {
    assert d * s - d * r == d * (s - r);
  }

  lemma FlipProduct(f: bool, g: bool, p: int, q: int)
    ensures Flip(f, p) * Flip(g, q) == Flip(f != g, p * q)
    ensures Flip(g, p) * Flip(f, q) == Flip(f != g, p * q)
  {
    assert -p * q == -(p * q) && p * -q == -(p * q) && -p * -q == p * q;
  }

  lemma SideFits(dx: int, dy: int, rx: int, ry: int)
    requires Abs(dx) < 0x1_0000_0000 && Abs(dy) < 0x1_0000_0000
    requires Abs(rx) < 0x1_0000_0000 && Abs(ry) < 0x1_0000_0000
    ensures -0x2_0000_0000_0000_0000 <= Side(dx, dy, rx, ry) <= 0x2_0000_0000_0000_0000
  {
    ProductFits(dy, rx);
    ProductFits(dx, ry);
  }

  lemma ProductFits(p: int, q: int)
    requires Abs(p) < 0x1_0000_0000 && Abs(q) < 0x1_0000_0000
    ensures -0x1_0000_0000_0000_0000 <= p * q <= 0x1_0000_0000_0000_0000
  {
    FlipProduct(p < 0, q < 0, p, q);
    var m := 0x1_0000_0000;
    Products(Abs(p), Abs(q), m);
    Products(m, Abs(p), m);
  }
}
