/** Chances that stack: `Odds::or` of chance.rs, folded over any number of sources as
    `carried_bonus` of item.rs folds evasion, against the exact product. */
module Odds {
  import opened Machine
  import opened Arithmetic

  const WHOLE: nat := 100_000_000

  type Odds = p: nat | p <= WHOLE

  /** A product of two shares of a whole, to the nearest part. */
  function Rounded(p: nat, q: nat): nat { (p * q + WHOLE / 2) / WHOLE }

  lemma RoundedBound(p: nat, q: nat)
    requires q <= WHOLE
    ensures Rounded(p, q) <= p
  {
    NatMono(p, q, WHOLE);
  }

  /** The chance that this or another hits: what both leave, taken from the whole. */
  function Or(a: Odds, b: Odds): Odds {
    RoundedBound(WHOLE - a, WHOLE - b);
    WHOLE - Rounded(WHOLE - a, WHOLE - b)
  }

  /** Every source folded into nothing, in order. */
  function OrAll(sources: seq<Odds>): Odds {
    if sources == [] then 0 else Or(OrAll(sources[..|sources| - 1]), sources[|sources| - 1])
  }

  /** The product stays in range on the way, and the loop folds in order. */
  method FoldOdds(sources: seq<Odds>) returns (total: Odds)
    ensures total == OrAll(sources)
  {
    total := 0;
    for i := 0 to |sources|
      invariant total == OrAll(sources[..i])
    {
      assert sources[..i + 1][..i] == sources[..i];
      var left: u64 := Left(total, sources[i]);
      total := Or(total, sources[i]);
    }
    assert sources[..|sources|] == sources;
  }

  function Left(a: Odds, b: Odds): (left: nat)
    ensures left + WHOLE / 2 < 0x1_0000_0000_0000_0000 && Or(a, b) == WHOLE - (left + WHOLE / 2) / WHOLE
  {
    NatMono(WHOLE - a, WHOLE - b, WHOLE);
    (WHOLE - a) * (WHOLE - b)
  }

  ghost function Of(p: real, share: nat): real { p * (share as real / WHOLE as real) }

  /** What all the sources together leave, exactly. */
  ghost function Leaves(sources: seq<Odds>): real {
    if sources == [] then WHOLE as real
    else Of(Leaves(sources[..|sources| - 1]), WHOLE - sources[|sources| - 1])
  }

  lemma RoundedNear(p: nat, q: nat)
    ensures Rounded(p, q) as real - 0.5 <= Of(p as real, q) <= Rounded(p, q) as real + 0.5
  {
    Floored(p * q + WHOLE / 2, WHOLE);
    assert Of(p as real, q) * WHOLE as real == (p * q) as real by {
      assert (q as real / WHOLE as real) * WHOLE as real == q as real;
      assert (p * q) as real == p as real * q as real;
    }
  }

  /** Taking a share shrinks an error. */
  lemma Shrinks(p: real, exact: real, share: nat, error: real)
    requires share <= WHOLE && 0.0 <= error && p - error <= exact <= p + error
    ensures Of(p, share) - error <= Of(exact, share) <= Of(p, share) + error
  {
    var f := share as real / WHOLE as real;
    assert 0.0 <= f <= 1.0;
    Scaled(exact - p, error, f);
    Scaled(p - exact, error, f);
    assert (exact - p) * f == exact * f - p * f && (p - exact) * f == p * f - exact * f;
  }

  lemma Scaled(d: real, error: real, f: real)
    requires d <= error && 0.0 <= error && 0.0 <= f <= 1.0
    ensures d * f <= error
  {
    assert (error - d) * f >= 0.0 && error * (1.0 - f) >= 0.0;
  }

  /** The error of `n` sources: half a part for each after the first. */
  ghost function Error(n: nat): real { if n == 0 then 0.0 else (n - 1) as real / 2.0 }

  /** Stacking any number of sources stays within half a part a source, the first free, of the
      exact product. */
  lemma {:induction false} OrAllNear(sources: seq<Odds>)
    ensures Leaves(sources) - Error(|sources|) <= (WHOLE - OrAll(sources)) as real <= Leaves(sources) + Error(|sources|)
  {
    if |sources| == 1 {
      assert sources[..0] == [];
      First(sources[0]);
    } else if |sources| > 1 {
      var rest, last := sources[..|sources| - 1], sources[|sources| - 1];
      OrAllNear(rest);
      Shrinks((WHOLE - OrAll(rest)) as real, Leaves(rest), WHOLE - last, Error(|rest|));
      RoundedNear(WHOLE - OrAll(rest), WHOLE - last);
    }
  }

  lemma First(a: Odds)
    ensures Or(0, a) == a && Of(WHOLE as real, WHOLE - a) == (WHOLE - a) as real
  {
  }

  lemma Commutes(p: real, s: nat, t: nat)
    ensures Of(Of(p, s), t) == Of(Of(p, t), s)
  {
    var f, g := s as real / WHOLE as real, t as real / WHOLE as real;
    assert (p * f) * g == (p * g) * f;
  }

  /** The source at any place may as well have come last. */
  lemma {:induction false} Pulled(sources: seq<Odds>, i: nat)
    requires i < |sources|
    ensures Leaves(sources) == Of(Leaves(sources[..i] + sources[i + 1..]), WHOLE - sources[i])
  {
    var n := |sources| - 1;
    var without := sources[..i] + sources[i + 1..];
    if i == n {
      assert without == sources[..n];
    } else {
      var rest := sources[..n];
      Pulled(rest, i);
      assert rest[..i] + rest[i + 1..] == without[..n - 1];
      assert without[n - 1] == sources[n];
      Commutes(Leaves(without[..n - 1]), WHOLE - sources[i], WHOLE - sources[n]);
    }
  }

  lemma {:induction false} LeavesOfPermutation(a: seq<Odds>, b: seq<Odds>)
    requires multiset(a) == multiset(b)
    ensures Leaves(a) == Leaves(b) && |a| == |b|
    decreases |a|
  {
    assert |a| == |multiset(a)| == |multiset(b)| == |b|;
    if a != [] {
      var n := |a| - 1;
      Without(a, n);
      assert a[..n] + a[n + 1..] == a[..n];
      assert a[n] in multiset(b);
      var i :| 0 <= i < |b| && b[i] == a[n];
      Without(b, i);
      LeavesOfPermutation(a[..n], b[..i] + b[i + 1..]);
      Pulled(b, i);
    }
  }

  lemma Without(s: seq<Odds>, i: nat)
    requires i < |s|
    ensures multiset(s[..i] + s[i + 1..]) == multiset(s) - multiset{s[i]}
  {
    assert s == s[..i] + [s[i]] + s[i + 1..];
  }

  /** Reordering the sources moves the total by at most a part for each after the first. */
  lemma OrderMovesLittle(a: seq<Odds>, b: seq<Odds>)
    requires multiset(a) == multiset(b) && a != []
    ensures Abs(OrAll(a) - OrAll(b)) <= |a| - 1
  {
    OrAllNear(a);
    OrAllNear(b);
    LeavesOfPermutation(a, b);
  }
}
