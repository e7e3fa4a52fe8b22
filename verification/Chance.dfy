/** chance.rs: the pseudo-random step found by halving over a fixed-point rate, against the
    exact expectation it stands for. */
module Chance {
  import opened Machine
  import opened Arithmetic

  /** The parts a certainty holds; a step of certainty; a probability of one. */
  const WHOLE: nat := 100_000_000
  const SCALE: nat := 0x1_0000_0000
  const UNIT: nat := 0x1_0000_0000_0000_0000

  /** The share of `SCALE` with which the `n`-th attempt hits. */
  function Hit(step: nat, n: nat): nat { Min(Times(step, n), SCALE) }

  function Times(n: nat, p: nat): nat { n * p }

  /** A share of a probability, truncated. */
  function Share(p: nat, share: nat): nat { p * share / SCALE }

  lemma ShareBound(p: nat, share: nat)
    requires share <= SCALE
    ensures Share(p, share) <= p
  {
    NatMono(p, share, SCALE);
  }

  /** The probability of `n` misses in a row, in parts of `UNIT`, as the program truncates it. */
  function Survive(step: nat, n: nat): nat {
    if n == 0 then UNIT else Share(Survive(step, n - 1), SCALE - Hit(step, n))
  }

  /** The attempts taken by the hits among the first `n`, truncated likewise. */
  function Attempts(step: nat, n: nat): nat {
    if n == 0 then 0 else Attempts(step, n - 1) + Times(n, Share(Survive(step, n - 1), Hit(step, n)))
  }

  lemma {:induction false} SurviveBound(step: nat, n: nat)
    ensures Survive(step, n) <= UNIT
  {
    if n > 0 {
      SurviveBound(step, n - 1);
      ShareBound(Survive(step, n - 1), SCALE - Hit(step, n));
    }
  }

  /** The attempt that hits for certain. */
  ghost predicate IsLast(step: nat, n: nat) { n >= 1 && Times(step, n - 1) < SCALE <= Times(step, n) }

  ghost function LastTry(step: nat): (n: nat)
    requires 1 <= step
    ensures IsLast(step, n) && n <= SCALE
  {
    TryBound(step);
    (SCALE + step - 1) / step
  }

  lemma TryBound(step: nat)
    requires 1 <= step
    ensures var n := (SCALE + step - 1) / step; 1 <= n <= SCALE && IsLast(step, n)
  {
    var n := (SCALE + step - 1) / step;
    Floored(SCALE + step - 1, step);
    NatCancel(step, 0, n);
    Successor(n - 1, step);
    NatMono(SCALE, 1, step);
    NatCancel(step, n - 1, SCALE);
  }

  lemma LastUnique(step: nat, m: nat, n: nat)
    requires IsLast(step, m) && IsLast(step, n)
    ensures m == n
  {
    if m < n { NatMono(step, m, n - 1); }
    if n < m { NatMono(step, n, m - 1); }
  }

  /** What the rate test decides. */
  ghost predicate RateAtLeast(step: nat, parts: nat)
    requires 1 <= step
  {
    Times(Attempts(step, LastTry(step)), parts) <= UNIT * WHOLE
  }

  /** The parts a hit spends and those a miss leaves never exceed what there was. */
  lemma Split(p: nat, hit: nat)
    requires hit <= SCALE
    ensures Share(p, hit) + Share(p, SCALE - hit) <= p
  {
    assert p * hit + p * (SCALE - hit) == p * SCALE;
    Floored(p * hit, SCALE);
    Floored(p * (SCALE - hit), SCALE);
  }

  /** What is spent was spent at an attempt no later than this one, so the attempts counted
      stay below `n` for every part spent. */
  lemma {:induction false} AttemptsBound(step: nat, n: nat)
    ensures Attempts(step, n) + n * Survive(step, n) <= n * UNIT
  {
    if n > 0 {
      AttemptsBound(step, n - 1);
      var survive, hit := Survive(step, n - 1), Hit(step, n);
      SurviveBound(step, n - 1);
      Split(survive, hit);
      Telescoped(Attempts(step, n - 1), n, survive, Share(survive, hit), Survive(step, n));
    }
  }

  lemma Telescoped(attempts: nat, n: nat, survive: nat, spent: nat, left: nat)
    requires 1 <= n && survive <= UNIT && spent + left <= survive
    requires attempts + (n - 1) * survive <= (n - 1) * UNIT
    ensures attempts + n * spent + n * left <= n * UNIT
  {
    NatMono(n, spent + left, survive);
    assert n * (spent + left) == n * spent + n * left;
    Successor(n - 1, survive);
    Successor(n - 1, UNIT);
  }

  /** Every intermediate of the `n`-th round fits 128 bits. */
  lemma RoundFits(step: nat, n: nat)
    requires 1 <= n <= SCALE
    ensures var survive, hit := Survive(step, n - 1), Hit(step, n);
            survive * hit <= UNIT * SCALE && survive * (SCALE - hit) <= UNIT * SCALE &&
            Times(n, Share(survive, hit)) <= Attempts(step, n) <= SCALE * UNIT
  {
    SurviveBound(step, n - 1);
    Fits(Survive(step, n - 1), Hit(step, n));
    AttemptsTop(step, n);
  }

  lemma AttemptsTop(step: nat, n: nat)
    requires n <= SCALE
    ensures Attempts(step, n) <= SCALE * UNIT
  {
    AttemptsBound(step, n);
    NatMono(UNIT, n, SCALE);
    NatMono(n, 0, Survive(step, n));
  }

  lemma Fits(survive: nat, hit: nat)
    requires survive <= UNIT && hit <= SCALE
    ensures 0 <= survive * hit <= UNIT * SCALE && 0 <= survive * (SCALE - hit) <= UNIT * SCALE
  {
    NatMono(survive, hit, SCALE);
    NatMono(survive, SCALE - hit, SCALE);
  }

  /** The rounds of the loop end at the attempt that hits for certain, and every intermediate
      is assigned to the width the program gives it. */
  method PrdRateAtLeast(step: u64, parts: u32) returns (enough: bool)
    requires 1 <= step <= SCALE && parts <= WHOLE
    ensures enough <==> RateAtLeast(step, parts)
  {
    var survive: u128, attempts: u128, n: u128 := UNIT, 0, 0;
    while true
      invariant n <= SCALE && Times(step, n) < SCALE
      invariant survive == Survive(step, n) && attempts == Attempts(step, n)
      decreases SCALE - n
    {
      BelowLast(step, n);
      n := n + 1;
      RoundFits(step, n);
      var share: u128 := Times(step, n);
      var hit: u128 := Min(share, SCALE);
      var spent: u128 := Share(survive, hit);
      var counted: u128 := Times(n, spent);
      attempts := attempts + counted;
      if hit == SCALE {
        break;
      }
      survive := Share(survive, SCALE - hit);
    }
    Decided(step, n, parts);
    var product: u128 := Times(attempts, parts);
    enough := product <= UNIT * WHOLE;
  }

  lemma Decided(step: nat, n: nat, parts: nat)
    requires 1 <= step && IsLast(step, n) && n <= SCALE && parts <= WHOLE
    ensures RateAtLeast(step, parts) <==> Times(Attempts(step, n), parts) <= UNIT * WHOLE
    ensures Times(Attempts(step, n), parts) <= SCALE * UNIT * WHOLE
  {
    LastUnique(step, n, LastTry(step));
    AttemptsTop(step, n);
    ProductTop(Attempts(step, n), parts);
  }

  lemma ProductTop(attempts: nat, parts: nat)
    requires attempts <= SCALE * UNIT && parts <= WHOLE
    ensures Times(attempts, parts) <= SCALE * UNIT * WHOLE
  {
    NatMono(attempts, parts, WHOLE);
  }

  lemma BelowLast(step: nat, n: nat)
    requires 1 <= step <= SCALE && Times(step, n) < SCALE
    ensures n < SCALE && Times(step, n + 1) <= 2 * SCALE
  {
    NatMono(n, 1, step);
    Successor(n, step);
  }

  // The exact expectation, in the same parts of `UNIT` but real.

  ghost function Fraction(share: nat): real { share as real / SCALE as real }

  ghost function ShareExact(p: real, f: real): real { p * f }

  /** The probability of `n` misses in a row. */
  ghost function SurviveExact(step: nat, n: nat): real {
    if n == 0 then UNIT as real else ShareExact(SurviveExact(step, n - 1), Fraction(SCALE - Hit(step, n)))
  }

  /** The attempts the hits among the first `n` take on average. */
  ghost function MeanExact(step: nat, n: nat): real {
    if n == 0 then 0.0
    else MeanExact(step, n - 1) + ShareExact(ShareExact(SurviveExact(step, n - 1), Fraction(Hit(step, n))), n as real)
  }

  /** The distribution of `step` hits at a rate of at least `parts`: the attempts it takes on
      average are at most the chance's inverse. */
  ghost predicate ExactRateAtLeast(step: nat, parts: nat)
    requires 1 <= step
  {
    ShareExact(MeanExact(step, LastTry(step)), parts as real) <= (UNIT * WHOLE) as real
  }

  lemma ShareMono(p: real, q: real, f: real)
    requires p <= q && 0.0 <= f
    ensures ShareExact(p, f) <= ShareExact(q, f)
  {
    assert (q - p) * f >= 0.0;
  }

  lemma ShareAtMost(p: real, f: real)
    requires 0.0 <= p && 0.0 <= f <= 1.0
    ensures 0.0 <= ShareExact(p, f) <= p
  {
    assert p * (1.0 - f) >= 0.0;
  }

  lemma ShareSum(p: real, q: real, f: real)
    ensures ShareExact(p + q, f) == ShareExact(p, f) + ShareExact(q, f)
  {
  }

  /** Truncating a share never gains and loses less than one part. */
  lemma ShareTruncates(p: nat, share: nat)
    requires share <= SCALE
    ensures Share(p, share) as real <= ShareExact(p as real, Fraction(share)) < Share(p, share) as real + 1.0
    ensures 0.0 <= Fraction(share) <= 1.0
  {
    Floored(p * share, SCALE);
    var f := Fraction(share);
    assert p as real * f * SCALE as real == (p * share) as real by {
      assert f * SCALE as real == share as real;
      assert (p * share) as real == p as real * share as real;
    }
  }

  /** Truncating a product twice: what the program keeps of `p` is below the exact share of
      what `p` is below, and loses at most one part more than `p` had lost. */
  lemma ShareNear(p: nat, share: nat, exact: real, lost: nat)
    requires share <= SCALE
    requires p as real <= exact <= (p + lost) as real
    ensures Share(p, share) as real <= ShareExact(exact, Fraction(share)) <= (Share(p, share) + lost + 1) as real
  {
    ShareTruncates(p, share);
    NearCore(Share(p, share) as real, p as real, lost as real, exact, Fraction(share));
  }

  lemma NearCore(kept: real, p: real, lost: real, exact: real, f: real)
    requires kept <= ShareExact(p, f) < kept + 1.0 && p <= exact <= p + lost && 0.0 <= f <= 1.0 && 0.0 <= lost
    ensures kept <= ShareExact(exact, f) <= kept + lost + 1.0
  {
    ShareMono(p, exact, f);
    ShareMono(exact, p + lost, f);
    ShareSum(p, lost, f);
    ShareAtMost(lost, f);
  }

  lemma {:induction false} SurviveNear(step: nat, n: nat)
    ensures Survive(step, n) as real <= SurviveExact(step, n) <= (Survive(step, n) + n) as real
  {
    if n > 0 {
      SurviveNear(step, n - 1);
      ShareNear(Survive(step, n - 1), SCALE - Hit(step, n), SurviveExact(step, n - 1), n - 1);
    }
  }

  /** The most parts `n` rounds of counting lose. */
  function Lost(n: nat): nat { if n == 0 then 0 else Lost(n - 1) + Times(n, n) }

  /** The attempts the program counts stay below the exact expectation, by at most `Lost`. */
  lemma {:induction false} AttemptsNear(step: nat, n: nat)
    ensures Attempts(step, n) as real <= MeanExact(step, n) <= (Attempts(step, n) + Lost(n)) as real
  {
    if n > 0 {
      AttemptsNear(step, n - 1);
      SurviveNear(step, n - 1);
      var p, hit := Survive(step, n - 1), Hit(step, n);
      var exact := SurviveExact(step, n - 1);
      ShareNear(p, hit, exact, n - 1);
      CountNear(n, Share(p, hit), ShareExact(exact, Fraction(hit)));
    }
  }

  lemma CountNear(n: nat, spent: nat, exact: real)
    requires spent as real <= exact <= (spent + n) as real
    ensures Times(n, spent) as real <= ShareExact(exact, n as real) <= (Times(n, spent) + Times(n, n)) as real
  {
    ShareMono(spent as real, exact, n as real);
    ShareMono(exact, (spent + n) as real, n as real);
    assert Times(n, spent) as real == spent as real * n as real;
    assert Times(n, n) as real == n as real * n as real;
    assert (spent + n) as real * n as real == spent as real * n as real + n as real * n as real;
  }

  lemma {:induction false} LostBound(n: nat)
    ensures Lost(n) <= n * n * n
  {
    if n > 0 {
      LostBound(n - 1);
      CubeGrows(n - 1);
    }
  }

  lemma CubeGrows(m: nat)
    ensures m * m * m + Times(m + 1, m + 1) <= (m + 1) * (m + 1) * (m + 1)
  {
    var square := m * m;
    assert (m + 1) * (m + 1) == square + 2 * m + 1;
    assert (square + 2 * m + 1) * m == square * m + 2 * square + m;
  }

  /** The truncated rate never refuses a step whose exact rate is high enough. */
  lemma TruncationAccepts(step: nat, parts: nat)
    requires 1 <= step && ExactRateAtLeast(step, parts)
    ensures RateAtLeast(step, parts)
  {
    AttemptsNear(step, LastTry(step));
    var a := Attempts(step, LastTry(step));
    ShareMono(a as real, MeanExact(step, LastTry(step)), parts as real);
    TimesIsShare(a, parts);
  }

  // The exact rate grows with the step.

  /** The misses expected before a hit, counted among the first `n` attempts. */
  ghost function Misses(step: nat, n: nat): real {
    if n == 0 then 0.0 else Misses(step, n - 1) + SurviveExact(step, n - 1)
  }

  lemma FractionRange(share: nat)
    requires share <= SCALE
    ensures 0.0 <= Fraction(share) <= 1.0
    ensures Fraction(SCALE - share) == 1.0 - Fraction(share)
  {
  }

  lemma {:induction false} SurviveSign(step: nat, n: nat)
    ensures 0.0 <= SurviveExact(step, n)
  {
    if n > 0 {
      SurviveSign(step, n - 1);
      FractionRange(SCALE - Hit(step, n));
      ShareAtMost(SurviveExact(step, n - 1), Fraction(SCALE - Hit(step, n)));
    }
  }

  /** Summing by parts: an attempt is counted once for every miss before it and once for itself. */
  lemma {:induction false} ByParts(step: nat, n: nat)
    ensures MeanExact(step, n) + ShareExact(SurviveExact(step, n), n as real) == Misses(step, n)
  {
    if n == 0 {
      ShareZero(UNIT as real);
    } else {
      ByParts(step, n - 1);
      var s, hit := SurviveExact(step, n - 1), Hit(step, n);
      FractionRange(hit);
      CountedOnce(s, Fraction(hit), (n - 1) as real);
    }
  }

  lemma ShareZero(p: real)
    ensures ShareExact(p, 0.0) == 0.0 && ShareExact(0.0, p) == 0.0
  {
  }

  lemma CountedOnce(s: real, f: real, j: real)
    ensures ShareExact(ShareExact(s, f), j + 1.0) + ShareExact(ShareExact(s, 1.0 - f), j + 1.0) == ShareExact(s, j) + s
  {
    Complement(s, f);
    ShareSum(ShareExact(s, f), ShareExact(s, 1.0 - f), j + 1.0);
    assert ShareExact(s, j + 1.0) == s * j + s;
  }

  lemma Complement(s: real, f: real)
    ensures ShareExact(s, f) + ShareExact(s, 1.0 - f) == s
  {
  }

  /** Past the certain hit nothing survives. */
  lemma {:induction false} NothingAfter(step: nat, last: nat, n: nat)
    requires 1 <= step && IsLast(step, last) && last <= n
    ensures SurviveExact(step, n) == 0.0 && Misses(step, n) == Misses(step, last)
    decreases n
  {
    if n == last {
      assert Fraction(SCALE - Hit(step, n)) == 0.0;
      assert SurviveExact(step, n) == ShareExact(SurviveExact(step, n - 1), 0.0);
    } else {
      NothingAfter(step, last, n - 1);
      assert SurviveExact(step, n) == ShareExact(0.0, Fraction(SCALE - Hit(step, n)));
    }
  }

  lemma {:induction false} LargerSurvivesLess(small: nat, large: nat, n: nat)
    requires small <= large
    ensures SurviveExact(large, n) <= SurviveExact(small, n) && Misses(large, n) <= Misses(small, n)
  {
    if n > 0 {
      LargerSurvivesLess(small, large, n - 1);
      NatMono(n, small, large);
      var f, g := Fraction(SCALE - Hit(large, n)), Fraction(SCALE - Hit(small, n));
      assert 0.0 <= f <= g;
      SurviveSign(large, n - 1);
      SurviveSign(small, n - 1);
      ShareMono(SurviveExact(large, n - 1), SurviveExact(small, n - 1), f);
      ShareMono(f, g, SurviveExact(small, n - 1));
      assert ShareExact(SurviveExact(small, n - 1), f) == ShareExact(f, SurviveExact(small, n - 1));
      assert ShareExact(SurviveExact(small, n - 1), g) == ShareExact(g, SurviveExact(small, n - 1));
    }
  }

  lemma MeanIsMisses(step: nat, last: nat, n: nat)
    requires 1 <= step && IsLast(step, last) && last <= n
    ensures MeanExact(step, last) == Misses(step, n)
  {
    ByParts(step, last);
    NothingAfter(step, last, last);
    NothingAfter(step, last, n);
    ShareZero(last as real);
  }

  lemma LastShrinks(small: nat, large: nat, m: nat, n: nat)
    requires small <= large && IsLast(large, m) && IsLast(small, n)
    ensures m <= n
  {
    NatMono(n, small, large);
    NatCancel(large, m - 1, n);
  }

  /** A larger step takes no more attempts on average. */
  lemma LargerHitsSooner(small: nat, large: nat)
    requires 1 <= small <= large
    ensures MeanExact(large, LastTry(large)) <= MeanExact(small, LastTry(small))
  {
    var m, n := LastTry(large), LastTry(small);
    LastShrinks(small, large, m, n);
    MeanIsMisses(large, m, n);
    MeanIsMisses(small, n, n);
    LargerSurvivesLess(small, large, n);
  }

  lemma ExactRateGrows(small: nat, large: nat, parts: nat)
    requires 1 <= small <= large && ExactRateAtLeast(small, parts)
    ensures ExactRateAtLeast(large, parts)
  {
    LargerHitsSooner(small, large);
    ShareMono(MeanExact(large, LastTry(large)), MeanExact(small, LastTry(small)), parts as real);
  }

  /** Certainty hits at the first attempt. */
  lemma CertainStep(parts: nat)
    requires parts <= WHOLE
    ensures RateAtLeast(SCALE, parts)
  {
    LastUnique(SCALE, 1, LastTry(SCALE));
    assert Attempts(SCALE, 1) == Times(1, Share(UNIT, SCALE));
    NatMono(UNIT, parts, WHOLE);
  }

  /** The step of a chance, found by halving. It is no larger than any step whose exact rate is
      the chance or more; its own exact mean passes the chance's inverse by no more than what
      the truncations lose; and the step just below it is refused. */
  method PrdStep(parts: u32) returns (step: u64)
    ensures parts == 0 ==> step == 0
    ensures parts >= WHOLE ==> step == SCALE
    ensures 0 < parts < WHOLE ==>
            1 <= step <= SCALE && RateAtLeast(step, parts) && (step == 1 || !RateAtLeast(step - 1, parts))
    ensures 0 < parts < WHOLE ==> forall s: nat :: 1 <= s && ExactRateAtLeast(s, parts) ==> step <= s
    ensures 0 < parts < WHOLE ==>
              ShareExact(MeanExact(step, LastTry(step)), parts as real) <=
                (UNIT * WHOLE + Times(Lost(LastTry(step)), parts)) as real
  {
    if parts == 0 {
      return 0;
    }
    if parts >= WHOLE {
      return SCALE;
    }
    var low: u64, high: u64 := 1, SCALE;
    CertainStep(parts);
    while low < high
      invariant 1 <= low <= high <= SCALE
      invariant RateAtLeast(high, parts)
      invariant low == 1 || !RateAtLeast(low - 1, parts)
    {
      var mid: u64 := low + (high - low) / 2;
      var enough := PrdRateAtLeast(mid, parts);
      if enough {
        high := mid;
      } else {
        low := mid + 1;
      }
    }
    step := low;
    StepIsLeast(step, parts);
    StepIsNear(step, parts);
  }

  lemma StepIsLeast(step: nat, parts: nat)
    requires 1 <= step && (step == 1 || !RateAtLeast(step - 1, parts))
    ensures forall s: nat :: 1 <= s && ExactRateAtLeast(s, parts) ==> step <= s
  {
    forall s: nat | 1 <= s && ExactRateAtLeast(s, parts)
      ensures step <= s
    {
      if s < step {
        ExactRateGrows(s, step - 1, parts);
        TruncationAccepts(step - 1, parts);
      }
    }
  }

  lemma StepIsNear(step: nat, parts: nat)
    requires 1 <= step && RateAtLeast(step, parts)
    ensures ShareExact(MeanExact(step, LastTry(step)), parts as real) <=
            (UNIT * WHOLE + Times(Lost(LastTry(step)), parts)) as real
  {
    var n := LastTry(step);
    AttemptsNear(step, n);
    var a, l := Attempts(step, n), Lost(n);
    ShareMono(MeanExact(step, n), (a + l) as real, parts as real);
    ShareSum(a as real, l as real, parts as real);
    TimesIsShare(a, parts);
    TimesIsShare(l, parts);
  }

  lemma TimesIsShare(p: nat, q: nat)
    ensures Times(p, q) as real == ShareExact(p as real, q as real)
  {
  }
}
