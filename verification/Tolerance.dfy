/** The one-sided binomial tolerance rule of the latency gate (scripts/perf_baseline.py), in
    exact arithmetic: how many samples over the limit still leave 95% confidence that at least
    95% of all latencies are within it. */
module Tolerance {
  const TAIL_COVERAGE_PCT := 95
  const TAIL_CONFIDENCE_PCT := 95
  const MIN_TOLERANCE_SAMPLES := 59

  const EXCEEDANCE: real := 1.0 - TAIL_COVERAGE_PCT as real / 100.0
  const ALPHA: real := 1.0 - TAIL_CONFIDENCE_PCT as real / 100.0

  /** The chance of an event that has chance `a` if a draw exceeds and `b` if it does not. */
  function Either(p: real, a: real, b: real): real {
    p * a + (1.0 - p) * b
  }

  /** The chance that at most `k` of `n` independent draws exceed, when each does with chance `p`. */
  function AtMost(n: nat, k: int, p: real): real {
    if k < 0 then 0.0
    else if n == 0 then 1.0
    else Either(p, AtMost(n - 1, k - 1, p), AtMost(n - 1, k, p))
  }

  lemma EitherSum(p: real, a: real, b: real, c: real, d: real)
    ensures Either(p, a, b) + Either(p, c, d) == Either(p, a + c, b + d)
  {}

  lemma EitherSame(p: real, a: real)
    ensures Either(p, a, a) == a
  {}

  lemma EitherGrows(p: real, a: real, b: real, c: real, d: real)
    requires IsChance(p) && a <= c && b <= d
    ensures Either(p, a, b) <= Either(p, c, d)
  {
    assert p * (c - a) >= 0.0 && (1.0 - p) * (d - b) >= 0.0;
  }

  lemma EitherTilts(p: real, r: real, a: real, b: real)
    requires p <= r && a <= b
    ensures Either(r, a, b) <= Either(p, a, b)
  {
    assert (r - p) * (b - a) >= 0.0;
    assert r * a + (1.0 - r) * b == p * a + (1.0 - p) * b - (r - p) * (b - a);
  }

  predicate IsChance(p: real) { 0.0 <= p <= 1.0 }

  // ---------------------------------------------------- the binomial terms

  function Pow(x: real, n: nat): real {
    if n == 0 then 1.0 else x * Pow(x, n - 1)
  }

  function Choose(n: nat, k: nat): nat {
    if k == 0 then 1 else if n == 0 then 0 else Choose(n - 1, k - 1) + Choose(n - 1, k)
  }

  function Weight(ways: real, x: real, y: real): real {
    ways * (x * y)
  }

  /** The chance of exactly `k` exceedances. */
  function Term(n: nat, k: nat, p: real): real {
    if k > n then 0.0 else Weight(Choose(n, k) as real, Pow(p, k), Pow(1.0 - p, n - k))
  }

  function TermSum(n: nat, k: nat, p: real): real {
    Term(n, k, p) + if k == 0 then 0.0 else TermSum(n, k - 1, p)
  }

  lemma {:induction false} ChooseNone(n: nat, k: nat)
    requires k > n
    ensures Choose(n, k) == 0
  {
    if n > 0 {
      ChooseNone(n - 1, k - 1);
      ChooseNone(n - 1, k);
    }
  }

  lemma Distribute(a: real, b: real, p: real, x: real, y: real, px: real, qy: real)
    requires px == p * x && qy == (1.0 - p) * y
    ensures Weight(a + b, px, qy) == Either(p, Weight(a, x, qy), Weight(b, px, y))
  {
    var z := x * y;
    var q := 1.0 - p;
    assert px * qy == (p * q) * z;
    assert a * (x * qy) == q * (a * z) by { assert x * qy == q * z; }
    assert b * (px * y) == p * (b * z) by { assert px * y == p * z; }
    assert p * (q * (a * z)) == (p * q) * (a * z);
    assert q * (p * (b * z)) == (p * q) * (b * z);
    assert (a + b) * ((p * q) * z) == (p * q) * (a * z) + (p * q) * (b * z);
  }

  lemma PowNext(x: real, n: nat)
    requires n > 0
    ensures Pow(x, n) == x * Pow(x, n - 1)
  {}

  /** One draw more, an exceedance or not. */
  lemma WeightSplits(a: real, b: real, p: real, k: nat, m: nat)
    requires k > 0 && m > 0
    ensures Weight(a + b, Pow(p, k), Pow(1.0 - p, m)) ==
            Either(p, Weight(a, Pow(p, k - 1), Pow(1.0 - p, m)), Weight(b, Pow(p, k), Pow(1.0 - p, m - 1)))
  {
    hide *;
    PowNext(p, k);
    PowNext(1.0 - p, m);
    Distribute(a, b, p, Pow(p, k - 1), Pow(1.0 - p, m - 1), Pow(p, k), Pow(1.0 - p, m));
  }

  lemma WeightOfAll(a: real, p: real, k: nat)
    requires k > 0
    ensures Weight(a, Pow(p, k), Pow(1.0 - p, 0)) == Either(p, Weight(a, Pow(p, k - 1), Pow(1.0 - p, 0)), 0.0)
  {
    assert Pow(p, k) == p * Pow(p, k - 1) && Pow(1.0 - p, 0) == 1.0;
    hide Pow;
  }

  lemma WeightOfNone(p: real, n: nat)
    requires n > 0
    ensures Weight(1.0, Pow(p, 0), Pow(1.0 - p, n)) == Either(p, 0.0, Weight(1.0, Pow(p, 0), Pow(1.0 - p, n - 1)))
  {
    assert Pow(1.0 - p, n) == (1.0 - p) * Pow(1.0 - p, n - 1) && Pow(p, 0) == 1.0;
    hide Pow;
  }

  function TermBefore(n: nat, k: nat, p: real): real {
    if k == 0 then 0.0 else Term(n, k - 1, p)
  }

  function SumBefore(n: nat, k: nat, p: real): real {
    if k == 0 then 0.0 else TermSum(n, k - 1, p)
  }

  lemma TermSplits(n: nat, k: nat, p: real)
    requires n > 0
    ensures Term(n, k, p) == Either(p, TermBefore(n - 1, k, p), Term(n - 1, k, p))
  {
    hide Either;
    hide Weight;
    hide Pow;
    if k == 0 {
      WeightOfNone(p, n);
    } else if k < n {
      WeightSplits(Choose(n - 1, k - 1) as real, Choose(n - 1, k) as real, p, k, n - k);
    } else if k == n {
      ChooseNone(n - 1, k);
      WeightOfAll(Choose(n, k) as real, p, k);
    } else {
      EitherSame(p, 0.0);
    }
  }

  lemma {:induction false} SumSplits(n: nat, k: nat, p: real)
    requires n > 0
    ensures TermSum(n, k, p) == Either(p, SumBefore(n - 1, k, p), TermSum(n - 1, k, p))
  {
    TermSplits(n, k, p);
    hide Term;
    hide Either;
    if k > 0 {
      SumSplits(n, k - 1, p);
      EitherSum(p, Term(n - 1, k - 1, p), Term(n - 1, k, p), SumBefore(n - 1, k - 1, p), TermSum(n - 1, k - 1, p));
    }
  }

  lemma {:induction false} CertainTerm(k: nat, p: real)
    ensures TermSum(0, k, p) == 1.0
  {
    if k > 0 {
      CertainTerm(k - 1, p);
    }
  }

  /** The binomial sum is that chance. */
  lemma {:induction false} SumIsAtMost(n: nat, k: nat, p: real)
    ensures TermSum(n, k, p) == AtMost(n, k, p)
  {
    if n == 0 {
      CertainTerm(k, p);
    } else {
      hide Either;
      hide Term;
      SumSplits(n, k, p);
      SumIsAtMost(n - 1, k, p);
      if k > 0 { SumIsAtMost(n - 1, k - 1, p); }
    }
  }

  lemma ChooseAlgebra(c: int, d: int, e: int, n: int, k: int)
    requires d * k == c * (n - k) && e * (n - k + 1) == c * (k - 1)
    ensures (c + d) * k == (e + c) * (n - k + 1)
  {
    assert (c + d) * k == c * k + c * (n - k) == c * n;
    assert (e + c) * (n - k + 1) == c * (k - 1) + c * (n - k + 1) == c * n;
  }

  lemma {:induction false} ChooseRatio(n: nat, k: nat)
    requires k > 0
    ensures Choose(n, k) * k == Choose(n, k - 1) * (n - k + 1)
  {
    if n == 0 {
      if k > 1 { ChooseNone(0, k - 1); }
    } else {
      var c, d := Choose(n - 1, k - 1), Choose(n - 1, k);
      var e := if k == 1 then 0 else Choose(n - 1, k - 2);
      ChooseRatio(n - 1, k);
      if k > 1 { ChooseRatio(n - 1, k - 1); }
      assert Choose(n, k) == c + d && Choose(n, k - 1) == e + c;
      hide Choose;
      ChooseAlgebra(c, d, e, n, k);
    }
  }

  /** The step from one term to the next, as the loop takes it. */
  function NextProbability(probability: real, sampleCount: nat, exceedances: nat, p: real): real
    requires 0 < exceedances <= sampleCount && p != 1.0
  {
    probability * ((sampleCount - exceedances + 1) as real / exceedances as real) * (p / (1.0 - p))
  }

  lemma RatioAlgebra(c: real, d: real, m: real, l: real, p: real, x: real, y: real, px: real, qy: real)
    requires l != 0.0 && p != 1.0 && d * l == c * m && px == p * x && qy == (1.0 - p) * y
    ensures Weight(d, px, y) == Weight(c, x, qy) * (m / l) * (p / (1.0 - p))
  {
    var z := x * y;
    var q := 1.0 - p;
    var r, s := m / l, p / q;
    assert d == c * r by { assert d * l == c * (r * l); assert (d - c * r) * l == 0.0; }
    assert x * qy == q * z;
    assert c * (q * z) * r == d * (q * z);
    assert d * (q * z) * s == d * z * (q * s);
    assert q * s == p;
    assert px * y == p * z;
  }

  lemma CastProducts(c: nat, d: nat, m: nat, l: nat)
    requires d * l == c * m
    ensures d as real * l as real == c as real * m as real
  {
    assert (d * l) as real == d as real * l as real && (c * m) as real == c as real * m as real;
  }

  lemma TermRatio(n: nat, k: nat, p: real)
    requires 0 < k <= n && p != 1.0
    ensures Term(n, k, p) == NextProbability(Term(n, k - 1, p), n, k, p)
  {
    hide Pow;
    hide Choose;
    hide Weight;
    var q := 1.0 - p;
    ChooseRatio(n, k);
    CastProducts(Choose(n, k - 1), Choose(n, k), n - k + 1, k);
    PowNext(p, k);
    PowNext(q, n - k + 1);
    RatioAlgebra(Choose(n, k - 1) as real, Choose(n, k) as real, (n - k + 1) as real, k as real, p,
                 Pow(p, k - 1), Pow(q, n - k), Pow(p, k), Pow(q, n - k + 1));
  }

  // ------------------------------------------------- monotonicity of chance

  lemma {:induction false} MoreAllowed(n: nat, k: int, p: real)
    requires IsChance(p)
    ensures 0.0 <= AtMost(n, k, p) <= AtMost(n, k + 1, p) <= 1.0
  {
    if n > 0 && k >= -1 {
      hide Either;
      MoreAllowed(n - 1, k, p);
      MoreAllowed(n - 1, k - 1, p);
      EitherSame(p, 0.0);
      EitherSame(p, 1.0);
      EitherGrows(p, 0.0, 0.0, AtMost(n - 1, k - 1, p), AtMost(n - 1, k, p));
      EitherGrows(p, AtMost(n - 1, k - 1, p), AtMost(n - 1, k, p), AtMost(n - 1, k, p), AtMost(n - 1, k + 1, p));
      EitherGrows(p, AtMost(n - 1, k, p), AtMost(n - 1, k + 1, p), 1.0, 1.0);
      if k == -1 { EitherGrows(p, 0.0, 0.0, AtMost(n - 1, -1, p), AtMost(n - 1, 0, p)); }
    }
  }

  lemma {:induction false} AllowedUpTo(n: nat, j: int, k: int, p: real)
    requires IsChance(p) && j <= k
    ensures AtMost(n, j, p) <= AtMost(n, k, p)
    decreases k - j
  {
    if j < k {
      MoreAllowed(n, j, p);
      AllowedUpTo(n, j + 1, k, p);
    }
  }

  lemma MoreSamples(n: nat, k: int, p: real)
    requires IsChance(p)
    ensures AtMost(n + 1, k, p) <= AtMost(n, k, p)
  {
    if k >= 0 {
      hide Either;
      MoreAllowed(n, k - 1, p);
      EitherGrows(p, AtMost(n, k - 1, p), AtMost(n, k, p), AtMost(n, k, p), AtMost(n, k, p));
      EitherSame(p, AtMost(n, k, p));
    }
  }

  lemma {:induction false} EverythingAllowed(n: nat, k: int, p: real)
    requires k >= n
    ensures AtMost(n, k, p) == 1.0
  {
    if n > 0 {
      EverythingAllowed(n - 1, k - 1, p);
      EverythingAllowed(n - 1, k, p);
      EitherSame(p, 1.0);
    }
  }

  /** The likelier an exceedance, the less likely that few happen. */
  lemma {:induction false} LikelierExceedance(n: nat, k: int, p: real, r: real)
    requires 0.0 <= p <= r <= 1.0
    ensures AtMost(n, k, r) <= AtMost(n, k, p)
  {
    if n > 0 && k >= 0 {
      LikelierExceedance(n - 1, k - 1, p, r);
      LikelierExceedance(n - 1, k, p, r);
      hide Either;
      MoreAllowed(n - 1, k - 1, p);
      EitherGrows(r, AtMost(n - 1, k - 1, r), AtMost(n - 1, k, r), AtMost(n - 1, k - 1, p), AtMost(n - 1, k, p));
      EitherTilts(p, r, AtMost(n - 1, k - 1, p), AtMost(n - 1, k, p));
    }
  }

  // ------------------------------------------------------------- the rule

  /** `r` is the largest number of exceedances whose chance stays within `ALPHA`, or -1. */
  ghost predicate IsAllowance(n: nat, r: int) {
    && -1 <= r
    && AtMost(n, r, EXCEEDANCE) <= ALPHA
    && AtMost(n, r + 1, EXCEEDANCE) > ALPHA
  }

  /** There is one such number. */
  lemma AllowanceIsUnique(n: nat, r: int, k: int)
    requires IsAllowance(n, r)
    ensures AtMost(n, k, EXCEEDANCE) <= ALPHA <==> k <= r
  {
    if k <= r {
      AllowedUpTo(n, k, r, EXCEEDANCE);
    } else {
      AllowedUpTo(n, r + 1, k, EXCEEDANCE);
    }
  }

  lemma {:induction false} NoneExceeds(n: nat, p: real)
    ensures AtMost(n, 0, p) == Pow(1.0 - p, n)
  {
    if n > 0 {
      NoneExceeds(n - 1, p);
    }
  }

  lemma {:induction false} PowAdd(x: real, m: nat, n: nat)
    ensures Pow(x, m + n) == Pow(x, m) * Pow(x, n)
  {
    if m > 0 {
      PowAdd(x, m - 1, n);
      assert x * (Pow(x, m - 1) * Pow(x, n)) == (x * Pow(x, m - 1)) * Pow(x, n);
    }
  }

  lemma Squeeze(a: real, b: real, c: real, d: real, x: real, y: real)
    requires 0.0 <= a <= x <= b && 0.0 <= c <= y <= d
    ensures a * c <= x * y <= b * d
  {
    assert a * c <= x * c <= x * y <= x * d <= b * d by {
      assert (x - a) * c >= 0.0 && x * (y - c) >= 0.0 && x * (d - y) >= 0.0 && (b - x) * d >= 0.0;
    }
  }

  /** 59 samples are the fewest from which "none over the limit" says anything. */
  lemma FiftyNine()
    ensures Pow(0.95, 59) <= 0.05 < Pow(0.95, 58)
  {
    var x := 0.95;
    assert Pow(x, 1) == x && Pow(x, 2) == 0.9025 by { assert Pow(x, 2) == x * Pow(x, 1); }
    PowAdd(x, 2, 2);
    var p4 := Pow(x, 4);
    assert p4 == 0.81450625;
    PowAdd(x, 4, 4);
    var p8 := Pow(x, 8);
    Squeeze(0.8145, 0.8146, 0.8145, 0.8146, p4, p4);
    assert 0.66342 <= p8 <= 0.663421;
    PowAdd(x, 8, 8);
    var p16 := Pow(x, 16);
    Squeeze(0.66342, 0.663421, 0.66342, 0.663421, p8, p8);
    assert 0.440126 <= p16 <= 0.440128;
    PowAdd(x, 16, 8);
    var p24 := Pow(x, 24);
    Squeeze(0.440126, 0.440128, 0.66342, 0.663421, p16, p8);
    assert 0.291988 <= p24 <= 0.291991;
    PowAdd(x, 24, 2);
    var p26 := Pow(x, 26);
    PowAdd(x, 16, 16);
    var p32 := Pow(x, 32);
    Squeeze(0.440126, 0.440128, 0.440126, 0.440128, p16, p16);
    assert 0.19371 <= p32 <= 0.193713;
    PowAdd(x, 32, 26);
    assert 0.26351 <= p26 <= 0.263523;
    Squeeze(0.19371, 0.193713, 0.26351, 0.263523, p32, p26);
    assert Pow(x, 59) == x * Pow(x, 58);
  }

  /** The guard returns -1 exactly where the rule itself would. */
  lemma GuardIsExact(n: nat)
    ensures n < MIN_TOLERANCE_SAMPLES <==> Pow(1.0 - EXCEEDANCE, n) > ALPHA
    ensures n < MIN_TOLERANCE_SAMPLES <==> IsAllowance(n, -1)
  {
    FiftyNine();
    NoneExceeds(n, EXCEEDANCE);
    if n < 59 {
      PowShrinks(0.95, n, 58);
    } else {
      PowShrinks(0.95, 59, n);
    }
  }

  lemma Shrinks(x: real, y: real)
    requires 0.0 <= x <= 1.0 && 0.0 <= y
    ensures 0.0 <= x * y <= y
  {
    assert (1.0 - x) * y >= 0.0;
  }

  lemma {:induction false} OneFactorMore(x: real, n: nat)
    requires 0.0 <= x <= 1.0
    ensures 0.0 <= Pow(x, n + 1) <= Pow(x, n)
  {
    if n > 0 { OneFactorMore(x, n - 1); }
    PowNext(x, n + 1);
    var y := Pow(x, n);
    assert 0.0 <= y;
    hide Pow;
    Shrinks(x, y);
  }

  lemma {:induction false} PowShrinks(x: real, m: nat, n: nat)
    requires 0.0 <= x <= 1.0 && m <= n
    ensures Pow(x, n) <= Pow(x, m)
    decreases n
  {
    hide Pow;
    if m < n {
      PowShrinks(x, m, n - 1);
      OneFactorMore(x, n - 1);
    }
  }

  lemma Beginning(n: nat, p: real)
    ensures Pow(1.0 - p, n) == Term(n, 0, p) == AtMost(n, 0, p)
  {
    NoneExceeds(n, p);
    SumIsAtMost(n, 0, p);
  }

  lemma OneMore(n: nat, k: nat, p: real)
    requires 0 < k <= n && p != 1.0
    ensures Term(n, k, p) == NextProbability(Term(n, k - 1, p), n, k, p)
    ensures AtMost(n, k, p) == AtMost(n, k - 1, p) + Term(n, k, p)
  {
    hide NextProbability;
    TermRatio(n, k, p);
    hide Term;
    SumIsAtMost(n, k, p);
    SumIsAtMost(n, k - 1, p);
    hide AtMost;
  }

  /** `max_allowed_tail_exceedances`. */
  method MaxAllowedTailExceedances(sampleCount: int) returns (allowed: int)
    ensures sampleCount < 0 ==> allowed == -1
    ensures sampleCount >= 0 ==> IsAllowance(sampleCount, allowed)
  {
    if sampleCount < MIN_TOLERANCE_SAMPLES {
      if sampleCount >= 0 { GuardIsExact(sampleCount); }
      return -1;
    }
    var p := EXCEEDANCE;
    var n := sampleCount;
    var probability := Pow(1.0 - p, n);
    var cumulative := probability;
    Beginning(n, p);
    GuardIsExact(n);
    assert p != 1.0;
    EverythingAllowed(n, n, p);
    assert ALPHA < 1.0;
    hide AtMost;
    hide Term;
    hide Pow;
    hide NextProbability;
    allowed := if cumulative <= ALPHA then 0 else -1;
    var exceedances := 1;
    while exceedances <= n
      invariant 1 <= exceedances <= n + 1
      invariant probability == Term(n, exceedances - 1, p)
      invariant cumulative == AtMost(n, exceedances - 1, p)
      invariant allowed == exceedances - 1 && cumulative <= ALPHA
    {
      OneMore(n, exceedances, p);
      probability := NextProbability(probability, n, exceedances, p);
      cumulative := cumulative + probability;
      if cumulative > ALPHA {
        break;
      }
      allowed := exceedances;
      exceedances := exceedances + 1;
    }
  }

  /** Not every sample may exceed. */
  lemma AllowanceBelowCount(n: nat, r: int)
    requires IsAllowance(n, r)
    ensures r < n
  {
    EverythingAllowed(n, n, EXCEEDANCE);
    AllowanceIsUnique(n, r, n);
  }

  /** More samples never allow fewer exceedances. */
  lemma AllowanceGrows(m: nat, n: nat, r: int, s: int)
    requires m <= n && IsAllowance(m, r) && IsAllowance(n, s)
    ensures r <= s
  {
    ManySamples(m, n, r, EXCEEDANCE);
    AllowanceIsUnique(n, s, r);
  }

  lemma {:induction false} ManySamples(m: nat, n: nat, k: int, p: real)
    requires m <= n && IsChance(p)
    ensures AtMost(n, k, p) <= AtMost(m, k, p)
    decreases n
  {
    if m < n {
      ManySamples(m, n - 1, k, p);
      MoreSamples(n - 1, k, p);
    }
  }

  /** What 95/95 means: `k` exceedances are allowed exactly when, for every process that leaves
      the limit at least as often as the coverage forbids, seeing no more than `k` is that unlikely. */
  lemma AllowanceIsConfidence(n: nat, r: int, k: int)
    requires IsAllowance(n, r)
    ensures k <= r <==> forall p :: EXCEEDANCE <= p <= 1.0 ==> AtMost(n, k, p) <= ALPHA
  {
    AllowanceIsUnique(n, r, k);
    forall p | EXCEEDANCE <= p <= 1.0 ensures AtMost(n, k, p) <= AtMost(n, k, EXCEEDANCE) {
      LikelierExceedance(n, k, EXCEEDANCE, p);
    }
  }
}
