/** Durations, counted in nanoseconds, to and from seconds (ttl.go), with the binary64 arithmetic of Go's
    Duration.Seconds. */
module Durations {
  import opened Floats
  import opened Jitter

  const NANOS := 1_000_000_000

  type Duration = v: int | -0x8000_0000_0000_0000 <= v < 0x8000_0000_0000_0000

  function Float64(x: real): real
    requires 0.0 <= x
  {
    Round(BINARY64, x)
  }

  /** The part of a second that `n` nanoseconds are. */
  function Fraction(n: nat): (r: real)
    requires n < NANOS
    ensures 0.0 <= r <= 1.0
  {
    Whole(n);
    PartBounds(n);
    Float64(Float64(n as real) / 1000000000.0)
  }

  /** `k` seconds and `n` nanoseconds. */
  function Sum(k: nat, n: nat): (r: real)
    requires n < NANOS && k <= 17179869183
  {
    Whole(k);
    Float64(Float64(k as real) + Fraction(n))
  }

  function Seconds(v: Duration): real
    requires 0 <= v
  {
    Sum(v / NANOS, v % NANOS)
  }

  /** To the nearest whole number, halves away from zero. */
  function RoundHalfUp(x: real): int {
    (x + 0.5).Floor
  }

  function DurationToSeconds(v: Duration): Uint32 {
    if v <= 0 then 0
    else
      AtLeastOne(ToUint32(RoundHalfUp(Seconds(v)) as real))
  }

  function AtLeastOne(seconds: Uint32): Uint32 {
    if seconds < 1 then 1 else seconds
  }

  function SecondsToDuration(v: Uint32): Duration {
    v * NANOS
  }

  /** Durations of seconds add up, from that of a single one. */
  lemma SecondsAddUp(v: Uint32, w: Uint32)
    requires v + w < UINT32
    ensures SecondsToDuration(v + w) == SecondsToDuration(v) + SecondsToDuration(w)
    ensures SecondsToDuration(0) == 0 && SecondsToDuration(1) == 1_000_000_000
  {
  }

  // ---- numbers of binary64

  lemma BelowOverflow64(x: real)
    requires x <= 17179869184.0
    ensures x < Pow2(BINARY64.emax)
  {
    Powers();
    Pow2Next(32);
    Pow2Next(33);
    Pow2Next(34);
    Pow2Monotone(35, 1023);
  }

  lemma Monotone(x: real, y: real)
    requires 0.0 <= x <= y <= 17179869184.0
    ensures Float64(x) <= Float64(y)
  {
    BelowOverflow64(y);
    RoundMonotone(BINARY64, x, y);
  }

  lemma ManyBits()
    ensures IntPow2(53) >= 536870912 * 16777216
  {
    Powers();
    Pow2Product(24, 29);
    Pow2Product(24, 5);
    Pow2Next(24); Pow2Next(25); Pow2Next(26); Pow2Next(27); Pow2Next(28);
  }

  lemma Whole(n: nat)
    requires n <= 17179869184
    ensures Float64(n as real) == n as real
  {
    ManyBits();
    SmallWhole(BINARY64, n);
  }

  lemma Half(n: nat)
    requires n <= 4294967296
    ensures IsNumber(BINARY64, n as real + 0.5) && Scaled(BINARY64, n as real + 0.5, 2 * n + 1, -1)
  {
    ManyBits();
    Powers();
    BelowOverflow64(n as real + 0.5);
    TimesIsProduct(2 * n + 1, Pow2(-1));
    ScaledIsNumber(BINARY64, n as real + 0.5, 2 * n + 1, -1);
  }

  /** Below 2 to the e, rounding moves a number by at most 2 to the e - 54. */
  lemma Error(x: real, e: int)
    requires 0.0 <= x <= 17179869184.0 && x < Pow2(e) && -1022 < e
    ensures Distance(Float64(x), x) <= Pow2(e - 54)
  {
    BelowOverflow64(x);
    ExponentBelow(BINARY64, x, e);
    RoundToUlp(BINARY64, x);
    RoundToNear(x, Ulp(BINARY64, x));
    Pow2Monotone(LastBit(BINARY64, x), e - 53);
    Pow2Next(e - 54);
  }

  lemma Small()
    ensures Pow2(-29) == 1.0 / 536870912.0 && Pow2(-22) == 1.0 / 4194304.0 && Pow2(-28) == 1.0 / 268435456.0
    ensures Pow2(-54) == 1.0 / 1073741824.0 / 16777216.0
    ensures Pow2(-55) == 1.0 / 1073741824.0 / 33554432.0
  {
    Powers();
    Pow2Next(-30);
    Pow2Next(-29);
    Pow2Next(-23);
    Pow2Product(-54, 24);
    Pow2Next(-55);
  }

  // ---- the fraction of a second

  /** What `n` nanoseconds are exactly. */
  ghost function Part(n: int): real {
    n as real / 1000000000.0
  }

  lemma PartBounds(n: nat)
    requires n < NANOS
    ensures 0.0 <= Part(n) < 1.0 && 0.0 <= Float64(Part(n)) <= 1.0
  {
    Powers();
    Whole(0);
    Whole(1);
    Monotone(0.0, Part(n));
    Monotone(Part(n), 1.0);
  }

  lemma FractionOfPart(n: nat)
    requires n < NANOS
    ensures Fraction(n) == Float64(Part(n))
  {
    Whole(n);
  }

  lemma FractionBounds(n: nat)
    requires n < NANOS
    ensures n == 0 ==> Fraction(n) == 0.0
    ensures n >= 500000000 ==> Fraction(n) >= 0.5
  {
    FractionOfPart(n);
    PartBounds(n);
    if n == 0 {
      Whole(0);
    } else if n >= 500000000 {
      Half(0);
      Monotone(0.5, Part(n));
    }
  }

  lemma FractionError(n: nat)
    requires n < NANOS
    ensures Distance(Fraction(n), Part(n)) <= Pow2(-54)
    ensures n < 500000000 ==> Distance(Fraction(n), Part(n)) <= Pow2(-55)
  {
    FractionOfPart(n);
    PartBounds(n);
    Powers();
    Error(Part(n), 0);
    if n < 500000000 {
      Error(Part(n), -1);
    }
  }

  lemma FractionMonotone(m: nat, n: nat)
    requires m <= n < NANOS
    ensures Fraction(m) <= Fraction(n)
  {
    FractionOfPart(m);
    FractionOfPart(n);
    PartBounds(m);
    PartBounds(n);
    Monotone(Part(m), Part(n));
  }

  // ---- the sum

  lemma SumOf(k: nat, n: nat)
    requires n < NANOS && k <= 17179869183
    ensures Sum(k, n) == Float64(k as real + Fraction(n))
  {
    Whole(k);
  }

  lemma SecondsIsSum(v: Duration, k: nat, n: nat)
    requires n < NANOS && v == k * NANOS + n
    ensures k <= 17179869183 && Seconds(v) == Sum(k, n)
  {
    Divide(k, n);
    assert v / NANOS == k && v % NANOS == n;
  }

  lemma Divide(k: int, n: int)
    requires 0 <= n < NANOS
    ensures (k * NANOS + n) / NANOS == k && (k * NANOS + n) % NANOS == n
  {
  }

  /** The conversion by way of its parts. */
  lemma Converted(v: Duration, k: nat, n: nat)
    requires n < NANOS && v == k * NANOS + n && v > 0 && k <= 17179869183 && RoundHalfUp(Sum(k, n)) < UINT32
    ensures DurationToSeconds(v) == var r := RoundHalfUp(Sum(k, n)); if r < 1 then 1 else r
  {
    SecondsIsSum(v, k, n);
    SumBounds(k, n);
    AsUint32(RoundHalfUp(Sum(k, n)));
  }

  lemma AsUint32(n: int)
    requires 0 <= n < UINT32
    ensures ToUint32(n as real) == n
  {
  }

  lemma SumBounds(k: nat, n: nat)
    requires n < NANOS && k <= 17179869183
    ensures k as real <= Sum(k, n) <= k as real + 1.0
    ensures n == 0 ==> Sum(k, n) == k as real
    ensures n >= 500000000 && k <= 4294967296 ==> Sum(k, n) >= k as real + 0.5
  {
    SumOf(k, n);
    FractionBounds(n);
    Whole(k);
    Whole(k + 1);
    Monotone(k as real, k as real + Fraction(n));
    Monotone(k as real + Fraction(n), (k + 1) as real);
    if n >= 500000000 && k <= 4294967296 {
      Half(k);
      Monotone(k as real + 0.5, k as real + Fraction(n));
    }
  }

  lemma SumMonotone(k: nat, m: nat, n: nat)
    requires m <= n < NANOS && k <= 17179869183
    ensures Sum(k, m) <= Sum(k, n)
  {
    FractionMonotone(m, n);
    Whole(k);
    Monotone(Float64(k as real) + Fraction(m), Float64(k as real) + Fraction(n));
  }

  lemma SecondsMonotone(v: Duration, w: Duration)
    requires 0 <= v <= w
    ensures Seconds(v) <= Seconds(w)
  {
    SecondsIsSum(v, v / NANOS, v % NANOS);
    SecondsIsSum(w, w / NANOS, w % NANOS);
    if v / NANOS == w / NANOS {
      SumMonotone(v / NANOS, v % NANOS, w % NANOS);
    } else {
      SumBounds(v / NANOS, v % NANOS);
      SumBounds(w / NANOS, w % NANOS);
    }
  }

  /** Below 2 to the 24 seconds, less than half a second stays so. */
  lemma SumStaysBelowHalf(k: nat, n: nat)
    requires n < 500000000 && k < 16777216
    ensures Sum(k, n) < k as real + 0.5
  {
    SumOf(k, n);
    FractionError(n);
    Small();
    Powers();
    Error(k as real + Fraction(n), 24);
  }

  /** From 2 to the 24 seconds on, one nanosecond less than half a second is taken for half a second. */
  lemma SumReachesHalf(k: nat)
    requires 16777216 <= k <= 4294967295
    ensures Sum(k, 499999999) == k as real + 0.5
  {
    var x := k as real + Fraction(499999999);
    SumOf(k, 499999999);
    FractionError(499999999);
    Small();
    Powers();
    ExponentAbove64(x);
    ReachesHalf(k, x);
  }

  lemma ExponentAbove64(x: real)
    requires 16777216.0 <= x < 4294967296.0
    ensures -28 <= LastBit(BINARY64, x) <= -21
  {
    Powers();
    BelowOverflow64(x);
    ExponentAbove(BINARY64, x, 24);
    ExponentBelow(BINARY64, x, 32);
  }

  lemma ReachesHalf(k: nat, x: real)
    requires 16777216 <= k <= 4294967295 && k as real <= x <= k as real + 0.5
    requires -28 <= LastBit(BINARY64, x) <= -21
    requires 2.0 * Distance(x, k as real + 0.5) < 1.0 / 268435456.0
    ensures Float64(x) == k as real + 0.5
  {
    var t := LastBit(BINARY64, x);
    Half(k);
    BelowOverflow64(x);
    RoundIsNearest(BINARY64, x, k as real + 0.5, 2 * k + 1, -1);
    RoundToUlp(BINARY64, x);
    Small();
    Pow2Monotone(-28, t);
    Finer(2 * k + 1, -1, t);
    Apart(Units(x, Ulp(BINARY64, x)), (2 * k + 1) * IntPow2(-1 - t), Ulp(BINARY64, x));
  }

  /** Multiples less than one unit apart are the same. */
  lemma Apart(m: int, n: int, u: real)
    requires u > 0.0 && Distance(Times(m, u), Times(n, u)) < u
    ensures m == n
  {
    if m < n {
      TimesOrder(m, n, u);
    } else if n < m {
      TimesOrder(n, m, u);
    }
  }

  // ---- the promises

  /** The rounded number of seconds is a uint32. */
  ghost predicate Convertible(v: Duration) {
    v <= 0 || RoundHalfUp(Seconds(v)) < UINT32
  }

  /** Every duration of up to 2 to the 32 less 1 seconds is convertible. */
  lemma ConvertibleRange(v: Duration)
    requires v <= (UINT32 - 1) * NANOS
    ensures Convertible(v)
  {
    if v > 0 {
      SecondsMonotone(v, (UINT32 - 1) * NANOS);
      SecondsIsSum((UINT32 - 1) * NANOS, UINT32 - 1, 0);
      SumBounds(UINT32 - 1, 0);
    }
  }

  lemma ToSecondsAndBack(v: Uint32)
    ensures DurationToSeconds(SecondsToDuration(v)) == v
  {
    if v > 0 {
      SumBounds(v, 0);
      Converted(SecondsToDuration(v), v, 0);
    }
  }

  lemma DurationToSecondsIsMonotone(v: Duration, w: Duration)
    requires v <= w && Convertible(w)
    ensures DurationToSeconds(v) <= DurationToSeconds(w) && (v > 0 ==> DurationToSeconds(v) >= 1)
  {
    if v > 0 {
      SecondsMonotone(v, w);
      SecondsIsSum(v, v / NANOS, v % NANOS);
      SumBounds(v / NANOS, v % NANOS);
      FloorOrder(Seconds(v) + 0.5, Seconds(w) + 0.5);
      AsUint32(RoundHalfUp(Seconds(v)));
      AsUint32(RoundHalfUp(Seconds(w)));
    }
  }

  /** The whole number of seconds nearest to a duration, halves upwards. */
  ghost function NearestSecond(v: Duration): int {
    (v + NANOS / 2) / NANOS
  }

  ghost predicate Nearest(v: Duration)
  {
    DurationToSeconds(v) == if 0 < v < NANOS / 2 then 1 else NearestSecond(v)
  }

  lemma SplitNearest(k: nat, n: nat)
    requires n < NANOS
    ensures (k * NANOS + n + NANOS / 2) / NANOS == if n < 500000000 then k else k + 1
  {
    if n < 500000000 {
      Divide(k, n + 500000000);
    } else {
      Divide(k + 1, n - 500000000);
    }
  }

  /** Which whole number the sum is rounded to decides whether it is the nearest. */
  lemma NearestIff(v: Duration, k: nat, n: nat)
    requires n < NANOS && v == k * NANOS + n && v > 0 && k < UINT32 - 1
    ensures Nearest(v) <==> (n < 500000000 ==> Sum(k, n) < k as real + 0.5)
  {
    SumBounds(k, n);
    SplitNearest(k, n);
    RoundedUp(Sum(k, n), k);
    Converted(v, k, n);
    if k == 0 && n < 500000000 {
      SumStaysBelowHalf(k, n);
    }
    Decide(v, k, n, Sum(k, n) < k as real + 0.5, DurationToSeconds(v));
  }

  lemma Decide(v: Duration, k: nat, n: nat, low: bool, d: int)
    requires n < NANOS && v == k * NANOS + n && v > 0 && (k == 0 && n < 500000000 ==> low)
    requires NearestSecond(v) == if n < 500000000 then k else k + 1
    requires d == if !low then k + 1 else if k == 0 then 1 else k
    requires n >= 500000000 ==> !low
    ensures d == (if 0 < v < NANOS / 2 then 1 else NearestSecond(v)) <==> (n < 500000000 ==> low)
  {
  }

  lemma RoundedUp(x: real, k: nat)
    requires k as real <= x <= k as real + 1.0
    ensures RoundHalfUp(x) == if x < k as real + 0.5 then k else k + 1
  {
  }

  ghost predicate AllNearest(k: Uint32) {
    forall v: Duration | 0 < v && v / NANOS == k :: Nearest(v)
  }

  /**
   * Durations are rounded to the nearest second, as promised, exactly below 2 to the 24 seconds. Beyond, binary64 has
   * no room for the nanoseconds.
   */
  lemma RoundedToNearestIff(k: Uint32)
    requires k < UINT32 - 1
    ensures AllNearest(k) <==> k < 16777216
  {
    if k < 16777216 {
      forall v: Duration | 0 < v && v / NANOS == k
        ensures Nearest(v)
      {
        NearestIff(v, k, v % NANOS);
        if v % NANOS < 500000000 {
          SumStaysBelowHalf(k, v % NANOS);
        }
      }
    } else {
      var v := k * NANOS + 499999999;
      SumReachesHalf(k);
      NearestIff(v, k, 499999999);
      Divide(k, 499999999);
    }
  }

  /** In the whole range, from half a second on, the result is within half a second and 2 to the -20 of the duration. */
  lemma WithinHalfSecond(v: Duration)
    requires 500000000 <= v && Convertible(v)
    ensures Distance(DurationToSeconds(v) as real, Part(v)) <= 0.5 + 1.0 / 1048576.0
  {
    var k, n := v / NANOS, v % NANOS;
    SecondsIsSum(v, k, n);
    Converted(v, k, n);
    SumBounds(k, n);
    SumClose(k, n);
    SplitReal(v, k, n);
  }

  lemma SumClose(k: nat, n: nat)
    requires k < UINT32 && n < NANOS
    ensures Distance(Sum(k, n), k as real + Part(n)) <= 1.0 / 1048576.0
  {
    SumOf(k, n);
    FractionError(n);
    Small();
    Powers();
    Pow2Next(32);
    Pow2Next(-22);
    Error(k as real + Fraction(n), 33);
  }

  lemma SplitReal(v: Duration, k: int, n: int)
    requires v == k * NANOS + n
    ensures Part(v) == k as real + Part(n)
  {
  }
}
