/** Binary floating point: rounding to nearest, ties to even (section 4.3.1 of IEEE 754), of non-negative numbers. */
module Floats {

  /** Precision in bits and the least and greatest exponent. */
  datatype Format = Format(precision: nat, emin: int, emax: int) {
    ghost predicate Valid() { precision >= 2 && emin < 0 && precision <= emax }
  }

  const BINARY32 := Format(24, -126, 127)
  const BINARY64 := Format(53, -1022, 1023)

  function Pow2(e: int): real
    decreases if e < 0 then -e else e
  {
    if e == 0 then 1.0 else if e > 0 then 2.0 * Pow2(e - 1) else Pow2(e + 1) / 2.0
  }

  lemma Pow2Next(e: int)
    ensures Pow2(e + 1) == 2.0 * Pow2(e)
  {
  }

  lemma {:induction false} Pow2Positive(e: int)
    ensures Pow2(e) > 0.0
    decreases if e < 0 then -e else e
  {
    if e > 0 { Pow2Positive(e - 1); } else if e < 0 { Pow2Positive(e + 1); }
  }

  lemma {:induction false} Pow2Monotone(d: int, e: int)
    requires d <= e
    ensures Pow2(d) <= Pow2(e)
    decreases e - d
  {
    if d < e {
      Pow2Next(d);
      Pow2Positive(d);
      Pow2Monotone(d + 1, e);
    }
  }

  // ---- multiples

  /** `n` times `u`, by repeated addition. */
  ghost function Times(n: int, u: real): real
    decreases if n < 0 then -n else n
  {
    if n == 0 then 0.0 else if n > 0 then Times(n - 1, u) + u else Times(n + 1, u) - u
  }

  lemma {:induction false} TimesIsProduct(n: int, u: real)
    ensures Times(n, u) == n as real * u
    decreases if n < 0 then -n else n
  {
    if n > 0 { TimesIsProduct(n - 1, u); } else if n < 0 { TimesIsProduct(n + 1, u); }
  }

  lemma {:induction false} TimesOrder(m: int, n: int, u: real)
    requires m <= n && u > 0.0
    ensures Times(m, u) <= Times(n, u) && (m < n ==> Times(m, u) + u <= Times(n, u))
    decreases n - m
  {
    if m < n {
      TimesOrder(m, n - 1, u);
      assert Times(n, u) == Times(n - 1, u) + u;
    }
  }

  lemma {:induction false} TimesScale(n: nat, u: real, v: real)
    requires u <= v
    ensures Times(n, u) <= Times(n, v)
  {
    if n > 0 { TimesScale(n - 1, u, v); }
  }

  lemma {:induction false} TimesTimes(m: nat, n: int, u: real, v: real)
    requires v == Times(n, u)
    ensures Times(m, v) == Times(m * n, u)
  {
    if m > 0 {
      TimesTimes(m - 1, n, u, v);
      TimesSum((m - 1) * n, n, u);
      assert m * n == (m - 1) * n + n;
    }
  }

  lemma {:induction false} TimesSum(m: int, n: int, u: real)
    ensures Times(m + n, u) == Times(m, u) + Times(n, u)
  {
    TimesIsProduct(m, u);
    TimesIsProduct(n, u);
    TimesIsProduct(m + n, u);
  }

  /** Multiples of one are the whole numbers. */
  lemma {:induction false} TimesOne(n: nat)
    ensures Times(n, 1.0) == n as real
  {
    if n > 0 { TimesOne(n - 1); }
  }

  /** A power with a natural exponent is a whole number. */
  function IntPow2(e: nat): (n: nat)
    ensures n as real == Pow2(e) && n > 0
  {
    if e == 0 then 1 else 2 * IntPow2(e - 1)
  }

  lemma {:induction false} Pow2Sum(d: int, k: nat)
    ensures Pow2(d + k) == Times(IntPow2(k), Pow2(d))
  {
    if k == 0 {
      assert Times(1, Pow2(d)) == Times(0, Pow2(d)) + Pow2(d);
    } else {
      Pow2Sum(d, k - 1);
      Pow2Next(d + k - 1);
      TimesSum(IntPow2(k - 1), IntPow2(k - 1), Pow2(d));
    }
  }

  lemma Pow2Product(d: int, k: nat)
    ensures Pow2(d + k) == IntPow2(k) as real * Pow2(d)
  {
    Pow2Sum(d, k);
    TimesIsProduct(IntPow2(k), Pow2(d));
  }

  /** The powers of two that the conversions meet. */
  lemma Powers()
    ensures Pow2(-1) == 0.5 && Pow2(0) == 1.0 && Pow2(1) == 2.0
    ensures Pow2(8) == 256.0
    ensures IntPow2(24) == 16777216
    ensures Pow2(24) == 16777216.0
    ensures Pow2(31) == 2147483648.0
    ensures Pow2(32) == 4294967296.0
    ensures Pow2(-23) == 1.0 / 8388608.0
    ensures Pow2(-24) == 1.0 / 16777216.0
    ensures Pow2(-30) == 1.0 / 1073741824.0
  {
    assert Pow2(4) == 16.0;
    Pow2Product(4, 4);
    Pow2Product(8, 8);
    Pow2Product(16, 8);
    Pow2Product(24, 4);
    Pow2Product(16, 16);
    Pow2Next(31);
    Pow2Product(-24, 24);
    Pow2Next(-24);
    Pow2Product(-30, 30);
    Pow2Next(29);
    Pow2Next(30);
  }

  // ---- rounding to a whole number, and to a multiple

  function RoundHalfEven(x: real): int {
    var f := x.Floor;
    var d := x - f as real;
    if d < 0.5 || (d == 0.5 && f % 2 == 0) then f else f + 1
  }

  lemma RoundHalfEvenMonotone(x: real, y: real)
    requires x <= y
    ensures RoundHalfEven(x) <= RoundHalfEven(y)
  {
    assert x.Floor <= y.Floor;
  }

  /** The multiple of `u` nearest to `x`. */
  function RoundTo(x: real, u: real): real
    requires u > 0.0
  {
    RoundHalfEven(x / u) as real * u
  }

  /** Which multiple of `u` that is. */
  ghost function Units(x: real, u: real): (n: int)
    requires u > 0.0
    ensures RoundTo(x, u) == Times(n, u)
  {
    TimesIsProduct(RoundHalfEven(x / u), u);
    RoundHalfEven(x / u)
  }

  lemma ScaleOrder(x: real, y: real, u: real)
    requires u > 0.0 && x <= y
    ensures x / u <= y / u
  {
    PositiveFactor(y / u - x / u, u);
  }

  lemma PositiveFactor(d: real, u: real)
    requires u > 0.0
    ensures d * u >= 0.0 ==> d >= 0.0
  {
  }

  lemma RoundToMonotone(x: real, y: real, u: real)
    requires x <= y && u > 0.0
    ensures RoundTo(x, u) <= RoundTo(y, u)
  {
    ScaleOrder(x, y, u);
    RoundHalfEvenMonotone(x / u, y / u);
    TimesOrder(Units(x, u), Units(y, u), u);
  }

  lemma RoundToMultiple(n: int, u: real)
    requires u > 0.0
    ensures RoundTo(Times(n, u), u) == Times(n, u) && Units(Times(n, u), u) == n
  {
    TimesIsProduct(n, u);
    Quotient(Times(n, u), n as real, u);
  }

  lemma Quotient(x: real, q: real, u: real)
    requires u > 0.0 && x == q * u
    ensures x / u == q
  {
  }

  lemma RoundToNear(x: real, u: real)
    requires u > 0.0
    ensures x - u / 2.0 <= RoundTo(x, u) <= x + u / 2.0
  {
    Between(RoundHalfEven(x / u) as real, x / u, u, x);
  }

  lemma Between(r: real, q: real, u: real, x: real)
    requires q - 0.5 <= r <= q + 0.5 && u > 0.0 && q * u == x
    ensures x - u / 2.0 <= r * u <= x + u / 2.0
  {
    MulOrder(r, q + 0.5, u);
    MulOrder(q - 0.5, r, u);
  }

  lemma MulOrder(x: real, y: real, u: real)
    requires x <= y && u >= 0.0
    ensures x * u <= y * u
  {
  }

  ghost function Distance(x: real, y: real): real {
    if x <= y then y - x else x - y
  }

  /** Half-way between two multiples, the even one is taken. */
  lemma TiesGoToEven(n: nat, u: real, x: real)
    requires u > 0.0 && x - Times(n, u) == Times(n + 1, u) - x
    ensures RoundTo(x, u) == Times(if n % 2 == 0 then n else n + 1, u)
  {
    TimesIsProduct(n, u);
    HalfWay(n as real, u);
    assert x == Times(n, u) + u / 2.0 == (n as real + 0.5) * u;
    Quotient(x, n as real + 0.5, u);
    assert Units(x, u) == if n % 2 == 0 then n else n + 1;
  }

  lemma HalfWay(x: real, u: real)
    ensures (x + 0.5) * u == x * u + u / 2.0
  {
  }

  lemma NearestMultiple(x: real, n: int, u: real)
    requires u > 0.0
    ensures Distance(RoundTo(x, u), x) <= Distance(Times(n, u), x)
  {
    RoundToNear(x, u);
    RoundToMultiple(n, u);
    if x <= Times(n, u) {
      RoundToMonotone(x, Times(n, u), u);
    } else {
      RoundToMonotone(Times(n, u), x, u);
    }
    var m := Units(x, u);
    if m < n {
      TimesOrder(m, n, u);
    } else {
      TimesOrder(n, m, u);
    }
  }

  // ---- rounding to a format

  /** The exponent of `x`, searched from `e` downwards. */
  function ExponentFrom(f: Format, x: real, e: int): (r: int)
    requires f.emin <= e
    ensures f.emin <= r <= e
    decreases e - f.emin
  {
    if e == f.emin || Pow2(e) <= x then e else ExponentFrom(f, x, e - 1)
  }

  function Exponent(f: Format, x: real): int
    requires f.Valid()
  {
    ExponentFrom(f, x, f.emax)
  }

  /** The exponent of the last bit. */
  function LastBit(f: Format, x: real): int
    requires f.Valid()
  {
    Exponent(f, x) - f.precision + 1
  }

  /** The distance between neighbouring numbers of the format around `x`. */
  function Ulp(f: Format, x: real): (u: real)
    requires f.Valid()
    ensures u > 0.0
  {
    Pow2Positive(LastBit(f, x));
    Pow2(LastBit(f, x))
  }

  function RoundFrom(f: Format, x: real, e: int): real
    requires f.emin <= e
    decreases e - f.emin
  {
    Pow2Positive(e - f.precision + 1);
    if e == f.emin || Pow2(e) <= x then RoundTo(x, Pow2(e - f.precision + 1)) else RoundFrom(f, x, e - 1)
  }

  /** The number of the format nearest to `x`, which must be below overflow. */
  function Round(f: Format, x: real): real
    requires f.Valid() && 0.0 <= x
  {
    RoundFrom(f, x, f.emax)
  }

  lemma {:induction false} RoundFromExponent(f: Format, x: real, e: int)
    requires f.emin <= e
    ensures var d := ExponentFrom(f, x, e) - f.precision + 1; Pow2(d) > 0.0 && RoundFrom(f, x, e) == RoundTo(x, Pow2(d))
    decreases e - f.emin
  {
    Pow2Positive(ExponentFrom(f, x, e) - f.precision + 1);
    if e != f.emin && !(Pow2(e) <= x) {
      RoundFromExponent(f, x, e - 1);
    }
  }

  /** Rounding to the format is rounding to a multiple of the ulp. */
  lemma RoundToUlp(f: Format, x: real)
    requires f.Valid() && 0.0 <= x
    ensures Round(f, x) == RoundTo(x, Ulp(f, x))
  {
    RoundFromExponent(f, x, f.emax);
  }

  ghost predicate IsNumber(f: Format, x: real)
    requires f.Valid()
  {
    0.0 <= x && Round(f, x) == x
  }

  lemma {:induction false} ExponentFromBounds(f: Format, x: real, e: int)
    requires f.emin <= e && x < Pow2(e + 1)
    ensures var r := ExponentFrom(f, x, e); x < Pow2(r + 1) && (r == f.emin || Pow2(r) <= x)
    decreases e - f.emin
  {
    if e != f.emin && !(Pow2(e) <= x) {
      ExponentFromBounds(f, x, e - 1);
    }
  }

  lemma ExponentBounds(f: Format, x: real)
    requires f.Valid() && x < Pow2(f.emax)
    ensures var e := Exponent(f, x); f.emin <= e <= f.emax && x < Pow2(e + 1) && (e == f.emin || Pow2(e) <= x)
  {
    Pow2Monotone(f.emax, f.emax + 1);
    ExponentFromBounds(f, x, f.emax);
  }

  /** Below a power of two, the exponent is lower. */
  lemma ExponentBelow(f: Format, x: real, e: int)
    requires f.Valid() && x < Pow2(f.emax) && x < Pow2(e)
    ensures Exponent(f, x) < e || Exponent(f, x) == f.emin
  {
    ExponentBounds(f, x);
    if e <= Exponent(f, x) {
      Pow2Monotone(e, Exponent(f, x));
    }
  }

  lemma ExponentAbove(f: Format, x: real, e: int)
    requires f.Valid() && x < Pow2(f.emax) && Pow2(e) <= x
    ensures e <= Exponent(f, x)
  {
    ExponentBounds(f, x);
    if Exponent(f, x) < e {
      Pow2Monotone(Exponent(f, x) + 1, e);
    }
  }

  lemma ExponentMonotone(f: Format, x: real, y: real)
    requires f.Valid() && x <= y < Pow2(f.emax)
    ensures Exponent(f, x) <= Exponent(f, y)
  {
    ExponentBounds(f, x);
    if Pow2(Exponent(f, x)) <= x {
      ExponentAbove(f, y, Exponent(f, x));
    } else {
      ExponentBounds(f, y);
    }
  }

  /** With exponent e, the result lies between Pow2(e) and Pow2(e + 1), as x does. */
  lemma RoundBinade(f: Format, x: real)
    requires f.Valid() && 0.0 <= x < Pow2(f.emax)
    ensures Round(f, x) <= Pow2(Exponent(f, x) + 1)
    ensures Pow2(Exponent(f, x)) <= x ==> Pow2(Exponent(f, x)) <= Round(f, x)
  {
    RoundToUlp(f, x);
    var u := Ulp(f, x);
    ExponentBounds(f, x);
    RoundToMultiple(IntPow2(f.precision), u);
    Pow2Sum(LastBit(f, x), f.precision);
    RoundToMonotone(x, Pow2(Exponent(f, x) + 1), u);
    if Pow2(Exponent(f, x)) <= x {
      RoundToMultiple(IntPow2(f.precision - 1), u);
      Pow2Sum(LastBit(f, x), f.precision - 1);
      RoundToMonotone(Pow2(Exponent(f, x)), x, u);
    }
  }

  lemma RoundMonotone(f: Format, x: real, y: real)
    requires f.Valid() && 0.0 <= x <= y < Pow2(f.emax)
    ensures Round(f, x) <= Round(f, y)
  {
    RoundToUlp(f, x);
    RoundToUlp(f, y);
    var d, e := Exponent(f, x), Exponent(f, y);
    ExponentMonotone(f, x, y);
    if d == e {
      RoundToMonotone(x, y, Ulp(f, x));
    } else {
      RoundBinade(f, x);
      RoundBinade(f, y);
      ExponentBounds(f, y);
      Pow2Monotone(d + 1, e);
    }
  }

  /** The error is at most half the distance between neighbours: a relative error of at most Pow2(-precision). */
  lemma RoundError(f: Format, x: real)
    requires f.Valid() && 0.0 <= x && Pow2(f.emin) <= x < Pow2(f.emax)
    ensures Times(IntPow2(f.precision), Distance(Round(f, x), x)) <= x
  {
    RoundToUlp(f, x);
    var e := Exponent(f, x);
    ExponentBounds(f, x);
    RoundToNear(x, Ulp(f, x));
    Pow2Next(e - f.precision);
    TimesScale(IntPow2(f.precision), Distance(Round(f, x), x), Pow2(e - f.precision));
    Pow2Sum(e - f.precision, f.precision);
  }

  // ---- the numbers of a format

  /** `x` is `n` times a power of two, with `n` of at most `precision` bits and the power not too small. */
  ghost predicate Scaled(f: Format, x: real, n: nat, t: int)
    requires f.Valid()
  {
    n <= IntPow2(f.precision) && f.emin - f.precision + 1 <= t && x == Times(n, Pow2(t))
  }

  /** A multiple of a power of two is one of every lower power. */
  lemma Finer(n: nat, t: int, d: int)
    requires d <= t
    ensures Times(n, Pow2(t)) == Times(n * IntPow2(t - d), Pow2(d))
  {
    Pow2Sum(d, t - d);
    TimesTimes(n, IntPow2(t - d), Pow2(d), Pow2(t));
  }

  lemma ScaledBelow(f: Format, x: real, n: nat, t: int)
    requires f.Valid() && Scaled(f, x, n, t) && 0.0 <= x < Pow2(f.precision + t) && x < Pow2(f.emax)
    ensures IsNumber(f, x)
  {
    RoundToUlp(f, x);
    ExponentBelow(f, x, f.precision + t);
    Finer(n, t, LastBit(f, x));
    RoundToMultiple(n * IntPow2(t - LastBit(f, x)), Ulp(f, x));
  }

  /** Rounding changes no number of the format. */
  lemma ScaledIsNumber(f: Format, x: real, n: nat, t: int)
    requires f.Valid() && Scaled(f, x, n, t) && x < Pow2(f.emax)
    ensures IsNumber(f, x)
  {
    Pow2Positive(t);
    Pow2Sum(t, f.precision);
    TimesOrder(0, n, Pow2(t));
    if n < IntPow2(f.precision) {
      TimesOrder(n, IntPow2(f.precision), Pow2(t));
      ScaledBelow(f, x, n, t);
    } else {
      Pow2Sum(t + 1, f.precision - 1);
      Pow2Positive(f.precision + t);
      ScaledBelow(f, x, IntPow2(f.precision - 1), t + 1);
    }
  }

  /** The result of rounding is a number of the format. */
  lemma RoundedIsScaled(f: Format, x: real)
    requires f.Valid() && 0.0 <= x < Pow2(f.emax)
    ensures Units(x, Ulp(f, x)) >= 0
    ensures Scaled(f, Round(f, x), Units(x, Ulp(f, x)), LastBit(f, x))
  {
    RoundToUlp(f, x);
    var n, u := Units(x, Ulp(f, x)), Ulp(f, x);
    ExponentBounds(f, x);
    RoundToMultiple(0, u);
    RoundToMonotone(0.0, x, u);
    RoundBinade(f, x);
    Pow2Sum(LastBit(f, x), f.precision);
    if n < 0 {
      TimesOrder(n, 0, u);
    } else if IntPow2(f.precision) < n {
      TimesOrder(IntPow2(f.precision), n, u);
    }
  }

  /** A number is one that rounding keeps. */
  lemma NumbersAreScaled(f: Format, x: real)
    requires f.Valid() && x < Pow2(f.emax)
    ensures IsNumber(f, x) <==> exists n: nat, t: int :: Scaled(f, x, n, t)
  {
    if IsNumber(f, x) {
      RoundedIsScaled(f, x);
    }
    if n: nat, t: int :| Scaled(f, x, n, t) {
      ScaledIsNumber(f, x, n, t);
    }
  }

  /** No number of the format is nearer to `x` than its rounding. */
  lemma RoundIsNearest(f: Format, x: real, y: real, n: nat, t: int)
    requires f.Valid() && 0.0 <= x < Pow2(f.emax) && Scaled(f, y, n, t)
    ensures Distance(Round(f, x), x) <= Distance(y, x)
  {
    RoundToUlp(f, x);
    var d := LastBit(f, x);
    ExponentBounds(f, x);
    if d <= t {
      Finer(n, t, d);
      NearestMultiple(x, n * IntPow2(t - d), Ulp(f, x));
    } else {
      Pow2Sum(t, f.precision);
      Pow2Positive(t);
      TimesOrder(n, IntPow2(f.precision), Pow2(t));
      Pow2Monotone(t + f.precision, Exponent(f, x));
      Pow2Sum(d, f.precision - 1);
      NearestMultiple(x, IntPow2(f.precision - 1), Ulp(f, x));
    }
  }

  /** Whole numbers with no more bits than the precision are numbers of the format. */
  lemma SmallWhole(f: Format, n: nat)
    requires f.Valid() && n <= IntPow2(f.precision) && f.precision < f.emax
    ensures IsNumber(f, n as real)
  {
    Pow2Monotone(f.precision + 1, f.emax);
    Pow2Next(f.precision);
    TimesOne(n);
    ScaledIsNumber(f, n as real, n, 0);
  }

  /** A whole number is rounded to a whole number. */
  lemma RoundOfWhole(f: Format, n: nat)
    requires f.Valid() && n as real < Pow2(f.emax) && f.precision < f.emax
    ensures Round(f, n as real) == Round(f, n as real).Floor as real
  {
    var x := n as real;
    if n <= IntPow2(f.precision) {
      SmallWhole(f, n);
    } else {
      ExponentAbove(f, x, f.precision);
      RoundedIsScaled(f, x);
      Finer(Units(x, Ulp(f, x)), LastBit(f, x), 0);
      TimesOne(Units(x, Ulp(f, x)) * IntPow2(LastBit(f, x)));
    }
  }
}
