/** The jitterer of DNS TTLs (ttl.go), which computes in binary32. */
module Jitter {
  import opened Wrappers
  import opened Floats

  const UINT32 := 0x1_0000_0000

  type Uint32 = x: int | 0 <= x < UINT32

  function Float32(x: real): real
    requires 0.0 <= x
  {
    Round(BINARY32, x)
  }

  ghost predicate IsFloat32(x: real) {
    IsNumber(BINARY32, x)
  }

  /** Conversion to uint32 cuts off the fraction. Outside the range of uint32 Go leaves the result open: here, the
      low 32 bits. */
  function ToUint32(x: real): Uint32 {
    x.Floor % UINT32
  }

  datatype TTLJitterer = TTLJitterer(base: Uint32, choose: Uint32) {
    /** The lowest and the highest TTL. */
    function Range(): (Uint32, Uint32) {
      if choose == 0 then (base, base) else (base, (base + choose - 1) % UINT32)
    }

    /** `draw` is the random number below `choose`; none is asked for when `choose` is zero. */
    function TTL(draw: Uint32): Uint32
      requires choose == 0 || draw < choose
    {
      if choose == 0 then base else (base + draw) % UINT32
    }
  }

  function Product32(a: real, v: real): real
    requires 0.0 <= a && 0.0 <= v
  {
    NonNegative(a, v);
    Float32(a * v)
  }

  /** One of the two ends, as computed: the factor, the value and their product are each rounded. */
  function End(factor: real, value: Uint32): real
    requires 0.0 <= factor
  {
    Float32Positive(factor);
    Float32Positive(value as real);
    Product32(Float32(factor), Float32(value as real))
  }

  function NewTTLJitterer(value: Uint32, percent: real): Result<TTLJitterer, real> {
    if percent < 0.0 || percent >= 1.0 then
      Err(percent)
    else if percent == 0.0 || value == 0 then
      Ok(TTLJitterer(value, 0))
    else
      Ok(FromTo(ToUint32(End(1.0 - percent, value)), ToUint32(End(1.0 + percent, value))))
  }

  function FromTo(base: Uint32, max: Uint32): TTLJitterer {
    TTLJitterer(base, ((max - base) % UINT32 + 1) % UINT32)
  }

  // ---- numbers of binary32

  lemma Float32Positive(x: real)
    requires 0.0 <= x
    ensures 0.0 <= Float32(x)
  {
    RoundToUlp(BINARY32, x);
    RoundToMultiple(0, Ulp(BINARY32, x));
    RoundToMonotone(0.0, x, Ulp(BINARY32, x));
  }

  lemma NonNegative(x: real, y: real)
    requires 0.0 <= x && 0.0 <= y
    ensures 0.0 <= x * y
  {
  }

  /** All numbers met here are far from overflow. */
  lemma BelowOverflow(x: real)
    requires x <= 8589934592.0
    ensures x < Pow2(BINARY32.emax)
  {
    Powers();
    Pow2Next(32);
    Pow2Next(33);
    Pow2Monotone(34, 127);
  }

  lemma AboveUnderflow(x: real)
    requires 1.0 / 33554432.0 <= x
    ensures Pow2(BINARY32.emin) <= x
  {
    Powers();
    Pow2Next(-25);
    Pow2Monotone(-126, -25);
  }

  lemma Float32Monotone(x: real, y: real)
    requires 0.0 <= x <= y <= 8589934592.0
    ensures Float32(x) <= Float32(y)
  {
    BelowOverflow(y);
    RoundMonotone(BINARY32, x, y);
  }

  lemma Float32OfSmall(n: nat)
    requires n <= 16777216
    ensures IsFloat32(n as real)
  {
    Powers();
    SmallWhole(BINARY32, n);
  }

  lemma Float32Twice(x: real)
    requires 0.0 <= x <= 8589934592.0 && Float32(x) <= 8589934592.0
    ensures IsFloat32(Float32(x))
  {
    BelowOverflow(x);
    BelowOverflow(Float32(x));
    RoundedIsScaled(BINARY32, x);
    NumbersAreScaled(BINARY32, Float32(x));
  }

  /** A number with exponent e is a multiple of 2 to the e - 23. */
  lemma Grid(x: real, e: int, u: real) returns (n: int)
    requires IsFloat32(x) && Pow2(e) <= x < Pow2(e + 1) && x <= 8589934592.0 && -126 <= e && u == Pow2(e - 23)
    ensures x == n as real * u
  {
    RoundToUlp(BINARY32, x);
    BelowOverflow(x);
    ExponentBelow(BINARY32, x, e + 1);
    ExponentAbove(BINARY32, x, e);
    n := Units(x, u);
    TimesIsProduct(n, u);
  }

  /** A percent below 1 is so by 2 to the -24. */
  lemma BelowOne(x: real)
    requires IsFloat32(x) && x < 1.0
    ensures x <= 1.0 - 1.0 / 16777216.0
  {
    if x >= 0.5 {
      Powers();
      var n := Grid(x, -1, 1.0 / 16777216.0);
    }
  }

  lemma AboveOne(x: real)
    requires IsFloat32(x) && 1.0 < x
    ensures x >= 1.0 + 1.0 / 8388608.0
  {
    if x < 2.0 {
      Powers();
      var n := Grid(x, 0, 1.0 / 8388608.0);
    }
  }

  /** The greatest number below 2 to the 32. */
  lemma BelowLimit(x: real)
    requires IsFloat32(x) && x < UINT32 as real
    ensures x <= 4294967040.0
  {
    if x >= 2147483648.0 {
      Powers();
      var n := Grid(x, 31, 256.0);
      assert n <= 16777215;
    }
  }

  lemma TwiceLimit()
    ensures IsFloat32(4294967296.0) && IsFloat32(8589934592.0)
  {
    Powers();
    Pow2Next(32);
    BelowOverflow(8589934592.0);
    assert Times(1, Pow2(32)) == Times(0, Pow2(32)) + Pow2(32);
    assert Times(1, Pow2(33)) == Times(0, Pow2(33)) + Pow2(33);
    ScaledIsNumber(BINARY32, 4294967296.0, 1, 32);
    ScaledIsNumber(BINARY32, 8589934592.0, 1, 33);
  }

  /** The rounded value is a whole number, from 1 to 2 to the 32. */
  lemma RoundedValue(value: Uint32)
    requires value > 0
    ensures var v := Float32(value as real);
      && v == v.Floor as real && 1.0 <= v <= 4294967296.0 && IsFloat32(v)
      && (value <= 16777216 ==> v == value as real)
  {
    BelowOverflow(value as real);
    RoundOfWhole(BINARY32, value);
    Float32OfSmall(1);
    Float32Monotone(1.0, value as real);
    TwiceLimit();
    Float32Monotone(value as real, 4294967296.0);
    Float32Twice(value as real);
    if value <= 16777216 {
      Float32OfSmall(value);
    }
  }

  // ---- relative errors

  /** `y` is `x` up to a relative error of 2 to the -24. */
  ghost predicate Near(y: real, x: real) {
    16777216.0 * Distance(y, x) <= x
  }

  lemma Float32Near(x: real)
    requires 1.0 / 33554432.0 <= x <= 8589934592.0
    ensures Near(Float32(x), x)
  {
    BelowOverflow(x);
    AboveUnderflow(x);
    RoundError(BINARY32, x);
    Powers();
    TimesIsProduct(16777216, Distance(Round(BINARY32, x), x));
  }

  lemma NearBounds(y: real, x: real)
    requires Near(y, x)
    ensures x * (16777215.0 / 16777216.0) <= y <= x * (16777217.0 / 16777216.0)
  {
  }

  lemma MulBoth(a: real, b: real, c: real, d: real)
    requires 0.0 <= a <= b && 0.0 <= c <= d
    ensures a * c <= b * d
  {
    MulOrder(a, b, c);
    MulOrder(c, d, b);
  }

  /** Three roundings come to an error of less than 2 to the -22. */
  lemma ThreeRoundings(a: real, v: real, a': real, v': real, z: real)
    requires 0.0 < a && 0.0 < v && Near(a', a) && Near(v', v) && Near(z, a' * v')
    ensures Distance(z, a * v) <= a * v / 4194304.0
  {
    var lo, hi := 16777215.0 / 16777216.0, 16777217.0 / 16777216.0;
    NearBounds(a', a);
    NearBounds(v', v);
    MulBoth(a * lo, a', v * lo, v');
    MulBoth(a', a * hi, v', v * hi);
    Factors(a, v, lo);
    Factors(a, v, hi);
    NonNegative(a, v);
    Cubes(a * v, a' * v', z);
  }

  lemma Cubes(m: real, w: real, z: real)
    requires 0.0 <= m && Near(z, w)
    requires m * (16777215.0 / 16777216.0 * (16777215.0 / 16777216.0)) <= w
    requires w <= m * (16777217.0 / 16777216.0 * (16777217.0 / 16777216.0))
    ensures Distance(z, m) <= m / 4194304.0
  {
  }

  lemma Factors(a: real, v: real, k: real)
    ensures (a * k) * (v * k) == (a * v) * (k * k)
  {
  }

  lemma Product32Near(a: real, v: real)
    requires 1.0 / 33554432.0 <= a <= 2.0 && 1.0 <= v <= 4294967296.0
    ensures Near(Product32(a, v), a * v)
  {
    MulBoth(1.0 / 33554432.0, a, 1.0, v);
    MulBoth(a, 2.0, v, 4294967296.0);
    Float32Near(a * v);
  }

  lemma ThreeRoundingsTimes(a: real, n: nat, a': real, v': real, z: real)
    requires 0.0 < a && 0 < n && Near(a', a) && Near(v', n as real) && Near(z, a' * v')
    ensures Distance(z, Times(n, a)) <= Times(n, a) / 4194304.0
  {
    TimesIsProduct(n, a);
    ThreeRoundings(a, n as real, a', v', z);
  }

  lemma ProductNear(factor: real, value: nat, a: real, v: real)
    requires 1.0 / 33554432.0 <= a <= 2.0 && 1.0 <= v <= 4294967296.0 && 0.0 < factor && 0 < value
    requires Near(a, factor) && Near(v, value as real)
    ensures Distance(Product32(a, v), Times(value, factor)) <= Times(value, factor) / 4194304.0
  {
    Product32Near(a, v);
    ThreeRoundingsTimes(factor, value, a, v, Product32(a, v));
  }

  lemma EndNear(factor: real, value: Uint32)
    requires 1.0 / 16777216.0 <= factor <= 2.0 && value > 0
    ensures Distance(End(factor, value), Times(value, factor)) <= Times(value, factor) / 4194304.0
  {
    var a, v := Float32(factor), Float32(value as real);
    RoundedValue(value);
    Float32Near(factor);
    Float32OfSmall(2);
    Float32Monotone(factor, 2.0);
    Float32Near(value as real);
    NearBounds(a, factor);
    ProductNear(factor, value, a, v);
  }

  // ---- the promises

  /** The product at the upper end can be converted. */
  ghost predicate Fits(value: Uint32, percent: real)
    requires 0.0 < percent < 1.0
  {
    End(1.0 + percent, value) < UINT32 as real
  }

  lemma Product32Below(a: real, v: real)
    requires 0.0 <= a <= 1.0 && 0.0 <= v <= 4294967296.0 && IsFloat32(v)
    ensures 0.0 <= Product32(a, v) <= v
  {
    ProductBelow(a, v);
    Float32Monotone(a * v, v);
    Float32Positive(a * v);
  }

  lemma ProductBelow(a: real, v: real)
    requires 0.0 <= a <= 1.0 && 0.0 <= v
    ensures 0.0 <= a * v <= v
  {
    MulOrder(a, 1.0, v);
    NonNegative(a, v);
  }

  lemma Product32Above(a: real, v: real)
    requires 1.0 <= a <= 2.0 && 0.0 <= v <= 4294967296.0 && IsFloat32(v)
    ensures v <= Product32(a, v) && IsFloat32(Product32(a, v))
  {
    ProductAbove(a, v);
    Float32Above(v, a * v);
  }

  lemma ProductAbove(a: real, v: real)
    requires 1.0 <= a <= 2.0 && 0.0 <= v <= 4294967296.0
    ensures v <= a * v <= 8589934592.0
  {
    MulOrder(1.0, a, v);
    MulOrder(a, 2.0, v);
    assert v == 1.0 * v <= a * v <= 2.0 * v <= 8589934592.0;
  }

  lemma Float32Above(v: real, w: real)
    requires 0.0 <= v <= w <= 8589934592.0 && IsFloat32(v)
    ensures v <= Float32(w) && IsFloat32(Float32(w))
  {
    Float32Monotone(v, w);
    TwiceLimit();
    Float32Monotone(w, 8589934592.0);
    Float32Twice(w);
  }

  lemma LowerEnd(value: Uint32, percent: real)
    requires value > 0 && 0.0 < percent < 1.0
    ensures 0.0 <= End(1.0 - percent, value) <= Float32(value as real)
  {
    RoundedValue(value);
    Float32OfSmall(1);
    Float32Monotone(1.0 - percent, 1.0);
    Float32Positive(1.0 - percent);
    Product32Below(Float32(1.0 - percent), Float32(value as real));
  }

  lemma UpperEnd(value: Uint32, percent: real)
    requires value > 0 && 0.0 < percent < 1.0
    ensures Float32(value as real) <= End(1.0 + percent, value) && IsFloat32(End(1.0 + percent, value))
  {
    RoundedValue(value);
    Float32OfSmall(1);
    Float32OfSmall(2);
    Float32Monotone(1.0, 1.0 + percent);
    Float32Monotone(1.0 + percent, 2.0);
    Product32Above(Float32(1.0 + percent), Float32(value as real));
  }

  lemma FromToKeeps(low: real, high: real, v: real)
    requires 0.0 <= low <= v <= high <= 4294967040.0 && v == v.Floor as real
    ensures var j := FromTo(ToUint32(low), ToUint32(high));
      && j.Range() == (low.Floor, high.Floor)
      && j.choose == high.Floor - low.Floor + 1
      && low.Floor as real <= v <= high.Floor as real
  {
    CutOff(low);
    CutOff(high);
    FloorOrder(low, v);
    FloorOrder(v, high);
    Unwrapped(low.Floor, high.Floor);
  }

  lemma CutOff(x: real)
    requires 0.0 <= x < UINT32 as real
    ensures ToUint32(x) == x.Floor
  {
  }

  lemma FloorOrder(x: real, y: real)
    requires x <= y
    ensures x.Floor <= y.Floor
  {
  }

  lemma Unwrapped(lo: Uint32, hi: Uint32)
    requires lo <= hi < UINT32 - 1
    ensures FromTo(lo, hi) == TTLJitterer(lo, hi - lo + 1) && FromTo(lo, hi).Range() == (lo, hi)
  {
  }

  /** No wrap-around: the range is the two ends with the fractions cut off, and it holds the rounded value. */
  lemma RangeIsEnds(value: Uint32, percent: real)
    requires value > 0 && 0.0 < percent < 1.0 && Fits(value, percent)
    ensures NewTTLJitterer(value, percent).Ok?
    ensures
      var j := NewTTLJitterer(value, percent).value;
      var (lo, hi) := j.Range();
      && lo == End(1.0 - percent, value).Floor
      && hi == End(1.0 + percent, value).Floor
      && j.choose == hi - lo + 1
      && lo as real <= Float32(value as real) <= hi as real
      && (value <= 16777216 ==> lo <= value <= hi)
  {
    RoundedValue(value);
    LowerEnd(value, percent);
    UpperEnd(value, percent);
    BelowLimit(End(1.0 + percent, value));
    FromToKeeps(End(1.0 - percent, value), End(1.0 + percent, value), Float32(value as real));
  }

  lemma FloorNear(z: real, m: real)
    requires Distance(z, m) <= m / 4194304.0
    ensures Distance(z.Floor as real, m) <= 1.0 + m / 4194304.0
  {
  }

  /** Each end is the exact product, up to the cut-off fraction and a relative error of 2 to the -22. */
  lemma RangeIsClose(value: Uint32, percent: real)
    requires value > 0 && 0.0 < percent < 1.0 && IsFloat32(percent) && Fits(value, percent)
    ensures NewTTLJitterer(value, percent).Ok?
    ensures
      var (lo, hi) := NewTTLJitterer(value, percent).value.Range();
      var (low, high) := (Times(value, 1.0 - percent), Times(value, 1.0 + percent));
      && Distance(lo as real, low) <= 1.0 + low / 4194304.0
      && Distance(hi as real, high) <= 1.0 + high / 4194304.0
  {
    RangeIsEnds(value, percent);
    BelowOne(percent);
    EndNear(1.0 - percent, value);
    EndNear(1.0 + percent, value);
    FloorNear(End(1.0 - percent, value), Times(value, 1.0 - percent));
    FloorNear(End(1.0 + percent, value), Times(value, 1.0 + percent));
  }

  lemma HalvesHeld()
    ensures IsFloat32(0.5) && IsFloat32(1.5)
  {
    Powers();
    assert Times(1, Pow2(-1)) == Times(0, Pow2(-1)) + Pow2(-1);
    assert Times(3, Pow2(-1)) == Times(2, Pow2(-1)) + Pow2(-1);
    BelowOverflow(2.0);
    ScaledIsNumber(BINARY32, 0.5, 1, -1);
    ScaledIsNumber(BINARY32, 1.5, 3, -1);
  }

  lemma EndsOfOne()
    ensures End(0.5, 1) == 0.5 && End(1.5, 1) == 1.5
  {
    HalvesHeld();
    Float32OfSmall(1);
  }

  /** Cutting off the fraction may take the lower end below the exact product: 1 and a half give the range 0 to 1. */
  lemma HalfOfOne()
    ensures IsFloat32(0.5) && NewTTLJitterer(1, 0.5) == Ok(TTLJitterer(0, 2)) && Times(1, 1.0 - 0.5) == 0.5
  {
    HalvesHeld();
    EndsOfOne();
    CutOff(End(0.5, 1));
    CutOff(End(1.5, 1));
    HalfFloors();
    assert 1.0 - 0.5 == 0.5 && 1.0 + 0.5 == 1.5;
    Unwrapped(0, 1);
    OneTime(0.5);
  }

  lemma HalfFloors()
    ensures (0.5).Floor == 0 && (1.5).Floor == 1
  {
  }

  lemma OneTime(u: real)
    ensures Times(1, u) == u
  {
    assert Times(1, u) == Times(0, u) + u;
  }

  /** Between 2 to the 23 and 2 to the 24 rounding is to whole numbers, of two equally near ones to the even one. */
  lemma ToWholeNumbers(x: real)
    requires 8388608.0 <= x < 16777216.0
    ensures Float32(x) == RoundHalfEven(x) as real
  {
    Powers();
    Pow2Sum(23, 1);
    BelowOverflow(x);
    ExponentBelow(BINARY32, x, 24);
    ExponentAbove(BINARY32, x, 23);
    RoundToUlp(BINARY32, x);
  }

  lemma AroundOne()
    ensures Float32(1.0 - 1.0 / 8388608.0) == 1.0 - 1.0 / 8388608.0
    ensures Float32(1.0 + 1.0 / 8388608.0) == 1.0 + 1.0 / 8388608.0
  {
    Powers();
    BelowOverflow(2.0);
    TimesIsProduct(16777214, Pow2(-24));
    TimesIsProduct(8388609, Pow2(-23));
    ScaledIsNumber(BINARY32, 1.0 - 1.0 / 8388608.0, 16777214, -24);
    ScaledIsNumber(BINARY32, 1.0 + 1.0 / 8388608.0, 8388609, -23);
  }

  /** Rounding the product may take the upper end above the exact one, here 12582913.5. */
  lemma UpperEndExceeds()
    ensures NewTTLJitterer(12582912, 1.0 / 8388608.0) == Ok(TTLJitterer(12582910, 5))
  {
    var percent, value := 1.0 / 8388608.0, 12582912;
    AroundOne();
    Float32OfSmall(value);
    ToWholeNumbers(12582910.5);
    ToWholeNumbers(12582913.5);
    assert End(1.0 - percent, value) == 12582910.0 && End(1.0 + percent, value) == 12582914.0;
    EndsToRange(value, percent, 12582910, 12582914);
  }

  lemma EndsToRange(value: Uint32, percent: real, lo: Uint32, hi: Uint32)
    requires value > 0 && 0.0 < percent < 1.0 && lo <= hi < UINT32 - 1
    requires End(1.0 - percent, value) == lo as real && End(1.0 + percent, value) == hi as real
    ensures NewTTLJitterer(value, percent) == Ok(TTLJitterer(lo, hi - lo + 1))
  {
    CutOff(lo as real);
    CutOff(hi as real);
    Unwrapped(lo, hi);
  }

  lemma SlightlyBelowOne()
    ensures Float32(1.0 - 5.0 / 134217728.0) == 1.0 - 1.0 / 16777216.0
  {
    var below := 1.0 - 5.0 / 134217728.0;
    Powers();
    BelowOverflow(below);
    ExponentBelow(BINARY32, below, 0);
    ExponentAbove(BINARY32, below, -1);
    RoundToUlp(BINARY32, below);
  }

  lemma SlightlyAboveOne()
    ensures Float32(1.0 + 5.0 / 134217728.0) == 1.0
  {
    var above := 1.0 + 5.0 / 134217728.0;
    Powers();
    BelowOverflow(above);
    ExponentBelow(BINARY32, above, 1);
    ExponentAbove(BINARY32, above, 0);
    RoundToUlp(BINARY32, above);
  }

  /** The factors are rounded first: 1 minus 5 times 2 to the -27 becomes 1 minus 2 to the -24. */
  lemma FactorsAreRounded()
    ensures NewTTLJitterer(12582912, 5.0 / 134217728.0) == Ok(TTLJitterer(12582911, 2))
  {
    var percent, value := 5.0 / 134217728.0, 12582912;
    SlightlyBelowOne();
    SlightlyAboveOne();
    Float32OfSmall(value);
    ToWholeNumbers(12582911.25);
    assert End(1.0 - percent, value) == 12582911.0 && End(1.0 + percent, value) == 12582912.0;
    EndsToRange(value, percent, 12582911, 12582912);
  }

  ghost function WholeNumber(n: int): real { n as real }

  /** The range stays inside the exact products exactly if, at the lower end, a whole number lies between the product
      and the end as computed, and none does at the upper end, beyond the product. */
  lemma EndsHoldIff(value: Uint32, percent: real)
    requires value > 0 && 0.0 < percent < 1.0 && Fits(value, percent)
    ensures NewTTLJitterer(value, percent).Ok?
    ensures
      var (lo, hi) := NewTTLJitterer(value, percent).value.Range();
      var (low, high) := (Times(value, 1.0 - percent), Times(value, 1.0 + percent));
      && (low <= lo as real <==> exists n :: low <= WholeNumber(n) <= End(1.0 - percent, value))
      && (hi as real <= high <==> !exists n :: high < WholeNumber(n) <= End(1.0 + percent, value))
  {
    RangeIsEnds(value, percent);
    WholeFrom(Times(value, 1.0 - percent), End(1.0 - percent, value));
    WholeAfter(Times(value, 1.0 + percent), End(1.0 + percent, value));
  }

  lemma WholeFrom(low: real, end: real)
    ensures low <= end.Floor as real <==> exists n :: low <= WholeNumber(n) <= end
  {
    if low <= end.Floor as real {
      assert low <= WholeNumber(end.Floor) <= end;
    }
    if n :| low <= WholeNumber(n) <= end {
      FloorOrder(n as real, end);
    }
  }

  lemma WholeAfter(high: real, end: real)
    ensures high < end.Floor as real <==> exists n :: high < WholeNumber(n) <= end
  {
    if high < end.Floor as real {
      assert high < WholeNumber(end.Floor) <= end;
    }
    if n :| high < WholeNumber(n) <= end {
      FloorOrder(n as real, end);
    }
  }

  lemma DrawInRange(j: TTLJitterer, draw: Uint32)
    requires draw < j.choose && j.base + j.choose - 1 < UINT32
    ensures j.Range().0 <= j.TTL(draw) <= j.Range().1
  {
  }

  ghost predicate IsDrawn(j: TTLJitterer, ttl: Uint32) {
    exists draw: Uint32 :: (j.choose == 0 || draw < j.choose) && j.TTL(draw) == ttl
  }

  /** The TTLs that can be drawn are exactly those of the range. */
  lemma DrawsFillRange(j: TTLJitterer, ttl: Uint32)
    requires j.choose == 0 || j.base + j.choose - 1 < UINT32
    ensures var (lo, hi) := j.Range();
      lo <= ttl <= hi <==> IsDrawn(j, ttl)
  {
    var (lo, hi) := j.Range();
    if lo <= ttl <= hi {
      assert j.TTL(ttl - lo) == ttl;
    }
  }

  /** The promise on the whole: percents outside [0, 1) are refused, and any TTL drawn is one of the range. */
  lemma JittersAround(value: Uint32, percent: real, draw: Uint32)
    ensures var r := NewTTLJitterer(value, percent);
      && (r.Err? <==> percent < 0.0 || percent >= 1.0)
      && (r.Ok? && (percent == 0.0 || value == 0) ==> r.value.Range() == (value, value) && r.value.TTL(draw) == value)
      && (value > 0 && 0.0 < percent < 1.0 && Fits(value, percent) && draw < r.value.choose ==>
            r.value.Range().0 <= r.value.TTL(draw) <= r.value.Range().1)
  {
    if value > 0 && 0.0 < percent < 1.0 && Fits(value, percent) {
      RangeIsEnds(value, percent);
      var j := NewTTLJitterer(value, percent).value;
      if draw < j.choose {
        DrawInRange(j, draw);
      }
    }
  }

  // ---- values that binary32 cannot hold

  ghost predicate Brackets(value: Uint32, percent: real)
  {
    var r := NewTTLJitterer(value, percent);
    r.Ok? && r.value.Range().0 <= value <= r.value.Range().1
  }

  ghost predicate AlwaysBrackets(value: Uint32)
  {
    forall percent: real | 0.0 < percent < 1.0 && IsFloat32(percent) && Fits(value, percent) :: Brackets(value, percent)
  }

  const TINY := 1.0 / 1073741824.0

  lemma TinyPercent()
    ensures IsFloat32(TINY) && Float32(1.0 - TINY) == 1.0 && Float32(1.0 + TINY) == 1.0
  {
    Powers();
    assert Times(1, Pow2(-30)) == Times(0, Pow2(-30)) + Pow2(-30);
    BelowOverflow(2.0);
    ScaledIsNumber(BINARY32, TINY, 1, -30);
    Float32OfSmall(1);
    Float32OfSmall(2);
    TimesOne(1);
    Powers();
    RoundIsNearest(BINARY32, 1.0 - TINY, 1.0, 1, 0);
    Float32Monotone(1.0 - TINY, 1.0);
    Float32Twice(1.0 - TINY);
    if Float32(1.0 - TINY) < 1.0 {
      BelowOne(Float32(1.0 - TINY));
    }
    RoundIsNearest(BINARY32, 1.0 + TINY, 1.0, 1, 0);
    Float32Monotone(1.0, 1.0 + TINY);
    Float32Monotone(1.0 + TINY, 2.0);
    Float32Twice(1.0 + TINY);
    if Float32(1.0 + TINY) > 1.0 {
      AboveOne(Float32(1.0 + TINY));
    }
  }

  /** The range holds the value itself, whatever the percent, exactly when binary32 holds the value. */
  lemma BracketsIffExact(value: Uint32)
    requires value > 0 && Float32(value as real) < UINT32 as real
    ensures AlwaysBrackets(value) <==> Float32(value as real) == value as real
  {
    RoundedValue(value);
    if AlwaysBrackets(value) {
      TinyEnds(value);
      assert Brackets(value, TINY);
      RangeIsEnds(value, TINY);
    }
    if Float32(value as real) == value as real {
      forall percent: real | 0.0 < percent < 1.0 && IsFloat32(percent) && Fits(value, percent)
        ensures Brackets(value, percent)
      {
        ExactBrackets(value, percent);
      }
    }
  }

  lemma TinyEnds(value: Uint32)
    requires value > 0 && Float32(value as real) < UINT32 as real
    ensures IsFloat32(TINY) && Fits(value, TINY)
    ensures End(1.0 - TINY, value) == End(1.0 + TINY, value) == Float32(value as real)
  {
    RoundedValue(value);
    TinyPercent();
  }

  lemma ExactBrackets(value: Uint32, percent: real)
    requires value > 0 && 0.0 < percent < 1.0 && Fits(value, percent) && Float32(value as real) == value as real
    ensures Brackets(value, percent)
  {
    RangeIsEnds(value, percent);
  }

  /** 16777219 is not held: it is rounded up, to 16777220. */
  lemma LargeValueIsMissed()
    ensures Float32(16777219.0) == 16777220.0 && !AlwaysBrackets(16777219)
  {
    RoundToUlp(BINARY32, 16777219.0);
    Powers();
    BelowOverflow(16777219.0);
    ExponentBelow(BINARY32, 16777219.0, 25);
    ExponentAbove(BINARY32, 16777219.0, 24);
    assert Ulp(BINARY32, 16777219.0) == 2.0;
    BracketsIffExact(16777219);
  }
}
