/** compare_double (packages/cjson/cJSON.c:557-561) on the doubles themselves, rounding included.  The positive
    normal doubles are numbered in order by the integers: 2^52 of them for every exponent, evenly spaced.  The range
    of exponents is not bounded. */
module Doubles {
  import opened JsonCompare

  const DOUBLES_PER_EXPONENT := 4503599627370496

  /** 2 to the power e */
  ghost function Pow2(e: int): (p: real)
    ensures p > 0.0
    decreases if e < 0 then -e else e
  {
    if e == 0 then 1.0 else if e > 0 then 2.0 * Pow2(e - 1) else Pow2(e + 1) / 2.0
  }

  function Significand(n: int): (m: int)
    ensures DOUBLES_PER_EXPONENT <= m < 2 * DOUBLES_PER_EXPONENT
  {
    DOUBLES_PER_EXPONENT + n % DOUBLES_PER_EXPONENT
  }

  function Exponent(n: int): int {
    n / DOUBLES_PER_EXPONENT
  }

  ghost function Scaled(m: int, e: int): real {
    m as real * Pow2(e)
  }

  /** The n-th double; the one with number 0 is 2^52. */
  ghost function Value(n: int): real {
    Scaled(Significand(n), Exponent(n))
  }

  /** 2 to the power k, as an integer */
  function Ratio(k: nat): (r: nat)
    ensures r >= 1 && (k == 1 ==> r == 2) && (k >= 2 ==> r >= 4)
  {
    if k == 0 then 1 else 2 * Ratio(k - 1)
  }

  lemma OrderedCompare(x: real, y: real)
    requires 0.0 <= x <= y
    ensures CompareDouble(x, y) <==> y - x <= y * DBL_EPSILON
  {
    assert Abs(x - y) == y - x && Abs(x) == x && Abs(y) == y;
  }

  lemma Scales(x: real, y: real, scale: real)
    requires scale > 0.0 && 0.0 <= x <= y
    ensures 0.0 <= x * scale <= y * scale
    ensures y * scale - x * scale <= (y * scale) * DBL_EPSILON <==> y - x <= y * DBL_EPSILON
  {
    var d, h := y - x, y * DBL_EPSILON;
    assert d * scale == y * scale - x * scale;
    assert h * scale == (y * scale) * DBL_EPSILON;
    assert d <= h <==> d * scale <= h * scale;
  }

  /** The scale of two numbers does not matter. */
  lemma CompareScaled(x: real, y: real, scale: real, scaledX: real, scaledY: real)
    requires scale > 0.0 && 0.0 <= x <= y && scaledX == x * scale && scaledY == y * scale
    ensures CompareDouble(scaledX, scaledY) <==> y - x <= y * DBL_EPSILON
  {
    Scales(x, y, scale);
    OrderedCompare(scaledX, scaledY);
  }

  /** Which integers count as equal: those at most y / 2^52 apart. */
  lemma NaturalsAreClose(x: nat, y: nat)
    requires x <= y
    ensures y as real - x as real <= y as real * DBL_EPSILON <==> (y - x) * DOUBLES_PER_EXPONENT <= y
  {
    assert y as real * DBL_EPSILON == y as real / 4503599627370496.0;
  }

  lemma RescaleOnce(m: int, e: int)
    ensures Scaled(m, e + 1) == Scaled(2 * m, e)
  {
    var p, q := Pow2(e), Pow2(e + 1);
    assert q == 2.0 * p;
    assert m as real * (2.0 * p) == (2.0 * m as real) * p;
  }

  /** A number in units of a smaller power */
  lemma {:induction false} Rescale(m: int, e: int, k: nat)
    ensures Scaled(m, e + k) == Scaled(m * Ratio(k), e)
    decreases k
  {
    if k > 0 {
      Rescale(m, e + 1, k - 1);
      RescaleOnce(m * Ratio(k - 1), e);
      assert m * Ratio(k) == 2 * (m * Ratio(k - 1));
    }
  }

  lemma ScaledNaturalsCompare(x: nat, y: nat, e: int)
    requires x <= y
    ensures CompareDouble(Scaled(x, e), Scaled(y, e)) <==> (y - x) * DOUBLES_PER_EXPONENT <= y
  {
    CompareScaled(x as real, y as real, Pow2(e), Scaled(x, e), Scaled(y, e));
    NaturalsAreClose(x, y);
  }

  /** The n-th double is a power of two. */
  predicate IsPower(n: int) {
    n % DOUBLES_PER_EXPONENT == 0
  }

  /** The same, or neighbours, or apart by one double below a power of two */
  predicate Close(a: int, b: int) {
    var high, low := if a < b then b else a, if a < b then a else b;
    high - low <= 1 || (high - low == 2 && IsPower(high))
  }

  lemma FarApart(m: int, r: int)
    requires m >= DOUBLES_PER_EXPONENT && r >= 4
    ensures m * r >= 4 * DOUBLES_PER_EXPONENT
  {
  }

  lemma SignificandsCompare(a: int, b: int, k: nat)
    requires a <= b && k == Exponent(b) - Exponent(a)
    ensures
      var x, y := Significand(a), Significand(b) * Ratio(k);
      x <= y && ((y - x) * DOUBLES_PER_EXPONENT <= y <==> Close(a, b))
  {
    if k >= 2 {
      FarApart(Significand(b), Ratio(k));
    }
  }

  lemma ValuesCompare(a: int, b: int)
    requires a <= b
    ensures CompareDouble(Value(a), Value(b)) <==> Close(a, b)
  {
    var e := Exponent(a);
    var k: nat := Exponent(b) - e;
    Rescale(Significand(b), e, k);
    SignificandsCompare(a, b, k);
    ScaledNaturalsCompare(Significand(a), Significand(b) * Ratio(k), e);
  }

  /** They are numbered in order. */
  lemma ValuesIncrease(a: int, b: int)
    requires a < b
    ensures 0.0 < Value(a) < Value(b)
  {
    var e := Exponent(a);
    var k: nat := Exponent(b) - e;
    Rescale(Significand(b), e, k);
    if k >= 2 {
      FarApart(Significand(b), Ratio(k));
    }
    var x, y := Significand(a), Significand(b) * Ratio(k);
    assert x < y;
    ScalingIncreases(x, y, e);
  }

  lemma ScalingIncreases(x: nat, y: nat, e: int)
    requires 0 < x < y
    ensures 0.0 < Scaled(x, e) < Scaled(y, e)
  {
    assert (y as real - x as real) * Pow2(e) > 0.0;
  }

  datatype Double = Zero | Normal(negative: bool, n: int)

  ghost function RealOf(d: Double): real {
    match d
    case Zero => 0.0
    case Normal(negative, n) => if negative then -Value(n) else Value(n)
  }

  ghost predicate Same(x: Double, y: Double) {
    CompareDouble(RealOf(x), RealOf(y))
  }

  lemma ValueIsPositive(n: int)
    ensures Value(n) > 0.0
  {
  }

  lemma SignOf(d: Double)
    ensures if d.Zero? then RealOf(d) == 0.0 else if d.negative then RealOf(d) < 0.0 else RealOf(d) > 0.0
  {
    if d.Normal? {
      ValueIsPositive(d.n);
    }
  }

  lemma SidesAndSignsDoNotMatter(x: real, y: real)
    ensures CompareDouble(x, y) <==> CompareDouble(y, x)
    ensures CompareDouble(x, y) <==> CompareDouble(-x, -y)
  {
    assert Abs(x - y) == Abs(y - x) == Abs(-x - -y) && Abs(x) == Abs(-x) && Abs(y) == Abs(-y);
  }

  lemma EqualsHaveOneSign(x: real, y: real)
    ensures CompareDouble(x, y) ==> SameSign(x, y)
    ensures CompareDouble(0.0, 0.0)
  {
    var max := if Abs(x) > Abs(y) then Abs(x) else Abs(y);
    assert max * DBL_EPSILON == max / 4503599627370496.0;
  }

  /** Two doubles count as equal exactly if both are 0, or they have the same sign and are close. */
  lemma DoublesCompare(x: Double, y: Double)
    ensures
      Same(x, y) <==> x == y || (x.Normal? && y.Normal? && x.negative == y.negative && Close(x.n, y.n))
  {
    EqualsHaveOneSign(RealOf(x), RealOf(y));
    SignOf(x);
    SignOf(y);
    if x.Normal? && y.Normal? && x.negative == y.negative {
      var low, high := if x.n < y.n then x.n else y.n, if x.n < y.n then y.n else x.n;
      ValuesCompare(low, high);
      SidesAndSignsDoNotMatter(Value(low), Value(high));
      SidesAndSignsDoNotMatter(-Value(low), -Value(high));
    }
  }

  /** Not close, but either two apart, or three apart with the larger or the one below it a power of two */
  predicate FailsBetween(a: int, c: int) {
    var high, low := if a < c then c else a, if a < c then a else c;
    || (high - low == 2 && !IsPower(high))
    || (high - low == 3 && (IsPower(high) || IsPower(high - 1)))
  }

  function Between(a: int, c: int): (b: int)
    ensures FailsBetween(a, c) ==> Close(a, b) && Close(b, c) && !Close(a, c)
  {
    var high, low := if a < c then c else a, if a < c then a else c;
    if high - low == 3 && IsPower(high) then low + 1 else high - 1
  }

  lemma FailsOnlyThere(a: int, b: int, c: int)
    requires Close(a, b) && Close(b, c) && !Close(a, c)
    ensures FailsBetween(a, c)
  {
  }

  lemma ThirdDoubleIsBetween(x: Double, y: Double, z: Double)
    requires Same(x, y) && Same(y, z) && !Same(x, z)
    ensures x.Normal? && z.Normal? && x.negative == z.negative && FailsBetween(x.n, z.n)
  {
    DoublesCompare(x, y);
    DoublesCompare(y, z);
    DoublesCompare(x, z);
    FailsOnlyThere(x.n, y.n, z.n);
  }

  /** So transitivity fails for x and z, over some third double, exactly if they have the same sign and are so far
      apart and no further. */
  lemma DoublesAreTransitiveExactly(x: Double, z: Double)
    ensures
      (exists y :: Same(x, y) && Same(y, z)) && !Same(x, z) <==>
      x.Normal? && z.Normal? && x.negative == z.negative && FailsBetween(x.n, z.n)
  {
    if y :| Same(x, y) && Same(y, z) && !Same(x, z) {
      ThirdDoubleIsBetween(x, y, z);
    }
    if x.Normal? && z.Normal? && x.negative == z.negative && FailsBetween(x.n, z.n) {
      var y := Normal(x.negative, Between(x.n, z.n));
      DoublesCompare(x, y);
      DoublesCompare(y, z);
      DoublesCompare(x, z);
      assert Same(x, y) && Same(y, z);
    }
  }

  // ----------------------------------------------------------------- rounding

  /** What is common to all ways of rounding a real to a double: the order is kept, and doubles stay what they are.
      (The range of exponents is not bounded here.) */
  ghost predicate Rounding(round: real -> real) {
    && (forall x, y :: x <= y ==> round(x) <= round(y))
    && (forall d :: round(RealOf(d)) == RealOf(d))
  }

  /** compare_double, with the difference and the product rounded; fabs is exact. */
  ghost predicate CompareRounded(round: real -> real, a: real, b: real) {
    Abs(round(a - b)) <= round((if Abs(a) > Abs(b) then Abs(a) else Abs(b)) * DBL_EPSILON)
  }

  lemma RatioOf4More(k: nat)
    ensures Ratio(k + 4) == 16 * Ratio(k)
  {
    assert Ratio(k + 2) == 2 * Ratio(k + 1) && Ratio(k + 3) == 2 * Ratio(k + 2);
  }

  lemma RatioOf16More(k: nat)
    ensures Ratio(k + 16) == 65536 * Ratio(k)
  {
    RatioOf4More(k);
    RatioOf4More(k + 4);
    RatioOf4More(k + 8);
    RatioOf4More(k + 12);
  }

  lemma RatioOf52More(k: nat)
    ensures Ratio(k + 52) == DOUBLES_PER_EXPONENT * Ratio(k)
  {
    RatioOf16More(k);
    RatioOf16More(k + 16);
    RatioOf16More(k + 32);
    RatioOf4More(k + 48);
  }

  lemma TimesInOrder(x: real, y: real, p: real)
    requires p > 0.0
    ensures x * p <= y * p <==> x <= y
    ensures y * p - x * p == (y - x) * p
  {
    assert y >= x ==> (y - x) * p >= 0.0;
    assert y < x ==> (y - x) * p < 0.0;
  }

  lemma ScaledInOrder(x: int, y: int, e: int)
    ensures Scaled(x, e) <= Scaled(y, e) <==> x <= y
    ensures Scaled(y, e) - Scaled(x, e) == Scaled(y - x, e)
  {
    TimesInOrder(x as real, y as real, Pow2(e));
  }

  lemma RatioOf52()
    ensures Ratio(52) == DOUBLES_PER_EXPONENT
  {
    RatioOf52More(0);
  }

  lemma UndoEpsilon(x: real)
    ensures (4503599627370496.0 * x) * DBL_EPSILON == x
  {
  }

  lemma EpsilonScaled(m: int, e: int)
    ensures Scaled(m, e + 52) * DBL_EPSILON == Scaled(m, e)
  {
    RatioOf52();
    Rescale(m, e, 52);
    Multiply(m, Pow2(e));
    UndoEpsilon(m as real * Pow2(e));
  }

  lemma Multiply(m: int, p: real)
    ensures (m * DOUBLES_PER_EXPONENT) as real * p == 4503599627370496.0 * (m as real * p)
  {
    assert (m * DOUBLES_PER_EXPONENT) as real == 4503599627370496.0 * m as real;
  }

  /** Epsilon is a power of two, so the product with it is a double, 52 exponents below. */
  lemma EpsilonIsExact(n: int)
    ensures Value(n) * DBL_EPSILON == Value(n - 52 * DOUBLES_PER_EXPONENT)
  {
    EpsilonScaled(Significand(n), Exponent(n) - 52);
  }

  lemma ValueFrom(n: int, e: int, k: nat)
    requires Exponent(n) == e + k
    ensures Value(n) == Scaled(Significand(n) * Ratio(k), e)
  {
    Rescale(Significand(n), e, k);
  }

  lemma ScaledDifference(x: int, y: int, k: nat, e: int)
    ensures
      Scaled(y * Ratio(k + 52), e) - Scaled(x * DOUBLES_PER_EXPONENT, e)
      == Scaled((y * Ratio(k) - x) * DOUBLES_PER_EXPONENT, e)
  {
    RatioOf52More(k);
    Distribute(x, y, Ratio(k));
    ScaledInOrder(x * DOUBLES_PER_EXPONENT, y * Ratio(k + 52), e);
  }

  lemma Distribute(x: int, y: int, r: int)
    ensures y * (DOUBLES_PER_EXPONENT * r) - x * DOUBLES_PER_EXPONENT == (y * r - x) * DOUBLES_PER_EXPONENT
  {
  }

  /** The larger less the smaller, in units of 2^e, where e + 52 is the exponent of the smaller */
  lemma DifferenceInUnits(a: int, b: int, k: nat, e: int)
    requires k == Exponent(b) - Exponent(a) && e == Exponent(a) - 52
    ensures Value(b) - Value(a) == Scaled((Significand(b) * Ratio(k) - Significand(a)) * DOUBLES_PER_EXPONENT, e)
  {
    RatioOf52();
    ValueFrom(a, e, 52);
    ValueFrom(b, e, k + 52);
    ScaledDifference(Significand(a), Significand(b), k, e);
  }

  function WithSignificand(m: nat, e: int): (n: int)
    requires DOUBLES_PER_EXPONENT <= m < 2 * DOUBLES_PER_EXPONENT
    ensures Significand(n) == m && Exponent(n) == e
  {
    e * DOUBLES_PER_EXPONENT + (m - DOUBLES_PER_EXPONENT)
  }

  /** Epsilon times the larger, in the same units */
  lemma ProductInUnits(b: int, k: nat, e: int)
    requires Exponent(b) == e + 52 + k
    ensures Value(b) * DBL_EPSILON == Scaled(Significand(b) * Ratio(k), e)
  {
    EpsilonIsExact(b);
    ValueFrom(b - 52 * DOUBLES_PER_EXPONENT, e, k);
  }

  /** If the difference is more than epsilon times the larger, there is a double between them, or it is one. */
  lemma DoubleBetween(a: int, b: int) returns (n: int)
    requires a <= b && !Close(a, b)
    ensures Value(b) * DBL_EPSILON < Value(n) <= Value(b) - Value(a)
  {
    var k: nat := Exponent(b) - Exponent(a);
    var e := Exponent(a) - 52;
    var x, y, r := Significand(a), Significand(b), Ratio(k);
    SignificandsCompare(a, b, k);
    DifferenceInUnits(a, b, k, e);
    ProductInUnits(b, k, e);
    var units;
    n, units := CandidateBetween(x, y, r, k, e);
    ScaledInOrder(units, y * r, e);
    ScaledInOrder(units, (y * r - x) * DOUBLES_PER_EXPONENT, e);
  }

  lemma CandidateBetween(x: int, y: int, r: nat, k: nat, e: int) returns (n: int, units: int)
    requires r == Ratio(k)
    requires DOUBLES_PER_EXPONENT <= x < 2 * DOUBLES_PER_EXPONENT
    requires DOUBLES_PER_EXPONENT <= y < 2 * DOUBLES_PER_EXPONENT
    requires (y * r - x) * DOUBLES_PER_EXPONENT > y * r
    ensures Value(n) == Scaled(units, e)
    ensures y * r < units <= (y * r - x) * DOUBLES_PER_EXPONENT
  {
    if y * r - x >= 2 * r {
      TwoIsBetween(x, y, r);
      n, units := WithSignificand(DOUBLES_PER_EXPONENT, e + k + 1), DOUBLES_PER_EXPONENT * (2 * r);
      ValueFrom(n, e, k + 1);
    } else {
      OneAndAHalfIsBetween(x, y, r, k);
      var half := DOUBLES_PER_EXPONENT + DOUBLES_PER_EXPONENT / 2;
      n, units := WithSignificand(half, e + k), half * r;
      ValueFrom(n, e, k);
    }
  }

  lemma TwoIsBetween(x: int, y: int, r: nat)
    requires y < 2 * DOUBLES_PER_EXPONENT && r > 0 && y * r - x >= 2 * r
    ensures y * r < DOUBLES_PER_EXPONENT * (2 * r) <= (y * r - x) * DOUBLES_PER_EXPONENT
  {
    assert (2 * DOUBLES_PER_EXPONENT - y) * r > 0;
  }

  lemma OneAndAHalfIsBetween(x: int, y: int, r: nat, k: nat)
    requires r == Ratio(k) && y * r - x < 2 * r && (y * r - x) * DOUBLES_PER_EXPONENT > y * r
    requires DOUBLES_PER_EXPONENT <= x < 2 * DOUBLES_PER_EXPONENT
    requires DOUBLES_PER_EXPONENT <= y < 2 * DOUBLES_PER_EXPONENT
    ensures
      var units := (DOUBLES_PER_EXPONENT + DOUBLES_PER_EXPONENT / 2) * r;
      y * r < units <= (y * r - x) * DOUBLES_PER_EXPONENT
  {
    LargeRatio(x, y, r);
  }

  lemma LargeRatio(x: int, y: int, r: nat)
    requires DOUBLES_PER_EXPONENT <= y && x < 2 * DOUBLES_PER_EXPONENT
    ensures r >= 4 ==> y * r - x >= 2 * r
  {
    if r >= 4 {
      assert (y - DOUBLES_PER_EXPONENT) * r >= 0;
    }
  }

  ghost function Magnitude(d: Double): (m: Double)
    ensures RealOf(m) == Abs(RealOf(d))
  {
    if d.Normal? then (ValueIsPositive(d.n); Normal(false, d.n)) else Zero
  }

  /** The larger of two doubles in absolute value: maxVal in compare_double */
  ghost function Larger(x: Double, y: Double): (m: Double)
    ensures RealOf(m) == if Abs(RealOf(x)) > Abs(RealOf(y)) then Abs(RealOf(x)) else Abs(RealOf(y))
    ensures !m.Normal? || !m.negative
  {
    if Abs(RealOf(x)) > Abs(RealOf(y)) then Magnitude(x) else Magnitude(y)
  }

  lemma ProductIsDouble(m: Double) returns (d: Double)
    requires !m.Normal? || !m.negative
    ensures RealOf(d) == RealOf(m) * DBL_EPSILON && RealOf(d) >= 0.0
  {
    d := Zero;
    if m.Normal? {
      EpsilonIsExact(m.n);
      d := Normal(false, m.n - 52 * DOUBLES_PER_EXPONENT);
      ValueIsPositive(d.n);
    }
  }

  lemma SmallProduct(m: Double)
    requires m.Normal? && !m.negative
    ensures RealOf(m) * DBL_EPSILON < RealOf(m)
  {
    ValueIsPositive(m.n);
    RatioShrinks(RealOf(m));
  }

  lemma SameSignDifference(u: real, v: real)
    requires 0.0 < u <= v
    ensures Abs(u - v) == Abs(v - u) == Abs(-u - -v) == Abs(-v - -u) == v - u
  {
  }

  lemma SameSignApart(a: int, b: int, negative: bool) returns (d: Double)
    requires a <= b && !Close(a, b)
    ensures
      var x, y := RealOf(Normal(negative, a)), RealOf(Normal(negative, b));
      Abs(y) * DBL_EPSILON < RealOf(d) <= Abs(x - y) && Abs(x) <= Abs(y) && Abs(x - y) == Abs(y - x)
  {
    ValuesIncrease(a, b);
    SameSignDifference(Value(a), Value(b));
    var n := DoubleBetween(a, b);
    d := Normal(false, n);
  }

  lemma OtherSignApart(x: real, y: real)
    requires !SameSign(x, y)
    ensures (if Abs(x) > Abs(y) then Abs(x) else Abs(y)) <= Abs(x - y)
  {
  }

  /** If two doubles do not count as equal, a double is above epsilon times the larger and not above their
      difference. */
  lemma DoubleApart(x: Double, y: Double) returns (d: Double)
    requires !Same(x, y)
    ensures RealOf(Larger(x, y)) * DBL_EPSILON < RealOf(d) <= Abs(RealOf(x) - RealOf(y))
  {
    DoublesCompare(x, y);
    if x.Normal? && y.Normal? && x.negative == y.negative {
      if x.n < y.n {
        d := SameSignApart(x.n, y.n, x.negative);
      } else {
        d := SameSignApart(y.n, x.n, x.negative);
      }
    } else {
      SignOf(x);
      SignOf(y);
      OtherSignApart(RealOf(x), RealOf(y));
      d := Larger(x, y);
      SmallProduct(d);
    }
  }

  /** However the difference and the product are rounded, compare_double answers as in exact arithmetic. */
  lemma RoundingDoesNotMatter(round: real -> real, x: Double, y: Double)
    requires Rounding(round)
    ensures CompareRounded(round, RealOf(x), RealOf(y)) <==> Same(x, y)
  {
    var p := ProductIsDouble(Larger(x, y));
    assert round(RealOf(p)) == RealOf(p);
    var d := p;
    if !Same(x, y) {
      d := DoubleApart(x, y);
    }
    var minus := Opposite(d);
    assert round(RealOf(d)) == RealOf(d) && round(RealOf(minus)) == RealOf(minus);
  }

  ghost function Opposite(d: Double): (m: Double)
    ensures RealOf(m) == -RealOf(d)
  {
    if d.Normal? then Normal(!d.negative, d.n) else Zero
  }

  lemma {:induction false} NaturalIsDouble(m: nat, e: int) returns (n: int)
    requires 0 < m < 2 * DOUBLES_PER_EXPONENT
    ensures Value(n) == Scaled(m, e)
    decreases 2 * DOUBLES_PER_EXPONENT - m
  {
    if m >= DOUBLES_PER_EXPONENT {
      n := WithSignificand(m, e);
    } else {
      RescaleOnce(m, e - 1);
      n := NaturalIsDouble(2 * m, e - 1);
    }
  }

  /** Integers of up to 53 bits are doubles, so strtod reads them exactly, however it rounds. */
  lemma IntegersAreExact(round: real -> real, i: int)
    requires Rounding(round) && -2 * DOUBLES_PER_EXPONENT < i < 2 * DOUBLES_PER_EXPONENT
    ensures round(i as real) == i as real
  {
    var d := Zero;
    if i != 0 {
      var m := if i < 0 then -i else i;
      var n := NaturalIsDouble(m, 0);
      assert Scaled(m, 0) == m as real;
      d := Normal(i < 0, n);
    }
    assert RealOf(d) == i as real;
  }
}
