/**
 `UnitOfMeasure.convert_to` under Python's default decimal context: every product and quotient is rounded to 28
 significant digits, half to even. Values are the exact rationals the decimals denote; no overflow or underflow.
 */
module UnitConversion {
  import opened Wrappers

  // ---------------------------------------------------------------------------------------------
  // 28-digit half-even rounding
  // ---------------------------------------------------------------------------------------------

  const LOW: real := 1000000000000000000000000000.0      // 10^27
  const HIGH: real := 10000000000000000000000000000.0    // 10^28

  /** Half a unit in the 28th digit, relative to the smallest 28-digit number: 5 * 10^-28. */
  const U: real := 0.0000000000000000000000000005

  function Abs(x: real): (a: real)
    ensures a >= 0.0 && (a == x || a == -x)
  {
    if x < 0.0 then -x else x
  }

  /** The nearest integer, the even one on a tie. */
  function HalfEven(x: real): (n: int)
    ensures Abs(n as real - x) <= 0.5
    ensures Abs(n as real - x) == 0.5 ==> n % 2 == 0
  {
    var f := x.Floor;
    var rest := x - f as real;
    if rest < 0.5 || (rest == 0.5 && f % 2 == 0) then f else f + 1
  }

  lemma Shrinks(x: real)
    requires x != 0.0
    ensures Abs(x) >= HIGH ==>
              Abs(x / 10.0) == Abs(x) / 10.0 && Abs(x / 10.0).Floor < Abs(x).Floor && Abs(x) / 10.0 >= LOW
    ensures Abs(x) < LOW ==> Abs(x * 10.0) == Abs(x) * 10.0 < HIGH
    ensures Abs(x) < LOW ==> (LOW / (Abs(x) * 10.0)).Floor < (LOW / Abs(x)).Floor
  {
    var a := Abs(x);
    if a < LOW {
      assert LOW / a > 1.0;
      assert LOW / (a * 10.0) == LOW / a / 10.0;
    }
  }

  function Measure(x: real): nat
  {
    if x == 0.0 then 0
    else if Abs(x) >= HIGH then (if Abs(x).Floor > 0 then Abs(x).Floor else 0)
    else if Abs(x) >= LOW then 0
    else (if (LOW / Abs(x)).Floor > 0 then (LOW / Abs(x)).Floor else 0)
  }

  /** The value of a decimal result rounded to 28 significant digits: scale to 28 digits, round, scale back. */
  function Round28(x: real): real
    decreases Measure(x)
  {
    if x == 0.0 then 0.0
    else if Abs(x) >= HIGH then Shrinks(x); 10.0 * Round28(x / 10.0)
    else if Abs(x) >= LOW then HalfEven(x) as real
    else Shrinks(x); Round28(x * 10.0) / 10.0
  }

  /** y is within a relative error e of x. */
  predicate Near(x: real, y: real, e: real)
  {
    Abs(y - x) <= e * Abs(x)
  }

  lemma AbsTimes(x: real, c: real)
    ensures Abs(x * c) == Abs(x) * Abs(c)
  {
    if x >= 0.0 && c >= 0.0 { Sign(x, c); }
    else if x >= 0.0 { Sign(x, -c); }
    else if c >= 0.0 { Sign(-x, c); }
    else { Sign(-x, -c); }
  }

  lemma Sign(x: real, c: real)
    requires x >= 0.0 && c >= 0.0
    ensures x * c >= 0.0
  {}

  /** Relative error is unchanged by scaling. */
  lemma NearScales(x: real, y: real, e: real, c: real)
    requires Near(x, y, e)
    ensures Near(x * c, y * c, e)
  {
    AbsTimes(y - x, c);
    AbsTimes(x, c);
    assert (y - x) * c == y * c - x * c;
    MulMonotone(Abs(y - x), e * Abs(x), Abs(c));
  }

  lemma MulMonotone(a: real, b: real, c: real)
    requires a <= b && c >= 0.0
    ensures a * c <= b * c
  {
    Sign(b - a, c);
    assert (b - a) * c == b * c - a * c;
  }

  lemma NearTimesTen(x: real, y: real, e: real)
    requires Near(x / 10.0, y, e)
    ensures Near(x, 10.0 * y, e)
  {
    NearScales(x / 10.0, y, e, 10.0);
    assert x / 10.0 * 10.0 == x && y * 10.0 == 10.0 * y;
  }

  lemma NearOverTen(x: real, y: real, e: real)
    requires Near(x * 10.0, y, e)
    ensures Near(x, y / 10.0, e)
  {
    NearScales(x * 10.0, y, e, 0.1);
    assert x * 10.0 * 0.1 == x && y * 0.1 == y / 10.0;
  }

  /** Half a unit is within half / low of any number of at least low. */
  lemma HalfUnit(low: real, u: real, x: real, y: real)
    requires low > 0.0 && low * u == 0.5 && u >= 0.0 && Abs(x) >= low && Abs(y - x) <= 0.5
    ensures Near(x, y, u)
  {
    MulMonotone(low, Abs(x), u);
    assert Abs(y - x) <= Abs(x) * u;
  }

  lemma ErrorInRange(x: real)
    requires LOW <= Abs(x) < HIGH
    ensures Near(x, Round28(x), U)
  {
    HalfUnit(LOW, U, x, HalfEven(x) as real);
  }

  lemma ErrorAbove(x: real)
    requires Abs(x) >= HIGH && Near(x / 10.0, Round28(x / 10.0), U)
    ensures Near(x, Round28(x), U)
  {
    NearTimesTen(x, Round28(x / 10.0), U);
  }

  lemma ErrorBelow(x: real)
    requires 0.0 < Abs(x) < LOW && Near(x * 10.0, Round28(x * 10.0), U)
    ensures Near(x, Round28(x), U)
  {
    NearOverTen(x, Round28(x * 10.0), U);
  }

  /** Rounding moves a value by at most U of itself. */
  lemma {:induction false} RoundingError(x: real)
    ensures Near(x, Round28(x), U)
    decreases Measure(x)
  {
    if x == 0.0 {
    } else if Abs(x) >= HIGH {
      Shrinks(x);
      RoundingError(x / 10.0);
      ErrorAbove(x);
    } else if Abs(x) >= LOW {
      ErrorInRange(x);
    } else {
      Shrinks(x);
      RoundingError(x * 10.0);
      ErrorBelow(x);
    }
  }

  lemma RoundScales(x: real)
    ensures Round28(x * 10.0) == Round28(x) * 10.0
  {
    if x != 0.0 {
      assert x * 10.0 / 10.0 == x;
      if LOW <= Abs(x) < HIGH {
        assert Round28(x * 10.0) == 10.0 * Round28(x * 10.0 / 10.0);
      }
    }
  }

  function Pow10(k: nat): (p: real)
    ensures p > 0.0
  {
    if k == 0 then 1.0 else 10.0 * Pow10(k - 1)
  }

  lemma OverTen(x: real, p: real)
    requires p > 0.0
    ensures x / (10.0 * p) == x / p / 10.0
  {}

  lemma {:induction false} RoundScalesDown(x: real, k: nat)
    ensures Round28(x / Pow10(k)) == Round28(x) / Pow10(k)
  {
    if k > 0 {
      var p := Pow10(k - 1);
      RoundScalesDown(x, k - 1);
      OverTen(x, p);
      OverTen(Round28(x), p);
      RoundTenth(x / p);
    } else {
      assert x / 1.0 == x;
    }
  }

  lemma RoundTenth(y: real)
    ensures Round28(y / 10.0) == Round28(y) / 10.0
  {
    RoundScales(y / 10.0);
    assert y / 10.0 * 10.0 == y;
  }

  lemma {:induction false} ShortIntegersAreExact(m: int)
    requires Abs(m as real) <= HIGH
    ensures Round28(m as real) == m as real
    decreases Measure(m as real)
  {
    var x := m as real;
    if Abs(x) == HIGH {
      RoundHigh(x);
    } else if x != 0.0 && Abs(x) < LOW {
      Shrinks(x);
      ShortIntegersAreExact(m * 10);
      assert x * 10.0 == (m * 10) as real;
    }
  }

  lemma RoundHigh(x: real)
    requires Abs(x) == HIGH
    ensures Round28(x) == x
  {
    assert Round28(x / 10.0) == HalfEven(x / 10.0) as real;
    assert Round28(x) == 10.0 * Round28(x / 10.0);
  }

  /** A decimal of at most 28 digits is kept as it is, wherever its point stands. */
  lemma ShortDecimalsAreExact(m: int, k: nat)
    requires Abs(m as real) <= HIGH
    ensures Round28(m as real / Pow10(k)) == m as real / Pow10(k)
  {
    ShortIntegersAreExact(m);
    RoundScalesDown(m as real, k);
  }

  // ---------------------------------------------------------------------------------------------
  // Units
  // ---------------------------------------------------------------------------------------------

  datatype Unit = Unit(uomClass: string, toBaseFactor: real)

  datatype Error = DifferentClass | ZeroFactor

  /** Decimal multiplication and division. */
  function Multiplied(x: real, y: real): real
  {
    Round28(x * y)
  }

  function Divided(x: real, y: real): real
    requires y != 0.0
  {
    Round28(x / y)
  }

  /** To the base unit and on to the target, each step rounded; and the same without rounding. */
  function Scale(quantity: real, fromFactor: real, toFactor: real): real
    requires toFactor != 0.0
  {
    Divided(Multiplied(quantity, fromFactor), toFactor)
  }

  function ExactScale(quantity: real, fromFactor: real, toFactor: real): real
    requires toFactor != 0.0
  {
    quantity * fromFactor / toFactor
  }

  function ConvertTo(from: Unit, to: Unit, quantity: real): Result<real, Error>
  {
    if from.uomClass != to.uomClass then Failure(DifferentClass)
    else if to.toBaseFactor == 0.0 then Failure(ZeroFactor)
    else Success(Scale(quantity, from.toBaseFactor, to.toBaseFactor))
  }

  /** Units of different classes never convert, a zero target factor never divides, and nothing else fails. */
  lemma ConversionFails(from: Unit, to: Unit, quantity: real)
    ensures from.uomClass != to.uomClass ==> ConvertTo(from, to, quantity) == Failure(DifferentClass)
    ensures from.uomClass == to.uomClass && to.toBaseFactor == 0.0 ==>
              ConvertTo(from, to, quantity) == Failure(ZeroFactor)
    ensures ConvertTo(from, to, quantity).Failure? <==> from.uomClass != to.uomClass || to.toBaseFactor == 0.0
  {}

  /** The same conversion without rounding. */
  function Exact(from: Unit, to: Unit, quantity: real): real
    requires to.toBaseFactor != 0.0
  {
    ExactScale(quantity, from.toBaseFactor, to.toBaseFactor)
  }

  /** (1 + u)^n - 1: the relative error of n roundings, each off by at most u. */
  function Bound(u: real, n: nat): real
  {
    if n == 0 then 0.0 else (1.0 + Bound(u, n - 1)) * (1.0 + u) - 1.0
  }

  lemma BoundNonNegative(u: real, n: nat)
    requires u >= 0.0
    ensures Bound(u, n) >= 0.0
  {
    if n > 0 {
      BoundNonNegative(u, n - 1);
      Sign(Bound(u, n - 1), u);
      assert Bound(u, n) == Bound(u, n - 1) + u + Bound(u, n - 1) * u;
    }
  }

  lemma BoundFour(u: real)
    ensures Bound(u, 4) == (1.0 + u) * (1.0 + u) * (1.0 + u) * (1.0 + u) - 1.0
  {
    assert Bound(u, 1) == u;
    assert Bound(u, 2) == (1.0 + u) * (1.0 + u) - 1.0;
    assert Bound(u, 3) == (1.0 + u) * (1.0 + u) * (1.0 + u) - 1.0;
  }

  lemma Expand(a: real, e: real, u: real)
    ensures (a + e * a) * u + e * a == ((1.0 + e) * (1.0 + u) - 1.0) * a
  {}

  lemma ComposeErrors(a: real, b: real, zy: real, yx: real, zx: real, e: real, u: real)
    requires u >= 0.0 && zx <= zy + yx && b <= a + yx && zy <= u * b && yx <= e * a
    ensures zx <= ((1.0 + e) * (1.0 + u) - 1.0) * a
  {
    var s := a + e * a;
    MulMonotone(b, s, u);
    assert s * u + e * a == ((1.0 + e) * (1.0 + u) - 1.0) * a by { Expand(a, e, u); }
    assert zx <= b * u + e * a;
  }

  /** A value y off by n roundings, rounded once more to z, is off by n + 1. */
  lemma NearCompose(x: real, y: real, z: real, n: nat, u: real)
    requires Near(x, y, Bound(u, n)) && Near(y, z, u) && u >= 0.0
    ensures Near(x, z, Bound(u, n + 1))
  {
    ComposeErrors(Abs(x), Abs(y), Abs(z - y), Abs(y - x), Abs(z - x), Bound(u, n), u);
  }

  /** Scale x and its approximation y by c, then round the scaled approximation to z. */
  lemma ScaleAndRound(x: real, y: real, c: real, p: real, q: real, z: real, n: nat, u: real)
    requires p == x * c && q == y * c && u >= 0.0
    requires Near(x, y, Bound(u, n)) && Near(q, z, u)
    ensures Near(p, z, Bound(u, n + 1))
  {
    NearScales(x, y, Bound(u, n), c);
    NearCompose(p, q, z, n, u);
  }

  function Reciprocal(t: real): real
    requires t != 0.0
  {
    1.0 / t
  }

  lemma DivideAsScale(x: real, t: real, q: real)
    requires t != 0.0 && q == x / t
    ensures q == x * Reciprocal(t)
  {}

  /**
   A conversion is within two roundings of the exact one, and with an input that is off by n roundings, within n + 2.
   */
  lemma ConversionError(from: Unit, to: Unit, x: real, y: real, n: nat)
    requires from.uomClass == to.uomClass && to.toBaseFactor != 0.0
    requires Near(x, y, Bound(U, n))
    ensures ConvertTo(from, to, y).Success?
    ensures Near(Exact(from, to, x), ConvertTo(from, to, y).value, Bound(U, n + 2))
  {
    ScaleError(x, y, from.toBaseFactor, to.toBaseFactor, n);
  }

  lemma ScaleError(x: real, y: real, f: real, t: real, n: nat)
    requires t != 0.0 && Near(x, y, Bound(U, n))
    ensures Near(ExactScale(x, f, t), Scale(y, f, t), Bound(U, n + 2))
  {
    var base := Multiplied(y, f);
    RoundedProduct(y, f);
    RoundedQuotient(base, t);
    DividedSteps(x, y, f, t, x * f, y * f, base, x * f / t, base / t, Divided(base, t), n, U);
  }

  lemma DividedSteps(x: real, y: real, f: real, t: real, exactBase: real, product: real, base: real,
                     exact: real, quotient: real, result: real, n: nat, u: real)
    requires t != 0.0 && u >= 0.0
    requires exactBase == x * f && product == y * f && exact == exactBase / t && quotient == base / t
    requires Near(x, y, Bound(u, n)) && Near(product, base, u) && Near(quotient, result, u)
    ensures Near(exact, result, Bound(u, n + 2))
  {
    var s := Reciprocal(t);
    DivideAsScale(exactBase, t, exact);
    DivideAsScale(base, t, quotient);
    ConversionSteps(x, y, f, s, exactBase, product, base, exact, quotient, result, n, u);
  }

  lemma RoundedProduct(x: real, y: real)
    ensures Near(x * y, Multiplied(x, y), U)
  {
    RoundingError(x * y);
  }

  lemma RoundedQuotient(x: real, y: real)
    requires y != 0.0
    ensures Near(x / y, Divided(x, y), U)
  {
    RoundingError(x / y);
  }

  lemma ConversionSteps(x: real, y: real, f: real, s: real, exactBase: real, product: real, base: real,
                        exact: real, quotient: real, result: real, n: nat, u: real)
    requires u >= 0.0
    requires exactBase == x * f && product == y * f && exact == exactBase * s && quotient == base * s
    requires Near(x, y, Bound(u, n)) && Near(product, base, u) && Near(quotient, result, u)
    ensures Near(exact, result, Bound(u, n + 2))
  {
    ScaleAndRound(x, y, f, exactBase, product, base, n, u);
    ScaleAndRound(exactBase, base, s, exact, quotient, result, n + 1, u);
  }

  lemma NearItself(x: real)
    ensures Near(x, x, Bound(U, 0))
  {}

  /** Converting there and back returns the quantity up to four roundings: a relative error of at most (1 + U)^4 - 1. */
  lemma ThereAndBack(a: Unit, b: Unit, quantity: real)
    requires a.uomClass == b.uomClass && a.toBaseFactor != 0.0 && b.toBaseFactor != 0.0
    ensures ConvertTo(a, b, quantity).Success?
    ensures ConvertTo(b, a, ConvertTo(a, b, quantity).value).Success?
    ensures Abs(ConvertTo(b, a, ConvertTo(a, b, quantity).value).value - quantity)
         <= ((1.0 + U) * (1.0 + U) * (1.0 + U) * (1.0 + U) - 1.0) * Abs(quantity)
  {
    NearItself(quantity);
    ConversionError(a, b, quantity, quantity, 0);
    ConversionError(b, a, Exact(a, b, quantity), ConvertTo(a, b, quantity).value, 2);
    ExactInverse(a, b, quantity);
    BoundFour(U);
  }

  lemma ExactInverse(a: Unit, b: Unit, quantity: real)
    requires a.toBaseFactor != 0.0 && b.toBaseFactor != 0.0
    ensures Exact(b, a, Exact(a, b, quantity)) == quantity
  {
    assert Exact(a, b, quantity) * b.toBaseFactor == quantity * a.toBaseFactor;
  }

  lemma ExactPath(a: Unit, b: Unit, c: Unit, quantity: real)
    requires b.toBaseFactor != 0.0 && c.toBaseFactor != 0.0
    ensures Exact(b, c, Exact(a, b, quantity)) == Exact(a, c, quantity)
  {
    assert Exact(a, b, quantity) * b.toBaseFactor == quantity * a.toBaseFactor;
  }

  /**
   Going through a third unit agrees with the direct conversion: exactly without rounding, to four roundings with it.
   */
  lemma PathIndependent(a: Unit, b: Unit, c: Unit, quantity: real)
    requires a.uomClass == b.uomClass == c.uomClass && b.toBaseFactor != 0.0 && c.toBaseFactor != 0.0
    ensures Exact(b, c, Exact(a, b, quantity)) == Exact(a, c, quantity)
    ensures ConvertTo(a, b, quantity).Success? && ConvertTo(b, c, ConvertTo(a, b, quantity).value).Success?
    ensures Near(Exact(a, c, quantity), ConvertTo(b, c, ConvertTo(a, b, quantity).value).value, Bound(U, 4))
  {
    ExactPath(a, b, c, quantity);
    NearItself(quantity);
    ConversionError(a, b, quantity, quantity, 0);
    ConversionError(b, c, Exact(a, b, quantity), ConvertTo(a, b, quantity).value, 2);
  }

  const THREES: int := 3333333333333333333333333333
  const NINES: int := 9999999999999999999999999999

  lemma PowersOfTen()
    ensures Pow10(28) == HIGH
  {
    assert Pow10(4) == 10000.0;
    assert Pow10(8) == 100000000.0;
    assert Pow10(12) == 1000000000000.0;
    assert Pow10(16) == 10000000000000000.0;
    assert Pow10(20) == 100000000000000000000.0;
    assert Pow10(24) == 1000000000000000000000000.0;
  }

  lemma OneThird()
    ensures Divided(1.0, 3.0) == THREES as real / HIGH
  {
    PowersOfTen();
    RoundScalesDown(HIGH / 3.0, 28);
    assert HIGH / 3.0 / HIGH == 1.0 / 3.0;
    assert HalfEven(HIGH / 3.0) == THREES;
  }

  lemma ThreeThirds()
    ensures Multiplied(THREES as real / HIGH, 3.0) == NINES as real / HIGH
    ensures Divided(NINES as real / HIGH, 1.0) == NINES as real / HIGH
  {
    PowersOfTen();
    ShortDecimalsAreExact(NINES, 28);
    assert THREES as real / HIGH * 3.0 == NINES as real / HIGH;
  }

  /** The bound is not zero: one each as a number of threes, and back, is not one. */
  lemma RoundTripIsNotExact()
    ensures var one, three := Unit("quantity", 1.0), Unit("quantity", 3.0);
            && ConvertTo(one, three, 1.0).Success?
            && ConvertTo(three, one, ConvertTo(one, three, 1.0).value).Success?
            && ConvertTo(three, one, ConvertTo(one, three, 1.0).value).value != 1.0
  {
    OneThird();
    ThreeThirds();
    assert Multiplied(1.0, 1.0) == 1.0 by { ShortIntegersAreExact(1); }
    assert Scale(1.0, 1.0, 3.0) == THREES as real / HIGH;
    assert Scale(THREES as real / HIGH, 3.0, 1.0) == NINES as real / HIGH;
  }
}
