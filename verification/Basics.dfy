/** Small shared vocabulary: optional values and real arithmetic. */
module Basics {

  datatype Option<+T> = None | Some(value: T)

  datatype Side = Buy | Sell

  /** Quantities up to this size count as nothing. */
  const DUST := 0.000000000001

  function Min(a: real, b: real): real {
    if a <= b then a else b
  }

  function Max(a: real, b: real): real {
    if a >= b then a else b
  }

  function MaxInt(a: int, b: int): int {
    if a >= b then a else b
  }

  function Abs(a: real): real {
    if a >= 0.0 then a else -a
  }

  /** `Math.round`: nearest integer, halves towards plus infinity. */
  function Round(a: real): int {
    (a + 0.5).Floor
  }

  /** `Math.max(1, Math.floor(a))`. */
  function FloorAtLeastOne(a: real): (n: nat)
    ensures n >= 1
  {
    MaxInt(1, a.Floor)
  }

  lemma RoundIsNearest(a: real)
    ensures -0.5 <= Round(a) as real - a <= 0.5
  {
  }

  function Sum(xs: seq<real>): real {
    if xs == [] then 0.0 else xs[0] + Sum(xs[1..])
  }

  lemma {:induction false} SumConcat(a: seq<real>, b: seq<real>)
    ensures Sum(a + b) == Sum(a) + Sum(b)
  {
    if a == [] {
      assert a + b == b;
    } else {
      assert (a + b)[1..] == a[1..] + b;
      SumConcat(a[1..], b);
    }
  }

  /** Two factors with the same sign have a non-negative product. */
  lemma ProductNonNegative(a: real, b: real)
    requires (a >= 0.0 && b >= 0.0) || (a <= 0.0 && b <= 0.0)
    ensures a * b >= 0.0
  {
  }

  /** The same for a product already worked out. */
  lemma NonNegativeProduct(a: real, b: real, product: real)
    requires a >= 0.0 && b >= 0.0 && product == a * b
    ensures product >= 0.0
  {
  }

  /** A fraction of a gap lies between nothing and the whole of it. */
  lemma FractionOfGap(fraction: real, gap: real, part: real)
    requires 0.0 <= fraction <= 1.0 && part == fraction * gap
    ensures gap >= 0.0 ==> 0.0 <= part <= gap
    ensures gap <= 0.0 ==> gap <= part <= 0.0
  {
    if gap >= 0.0 {
      NonNegativeProduct(fraction, gap, part);
      NonNegativeProduct(1.0 - fraction, gap, gap - part);
    }
    if gap <= 0.0 {
      NonNegativeProduct(fraction, -gap, -part);
      NonNegativeProduct(1.0 - fraction, -gap, part - gap);
    }
  }

  /** Scaling both sides of an inequality by a non-negative factor. */
  lemma ScaleLe(a: real, b: real, c: real)
    requires a <= b && c >= 0.0
    ensures a * c <= b * c && c * a <= c * b
  {
    ProductNonNegative(b - a, c);
  }

  lemma ProductNonPositive(a: real, b: real)
    requires a >= 0.0 && b <= 0.0
    ensures a * b <= 0.0
  {
  }

  lemma PositiveProduct(a: real, b: real)
    requires a > 0.0 && b > 0.0
    ensures a * b > 0.0
  {
  }

  lemma ScaledSign(a: real, f: real, product: real)
    requires f > 0.0 && product == a * f
    ensures a > 0.0 <==> product > 0.0
  {
    if a > 0.0 {
      PositiveProduct(a, f);
    } else {
      ProductNonPositive(f, a);
    }
  }

  lemma QuotientTimes(a: real, b: real)
    requires b != 0.0
    ensures a / b * b == a
  {
  }

  lemma QuotientSign(a: real, b: real)
    requires b > 0.0
    ensures a > 0.0 <==> a / b > 0.0
    ensures a < 0.0 <==> a / b < 0.0
  {
  }

  /** Comparing quotients by cross-multiplication. */
  lemma DivideLe(a: real, b: real, c: real, d: real)
    requires b > 0.0 && d > 0.0 && a * d <= c * b
    ensures a / b <= c / d
  {
    var x, y := a / b, c / d;
    assert a * d - c * b == (x - y) * (b * d);
    PositiveProduct(b, d);
    if x > y {
      PositiveProduct(x - y, b * d);
      assert false;
    }
  }
}
