/**
 * Cosine similarity between a query vector and a recipe embedding, computed over
 * the reals. `Math.sqrt` is a parameter of which only the defining property of a
 * non-negative square root is known.
 */
module Similarity {

  /** `sqrt` returns the non-negative square root of every non-negative real. */
  ghost predicate IsSqrt(sqrt: real -> real)
  {
    forall x :: 0.0 <= x ==> 0.0 <= sqrt(x) && sqrt(x) * sqrt(x) == x
  }

  /** The sum of a[i] * b[i] over i < n: the `dot` accumulator after n rounds. */
  function Dot(a: seq<real>, b: seq<real>, n: nat): real
    requires n <= |a| && n <= |b|
  {
    if n == 0 then 0.0 else Dot(a, b, n - 1) + a[n - 1] * b[n - 1]
  }

  function Square(x: real): real
  {
    x * x
  }

  /** The sum of a[i] * a[i] over i < n: the `na`/`nb` accumulators after n rounds. */
  function SumSq(a: seq<real>, n: nat): real
    requires n <= |a|
  {
    if n == 0 then 0.0 else SumSq(a, n - 1) + Square(a[n - 1])
  }

  /** A sum of squares is never negative. */
  lemma {:induction false} SumSqNonNegative(a: seq<real>, n: nat)
    requires n <= |a|
    ensures 0.0 <= SumSq(a, n)
  {
    if n > 0 {
      SumSqNonNegative(a, n - 1);
      if a[n - 1] != 0.0 {
        PositiveSquare(a[n - 1]);
      }
    }
  }

  /** The first n components of a are all zero. */
  predicate IsZero(a: seq<real>, n: nat)
    requires n <= |a|
  {
    forall i :: 0 <= i < n ==> a[i] == 0.0
  }

  /**
   * The value `cosine(a, b)` returns. Only the first |a| components of b are read;
   * a zero sum of squares on either side gives 0 instead of a division.
   */
  function CosineOf(a: seq<real>, b: seq<real>, sqrt: real -> real): real
    requires |a| <= |b|
    requires IsSqrt(sqrt)
  {
    var na := SumSq(a, |a|);
    var nb := SumSq(b, |a|);
    if na == 0.0 || nb == 0.0 then 0.0
    else
      SumSqNonNegative(a, |a|);
      SumSqNonNegative(b, |a|);
      SqrtPositive(sqrt, na);
      SqrtPositive(sqrt, nb);
      Dot(a, b, |a|) / (sqrt(na) * sqrt(nb))
  }

  lemma SqrtPositive(sqrt: real -> real, x: real)
    requires IsSqrt(sqrt) && 0.0 < x
    ensures 0.0 < sqrt(x)
  {
    assert 0.0 <= sqrt(x) && sqrt(x) * sqrt(x) == x;
  }

  /** The accumulation loop of `cosine`, followed by its zero-norm guard. */
  method Cosine(a: seq<real>, b: seq<real>, sqrt: real -> real) returns (r: real)
    requires |a| <= |b|
    requires IsSqrt(sqrt)
    ensures r == CosineOf(a, b, sqrt)
  {
    var dot, na, nb := 0.0, 0.0, 0.0;
    var len := |a|;
    for i := 0 to len
      invariant dot == Dot(a, b, i)
      invariant na == SumSq(a, i)
      invariant nb == SumSq(b, i)
    {
      var va := a[i];
      var vb := b[i];
      dot := dot + va * vb;
      na := na + va * va;
      nb := nb + vb * vb;
    }
    if na == 0.0 || nb == 0.0 {
      return 0.0;
    }
    SumSqNonNegative(a, len);
    SumSqNonNegative(b, len);
    SqrtPositive(sqrt, na);
    SqrtPositive(sqrt, nb);
    return dot / (sqrt(na) * sqrt(nb));
  }

  lemma PositiveSquare(x: real)
    requires x != 0.0
    ensures 0.0 < Square(x)
  {
    var m := if x < 0.0 then -x else x;
    calc {
      Square(x);
      x * x;
      m * m;
    >  { ProductPositive(m, m); }
      0.0;
    }
  }

  /** Away from the zero-norm guard the score is the dot product over the product of norms. */
  lemma CosineQuotient(a: seq<real>, b: seq<real>, sqrt: real -> real)
    requires |a| <= |b|
    requires IsSqrt(sqrt)
    requires SumSq(a, |a|) != 0.0 && SumSq(b, |a|) != 0.0
    ensures 0.0 < sqrt(SumSq(a, |a|)) && 0.0 < sqrt(SumSq(b, |a|))
    ensures CosineOf(a, b, sqrt) == Dot(a, b, |a|) / (sqrt(SumSq(a, |a|)) * sqrt(SumSq(b, |a|)))
  {
    var na, nb := SumSq(a, |a|), SumSq(b, |a|);
    SumSqNonNegative(a, |a|);
    SumSqNonNegative(b, |a|);
    SqrtPositive(sqrt, na);
    SqrtPositive(sqrt, nb);
    assert CosineOf(a, b, sqrt) == if na == 0.0 || nb == 0.0 then 0.0 else Dot(a, b, |a|) / (sqrt(na) * sqrt(nb));
  }

  /** A sum of squares is zero exactly when every component it covers is zero. */
  lemma {:induction false} SumSqZeroIff(a: seq<real>, n: nat)
    requires n <= |a|
    ensures SumSq(a, n) == 0.0 <==> IsZero(a, n)
  {
    if n > 0 {
      SumSqZeroIff(a, n - 1);
      SumSqNonNegative(a, n - 1);
      var x := a[n - 1];
      if x != 0.0 {
        PositiveSquare(x);
        assert !IsZero(a, n);
      } else {
        assert IsZero(a, n) <==> IsZero(a, n - 1);
      }
    }
  }

  /**
   * The zero-norm guard: the score is 0 exactly when it cannot be a quotient, i.e.
   * when either vector is zero over the compared positions; otherwise it is the dot
   * product divided by a positive product of norms.
   */
  lemma CosineZeroGuard(a: seq<real>, b: seq<real>, sqrt: real -> real)
    requires |a| <= |b|
    requires IsSqrt(sqrt)
    ensures IsZero(a, |a|) || IsZero(b, |a|) ==> CosineOf(a, b, sqrt) == 0.0
    ensures !IsZero(a, |a|) && !IsZero(b, |a|) ==>
              0.0 < sqrt(SumSq(a, |a|)) * sqrt(SumSq(b, |a|)) &&
              CosineOf(a, b, sqrt) == Dot(a, b, |a|) / (sqrt(SumSq(a, |a|)) * sqrt(SumSq(b, |a|)))
  {
    SumSqZeroIff(a, |a|);
    SumSqZeroIff(b, |a|);
    if !IsZero(a, |a|) && !IsZero(b, |a|) {
      CosineQuotient(a, b, sqrt);
    }
  }

  lemma {:induction false} DotSymmetric(a: seq<real>, b: seq<real>, n: nat)
    requires n <= |a| && n <= |b|
    ensures Dot(a, b, n) == Dot(b, a, n)
  {
    if n > 0 {
      DotSymmetric(a, b, n - 1);
    }
  }

  lemma {:induction false} DotSelf(a: seq<real>, n: nat)
    requires n <= |a|
    ensures Dot(a, a, n) == SumSq(a, n)
  {
    if n > 0 {
      DotSelf(a, n - 1);
    }
  }

  /** For vectors of equal length the score does not depend on the argument order. */
  lemma CosineSymmetric(a: seq<real>, b: seq<real>, sqrt: real -> real)
    requires |a| == |b|
    requires IsSqrt(sqrt)
    ensures CosineOf(a, b, sqrt) == CosineOf(b, a, sqrt)
  {
    var n := |a|;
    DotSymmetric(a, b, n);
    var na, nb := SumSq(a, n), SumSq(b, n);
    if na != 0.0 && nb != 0.0 {
      var d := Dot(a, b, n);
      CosineQuotient(a, b, sqrt);
      CosineQuotient(b, a, sqrt);
      var p, p' := sqrt(na) * sqrt(nb), sqrt(nb) * sqrt(na);
      assert CosineOf(a, b, sqrt) == d / p;
      assert CosineOf(b, a, sqrt) == d / p';
      assert p == p';
    } else {
      assert CosineOf(a, b, sqrt) == 0.0;
      assert CosineOf(b, a, sqrt) == 0.0;
    }
  }

  /** A non-zero vector has score 1 against itself. */
  lemma CosineSelf(a: seq<real>, sqrt: real -> real)
    requires IsSqrt(sqrt)
    requires !IsZero(a, |a|)
    ensures CosineOf(a, a, sqrt) == 1.0
  {
    SumSqZeroIff(a, |a|);
    DotSelf(a, |a|);
    CosineQuotient(a, a, sqrt);
    var na := SumSq(a, |a|);
    SumSqNonNegative(a, |a|);
    assert sqrt(na) * sqrt(na) == na;
    assert Dot(a, a, |a|) / na == 1.0;
  }

  lemma NonNegativeProduct(x: real, y: real)
    requires 0.0 <= x && 0.0 <= y
    ensures 0.0 <= x * y
  {
    if 0.0 < x && 0.0 < y {
      ProductPositive(x, y);
    }
  }

  /** d squared is at most na * nb. */
  predicate SquareAtMost(d: real, na: real, nb: real)
  {
    d * d <= na * nb
  }

  /**
   * The inductive step of Cauchy-Schwarz as plain real arithmetic: adding one pair of
   * components (p, q) keeps the squared dot product below the product of the sums.
   */
  lemma CauchySchwarzStep(na: real, nb: real, d: real, p: real, q: real)
    requires 0.0 <= na && 0.0 <= nb && SquareAtMost(d, na, nb)
    ensures SquareAtMost(d + p * q, na + Square(p), nb + Square(q))
  {
    // the gap is (na * nb - d * d) + e, so it suffices that e is non-negative
    var e := na * (q * q) + nb * (p * p) - 2.0 * d * (p * q);
    assert (na + p * p) * (nb + q * q) == na * nb + na * (q * q) + nb * (p * p) + (p * p) * (q * q);
    assert (d + p * q) * (d + p * q) == d * d + 2.0 * d * (p * q) + (p * q) * (p * q);
    assert (p * p) * (q * q) == (p * q) * (p * q);
    NonNegativeProduct(nb, p * p);
    if na == 0.0 {
      if d != 0.0 {
        PositiveSquare(d);
        assert false;
      }
    } else {
      var r := na * q - d * p;
      assert r * r == (na * na) * (q * q) - 2.0 * (na * d) * (p * q) + (d * d) * (p * p);
      assert na * e == (na * na) * (q * q) + (na * nb) * (p * p) - 2.0 * (na * d) * (p * q);
      assert (p * p) * (na * nb - d * d) == (na * nb) * (p * p) - (d * d) * (p * p);
      NonNegativeProduct(p * p, na * nb - d * d);
      if e < 0.0 {
        ProductPositive(na, -e);
        assert false;
      }
    }
  }

  /** Cauchy-Schwarz: the squared dot product is at most the product of the sums of squares. */
  lemma {:induction false} CauchySchwarz(a: seq<real>, b: seq<real>, n: nat)
    requires n <= |a| && n <= |b|
    ensures SquareAtMost(Dot(a, b, n), SumSq(a, n), SumSq(b, n))
  {
    if n > 0 {
      CauchySchwarz(a, b, n - 1);
      SumSqNonNegative(a, n - 1);
      SumSqNonNegative(b, n - 1);
      CauchySchwarzStep(SumSq(a, n - 1), SumSq(b, n - 1), Dot(a, b, n - 1), a[n - 1], b[n - 1]);
    }
  }

  /** Every score lies in [-1, 1]. */
  lemma CosineBounded(a: seq<real>, b: seq<real>, sqrt: real -> real)
    requires |a| <= |b|
    requires IsSqrt(sqrt)
    ensures -1.0 <= CosineOf(a, b, sqrt) <= 1.0
  {
    var na, nb := SumSq(a, |a|), SumSq(b, |a|);
    if na != 0.0 && nb != 0.0 {
      SumSqNonNegative(a, |a|);
      SumSqNonNegative(b, |a|);
      CauchySchwarz(a, b, |a|);
      CosineQuotient(a, b, sqrt);
      QuotientOfNorms(Dot(a, b, |a|), na, nb, sqrt, CosineOf(a, b, sqrt));
    }
  }

  /** A dot product d with d * d <= na * nb, divided by the roots of na and nb, lies in [-1, 1]. */
  lemma QuotientOfNorms(d: real, na: real, nb: real, sqrt: real -> real, c: real)
    requires IsSqrt(sqrt)
    requires SquareAtMost(d, na, nb) && 0.0 < na && 0.0 < nb
    requires c == d / (sqrt(na) * sqrt(nb))
    ensures -1.0 <= c <= 1.0
  {
    var ra, rb := sqrt(na), sqrt(nb);
    assert 0.0 <= ra && ra * ra == na;
    assert 0.0 <= rb && rb * rb == nb;
    SqrtPositive(sqrt, na);
    SqrtPositive(sqrt, nb);
    ProductPositive(ra, rb);
    var p := ra * rb;
    assert p * p == (ra * ra) * (rb * rb);
    QuotientBounded(d, p);
  }

  /** If d * d <= p * p and p > 0 then -1 <= d / p <= 1. */
  lemma QuotientBounded(d: real, p: real)
    requires 0.0 < p && d * d <= p * p
    ensures -1.0 <= d / p <= 1.0
  {
    var q := d / p;
    assert d == q * p;
    if 1.0 < q {
      ProductPositive(q - 1.0, p);
      ProductPositive(d - p, d + p);
      assert false;
    }
    if q < -1.0 {
      ProductPositive(-1.0 - q, p);
      ProductPositive(-p - d, p - d);
      assert false;
    }
  }

  lemma ProductPositive(x: real, y: real)
    requires 0.0 < x && 0.0 < y
    ensures 0.0 < x * y
  {
  }
}
