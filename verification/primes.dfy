/** The arithmetic behind genome fingerprints: divisibility, primality and
    Euclid's lemma (a prime dividing a product divides one of its factors). */
module Primes {

  predicate Divides(d: int, n: int)
    requires d > 0
  {
    n % d == 0
  }

  ghost predicate IsPrime(p: int)
  {
    p > 1 && forall d :: 1 < d < p ==> !Divides(d, p)
  }

  /** Euclidean division has one quotient and one remainder. */
  lemma DivModUnique(x: int, p: int, q: int, r: int)
    requires p > 0 && 0 <= r < p && x == q * p + r
    ensures x % p == r && x / p == q
  {
    var q', r' := x / p, x % p;
    assert x == q' * p + r';
    assert (q - q') * p == r' - r;
    if q > q' {
      assert (q - q') * p >= p by { MulAtLeast(q - q', p); }
    } else if q < q' {
      assert (q' - q) * p >= p by { MulAtLeast(q' - q, p); }
    }
  }

  lemma MulAtLeast(k: int, p: int)
    requires k >= 1 && p > 0
    ensures k * p >= p
  {
  }

  /** A multiple of `p` plus `y` leaves the remainder of `y`. */
  lemma ModAddMultiple(k: int, p: int, y: int)
    requires p > 0
    ensures (k * p + y) % p == y % p
  {
    var q, r := y / p, y % p;
    assert k * p + y == (k + q) * p + r;
    DivModUnique(k * p + y, p, k + q, r);
  }

  /** Multiplication commutes with taking remainders. */
  lemma ModMul(a: int, b: int, p: int)
    requires p > 0
    ensures (a * b) % p == ((a % p) * (b % p)) % p
  {
    var qa, ra := a / p, a % p;
    var qb, rb := b / p, b % p;
    assert a == qa * p + ra;
    assert b == qb * p + rb;
    ExpandProduct(qa, ra, qb, rb, p);
    ModAddMultiple(qa * qb * p + qa * rb + ra * qb, p, ra * rb);
  }

  /** Multiplying out two numbers written as quotient and remainder. */
  lemma ExpandProduct(qa: int, ra: int, qb: int, rb: int, p: int)
    ensures (qa * p + ra) * (qb * p + rb) == (qa * qb * p + qa * rb + ra * qb) * p + ra * rb
  {
  }

  /** The step of Euclid's lemma on remainders: if `p` is prime, the product
      of two non-zero remainders is not a multiple of `p`. */
  lemma {:induction false} EuclidResidues(p: int, a: int, b: int)
    requires IsPrime(p)
    requires 0 < a < p && 0 < b < p
    ensures (a * b) % p != 0
    decreases a
  {
    if a == 1 {
      DivModUnique(a * b, p, 0, b);
    } else {
      var q, r := p / a, p % a;
      assert !Divides(a, p);
      assert 0 < r < a;
      EuclidResidues(p, r, b);
      if (a * b) % p == 0 {
        var m := (a * b) / p;
        assert a * b == m * p;
        calc {
          r * b;
          (p - q * a) * b;
          p * b - q * (a * b);
          p * b - q * (m * p);
          (b - q * m) * p;
        }
        DivModUnique(r * b, p, b - q * m, 0);
        assert false;
      }
    }
  }

  /** Euclid's lemma: a prime that divides neither factor does not divide the product. */
  lemma Euclid(p: int, a: int, b: int)
    requires IsPrime(p)
    requires !Divides(p, a) && !Divides(p, b)
    ensures !Divides(p, a * b)
  {
    ModMul(a, b, p);
    EuclidResidues(p, a % p, b % p);
  }

  /** No divisor of `p` among `lo`, ..., `hi - 1`, checked one candidate at a time. */
  predicate NoDivisorIn(p: int, lo: int, hi: int)
    decreases hi - lo
  {
    lo >= hi || (lo > 0 && p % lo != 0 && NoDivisorIn(p, lo + 1, hi))
  }

  lemma {:induction false} NoDivisorInMeans(p: int, lo: int, hi: int)
    requires NoDivisorIn(p, lo, hi)
    ensures forall d :: lo <= d < hi && d > 0 ==> !Divides(d, p)
    decreases hi - lo
  {
    if lo < hi {
      NoDivisorInMeans(p, lo + 1, hi);
    }
  }

  /** Primality by trial division. */
  lemma PrimeByTrialDivision(p: int)
    requires p > 1 && NoDivisorIn(p, 2, p)
    ensures IsPrime(p)
  {
    NoDivisorInMeans(p, 2, p);
  }
}
