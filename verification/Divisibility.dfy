/** Divisibility, coprimality and prime powers. */
module Divisibility {

  ghost predicate Divides(a: int, b: int) { exists k: int :: b == a * k }

  ghost predicate IsPrime(p: int) { p >= 2 && forall d: int | 2 <= d < p :: !Divides(d, p) }

  /** Some integer combination of the two is 1. */
  ghost predicate Coprime(a: int, b: int) { exists u: int, v: int :: u * a + v * b == 1 }

  function Pow(b: int, e: nat): int { if e == 0 then 1 else b * Pow(b, e - 1) }

  lemma DividesMul(a: int, b: int, c: int)
    requires Divides(a, b)
    ensures Divides(a, b * c) && Divides(a, c * b)
  {
    var k :| b == a * k;
    assert b * c == a * (k * c) && c * b == a * (k * c);
  }

  lemma DividesTransitive(a: int, b: int, c: int)
    requires Divides(a, b) && Divides(b, c)
    ensures Divides(a, c)
  {
    var k :| c == b * k;
    DividesMul(a, b, k);
  }

  lemma DividesSum(a: int, b: int, c: int)
    requires Divides(a, b) && Divides(a, c)
    ensures Divides(a, b + c) && Divides(a, b - c)
  {
    var k :| b == a * k;
    var l :| c == a * l;
    assert b + c == a * (k + l) && b - c == a * (k - l);
  }

  lemma DividesReflexive(a: int)
    ensures Divides(a, a) && Divides(1, a) && Divides(a, 0)
  {
    assert a == a * 1 && a == 1 * a && 0 == a * 0;
  }

  /** The combination g of a and b that divides both. */
  lemma Bezout(a: nat, b: nat) returns (g: nat, u: int, v: int)
    requires a > 0
    ensures g > 0 && g == u * a + v * b && Divides(g, a) && Divides(g, b)
    decreases b
  {
    if b == 0 {
      g, u, v := a, 1, 0;
      DividesReflexive(a);
    } else {
      var q, r := a / b, a % b;
      assert a == b * q + r;
      var s, t;
      g, s, t := Bezout(b, r);
      u, v := t, s - t * q;
      assert t * a == t * (b * q) + t * r;
      assert (s - t * q) * b == s * b - t * (b * q);
      DividesMul(g, b, q);
      DividesSum(g, b * q, r);
    }
  }

  /** A divisor of a product that is coprime to one factor divides the other. */
  lemma Gauss(d: int, a: int, b: int)
    requires Coprime(a, d) && Divides(d, a * b)
    ensures Divides(d, b)
  {
    var u, v :| u * a + v * d == 1;
    assert b == (u * a + v * d) * b == u * (a * b) + d * (v * b);
    DividesMul(d, a * b, u);
    DividesReflexive(d);
    DividesMul(d, d, v * b);
    DividesSum(d, u * (a * b), d * (v * b));
  }

  lemma CoprimeProduct(a: int, b: int, c: int)
    requires Coprime(a, b) && Coprime(a, c)
    ensures Coprime(a, b * c)
  {
    var u, v :| u * a + v * b == 1;
    var s, t :| s * a + t * c == 1;
    var y := s * a + t * c;
    assert y == 1 && (u * y) * a + (v * b) * y == 1;
    assert (v * b) * y == (v * b) * (s * a) + (v * b) * (t * c);
    Regroup(v * b, s, a);
    Exchange(v, b, t, c);
    assert (u * y) * a + (v * b * s) * a == (u * y + v * b * s) * a;
    assert (u * y + v * b * s) * a + (v * t) * (b * c) == 1;
  }

  lemma Regroup(x: int, y: int, z: int)
    ensures x * (y * z) == (x * y) * z
  {
  }

  lemma Exchange(v: int, b: int, t: int, c: int)
    ensures (v * b) * (t * c) == (v * t) * (b * c)
  {
    Regroup(v, b, t * c);
    Regroup(b, t, c);
    assert b * t == t * b;
    Regroup(t, b, c);
    Regroup(v, t, b * c);
  }

  lemma CoprimeSymmetric(a: int, b: int)
    requires Coprime(a, b)
    ensures Coprime(b, a)
  {
    var u, v :| u * a + v * b == 1;
    assert v * b + u * a == 1;
  }

  lemma CoprimeOne(a: int)
    ensures Coprime(a, 1)
  {
    assert 0 * a + 1 * 1 == 1;
  }

  /** Two coprime divisors divide together. */
  lemma CoprimeDivisors(a: int, b: int, m: int)
    requires Coprime(a, b) && Divides(a, m) && Divides(b, m)
    ensures Divides(a * b, m)
  {
    var k :| m == a * k;
    Gauss(b, a, k);
    var l :| k == b * l;
    assert m == (a * b) * l;
  }

  lemma DivisorBounds(d: int, n: int)
    requires n > 0 && d > 0 && Divides(d, n)
    ensures d <= n
  {
    var k :| n == d * k;
    Multiples(d, k);
  }

  lemma {:induction false} PowPositive(b: int, e: nat)
    requires b >= 1
    ensures Pow(b, e) >= 1
  {
    if e == 0 {
    } else {
      PowPositive(b, e - 1);
      ProductSign(b - 1, Pow(b, e - 1));
      assert b * Pow(b, e - 1) == (b - 1) * Pow(b, e - 1) + Pow(b, e - 1);
    }
  }

  lemma ProductSign(a: int, b: int)
    requires a >= 0 && b >= 0
    ensures a * b >= 0
  {
  }

  lemma Multiples(d: int, k: int)
    requires d > 0
    ensures k <= 0 ==> d * k <= 0
    ensures k >= 1 ==> d * k >= d
  {
    if k <= 0 {
      ProductSign(d, 0 - k);
      assert d * (0 - k) == 0 - d * k;
    } else {
      ProductSign(d, k - 1);
      assert d * (k - 1) == d * k - d;
    }
  }

  lemma DistinctPrimesCoprime(p: int, q: int)
    requires IsPrime(p) && IsPrime(q) && p != q
    ensures Coprime(p, q)
  {
    var g, u, v := Bezout(p, q);
    DivisorBounds(g, p);
    DivisorBounds(g, q);
    assert g == p || g == 1;
    assert g == q || g == 1;
  }

  lemma {:induction false} CoprimePow(a: int, b: int, e: nat)
    requires Coprime(a, b)
    ensures Coprime(a, Pow(b, e))
  {
    if e == 0 {
      CoprimeOne(a);
    } else {
      CoprimePow(a, b, e - 1);
      CoprimeProduct(a, b, Pow(b, e - 1));
    }
  }

  lemma PrimePowersCoprime(p: int, e: nat, q: int, f: nat)
    requires IsPrime(p) && IsPrime(q) && p != q
    ensures Coprime(Pow(p, e), Pow(q, f))
  {
    DistinctPrimesCoprime(q, p);
    CoprimePow(q, p, e);
    CoprimeSymmetric(q, Pow(p, e));
    CoprimePow(Pow(p, e), q, f);
  }

  lemma {:induction false} PowDivides(p: int, e: nat, f: nat)
    requires e <= f
    ensures Divides(Pow(p, e), Pow(p, f))
  {
    if e == f {
      DividesReflexive(Pow(p, e));
    } else {
      PowDivides(p, e, f - 1);
      DividesMul(Pow(p, e), Pow(p, f - 1), p);
    }
  }

  // ----- Integer division -----

  lemma DivExact(a: int, n: nat, k: int)
    requires n > 0
    ensures k <= a / n <==> k * n <= a
  {
    var q, r := a / n, a % n;
    assert a == q * n + r && 0 <= r < n;
    MulOrder(k, q, n);
    MulOrder(q + 1, k, n);
  }

  lemma MulOrder(a: int, b: int, n: nat)
    ensures a <= b ==> a * n <= b * n
  {
    if a <= b { assert (b - a) * n >= 0; }
  }

  lemma DivOrder(a: int, b: int, n: nat)
    requires n > 0
    ensures a <= b ==> a / n <= b / n
  {
    DivExact(a, n, a / n);
    DivExact(b, n, a / n);
  }

  /** Quotient and remainder are unique. */
  lemma DivUnique(a: int, n: nat, q: int, r: int)
    requires 0 <= r < n && a == q * n + r
    ensures a / n == q && a % n == r
  {
    DivExact(a, n, q);
    DivExact(a, n, q + 1);
    assert (q + 1) * n == q * n + n;
    assert a == a / n * n + a % n;
  }
}
