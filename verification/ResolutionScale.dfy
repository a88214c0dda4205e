/** The scale that makes all the resolutions of a grid integers. */
module ResolutionScale {
  import opened Divisibility

  function Product(s: seq<int>): int { if s == [] then 1 else s[0] * Product(s[1..]) }

  function Count(p: int, s: seq<int>): nat { if s == [] then 0 else Count(p, s[1..]) + if s[0] == p then 1 else 0 }

  ghost predicate AllPrime(s: seq<int>) { forall i | 0 <= i < |s| :: IsPrime(s[i]) }

  predicate Ascending(s: seq<int>) { forall i, j | 0 <= i < j < |s| :: s[i] <= s[j] }

  lemma {:induction false} ProductAppend(s: seq<int>, p: int)
    ensures Product(s + [p]) == Product(s) * p
  {
    if s == [] {
      assert (s + [p])[1..] == [];
    } else {
      assert (s + [p])[1..] == s[1..] + [p];
      ProductAppend(s[1..], p);
      Regroup(s[0], Product(s[1..]), p);
    }
  }

  lemma ModDivides(a: int, b: int)
    requires a > 0
    ensures b % a == 0 <==> Divides(a, b)
    ensures b % a == 0 ==> b == a * (b / a)
  {
    assert b == a * (b / a) + b % a;
    if Divides(a, b) {
      var k :| b == a * k;
      Remainder(a, k, b / a, b % a);
    }
  }

  lemma Remainder(a: int, k: int, q: int, r: int)
    requires a > 0 && a * k == a * q + r && 0 <= r < a
    ensures r == 0
  {
    assert a * (k - q) == r;
    Multiples(a, k - q);
  }

  /** The first divisor found, counting up from 2, is a prime. */
  lemma SmallestDivisorPrime(loop: int, x: int)
    requires loop >= 2 && Divides(loop, x) && forall d | 2 <= d < loop :: !Divides(d, x)
    ensures IsPrime(loop)
  {
    forall d: int | 2 <= d < loop ensures !Divides(d, loop) {
      if Divides(d, loop) { DividesTransitive(d, loop, x); }
    }
  }

  /** No number from 2 up to `loop` divides x. */
  ghost predicate NoDivisorBelow(loop: int, x: int) { forall d: int | 2 <= d < loop :: !Divides(d, x) }

  lemma DivideOut(loop: int, x: int, q: int, factors: seq<int>)
    requires 2 <= loop <= x && x == loop * q && NoDivisorBelow(loop, x)
    ensures 1 <= q < x && IsPrime(loop) && NoDivisorBelow(loop, q)
    ensures Product(factors + [loop]) * q == Product(factors) * x
  {
    assert Divides(loop, x);
    SmallestDivisorPrime(loop, x);
    QuotientBounds(loop, q);
    ProductAppend(factors, loop);
    Regroup(Product(factors), loop, q);
    forall d: int | 2 <= d < loop ensures !Divides(d, q) {
      if Divides(d, q) { DividesMul(d, q, loop); }
    }
  }

  lemma QuotientBounds(loop: int, q: int)
    requires 2 <= loop && loop * q >= 1
    ensures 1 <= q < loop * q
  {
    Multiples(loop, q);
    Multiples(q, loop - 1);
    assert loop * q == q + (loop - 1) * q;
  }

  lemma NextLoop(loop: int, x: int)
    requires loop >= 2 && NoDivisorBelow(loop, x) && x % loop != 0
    ensures NoDivisorBelow(loop + 1, x)
  {
    ModDivides(loop, x);
  }

  /** The prime factors of x in ascending order. */
  method PrimeFactors(x0: int) returns (factors: seq<int>)
    ensures x0 >= 1 ==> Product(factors) == x0
    ensures AllPrime(factors) && Ascending(factors)
    ensures x0 <= 1 ==> factors == []
  {
    var x, loop := x0, 2;
    factors := [];
    while loop <= x
      invariant loop >= 2 && (x0 >= 1 ==> x >= 1) && (x0 <= 1 ==> x == x0)
      invariant Product(factors) * x == x0
      invariant NoDivisorBelow(loop, x)
      invariant AllPrime(factors) && Ascending(factors) && forall i | 0 <= i < |factors| :: factors[i] <= loop
      invariant x0 <= 1 ==> factors == []
      decreases x, x - loop
    {
      if x % loop == 0 {
        ModDivides(loop, x);
        DivideOut(loop, x, x / loop, factors);
        x := x / loop;
        factors := factors + [loop];
      } else {
        NextLoop(loop, x);
        loop := loop + 1;
      }
    }
    DividesReflexive(x);
  }

  // ----- The least common multiple -----

  function Without(p: int, s: seq<int>): seq<int> {
    if s == [] then [] else if s[0] == p then Without(p, s[1..]) else [s[0]] + Without(p, s[1..])
  }

  lemma {:induction false} SplitPrime(p: int, s: seq<int>)
    requires AllPrime(s)
    ensures Product(s) == Pow(p, Count(p, s)) * Product(Without(p, s))
    ensures AllPrime(Without(p, s)) && |Without(p, s)| <= |s|
    ensures forall q :: Count(q, Without(p, s)) == if q == p then 0 else Count(q, s)
  {
    if s == [] {
    } else {
      SplitPrime(p, s[1..]);
      var c, w := Pow(p, Count(p, s[1..])), Product(Without(p, s[1..]));
      if s[0] == p {
        Regroup(p, c, w);
      } else {
        assert Without(p, s)[1..] == Without(p, s[1..]);
        Regroup(s[0], c, w);
        Regroup(c, s[0], w);
        assert s[0] * c == c * s[0];
      }
    }
  }

  lemma {:induction false} CoprimeWithout(p: int, e: nat, s: seq<int>)
    requires IsPrime(p) && AllPrime(s) && Count(p, s) == 0
    ensures Coprime(Pow(p, e), Product(s))
  {
    if s == [] {
      CoprimeOne(Pow(p, e));
    } else {
      CoprimeWithout(p, e, s[1..]);
      PrimePowersCoprime(p, e, s[0], 1);
      assert Pow(s[0], 1) == s[0] * Pow(s[0], 0) == s[0];
      CoprimeProduct(Pow(p, e), s[0], Product(s[1..]));
    }
  }

  /** A product of primes divides m if each of its prime powers does. */
  lemma {:induction false} ProductDivides(s: seq<int>, m: int)
    requires AllPrime(s) && forall p: int | Count(p, s) > 0 :: Divides(Pow(p, Count(p, s)), m)
    ensures Divides(Product(s), m)
    decreases |s|
  {
    if s == [] {
      DividesReflexive(m);
      assert m == 1 * m;
    } else {
      var p := s[0];
      SplitPrime(p, s);
      var w := Without(p, s);
      assert Count(p, s) > 0;
      assert w == Without(p, s[1..]);
      SplitPrime(p, s[1..]);
      ProductDivides(w, m);
      CoprimeWithout(p, Count(p, s), w);
      CoprimeDivisors(Pow(p, Count(p, s)), Product(w), m);
    }
  }

  lemma {:induction false} PowCountDivides(p: int, s: seq<int>)
    ensures Divides(Pow(p, Count(p, s)), Product(s))
  {
    if s == [] {
      DividesReflexive(1);
    } else {
      PowCountDivides(p, s[1..]);
      var k :| Product(s[1..]) == Pow(p, Count(p, s[1..])) * k;
      if s[0] == p {
        Regroup(p, Pow(p, Count(p, s[1..])), k);
        assert Product(s) == Pow(p, Count(p, s)) * k;
      } else {
        DividesMul(Pow(p, Count(p, s[1..])), Product(s[1..]), s[0]);
      }
    }
  }

  /** The largest number of times p occurs in one of the lists. */
  function MaxCount(p: int, lists: seq<seq<int>>): nat {
    if lists == [] then 0
    else
      var m, c := MaxCount(p, lists[..|lists| - 1]), Count(p, lists[|lists| - 1]);
      if m < c then c else m
  }

  lemma {:induction false} MaxCountExact(p: int, lists: seq<seq<int>>)
    ensures forall i | 0 <= i < |lists| :: Count(p, lists[i]) <= MaxCount(p, lists)
    ensures MaxCount(p, lists) > 0 ==> exists i :: 0 <= i < |lists| && Count(p, lists[i]) == MaxCount(p, lists)
  {
    if lists == [] {
    } else {
      var n := |lists| - 1;
      MaxCountExact(p, lists[..n]);
      assert forall i | 0 <= i < n :: lists[..n][i] == lists[i];
      if MaxCount(p, lists[..n]) == MaxCount(p, lists) > 0 {
        var i :| 0 <= i < n && Count(p, lists[..n][i]) == MaxCount(p, lists[..n]);
        assert Count(p, lists[i]) == MaxCount(p, lists);
      }
    }
  }

  /** `exponents` has the largest exponent of every prime in the lists. */
  ghost predicate Records(exponents: map<int, nat>, lists: seq<seq<int>>) {
    forall p: int :: if p in exponents then exponents[p] == MaxCount(p, lists) > 0 else MaxCount(p, lists) == 0
  }

  lemma {:induction false} CountPositive(p: int, s: seq<int>)
    ensures Count(p, s) > 0 <==> p in s
  {
    if s == [] {
    } else {
      CountPositive(p, s[1..]);
      assert s == [s[0]] + s[1..];
    }
  }

  /** Record the prime factors of one denominator. */
  method Record(exponents: map<int, nat>, factors: seq<int>, ghost lists: seq<seq<int>>)
    returns (updated: map<int, nat>)
    requires Records(exponents, lists)
    ensures Records(updated, lists + [factors])
  {
    updated := exponents;
    var todo := set f | f in factors;
    while todo != {}
      invariant forall p: int | p in todo :: p in factors
      invariant forall p: int ::
        var best := if p in factors && p !in todo then MaxCount(p, lists + [factors]) else MaxCount(p, lists);
        if p in updated then updated[p] == best > 0 else best == 0
      decreases |todo|
    {
      assert (forall f: int :: f !in todo) ==> todo == {};
      var factor :| factor in todo;
      var count := Count(factor, factors);
      var previous := if factor in updated then updated[factor] else 0;
      assert (lists + [factors])[..|lists|] == lists;
      CountPositive(factor, factors);
      updated := updated[factor := if previous < count then count else previous];
      todo := todo - {factor};
    }
    assert (lists + [factors])[..|lists|] == lists;
    forall p: int ensures p !in factors ==> MaxCount(p, lists + [factors]) == MaxCount(p, lists) {
      CountPositive(p, factors);
    }
  }

  /** m is a multiple of every recorded prime power. */
  ghost predicate CommonMultiple(exponents: map<int, nat>, primes: set<int>, m: int)
    requires primes <= exponents.Keys
  {
    forall p | p in primes :: Divides(Pow(p, exponents[p]), m)
  }

  /** The product of the recorded prime powers divides their common multiples. */
  method PowerProduct(exponents: map<int, nat>) returns (result: int)
    requires forall p | p in exponents :: IsPrime(p)
    ensures result >= 1 && CommonMultiple(exponents, exponents.Keys, result)
    ensures forall m: int | CommonMultiple(exponents, exponents.Keys, m) :: Divides(result, m)
  {
    result := 1;
    var todo := exponents.Keys;
    forall p | p in todo ensures Coprime(Pow(p, exponents[p]), 1) { CoprimeOne(Pow(p, exponents[p])); }
    forall m: int ensures Divides(1, m) { assert m == 1 * m; }
    while todo != {}
      invariant todo <= exponents.Keys && result >= 1
      invariant CommonMultiple(exponents, exponents.Keys - todo, result)
      invariant forall m: int | CommonMultiple(exponents, exponents.Keys, m) :: Divides(result, m)
      invariant forall p | p in todo :: Coprime(Pow(p, exponents[p]), result)
      decreases |todo|
    {
      var p :| p in todo;
      var power := Pow(p, exponents[p]);
      forall q | q in exponents.Keys - todo ensures Divides(Pow(q, exponents[q]), result * power) {
        DividesMul(Pow(q, exponents[q]), result, power);
      }
      assert Divides(power, result * power) by { DividesReflexive(power); DividesMul(power, power, result); }
      forall m: int | CommonMultiple(exponents, exponents.Keys, m) ensures Divides(result * power, m) {
        CoprimeSymmetric(power, result);
        CoprimeDivisors(result, power, m);
      }
      forall q | q in todo - {p} ensures Coprime(Pow(q, exponents[q]), result * power) {
        PrimePowersCoprime(q, exponents[q], p, exponents[p]);
        CoprimeProduct(Pow(q, exponents[q]), result, power);
      }
      PowPositive(p, exponents[p]);
      Multiples(result, power);
      result := result * power;
      todo := todo - {p};
    }
    assert exponents.Keys - todo == exponents.Keys;
  }

  /** The least common multiple of the denominators of the resolutions. */
  method Scale(denominators: seq<int>) returns (result: int)
    requires forall i | 0 <= i < |denominators| :: denominators[i] >= 1
    ensures result >= 1
    ensures forall i | 0 <= i < |denominators| :: Divides(denominators[i], result)
    ensures forall m: int | (forall i | 0 <= i < |denominators| :: Divides(denominators[i], m)) :: Divides(result, m)
  {
    var exponents: map<int, nat> := map[];
    ghost var lists: seq<seq<int>> := [];
    for i := 0 to |denominators|
      invariant |lists| == i && Records(exponents, lists)
      invariant forall k | 0 <= k < i :: AllPrime(lists[k]) && Product(lists[k]) == denominators[k]
    {
      var factors := PrimeFactors(denominators[i]);
      exponents := Record(exponents, factors, lists);
      lists := lists + [factors];
    }
    forall p | p in exponents ensures IsPrime(p) { RecordedPrime(exponents, lists, p); }
    result := PowerProduct(exponents);
    forall i | 0 <= i < |denominators| ensures Divides(denominators[i], result) {
      ListDivides(exponents, lists, i, result);
    }
    forall m: int | forall i | 0 <= i < |denominators| :: Divides(denominators[i], m)
      ensures CommonMultiple(exponents, exponents.Keys, m)
    {
      forall p | p in exponents ensures Divides(Pow(p, exponents[p]), m) {
        var i := RecordedIn(exponents, lists, p);
        PowCountDivides(p, lists[i]);
        DividesTransitive(Pow(p, exponents[p]), denominators[i], m);
      }
    }
  }

  lemma RecordedIn(exponents: map<int, nat>, lists: seq<seq<int>>, p: int) returns (i: nat)
    requires Records(exponents, lists) && p in exponents
    ensures i < |lists| && Count(p, lists[i]) == exponents[p] > 0
  {
    MaxCountExact(p, lists);
    i :| i < |lists| && Count(p, lists[i]) == MaxCount(p, lists);
  }

  lemma RecordedPrime(exponents: map<int, nat>, lists: seq<seq<int>>, p: int)
    requires Records(exponents, lists) && p in exponents && forall k | 0 <= k < |lists| :: AllPrime(lists[k])
    ensures IsPrime(p)
  {
    var i := RecordedIn(exponents, lists, p);
    CountPositive(p, lists[i]);
  }

  lemma ListDivides(exponents: map<int, nat>, lists: seq<seq<int>>, i: nat, m: int)
    requires Records(exponents, lists) && i < |lists| && AllPrime(lists[i])
    requires CommonMultiple(exponents, exponents.Keys, m)
    ensures Divides(Product(lists[i]), m)
  {
    forall p: int | Count(p, lists[i]) > 0 ensures Divides(Pow(p, Count(p, lists[i])), m) {
      MaxCountExact(p, lists);
      assert p in exponents;
      PowDivides(p, Count(p, lists[i]), exponents[p]);
      DividesTransitive(Pow(p, Count(p, lists[i])), Pow(p, exponents[p]), m);
    }
    ProductDivides(lists[i], m);
  }

  /** A resolution, as a fraction in lowest terms. */
  datatype Resolution = Resolution(numerator: int, denominator: int)

  ghost predicate LowestTerms(r: Resolution) { r.denominator >= 1 && Coprime(r.numerator, r.denominator) }

  /** The resolution times the scale is an integer. */
  ghost predicate Integral(r: Resolution, scale: int) { Divides(r.denominator, r.numerator * scale) }

  /** A scale makes every resolution an integer exactly when it is a multiple of
      the computed one. */
  method ScaleOf(resolutions: seq<Resolution>) returns (scale: int)
    requires forall i | 0 <= i < |resolutions| :: LowestTerms(resolutions[i])
    ensures scale >= 1
    ensures forall k: int ::
      (forall i | 0 <= i < |resolutions| :: Integral(resolutions[i], k)) <==> Divides(scale, k)
  {
    var denominators := seq(|resolutions|, i requires 0 <= i < |resolutions| => resolutions[i].denominator);
    scale := Scale(denominators);
    forall i | 0 <= i < |resolutions| ensures Divides(resolutions[i].denominator, scale) {
      assert Divides(denominators[i], scale);
    }
    forall k: int
      ensures (forall i | 0 <= i < |resolutions| :: Integral(resolutions[i], k)) <==> Divides(scale, k)
    {
      if forall i | 0 <= i < |resolutions| :: Divides(resolutions[i].denominator, k) {
        assert forall i | 0 <= i < |denominators| :: Divides(denominators[i], k);
      }
      IntegralExact(resolutions, scale, k);
    }
  }

  lemma IntegralExact(resolutions: seq<Resolution>, scale: int, k: int)
    requires forall i | 0 <= i < |resolutions| :: LowestTerms(resolutions[i])
    requires forall i | 0 <= i < |resolutions| :: Divides(resolutions[i].denominator, scale)
    requires (forall i | 0 <= i < |resolutions| :: Divides(resolutions[i].denominator, k)) ==> Divides(scale, k)
    ensures (forall i | 0 <= i < |resolutions| :: Integral(resolutions[i], k)) <==> Divides(scale, k)
  {
    forall i | 0 <= i < |resolutions|
      ensures Integral(resolutions[i], k) <==> Divides(resolutions[i].denominator, k)
    {
      var r := resolutions[i];
      if Integral(r, k) { Gauss(r.denominator, r.numerator, k); }
      if Divides(r.denominator, k) { DividesMul(r.denominator, k, r.numerator); }
    }
    if Divides(scale, k) {
      forall i | 0 <= i < |resolutions| ensures Divides(resolutions[i].denominator, k) {
        DividesTransitive(resolutions[i].denominator, scale, k);
      }
    }
  }
}
