/** Counting primes with a sieve (Python/count_primes.py). */
module CountPrimes {

  predicate Divides(d: int, k: int)
    requires d > 0
  {
    k % d == 0
  }

  ghost predicate IsPrime(k: int) {
    k >= 2 && forall d :: 2 <= d < k ==> !Divides(d, k)
  }

  ghost function PrimesBelow(n: int): set<int> { set k | 2 <= k < n && IsPrime(k) }

  /** Some d in [2, bound) divides k, and k is at least its square: what the sieve has struck
      out before it comes to bound */
  ghost predicate Struck(k: int, bound: int) {
    exists d :: 2 <= d < bound && d * d <= k && Divides(d, k)
  }

  lemma MulMonotone(a: int, x: int, y: int)
    requires a >= 0 && x <= y
    ensures a * x <= a * y
  {
    assert a * (y - x) >= 0;
    assert a * y == a * x + a * (y - x);
  }

  /** Quotient and remainder are unique */
  lemma RemainderUnique(k: int, d: int, q: int, r: int)
    requires d > 0 && k == d * q + r && 0 <= r < d
    ensures k % d == r
  {
    var q', r' := k / d, k % d;
    assert k == d * q' + r';
    assert d * (q + 1) == d * q + d && d * (q' + 1) == d * q' + d;
    if q < q' {
      MulMonotone(d, q + 1, q');
    } else if q' < q {
      MulMonotone(d, q' + 1, q);
    }
  }

  lemma DividesQuotient(d: int, k: int) returns (q: int)
    requires d > 0 && k > 0 && Divides(d, k)
    ensures k == d * q && 0 < q <= k
  {
    q := k / d;
    assert k == d * q;
    if q <= 0 {
      MulMonotone(d, q, 0);
    }
    MulMonotone(q, 1, d);
  }

  lemma MultipleDivides(d: int, q: int)
    requires d > 0
    ensures Divides(d, d * q)
  {
    RemainderUnique(d * q, d, q, 0);
  }

  lemma DividesTransitive(d: int, i: int, k: int)
    requires d > 0 && i > 0 && k > 0 && Divides(d, i) && Divides(i, k)
    ensures Divides(d, k)
  {
    var a := DividesQuotient(d, i);
    var b := DividesQuotient(i, k);
    assert k == d * (a * b);
    MultipleDivides(d, a * b);
  }

  /** A composite number has a divisor whose square does not exceed it */
  lemma SmallDivisor(k: int, d: int) returns (e: int)
    requires 2 <= d < k && Divides(d, k)
    ensures 2 <= e && e * e <= k && Divides(e, k)
  {
    var q := DividesQuotient(d, k);
    assert q != 1 && q * d == k;
    if d <= q {
      MulMonotone(d, d, q);
      e := d;
    } else {
      MulMonotone(q, q, d);
      MultipleDivides(q, d);
      e := q;
    }
  }

  lemma SquareAbove(d: int)
    requires d >= 2
    ensures d < d * d
  {
    MulMonotone(d, 2, d);
  }

  lemma StruckIsComposite(k: int, bound: int)
    requires k >= 2 && Struck(k, bound)
    ensures !IsPrime(k)
  {
    var d :| 2 <= d < bound && d * d <= k && Divides(d, k);
    SquareAbove(d);
  }

  lemma CompositeIsStruck(k: int, bound: int)
    requires 2 <= k < bound * bound && bound >= 2 && !IsPrime(k)
    ensures Struck(k, bound)
  {
    var d :| 2 <= d < k && Divides(d, k);
    var e := SmallDivisor(k, d);
    if e >= bound {
      MulMonotone(bound, bound, e);
      MulMonotone(e, bound, e);
    }
  }

  /** A composite factor strikes out nothing new */
  lemma StruckFactor(i: int, k: int)
    requires i >= 2 && Struck(i, i) && i * i <= k && Divides(i, k)
    ensures Struck(k, i)
  {
    var d :| 2 <= d < i && d * d <= i && Divides(d, i);
    SquareAbove(i);
    DividesTransitive(d, i, k);
  }

  lemma StruckNext(k: int, i: int)
    requires i >= 2
    ensures Struck(k, i + 1) <==> Struck(k, i) || (i * i <= k && Divides(i, k))
  {
  }

  lemma NextMultiple(i: int, p: int, k: int)
    requires i >= 1 && Divides(i, p) && p <= k < p + i
    ensures Divides(i, k) <==> k == p
    ensures Divides(i, p + i)
  {
    var q := p / i;
    assert p == i * q;
    assert i * (q + 1) == i * q + i;
    MultipleDivides(i, q + 1);
    RemainderUnique(k, i, q, k - p);
  }

  /** The inner loop: strikes out i*i, i*i + i, ... below the length */
  method Strike(primes: array<bool>, i: int)
    requires i >= 2 && i * i < primes.Length
    modifies primes
    ensures forall k :: 0 <= k < primes.Length ==>
              (primes[k] <==> old(primes[k]) && !(i * i <= k && Divides(i, k)))
  {
    var p := i * i;
    MultipleDivides(i, i);
    while p < primes.Length
      invariant p >= i * i && Divides(i, p)
      invariant forall k :: 0 <= k < primes.Length ==>
                  (primes[k] <==> old(primes[k]) && !(i * i <= k < p && Divides(i, k)))
    {
      forall k | p <= k < p + i ensures Divides(i, k) <==> k == p {
        NextMultiple(i, p, k);
      }
      NextMultiple(i, p, p);
      primes[p] := false;
      p := p + i;
    }
  }

  /** One round of the sieve with factor i */
  method SieveRound(primes: array<bool>, i: int)
    requires i >= 2 && i * i < primes.Length
    requires forall k :: 2 <= k < primes.Length ==> (primes[k] <==> !Struck(k, i))
    modifies primes
    ensures forall k :: 2 <= k < primes.Length ==> (primes[k] <==> !Struck(k, i + 1))
  {
    ghost var before := primes[..];
    SquareAbove(i);
    if primes[i] {
      Strike(primes, i);
    }
    forall k | 2 <= k < primes.Length ensures primes[k] <==> !Struck(k, i + 1) {
      StruckNext(k, i);
      assert before[k] <==> !Struck(k, i);
      if !before[i] && i * i <= k && Divides(i, k) {
        StruckFactor(i, k);
      }
    }
  }

  method CountPrimes(n: int) returns (counter: nat)
    ensures counter == |PrimesBelow(n)|
  {
    var primes := new bool[if n < 0 then 0 else n](_ => true);
    var i := 2;
    while i * i < n
      invariant i >= 2
      invariant forall k :: 2 <= k < primes.Length ==> (primes[k] <==> !Struck(k, i))
      decreases n - i
    {
      SquareAbove(i);
      SieveRound(primes, i);
      i := i + 1;
    }
    counter := CountMarked(primes, n, i);
  }

  /** The counting loop over the finished sieve */
  method CountMarked(primes: array<bool>, n: int, i: int) returns (counter: nat)
    requires primes.Length == (if n < 0 then 0 else n) && i >= 2 && i * i >= n
    requires forall k :: 2 <= k < primes.Length ==> (primes[k] <==> !Struck(k, i))
    ensures counter == |PrimesBelow(n)|
  {
    counter := 0;
    assert PrimesBelow(2) == {};
    if n < 2 {
      assert PrimesBelow(n) == {};
      return;
    }
    for j := 2 to n
      invariant counter == |PrimesBelow(j)|
    {
      SieveExact(j, i);
      assert PrimesBelow(j + 1) == PrimesBelow(j) + if IsPrime(j) then {j} else {};
      if primes[j] {
        counter := counter + 1;
      }
    }
  }

  /** Once the square of the bound reaches k, what is not struck out is prime */
  lemma SieveExact(k: int, bound: int)
    requires 2 <= k < bound * bound && bound >= 2
    ensures Struck(k, bound) <==> !IsPrime(k)
  {
    if Struck(k, bound) {
      StruckIsComposite(k, bound);
    } else if !IsPrime(k) {
      CompositeIsStruck(k, bound);
    }
  }
}
