/** The sieve of Kernel/Applications/primes.cpp, which leaves its answer in a packed bitmap. */
module Primes {
  import opened Bitsets

  function Times(j: nat, k: nat): nat {
    j * k
  }

  ghost predicate IsPrime(n: nat) {
    n >= 2 && forall j, k | j >= 2 && k >= 2 :: Times(j, k) != n
  }

  /** Some d below `limit` has crossed n out; the marks of d start at d * d. */
  ghost predicate Crossed(n: nat, limit: nat) {
    exists d, k :: 2 <= d < limit && d <= k && Times(d, k) == n
  }

  lemma TimesMonotone(j: nat, j': nat, k: nat, k': nat)
    requires j <= j' && k <= k'
    ensures Times(j, k) <= Times(j', k')
  {
    assert j * k <= j' * k;
    assert j' * k <= j' * k';
  }

  /** Below limit * limit only the primes are left. */
  lemma PrimesAreLeft(n: nat, limit: nat)
    requires 2 <= n < Times(limit, limit)
    ensures IsPrime(n) <==> !Crossed(n, limit)
  {
    if j, k :| j >= 2 && k >= 2 && Times(j, k) == n {
      var d, e := if j <= k then j else k, if j <= k then k else j;
      assert Times(d, e) == n;
      if d >= limit {
        TimesMonotone(limit, d, limit, e);
      }
    }
  }

  /** A number that is itself crossed out crosses out nothing new. */
  lemma CrossedAddsNothing(p: nat, n: nat)
    requires Crossed(p, p)
    ensures Crossed(n, p + 1) <==> Crossed(n, p)
  {
    var d, k :| 2 <= d < p && d <= k && Times(d, k) == p;
    if m: nat :| p <= m && Times(p, m) == n {
      assert k * m >= k by {
        assert m >= 1;
      }
      assert Times(d, k * m) == n;
    }
  }

  /** The multiples of p from p * p on are what p crosses out. */
  lemma CrossedNext(n: nat, p: nat)
    requires p >= 2
    ensures Crossed(n, p + 1) <==> Crossed(n, p) || exists k :: p <= k && Times(p, k) == n
  {
  }

  /** The primes below n. */
  ghost function PrimesBelow(n: nat): set<nat> {
    set i: nat | i < n && IsPrime(i)
  }

  /** The bitmap after the outer loop has dealt with every number below `limit`. */
  ghost predicate Sieved(bits: seq<bool>, limit: nat) {
    forall i :: 2 <= i < |bits| ==> (bits[i] <==> !Crossed(i, limit))
  }

  /** `find_primes`, for a bitmap of max * max bits. */
  method FindPrimes(sieve: Bitset, max: nat)
    requires sieve.Valid() && sieve.size == max * max
    requires forall i :: 0 <= i < sieve.size ==> sieve.Bits()[i]
    modifies sieve.words
    ensures forall i :: 2 <= i < max * max ==> (sieve.Bits()[i] <==> IsPrime(i))
  {
    var current := 2;
    while current < max
      invariant 2 <= current && (current <= max || max < 2)
      invariant Sieved(sieve.Bits(), current)
    {
      assert current < max * max by {
        assert current < max <= max * max;
      }
      var prime := sieve.Test(current);
      if prime {
        CrossMultiples(sieve, current);
      } else {
        forall n: nat
          ensures Crossed(n, current + 1) <==> Crossed(n, current)
        {
          CrossedAddsNothing(current, n);
        }
      }
      current := current + 1;
    }
    forall i | 2 <= i < max * max
      ensures sieve.Bits()[i] <==> IsPrime(i)
    {
      assert Times(max, max) == max * max;
      PrimesAreLeft(i, max);
    }
  }

  /** The inner loop: from p * p on, every p-th bit is cleared. */
  method CrossMultiples(sieve: Bitset, p: nat)
    requires sieve.Valid() && p >= 2
    requires Sieved(sieve.Bits(), p)
    modifies sieve.words
    ensures Sieved(sieve.Bits(), p + 1)
  {
    var j := p * p;
    ghost var k := p;
    ghost var before := sieve.Bits();
    while j < sieve.size
      invariant p <= k && j == Times(p, k)
      invariant forall i :: 0 <= i < sieve.size ==>
                  (sieve.Bits()[i] <==> before[i] && !exists m :: p <= m < k && Times(p, m) == i)
    {
      ghost var held := sieve.Bits();
      sieve.Clear(j);
      forall i | 0 <= i < sieve.size
        ensures sieve.Bits()[i] <==> before[i] && !exists m :: p <= m < k + 1 && Times(p, m) == i
      {
        assert i == j ==> Times(p, k) == i;
      }
      assert Times(p, k + 1) == Times(p, k) + p;
      j := j + p;
      k := k + 1;
    }
    forall i | 2 <= i < sieve.size
      ensures sieve.Bits()[i] <==> !Crossed(i, p + 1)
    {
      CrossedNext(i, p);
      if m: nat :| p <= m && Times(p, m) == i {
        if k <= m {
          TimesMonotone(p, p, k, m);
        }
      }
    }
  }

  lemma NextPrime(i: nat)
    ensures |PrimesBelow(i + 1)| == |PrimesBelow(i)| + if IsPrime(i) then 1 else 0
  {
    assert PrimesBelow(i + 1) == PrimesBelow(i) + if IsPrime(i) then {i} else {};
  }

  /** The counting loop of `show_primes`. */
  method CountPrimes(sieve: Bitset, max: nat) returns (count: nat)
    requires sieve.Valid() && sieve.size == max * max
    requires forall i :: 2 <= i < max * max ==> (sieve.Bits()[i] <==> IsPrime(i))
    ensures count == |PrimesBelow(max * max)|
  {
    count := 0;
    ghost var n := max * max;
    assert PrimesBelow(2) == {};
    var i := 2;
    while i < sieve.size
      invariant 2 <= i && (i <= n || i == 2)
      invariant count == |PrimesBelow(i)|
    {
      var bit := sieve.Test(i);
      count := count + if bit then 1 else 0;
      NextPrime(i);
      i := i + 1;
    }
    if n < 2 {
      assert PrimesBelow(n) == {};
    }
  }
}
