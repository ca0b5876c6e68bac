/** The first sixty-four primes, from which section 4.2.2 of FIPS 180-4 derives its constants. */
module Primes {

  const P0: seq<nat> := [2, 3, 5, 7, 11, 13, 17, 19, 23, 29, 31, 37, 41, 43, 47, 53]
  const P1: seq<nat> := [59, 61, 67, 71, 73, 79, 83, 89, 97, 101, 103, 107, 109, 113, 127, 131]
  const P2: seq<nat> := [137, 139, 149, 151, 157, 163, 167, 173, 179, 181, 191, 193, 197, 199, 211, 223]
  const P3: seq<nat> := [227, 229, 233, 239, 241, 251, 257, 263, 269, 271, 277, 281, 283, 293, 307, 311]
  const PRIMES: seq<nat> := P0 + P1 + P2 + P3

  ghost predicate IsPrime(n: nat) {
    n >= 2 && forall d :: 2 <= d < n ==> n % d != 0
  }

  /** No prime below 19 divides n, except n itself. */
  predicate Trial(n: nat) {
    && (n == 2 || n % 2 != 0) && (n == 3 || n % 3 != 0) && (n == 5 || n % 5 != 0) && (n == 7 || n % 7 != 0)
    && (n == 11 || n % 11 != 0) && (n == 13 || n % 13 != 0) && (n == 17 || n % 17 != 0)
  }

  predicate NoneFrom(n: nat, q: nat)
    decreases q - n
  {
    n >= q || (!Trial(n) && NoneFrom(n + 1, q))
  }

  /** q is the next number after p that passes. */
  predicate Gap(p: nat, q: nat) {
    p < q && Trial(q) && NoneFrom(p + 1, q)
  }

  /** Below 19 squared the trial is decisive. */
  lemma TrialDecides(n: nat)
    requires 2 <= n < 361
    ensures Trial(n) <==> IsPrime(n)
  {
    if Trial(n) {
      forall d | 2 <= d < n
        ensures n % d != 0
      {
        if n % d == 0 {
          SmallerFactor(n, d);
          SmallDivisor(n, if d < 19 then d else n / d);
        }
      }
    }
  }

  /** One of the two factors is below 19. */
  lemma SmallerFactor(n: nat, d: nat)
    requires 2 <= d < n < 361 && n % d == 0
    ensures 2 <= n / d < n && (d >= 19 ==> n / d < 19 && n % (n / d) == 0)
  {
    ExactQuotient(n, d);
    Cofactor(n, d, n / d);
    MultipleRest(n / d, d);
  }

  lemma ExactQuotient(n: nat, d: nat)
    requires d > 0 && n % d == 0
    ensures n == d * (n / d)
  {}

  lemma Cofactor(n: nat, d: nat, e: nat)
    requires 2 <= d < n < 361 && n == d * e
    ensures 2 <= e < n && (d >= 19 ==> e < 19)
  {
    if e <= 1 {
      AtMost(d, e);
    } else {
      assert 2 * e <= d * e;
      if d >= 19 {
        assert 19 * e <= d * e;
      }
    }
  }

  lemma AtLeast(a: nat, b: int)
    requires b >= 1
    ensures a * b >= a
  {}

  lemma AtMost(a: nat, b: nat)
    requires b <= 1
    ensures a * b <= a
  {}

  lemma MultipleRest(e: nat, d: nat)
    requires e > 0
    ensures (d * e) % e == 0
  {
    var x := d * e;
    var k := d - x / e;
    assert e * k == x % e;
    if k >= 1 {
      AtLeast(e, k);
    } else if k <= -1 {
      AtLeast(e, -k);
    }
  }

  lemma FactorOfDivisor(n: nat, p: nat, k: nat)
    requires p > 0 && k > 0 && n % (p * k) == 0
    ensures n % p == 0
  {
    var q := n / (p * k);
    assert n == (p * k) * q == (k * q) * p;
    MultipleRest(p, k * q);
  }

  lemma SmallDivisor(n: nat, d: nat)
    requires 2 <= d < 19 && d < n && n % d == 0
    ensures !Trial(n)
  {
    if d % 2 == 0 {
      FactorOfDivisor(n, 2, d / 2);
    } else if d % 3 == 0 {
      FactorOfDivisor(n, 3, d / 3);
    }
  }

  lemma Gaps0()
    ensures Gap(2, 3) && Gap(3, 5) && Gap(5, 7) && Gap(7, 11)
    ensures Gap(11, 13) && Gap(13, 17) && Gap(17, 19)
  {}

  lemma Gaps7()
    ensures Gap(19, 23) && Gap(23, 29) && Gap(29, 31) && Gap(31, 37)
    ensures Gap(37, 41) && Gap(41, 43) && Gap(43, 47)
  {}

  lemma Gaps14()
    ensures Gap(47, 53) && Gap(53, 59) && Gap(59, 61) && Gap(61, 67)
    ensures Gap(67, 71) && Gap(71, 73) && Gap(73, 79)
  {}

  lemma Gaps21()
    ensures Gap(79, 83) && Gap(83, 89) && Gap(89, 97) && Gap(97, 101)
    ensures Gap(101, 103) && Gap(103, 107) && Gap(107, 109)
  {}

  lemma Gaps28()
    ensures Gap(109, 113) && Gap(113, 127) && Gap(127, 131) && Gap(131, 137)
    ensures Gap(137, 139) && Gap(139, 149) && Gap(149, 151)
  {}

  lemma Gaps35()
    ensures Gap(151, 157) && Gap(157, 163) && Gap(163, 167) && Gap(167, 173)
    ensures Gap(173, 179) && Gap(179, 181) && Gap(181, 191)
  {}

  lemma Gaps42()
    ensures Gap(191, 193) && Gap(193, 197) && Gap(197, 199) && Gap(199, 211)
    ensures Gap(211, 223) && Gap(223, 227) && Gap(227, 229)
  {}

  lemma Gaps49()
    ensures Gap(229, 233) && Gap(233, 239) && Gap(239, 241) && Gap(241, 251)
    ensures Gap(251, 257) && Gap(257, 263) && Gap(263, 269)
  {}

  lemma Gaps56()
    ensures Gap(269, 271) && Gap(271, 277) && Gap(277, 281) && Gap(281, 283)
    ensures Gap(283, 293) && Gap(293, 307) && Gap(307, 311)
  {}

  ghost predicate Chained(t: seq<nat>) {
    forall i :: 0 <= i < |t| - 1 ==> Gap(t[i], t[i + 1])
  }

  lemma AllGaps()
    ensures Chained(PRIMES)
  {
    hide Gap;
    Gaps0();
    Gaps7();
    Gaps14();
    Gaps21();
    Gaps28();
    Gaps35();
    Gaps42();
    Gaps49();
    Gaps56();
  }

  lemma {:induction false} Increasing(t: seq<nat>, i: nat, j: nat)
    requires Chained(t) && i < j < |t|
    ensures t[i] < t[j]
  {
    hide Trial, NoneFrom;
    assert Gap(t[j - 1], t[j - 1 + 1]);
    if i < j - 1 {
      Increasing(t, i, j - 1);
    }
  }

  lemma {:induction false} NoneBetween(m: nat, q: nat, n: nat)
    requires NoneFrom(m, q) && m <= n < q
    ensures !Trial(n)
    decreases q - m
  {
    hide Trial;
    if m < n {
      NoneBetween(m + 1, q, n);
    }
  }

  /** A chained table holds everything between its ends that passes the trial, and nothing else. */
  lemma {:induction false} ChainedHolds(t: seq<nat>, n: nat)
    requires Chained(t) && t != [] && Trial(t[0]) && t[0] <= n <= t[|t| - 1]
    ensures n in t <==> Trial(n)
  {
    hide Trial, NoneFrom;
    var k := |t| - 1;
    if k > 0 {
      var front := t[..k];
      assert Gap(t[k - 1], t[k - 1 + 1]);
      assert n in t <==> n in front || n == t[k];
      forall i | 0 <= i < k - 1
        ensures Gap(front[i], front[i + 1])
      {
        assert Gap(t[i], t[i + 1]);
      }
      if n <= t[k - 1] {
        ChainedHolds(front, n);
      } else {
        forall i | 0 <= i < k
          ensures front[i] < n
        {
          if i < k - 1 {
            Increasing(t, i, k - 1);
          }
        }
        if n < t[k] {
          NoneBetween(t[k - 1] + 1, t[k], n);
        }
      }
    }
  }

  /** The table is the list of the first sixty-four primes. */
  lemma FirstPrimes()
    ensures |PRIMES| == 64 && forall i, j :: 0 <= i < j < 64 ==> PRIMES[i] < PRIMES[j]
    ensures forall n: nat :: n <= PRIMES[63] ==> (n in PRIMES <==> IsPrime(n))
  {
    hide Trial, IsPrime, Chained;
    AllGaps();
    forall i, j | 0 <= i < j < 64
      ensures PRIMES[i] < PRIMES[j]
    {
      Increasing(PRIMES, i, j);
    }
    assert Trial(PRIMES[0]) by { TrialOfTwo(); }
    forall n: nat | n <= PRIMES[63]
      ensures n in PRIMES <==> IsPrime(n)
    {
      if n < 2 {
        NotPrime(n);
      } else {
        ChainedHolds(PRIMES, n);
        TrialDecides(n);
      }
    }
  }

  lemma TrialOfTwo()
    ensures Trial(2)
  {}

  lemma NotPrime(n: nat)
    requires n < 2
    ensures !IsPrime(n)
  {}
}
