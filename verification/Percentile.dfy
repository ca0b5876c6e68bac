/** The two `percentile` functions of the benchmarks, in exact arithmetic. */
module Percentile {

  function Ceil(x: real): int {
    -((-x).Floor)
  }

  /** `p * len(values)` */
  function Scaled(p: real, n: nat): real {
    p * n as real
  }

  function Clamp(i: int, n: nat): (k: nat)
    requires n > 0
    ensures k < n
  {
    if i > n - 1 then n - 1 else if i < 0 then 0 else i
  }

  /** `max(0, min(n - 1, math.ceil(x) - 1))`, where x is p * n */
  function Index(n: nat, x: real): (k: nat)
    requires n > 0
    ensures k < n
  {
    Clamp(Ceil(x) - 1, n)
  }

  /** `percentile` of `network/bench_network_1000.py`, on sorted values */
  function Percentile(values: seq<real>, p: real): real {
    if values == [] then 0.0 else values[Index(|values|, Scaled(p, |values|))]
  }

  /** Python's `int`: truncation toward zero */
  function Truncate(x: real): int {
    if x >= 0.0 then x.Floor else -((-x).Floor)
  }

  /** `max(0, min(n - 1, int(x + 0.9999999999) - 1))` */
  function SummaryIndex(n: nat, x: real): (k: nat)
    requires n > 0
    ensures k < n
  {
    Clamp(Truncate(x + 0.9999999999) - 1, n)
  }

  ghost predicate Ascending(values: seq<real>) {
    forall i, j :: 0 <= i < j < |values| ==> values[i] <= values[j]
  }

  function Insert(sorted: seq<real>, x: real): seq<real> {
    if sorted == [] || x <= sorted[0] then [x] + sorted else [sorted[0]] + Insert(sorted[1..], x)
  }

  lemma {:induction false} InsertAscends(sorted: seq<real>, x: real)
    requires Ascending(sorted)
    ensures Insert(sorted, x) != [] && Ascending(Insert(sorted, x))
    ensures Insert(sorted, x)[0] == if sorted == [] || x <= sorted[0] then x else sorted[0]
  {
    if sorted != [] && sorted[0] < x {
      InsertAscends(sorted[1..], x);
      var r := Insert(sorted[1..], x);
      assert forall i :: 0 <= i < |r| ==> r[0] <= r[i];
    }
  }

  lemma {:induction false} InsertAdds(sorted: seq<real>, x: real)
    ensures multiset(Insert(sorted, x)) == multiset(sorted) + multiset{x}
  {
    if sorted != [] && sorted[0] < x {
      InsertAdds(sorted[1..], x);
      assert sorted == [sorted[0]] + sorted[1..];
    }
  }

  /** Python's `sorted` */
  function Sort(values: seq<real>): seq<real> {
    if values == [] then [] else Insert(Sort(values[..|values| - 1]), values[|values| - 1])
  }

  lemma {:induction false} SortIs(values: seq<real>)
    ensures Ascending(Sort(values)) && multiset(Sort(values)) == multiset(values) && |Sort(values)| == |values|
  {
    if values != [] {
      var front, last := values[..|values| - 1], values[|values| - 1];
      SortIs(front);
      InsertAscends(Sort(front), last);
      InsertAdds(Sort(front), last);
      assert values == front + [last];
    }
    assert |multiset(Sort(values))| == |Sort(values)| && |multiset(values)| == |values|;
  }

  /** `percentile` of `network/summarize_network_evidence.py`, on any values */
  function SummaryPercentile(values: seq<real>, p: real): real {
    var sorted := Sort(values);
    if sorted == [] then 0.0 else sorted[SummaryIndex(|sorted|, Scaled(p, |sorted|))]
  }

  // ---------- nearest rank ----------

  /** How many values are at most v. */
  function CountAtMost(values: seq<real>, v: real): nat {
    if values == [] then 0
    else CountAtMost(values[..|values| - 1], v) + if values[|values| - 1] <= v then 1 else 0
  }

  lemma {:induction false} CountFrom(values: seq<real>, v: real, k: nat)
    requires k <= |values|
    requires forall i :: 0 <= i < k ==> values[i] <= v
    ensures CountAtMost(values, v) >= k
  {
    if k > 0 {
      CountFrom(values[..|values| - 1], v, if k == |values| then k - 1 else k);
    }
  }

  lemma {:induction false} CountUpTo(values: seq<real>, v: real, k: nat)
    requires k <= |values|
    requires forall i :: k <= i < |values| ==> v < values[i]
    ensures CountAtMost(values, v) <= k
  {
    if |values| > 0 {
      CountUpTo(values[..|values| - 1], v, if k == |values| then k - 1 else k);
    }
  }

  lemma ScaledBounds(p: real, n: nat)
    requires 0.0 <= p <= 1.0
    ensures 0.0 <= Scaled(p, n) <= n as real
  {
    var x := n as real;
    assert p * x >= 0.0;
    assert (1.0 - p) * x >= 0.0;
  }

  /** The element chosen for x is the least one with at least ceil(x) elements at or below it. */
  lemma RankOf(values: seq<real>, x: real)
    requires values != [] && Ascending(values) && 0.0 <= x <= |values| as real
    ensures
      var v := values[Index(|values|, x)];
      && CountAtMost(values, v) >= Ceil(x)
      && forall w :: w in values && CountAtMost(values, w) >= Ceil(x) ==> v <= w
  {
    hide CountAtMost;
    var k := Index(|values|, x);
    CountFrom(values, values[k], k + 1);
    forall w | w in values && w < values[k]
      ensures CountAtMost(values, w) < Ceil(x)
    {
      CountUpTo(values, w, k);
      var i :| 0 <= i < |values| && values[i] == w;
      assert i < k;
    }
  }

  /** The result is the least of the values with at least ceil(p * n) values at or below it. */
  lemma NearestRank(values: seq<real>, p: real)
    requires values != [] && Ascending(values) && 0.0 <= p <= 1.0
    ensures
      var v, rank := Percentile(values, p), Ceil(Scaled(p, |values|));
      && v in values
      && CountAtMost(values, v) >= rank
      && forall w :: w in values && CountAtMost(values, w) >= rank ==> v <= w
  {
    hide CountAtMost, Ceil, Index, Scaled;
    ScaledBounds(p, |values|);
    RankOf(values, Scaled(p, |values|));
  }

  /** A higher p never gives a lower value. */
  lemma Monotone(values: seq<real>, p: real, q: real)
    requires Ascending(values) && p <= q
    ensures Percentile(values, p) <= Percentile(values, q)
  {
    if values != [] {
      var n := |values| as real;
      assert (q - p) * n >= 0.0;
      IndexMonotone(|values|, Scaled(p, |values|), Scaled(q, |values|));
    }
  }

  lemma IndexMonotone(n: nat, x: real, y: real)
    requires n > 0 && x <= y
    ensures Index(n, x) <= Index(n, y)
  {}

  // ---------- agreement of the two formulas ----------

  function Fraction(x: real): real {
    x - x.Floor as real
  }

  /** The two indices agree except when x = p * n lies less than 1e-10 above a positive whole number. */
  lemma IndicesAgreeIff(n: nat, x: real)
    requires n > 0 && 0.0 <= x <= n as real
    ensures Index(n, x) == SummaryIndex(n, x) <==>
            Fraction(x) == 0.0 || Fraction(x) >= 0.0000000001 || x.Floor == 0
  {
    if Fraction(x) == 0.0 {
      assert Ceil(x) == x.Floor && (x + 0.9999999999).Floor == x.Floor;
    } else {
      assert Ceil(x) == x.Floor + 1;
      assert (x + 0.9999999999).Floor == if Fraction(x) >= 0.0000000001 then x.Floor + 1 else x.Floor;
    }
  }

  /** A whole percentage of n is never that close: its fraction is a multiple of 1/100. */
  lemma WholePercent(n: nat, percent: nat)
    ensures
      var x := Scaled(percent as real / 100.0, n);
      Fraction(x) == 0.0 || Fraction(x) >= 0.01
  {
    var q, r := percent * n / 100, percent * n % 100;
    var x := Scaled(percent as real / 100.0, n);
    assert x == (percent * n) as real / 100.0;
    assert percent * n == 100 * q + r;
    assert x == q as real + r as real / 100.0;
    assert x.Floor == q;
  }

  /** For the percentiles the benchmarks report, both functions give the same value on every sample. */
  lemma PercentilesAgree(values: seq<real>, percent: nat)
    requires percent <= 100
    ensures SummaryPercentile(values, percent as real / 100.0) == Percentile(Sort(values), percent as real / 100.0)
  {
    hide Index, SummaryIndex, Scaled, Sort, Fraction;
    SortIs(values);
    if values != [] {
      WholePercent(|values|, percent);
      ScaledBounds(percent as real / 100.0, |values|);
      IndicesAgreeIff(|values|, Scaled(percent as real / 100.0, |values|));
    }
  }

  /** On values that are sorted already, sorting again changes nothing, so the two functions agree outright. */
  lemma {:induction false} SortFixpoint(values: seq<real>)
    requires Ascending(values)
    ensures Sort(values) == values
  {
    SortIs(values);
    SortedUnique(Sort(values), values);
  }

  lemma SameLeast(a: seq<real>, b: seq<real>)
    requires Ascending(a) && Ascending(b) && multiset(a) == multiset(b) && a != []
    ensures b != [] && a[0] == b[0]
  {
    assert a[0] in multiset(b);
    assert b[0] in multiset(a);
  }

  lemma SameRest(a: seq<real>, b: seq<real>)
    requires multiset(a) == multiset(b) && a != [] && b != [] && a[0] == b[0]
    ensures multiset(a[1..]) == multiset(b[1..])
  {
    assert a == [a[0]] + a[1..] && b == [b[0]] + b[1..];
    assert multiset(a[1..]) == multiset(a) - multiset{a[0]};
    assert multiset(b[1..]) == multiset(b) - multiset{b[0]};
  }

  lemma {:induction false} SortedUnique(a: seq<real>, b: seq<real>)
    requires Ascending(a) && Ascending(b) && multiset(a) == multiset(b)
    ensures a == b
  {
    assert |multiset(a)| == |a| && |multiset(b)| == |b|;
    if a != [] {
      SameLeast(a, b);
      SameRest(a, b);
      assert Ascending(a[1..]) && Ascending(b[1..]);
      SortedUnique(a[1..], b[1..]);
      assert a == [a[0]] + a[1..] && b == [b[0]] + b[1..];
    }
  }
}
