/** The power-trace decoder `m4/evidence/benchmark/ppk2_offline_decode.py`, in exact arithmetic. */
module Ppk2 {
  import opened Bytes

  // ---------- one raw word ----------

  const R: seq<real> := [1031.64, 101.65, 10.15, 0.94, 0.043]
  const ADC_MULT: real := 1.8 / 163840.0
  const SPIKE_ALPHA: real := 0.18
  const SPIKE_ALPHA5: real := 0.06
  const SPIKE_SAMPLES: int := 3

  /** One converted sample: its measuring range, its current before the filter, and digital channel 0. */
  datatype Reading = Reading(range: nat, val: real, marker: nat)

  /** `(raw & mask) >> pos` for a mask of `bits` ones at `pos` */
  function BitField(raw: nat, bits: nat, pos: nat): nat {
    raw / Pow2(pos) % Pow2(bits)
  }

  /** `r * (GS * r + GI)` with the offsets and gains of the script, which are all 0 and 1. */
  function Convert(range: nat, adc: nat): real
    requires range <= 4
  {
    var r := adc as real * (ADC_MULT / R[range]);
    r * (r + 1.0)
  }

  function DecodeWord(raw: nat): (s: Reading)
    ensures s.range <= 4 && s.marker <= 1
  {
    var f := BitField(raw, 3, 14);
    var range := if f < 4 then f else 4;
    Reading(range, Convert(range, 4 * BitField(raw, 14, 0)), BitField(raw, 8, 24) % 2)
  }

  /** The fields do not overlap and miss nothing but the seven unused bits. */
  lemma FieldsRecombine(raw: nat)
    requires raw < 0x1_0000_0000
    ensures raw == BitField(raw, 14, 0) + 0x4000 * BitField(raw, 3, 14)
                   + 0x2_0000 * BitField(raw, 7, 17) + 0x100_0000 * BitField(raw, 8, 24)
  {
    PowersOfTwo();
    assert raw / 0x4000 / 8 == raw / 0x2_0000 && raw / 0x2_0000 / 0x80 == raw / 0x100_0000;
  }

  lemma PowersOfTwo()
    ensures Pow2(0) == 1 && Pow2(3) == 8 && Pow2(7) == 0x80 && Pow2(8) == 0x100 && Pow2(14) == 0x4000
    ensures Pow2(17) == 0x2_0000 && Pow2(24) == 0x100_0000
  {
    assert Pow2(4) == 0x10;
    assert Pow2(12) == 0x1000;
    assert Pow2(16) == 0x1_0000;
    assert Pow2(20) == 0x10_0000;
  }

  /** Within one measuring range a higher reading is a higher current, and no current is negative. */
  lemma ConvertMonotone(range: nat, adc: nat, adc': nat)
    requires range <= 4 && adc < adc'
    ensures 0.0 <= Convert(range, adc) < Convert(range, adc')
  {
    var k := ADC_MULT / R[range];
    assert k > 0.0;
    var r, r' := adc as real * k, adc' as real * k;
    Product(adc as real, k);
    PositiveProduct((adc' - adc) as real, k);
    assert r' - r == (adc' - adc) as real * k;
    Square(r, r');
  }

  lemma Square(r: real, r': real)
    requires 0.0 <= r < r'
    ensures 0.0 <= r * (r + 1.0) < r' * (r' + 1.0)
  {
    Product(r, r + 1.0);
    PositiveProduct(r' - r, r' + r + 1.0);
    assert r' * (r' + 1.0) - r * (r + 1.0) == (r' - r) * (r' + r + 1.0);
  }

  /** `int.from_bytes(buf[off:off+4], "little")` */
  function LittleEndian(b: bytes): nat
    requires |b| == 4
  {
    b[0] as nat + 0x100 * b[1] as nat + 0x1_0000 * b[2] as nat + 0x100_0000 * b[3] as nat
  }

  /** The samples of a capture; up to three trailing octets are ignored. */
  function Readings(buf: bytes): (rs: seq<Reading>)
    ensures |rs| == |buf| / 4
    ensures forall i :: 0 <= i < |rs| ==> rs[i].range <= 4 && rs[i].marker <= 1
  {
    seq(|buf| / 4, i requires 0 <= i < |buf| / 4 => DecodeWord(LittleEndian(buf[4 * i..4 * i + 4])))
  }

  // ---------- the window specification of the spike filter ----------

  /** The measuring range switches at sample i. */
  ghost predicate Switch(rs: seq<Reading>, i: int)
    requires i < |rs|
  {
    0 < i && rs[i].range != rs[i - 1].range
  }

  /** Sample i is replaced: the range switched at i, i-1 or i-2. */
  ghost predicate Replaced(rs: seq<Reading>, i: nat)
    requires i < |rs|
  {
    Switch(rs, i) || Switch(rs, i - 1) || Switch(rs, i - 2)
  }

  /** Sample i is one of the first two after a switch into range 4. */
  ghost predicate Frozen(rs: seq<Reading>, i: nat)
    requires i < |rs|
  {
    || (Switch(rs, i) && rs[i].range == 4)
    || (Switch(rs, i - 1) && rs[i - 1].range == 4 && rs[i].range == 4)
  }

  /** The samples below n that the averages take in. */
  ghost function Kept(rs: seq<Reading>, n: nat): (xs: seq<real>)
    requires n <= |rs|
    ensures n > 0 ==> xs != []
  {
    if n == 0 then []
    else if Frozen(rs, n - 1) then Kept(rs, n - 1)
    else Kept(rs, n - 1) + [rs[n - 1].val]
  }

  function Blend(alpha: real, x: real, avg: real): real {
    alpha * x + (1.0 - alpha) * avg
  }

  /** The exponential average of xs with weight alpha on the newest element. */
  ghost function Ema(alpha: real, xs: seq<real>): real
    requires xs != []
  {
    if |xs| == 1 then xs[0]
    else Blend(alpha, xs[|xs| - 1], Ema(alpha, xs[..|xs| - 1]))
  }

  /** The filtered current at sample i. */
  ghost function Filtered(rs: seq<Reading>, i: nat): real
    requires i < |rs|
  {
    if !Replaced(rs, i) then rs[i].val
    else if rs[i].range == 4 then Ema(SPIKE_ALPHA5, Kept(rs, i + 1))
    else Ema(SPIKE_ALPHA, Kept(rs, i + 1))
  }

  // ---------- the state machine of `decode_samples` ----------

  /** The five variables the loop carries. */
  datatype Filter = Filter(avg: Option<real>, avg4: Option<real>, prevRange: Option<nat>, consecutive: int,
                           afterSpike: int)

  /** What the five variables mean after the first n samples. */
  ghost predicate Tracks(f: Filter, rs: seq<Reading>, n: nat)
    requires n <= |rs|
  {
    if n == 0 then f == Filter(None, None, None, 0, 0)
    else
      && f.avg == Some(Ema(SPIKE_ALPHA, Kept(rs, n)))
      && f.avg4 == Some(Ema(SPIKE_ALPHA5, Kept(rs, n)))
      && f.prevRange == Some(rs[n - 1].range)
      && f.afterSpike == (if Switch(rs, n - 1) then 2 else if Switch(rs, n - 2) then 1 else 0)
      && (f.afterSpike > 0 ==> f.consecutive == 2 - f.afterSpike)
  }

  /** The average after one more kept sample. */
  lemma EmaStep(alpha: real, rs: seq<Reading>, n: nat)
    requires 0 < n < |rs| && !Frozen(rs, n)
    ensures Ema(alpha, Kept(rs, n + 1)) == Blend(alpha, rs[n].val, Ema(alpha, Kept(rs, n)))
  {
    hide Blend;
    var xs := Kept(rs, n + 1);
    assert xs[..|xs| - 1] == Kept(rs, n);
  }

  /** One turn of the loop of `decode_samples`, from the averages on. */
  method FilterStep(f: Filter, ghost rs: seq<Reading>, ghost n: nat, s: Reading) returns (f': Filter, val: real)
    requires n < |rs| && rs[n] == s && Tracks(f, rs, n)
    ensures Tracks(f', rs, n + 1) && val == Filtered(rs, n)
  {
    hide Blend;
    val := s.val;
    var avg := if f.avg.None? then val else Blend(SPIKE_ALPHA, val, f.avg.value);
    var avg4 := if f.avg4.None? then val else Blend(SPIKE_ALPHA5, val, f.avg4.value);
    var prevRange := if f.prevRange.None? then s.range else f.prevRange.value;
    var consecutive, afterSpike := f.consecutive, f.afterSpike;
    if n > 0 && !Frozen(rs, n) {
      EmaStep(SPIKE_ALPHA, rs, n);
      EmaStep(SPIKE_ALPHA5, rs, n);
    }
    if prevRange != s.range || afterSpike > 0 {
      if prevRange != s.range {
        consecutive := 0;
        afterSpike := SPIKE_SAMPLES;
      } else {
        consecutive := consecutive + 1;
      }
      if s.range == 4 {
        if consecutive < 2 {
          avg := f.avg.value;
          avg4 := f.avg4.value;
        }
        val := avg4;
      } else {
        val := avg;
      }
      afterSpike := afterSpike - 1;
    }
    f' := Filter(Some(avg), Some(avg4), Some(s.range), consecutive, afterSpike);
  }

  /** `decode_samples` */
  method DecodeSamples(buf: bytes) returns (ua: seq<real>, d0: seq<nat>)
    ensures |ua| == |d0| == |buf| / 4
    ensures forall i :: 0 <= i < |ua| ==> ua[i] == Filtered(Readings(buf), i) * 1000000.0
    ensures forall i :: 0 <= i < |d0| ==> d0[i] == Readings(buf)[i].marker
  {
    ghost var rs := Readings(buf);
    hide Readings, Filtered, Tracks;
    ua, d0 := [], [];
    var f := Filter(None, None, None, 0, 0);
    StartTracks(rs);
    var off := 0;
    while off + 4 <= |buf|
      invariant off == 4 * |ua| && |ua| == |d0| <= |rs| == |buf| / 4
      invariant Tracks(f, rs, |ua|)
      invariant forall i :: 0 <= i < |ua| ==> ua[i] == Filtered(rs, i) * 1000000.0
      invariant forall i :: 0 <= i < |d0| ==> d0[i] == rs[i].marker
    {
      var s := DecodeWord(LittleEndian(buf[off..off + 4]));
      ReadingAt(buf, |ua|);
      off := off + 4;
      var val;
      f, val := FilterStep(f, rs, |ua|, s);
      ua := ua + [val * 1000000.0];
      d0 := d0 + [s.marker];
    }
  }

  lemma StartTracks(rs: seq<Reading>)
    ensures Tracks(Filter(None, None, None, 0, 0), rs, 0)
  {}

  lemma ReadingAt(buf: bytes, i: nat)
    requires 4 * i + 4 <= |buf|
    ensures i < |Readings(buf)| && Readings(buf)[i] == DecodeWord(LittleEndian(buf[4 * i..4 * i + 4]))
  {
    hide DecodeWord, LittleEndian;
  }

  // ---------- what the filter cannot do ----------

  lemma {:induction false} EmaWithin(alpha: real, xs: seq<real>, lo: real, hi: real)
    requires xs != [] && 0.0 <= alpha <= 1.0
    requires forall i :: 0 <= i < |xs| ==> lo <= xs[i] <= hi
    ensures lo <= Ema(alpha, xs) <= hi
  {
    if |xs| > 1 {
      var front, x := xs[..|xs| - 1], xs[|xs| - 1];
      EmaWithin(alpha, front, lo, hi);
      Between(alpha, x, Ema(alpha, front), lo, hi);
    }
  }

  lemma Between(alpha: real, x: real, y: real, lo: real, hi: real)
    requires 0.0 <= alpha <= 1.0 && lo <= x <= hi && lo <= y <= hi
    ensures lo <= Blend(alpha, x, y) <= hi
  {
    Product(alpha, x - lo);
    Product(1.0 - alpha, y - lo);
    Product(alpha, hi - x);
    Product(1.0 - alpha, hi - y);
  }

  lemma Product(a: real, b: real)
    requires a >= 0.0 && b >= 0.0
    ensures a * b >= 0.0
  {}

  lemma {:induction false} KeptWithin(rs: seq<Reading>, n: nat, lo: real, hi: real)
    requires n <= |rs| && forall j :: 0 <= j < n ==> lo <= rs[j].val <= hi
    ensures forall i :: 0 <= i < |Kept(rs, n)| ==> lo <= Kept(rs, n)[i] <= hi
  {
    if n > 0 {
      KeptWithin(rs, n - 1, lo, hi);
    }
  }

  /** The filter never leaves the range of the samples seen so far. */
  lemma FilteredWithin(rs: seq<Reading>, i: nat, lo: real, hi: real)
    requires i < |rs| && forall j :: 0 <= j <= i ==> lo <= rs[j].val <= hi
    ensures lo <= Filtered(rs, i) <= hi
  {
    KeptWithin(rs, i + 1, lo, hi);
    EmaWithin(SPIKE_ALPHA, Kept(rs, i + 1), lo, hi);
    EmaWithin(SPIKE_ALPHA5, Kept(rs, i + 1), lo, hi);
  }

  // ---------- pulses ----------

  /** A marker trace holds zeros and ones. */
  ghost predicate Markers(d: seq<nat>) {
    forall k :: 0 <= k < |d| ==> d[k] <= 1
  }

  /** `np.where(np.diff(d[:n]) == v)[0] + 1` */
  function Edges(d: seq<nat>, v: int, n: nat): seq<nat>
    requires n <= |d|
  {
    if n <= 1 then []
    else Edges(d, v, n - 1) + if d[n - 1] as int - d[n - 2] as int == v then [n - 1] else []
  }

  /** `rise` for the first n samples */
  function Rises(d: seq<nat>, n: nat): seq<nat>
    requires 0 < n <= |d|
  {
    (if d[0] == 1 then [0] else []) + Edges(d, 1, n)
  }

  /** `fall` for the first n samples */
  function Falls(d: seq<nat>, n: nat): seq<nat>
    requires 0 < n <= |d|
  {
    Edges(d, -1, n) + if d[n - 1] == 1 then [n] else []
  }

  /** How the edges of a trace change when one sample is added. */
  lemma EdgesStep(d: seq<nat>, n: nat)
    requires Markers(d) && 1 < n <= |d|
    ensures d[n - 2] == 0 && d[n - 1] == 0 ==> Rises(d, n) == Rises(d, n - 1) && Falls(d, n) == Falls(d, n - 1)
    ensures d[n - 2] == 0 && d[n - 1] == 1 ==>
      Rises(d, n) == Rises(d, n - 1) + [n - 1] && Falls(d, n) == Falls(d, n - 1) + [n]
    ensures d[n - 2] == 1 && d[n - 1] == 0 ==> Rises(d, n) == Rises(d, n - 1) && Falls(d, n) == Falls(d, n - 1)
    ensures d[n - 2] == 1 && d[n - 1] == 1 ==>
      && Rises(d, n) == Rises(d, n - 1)
      && Falls(d, n - 1) == Edges(d, -1, n - 1) + [n - 1] && Falls(d, n) == Edges(d, -1, n - 1) + [n]
  {
    assert d[n - 1] <= 1 && d[n - 2] <= 1;
  }

  /** The half-open intervals [rise, fall) are runs of ones below n, in order, none of which could be longer. */
  ghost predicate Runs(d: seq<nat>, n: nat, rise: seq<nat>, fall: seq<nat>)
    requires n <= |d|
  {
    && |rise| == |fall|
    && (forall j :: 0 <= j < |rise| ==> rise[j] < fall[j] <= n)
    && (forall j :: 0 <= j < |rise| - 1 ==> fall[j] < rise[j + 1])
    && (forall j, k :: 0 <= j < |rise| && rise[j] <= k < fall[j] ==> d[k] == 1)
    && (forall j :: 0 <= j < |rise| && rise[j] > 0 ==> d[rise[j] - 1] == 0)
    && (forall j :: 0 <= j < |rise| && fall[j] < n ==> d[fall[j]] == 0)
  }

  ghost predicate Covered(rise: seq<nat>, fall: seq<nat>, k: nat) {
    exists j :: 0 <= j < |rise| && j < |fall| && rise[j] <= k < fall[j]
  }

  /** The intervals are all the maximal runs of ones among the first n samples. */
  ghost predicate MaximalRuns(d: seq<nat>, n: nat, rise: seq<nat>, fall: seq<nat>)
    requires n <= |d|
  {
    && Runs(d, n, rise, fall)
    && forall k :: 0 <= k < n && d[k] == 1 ==> Covered(rise, fall, k)
  }

  lemma RunsAddZero(d: seq<nat>, n: nat, rise: seq<nat>, fall: seq<nat>)
    requires n < |d| && MaximalRuns(d, n, rise, fall) && d[n] == 0
    ensures MaximalRuns(d, n + 1, rise, fall)
  {}

  lemma FallsInside(d: seq<nat>, n: nat, rise: seq<nat>, fall: seq<nat>)
    requires 0 < n < |d| && Runs(d, n, rise, fall) && d[n - 1] == 0
    ensures forall j :: 0 <= j < |fall| ==> fall[j] < n
  {
    forall j | 0 <= j < |fall|
      ensures fall[j] < n
    {
      assert d[fall[j] - 1] == 1;
    }
  }

  lemma CoverAddFirst(n: nat, rise: seq<nat>, fall: seq<nat>, k: nat)
    requires |rise| == |fall| && (k == n || Covered(rise, fall, k))
    ensures Covered(rise + [n], fall + [n + 1], k)
  {
    var r, f := rise + [n], fall + [n + 1];
    if k == n {
      assert r[|rise|] <= k < f[|rise|];
    } else {
      var j :| 0 <= j < |rise| && j < |fall| && rise[j] <= k < fall[j];
      assert r[j] <= k < f[j];
    }
  }

  lemma RunsAddFirst(d: seq<nat>, n: nat, rise: seq<nat>, fall: seq<nat>)
    requires 0 < n < |d| && MaximalRuns(d, n, rise, fall) && d[n - 1] == 0 && d[n] == 1
    ensures MaximalRuns(d, n + 1, rise + [n], fall + [n + 1])
  {
    hide Covered;
    FallsInside(d, n, rise, fall);
    assert Runs(d, n + 1, rise + [n], fall + [n + 1]);
    forall k | 0 <= k < n + 1 && d[k] == 1
      ensures Covered(rise + [n], fall + [n + 1], k)
    {
      CoverAddFirst(n, rise, fall, k);
    }
  }

  lemma FrontFallsInside(d: seq<nat>, n: nat, rise: seq<nat>, front: seq<nat>)
    requires n < |d| && Runs(d, n, rise, front + [n])
    ensures forall j :: 0 <= j < |front| ==> front[j] < n
  {
    var f := front + [n];
    forall j | 0 <= j < |front|
      ensures front[j] < n
    {
      assert f[j] < rise[j + 1] < f[j + 1] <= n;
    }
  }

  lemma CoverExtend(n: nat, rise: seq<nat>, front: seq<nat>, k: nat)
    requires |rise| == |front| + 1 && rise[|front|] <= n
    requires k == n || Covered(rise, front + [n], k)
    ensures Covered(rise, front + [n + 1], k)
  {
    var f, g := front + [n], front + [n + 1];
    if k == n {
      assert rise[|front|] <= k < g[|front|];
    } else {
      var j :| 0 <= j < |rise| && j < |f| && rise[j] <= k < f[j];
      assert rise[j] <= k < g[j];
    }
  }

  lemma RunsExtended(d: seq<nat>, n: nat, rise: seq<nat>, front: seq<nat>)
    requires n < |d| && Runs(d, n, rise, front + [n]) && d[n] == 1
    ensures Runs(d, n + 1, rise, front + [n + 1]) && rise[|front|] <= n
  {
    var f, g := front + [n], front + [n + 1];
    FrontFallsInside(d, n, rise, front);
    assert forall j :: 0 <= j < |front| ==> f[j] == g[j];
    assert rise[|front|] < f[|front|];
  }

  lemma RunsExtend(d: seq<nat>, n: nat, rise: seq<nat>, front: seq<nat>)
    requires n < |d| && MaximalRuns(d, n, rise, front + [n]) && d[n] == 1
    ensures MaximalRuns(d, n + 1, rise, front + [n + 1])
  {
    hide Covered;
    RunsExtended(d, n, rise, front);
    forall k | 0 <= k < n + 1 && d[k] == 1
      ensures Covered(rise, front + [n + 1], k)
    {
      CoverExtend(n, rise, front, k);
    }
  }

  /** `rise` and `fall` pair up and are exactly the maximal runs. */
  lemma {:induction false} RunsAre(d: seq<nat>, n: nat)
    requires Markers(d) && 0 < n <= |d|
    ensures MaximalRuns(d, n, Rises(d, n), Falls(d, n))
  {
    hide MaximalRuns;
    assert d[n - 1] <= 1;
    if n == 1 {
      OneSample(d);
    } else {
      RunsAre(d, n - 1);
      EdgesStep(d, n);
      assert d[n - 2] <= 1;
      if d[n - 1] == 0 {
        RunsAddZero(d, n - 1, Rises(d, n - 1), Falls(d, n - 1));
      } else if d[n - 2] == 0 {
        RunsAddFirst(d, n - 1, Rises(d, n - 1), Falls(d, n - 1));
      } else {
        RunsExtend(d, n - 1, Rises(d, n - 1), Edges(d, -1, n - 1));
      }
    }
  }

  lemma OneSample(d: seq<nat>)
    requires |d| > 0 && d[0] <= 1
    ensures MaximalRuns(d, 1, Rises(d, 1), Falls(d, 1))
  {
    var r, f := Rises(d, 1), Falls(d, 1);
    if d[0] == 1 {
      assert r == [0] && f == [1];
      OneRun(d);
    } else {
      assert r == [] && f == [];
    }
  }

  lemma OneRun(d: seq<nat>)
    requires |d| > 0 && d[0] == 1
    ensures MaximalRuns(d, 1, [0], [1])
  {
    var r, f: seq<nat> := [0], [1];
    assert r[0] <= 0 < f[0];
  }

  // The facts of MaximalRuns one at a time, for proofs about two decompositions at once.

  lemma RunFacts(d: seq<nat>, n: nat, r: seq<nat>, f: seq<nat>, j: nat)
    requires n <= |d| && MaximalRuns(d, n, r, f) && j < |r|
    ensures |f| == |r| && r[j] < f[j] <= n && d[r[j]] == 1
    ensures f[j] < n ==> d[f[j]] == 0
    ensures j > 0 ==> f[j - 1] < r[j]
  {}

  lemma RunInside(d: seq<nat>, n: nat, r: seq<nat>, f: seq<nat>, j: nat, k: nat)
    requires n <= |d| && MaximalRuns(d, n, r, f) && j < |r| && |f| == |r| && r[j] <= k < f[j]
    ensures k < |d| && d[k] == 1
  {}

  lemma RunAt(d: seq<nat>, n: nat, r: seq<nat>, f: seq<nat>, k: nat) returns (j: nat)
    requires n <= |d| && MaximalRuns(d, n, r, f) && k < n && d[k] == 1
    ensures j < |r| == |f| && r[j] <= k < f[j]
  {
    assert Covered(r, f, k);
    j :| 0 <= j < |r| && j < |f| && r[j] <= k < f[j];
  }

  lemma {:induction false} RunsAscend(d: seq<nat>, n: nat, r: seq<nat>, f: seq<nat>, i: nat, j: nat)
    requires n <= |d| && MaximalRuns(d, n, r, f) && i <= j < |r| && |f| == |r|
    ensures r[i] <= r[j] && f[i] <= f[j]
    decreases j
  {
    hide MaximalRuns;
    if i < j {
      RunsAscend(d, n, r, f, i, j - 1);
      RunFacts(d, n, r, f, j - 1);
      RunFacts(d, n, r, f, j);
    }
  }

  ghost predicate SameRuns(r: seq<nat>, f: seq<nat>, r': seq<nat>, f': seq<nat>, m: nat) {
    && m <= |r| == |f| && m <= |r'| == |f'|
    && forall j :: 0 <= j < m ==> r[j] == r'[j] && f[j] == f'[j]
  }

  /** After m common runs, the next run of one decomposition starts no earlier than the next one of the other. */
  lemma NextRise(d: seq<nat>, n: nat, r: seq<nat>, f: seq<nat>, r': seq<nat>, f': seq<nat>, m: nat)
    requires n <= |d| && MaximalRuns(d, n, r, f) && MaximalRuns(d, n, r', f')
    requires SameRuns(r, f, r', f', m) && m < |r|
    ensures m < |r'| && r'[m] <= r[m]
  {
    hide MaximalRuns;
    RunFacts(d, n, r, f, m);
    var j := RunAt(d, n, r', f', r[m]);
    if j < m {
      RunsAscend(d, n, r', f', j, m - 1);
    } else {
      RunsAscend(d, n, r', f', m, j);
    }
  }

  lemma {:induction false} RunsSamePrefix(d: seq<nat>, n: nat, r: seq<nat>, f: seq<nat>,
                                          r': seq<nat>, f': seq<nat>, m: nat)
    requires n <= |d| && MaximalRuns(d, n, r, f) && MaximalRuns(d, n, r', f')
    requires m <= |r| == |f| && m <= |r'| == |f'|
    ensures SameRuns(r, f, r', f', m)
  {
    hide MaximalRuns;
    if m > 0 {
      var j := m - 1;
      RunsSamePrefix(d, n, r, f, r', f', j);
      NextRise(d, n, r, f, r', f', j);
      NextRise(d, n, r', f', r, f, j);
      RunFacts(d, n, r, f, j);
      RunFacts(d, n, r', f', j);
      if f[j] < f'[j] {
        RunInside(d, n, r', f', j, f[j]);
      } else if f'[j] < f[j] {
        RunInside(d, n, r, f, j, f'[j]);
      }
    }
  }

  lemma SameLengths(d: seq<nat>, n: nat, r: seq<nat>, f: seq<nat>)
    requires n <= |d| && MaximalRuns(d, n, r, f)
    ensures |r| == |f|
  {}

  /** No other pair of lists is the run decomposition of the trace. */
  lemma RunsUnique(d: seq<nat>, n: nat, r: seq<nat>, f: seq<nat>, r': seq<nat>, f': seq<nat>)
    requires n <= |d| && MaximalRuns(d, n, r, f) && MaximalRuns(d, n, r', f')
    ensures r == r' && f == f'
  {
    hide MaximalRuns;
    SameLengths(d, n, r, f);
    SameLengths(d, n, r', f');
    var m := if |r| <= |r'| then |r| else |r'|;
    RunsSamePrefix(d, n, r, f, r', f', m);
    if |r| > m {
      NextRise(d, n, r, f, r', f', m);
    } else if |r'| > m {
      NextRise(d, n, r', f', r, f, m);
    }
  }

  // ---------- energy ----------

  function Sum(ua: seq<real>, lo: nat, hi: nat): real
    requires lo <= hi <= |ua|
  {
    if lo == hi then 0.0 else Sum(ua, lo, hi - 1) + ua[hi - 1]
  }

  function PulseSum(ua: seq<real>, rise: seq<nat>, fall: seq<nat>): real
    requires |rise| == |fall| && forall j :: 0 <= j < |rise| ==> rise[j] <= fall[j] <= |ua|
  {
    if rise == [] then 0.0
    else
      var j := |rise| - 1;
      PulseSum(ua, rise[..j], fall[..j]) + Sum(ua, rise[j], fall[j])
  }

  /** Everything measured while the marker is set. */
  function MarkedSum(ua: seq<real>, d: seq<nat>, n: nat): real
    requires n <= |d| && n <= |ua|
  {
    if n == 0 then 0.0 else MarkedSum(ua, d, n - 1) + if d[n - 1] == 1 then ua[n - 1] else 0.0
  }

  ghost predicate Intervals(ua: seq<real>, rise: seq<nat>, fall: seq<nat>) {
    |rise| == |fall| && forall j :: 0 <= j < |rise| ==> rise[j] <= fall[j] <= |ua|
  }

  lemma RunsAreIntervals(ua: seq<real>, d: seq<nat>, n: nat)
    requires Markers(d) && 0 < n <= |d| && |ua| == |d|
    ensures Intervals(ua, Rises(d, n), Falls(d, n))
  {
    RunsAre(d, n);
  }

  lemma PulseSumAppend(ua: seq<real>, rise: seq<nat>, fall: seq<nat>, r: nat, f: nat)
    requires Intervals(ua, rise, fall) && r <= f <= |ua|
    ensures Intervals(ua, rise + [r], fall + [f])
    ensures PulseSum(ua, rise + [r], fall + [f]) == PulseSum(ua, rise, fall) + Sum(ua, r, f)
  {
    var n := |rise|;
    assert (rise + [r])[..n] == rise && (fall + [f])[..n] == fall;
  }

  lemma PulseSumExtend(ua: seq<real>, rise: seq<nat>, front: seq<nat>, n: nat)
    requires Intervals(ua, rise, front + [n]) && n < |ua|
    ensures Intervals(ua, rise, front + [n + 1])
    ensures PulseSum(ua, rise, front + [n + 1]) == PulseSum(ua, rise, front + [n]) + ua[n]
  {
    var k := |front|;
    var r, last := rise[..k], rise[k];
    var f, g := front + [n], front + [n + 1];
    assert rise == r + [last];
    assert forall j :: 0 <= j < k ==> r[j] == rise[j] && front[j] == f[j] && front[j] == g[j];
    assert last <= f[k];
    PulseSumAppend(ua, r, front, last, n);
    PulseSumAppend(ua, r, front, last, n + 1);
  }

  /** No sample under the marker is lost or counted twice: the pulses add up to the marked samples. */
  lemma {:induction false} EnergyConserved(ua: seq<real>, d: seq<nat>, n: nat)
    requires Markers(d) && 0 < n <= |d| && |ua| == |d|
    ensures Intervals(ua, Rises(d, n), Falls(d, n))
    ensures PulseSum(ua, Rises(d, n), Falls(d, n)) == MarkedSum(ua, d, n)
  {
    RunsAreIntervals(ua, d, n);
    var rise, fall := Rises(d, n), Falls(d, n);
    assert d[n - 1] <= 1;
    if n == 1 {
      OneSampleSum(ua, d);
    } else {
      hide Rises, Falls, Edges, PulseSum, Sum;
      EnergyConserved(ua, d, n - 1);
      EdgesStep(d, n);
      assert d[n - 2] <= 1;
      if d[n - 1] == 1 && d[n - 2] == 0 {
        PulseSumAppend(ua, Rises(d, n - 1), Falls(d, n - 1), n - 1, n);
        OneSum(ua, n - 1);
      } else if d[n - 1] == 1 {
        PulseSumExtend(ua, rise, Edges(d, -1, n - 1), n - 1);
      }
    }
  }

  lemma OneSum(ua: seq<real>, k: nat)
    requires k < |ua|
    ensures Sum(ua, k, k + 1) == ua[k]
  {
    assert Sum(ua, k, k) == 0.0;
  }

  lemma OneSampleSum(ua: seq<real>, d: seq<nat>)
    requires |d| > 0 && d[0] <= 1 && |ua| == |d|
    ensures Intervals(ua, Rises(d, 1), Falls(d, 1))
    ensures PulseSum(ua, Rises(d, 1), Falls(d, 1)) == MarkedSum(ua, d, 1)
  {
    if d[0] == 1 {
      assert Rises(d, 1) == [] + [0] && Falls(d, 1) == [] + [1];
      PulseSumAppend(ua, [], [], 0, 1);
      assert Sum(ua, 0, 1) == Sum(ua, 0, 0) + ua[0];
      assert MarkedSum(ua, d, 1) == MarkedSum(ua, d, 0) + ua[0];
    }
  }

  // ---------- the rows of the pulse table ----------

  const FS: real := 100000.0
  const V: real := 3.3

  datatype Row = Row(pulse: nat, startS: real, durMs: real, avgMa: real, peakMa: real, energyMj: real)

  /** `seg.max()` */
  function Max(ua: seq<real>, lo: nat, hi: nat): (m: real)
    requires lo < hi <= |ua|
    ensures forall k :: lo <= k < hi ==> ua[k] <= m
    ensures exists k :: lo <= k < hi && ua[k] == m
  {
    if lo + 1 == hi then ua[lo]
    else
      var m := Max(ua, lo, hi - 1);
      if ua[hi - 1] > m then ua[hi - 1] else m
  }

  function MakeRow(ua: seq<real>, i: nat, r: nat, f: nat): Row
    requires r < f <= |ua|
  {
    var sum, n := Sum(ua, r, f), (f - r) as real;
    Row(i, r as real / FS, n / FS * 1000.0, sum / n / 1000.0, Max(ua, r, f) / 1000.0, sum / FS * V / 1000.0)
  }

  function EnergySum(rows: seq<Row>): real {
    if rows == [] then 0.0 else EnergySum(rows[..|rows| - 1]) + rows[|rows| - 1].energyMj
  }

  /** `find_pulses`; `dd[0]` raises IndexError on an empty trace. */
  method FindPulses(ua: seq<real>, d0: seq<nat>) returns (rows: Result<seq<Row>>)
    requires |ua| == |d0| && Markers(d0)
    ensures |d0| == 0 ==> rows == Err(IndexError)
    ensures |d0| > 0 ==>
      var rise, fall := Rises(d0, |d0|), Falls(d0, |d0|);
      && rows.Ok? && MaximalRuns(d0, |d0|, rise, fall) && |rows.value| == |rise|
      && (forall j :: 0 <= j < |rise| ==> rows.value[j] == MakeRow(ua, j + 1, rise[j], fall[j]))
      && EnergySum(rows.value) == MarkedSum(ua, d0, |d0|) / FS * V / 1000.0
  {
    hide MakeRow, Rises, Falls, EnergySum, MarkedSum;
    if |d0| == 0 {
      return Err(IndexError);
    }
    RunsAre(d0, |d0|);
    var rise, fall := Rises(d0, |d0|), Falls(d0, |d0|);
    var table := [];
    for j := 0 to |rise|
      invariant |table| == j
      invariant forall k :: 0 <= k < j ==> table[k] == MakeRow(ua, k + 1, rise[k], fall[k])
    {
      table := table + [MakeRow(ua, j + 1, rise[j], fall[j])];
    }
    TableEnergy(ua, d0, table);
    return Ok(table);
  }

  /** Energy is voltage times average current times duration, and the peak is no less than the average. */
  lemma RowLaw(ua: seq<real>, i: nat, r: nat, f: nat)
    requires r < f <= |ua|
    ensures
      var row := MakeRow(ua, i, r, f);
      row.energyMj == row.avgMa * row.durMs * V / 1000.0 && row.avgMa <= row.peakMa
  {
    var sum, n := Sum(ua, r, f), (f - r) as real;
    SumBelow(ua, r, f, Max(ua, r, f));
    var mean := sum / n;
    assert mean * n == sum;
    MeanBelow(mean, n, Max(ua, r, f));
    EnergyOf(mean, n);
  }

  lemma EnergyOf(mean: real, n: real)
    ensures mean * n / FS * V / 1000.0 == (mean / 1000.0) * (n / FS * 1000.0) * V / 1000.0
  {
    assert (mean / 1000.0) * (n / FS * 1000.0) == mean * n / FS;
  }

  lemma MeanBelow(mean: real, n: real, max: real)
    requires n > 0.0 && mean * n <= n * max
    ensures mean <= max
  {
    if mean > max {
      PositiveProduct(mean - max, n);
    }
  }

  lemma PositiveProduct(a: real, b: real)
    requires a > 0.0 && b > 0.0
    ensures a * b > 0.0
  {}

  lemma {:induction false} SumBelow(ua: seq<real>, lo: nat, hi: nat, max: real)
    requires lo <= hi <= |ua| && forall k :: lo <= k < hi ==> ua[k] <= max
    ensures Sum(ua, lo, hi) <= (hi - lo) as real * max
  {
    if lo < hi {
      SumBelow(ua, lo, hi - 1, max);
      assert (hi - lo) as real * max == (hi - 1 - lo) as real * max + max;
    }
  }

  lemma {:induction false} RowsEnergy(ua: seq<real>, rise: seq<nat>, fall: seq<nat>, rows: seq<Row>)
    requires |rise| == |fall| == |rows| && forall j :: 0 <= j < |rise| ==> rise[j] < fall[j] <= |ua|
    requires forall j :: 0 <= j < |rise| ==> rows[j] == MakeRow(ua, j + 1, rise[j], fall[j])
    ensures EnergySum(rows) == PulseSum(ua, rise, fall) / FS * V / 1000.0
  {
    hide Max, Sum;
    if rows != [] {
      var n := |rows| - 1;
      RowsEnergy(ua, rise[..n], fall[..n], rows[..n]);
    }
  }

  lemma TableEnergy(ua: seq<real>, d0: seq<nat>, rows: seq<Row>)
    requires 0 < |ua| == |d0| && Markers(d0)
    requires |rows| == |Rises(d0, |d0|)|
    requires MaximalRuns(d0, |d0|, Rises(d0, |d0|), Falls(d0, |d0|))
    requires forall j :: 0 <= j < |rows| ==> rows[j] == MakeRow(ua, j + 1, Rises(d0, |d0|)[j], Falls(d0, |d0|)[j])
    ensures EnergySum(rows) == MarkedSum(ua, d0, |d0|) / FS * V / 1000.0
  {
    hide Rises, Falls, MakeRow;
    EnergyConserved(ua, d0, |d0|);
    RowsEnergy(ua, Rises(d0, |d0|), Falls(d0, |d0|), rows);
  }
}
