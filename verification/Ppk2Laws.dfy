/** Laws of `Ppk2` in the numbers of the script: where the bits of a word go, its current, and the columns of a row. */
module Ppk2Laws {
  import opened Bytes
  import opened Ppk2

  /** The resistance of a measuring range. */
  function Resistance(range: nat): (r: real)
    requires range <= 4
    ensures r > 0.0
  {
    if range == 0 then 1031.64 else if range == 1 then 101.65 else if range == 2 then 10.15
    else if range == 3 then 0.94 else 0.043
  }

  /** The current of a reading: r + r * r, where r is the voltage of the reading over the resistance. */
  lemma CurrentLaw(range: nat, adc: nat, r: real)
    requires range <= 4 && Resistance(range) * r == adc as real * (1.8 / 163840.0)
    ensures Convert(range, adc) == r * r + r
  {
    var k := ADC_MULT / R[range];
    assert k * Resistance(range) == ADC_MULT;
    Cancel(Resistance(range), r, adc as real * k, adc as real, k);
  }

  lemma Cancel(a: real, r: real, q: real, n: real, k: real)
    requires a > 0.0 && q == n * k && a * r == n * (k * a)
    ensures r == q
  {
    assert a * q == n * (k * a);
    assert a * (r - q) == 0.0;
  }

  /** A word made of its four fields is taken apart into them: clamped range, current of 4 adc, lowest logic bit. */
  lemma WordLaw(adc: nat, range: nat, unused: nat, logic: nat)
    requires adc < 0x4000 && range < 8 && unused < 0x80 && logic < 0x100
    ensures
      var s := DecodeWord(adc + 0x4000 * range + 0x2_0000 * unused + 0x100_0000 * logic);
      && s.range == (if range < 4 then range else 4)
      && s.val == Convert(s.range, 4 * adc)
      && s.marker == logic % 2
  {
    hide Convert;
    PowersOfTwo();
    var raw := adc + 0x4000 * range + 0x2_0000 * unused + 0x100_0000 * logic;
    assert raw / 0x4000 == range + 8 * unused + 0x400 * logic;
    assert raw / 0x100_0000 == logic;
  }

  /** The same for the four octets of a sample in the order of the capture. */
  lemma OctetLaw(b: bytes)
    requires |b| == 4
    ensures
      var s := DecodeWord(LittleEndian(b));
      && s.range == (if b[2] % 2 == 1 then 4 else b[1] / 0x40)
      && s.val == Convert(s.range, 4 * (b[0] as nat + 0x100 * (b[1] as nat % 0x40)))
      && s.marker == b[3] % 2
  {
    hide DecodeWord, Convert;
    WordLaw(b[0] as nat + 0x100 * (b[1] as nat % 0x40), b[1] / 0x40 + 4 * (b[2] % 2), b[2] / 2, b[3]);
  }

  /** The i-th sample of a capture, from its four octets. */
  lemma SampleLaw(buf: bytes, i: nat)
    requires 4 * i + 4 <= |buf|
    ensures i < |Readings(buf)|
    ensures
      var s := Readings(buf)[i];
      && s.range == (if buf[4 * i + 2] % 2 == 1 then 4 else buf[4 * i + 1] / 0x40)
      && s.val == Convert(s.range, 4 * (buf[4 * i] as nat + 0x100 * (buf[4 * i + 1] as nat % 0x40)))
      && s.marker == buf[4 * i + 3] % 2
  {
    hide DecodeWord, Convert, LittleEndian, Readings;
    ReadingAt(buf, i);
    OctetLaw(buf[4 * i..4 * i + 4]);
  }

  // ---------- the filter on its first samples ----------

  /** A switch after the first sample, not into range 4: the second sample is the average with weight 0.18. */
  lemma FirstSwitch(rs: seq<Reading>)
    requires |rs| >= 2 && rs[1].range != rs[0].range && rs[1].range != 4
    ensures Filtered(rs, 0) == rs[0].val
    ensures Filtered(rs, 1) == 0.18 * rs[1].val + 0.82 * rs[0].val
  {
    KeptTwo(rs);
    var xs := [rs[0].val, rs[1].val];
    assert xs[..1] == [rs[0].val];
    assert Ema(SPIKE_ALPHA, xs) == Blend(SPIKE_ALPHA, rs[1].val, Ema(SPIKE_ALPHA, xs[..1]));
    assert Replaced(rs, 1);
  }

  lemma KeptTwo(rs: seq<Reading>)
    requires |rs| >= 2 && rs[1].range != rs[0].range && rs[1].range != 4
    ensures Kept(rs, 2) == [rs[0].val, rs[1].val]
  {
    assert Kept(rs, 1) == [rs[0].val] by { assert Kept(rs, 0) == []; }
  }

  /** After it, the next two samples go on with that average, and the one behind them is its own again. */
  lemma ThreeReplaced(rs: seq<Reading>)
    requires |rs| >= 5 && rs[1].range != rs[0].range && forall i :: 1 <= i < 5 ==> rs[i].range == rs[1].range != 4
    ensures Filtered(rs, 2) == 0.18 * rs[2].val + 0.82 * Filtered(rs, 1)
    ensures Filtered(rs, 3) == 0.18 * rs[3].val + 0.82 * Filtered(rs, 2)
    ensures Filtered(rs, 4) == rs[4].val
  {
    KeptTwo(rs);
    var xs := [rs[0].val, rs[1].val];
    assert Kept(rs, 3) == xs + [rs[2].val];
    assert Kept(rs, 4) == xs + [rs[2].val] + [rs[3].val];
    assert (xs + [rs[2].val])[..2] == xs;
    assert (xs + [rs[2].val] + [rs[3].val])[..3] == xs + [rs[2].val];
  }

  /** A switch into range 4: two samples repeat the average before it, the third has weight 0.06, the fourth is free. */
  lemma SwitchIntoFour(rs: seq<Reading>)
    requires |rs| >= 5 && rs[0].range != 4 && forall i :: 1 <= i < 5 ==> rs[i].range == 4
    ensures Filtered(rs, 1) == rs[0].val && Filtered(rs, 2) == rs[0].val
    ensures Filtered(rs, 3) == 0.06 * rs[3].val + 0.94 * rs[0].val
    ensures Filtered(rs, 4) == rs[4].val
  {
    assert Kept(rs, 0) == [];
    assert Kept(rs, 1) == [rs[0].val];
    assert Kept(rs, 2) == Kept(rs, 1);
    assert Kept(rs, 3) == Kept(rs, 2);
    assert Kept(rs, 4) == [rs[0].val, rs[3].val];
    assert [rs[0].val, rs[3].val][..1] == [rs[0].val];
  }

  // ---------- the columns of a row ----------

  /**
    In the numbers of the script: 100 samples are a millisecond, the row starts at its first sample and ends behind
    its last, energy is current times 3.3 volts times duration, and the peak is the largest sample.
   */
  lemma RowColumns(ua: seq<real>, i: nat, r: nat, f: nat)
    requires r < f <= |ua|
    ensures
      var row := MakeRow(ua, i, r, f);
      && row.pulse == i
      && row.startS * 100000.0 == r as real
      && (row.startS * 1000.0 + row.durMs) * 100.0 == f as real
      && row.energyMj * 1000.0 == row.avgMa * row.durMs * 3.3
      && (f - r) as real * (row.avgMa * 1000.0) == Sum(ua, r, f)
      && (forall k :: r <= k < f ==> ua[k] <= row.peakMa * 1000.0)
      && (exists k :: r <= k < f && ua[k] == row.peakMa * 1000.0)
  {
    hide Sum, Max;
    RowLaw(ua, i, r, f);
    var m := Max(ua, r, f);
    assert m / 1000.0 * 1000.0 == m;
    var n := (f - r) as real;
    var mean := Sum(ua, r, f) / n;
    assert n * mean == Sum(ua, r, f);
  }
}
