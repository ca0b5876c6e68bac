/** The rounds and the schedule of `Fips180` on 32-bit vectors: what a machine computes is what the standard says. */
module MachineHash {
  import opened Bytes
  import opened Fips180
  import opened BitVectors

  // ---------- section 4.1.2 on bit vectors ----------

  lemma TurnsAre(b: bv32)
    ensures Turns(b, 2) == b.RotateRight(2) && Turns(b, 6) == b.RotateRight(6) && Turns(b, 7) == b.RotateRight(7)
    ensures Turns(b, 11) == b.RotateRight(11) && Turns(b, 13) == b.RotateRight(13) && Turns(b, 17) == b.RotateRight(17)
    ensures Turns(b, 18) == b.RotateRight(18) && Turns(b, 19) == b.RotateRight(19) && Turns(b, 22) == b.RotateRight(22)
    ensures Turns(b, 25) == b.RotateRight(25)
  {
    assert Turns(b, 1) == b.RotateRight(1);
    assert Turns(b, 2) == b.RotateRight(2);
    assert Turns(b, 3) == b.RotateRight(3);
    assert Turns(b, 4) == b.RotateRight(4);
    assert Turns(b, 5) == b.RotateRight(5);
    assert Turns(b, 6) == b.RotateRight(6);
    assert Turns(b, 7) == b.RotateRight(7);
    assert Turns(b, 8) == b.RotateRight(8);
    assert Turns(b, 9) == b.RotateRight(9);
    assert Turns(b, 10) == b.RotateRight(10);
    assert Turns(b, 11) == b.RotateRight(11);
    assert Turns(b, 12) == b.RotateRight(12);
    assert Turns(b, 13) == b.RotateRight(13);
    assert Turns(b, 14) == b.RotateRight(14);
    assert Turns(b, 15) == b.RotateRight(15);
    assert Turns(b, 16) == b.RotateRight(16);
    assert Turns(b, 17) == b.RotateRight(17);
    assert Turns(b, 18) == b.RotateRight(18);
    assert Turns(b, 19) == b.RotateRight(19);
    assert Turns(b, 20) == b.RotateRight(20);
    assert Turns(b, 21) == b.RotateRight(21);
    assert Turns(b, 22) == b.RotateRight(22);
    assert Turns(b, 23) == b.RotateRight(23);
    assert Turns(b, 24) == b.RotateRight(24);
  }

  lemma HalvesAre(b: bv32)
    ensures Halves(b, 3) == b >> 3 && Halves(b, 10) == b >> 10
  {
    assert Halves(b, 1) == b >> 1;
    assert Halves(b, 2) == b >> 2;
    assert Halves(b, 3) == b >> 3;
    assert Halves(b, 4) == b >> 4;
    assert Halves(b, 5) == b >> 5;
    assert Halves(b, 6) == b >> 6;
    assert Halves(b, 7) == b >> 7;
    assert Halves(b, 8) == b >> 8;
    assert Halves(b, 9) == b >> 9;
  }

  lemma XorValue(a: bv32, b: bv32)
    ensures Xor(Value(a), Value(b)) == Value(XorOf(a, b))
  {
    hide Value, Digits, XorOf, AndOf;
    GateValues(a, b);
  }

  lemma AndValue(a: bv32, b: bv32)
    ensures And(Value(a), Value(b)) == Value(AndOf(a, b))
  {
    hide Value, Digits, XorOf, AndOf;
    GateValues(a, b);
  }

  function Big0(x: bv32): bv32 { XorOf(XorOf(x.RotateRight(2), x.RotateRight(13)), x.RotateRight(22)) }

  lemma Big0Value(x: bv32)
    ensures BigSigma0(Value(x)) == Value(Big0(x))
  {
    hide Big0, Value, Rotr, Xor, Shr, Turns, Halves, XorOf;
    Big0Is(x);
    TurnsValue(x, 2);
    TurnsValue(x, 13);
    TurnsValue(x, 22);
    XorValue(Turns(x, 2), Turns(x, 13));
    XorValue(XorOf(Turns(x, 2), Turns(x, 13)), Turns(x, 22));
  }

  lemma Big0Is(x: bv32)
    ensures Big0(x) == XorOf(XorOf(Turns(x, 2), Turns(x, 13)), Turns(x, 22))
  {
    hide Turns, Halves, XorOf;
    TurnsAre(x);
  }

  function Big1(x: bv32): bv32 { XorOf(XorOf(x.RotateRight(6), x.RotateRight(11)), x.RotateRight(25)) }

  lemma Big1Value(x: bv32)
    ensures BigSigma1(Value(x)) == Value(Big1(x))
  {
    hide Big1, Value, Rotr, Xor, Shr, Turns, Halves, XorOf;
    Big1Is(x);
    TurnsValue(x, 6);
    TurnsValue(x, 11);
    TurnsValue(x, 25);
    XorValue(Turns(x, 6), Turns(x, 11));
    XorValue(XorOf(Turns(x, 6), Turns(x, 11)), Turns(x, 25));
  }

  lemma Big1Is(x: bv32)
    ensures Big1(x) == XorOf(XorOf(Turns(x, 6), Turns(x, 11)), Turns(x, 25))
  {
    hide Turns, Halves, XorOf;
    TurnsAre(x);
  }

  function Small0(x: bv32): bv32 { XorOf(XorOf(x.RotateRight(7), x.RotateRight(18)), x >> 3) }

  lemma Small0Value(x: bv32)
    ensures SmallSigma0(Value(x)) == Value(Small0(x))
  {
    hide Small0, Value, Rotr, Xor, Shr, Turns, Halves, XorOf;
    Small0Is(x);
    TurnsValue(x, 7);
    TurnsValue(x, 18);
    HalvesValue(x, 3);
    XorValue(Turns(x, 7), Turns(x, 18));
    XorValue(XorOf(Turns(x, 7), Turns(x, 18)), Halves(x, 3));
  }

  lemma Small0Is(x: bv32)
    ensures Small0(x) == XorOf(XorOf(Turns(x, 7), Turns(x, 18)), Halves(x, 3))
  {
    hide Turns, Halves, XorOf;
    TurnsAre(x);
    HalvesAre(x);
  }

  function Small1(x: bv32): bv32 { XorOf(XorOf(x.RotateRight(17), x.RotateRight(19)), x >> 10) }

  lemma Small1Value(x: bv32)
    ensures SmallSigma1(Value(x)) == Value(Small1(x))
  {
    hide Small1, Value, Rotr, Xor, Shr, Turns, Halves, XorOf;
    Small1Is(x);
    TurnsValue(x, 17);
    TurnsValue(x, 19);
    HalvesValue(x, 10);
    XorValue(Turns(x, 17), Turns(x, 19));
    XorValue(XorOf(Turns(x, 17), Turns(x, 19)), Halves(x, 10));
  }

  lemma Small1Is(x: bv32)
    ensures Small1(x) == XorOf(XorOf(Turns(x, 17), Turns(x, 19)), Halves(x, 10))
  {
    hide Turns, Halves, XorOf;
    TurnsAre(x);
    HalvesAre(x);
  }

  function Choose(x: bv32, y: bv32, z: bv32): bv32 { XorOf(AndOf(x, y), AndOf(NotOf(x), z)) }
  function Majority(x: bv32, y: bv32, z: bv32): bv32 { XorOf(XorOf(AndOf(x, y), AndOf(x, z)), AndOf(y, z)) }

  lemma ChooseValue(x: bv32, y: bv32, z: bv32)
    ensures Ch(Value(x), Value(y), Value(z)) == Value(Choose(x, y, z))
  {
    hide Value, Xor, And, Not, XorOf, AndOf, NotOf;
    NotValue(x);
    AndValue(x, y);
    AndValue(NotOf(x), z);
    XorValue(AndOf(x, y), AndOf(NotOf(x), z));
  }

  lemma MajorityValue(x: bv32, y: bv32, z: bv32)
    ensures Maj(Value(x), Value(y), Value(z)) == Value(Majority(x, y, z))
  {
    hide Value, Xor, And, XorOf, AndOf;
    AndValue(x, y);
    AndValue(x, z);
    AndValue(y, z);
    XorValue(AndOf(x, y), AndOf(x, z));
    XorValue(XorOf(AndOf(x, y), AndOf(x, z)), AndOf(y, z));
  }

  // ---------- rounds and schedule on bit vectors ----------

  function Working(a: bv32, b: bv32, c: bv32, d: bv32, e: bv32, f: bv32, g: bv32, h: bv32): Vars {
    Vars(Value(a), Value(b), Value(c), Value(d), Value(e), Value(f), Value(g), Value(h))
  }

  function Temp1(e: bv32, f: bv32, g: bv32, h: bv32, k: bv32, w: bv32): bv32 {
    SumOf(SumOf(SumOf(SumOf(h, Big1(e)), Choose(e, f, g)), k), w)
  }

  function Temp2(a: bv32, b: bv32, c: bv32): bv32 {
    SumOf(Big0(a), Majority(a, b, c))
  }

  lemma Temp1Value(e: bv32, f: bv32, g: bv32, h: bv32, k: bv32, w: bv32)
    ensures Add(Add(Add(Add(Value(h), BigSigma1(Value(e))), Ch(Value(e), Value(f), Value(g))), Value(k)), Value(w))
            == Value(Temp1(e, f, g, h, k, w))
  {
    hide Value, Add, SumOf, BigSigma1, Ch, Big1, Choose;
    Big1Value(e);
    ChooseValue(e, f, g);
    AddValue(h, Big1(e));
    AddValue(SumOf(h, Big1(e)), Choose(e, f, g));
    AddValue(SumOf(SumOf(h, Big1(e)), Choose(e, f, g)), k);
    AddValue(SumOf(SumOf(SumOf(h, Big1(e)), Choose(e, f, g)), k), w);
  }

  lemma Temp2Value(a: bv32, b: bv32, c: bv32)
    ensures Add(BigSigma0(Value(a)), Maj(Value(a), Value(b), Value(c))) == Value(Temp2(a, b, c))
  {
    hide Value, Add, SumOf, BigSigma0, Maj, Big0, Majority;
    Big0Value(a);
    MajorityValue(a, b, c);
    AddValue(Big0(a), Majority(a, b, c));
  }

  /** One round. */
  lemma Step(v: Vars, w: seq<word>, t: nat, a: bv32, b: bv32, c: bv32, d: bv32, e: bv32, f: bv32, g: bv32, h: bv32,
             kt: bv32, wt: bv32)
    requires |w| == 64 && t < 64 && Rounds(v, w, t) == Working(a, b, c, d, e, f, g, h)
    requires K[t] == Value(kt) && w[t] == Value(wt)
    ensures Rounds(v, w, t + 1) == Working(SumOf(Temp1(e, f, g, h, kt, wt), Temp2(a, b, c)), a, b, c,
                                           SumOf(d, Temp1(e, f, g, h, kt, wt)), e, f, g)
  {
    hide Value, Add, SumOf, BigSigma0, BigSigma1, Ch, Maj, Temp1, Temp2;
    var t1, t2 := Temp1(e, f, g, h, kt, wt), Temp2(a, b, c);
    Temp1Value(e, f, g, h, kt, wt);
    Temp2Value(a, b, c);
    AddValue(t1, t2);
    AddValue(d, t1);
  }

  lemma {:induction false} SchedulePrefix(block: bytes, t: nat, n: nat)
    requires |block| == 64 && t <= n
    ensures Schedule(block, n)[..t] == Schedule(block, t)
  {
    hide Add, SmallSigma0, SmallSigma1, Word;
    if t < n {
      SchedulePrefix(block, t, n - 1);
    }
  }

  /** One word of the schedule after the sixteenth. */
  lemma NextWord(block: bytes, w: seq<word>, n: nat, t: nat, w16: bv32, w15: bv32, w7: bv32, w2: bv32)
    requires |block| == 64 && w == Schedule(block, n) && 16 <= t < n
    requires w[t - 16] == Value(w16) && w[t - 15] == Value(w15) && w[t - 7] == Value(w7) && w[t - 2] == Value(w2)
    ensures w[t] == Value(SumOf(SumOf(SumOf(Small1(w2), w7), Small0(w15)), w16))
  {
    hide Value, Add, SumOf, SmallSigma0, SmallSigma1, Small0, Small1, Word;
    SchedulePrefix(block, t, n);
    SchedulePrefix(block, t + 1, n);
    var u := Schedule(block, t);
    assert u[t - 16] == w[t - 16] && u[t - 15] == w[t - 15] && u[t - 7] == w[t - 7] && u[t - 2] == w[t - 2];
    assert w[t] == Schedule(block, t + 1)[t];
    Small1Value(w2);
    Small0Value(w15);
    AddValue(Small1(w2), w7);
    AddValue(SumOf(Small1(w2), w7), Small0(w15));
    AddValue(SumOf(SumOf(Small1(w2), w7), Small0(w15)), w16);
  }

  lemma FirstWord(block: bytes, w: seq<word>, n: nat, t: nat)
    requires |block| == 64 && w == Schedule(block, n) && t < 16 && t < n
    ensures w[t] == 0x100_0000 * (block[4 * t] as int) + 0x1_0000 * (block[4 * t + 1] as int)
                    + 0x100 * (block[4 * t + 2] as int) + block[4 * t + 3]
  {
    SchedulePrefix(block, t + 1, n);
    assert w[t] == Schedule(block, t + 1)[t] == Word(block[4 * t..4 * t + 4]);
    BigEndianValue32(block[4 * t..4 * t + 4]);
  }
}
