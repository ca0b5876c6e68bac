/** Words as bit vectors: the operations of `Fips180` on numbers are the ones a solver evaluates on 32-bit constants. */
module BitVectors {
  import opened Bytes
  import opened Fips180

  // The operations, named so that the proofs below use no more than they state.

  function Half(b: bv32): bv32 { b >> 1 }
  function Turn(b: bv32): bv32 { b.RotateRight(1) }
  function NotOf(b: bv32): bv32 { !b }
  function AndOf(a: bv32, b: bv32): bv32 { a & b }
  function XorOf(a: bv32, b: bv32): bv32 { a ^ b }

  function Digit(b: bv32, mask: bv32): (d: nat)
    ensures d <= 1
  {
    if b & mask == 0 then 0 else 1
  }

  function Part0(b: bv32): (n: nat)
    ensures n < 0x100
  {
    (if b & 0x1 == 0 then 0 else 0x1) + (if b & 0x2 == 0 then 0 else 0x2) + (if b & 0x4 == 0 then 0 else 0x4)
    + (if b & 0x8 == 0 then 0 else 0x8) + (if b & 0x10 == 0 then 0 else 0x10) + (if b & 0x20 == 0 then 0 else 0x20)
    + (if b & 0x40 == 0 then 0 else 0x40) + (if b & 0x80 == 0 then 0 else 0x80)
  }

  lemma Part0Is(b: bv32)
    ensures Part0(b) == Digit(b, 0x1) + 0x2 * Digit(b, 0x2) + 0x4 * Digit(b, 0x4) + 0x8 * Digit(b, 0x8)
                        + 0x10 * Digit(b, 0x10) + 0x20 * Digit(b, 0x20) + 0x40 * Digit(b, 0x40)
                        + 0x80 * Digit(b, 0x80)
  {}

  function Part1(b: bv32): (n: nat)
    ensures n < 0x10000
  {
    (if b & 0x100 == 0 then 0 else 0x100) + (if b & 0x200 == 0 then 0 else 0x200)
    + (if b & 0x400 == 0 then 0 else 0x400) + (if b & 0x800 == 0 then 0 else 0x800)
    + (if b & 0x1000 == 0 then 0 else 0x1000) + (if b & 0x2000 == 0 then 0 else 0x2000)
    + (if b & 0x4000 == 0 then 0 else 0x4000) + (if b & 0x8000 == 0 then 0 else 0x8000)
  }

  lemma Part1Is(b: bv32)
    ensures Part1(b) == 0x100 * Digit(b, 0x100) + 0x200 * Digit(b, 0x200) + 0x400 * Digit(b, 0x400)
                        + 0x800 * Digit(b, 0x800) + 0x1000 * Digit(b, 0x1000) + 0x2000 * Digit(b, 0x2000)
                        + 0x4000 * Digit(b, 0x4000) + 0x8000 * Digit(b, 0x8000)
  {}

  function Part2(b: bv32): (n: nat)
    ensures n < 0x1000000
  {
    (if b & 0x10000 == 0 then 0 else 0x10000) + (if b & 0x20000 == 0 then 0 else 0x20000)
    + (if b & 0x40000 == 0 then 0 else 0x40000) + (if b & 0x80000 == 0 then 0 else 0x80000)
    + (if b & 0x100000 == 0 then 0 else 0x100000) + (if b & 0x200000 == 0 then 0 else 0x200000)
    + (if b & 0x400000 == 0 then 0 else 0x400000) + (if b & 0x800000 == 0 then 0 else 0x800000)
  }

  lemma Part2Is(b: bv32)
    ensures Part2(b) == 0x10000 * Digit(b, 0x10000) + 0x20000 * Digit(b, 0x20000) + 0x40000 * Digit(b, 0x40000)
                        + 0x80000 * Digit(b, 0x80000) + 0x100000 * Digit(b, 0x100000) + 0x200000 * Digit(b, 0x200000)
                        + 0x400000 * Digit(b, 0x400000) + 0x800000 * Digit(b, 0x800000)
  {}

  function Part3(b: bv32): (n: nat)
    ensures n < 0x100000000
  {
    (if b & 0x1000000 == 0 then 0 else 0x1000000) + (if b & 0x2000000 == 0 then 0 else 0x2000000)
    + (if b & 0x4000000 == 0 then 0 else 0x4000000) + (if b & 0x8000000 == 0 then 0 else 0x8000000)
    + (if b & 0x10000000 == 0 then 0 else 0x10000000) + (if b & 0x20000000 == 0 then 0 else 0x20000000)
    + (if b & 0x40000000 == 0 then 0 else 0x40000000) + (if b & 0x80000000 == 0 then 0 else 0x80000000)
  }

  lemma Part3Is(b: bv32)
    ensures Part3(b) == 0x1000000 * Digit(b, 0x1000000) + 0x2000000 * Digit(b, 0x2000000)
                        + 0x4000000 * Digit(b, 0x4000000) + 0x8000000 * Digit(b, 0x8000000)
                        + 0x10000000 * Digit(b, 0x10000000) + 0x20000000 * Digit(b, 0x20000000)
                        + 0x40000000 * Digit(b, 0x40000000) + 0x80000000 * Digit(b, 0x80000000)
  {}


  /** The number a bit vector stands for. */
  function Value(b: bv32): word {
    Part0(b) + Part1(b) + Part2(b) + Part3(b)
  }

  /** ... by its digits. */
  function DigitSum(b: bv32): nat {
    Digit(b, 0x1) + 0x2 * Digit(b, 0x2) + 0x4 * Digit(b, 0x4) + 0x8 * Digit(b, 0x8) + 0x10 * Digit(b, 0x10)
    + 0x20 * Digit(b, 0x20) + 0x40 * Digit(b, 0x40) + 0x80 * Digit(b, 0x80) + 0x100 * Digit(b, 0x100)
    + 0x200 * Digit(b, 0x200) + 0x400 * Digit(b, 0x400) + 0x800 * Digit(b, 0x800) + 0x1000 * Digit(b, 0x1000)
    + 0x2000 * Digit(b, 0x2000) + 0x4000 * Digit(b, 0x4000) + 0x8000 * Digit(b, 0x8000)
    + 0x10000 * Digit(b, 0x10000) + 0x20000 * Digit(b, 0x20000) + 0x40000 * Digit(b, 0x40000)
    + 0x80000 * Digit(b, 0x80000) + 0x100000 * Digit(b, 0x100000) + 0x200000 * Digit(b, 0x200000)
    + 0x400000 * Digit(b, 0x400000) + 0x800000 * Digit(b, 0x800000) + 0x1000000 * Digit(b, 0x1000000)
    + 0x2000000 * Digit(b, 0x2000000) + 0x4000000 * Digit(b, 0x4000000) + 0x8000000 * Digit(b, 0x8000000)
    + 0x10000000 * Digit(b, 0x10000000) + 0x20000000 * Digit(b, 0x20000000) + 0x40000000 * Digit(b, 0x40000000)
    + 0x80000000 * Digit(b, 0x80000000)
  }

  lemma ValueIs(b: bv32)
    ensures Value(b) == DigitSum(b)
  {
    hide Digit, Part0, Part1, Part2, Part3;
    Part0Is(b);
    Part1Is(b);
    Part2Is(b);
    Part3Is(b);
  }

  lemma HalfDigits(b: bv32)
    ensures Digit(Half(b), 0x1) == Digit(b, 0x2) && Digit(Half(b), 0x2) == Digit(b, 0x4)
    ensures Digit(Half(b), 0x4) == Digit(b, 0x8) && Digit(Half(b), 0x8) == Digit(b, 0x10)
    ensures Digit(Half(b), 0x10) == Digit(b, 0x20) && Digit(Half(b), 0x20) == Digit(b, 0x40)
    ensures Digit(Half(b), 0x40) == Digit(b, 0x80) && Digit(Half(b), 0x80) == Digit(b, 0x100)
    ensures Digit(Half(b), 0x100) == Digit(b, 0x200) && Digit(Half(b), 0x200) == Digit(b, 0x400)
    ensures Digit(Half(b), 0x400) == Digit(b, 0x800) && Digit(Half(b), 0x800) == Digit(b, 0x1000)
    ensures Digit(Half(b), 0x1000) == Digit(b, 0x2000) && Digit(Half(b), 0x2000) == Digit(b, 0x4000)
    ensures Digit(Half(b), 0x4000) == Digit(b, 0x8000) && Digit(Half(b), 0x8000) == Digit(b, 0x10000)
    ensures Digit(Half(b), 0x10000) == Digit(b, 0x20000) && Digit(Half(b), 0x20000) == Digit(b, 0x40000)
    ensures Digit(Half(b), 0x40000) == Digit(b, 0x80000) && Digit(Half(b), 0x80000) == Digit(b, 0x100000)
    ensures Digit(Half(b), 0x100000) == Digit(b, 0x200000) && Digit(Half(b), 0x200000) == Digit(b, 0x400000)
    ensures Digit(Half(b), 0x400000) == Digit(b, 0x800000) && Digit(Half(b), 0x800000) == Digit(b, 0x1000000)
    ensures Digit(Half(b), 0x1000000) == Digit(b, 0x2000000) && Digit(Half(b), 0x2000000) == Digit(b, 0x4000000)
    ensures Digit(Half(b), 0x4000000) == Digit(b, 0x8000000) && Digit(Half(b), 0x8000000) == Digit(b, 0x10000000)
    ensures Digit(Half(b), 0x10000000) == Digit(b, 0x20000000) && Digit(Half(b), 0x20000000) == Digit(b, 0x40000000)
    ensures Digit(Half(b), 0x40000000) == Digit(b, 0x80000000) && Digit(Half(b), 0x80000000) == 0
  {}

  lemma HalfValue(b: bv32)
    ensures Value(b) == 2 * Value(Half(b)) + Digit(b, 0x1)
  {
    hide Value, Digit, Half;
    ValueIs(b);
    ValueIs(Half(b));
    HalfDigits(b);
  }

  lemma OnlyZero(b: bv32)
    ensures Value(b) == 0 ==> b == 0
  {
    hide Value;
    ValueIs(b);
  }

  lemma LowDigits(a: bv32, b: bv32)
    ensures Half(AndOf(a, b)) == AndOf(Half(a), Half(b)) && Half(XorOf(a, b)) == XorOf(Half(a), Half(b))
    ensures Digit(AndOf(a, b), 0x1) == AndGate.Output(Digit(a, 0x1), Digit(b, 0x1))
    ensures Digit(XorOf(a, b), 0x1) == XorGate.Output(Digit(a, 0x1), Digit(b, 0x1))
    ensures AndOf(0, 0) == XorOf(0, 0) == 0
  {}

  lemma Unfold(g: Gate, x: nat, y: nat, p: nat, q: nat)
    requires p <= 1 && q <= 1 && 2 * x + p + 2 * y + q > 0
    ensures Digits(g, 2 * x + p, 2 * y + q) == 2 * Digits(g, x, y) + g.Output(p, q)
  {
    assert (2 * x + p) / 2 == x && (2 * y + q) / 2 == y;
  }

  /** The gates. */
  lemma {:induction false} GateValues(a: bv32, b: bv32)
    ensures Digits(AndGate, Value(a), Value(b)) == Value(AndOf(a, b))
    ensures Digits(XorGate, Value(a), Value(b)) == Value(XorOf(a, b))
    decreases Value(a) + Value(b)
  {
    hide Value, Digit, Half, AndOf, XorOf, Digits;
    LowDigits(a, b);
    if Value(a) + Value(b) == 0 {
      OnlyZero(a);
      OnlyZero(b);
      ZeroValues();
    } else {
      HalfValue(a);
      HalfValue(b);
      HalfValue(AndOf(a, b));
      HalfValue(XorOf(a, b));
      GateValues(Half(a), Half(b));
      Unfold(AndGate, Value(Half(a)), Value(Half(b)), Digit(a, 0x1), Digit(b, 0x1));
      Unfold(XorGate, Value(Half(a)), Value(Half(b)), Digit(a, 0x1), Digit(b, 0x1));
    }
  }

  lemma ZeroValues()
    ensures Value(0) == 0 && Digits(AndGate, 0, 0) == 0 && Digits(XorGate, 0, 0) == 0
  {}

  // ---------- sums ----------

  function SumOf(a: bv32, b: bv32): bv32 { a + b }
  function DoubleOf(b: bv32): bv32 { b << 1 }

  function LowOf(b: bv32): bv32 { b & 0x7fff_ffff }
  function TopOf(b: bv32): bv32 { b & 0x8000_0000 }

  lemma LowDigitsAdd(a: bv32, b: bv32)
    ensures Digit(a, 0x1) + Digit(b, 0x1) == Digit(XorOf(a, b), 0x1) + 2 * Digit(AndOf(a, b), 0x1)
  {}

  /** The digits of a sum before the carries. */
  lemma {:induction false} SumValue(a: bv32, b: bv32)
    ensures Value(a) + Value(b) == Value(XorOf(a, b)) + 2 * Value(AndOf(a, b))
    decreases Value(a) + Value(b)
  {
    hide Value, Digit, Half, AndOf, XorOf;
    LowDigits(a, b);
    if Value(a) + Value(b) == 0 {
      OnlyZero(a);
      OnlyZero(b);
    } else {
      HalfValue(a);
      HalfValue(b);
      HalfValue(AndOf(a, b));
      HalfValue(XorOf(a, b));
      LowDigitsAdd(a, b);
      SumValue(Half(a), Half(b));
    }
  }

  lemma DoubleParts(b: bv32)
    ensures Half(DoubleOf(b)) == LowOf(b) && Digit(DoubleOf(b), 0x1) == 0
  {}

  lemma LowAndTop(b: bv32)
    ensures AndOf(LowOf(b), TopOf(b)) == 0 && XorOf(LowOf(b), TopOf(b)) == b
  {}

  lemma TopIs(b: bv32)
    ensures TopOf(b) == 0 || TopOf(b) == 0x8000_0000
  {}

  lemma DoubleValue(b: bv32)
    ensures Value(DoubleOf(b)) == Double(Value(b))
  {
    hide Value, Digit, Half, AndOf, XorOf, DoubleOf, LowOf, TopOf;
    DoubleParts(b);
    LowAndTop(b);
    TopIs(b);
    HalfValue(DoubleOf(b));
    SumValue(LowOf(b), TopOf(b));
    assert Value(0) == 0 && Value(0x8000_0000) == 0x8000_0000 by { TopValues(); }
  }

  lemma TopValues()
    ensures Value(0) == 0 && Value(0x8000_0000) == 0x8000_0000
  {}

  /** n ones. */
  function Ones(n: nat): bv32 {
    if n == 0 then 0 else (Ones(n - 1) << 1) | 1
  }

  // What the carries do, on plain operators first.

  lemma SplitOff(a: bv32, b: bv32)
    ensures (a & b) + (a & !b) == a
  {}

  lemma XorSplits(a: bv32, b: bv32)
    ensures (a & !b) + (b & !a) == a ^ b
  {}

  lemma TwoSums(p: bv32, q: bv32, r: bv32)
    ensures (p + q) + (p + r) == (q + r) + (p << 1)
  {}

  lemma CarryMoves(a: bv32, b: bv32)
    ensures a + b == (a ^ b) + ((a & b) << 1)
  {
    calc {
      a + b;
      { SplitOff(a, b); }
      ((a & b) + (a & !b)) + b;
      { SplitOff(b, a); assert a & b == b & a; }
      ((a & b) + (a & !b)) + ((a & b) + (b & !a));
      { TwoSums(a & b, a & !b, b & !a); }
      ((a & !b) + (b & !a)) + ((a & b) << 1);
      { XorSplits(a, b); }
      (a ^ b) + ((a & b) << 1);
    }
  }

  lemma SumMoves(a: bv32, b: bv32)
    ensures SumOf(a, b) == SumOf(a ^ b, (a & b) << 1)
  {
    CarryMoves(a, b);
  }

  lemma Named(a: bv32, b: bv32)
    ensures XorOf(a, b) == a ^ b && DoubleOf(AndOf(a, b)) == (a & b) << 1
  {}

  lemma SumCarries(a: bv32, b: bv32)
    ensures SumOf(a, b) == SumOf(XorOf(a, b), DoubleOf(AndOf(a, b)))
  {
    hide SumOf, XorOf, AndOf, DoubleOf;
    Named(a, b);
    SumMoves(a, b);
  }

  predicate Clear(b: bv32, n: nat) {
    b & Ones(n) == 0
  }

  lemma OnesMove(a: bv32, b: bv32, n: nat)
    requires Clear(b, n)
    ensures Clear(DoubleOf(AndOf(a, b)), n + 1)
  {}

  lemma AllOnes()
    ensures Ones(32) == 0xffff_ffff
  {
    assert Ones(8) == 0xff;
    assert Ones(16) == 0xffff;
    assert Ones(24) == 0xff_ffff;
  }

  lemma NoCarry(a: bv32, b: bv32)
    requires Clear(b, 32)
    ensures b == 0 && SumOf(a, b) == a
  {
    AllOnes();
  }

  lemma AllClear(b: bv32)
    ensures Clear(b, 0)
  {}

  lemma AddWraps(a: word, b: word, x: word, c: word)
    requires a + b == x + 2 * c
    ensures Add(a, b) == Add(x, Double(c))
  {}

  /** One turn of the carries leaves the sum of the values. */
  lemma CarryValue(a: bv32, b: bv32)
    ensures Add(Value(a), Value(b)) == Add(Value(XorOf(a, b)), Value(DoubleOf(AndOf(a, b))))
  {
    hide Value, XorOf, AndOf, DoubleOf;
    SumValue(a, b);
    DoubleValue(AndOf(a, b));
    AddWraps(Value(a), Value(b), Value(XorOf(a, b)), Value(AndOf(a, b)));
  }

  /** The carries move to the left until none are left. */
  lemma {:induction false} AddCarries(a: bv32, b: bv32, n: nat)
    requires n <= 32 && Clear(b, n)
    ensures Add(Value(a), Value(b)) == Value(SumOf(a, b))
    decreases 32 - n
  {
    hide Value, Clear, SumOf, XorOf, AndOf, DoubleOf;
    if n == 32 {
      NoCarry(a, b);
      ZeroValues();
    } else {
      SumCarries(a, b);
      OnesMove(a, b, n);
      AddCarries(XorOf(a, b), DoubleOf(AndOf(a, b)), n + 1);
      CarryValue(a, b);
    }
  }

  lemma AddValue(a: bv32, b: bv32)
    ensures Add(Value(a), Value(b)) == Value(SumOf(a, b))
  {
    hide Value, Clear, SumOf;
    AllClear(b);
    AddCarries(a, b, 0);
  }

  // ---------- complements, shifts and rotations ----------

  lemma NotParts(b: bv32)
    ensures AndOf(b, NotOf(b)) == 0 && XorOf(b, NotOf(b)) == 0xffff_ffff
  {}

  lemma NotValue(b: bv32)
    ensures Value(NotOf(b)) == Not(Value(b))
  {
    hide Value, AndOf, XorOf, NotOf;
    NotParts(b);
    SumValue(b, NotOf(b));
    ZeroValues();
    LargestValue();
  }

  lemma LargestValue()
    ensures Value(0xffff_ffff) == 0xffff_ffff
  {}

  lemma TurnEven(b: bv32)
    requires b & 1 == 0
    ensures Turn(b) == Half(b)
  {}

  lemma TurnOdd(b: bv32)
    requires b & 1 != 0
    ensures AndOf(Half(b), 0x8000_0000) == 0 && XorOf(Half(b), 0x8000_0000) == Turn(b)
  {}

  lemma TurnValue(b: bv32)
    ensures Value(Turn(b)) == Value(b) / 2 + 0x8000_0000 * (Value(b) % 2)
  {
    hide Value, Turn, Half, AndOf, XorOf;
    HalfValue(b);
    if b & 1 == 0 {
      TurnEven(b);
    } else {
      TurnOdd(b);
      SumValue(Half(b), 0x8000_0000);
      TopValues();
    }
  }

  lemma {:induction false} BitsDetermine(x: nat, y: nat, n: nat)
    requires x < Pow2(n) && y < Pow2(n) && forall i :: 0 <= i < n ==> Bit(x, i) == Bit(y, i)
    ensures x == y
  {
    if n > 0 {
      assert Bit(x, 0) == Bit(y, 0);
      forall i | 0 <= i < n - 1
        ensures Bit(x / 2, i) == Bit(y / 2, i)
      {
        assert Bit(x, i + 1) == Bit(y, i + 1);
      }
      BitsDetermine(x / 2, y / 2, n - 1);
    }
  }

  lemma {:induction false} TopBit(x: nat, n: nat)
    requires Pow2(n) <= x < Pow2(n + 1)
    ensures Bit(x, n) == 1
  {
    if n > 0 {
      TopBit(x / 2, n - 1);
    }
  }

  lemma RotrOne(x: word)
    ensures Rotr(x, 1) == x / 2 + 0x8000_0000 * (x % 2)
  {
    hide Rotr, Pow2;
    Pow2Word();
    HalfOfWord();
    var y := x / 2 + 0x8000_0000 * (x % 2);
    forall i | 0 <= i < 32
      ensures Bit(Rotr(x, 1), i) == Bit(y, i)
    {
      BitOfRotr(x, 1, i);
      if i == 31 {
        if x % 2 == 1 {
          TopBit(y, 31);
        } else {
          HighBitsZero(y, 31, 31);
        }
      } else if x % 2 == 1 {
        BitBelowTop(y, 31, i);
      }
    }
    BitsDetermine(Rotr(x, 1), y, 32);
  }

  lemma HalfOfWord()
    ensures Pow2(31) == 0x8000_0000
  {
    Pow2Word();
  }

  lemma RotrAdds(x: word, m: nat, n: nat)
    requires 0 < m && 0 < n && m + n < 32
    ensures Rotr(Rotr(x, m), n) == Rotr(x, m + n)
  {
    hide Rotr, Bit;
    Pow2Word();
    forall i | 0 <= i < 32
      ensures Bit(Rotr(Rotr(x, m), n), i) == Bit(Rotr(x, m + n), i)
    {
      BitOfRotr(Rotr(x, m), n, i);
      BitOfRotr(x, m, if i + n < 32 then i + n else i + n - 32);
      BitOfRotr(x, m + n, i);
    }
    BitsDetermine(Rotr(Rotr(x, m), n), Rotr(x, m + n), 32);
  }

  function Turns(b: bv32, n: nat): bv32 {
    if n == 0 then b else Turn(Turns(b, n - 1))
  }

  function Halves(b: bv32, n: nat): bv32 {
    if n == 0 then b else Half(Halves(b, n - 1))
  }

  lemma {:induction false} TurnsValue(b: bv32, n: nat)
    requires 0 < n < 32
    ensures Rotr(Value(b), n) == Value(Turns(b, n))
  {
    hide Value, Turn, Rotr;
    TurnValue(Turns(b, n - 1));
    RotrOne(Value(Turns(b, n - 1)));
    if n > 1 {
      TurnsValue(b, n - 1);
      RotrAdds(Value(b), n - 1, 1);
    }
  }

  lemma {:induction false} HalvesValue(b: bv32, n: nat)
    ensures Shr(Value(b), n) == Value(Halves(b, n))
  {
    hide Value, Half, Digit;
    if n > 0 {
      HalvesValue(b, n - 1);
      HalfValue(Halves(b, n - 1));
    }
  }
}
