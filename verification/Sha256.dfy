/** The firmware's streaming SHA-256 context (`m4/firmware/src/sha256.c`), proved against FIPS 180-4. */
module Sha256 {
  import opened Bytes
  import opened Fips180

  /** First half of `sha256_transform`: the schedule, filled in place from left to right. */
  method FillSchedule(p: bytes) returns (w: array<word>)
    requires |p| == 64
    ensures fresh(w) && w[..] == Schedule(p, 64)
  {
    hide Rotr, Xor, Shr, Word, JoinOctets;
    w := new word[64];
    for i := 0 to 16
      invariant w[..i] == Schedule(p, i)
    {
      JoinIsWord(p[4 * i..4 * i + 4]);
      w[i] := JoinOctets(p[4 * i], p[4 * i + 1], p[4 * i + 2], p[4 * i + 3]);
      assert w[..i + 1] == w[..i] + [w[i]];
    }
    for i := 16 to 64
      invariant w[..i] == Schedule(p, i)
    {
      var s0 := Xor(Xor(Rotr(w[i - 15], 7), Rotr(w[i - 15], 18)), Shr(w[i - 15], 3));
      var s1 := Xor(Xor(Rotr(w[i - 2], 17), Rotr(w[i - 2], 19)), Shr(w[i - 2], 10));
      AddOrder(w[i - 16], s0, w[i - 7], s1);
      w[i] := Add(Add(Add(w[i - 16], s0), w[i - 7]), s1);
      assert w[..i + 1] == w[..i] + [w[i]];
    }
  }

  /** `(a << 24) | (b << 16) | (c << 8) | d` */
  function JoinOctets(a: byte, b: byte, c: byte, d: byte): word {
    Or(Or(Or(Shl(a, 24), Shl(b, 16)), Shl(c, 8)), d)
  }

  /** n doublings, without a width. */
  function ShiftUp(x: nat, n: nat): nat {
    if n == 0 then x else 2 * ShiftUp(x, n - 1)
  }

  lemma ShiftUpValues(x: nat)
    ensures ShiftUp(x, 8) == 0x100 * x && ShiftUp(x, 16) == 0x1_0000 * x && ShiftUp(x, 24) == 0x100_0000 * x
  {
    ShiftUpFour(x, 0);
    ShiftUpFour(x, 4);
    ShiftUpFour(x, 8);
    ShiftUpFour(x, 12);
    ShiftUpFour(x, 16);
    ShiftUpFour(x, 20);
  }

  lemma ShiftUpFour(x: nat, n: nat)
    ensures ShiftUp(x, n + 4) == 16 * ShiftUp(x, n)
  {
    assert ShiftUp(x, n + 2) == 4 * ShiftUp(x, n);
  }

  /** An octet shifted by at most 24 places stays inside the word. */
  lemma {:induction false} ShlOfOctet(x: byte, n: nat)
    requires n <= 24
    ensures Shl(x, n) == ShiftUp(x, n) && ShiftUp(x, n) < 0x100 * Pow2(n) <= 0x1_0000_0000
  {
    if n > 0 {
      ShlOfOctet(x, n - 1);
      Pow2Below(n);
    } else {
      Pow2Below(0);
    }
  }

  lemma Pow2Below(n: nat)
    requires n <= 24
    ensures Pow2(n) <= 0x100_0000
  {
    hide Pow2;
    Pow2Grows(n, 24);
    Powers();
  }

  lemma {:induction false} Pow2Grows(m: nat, n: nat)
    requires m <= n
    ensures Pow2(m) <= Pow2(n)
  {
    if m < n {
      Pow2Grows(m, n - 1);
    }
  }

  /** The disjunction of a number and one below its lowest digit is their sum. */
  lemma {:induction false} OrDisjoint(x: nat, n: nat, y: nat)
    requires y < Pow2(n)
    ensures Digits(OrGate, ShiftUp(x, n), y) == ShiftUp(x, n) + y
  {
    if n == 0 {
      OrZero(x);
    } else {
      OrDisjoint(x, n - 1, y / 2);
    }
  }

  lemma {:induction false} OrZero(x: nat)
    ensures Digits(OrGate, x, 0) == x
  {
    if x > 0 {
      OrZero(x / 2);
    }
  }

  /** The four octets do not overlap: the disjunction is the big-endian value. */
  lemma JoinIsSum(a: byte, b: byte, c: byte, d: byte)
    ensures JoinOctets(a, b, c, d) == 0x100_0000 * (a as int) + 0x1_0000 * (b as int) + 0x100 * (c as int) + d
  {
    hide Digits, ShiftUp, Shl, Pow2;
    Powers();
    ShlOfOctet(a, 24);
    ShlOfOctet(b, 16);
    ShlOfOctet(c, 8);
    ShiftUpValues(a);
    ShiftUpValues(b);
    ShiftUpValues(c);
    OrDisjoint(a, 24, 0x1_0000 * b);
    var ab := 0x100 * (a as int) + b;
    ShiftUpValues(ab);
    OrDisjoint(ab, 16, 0x100 * c);
    var abc := 0x1_0000 * (a as int) + 0x100 * (b as int) + c;
    ShiftUpValues(abc);
    OrDisjoint(abc, 8, d);
  }

  lemma Powers()
    ensures Pow2(8) == 0x100 && Pow2(16) == 0x1_0000 && Pow2(24) == 0x100_0000
  {
    assert Pow2(12) == 0x1000;
    assert Pow2(20) == 0x10_0000;
  }

  /** The firmware adds the four terms of the schedule from the other end. */
  lemma AddOrder(a: word, b: word, c: word, d: word)
    ensures Add(Add(Add(a, b), c), d) == Add(Add(Add(d, c), b), a)
  {}

  lemma JoinIsWord(b: bytes)
    requires |b| == 4
    ensures Word(b) == JoinOctets(b[0], b[1], b[2], b[3])
  {
    hide JoinOctets;
    JoinIsSum(b[0], b[1], b[2], b[3]);
    BigEndianValue32(b);
  }

  /** Second half: the sixty-four rounds over rotating working variables. */
  method RoundLoop(v0: Vars, w: array<word>) returns (v: Vars)
    requires w.Length == 64
    ensures v == Rounds(v0, w[..], 64)
  {
    hide Rotr, Xor, And, Not;
    var a: word, b: word, c: word, d: word := v0.a, v0.b, v0.c, v0.d;
    var e: word, f: word, g: word, h: word := v0.e, v0.f, v0.g, v0.h;
    for i := 0 to 64
      invariant Vars(a, b, c, d, e, f, g, h) == Rounds(v0, w[..], i)
    {
      var S1 := Xor(Xor(Rotr(e, 6), Rotr(e, 11)), Rotr(e, 25));
      var ch := Xor(And(e, f), And(Not(e), g));
      var t1 := Add(Add(Add(Add(h, S1), ch), K[i]), w[i]);
      var S0 := Xor(Xor(Rotr(a, 2), Rotr(a, 13)), Rotr(a, 22));
      var maj := Xor(Xor(And(a, b), And(a, c)), And(b, c));
      var t2 := Add(S0, maj);
      h, g, f, e := g, f, e, Add(d, t1);
      d, c, b, a := c, b, a, Add(t1, t2);
    }
    v := Vars(a, b, c, d, e, f, g, h);
  }

  /** The last two lines: the working variables are added into the state words. */
  method AddInto(state: array<word>, v: Vars)
    requires state.Length == 8
    modifies state
    ensures state[..] == AddVars(old(state[..]), v)
  {
    state[0] := Add(state[0], v.a);
    state[1] := Add(state[1], v.b);
    state[2] := Add(state[2], v.c);
    state[3] := Add(state[3], v.d);
    state[4] := Add(state[4], v.e);
    state[5] := Add(state[5], v.f);
    state[6] := Add(state[6], v.g);
    state[7] := Add(state[7], v.h);
  }

  /** `sha256_transform` on the eight state words. */
  method Transform(state: array<word>, p: bytes)
    requires state.Length == 8 && |p| == 64
    modifies state
    ensures state[..] == Compress(old(state[..]), p)
  {
    var w := FillSchedule(p);
    var v := RoundLoop(Vars(state[0], state[1], state[2], state[3], state[4], state[5], state[6], state[7]), w);
    AddInto(state, v);
  }

  lemma PadZerosAfterBlocks(n: nat, q: nat, t: nat)
    requires n == 64 * q + t && t < 64
    ensures PadZeros(n) == if t < 56 then 55 - t else 119 - t
  {
    assert n % 64 == t;
  }

  /** The block the mark completes when the length field no longer fits behind it. */
  function Carried(tail: bytes): seq<block>
    requires |tail| < 64
  {
    if |tail| < 56 then [] else [tail + [0x80] + Zeros(63 - |tail|)]
  }

  /** What precedes the length field in the last block. */
  function LastStart(tail: bytes): (b: bytes)
    requires |tail| < 64
    ensures |b| == 56
  {
    if |tail| < 56 then tail + [0x80] + Zeros(55 - |tail|) else Zeros(56)
  }

  /** The firmware's two cases produce exactly the blocks of the padded message. */
  lemma PadBlocks(blocks: seq<block>, tail: bytes)
    requires |tail| < 64
    ensures
      var m := Join(blocks) + tail;
      Parse(Pad(m)) == blocks + Carried(tail) + [LastStart(tail) + BigEndian(8 * |m| % TWO64, 8)]
  {
    hide BigEndian, Parse, Join;
    var m := Join(blocks) + tail;
    var last := LastStart(tail) + BigEndian(8 * |m| % TWO64, 8);
    JoinLength(blocks);
    PadZerosAfterBlocks(|m|, |blocks|, |tail|);
    if |tail| < 56 {
      assert Pad(m) == Join(blocks) + last;
      JoinAppend(blocks, last);
      assert blocks + Carried(tail) == blocks;
      ParseWhole(blocks + [last]);
    } else {
      var extra := Carried(tail)[0];
      assert Zeros(119 - |tail|) == Zeros(63 - |tail|) + Zeros(56);
      assert Pad(m) == Join(blocks) + extra + last;
      JoinAppend(blocks, extra);
      JoinAppend(blocks + [extra], last);
      ParseWhole(blocks + [extra] + [last]);
    }
  }

  lemma ParseWhole(blocks: seq<block>)
    ensures Parse(Join(blocks)) == blocks
  {
    ParseJoin(blocks, []);
    assert Join(blocks) + [] == Join(blocks);
  }

  /** The value a `uint64_t` holds after n has been accumulated in it. */
  function Wrap64(n: nat): (r: nat)
    ensures r < TWO64
  {
    if n < TWO64 then n else Wrap64(n - TWO64)
  }

  lemma {:induction false} Wrap64IsMod(n: nat)
    ensures Wrap64(n) == n % TWO64
  {
    if n >= TWO64 {
      Wrap64IsMod(n - TWO64);
      assert n % TWO64 == (n - TWO64) % TWO64;
    }
  }

  lemma Wrap64Adds(n: nat, k: nat)
    ensures Wrap64(Wrap64(n) + k) == Wrap64(n + k)
  {
    Wrap64IsMod(n);
    Wrap64IsMod(Wrap64(n) + k);
    Wrap64IsMod(n + k);
  }

  /** `sha256_ctx`. Its two buffers belong to it alone. */
  class Context {
    const state: array<word>
    const data: array<byte>
    var bitlen: nat
    var datalen: nat

    /** The blocks compressed since the last `Init`. */
    ghost var blocks: seq<block>

    ghost predicate Allocated() {
      state.Length == 8 && data.Length == 64
    }

    /** The streaming invariant: whole blocks are in the chain, the rest is buffered. */
    ghost predicate Valid()
      reads this, state, data
    {
      && Allocated()
      && datalen < 64
      && bitlen == Wrap64(512 * |blocks|)
      && state[..] == Chain(blocks)
    }

    /** The octets absorbed since the last `Init`. */
    ghost function Absorbed(): bytes
      reads this, data
      requires Allocated() && datalen < 64
    {
      Join(blocks) + data[..datalen]
    }

    /** A declared, not yet initialised, `sha256_ctx`. */
    constructor ()
      ensures Allocated() && fresh(state) && fresh(data)
    {
      state := new word[8];
      data := new byte[64];
      bitlen, datalen, blocks := 0, 0, [];
    }

    /** `sha256_init` */
    method Init()
      requires Allocated()
      modifies this, state
      ensures Valid() && Absorbed() == []
    {
      forall i | 0 <= i < 8 {
        state[i] := H0[i];
      }
      bitlen, datalen, blocks := 0, 0, [];
      assert state[..] == H0;
    }

    /** One turn of the loop of `sha256_update`. */
    method Absorb(x: byte)
      requires Valid()
      modifies this, state, data
      ensures Valid() && Absorbed() == old(Absorbed()) + [x]
    {
      hide Compress, Chain, Wrap64;
      ghost var tail := data[..datalen];
      data[datalen] := x;
      datalen := datalen + 1;
      assert data[..datalen] == tail + [x];
      if datalen == 64 {
        ChainAppend(blocks, data[..]);
        Transform(state, data[..]);
        JoinAppend(blocks, data[..]);
        Wrap64Adds(512 * |blocks|, 512);
        bitlen := Wrap64(bitlen + 512);
        blocks := blocks + [data[..]];
        datalen := 0;
      }
    }

    /** `sha256_update` */
    method Update(p: bytes)
      requires Valid()
      modifies this, state, data
      ensures Valid() && Absorbed() == old(Absorbed()) + p
    {
      hide Compress, Chain, Wrap64;
      for i := 0 to |p|
        invariant Valid() && Absorbed() == old(Absorbed()) + p[..i]
      {
        Absorb(p[i]);
        assert p[..i + 1] == p[..i] + [p[i]];
      }
      assert p[..|p|] == p;
    }

    /** First half of `sha256_final`: the mark and the zeros, with an extra block when the length does not fit. */
    method PadLast()
      requires Valid()
      modifies this`blocks, state, data
      ensures state[..] == Chain(blocks)
      ensures blocks == old(blocks) + Carried(old(data[..datalen]))
      ensures data[..56] == LastStart(old(data[..datalen]))
    {
      hide Compress, Chain, Join, Wrap64;
      ghost var tail := data[..datalen];
      var i := datalen;
      data[i] := 0x80;
      i := i + 1;
      assert data[..i] == tail + [0x80];
      if i > 56 {
        i := ZeroFill(data, i, 64);
        assert data[..] == tail + [0x80] + Zeros(63 - datalen);
        ChainAppend(blocks, data[..]);
        Transform(state, data[..]);
        blocks := blocks + [data[..]];
        i := 0;
      }
      i := ZeroFill(data, i, 56);
    }

    /** `sha256_final`. The context must be initialised again before it is used again. */
    method Final(hash: array<byte>)
      requires Valid() && hash.Length == 32 && hash != data
      modifies this, state, data, hash
      ensures Allocated() && hash[..] == Sha256(old(Absorbed()))
    {
      hide Compress, Chain, Pad, Parse, Carried, LastStart, Join, Wrap64, BigEndian, WordOctets;
      ghost var blocks0, tail := blocks, data[..datalen];
      TotalBits(blocks0, tail);
      PadLast();
      bitlen := Wrap64(bitlen + datalen * 8);
      WriteLength(data, bitlen);
      ChainAppend(blocks, data[..]);
      Transform(state, data[..]);
      WriteDigest(state, hash);
      PadBlocks(blocks0, tail);
    }
  }

  /** The bit counter ends at the length the padding asks for. */
  lemma TotalBits(blocks: seq<block>, tail: bytes)
    ensures Wrap64(Wrap64(512 * |blocks|) + |tail| * 8) == 8 * |Join(blocks) + tail| % TWO64
  {
    JoinLength(blocks);
    Wrap64Adds(512 * |blocks|, 8 * |tail|);
    Wrap64IsMod(8 * |Join(blocks) + tail|);
  }

  /** The eight lines that store the bit counter. */
  method WriteLength(data: array<byte>, bitlen: nat)
    requires data.Length == 64
    modifies data
    ensures data[..] == old(data[..56]) + BigEndian(bitlen, 8)
  {
    data[63] := LowByte(bitlen);
    data[62] := LowByte(bitlen / 0x100);
    data[61] := LowByte(bitlen / 0x1_0000);
    data[60] := LowByte(bitlen / 0x100_0000);
    data[59] := LowByte(bitlen / 0x1_0000_0000);
    data[58] := LowByte(bitlen / 0x100_0000_0000);
    data[57] := LowByte(bitlen / 0x1_0000_0000_0000);
    data[56] := LowByte(bitlen / 0x100_0000_0000_0000);
    hide BigEndian, LowByte;
    BigEndian64(bitlen);
  }

  /** `while (i < limit) data[i++] = 0;` */
  method ZeroFill(data: array<byte>, start: nat, limit: nat) returns (i: nat)
    requires start <= limit <= data.Length
    modifies data
    ensures i == limit
    ensures data[..] == old(data[..start]) + Zeros(limit - start) + old(data[limit..])
  {
    i := start;
    while i < limit
      invariant start <= i <= limit
      invariant data[..] == old(data[..start]) + Zeros(i - start) + old(data[i..])
    {
      data[i] := 0;
      i := i + 1;
    }
  }

  /** The last loop of `sha256_final`: octet i of every state word in turn. */
  method WriteDigest(state: array<word>, hash: array<byte>)
    requires state.Length == 8 && hash.Length == 32
    modifies hash
    ensures hash[..] == WordOctets(state[..])
  {
    for i := 0 to 4
      invariant forall n :: 0 <= n < 32 && n % 4 < i ==> hash[n] == Octet(state[n / 4], n % 4)
    {
      WriteColumn(state, hash, i);
    }
    forall n | 0 <= n < 32
      ensures hash[n] == WordOctets(state[..])[n]
    {
      WordOctetsAt(state[..], n / 4, n % 4);
      BigEndian32(state[n / 4]);
    }
  }

  method WriteColumn(state: array<word>, hash: array<byte>, i: nat)
    requires state.Length == 8 && hash.Length == 32 && i < 4
    modifies hash
    ensures forall n :: 0 <= n < 32 ==> hash[n] == if n % 4 == i then Octet(state[n / 4], i) else old(hash[n])
  {
    hash[i] := Octet(state[0], i);
    hash[i + 4] := Octet(state[1], i);
    hash[i + 8] := Octet(state[2], i);
    hash[i + 12] := Octet(state[3], i);
    hash[i + 16] := Octet(state[4], i);
    hash[i + 20] := Octet(state[5], i);
    hash[i + 24] := Octet(state[6], i);
    hash[i + 28] := Octet(state[7], i);
  }

  /** `(uint8_t)(w >> (24 - i*8))` */
  function Octet(w: word, i: nat): byte
    requires i < 4
  {
    LowByte(w / (if i == 0 then 0x100_0000 else if i == 1 then 0x1_0000 else if i == 2 then 0x100 else 1))
  }

  function Concat(chunks: seq<bytes>): bytes {
    if chunks == [] then [] else Concat(chunks[..|chunks| - 1]) + chunks[|chunks| - 1]
  }

  /** init, one update per chunk, final: the digest does not depend on how the message is cut. */
  method HashChunks(c: Context, chunks: seq<bytes>, hash: array<byte>)
    requires c.Allocated() && hash.Length == 32 && hash != c.data
    modifies c, c.state, c.data, hash
    ensures c.Allocated() && hash[..] == Sha256(Concat(chunks))
  {
    hide Sha256, Chain;
    c.Init();
    for i := 0 to |chunks|
      invariant c.Valid() && c.Absorbed() == Concat(chunks[..i])
    {
      c.Update(chunks[i]);
      assert chunks[..i + 1][..i] == chunks[..i];
    }
    assert chunks[..|chunks|] == chunks;
    c.Final(hash);
  }
}
