/** The Cortex-M4 client `m4/firmware/src/main_handshake.c`: frames, buffers and checks. */
module Firmware {
  import opened Bytes
  import opened Framing
  import opened Wire
  import opened Rfc2104
  import Fips180
  import Rfc5869
  import opened Sha256
  import FirmwareKdf
  import opened Handshake

  const FRAMING_MAX: nat := 8192
  const LABEL := Ascii("default")
  const FINISHED := Ascii("finished")

  // ---------- frames over the serial line ----------

  /** `send_frame` */
  method SendFrame(payload: bytes) returns (sent: bytes)
    requires |payload| < FRAME_LIMIT
    ensures sent == Frame(payload)
  {
    var n := |payload|;
    var hdr := [LowByte(n / 0x100_0000), LowByte(n / 0x1_0000), LowByte(n / 0x100), LowByte(n)];
    BigEndian32(n);
    sent := hdr + payload;
  }

  /** How `recv_frame` ends: return codes 0, -1 and -2, or a write behind the caller's buffer. */
  datatype Receipt = Received(n: nat) | TimedOut | TooLong | OutOfBounds

  /** What `recv_frame` does with the octets that arrive, given a buffer of `room` octets. */
  function Receive(incoming: bytes, room: nat): Receipt {
    if |incoming| < 4 then TimedOut
    else
      var n := BigEndianValue(incoming[..4]);
      if n > FRAMING_MAX then TooLong else ReceiveBody(|incoming| - 4, n, room)
  }

  /** The loop for n octets, when so many arrive. */
  function ReceiveBody(arriving: nat, n: nat, room: nat): Receipt {
    if n <= room then if arriving >= n then Received(n) else TimedOut
    else if arriving > room then OutOfBounds else TimedOut
  }

  /** Every input stays inside the buffer exactly when the buffer holds the largest frame that is let through. */
  lemma InBoundsIff(room: nat)
    ensures (forall incoming :: Receive(incoming, room) != OutOfBounds) <==> FRAMING_MAX <= room
  {
    if room < FRAMING_MAX {
      var incoming := Frame(Zeros(room + 1));
      hide BigEndian, BigEndianValue;
      Pow256Values();
      BigEndianRoundTrip(room + 1, 4);
      assert incoming[..4] == BigEndian(room + 1, 4);
      assert Receive(incoming, room) == OutOfBounds;
    }
  }

  /** Which inputs leave a buffer: those that announce more than it holds, up to FRAMING_MAX, and send more. */
  lemma OverrunsIff(incoming: bytes, room: nat)
    ensures Receive(incoming, room) == OutOfBounds <==>
      && |incoming| >= 5 + room && room < BigEndianValue(incoming[..4]) <= 8192
    ensures Receive(incoming, room) == TooLong <==> |incoming| >= 4 && BigEndianValue(incoming[..4]) > 8192
    ensures forall n: nat :: Receive(incoming, room) == Received(n) <==>
      && |incoming| >= 4 + n && n <= room && n <= 8192 && |incoming| >= 4 && n == BigEndianValue(incoming[..4])
  {}

  /** `m2` has 8192 octets and is safe; `m4` has 64 and is not: a frame of 65 octets is written past its end. */
  lemma BuffersOfMain()
    ensures forall incoming :: Receive(incoming, 8192) != OutOfBounds
    ensures Receive([0, 0, 0, 65] + Zeros(65), 64) == OutOfBounds
  {
    InBoundsIff(8192);
    BigEndianValue32([0, 0, 0, 65]);
    assert ([0, 0, 0, 65] + Zeros(65))[..4] == [0, 0, 0, 65];
  }

  /** In a buffer that is large enough it takes what Python takes, up to FRAMING_MAX octets. */
  lemma ReceivesFrames(incoming: bytes, room: nat)
    requires FRAMING_MAX <= room
    ensures Receive(incoming, room).Received? <==>
      TakeFrame(incoming).Some? && |TakeFrame(incoming).value.0| <= FRAMING_MAX
  {}

  /** A frame that fits is received whole, whatever follows it. */
  lemma ReceivesFrame(payload: bytes, rest: bytes, room: nat)
    requires |payload| <= FRAMING_MAX && |payload| <= room
    ensures Receive(Frame(payload) + rest, room) == Received(|payload|)
    ensures (Frame(payload) + rest)[4..4 + |payload|] == payload && (Frame(payload) + rest)[4 + |payload|..] == rest
  {
    hide BigEndian, BigEndianValue;
    Pow256Values();
    BigEndianRoundTrip(|payload|, 4);
    assert (Frame(payload) + rest)[..4] == BigEndian(|payload|, 4);
  }

  /** The receiving side of the serial line: the octets that arrive before a timeout. */
  class Usart {
    var incoming: bytes

    constructor (incoming: bytes)
      ensures this.incoming == incoming
    {
      this.incoming := incoming;
    }

    /** `usart2_recv_byte`; None is a timeout */
    method RecvByte() returns (b: Option<byte>)
      modifies this
      ensures old(incoming) == [] ==> b == None && incoming == []
      ensures old(incoming) != [] ==> b == Some(old(incoming)[0]) && incoming == old(incoming)[1..]
    {
      if incoming == [] {
        return None;
      }
      b := Some(incoming[0]);
      incoming := incoming[1..];
    }

    /** The four reads into `hdr`, and the length they announce. */
    method RecvHeader() returns (len: Option<nat>)
      modifies this
      ensures |old(incoming)| < 4 ==> len == None && incoming == []
      ensures |old(incoming)| >= 4 ==> len == Some(BigEndianValue(old(incoming)[..4])) && incoming == old(incoming)[4..]
    {
      hide JoinOctets;
      var hdr: bytes := [];
      for i := 0 to 4
        invariant |hdr| == i && old(incoming) == hdr + incoming
      {
        var b := RecvByte();
        if b.None? {
          return None;
        }
        hdr := hdr + [b.value];
      }
      len := Some(JoinOctets(hdr[0], hdr[1], hdr[2], hdr[3]));
      JoinIsSum(hdr[0], hdr[1], hdr[2], hdr[3]);
      BigEndianValue32(hdr);
    }

    /** The loop of `recv_frame`, followed up to the first octet that would land behind the buffer. */
    method RecvBody(buf: array<byte>, len: nat) returns (o: Receipt)
      modifies this, buf
      ensures o == ReceiveBody(|old(incoming)|, len, buf.Length)
      ensures o.Received? ==>
        buf[..] == old(incoming)[..len] + old(buf[len..]) && incoming == old(incoming)[len..]
    {
      ghost var body, was := incoming, buf[..];
      for i := 0 to len
        invariant i <= |body| && i <= buf.Length && incoming == body[i..]
        invariant forall k :: 0 <= k < i ==> buf[k] == body[k]
        invariant forall k :: i <= k < buf.Length ==> buf[k] == was[k]
      {
        var b := RecvByte();
        if b.None? {
          return TimedOut;
        }
        if i >= buf.Length {
          return OutOfBounds;
        }
        buf[i] := b.value;
      }
      assert buf[..] == body[..len] + was[len..];
      return Received(len);
    }

    /** `recv_frame` */
    method RecvFrame(buf: array<byte>) returns (o: Receipt)
      modifies this, buf
      ensures o == Receive(old(incoming), buf.Length)
      ensures o.Received? ==>
        buf[..] == old(incoming)[4..4 + o.n] + old(buf[o.n..]) && incoming == old(incoming)[4 + o.n..]
    {
      hide BigEndianValue;
      var len := RecvHeader();
      if len.None? {
        return TimedOut;
      }
      if len.value > FRAMING_MAX {
        return TooLong;
      }
      ghost var body := incoming;
      o := RecvBody(buf, len.value);
      if o.Received? {
        assert body[..o.n] == old(incoming)[4..4 + o.n] && body[o.n..] == old(incoming)[4 + o.n..];
      }
    }
  }

  // ---------- m1 ----------

  /** `r_c[i] = (uint8_t)(i*7+3)` */
  function TestNonce(): (r: bytes)
    ensures |r| == 32
  {
    seq(32, i requires 0 <= i < 32 => LowByte(7 * i + 3))
  }

  /** `pack16(d + off, v)` */
  method Pack16(d: array<byte>, off: nat, v: nat)
    requires off + 2 <= d.Length && v <= 0xffff
    modifies d
    ensures d[..] == old(d[..off]) + BigEndian(v, 2) + old(d[off + 2..])
  {
    d[off] := LowByte(v / 0x100);
    d[off + 1] := LowByte(v);
    assert BigEndian(v, 2) == BigEndian(v / 256, 1) + [LowByte(v)];
    assert BigEndian(v / 256, 1) == BigEndian(v / 256 / 256, 0) + [LowByte(v / 256)];
  }

  /** A 16-bit length and the octets it announces, written at `off`. */
  method PutField(d: array<byte>, off: nat, b: bytes) returns (off': nat)
    requires Fits(b) && off + 2 + |b| <= d.Length
    modifies d
    ensures off' == off + 2 + |b|
    ensures d[..off'] == old(d[..off]) + Field16(b).value
  {
    hide BigEndian;
    Pack16(d, off, |b|);
    FirmwareKdf.CopyInto(d, off + 2, b);
    off' := off + 2 + |b|;
  }

  /** `memcpy(d + off, b, |b|); off += |b|` */
  method PutBytes(d: array<byte>, off: nat, b: bytes) returns (off': nat)
    requires off + |b| <= d.Length
    modifies d
    ensures off' == off + |b|
    ensures d[..off'] == old(d[..off]) + b
  {
    FirmwareKdf.CopyInto(d, off, b);
    off' := off + |b|;
  }

  /** The CLIENT_HELLO block of `main`: the 900-octet buffer holds the Python m1 for the label "default". */
  method FillM1(m1: array<byte>, pkEph: bytes) returns (len: nat)
    requires m1.Length == 900 && |pkEph| == 800
    modifies m1
    ensures len <= 900 && Ok(m1[..len]) == BuildM1(M1(LABEL, EPOCH_1, TestNonce(), pkEph))
    ensures ParseM1(m1[..len]) == Ok(M1(LABEL, EPOCH_1, TestNonce(), pkEph))
  {
    hide BigEndian, Field16, ParseM1, TestNonce;
    assert |LABEL| == 7;
    FieldLength(LABEL);
    FieldLength(pkEph);
    len := PutField(m1, 0, LABEL);
    assert m1[..len] == Field16(LABEL).value;
    len := PutBytes(m1, len, EPOCH_1);
    len := PutBytes(m1, len, TestNonce());
    len := PutField(m1, len, pkEph);
    M1RoundTrip(M1(LABEL, EPOCH_1, TestNonce(), pkEph));
  }

  lemma FieldLength(b: bytes)
    requires Fits(b)
    ensures Field16(b).Ok? && |Field16(b).value| == 2 + |b|
  {}

  // ---------- m2 ----------

  /** `rd16(m2 + off)`, and None for a read behind the buffer */
  function Rd16(b: bytes, off: nat): Option<nat> {
    if off + 2 > |b| then None else Some(0x100 * (b[off] as int) + b[off + 1])
  }

  /** A pointer and a length into the buffer, read as octets; None when they leave it. */
  function FieldAt(b: bytes, off: nat): Option<(bytes, nat)> {
    match Rd16(b, off)
    case None => None
    case Some(n) => if off + 2 + n > |b| then None else Some((b[off + 2..off + 2 + n], off + 2 + n))
  }

  /** The walk of `main` over the m2 buffer, which ignores the length of the frame; None when it leaves the buffer. */
  function WalkM2(b: bytes): Option<M2> {
    match FieldAt(b, 0)
    case None => None
    case Some((pk, off)) =>
      match FieldAt(b, off)
      case None => None
      case Some((ct1, off)) =>
        match FieldAt(b, off)
        case None => None
        case Some((ct2, off)) =>
          match FieldAt(b, off)
          case None => None
          case Some((sig, _)) => Some(M2(pk, ct1, ct2, sig))
  }

  lemma Field16Value(b: bytes)
    requires Fits(b)
    ensures Field16(b).Ok? && |Field16(b).value| == 2 + |b| && Field16(b).value[2..] == b
    ensures 0x100 * (Field16(b).value[0] as int) + Field16(b).value[1] == |b|
  {
    assert BigEndian(|b|, 2) == BigEndian(|b| / 256, 1) + [LowByte(|b|)];
    assert BigEndian(|b| / 256, 1) == BigEndian(|b| / 256 / 256, 0) + [LowByte(|b| / 256)];
  }

  lemma FieldIsRead(pre: bytes, f: bytes, post: bytes)
    requires Fits(f)
    ensures Field16(f).Ok?
    ensures FieldAt(pre + Field16(f).value + post, |pre|) == Some((f, |pre| + |Field16(f).value|))
  {
    hide Field16;
    Field16Value(f);
    var b := pre + Field16(f).value + post;
    assert b[|pre|] == Field16(f).value[0] && b[|pre| + 1] == Field16(f).value[1];
    assert b[|pre| + 2..|pre| + 2 + |f|] == Field16(f).value[2..];
  }

  /** The walk finds the four fields of every m2 that `run_server` builds, whatever is behind them in the buffer. */
  lemma WalkFindsFields(m: M2, behind: bytes)
    requires Fits(m.pk) && Fits(m.ct1) && Fits(m.ct2) && Fits(m.sig)
    ensures BuildM2(m).Ok? && WalkM2(BuildM2(m).value + behind) == Some(m)
  {
    hide Field16, FieldAt;
    FieldsFit(m.pk, m.ct1, m.ct2, m.sig);
    var a, b, c, d := Field16(m.pk).value, Field16(m.ct1).value, Field16(m.ct2).value, Field16(m.sig).value;
    var all := a + b + c + d + behind;
    FieldIsRead([], m.pk, b + c + d + behind);
    assert all == [] + a + (b + c + d + behind);
    FieldIsRead(a, m.ct1, c + d + behind);
    assert all == a + b + (c + d + behind);
    FieldIsRead(a + b, m.ct2, d + behind);
    assert all == a + b + c + (d + behind);
    FieldIsRead(a + b + c, m.sig, behind);
  }

  /** What the firmware hashes before it checks the server's signature. */
  function FirmwareSigned(m: M2): bytes {
    SIGNATURE_PREFIX + SERVER_ID + LABEL + EPOCH_1 + TestNonce() + m.pk + m.ct1 + m.ct2
  }

  /** From `sha256_init` to `sig_tr`: eight updates. */
  method HashSigned(m: M2, sigTr: array<byte>)
    requires sigTr.Length == 32
    modifies sigTr
    ensures sigTr[..] == Fips180.Sha256(FirmwareSigned(m))
  {
    hide Fips180.Sha256, Fips180.Chain, TestNonce, Ascii;
    var hc := new Context();
    hc.Init();
    hc.Update(SIGNATURE_PREFIX);
    hc.Update(SERVER_ID);
    hc.Update(LABEL);
    hc.Update(EPOCH_1);
    hc.Update(TestNonce());
    hc.Update(m.pk);
    hc.Update(m.ct1);
    hc.Update(m.ct2);
    assert [] + SIGNATURE_PREFIX == SIGNATURE_PREFIX;
    hc.Final(sigTr);
  }

  // ---------- key schedule and m3 ----------

  /** What both sides hash and derive; k_fin by the firmware's single HKDF call. */
  function Tr(m1: bytes, m2: bytes, ct3: bytes): bytes {
    Fips180.Sha256(m1 + m2 + ct3)
  }

  function FirmwareKey(anchor: bytes, secrets: bytes, tr: bytes): bytes {
    Rfc5869.Expand(Hmac(anchor, secrets), FINISHED + tr, 32)
  }

  /** Three updates and a final over one context. */
  method HashThree(a: bytes, b: bytes, c: bytes, out: array<byte>)
    requires out.Length == 32
    modifies out
    ensures out[..] == Fips180.Sha256(a + b + c)
  {
    hide Fips180.Sha256, Fips180.Chain;
    var hc := new Context();
    hc.Init();
    hc.Update(a);
    hc.Update(b);
    hc.Update(c);
    assert [] + a + b + c == a + b + c;
    hc.Final(out);
  }

  /** From `tr` to the end of the CLIENT_FINISHED block of `main`. */
  method FillM3(m1: bytes, m2: bytes, ct3: bytes, ss1: bytes, ss2: bytes, ss3: bytes, anchor: bytes,
                m3: array<byte>, tr: array<byte>, kFin: array<byte>) returns (len: nat)
    requires |ct3| == 768 && |ss1| == |ss2| == |ss3| == 32 && |anchor| == 32
    requires m3.Length == 900 && tr.Length == 32 && kFin.Length == 32 && m3 != tr && m3 != kFin && tr != kFin
    modifies m3, tr, kFin
    ensures tr[..] == Tr(m1, m2, ct3) && kFin[..] == FirmwareKey(anchor, ss1 + ss2 + ss3, tr[..])
    ensures len <= 900 && Ok(m3[..len]) == BuildM3(M3(ct3, Hmac(kFin[..], tr[..] + CL_FIN)))
  {
    hide Hmac, Fips180.Sha256, Rfc5869.Expand, BigEndian, Field16;
    HashThree(m1, m2, ct3, tr);
    var info := FINISHED + tr[..];
    assert |FINISHED| == 8;
    FirmwareKdf.HkdfSha256(ss1 + ss2 + ss3, anchor, info, kFin);
    var tC := new byte[32];
    FirmwareKdf.HmacSha256(kFin[..], tr[..] + CL_FIN, tC);
    FieldLength(ct3);
    len := PutField(m3, 0, ct3);
    assert m3[..len] == Field16(ct3).value;
    len := PutBytes(m3, len, tC[..]);
  }

  /** The SERVER_FINISHED check of `main`: 32 octets compared until the first difference. */
  method CheckM4(kFin: bytes, tr: bytes, m3: bytes, m4: array<byte>) returns (accepted: bool)
    requires m4.Length >= 32
    ensures accepted <==> m4[..32] == Hmac(kFin, Fips180.Sha256(tr + m3) + SV_FIN)
  {
    hide Hmac, Fips180.Sha256;
    var tr2, wanted := new byte[32], new byte[32];
    HashThree(tr, m3, [], tr2);
    assert tr + m3 + [] == tr + m3;
    FirmwareKdf.HmacSha256(kFin, tr2[..] + SV_FIN, wanted);
    accepted := true;
    for i := 0 to 32
      invariant forall k :: 0 <= k < i ==> wanted[k] == m4[k]
    {
      if wanted[i] != m4[i] {
        assert m4[..32][i] != wanted[..][i];
        return false;
      }
    }
    assert m4[..32] == wanted[..];
  }

  /** The end of `main` on a received frame: 32 octets of a zeroed buffer of 64 are compared, whatever its length. */
  function AcceptsFrame(frame: bytes, tag: bytes): bool
    requires |frame| <= 64
  {
    (frame + Zeros(64 - |frame|))[..32] == tag
  }

  /** `recv_frame` into `m4` and the check; None where `main` halts. */
  method FinishM4(line: Usart, kFin: bytes, tr: bytes, m3: bytes) returns (accepted: Option<bool>)
    modifies line
    ensures
      var o := Receive(old(line.incoming), 64);
      match o
      case Received(n) =>
        accepted == Some(AcceptsFrame(old(line.incoming)[4..4 + n], Hmac(kFin, Fips180.Sha256(tr + m3) + SV_FIN)))
      case _ => accepted == None
  {
    hide Hmac, Fips180.Sha256, Ascii;
    var m4 := new byte[64](_ => 0);
    assert m4[..] == Zeros(64);
    var o := line.RecvFrame(m4);
    if !o.Received? {
      return None;
    }
    assert m4[..] == old(line.incoming)[4..4 + o.n] + Zeros(64 - o.n);
    var ok := CheckM4(kFin, tr, m3, m4);
    accepted := Some(ok);
  }

  /** The Python client accepts exactly the tag: `compare_digest` of the whole frame. */
  predicate PythonAccepts(frame: bytes, tag: bytes) {
    frame == tag
  }

  /**
    The firmware accepts whatever Python accepts. It accepts more exactly for frames that are not 32 octets long: one
    that is longer and starts with the tag, or one that is shorter when the octets it lacks are zeros in the tag.
   */
  lemma FrameLengthMatters(frame: bytes, tag: bytes)
    requires |tag| == 32 && |frame| <= 64
    ensures PythonAccepts(frame, tag) ==> AcceptsFrame(frame, tag)
    ensures AcceptsFrame(frame, tag) && !PythonAccepts(frame, tag) <==> AcceptsFrame(frame, tag) && |frame| != 32
    ensures AcceptsFrame(frame, tag) <==>
      if |frame| >= 32 then tag == frame[..32] else tag == frame + Zeros(32 - |frame|)
  {
    var b := frame + Zeros(64 - |frame|);
    if |frame| >= 32 {
      assert b[..32] == frame[..32];
    } else {
      assert b[..32] == frame + Zeros(32 - |frame|);
    }
  }

  /** The two checks agree on all tags and frames of a length exactly when the length is 32. */
  lemma ChecksAgreeIff(n: nat)
    requires n <= 64
    ensures (forall frame, tag :: |frame| == n && |tag| == 32 ==>
               (AcceptsFrame(frame, tag) <==> PythonAccepts(frame, tag))) <==> n == 32
  {
    forall frame, tag | |frame| == n && |tag| == 32
      ensures n == 32 ==> (AcceptsFrame(frame, tag) <==> PythonAccepts(frame, tag))
    {
      FrameLengthMatters(frame, tag);
    }
    FrameLengthMatters(Zeros(n), Zeros(32));
    assert n >= 32 ==> Zeros(n)[..32] == Zeros(32);
    assert n < 32 ==> Zeros(n) + Zeros(32 - n) == Zeros(32);
    assert AcceptsFrame(Zeros(n), Zeros(32));
  }
}
