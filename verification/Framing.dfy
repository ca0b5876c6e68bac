/** Length-prefixed frames over a byte stream: `send_msg` and `recv_msg` of `network/bench_network_1000.py`. */
module Framing {
  import opened Bytes

  const FRAME_LIMIT: nat := 0x1_0000_0000

  function Frame(m: bytes): (f: bytes)
    ensures |f| == 4 + |m|
  {
    BigEndian(|m|, 4) + m
  }

  function Frames(ms: seq<bytes>): bytes {
    if ms == [] then [] else Frame(ms[0]) + Frames(ms[1..])
  }

  /** The first complete frame of a stream, and the stream behind it. */
  function TakeFrame(s: bytes): Option<(bytes, bytes)> {
    if |s| < 4 then None
    else
      var n := BigEndianValue(s[..4]);
      if |s| < 4 + n then None else Some((s[4..4 + n], s[4 + n..]))
  }

  function TakeFrames(s: bytes, count: nat): Option<(seq<bytes>, bytes)> {
    if count == 0 then Some(([], s))
    else
      match TakeFrame(s)
      case None => None
      case Some((m, rest)) =>
        match TakeFrames(rest, count - 1)
        case None => None
        case Some((ms, rest')) => Some(([m] + ms, rest'))
  }

  /** A frame is taken off whole, and not an octet more. */
  lemma TakeWhole(m: bytes, rest: bytes)
    requires |m| < FRAME_LIMIT
    ensures TakeFrame(Frame(m) + rest) == Some((m, rest))
  {
    hide BigEndian, BigEndianValue;
    Pow256Values();
    BigEndianRoundTrip(|m|, 4);
    var s := Frame(m) + rest;
    assert s[..4] == BigEndian(|m|, 4);
    assert s[4..4 + |m|] == m && s[4 + |m|..] == rest;
  }

  /** Nothing else is ever taken for a frame. */
  lemma TakenWasFramed(s: bytes)
    requires TakeFrame(s).Some?
    ensures s == Frame(TakeFrame(s).value.0) + TakeFrame(s).value.1
    ensures |TakeFrame(s).value.0| < FRAME_LIMIT
  {
    hide BigEndian, BigEndianValue;
    Pow256Values();
    BigEndianValueRoundTrip(s[..4]);
    var n := BigEndianValue(s[..4]);
    assert s == s[..4] + s[4..4 + n] + s[4 + n..];
  }

  /** Whatever list was sent is the list received, and what follows it is untouched. */
  lemma {:induction false} FramesRoundTrip(ms: seq<bytes>, rest: bytes)
    requires forall m :: m in ms ==> |m| < FRAME_LIMIT
    ensures TakeFrames(Frames(ms) + rest, |ms|) == Some((ms, rest))
  {
    hide Frame, TakeFrame;
    if ms == [] {
      assert [] + rest == rest;
    } else {
      TakeWhole(ms[0], Frames(ms[1..]) + rest);
      assert Frames(ms) + rest == Frame(ms[0]) + (Frames(ms[1..]) + rest);
      FramesRoundTrip(ms[1..], rest);
      assert [ms[0]] + ms[1..] == ms;
    }
  }

  /** A stream cut short inside its last frame yields every frame before it and then nothing. */
  lemma CutShort(m: bytes, k: nat)
    requires |m| < FRAME_LIMIT && k < |Frame(m)|
    ensures TakeFrame(Frame(m)[..k]) == None
  {
    hide BigEndian, BigEndianValue;
    Pow256Values();
    BigEndianRoundTrip(|m|, 4);
    if k >= 4 {
      assert Frame(m)[..k][..4] == BigEndian(|m|, 4);
    }
  }

  /** A connected socket: what was handed to `sendall`, and what the peer's end will still deliver. */
  class Socket {
    var outgoing: bytes
    var incoming: bytes

    constructor (incoming: bytes)
      ensures this.incoming == incoming && outgoing == []
    {
      this.incoming := incoming;
      outgoing := [];
    }

    /** `recv(k)`: some non-empty prefix of at most k octets; empty once the peer has closed and all is read. */
    method Recv(k: nat) returns (chunk: bytes)
      modifies this`incoming
      ensures old(incoming) == chunk + incoming && |chunk| <= k
      ensures chunk == [] <==> k == 0 || old(incoming) == []
    {
      if k == 0 || incoming == [] {
        return [];
      }
      assert 1 <= 1 <= k && 1 <= |incoming|;
      var n: nat :| 1 <= n <= k && n <= |incoming|;
      chunk := incoming[..n];
      incoming := incoming[n..];
    }

    /** `send_msg`: `struct.pack(">I", ...)` refuses a length of 2^32 or more. */
    method SendMsg(data: bytes) returns (r: Result<()>)
      modifies this`outgoing
      ensures |data| < FRAME_LIMIT ==> r == Ok(()) && outgoing == old(outgoing) + Frame(data)
      ensures |data| >= FRAME_LIMIT ==> r == Err(StructError) && outgoing == old(outgoing)
    {
      if |data| >= FRAME_LIMIT {
        return Err(StructError);
      }
      outgoing := outgoing + (BigEndian(|data|, 4) + data);
      return Ok(());
    }

    /** The two loops of `recv_msg`: exactly `want` octets in whatever pieces they come, or a disconnect. */
    method RecvExactly(want: nat) returns (r: Result<bytes>)
      modifies this`incoming
      ensures |old(incoming)| >= want ==> r == Ok(old(incoming)[..want]) && incoming == old(incoming)[want..]
      ensures |old(incoming)| < want ==> r == Err(ConnectionError) && incoming == []
    {
      var data := [];
      while |data| < want
        invariant |data| <= want && old(incoming) == data + incoming
        decreases want - |data|
      {
        var chunk := Recv(want - |data|);
        if chunk == [] {
          return Err(ConnectionError);
        }
        data := data + chunk;
      }
      return Ok(data);
    }

    /** `recv_msg` */
    method RecvMsg() returns (r: Result<bytes>)
      modifies this`incoming
      ensures match TakeFrame(old(incoming))
              case Some((m, rest)) => r == Ok(m) && incoming == rest
              case None => r == Err(ConnectionError) && incoming == []
    {
      var raw := RecvExactly(4);
      if raw.Err? {
        return raw;
      }
      var n := BigEndianValue(raw.value);
      ghost var s := old(incoming);
      r := RecvExactly(n);
      if |s| >= 4 + n {
        assert s[4..][..n] == s[4..4 + n] && s[4..][n..] == s[4 + n..];
      }
    }
  }
}
