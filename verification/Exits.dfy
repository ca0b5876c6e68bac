/** Every way out of the five calls of `common/protocol.py`, and what a call leaves behind on each of them. */
module Exits {
  import opened Bytes
  import opened Message
  import opened Utf8
  import opened Handshake
  import opened Agreement
  import opened Spelled

  /** A message of this type with these names in its payload. */
  predicate Carries(msg: ProtocolMessage, msgType: bytes, keys: seq<bytes>) {
    msg.msgType == msgType && forall k :: k in keys ==> Get(msg.payload, k).Some?
  }

  /** A message without a byte form raises ValueError or OverflowError. */
  lemma {:induction false} FieldErrors(payload: seq<Field>)
    ensures EncodeFields(payload).Err? ==>
      EncodeFields(payload).error == ValueError || EncodeFields(payload).error == OverflowError
  {
    if payload != [] {
      FieldErrors(payload[..|payload| - 1]);
    }
  }

  lemma EncodeErrors(m: ProtocolMessage)
    ensures Encode(m).Err? ==> Encode(m).error == ValueError || Encode(m).error == OverflowError
  {
    hide EncodeFields;
    FieldErrors(m.payload);
  }

  /** The octets of the message a call returns, if it returns one. */
  function Emitted(r: Result<ProtocolMessage>): seq<bytes> {
    if r.Ok? && Encode(r.value).Ok? then [Encode(r.value).value] else []
  }

  lemma StartExits(s: Suite, c: ClientState, seed: bytes, nonce: bytes)
    ensures
      var Step(r, c') := StartHandshake(s, c, seed, nonce);
      && c'.transcript == c.transcript + Emitted(r)
      && (r.Ok? <==> Encode(ClientHello(c.clientId, c.epoch, nonce, s.kemKeygen(seed).pk)).Ok?)
      && (r.Err? ==> r.error == ValueError || r.error == OverflowError)
      && c'.accepted == c.accepted && c'.finishedKey == c.finishedKey && c'.sessionKey == c.sessionKey
  {
    hide Encode;
    EncodeErrors(ClientHello(c.clientId, c.epoch, nonce, s.kemKeygen(seed).pk));
  }

  const HELLO_FIELDS := [Ascii("pk_server_eph"), Ascii("ct_static"), Ascii("ct_ephemeral"), Ascii("signature")]

  lemma ServerHelloExits(s: Suite, c: ClientState, msg: ProtocolMessage, serverPk: bytes, coins: bytes)
    ensures
      var Step(r, c') := ProcessServerHello(s, c, msg, serverPk, coins);
      var carried := Carries(msg, Ascii("SERVER_HELLO"), HELLO_FIELDS);
      var counted := carried && Encode(msg).Ok?;
      && (r == Err(AssertionError) <==> msg.msgType != Ascii("SERVER_HELLO"))
      && (r == Err(KeyError) <==> msg.msgType == Ascii("SERVER_HELLO") && !carried)
      && (r == Err(IndexError) <==> counted && c.transcript == [])
      && (counted && c.transcript != [] ==>
            var good := s.verify(serverPk, s.hash(TextOf(c.expectedServerId, c.clientId, c.transcript[0], msg)),
                                 Got(msg.payload, Ascii("signature")));
            && (!good ==> r == Err(ValueError))
            && (r == Err(TypeError) <==> good && c.ephemeral.None?))
      && (r.Ok? || r == Err(TypeError) ==> counted && c.transcript != [])
      && (r.Err? ==> r.error in {AssertionError, KeyError, IndexError, TypeError, ValueError, OverflowError})
      && (!counted ==> c' == c)
      && c'.transcript
         == c.transcript + (if counted && c.transcript != [] then [Encode(msg).value] else []) + Emitted(r)
  {
    hide Encode, Ascii;
    FourKeys();
    EncodeErrors(msg);
    forall i: Inputs
      ensures Encode(ClientFinished(i.ct, i.ClientTag(s))).Err? ==>
        Encode(ClientFinished(i.ct, i.ClientTag(s))).error == ValueError
        || Encode(ClientFinished(i.ct, i.ClientTag(s))).error == OverflowError
    {
      EncodeErrors(ClientFinished(i.ct, i.ClientTag(s)));
    }
  }

  lemma FourKeys()
    ensures forall msg: ProtocolMessage ::
      Carries(msg, SERVER_HELLO, HELLO_FIELDS) <==>
      && msg.msgType == SERVER_HELLO && Get(msg.payload, PK_SERVER_EPH).Some? && Get(msg.payload, CT_STATIC).Some?
      && Get(msg.payload, CT_EPHEMERAL).Some? && Get(msg.payload, SIGNATURE).Some?
  {
    hide Ascii, Get;
    assert HELLO_FIELDS[0] in HELLO_FIELDS && HELLO_FIELDS[1] in HELLO_FIELDS;
    assert HELLO_FIELDS[2] in HELLO_FIELDS && HELLO_FIELDS[3] in HELLO_FIELDS;
  }

  lemma ServerFinishedExits(s: Suite, c: ClientState, msg: ProtocolMessage)
    ensures
      var Step(r, c') := ProcessServerFinished(s, c, msg);
      var counted := msg.msgType == Ascii("SERVER_FINISHED") && Encode(msg).Ok?;
      var keyed := counted && c.finishedKey.Some?;
      && (r == Err(AssertionError) <==> msg.msgType != Ascii("SERVER_FINISHED"))
      && (counted ==> (r == Err(ValueError) <==> c.finishedKey.None?))
      && (r == Err(IndexError) <==> keyed && |c.transcript| < 2)
      && (r == Err(TypeError) <==> keyed && |c.transcript| >= 2 && c.transcriptHash.None?)
      && (r == Err(KeyError) <==>
            keyed && |c.transcript| >= 2 && c.transcriptHash.Some? && Get(msg.payload, Ascii("mac")).None?)
      && (r.Ok? <==> keyed && |c.transcript| >= 2 && c.transcriptHash.Some? && Get(msg.payload, Ascii("mac")).Some?)
      && (r.Err? ==> c'.accepted == c.accepted)
      && (!counted ==> c' == c)
      && c'.transcript == c.transcript + (if counted then [Encode(msg).value] else [])
  {
    hide Encode, Ascii;
    EncodeErrors(msg);
  }

  lemma ClientHelloExits(s: Suite, v: ServerState, msg: ProtocolMessage, r: HelloCoins)
    ensures
      var Step(reply, v') := ProcessClientHello(s, v, msg, r);
      var p := msg.payload;
      var id, nonce, pk := Get(p, Ascii("client_id")), Get(p, Ascii("nonce")), Get(p, Ascii("pk_ephemeral"));
      var named := msg.msgType == Ascii("CLIENT_HELLO") && id.Some? && IsUtf8(id.value);
      var known := named && nonce.Some? && pk.Some? && id.value in v.enrolled;
      && (reply == Err(AssertionError) <==> msg.msgType != Ascii("CLIENT_HELLO"))
      && (reply == Err(KeyError) <==>
            msg.msgType == Ascii("CLIENT_HELLO") && (id.None? || (IsUtf8(id.value) && (nonce.None? || pk.None?))))
      && (msg.msgType == Ascii("CLIENT_HELLO") && id.Some? && !IsUtf8(id.value) ==> reply == Err(ValueError))
      && (named && nonce.Some? && pk.Some? && id.value !in v.enrolled ==> reply == Err(ValueError))
      && (reply.Ok? ==> known && Encode(msg).Ok?)
      && (reply.Err? ==> reply.error in {AssertionError, KeyError, ValueError, OverflowError})
      && (!(known && Encode(msg).Ok?) ==> v' == v)
      && v'.accepted == v.accepted && v'.finishedKey == v.finishedKey && v'.sessionKey == v.sessionKey
      && v'.transcript
         == v.transcript + (if known && Encode(msg).Ok? then [Encode(msg).value] else []) + Emitted(reply)
  {
    hide Encode, Ascii, SignedHash, IsUtf8, ServerApplicationKey;
    EncodeErrors(msg);
    forall pk, ct1, ct2, signature
      ensures Encode(ServerHello(pk, ct1, ct2, signature)).Err? ==>
        Encode(ServerHello(pk, ct1, ct2, signature)).error == ValueError
        || Encode(ServerHello(pk, ct1, ct2, signature)).error == OverflowError
    {
      EncodeErrors(ServerHello(pk, ct1, ct2, signature));
    }
  }

  lemma ClientFinishedExits(s: Suite, v: ServerState, msg: ProtocolMessage)
    ensures
      var Step(r, v') := ProcessClientFinished(s, v, msg);
      var typed := msg.msgType == Ascii("CLIENT_FINISHED");
      var carried := typed && Get(msg.payload, Ascii("ct_client")).Some? && Get(msg.payload, Ascii("mac")).Some?;
      var counted := carried && Encode(msg).Ok?;
      && (r == Err(AssertionError) <==> !typed)
      && (r == Err(KeyError) <==> typed && !carried)
      && (r == Err(TypeError) <==> counted && v.pending.None?)
      && (r == Err(IndexError) <==> counted && v.pending.Some? && v.transcript == [])
      && (r.Ok? ==> counted && v.pending.Some? && v.transcript != [])
      && (counted && v.pending.Some? && v.transcript != [] && s.DigestSized() ==> r.Ok?)
      && (!counted ==> v' == v)
      && v'.transcript == v.transcript + (if counted then [Encode(msg).value] else [])
      && (!(counted && v.pending.Some? && v.transcript != []) ==> v'.accepted == v.accepted)
      && (counted && v.pending.Some? && v.transcript != [] ==>
            && v'.finishedKey.Some? && v'.transcriptHash.Some?
            && var good := Got(msg.payload, Ascii("mac"))
                           == s.hmac(v'.finishedKey.value, v'.transcriptHash.value + Ascii("CL_FIN"));
            (v'.accepted <==> good || v.accepted) && (r == Ok(None) <==> !good))
  {
    hide Encode, Ascii;
    EncodeErrors(msg);
    forall i: Inputs, b: bytes
      ensures var e := Encode(ServerFinished(i.ServerTag(s, b)));
        && (e.Err? ==> e.error == ValueError || e.error == OverflowError)
        && (s.DigestSized() ==> e.Ok?)
    {
      var m := ServerFinished(i.ServerTag(s, b));
      EncodeErrors(m);
      EncodesIff(m);
    }
  }

  /**
    A new client accepts nothing before its third call, and in it exactly when that call returns true; the same
    for a new server and its second call. The messages are arbitrary.
   */
  lemma AcceptsInTheEnd(s: Suite, id: bytes, keys: KeyPair, key: bytes, serverId: bytes, epoch: bytes, seed: bytes,
                        nonce: bytes, hello: ProtocolMessage, serverPk: bytes, coins: bytes, finished: ProtocolMessage)
    ensures
      var c0 := NewClient(s, id, keys, key, serverId, epoch);
      var c1 := StartHandshake(s, c0, seed, nonce).state;
      var c2 := ProcessServerHello(s, c1, hello, serverPk, coins).state;
      var Step(r, c3) := ProcessServerFinished(s, c2, finished);
      && !c0.accepted && !c1.accepted && !c2.accepted && (c3.accepted <==> r == Ok(true))
      && (c2.finishedKey.Some? <==> c2.sessionKey.Some?) && c1.finishedKey.None? && c1.sessionKey.None?
  {
    hide Encode, Ascii;
  }

  lemma ServerAcceptsInTheEnd(s: Suite, mk: Option<bytes>, keys: KeyPair, enrolled: map<bytes, bytes>, serverId: bytes,
                              hello: ProtocolMessage, r: HelloCoins, finished: ProtocolMessage)
    requires s.DigestSized()
    ensures
      var v0 := NewServer(mk, keys, enrolled, serverId);
      var v1 := ProcessClientHello(s, v0, hello, r).state;
      var Step(answer, v2) := ProcessClientFinished(s, v1, finished);
      && !v0.accepted && !v1.accepted && (v2.accepted <==> answer.Ok? && answer.value.Some?)
      && v1.finishedKey.None? && v1.sessionKey.None?
  {
    hide Encode, Ascii, ProcessClientHello;
    ClientHelloExits(s, NewServer(mk, keys, enrolled, serverId), hello, r);
    ClientFinishedExits(s, ProcessClientHello(s, NewServer(mk, keys, enrolled, serverId), hello, r).state, finished);
  }
}
