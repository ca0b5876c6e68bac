/**
  What the calls of `common/protocol.py` compute, spelled out from the primitives, the received fields and the literals
  of the source; and what the byte form of the four messages is.
 */
module Spelled {
  import opened Bytes
  import opened Message
  import opened Utf8
  import opened Handshake
  import opened Agreement

  // ---------- keys and tags ----------

  /** A party that derived its keys from this transcript, application key and secrets. */
  ghost predicate KeysFrom(s: Suite, tr: bytes, applicationKey: bytes, k1: bytes, k2: bytes, k3: bytes,
                           finishedKey: Option<bytes>, sessionKey: Option<bytes>)
  {
    var prk := s.hmac(if applicationKey == [] then Zeros(32) else applicationKey, k1 + k2 + k3);
    && finishedKey == Some(s.hmac(prk, Ascii("finished") + tr + [0x01]))
    && sessionKey == Some(s.hmac(prk, Ascii("session") + tr + [0x01]))
  }

  /** The client's transcript hash, keys, ciphertext and tag after a SERVER_HELLO it accepts. */
  lemma ClientKeys(s: Suite, c: ClientState, msg: ProtocolMessage, serverPk: bytes, coins: bytes)
    requires c.ephemeral.Some? && |c.transcript| == 1 && ProcessServerHello(s, c, msg, serverPk, coins).result.Ok?
    ensures
      var Step(r, c') := ProcessServerHello(s, c, msg, serverPk, coins);
      var p := msg.payload;
      var k1 := s.decapsulate(c.staticKeys.sk, Got(p, Ascii("ct_static")));
      var k2 := s.decapsulate(c.ephemeral.value.sk, Got(p, Ascii("ct_ephemeral")));
      var e := s.encapsulate(Got(p, Ascii("pk_server_eph")), coins);
      && Encode(msg).Ok?
      && var tr := s.hash(c.transcript[0] + Encode(msg).value + e.ct);
      && c'.transcriptHash == Some(tr)
      && KeysFrom(s, tr, c.applicationKey, k1, k2, e.secret, c'.finishedKey, c'.sessionKey)
      && Got(r.value.payload, Ascii("ct_client")) == e.ct
      && Got(r.value.payload, Ascii("mac")) == s.hmac(c'.finishedKey.value, tr + Ascii("CL_FIN"))
  {
    hide Encode, Ascii, SignedHash;
    var p := msg.payload;
    var b := Encode(msg).value;
    var i := ClientInputs(s, c, b, Got(p, PK_SERVER_EPH), Got(p, CT_STATIC), Got(p, CT_EPHEMERAL), coins);
    ClientMessage(s, i);
  }

  lemma ClientMessage(s: Suite, i: Inputs)
    ensures Got(ClientFinished(i.ct, i.ClientTag(s)).payload, CT_CLIENT) == i.ct
    ensures Got(ClientFinished(i.ct, i.ClientTag(s)).payload, MAC) == i.ClientTag(s)
  {
    hide Ascii, Inputs.ClientTag;
    MessagesAreGenuine(i.ct, i.ClientTag(s), [], []);
    GetAt(ClientFinished(i.ct, i.ClientTag(s)).payload, 0);
    GetAt(ClientFinished(i.ct, i.ClientTag(s)).payload, 1);
  }

  /** The server's keys after a CLIENT_FINISHED, the tag it accepts, and the tag it answers with. */
  lemma ServerKeys(s: Suite, v: ServerState, msg: ProtocolMessage)
    requires v.pending.Some? && |v.transcript| == 2 && ProcessClientFinished(s, v, msg).result.Ok?
    ensures
      var Step(r, v') := ProcessClientFinished(s, v, msg);
      var p, ct := v.pending.value, Got(msg.payload, Ascii("ct_client"));
      var tr := s.hash(v.transcript[0] + v.transcript[1] + ct);
      && Encode(msg).Ok?
      && v'.transcriptHash == Some(tr)
      && KeysFrom(s, tr, p.applicationKey, p.k1, p.k2, s.decapsulate(p.ephemeral.sk, ct), v'.finishedKey, v'.sessionKey)
      && (r.value.Some? <==> Got(msg.payload, Ascii("mac")) == s.hmac(v'.finishedKey.value, tr + Ascii("CL_FIN")))
      && v'.accepted == (r.value.Some? || v.accepted)
      && (r.value.Some? ==>
            Got(r.value.value.payload, Ascii("mac"))
            == s.hmac(v'.finishedKey.value, s.hash(tr + Encode(msg).value) + Ascii("SV_FIN")))
  {
    hide Encode, Ascii;
    var i := ServerInputs(s, v, Got(msg.payload, CT_CLIENT));
    ServerMessage(s, i, Encode(msg).value);
  }

  lemma ServerMessage(s: Suite, i: Inputs, finished: bytes)
    ensures Got(ServerFinished(i.ServerTag(s, finished)).payload, MAC) == i.ServerTag(s, finished)
  {
    hide Ascii, Inputs.ServerTag;
    MessagesAreGenuine(i.ServerTag(s, finished), [], [], []);
    GetAt(ServerFinished(i.ServerTag(s, finished)).payload, 0);
  }

  /** `process_server_finished` accepts exactly the tag over its own CLIENT_FINISHED, and says so in its state. */
  lemma ClientAccepts(s: Suite, c: ClientState, msg: ProtocolMessage)
    requires ProcessServerFinished(s, c, msg).result.Ok?
    ensures c.finishedKey.Some? && c.transcriptHash.Some? && |c.transcript| >= 2
    ensures
      var Step(r, c') := ProcessServerFinished(s, c, msg);
      var t2 := (c.transcript + [Encode(msg).value])[2];
      && c'.accepted == r.value
      && (r.value <==> Got(msg.payload, Ascii("mac"))
                       == s.hmac(c.finishedKey.value, s.hash(c.transcriptHash.value + t2) + Ascii("SV_FIN")))
      && c'.finishedKey == c.finishedKey && c'.sessionKey == c.sessionKey
  {
    hide Encode, Ascii;
  }

  // ---------- what the keys bind ----------

  /** Layer by layer below an expanded key: its info, the transcript hash in it, and the extraction. */
  ghost predicate KeyBinds(s: Suite, name: bytes, a: Inputs, b: Inputs) {
    var expand := CompareMac(a.Prk(s), name + a.Tr(s) + [0x01], b.Prk(s), name + b.Tr(s) + [0x01]);
    && expand.Holds(s)
    && (expand.NoCollision? ==>
          && a.Prk(s) == b.Prk(s) && a.Tr(s) == b.Tr(s) && SecretsBound(s, a, b)
          && var transcript := CompareHash(a.hello + a.serverHello + a.ct, b.hello + b.serverHello + b.ct);
          && transcript.Holds(s)
          && (transcript.NoCollision? && WellFormed(a) && WellFormed(b) ==>
                a.hello == b.hello && a.serverHello == b.serverHello && a.ct == b.ct))
  }

  /** Equal finished keys come from one transcript, application key and secrets, or a named pair collides. */
  lemma FinishedKeyBinds(s: Suite, a: Inputs, b: Inputs)
    requires a.FinishedKey(s) == b.FinishedKey(s)
    ensures KeyBinds(s, Ascii("finished"), a, b)
  {
    hide Ascii;
    LayersBind(s, Ascii("finished"), a, b);
  }

  /** The same for session keys. */
  lemma SessionKeyBinds(s: Suite, a: Inputs, b: Inputs)
    requires a.SessionKey(s) == b.SessionKey(s)
    ensures KeyBinds(s, Ascii("session"), a, b)
  {
    hide Ascii;
    LayersBind(s, Ascii("session"), a, b);
  }

  lemma LayersBind(s: Suite, name: bytes, a: Inputs, b: Inputs)
    requires s.hmac(a.Prk(s), name + a.Tr(s) + [0x01]) == s.hmac(b.Prk(s), name + b.Tr(s) + [0x01])
    ensures KeyBinds(s, name, a, b)
  {
    if name + a.Tr(s) + [0x01] == name + b.Tr(s) + [0x01] {
      SuffixCancels(name + a.Tr(s), name + b.Tr(s), [0x01]);
      assert (name + a.Tr(s))[|name|..] == a.Tr(s) && (name + b.Tr(s))[|name|..] == b.Tr(s);
    }
    if a.Transcript() == b.Transcript() && WellFormed(a) && WellFormed(b) {
      SameTranscript(a, b);
    }
  }

  /** The demo application key binds the identity. */
  lemma DemoKeyBinds(s: Suite, id: bytes, id': bytes)
    requires DemoApplicationKey(s, id) == DemoApplicationKey(s, id')
    ensures
      var e := CompareHash(Ascii("RIA-QKD-demo-ak") + id, Ascii("RIA-QKD-demo-ak") + id');
      e.Holds(s) && (e.NoCollision? ==> id == id')
  {
    var pre := Ascii("RIA-QKD-demo-ak");
    assert (pre + id)[|pre|..] == id && (pre + id')[|pre|..] == id';
  }

  /**
    The derived application key binds the identity and the epoch in a row, each of them exactly when the lengths
    agree, and the master key; or a named pair collides.
   */
  lemma ApplicationKeyBinds(s: Suite, mk: bytes, id: bytes, epoch: bytes, mk': bytes, id': bytes, epoch': bytes)
    requires ApplicationKey(s, mk, id, epoch) == ApplicationKey(s, mk', id', epoch')
    ensures
      var prk, prk' := s.hmac(Zeros(32), mk), s.hmac(Zeros(32), mk');
      var e := CompareMac(prk, Ascii("APP_KEY_") + id + epoch + [0x01],
                          prk', Ascii("APP_KEY_") + id' + epoch' + [0x01]);
      var e' := CompareMac(Zeros(32), mk, Zeros(32), mk');
      && e.Holds(s)
      && (e.NoCollision? ==>
            && id + epoch == id' + epoch' && (id == id' && epoch == epoch' <==> |id| == |id'|)
            && e'.Holds(s) && (e'.NoCollision? ==> mk == mk'))
  {
    var pre := Ascii("APP_KEY_");
    if pre + id + epoch + [0x01] == pre + id' + epoch' + [0x01] {
      SuffixCancels(pre + id + epoch, pre + id' + epoch', [0x01]);
      assert (pre + id + epoch)[|pre|..] == id + epoch && (pre + id' + epoch')[|pre|..] == id' + epoch';
      assert (id + epoch)[..|id|] == id && (id' + epoch')[..|id'|] == id';
      assert (id + epoch)[|id|..] == epoch && (id' + epoch')[|id'|..] == epoch';
    }
  }

  /** An octet moved from the identity to the epoch leaves the derived key as it is. */
  lemma EpochShift(s: Suite, mk: bytes, id: bytes, x: byte, epoch: bytes)
    ensures ApplicationKey(s, mk, id + [x], epoch) == ApplicationKey(s, mk, id, [x] + epoch)
    ensures id + [x] != id
  {
    var pre := Ascii("APP_KEY_");
    assert pre + (id + [x]) + epoch == pre + id + ([x] + epoch);
  }

  // ---------- the byte form of the four messages ----------

  /** A length in two octets, and what it announces. */
  function Long(b: bytes): bytes {
    [LowByte(|b| / 0x100), LowByte(|b|)] + b
  }

  lemma EncodedField(key: bytes, v: Value)
    requires !v.Unsupported? && |key| <= 0xff && Fits(v.Octets())
    ensures EncodeField(Field(key, v)) == Ok([|key|] + key + Long(v.Octets()))
  {
    var n := |v.Octets()|;
    assert BigEndian(n, 2) == BigEndian(n / 0x100, 1) + [LowByte(n)];
    assert BigEndian(n / 0x100, 1) == BigEndian(n / 0x100 / 0x100, 0) + [LowByte(n / 0x100)];
    assert [|key|] + key + BigEndian(n, 2) + v.Octets() == [|key|] + key + Long(v.Octets());
  }

  lemma FourEncoded(t: bytes, a: Field, b: Field, c: Field, d: Field, ea: bytes, eb: bytes, ec: bytes, ed: bytes)
    requires |t| <= 0xff && EncodeField(a) == Ok(ea) && EncodeField(b) == Ok(eb)
    requires EncodeField(c) == Ok(ec) && EncodeField(d) == Ok(ed)
    ensures Encode(ProtocolMessage(t, [a, b, c, d])) == Ok([|t|] + t + [4] + ea + eb + ec + ed)
    ensures Encode(ProtocolMessage(t, [a, b])) == Ok([|t|] + t + [2] + ea + eb)
    ensures Encode(ProtocolMessage(t, [a])) == Ok([|t|] + t + [1] + ea)
  {
    hide EncodeField;
    assert [a, b, c, d][..3] == [a, b, c] && [a, b, c][..2] == [a, b] && [a, b][..1] == [a] && [a][..0] == [];
    assert EncodeFields([a]) == Ok([] + ea);
    assert EncodeFields([a, b]) == Ok([] + ea + eb);
    assert EncodeFields([a, b, c]) == Ok([] + ea + eb + ec);
    assert EncodeFields([a, b, c, d]) == Ok([] + ea + eb + ec + ed);
    var head := [|t|] + t;
    assert head + [4] + ([] + ea + eb + ec + ed) == head + [4] + ea + eb + ec + ed;
    assert head + [2] + ([] + ea + eb) == head + [2] + ea + eb;
    assert head + [1] + ([] + ea) == head + [1] + ea;
  }

  lemma HelloBytes(id: bytes, epoch: bytes, nonce: bytes, pk: bytes)
    requires Fits(id) && Fits(epoch) && Fits(nonce) && Fits(pk)
    ensures Encode(ClientHello(id, epoch, nonce, pk)) == Ok(
      [12] + Ascii("CLIENT_HELLO") + [4] + ([9] + Ascii("client_id") + Long(id)) + ([5] + Ascii("epoch") + Long(epoch))
      + ([5] + Ascii("nonce") + Long(nonce)) + ([12] + Ascii("pk_ephemeral") + Long(pk)))
  {
    hide EncodeField, Ascii, Long, Encode;
    EncodedField(CLIENT_ID, Text(id));
    EncodedField(EPOCH, Raw(epoch));
    EncodedField(NONCE, Raw(nonce));
    EncodedField(PK_EPHEMERAL, Raw(pk));
    FourEncoded(CLIENT_HELLO, Field(CLIENT_ID, Text(id)), Field(EPOCH, Raw(epoch)), Field(NONCE, Raw(nonce)),
                Field(PK_EPHEMERAL, Raw(pk)), [9] + CLIENT_ID + Long(id), [5] + EPOCH + Long(epoch),
                [5] + NONCE + Long(nonce), [12] + PK_EPHEMERAL + Long(pk));
  }

  lemma ServerHelloBytes(pk: bytes, ct1: bytes, ct2: bytes, signature: bytes)
    requires Fits(pk) && Fits(ct1) && Fits(ct2) && Fits(signature)
    ensures Encode(ServerHello(pk, ct1, ct2, signature)) == Ok(
      [12] + Ascii("SERVER_HELLO") + [4] + ([13] + Ascii("pk_server_eph") + Long(pk))
      + ([9] + Ascii("ct_static") + Long(ct1)) + ([12] + Ascii("ct_ephemeral") + Long(ct2))
      + ([9] + Ascii("signature") + Long(signature)))
  {
    hide EncodeField, Ascii, Long, Encode;
    EncodedField(PK_SERVER_EPH, Raw(pk));
    EncodedField(CT_STATIC, Raw(ct1));
    EncodedField(CT_EPHEMERAL, Raw(ct2));
    EncodedField(SIGNATURE, Raw(signature));
    FourEncoded(SERVER_HELLO, Field(PK_SERVER_EPH, Raw(pk)), Field(CT_STATIC, Raw(ct1)), Field(CT_EPHEMERAL, Raw(ct2)),
                Field(SIGNATURE, Raw(signature)), [13] + PK_SERVER_EPH + Long(pk), [9] + CT_STATIC + Long(ct1),
                [12] + CT_EPHEMERAL + Long(ct2), [9] + SIGNATURE + Long(signature));
  }

  lemma FinishedBytes(ct: bytes, mac: bytes)
    requires Fits(ct) && Fits(mac)
    ensures Encode(ClientFinished(ct, mac)) == Ok(
      [15] + Ascii("CLIENT_FINISHED") + [2] + ([9] + Ascii("ct_client") + Long(ct)) + ([3] + Ascii("mac") + Long(mac)))
    ensures Encode(ServerFinished(mac)) == Ok([15] + Ascii("SERVER_FINISHED") + [1] + ([3] + Ascii("mac") + Long(mac)))
  {
    hide EncodeField, Ascii, Long, Encode;
    EncodedField(CT_CLIENT, Raw(ct));
    EncodedField(MAC, Raw(mac));
    var a, b := Field(CT_CLIENT, Raw(ct)), Field(MAC, Raw(mac));
    var ea, eb := [9] + CT_CLIENT + Long(ct), [3] + MAC + Long(mac);
    FourEncoded(CLIENT_FINISHED, a, b, a, a, ea, eb, ea, ea);
    FourEncoded(SERVER_FINISHED, b, b, b, b, eb, eb, eb, eb);
  }

  // ---------- the server's signature ----------

  /** The text whose hash the server signs and the client checks. */
  function SignedText(serverId: bytes, clientId: bytes, hello: bytes, pk: bytes, ct1: bytes, ct2: bytes): bytes {
    Ascii("RIA-QKD-V1-Server") + serverId + clientId + hello + pk + ct1 + ct2
  }

  /** The same for the fields of a SERVER_HELLO. */
  function TextOf(serverId: bytes, clientId: bytes, hello: bytes, sh: ProtocolMessage): bytes {
    SignedText(serverId, clientId, hello, Got(sh.payload, Ascii("pk_server_eph")), Got(sh.payload, Ascii("ct_static")),
               Got(sh.payload, Ascii("ct_ephemeral")))
  }

  /** A SERVER_HELLO that is read, has a byte form, and reaches a client that has sent its hello. */
  ghost predicate Readable(c: ClientState, msg: ProtocolMessage) {
    && msg.msgType == Ascii("SERVER_HELLO") && Encode(msg).Ok? && c.transcript != [] && c.ephemeral.Some?
    && Get(msg.payload, Ascii("pk_server_eph")).Some? && Get(msg.payload, Ascii("ct_static")).Some?
    && Get(msg.payload, Ascii("ct_ephemeral")).Some? && Get(msg.payload, Ascii("signature")).Some?
  }

  /**
    The client goes on exactly when the signature verifies under the key its caller gave (and its answer has a byte
    form). When it does not verify the call raises ValueError, no key is set and nothing is accepted or sent.
   */
  lemma SignatureDecides(s: Suite, c: ClientState, msg: ProtocolMessage, serverPk: bytes, coins: bytes)
    ensures
      var Step(r, c') := ProcessServerHello(s, c, msg, serverPk, coins);
      var good := c.transcript != [] &&
                  s.verify(serverPk, s.hash(TextOf(c.expectedServerId, c.clientId, c.transcript[0], msg)),
                           Got(msg.payload, Ascii("signature")));
      && (r.Ok? ==> Readable(c, msg) && good)
      && (!good ==>
            && r.Err?
            && c'.transcriptHash == c.transcriptHash && c'.finishedKey == c.finishedKey
            && c'.sessionKey == c.sessionKey && c'.accepted == c.accepted && c'.sent == c.sent)
      && (Readable(c, msg) && !good ==> r == Err(ValueError))
      && (Readable(c, msg) && good && s.DigestSized() ==>
            (r.Ok? <==> Fits(s.encapsulate(Got(msg.payload, Ascii("pk_server_eph")), coins).ct)))
  {
    hide Encode, Ascii;
    FinishedEncodes(s);
  }

  /** CLIENT_FINISHED has a byte form exactly when the ciphertext fits its length field. */
  lemma FinishedEncodes(s: Suite)
    ensures forall i: Inputs :: s.DigestSized() ==> (Encode(ClientFinished(i.ct, i.ClientTag(s))).Ok? <==> Fits(i.ct))
  {
    forall i: Inputs | s.DigestSized()
      ensures Encode(ClientFinished(i.ct, i.ClientTag(s))).Ok? <==> Fits(i.ct)
    {
      var m := ClientFinished(i.ct, i.ClientTag(s));
      EncodesIff(m);
      assert m.payload[0] in m.payload;
    }
  }

  /** The SERVER_HELLO a server step returns: its fields, and the signature over them. */
  lemma ReplySigned(s: Suite, v: ServerState, hello: ProtocolMessage, r: HelloCoins)
    requires v.transcript == [] && Genuine(hello) && ProcessClientHello(s, v, hello, r).result.Ok?
    ensures
      var Step(reply, v') := ProcessClientHello(s, v, hello, r);
      && Encode(hello).Ok? && v'.transcript == [Encode(hello).value, Encode(reply.value).value]
      && Got(reply.value.payload, Ascii("signature"))
         == s.sign(v.sigKeys.sk, s.hash(TextOf(v.serverId, Got(hello.payload, Ascii("client_id")), Encode(hello).value,
                                               reply.value)), r.signing)
  {
    hide Encode, Genuine, Ascii, Get, ProcessClientHello, IsUtf8;
    ServerHelloGives(s, v, hello, r);
    var Step(reply, v') := ProcessClientHello(s, v, hello, r);
    var p := v'.pending.value;
    var ct1, ct2, signature :|
      && reply.value == ServerHello(p.ephemeral.pk, ct1, ct2, signature)
      && s.encapsulate(v.enrolled[p.clientId], r.forStatic) == Encapsulated(p.k1, ct1)
      && s.encapsulate(Got(hello.payload, PK_EPHEMERAL), r.forEphemeral) == Encapsulated(p.k2, ct2)
      && signature == s.sign(v.sigKeys.sk, SignedHash(s, v.serverId, p.clientId, Encode(hello).value,
                                                      p.ephemeral.pk, ct1, ct2), r.signing);
    HelloFields(p.ephemeral.pk, ct1, ct2, signature);
  }

  lemma HelloFields(pk: bytes, ct1: bytes, ct2: bytes, signature: bytes)
    ensures
      var p := ServerHello(pk, ct1, ct2, signature).payload;
      && Got(p, PK_SERVER_EPH) == pk && Got(p, CT_STATIC) == ct1
      && Got(p, CT_EPHEMERAL) == ct2 && Got(p, SIGNATURE) == signature
  {
    hide Ascii, Get;
    var p := ServerHello(pk, ct1, ct2, signature).payload;
    MessagesAreGenuine(pk, ct1, ct2, signature);
    GetAt(p, 0);
    GetAt(p, 1);
    GetAt(p, 2);
    GetAt(p, 3);
  }

  /** Two signed texts with one hash, the first over a hello that names its client. */
  lemma TextsBind(s: Suite, serverId: bytes, clientId: bytes, epoch: bytes, nonce: bytes, pk: bytes,
                  sh: ProtocolMessage, serverId': bytes, hello: ProtocolMessage, reply: ProtocolMessage)
    requires Encode(ClientHello(clientId, epoch, nonce, pk)).Ok? && Encode(hello).Ok? && Genuine(hello)
    requires |serverId'| + |Got(hello.payload, CLIENT_ID)| == |serverId| + |clientId|
    requires s.hash(TextOf(serverId, clientId, Encode(ClientHello(clientId, epoch, nonce, pk)).value, sh))
             == s.hash(TextOf(serverId', Got(hello.payload, CLIENT_ID), Encode(hello).value, reply))
    ensures
      var b := Encode(ClientHello(clientId, epoch, nonce, pk)).value;
      var e := CompareHash(TextOf(serverId, clientId, b, sh),
                           TextOf(serverId', Got(hello.payload, CLIENT_ID), Encode(hello).value, reply));
      && e.Holds(s)
      && (e.NoCollision? ==>
            && serverId == serverId' && clientId == Got(hello.payload, CLIENT_ID)
            && b == Encode(hello).value && SameFields(sh, reply))
  {
    hide Encode, Genuine, Ascii, Get;
    var m, id := ClientHello(clientId, epoch, nonce, pk), Got(hello.payload, CLIENT_ID);
    MessagesAreGenuine(clientId, epoch, nonce, pk);
    SignatureBinds(s, serverId, clientId, m, Got(sh.payload, PK_SERVER_EPH), Got(sh.payload, CT_STATIC),
                   Got(sh.payload, CT_EPHEMERAL), serverId', id, hello, Got(reply.payload, PK_SERVER_EPH),
                   Got(reply.payload, CT_STATIC), Got(reply.payload, CT_EPHEMERAL));
    if Encode(m) == Encode(hello) && serverId + clientId == serverId' + id {
      SameIdentity(m, hello, clientId, epoch, nonce, pk);
      assert (serverId + clientId)[..|serverId|] == serverId && (serverId' + id)[..|serverId'|] == serverId';
    }
  }

  /** Equal octets, equal identity inside. */
  lemma SameIdentity(m: ProtocolMessage, hello: ProtocolMessage, id: bytes, epoch: bytes, nonce: bytes, pk: bytes)
    requires m == ClientHello(id, epoch, nonce, pk)
    requires Encode(m).Ok? && Genuine(m) && Genuine(hello) && Encode(m) == Encode(hello)
    ensures Got(hello.payload, CLIENT_ID) == id
  {
    hide Encode, Genuine, Ascii, Get;
    PrefixFree(m, [], hello, []);
    GetReceived(m.payload, CLIENT_ID);
    GetReceived(hello.payload, CLIENT_ID);
    FirstField(id, epoch, nonce, pk);
  }

  lemma FirstField(id: bytes, epoch: bytes, nonce: bytes, pk: bytes)
    ensures Get(ClientHello(id, epoch, nonce, pk).payload, CLIENT_ID) == Some(id)
  {}

  /**
    A client that goes on with a signature some server step made shares that server's identities, hello and fields;
    or it was made for another hash and is good for this one too; or SHA-256 collides on the two named texts.
   */
  lemma ServerAuthentication(s: Suite, c0: ClientState, seed: bytes, nonce: bytes, sh: ProtocolMessage,
                             serverPk: bytes, coins: bytes,
                             v: ServerState, hello: ProtocolMessage, r: HelloCoins)
    requires c0.transcript == [] && StartHandshake(s, c0, seed, nonce).result.Ok?
    requires ProcessServerHello(s, StartHandshake(s, c0, seed, nonce).state, sh, serverPk, coins).result.Ok?
    requires v.transcript == [] && Genuine(hello) && ProcessClientHello(s, v, hello, r).result.Ok?
    requires Got(sh.payload, Ascii("signature"))
             == Got(ProcessClientHello(s, v, hello, r).result.value.payload, Ascii("signature"))
    requires |v.serverId| + |Got(hello.payload, Ascii("client_id"))| == |c0.expectedServerId| + |c0.clientId|
    ensures
      var c := StartHandshake(s, c0, seed, nonce).state;
      var Step(reply, v') := ProcessClientHello(s, v, hello, r);
      var id := Got(hello.payload, Ascii("client_id"));
      && |c.transcript| == 1 && |v'.transcript| == 2
      && var text := TextOf(c0.expectedServerId, c0.clientId, c.transcript[0], sh);
      var text' := TextOf(v.serverId, id, v'.transcript[0], reply.value);
      var sig := Got(sh.payload, Ascii("signature"));
      && s.verify(serverPk, s.hash(text), sig) && sig == s.sign(v.sigKeys.sk, s.hash(text'), r.signing)
      && (s.hash(text) == s.hash(text') ==>
            && CompareHash(text, text').Holds(s)
            && (CompareHash(text, text').NoCollision? ==>
                  && c0.expectedServerId == v.serverId && c0.clientId == id
                  && c.transcript[0] == v'.transcript[0]
                  && SameFields(sh, reply.value)))
  {
    hide Encode, Genuine, Ascii, Get, ProcessClientHello, ProcessServerHello, IsUtf8, SignedHash;
    var c := StartHandshake(s, c0, seed, nonce).state;
    var Step(reply, v') := ProcessClientHello(s, v, hello, r);
    StartGives(s, c0, seed, nonce);
    ServerHelloGives(s, v, hello, r);
    SignatureDecides(s, c, sh, serverPk, coins);
    ReplySigned(s, v, hello, r);
    var text := TextOf(c0.expectedServerId, c0.clientId, c.transcript[0], sh);
    var text' := TextOf(v.serverId, Got(hello.payload, CLIENT_ID), v'.transcript[0], reply.value);
    if s.hash(text) == s.hash(text') {
      TextsBind(s, c0.expectedServerId, c0.clientId, c0.epoch, nonce, s.kemKeygen(seed).pk, sh,
                v.serverId, hello, reply.value);
    }
  }

  /** The same key and ciphertexts in a row, and field by field exactly when the lengths agree. */
  ghost predicate SameFields(a: ProtocolMessage, b: ProtocolMessage) {
    var pk, pk' := Got(a.payload, Ascii("pk_server_eph")), Got(b.payload, Ascii("pk_server_eph"));
    var ct1, ct1' := Got(a.payload, Ascii("ct_static")), Got(b.payload, Ascii("ct_static"));
    var ct2, ct2' := Got(a.payload, Ascii("ct_ephemeral")), Got(b.payload, Ascii("ct_ephemeral"));
    && pk + ct1 + ct2 == pk' + ct1' + ct2'
    && (pk == pk' && ct1 == ct1' && ct2 == ct2' <==> |pk| == |pk'| && |ct1| == |ct1'|)
  }
}
