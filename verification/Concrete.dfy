/** The abstract suite of the handshake, instantiated: SHA-256 and HMAC-SHA-256 meet what the handshake asks of them. */
module Concrete {
  import opened Bytes
  import Fips180
  import Rfc2104
  import Rfc5869
  import PythonKdf
  import opened Message
  import opened Utf8
  import opened Handshake
  import opened Agreement
  import opened HonestRun

  /** A suite whose hash and HMAC are the real ones. */
  ghost predicate UsesSha256(s: Suite) {
    && (forall m :: s.hash(m) == Fips180.Sha256(m))
    && (forall k, m :: s.hmac(k, m) == Rfc2104.Hmac(k, m))
  }

  /** Such a suite has 32-octet digests, and its Extract and Expand are HKDF of RFC 5869. */
  lemma SuiteIsHkdf(s: Suite, salt: bytes, ikm: bytes, prk: bytes, info: bytes)
    requires UsesSha256(s)
    ensures s.DigestSized()
    ensures s.Extract(salt, ikm) == PythonKdf.Extract(salt, ikm)
    ensures s.Expand(prk, info) == Rfc5869.Expand(prk, info, 32)
  {
    hide Fips180.Sha256, Rfc2104.Hmac, Rfc5869.Expand;
    forall m
      ensures |s.hash(m)| == 32
    {
      assert s.hash(m) == Fips180.Sha256(m);
    }
    forall k, m
      ensures |s.hmac(k, m)| == 32
    {
      assert s.hmac(k, m) == Rfc2104.Hmac(k, m);
    }
    Rfc5869.OneBlock(prk, info);
  }

  /** The real hash and HMAC over a KEM and a signature that are correct but keep no secret. */
  function ToySuite(): Suite {
    Suite((m: bytes) => Fips180.Sha256(m), (k: bytes, m: bytes) => Rfc2104.Hmac(k, m),
          (seed: bytes) => KeyPair([1], [2]),
          (pk: bytes, coins: bytes) => Encapsulated([3], [4]),
          (sk: bytes, ct: bytes) => [3],
          (seed: bytes) => KeyPair([5], [6]),
          (sk: bytes, m: bytes, coins: bytes) => [7],
          (pk: bytes, m: bytes, signature: bytes) => true)
  }

  /** The hypotheses of the honest-run results can be met, with the real hash and HMAC and any identity and nonce. */
  lemma HonestRunsExist(clientId: bytes, x: Choices)
    requires IsUtf8(clientId) && Fits(clientId) && Fits(x.nonce)
    ensures UsesSha256(ToySuite())
    ensures
      var s := ToySuite();
      Honest(s, NewClient(s, clientId, KeyPair([1], [2]), [], SERVER_ID, EPOCH_1),
             NewServer(None, KeyPair([5], [6]), map[clientId := [1]], SERVER_ID), x)
  {
    hide Fips180.Sha256, Rfc2104.Hmac, IsUtf8;
    var s := ToySuite();
    SuiteIsHkdf(s, [], [], [], []);
    assert s.DigestSized();
    var c := NewClient(s, clientId, KeyPair([1], [2]), [], SERVER_ID, EPOCH_1);
    assert |c.applicationKey| == 32;
    assert KeyPair([1], [2]) == s.kemKeygen([]);
    assert KeyPair([5], [6]) == s.sigKeygen([]);
  }

  // ---------- acceptance down to SHA-256 ----------

  /** A collision of HMAC as one of SHA-256, in its outer or its inner hash. */
  function Sha256Evidence(e: Evidence): Evidence {
    match e
    case MacCollision(k, t, k', t') =>
      First(CompareHash(Rfc2104.Outer(k, t), Rfc2104.Outer(k', t')),
            CompareHash(Rfc2104.Inner(k, t), Rfc2104.Inner(k', t')))
    case _ => e
  }

  /** Nothing is lost on the way but the difference between two keys that HMAC does not tell apart. */
  lemma OnlySha256(s: Suite, e: Evidence)
    requires UsesSha256(s) && e.Holds(s)
    ensures Sha256Evidence(e).Holds(s) && !Sha256Evidence(e).MacCollision?
    ensures Sha256Evidence(e).NoCollision? ==>
      match e
      case NoCollision => true
      case HashCollision(_, _) => false
      case MacCollision(k, t, k', t') => Rfc2104.BlockKey(k) == Rfc2104.BlockKey(k') && k != k' && t == t'
  {
    hide Fips180.Sha256, Rfc2104.Hmac, Rfc2104.Outer, Rfc2104.Inner, Rfc2104.BlockKey;
    match e
    case MacCollision(k, t, k', t') =>
      Rfc2104.TagBinds(k, t, k', t');
    case _ =>
  }

  /** The keys compared above the extraction are 32 octets long, so none of them are such a pair. */
  lemma ThirtyTwoOctets(s: Suite, a: Inputs, f: bytes, b: Inputs, g: bytes)
    requires s.DigestSized()
    ensures
      var e := ClientTagEvidence(s, a, b);
      e.MacCollision? ==> |e.key| == 32 == |e.key'|
    ensures
      var e := ServerTagEvidence(s, a, f, b, g);
      e.MacCollision? ==> |e.key| == 32 == |e.key'|
  {}

  /** The application keys are one HMAC key and the KEM secrets are equal, or the named SHA-256 inputs collide. */
  ghost predicate SecretsBoundBySha256(s: Suite, a: Inputs, b: Inputs) {
    var e := Sha256Evidence(SecretsEvidence(s, a, b));
    && e.Holds(s) && !e.MacCollision?
    && (e.NoCollision? ==>
          && Rfc2104.BlockKey(a.applicationKey) == Rfc2104.BlockKey(b.applicationKey) && a.ikm == b.ikm
          && (|a.applicationKey| == |b.applicationKey| <= 64 ==> a.applicationKey == b.applicationKey))
  }

  lemma SecretsDown(s: Suite, a: Inputs, b: Inputs)
    requires UsesSha256(s) && SecretsBound(s, a, b)
    ensures SecretsBoundBySha256(s, a, b)
  {
    hide Fips180.Sha256, Rfc2104.Hmac, Rfc2104.BlockKey;
    OnlySha256(s, SecretsEvidence(s, a, b));
    EmptyIsZeros(a.applicationKey);
    EmptyIsZeros(b.applicationKey);
    if |a.applicationKey| == |b.applicationKey| <= 64
       && Rfc2104.BlockKey(a.applicationKey) == Rfc2104.BlockKey(b.applicationKey) {
      Rfc2104.BlockKeyInjective(a.applicationKey, b.applicationKey);
    }
  }

  /** The replacement of an empty salt is invisible to HMAC. */
  lemma EmptyIsZeros(salt: bytes)
    ensures Rfc2104.BlockKey(if salt == [] then Zeros(32) else salt) == Rfc2104.BlockKey(salt)
  {}

  /**
    `Agreement.ServerAcceptance` with the real hash and HMAC: the parties agree unless the named pair of inputs is a
    collision of SHA-256 itself.
   */
  lemma ServerAcceptanceSha256(s: Suite, c: ClientState, sh: ProtocolMessage, pk: bytes, coins: bytes,
                               v: ServerState, fin: ProtocolMessage)
    requires UsesSha256(s)
    requires ClientStarted(s, c) && Genuine(sh)
    requires ProcessServerHello(s, c, sh, pk, coins).result.Ok?
    requires ServerStarted(s, v)
    requires ProcessClientFinished(s, v, fin).result.Ok? && ProcessClientFinished(s, v, fin).result.value.Some?
    requires Get(fin.payload, MAC) == Get(ProcessServerHello(s, c, sh, pk, coins).result.value.payload, MAC)
    ensures
      var a, b := ClientView(s, c, sh, coins), ServerView(s, v, fin);
      var e := Sha256Evidence(ClientTagEvidence(s, a, b));
      && e.Holds(s) && !e.MacCollision?
      && (e.NoCollision? ==>
            && Agree(ProcessServerHello(s, c, sh, pk, coins).state, ProcessClientFinished(s, v, fin).state)
            && a.ct == Got(fin.payload, CT_CLIENT)
            && SecretsBoundBySha256(s, a, b))
  {
    hide Fips180.Sha256, Rfc2104.Hmac, Rfc2104.BlockKey, Encode, Get, ProcessClientFinished, ClientFinishes, UsesSha256,
         Agree, SecretsBound, SecretsBoundBySha256, ClientView, ServerView, ClientTagEvidence;
    SuiteIsHkdf(s, [], [], [], []);
    ServerAcceptance(s, c, sh, pk, coins, v, fin);
    var a, b := ClientView(s, c, sh, coins), ServerView(s, v, fin);
    Lift(s, ClientTagEvidence(s, a, b), a, b, [], []);
  }

  /** A layer above the extraction that names no SHA-256 collision names none at all. */
  lemma Lift(s: Suite, e: Evidence, a: Inputs, b: Inputs, f: bytes, g: bytes)
    requires UsesSha256(s) && e.Holds(s)
    requires e == ClientTagEvidence(s, a, b) || e == ServerTagEvidence(s, a, f, b, g)
    ensures Sha256Evidence(e).Holds(s) && !Sha256Evidence(e).MacCollision?
    ensures Sha256Evidence(e).NoCollision? ==> e.NoCollision?
    ensures SecretsBound(s, a, b) ==> SecretsBoundBySha256(s, a, b)
  {
    hide Fips180.Sha256, Rfc2104.Hmac, Rfc2104.BlockKey, ClientTagEvidence, ServerTagEvidence, SecretsBound,
         SecretsBoundBySha256, UsesSha256, Sha256Evidence;
    SuiteIsHkdf(s, [], [], [], []);
    OnlySha256(s, e);
    ThirtyTwoOctets(s, a, f, b, g);
    if e.MacCollision? && Rfc2104.BlockKey(e.key) == Rfc2104.BlockKey(e.key') {
      Rfc2104.BlockKeyInjective(e.key, e.key');
    }
    if SecretsBound(s, a, b) {
      SecretsDown(s, a, b);
    }
  }

  /** The same for `Agreement.ClientAcceptance`. */
  lemma ClientAcceptanceSha256(s: Suite, c: ClientState, sh: ProtocolMessage, pk: bytes, coins: bytes,
                               sf: ProtocolMessage, v: ServerState, fin: ProtocolMessage)
    requires UsesSha256(s)
    requires ClientStarted(s, c) && Genuine(sh)
    requires ProcessServerHello(s, c, sh, pk, coins).result.Ok?
    requires ServerStarted(s, v)
    requires ProcessClientFinished(s, v, fin).result.Ok? && ProcessClientFinished(s, v, fin).result.value.Some?
    requires ProcessServerFinished(s, ProcessServerHello(s, c, sh, pk, coins).state, sf).result == Ok(true)
    requires Get(sf.payload, MAC) == Get(ProcessClientFinished(s, v, fin).result.value.value.payload, MAC)
    ensures
      var c' := ProcessServerHello(s, c, sh, pk, coins).state;
      var v' := ProcessClientFinished(s, v, fin).state;
      var a, b := ClientView(s, c, sh, coins), ServerView(s, v, fin);
      |c'.transcript| == 3 == |v'.transcript|
      && var e := Sha256Evidence(ServerTagEvidence(s, a, c'.transcript[2], b, v'.transcript[2]));
      && e.Holds(s) && !e.MacCollision?
      && (e.NoCollision? ==> Agree(c', v') && c'.transcript == v'.transcript && SecretsBoundBySha256(s, a, b))
  {
    hide Fips180.Sha256, Rfc2104.Hmac, Rfc2104.BlockKey, Encode, Get, ProcessClientFinished, ProcessServerFinished,
         ClientFinishes, UsesSha256, Agree, SecretsBound, SecretsBoundBySha256, ClientView, ServerView,
         ServerTagEvidence;
    SuiteIsHkdf(s, [], [], [], []);
    ClientFinishedGives(s, c, sh, pk, coins);
    ServerFinishedGives(s, v, fin);
    ClientAcceptance(s, c, sh, pk, coins, sf, v, fin);
    var c' := ProcessServerHello(s, c, sh, pk, coins).state;
    var v' := ProcessClientFinished(s, v, fin).state;
    var a, b := ClientView(s, c, sh, coins), ServerView(s, v, fin);
    var f, g := c'.transcript[2], v'.transcript[2];
    Lift(s, ServerTagEvidence(s, a, f, b, g), a, b, f, g);
  }
}
