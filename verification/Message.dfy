/** `ProtocolMessage` of `common/protocol.py` and its self-delimiting byte form. */
module Message {
  import opened Bytes
  import opened Utf8

  /** A payload value: Python `bytes`, a `str` held as its UTF-8 octets, or any other type. */
  datatype Value = Raw(octets: bytes) | Text(utf8: bytes) | Unsupported {
    function Octets(): bytes {
      match this
      case Raw(b) => b
      case Text(b) => b
      case Unsupported => []
    }
  }

  datatype Field = Field(key: bytes, value: Value)

  /** The payload dict, in insertion order. */
  datatype ProtocolMessage = ProtocolMessage(msgType: bytes, payload: seq<Field>)

  ghost predicate DistinctKeys(payload: seq<Field>) {
    forall i, j :: 0 <= i < j < |payload| ==> payload[i].key != payload[j].key
  }

  ghost predicate TextKeys(payload: seq<Field>) {
    forall i :: 0 <= i < |payload| ==> IsUtf8(payload[i].key)
  }

  /** What a `ProtocolMessage` object can hold: text as its type and its keys, and a dict as its payload. */
  ghost predicate Genuine(m: ProtocolMessage) {
    IsUtf8(m.msgType) && TextKeys(m.payload) && DistinctKeys(m.payload)
  }

  /** What a reader of the byte form gets: every value as octets. */
  function AsRaw(payload: seq<Field>): (r: seq<Field>)
    ensures |r| == |payload|
  {
    seq(|payload|, i requires 0 <= i < |payload| => Field(payload[i].key, Raw(payload[i].value.Octets())))
  }

  function Received(m: ProtocolMessage): ProtocolMessage {
    m.(payload := AsRaw(m.payload))
  }

  // ---------- the byte form ----------

  function EncodeField(f: Field): Result<bytes> {
    var v := f.value.Octets();
    if |f.key| > 0xff then Err(ValueError)
    else if f.value.Unsupported? then Err(ValueError)
    else if |v| > 0xffff then Err(OverflowError)
    else Ok([|f.key|] + f.key + BigEndian(|v|, 2) + v)
  }

  function EncodeFields(payload: seq<Field>): Result<bytes> {
    if payload == [] then Ok([])
    else
      var front :- EncodeFields(payload[..|payload| - 1]);
      var last :- EncodeField(payload[|payload| - 1]);
      Ok(front + last)
  }

  function Encode(m: ProtocolMessage): Result<bytes> {
    if |m.msgType| > 0xff then Err(ValueError)
    else if |m.payload| > 0xff then Err(ValueError)
    else
      var fields :- EncodeFields(m.payload);
      Ok([|m.msgType|] + m.msgType + [|m.payload|] + fields)
  }

  /** `ProtocolMessage.to_bytes` */
  method ToBytes(m: ProtocolMessage) returns (r: Result<bytes>)
    ensures r == Encode(m)
  {
    hide BigEndian, EncodeFields;
    EncodeNone(m.payload);
    var out := [];
    if |m.msgType| > 0xff {
      return Err(ValueError);
    }
    out := out + [|m.msgType|];
    out := out + m.msgType;
    if |m.payload| > 0xff {
      return Err(ValueError);
    }
    out := out + [|m.payload|];
    ghost var head := out;
    for i := 0 to |m.payload|
      invariant EncodeFields(m.payload[..i]).Ok?
      invariant out == head + EncodeFields(m.payload[..i]).value
    {
      var f := m.payload[i];
      EncodePrefix(m.payload, i);
      if |f.key| > 0xff || f.value.Unsupported? {
        return Err(ValueError);
      }
      var vb := f.value.Octets();
      if |vb| > 0xffff {
        return Err(OverflowError);
      }
      ghost var before := out;
      out := out + [|f.key|] + f.key;
      out := out + BigEndian(|vb|, 2);
      out := out + vb;
      assert out == before + EncodeField(f).value;
    }
    assert m.payload[..|m.payload|] == m.payload;
    assert out == [|m.msgType|] + m.msgType + [|m.payload|] + EncodeFields(m.payload).value;
    return Ok(out);
  }

  lemma EncodeNone(payload: seq<Field>)
    ensures EncodeFields(payload[..0]) == Ok([])
  {}

  /** The first field that cannot be encoded decides the error. */
  lemma {:induction false} EncodePrefix(payload: seq<Field>, i: nat)
    requires i < |payload| && EncodeFields(payload[..i]).Ok?
    ensures EncodeField(payload[i]).Err? ==> EncodeFields(payload) == Err(EncodeField(payload[i]).error)
    ensures EncodeField(payload[i]).Ok? ==>
      EncodeFields(payload[..i + 1]) == Ok(EncodeFields(payload[..i]).value + EncodeField(payload[i]).value)
    decreases |payload|
  {
    assert payload[..i + 1][..i] == payload[..i];
    if i + 1 == |payload| {
      assert payload[..i + 1] == payload;
    } else {
      var front := payload[..|payload| - 1];
      assert front[..i] == payload[..i];
      EncodePrefix(front, i);
    }
  }

  ghost predicate EncodableField(f: Field) {
    |f.key| <= 0xff && !f.value.Unsupported? && |f.value.Octets()| <= 0xffff
  }

  /** Exactly the messages that `to_bytes` does not reject. */
  lemma EncodesIff(m: ProtocolMessage)
    ensures Encode(m).Ok? <==>
      && |m.msgType| <= 0xff && |m.payload| <= 0xff
      && forall f :: f in m.payload ==> EncodableField(f)
  {
    FieldsEncodeIff(m.payload);
  }

  lemma {:induction false} FieldsEncodeIff(payload: seq<Field>)
    ensures EncodeFields(payload).Ok? <==> forall f :: f in payload ==> EncodableField(f)
  {
    if payload != [] {
      var front, last := payload[..|payload| - 1], payload[|payload| - 1];
      FieldsEncodeIff(front);
      assert forall f :: f in payload <==> f in front || f == last;
      assert EncodeField(last).Ok? <==> EncodableField(last);
    }
  }

  // ---------- reading it back ----------

  /** `payload[key] = value` */
  function DictPut(payload: seq<Field>, key: bytes, value: Value): seq<Field> {
    if payload == [] then [Field(key, value)]
    else if payload[0].key == key then [Field(key, value)] + payload[1..]
    else [payload[0]] + DictPut(payload[1..], key, value)
  }

  /** One turn of the loop of `from_bytes`: the field at `off`, and the offset behind it. */
  function ReadField(data: bytes, off: nat): Result<(Field, nat)> {
    if off >= |data| then Err(IndexError)
    else
      var at := off + 1 + data[off];
      var vlen := BigEndianValue(Slice(data, at, at + 2));
      if !IsUtf8(Slice(data, off + 1, at)) then Err(ValueError)
      else Ok((Field(Slice(data, off + 1, at), Raw(Slice(data, at + 2, at + 2 + vlen))), at + 2 + vlen))
  }

  function ReadFields(data: bytes, off: nat, num: nat): Result<(seq<Field>, nat)> {
    if num == 0 then Ok(([], off))
    else
      var (payload, at) :- ReadFields(data, off, num - 1);
      var (f, next) :- ReadField(data, at);
      Ok((DictPut(payload, f.key, f.value), next))
  }

  /** The message at the start of data and the number of octets its byte form spans. */
  function Parse(data: bytes): Result<(ProtocolMessage, nat)> {
    if data == [] then Err(IndexError)
    else
      var off := 1 + data[0] as nat;
      if !IsUtf8(Slice(data, 1, off)) then Err(ValueError)
      else if off >= |data| then Err(IndexError)
      else
        var (payload, end) :- ReadFields(data, off + 1, data[off]);
        Ok((ProtocolMessage(Slice(data, 1, off), payload), end))
  }

  function Decode(data: bytes): Result<ProtocolMessage> {
    var (m, _) :- Parse(data);
    Ok(m)
  }

  /** `ProtocolMessage.from_bytes` */
  method FromBytes(data: bytes) returns (r: Result<ProtocolMessage>)
    ensures r == Decode(data)
  {
    hide BigEndianValue, DictPut, Slice, ReadFields, IsUtf8;
    var off: nat := 0;
    if off >= |data| {
      return Err(IndexError);
    }
    var tlen := data[off];
    off := off + 1;
    var msgType := Slice(data, off, off + tlen);
    if !IsUtf8(msgType) {
      return Err(ValueError);
    }
    off := off + tlen;
    if off >= |data| {
      return Err(IndexError);
    }
    var num := data[off];
    off := off + 1;
    var payload := [];
    ghost var start := off;
    ReadNone(data, start);
    for n := 0 to num
      invariant ReadFields(data, start, n) == Ok((payload, off))
    {
      ReadOneMore(data, start, n);
      if off >= |data| {
        ReadFails(data, start, n, num);
        return Err(IndexError);
      }
      var klen := data[off];
      off := off + 1;
      var key := Slice(data, off, off + klen);
      if !IsUtf8(key) {
        ReadFails(data, start, n, num);
        return Err(ValueError);
      }
      off := off + klen;
      var vlen := BigEndianValue(Slice(data, off, off + 2));
      off := off + 2;
      payload := DictPut(payload, key, Raw(Slice(data, off, off + vlen)));
      off := off + vlen;
    }
    return Ok(ProtocolMessage(msgType, payload));
  }

  lemma ReadNone(data: bytes, start: nat)
    ensures ReadFields(data, start, 0) == Ok(([], start))
  {}

  lemma ReadOneMore(data: bytes, start: nat, n: nat)
    requires ReadFields(data, start, n).Ok?
    ensures
      var (payload, at) := ReadFields(data, start, n).value;
      ReadFields(data, start, n + 1) ==
        match ReadField(data, at)
        case Err(e) => Err(e)
        case Ok((f, next)) => Ok((DictPut(payload, f.key, f.value), next))
  {
    hide ReadField, DictPut;
  }

  lemma {:induction false} ReadFails(data: bytes, start: nat, n: nat, num: nat)
    requires n < num && ReadFields(data, start, n).Ok?
    requires ReadField(data, ReadFields(data, start, n).value.1).Err?
    ensures ReadFields(data, start, num) == Err(ReadField(data, ReadFields(data, start, n).value.1).error)
  {
    hide ReadField;
    if n + 1 < num {
      ReadFails(data, start, n, num - 1);
    }
  }

  // ---------- round trip ----------

  lemma BigEndian16(n: nat)
    requires n <= 0xffff
    ensures BigEndianValue(BigEndian(n, 2)) == n
  {
    Pow256Values();
    BigEndianRoundTrip(n, 2);
  }

  /** A field is read back wherever it stands. */
  lemma ReadEncodedField(pre: bytes, f: Field, post: bytes)
    requires EncodeField(f).Ok? && IsUtf8(f.key)
    ensures ReadField(pre + EncodeField(f).value + post, |pre|)
            == Ok((Field(f.key, Raw(f.value.Octets())), |pre| + |EncodeField(f).value|))
  {
    hide BigEndian, BigEndianValue, Slice, IsUtf8;
    var v, length := f.value.Octets(), BigEndian(|f.value.Octets()|, 2);
    var data := pre + EncodeField(f).value + post;
    assert data == pre + [|f.key|] + f.key + length + v + post;
    assert data[|pre|] == |f.key|;
    SliceMiddle(pre + [|f.key|], f.key, length + v + post);
    assert data == pre + [|f.key|] + f.key + (length + v + post);
    SliceMiddle(pre + [|f.key|] + f.key, length, v + post);
    assert data == pre + [|f.key|] + f.key + length + (v + post);
    SliceMiddle(pre + [|f.key|] + f.key + length, v, post);
    BigEndian16(|v|);
  }

  lemma {:induction false} DictPutNew(payload: seq<Field>, key: bytes, value: Value)
    requires forall i :: 0 <= i < |payload| ==> payload[i].key != key
    ensures DictPut(payload, key, value) == payload + [Field(key, value)]
  {
    if payload != [] {
      DictPutNew(payload[1..], key, value);
    }
  }

  lemma {:induction false} ReadEncodedFields(pre: bytes, payload: seq<Field>, post: bytes)
    requires EncodeFields(payload).Ok? && DistinctKeys(payload) && TextKeys(payload)
    ensures ReadFields(pre + EncodeFields(payload).value + post, |pre|, |payload|)
            == Ok((AsRaw(payload), |pre| + |EncodeFields(payload).value|))
  {
    hide EncodeField, ReadField, DictPut, IsUtf8;
    if payload == [] {
      assert AsRaw(payload) == [];
      assert pre + [] + post == pre + post;
    } else {
      var front, last := payload[..|payload| - 1], payload[|payload| - 1];
      var a, b := EncodeFields(front).value, EncodeField(last).value;
      var data := pre + EncodeFields(payload).value + post;
      assert data == pre + a + (b + post);
      ReadEncodedFields(pre, front, b + post);
      assert data == (pre + a) + b + post;
      ReadEncodedField(pre + a, last, post);
      DictPutNew(AsRaw(front), last.key, Raw(last.value.Octets()));
      assert AsRaw(payload) == AsRaw(front) + [Field(last.key, Raw(last.value.Octets()))];
    }
  }

  /** The byte form delimits itself: it is read back exactly, whatever follows it. */
  lemma ParseEncoded(m: ProtocolMessage, rest: bytes)
    requires Encode(m).Ok? && Genuine(m)
    ensures Parse(Encode(m).value + rest) == Ok((Received(m), |Encode(m).value|))
  {
    hide IsUtf8, ReadFields, EncodeFields, AsRaw, DistinctKeys, TextKeys;
    var data, fields := Encode(m).value + rest, EncodeFields(m.payload).value;
    var head := [|m.msgType|] + m.msgType + [|m.payload|];
    assert data == head + fields + rest;
    assert data[0] == |m.msgType| && data[1 + |m.msgType|] == |m.payload|;
    SliceMiddle([|m.msgType|], m.msgType, [|m.payload|] + fields + rest);
    assert data == [|m.msgType|] + m.msgType + ([|m.payload|] + fields + rest);
    ReadEncodedFields(head, m.payload, rest);
  }

  lemma RoundTrip(m: ProtocolMessage)
    requires Encode(m).Ok? && Genuine(m)
    ensures Decode(Encode(m).value) == Ok(Received(m))
  {
    ParseEncoded(m, []);
    assert Encode(m).value + [] == Encode(m).value;
  }

  /** Injective and prefix-free at once: a byte form followed by anything determines the message and what follows. */
  lemma PrefixFree(m: ProtocolMessage, rest: bytes, m': ProtocolMessage, rest': bytes)
    requires Encode(m).Ok? && Genuine(m) && Encode(m').Ok? && Genuine(m')
    requires Encode(m).value + rest == Encode(m').value + rest'
    ensures Received(m) == Received(m') && Encode(m) == Encode(m') && rest == rest'
  {
    ParseEncoded(m, rest);
    ParseEncoded(m', rest');
    var data := Encode(m).value + rest;
    var n := |Encode(m).value|;
    assert data[..n] == Encode(m).value == Encode(m').value;
    assert data[n..] == rest == rest';
  }

  lemma {:induction false} EncodeAsRaw(payload: seq<Field>)
    requires EncodeFields(payload).Ok?
    ensures EncodeFields(AsRaw(payload)) == EncodeFields(payload)
  {
    if payload == [] {
      assert AsRaw(payload) == [];
    } else {
      var front := payload[..|payload| - 1];
      EncodeAsRaw(front);
      assert AsRaw(payload)[..|payload| - 1] == AsRaw(front);
    }
  }

  /** Re-encoding a parsed message restores the octets it was parsed from. */
  lemma Reencode(m: ProtocolMessage)
    requires Encode(m).Ok?
    ensures Encode(Received(m)) == Encode(m)
  {
    EncodeAsRaw(m.payload);
  }

  /** What `hash_transcript(T0, T1, ct)` absorbs determines T0, T1 and ct, although nothing delimits them. */
  lemma TranscriptUnambiguous(a: ProtocolMessage, b: ProtocolMessage, ct: bytes,
                              a': ProtocolMessage, b': ProtocolMessage, ct': bytes)
    requires Encode(a).Ok? && Genuine(a) && Encode(b).Ok? && Genuine(b)
    requires Encode(a').Ok? && Genuine(a') && Encode(b').Ok? && Genuine(b')
    requires Encode(a).value + Encode(b).value + ct == Encode(a').value + Encode(b').value + ct'
    ensures Encode(a) == Encode(a') && Encode(b) == Encode(b') && ct == ct'
  {
    var A, B, A', B' := Encode(a).value, Encode(b).value, Encode(a').value, Encode(b').value;
    assert A + B + ct == A + (B + ct) && A' + B' + ct' == A' + (B' + ct');
    PrefixFree(a, B + ct, a', B' + ct');
    PrefixFree(b, ct, b', ct');
  }

  // ---------- sizes ----------

  function FieldsSize(payload: seq<Field>): nat {
    if payload == [] then 0
    else FieldsSize(payload[..|payload| - 1])
         + 3 + |payload[|payload| - 1].key| + |payload[|payload| - 1].value.Octets()|
  }

  /** `size()` */
  lemma Size(m: ProtocolMessage)
    requires Encode(m).Ok?
    ensures |Encode(m).value| == 2 + |m.msgType| + FieldsSize(m.payload)
  {
    FieldsSizeIs(m.payload);
  }

  lemma {:induction false} FieldsSizeIs(payload: seq<Field>)
    requires EncodeFields(payload).Ok?
    ensures |EncodeFields(payload).value| == FieldsSize(payload)
  {
    if payload != [] {
      FieldsSizeIs(payload[..|payload| - 1]);
    }
  }
}
