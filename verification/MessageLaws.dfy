/** What `from_bytes` makes of arbitrary octets: always a dict, and when its byte form is what was read. */
module MessageLaws {
  import opened Bytes
  import opened Utf8
  import opened Message

  // ---------- a repeated key ----------

  /** `payload[key] = value` keeps the order of the keys: a key that is there gets its new value where it stands. */
  lemma {:induction false} PutInPlace(payload: seq<Field>, key: bytes, value: Value)
    requires DistinctKeys(payload)
    ensures
      var r, known := DictPut(payload, key, value), exists i :: 0 <= i < |payload| && payload[i].key == key;
      && |r| == |payload| + (if known then 0 else 1)
      && (forall i :: 0 <= i < |payload| ==> r[i] == if payload[i].key == key then Field(key, value) else payload[i])
      && (!known ==> r[|payload|] == Field(key, value))
      && DistinctKeys(r)
  {
    if i :| 0 <= i < |payload| && payload[i].key == key {
      PutAt(payload, i, key, value);
    } else {
      DictPutNew(payload, key, value);
    }
  }

  lemma {:induction false} PutAt(payload: seq<Field>, i: nat, key: bytes, value: Value)
    requires i < |payload| && payload[i].key == key && forall k :: 0 <= k < i ==> payload[k].key != key
    ensures DictPut(payload, key, value) == payload[i := Field(key, value)]
  {
    if i > 0 {
      PutAt(payload[1..], i - 1, key, value);
    }
  }

  /** The last field of a list that is read. */
  lemma LastField(data: bytes, off: nat, num: nat)
    requires num > 0 && ReadFields(data, off, num).Ok?
    ensures ReadFields(data, off, num - 1).Ok?
    ensures
      var (payload, at) := ReadFields(data, off, num - 1).value;
      ReadField(data, at).Ok? &&
      var (f, next) := ReadField(data, at).value;
      && ReadFields(data, off, num) == Ok((DictPut(payload, f.key, f.value), next))
      && IsUtf8(f.key) && f.value.Raw? && at < next
  {
    hide IsUtf8, Slice, BigEndianValue, DictPut;
  }

  /** Every field list that is read is a dict with text as its keys. */
  lemma {:induction false} FieldsAreDict(data: bytes, off: nat, num: nat)
    requires ReadFields(data, off, num).Ok?
    ensures
      var (payload, end) := ReadFields(data, off, num).value;
      |payload| <= num && DistinctKeys(payload) && TextKeys(payload) && off <= end
  {
    hide IsUtf8, DictPut, ReadField, ReadFields;
    if num == 0 {
      ReadNone(data, off);
    } else {
      LastField(data, off, num);
      FieldsAreDict(data, off, num - 1);
      var (payload, at) := ReadFields(data, off, num - 1).value;
      var (f, _) := ReadField(data, at).value;
      PutInPlace(payload, f.key, f.value);
    }
  }

  /** Whatever is parsed could have been built: text as type and keys, every key once. */
  lemma ParsedIsGenuine(data: bytes)
    requires Parse(data).Ok?
    ensures Genuine(Parse(data).value.0)
    ensures |Parse(data).value.0.payload| <= 255
  {
    hide IsUtf8, Slice, ReadFields;
    FieldsAreDict(data, 2 + data[0] as nat, data[1 + data[0] as nat]);
  }

  // ---------- back to the octets ----------

  /** A field that is not cut short encodes to the octets it was read from. */
  lemma FieldRestored(data: bytes, off: nat)
    requires ReadField(data, off).Ok? && ReadField(data, off).value.1 <= |data|
    ensures off < ReadField(data, off).value.1
    ensures EncodeField(ReadField(data, off).value.0) == Ok(data[off..ReadField(data, off).value.1])
  {
    hide IsUtf8, BigEndian, BigEndianValue;
    var at := off + 1 + data[off];
    var raw := data[at..at + 2];
    TwoOctetsBack(raw);
    var next := at + 2 + BigEndianValue(raw);
    var key, v := data[off + 1..at], data[at + 2..next];
    assert ReadField(data, off) == Ok((Field(key, Raw(v)), next));
    assert EncodeField(Field(key, Raw(v))) == Ok([data[off]] + key + raw + v);
    FourParts(data, off, at, next);
  }

  lemma FourParts(data: bytes, off: nat, at: nat, next: nat)
    requires off < at <= at + 2 <= next <= |data|
    ensures [data[off]] + data[off + 1..at] + data[at..at + 2] + data[at + 2..next] == data[off..next]
  {}

  lemma TwoOctetsBack(raw: bytes)
    requires |raw| == 2
    ensures BigEndianValue(raw) <= 0xffff && BigEndian(BigEndianValue(raw), 2) == raw
  {
    assert raw[..1] == [raw[0]] && raw[..1][..0] == [];
    var n := BigEndianValue(raw);
    assert n == 0x100 * BigEndianValue(raw[..1]) + raw[1];
    assert BigEndianValue(raw[..1]) == 0x100 * BigEndianValue([]) + raw[0];
    assert BigEndian(n, 2) == BigEndian(n / 0x100, 1) + [LowByte(n)];
    assert BigEndian(n / 0x100, 1) == BigEndian(n / 0x100 / 0x100, 0) + [LowByte(n / 0x100)];
  }

  /** Fields of which none is cut short and no key repeats encode to the octets they were read from. */
  lemma {:induction false} FieldsRestored(data: bytes, off: nat, num: nat)
    requires ReadFields(data, off, num).Ok? && ReadFields(data, off, num).value.1 <= |data|
    requires |ReadFields(data, off, num).value.0| == num
    ensures off <= ReadFields(data, off, num).value.1
    ensures EncodeFields(ReadFields(data, off, num).value.0) == Ok(data[off..ReadFields(data, off, num).value.1])
  {
    hide IsUtf8, DictPut, ReadField, ReadFields, EncodeField;
    if num == 0 {
      ReadNone(data, off);
    } else {
      LastField(data, off, num);
      var (payload, at) := ReadFields(data, off, num - 1).value;
      var (f, next) := ReadField(data, at).value;
      FieldsAreDict(data, off, num - 1);
      PutInPlace(payload, f.key, f.value);
      FieldRestored(data, at);
      FieldsRestored(data, off, num - 1);
      DictPutNew(payload, f.key, f.value);
      OneMoreField(payload, f, data[off..at], data[at..next]);
      assert data[off..next] == data[off..at] + data[at..next];
    }
  }

  lemma OneMoreField(payload: seq<Field>, f: Field, a: bytes, b: bytes)
    requires EncodeFields(payload) == Ok(a) && EncodeField(f) == Ok(b)
    ensures EncodeFields(payload + [f]) == Ok(a + b)
  {
    hide EncodeField;
    assert (payload + [f])[..|payload|] == payload;
  }

  /**
    `to_bytes` after `from_bytes`: the octets that were read come back exactly when none of the announced fields
    repeats a key; and all of the data exactly when, besides, it is neither cut short nor longer than its message.
   */
  lemma RestoresIff(data: bytes)
    requires Parse(data).Ok?
    ensures 1 + data[0] as nat < |data|
    ensures
      var (m, end) := Parse(data).value;
      var whole := |m.payload| == data[1 + data[0] as nat];
      && (end <= |data| ==> (Encode(m) == Ok(data[..end]) <==> whole))
      && (Encode(m) == Ok(data) <==> end == |data| && whole)
  {
    hide IsUtf8, ReadFields, EncodeFields;
    var (m, end) := Parse(data).value;
    var off := 1 + data[0] as nat;
    ParsedIsGenuine(data);
    FieldsAreDict(data, off + 1, data[off]);
    if end <= |data| && |m.payload| == data[off] {
      FieldsRestored(data, off + 1, data[off]);
      assert data[..end] == [data[0]] + data[1..off] + [data[off]] + data[off + 1..end];
    }
    if Encode(m).Ok? {
      assert Encode(m).value[off] == |m.payload|;
      if Encode(m).value == data {
        ParseEncoded(m, []);
        assert data + [] == data;
      }
    }
    if end == |data| {
      assert data[..end] == data;
    }
  }

  /** Four octets that are read as a message with one empty field, although its value and its length are missing. */
  lemma CutShortIsRead()
    ensures
      var m := ProtocolMessage([0x41], [Field([], Raw([]))]);
      Parse([1, 0x41, 1, 0]) == Ok((m, 6)) && Encode(m) == Ok([1, 0x41, 1, 0, 0, 0])
  {
    hide Parse, Encode;
    ReadShort();
    EmptyField([0x41], Field([], Raw([])));
    assert [1] + [0x41] + [1, 0, 0, 0] == [1, 0x41, 1, 0, 0, 0];
  }

  lemma ReadShort()
    ensures Parse([1, 0x41, 1, 0]) == Ok((ProtocolMessage([0x41], [Field([], Raw([]))]), 6))
  {
    var data: bytes := [1, 0x41, 1, 0];
    var f := Field([], Raw([]));
    assert Slice(data, 1, 2) == [0x41] && Slice(data, 4, 4) == [] && Slice(data, 4, 6) == [];
    SevenBit([0x41]);
    assert ReadField(data, 3) == Ok((f, 6));
    ReadNone(data, 3);
    ReadOneMore(data, 3, 0);
  }

  /** The byte form of a message whose one field is empty. */
  lemma EmptyField(msgType: bytes, f: Field)
    requires |msgType| < 0x100 && f == Field([], Raw([]))
    ensures Encode(ProtocolMessage(msgType, [f])) == Ok([|msgType|] + msgType + [1, 0, 0, 0])
  {
    hide EncodeField;
    var none, b: bytes := [], [0, 0, 0];
    EncodeNone([]);
    EmptyFieldBytes(f);
    OneMoreField([], f, none, b);
    assert [] + [f] == [f] && none + b == b;
    assert [|msgType|] + msgType + [1] + b == [|msgType|] + msgType + [1, 0, 0, 0];
  }

  lemma EmptyFieldBytes(f: Field)
    requires f == Field([], Raw([]))
    ensures EncodeField(f) == Ok([0, 0, 0])
  {
    hide BigEndian;
    assert BigEndian(0, 2) == [0, 0] by { NoOctets(); }
    assert [|f.key|] + f.key + [0, 0] + f.value.Octets() == [0, 0, 0];
  }

  lemma NoOctets()
    ensures BigEndian(0, 2) == [0, 0]
  {
    assert BigEndian(0, 2) == BigEndian(0, 1) + [0] && BigEndian(0, 1) == BigEndian(0, 0) + [0];
  }

  // ---------- what is refused ----------

  /** The error of a field that has no byte form. */
  lemma FieldExits(f: Field)
    ensures EncodeField(f) == Err(ValueError) <==> |f.key| >= 0x100 || f.value.Unsupported?
    ensures EncodeField(f) == Err(OverflowError) <==>
      |f.key| < 0x100 && !f.value.Unsupported? && |f.value.Octets()| >= 0x1_0000
    ensures EncodeField(f).Err? ==> EncodeField(f).error in {ValueError, OverflowError}
  {}

  /** A type or a field count that does not fit one octet, before any field is looked at. */
  lemma HeadExits(m: ProtocolMessage)
    ensures |m.msgType| >= 0x100 || |m.payload| >= 0x100 ==> Encode(m) == Err(ValueError)
    ensures |m.msgType| < 0x100 && |m.payload| < 0x100 && Encode(m).Err? ==>
      EncodeFields(m.payload) == Err(Encode(m).error)
  {
    hide EncodeFields;
  }

  /** What `from_bytes` raises: IndexError where an octet is missing, ValueError where text is not UTF-8. */
  lemma ParseExits(data: bytes)
    ensures Parse(data).Err? ==> Parse(data).error in {IndexError, ValueError}
    ensures data == [] ==> Parse(data) == Err(IndexError)
    ensures data != [] && IsUtf8(Slice(data, 1, 1 + data[0] as nat)) && |data| <= 1 + data[0] as nat ==>
      Parse(data) == Err(IndexError)
    ensures data != [] && !IsUtf8(Slice(data, 1, 1 + data[0] as nat)) ==> Parse(data) == Err(ValueError)
    ensures forall off: nat :: ReadField(data, off) == Err(IndexError) <==> |data| <= off
    ensures forall off: nat :: ReadField(data, off) == Err(ValueError) <==>
      off < |data| && !IsUtf8(Slice(data, off + 1, off + 1 + data[off]))
  {
    hide IsUtf8, Slice, ReadFields, BigEndianValue;
    if data != [] && 1 + data[0] as nat < |data| {
      WalkExits(data, 2 + data[0] as nat, data[1 + data[0] as nat]);
    }
  }

  lemma {:induction false} WalkExits(data: bytes, off: nat, num: nat)
    ensures ReadFields(data, off, num).Err? ==> ReadFields(data, off, num).error in {IndexError, ValueError}
  {
    hide IsUtf8, Slice, BigEndianValue, DictPut;
    if num > 0 {
      WalkExits(data, off, num - 1);
    }
  }
}
