/**
 * What load_next_event and load make of the records dump and the encoders
 * write: each field reads back as it was written, a record reads back as
 * the event that wrote it (given the catalog's prototype for its id), and
 * a file of records reads back as the list of events, in order.
 */
module RoundTrip {
  import opened Wrappers
  import opened IntBytes
  import opened PyObjects
  import opened EventTypes
  import opened Codec
  import opened Events
  import opened Loader
  import Utf8

  /** The bytes bs occur in data at position pos. */
  predicate At(data: seq<byte>, pos: nat, bs: seq<byte>)
  {
    pos + |bs| <= |data| && data[pos..pos + |bs|] == bs
  }

  lemma {:induction false} AtSplit(data: seq<byte>, pos: nat, a: seq<byte>, b: seq<byte>)
    requires At(data, pos, a + b)
    ensures At(data, pos, a) && At(data, pos + |a|, b)
  {
    assert data[pos..pos + |a|] == (a + b)[..|a|];
    assert data[pos + |a|..pos + |a| + |b|] == (a + b)[|a|..];
  }

  /** bs is a variable-length integer holding x: a byte count, then x in that many big-endian bytes. */
  predicate IsVarint(bs: seq<byte>, x: int)
  {
    |bs| >= 1 && bs[0] as int == |bs| - 1 && FromBytes(bs[1..]) == x
  }

  /** bs is a length-prefixed field: payload's length in k big-endian bytes, then payload. */
  predicate IsLenField(bs: seq<byte>, k: nat, payload: seq<byte>)
  {
    |bs| == k + |payload| && FromBytes(bs[..k]) == |payload| && bs[k..] == payload
  }

  /** bs is a length-prefixed string field: the payload's length in k big-endian bytes, then a payload that decodes as UTF-8 to text. */
  predicate IsStrField(bs: seq<byte>, k: nat, text: string)
  {
    |bs| >= k && FromBytes(bs[..k]) == |bs| - k && Utf8.Decode(bs[k..]) == Some(text)
  }

  lemma {:induction false} EncodeEventIsVarint(x: int)
    requires EncodeEvent(x).Ok?
    ensures IsVarint(EncodeEvent(x).value, x)
  {
    EncodeEventDigits(x);
  }

  lemma {:induction false} ValueFieldIsLenField(value: seq<byte>)
    requires ValueField(value).Ok?
    ensures IsLenField(ValueField(value).value, 4, value)
  {
    ValueFieldLayout(value);
  }

  /** For an ASCII name the type field's prefix is the length of the encoded name. */
  lemma {:induction false} TypeFieldIsLenField(typeName: string)
    requires TypeField(typeName).Ok? && Utf8.IsAscii(typeName)
    ensures IsLenField(TypeField(typeName).value, 2, Utf8.Encode(typeName))
  {
    TypeFieldLayout(typeName);
    Utf8.EncodeLengthAscii(typeName);
  }

  /** The type field of an ASCII name is a string field that decodes to the name. */
  lemma {:induction false} TypeFieldIsStrField(typeName: string)
    requires TypeField(typeName).Ok? && Utf8.IsAscii(typeName)
    ensures IsStrField(TypeField(typeName).value, 2, typeName)
  {
    TypeFieldIsLenField(typeName);
    Utf8.DecodeEncode(typeName);
  }

  /** The prefix of a length-prefixed field reads back with read_int(stream, k) as the payload's length. */
  lemma {:induction false} PrefixAt(data: seq<byte>, pos: nat, r: seq<byte>, k: nat, payload: seq<byte>)
    requires At(data, pos, r) && IsLenField(r, k, payload)
    ensures ReadIntAt(data, pos, k) == (|payload|, pos + k)
  {
    assert data[pos..pos + k] == r[..k];
  }

  /** A length-prefixed field reads back with read_len_bytes(stream, k). */
  lemma {:induction false} FieldAt(data: seq<byte>, pos: nat, r: seq<byte>, k: nat, payload: seq<byte>)
    requires At(data, pos, r) && IsLenField(r, k, payload)
    ensures ReadLenBytesAt(data, pos, k) == (payload, pos + |r|)
  {
    PrefixAt(data, pos, r, k, payload);
    assert data[pos + k..pos + |r|] == r[k..];
  }

  /** A length-prefixed field reads back as an integer with read_len_int(stream, k). */
  lemma {:induction false} IntFieldAt(data: seq<byte>, pos: nat, r: seq<byte>, k: nat, payload: seq<byte>)
    requires At(data, pos, r) && IsLenField(r, k, payload)
    ensures ReadLenIntAt(data, pos, k) == (FromBytes(payload), pos + |r|)
  {
    PrefixAt(data, pos, r, k, payload);
    assert data[pos + k..pos + |r|] == r[k..];
  }

  lemma {:induction false} FromOneByte(b: byte)
    ensures FromBytes([b]) == b
  {
    assert [b][..0] == [];
  }

  /** A variable-length integer reads back with read_len_int(stream, 1). */
  lemma {:induction false} VarintAt(data: seq<byte>, pos: nat, r: seq<byte>, x: int)
    requires IsVarint(r, x) && At(data, pos, r)
    ensures ReadLenIntAt(data, pos, 1) == (x, pos + |r|)
  {
    assert r[..1] == [r[0]];
    FromOneByte(r[0]);
    IntFieldAt(data, pos, r, 1, r[1..]);
  }

  /** The type field reads back with read_len_str(stream, 2) when the name is ASCII. */
  lemma {:induction false} TypeFieldAt(data: seq<byte>, pos: nat, typeName: string)
    requires TypeField(typeName).Ok? && Utf8.IsAscii(typeName) && At(data, pos, TypeField(typeName).value)
    ensures ReadLenStrAt(data, pos, 2) == Ok((typeName, pos + |TypeField(typeName).value|))
  {
    Utf8.DecodeEncode(typeName);
    TypeFieldIsLenField(typeName);
    FieldAt(data, pos, TypeField(typeName).value, 2, Utf8.Encode(typeName));
  }

  /**
   * The type field of a name with a non-ASCII character does not read back:
   * its prefix counts characters, so the reader stops before the last bytes
   * of the name.
   */
  lemma {:induction false} TypeFieldMisread(data: seq<byte>, pos: nat, typeName: string)
    requires TypeField(typeName).Ok? && !Utf8.IsAscii(typeName) && At(data, pos, TypeField(typeName).value)
    ensures ReadLenStrAt(data, pos, 2).Ok? ==> ReadLenStrAt(data, pos, 2).value.1 < pos + |TypeField(typeName).value|
  {
    var r := TypeField(typeName).value;
    TypeFieldLayout(typeName);
    Utf8.EncodeLengthAscii(typeName);
    assert data[pos..pos + 2] == r[..2];
  }

  /** The record header: the id reads back; an id the table lacks raises KeyError, any other leads to its kind's fields. */
  lemma {:induction false} ParseHeader(rt: Runtime, table: map<int, Event>, data: seq<byte>, pos: nat, h: seq<byte>, id: int)
    requires IsVarint(h, id) && At(data, pos, h)
    ensures id !in table ==> ParseNext(rt, table, data, pos) == Err(KeyError)
    ensures id in table ==> ParseNext(rt, table, data, pos) == ParseBody(rt, table[id], data, pos + |h|)
  {
    assert data[pos..pos + 1] == h[..1] == [h[0]];
    FromOneByte(h[0]);
    assert data[pos + 1..pos + |h|] == h[1..];
    assert ReadAt(data, pos, 1) == ([h[0]], pos + 1);
    assert ReadIntAt(data, pos + 1, h[0] as nat) == (id, pos + |h|);
  }

  /** An id the table lacks makes load_next_event raise KeyError. */
  lemma {:induction false} UnknownIdRaisesKeyError(rt: Runtime, table: map<int, Event>, data: seq<byte>, pos: nat, id: int)
    requires EncodeEvent(id).Ok? && At(data, pos, EncodeEvent(id).value) && id !in table
    ensures ParseNext(rt, table, data, pos) == Err(KeyError)
  {
    EncodeEventIsVarint(id);
    ParseHeader(rt, table, data, pos, EncodeEvent(id).value, id);
  }

  /** A condition record's last byte: any nonzero byte reads as True; a record cut off before it reads as False. */
  lemma {:induction false} ConditionByte(rt: Runtime, proto: Event, data: seq<byte>, pos: nat)
    requires proto.ConditionEvent? && pos <= |data|
    ensures ParseBody(rt, proto, data, pos)
      == Ok((Instantiate(proto, ConditionPayload(pos < |data| && data[pos] != 0)), if pos < |data| then pos + 1 else pos))
  {
    assert Layout(Kind(proto)) == [Int1];
    ReadFieldsUnroll([Int1], data, pos);
    if pos < |data| {
      assert data[pos..pos + 1] == [data[pos]];
      FromOneByte(data[pos]);
    }
  }

  /** When pickle.loads rejects the text of None, True or False, the fallback still restores that value. */
  lemma {:induction false} FallbackRestoresConstants(rt: Runtime, v: Value)
    requires v.NoneValue? || v.BoolValue?
    requires rt.loads(ValueBytes(rt, v)).None?
    ensures InterpretValue(rt, ValueBytes(rt, v)) == Ok(v)
  {
    Utf8.DecodeEncode(Str(rt, v));
  }

  /**
   * The text fallback loses every other object: when pickle.loads rejects
   * str(value) and that text is neither "True" nor "False", the value reads
   * back as None.
   */
  lemma {:induction false} FallbackDropsObjects(rt: Runtime, v: Value)
    requires v.ObjectValue? && rt.loads(ValueBytes(rt, v)).None?
    requires Str(rt, v) != "True" && Str(rt, v) != "False"
    ensures InterpretValue(rt, ValueBytes(rt, v)) == Ok(NoneValue)
  {
    Utf8.DecodeEncode(Str(rt, v));
  }

  /** A value field written with pickle.dumps reads back as the pickled value when pickle.loads inverts pickle.dumps. */
  lemma {:induction false} PickledValueReadsBack(rt: Runtime, v: Value)
    requires Pickle(rt, v).Ok? && rt.loads(Pickle(rt, v).value) == Some(v)
    ensures InterpretValue(rt, ValueBytes(rt, BytesValue(Pickle(rt, v).value))) == Ok(v)
  {
  }

  /** bs is how the encoders lay out field x, in the shape a reader using format f expects. */
  predicate Written(f: Format, x: Field, bs: seq<byte>)
  {
    match f
    case LenInt1 => x.IntField? && IsVarint(bs, x.n)
    case LenBytes4 => x.BytesField? && IsLenField(bs, 4, x.bytes)
    case LenStr2 => x.StrField? && IsStrField(bs, 2, x.text)
    case Int1 => x.IntField? && 0 <= x.n < 256 && bs == [x.n as byte]
  }

  /** Each field reads back as written, and the read ends where the field does. */
  lemma {:induction false} ReadFieldWritten(f: Format, x: Field, bs: seq<byte>, data: seq<byte>, pos: nat)
    requires Written(f, x, bs) && At(data, pos, bs)
    ensures ReadField(f, data, pos) == Ok((x, pos + |bs|))
  {
    match f
    case LenInt1 => VarintAt(data, pos, bs, x.n);
    case LenBytes4 => FieldAt(data, pos, bs, 4, x.bytes);
    case LenStr2 => FieldAt(data, pos, bs, 2, bs[2..]);
    case Int1 =>
      assert data[pos..pos + 1] == bs;
      FromOneByte(bs[0]);
  }

  /** The chunks one after another. */
  function Concat(chunks: seq<seq<byte>>): (r: seq<byte>)
  {
    if chunks == [] then [] else chunks[0] + Concat(chunks[1..])
  }

  lemma {:induction false} ConcatOne(a: seq<byte>)
    ensures Concat([a]) == a
  {
    assert [a][1..] == [];
    assert Concat([a]) == a + Concat([]);
  }

  lemma {:induction false} ConcatTwo(a: seq<byte>, b: seq<byte>)
    ensures Concat([a, b]) == a + b
  {
    assert [a, b][1..] == [b];
    ConcatOne(b);
    assert Concat([a, b]) == a + Concat([b]);
  }

  lemma {:induction false} ConcatThree(a: seq<byte>, b: seq<byte>, c: seq<byte>)
    ensures Concat([a, b, c]) == a + b + c
  {
    assert [a, b, c][1..] == [b, c];
    ConcatTwo(b, c);
    assert Concat([a, b, c]) == a + Concat([b, c]);
  }

  /** Each field of xs is written, in its format in fs, as the chunk at the same index. */
  predicate AllWritten(fs: seq<Format>, xs: seq<Field>, chunks: seq<seq<byte>>)
    decreases |fs|
  {
    |fs| == |xs| == |chunks|
    && (fs != [] ==> Written(fs[0], xs[0], chunks[0]) && AllWritten(fs[1..], xs[1..], chunks[1..]))
  }

  /** A field, then the fields after it: the run of fields starting with it. */
  lemma {:induction false} ReadFieldsCons(fs: seq<Format>, data: seq<byte>, pos: nat, xs: seq<Field>, mid: nat, end: nat)
    requires fs != [] && xs != [] && pos <= |data| && mid <= |data|
    requires ReadField(fs[0], data, pos) == Ok((xs[0], mid)) && ReadFields(fs[1..], data, mid) == Ok((xs[1..], end))
    ensures ReadFields(fs, data, pos) == Ok((xs, end))
  {
    assert xs == [xs[0]] + xs[1..];
  }

  /** The chunks lie one after another in data from pos, the last ending at end. */
  predicate Laid(data: seq<byte>, pos: nat, chunks: seq<seq<byte>>, end: nat)
    decreases |chunks|
  {
    if chunks == [] then pos == end <= |data|
    else At(data, pos, chunks[0]) && Laid(data, pos + |chunks[0]|, chunks[1..], end)
  }

  /** The concatenated chunks at pos are the chunks laid one after another. */
  lemma {:induction false} ConcatLaid(data: seq<byte>, pos: nat, chunks: seq<seq<byte>>, end: nat)
    requires At(data, pos, Concat(chunks)) && end == pos + |Concat(chunks)|
    ensures Laid(data, pos, chunks, end)
    decreases |chunks|
  {
    if chunks != [] {
      assert Concat(chunks) == chunks[0] + Concat(chunks[1..]);
      AtSplit(data, pos, chunks[0], Concat(chunks[1..]));
      ConcatLaid(data, pos + |chunks[0]|, chunks[1..], end);
    }
  }

  /** A run of fields written one after another reads back as those fields, ending after the last. */
  lemma {:induction false} ReadFieldsWritten(fs: seq<Format>, xs: seq<Field>, chunks: seq<seq<byte>>, data: seq<byte>, pos: nat, end: nat)
    requires AllWritten(fs, xs, chunks) && Laid(data, pos, chunks, end)
    ensures ReadFields(fs, data, pos) == Ok((xs, end))
    decreases |fs|
  {
    if fs == [] {
      assert chunks == [] && xs == [];
    } else {
      var mid := pos + |chunks[0]|;
      ReadFieldWritten(fs[0], xs[0], chunks[0], data, pos);
      ReadFieldsWritten(fs[1..], xs[1..], chunks[1..], data, mid, end);
      ReadFieldsCons(fs, data, pos, xs, mid, end);
    }
  }

  /** The dynamic fields dump needs are set: var_id for def, use and len, the type name for def and function exit, the length for len. */
  predicate Assigned(e: Event)
  {
    match e
    case DefEvent(_, _, _, _, varId, _, typeName) => varId.Some? && typeName.Some?
    case FunctionExitEvent(_, _, _, _, _, _, _, typeName) => typeName.Some?
    case UseEvent(_, _, _, _, varId) => varId.Some?
    case LenEvent(_, _, _, _, varId, length) => varId.Some? && length.Some?
    case _ => true
  }

  /**
   * The loader can turn e's fields back into a payload: the dynamic fields
   * are set, and for def and function-exit records the type name is ASCII
   * and the value field is one the loader can turn back into a value.
   */
  predicate Readable(rt: Runtime, e: Event)
  {
    Assigned(e) &&
    match e
    case DefEvent(_, _, _, _, _, value, typeName) =>
      Utf8.IsAscii(typeName.value) && InterpretValue(rt, ValueBytes(rt, value)).Ok?
    case FunctionExitEvent(_, _, _, _, _, _, value, typeName) =>
      Utf8.IsAscii(typeName.value) && InterpretValue(rt, ValueBytes(rt, value)).Ok?
    case _ => true
  }

  /** The record of e can be written and read back. */
  predicate Reloadable(rt: Runtime, e: Event)
  {
    Dump(rt, e).Ok? && Readable(rt, e)
  }

  /** The payload the loader recovers from e's record. */
  function Reread(rt: Runtime, e: Event): Payload
    requires Readable(rt, e)
  {
    match e
    case DefEvent(_, _, _, _, varId, value, typeName) =>
      DefPayload(varId.value, InterpretValue(rt, ValueBytes(rt, value)).value, typeName.value)
    case FunctionExitEvent(_, _, _, _, _, _, value, typeName) =>
      ExitPayload(InterpretValue(rt, ValueBytes(rt, value)).value, typeName.value)
    case ConditionEvent(_, _, _, _, _, outcome) => ConditionPayload(outcome == Some(true))
    case UseEvent(_, _, _, _, varId) => UsePayload(varId.value)
    case LenEvent(_, _, _, _, varId, length) => LenPayload(varId.value, length.value)
    case _ => NoPayload
  }

  /** The fields dump writes after the id, as the loader reads them back. */
  function Fields(rt: Runtime, e: Event): seq<Field>
    requires Assigned(e)
  {
    match e
    case DefEvent(_, _, _, _, varId, value, typeName) =>
      [IntField(varId.value), BytesField(ValueBytes(rt, value)), StrField(typeName.value)]
    case FunctionExitEvent(_, _, _, _, _, _, value, typeName) =>
      [BytesField(ValueBytes(rt, value)), StrField(typeName.value)]
    case ConditionEvent(_, _, _, _, _, outcome) => [IntField(if outcome == Some(true) then 1 else 0)]
    case UseEvent(_, _, _, _, varId) => [IntField(varId.value)]
    case LenEvent(_, _, _, _, varId, length) => [IntField(varId.value), IntField(length.value)]
    case _ => []
  }

  /** The fields of a reloadable event's record give back the payload Reread describes. */
  lemma {:induction false} FieldsPayload(rt: Runtime, e: Event)
    requires Readable(rt, e)
    ensures AllMatch(Layout(Kind(e)), Fields(rt, e))
    ensures ToPayload(rt, Kind(e), Fields(rt, e)) == Ok(Reread(rt, e))
  {
  }

  lemma {:induction false} AllWrittenOne(f: Format, x: Field, c: seq<byte>)
    requires Written(f, x, c)
    ensures AllWritten([f], [x], [c])
  {
    assert AllWritten([f][1..], [x][1..], [c][1..]);
  }

  lemma {:induction false} AllWrittenCons(f: Format, x: Field, c: seq<byte>, fs: seq<Format>, xs: seq<Field>, cs: seq<seq<byte>>)
    requires Written(f, x, c) && AllWritten(fs, xs, cs)
    ensures AllWritten([f] + fs, [x] + xs, [c] + cs)
  {
    assert ([f] + fs)[1..] == fs && ([x] + xs)[1..] == xs && ([c] + cs)[1..] == cs;
  }

  lemma {:induction false} DumpDef(rt: Runtime, e: Event)
    requires e.DefEvent? && e.varId.Some? && e.typeName.Some?
    ensures Dump(rt, e) == EncodeDefEvent(rt, e.eventId, e.varId.value, e.value, e.typeName.value)
  {
  }

  lemma {:induction false} DumpExit(rt: Runtime, e: Event)
    requires e.FunctionExitEvent? && e.typeName.Some?
    ensures Dump(rt, e) == EncodeFunctionExitEvent(rt, e.eventId, e.returnValue, e.typeName.value)
  {
  }

  lemma {:induction false} DumpCondition(rt: Runtime, e: Event)
    requires e.ConditionEvent?
    ensures Dump(rt, e) == EncodeConditionEvent(e.eventId, e.outcome == Some(true))
  {
  }

  lemma {:induction false} DumpUse(rt: Runtime, e: Event)
    requires e.UseEvent? && e.varId.Some?
    ensures Dump(rt, e) == EncodeUseEvent(e.eventId, e.varId.value)
  {
  }

  lemma {:induction false} DumpLen(rt: Runtime, e: Event)
    requires e.LenEvent? && e.varId.Some? && e.length.Some?
    ensures Dump(rt, e) == EncodeLenEvent(e.eventId, e.varId.value, e.length.value)
  {
  }

  lemma {:induction false} DumpPlain(rt: Runtime, e: Event)
    requires Layout(Kind(e)) == []
    ensures Dump(rt, e) == EncodeEvent(e.eventId)
  {
  }

  /** A def record: the id, then var_id, the value field and the type field, each written as the loader reads it. */
  lemma {:induction false} DefRecord(rt: Runtime, i: int, varId: int, value: Value, typeName: string)
    requires EncodeDefEvent(rt, i, varId, value, typeName).Ok? && Utf8.IsAscii(typeName)
    ensures var bs := ValueBytes(rt, value);
      var chunks := [EncodeEvent(varId).value, ValueField(bs).value, TypeField(typeName).value];
      EncodeDefEvent(rt, i, varId, value, typeName).value == EncodeEvent(i).value + Concat(chunks)
      && AllWritten([LenInt1, LenBytes4, LenStr2], [IntField(varId), BytesField(bs), StrField(typeName)], chunks)
  {
    var bs := ValueBytes(rt, value);
    var a, b, c := EncodeEvent(varId).value, ValueField(bs).value, TypeField(typeName).value;
    ConcatThree(a, b, c);
    EncodeEventIsVarint(varId);
    ValueFieldIsLenField(bs);
    TypeFieldIsStrField(typeName);
    AllWrittenOne(LenStr2, StrField(typeName), c);
    AllWrittenCons(LenBytes4, BytesField(bs), b, [LenStr2], [StrField(typeName)], [c]);
    AllWrittenCons(LenInt1, IntField(varId), a, [LenBytes4, LenStr2], [BytesField(bs), StrField(typeName)], [b, c]);
  }

  /** A function-exit record: the id, then the value field and the type field. */
  lemma {:induction false} ExitRecord(rt: Runtime, i: int, value: Value, typeName: string)
    requires EncodeFunctionExitEvent(rt, i, value, typeName).Ok? && Utf8.IsAscii(typeName)
    ensures var bs := ValueBytes(rt, value);
      var chunks := [ValueField(bs).value, TypeField(typeName).value];
      EncodeFunctionExitEvent(rt, i, value, typeName).value == EncodeEvent(i).value + Concat(chunks)
      && AllWritten([LenBytes4, LenStr2], [BytesField(bs), StrField(typeName)], chunks)
  {
    var bs := ValueBytes(rt, value);
    var b, c := ValueField(bs).value, TypeField(typeName).value;
    ConcatTwo(b, c);
    ValueFieldIsLenField(bs);
    TypeFieldIsStrField(typeName);
    AllWrittenOne(LenStr2, StrField(typeName), c);
    AllWrittenCons(LenBytes4, BytesField(bs), b, [LenStr2], [StrField(typeName)], [c]);
  }

  /** A condition record: the id, then one byte, 1 for True and 0 for False. */
  lemma {:induction false} ConditionRecord(i: int, value: bool)
    requires EncodeConditionEvent(i, value).Ok?
    ensures var flag: byte := if value then 1 else 0;
      EncodeConditionEvent(i, value).value == EncodeEvent(i).value + Concat([[flag]])
      && AllWritten([Int1], [IntField(flag as int)], [[flag]])
  {
    var flag: byte := if value then 1 else 0;
    ConcatOne([flag]);
    AllWrittenOne(Int1, IntField(flag as int), [flag]);
  }

  /** A use record: the id, then var_id. */
  lemma {:induction false} UseRecord(i: int, varId: int)
    requires EncodeUseEvent(i, varId).Ok?
    ensures EncodeUseEvent(i, varId).value == EncodeEvent(i).value + Concat([EncodeEvent(varId).value])
    ensures AllWritten([LenInt1], [IntField(varId)], [EncodeEvent(varId).value])
  {
    var a := EncodeEvent(varId).value;
    ConcatOne(a);
    EncodeEventIsVarint(varId);
    AllWrittenOne(LenInt1, IntField(varId), a);
  }

  /** A len record: the id, then var_id, then the length. */
  lemma {:induction false} LenRecord(i: int, varId: int, length: int)
    requires EncodeLenEvent(i, varId, length).Ok?
    ensures var chunks := [EncodeEvent(varId).value, EncodeEvent(length).value];
      EncodeLenEvent(i, varId, length).value == EncodeEvent(i).value + Concat(chunks)
      && AllWritten([LenInt1, LenInt1], [IntField(varId), IntField(length)], chunks)
  {
    EncodeEventIsVarint(varId);
    EncodeEventIsVarint(length);
    TwoIntsWritten(EncodeEvent(i).value, EncodeEvent(varId).value, EncodeEvent(length).value, varId, length);
  }

  /** Two variable-length integers after a header: the chunks and fields of a len record. */
  lemma {:induction false} TwoIntsWritten(h: seq<byte>, a: seq<byte>, b: seq<byte>, m: int, n: int)
    requires IsVarint(a, m) && IsVarint(b, n)
    ensures h + a + b == h + Concat([a, b])
    ensures AllWritten([LenInt1, LenInt1], [IntField(m), IntField(n)], [a, b])
  {
    ConcatTwo(a, b);
    assert h + a + b == h + (a + b);
    AllWrittenOne(LenInt1, IntField(n), b);
    AllWrittenCons(LenInt1, IntField(m), a, [LenInt1], [IntField(n)], [b]);
  }

  /** The layout and fields of each kind with a payload. */
  lemma {:induction false} DefShape(rt: Runtime, e: Event)
    requires e.DefEvent? && Assigned(e)
    ensures Layout(Kind(e)) == [LenInt1, LenBytes4, LenStr2]
    ensures Fields(rt, e) == [IntField(e.varId.value), BytesField(ValueBytes(rt, e.value)), StrField(e.typeName.value)]
  {
  }

  lemma {:induction false} ExitShape(rt: Runtime, e: Event)
    requires e.FunctionExitEvent? && Assigned(e)
    ensures Layout(Kind(e)) == [LenBytes4, LenStr2]
    ensures Fields(rt, e) == [BytesField(ValueBytes(rt, e.returnValue)), StrField(e.typeName.value)]
  {
  }

  lemma {:induction false} ConditionShape(rt: Runtime, e: Event)
    requires e.ConditionEvent?
    ensures Layout(Kind(e)) == [Int1]
    ensures Fields(rt, e) == [IntField(if e.outcome == Some(true) then 1 else 0)]
  {
  }

  lemma {:induction false} UseShape(rt: Runtime, e: Event)
    requires e.UseEvent? && Assigned(e)
    ensures Layout(Kind(e)) == [LenInt1]
    ensures Fields(rt, e) == [IntField(e.varId.value)]
  {
  }

  lemma {:induction false} LenShape(rt: Runtime, e: Event)
    requires e.LenEvent? && Assigned(e)
    ensures Layout(Kind(e)) == [LenInt1, LenInt1]
    ensures Fields(rt, e) == [IntField(e.varId.value), IntField(e.length.value)]
  {
  }

  /** The chunks of a dumped def record. */
  lemma {:induction false} DumpChunksDef(rt: Runtime, e: Event) returns (chunks: seq<seq<byte>>)
    requires e.DefEvent? && Reloadable(rt, e)
    ensures EncodeEvent(e.eventId).Ok?
    ensures Dump(rt, e).value == EncodeEvent(e.eventId).value + Concat(chunks)
    ensures AllWritten(Layout(Kind(e)), Fields(rt, e), chunks)
  {
    DumpDef(rt, e);
    DefRecord(rt, e.eventId, e.varId.value, e.value, e.typeName.value);
    chunks := [EncodeEvent(e.varId.value).value, ValueField(ValueBytes(rt, e.value)).value, TypeField(e.typeName.value).value];
    DefShape(rt, e);
  }

  /** The chunks of a dumped function-exit record. */
  lemma {:induction false} DumpChunksExit(rt: Runtime, e: Event) returns (chunks: seq<seq<byte>>)
    requires e.FunctionExitEvent? && Reloadable(rt, e)
    ensures EncodeEvent(e.eventId).Ok?
    ensures Dump(rt, e).value == EncodeEvent(e.eventId).value + Concat(chunks)
    ensures AllWritten(Layout(Kind(e)), Fields(rt, e), chunks)
  {
    DumpExit(rt, e);
    ExitRecord(rt, e.eventId, e.returnValue, e.typeName.value);
    chunks := [ValueField(ValueBytes(rt, e.returnValue)).value, TypeField(e.typeName.value).value];
    ExitShape(rt, e);
  }

  /** The chunk of a dumped condition record. */
  lemma {:induction false} DumpChunksCondition(rt: Runtime, e: Event) returns (chunks: seq<seq<byte>>)
    requires e.ConditionEvent? && Reloadable(rt, e)
    ensures EncodeEvent(e.eventId).Ok?
    ensures Dump(rt, e).value == EncodeEvent(e.eventId).value + Concat(chunks)
    ensures AllWritten(Layout(Kind(e)), Fields(rt, e), chunks)
  {
    DumpCondition(rt, e);
    ConditionRecord(e.eventId, e.outcome == Some(true));
    chunks := [[if e.outcome == Some(true) then 1 else 0]];
    ConditionShape(rt, e);
  }

  /** The chunk of a dumped use record. */
  lemma {:induction false} DumpChunksUse(rt: Runtime, e: Event) returns (chunks: seq<seq<byte>>)
    requires e.UseEvent? && Reloadable(rt, e)
    ensures EncodeEvent(e.eventId).Ok?
    ensures Dump(rt, e).value == EncodeEvent(e.eventId).value + Concat(chunks)
    ensures AllWritten(Layout(Kind(e)), Fields(rt, e), chunks)
  {
    DumpUse(rt, e);
    UseRecord(e.eventId, e.varId.value);
    chunks := [EncodeEvent(e.varId.value).value];
    UseShape(rt, e);
  }

  /** The chunks of a dumped len record. */
  lemma {:induction false} DumpChunksLen(rt: Runtime, e: Event) returns (chunks: seq<seq<byte>>)
    requires e.LenEvent? && Reloadable(rt, e)
    ensures EncodeEvent(e.eventId).Ok?
    ensures Dump(rt, e).value == EncodeEvent(e.eventId).value + Concat(chunks)
    ensures AllWritten(Layout(Kind(e)), Fields(rt, e), chunks)
  {
    DumpLen(rt, e);
    LenRecord(e.eventId, e.varId.value, e.length.value);
    chunks := [EncodeEvent(e.varId.value).value, EncodeEvent(e.length.value).value];
    LenShape(rt, e);
  }

  /** Every dumped record is its id followed by the chunks of its dynamic fields, each written as the loader reads it. */
  lemma {:induction false} DumpChunks(rt: Runtime, e: Event) returns (chunks: seq<seq<byte>>)
    requires Reloadable(rt, e)
    ensures EncodeEvent(e.eventId).Ok?
    ensures Dump(rt, e).value == EncodeEvent(e.eventId).value + Concat(chunks)
    ensures AllWritten(Layout(Kind(e)), Fields(rt, e), chunks)
  {
    match e
    case DefEvent(_, _, _, _, _, _, _) => chunks := DumpChunksDef(rt, e);
    case FunctionExitEvent(_, _, _, _, _, _, _, _) => chunks := DumpChunksExit(rt, e);
    case ConditionEvent(_, _, _, _, _, _) => chunks := DumpChunksCondition(rt, e);
    case UseEvent(_, _, _, _, _) => chunks := DumpChunksUse(rt, e);
    case LenEvent(_, _, _, _, _, _) => chunks := DumpChunksLen(rt, e);
    case _ =>
      DumpPlain(rt, e);
      chunks := [];
      assert Dump(rt, e).value == EncodeEvent(e.eventId).value + [];
  }

  /** Once the fields of proto's kind read back as xs carrying payload p, the record decodes to proto instantiated with p. */
  lemma {:induction false} BodyReads(rt: Runtime, proto: Event, data: seq<byte>, pos: nat, xs: seq<Field>, end: nat, p: Payload)
    requires pos <= |data| && ReadFields(Layout(Kind(proto)), data, pos) == Ok((xs, end))
    requires AllMatch(Layout(Kind(proto)), xs) && ToPayload(rt, Kind(proto), xs) == Ok(p)
    ensures ParseBody(rt, proto, data, pos) == Ok((Instantiate(proto, p), end))
  {
  }

  /** A record that is a header followed by chunks, in place: the header in place, then the chunks laid out up to the record's end. */
  lemma {:induction false} RecordLaid(data: seq<byte>, pos: nat, rec: seq<byte>, h: seq<byte>, chunks: seq<seq<byte>>, end: nat)
    requires rec == h + Concat(chunks) && At(data, pos, rec) && end == pos + |rec|
    ensures At(data, pos, h) && Laid(data, pos + |h|, chunks, end)
  {
    AtSplit(data, pos, h, Concat(chunks));
    ConcatLaid(data, pos + |h|, chunks, end);
  }

  /**
   * A record laid out as an id the table knows, then the fields of the
   * prototype's kind carrying payload p: load_next_event gives the prototype
   * instantiated with p, and stops where the last field ends.
   */
  lemma {:induction false} ParseLaid(rt: Runtime, table: map<int, Event>, id: int, h: seq<byte>, xs: seq<Field>,
                                     chunks: seq<seq<byte>>, data: seq<byte>, pos: nat, end: nat, p: Payload)
    requires IsVarint(h, id) && At(data, pos, h) && id in table
    requires AllWritten(Layout(Kind(table[id])), xs, chunks) && Laid(data, pos + |h|, chunks, end)
    requires AllMatch(Layout(Kind(table[id])), xs) && ToPayload(rt, Kind(table[id]), xs) == Ok(p)
    ensures ParseNext(rt, table, data, pos) == Ok((Instantiate(table[id], p), end))
  {
    assert ParseBody(rt, table[id], data, pos + |h|) == Ok((Instantiate(table[id], p), end)) by {
      BodyLaid(rt, table[id], xs, chunks, data, pos + |h|, end, p);
    }
    ParseHeader(rt, table, data, pos, h, id);
  }

  /** The fields of the prototype's kind laid out from pos: the body parses as the prototype carrying their payload. */
  lemma {:induction false} BodyLaid(rt: Runtime, proto: Event, xs: seq<Field>, chunks: seq<seq<byte>>, data: seq<byte>,
                                    pos: nat, end: nat, p: Payload)
    requires AllWritten(Layout(Kind(proto)), xs, chunks) && Laid(data, pos, chunks, end)
    requires AllMatch(Layout(Kind(proto)), xs) && ToPayload(rt, Kind(proto), xs) == Ok(p)
    ensures pos <= |data| && ParseBody(rt, proto, data, pos) == Ok((Instantiate(proto, p), end))
  {
    ReadFieldsWritten(Layout(Kind(proto)), xs, chunks, data, pos, end);
    BodyReads(rt, proto, data, pos, xs, end, p);
  }

  /**
   * A record in place that is an id the table knows followed by the fields
   * of the prototype's kind, carrying payload p: load_next_event gives the
   * prototype instantiated with p, and stops at the record's end.
   */
  lemma {:induction false} ParseRecord(rt: Runtime, table: map<int, Event>, id: int, rec: seq<byte>, h: seq<byte>, xs: seq<Field>,
                                       chunks: seq<seq<byte>>, data: seq<byte>, pos: nat, p: Payload)
    requires rec == h + Concat(chunks) && At(data, pos, rec) && IsVarint(h, id) && id in table
    requires AllWritten(Layout(Kind(table[id])), xs, chunks)
    requires AllMatch(Layout(Kind(table[id])), xs) && ToPayload(rt, Kind(table[id]), xs) == Ok(p)
    ensures ParseNext(rt, table, data, pos) == Ok((Instantiate(table[id], p), pos + |rec|))
  {
    RecordLaid(data, pos, rec, h, chunks, pos + |rec|);
    ParseLaid(rt, table, id, h, xs, chunks, data, pos, pos + |rec|, p);
  }

  /**
   * A record that is an id the table knows followed by the fields of the
   * prototype's kind, carrying a payload that instantiates the prototype
   * as e: wherever it lies, load_next_event there returns e.
   */
  lemma {:induction false} RecordRereads(rt: Runtime, table: map<int, Event>, data: seq<byte>, e: Event, rec: seq<byte>,
                                         h: seq<byte>, chunks: seq<seq<byte>>, xs: seq<Field>, p: Payload)
    requires rec == h + Concat(chunks) && IsVarint(h, e.eventId) && e.eventId in table
    requires AllWritten(Layout(Kind(table[e.eventId])), xs, chunks)
    requires AllMatch(Layout(Kind(table[e.eventId])), xs) && ToPayload(rt, Kind(table[e.eventId]), xs) == Ok(p)
    requires Instantiate(table[e.eventId], p) == e
    ensures Rereads(Parser(rt, table, data), data, e, rec)
  {
    forall pos: nat | At(data, pos, rec)
      ensures Parser(rt, table, data)(pos) == Ok((e, pos + |rec|))
    {
      ParseRecord(rt, table, e.eventId, rec, h, xs, chunks, data, pos, p);
    }
  }

  /**
   * A record that is an id the table knows followed by the fields of the
   * prototype's kind, carrying payload p: wherever it lies, load_next_event
   * there returns the prototype instantiated with p.
   */
  lemma {:induction false} WrittenRereads(rt: Runtime, table: map<int, Event>, data: seq<byte>, id: int, rec: seq<byte>,
                                          h: seq<byte>, chunks: seq<seq<byte>>, xs: seq<Field>, p: Payload)
    requires rec == h + Concat(chunks) && IsVarint(h, id) && id in table
    requires AllWritten(Layout(Kind(table[id])), xs, chunks)
    requires AllMatch(Layout(Kind(table[id])), xs) && ToPayload(rt, Kind(table[id]), xs) == Ok(p)
    ensures Fits(table[id], p)
    ensures Rereads(Parser(rt, table, data), data, Instantiate(table[id], p), rec)
  {
    forall pos: nat | At(data, pos, rec)
      ensures Parser(rt, table, data)(pos) == Ok((Instantiate(table[id], p), pos + |rec|))
    {
      ParseRecord(rt, table, id, rec, h, xs, chunks, data, pos, p);
    }
  }

  /** Every dynamic field is set, and the value field reads back as the value itself. */
  predicate Restorable(rt: Runtime, e: Event)
  {
    match e
    case DefEvent(_, _, _, _, varId, value, typeName) =>
      varId.Some? && typeName.Some? && InterpretValue(rt, ValueBytes(rt, value)) == Ok(value)
    case FunctionExitEvent(_, _, _, _, _, _, value, typeName) =>
      typeName.Some? && InterpretValue(rt, ValueBytes(rt, value)) == Ok(value)
    case ConditionEvent(_, _, _, _, _, outcome) => outcome.Some?
    case UseEvent(_, _, _, _, varId) => varId.Some?
    case LenEvent(_, _, _, _, varId, length) => varId.Some? && length.Some?
    case _ => true
  }

  /** An event that dumps, reads back, and whose every dynamic field survives the trip. */
  predicate Complete(rt: Runtime, e: Event)
  {
    Reloadable(rt, e) && Restorable(rt, e)
  }

  /**
   * The event load_next_event returns for e's record: e itself, except that
   * a def or function-exit value is what the loader makes of the bytes dump
   * wrote for it (pickle.loads of str(value), or the text fallback), and a
   * condition's outcome is its flag byte read back as a bool.
   */
  function Reloaded(rt: Runtime, e: Event): Event
  {
    match e
    case DefEvent(_, _, _, _, _, value, _) =>
      if InterpretValue(rt, ValueBytes(rt, value)).Ok? then e.(value := InterpretValue(rt, ValueBytes(rt, value)).value)
      else e
    case FunctionExitEvent(_, _, _, _, _, _, value, _) =>
      if InterpretValue(rt, ValueBytes(rt, value)).Ok? then e.(returnValue := InterpretValue(rt, ValueBytes(rt, value)).value)
      else e
    case ConditionEvent(_, _, _, _, _, outcome) => e.(outcome := Some(outcome == Some(true)))
    case _ => e
  }

  /**
   * The reloaded event is == e (same file, line, id and kind) with every
   * static field kept, and it is e itself when e's value survives the trip.
   */
  lemma {:induction false} ReloadedKeepsIdentity(rt: Runtime, e: Event)
    ensures Same(Reloaded(rt, e), e) && Strip(Reloaded(rt, e)) == Strip(e)
    ensures Restorable(rt, e) ==> Reloaded(rt, e) == e
  {
    match e
    case ConditionEvent(_, _, _, _, _, outcome) =>
      if outcome.Some? {
        var b := outcome.value;
        assert outcome == Some(b);
        assert b == (outcome == Some(true));
        assert Reloaded(rt, e) == e.(outcome := Some(b)) == e;
      }
    case _ =>
  }

  /** The payload e's record carries, put into e's prototype, gives the reloaded event. */
  lemma {:induction false} RereadReloads(rt: Runtime, proto: Event, e: Event)
    requires Readable(rt, e) && Strip(proto) == Strip(e)
    ensures Fits(proto, Reread(rt, e)) && Instantiate(proto, Reread(rt, e)) == Reloaded(rt, e)
  {
    assert Kind(proto) == Kind(Strip(proto)) == Kind(e);
    match e
    case DefEvent(_, _, _, _, _, _, _) =>
    case FunctionExitEvent(_, _, _, _, _, _, _, _) =>
    case ConditionEvent(_, _, _, _, _, _) =>
    case UseEvent(_, _, _, _, _) =>
    case LenEvent(_, _, _, _, _, _) =>
    case _ => assert Strip(e) == e;
  }

  /**
   * dump then load_next_event: an event whose record reads back, and whose
   * id the table maps to its prototype, reloads as an event == e, carrying
   * the reloaded value, with the cursor just past the record.
   */
  lemma {:induction false} ReloadSame(rt: Runtime, table: map<int, Event>, e: Event, data: seq<byte>, pos: nat)
    requires Reloadable(rt, e) && e.eventId in table && Strip(table[e.eventId]) == Strip(e)
    requires At(data, pos, Dump(rt, e).value)
    ensures ParseNext(rt, table, data, pos) == Ok((Reloaded(rt, e), pos + |Dump(rt, e).value|))
    ensures Same(ParseNext(rt, table, data, pos).value.0, e)
  {
    DumpRereads(rt, table, data, e);
    assert Parser(rt, table, data)(pos) == ParseNext(rt, table, data, pos);
    ReloadedKeepsIdentity(rt, e);
  }

  /** dump then load_next_event: a complete event whose id the table maps to its prototype reads back as itself. */
  lemma {:induction false} ReloadExact(rt: Runtime, table: map<int, Event>, e: Event, data: seq<byte>, pos: nat)
    requires Complete(rt, e) && e.eventId in table && Strip(table[e.eventId]) == Strip(e)
    requires At(data, pos, Dump(rt, e).value)
    ensures ParseNext(rt, table, data, pos) == Ok((e, pos + |Dump(rt, e).value|))
  {
    ReloadSame(rt, table, e, data, pos);
    ReloadedKeepsIdentity(rt, e);
  }

  /**
   * Dumping a def event whose value is an object writes str(value); when
   * pickle.loads rejects that text and it is neither "True" nor "False",
   * the event reloads == itself but with the value None, so it is not
   * complete.
   */
  lemma {:induction false} DefObjectReloadsAsNone(rt: Runtime, table: map<int, Event>, e: Event, data: seq<byte>, pos: nat)
    requires e.DefEvent? && e.value.ObjectValue? && e.varId.Some? && e.typeName.Some? && Utf8.IsAscii(e.typeName.value)
    requires rt.loads(ValueBytes(rt, e.value)).None? && Str(rt, e.value) != "True" && Str(rt, e.value) != "False"
    requires Dump(rt, e).Ok? && e.eventId in table && Strip(table[e.eventId]) == Strip(e)
    requires At(data, pos, Dump(rt, e).value)
    ensures !Complete(rt, e)
    ensures ParseNext(rt, table, data, pos) == Ok((e.(value := NoneValue), pos + |Dump(rt, e).value|))
  {
    FallbackDropsObjects(rt, e.value);
    ReloadSame(rt, table, e, data, pos);
  }

  /** A def event whose value is the object with the given handle, of type int. */
  function ObjectDef(file: string, line: int, id: int, name: string, varId: int, handle: nat): Event
  {
    DefEvent(file, line, id, name, Some(varId), ObjectValue(handle), Some("int"))
  }

  /** Such an event with one-byte ids dumps when str gives "42": its ids, its value text and its type name all fit. */
  lemma {:induction false} ObjectDefDumps(rt: Runtime, file: string, line: int, id: int, name: string, varId: int, handle: nat)
    requires rt.str(ObjectValue(handle)) == "42"
    requires 0 <= id < 256 && 0 <= varId < 256
    ensures Dump(rt, ObjectDef(file, line, id, name, varId, handle)).Ok?
  {
    Utf8.EncodeLengthAscii("42");
    assert Pow256(1) == 256;
    ByteLengthIsLeast(id, 1);
    ByteLengthIsLeast(varId, 1);
  }

  /**
   * An instance: x = <object whose str is "42", which pickle.loads rejects> dumps, is not Complete, and
   * reloads (ReloadSame: what load_event reads back) as x = None.
   */
  lemma {:induction false} DumpedObjectReloadsAsNone(rt: Runtime, file: string, line: int, id: int, name: string, varId: int, handle: nat)
    requires rt.str(ObjectValue(handle)) == "42" && rt.loads(Utf8.Encode("42")).None?
    requires 0 <= id < 256 && 0 <= varId < 256
    ensures Dump(rt, ObjectDef(file, line, id, name, varId, handle)).Ok?
    ensures !Complete(rt, ObjectDef(file, line, id, name, varId, handle))
    ensures Reloaded(rt, ObjectDef(file, line, id, name, varId, handle))
      == DefEvent(file, line, id, name, Some(varId), NoneValue, Some("int"))
  {
    ObjectDefDumps(rt, file, line, id, name, varId, handle);
    FallbackDropsObjects(rt, ObjectValue(handle));
  }

  /** An event load_event reads back: its record reads back, and its prototype is in the table. */
  predicate Accepted(rt: Runtime, table: map<int, Event>, e: Event)
  {
    Reloadable(rt, e) && e.eventId in table && Strip(table[e.eventId]) == Strip(e)
  }

  /** The events a file of their records reloads as, one for each. */
  function ReloadedAll(rt: Runtime, events: seq<Event>): (r: seq<Event>)
    ensures |r| == |events|
    decreases |events|
  {
    if events == [] then [] else [Reloaded(rt, events[0])] + ReloadedAll(rt, events[1..])
  }

  /** The events load_event accepts in a file, each in turn. */
  predicate Loadable(rt: Runtime, table: map<int, Event>, events: seq<Event>)
    decreases |events|
  {
    events == [] || (Accepted(rt, table, events[0]) && Loadable(rt, table, events[1..]))
  }

  /** load_next_event on a fixed file, as a function of the position; past the end it raises ValueError like at the end. */
  ghost function Parser(rt: Runtime, table: map<int, Event>, data: seq<byte>): nat -> Result<(Event, nat), Error>
  {
    (p: nat) => if p <= |data| then ParseNext(rt, table, data, p) else Err(ValueError)
  }

  /** A reader step called again and again from pos returns events in order and stops at end. */
  ghost predicate Steps(step: nat -> Result<(Event, nat), Error>, pos: nat, events: seq<Event>, end: nat)
    decreases |events|
  {
    if events == [] then pos == end
    else step(pos).Ok? && step(pos).value.0 == events[0] && Steps(step, step(pos).value.1, events[1..], end)
  }

  /** load yields the events load_next_event returns in turn, then whatever follows them. */
  lemma {:induction false} LoadParsed(rt: Runtime, table: map<int, Event>, data: seq<byte>, pos: nat, events: seq<Event>, end: nat)
    requires pos <= |data| && Steps(Parser(rt, table, data), pos, events, end)
    ensures end <= |data|
    ensures LoadFrom(rt, table, data, pos) == events + LoadFrom(rt, table, data, end)
    decreases |events|
  {
    if events != [] {
      assert Parser(rt, table, data)(pos) == ParseNext(rt, table, data, pos);
      var next := ParseNext(rt, table, data, pos).value.1;
      LoadFromStep(rt, table, data, pos);
      LoadParsed(rt, table, data, next, events[1..], end);
      AppendAfterFirst(events, LoadFrom(rt, table, data, pos), LoadFrom(rt, table, data, next), LoadFrom(rt, table, data, end));
    }
  }

  /** Reading the first element, then the rest, then a tail reads the whole sequence, then the tail. */
  lemma {:induction false} AppendAfterFirst<T>(xs: seq<T>, whole: seq<T>, mid: seq<T>, tail: seq<T>)
    requires xs != [] && whole == [xs[0]] + mid && mid == xs[1..] + tail
    ensures whole == xs + tail
  {
    assert xs == [xs[0]] + xs[1..];
  }

  /** Wherever rec lies in data, the step there returns e and stops just past rec. */
  ghost predicate Rereads(step: nat -> Result<(Event, nat), Error>, data: seq<byte>, e: Event, rec: seq<byte>)
  {
    forall pos: nat :: At(data, pos, rec) ==> step(pos) == Ok((e, pos + |rec|))
  }

  /** Each record rereads as the event at its index. */
  ghost predicate AllRereads(step: nat -> Result<(Event, nat), Error>, data: seq<byte>, events: seq<Event>, recs: seq<seq<byte>>)
    decreases |events|
  {
    |events| == |recs| && (events != [] ==> Rereads(step, data, events[0], recs[0]) && AllRereads(step, data, events[1..], recs[1..]))
  }

  /** Records laid out one after another, each rereading as its event, are read back as the events in order. */
  lemma {:induction false} ParsesAll(step: nat -> Result<(Event, nat), Error>, data: seq<byte>, events: seq<Event>,
                                     recs: seq<seq<byte>>, pos: nat, end: nat)
    requires AllRereads(step, data, events, recs) && Laid(data, pos, recs, end)
    ensures Steps(step, pos, events, end)
    decreases |events|
  {
    if events != [] {
      ParsesAll(step, data, events[1..], recs[1..], pos + |recs[0]|, end);
    }
  }

  /** The record of an event load_event accepts rereads as the reloaded event wherever it lies. */
  lemma {:induction false} DumpRereads(rt: Runtime, table: map<int, Event>, data: seq<byte>, e: Event)
    requires Accepted(rt, table, e)
    ensures Dump(rt, e).Ok? && Rereads(Parser(rt, table, data), data, Reloaded(rt, e), Dump(rt, e).value)
  {
    var proto := table[e.eventId];
    var chunks := DumpChunks(rt, e);
    EncodeEventIsVarint(e.eventId);
    FieldsPayload(rt, e);
    RereadReloads(rt, proto, e);
    assert Kind(proto) == Kind(Strip(proto)) == Kind(e);
    RecordRereads(rt, table, data, Reloaded(rt, e), Dump(rt, e).value, EncodeEvent(e.eventId).value, chunks,
                  Fields(rt, e), Reread(rt, e));
  }

  /** dump(path, events) writes, without an error, one record per event, each rereading as the reloaded event. */
  lemma {:induction false} DumpedRecords(rt: Runtime, table: map<int, Event>, data: seq<byte>, events: seq<Event>)
    returns (recs: seq<seq<byte>>)
    requires Loadable(rt, table, events)
    ensures DumpedAll(rt, events) == (Concat(recs), Pass)
    ensures AllRereads(Parser(rt, table, data), data, ReloadedAll(rt, events), recs)
    decreases |events|
  {
    if events == [] {
      recs := [];
    } else {
      var rest := DumpedRecords(rt, table, data, events[1..]);
      DumpRereads(rt, table, data, events[0]);
      DumpedAllStep(rt, events);
      recs := [Dump(rt, events[0]).value] + rest;
      assert recs[0] == Dump(rt, events[0]).value && recs[1..] == rest;
      var reloaded := ReloadedAll(rt, events);
      assert reloaded[0] == Reloaded(rt, events[0]) && reloaded[1..] == ReloadedAll(rt, events[1..]);
    }
  }

  /** The records dump(path, events) writes from pos on are read back, one load_next_event call each, as the reloaded events. */
  lemma {:induction false} DumpedParses(rt: Runtime, table: map<int, Event>, events: seq<Event>, data: seq<byte>, pos: nat, end: nat)
    requires Loadable(rt, table, events)
    requires At(data, pos, DumpedAll(rt, events).0) && end == pos + |DumpedAll(rt, events).0|
    ensures DumpedAll(rt, events).1 == Pass
    ensures Steps(Parser(rt, table, data), pos, ReloadedAll(rt, events), end)
  {
    var recs := DumpedRecords(rt, table, data, events);
    ConcatLaid(data, pos, recs, end);
    ParsesAll(Parser(rt, table, data), data, ReloadedAll(rt, events), recs, pos, end);
  }

  /**
   * dump(path, events) then load: every record is written, and reading
   * from where the dump starts yields the reloaded events in order,
   * followed by whatever the bytes after the dump yield.
   */
  lemma {:induction false} LoadDumped(rt: Runtime, table: map<int, Event>, events: seq<Event>, data: seq<byte>, pos: nat, end: nat)
    requires Loadable(rt, table, events)
    requires At(data, pos, DumpedAll(rt, events).0) && end == pos + |DumpedAll(rt, events).0|
    ensures DumpedAll(rt, events).1 == Pass
    ensures LoadFrom(rt, table, data, pos) == ReloadedAll(rt, events) + LoadFrom(rt, table, data, end)
  {
    DumpedParses(rt, table, events, data, pos, end);
    LoadParsed(rt, table, data, pos, ReloadedAll(rt, events), end);
  }

  /** A file holding exactly dump(path, events) loads back as the reloaded events. */
  lemma {:induction false} LoadDumpedFile(rt: Runtime, table: map<int, Event>, events: seq<Event>)
    requires Loadable(rt, table, events)
    ensures LoadFrom(rt, table, DumpedAll(rt, events).0, 0) == ReloadedAll(rt, events)
  {
    var data := DumpedAll(rt, events).0;
    var reloaded := ReloadedAll(rt, events);
    assert data[0..|data|] == data;
    DumpedParses(rt, table, events, data, 0, |data|);
    LoadParsed(rt, table, data, 0, reloaded, |data|);
    LoadFromStep(rt, table, data, |data|);
    assert reloaded + [] == reloaded;
  }

  /** Each reloaded event is == the event it comes from and keeps its static fields; all are the events when every value survives. */
  lemma {:induction false} ReloadedAllKeepsIdentity(rt: Runtime, events: seq<Event>)
    ensures forall i :: 0 <= i < |events| ==>
      Same(ReloadedAll(rt, events)[i], events[i]) && Strip(ReloadedAll(rt, events)[i]) == Strip(events[i])
    ensures (forall i :: 0 <= i < |events| ==> Restorable(rt, events[i])) ==> ReloadedAll(rt, events) == events
    decreases |events|
  {
    if events != [] {
      ReloadedAllKeepsIdentity(rt, events[1..]);
      ReloadedKeepsIdentity(rt, events[0]);
      var reloaded := ReloadedAll(rt, events);
      assert reloaded[0] == Reloaded(rt, events[0]) && reloaded[1..] == ReloadedAll(rt, events[1..]);
      forall i | 1 <= i < |events|
        ensures Same(reloaded[i], events[i]) && Strip(reloaded[i]) == Strip(events[i])
      {
        assert reloaded[i] == ReloadedAll(rt, events[1..])[i - 1] && events[i] == events[1..][i - 1];
      }
      if forall i :: 0 <= i < |events| ==> Restorable(rt, events[i]) {
        assert forall i :: 0 <= i < |events[1..]| ==> Restorable(rt, events[1..][i]) by {
          forall i | 0 <= i < |events[1..]| ensures Restorable(rt, events[1..][i]) {
            assert events[1..][i] == events[i + 1];
          }
        }
        assert events == [events[0]] + events[1..];
      }
    }
  }

  /**
   * dump(path, events) then load, in Python's terms: as many events as were
   * dumped, each == the dumped event at its index (file, line, id and kind)
   * with its static fields kept.
   */
  lemma {:induction false} LoadDumpedEqual(rt: Runtime, table: map<int, Event>, events: seq<Event>)
    requires Loadable(rt, table, events)
    ensures var loaded := LoadFrom(rt, table, DumpedAll(rt, events).0, 0);
      |loaded| == |events|
      && forall i :: 0 <= i < |events| ==> Same(loaded[i], events[i]) && Strip(loaded[i]) == Strip(events[i])
  {
    LoadDumpedFile(rt, table, events);
    ReloadedAllKeepsIdentity(rt, events);
  }

  /** A dumped file of events whose every value survives the trip loads back as exactly those events. */
  lemma {:induction false} LoadDumpedExact(rt: Runtime, table: map<int, Event>, events: seq<Event>)
    requires Loadable(rt, table, events) && forall i :: 0 <= i < |events| ==> Restorable(rt, events[i])
    ensures LoadFrom(rt, table, DumpedAll(rt, events).0, 0) == events
  {
    LoadDumpedFile(rt, table, events);
    ReloadedAllKeepsIdentity(rt, events);
  }

  /** Three line events of main.py, lines 1 to 3 with ids 0 to 2, written one after another, load back in order. */
  lemma {:induction false} ReadMultiple(rt: Runtime)
    ensures var e1, e2, e3 := LineEvent("main.py", 1, 0), LineEvent("main.py", 2, 1), LineEvent("main.py", 3, 2);
      LoadFrom(rt, map[0 := e1, 1 := e2, 2 := e3], DumpedAll(rt, [e1, e2, e3]).0, 0) == [e1, e2, e3]
  {
    var e1, e2, e3 := LineEvent("main.py", 1, 0), LineEvent("main.py", 2, 1), LineEvent("main.py", 3, 2);
    var table := map[0 := e1, 1 := e2, 2 := e3];
    assert Pow256(1) == 256;
    ByteLengthIsLeast(0, 1);
    ByteLengthIsLeast(1, 1);
    ByteLengthIsLeast(2, 1);
    var events := [e1, e2, e3];
    assert Accepted(rt, table, e1) && Accepted(rt, table, e2) && Accepted(rt, table, e3) by {
      assert EncodeEvent(0).Ok? && EncodeEvent(1).Ok? && EncodeEvent(2).Ok?;
    }
    assert [e3][1..] == [] && [e2, e3][1..] == [e3] && events[1..] == [e2, e3];
    assert Loadable(rt, table, [e3]);
    assert Loadable(rt, table, [e2, e3]);
    LoadDumpedExact(rt, table, events);
  }
}
