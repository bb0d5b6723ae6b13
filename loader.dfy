/**
 * Reading a trace back: a byte stream with a read position, the read_*
 * helpers, load_next_event (one record, decoded against the id table the
 * catalog provides) and load (every record up to the first that raises).
 *
 * Each stream operation is a method on the Stream class and is proved
 * against a function of the bytes and the start position; the round-trip
 * properties are lemmas about those functions.
 */
module Loader {
  import opened Wrappers
  import opened IntBytes
  import opened PyObjects
  import opened EventTypes
  import opened Codec
  import opened Events
  import Utf8

  // ---------------------------------------------------------------------
  // The stream and its reads, as functions of (bytes, position)
  // ---------------------------------------------------------------------

  /** stream.read(n) from position pos: at most n bytes, fewer at the end of the stream, and the new position. */
  function ReadAt(data: seq<byte>, pos: nat, n: nat): (r: (seq<byte>, nat))
    requires pos <= |data|
    ensures r.1 == pos + |r.0| <= |data| && r.0 == data[pos..r.1]
    ensures |r.0| == if n <= |data| - pos then n else |data| - pos
  {
    var end := if n <= |data| - pos then pos + n else |data|;
    (data[pos..end], end)
  }

  /** read_int: int.from_bytes of what read(n) returns, so a short read yields a smaller number and an empty one 0. */
  function ReadIntAt(data: seq<byte>, pos: nat, n: nat): (r: (nat, nat))
    requires pos <= |data|
    ensures pos <= r.1 <= |data|
  {
    var (bs, end) := ReadAt(data, pos, n);
    (FromBytes(bs), end)
  }

  /** read_len_int: an n-byte length, then an integer of that many bytes. */
  function ReadLenIntAt(data: seq<byte>, pos: nat, n: nat): (r: (nat, nat))
    requires pos <= |data|
    ensures pos <= r.1 <= |data|
  {
    var (len, p) := ReadIntAt(data, pos, n);
    ReadIntAt(data, p, len)
  }

  /** read_len_bytes: an n-byte length, then that many bytes (fewer at the end of the stream). */
  function ReadLenBytesAt(data: seq<byte>, pos: nat, n: nat): (r: (seq<byte>, nat))
    requires pos <= |data|
    ensures pos + |r.0| <= r.1 <= |data| && r.0 == data[r.1 - |r.0|..r.1]
  {
    var (len, p) := ReadIntAt(data, pos, n);
    ReadAt(data, p, len)
  }

  /** read_len_str: read_len_bytes decoded as strict UTF-8. */
  function ReadLenStrAt(data: seq<byte>, pos: nat, n: nat): (r: Result<(string, nat), Error>)
    requires pos <= |data|
    ensures r.Ok? ==> pos <= r.value.1 <= |data|
    ensures r.Err? <==> Utf8.Decode(ReadLenBytesAt(data, pos, n).0).None?
    ensures r.Err? ==> r.error == UnicodeDecodeError
  {
    var (bs, p) := ReadLenBytesAt(data, pos, n);
    match Utf8.Decode(bs)
    case Some(s) => Ok((s, p))
    case None => Err(UnicodeDecodeError)
  }

  /**
   * The value field's bytes as load_next_event turns them back into a value:
   * pickle.loads, and when that raises, the bytes decoded as UTF-8 with
   * "True" and "False" read as the booleans and any other text as None.
   */
  function InterpretValue(rt: Runtime, bs: seq<byte>): (r: Result<Value, Error>)
    ensures rt.loads(bs).Some? ==> r == Ok(rt.loads(bs).value)
    ensures rt.loads(bs).None? ==> (r.Ok? <==> Utf8.Decode(bs).Some?)
    ensures rt.loads(bs).None? && r.Ok? ==> r.value.NoneValue? || r.value.BoolValue?
  {
    match rt.loads(bs)
    case Some(v) => Ok(v)
    case None =>
      match Utf8.Decode(bs)
      case None => Err(UnicodeDecodeError)
      case Some(text) =>
        if text == "True" then Ok(BoolValue(true))
        else if text == "False" then Ok(BoolValue(false))
        else Ok(NoneValue)
  }

  /**
   * How load_next_event reads one field: read_len_int(stream, 1),
   * read_len_bytes(stream, 4), read_len_str(stream, 2) or read_int(stream, 1).
   */
  datatype Format = LenInt1 | LenBytes4 | LenStr2 | Int1

  /** A field as read: an integer, a byte string or a text. */
  datatype Field = IntField(n: int) | BytesField(bytes: seq<byte>) | StrField(text: string)

  /** The fields a record of kind k carries after its id, in the order load_next_event reads them. */
  function Layout(k: EventType): seq<Format>
  {
    match k
    case DEF => [LenInt1, LenBytes4, LenStr2]
    case USE => [LenInt1]
    case FUNCTION_EXIT => [LenBytes4, LenStr2]
    case CONDITION => [Int1]
    case LEN => [LenInt1, LenInt1]
    case _ => []
  }

  /** The field has the shape its format reads. */
  predicate Matches(f: Format, x: Field)
  {
    match f
    case LenInt1 => x.IntField?
    case Int1 => x.IntField?
    case LenBytes4 => x.BytesField?
    case LenStr2 => x.StrField?
  }

  predicate AllMatch(fs: seq<Format>, xs: seq<Field>)
  {
    |fs| == |xs| && forall i :: 0 <= i < |fs| ==> Matches(fs[i], xs[i])
  }

  /** One field read at pos; only a text field can raise (UnicodeDecodeError). */
  function ReadField(f: Format, data: seq<byte>, pos: nat): (r: Result<(Field, nat), Error>)
    requires pos <= |data|
    ensures r.Ok? ==> Matches(f, r.value.0) && pos <= r.value.1 <= |data|
    ensures r.Err? ==> f == LenStr2 && r.error == UnicodeDecodeError
  {
    match f
    case LenInt1 =>
      var (n, p) := ReadLenIntAt(data, pos, 1);
      Ok((IntField(n), p))
    case Int1 =>
      var (n, p) := ReadIntAt(data, pos, 1);
      Ok((IntField(n), p))
    case LenBytes4 =>
      var (bs, p) := ReadLenBytesAt(data, pos, 4);
      Ok((BytesField(bs), p))
    case LenStr2 =>
      var t :- ReadLenStrAt(data, pos, 2);
      Ok((StrField(t.0), t.1))
  }

  /** The fields read one after another; the first that raises stops the record. */
  function ReadFields(fs: seq<Format>, data: seq<byte>, pos: nat): (r: Result<(seq<Field>, nat), Error>)
    requires pos <= |data|
    ensures r.Ok? ==> |r.value.0| == |fs| && pos <= r.value.1 <= |data|
    decreases |fs|
  {
    if fs == [] then Ok(([], pos))
    else
      var first :- ReadField(fs[0], data, pos);
      var rest :- ReadFields(fs[1..], data, first.1);
      Ok(([first.0] + rest.0, rest.1))
  }

  /** Each field read has the shape of the format it was read with. */
  lemma {:induction false} ReadFieldsMatch(fs: seq<Format>, data: seq<byte>, pos: nat)
    requires pos <= |data|
    ensures ReadFields(fs, data, pos).Ok? ==> AllMatch(fs, ReadFields(fs, data, pos).value.0)
    decreases |fs|
  {
    if fs != [] {
      var first := ReadField(fs[0], data, pos);
      if first.Ok? {
        ReadFieldsMatch(fs[1..], data, first.value.1);
        var r := ReadFields(fs, data, pos);
        if r.Ok? {
          var rest := ReadFields(fs[1..], data, first.value.1).value.0;
          assert r.value.0 == [first.value.0] + rest;
          forall i | 0 <= i < |fs| ensures Matches(fs[i], r.value.0[i]) {
            if i > 0 {
              assert fs[i] == fs[1..][i - 1];
            }
          }
        }
      }
    }
  }

  /** The payload a kind's fields give: a value field goes through pickle.loads and its fallback, a condition byte through bool(). */
  function ToPayload(rt: Runtime, k: EventType, xs: seq<Field>): (r: Result<Payload, Error>)
    requires AllMatch(Layout(k), xs)
    ensures r.Ok? ==> FitsKind(k, r.value)
    ensures r.Err? ==> k in {DEF, FUNCTION_EXIT} && r.error == UnicodeDecodeError
  {
    match k
    case DEF =>
      var v :- InterpretValue(rt, xs[1].bytes);
      Ok(DefPayload(xs[0].n, v, xs[2].text))
    case USE => Ok(UsePayload(xs[0].n))
    case FUNCTION_EXIT =>
      var v :- InterpretValue(rt, xs[0].bytes);
      Ok(ExitPayload(v, xs[1].text))
    case CONDITION => Ok(ConditionPayload(xs[0].n != 0))
    case LEN => Ok(LenPayload(xs[0].n, xs[1].n))
    case _ => Ok(NoPayload)
  }

  /** The part of load_next_event after the id: the fields of the prototype's kind, then instantiate. */
  function ParseBody(rt: Runtime, proto: Event, data: seq<byte>, pos: nat): (r: Result<(Event, nat), Error>)
    requires pos <= |data|
    ensures r.Ok? ==> pos <= r.value.1 <= |data|
  {
    var fields :- ReadFields(Layout(Kind(proto)), data, pos);
    ReadFieldsMatch(Layout(Kind(proto)), data, pos);
    var p :- ToPayload(rt, Kind(proto), fields.0);
    Ok((Instantiate(proto, p), fields.1))
  }

  /** The event a record decodes to is its prototype instantiated: the same identity and the same static fields. */
  lemma ParseBodyInstantiates(rt: Runtime, proto: Event, data: seq<byte>, pos: nat)
    requires pos <= |data|
    ensures var r := ParseBody(rt, proto, data, pos);
      r.Ok? ==> Same(r.value.0, proto) && Strip(r.value.0) == Strip(proto)
  {
  }

  /**
   * load_next_event from position pos: one byte giving the id's width
   * (ValueError "empty stream" when there is none), the id, the prototype
   * the table holds for it (KeyError when there is none), then its fields.
   */
  function ParseNext(rt: Runtime, table: map<int, Event>, data: seq<byte>, pos: nat): (r: Result<(Event, nat), Error>)
    requires pos <= |data|
    ensures pos == |data| ==> r == Err(ValueError)
    ensures r.Ok? ==> pos < r.value.1 <= |data|
  {
    var (test, p0) := ReadAt(data, pos, 1);
    if test == [] then Err(ValueError)
    else
      var (id, p1) := ReadIntAt(data, p0, FromBytes(test));
      if id !in table then Err(KeyError)
      else ParseBody(rt, table[id], data, p1)
  }

  /** load: the records from pos on, in stream order, up to the first one that raises; the exception is swallowed. */
  function LoadFrom(rt: Runtime, table: map<int, Event>, data: seq<byte>, pos: nat): (events: seq<Event>)
    requires pos <= |data|
    ensures |events| <= |data| - pos
    decreases |data| - pos
  {
    match ParseNext(rt, table, data, pos)
    case Err(_) => []
    case Ok((e, next)) => [e] + LoadFrom(rt, table, data, next)
  }

  // ---------------------------------------------------------------------
  // The stream object and the methods that read it
  // ---------------------------------------------------------------------

  /** An in-memory binary stream (an open file or io.BytesIO): fixed contents and a read position. */
  class Stream {
    const data: seq<byte>
    var pos: nat

    predicate Valid()
      reads this
    {
      pos <= |data|
    }

    constructor (contents: seq<byte>)
      ensures data == contents && pos == 0 && Valid()
    {
      data := contents;
      pos := 0;
    }

    /** stream.read(n) */
    method Read(n: nat) returns (bs: seq<byte>)
      requires Valid()
      modifies this
      ensures Valid() && (bs, pos) == ReadAt(data, old(pos), n)
    {
      var end := if n <= |data| - pos then pos + n else |data|;
      bs := data[pos..end];
      pos := end;
    }
  }

  /** read_int */
  method ReadInt(s: Stream, n: nat) returns (x: nat)
    requires s.Valid()
    modifies s
    ensures s.Valid() && (x, s.pos) == ReadIntAt(s.data, old(s.pos), n)
  {
    var bs := s.Read(n);
    x := FromBytes(bs);
  }

  /** read_len_int */
  method ReadLenInt(s: Stream, n: nat) returns (x: nat)
    requires s.Valid()
    modifies s
    ensures s.Valid() && (x, s.pos) == ReadLenIntAt(s.data, old(s.pos), n)
  {
    var len := ReadInt(s, n);
    x := ReadInt(s, len);
  }

  /** read_len_bytes */
  method ReadLenBytes(s: Stream, n: nat) returns (bs: seq<byte>)
    requires s.Valid()
    modifies s
    ensures s.Valid() && (bs, s.pos) == ReadLenBytesAt(s.data, old(s.pos), n)
  {
    var len := ReadInt(s, n);
    bs := s.Read(len);
  }

  /** read_len_str */
  method ReadLenStr(s: Stream, n: nat) returns (r: Result<string, Error>)
    requires s.Valid()
    modifies s
    ensures s.Valid()
    ensures var spec := ReadLenStrAt(s.data, old(s.pos), n);
      (r.Ok? <==> spec.Ok?) && (r.Ok? ==> r.value == spec.value.0 && s.pos == spec.value.1)
      && (r.Err? ==> r.error == spec.error)
  {
    var bs := ReadLenBytes(s, n);
    match Utf8.Decode(bs)
    case Some(text) => r := Ok(text);
    case None => r := Err(UnicodeDecodeError);
  }

  /** load_next_event: decodes the record at the stream's position and leaves the position after it. */
  method LoadNextEvent(rt: Runtime, s: Stream, table: map<int, Event>) returns (r: Result<Event, Error>)
    requires s.Valid()
    modifies s
    ensures s.Valid()
    ensures var spec := ParseNext(rt, table, s.data, old(s.pos));
      (r.Ok? <==> spec.Ok?) && (r.Ok? ==> r.value == spec.value.0 && s.pos == spec.value.1)
      && (r.Err? ==> r.error == spec.error)
  {
    var test := s.Read(1);
    if test == [] {
      return Err(ValueError);
    }
    var id := ReadInt(s, FromBytes(test));
    if id !in table {
      return Err(KeyError);
    }
    r := LoadBody(rt, s, table[id]);
  }

  /** The part of load_next_event after the id: reads the fields the prototype's event type calls for, in the order it reads them. */
  method LoadBody(rt: Runtime, s: Stream, proto: Event) returns (r: Result<Event, Error>)
    requires s.Valid()
    modifies s
    ensures s.Valid()
    ensures var spec := ParseBody(rt, proto, s.data, old(s.pos));
      (r.Ok? <==> spec.Ok?) && (r.Ok? ==> r.value == spec.value.0 && s.pos == spec.value.1)
      && (r.Err? ==> r.error == spec.error)
  {
    match Kind(proto)
    case DEF => r := LoadDefBody(rt, s, proto);
    case USE => r := LoadUseBody(rt, s, proto);
    case FUNCTION_EXIT => r := LoadExitBody(rt, s, proto);
    case CONDITION => r := LoadConditionBody(rt, s, proto);
    case LEN => r := LoadLenBody(rt, s, proto);
    case _ => r := Ok(Instantiate(proto, NoPayload));
  }

  /** A def record: var_id, the pickled value, the type name. */
  method LoadDefBody(rt: Runtime, s: Stream, proto: Event) returns (r: Result<Event, Error>)
    requires s.Valid() && Kind(proto) == DEF
    modifies s
    ensures s.Valid()
    ensures var spec := ParseBody(rt, proto, s.data, old(s.pos));
      (r.Ok? <==> spec.Ok?) && (r.Ok? ==> r.value == spec.value.0 && s.pos == spec.value.1)
      && (r.Err? ==> r.error == spec.error)
  {
    ghost var p0 := s.pos;
    var varId := ReadLenInt(s, 1);
    ghost var p1 := s.pos;
    var bs := ReadLenBytes(s, 4);
    ghost var p2 := s.pos;
    var typeName := ReadLenStr(s, 2);
    DefBodyReads(rt, proto, s.data, p0, varId, p1, bs, p2, typeName, s.pos);
    if typeName.Err? {
      return Err(typeName.error);
    }
    var v := InterpretValue(rt, bs);
    if v.Err? {
      return Err(v.error);
    }
    r := Ok(Instantiate(proto, DefPayload(varId, v.value, typeName.value)));
  }

  /** The three reads of a def record, in order, are the body load_next_event parses. */
  lemma DefBodyReads(rt: Runtime, proto: Event, data: seq<byte>, p0: nat, varId: nat, p1: nat, bs: seq<byte>, p2: nat,
                     typeName: Result<string, Error>, p3: nat)
    requires Kind(proto) == DEF && p0 <= |data| && p1 <= |data| && p2 <= |data| && p3 <= |data|
    requires (varId, p1) == ReadLenIntAt(data, p0, 1) && (bs, p2) == ReadLenBytesAt(data, p1, 4)
    requires var spec := ReadLenStrAt(data, p2, 2);
      (typeName.Ok? <==> spec.Ok?) && (typeName.Ok? ==> typeName.value == spec.value.0 && p3 == spec.value.1)
      && (typeName.Err? ==> typeName.error == spec.error)
    ensures typeName.Err? ==> ParseBody(rt, proto, data, p0) == Err(typeName.error)
    ensures typeName.Ok? && InterpretValue(rt, bs).Err? ==> ParseBody(rt, proto, data, p0) == Err(InterpretValue(rt, bs).error)
    ensures typeName.Ok? && InterpretValue(rt, bs).Ok? ==>
      ParseBody(rt, proto, data, p0) == Ok((Instantiate(proto, DefPayload(varId, InterpretValue(rt, bs).value, typeName.value)), p3))
  {
    ReadFieldsUnroll([LenInt1, LenBytes4, LenStr2], data, p0);
    ReadFieldsUnroll([LenBytes4, LenStr2], data, p1);
    ReadFieldsUnroll([LenStr2], data, p2);
  }

  /** A use record: var_id. */
  method LoadUseBody(rt: Runtime, s: Stream, proto: Event) returns (r: Result<Event, Error>)
    requires s.Valid() && Kind(proto) == USE
    modifies s
    ensures s.Valid()
    ensures var spec := ParseBody(rt, proto, s.data, old(s.pos));
      (r.Ok? <==> spec.Ok?) && (r.Ok? ==> r.value == spec.value.0 && s.pos == spec.value.1)
      && (r.Err? ==> r.error == spec.error)
  {
    ghost var p0 := s.pos;
    var varId := ReadLenInt(s, 1);
    ReadFieldsUnroll([LenInt1], s.data, p0);
    r := Ok(Instantiate(proto, UsePayload(varId)));
  }

  /** A function-exit record: the pickled return value, the type name. */
  method LoadExitBody(rt: Runtime, s: Stream, proto: Event) returns (r: Result<Event, Error>)
    requires s.Valid() && Kind(proto) == FUNCTION_EXIT
    modifies s
    ensures s.Valid()
    ensures var spec := ParseBody(rt, proto, s.data, old(s.pos));
      (r.Ok? <==> spec.Ok?) && (r.Ok? ==> r.value == spec.value.0 && s.pos == spec.value.1)
      && (r.Err? ==> r.error == spec.error)
  {
    ghost var p0 := s.pos;
    var bs := ReadLenBytes(s, 4);
    ghost var p1 := s.pos;
    var typeName := ReadLenStr(s, 2);
    ReadFieldsUnroll([LenBytes4, LenStr2], s.data, p0);
    ReadFieldsUnroll([LenStr2], s.data, p1);
    if typeName.Err? {
      return Err(typeName.error);
    }
    var v := InterpretValue(rt, bs);
    if v.Err? {
      return Err(v.error);
    }
    r := Ok(Instantiate(proto, ExitPayload(v.value, typeName.value)));
  }

  /** A condition record: one byte, true when not zero. */
  method LoadConditionBody(rt: Runtime, s: Stream, proto: Event) returns (r: Result<Event, Error>)
    requires s.Valid() && Kind(proto) == CONDITION
    modifies s
    ensures s.Valid()
    ensures var spec := ParseBody(rt, proto, s.data, old(s.pos));
      (r.Ok? <==> spec.Ok?) && (r.Ok? ==> r.value == spec.value.0 && s.pos == spec.value.1)
      && (r.Err? ==> r.error == spec.error)
  {
    ghost var p0 := s.pos;
    var b := ReadInt(s, 1);
    ReadFieldsUnroll([Int1], s.data, p0);
    r := Ok(Instantiate(proto, ConditionPayload(b != 0)));
  }

  /** A len record: var_id, then the length. */
  method LoadLenBody(rt: Runtime, s: Stream, proto: Event) returns (r: Result<Event, Error>)
    requires s.Valid() && Kind(proto) == LEN
    modifies s
    ensures s.Valid()
    ensures var spec := ParseBody(rt, proto, s.data, old(s.pos));
      (r.Ok? <==> spec.Ok?) && (r.Ok? ==> r.value == spec.value.0 && s.pos == spec.value.1)
      && (r.Err? ==> r.error == spec.error)
  {
    ghost var p0 := s.pos;
    var varId := ReadLenInt(s, 1);
    ghost var p1 := s.pos;
    var length := ReadLenInt(s, 1);
    ReadFieldsUnroll([LenInt1, LenInt1], s.data, p0);
    ReadFieldsUnroll([LenInt1], s.data, p1);
    r := Ok(Instantiate(proto, LenPayload(varId, length)));
  }

  /** Reading a non-empty list of fields: the first field, then the rest from where it ends. */
  lemma ReadFieldsUnroll(fs: seq<Format>, data: seq<byte>, pos: nat)
    requires pos <= |data| && fs != []
    ensures ReadField(fs[0], data, pos).Err? ==> ReadFields(fs, data, pos) == Err(ReadField(fs[0], data, pos).error)
    ensures ReadField(fs[0], data, pos).Ok? ==>
      var first := ReadField(fs[0], data, pos).value;
      var rest := ReadFields(fs[1..], data, first.1);
      (rest.Err? ==> ReadFields(fs, data, pos) == Err(rest.error))
      && (rest.Ok? ==> ReadFields(fs, data, pos) == Ok(([first.0] + rest.value.0, rest.value.1)))
    ensures |fs| == 1 ==> ReadFields(fs[1..], data, pos) == Ok(([], pos))
  {
  }

  /** load_event: load_next_event on a fresh stream over the given bytes. */
  method LoadEvent(rt: Runtime, bytes: seq<byte>, table: map<int, Event>) returns (r: Result<Event, Error>)
    ensures var spec := ParseNext(rt, table, bytes, 0);
      (r.Ok? <==> spec.Ok?) && (r.Ok? ==> r.value == spec.value.0) && (r.Err? ==> r.error == spec.error)
  {
    var s := new Stream(bytes);
    r := LoadNextEvent(rt, s, table);
  }

  /** load: reads records until one raises, and returns those read so far in stream order. */
  method Load(rt: Runtime, data: seq<byte>, table: map<int, Event>) returns (events: seq<Event>)
    ensures events == LoadFrom(rt, table, data, 0)
  {
    var s := new Stream(data);
    events := [];
    while true
      invariant s.Valid() && s.data == data
      invariant LoadFrom(rt, table, data, 0) == events + LoadFrom(rt, table, data, s.pos)
      decreases |data| - s.pos
    {
      var before := s.pos;
      var r := LoadNextEvent(rt, s, table);
      LoadAdvance(rt, table, data, before, events, r, s.pos);
      if r.Err? {
        return;
      }
      events := events + [r.value];
    }
  }

  /** One pass of load's loop: the events read so far, then those after the record just read. */
  lemma LoadAdvance(rt: Runtime, table: map<int, Event>, data: seq<byte>, before: nat, events: seq<Event>,
                    r: Result<Event, Error>, after: nat)
    requires before <= |data| && after <= |data|
    requires var spec := ParseNext(rt, table, data, before);
      (r.Ok? <==> spec.Ok?) && (r.Ok? ==> r.value == spec.value.0 && after == spec.value.1)
    ensures r.Err? ==> events + LoadFrom(rt, table, data, before) == events
    ensures r.Ok? ==> events + LoadFrom(rt, table, data, before) == events + [r.value] + LoadFrom(rt, table, data, after)
  {
    LoadFromStep(rt, table, data, before);
    if r.Err? {
      assert events + [] == events;
    } else {
      assert events + [r.value] + LoadFrom(rt, table, data, after)
          == events + ([r.value] + LoadFrom(rt, table, data, after));
    }
  }

  /** One step of load: a record that raises ends the list, one that decodes heads it. */
  lemma LoadFromStep(rt: Runtime, table: map<int, Event>, data: seq<byte>, pos: nat)
    requires pos <= |data|
    ensures ParseNext(rt, table, data, pos).Err? ==> LoadFrom(rt, table, data, pos) == []
    ensures ParseNext(rt, table, data, pos).Ok? ==>
      LoadFrom(rt, table, data, pos)
        == [ParseNext(rt, table, data, pos).value.0] + LoadFrom(rt, table, data, ParseNext(rt, table, data, pos).value.1)
  {
  }
}
