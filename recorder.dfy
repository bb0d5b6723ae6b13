/**
 * The recorder an instrumented program calls (lib.py): every add_* entry
 * point encodes one record and appends it to the open events file, and
 * dump_events / reset close and reopen that file. The file is a byte log
 * and an open flag; what each entry point writes is the function
 * CallBytes, and a session of calls loads back as the events the calls
 * describe.
 */
module Recorder {
  import opened Wrappers
  import opened IntBytes
  import opened PyObjects
  import opened EventTypes
  import opened Codec
  import opened Events
  import opened Loader
  import opened RoundTrip
  import Utf8

  /** One call of an add_* entry point, with its arguments; Plain stands for the seven that write only the id. */
  datatype Call =
    | Plain(kind: EventType, eventId: int)
    | Def(eventId: int, varId: Option<int>, value: Value, valueType: PyType)
    | Exit(eventId: int, value: Value, valueType: PyType)
    | Condition(eventId: int, value: Value)
    | Use(eventId: int, varId: Option<int>)
    | Len(eventId: int, varId: Option<int>, length: int)

  /** The calls that check `var_id is not None` and do nothing when it is. */
  predicate Skipped(c: Call)
  {
    (c.Def? || c.Use? || c.Len?) && c.varId.None?
  }

  /** The event type of the record a call writes. */
  function CallKind(c: Call): EventType
  {
    match c
    case Plain(k, _) => k
    case Def(_, _, _, _) => DEF
    case Exit(_, _, _) => FUNCTION_EXIT
    case Condition(_, _) => CONDITION
    case Use(_, _) => USE
    case Len(_, _, _) => LEN
  }

  /** add_def_event: a primitive type or a None value pickles the value under the type's name; anything else pickles None under the qualified name. */
  function DefWritten(value: Value, t: PyType): (Value, string)
  {
    if t.isPrimitive || value.NoneValue? then (value, t.name) else (NoneValue, QualifiedName(t))
  }

  /**
   * add_function_exit_event: a primitive type or a None value pickles the
   * value under the type's name; otherwise it tries bool(value) under the
   * qualified name, and when bool, pickle or the encoder raises, it pickles
   * None under the qualified name instead.
   */
  function ExitWritten(rt: Runtime, eventId: int, value: Value, t: PyType): (Value, string)
  {
    if t.isPrimitive || value.NoneValue? then (value, t.name)
    else
      match Truth(rt, value)
      case None => (NoneValue, QualifiedName(t))
      case Some(b) =>
        match Pickle(rt, BoolValue(b))
        case Err(_) => (NoneValue, QualifiedName(t))
        case Ok(pickled) =>
          if EncodeFunctionExitEvent(rt, eventId, BytesValue(pickled), QualifiedName(t)).Ok?
          then (BoolValue(b), QualifiedName(t))
          else (NoneValue, QualifiedName(t))
  }

  /**
   * The bytes a call appends to the events file, or the exception it
   * raises before writing anything. A skipped call writes nothing; every
   * other call that succeeds writes a record; a condition record ends in
   * 1 exactly when the value is truthy.
   */
  function CallBytes(rt: Runtime, c: Call): (r: Result<seq<byte>, Error>)
    ensures Skipped(c) ==> r == Ok([])
    ensures r.Ok? && !Skipped(c) ==>
      EncodeEvent(c.eventId).Ok? && 0 < |EncodeEvent(c.eventId).value| <= |r.value|
      && r.value[..|EncodeEvent(c.eventId).value|] == EncodeEvent(c.eventId).value
    ensures c.Condition? && r.Ok? ==>
      Truth(rt, c.value).Some? && r.value[|r.value| - 1] == if Truth(rt, c.value) == Some(true) then 1 else 0
  {
    match c
    case Plain(_, id) => EncodeEvent(id)
    case Def(id, varId, value, t) =>
      if varId.None? then Ok([])
      else
        var pickled :- Pickle(rt, DefWritten(value, t).0);
        EncodeDefEvent(rt, id, varId.value, BytesValue(pickled), DefWritten(value, t).1)
    case Exit(id, value, t) =>
      var pickled :- Pickle(rt, ExitWritten(rt, id, value, t).0);
      EncodeFunctionExitEvent(rt, id, BytesValue(pickled), ExitWritten(rt, id, value, t).1)
    case Condition(id, value) =>
      (match Truth(rt, value)
       case None => Err(TypeError)
       case Some(b) => EncodeConditionEvent(id, b))
    case Use(id, varId) => if varId.None? then Ok([]) else EncodeUseEvent(id, varId.value)
    case Len(id, varId, length) => if varId.None? then Ok([]) else EncodeLenEvent(id, varId.value, length)
  }

  /** What the file gains from an encoder's result: its bytes, or nothing when it raised. */
  function Wrote(r: Result<seq<byte>, Error>): seq<byte>
  {
    if r.Ok? then r.value else []
  }

  /** The outcome of the call: normal return, or the exception the encoder raised. */
  function Raised(r: Result<seq<byte>, Error>): Outcome<Error>
  {
    if r.Ok? then Pass else Fail(r.error)
  }

  // ---------------------------------------------------------------------
  // The events file
  // ---------------------------------------------------------------------

  /** The module-global handle _event_path_file: the bytes written since it was opened, and whether it is still open. */
  class Recorder {
    var log: seq<byte>
    var isOpen: bool

    /** Importing lib opens EVENTS_PATH in "wb" mode: an empty file, open. */
    constructor ()
      ensures log == [] && isOpen
    {
      log := [];
      isOpen := true;
    }

    /** dump_events: flush, then close; flushing a closed file raises ValueError. */
    method DumpEvents() returns (outcome: Outcome<Error>)
      modifies this
      ensures !isOpen && log == old(log)
      ensures outcome == if old(isOpen) then Pass else Fail(ValueError)
    {
      if !isOpen {
        return Fail(ValueError);
      }
      isOpen := false;
      outcome := Pass;
    }

    /** reset: dump_events with every exception swallowed, then reopen the same path in "wb" mode, which truncates it. */
    method Reset()
      modifies this
      ensures log == [] && isOpen
    {
      var _ := DumpEvents();
      log := [];
      isOpen := true;
    }

    /** _event_path_file.write of an encoder's result: the encoder raises before anything is written. */
    method WriteEncoded(r: Result<seq<byte>, Error>) returns (outcome: Outcome<Error>)
      requires isOpen
      modifies this
      ensures isOpen && log == old(log) + Wrote(r) && outcome == Raised(r)
    {
      if r.Err? {
        assert old(log) + [] == old(log);
        return Fail(r.error);
      }
      log := log + r.value;
      outcome := Pass;
    }

    /** add_line_event */
    method AddLineEvent(eventId: int) returns (outcome: Outcome<Error>)
      requires isOpen
      modifies this
      ensures isOpen && log == old(log) + Wrote(EncodeEvent(eventId)) && outcome == Raised(EncodeEvent(eventId))
    {
      outcome := WriteEncoded(EncodeEvent(eventId));
    }

    /** add_branch_event */
    method AddBranchEvent(eventId: int) returns (outcome: Outcome<Error>)
      requires isOpen
      modifies this
      ensures isOpen && log == old(log) + Wrote(EncodeEvent(eventId)) && outcome == Raised(EncodeEvent(eventId))
    {
      outcome := WriteEncoded(EncodeEvent(eventId));
    }

    /** add_function_enter_event */
    method AddFunctionEnterEvent(eventId: int) returns (outcome: Outcome<Error>)
      requires isOpen
      modifies this
      ensures isOpen && log == old(log) + Wrote(EncodeEvent(eventId)) && outcome == Raised(EncodeEvent(eventId))
    {
      outcome := WriteEncoded(EncodeEvent(eventId));
    }

    /** add_function_error_event */
    method AddFunctionErrorEvent(eventId: int) returns (outcome: Outcome<Error>)
      requires isOpen
      modifies this
      ensures isOpen && log == old(log) + Wrote(EncodeEvent(eventId)) && outcome == Raised(EncodeEvent(eventId))
    {
      outcome := WriteEncoded(EncodeEvent(eventId));
    }

    /** add_loop_begin_event */
    method AddLoopBeginEvent(eventId: int) returns (outcome: Outcome<Error>)
      requires isOpen
      modifies this
      ensures isOpen && log == old(log) + Wrote(EncodeEvent(eventId)) && outcome == Raised(EncodeEvent(eventId))
    {
      outcome := WriteEncoded(EncodeEvent(eventId));
    }

    /** add_loop_hit_event */
    method AddLoopHitEvent(eventId: int) returns (outcome: Outcome<Error>)
      requires isOpen
      modifies this
      ensures isOpen && log == old(log) + Wrote(EncodeEvent(eventId)) && outcome == Raised(EncodeEvent(eventId))
    {
      outcome := WriteEncoded(EncodeEvent(eventId));
    }

    /** add_loop_end_event */
    method AddLoopEndEvent(eventId: int) returns (outcome: Outcome<Error>)
      requires isOpen
      modifies this
      ensures isOpen && log == old(log) + Wrote(EncodeEvent(eventId)) && outcome == Raised(EncodeEvent(eventId))
    {
      outcome := WriteEncoded(EncodeEvent(eventId));
    }

    /** add_def_event: nothing when var_id is None; otherwise the pickled value, or pickled None, with a type name. */
    method AddDefEvent(rt: Runtime, eventId: int, varId: Option<int>, value: Value, valueType: PyType)
      returns (outcome: Outcome<Error>)
      requires isOpen
      modifies this
      ensures isOpen
      ensures var r := CallBytes(rt, Def(eventId, varId, value, valueType));
        log == old(log) + Wrote(r) && outcome == Raised(r)
    {
      if varId.None? {
        assert log + [] == log;
        return Pass;
      }
      if valueType.isPrimitive || value.NoneValue? {
        var pickled := Pickle(rt, value);
        if pickled.Err? {
          assert log + [] == log;
          return Fail(pickled.error);
        }
        outcome := WriteEncoded(EncodeDefEvent(rt, eventId, varId.value, BytesValue(pickled.value), valueType.name));
      } else {
        var pickled := Pickle(rt, NoneValue);
        if pickled.Err? {
          assert log + [] == log;
          return Fail(pickled.error);
        }
        outcome := WriteEncoded(EncodeDefEvent(rt, eventId, varId.value, BytesValue(pickled.value), QualifiedName(valueType)));
      }
    }

    /**
     * add_function_exit_event: the pickled value under the type's name for a
     * primitive type or None; otherwise the pickled truthiness under the
     * qualified name, falling back to pickled None when that raises.
     */
    method AddFunctionExitEvent(rt: Runtime, eventId: int, returnValue: Value, valueType: PyType)
      returns (outcome: Outcome<Error>)
      requires isOpen
      modifies this
      ensures isOpen
      ensures var r := CallBytes(rt, Exit(eventId, returnValue, valueType));
        log == old(log) + Wrote(r) && outcome == Raised(r)
    {
      if valueType.isPrimitive || returnValue.NoneValue? {
        var pickled := Pickle(rt, returnValue);
        if pickled.Err? {
          assert log + [] == log;
          return Fail(pickled.error);
        }
        outcome := WriteEncoded(EncodeFunctionExitEvent(rt, eventId, BytesValue(pickled.value), valueType.name));
        return;
      }
      var name := QualifiedName(valueType);
      var truth := Truth(rt, returnValue);
      if truth.Some? {
        var pickled := Pickle(rt, BoolValue(truth.value));
        if pickled.Ok? {
          var r := EncodeFunctionExitEvent(rt, eventId, BytesValue(pickled.value), name);
          if r.Ok? {
            outcome := WriteEncoded(r);
            return;
          }
        }
      }
      var pickled := Pickle(rt, NoneValue);
      if pickled.Err? {
        assert log + [] == log;
        return Fail(pickled.error);
      }
      outcome := WriteEncoded(EncodeFunctionExitEvent(rt, eventId, BytesValue(pickled.value), name));
    }

    /** add_condition_event: the value's truthiness; an exception from bool(value) propagates. */
    method AddConditionEvent(rt: Runtime, eventId: int, value: Value) returns (outcome: Outcome<Error>)
      requires isOpen
      modifies this
      ensures isOpen
      ensures var r := CallBytes(rt, Condition(eventId, value));
        log == old(log) + Wrote(r) && outcome == Raised(r)
    {
      var truth := Truth(rt, value);
      if truth.None? {
        assert log + [] == log;
        return Fail(TypeError);
      }
      if truth.value {
        outcome := WriteEncoded(EncodeConditionEvent(eventId, true));
      } else {
        outcome := WriteEncoded(EncodeConditionEvent(eventId, false));
      }
    }

    /** add_use_event: nothing when var_id is None. */
    method AddUseEvent(eventId: int, varId: Option<int>) returns (outcome: Outcome<Error>)
      requires isOpen
      modifies this
      ensures isOpen
      ensures forall rt: Runtime {:trigger CallBytes(rt, Use(eventId, varId))} ::
        var r := CallBytes(rt, Use(eventId, varId)); log == old(log) + Wrote(r) && outcome == Raised(r)
    {
      if varId.None? {
        assert log + [] == log;
        return Pass;
      }
      outcome := WriteEncoded(EncodeUseEvent(eventId, varId.value));
    }

    /** add_len_event: nothing when var_id is None. */
    method AddLenEvent(eventId: int, varId: Option<int>, length: int) returns (outcome: Outcome<Error>)
      requires isOpen
      modifies this
      ensures isOpen
      ensures forall rt: Runtime {:trigger CallBytes(rt, Len(eventId, varId, length))} ::
        var r := CallBytes(rt, Len(eventId, varId, length)); log == old(log) + Wrote(r) && outcome == Raised(r)
    {
      if varId.None? {
        assert log + [] == log;
        return Pass;
      }
      outcome := WriteEncoded(EncodeLenEvent(eventId, varId.value, length));
    }
  }

  // ---------------------------------------------------------------------
  // A recorded session reads back
  // ---------------------------------------------------------------------

  /** What each call adds to the events file: its bytes, or nothing when it raised. */
  function Writer(rt: Runtime): Call -> seq<byte>
  {
    c => Wrote(CallBytes(rt, c))
  }

  /** The pieces a writer gives for the calls, one after another. */
  function Joined(w: Call -> seq<byte>, calls: seq<Call>): seq<byte>
    decreases |calls|
  {
    if calls == [] then [] else w(calls[0]) + Joined(w, calls[1..])
  }

  /** One more call adds its piece at the end. */
  lemma {:induction false} JoinedAppend(w: Call -> seq<byte>, calls: seq<Call>, c: Call)
    ensures Joined(w, calls + [c]) == Joined(w, calls) + w(c)
    decreases |calls|
  {
    if calls == [] {
      assert [c][1..] == [];
    } else {
      assert (calls + [c])[0] == calls[0] && (calls + [c])[1..] == calls[1..] + [c];
      JoinedAppend(w, calls[1..], c);
    }
  }

  /** The events file after a run of calls on a freshly opened recorder: each call's bytes in order, nothing for one that raised. */
  function Session(rt: Runtime, calls: seq<Call>): seq<byte>
  {
    Joined(Writer(rt), calls)
  }

  /** One more call appends what that call writes: the log of a recorder driven through the calls is their session. */
  lemma {:induction false} SessionAppend(rt: Runtime, calls: seq<Call>, c: Call)
    ensures Session(rt, calls + [c]) == Session(rt, calls) + Wrote(CallBytes(rt, c))
  {
    JoinedAppend(Writer(rt), calls, c);
  }

  /** pickle.loads gives back what pickle.dumps wrote. */
  predicate PickleInverts(rt: Runtime, v: Value)
  {
    Pickle(rt, v).Ok? && rt.loads(Pickle(rt, v).value) == Some(v)
  }

  /**
   * A call whose record load_event reads back: it writes without raising,
   * the table holds a prototype of the call's kind under its id, the type
   * name it writes is ASCII, and pickle.loads inverts pickle.dumps on the
   * value it writes.
   */
  predicate Recordable(rt: Runtime, table: map<int, Event>, c: Call)
  {
    CallBytes(rt, c).Ok? && c.eventId in table && Kind(table[c.eventId]) == CallKind(c)
    && match c
       case Plain(k, _) => Layout(k) == []
       case Def(_, varId, value, t) =>
         varId.Some? ==> Utf8.IsAscii(DefWritten(value, t).1) && PickleInverts(rt, DefWritten(value, t).0)
       case Exit(id, value, t) =>
         Utf8.IsAscii(ExitWritten(rt, id, value, t).1) && PickleInverts(rt, ExitWritten(rt, id, value, t).0)
       case _ => true
  }

  predicate AllRecordable(rt: Runtime, table: map<int, Event>, calls: seq<Call>)
    decreases |calls|
  {
    calls == [] || (Recordable(rt, table, calls[0]) && AllRecordable(rt, table, calls[1..]))
  }

  /** The dynamic fields the loader recovers from the record a call writes. */
  function CallPayload(rt: Runtime, c: Call): (p: Payload)
    requires !Skipped(c) && (c.Plain? ==> Layout(c.kind) == [])
    ensures FitsKind(CallKind(c), p)
  {
    match c
    case Plain(_, _) => NoPayload
    case Def(_, varId, value, t) => DefPayload(varId.value, DefWritten(value, t).0, DefWritten(value, t).1)
    case Exit(id, value, t) => ExitPayload(ExitWritten(rt, id, value, t).0, ExitWritten(rt, id, value, t).1)
    case Condition(_, value) => ConditionPayload(Truth(rt, value) == Some(true))
    case Use(_, varId) => UsePayload(varId.value)
    case Len(_, varId, length) => LenPayload(varId.value, length)
  }

  /** The events the calls describe: for each call that writes, its prototype carrying what the call recorded. */
  function Recovered(rt: Runtime, table: map<int, Event>, calls: seq<Call>): seq<Event>
    requires AllRecordable(rt, table, calls)
    decreases |calls|
  {
    if calls == [] then []
    else if Skipped(calls[0]) then Recovered(rt, table, calls[1..])
    else [Instantiate(table[calls[0].eventId], CallPayload(rt, calls[0]))] + Recovered(rt, table, calls[1..])
  }

  /** A record of one of the kinds without fields, wherever it lies, reads back as the prototype itself. */
  lemma {:induction false} PlainRereads(rt: Runtime, table: map<int, Event>, data: seq<byte>, id: int)
    requires EncodeEvent(id).Ok? && id in table && Layout(Kind(table[id])) == []
    ensures Fits(table[id], NoPayload)
    ensures Rereads(Parser(rt, table, data), data, Instantiate(table[id], NoPayload), EncodeEvent(id).value)
  {
    var h := EncodeEvent(id).value;
    EncodeEventIsVarint(id);
    assert h == h + Concat([]);
    WrittenRereads(rt, table, data, id, h, h, [], [], NoPayload);
  }

  /** A def record with a pickled value that unpickles, wherever it lies, reads back as the prototype carrying var_id, the value and the name. */
  lemma {:induction false} DefRereads(rt: Runtime, table: map<int, Event>, data: seq<byte>, id: int, varId: int, v: Value, name: string)
    requires PickleInverts(rt, v) && Utf8.IsAscii(name)
    requires EncodeDefEvent(rt, id, varId, BytesValue(Pickle(rt, v).value), name).Ok?
    requires id in table && Kind(table[id]) == DEF
    ensures Fits(table[id], DefPayload(varId, v, name))
    ensures Rereads(Parser(rt, table, data), data, Instantiate(table[id], DefPayload(varId, v, name)),
                    EncodeDefEvent(rt, id, varId, BytesValue(Pickle(rt, v).value), name).value)
  {
    var pickled := Pickle(rt, v).value;
    assert ValueBytes(rt, BytesValue(pickled)) == pickled;
    EncodeEventIsVarint(id);
    EncodeEventIsVarint(varId);
    ValueFieldIsLenField(pickled);
    TypeFieldIsStrField(name);
    PickledValueReadsBack(rt, v);
    DefFieldsRereads(rt, table, data, id, varId, pickled, v, name, EncodeDefEvent(rt, id, varId, BytesValue(pickled), name).value,
                     EncodeEvent(id).value, EncodeEvent(varId).value, ValueField(pickled).value, TypeField(name).value);
  }

  /** An id, var_id, a value field and a type field, wherever they lie, read back as a def event carrying what the fields hold. */
  lemma {:induction false} DefFieldsRereads(rt: Runtime, table: map<int, Event>, data: seq<byte>, id: int, m: int,
                                            pickled: seq<byte>, v: Value, name: string,
                                            rec: seq<byte>, h: seq<byte>, a: seq<byte>, b: seq<byte>, c: seq<byte>)
    requires rec == h + (a + b + c) && IsVarint(h, id) && IsVarint(a, m)
    requires IsLenField(b, 4, pickled) && IsStrField(c, 2, name) && InterpretValue(rt, pickled) == Ok(v)
    requires id in table && Kind(table[id]) == DEF
    ensures Fits(table[id], DefPayload(m, v, name))
    ensures Rereads(Parser(rt, table, data), data, Instantiate(table[id], DefPayload(m, v, name)), rec)
  {
    ConcatThree(a, b, c);
    AllWrittenOne(LenStr2, StrField(name), c);
    AllWrittenCons(LenBytes4, BytesField(pickled), b, [LenStr2], [StrField(name)], [c]);
    AllWrittenCons(LenInt1, IntField(m), a, [LenBytes4, LenStr2], [BytesField(pickled), StrField(name)], [b, c]);
    var xs := [IntField(m), BytesField(pickled), StrField(name)];
    assert ToPayload(rt, DEF, xs) == Ok(DefPayload(m, v, name));
    WrittenRereads(rt, table, data, id, rec, h, [a, b, c], xs, DefPayload(m, v, name));
  }

  /** A function-exit record with a pickled value that unpickles, wherever it lies, reads back as the prototype carrying the value and the name. */
  lemma {:induction false} ExitRereads(rt: Runtime, table: map<int, Event>, data: seq<byte>, id: int, v: Value, name: string)
    requires PickleInverts(rt, v) && Utf8.IsAscii(name)
    requires EncodeFunctionExitEvent(rt, id, BytesValue(Pickle(rt, v).value), name).Ok?
    requires id in table && Kind(table[id]) == FUNCTION_EXIT
    ensures Fits(table[id], ExitPayload(v, name))
    ensures Rereads(Parser(rt, table, data), data, Instantiate(table[id], ExitPayload(v, name)),
                    EncodeFunctionExitEvent(rt, id, BytesValue(Pickle(rt, v).value), name).value)
  {
    var pickled := Pickle(rt, v).value;
    assert ValueBytes(rt, BytesValue(pickled)) == pickled;
    EncodeEventIsVarint(id);
    ValueFieldIsLenField(pickled);
    TypeFieldIsStrField(name);
    PickledValueReadsBack(rt, v);
    ExitFieldsRereads(rt, table, data, id, pickled, v, name, EncodeFunctionExitEvent(rt, id, BytesValue(pickled), name).value,
                      EncodeEvent(id).value, ValueField(pickled).value, TypeField(name).value);
  }

  /** An id, a value field and a type field, wherever they lie, read back as a function-exit event carrying what the fields hold. */
  lemma {:induction false} ExitFieldsRereads(rt: Runtime, table: map<int, Event>, data: seq<byte>, id: int,
                                             pickled: seq<byte>, v: Value, name: string,
                                             rec: seq<byte>, h: seq<byte>, b: seq<byte>, c: seq<byte>)
    requires rec == h + (b + c) && IsVarint(h, id)
    requires IsLenField(b, 4, pickled) && IsStrField(c, 2, name) && InterpretValue(rt, pickled) == Ok(v)
    requires id in table && Kind(table[id]) == FUNCTION_EXIT
    ensures Fits(table[id], ExitPayload(v, name))
    ensures Rereads(Parser(rt, table, data), data, Instantiate(table[id], ExitPayload(v, name)), rec)
  {
    ConcatTwo(b, c);
    AllWrittenOne(LenStr2, StrField(name), c);
    AllWrittenCons(LenBytes4, BytesField(pickled), b, [LenStr2], [StrField(name)], [c]);
    var xs := [BytesField(pickled), StrField(name)];
    assert ToPayload(rt, FUNCTION_EXIT, xs) == Ok(ExitPayload(v, name));
    WrittenRereads(rt, table, data, id, rec, h, [b, c], xs, ExitPayload(v, name));
  }

  /** A condition record, wherever it lies, reads back as the prototype carrying the outcome written. */
  lemma {:induction false} ConditionRereads(rt: Runtime, table: map<int, Event>, data: seq<byte>, id: int, b: bool)
    requires EncodeConditionEvent(id, b).Ok? && id in table && Kind(table[id]) == CONDITION
    ensures Fits(table[id], ConditionPayload(b))
    ensures Rereads(Parser(rt, table, data), data, Instantiate(table[id], ConditionPayload(b)), EncodeConditionEvent(id, b).value)
  {
    EncodeEventIsVarint(id);
    FlagRereads(rt, table, data, id, b, EncodeConditionEvent(id, b).value, EncodeEvent(id).value);
  }

  /** An id and a one-byte flag after it, wherever they lie, read back as a condition event with that outcome. */
  lemma {:induction false} FlagRereads(rt: Runtime, table: map<int, Event>, data: seq<byte>, id: int, b: bool,
                                       rec: seq<byte>, h: seq<byte>)
    requires rec == h + [if b then 1 else 0] && IsVarint(h, id)
    requires id in table && Kind(table[id]) == CONDITION
    ensures Fits(table[id], ConditionPayload(b))
    ensures Rereads(Parser(rt, table, data), data, Instantiate(table[id], ConditionPayload(b)), rec)
  {
    var flag: byte := if b then 1 else 0;
    ConcatOne([flag]);
    AllWrittenOne(Int1, IntField(flag as int), [flag]);
    assert ToPayload(rt, CONDITION, [IntField(flag as int)]) == Ok(ConditionPayload(b));
    WrittenRereads(rt, table, data, id, rec, h, [[flag]], [IntField(flag as int)], ConditionPayload(b));
  }

  /** A use record, wherever it lies, reads back as the prototype carrying var_id. */
  lemma {:induction false} UseRereads(rt: Runtime, table: map<int, Event>, data: seq<byte>, id: int, varId: int)
    requires EncodeUseEvent(id, varId).Ok? && id in table && Kind(table[id]) == USE
    ensures Fits(table[id], UsePayload(varId))
    ensures Rereads(Parser(rt, table, data), data, Instantiate(table[id], UsePayload(varId)), EncodeUseEvent(id, varId).value)
  {
    EncodeEventIsVarint(id);
    EncodeEventIsVarint(varId);
    OneIntRereads(rt, table, data, id, varId, EncodeUseEvent(id, varId).value, EncodeEvent(id).value, EncodeEvent(varId).value);
  }

  /** An id and one variable-length integer after it, wherever they lie, read back as a use event carrying it. */
  lemma {:induction false} OneIntRereads(rt: Runtime, table: map<int, Event>, data: seq<byte>, id: int, m: int,
                                         rec: seq<byte>, h: seq<byte>, a: seq<byte>)
    requires rec == h + a && IsVarint(h, id) && IsVarint(a, m)
    requires id in table && Kind(table[id]) == USE
    ensures Fits(table[id], UsePayload(m))
    ensures Rereads(Parser(rt, table, data), data, Instantiate(table[id], UsePayload(m)), rec)
  {
    ConcatOne(a);
    AllWrittenOne(LenInt1, IntField(m), a);
    assert ToPayload(rt, USE, [IntField(m)]) == Ok(UsePayload(m));
    WrittenRereads(rt, table, data, id, rec, h, [a], [IntField(m)], UsePayload(m));
  }

  /** A len record, wherever it lies, reads back as the prototype carrying var_id and the length. */
  lemma {:induction false} LenRereads(rt: Runtime, table: map<int, Event>, data: seq<byte>, id: int, varId: int, length: int)
    requires EncodeLenEvent(id, varId, length).Ok? && id in table && Kind(table[id]) == LEN
    ensures Fits(table[id], LenPayload(varId, length))
    ensures Rereads(Parser(rt, table, data), data, Instantiate(table[id], LenPayload(varId, length)),
                    EncodeLenEvent(id, varId, length).value)
  {
    EncodeEventIsVarint(id);
    EncodeEventIsVarint(varId);
    EncodeEventIsVarint(length);
    TwoIntsRereads(rt, table, data, id, varId, length, EncodeLenEvent(id, varId, length).value,
                   EncodeEvent(id).value, EncodeEvent(varId).value, EncodeEvent(length).value);
  }

  /** An id and two variable-length integers after it, wherever they lie, read back as a len event carrying the two. */
  lemma {:induction false} TwoIntsRereads(rt: Runtime, table: map<int, Event>, data: seq<byte>, id: int, m: int, n: int,
                                          rec: seq<byte>, h: seq<byte>, a: seq<byte>, b: seq<byte>)
    requires rec == h + a + b && IsVarint(h, id) && IsVarint(a, m) && IsVarint(b, n)
    requires id in table && Kind(table[id]) == LEN
    ensures Fits(table[id], LenPayload(m, n))
    ensures Rereads(Parser(rt, table, data), data, Instantiate(table[id], LenPayload(m, n)), rec)
  {
    TwoIntsWritten(h, a, b, m, n);
    assert ToPayload(rt, LEN, [IntField(m), IntField(n)]) == Ok(LenPayload(m, n));
    WrittenRereads(rt, table, data, id, rec, h, [a, b], [IntField(m), IntField(n)], LenPayload(m, n));
  }

  /** Whatever a recordable call writes, wherever it lies, reads back as the event the call describes. */
  lemma {:induction false} CallRereads(rt: Runtime, table: map<int, Event>, data: seq<byte>, c: Call)
    requires Recordable(rt, table, c) && !Skipped(c)
    ensures Fits(table[c.eventId], CallPayload(rt, c))
    ensures Rereads(Parser(rt, table, data), data, Instantiate(table[c.eventId], CallPayload(rt, c)), CallBytes(rt, c).value)
  {
    match c
    case Plain(_, id) =>
      PlainRereads(rt, table, data, id);
    case Def(id, varId, value, t) =>
      DefRereads(rt, table, data, id, varId.value, DefWritten(value, t).0, DefWritten(value, t).1);
    case Exit(id, value, t) =>
      ExitRereads(rt, table, data, id, ExitWritten(rt, id, value, t).0, ExitWritten(rt, id, value, t).1);
    case Condition(id, value) =>
      ConditionRereads(rt, table, data, id, Truth(rt, value) == Some(true));
    case Use(id, varId) =>
      UseRereads(rt, table, data, id, varId.value);
    case Len(id, varId, length) =>
      LenRereads(rt, table, data, id, varId.value, length);
  }

  /** The session is the records of the calls that write, one after another, each rereading as its event. */
  lemma {:induction false} SessionRecords(rt: Runtime, table: map<int, Event>, data: seq<byte>, calls: seq<Call>)
    returns (recs: seq<seq<byte>>)
    requires AllRecordable(rt, table, calls)
    ensures Session(rt, calls) == Concat(recs)
    ensures AllRereads(Parser(rt, table, data), data, Recovered(rt, table, calls), recs)
    decreases |calls|
  {
    if calls == [] {
      recs := [];
    } else {
      var rest := SessionRecords(rt, table, data, calls[1..]);
      if Skipped(calls[0]) {
        recs := rest;
        assert Writer(rt)(calls[0]) == [];
        assert [] + Session(rt, calls[1..]) == Session(rt, calls[1..]);
      } else {
        CallRereads(rt, table, data, calls[0]);
        recs := [CallBytes(rt, calls[0]).value] + rest;
        assert recs[0] == CallBytes(rt, calls[0]).value && recs[1..] == rest;
      }
    }
  }

  /** The events file of a session of recordable calls loads back as the events the calls describe, in order. */
  lemma {:induction false} SessionLoads(rt: Runtime, table: map<int, Event>, calls: seq<Call>)
    requires AllRecordable(rt, table, calls)
    ensures LoadFrom(rt, table, Session(rt, calls), 0) == Recovered(rt, table, calls)
  {
    var data := Session(rt, calls);
    var events := Recovered(rt, table, calls);
    var recs := SessionRecords(rt, table, data, calls);
    assert data[0..|data|] == data;
    ConcatLaid(data, 0, recs, |data|);
    ParsesAll(Parser(rt, table, data), data, events, recs, 0, |data|);
    LoadParsed(rt, table, data, 0, events, |data|);
    LoadFromStep(rt, table, data, |data|);
    assert events + [] == events;
  }
}
