/**
 * The event hierarchy as one sum type. Every variant carries the static
 * identity (file, line, event id; the kind is the variant), its kind's
 * static fields, and its kind's dynamic fields, which stay at their
 * defaults (None) on a catalog prototype and are filled in by Instantiate.
 */
module Events {
  import opened Wrappers
  import opened IntBytes
  import opened PyObjects
  import opened EventTypes
  import opened Codec

  datatype Event =
    | LineEvent(file: string, line: int, eventId: int)
    | BranchEvent(file: string, line: int, eventId: int, thenId: int, elseId: int)
    | DefEvent(file: string, line: int, eventId: int, varName: string,
               varId: Option<int>, value: Value, typeName: Option<string>)
    | FunctionEnterEvent(file: string, line: int, eventId: int, functionName: string, functionId: int)
    | FunctionExitEvent(file: string, line: int, eventId: int, functionName: string, functionId: int,
                        tmpVar: string, returnValue: Value, typeName: Option<string>)
    | FunctionErrorEvent(file: string, line: int, eventId: int, functionName: string, functionId: int)
    | ConditionEvent(file: string, line: int, eventId: int, condition: string, tmpVar: string,
                     outcome: Option<bool>)
    | LoopBeginEvent(file: string, line: int, eventId: int, loopId: int)
    | LoopHitEvent(file: string, line: int, eventId: int, loopId: int)
    | LoopEndEvent(file: string, line: int, eventId: int, loopId: int)
    | UseEvent(file: string, line: int, eventId: int, varName: string, varId: Option<int>)
    | LenEvent(file: string, line: int, eventId: int, varName: string, varId: Option<int>, length: Option<int>)

  /** event.event_type */
  function Kind(e: Event): EventType
  {
    match e
    case LineEvent(_, _, _) => LINE
    case BranchEvent(_, _, _, _, _) => BRANCH
    case DefEvent(_, _, _, _, _, _, _) => DEF
    case FunctionEnterEvent(_, _, _, _, _) => FUNCTION_ENTER
    case FunctionExitEvent(_, _, _, _, _, _, _, _) => FUNCTION_EXIT
    case FunctionErrorEvent(_, _, _, _, _) => FUNCTION_ERROR
    case ConditionEvent(_, _, _, _, _, _) => CONDITION
    case LoopBeginEvent(_, _, _, _) => LOOP_BEGIN
    case LoopHitEvent(_, _, _, _) => LOOP_HIT
    case LoopEndEvent(_, _, _, _) => LOOP_END
    case UseEvent(_, _, _, _, _) => USE
    case LenEvent(_, _, _, _, _, _) => LEN
  }

  /** Event.__eq__: equal file, line, event id and kind; every other field is ignored. */
  predicate Same(a: Event, b: Event)
  {
    a.file == b.file && a.line == b.line && a.eventId == b.eventId && Kind(a) == Kind(b)
  }

  /** The tuple Event.__hash__ hashes. */
  function HashKey(e: Event): (string, int, int, nat)
  {
    (e.file, e.line, e.eventId, EventTypes.Value(Kind(e)))
  }

  /** Two events are equal exactly when their hashed tuples are, so hash agrees with equality. */
  lemma SameIffHashKeysEqual(a: Event, b: Event)
    ensures Same(a, b) <==> HashKey(a) == HashKey(b)
  {
    EventTypes.ValueInjective(Kind(a), Kind(b));
  }

  /** The catalog prototype of an event: the same static fields, every dynamic field back at None. */
  function Strip(e: Event): Event
  {
    match e
    case DefEvent(f, l, i, v, _, _, _) => DefEvent(f, l, i, v, None, NoneValue, None)
    case FunctionExitEvent(f, l, i, fn, fi, t, _, _) => FunctionExitEvent(f, l, i, fn, fi, t, NoneValue, None)
    case ConditionEvent(f, l, i, c, t, _) => ConditionEvent(f, l, i, c, t, None)
    case UseEvent(f, l, i, v, _) => UseEvent(f, l, i, v, None)
    case LenEvent(f, l, i, v, _, _) => LenEvent(f, l, i, v, None, None)
    case _ => e
  }

  predicate IsPrototype(e: Event) { Strip(e) == e }

  /** The arguments of one kind's instantiate. */
  datatype Payload =
    | NoPayload
    | DefPayload(varId: int, value: Value, typeName: string)
    | ExitPayload(returnValue: Value, typeName: string)
    | ConditionPayload(outcome: bool)
    | UsePayload(varId: int)
    | LenPayload(varId: int, length: int)

  /** The payload has the shape instantiate takes for events of kind k (any other call raises TypeError). */
  predicate FitsKind(k: EventType, p: Payload)
  {
    match k
    case DEF => p.DefPayload?
    case FUNCTION_EXIT => p.ExitPayload?
    case CONDITION => p.ConditionPayload?
    case USE => p.UsePayload?
    case LEN => p.LenPayload?
    case _ => p.NoPayload?
  }

  predicate Fits(e: Event, p: Payload) { FitsKind(Kind(e), p) }

  /** The event's dynamic fields hold exactly the payload. */
  predicate Carries(e: Event, p: Payload)
  {
    match p
    case NoPayload => IsPrototype(e)
    case DefPayload(v, x, t) => e.DefEvent? && e.varId == Some(v) && e.value == x && e.typeName == Some(t)
    case ExitPayload(x, t) => e.FunctionExitEvent? && e.returnValue == x && e.typeName == Some(t)
    case ConditionPayload(b) => e.ConditionEvent? && e.outcome == Some(b)
    case UsePayload(v) => e.UseEvent? && e.varId == Some(v)
    case LenPayload(v, n) => e.LenEvent? && e.varId == Some(v) && e.length == Some(n)
  }

  /** instantiate: a fresh event equal to e, with e's static fields and the payload as its dynamic fields. */
  function Instantiate(e: Event, p: Payload): (r: Event)
    requires Fits(e, p)
    ensures Same(r, e) && Strip(r) == Strip(e) && Carries(r, p)
  {
    match p
    case DefPayload(v, x, t) => DefEvent(e.file, e.line, e.eventId, e.varName, Some(v), x, Some(t))
    case ExitPayload(x, t) =>
      FunctionExitEvent(e.file, e.line, e.eventId, e.functionName, e.functionId, e.tmpVar, x, Some(t))
    case ConditionPayload(b) => ConditionEvent(e.file, e.line, e.eventId, e.condition, e.tmpVar, Some(b))
    case UsePayload(v) => UseEvent(e.file, e.line, e.eventId, e.varName, Some(v))
    case LenPayload(v, n) => LenEvent(e.file, e.line, e.eventId, e.varName, Some(v), Some(n))
    case NoPayload => Strip(e)
  }

  /** An instance of a prototype keeps nothing of an earlier instantiation: the payload alone decides its dynamic fields. */
  lemma InstantiateForgetsDynamics(e: Event, p: Payload)
    requires Fits(e, p)
    ensures Instantiate(e, p) == Instantiate(Strip(e), p)
  {
  }

  /** Two instances of one prototype are equal under == whatever their payloads, yet differ in those payloads. */
  lemma InstancesEqualWhateverPayload(e: Event, p: Payload, q: Payload)
    requires Fits(e, p) && Fits(e, q) && p != q
    ensures Same(Instantiate(e, p), Instantiate(e, q))
    ensures Instantiate(e, p) != Instantiate(e, q)
  {
  }

  /** dump: the event's trace record; a dynamic field still at None raises. */
  function Dump(rt: Runtime, e: Event): (r: Result<seq<byte>, Error>)
  {
    match e
    case DefEvent(_, _, i, _, varId, value, typeName) =>
      if varId.None? then Err(AttributeError)
      else if typeName.None? then Err(TypeError)
      else EncodeDefEvent(rt, i, varId.value, value, typeName.value)
    case FunctionExitEvent(_, _, i, _, _, _, value, typeName) =>
      if typeName.None? then Err(TypeError)
      else EncodeFunctionExitEvent(rt, i, value, typeName.value)
    case ConditionEvent(_, _, i, _, _, outcome) =>
      EncodeConditionEvent(i, outcome == Some(true))
    case UseEvent(_, _, i, _, varId) =>
      if varId.None? then Err(AttributeError)
      else EncodeUseEvent(i, varId.value)
    case LenEvent(_, _, i, _, varId, length) =>
      if varId.None? || length.None? then Err(AttributeError)
      else EncodeLenEvent(i, varId.value, length.value)
    case _ => EncodeEvent(e.eventId)
  }

  /** What dump(path, events) leaves in the file, and whether it raised part way. */
  function DumpedAll(rt: Runtime, events: seq<Event>): (seq<byte>, Outcome<Error>)
  {
    if events == [] then ([], Pass)
    else
      match Dump(rt, events[0])
      case Err(e) => ([], Fail(e))
      case Ok(record) =>
        var (rest, outcome) := DumpedAll(rt, events[1..]);
        (record + rest, outcome)
  }

  /** dump(path, events): writes each event's record in turn; the first record that raises stops it. */
  method DumpAll(rt: Runtime, events: seq<Event>) returns (written: seq<byte>, outcome: Outcome<Error>)
    ensures written == DumpedAll(rt, events).0 && outcome == DumpedAll(rt, events).1
  {
    written, outcome := [], Pass;
    var i := 0;
    assert events[0..] == events;
    assert [] + DumpedAll(rt, events).0 == DumpedAll(rt, events).0;
    while i < |events|
      invariant 0 <= i <= |events|
      invariant DumpedAll(rt, events).0 == written + DumpedAll(rt, events[i..]).0
      invariant DumpedAll(rt, events).1 == DumpedAll(rt, events[i..]).1
    {
      var record := Dump(rt, events[i]);
      DumpedAllStep(rt, events[i..]);
      assert events[i..][1..] == events[i + 1..];
      if record.Err? {
        outcome := Fail(record.error);
        assert written + [] == written;
        return;
      }
      assert written + record.value + DumpedAll(rt, events[i + 1..]).0
          == written + (record.value + DumpedAll(rt, events[i + 1..]).0);
      written := written + record.value;
      i := i + 1;
    }
    assert events[i..] == [];
  }

  lemma DumpedAllStep(rt: Runtime, events: seq<Event>)
    requires events != []
    ensures Dump(rt, events[0]).Err? ==> DumpedAll(rt, events) == ([], Fail(Dump(rt, events[0]).error))
    ensures Dump(rt, events[0]).Ok? ==>
      DumpedAll(rt, events).0 == Dump(rt, events[0]).value + DumpedAll(rt, events[1..]).0
      && DumpedAll(rt, events).1 == DumpedAll(rt, events[1..]).1
  {
  }
}
