/**
 * The EventType enumeration: the production event kinds with their fixed
 * ordinals. The Python enum declares LINE = 0 through LOOP_END = 10; the
 * event module also uses EventType.LEN, so LEN = 11 is added here.
 */
module EventTypes {
  import opened Wrappers

  datatype EventType =
    | LINE | BRANCH | FUNCTION_ENTER | FUNCTION_EXIT | FUNCTION_ERROR | DEF
    | USE | CONDITION | LOOP_BEGIN | LOOP_HIT | LOOP_END | LEN

  /** EventType.X.value */
  function Value(t: EventType): (v: nat)
    ensures v < 12
  {
    match t
    case LINE => 0
    case BRANCH => 1
    case FUNCTION_ENTER => 2
    case FUNCTION_EXIT => 3
    case FUNCTION_ERROR => 4
    case DEF => 5
    case USE => 6
    case CONDITION => 7
    case LOOP_BEGIN => 8
    case LOOP_HIT => 9
    case LOOP_END => 10
    case LEN => 11
  }

  /** EventType(v): the member whose value is v, None where Python raises ValueError. */
  function FromValue(v: int): (r: Option<EventType>)
    ensures r.Some? <==> 0 <= v < 12
  {
    if v == 0 then Some(LINE)
    else if v == 1 then Some(BRANCH)
    else if v == 2 then Some(FUNCTION_ENTER)
    else if v == 3 then Some(FUNCTION_EXIT)
    else if v == 4 then Some(FUNCTION_ERROR)
    else if v == 5 then Some(DEF)
    else if v == 6 then Some(USE)
    else if v == 7 then Some(CONDITION)
    else if v == 8 then Some(LOOP_BEGIN)
    else if v == 9 then Some(LOOP_HIT)
    else if v == 10 then Some(LOOP_END)
    else if v == 11 then Some(LEN)
    else None
  }

  /** list(EventType): declaration order. */
  const Members: seq<EventType> :=
    [LINE, BRANCH, FUNCTION_ENTER, FUNCTION_EXIT, FUNCTION_ERROR, DEF,
     USE, CONDITION, LOOP_BEGIN, LOOP_HIT, LOOP_END, LEN]

  /** EventType(v) succeeds exactly on the declared ordinals and inverts .value. */
  lemma FromValueInvertsValue(t: EventType, v: int)
    ensures FromValue(v) == Some(t) <==> Value(t) == v
  {
  }

  /** Distinct kinds have distinct ordinals. */
  lemma ValueInjective(s: EventType, t: EventType)
    ensures Value(s) == Value(t) ==> s == t
  {
    FromValueInvertsValue(s, Value(s));
    FromValueInvertsValue(t, Value(t));
  }

  /** Iteration yields every kind exactly once, in the order of its ordinal. */
  lemma MembersInOrdinalOrder()
    ensures |Members| == 12
    ensures forall i :: 0 <= i < |Members| ==> Value(Members[i]) == i
    ensures forall t: EventType :: t in Members
  {
    forall t: EventType ensures t in Members {
      assert Members[Value(t)] == t;
    }
  }
}
