/**
 * The catalog: each prototype serialises its static fields to a record
 * tagged with its kind's ordinal; deserialize dispatches on that tag to
 * the kind's own deserialize (event_mapping), and load_json folds the
 * deserialised records into the id -> prototype table.
 */
module Catalog {
  import opened Wrappers
  import opened PyObjects
  import opened EventTypes
  import opened Events

  /** A JSON scalar as the catalog stores it. */
  datatype Json = JInt(i: int) | JStr(s: string)

  /** One serialised event: a JSON object. */
  type Record = map<string, Json>

  /** serialize: the static fields, keyed as the source keys them, and the kind's ordinal under "event_type". */
  function Serialize(e: Event): Record
  {
    var base := map["file" := JStr(e.file), "line" := JInt(e.line), "id" := JInt(e.eventId),
                    "event_type" := JInt(EventTypes.Value(Kind(e)))];
    match e
    case LineEvent(_, _, _) => base
    case BranchEvent(_, _, _, thenId, elseId) => base["then_id" := JInt(thenId)]["else_id" := JInt(elseId)]
    case DefEvent(_, _, _, v, _, _, _) => base["var" := JStr(v)]
    case FunctionEnterEvent(_, _, _, fn, fi) => base["function" := JStr(fn)]["function_id" := JInt(fi)]
    case FunctionExitEvent(_, _, _, fn, fi, t, _, _) =>
      base["function" := JStr(fn)]["function_id" := JInt(fi)]["tmp_var" := JStr(t)]
    case FunctionErrorEvent(_, _, _, fn, fi) => base["function" := JStr(fn)]["function_id" := JInt(fi)]
    case ConditionEvent(_, _, _, c, t, _) => base["condition" := JStr(c)]["tmp_var" := JStr(t)]
    case LoopBeginEvent(_, _, _, l) => base["loop_id" := JInt(l)]
    case LoopHitEvent(_, _, _, l) => base["loop_id" := JInt(l)]
    case LoopEndEvent(_, _, _, l) => base["loop_id" := JInt(l)]
    case UseEvent(_, _, _, v, _) => base["var" := JStr(v)]
    case LenEvent(_, _, _, v, _, _) => base["var" := JStr(v)]
  }

  /** The keys a kind's deserialize asserts are present. */
  function RequiredKeys(t: EventType): seq<string>
  {
    var base := ["file", "line", "id"];
    match t
    case LINE => base
    case BRANCH => base + ["then_id", "else_id"]
    case DEF => base + ["var"]
    case USE => base + ["var"]
    case LEN => base + ["var"]
    case FUNCTION_ENTER => base + ["function", "function_id"]
    case FUNCTION_ERROR => base + ["function", "function_id"]
    case FUNCTION_EXIT => base + ["function", "function_id", "tmp_var"]
    case CONDITION => base + ["condition", "tmp_var"]
    case LOOP_BEGIN => base + ["loop_id"]
    case LOOP_HIT => base + ["loop_id"]
    case LOOP_END => base + ["loop_id"]
  }

  /** s[k] as a string: KeyError when absent, TypeError when it holds a number. */
  function GetStr(s: Record, k: string): Result<string, Error>
  {
    if k !in s then Err(KeyError) else if s[k].JStr? then Ok(s[k].s) else Err(TypeError)
  }

  /** s[k] as an integer: KeyError when absent, TypeError when it holds a string. */
  function GetInt(s: Record, k: string): Result<int, Error>
  {
    if k !in s then Err(KeyError) else if s[k].JInt? then Ok(s[k].i) else Err(TypeError)
  }

  /** The prototype of kind t built from a record that has t's keys. */
  function Build(t: EventType, s: Record): (r: Result<Event, Error>)
    ensures r.Ok? ==> Kind(r.value) == t && IsPrototype(r.value)
  {
    var file :- GetStr(s, "file");
    var line :- GetInt(s, "line");
    var id :- GetInt(s, "id");
    BuildKind(t, s, file, line, id)
  }

  /** The kind-specific part of Build: the kind's own keys, after file, line and id. */
  function BuildKind(t: EventType, s: Record, file: string, line: int, id: int): (r: Result<Event, Error>)
    ensures r.Ok? ==> Kind(r.value) == t && IsPrototype(r.value)
  {
    match t
    case LINE => Ok(LineEvent(file, line, id))
    case BRANCH =>
      var thenId :- GetInt(s, "then_id");
      var elseId :- GetInt(s, "else_id");
      Ok(BranchEvent(file, line, id, thenId, elseId))
    case DEF =>
      var v :- GetStr(s, "var");
      Ok(DefEvent(file, line, id, v, None, NoneValue, None))
    case USE =>
      var v :- GetStr(s, "var");
      Ok(UseEvent(file, line, id, v, None))
    case LEN =>
      var v :- GetStr(s, "var");
      Ok(LenEvent(file, line, id, v, None, None))
    case FUNCTION_ENTER =>
      var fn :- GetStr(s, "function");
      var fi :- GetInt(s, "function_id");
      Ok(FunctionEnterEvent(file, line, id, fn, fi))
    case FUNCTION_ERROR =>
      var fn :- GetStr(s, "function");
      var fi :- GetInt(s, "function_id");
      Ok(FunctionErrorEvent(file, line, id, fn, fi))
    case FUNCTION_EXIT =>
      var fn :- GetStr(s, "function");
      var fi :- GetInt(s, "function_id");
      var tmp :- GetStr(s, "tmp_var");
      Ok(FunctionExitEvent(file, line, id, fn, fi, tmp, NoneValue, None))
    case CONDITION =>
      var c :- GetStr(s, "condition");
      var tmp :- GetStr(s, "tmp_var");
      Ok(ConditionEvent(file, line, id, c, tmp, None))
    case LOOP_BEGIN =>
      var l :- GetInt(s, "loop_id");
      Ok(LoopBeginEvent(file, line, id, l))
    case LOOP_HIT =>
      var l :- GetInt(s, "loop_id");
      Ok(LoopHitEvent(file, line, id, l))
    case LOOP_END =>
      var l :- GetInt(s, "loop_id");
      Ok(LoopEndEvent(file, line, id, l))
  }

  /**
   * event_mapping[t].deserialize: assert the kind's keys are present, assert
   * the "event_type" tag is t's ordinal, then build the prototype.
   */
  function DeserializeAs(t: EventType, s: Record): (r: Result<Event, Error>)
    ensures r.Ok? ==> Kind(r.value) == t && IsPrototype(r.value)
    ensures r.Ok? ==> "event_type" in s && s["event_type"] == JInt(EventTypes.Value(t))
    ensures (exists k :: k in RequiredKeys(t) && k !in s) ==> r == Err(AssertionError)
  {
    if !(forall k :: k in RequiredKeys(t) ==> k in s) then Err(AssertionError)
    else if "event_type" !in s then Err(KeyError)
    else if s["event_type"] != JInt(EventTypes.Value(t)) then Err(AssertionError)
    else Build(t, s)
  }

  /** deserialize: the tag selects the kind; a missing tag or one that is no ordinal raises. */
  function Deserialize(s: Record): (r: Result<Event, Error>)
    ensures r.Ok? ==> "event_type" in s && s["event_type"] == JInt(EventTypes.Value(Kind(r.value)))
    ensures r.Ok? ==> IsPrototype(r.value)
  {
    if "event_type" !in s then Err(AssertionError)
    else if !s["event_type"].JInt? then Err(ValueError)
    else
      match EventTypes.FromValue(s["event_type"].i)
      case None => Err(ValueError)
      case Some(t) => DeserializeAs(t, s)
  }

  /** deserialize inverts serialize on the static fields, for every kind. */
  lemma DeserializeSerialize(e: Event)
    ensures Deserialize(Serialize(e)) == Ok(Strip(e))
  {
    EventTypes.FromValueInvertsValue(Kind(e), EventTypes.Value(Kind(e)));
    SerializeHasKeys(e);
    BuildSerialize(e);
  }

  /** A serialised event holds every key its kind's deserialize asserts, and its tag. */
  lemma SerializeHasKeys(e: Event)
    ensures forall k :: k in RequiredKeys(Kind(e)) ==> k in Serialize(e)
    ensures "event_type" in Serialize(e) && Serialize(e)["event_type"] == JInt(EventTypes.Value(Kind(e)))
  {
  }

  /** Building the kind's prototype from a serialised event gives back its static fields. */
  lemma BuildSerialize(e: Event)
    ensures Build(Kind(e), Serialize(e)) == Ok(Strip(e))
  {
  }

  /** A kind's deserialize accepts a serialised event exactly when the event is of that kind. */
  lemma DeserializeAsChecksTag(t: EventType, e: Event)
    ensures DeserializeAs(t, Serialize(e)).Ok? <==> t == Kind(e)
  {
    SerializeHasKeys(e);
    if t != Kind(e) {
      EventTypes.ValueInjective(t, Kind(e));
    } else {
      BuildSerialize(e);
    }
  }

  /** Each record decoded in order; the first record that raises stops it. */
  function DecodeEach(decode: Record -> Result<Event, Error>, records: seq<Record>): (r: Result<seq<Event>, Error>)
    ensures r.Ok? ==> |r.value| == |records|
  {
    if records == [] then Ok([])
    else
      var init :- DecodeEach(decode, records[..|records| - 1]);
      var e :- decode(records[|records| - 1]);
      Ok(init + [e])
  }

  /** Decoding all records succeeds exactly when each one does, and yields each one's event. */
  lemma {:induction false} DecodeEachPointwise(decode: Record -> Result<Event, Error>, records: seq<Record>)
    ensures DecodeEach(decode, records).Ok? <==> forall i :: 0 <= i < |records| ==> decode(records[i]).Ok?
    ensures DecodeEach(decode, records).Ok? ==>
      forall i :: 0 <= i < |records| ==> DecodeEach(decode, records).value[i] == decode(records[i]).value
  {
    if records != [] {
      var n := |records| - 1;
      DecodeEachPointwise(decode, records[..n]);
      forall i | 0 <= i < n ensures records[..n][i] == records[i] { }
    }
  }

  /** The dict comprehension {e.event_id: e for e in events}: later events overwrite earlier ones with the same id. */
  function Collect(events: seq<Event>): (table: map<int, Event>)
  {
    if events == [] then map[]
    else
      var last := events[|events| - 1];
      Collect(events[..|events| - 1])[last.eventId := last]
  }

  /** Every event's id is a key; the key holds the last event with that id; every key comes from an event. */
  lemma {:induction false} CollectLastWins(events: seq<Event>, j: nat)
    requires j < |events|
    ensures events[j].eventId in Collect(events)
    ensures (forall k :: j < k < |events| ==> events[k].eventId != events[j].eventId) ==>
      Collect(events)[events[j].eventId] == events[j]
  {
    var n := |events| - 1;
    if j < n {
      assert events[..n][j] == events[j];
      forall k | j < k < n ensures events[..n][k] == events[k] { }
      CollectLastWins(events[..n], j);
    }
  }

  lemma {:induction false} CollectKeys(events: seq<Event>, id: int)
    requires id in Collect(events)
    ensures exists i :: 0 <= i < |events| && events[i] == Collect(events)[id] && events[i].eventId == id
  {
    var n := |events| - 1;
    if events[n].eventId != id {
      CollectKeys(events[..n], id);
      var i :| 0 <= i < n && events[..n][i] == Collect(events[..n])[id] && events[..n][i].eventId == id;
      assert events[..n][i] == events[i];
    }
  }

  /** The position of the last event with the given id, at or after one that has it. */
  function LastWithId(events: seq<Event>, id: int, i: nat): (j: nat)
    requires i < |events| && events[i].eventId == id
    ensures i <= j < |events| && events[j].eventId == id
    ensures forall k :: j < k < |events| ==> events[k].eventId != id
    decreases |events| - i
  {
    if exists k :: i < k < |events| && events[k].eventId == id then
      var k :| i < k < |events| && events[k].eventId == id;
      LastWithId(events, id, k)
    else i
  }

  /** load_json: deserialise every record, then key each prototype by its id. */
  function LoadCatalog(records: seq<Record>): (r: Result<map<int, Event>, Error>)
  {
    var events :- DecodeEach(Deserialize, records);
    Ok(Collect(events))
  }

  /** The table load_json builds: each id maps to a prototype carrying that id, deserialised from the last record with it. */
  lemma LoadCatalogTable(records: seq<Record>, id: int)
    requires LoadCatalog(records).Ok? && id in LoadCatalog(records).value
    ensures LoadCatalog(records).value[id].eventId == id
    ensures IsPrototype(LoadCatalog(records).value[id])
    ensures exists i :: (0 <= i < |records| && Deserialize(records[i]) == Ok(LoadCatalog(records).value[id]) &&
      forall k :: i < k < |records| ==> Deserialize(records[k]).Ok? && Deserialize(records[k]).value.eventId != id)
  {
    DecodedTable(Deserialize, records, id);
  }

  /** Decoding every record and keying the events by id: the entry for id is the event of the last record carrying it. */
  lemma DecodedTable(decode: Record -> Result<Event, Error>, records: seq<Record>, id: int)
    requires DecodeEach(decode, records).Ok? && id in Collect(DecodeEach(decode, records).value)
    ensures var entry := Collect(DecodeEach(decode, records).value)[id];
      entry.eventId == id
      && exists i :: (0 <= i < |records| && decode(records[i]) == Ok(entry) &&
        forall k :: i < k < |records| ==> decode(records[k]).Ok? && decode(records[k]).value.eventId != id)
  {
    DecodeEachPointwise(decode, records);
    var events := DecodeEach(decode, records).value;
    CollectKeys(events, id);
    var i :| 0 <= i < |events| && events[i] == Collect(events)[id] && events[i].eventId == id;
    var last := LastWithId(events, id, i);
    CollectLastWins(events, last);
    assert decode(records[last]) == Ok(events[last]);
  }
}
