# sflkit-lib event traces in Dafny

sflkit-lib is the runtime half of SFLKit. An instrumented Python program calls the library's `add_*`
functions, and each call appends one binary record to an events file. Later the analysis side does two things:
- it loads a catalog of event prototypes, written as JSON by the instrumenter;
- it reads the events file back, turning every record into an instance of its prototype.

This project models that core:

- **Wire format** (`codec.dfy`, `int_bytes.dfy`, `utf8.dfy`):
  - `get_byte_length`;
  - the variable-length integer `[L] ++ big-endian(x, L)` written by `encode_event`;
  - the five record encoders, with Python's `int.to_bytes` overflow and strict UTF-8 written out.
- **Events** (`event_type.dfy`, `events.dfy`):
  - `EventType` (including `LEN = 11`);
  - the twelve event classes as one sum type;
  - equality and hashing on identity alone;
  - `instantiate`, `dump`, and `dump(path, events)`.
- **Catalog** (`catalog.dfy`):
  - `serialize`, per-kind `deserialize`, the `event_mapping` dispatch and `load_json`;
  - the table is a `map` from event id to prototype, in which a later record with the same id wins.
- **Loader** (`loader.dfy`):
  - a `Stream` class over the file's bytes, which reads short at the end exactly as `BinaryIO.read` does;
  - `read_int` and `read_len_*`, `load_next_event`, `load_event` and `load`, each as an imperative method;
  - each method is proved against a pure specification function (`ReadAt`, `ParseBody`, `ParseNext`, `LoadFrom`).
- **Round trips** (`roundtrip.dfy`):
  - `dump` followed by `load_next_event` gives back an event equal to the dumped one (same identity, same
    static fields, the dump consumed), and `dump(path, events)` followed by `load` gives back such a list;
  - both hold when the catalog holds the events' prototypes and type names are ASCII;
  - the reloaded event is the very same event when its value field reads back as the value: `Event.dump`
    writes `str(value)`, and the loader's `pickle.loads` or its text fallback must turn that back into the
    value. With Python's pickle this holds for None, True and False; any other def or function-exit value
    reloads as None or as whatever `pickle.loads` makes of its text (RoundTrip.DumpedObjectReloadsAsNone).
- **Recorder** (`recorder.dfy`):
  - `lib.py` as a class with an append-only byte log and an open flag;
  - every `add_*` entry point, `reset` and `dump_events`;
  - a session lemma: the log left by any sequence of recordable calls loads back as the events those calls describe.

Python errors are values (`Result`/`Outcome`), named after the exception the source raises.

`pickle.dumps`, `pickle.loads`, `str()` and `bool()` are foreign to the model. They are fields of a `Runtime`
parameter (`objects.dfy`), and results are stated for every such runtime.

## Model

| member | source | states |
|---|---|---|
| EventTypes.Value | src/sflkitlib/events/__init__.py:9-20 | every member's value is below 12 |
| EventTypes.FromValue | src/sflkitlib/events/__init__.py:9-20 | `EventType(v)` succeeds exactly for 0 <= v < 12 |
| EventTypes.FromValueInvertsValue | src/sflkitlib/events/__init__.py:9-20 | `EventType(v) == t` exactly when `t.value == v` |
| EventTypes.ValueInjective | src/sflkitlib/events/__init__.py:9-20 | distinct members have distinct values |
| EventTypes.MembersInOrdinalOrder | tests/test_events.py:39-56 | iteration lists all twelve members, and the i-th has value i |
| IntBytes.Pow2 | src/sflkitlib/events/codec.py:6-7 | powers of two are positive |
| IntBytes.Pow256 | src/sflkitlib/events/codec.py:6-7 | powers of 256 are positive |
| IntBytes.BitLengthBounds | src/sflkitlib/events/codec.py:7 | `x.bit_length()` is the least b with abs(x) < 2^b |
| IntBytes.Pow2Eight | src/sflkitlib/events/codec.py:7 | 2^(8k) = 256^k, linking bits to bytes |
| IntBytes.Pow2Split | src/sflkitlib/events/codec.py:7 | 2^(a+b) = 2^a * 2^b |
| IntBytes.Pow2Monotone | src/sflkitlib/events/codec.py:7 | powers of two grow with the exponent |
| IntBytes.Pow256Monotone | src/sflkitlib/events/codec.py:7 | powers of 256 grow with the exponent |
| IntBytes.FromBytesBound | src/sflkitlib/events/event.py:560-561 | `int.from_bytes` of n bytes is below 256^n |
| IntBytes.BigEndianReadsBack | src/sflkitlib/events/codec.py:14-15 | the n big-endian bytes of x have length n and read back as x |
| IntBytes.ToBytes | src/sflkitlib/events/codec.py:15 | `x.to_bytes(n, "big")` succeeds exactly when 0 <= x < 256^n; otherwise OverflowError |
| IntBytes.ToBytesReadsBack | src/sflkitlib/events/event.py:560-561 | `int.from_bytes` inverts a successful `to_bytes` of length n |
| IntBytes.FromBytesInjective | src/sflkitlib/events/event.py:560-561 | equal-length byte strings that read as the same integer are equal |
| Utf8.EncodeChar | src/sflkitlib/events/codec.py:40 | a character encodes to 1 to 4 bytes, and to one byte exactly when it is ASCII |
| Utf8.DecodeChar | src/sflkitlib/events/event.py:564-566 | a successful strict decode consumes between 1 and the available bytes |
| Utf8.DecodeEncodeChar | src/sflkitlib/events/event.py:564-566 | decoding a character's encoding, followed by anything, gives the character and its length |
| Utf8.DecodeEncodeTwo | src/sflkitlib/events/event.py:564-566 | the same, for two-byte characters |
| Utf8.DecodeEncodeThree | src/sflkitlib/events/event.py:564-566 | the same, for three-byte characters |
| Utf8.DecodeEncodeFour | src/sflkitlib/events/event.py:564-566 | the same, for four-byte characters |
| Utf8.DecodeEncode | src/sflkitlib/events/event.py:564-566 | `bytes.decode("utf8")` inverts `str.encode("utf8")` |
| Utf8.EncodeLengthAscii | src/sflkitlib/events/codec.py:32-40 | the byte length is at least the character count, with equality exactly for ASCII strings |
| Codec.GetByteLength | src/sflkitlib/events/codec.py:6-7 | the length is at least one byte |
| Codec.GetByteLengthBounds | src/sflkitlib/events/codec.py:6-7 | abs(x) fits in `get_byte_length(x)` bytes, and not in one byte fewer (when above 1) |
| Codec.ByteLengthBounds | src/sflkitlib/events/codec.py:7 | the same bounds, for the `max((b + 7) // 8, 1)` formula |
| Codec.ByteLengthIsLeast | src/sflkitlib/events/codec.py:6-7 | any n >= 1 bytes that hold abs(x) are at least `get_byte_length(x)` |
| Codec.ByteLengthBoundaries | src/sflkitlib/events/codec.py:6-7 | 0 and 255 take one byte, and 256 takes two |
| Codec.EncodeEvent | src/sflkitlib/events/codec.py:10-17 | `encode_event` succeeds exactly for 0 <= id with a length byte of at most 255 |
| Codec.EncodeEventDigits | src/sflkitlib/events/codec.py:10-17 | the record is a length byte L, then L bytes that read back as the id |
| Codec.EncodableRange | src/sflkitlib/events/codec.py:10-17 | encodable ids are exactly 0 <= id < 256^255 |
| Codec.ValueField | src/sflkitlib/events/codec.py:31-38 | the 4-byte length prefix fits exactly when the value is shorter than 2^32 bytes |
| Codec.ValueFieldLayout | src/sflkitlib/events/codec.py:31-38 | the field is a 4-byte length that reads back as the value's length, followed by the value |
| Codec.TypeField | src/sflkitlib/events/codec.py:32-40 | the 2-byte prefix fits exactly when the type name has fewer than 2^16 characters |
| Codec.TypeFieldLayout | src/sflkitlib/events/codec.py:32-40 | the prefix holds the character count, and the UTF-8 bytes follow |
| Codec.TypePrefixCountsCharacters | src/sflkitlib/events/codec.py:32-40 | the prefix equals the number of bytes that follow exactly when the name is ASCII |
| Codec.EncodeDefEvent | src/sflkitlib/events/codec.py:20-42 | fails exactly when one of the four fields overflows; otherwise the id, var id, value and type fields, in order |
| Codec.EncodeFunctionExitEvent | src/sflkitlib/events/codec.py:45-63 | fails exactly on overflow; otherwise the id, the value field and the type field |
| Codec.EncodeConditionEvent | src/sflkitlib/events/codec.py:66-74 | the id, then one byte: 1 for a true outcome, 0 for a false one |
| Codec.EncodeUseEvent | src/sflkitlib/events/codec.py:77-87 | fails exactly when the id or the var id is not encodable; otherwise both varints |
| Codec.EncodeLenEvent | src/sflkitlib/events/codec.py:90-104 | fails exactly when one of the three is not encodable; otherwise the three varints |
| Events.SameIffHashKeysEqual | src/sflkitlib/events/event.py:31-42 | `__eq__` holds exactly when the `__hash__` tuples agree, so equal events hash alike |
| Events.Instantiate | src/sflkitlib/events/event.py:96-525 | the instance equals its prototype, keeps every static field and carries exactly the given dynamic values |
| Events.InstantiateForgetsDynamics | src/sflkitlib/events/event.py:177-185 | instantiating ignores any dynamic values the receiver already carries |
| Events.InstancesEqualWhateverPayload | src/sflkitlib/events/event.py:34-42 | instances with different dynamic values are still `==`, although they differ as values |
| Events.DumpAll | src/sflkitlib/events/event.py:554-557 | the loop writes each event's record in turn and stops at the first one that raises |
| Events.DumpedAllStep | src/sflkitlib/events/event.py:554-557 | the file is the first record followed by the rest; a failing first record writes nothing |
| Catalog.Build | src/sflkitlib/events/event.py:532-551 | a record built as kind t gives a prototype of kind t |
| Catalog.BuildKind | src/sflkitlib/events/event.py:90-522 | each class's `deserialize` gives a prototype of its own kind |
| Catalog.DeserializeAs | src/sflkitlib/events/event.py:548-551 | success implies the record's `event_type` is t; a missing required key raises AssertionError |
| Catalog.Deserialize | src/sflkitlib/events/event.py:548-551 | a decoded prototype's kind is the record's `event_type` |
| Catalog.DeserializeSerialize | src/sflkitlib/events/event.py:528-551 | deserializing a serialized event gives back its prototype |
| Catalog.SerializeHasKeys | src/sflkitlib/events/event.py:51-57 | `serialize` writes every key its kind's `deserialize` asserts, and the right `event_type` |
| Catalog.BuildSerialize | src/sflkitlib/events/event.py:532-545 | the class mapped from an event's kind rebuilds the event's prototype |
| Catalog.DeserializeAsChecksTag | src/sflkitlib/events/event.py:548-551 | a serialized event decodes as kind t exactly when t is its kind |
| Catalog.DecodeEach | src/sflkitlib/events/event.py:673 | `map(deserialize, events)` keeps the list's length |
| Catalog.DecodeEachPointwise | src/sflkitlib/events/event.py:673 | the list decodes exactly when every record does, and element i is record i decoded |
| Catalog.CollectLastWins | src/sflkitlib/events/event.py:673 | every id is a key, and the last event with that id is its entry |
| Catalog.CollectKeys | src/sflkitlib/events/event.py:673 | every entry is an event of the list carrying its key as its id |
| Catalog.LastWithId | src/sflkitlib/events/event.py:673 | finds the last position carrying a given id |
| Catalog.LoadCatalogTable | src/sflkitlib/events/event.py:670-673 | each entry of `load_json`'s table has its key as id, is a prototype, and is the last record with that id |
| Catalog.DecodedTable | src/sflkitlib/events/event.py:670-673 | the same, for any decoder |
| Loader.ReadAt | src/sflkitlib/events/event.py:560-561 | `read(n)` returns the next min(n, remaining) bytes and advances past them |
| Loader.ReadIntAt | src/sflkitlib/events/event.py:560-561 | `read_int` stays within the stream |
| Loader.ReadLenIntAt | src/sflkitlib/events/event.py:574-576 | `read_len_int` stays within the stream |
| Loader.ReadLenBytesAt | src/sflkitlib/events/event.py:569-571 | `read_len_bytes` returns the bytes just before the new position |
| Loader.ReadLenStrAt | src/sflkitlib/events/event.py:564-566 | `read_len_str` raises UnicodeDecodeError exactly when the bytes read are not UTF-8 |
| Loader.InterpretValue | src/sflkitlib/events/event.py:593-618 | unpickled when `pickle.loads` succeeds; otherwise the UTF-8 fallback gives True, False or None, and raises only on invalid UTF-8 |
| Loader.ReadField | src/sflkitlib/events/event.py:588-654 | a field read has its format's shape; only a string field can fail, with UnicodeDecodeError |
| Loader.ReadFields | src/sflkitlib/events/event.py:588-654 | a kind's field reads give one field per format |
| Loader.ReadFieldsMatch | src/sflkitlib/events/event.py:588-654 | every field read matches its format |
| Loader.ToPayload | src/sflkitlib/events/event.py:588-654 | the fields give arguments `instantiate` accepts; only DEF and FUNCTION_EXIT can fail, on the UTF-8 fallback |
| Loader.ParseBody | src/sflkitlib/events/event.py:588-656 | a record body parse stays within the stream |
| Loader.ParseBodyInstantiates | src/sflkitlib/events/event.py:588-656 | the parsed event equals its prototype and keeps the prototype's static fields |
| Loader.ParseNext | src/sflkitlib/events/event.py:583-587 | an empty stream raises ValueError; a parsed record consumes at least one byte |
| Loader.LoadFrom | src/sflkitlib/events/event.py:659-667 | `load` yields at most one event per remaining byte |
| Loader.Stream.constructor | src/sflkitlib/events/event.py:580 | a stream over the bytes, positioned at the start |
| Loader.Stream.Read | src/sflkitlib/events/event.py:584 | reading moves the stream exactly as `ReadAt` says |
| Loader.ReadInt | src/sflkitlib/events/event.py:560-561 | the method reads and advances as `ReadIntAt` says |
| Loader.ReadLenInt | src/sflkitlib/events/event.py:574-576 | the method reads and advances as `ReadLenIntAt` says |
| Loader.ReadLenBytes | src/sflkitlib/events/event.py:569-571 | the method reads and advances as `ReadLenBytesAt` says |
| Loader.ReadLenStr | src/sflkitlib/events/event.py:564-566 | the method returns, raises and advances as `ReadLenStrAt` says |
| Loader.LoadNextEvent | src/sflkitlib/events/event.py:583-656 | `load_next_event` returns, raises and advances as `ParseNext` says |
| Loader.LoadBody | src/sflkitlib/events/event.py:588-656 | the per-kind dispatch agrees with `ParseBody` |
| Loader.LoadDefBody | src/sflkitlib/events/event.py:588-618 | the DEF branch agrees with `ParseBody` |
| Loader.DefBodyReads | src/sflkitlib/events/event.py:588-618 | DEF's three reads give a type-name error, a value error, or the instance with those three values |
| Loader.LoadUseBody | src/sflkitlib/events/event.py:619-621 | the USE branch agrees with `ParseBody` |
| Loader.LoadExitBody | src/sflkitlib/events/event.py:622-647 | the FUNCTION_EXIT branch agrees with `ParseBody` |
| Loader.LoadConditionBody | src/sflkitlib/events/event.py:648-650 | the CONDITION branch agrees with `ParseBody` |
| Loader.LoadLenBody | src/sflkitlib/events/event.py:651-654 | the LEN branch agrees with `ParseBody` |
| Loader.ReadFieldsUnroll | src/sflkitlib/events/event.py:588-654 | reads run left to right, and the first failure is the result |
| Loader.LoadEvent | src/sflkitlib/events/event.py:579-580 | `load_event` parses one record from the start of its bytes |
| Loader.Load | src/sflkitlib/events/event.py:659-667 | the loop collects exactly the events `LoadFrom` describes |
| Loader.LoadAdvance | src/sflkitlib/events/event.py:662-666 | one iteration either stops on an exception or appends the parsed event and moves on |
| Loader.LoadFromStep | src/sflkitlib/events/event.py:662-666 | `load` stops at the first record that raises, and otherwise continues after it |
| RoundTrip.AtSplit | src/sflkitlib/events/codec.py:33 | bytes laid out as a ++ b hold a, then b |
| RoundTrip.EncodeEventIsVarint | src/sflkitlib/events/codec.py:10-17 | `encode_event` writes a varint that reads back as the id |
| RoundTrip.ValueFieldIsLenField | src/sflkitlib/events/codec.py:37-38 | the value field is a 4-byte length prefix, then the value |
| RoundTrip.TypeFieldIsLenField | src/sflkitlib/events/codec.py:39-40 | for an ASCII name, the type field is a 2-byte length prefix, then its bytes |
| RoundTrip.TypeFieldIsStrField | src/sflkitlib/events/codec.py:39-40 | for an ASCII name, the type field reads back as the name |
| RoundTrip.PrefixAt | src/sflkitlib/events/event.py:560-561 | a length prefix in the stream reads back as the payload's length |
| RoundTrip.FieldAt | src/sflkitlib/events/event.py:569-571 | `read_len_bytes` over a length field returns its payload and skips the field |
| RoundTrip.IntFieldAt | src/sflkitlib/events/event.py:574-576 | `read_len_int` over a length field returns the payload's integer value |
| RoundTrip.FromOneByte | src/sflkitlib/events/event.py:649 | a single byte reads as itself |
| RoundTrip.VarintAt | src/sflkitlib/events/event.py:574-576 | `read_len_int(stream, 1)` over a varint returns its integer |
| RoundTrip.TypeFieldAt | src/sflkitlib/events/event.py:564-566 | `read_len_str` over an ASCII type field returns the name and skips the field |
| RoundTrip.TypeFieldMisread | src/sflkitlib/events/event.py:564-566 | for a non-ASCII name, `read_len_str` stops short of the field's end |
| RoundTrip.ParseHeader | src/sflkitlib/events/event.py:584-587 | an id missing from the catalog raises KeyError; otherwise the body is parsed after the header |
| RoundTrip.UnknownIdRaisesKeyError | src/sflkitlib/events/event.py:587 | a record with an uncatalogued id raises KeyError |
| RoundTrip.ConditionByte | src/sflkitlib/events/event.py:648-650 | the outcome is "the next byte is non-zero", and a missing byte reads as False |
| RoundTrip.FallbackRestoresConstants | src/sflkitlib/events/event.py:599-618 | when `pickle.loads` fails on `str(None)` or `str(bool)`, the fallback restores the constant |
| RoundTrip.PickledValueReadsBack | src/sflkitlib/events/event.py:593-598 | a pickled value reads back as itself when `pickle.loads` inverts `pickle.dumps` |
| RoundTrip.ReadFieldWritten | src/sflkitlib/events/event.py:588-654 | a written field reads back as its value and skips its bytes |
| RoundTrip.ConcatOne | src/sflkitlib/events/codec.py:33-42 | joining one chunk gives that chunk |
| RoundTrip.ConcatTwo | src/sflkitlib/events/codec.py:33-42 | joining two chunks is their concatenation |
| RoundTrip.ConcatThree | src/sflkitlib/events/codec.py:33-42 | joining three chunks is their concatenation |
| RoundTrip.FallbackDropsObjects | src/sflkitlib/events/event.py:599-618 | an object's text that `pickle.loads` rejects and that is not "True" or "False" reads back as None |
| RoundTrip.ReadFieldsCons | src/sflkitlib/events/event.py:588-654 | reading a kind's fields is reading the first field, then the rest |
| RoundTrip.ConcatLaid | src/sflkitlib/events/codec.py:33-42 | joined chunks in the stream lie one after another |
| RoundTrip.ReadFieldsWritten | src/sflkitlib/events/event.py:588-654 | a kind's written fields read back as the values written |
| RoundTrip.FieldsPayload | src/sflkitlib/events/event.py:588-654 | the fields of a complete event give back its instantiate arguments |
| RoundTrip.AllWrittenOne | src/sflkitlib/events/codec.py:33-42 | one written field is a written layout |
| RoundTrip.AllWrittenCons | src/sflkitlib/events/codec.py:33-42 | written layouts extend field by field |
| RoundTrip.DumpDef | src/sflkitlib/events/event.py:163-169 | `DefEvent.dump` is `encode_def_event` of its fields |
| RoundTrip.DumpExit | src/sflkitlib/events/event.py:265-266 | `FunctionExitEvent.dump` is `encode_function_exit_event` of its fields |
| RoundTrip.DumpCondition | src/sflkitlib/events/event.py:358-362 | `ConditionEvent.dump` writes the value as one byte |
| RoundTrip.DumpUse | src/sflkitlib/events/event.py:469-470 | `UseEvent.dump` is `encode_use_event` of its fields |
| RoundTrip.DumpLen | src/sflkitlib/events/event.py:511-516 | `LenEvent.dump` is `encode_len_event` of its fields |
| RoundTrip.DumpPlain | src/sflkitlib/events/event.py:63-64 | kinds with no dynamic fields dump as `encode_event(id)` |
| RoundTrip.DefRecord | src/sflkitlib/events/codec.py:20-42 | a DEF record is the id, followed by the three fields in the loader's layout |
| RoundTrip.ExitRecord | src/sflkitlib/events/codec.py:45-63 | a FUNCTION_EXIT record is the id, followed by two fields in the loader's layout |
| RoundTrip.ConditionRecord | src/sflkitlib/events/codec.py:66-74 | a CONDITION record is the id, followed by one flag byte |
| RoundTrip.UseRecord | src/sflkitlib/events/codec.py:77-87 | a USE record is the id, followed by one varint field |
| RoundTrip.LenRecord | src/sflkitlib/events/codec.py:90-104 | a LEN record is the id, followed by two varint fields |
| RoundTrip.TwoIntsWritten | src/sflkitlib/events/codec.py:97-104 | two varints form the LEN layout |
| RoundTrip.DefShape | src/sflkitlib/events/event.py:588-592 | a DEF event's fields are its var id, value bytes and type name |
| RoundTrip.ExitShape | src/sflkitlib/events/event.py:622-625 | a FUNCTION_EXIT event's fields are its value bytes and type name |
| RoundTrip.ConditionShape | src/sflkitlib/events/event.py:648-650 | a CONDITION event's field is its flag |
| RoundTrip.UseShape | src/sflkitlib/events/event.py:619-621 | a USE event's field is its var id |
| RoundTrip.LenShape | src/sflkitlib/events/event.py:651-654 | a LEN event's fields are its var id and length |
| RoundTrip.DumpChunksDef | src/sflkitlib/events/event.py:163-169 | a DEF dump is its id, followed by its fields written in the loader's layout |
| RoundTrip.DumpChunksExit | src/sflkitlib/events/event.py:265-266 | the same, for FUNCTION_EXIT |
| RoundTrip.DumpChunksCondition | src/sflkitlib/events/event.py:358-362 | the same, for CONDITION |
| RoundTrip.DumpChunksUse | src/sflkitlib/events/event.py:469-470 | the same, for USE |
| RoundTrip.DumpChunksLen | src/sflkitlib/events/event.py:511-516 | the same, for LEN |
| RoundTrip.DumpChunks | src/sflkitlib/events/event.py:63-64 | every reloadable event dumps as its id, followed by its fields in the loader's layout |
| RoundTrip.BodyReads | src/sflkitlib/events/event.py:588-656 | fields that read and convert give the prototype instantiated with them |
| RoundTrip.RecordLaid | src/sflkitlib/events/codec.py:33 | a record in the stream is its header, followed by its chunks |
| RoundTrip.ParseLaid | src/sflkitlib/events/event.py:583-656 | a header and written fields parse as the catalogued prototype instantiated |
| RoundTrip.BodyLaid | src/sflkitlib/events/event.py:588-656 | written fields in the stream parse as the instance and end where they end |
| RoundTrip.ParseRecord | src/sflkitlib/events/event.py:583-656 | a whole record anywhere in the stream parses as its instance and is consumed exactly |
| RoundTrip.RecordRereads | src/sflkitlib/events/event.py:583-656 | a record rereads as the event it was written from, at every position where it lies |
| RoundTrip.WrittenRereads | src/sflkitlib/events/event.py:583-656 | a record with a catalogued id rereads as that prototype's instance |
| RoundTrip.ReloadedKeepsIdentity | src/sflkitlib/events/event.py:34-42 | the reloaded event equals the dumped one under `__eq__`, keeps every static field, and is the event itself when its value reads back as itself |
| RoundTrip.RereadReloads | src/sflkitlib/events/event.py:96-525 | instantiating the event's prototype with its reread arguments gives the reloaded event |
| RoundTrip.ReloadSame | src/sflkitlib/events/event.py:583-656 | `load_next_event` after `dump` of any readable event with a catalogued prototype gives the reloaded event, `==` to the dumped one, and consumes the dump |
| RoundTrip.ReloadExact | src/sflkitlib/events/event.py:583-656 | when the value reads back as itself, `load_next_event` after `dump` gives back the very same event, and consumes the dump |
| RoundTrip.DefObjectReloadsAsNone | src/sflkitlib/events/event.py:588-618 | a def event of an object whose text `pickle.loads` rejects dumps and reloads as the same event with value None |
| RoundTrip.ObjectDefDumps | src/sflkitlib/events/codec.py:20-42 | a def event with one-byte ids, type int and value text "42" dumps |
| RoundTrip.DumpedObjectReloadsAsNone | src/sflkitlib/events/event.py:588-618 | an instance: such an event is not restored by the round trip, and reloads with value None |
| RoundTrip.LoadParsed | src/sflkitlib/events/event.py:659-667 | consecutive successful parses are the prefix of what `load` returns |
| RoundTrip.AppendAfterFirst | src/sflkitlib/events/event.py:662-666 | the first event followed by the rest is the whole list |
| RoundTrip.ParsesAll | src/sflkitlib/events/event.py:659-667 | records laid one after another parse one after another |
| RoundTrip.ReloadedAll | src/sflkitlib/events/event.py:659-667 | a file of records reloads as one event per record |
| RoundTrip.ReloadedAllKeepsIdentity | src/sflkitlib/events/event.py:34-42 | each reloaded event is `==` to its dumped event; the list is the dumped list itself when every value reads back as itself |
| RoundTrip.DumpRereads | src/sflkitlib/events/event.py:63-64 | an accepted event's dump succeeds and rereads as the reloaded event |
| RoundTrip.DumpedRecords | src/sflkitlib/events/event.py:554-557 | `dump(path, events)` writes each event's rereadable record, without raising |
| RoundTrip.DumpedParses | src/sflkitlib/events/event.py:554-557 | a dumped file parses record by record as the reloaded events |
| RoundTrip.LoadDumped | src/sflkitlib/events/event.py:659-667 | `load` over a dumped stretch returns the reloaded events and continues after it |
| RoundTrip.LoadDumpedFile | src/sflkitlib/events/event.py:659-667 | `load` of a dumped file returns the reloaded events, in order |
| RoundTrip.LoadDumpedEqual | src/sflkitlib/events/event.py:659-667 | `load` of a dumped file returns as many events, each `==` to the dumped one at its place |
| RoundTrip.LoadDumpedExact | src/sflkitlib/events/event.py:659-667 | when every value reads back as itself, `load` of a dumped file returns the dumped list itself |
| RoundTrip.ReadMultiple | tests/test_codec.py:79-95 | three dumped line events load back as themselves, in order |
| Recorder.CallBytes | src/sflkitlib/lib.py:49-152 | skipped calls write nothing; every write starts with the id's varint; a condition ends with its truth byte |
| Recorder.Recorder.constructor | src/sflkitlib/lib.py:14 | the events file opens empty |
| Recorder.Recorder.DumpEvents | src/sflkitlib/lib.py:41-43 | closes the file and keeps the log; a second close raises ValueError |
| Recorder.Recorder.Reset | src/sflkitlib/lib.py:17-24 | swallows any error from closing, then reopens the file empty |
| Recorder.Recorder.WriteEncoded | src/sflkitlib/lib.py:50 | a write appends the encoded bytes, or raises and leaves the log alone |
| Recorder.Recorder.AddLineEvent | src/sflkitlib/lib.py:49-50 | appends `encode_event(id)`, or raises its error |
| Recorder.Recorder.AddBranchEvent | src/sflkitlib/lib.py:53-54 | appends `encode_event(id)`, or raises its error |
| Recorder.Recorder.AddFunctionEnterEvent | src/sflkitlib/lib.py:82-83 | appends `encode_event(id)`, or raises its error |
| Recorder.Recorder.AddFunctionErrorEvent | src/sflkitlib/lib.py:122-123 | appends `encode_event(id)`, or raises its error |
| Recorder.Recorder.AddLoopBeginEvent | src/sflkitlib/lib.py:133-134 | appends `encode_event(id)`, or raises its error |
| Recorder.Recorder.AddLoopHitEvent | src/sflkitlib/lib.py:137-138 | appends `encode_event(id)`, or raises its error |
| Recorder.Recorder.AddLoopEndEvent | src/sflkitlib/lib.py:141-142 | appends `encode_event(id)`, or raises its error |
| Recorder.Recorder.AddDefEvent | src/sflkitlib/lib.py:57-79 | appends the DEF record `CallBytes` describes; a missing var id writes nothing |
| Recorder.Recorder.AddFunctionExitEvent | src/sflkitlib/lib.py:86-119 | appends the record `CallBytes` describes, including the truthiness fallback and the None fallback |
| Recorder.Recorder.AddConditionEvent | src/sflkitlib/lib.py:126-130 | appends the id and the value's truth as one byte |
| Recorder.Recorder.AddUseEvent | src/sflkitlib/lib.py:145-147 | appends the USE record; a missing var id writes nothing |
| Recorder.Recorder.AddLenEvent | src/sflkitlib/lib.py:150-152 | appends the LEN record; a missing var id writes nothing |
| Recorder.JoinedAppend | src/sflkitlib/lib.py:49-152 | the log of one more call is the old log plus that call's bytes |
| Recorder.SessionAppend | src/sflkitlib/lib.py:49-152 | a session's log grows by exactly each call's written bytes |
| Recorder.CallPayload | src/sflkitlib/lib.py:57-152 | what a call records are arguments its kind's `instantiate` accepts |
| Recorder.PlainRereads | src/sflkitlib/lib.py:49-50 | an id-only record rereads as its prototype's instance |
| Recorder.DefRereads | src/sflkitlib/lib.py:57-79 | a recorded definition rereads with the written value and type name |
| Recorder.DefFieldsRereads | src/sflkitlib/events/event.py:588-618 | a header, followed by a varint, a value field and a type field, rereads as a DEF instance |
| Recorder.ExitRereads | src/sflkitlib/lib.py:86-119 | a recorded function exit rereads with the written value and type name |
| Recorder.ExitFieldsRereads | src/sflkitlib/events/event.py:622-647 | a header, followed by a value field and a type field, rereads as a FUNCTION_EXIT instance |
| Recorder.ConditionRereads | src/sflkitlib/lib.py:126-130 | a recorded condition rereads with the value's truth |
| Recorder.FlagRereads | src/sflkitlib/events/event.py:648-650 | a header, followed by a 0/1 byte, rereads as the CONDITION instance |
| Recorder.UseRereads | src/sflkitlib/lib.py:145-147 | a recorded use rereads with its var id |
| Recorder.OneIntRereads | src/sflkitlib/events/event.py:619-621 | a header, followed by one varint, rereads as the USE instance |
| Recorder.LenRereads | src/sflkitlib/lib.py:150-152 | a recorded len rereads with its var id and length |
| Recorder.TwoIntsRereads | src/sflkitlib/events/event.py:651-654 | a header, followed by two varints, rereads as the LEN instance |
| Recorder.CallRereads | src/sflkitlib/lib.py:49-152 | whatever a recordable call writes rereads as the event the call describes |
| Recorder.SessionRecords | src/sflkitlib/lib.py:49-152 | a session's log is the records of its writing calls, one after another, each rereadable |
| Recorder.SessionLoads | src/sflkitlib/events/event.py:659-667 | `load` of a session's events file gives back the events its recordable calls describe, in order |

## Left out

- `EventType` in `events/__init__.py` has no `LEN` member, although `event.py` uses `EventType.LEN`. `LEN = 11` is added, as the rest of the code and the tests expect.
- `Event.get_byte_length` (without the `max(..., 1)`) is never called by the modelled code, so it is not modelled.
- `handle`, `__repr__` and `EventEncoder` belong to the analysis and debugging side, so they are not modelled.
- `pickle.dumps`/`pickle.loads`, `str()` and `bool()` of user values are parameters (`Runtime`). Their Python behaviour is not modelled. `Event.dump` writes `str(value)`, never `pickle.dumps(value)`, so exact round trips (RoundTrip.ReloadExact, RoundTrip.LoadDumpedExact) require that `pickle.loads` or the text fallback turns `str(value)` back into the value; with Python's pickle that holds only for None, True and False. Every other value reloads as what the loader makes of its text (RoundTrip.ReloadSame, RoundTrip.DefObjectReloadsAsNone).
- PyObjects.Str: `str()` is total in the model, so an exception raised by a value's `__str__` in `encode_def_event` or `encode_function_exit_event` (codec.py lines 30 and 53) is not modelled. `Event.dump` reaches that path for an event holding an object that was never pickled.
- PyObjects.Pickle: the error `pickle.dumps` raises is whatever the runtime parameter returns (TypeError for a memoryview, PicklingError for a lambda); which objects fail, and how, is not modelled.
- Recorder.Recorder.AddConditionEvent: an exception raised by a value's `__bool__` is reported as TypeError, whatever its class.
- Files, `open`, `flush`, `EVENTS_PATH`, `atexit` and the `sys.path` juggling in `lib.py` are not modelled; the events file is the byte sequence `log`.
- `get_id` and `get_type` in `lib.py` are not modelled.
- Recorder.Recorder.AddLineEvent and every other `add_*` method: each requires the file to be open. Writing to a closed file raises ValueError in Python, and the model does not cover that path.
- `load` uses a bare `except:` and so stops on any exception. Loader.LoadFrom stops on every error the model can raise, which is the same behaviour for the errors modelled.
- `load_json` reading the JSON file is not modelled; the catalog is a sequence of already-parsed records.
- Catalog.Build: a field of the wrong JSON type raises TypeError. The source would instead build an event holding the wrong type.
- The round-trip lemmas require ASCII type names. The 2-byte type prefix counts characters but is followed by UTF-8 bytes, so non-ASCII names do not read back (RoundTrip.TypeFieldMisread, Codec.TypePrefixCountsCharacters).
- `add_def_event` writes `pickle.dumps(None)` for non-primitive values, so those values are lost. The model records this as the code does.
- The tests call APIs this version does not have: `codec.encode_line_event(FILE, LINE, ID)`, `load_next_event` without a catalog, `load(path)` without a catalog, and `EventType.events()`/`test_events()`. Only the properties they express are modelled (RoundTrip.ReloadExact, RoundTrip.ReadMultiple, EventTypes.MembersInOrdinalOrder).
- Recorder.Recorder.AddUseEvent and Recorder.Recorder.AddLenEvent: the contract quantifies over every runtime, because these calls consult none.
- Python's `int.to_bytes` with `signed=False` rejects negative ids; the model follows it (negative ids are not encodable). Floats passed where the source annotates `Union[int, float]` are not modelled.
