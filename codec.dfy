/**
 * The record encoders of the trace log. Every record starts with the
 * catalog id as a variable-length integer: one byte holding the byte count
 * L, then the id in L big-endian bytes. The per-kind encoders append that
 * kind's dynamic payload; they raise OverflowError (Err here) whenever a
 * value does not fit the width int.to_bytes is asked for.
 */
module Codec {
  import opened Wrappers
  import opened IntBytes
  import opened PyObjects
  import Utf8

  /** get_byte_length: max((x.bit_length() + 7) // 8, 1). */
  function GetByteLength(x: int): (n: nat)
    ensures n >= 1
  {
    var b := BitLength(x);
    if (b + 7) / 8 < 1 then 1 else (b + 7) / 8
  }

  /** The byte count is wide enough for |x|, and a byte narrower would not be. */
  lemma GetByteLengthBounds(x: int)
    ensures Abs(x) < Pow256(GetByteLength(x))
    ensures GetByteLength(x) > 1 ==> Pow256(GetByteLength(x) - 1) <= Abs(x)
  {
    ByteLengthBounds(x, BitLength(x), GetByteLength(x));
  }

  lemma ByteLengthBounds(x: int, b: nat, n: nat)
    requires b == BitLength(x) && n == (if (b + 7) / 8 < 1 then 1 else (b + 7) / 8)
    ensures Abs(x) < Pow256(n)
    ensures n > 1 ==> Pow256(n - 1) <= Abs(x)
  {
    BitLengthBounds(x);
    Pow2Monotone(b, 8 * n);
    Pow2Eight(n);
    if n > 1 {
      Pow2Monotone(8 * (n - 1), b - 1);
      Pow2Eight(n - 1);
    }
  }

  /** The byte count is the least n >= 1 with |x| < 256^n; so 0 and 255 take one byte and 256 takes two. */
  lemma {:induction false} ByteLengthIsLeast(x: int, n: nat)
    requires n >= 1 && Abs(x) < Pow256(n)
    ensures GetByteLength(x) <= n
  {
    var m := GetByteLength(x);
    GetByteLengthBounds(x);
    if m > n {
      Pow256Monotone(n, m - 1);
    }
  }

  lemma ByteLengthBoundaries()
    ensures GetByteLength(0) == 1
    ensures GetByteLength(255) == 1
    ensures GetByteLength(256) == 2
  {
    ByteLengthIsLeast(0, 1);
    ByteLengthIsLeast(255, 1);
    ByteLengthIsLeast(256, 2);
    assert Pow256(1) == 256;
  }

  /** The id fits the one-byte length prefix. */
  predicate Encodable(x: int) { 0 <= x && GetByteLength(x) <= 255 }

  /** encode_event: the variable-length integer [L] ++ BE(id, L), L = get_byte_length(id). */
  function EncodeEvent(eventId: int): (r: Result<seq<byte>, Error>)
    ensures r.Ok? <==> Encodable(eventId)
  {
    var n := GetByteLength(eventId);
    assert Pow256(1) == 256;
    GetByteLengthBounds(eventId);
    match (ToBytes(n, 1), ToBytes(eventId, n))
    case (Some(prefix), Some(digits)) => Ok(prefix + digits)
    case _ => Err(OverflowError)
  }

  /** The first byte of encode_event's output is the byte count, and the rest reads back, big-endian, as the id. */
  lemma EncodeEventDigits(eventId: int)
    requires EncodeEvent(eventId).Ok?
    ensures |EncodeEvent(eventId).value| == 1 + GetByteLength(eventId)
    ensures EncodeEvent(eventId).value[0] == GetByteLength(eventId)
    ensures FromBytes(EncodeEvent(eventId).value[1..]) == eventId
  {
    var n := GetByteLength(eventId);
    assert Pow256(1) == 256;
    GetByteLengthBounds(eventId);
    var prefix, digits := ToBytes(n, 1).value, ToBytes(eventId, n).value;
    ToBytesReadsBack(n, 1);
    ToBytesReadsBack(eventId, n);
    assert FromBytes(prefix) == FromBytes(prefix[..0]) * 256 + prefix[0];
    assert EncodeEvent(eventId).value == prefix + digits;
    assert (prefix + digits)[1..] == digits;
  }

  /** The variable-length integer can carry exactly the ids below 256^255. */
  lemma EncodableRange(x: int)
    ensures Encodable(x) <==> 0 <= x < Pow256(255)
  {
    if 0 <= x {
      var n := GetByteLength(x);
      GetByteLengthBounds(x);
      if n <= 255 {
        Pow256Monotone(n, 255);
      }
      if x < Pow256(255) {
        ByteLengthIsLeast(x, 255);
      }
    }
  }

  /** value if isinstance(value, bytes) else str(value).encode("utf8") */
  function ValueBytes(rt: Runtime, v: Value): seq<byte>
  {
    if v.BytesValue? then v.bytes else Utf8.Encode(Str(rt, v))
  }

  /** len(value).to_bytes(4) ++ value */
  function ValueField(value: seq<byte>): (r: Result<seq<byte>, Error>)
    ensures r.Ok? <==> |value| < Pow256(4)
  {
    match ToBytes(|value|, 4)
    case Some(prefix) => Ok(prefix + value)
    case None => Err(OverflowError)
  }

  /** The value field is the value's length in four big-endian bytes, then the value. */
  lemma ValueFieldLayout(value: seq<byte>)
    requires ValueField(value).Ok?
    ensures var r := ValueField(value).value;
      |r| == 4 + |value| && FromBytes(r[..4]) == |value| && r[4..] == value
  {
    ToBytesReadsBack(|value|, 4);
    var prefix := ToBytes(|value|, 4).value;
    assert (prefix + value)[..4] == prefix;
  }

  /** len(type_).to_bytes(2) ++ type_.encode("utf8"): the prefix counts characters, the payload is UTF-8 bytes. */
  function TypeField(typeName: string): (r: Result<seq<byte>, Error>)
    ensures r.Ok? <==> |typeName| < Pow256(2)
  {
    match ToBytes(|typeName|, 2)
    case Some(prefix) => Ok(prefix + Utf8.Encode(typeName))
    case None => Err(OverflowError)
  }

  /** The type field is the name's length in characters, in two big-endian bytes, then the name's UTF-8 bytes. */
  lemma TypeFieldLayout(typeName: string)
    requires TypeField(typeName).Ok?
    ensures var r := TypeField(typeName).value;
      |r| == 2 + |Utf8.Encode(typeName)| && FromBytes(r[..2]) == |typeName| && r[2..] == Utf8.Encode(typeName)
  {
    ToBytesReadsBack(|typeName|, 2);
    var prefix := ToBytes(|typeName|, 2).value;
    assert (prefix + Utf8.Encode(typeName))[..2] == prefix;
  }

  /** The type-name prefix equals the number of payload bytes exactly for ASCII names. */
  lemma TypePrefixCountsCharacters(typeName: string)
    requires TypeField(typeName).Ok?
    ensures FromBytes(TypeField(typeName).value[..2]) == |TypeField(typeName).value| - 2 <==> Utf8.IsAscii(typeName)
  {
    TypeFieldLayout(typeName);
    Utf8.EncodeLengthAscii(typeName);
  }

  /** encode_def_event */
  function EncodeDefEvent(rt: Runtime, eventId: int, varId: int, value: Value, typeName: string): (r: Result<seq<byte>, Error>)
    ensures r.Ok? <==>
      Encodable(eventId) && Encodable(varId) && |ValueBytes(rt, value)| < Pow256(4) && |typeName| < Pow256(2)
    ensures r.Ok? ==>
      r.value == EncodeEvent(eventId).value
                 + (EncodeEvent(varId).value + ValueField(ValueBytes(rt, value)).value + TypeField(typeName).value)
  {
    match (EncodeEvent(eventId), EncodeEvent(varId), ValueField(ValueBytes(rt, value)), TypeField(typeName))
    case (Ok(header), Ok(id), Ok(v), Ok(t)) => Ok(header + (id + v + t))
    case _ => Err(OverflowError)
  }

  /** encode_function_exit_event */
  function EncodeFunctionExitEvent(rt: Runtime, eventId: int, returnValue: Value, typeName: string): (r: Result<seq<byte>, Error>)
    ensures r.Ok? <==> Encodable(eventId) && |ValueBytes(rt, returnValue)| < Pow256(4) && |typeName| < Pow256(2)
    ensures r.Ok? ==>
      r.value == EncodeEvent(eventId).value + (ValueField(ValueBytes(rt, returnValue)).value + TypeField(typeName).value)
  {
    match (EncodeEvent(eventId), ValueField(ValueBytes(rt, returnValue)), TypeField(typeName))
    case (Ok(header), Ok(v), Ok(t)) => Ok(header + (v + t))
    case _ => Err(OverflowError)
  }

  /** encode_condition_event: the header and one byte, 1 for a truthy value and 0 otherwise. */
  function EncodeConditionEvent(eventId: int, value: bool): (r: Result<seq<byte>, Error>)
    ensures r.Ok? <==> Encodable(eventId)
    ensures r.Ok? ==> r.value == EncodeEvent(eventId).value + [if value then 1 else 0]
  {
    match EncodeEvent(eventId)
    case Ok(header) => Ok(header + [if value then 1 else 0])
    case Err(e) => Err(e)
  }

  /** encode_use_event: the header followed by var_id as a variable-length integer. */
  function EncodeUseEvent(eventId: int, varId: int): (r: Result<seq<byte>, Error>)
    ensures r.Ok? <==> Encodable(eventId) && Encodable(varId)
    ensures r.Ok? ==> r.value == EncodeEvent(eventId).value + EncodeEvent(varId).value
  {
    match (EncodeEvent(eventId), EncodeEvent(varId))
    case (Ok(header), Ok(id)) => Ok(header + id)
    case _ => Err(OverflowError)
  }

  /** encode_len_event: the header, var_id, then length, each a variable-length integer. */
  function EncodeLenEvent(eventId: int, varId: int, length: int): (r: Result<seq<byte>, Error>)
    ensures r.Ok? <==> Encodable(eventId) && Encodable(varId) && Encodable(length)
    ensures r.Ok? ==> r.value == EncodeEvent(eventId).value + EncodeEvent(varId).value + EncodeEvent(length).value
  {
    match (EncodeEvent(eventId), EncodeEvent(varId), EncodeEvent(length))
    case (Ok(header), Ok(id), Ok(n)) => Ok(header + id + n)
    case _ => Err(OverflowError)
  }
}
