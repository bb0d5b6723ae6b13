/**
 * The slice of the Python runtime that the recorder and the loader touch:
 * the exceptions they can raise, the values they pass around, runtime
 * types, and the foreign calls (pickle, str, bool) as oracles.
 */
module PyObjects {
  import opened Wrappers
  import opened IntBytes
  import Utf8

  /** The Python exception a failing step raises. */
  datatype Error =
    | OverflowError       // int.to_bytes of a negative or too wide value
    | AttributeError      // a dynamic field is still None when a record is dumped
    | KeyError            // an id missing from the id table, a key missing from a catalog record
    | ValueError          // "empty stream", or an ordinal that is not an EventType
    | AssertionError      // a catalog record without a required key, or with the wrong tag
    | TypeError           // a catalog field of the wrong JSON type
    | UnicodeDecodeError  // bytes.decode("utf8") on ill-formed bytes
    | PicklingError       // pickle.dumps on an object it cannot serialise (other failures raise TypeError)

  /**
   * A Python value as the wire format sees it: None, a bool, a bytes
   * object, or any other object, known only by an opaque handle.
   */
  datatype Value = NoneValue | BoolValue(b: bool) | BytesValue(bytes: seq<byte>) | ObjectValue(handle: nat)

  /** A runtime type: its __module__, its __name__, and whether it is one of int, float, complex, str, bytes, bytearray, memoryview, bool. */
  datatype PyType = PyType(moduleName: string, name: string, isPrimitive: bool)

  /**
   * The foreign calls, as oracles: pickle.dumps (the exception it raises,
   * if any), pickle.loads (None when it raises), str() of an arbitrary
   * object, and bool() of an arbitrary object (None when __bool__ raises).
   */
  datatype Runtime = Runtime(
    dumps: Value -> Result<seq<byte>, Error>,
    loads: seq<byte> -> Option<Value>,
    str: Value -> string,
    truth: Value -> Option<bool>)

  /** f"{type_.__module__}.{type_.__name__}" */
  function QualifiedName(t: PyType): string { t.moduleName + "." + t.name }

  /** str(value) for the values whose text Python fixes; other objects ask the oracle. */
  function Str(rt: Runtime, v: Value): string
  {
    match v
    case NoneValue => "None"
    case BoolValue(b) => if b then "True" else "False"
    case _ => rt.str(v)
  }

  /** bool(value): None and False are falsy, bytes are truthy when non-empty, other objects ask the oracle. */
  function Truth(rt: Runtime, v: Value): Option<bool>
  {
    match v
    case NoneValue => Some(false)
    case BoolValue(b) => Some(b)
    case BytesValue(bs) => Some(bs != [])
    case ObjectValue(_) => rt.truth(v)
  }

  /** pickle.dumps: the bytes, or the exception it raises (TypeError for a memoryview, PicklingError for a lambda). */
  function Pickle(rt: Runtime, v: Value): Result<seq<byte>, Error>
  {
    rt.dumps(v)
  }
}
