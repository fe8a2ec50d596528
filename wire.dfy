/**
 * Constants of the Java Object Serialization Stream Protocol (section 6.4.2
 * of the Java Object Serialization Specification) and the outcome types
 * shared by every writer of the model.
 */
module Wire {

  // Stream header.
  const STREAM_MAGIC: int := 0xACED
  const STREAM_VERSION: int := 5

  // Type codes of the control bytes.
  const TC_NULL: int := 0x70
  const TC_REFERENCE: int := 0x71
  const TC_CLASSDESC: int := 0x72
  const TC_OBJECT: int := 0x73
  const TC_STRING: int := 0x74
  const TC_ARRAY: int := 0x75
  const TC_CLASS: int := 0x76
  const TC_BLOCKDATA: int := 0x77
  const TC_ENDBLOCKDATA: int := 0x78
  const TC_RESET: int := 0x79
  const TC_BLOCKDATALONG: int := 0x7A
  const TC_EXCEPTION: int := 0x7B
  const TC_LONGSTRING: int := 0x7C
  const TC_PROXYCLASSDESC: int := 0x7D
  const TC_ENUM: int := 0x7E

  /** The first handle number; handle `h` of the table goes on the wire as this plus `h`. */
  const BASE_WIRE_HANDLE: int := 0x7E0000

  // Class descriptor flags.
  const SC_WRITE_METHOD: bv8 := 0x01
  const SC_SERIALIZABLE: bv8 := 0x02
  const SC_EXTERNALIZABLE: bv8 := 0x04
  const SC_BLOCK_DATA: bv8 := 0x08
  const SC_ENUM: bv8 := 0x10

  /** A value every fixed-width encoder produces: the low eight bits of a number. */
  type Byte = b: int | 0 <= b < 256

  /** What the writer throws. */
  datatype Error =
    | Unimplemented                      // Float, Double
    | NonAsciiString                     // "Unimplemented (non-ASCII string)"
    | LengthExceeded                     // "Length exceeded"
    | MissingPrimitiveValue(field: string)
    | TypeError                          // a property of undefined, or a missing method
    | ReferenceError                     // an undeclared variable

  datatype Option<T> = None | Some(value: T)

  datatype Result<T> = Success(value: T) | Failure(error: Error)

  /**
   * What a write appends before it returns or throws: the bytes that reached
   * the target, and the exception, if one was thrown.
   */
  datatype Run = Run(bytes: seq<int>, err: Option<Error>)

  /** Sequential composition: the second part only runs if the first did not throw. */
  function AndThen(a: Run, b: Run): Run
  {
    if a.err.Some? then a else Run(a.bytes + b.bytes, b.err)
  }

  function Done(bs: seq<int>): Run { Run(bs, None) }

  /** Concatenation regroups freely (stated once, so that callers need not prove it by extensionality). */
  lemma Regroup<T>(a: seq<T>, b: seq<T>, c: seq<T>)
    ensures a + (b + c) == a + b + c
  {
  }
}
