/**
 * What the `ObjectOutput` writers put on the wire, as functions of the
 * handle table they start from: the bytes written, the table afterwards and
 * the exception thrown, if any. These describe the writers in the
 * non-block mode `writeObject0` switches to, where every byte goes straight
 * to the sink.
 */
module Streams {
  import opened Wire
  import opened Primitives
  import opened JsStrings
  import opened ClassDescriptors
  import opened Values
  import opened Handles
  import opened BlockData

  /** The bytes a writer appends, the handle table after it, and what it throws. */
  datatype Out = Out(bytes: seq<int>, table: seq<Entry>, err: Option<Error>)

  /** Bytes written before `o`. */
  function Prefix(bs: seq<int>, o: Out): Out
  {
    Out(bs + o.bytes, o.table, o.err)
  }

  /** `a` followed by `b`, unless `a` throws; `b` is meant to start from `a`'s table. */
  function Then(a: Out, b: Out): Out
  {
    if a.err.Some? then a else Out(a.bytes + b.bytes, b.table, b.err)
  }

  // ---- strings ----

  /**
   * `writeUTFLen(str, len)`: more than 0xFFFF throws "Length exceeded" before
   * writing; otherwise the length as a Short, then, when `len` equals the
   * code-unit count, the low byte of every code unit, else
   * "Unimplemented (non-ASCII string)".
   */
  function UtfLenRun(s: string, len: int): Run
  {
    if len > 0xFFFF then Run([], Some(LengthExceeded))
    else if len == |Utf16(s)| then Done(Int16Bytes(len) + LowBytes(s))
    else Run(Int16Bytes(len), Some(NonAsciiString))
  }

  /** `writeUTF(str)`: `writeUTFLen` with the UTF-8 length of the string. */
  function UtfRun(s: string): Run
  {
    UtfLenRun(s, Utf8Length(s))
  }

  /**
   * `writeLongUTF(str, len)`: `new Long(len)` has no low half, so the length
   * and four zero bytes; then an ASCII string reaches `str.writeBytes`,
   * which a primitive string does not have, and any other string throws
   * "Unimplemented (non-ASCII string)".
   */
  function LongUtfRun(s: string, len: int): Run
  {
    Run(Int32Bytes(len) + Int32Bytes(0), Some(if len == |Utf16(s)| then TypeError else NonAsciiString))
  }

  /** A reader for `writeUTF`'s format: a 2-byte length, then one character per byte. */
  function ParseUtf(bs: seq<int>): Option<(string, seq<int>)>
  {
    if |bs| < 2 then None
    else
      var len := Unsigned(bs[..2]);
      if 0 <= len && 2 + len <= |bs| && forall i :: 2 <= i < 2 + len ==> 0 <= bs[i] < 256 then
        Some((Latin1(bs[2..2 + len]), bs[2 + len..]))
      else None
  }

  /**
   * `writeUTF` succeeds exactly on ASCII strings of at most 0xFFFF
   * characters, and what it writes reads back as the string. A string whose
   * UTF-8 form is too long throws "Length exceeded" with nothing written;
   * any other string throws after writing its length.
   */
  lemma UtfRoundTrip(s: string, rest: seq<int>)
    ensures UtfRun(s).err.None? <==> IsAscii(s) && |s| <= 0xFFFF
    ensures UtfRun(s).err.None? ==> ParseUtf(UtfRun(s).bytes + rest) == Some((s, rest))
    ensures UtfRun(s).err == Some(LengthExceeded) <==> Utf8Length(s) > 0xFFFF
    ensures UtfRun(s).err == Some(LengthExceeded) ==> UtfRun(s).bytes == []
    ensures UtfRun(s).err.Some? && Utf8Length(s) <= 0xFFFF ==>
      UtfRun(s).err == Some(NonAsciiString) && UtfRun(s).bytes == Int16Bytes(Utf8Length(s))
  {
    Utf8VersusUtf16(s);
    if IsAscii(s) && |s| <= 0xFFFF {
      AsciiUtfParses(s, rest);
    }
  }

  lemma AsciiUtfParses(s: string, rest: seq<int>)
    requires IsAscii(s) && |s| <= 0xFFFF
    ensures UtfRun(s) == Done(Int16Bytes(|s|) + LowBytes(s))
    ensures ParseUtf(UtfRun(s).bytes + rest) == Some((s, rest))
  {
    assert UtfRun(s) == Done(Int16Bytes(|s|) + LowBytes(s)) by { Utf8VersusUtf16(s); }
    AsciiLowBytes(s);
    UtfFrameParses(LowBytes(s), rest);
  }

  /** A length, then that many bytes, reads back as those bytes taken as characters. */
  lemma UtfFrameParses(body: seq<int>, rest: seq<int>)
    requires |body| <= 0xFFFF && forall i :: 0 <= i < |body| ==> 0 <= body[i] < 0x80
    ensures ParseUtf(Int16Bytes(|body|) + body + rest) == Some((Latin1(body), rest))
  {
    var n := |body|;
    var bs := Int16Bytes(n) + body + rest;
    assert Unsigned(bs[..2]) == n by {
      assert bs[..2] == Int16Bytes(n);
      Int16RoundTrip(n);
    }
    assert bs[2..2 + n] == body && bs[2 + n..] == rest;
    forall i | 2 <= i < 2 + n
      ensures 0 <= bs[i] < 256
    {
      assert bs[i] == body[i - 2];
    }
  }

  /**
   * `writeString(str, unshared)`: assigns the string (unless unshared), then
   * `TC_STRING` and `writeUTFLen` when the UTF-8 form fits in 0xFFFF bytes,
   * `TC_LONGSTRING` and `writeLongUTF` otherwise.
   */
  function StringOut(t: seq<Entry>, s: string, unshared: bool): Out
  {
    var t1 := Assigned(t, if unshared then None else Some(Text(s)));
    var len := Utf8Length(s);
    var run :=
      if len <= 0xFFFF then AndThen(Done([TC_STRING]), UtfLenRun(s, len))
      else AndThen(Done([TC_LONGSTRING]), LongUtfRun(s, len));
    Out(run.bytes, t1, run.err)
  }

  /**
   * A string is written exactly when it is ASCII and at most 0xFFFF long, as
   * `TC_STRING` and its `writeUTF` form; a longer string starts with
   * `TC_LONGSTRING` and always throws.
   */
  lemma StringOutSpec(t: seq<Entry>, s: string, unshared: bool)
    ensures StringOut(t, s, unshared).err.None? <==> IsAscii(s) && |s| <= 0xFFFF
    ensures StringOut(t, s, unshared).err.None? ==> StringOut(t, s, unshared).bytes == [TC_STRING] + UtfRun(s).bytes
    ensures Utf8Length(s) > 0xFFFF ==>
      StringOut(t, s, unshared).bytes[0] == TC_LONGSTRING && StringOut(t, s, unshared).err.Some?
  {
    UtfRoundTrip(s, []);
  }

  // ---- handles ----

  /** `writeHandle(h)`: `TC_REFERENCE` and the wire handle as an Integer. */
  function HandleBytes(h: int): seq<int>
  {
    [TC_REFERENCE] + Int32Bytes(BASE_WIRE_HANDLE + h)
  }

  /** A handle reads back from its four bytes by subtracting the base wire handle. */
  lemma HandleRoundTrip(h: int)
    requires 0 <= h < 0x1_0000_0000 - BASE_WIRE_HANDLE
    ensures |HandleBytes(h)| == 5 && HandleBytes(h)[0] == TC_REFERENCE
    ensures Unsigned(HandleBytes(h)[1..]) - BASE_WIRE_HANDLE == h
  {
    assert HandleBytes(h)[1..] == Int32Bytes(BASE_WIRE_HANDLE + h);
    Int32RoundTrip(BASE_WIRE_HANDLE + h);
  }

  /** `writeTypeString(type)`: a handle when the string is in the table, else the string itself. */
  function TypeStringOut(t: seq<Entry>, ts: string): Out
  {
    var h := IndexOf(t, Text(ts));
    if h != -1 then Out(HandleBytes(h), t, None) else StringOut(t, ts, false)
  }

  // ---- class descriptors ----

  /** One field of `ObjectStreamClass.write`: its type-code byte, its name, and for object fields its type string. */
  function FieldOut(t: seq<Entry>, f: Field): Out
  {
    var name := UtfRun(f.name);
    Then(Out([TypeCodeUnit(f)] + name.bytes, t, name.err),
         if f.kind.ObjectField? then TypeStringOut(t, f.kind.typeString) else Out([], t, None))
  }

  /** The fields of `ObjectStreamClass.write`, in order, up to the first that throws. */
  function FieldsOut(t: seq<Entry>, fields: seq<Field>): Out
  {
    if fields == [] then Out([], t, None)
    else
      var prev := FieldsOut(t, fields[..|fields| - 1]);
      Then(prev, FieldOut(prev.table, fields[|fields| - 1]))
  }

  /** The fixed part of a descriptor after its name: serial version, flags and field count. */
  function DescHead(d: Desc, protocol: int): seq<int>
  {
    Int32Bytes(d.serialHigh) + Int32Bytes(d.serialLow) + [Flags(d, protocol) as int] + Int16Bytes(|d.fields|)
  }

  /**
   * The fixed part reads back: eleven bytes holding the serial version as a
   * signed Long, the flag byte, and the field count as an unsigned Short.
   */
  lemma DescHeadReads(d: Desc, protocol: int)
    requires -0x8000_0000 <= d.serialHigh < 0x8000_0000 && 0 <= d.serialLow < 0x1_0000_0000
    requires |d.fields| <= 0xFFFF
    ensures var h := DescHead(d, protocol);
      && |h| == 11
      && Signed(Unsigned(h[..8]), 0x1_0000_0000_0000_0000) == d.serialHigh * 0x1_0000_0000 + d.serialLow
      && h[8] == Flags(d, protocol) as int
      && Unsigned(h[9..]) == |d.fields|
  {
    var h := DescHead(d, protocol);
    assert h[..8] == Encode(Long(d.serialHigh, d.serialLow)).value;
    LongRoundTrip(d.serialHigh, d.serialLow);
    assert h[9..] == Int16Bytes(|d.fields|);
    Int16RoundTrip(|d.fields|);
  }

  /** `ObjectStreamClass.write(out)`: the class name, the serial version, the flags, the field count and the fields. */
  function DescBodyOut(t: seq<Entry>, d: Desc, protocol: int): Out
  {
    var name := UtfRun(d.name);
    if name.err.Some? then Out(name.bytes, t, name.err)
    else Prefix(name.bytes + DescHead(d, protocol), FieldsOut(t, d.fields))
  }

  /**
   * `writeProxyDesc`: `TC_PROXYCLASSDESC` and the assignment, then
   * `desc.forClass()`, which a descriptor does not have.
   */
  function ProxyDescOut(t: seq<Entry>, d: Desc, unshared: bool): Out
  {
    Out([TC_PROXYCLASSDESC], Assigned(t, if unshared then None else Some(Ref(Descriptor(d)))), Some(TypeError))
  }

  /**
   * `writeClassDesc(desc, unshared)`: `TC_NULL` for no descriptor, a handle
   * for one already in the table (unless unshared), else a proxy or
   * non-proxy descriptor.
   */
  function ClassDescOut(t: seq<Entry>, od: Option<Desc>, unshared: bool, protocol: int): Out
    decreases od, 1
  {
    match od
    case None => Out([TC_NULL], t, None)
    case Some(d) =>
      var h := IndexOf(t, Ref(Descriptor(d)));
      if !unshared && h != -1 then Out(HandleBytes(h), t, None)
      else if d.proxy then ProxyDescOut(t, d, unshared)
      else NonProxyDescOut(t, d, unshared, protocol)
  }

  /**
   * `writeNonProxyDesc`: `TC_CLASSDESC`, the assignment, the descriptor
   * body, an empty annotation (`TC_ENDBLOCKDATA`), then the superclass
   * descriptor.
   */
  function NonProxyDescOut(t: seq<Entry>, d: Desc, unshared: bool, protocol: int): Out
    decreases d, 0
  {
    var t1 := Assigned(t, if unshared then None else Some(Ref(Descriptor(d))));
    var body := DescBodyOut(t1, d, protocol);
    if body.err.Some? then Prefix([TC_CLASSDESC], body)
    else Prefix([TC_CLASSDESC] + body.bytes + [TC_ENDBLOCKDATA], ClassDescOut(body.table, d.superClass, false, protocol))
  }

  // ---- objects ----

  /**
   * `writeArray(array, desc, unshared)`: `TC_ARRAY` and the descriptor, the
   * assignment, then `desc.forClass()`, which neither a missing descriptor
   * nor an `ObjectStreamClass` has.
   */
  function ArrayOut(t: seq<Entry>, v: Value, od: Option<Desc>, unshared: bool, protocol: int): Out
  {
    var desc := ClassDescOut(t, od, false, protocol);
    if desc.err.Some? then Prefix([TC_ARRAY], desc)
    else Out([TC_ARRAY] + desc.bytes, Assigned(desc.table, if unshared then None else Some(Ref(v))), Some(TypeError))
  }

  /** What the custom `writeObject` of a class writes: its data as one block, then `TC_ENDBLOCKDATA`. */
  function CustomBlock(d: Desc): seq<int>
  {
    Flushed(true, d.customData) + [TC_ENDBLOCKDATA]
  }

  /**
   * `writeExternalData`: under protocol 1 the caller's `writeExternal` writes
   * straight to the stream; otherwise only an empty block-data section, a
   * lone `TC_ENDBLOCKDATA`, is written.
   */
  function ExternalBytes(d: Desc, protocol: int): seq<int>
  {
    if protocol == 1 then d.customData else [TC_ENDBLOCKDATA]
  }

  /**
   * `writeObject0(obj, unshared)` in non-block mode: `TC_NULL` for null, a
   * handle for an object already in the table (unless unshared), and
   * otherwise the writer for the object's kind.
   */
  function ObjectOut(t: seq<Entry>, v: Value, unshared: bool, protocol: int): Out
    decreases !v.Null? && !v.Inherited?, v, 4, 0
  {
    var h := IndexOf(t, Ref(v));
    if v.Null? then Out([TC_NULL], t, None)
    else if !unshared && h != -1 then Out(HandleBytes(h), t, None)
    else match v
      case ClassRef(_) => Out([TC_CLASS], t, Some(ReferenceError))
      case Descriptor(d) => ClassDescOut(t, Some(d), unshared, protocol)
      case Str(s) => StringOut(t, s, unshared)
      case PrimArray(_, _) => ArrayOut(t, v, None, unshared, protocol)
      case EnumConstant => Out([TC_ENUM], t, Some(TypeError))
      case Prim(_) => OrdinaryOut(t, v, Clazz(v), unshared, protocol)
      case Object(_, _) => OrdinaryOut(t, v, Clazz(v), unshared, protocol)
      case Inherited(_) => OrdinaryOut(t, v, Clazz(v), unshared, protocol)
  }

  /**
   * A value already in the table (and not written unshared) goes out as a
   * back-reference alone: five bytes that read back as the position `lookup`
   * finds for it, and the table is left as it was.
   */
  lemma ObjectOutBackReference(t: seq<Entry>, v: Value, protocol: int)
    requires !v.Null? && Ref(v) in t && |t| < 0x1_0000_0000 - BASE_WIRE_HANDLE
    ensures var o := ObjectOut(t, v, false, protocol);
      && o.table == t && o.err.None? && |o.bytes| == 5 && o.bytes[0] == TC_REFERENCE
      && var h := Unsigned(o.bytes[1..]) - BASE_WIRE_HANDLE;
         0 <= h < |t| && t[h] == Ref(v) && forall j :: 0 <= j < h ==> t[j] != Ref(v)
  {
    var h := IndexOf(t, Ref(v));
    IndexOfSpec(t, Ref(v));
    HandleRoundTrip(h);
    assert ObjectOut(t, v, false, protocol) == Out(HandleBytes(h), t, None);
  }

  /**
   * `writeOrdinaryObject(obj, desc, unshared)`: `TC_OBJECT`, the descriptor,
   * the assignment, then the external or the serial data; a missing
   * descriptor throws on `'writeExternal' in desc`.
   */
  function OrdinaryOut(t: seq<Entry>, v: Value, od: Option<Desc>, unshared: bool, protocol: int): Out
    decreases od.Some?, v, 3, 0
  {
    var desc := ClassDescOut(t, od, false, protocol);
    if desc.err.Some? then Prefix([TC_OBJECT], desc)
    else
      var t2 := Assigned(desc.table, if unshared then None else Some(Ref(v)));
      var pre := [TC_OBJECT] + desc.bytes;
      if od.None? then Out(pre, t2, Some(TypeError))
      else if od.value.hasWriteExternal && !od.value.proxy then Out(pre + ExternalBytes(od.value, protocol), t2, None)
      else Prefix(pre, SerialOut(t2, v, Layout(od.value), protocol))
  }

  /**
   * `writeSerialData`: each class of the layout, root first: a class with
   * its own `writeObject` writes its data in block mode followed by
   * `TC_ENDBLOCKDATA`, the others their fields by `defaultWriteFields`.
   */
  function SerialOut(t: seq<Entry>, v: Value, slots: seq<Desc>, protocol: int): Out
    decreases true, v, 2, |slots|
  {
    if slots == [] then Out([], t, None)
    else
      var prev := SerialOut(t, v, slots[..|slots| - 1], protocol);
      Then(prev, SlotOut(prev.table, v, slots[|slots| - 1], protocol))
  }

  /** One class of `writeSerialData`: its own `writeObject`'s block, or its fields. */
  function SlotOut(t: seq<Entry>, v: Value, d: Desc, protocol: int): Out
    decreases true, v, 1, 1
  {
    if d.hasWriteObject then Out(CustomBlock(d), t, None) else DefaultFieldsOut(t, v, d, protocol)
  }

  /**
   * `defaultWriteFields(obj, desc)`: the primitive fields, staged and written
   * at once, then each object field by `writeObject0` (null when absent). A
   * value without `values` throws on its first field.
   */
  function DefaultFieldsOut(t: seq<Entry>, v: Value, d: Desc, protocol: int): Out
    decreases true, v, 1, 0
  {
    if !v.Object? then Out([], t, if d.fields == [] then None else Some(TypeError))
    else match PrimitivesOut(d.fields, v.values)
      case Failure(e) => Out([], t, Some(e))
      case Success(bs) => Prefix(bs, ObjFieldsOut(t, v, ObjectFields(d.fields), protocol))
  }

  /** The value `defaultWriteFields` writes for an object field: the object's own, an inherited property, or null. */
  function FieldValue(v: Value, f: Field): (w: Value)
    requires v.Object?
    ensures f.name in v.values ==> w == v.values[f.name]
    ensures f.name !in v.values ==> w == if f.name in InheritedNames then Inherited(f.name) else Null
    ensures w == Null || w.Inherited? || w in v.values.Values
  {
    if Has(v.values, f.name) then Get(v.values, f.name) else Null
  }

  /**
   * An object field the object does not set but `Object.prototype` does is
   * written as an ordinary object without a descriptor: `TC_OBJECT`, `TC_NULL`
   * for the missing descriptor, then a TypeError; the table is unchanged.
   */
  lemma InheritedFieldThrows(t: seq<Entry>, v: Value, f: Field, protocol: int)
    requires v.Object? && f.name !in v.values && f.name in InheritedNames
    requires f.unshared || Ref(Inherited(f.name)) !in t
    ensures ObjectOut(t, FieldValue(v, f), f.unshared, protocol) == Out([TC_OBJECT, TC_NULL], t, Some(TypeError))
  {
    IndexOfSpec(t, Ref(Inherited(f.name)));
  }

  /** The object fields of `defaultWriteFields`, in order, each by `writeObject0`, up to the first that throws. */
  function ObjFieldsOut(t: seq<Entry>, v: Value, fields: seq<Field>, protocol: int): Out
    requires v.Object?
    decreases true, v, 0, |fields|
  {
    if fields == [] then Out([], t, None)
    else
      var prev := ObjFieldsOut(t, v, fields[..|fields| - 1], protocol);
      var f := fields[|fields| - 1];
      Then(prev, ObjectOut(prev.table, FieldValue(v, f), f.unshared, protocol))
  }

  // ---- unfolding one more element of the prefix-recursive writers ----

  lemma FieldsOutStep(t: seq<Entry>, fields: seq<Field>, i: nat)
    requires i < |fields|
    ensures FieldsOut(t, fields[..i + 1]) == Then(FieldsOut(t, fields[..i]), FieldOut(FieldsOut(t, fields[..i]).table, fields[i]))
  {
    assert fields[..i + 1][..i] == fields[..i];
  }

  /** Once a field throws, the later fields write nothing. */
  lemma {:induction false} FieldsOutStops(t: seq<Entry>, fields: seq<Field>, k: nat)
    requires k <= |fields| && FieldsOut(t, fields[..k]).err.Some?
    ensures FieldsOut(t, fields) == FieldsOut(t, fields[..k])
    decreases |fields| - k
  {
    if k < |fields| {
      FieldsOutStep(t, fields, k);
      FieldsOutStops(t, fields, k + 1);
    } else {
      assert fields[..k] == fields;
    }
  }

  lemma SerialOutStep(t: seq<Entry>, v: Value, slots: seq<Desc>, i: nat, protocol: int)
    requires i < |slots|
    ensures SerialOut(t, v, slots[..i + 1], protocol) ==
      Then(SerialOut(t, v, slots[..i], protocol), SlotOut(SerialOut(t, v, slots[..i], protocol).table, v, slots[i], protocol))
  {
    assert slots[..i + 1][..i] == slots[..i];
  }

  /** Once a class's data throws, the later classes write nothing. */
  lemma {:induction false} SerialOutStops(t: seq<Entry>, v: Value, slots: seq<Desc>, k: nat, protocol: int)
    requires k <= |slots| && SerialOut(t, v, slots[..k], protocol).err.Some?
    ensures SerialOut(t, v, slots, protocol) == SerialOut(t, v, slots[..k], protocol)
    decreases |slots| - k
  {
    if k < |slots| {
      SerialOutStep(t, v, slots, k, protocol);
      SerialOutStops(t, v, slots, k + 1, protocol);
    } else {
      assert slots[..k] == slots;
    }
  }

  lemma ObjFieldsOutStep(t: seq<Entry>, v: Value, fields: seq<Field>, i: nat, protocol: int)
    requires v.Object? && i < |fields|
    ensures ObjFieldsOut(t, v, fields[..i + 1], protocol) ==
      Then(ObjFieldsOut(t, v, fields[..i], protocol),
           ObjectOut(ObjFieldsOut(t, v, fields[..i], protocol).table, FieldValue(v, fields[i]), fields[i].unshared, protocol))
  {
    assert fields[..i + 1][..i] == fields[..i];
  }

  /** Once an object field throws, the later fields write nothing. */
  lemma {:induction false} ObjFieldsOutStops(t: seq<Entry>, v: Value, fields: seq<Field>, k: nat, protocol: int)
    requires v.Object? && k <= |fields| && ObjFieldsOut(t, v, fields[..k], protocol).err.Some?
    ensures ObjFieldsOut(t, v, fields, protocol) == ObjFieldsOut(t, v, fields[..k], protocol)
    decreases |fields| - k
  {
    if k < |fields| {
      ObjFieldsOutStep(t, v, fields, k, protocol);
      ObjFieldsOutStops(t, v, fields, k + 1, protocol);
    } else {
      assert fields[..k] == fields;
    }
  }
}
