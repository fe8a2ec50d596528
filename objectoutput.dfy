/**
 * The stream writer `ObjectOutput`: block-mode buffering in front of a byte
 * sink, the handle table, and the writers for each kind of value.
 */
module ObjectOutputs {
  import opened Wire
  import opened Sink
  import opened Primitives
  import opened JsStrings
  import opened ClassDescriptors
  import opened Values
  import opened Handles
  import opened BlockData
  import opened Streams

  /** The `opts` the writer is created with: a protocol version and a replacement handle table, each optional. */
  datatype Options = Options(protocol: Option<int>, handles: Option<seq<Entry>>)

  /**
   * `bs` was written through `writeByte` between two states of the buffer
   * and the sink: into the buffer in block mode, to the sink otherwise.
   */
  ghost predicate Extended(blockMode: bool, out0: seq<int>, buf0: seq<int>, out1: seq<int>, buf1: seq<int>, bs: seq<int>)
  {
    if blockMode then out1 == out0 && buf1 == buf0 + bs else out1 == out0 + bs && buf1 == buf0
  }

  /** Two writes in a row write their concatenation. */
  lemma ExtendedChain(blockMode: bool, out0: seq<int>, buf0: seq<int>, out1: seq<int>, buf1: seq<int>,
                      out2: seq<int>, buf2: seq<int>, xs: seq<int>, ys: seq<int>)
    requires Extended(blockMode, out0, buf0, out1, buf1, xs) && Extended(blockMode, out1, buf1, out2, buf2, ys)
    ensures Extended(blockMode, out0, buf0, out2, buf2, xs + ys)
  {
  }

  class ObjectOutput {
    /** The byte sink (`out`) the stream goes to. */
    const sink: DataOutput
    const handles: ObjectHandles
    const protocol: int
    var blockMode: bool
    /** Bytes written in block mode and not yet flushed. */
    var blockBuf: seq<int>
    var blockPos: int
    /** The nesting depth of `writeObject0`. */
    var depth: int

    /** `blockPos` counts the buffer, and only block mode buffers. */
    ghost predicate Valid()
      reads this, sink
    {
      sink.Valid() && blockPos == |blockBuf| && (!blockMode ==> blockBuf == [])
    }

    /** What `flush` would send to the sink now. */
    ghost function Pending(): seq<int>
      reads this
    {
      Flushed(blockMode, blockBuf)
    }

    /**
     * `bs` was written through `this.writeByte`: appended to the buffer in
     * block mode, to the sink otherwise.
     */
    ghost predicate Appended(out0: seq<int>, buf0: seq<int>, bs: seq<int>)
      reads this, sink
    {
      Extended(blockMode, out0, buf0, sink.out, blockBuf, bs)
    }

    /**
     * In non-block mode, `o` describes the call: its bytes went to the sink,
     * its table is the new table and `r` is its exception.
     */
    ghost predicate Wrote(out0: seq<int>, depth0: int, o: Out, r: Option<Error>)
      reads this, sink, handles
    {
      Valid() && !blockMode && depth == depth0 &&
      sink.out == out0 + o.bytes && handles.handles == o.table && r == o.err
    }

    /** A new writer: block mode, empty buffer, protocol 2 and an empty table unless `opts` say otherwise. */
    constructor (out: DataOutput, opts: Options)
      requires out.Valid()
      ensures Valid() && sink == out && blockMode && blockBuf == [] && depth == 0
      ensures protocol == (if opts.protocol.Some? then opts.protocol.value else 2)
      ensures fresh(handles) && handles.handles == (if opts.handles.Some? then opts.handles.value else [])
    {
      sink := out;
      blockMode := true;
      blockBuf := [];
      blockPos := 0;
      depth := 0;
      var h := new ObjectHandles();
      if opts.handles.Some? {
        h.handles := opts.handles.value;
      }
      handles := h;
      protocol := if opts.protocol.Some? then opts.protocol.value else 2;
    }

    // ---- framing ----

    /** `writeHeader`: the magic number and version, each as a Short, straight to the sink. */
    method WriteHeader()
      requires Valid()
      modifies sink
      ensures Valid() && sink.out == old(sink.out) + [0xAC, 0xED, 0x00, 0x05]
    {
      var _ := WritePrimitive(Short(STREAM_MAGIC), sink);
      var _ := WritePrimitive(Short(STREAM_VERSION), sink);
    }

    /** `writeBlockHeader(len)`, with the length written in the long form (see BlockHeaderAsWritten). */
    method WriteBlockHeader(len: int)
      requires Valid()
      modifies sink
      ensures Valid() && sink.out == old(sink.out) + BlockHeader(len)
    {
      if len <= 0xFF {
        sink.WriteByte(TC_BLOCKDATA);
        sink.WriteByte(len);
      } else {
        sink.WriteByte(TC_BLOCKDATALONG);
        var _ := WritePrimitive(Integer(len), sink);
      }
    }

    /** `flush`: the buffer goes to the sink, as one block in block mode, and is emptied. */
    method Flush()
      requires Valid()
      modifies this, sink
      ensures Valid() && blockMode == old(blockMode) && depth == old(depth) && blockBuf == []
      ensures sink.out == old(sink.out) + old(Pending())
    {
      if blockPos == 0 {
        return;
      }
      if blockMode {
        WriteBlockHeader(blockPos);
      }
      sink.WriteBytes(blockBuf);
      blockBuf := [];
      blockPos := 0;
    }

    /** `setBlockMode(bm)`: returns the previous mode; a change of mode flushes first. */
    method SetBlockMode(bm: bool) returns (obm: bool)
      requires Valid()
      modifies this, sink
      ensures Valid() && obm == old(blockMode) && blockMode == bm && depth == old(depth)
      ensures old(blockMode) == bm ==> sink.out == old(sink.out) && blockBuf == old(blockBuf)
      ensures old(blockMode) != bm ==> sink.out == old(sink.out) + old(Pending()) && blockBuf == []
    {
      obm := blockMode;
      if obm == bm {
        return;
      }
      Flush();
      blockMode := bm;
    }

    /** `writeByte(b)`: buffered in block mode, straight to the sink otherwise. */
    method WriteByte(b: int)
      requires Valid()
      modifies this, sink
      ensures Valid() && blockMode == old(blockMode) && depth == old(depth)
      ensures Appended(old(sink.out), old(blockBuf), [b])
    {
      if blockMode {
        blockBuf := blockBuf + [b];
        blockPos := blockPos + 1;
      } else {
        sink.WriteByte(b);
      }
    }

    /**
     * `writeBytes(bs)`, with the block-mode branch appending to the buffer
     * (see AppendAsWritten for what the source does there).
     */
    method WriteBytes(bs: seq<int>)
      requires Valid()
      modifies this, sink
      ensures Valid() && blockMode == old(blockMode) && depth == old(depth)
      ensures Appended(old(sink.out), old(blockBuf), bs)
    {
      if blockMode {
        blockBuf := blockBuf + bs;
        blockPos := blockPos + |bs|;
      } else {
        sink.WriteBytes(bs);
      }
    }

    /** A sequence of `writeByte` calls, as the primitive writers and `String.writeBytes` make them. */
    method Emit(bs: seq<int>)
      requires Valid()
      modifies this, sink
      ensures Valid() && blockMode == old(blockMode) && depth == old(depth)
      ensures Appended(old(sink.out), old(blockBuf), bs)
    {
      var i := 0;
      while i < |bs|
        invariant 0 <= i <= |bs|
        invariant Valid() && blockMode == old(blockMode) && depth == old(depth)
        invariant Appended(old(sink.out), old(blockBuf), bs[..i])
      {
        WriteByte(bs[i]);
        assert bs[..i + 1] == bs[..i] + [bs[i]];
        i := i + 1;
      }
      assert bs[..i] == bs;
    }

    // ---- strings ----

    method WriteNull()
      requires Valid()
      modifies this, sink
      ensures Valid() && blockMode == old(blockMode) && depth == old(depth)
      ensures Appended(old(sink.out), old(blockBuf), [TC_NULL])
    {
      WriteByte(TC_NULL);
    }

    /** `String.writeBytes(this)`: the low byte of each code unit. */
    method WriteStringBytes(s: string)
      requires Valid()
      modifies this, sink
      ensures Valid() && blockMode == old(blockMode) && depth == old(depth)
      ensures Appended(old(sink.out), old(blockBuf), LowBytes(s))
    {
      var units := Utf16(s);
      var i := 0;
      while i < |units|
        invariant 0 <= i <= |units|
        invariant Valid() && blockMode == old(blockMode) && depth == old(depth)
        invariant Appended(old(sink.out), old(blockBuf), LowUnits(units[..i]))
      {
        ghost var out1, buf1 := sink.out, blockBuf;
        WriteByte(units[i] % 256);
        assert units[..i + 1][..i] == units[..i];
        ExtendedChain(blockMode, old(sink.out), old(blockBuf), out1, buf1, sink.out, blockBuf,
                      LowUnits(units[..i]), [units[i] % 256]);
        i := i + 1;
      }
      assert units[..i] == units;
    }

    /** `writeUTFLen(str, len)`. */
    method WriteUTFLen(s: string, len: int) returns (r: Option<Error>)
      requires Valid()
      modifies this, sink
      ensures Valid() && blockMode == old(blockMode) && depth == old(depth)
      ensures Appended(old(sink.out), old(blockBuf), UtfLenRun(s, len).bytes) && r == UtfLenRun(s, len).err
    {
      if len > 0xFFFF {
        return Some(LengthExceeded);
      }
      Emit(Int16Bytes(len));
      if len == |Utf16(s)| {
        WriteStringBytes(s);
        r := None;
      } else {
        r := Some(NonAsciiString);
      }
    }

    /** `writeUTF(str)`: the string's UTF-8 length, then the string, in the `writeUTFLen` format. */
    method WriteUTF(s: string) returns (r: Option<Error>)
      requires Valid()
      modifies this, sink
      ensures Valid() && blockMode == old(blockMode) && depth == old(depth)
      ensures Appended(old(sink.out), old(blockBuf), UtfRun(s).bytes) && r == UtfRun(s).err
    {
      r := WriteUTFLen(s, Utf8Length(s));
    }

    /** `writeLongUTF(str, len)`. */
    method WriteLongUTF(s: string, len: int) returns (r: Option<Error>)
      requires Valid()
      modifies this, sink
      ensures Valid() && blockMode == old(blockMode) && depth == old(depth)
      ensures Appended(old(sink.out), old(blockBuf), LongUtfRun(s, len).bytes) && r == LongUtfRun(s, len).err
    {
      Emit(Encode(Long(len, 0)).value);
      if len == |Utf16(s)| {
        r := Some(TypeError);
      } else {
        r := Some(NonAsciiString);
      }
    }

    /** `writeString(str, unshared)`. */
    method WriteString(s: string, unshared: bool) returns (r: Option<Error>)
      requires Valid()
      modifies this, sink, handles
      ensures Valid() && blockMode == old(blockMode) && depth == old(depth)
      ensures Appended(old(sink.out), old(blockBuf), StringOut(old(handles.handles), s, unshared).bytes)
      ensures handles.handles == StringOut(old(handles.handles), s, unshared).table
      ensures r == StringOut(old(handles.handles), s, unshared).err
    {
      ghost var o := StringOut(handles.handles, s, unshared);
      ghost var out0, buf0 := sink.out, blockBuf;
      handles.Assign(if unshared then None else Some(Text(s)));
      var utflen := Utf8Length(s);
      if utflen <= 0xFFFF {
        WriteByte(TC_STRING);
        ghost var out1, buf1 := sink.out, blockBuf;
        r := WriteUTFLen(s, utflen);
        ExtendedChain(blockMode, out0, buf0, out1, buf1, sink.out, blockBuf, [TC_STRING], UtfLenRun(s, utflen).bytes);
        assert o.bytes == [TC_STRING] + UtfLenRun(s, utflen).bytes;
      } else {
        WriteByte(TC_LONGSTRING);
        ghost var out1, buf1 := sink.out, blockBuf;
        r := WriteLongUTF(s, utflen);
        ExtendedChain(blockMode, out0, buf0, out1, buf1, sink.out, blockBuf, [TC_LONGSTRING], LongUtfRun(s, utflen).bytes);
        assert o.bytes == [TC_LONGSTRING] + LongUtfRun(s, utflen).bytes;
      }
    }

    // ---- handles and type strings ----

    /** `writeHandle(h)`: the tag through `writeByte`, the wire handle straight to the sink. */
    method WriteHandle(h: int)
      requires Valid()
      modifies this, sink
      ensures Valid() && blockMode == old(blockMode) && depth == old(depth)
      ensures blockMode ==>
        blockBuf == old(blockBuf) + [TC_REFERENCE] && sink.out == old(sink.out) + Int32Bytes(BASE_WIRE_HANDLE + h)
      ensures !blockMode ==> sink.out == old(sink.out) + HandleBytes(h)
    {
      WriteByte(TC_REFERENCE);
      var _ := WritePrimitive(Integer(BASE_WIRE_HANDLE + h), sink);
    }

    /** `writeTypeString(type)`. */
    method WriteTypeString(ts: string) returns (r: Option<Error>)
      requires Valid() && !blockMode
      modifies this, sink, handles
      ensures Wrote(old(sink.out), old(depth), TypeStringOut(old(handles.handles), ts), r)
    {
      var h := handles.Lookup(Text(ts));
      if h != -1 {
        WriteHandle(h);
        r := None;
      } else {
        r := WriteString(ts, false);
      }
    }

    // ---- class descriptors ----

    /** One field of `ObjectStreamClass.write(this)`. */
    method WriteField(f: Field) returns (r: Option<Error>)
      requires Valid() && !blockMode
      modifies this, sink, handles
      ensures Wrote(old(sink.out), old(depth), FieldOut(old(handles.handles), f), r)
    {
      ghost var t := handles.handles;
      WriteByte(TypeCodeUnit(f));
      r := WriteUTF(f.name);
      ghost var head := [TypeCodeUnit(f)] + UtfRun(f.name).bytes;
      Regroup(old(sink.out), [TypeCodeUnit(f)], UtfRun(f.name).bytes);
      if r.Some? {
        return;
      }
      if f.kind.ObjectField? {
        ghost var mid := sink.out;
        r := WriteTypeString(f.kind.typeString);
        ghost var ts := TypeStringOut(t, f.kind.typeString);
        assert FieldOut(t, f) == Out(head + ts.bytes, ts.table, ts.err);
        Regroup(old(sink.out), head, ts.bytes);
      } else {
        assert head + [] == head;
      }
    }

    /** `ObjectStreamClass.write(this)`. */
    method WriteDescBody(d: Desc) returns (r: Option<Error>)
      requires Valid() && !blockMode
      modifies this, sink, handles
      ensures Wrote(old(sink.out), old(depth), DescBodyOut(old(handles.handles), d, protocol), r)
    {
      ghost var t := handles.handles;
      r := WriteUTF(d.name);
      if r.Some? {
        return;
      }
      WriteDescHead(d);
      ghost var head := UtfRun(d.name).bytes + DescHead(d, protocol);
      Regroup(old(sink.out), UtfRun(d.name).bytes, DescHead(d, protocol));
      r := WriteFields(d.fields);
      Regroup(old(sink.out), head, FieldsOut(t, d.fields).bytes);
    }

    /** The serial version as a Long, the flags byte and the field count as a Short, all through `writeByte`. */
    method WriteDescHead(d: Desc)
      requires Valid() && !blockMode
      modifies this, sink
      ensures Valid() && !blockMode && depth == old(depth) && sink.out == old(sink.out) + DescHead(d, protocol)
    {
      Emit(Encode(Long(d.serialHigh, d.serialLow)).value);
      WriteByte(Flags(d, protocol) as int);
      Emit(Int16Bytes(|d.fields|));
    }

    /** The field loop of `ObjectStreamClass.write(this)`. */
    method WriteFields(fields: seq<Field>) returns (r: Option<Error>)
      requires Valid() && !blockMode
      modifies this, sink, handles
      ensures Wrote(old(sink.out), old(depth), FieldsOut(old(handles.handles), fields), r)
    {
      ghost var t := handles.handles;
      assert fields[..0] == [] && old(sink.out) + [] == old(sink.out);
      r := None;
      var i := 0;
      while i < |fields| && r.None?
        invariant 0 <= i <= |fields|
        invariant Wrote(old(sink.out), old(depth), FieldsOut(t, fields[..i]), r)
      {
        ghost var prev := FieldsOut(t, fields[..i]);
        ghost var next := FieldOut(prev.table, fields[i]);
        FieldsOutStep(t, fields, i);
        assert FieldsOut(t, fields[..i + 1]) == Out(prev.bytes + next.bytes, next.table, next.err);
        r := WriteField(fields[i]);
        Regroup(old(sink.out), prev.bytes, next.bytes);
        i := i + 1;
      }
      if r.Some? {
        FieldsOutStops(t, fields, i);
      } else {
        assert fields[..i] == fields;
      }
    }

    /** `writeClassDesc(desc, unshared)`; `None` is a null descriptor. */
    method WriteClassDesc(od: Option<Desc>, unshared: bool) returns (r: Option<Error>)
      requires Valid() && !blockMode
      modifies this, sink, handles
      ensures Wrote(old(sink.out), old(depth), ClassDescOut(old(handles.handles), od, unshared, protocol), r)
      decreases od, 1
    {
      if od.None? {
        WriteNull();
        return None;
      }
      var d := od.value;
      var h := -1;
      if !unshared {
        h := handles.Lookup(Ref(Descriptor(d)));
      }
      if !unshared && h != -1 {
        WriteHandle(h);
        r := None;
      } else if d.proxy {
        r := WriteProxyDesc(d, unshared);
      } else {
        r := WriteNonProxyDesc(d, unshared);
      }
    }

    /** `writeProxyDesc(desc, unshared)`: stops at `desc.forClass()`. */
    method WriteProxyDesc(d: Desc, unshared: bool) returns (r: Option<Error>)
      requires Valid()
      modifies this, sink, handles
      ensures Valid() && blockMode == old(blockMode) && depth == old(depth)
      ensures Appended(old(sink.out), old(blockBuf), ProxyDescOut(old(handles.handles), d, unshared).bytes)
      ensures handles.handles == ProxyDescOut(old(handles.handles), d, unshared).table
      ensures r == ProxyDescOut(old(handles.handles), d, unshared).err
    {
      WriteByte(TC_PROXYCLASSDESC);
      handles.Assign(if unshared then None else Some(Ref(Descriptor(d))));
      r := Some(TypeError);
    }

    /** `writeNonProxyDesc(desc, unshared)`; the class annotation is empty. */
    method WriteNonProxyDesc(d: Desc, unshared: bool) returns (r: Option<Error>)
      requires Valid() && !blockMode
      modifies this, sink, handles
      ensures Wrote(old(sink.out), old(depth), NonProxyDescOut(old(handles.handles), d, unshared, protocol), r)
      decreases d, 0
    {
      WriteByte(TC_CLASSDESC);
      handles.Assign(if unshared then None else Some(Ref(Descriptor(d))));
      ghost var t1 := handles.handles;
      r := WriteDescBody(d);
      ghost var body := DescBodyOut(t1, d, protocol);
      Regroup(old(sink.out), [TC_CLASSDESC], body.bytes);
      if r.Some? {
        return;
      }
      ghost var out1 := sink.out;
      assert Pending() == [] && out1 + [] == out1;
      var _ := SetBlockMode(true);
      var _ := SetBlockMode(false);
      sink.WriteByte(TC_ENDBLOCKDATA);
      ghost var head := [TC_CLASSDESC] + body.bytes + [TC_ENDBLOCKDATA];
      Regroup(old(sink.out), [TC_CLASSDESC] + body.bytes, [TC_ENDBLOCKDATA]);
      r := WriteClassDesc(d.superClass, false);
      Regroup(old(sink.out), head, ClassDescOut(body.table, d.superClass, false, protocol).bytes);
    }

    // ---- objects ----

    /** `writeObject(obj)`. */
    method WriteObject(v: Value) returns (r: Option<Error>)
      requires Valid()
      modifies this, sink, handles
      ensures Valid() && blockMode == old(blockMode) && depth == old(depth) && blockBuf == []
      ensures sink.out == old(sink.out) + old(Pending()) + ObjectOut(old(handles.handles), v, false, protocol).bytes
      ensures handles.handles == ObjectOut(old(handles.handles), v, false, protocol).table
      ensures r == ObjectOut(old(handles.handles), v, false, protocol).err
    {
      r := WriteObject0(v, false);
    }

    /**
     * `writeObject0(obj, unshared)`: flushes and leaves block mode, writes the
     * value, and (also when the write throws) restores the depth and the
     * mode.
     */
    method WriteObject0(v: Value, unshared: bool) returns (r: Option<Error>)
      requires Valid()
      modifies this, sink, handles
      ensures Valid() && blockMode == old(blockMode) && depth == old(depth) && blockBuf == []
      ensures sink.out == old(sink.out) + old(Pending()) + ObjectOut(old(handles.handles), v, unshared, protocol).bytes
      ensures handles.handles == ObjectOut(old(handles.handles), v, unshared, protocol).table
      ensures r == ObjectOut(old(handles.handles), v, unshared, protocol).err
      decreases !v.Null? && !v.Inherited?, v, 6
    {
      var obm := SetBlockMode(false);
      depth := depth + 1;
      ghost var out0 := sink.out;
      assert out0 == old(sink.out) + old(Pending());
      r := WriteObjectBody(v, unshared);
      depth := depth - 1;
      ghost var out1 := sink.out;
      assert Pending() == [] && out1 + [] == out1;
      var _ := SetBlockMode(obm);
    }

    /** The `try` block of `writeObject0`, in non-block mode. */
    method WriteObjectBody(v: Value, unshared: bool) returns (r: Option<Error>)
      requires Valid() && !blockMode
      modifies this, sink, handles
      ensures Wrote(old(sink.out), old(depth), ObjectOut(old(handles.handles), v, unshared, protocol), r)
      decreases !v.Null? && !v.Inherited?, v, 5
    {
      if v.Null? {
        WriteNull();
        return None;
      }
      var h := -1;
      if !unshared {
        h := handles.Lookup(Ref(v));
      }
      if !unshared && h != -1 {
        WriteHandle(h);
        return None;
      }
      match v
      case ClassRef(_) => r := WriteClass(v, unshared);
      case Descriptor(d) => r := WriteClassDesc(Some(d), unshared);
      case Str(s) => r := WriteString(s, unshared);
      case PrimArray(_, _) => r := WriteArray(v, None, unshared);
      case EnumConstant => r := WriteEnum(v, None, unshared);
      case Prim(_) => r := WriteOrdinaryObject(v, Clazz(v), unshared);
      case Object(_, _) => r := WriteOrdinaryObject(v, Clazz(v), unshared);
      case Inherited(_) => r := WriteOrdinaryObject(v, Clazz(v), unshared);
    }

    /** `writeClass(clazz, unshared)`: stops at the undeclared `cl`. */
    method WriteClass(v: Value, unshared: bool) returns (r: Option<Error>)
      requires Valid()
      modifies this, sink
      ensures Valid() && blockMode == old(blockMode) && depth == old(depth)
      ensures Appended(old(sink.out), old(blockBuf), [TC_CLASS]) && r == Some(ReferenceError)
    {
      WriteByte(TC_CLASS);
      r := Some(ReferenceError);
    }

    /** `writeEnum(en, desc, unshared)`: stops at `desc.getSuperDesc()`. */
    method WriteEnum(v: Value, od: Option<Desc>, unshared: bool) returns (r: Option<Error>)
      requires Valid()
      modifies this, sink
      ensures Valid() && blockMode == old(blockMode) && depth == old(depth)
      ensures Appended(old(sink.out), old(blockBuf), [TC_ENUM]) && r == Some(TypeError)
    {
      WriteByte(TC_ENUM);
      r := Some(TypeError);
    }

    /** `writeArray(array, desc, unshared)`: stops at `desc.forClass()`. */
    method WriteArray(v: Value, od: Option<Desc>, unshared: bool) returns (r: Option<Error>)
      requires Valid() && !blockMode
      modifies this, sink, handles
      ensures Wrote(old(sink.out), old(depth), ArrayOut(old(handles.handles), v, od, unshared, protocol), r)
    {
      WriteByte(TC_ARRAY);
      r := WriteClassDesc(od, false);
      if r.Some? {
        return;
      }
      handles.Assign(if unshared then None else Some(Ref(v)));
      r := Some(TypeError);
    }

    /** `writeOrdinaryObject(obj, desc, unshared)`. */
    method WriteOrdinaryObject(v: Value, od: Option<Desc>, unshared: bool) returns (r: Option<Error>)
      requires Valid() && !blockMode
      modifies this, sink, handles
      ensures Wrote(old(sink.out), old(depth), OrdinaryOut(old(handles.handles), v, od, unshared, protocol), r)
      decreases od.Some?, v, 4
    {
      ghost var t := handles.handles;
      WriteByte(TC_OBJECT);
      r := WriteClassDesc(od, false);
      ghost var pre := [TC_OBJECT] + ClassDescOut(t, od, false, protocol).bytes;
      Regroup(old(sink.out), [TC_OBJECT], ClassDescOut(t, od, false, protocol).bytes);
      if r.Some? {
        return;
      }
      handles.Assign(if unshared then None else Some(Ref(v)));
      if od.None? {
        return Some(TypeError);
      }
      if od.value.hasWriteExternal && !od.value.proxy {
        WriteExternalData(v, od.value);
        Regroup(old(sink.out), pre, ExternalBytes(od.value, protocol));
        r := None;
      } else {
        ghost var t2 := handles.handles;
        r := WriteSerialData(v, od.value);
        Regroup(old(sink.out), pre, SerialOut(t2, v, Layout(od.value), protocol).bytes);
      }
    }

    /** `writeExternalData(obj, desc)`; under protocol 1 the caller's `writeExternal` writes `customData`. */
    method WriteExternalData(v: Value, d: Desc)
      requires Valid() && !blockMode
      modifies this, sink
      ensures Valid() && !blockMode && depth == old(depth)
      ensures sink.out == old(sink.out) + ExternalBytes(d, protocol)
    {
      if protocol == 1 {
        Emit(d.customData);
      } else {
        var _ := SetBlockMode(true);
        var _ := SetBlockMode(false);
        sink.WriteByte(TC_ENDBLOCKDATA);
      }
    }

    /** `writeSerialData(obj, desc)`: each class of the layout, root first. */
    method WriteSerialData(v: Value, d: Desc) returns (r: Option<Error>)
      requires Valid() && !blockMode
      modifies this, sink, handles
      ensures Wrote(old(sink.out), old(depth), SerialOut(old(handles.handles), v, Layout(d), protocol), r)
      decreases true, v, 3
    {
      r := WriteSlots(v, Layout(d));
    }

    /** The loop of `writeSerialData` over the given class layout, stopping at the first exception. */
    method WriteSlots(v: Value, slots: seq<Desc>) returns (r: Option<Error>)
      requires Valid() && !blockMode
      modifies this, sink, handles
      ensures Wrote(old(sink.out), old(depth), SerialOut(old(handles.handles), v, slots, protocol), r)
      decreases true, v, 2
    {
      ghost var t := handles.handles;
      assert slots[..0] == [] && old(sink.out) + [] == old(sink.out);
      r := None;
      var i := 0;
      while i < |slots| && r.None?
        invariant 0 <= i <= |slots|
        invariant Wrote(old(sink.out), old(depth), SerialOut(t, v, slots[..i], protocol), r)
      {
        r := WriteNextSlot(old(sink.out), old(depth), t, v, slots, i);
        i := i + 1;
      }
      if r.Some? {
        SerialOutStops(t, v, slots, i, protocol);
      } else {
        assert slots[..i] == slots;
      }
    }

    /** One pass of the loop of `writeSerialData`: the writes so far are followed by those of class `slots[i]`. */
    method WriteNextSlot(ghost out0: seq<int>, ghost depth0: int, ghost t: seq<Entry>, v: Value, slots: seq<Desc>, i: nat)
      returns (r: Option<Error>)
      requires i < |slots| && Wrote(out0, depth0, SerialOut(t, v, slots[..i], protocol), None)
      modifies this, sink, handles
      ensures Wrote(out0, depth0, SerialOut(t, v, slots[..i + 1], protocol), r)
      decreases true, v, 1, 2
    {
      ghost var prev := SerialOut(t, v, slots[..i], protocol);
      ghost var next := SlotOut(prev.table, v, slots[i], protocol);
      SerialOutStep(t, v, slots, i, protocol);
      r := WriteSlot(v, slots[i]);
      Regroup(out0, prev.bytes, next.bytes);
    }

    /** One class of `writeSerialData`: its own `writeObject` writes its `customData` in block mode, else `defaultWriteFields` runs. */
    method WriteSlot(v: Value, slot: Desc) returns (r: Option<Error>)
      requires Valid() && !blockMode
      modifies this, sink, handles
      ensures Wrote(old(sink.out), old(depth), SlotOut(old(handles.handles), v, slot, protocol), r)
      decreases true, v, 1, 1
    {
      if slot.hasWriteObject {
        assert Pending() == [] && old(sink.out) + [] == old(sink.out);
        var _ := SetBlockMode(true);
        Emit(slot.customData);
        assert blockBuf == slot.customData;
        var _ := SetBlockMode(false);
        sink.WriteByte(TC_ENDBLOCKDATA);
        Regroup(old(sink.out), Flushed(true, slot.customData), [TC_ENDBLOCKDATA]);
        r := None;
      } else {
        r := DefaultWriteFields(v, slot);
      }
    }

    /** `defaultWriteObject(obj, desc)`: leaves block mode for the fields, and re-enters it unless they throw. */
    method DefaultWriteObject(v: Value, d: Desc) returns (r: Option<Error>)
      requires Valid()
      modifies this, sink, handles
      ensures Valid() && depth == old(depth) && blockBuf == [] && blockMode == r.None?
      ensures sink.out == old(sink.out) + old(Pending()) + DefaultFieldsOut(old(handles.handles), v, d, protocol).bytes
      ensures handles.handles == DefaultFieldsOut(old(handles.handles), v, d, protocol).table
      ensures r == DefaultFieldsOut(old(handles.handles), v, d, protocol).err
    {
      ghost var pending := Pending();
      var _ := SetBlockMode(false);
      assert sink.out == old(sink.out) + pending by {
        if !old(blockMode) {
          assert pending == [] && old(sink.out) + [] == old(sink.out);
        }
      }
      r := DefaultWriteFields(v, d);
      if r.Some? {
        return;
      }
      ghost var written := sink.out;
      var _ := SetBlockMode(true);
      assert sink.out == written + [];
    }

    /**
     * `defaultWriteFields(obj, desc)`. The class check reads `desc.clazz`,
     * which an `ObjectStreamClass` does not have, so it never throws.
     */
    method DefaultWriteFields(v: Value, d: Desc) returns (r: Option<Error>)
      requires Valid() && !blockMode
      modifies this, sink, handles
      ensures Wrote(old(sink.out), old(depth), DefaultFieldsOut(old(handles.handles), v, d, protocol), r)
      decreases true, v, 1, 0
    {
      if !v.Object? {
        r := if d.fields == [] then None else Some(TypeError);
        return;
      }
      r := WritePrimitives(d, v.values);
      if r.Some? {
        return;
      }
      ghost var t := handles.handles;
      ghost var bs := PrimitivesOut(d.fields, v.values).value;
      r := WriteObjectFields(v, ObjectFields(d.fields));
      Regroup(old(sink.out), bs, ObjFieldsOut(t, v, ObjectFields(d.fields), protocol).bytes);
    }

    /** The object-field loop of `defaultWriteFields`: each field's value (null when absent) by `writeObject0`. */
    method WriteObjectFields(v: Value, fields: seq<Field>) returns (r: Option<Error>)
      requires Valid() && !blockMode && v.Object?
      modifies this, sink, handles
      ensures Wrote(old(sink.out), old(depth), ObjFieldsOut(old(handles.handles), v, fields, protocol), r)
      decreases true, v, 0, 0
    {
      ghost var t := handles.handles;
      assert fields[..0] == [] && old(sink.out) + [] == old(sink.out);
      r := None;
      var i := 0;
      while i < |fields| && r.None?
        invariant 0 <= i <= |fields|
        invariant Wrote(old(sink.out), old(depth), ObjFieldsOut(t, v, fields[..i], protocol), r)
      {
        ghost var prev := ObjFieldsOut(t, v, fields[..i], protocol);
        var f := fields[i];
        var w := FieldValue(v, f);
        ghost var next := ObjectOut(prev.table, w, f.unshared, protocol);
        ObjFieldsOutStep(t, v, fields, i, protocol);
        assert ObjFieldsOut(t, v, fields[..i + 1], protocol) == Out(prev.bytes + next.bytes, next.table, next.err);
        assert Pending() == [] && sink.out + [] == sink.out;
        r := WriteObject0(w, f.unshared);
        Regroup(old(sink.out), prev.bytes, next.bytes);
        i := i + 1;
      }
      if r.Some? {
        ObjFieldsOutStops(t, v, fields, i, protocol);
      } else {
        assert fields[..i] == fields;
      }
    }

    /**
     * `desc.writePrimitives(this, vals)`: the primitive fields are staged in
     * a private `DataOutput` and written with one `writeBytes`, so a field
     * that throws leaves nothing written.
     */
    method WritePrimitives(d: Desc, vals: map<string, Value>) returns (r: Option<Error>)
      requires Valid()
      modifies this, sink
      ensures Valid() && blockMode == old(blockMode) && depth == old(depth)
      ensures r == None <==> PrimitivesOut(d.fields, vals).Success?
      ensures PrimitivesOut(d.fields, vals).Failure? ==>
        r == Some(PrimitivesOut(d.fields, vals).error) && sink.out == old(sink.out) && blockBuf == old(blockBuf)
      ensures PrimitivesOut(d.fields, vals).Success? ==>
        Appended(old(sink.out), old(blockBuf), PrimitivesOut(d.fields, vals).value)
    {
      var buf := new DataOutput([]);
      var fields := d.fields;
      assert fields[..0] == [];
      r := None;
      var i := 0;
      while i < |fields| && r.None?
        invariant 0 <= i <= |fields|
        invariant buf.Valid() && fresh(buf)
        invariant Valid() && blockMode == old(blockMode) && depth == old(depth)
        invariant sink.out == old(sink.out) && blockBuf == old(blockBuf)
        invariant r.None? <==> PrimitivesOut(fields[..i], vals).Success?
        invariant r.None? ==> buf.out == PrimitivesOut(fields[..i], vals).value
        invariant r.Some? ==> r.value == PrimitivesOut(fields[..i], vals).error
      {
        ghost var prev := PrimitivesOut(fields[..i], vals);
        assert fields[..i + 1][..i] == fields[..i];
        var f := fields[i];
        if f.kind.PrimitiveField? {
          ghost var bs := PrimitiveFieldBytes(f, vals);
          assert PrimitivesOut(fields[..i + 1], vals) ==
            if bs.Failure? then Failure(bs.error) else Success(prev.value + bs.value);
          r := StagePrimitive(f, vals, buf);
        } else {
          assert PrimitivesOut(fields[..i + 1], vals) == prev;
        }
        i := i + 1;
      }
      if r.Some? {
        PrimitivesOutStops(fields, vals, i);
        return;
      }
      assert fields[..i] == fields;
      WriteBytes(buf.out);
    }
  }
}
