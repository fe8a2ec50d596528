/**
 * How the handle table evolves while a value is written: every writer only
 * ever lets it grow by duplicates (see `Assigned`), so writing a value never
 * changes what `lookup` answers, and a writer that starts from an empty
 * table never writes a back-reference to anything it wrote itself. From an
 * empty table a class descriptor is therefore written out in full, one
 * record per class of its superclass chain, ending with `TC_NULL`.
 */
module TableGrowth {
  import opened Wire
  import opened ClassDescriptors
  import opened Values
  import opened Handles
  import opened Streams

  lemma StringOutGrows(t: seq<Entry>, s: string, unshared: bool)
    ensures Grows(t, StringOut(t, s, unshared).table)
  {
    AssignedGrows(t, if unshared then None else Some(Text(s)));
  }

  lemma TypeStringOutGrows(t: seq<Entry>, ts: string)
    ensures Grows(t, TypeStringOut(t, ts).table)
  {
    StringOutGrows(t, ts, false);
  }

  lemma FieldOutGrows(t: seq<Entry>, f: Field)
    ensures Grows(t, FieldOut(t, f).table)
  {
    if f.kind.ObjectField? {
      TypeStringOutGrows(t, f.kind.typeString);
    }
  }

  lemma {:induction false} FieldsOutGrows(t: seq<Entry>, fields: seq<Field>)
    ensures Grows(t, FieldsOut(t, fields).table)
    decreases |fields|
  {
    if fields != [] {
      var front := fields[..|fields| - 1];
      var prev := FieldsOut(t, front);
      FieldsOutGrows(t, front);
      FieldOutGrows(prev.table, fields[|fields| - 1]);
      if prev.err.None? {
        GrowsTrans(t, prev.table, FieldOut(prev.table, fields[|fields| - 1]).table);
      }
    }
  }

  lemma DescBodyOutGrows(t: seq<Entry>, d: Desc, protocol: int)
    ensures Grows(t, DescBodyOut(t, d, protocol).table)
  {
    FieldsOutGrows(t, d.fields);
  }

  lemma {:induction false} ClassDescOutGrows(t: seq<Entry>, od: Option<Desc>, unshared: bool, protocol: int)
    ensures Grows(t, ClassDescOut(t, od, unshared, protocol).table)
    decreases od, 1
  {
    if od.Some? && (unshared || IndexOf(t, Ref(Descriptor(od.value))) == -1) {
      if od.value.proxy {
        AssignedGrows(t, if unshared then None else Some(Ref(Descriptor(od.value))));
      } else {
        NonProxyDescOutGrows(t, od.value, unshared, protocol);
      }
    }
  }

  lemma {:induction false} NonProxyDescOutGrows(t: seq<Entry>, d: Desc, unshared: bool, protocol: int)
    ensures Grows(t, NonProxyDescOut(t, d, unshared, protocol).table)
    decreases d, 0
  {
    var t1 := Assigned(t, if unshared then None else Some(Ref(Descriptor(d))));
    var body := DescBodyOut(t1, d, protocol);
    AssignedGrows(t, if unshared then None else Some(Ref(Descriptor(d))));
    DescBodyOutGrows(t1, d, protocol);
    GrowsTrans(t, t1, body.table);
    if body.err.None? {
      ClassDescOutGrows(body.table, d.superClass, false, protocol);
      GrowsTrans(t, body.table, ClassDescOut(body.table, d.superClass, false, protocol).table);
    }
  }

  lemma ArrayOutGrows(t: seq<Entry>, v: Value, od: Option<Desc>, unshared: bool, protocol: int)
    ensures Grows(t, ArrayOut(t, v, od, unshared, protocol).table)
  {
    var desc := ClassDescOut(t, od, false, protocol);
    ClassDescOutGrows(t, od, false, protocol);
    if desc.err.None? {
      AssignedGrows(desc.table, if unshared then None else Some(Ref(v)));
      GrowsTrans(t, desc.table, Assigned(desc.table, if unshared then None else Some(Ref(v))));
    }
  }

  lemma {:induction false} ObjectOutGrows(t: seq<Entry>, v: Value, unshared: bool, protocol: int)
    ensures Grows(t, ObjectOut(t, v, unshared, protocol).table)
    decreases !v.Null? && !v.Inherited?, v, 4, 0
  {
    if !v.Null? && (unshared || IndexOf(t, Ref(v)) == -1) {
      match v
      case Descriptor(d) => ClassDescOutGrows(t, Some(d), unshared, protocol);
      case Str(s) => StringOutGrows(t, s, unshared);
      case PrimArray(_, _) => ArrayOutGrows(t, v, None, unshared, protocol);
      case Prim(_) => OrdinaryOutGrows(t, v, Clazz(v), unshared, protocol);
      case Object(_, _) => OrdinaryOutGrows(t, v, Clazz(v), unshared, protocol);
      case Inherited(_) => OrdinaryOutGrows(t, v, Clazz(v), unshared, protocol);
      case _ =>
    }
  }

  lemma {:induction false} OrdinaryOutGrows(t: seq<Entry>, v: Value, od: Option<Desc>, unshared: bool, protocol: int)
    ensures Grows(t, OrdinaryOut(t, v, od, unshared, protocol).table)
    decreases od.Some?, v, 3, 0
  {
    var desc := ClassDescOut(t, od, false, protocol);
    ClassDescOutGrows(t, od, false, protocol);
    if desc.err.None? {
      var t2 := Assigned(desc.table, if unshared then None else Some(Ref(v)));
      AssignedGrows(desc.table, if unshared then None else Some(Ref(v)));
      GrowsTrans(t, desc.table, t2);
      if od.Some? && !(od.value.hasWriteExternal && !od.value.proxy) {
        SerialOutGrows(t2, v, Layout(od.value), protocol);
        GrowsTrans(t, t2, SerialOut(t2, v, Layout(od.value), protocol).table);
      }
    }
  }

  lemma {:induction false} SerialOutGrows(t: seq<Entry>, v: Value, slots: seq<Desc>, protocol: int)
    ensures Grows(t, SerialOut(t, v, slots, protocol).table)
    decreases true, v, 2, |slots|
  {
    if slots != [] {
      var front := slots[..|slots| - 1];
      var prev := SerialOut(t, v, front, protocol);
      SerialOutGrows(t, v, front, protocol);
      if prev.err.None? {
        var next := SlotOut(prev.table, v, slots[|slots| - 1], protocol);
        SlotOutGrows(prev.table, v, slots[|slots| - 1], protocol);
        GrowsTrans(t, prev.table, next.table);
      }
    }
  }

  lemma {:induction false} SlotOutGrows(t: seq<Entry>, v: Value, d: Desc, protocol: int)
    ensures Grows(t, SlotOut(t, v, d, protocol).table)
    decreases true, v, 1, 1
  {
    if !d.hasWriteObject {
      DefaultFieldsOutGrows(t, v, d, protocol);
    }
  }

  lemma {:induction false} DefaultFieldsOutGrows(t: seq<Entry>, v: Value, d: Desc, protocol: int)
    ensures Grows(t, DefaultFieldsOut(t, v, d, protocol).table)
    decreases true, v, 1, 0
  {
    if v.Object? && PrimitivesOut(d.fields, v.values).Success? {
      ObjFieldsOutGrows(t, v, ObjectFields(d.fields), protocol);
    }
  }

  lemma {:induction false} ObjFieldsOutGrows(t: seq<Entry>, v: Value, fields: seq<Field>, protocol: int)
    requires v.Object?
    ensures Grows(t, ObjFieldsOut(t, v, fields, protocol).table)
    decreases true, v, 0, |fields|
  {
    if fields != [] {
      var front := fields[..|fields| - 1];
      var f := fields[|fields| - 1];
      var prev := ObjFieldsOut(t, v, front, protocol);
      ObjFieldsOutGrows(t, v, front, protocol);
      if prev.err.None? {
        var w := FieldValue(v, f);
        ObjectOutGrows(prev.table, w, f.unshared, protocol);
        GrowsTrans(t, prev.table, ObjectOut(prev.table, w, f.unshared, protocol).table);
      }
    }
  }

  /**
   * Writing a value never changes what `lookup` answers for any entry, and
   * a table that starts empty is still empty afterwards: with the source's
   * `assign`, no handle is ever created.
   */
  lemma ObjectOutKeepsLookups(t: seq<Entry>, v: Value, unshared: bool, protocol: int)
    ensures forall x :: IndexOf(ObjectOut(t, v, unshared, protocol).table, x) == IndexOf(t, x)
    ensures t == [] ==> ObjectOut(t, v, unshared, protocol).table == []
  {
    var t2 := ObjectOut(t, v, unshared, protocol).table;
    ObjectOutGrows(t, v, unshared, protocol);
    forall x
      ensures IndexOf(t2, x) == IndexOf(t, x)
    {
      GrowsKeepsLookups(t, t2, x);
    }
    if t == [] {
      GrowsFromEmpty(t2);
    }
  }

  /**
   * A superclass chain the writer gets through from an empty table: every
   * class on it is a non-proxy descriptor whose own record can be written.
   */
  predicate PlainChain(od: Option<Desc>, protocol: int)
    decreases od
  {
    od.Some? ==>
      && !od.value.proxy
      && DescBodyOut([], od.value, protocol).err.None?
      && PlainChain(od.value.superClass, protocol)
  }

  /** One `TC_CLASSDESC` record per class of the chain, the class itself first, then `TC_NULL`. */
  function ChainBytes(od: Option<Desc>, protocol: int): seq<int>
    requires PlainChain(od, protocol)
    decreases od
  {
    match od
    case None => [TC_NULL]
    case Some(d) =>
      [TC_CLASSDESC] + DescBodyOut([], d, protocol).bytes + [TC_ENDBLOCKDATA] + ChainBytes(d.superClass, protocol)
  }

  /**
   * From an empty table, `writeClassDesc` completes exactly on a plain
   * chain, and then writes one record per class followed by `TC_NULL`,
   * leaving the table empty.
   */
  lemma {:induction false} ClassDescChain(od: Option<Desc>, unshared: bool, protocol: int)
    ensures ClassDescOut([], od, unshared, protocol).err.None? <==> PlainChain(od, protocol)
    ensures PlainChain(od, protocol) ==> ClassDescOut([], od, unshared, protocol) == Out(ChainBytes(od, protocol), [], None)
    decreases od
  {
    if od.Some? && !od.value.proxy {
      var d := od.value;
      assert Assigned([], if unshared then None else Some(Ref(Descriptor(d)))) == [];
      var body := DescBodyOut([], d, protocol);
      if body.err.None? {
        DescBodyOutGrows([], d, protocol);
        GrowsFromEmpty(body.table);
        ClassDescChain(d.superClass, false, protocol);
      }
    }
  }

  /** The chain's bytes start with its first record's tag and end with `TC_NULL`. */
  lemma {:induction false} ChainEndsInNull(od: Option<Desc>, protocol: int)
    requires PlainChain(od, protocol)
    ensures |ChainBytes(od, protocol)| > 0
    ensures ChainBytes(od, protocol)[0] == if od.Some? then TC_CLASSDESC else TC_NULL
    ensures ChainBytes(od, protocol)[|ChainBytes(od, protocol)| - 1] == TC_NULL
    decreases od
  {
    if od.Some? {
      ChainEndsInNull(od.value.superClass, protocol);
    }
  }
}
