/**
 * The class descriptor `ObjectStreamClass`: its name, serial version, field
 * layout, superclass link and the markers that select its flags.
 */
module ClassDescriptors {
  import opened Wire
  import opened Primitives
  import opened JsStrings

  /** A field's type string (for instance `Ljava/lang/String;`); the type-code byte is its first code unit. */
  type TypeString = s: string | |s| > 0 witness "L"

  /**
   * A field either carries a `typeString` (an object field) or only a
   * one-character `typeCode` (a primitive field).
   */
  datatype FieldKind = PrimitiveField(typeCode: char) | ObjectField(typeString: TypeString)

  datatype Field = Field(name: string, kind: FieldKind, unshared: bool)

  /**
   * An `ObjectStreamClass`. The markers `hasWriteObject` and
   * `hasWriteExternal` stand for the presence of a `writeObject` or
   * `writeExternal` member on the descriptor; `proxy` and `isEnum` are its
   * `proxy` and `enum` properties. Those two members are caller code: the
   * model lets them write `customData`, one `writeByte` per value.
   */
  datatype Desc = Desc(
    name: string,
    serialHigh: int,
    serialLow: int,
    fields: seq<Field>,
    superClass: Option<Desc>,
    proxy: bool,
    isEnum: bool,
    hasWriteObject: bool,
    hasWriteExternal: bool,
    customData: seq<int>)

  /** The type-code byte written for a field: `charCodeAt(0)` of its type string, else of its type code. */
  function TypeCodeUnit(f: Field): int
  {
    match f.kind
    case ObjectField(ts) => Utf16(ts)[0]
    case PrimitiveField(tc) => CodeUnits(tc)[0]
  }

  /**
   * The flag byte of a descriptor: externalizable (with block data unless
   * the protocol is version 1) when it has `writeExternal`, serializable
   * otherwise; plus write-method and enum.
   */
  function Flags(d: Desc, protocol: int): bv8
  {
    var base: bv8 :=
      if d.hasWriteExternal then SC_EXTERNALIZABLE | (if protocol != 1 then SC_BLOCK_DATA else 0)
      else SC_SERIALIZABLE;
    base | (if d.hasWriteObject then SC_WRITE_METHOD else 0) | (if d.isEnum then SC_ENUM else 0)
  }

  /**
   * Exactly one of serializable and externalizable is set; block data only
   * for externalizable classes outside protocol 1; write-method and enum
   * follow the descriptor; the top three bits are clear.
   */
  lemma FlagsSpec(d: Desc, protocol: int)
    ensures var f := Flags(d, protocol);
      && ((f & SC_SERIALIZABLE != 0) != (f & SC_EXTERNALIZABLE != 0))
      && ((f & SC_EXTERNALIZABLE != 0) <==> d.hasWriteExternal)
      && ((f & SC_BLOCK_DATA != 0) <==> d.hasWriteExternal && protocol != 1)
      && ((f & SC_WRITE_METHOD != 0) <==> d.hasWriteObject)
      && ((f & SC_ENUM != 0) <==> d.isEnum)
      && f & 0xE0 == 0
  {
  }

  /** The number of descriptors on the superclass chain, the descriptor itself included. */
  function ChainLength(d: Desc): nat
  {
    if d.superClass.Some? then 1 + ChainLength(d.superClass.value) else 1
  }

  /** `getClassDataLayout`: the superclass chain, root first, the descriptor itself last. */
  function Layout(d: Desc): seq<Desc>
  {
    if d.superClass.Some? then Layout(d.superClass.value) + [d] else [d]
  }

  /**
   * The layout has one entry per level of the chain; it starts at a root
   * (no superclass), ends with the descriptor, and each entry's superclass
   * is the entry before it.
   */
  lemma {:induction false} LayoutShape(d: Desc)
    ensures |Layout(d)| == ChainLength(d)
    ensures Layout(d)[|Layout(d)| - 1] == d
    ensures Layout(d)[0].superClass.None?
    ensures forall i :: 0 < i < |Layout(d)| ==> Layout(d)[i].superClass == Some(Layout(d)[i - 1])
  {
    if d.superClass.Some? {
      var s := d.superClass.value;
      LayoutShape(s);
      var l := Layout(s);
      assert Layout(d) == l + [d];
      forall i | 0 < i < |Layout(d)| ensures Layout(d)[i].superClass == Some(Layout(d)[i - 1]) {
        if i < |l| {
          assert Layout(d)[i] == l[i] && Layout(d)[i - 1] == l[i - 1];
        }
      }
    }
  }

  /** `getObjectFieldDescriptors`: the fields that carry a type string, in declared order. */
  function ObjectFields(fields: seq<Field>): seq<Field>
  {
    if fields == [] then []
    else (if fields[0].kind.ObjectField? then [fields[0]] else []) + ObjectFields(fields[1..])
  }

  /**
   * The object fields are exactly the fields with a type string, and the
   * selection keeps the declared order: selecting from a concatenation
   * concatenates the selections.
   */
  lemma {:induction false} ObjectFieldsSpec(a: seq<Field>, b: seq<Field>)
    ensures forall f :: f in ObjectFields(a) <==> f in a && f.kind.ObjectField?
    ensures ObjectFields(a + b) == ObjectFields(a) + ObjectFields(b)
    decreases |a|
  {
    if a == [] {
      assert a + b == b;
    } else {
      ObjectFieldsSpec(a[1..], b);
      assert (a + b)[1..] == a[1..] + b;
      assert a == [a[0]] + a[1..];
    }
  }

  /**
   * The zero value `writePrimitives` substitutes for an absent primitive
   * field, by type code. This is the corrected table: the source has `'L'`
   * where the long type code `'J'` is meant (see DefaultPrimitiveAsWritten).
   */
  function DefaultPrimitive(tc: char): (r: Option<Primitive>)
    ensures r.Some? <==> tc in "IZBSCJ"
    ensures r.Some? ==> r.value.TypeCode() == tc && !r.value.IsFloating()
  {
    if tc == 'I' then Some(Integer(0))
    else if tc == 'Z' then Some(Boolean(false))
    else if tc == 'B' then Some(Byte(0))
    else if tc == 'S' then Some(Short(0))
    else if tc == 'C' then Some(Char(0))
    else if tc == 'J' then Some(Long(0, 0))
    else None
  }

  /** Every default encodes as zero bytes only, as many as its type is wide. */
  lemma DefaultsAreZero(tc: char)
    requires tc in "IZBSCJ"
    ensures Encode(DefaultPrimitive(tc).value).value == seq(Width(DefaultPrimitive(tc).value), _ => 0)
  {
    var p := DefaultPrimitive(tc).value;
    if tc == 'I' || tc == 'J' {
      assert Int32Bytes(0) == [0, 0, 0, 0];
    } else if tc == 'S' || tc == 'C' {
      assert Int16Bytes(0) == [0, 0];
    }
    assert Encode(p).value == seq(Width(p), _ => 0);
  }

  /**
   * The default table as the source writes it: `'L'` gets `new Long(0)`,
   * whose missing low half shifts to zero bytes, and `'J'` gets nothing.
   */
  function DefaultPrimitiveAsWritten(tc: char): Option<Primitive>
  {
    if tc == 'I' then Some(Integer(0))
    else if tc == 'Z' then Some(Boolean(false))
    else if tc == 'B' then Some(Byte(0))
    else if tc == 'S' then Some(Short(0))
    else if tc == 'C' then Some(Char(0))
    else if tc == 'L' then Some(Long(0, 0))
    else None
  }

  /**
   * As written, an absent long field (`'J'`) throws instead of getting its
   * zero, and a field with the object type code `'L'` gets a long's eight
   * bytes: the default's type code differs from the field's.
   */
  lemma DefaultAsWrittenMismatch()
    ensures DefaultPrimitiveAsWritten('J').None? && DefaultPrimitive('J') == Some(Long(0, 0))
    ensures DefaultPrimitiveAsWritten('L').Some? && DefaultPrimitiveAsWritten('L').value.TypeCode() != 'L'
    ensures forall tc :: tc != 'J' && tc != 'L' ==> DefaultPrimitiveAsWritten(tc) == DefaultPrimitive(tc)
  {
  }
}
