/**
 * The values the writer accepts, as a finite tree: primitives, primitive
 * arrays, strings, enum constants, class references, class descriptors and
 * ordinary objects whose field values are themselves values.
 */
module Values {
  import opened Wire
  import opened Sink
  import opened Primitives
  import opened ClassDescriptors

  /**
   * A value handed to `writeObject`. `Null` is an instance of the writer's
   * `Null` type; `Str` is its `String` wrapper; `Object` is an instance of
   * `Object(clazz, fieldVals)` whose `values` map field names to values.
   * `Inherited(name)` is what a plain object's property `name` holds when
   * the object does not set it but `Object.prototype` does: a function, or
   * the prototype itself for `__proto__`; it has neither `write` nor `clazz`.
   */
  datatype Value =
    | Null
    | Prim(p: Primitive)
    | PrimArray(elemType: string, elems: seq<Primitive>)
    | Str(val: string)
    | EnumConstant
    | ClassRef(className: string)
    | Descriptor(desc: Desc)
    | Object(clazz: Option<Desc>, values: map<string, Value>)
    | Inherited(name: string)

  /** The properties every plain object inherits from `Object.prototype`. */
  const InheritedNames: set<string> := {
    "constructor", "hasOwnProperty", "isPrototypeOf", "propertyIsEnumerable",
    "toLocaleString", "toString", "valueOf", "__proto__",
    "__defineGetter__", "__defineSetter__", "__lookupGetter__", "__lookupSetter__"}

  /** JS `name in vals`: an own property, or one inherited from `Object.prototype`. */
  predicate Has(vals: map<string, Value>, name: string)
  {
    name in vals || name in InheritedNames
  }

  /** JS `vals[name]` for a name `Has` finds: the own property shadows the inherited one. */
  function Get(vals: map<string, Value>, name: string): Value
    requires Has(vals, name)
  {
    if name in vals then vals[name] else Inherited(name)
  }

  /** `obj.clazz`: set on ordinary objects only (undefined, which counts as null, on the rest). */
  function Clazz(v: Value): Option<Desc>
  {
    if v.Object? then v.clazz else None
  }

  /**
   * What `v.write(out)` does for a byte sink: primitives and primitive
   * arrays write themselves; a descriptor's `write` needs `out.writeUTF`,
   * which a byte sink lacks, and the other values have no `write` at all,
   * so those throw a TypeError before writing anything.
   */
  function ValueWriteRun(v: Value): Run
  {
    match v
    case Prim(p) =>
      (match Encode(p) case Success(bs) => Done(bs) case Failure(e) => Run([], Some(e)))
    case PrimArray(_, elems) => ArrayRun(elems)
    case _ => Run([], Some(TypeError))
  }

  method WriteValue(v: Value, out: DataOutput) returns (r: Option<Error>)
    requires out.Valid()
    modifies out
    ensures out.Valid()
    ensures out.out == old(out.out) + ValueWriteRun(v).bytes && r == ValueWriteRun(v).err
  {
    match v
    case Prim(p) => r := WritePrimitive(p, out);
    case PrimArray(_, elems) => r := WriteArray(elems, out);
    case _ => r := Some(TypeError);
  }

  /**
   * The value `writePrimitives` writes for a primitive field: whatever JS
   * `in` finds for its name (own or inherited), else the zero default for
   * its type code, else a "Missing primitive value" error.
   */
  function PrimitiveValue(f: Field, vals: map<string, Value>): Result<Value>
    requires f.kind.PrimitiveField?
  {
    if Has(vals, f.name) then Success(Get(vals, f.name))
    else match DefaultPrimitive(f.kind.typeCode)
      case Some(p) => Success(Prim(p))
      case None => Failure(MissingPrimitiveValue(f.name))
  }

  /** `PrimitiveValue` with the default table as the source writes it. */
  function PrimitiveValueAsWritten(f: Field, vals: map<string, Value>): Result<Value>
    requires f.kind.PrimitiveField?
  {
    if Has(vals, f.name) then Success(Get(vals, f.name))
    else match DefaultPrimitiveAsWritten(f.kind.typeCode)
      case Some(p) => Success(Prim(p))
      case None => Failure(MissingPrimitiveValue(f.name))
  }

  /** The bytes one primitive field stages, or what it throws. */
  function PrimitiveFieldBytes(f: Field, vals: map<string, Value>): Result<seq<int>>
    requires f.kind.PrimitiveField?
  {
    match PrimitiveValue(f, vals)
    case Failure(e) => Failure(e)
    case Success(v) =>
      var run := ValueWriteRun(v);
      if run.err.Some? then Failure(run.err.value) else Success(run.bytes)
  }

  /**
   * One primitive field of `writePrimitives`: picks its value and writes it
   * to the staging buffer `out`, or throws.
   */
  method StagePrimitive(f: Field, vals: map<string, Value>, out: DataOutput) returns (r: Option<Error>)
    requires f.kind.PrimitiveField? && out.Valid()
    modifies out
    ensures out.Valid()
    ensures r.None? <==> PrimitiveFieldBytes(f, vals).Success?
    ensures r.None? ==> out.out == old(out.out) + PrimitiveFieldBytes(f, vals).value
    ensures r.Some? ==> r.value == PrimitiveFieldBytes(f, vals).error
  {
    var v: Value;
    if Has(vals, f.name) {
      v := Get(vals, f.name);
    } else {
      var dflt := DefaultPrimitive(f.kind.typeCode);
      if dflt.None? {
        return Some(MissingPrimitiveValue(f.name));
      }
      v := Prim(dflt.value);
    }
    r := WriteValue(v, out);
  }

  /**
   * What `writePrimitives` stages in its private buffer: the primitive
   * fields (those without a type string) in declared order, or the first
   * exception one of them throws.
   */
  function PrimitivesOut(fields: seq<Field>, vals: map<string, Value>): Result<seq<int>>
  {
    if fields == [] then Success([])
    else
      var prev := PrimitivesOut(fields[..|fields| - 1], vals);
      var f := fields[|fields| - 1];
      if prev.Failure? || f.kind.ObjectField? then prev
      else match PrimitiveFieldBytes(f, vals)
        case Failure(e) => Failure(e)
        case Success(bs) => Success(prev.value + bs)
  }

  /** Staged bytes of two runs in a row: the first failure, else both results joined. */
  function Joined2(x: Result<seq<int>>, y: Result<seq<int>>): Result<seq<int>>
  {
    if x.Failure? then x else if y.Failure? then Failure(y.error) else Success(x.value + y.value)
  }

  /**
   * Field order is kept: the primitives of a concatenation of field lists are
   * those of the first list followed by those of the second, unless one of
   * them throws, and then the first exception is the one thrown.
   */
  lemma {:induction false} PrimitivesOutAppend(a: seq<Field>, b: seq<Field>, vals: map<string, Value>)
    ensures PrimitivesOut(a + b, vals) == Joined2(PrimitivesOut(a, vals), PrimitivesOut(b, vals))
    decreases |b|
  {
    var x := PrimitivesOut(a, vals);
    if b == [] {
      assert a + b == a;
      if x.Success? {
        assert x.value + [] == x.value;
      }
    } else {
      var b' := b[..|b| - 1];
      var f := b[|b| - 1];
      assert (a + b)[..|a + b| - 1] == a + b';
      assert (a + b)[|a + b| - 1] == f;
      PrimitivesOutAppend(a, b', vals);
      var y := PrimitivesOut(b', vals);
      if x.Success? && y.Success? && f.kind.PrimitiveField? {
        var z := PrimitiveFieldBytes(f, vals);
        if z.Success? {
          Regroup(x.value, y.value, z.value);
        }
      }
    }
  }

  /** Once a primitive field throws, the later fields are not looked at. */
  lemma {:induction false} PrimitivesOutStops(fields: seq<Field>, vals: map<string, Value>, k: nat)
    requires k <= |fields| && PrimitivesOut(fields[..k], vals).Failure?
    ensures PrimitivesOut(fields, vals) == PrimitivesOut(fields[..k], vals)
    decreases |fields| - k
  {
    if k < |fields| {
      assert fields[..k + 1][..k] == fields[..k];
      PrimitivesOutStops(fields, vals, k + 1);
    } else {
      assert fields[..k] == fields;
    }
  }

  /** An object field writes nothing here; a primitive field writes what PrimitiveFieldBytes says. */
  lemma PrimitivesOutSingle(f: Field, vals: map<string, Value>)
    ensures f.kind.ObjectField? ==> PrimitivesOut([f], vals) == Success([])
    ensures f.kind.PrimitiveField? ==> PrimitivesOut([f], vals) == PrimitiveFieldBytes(f, vals)
  {
    assert [f][..0] == [];
    if f.kind.PrimitiveField? && PrimitiveFieldBytes(f, vals).Success? {
      assert [] + PrimitiveFieldBytes(f, vals).value == PrimitiveFieldBytes(f, vals).value;
    }
  }

  /** The total width of the defaults of the primitive fields. */
  function DefaultWidth(fields: seq<Field>): nat
  {
    if fields == [] then 0
    else
      var f := fields[|fields| - 1];
      DefaultWidth(fields[..|fields| - 1]) +
        (if f.kind.PrimitiveField? && DefaultPrimitive(f.kind.typeCode).Some?
         then Width(DefaultPrimitive(f.kind.typeCode).value) else 0)
  }

  /**
   * A primitive field the object does not set gets its default exactly when
   * its type code is one of `IZBSCJ` and its name is not inherited.
   */
  predicate Defaulted(f: Field)
  {
    f.kind.PrimitiveField? ==> f.kind.typeCode in "IZBSCJ" && f.name !in InheritedNames
  }

  /**
   * What an unset primitive field without a default throws: an inherited
   * property has no `write` (a TypeError), any other name is missing.
   */
  function AbsentError(f: Field): Error
  {
    if f.name in InheritedNames then TypeError else MissingPrimitiveValue(f.name)
  }

  /** `n` zero bytes. */
  function Zeros(n: nat): seq<int>
  {
    seq(n, _ => 0)
  }

  /**
   * A primitive field the object does not set stages its zero default, or
   * throws: a TypeError for an inherited name, else an error naming the field.
   */
  lemma AbsentFieldBytes(f: Field, vals: map<string, Value>)
    requires f.kind.PrimitiveField? && f.name !in vals
    ensures Defaulted(f) ==>
      PrimitiveFieldBytes(f, vals) == Success(Zeros(Width(DefaultPrimitive(f.kind.typeCode).value)))
    ensures !Defaulted(f) ==> PrimitiveFieldBytes(f, vals) == Failure(AbsentError(f))
  {
    if Defaulted(f) {
      var p := DefaultPrimitive(f.kind.typeCode).value;
      EncodeWidth(p);
      DefaultsAreZero(f.kind.typeCode);
      assert PrimitiveFieldBytes(f, vals) == Success(Encode(p).value);
    }
  }

  /**
   * For an object that sets none of its primitive fields, `writePrimitives`
   * succeeds exactly when every primitive field has a default; when it
   * throws, it throws what the first primitive field without one throws.
   */
  lemma {:induction false} AbsentPrimitivesSucceed(fields: seq<Field>, vals: map<string, Value>)
    requires forall i :: 0 <= i < |fields| ==> fields[i].name !in vals
    ensures PrimitivesOut(fields, vals).Success? <==> forall i :: 0 <= i < |fields| ==> Defaulted(fields[i])
    ensures PrimitivesOut(fields, vals).Failure? ==>
      exists i :: 0 <= i < |fields| && !Defaulted(fields[i]) &&
        PrimitivesOut(fields, vals).error == AbsentError(fields[i])
    decreases |fields|
  {
    if fields == [] {
      return;
    }
    var n := |fields|;
    var front, f := fields[..n - 1], fields[n - 1];
    assert forall i :: 0 <= i < n - 1 ==> fields[i] == front[i];
    AbsentPrimitivesSucceed(front, vals);
    var prev := PrimitivesOut(front, vals);
    var all := PrimitivesOut(fields, vals);
    if prev.Failure? {
      assert all == prev;
      var i :| 0 <= i < |front| && !Defaulted(front[i]) && prev.error == AbsentError(front[i]);
      assert fields[i] == front[i];
    } else {
      assert (forall i :: 0 <= i < n ==> Defaulted(fields[i])) <==> Defaulted(f);
      if f.kind.ObjectField? {
        assert all == prev;
      } else {
        AbsentFieldBytes(f, vals);
        assert all.Success? <==> Defaulted(f);
        assert all.Failure? ==> all.error == AbsentError(fields[n - 1]);
      }
    }
  }

  /** When it succeeds on such an object, `writePrimitives` stages zero bytes only, as many as the defaults are wide. */
  lemma {:induction false} AbsentPrimitivesAreZero(fields: seq<Field>, vals: map<string, Value>)
    requires forall i :: 0 <= i < |fields| ==> fields[i].name !in vals
    requires PrimitivesOut(fields, vals).Success?
    ensures PrimitivesOut(fields, vals).value == Zeros(DefaultWidth(fields))
    decreases |fields|
  {
    if fields == [] {
      return;
    }
    var n := |fields|;
    var front, f := fields[..n - 1], fields[n - 1];
    assert forall i :: 0 <= i < n - 1 ==> fields[i] == front[i];
    var prev := PrimitivesOut(front, vals);
    assert prev.Success?;
    AbsentPrimitivesAreZero(front, vals);
    if f.kind.PrimitiveField? {
      AbsentFieldBytes(f, vals);
      var w := Width(DefaultPrimitive(f.kind.typeCode).value);
      assert PrimitivesOut(fields, vals).value == prev.value + Zeros(w);
      assert Zeros(DefaultWidth(front)) + Zeros(w) == Zeros(DefaultWidth(fields));
    }
  }

  /**
   * Where the staging as written and as corrected part, for a primitive
   * field the object does not have: a long field (`'J'`) throws as written
   * but stages eight zero bytes corrected; a field with type code `'L'` gets
   * a long as written but throws corrected.
   */
  lemma AbsentDefaultAsWritten(f: Field, vals: map<string, Value>)
    requires f.kind.PrimitiveField? && !Has(vals, f.name)
    ensures f.kind.typeCode == 'J' ==>
      && PrimitiveValueAsWritten(f, vals) == Failure(MissingPrimitiveValue(f.name))
      && PrimitiveFieldBytes(f, vals) == Success(Zeros(8))
    ensures f.kind.typeCode == 'L' ==>
      && PrimitiveValueAsWritten(f, vals) == Success(Prim(Long(0, 0)))
      && PrimitiveFieldBytes(f, vals) == Failure(MissingPrimitiveValue(f.name))
  {
    AbsentFieldBytes(f, vals);
  }
}
