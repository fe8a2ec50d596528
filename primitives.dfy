/**
 * The primitive value writers `Boolean`, `Byte`, `Short`, `Char`, `Integer`,
 * `Long`, `Float`, `Double` and the primitive `Array`: fixed-width big-endian
 * encodings, as java.io.DataOutput lays them out.
 */
module Primitives {
  import opened Wire
  import opened Sink

  /**
   * A primitive value. `Long` carries its two 32-bit halves, high first;
   * `Float` and `Double` are declared but cannot be written.
   */
  datatype Primitive =
    | Boolean(isTrue: bool)
    | Byte(val: int)
    | Short(val: int)
    | Char(val: int)
    | Integer(val: int)
    | Long(high: int, low: int)
    | Float(fval: real)
    | Double(dval: real)
  {
    /** The one-character wire type code. */
    function TypeCode(): char
    {
      match this
      case Boolean(_) => 'Z'
      case Byte(_) => 'B'
      case Short(_) => 'S'
      case Char(_) => 'C'
      case Integer(_) => 'I'
      case Long(_, _) => 'J'
      case Float(_) => 'F'
      case Double(_) => 'D'
    }

    predicate IsFloating() { Float? || Double? }
  }

  /**
   * `(v >> (8 * k)) & 0xFF` on a JS number: the shift works on the number
   * reduced to 32 bits, so this is byte `k` (counting from the least
   * significant) of `v` modulo 2^32.
   */
  function ShiftMask(v: int, k: nat): Byte
    requires k < 4
  {
    var u := v % 0x1_0000_0000;
    if k == 0 then u % 256
    else if k == 1 then u / 0x100 % 256
    else if k == 2 then u / 0x1_0000 % 256
    else u / 0x100_0000 % 256
  }

  function Int16Bytes(v: int): seq<int>
  {
    [ShiftMask(v, 1), ShiftMask(v, 0)]
  }

  function Int32Bytes(v: int): seq<int>
  {
    [ShiftMask(v, 3), ShiftMask(v, 2), ShiftMask(v, 1), ShiftMask(v, 0)]
  }

  /** What each primitive's `write` appends, or what it throws. */
  function Encode(p: Primitive): Result<seq<int>>
  {
    match p
    case Boolean(b) => Success(if b then [1] else [0])
    case Byte(v) => Success([v])
    case Short(v) => Success(Int16Bytes(v))
    case Char(v) => Success(Int16Bytes(v))
    case Integer(v) => Success(Int32Bytes(v))
    case Long(h, l) => Success(Int32Bytes(h) + Int32Bytes(l))
    case Float(_) => Failure(Unimplemented)
    case Double(_) => Failure(Unimplemented)
  }

  /** The width of each primitive on the wire, in bytes. */
  function Width(p: Primitive): nat
  {
    match p
    case Boolean(_) => 1
    case Byte(_) => 1
    case Short(_) => 2
    case Char(_) => 2
    case Integer(_) => 4
    case Long(_, _) => 8
    case Float(_) => 4
    case Double(_) => 8
  }

  /** Reads bytes back as an unsigned big-endian number. */
  function Unsigned(bs: seq<int>): int
  {
    if bs == [] then 0 else Unsigned(bs[..|bs| - 1]) * 256 + bs[|bs| - 1]
  }

  /** Two's complement reading of an unsigned number below `modulus`. */
  function Signed(u: int, modulus: nat): int
  {
    if u >= modulus / 2 then u - modulus else u
  }

  /** 256 to the power `n`. */
  function Scale(n: nat): nat
  {
    if n == 0 then 1 else 256 * Scale(n - 1)
  }

  lemma ScaleValues()
    ensures Scale(2) == 0x1_0000 && Scale(4) == 0x1_0000_0000 && Scale(8) == 0x1_0000_0000_0000_0000
  {
    assert Scale(1) == 256;
    assert Scale(2) == 0x1_0000;
    assert Scale(3) == 0x100_0000;
    assert Scale(4) == 0x1_0000_0000;
    assert Scale(5) == 0x100_0000_0000;
    assert Scale(6) == 0x1_0000_0000_0000;
    assert Scale(7) == 0x100_0000_0000_0000;
  }

  /** Every encoder other than Float and Double succeeds with exactly Width bytes, all of them bytes except Byte's own. */
  lemma EncodeWidth(p: Primitive)
    ensures Encode(p).Failure? <==> p.IsFloating()
    ensures Encode(p).Failure? ==> Encode(p).error == Unimplemented
    ensures Encode(p).Success? ==> |Encode(p).value| == Width(p)
    ensures Encode(p).Success? && !p.Byte? ==> forall i :: 0 <= i < |Encode(p).value| ==> 0 <= Encode(p).value[i] < 256
  {
  }

  lemma {:induction false} UnsignedAppend(a: seq<int>, b: seq<int>)
    ensures Unsigned(a + b) == Unsigned(a) * Scale(|b|) + Unsigned(b)
    decreases |b|
  {
    if b == [] {
      assert a + b == a;
    } else {
      var b' := b[..|b| - 1];
      assert (a + b)[..|a + b| - 1] == a + b';
      UnsignedAppend(a, b');
      calc {
        Unsigned(a + b);
        Unsigned(a + b') * 256 + b[|b| - 1];
        (Unsigned(a) * Scale(|b'|) + Unsigned(b')) * 256 + b[|b| - 1];
        Unsigned(a) * (Scale(|b'|) * 256) + (Unsigned(b') * 256 + b[|b| - 1]);
        Unsigned(a) * Scale(|b|) + Unsigned(b);
      }
    }
  }

  lemma UnsignedPair(a: int, b: int)
    ensures Unsigned([a, b]) == a * 256 + b
  {
    assert [a][..0] == [];
    assert Unsigned([a]) == a;
    assert [a, b][..1] == [a];
  }

  lemma UnsignedQuad(a: int, b: int, c: int, d: int)
    ensures Unsigned([a, b, c, d]) == ((a * 256 + b) * 256 + c) * 256 + d
  {
    UnsignedPair(a, b);
    assert [a, b, c][..2] == [a, b];
    assert Unsigned([a, b, c]) == (a * 256 + b) * 256 + c;
    assert [a, b, c, d][..3] == [a, b, c];
  }

  /** A number modulo 2^32 and then 2^16 is the number modulo 2^16. */
  lemma ModNested(v: int)
    ensures v % 0x1_0000_0000 % 0x1_0000 == v % 0x1_0000
  {
    var q, u := v / 0x1_0000_0000, v % 0x1_0000_0000;
    var q2, r := u / 0x1_0000, u % 0x1_0000;
    assert v == (q * 0x1_0000 + q2) * 0x1_0000 + r;
  }

  /** The low two bytes of `u` rebuild `u` modulo 2^16. */
  lemma LowBytesRebuild(u: int)
    requires 0 <= u
    ensures u / 0x100 % 256 * 256 + u % 256 == u % 0x1_0000
  {
    var q, r := u / 0x1_0000, u % 0x1_0000;
    var r1, r0 := r / 256, r % 256;
    assert u == (q * 256 + r1) * 256 + r0;
    assert u / 0x100 == q * 256 + r1;
    assert u % 256 == r0;
  }

  /** The four bytes of `u` below 2^32 rebuild it. */
  lemma FourBytesRebuild(u: int)
    requires 0 <= u < 0x1_0000_0000
    ensures ((u / 0x100_0000 % 256 * 256 + u / 0x1_0000 % 256) * 256 + u / 0x100 % 256) * 256 + u % 256 == u
  {
    var b0, u1 := u % 256, u / 256;
    var b1, u2 := u1 % 256, u1 / 256;
    var b2, b3 := u2 % 256, u2 / 256;
    assert u == ((b3 * 256 + b2) * 256 + b1) * 256 + b0;
    assert u / 0x1_0000 == u2 by {
      assert u == u2 * 0x1_0000 + (b1 * 256 + b0);
    }
    assert u / 0x100_0000 == b3 by {
      assert u == b3 * 0x100_0000 + ((b2 * 256 + b1) * 256 + b0);
    }
  }

  /** The two bytes of a Short or Char read back as `v` modulo 2^16. */
  lemma Int16RoundTrip(v: int)
    ensures Unsigned(Int16Bytes(v)) == v % 0x1_0000
  {
    UnsignedPair(ShiftMask(v, 1), ShiftMask(v, 0));
    LowBytesRebuild(v % 0x1_0000_0000);
    ModNested(v);
  }

  /** The four bytes of an Integer read back as `v` modulo 2^32. */
  lemma Int32RoundTrip(v: int)
    ensures Unsigned(Int32Bytes(v)) == v % 0x1_0000_0000
  {
    UnsignedQuad(ShiftMask(v, 3), ShiftMask(v, 2), ShiftMask(v, 1), ShiftMask(v, 0));
    FourBytesRebuild(v % 0x1_0000_0000);
  }

  /** Short values in range read back exactly, as signed 16-bit numbers. */
  lemma ShortRoundTrip(v: int)
    requires -0x8000 <= v < 0x8000
    ensures Signed(Unsigned(Encode(Short(v)).value), 0x1_0000) == v
  {
    assert Encode(Short(v)).value == Int16Bytes(v);
    Int16RoundTrip(v);
    SignedWraps16(v);
  }

  /** Two's complement reading undoes the wrap-around of a value in the signed 16-bit range. */
  lemma SignedWraps16(v: int)
    requires -0x8000 <= v < 0x8000
    ensures Signed(v % 0x1_0000, 0x1_0000) == v
  {
    if v < 0 {
      assert v % 0x1_0000 == v + 0x1_0000;
    }
  }

  /** Char values in range read back exactly, as unsigned 16-bit numbers. */
  lemma CharRoundTrip(v: int)
    requires 0 <= v < 0x1_0000
    ensures Unsigned(Encode(Char(v)).value) == v
  {
    Int16RoundTrip(v);
    assert Encode(Char(v)).value == Int16Bytes(v);
  }

  /** Integer values in range read back exactly, as signed 32-bit numbers. */
  lemma IntegerRoundTrip(v: int)
    requires -0x8000_0000 <= v < 0x8000_0000
    ensures Signed(Unsigned(Encode(Integer(v)).value), 0x1_0000_0000) == v
  {
    assert Encode(Integer(v)).value == Int32Bytes(v);
    Int32RoundTrip(v);
    SignedWraps32(v);
  }

  /** Two's complement reading undoes the wrap-around of a value in the signed 32-bit range. */
  lemma SignedWraps32(v: int)
    requires -0x8000_0000 <= v < 0x8000_0000
    ensures Signed(v % 0x1_0000_0000, 0x1_0000_0000) == v
  {
    if v < 0 {
      assert v % 0x1_0000_0000 == v + 0x1_0000_0000;
    }
  }

  /**
   * A Long reads back as its high half times 2^32 plus its low half, the high
   * half first: for in-range halves, the signed 64-bit number they stand for.
   */
  lemma LongRoundTrip(high: int, low: int)
    requires -0x8000_0000 <= high < 0x8000_0000 && 0 <= low < 0x1_0000_0000
    ensures Signed(Unsigned(Encode(Long(high, low)).value), 0x1_0000_0000_0000_0000) == high * 0x1_0000_0000 + low
  {
    var a, b := Int32Bytes(high), Int32Bytes(low);
    var ua, ub := Unsigned(a), Unsigned(b);
    assert ua == high % 0x1_0000_0000 by { Int32RoundTrip(high); }
    assert ub == low by {
      Int32RoundTrip(low);
      assert low % 0x1_0000_0000 == low;
    }
    assert Unsigned(a + b) == ua * 0x1_0000_0000 + ub by { UnsignedAfterWord(a, b); }
    SignedHalves(high, low);
    assert Encode(Long(high, low)).value == a + b;
  }

  /** Appending four bytes shifts what came before by 2^32. */
  lemma UnsignedAfterWord(a: seq<int>, b: seq<int>)
    requires |b| == 4
    ensures Unsigned(a + b) == Unsigned(a) * 0x1_0000_0000 + Unsigned(b)
  {
    UnsignedAppend(a, b);
    ScaleValues();
  }

  lemma SignedHalves(high: int, low: int)
    requires -0x8000_0000 <= high < 0x8000_0000 && 0 <= low < 0x1_0000_0000
    ensures Signed(high % 0x1_0000_0000 * 0x1_0000_0000 + low, 0x1_0000_0000_0000_0000) == high * 0x1_0000_0000 + low
  {
    assert high % 0x1_0000_0000 == if high < 0 then high + 0x1_0000_0000 else high;
  }

  /**
   * Boolean and Byte write one value: it reads back as the Byte's own
   * number, unmasked, and as nonzero exactly for a true Boolean.
   */
  lemma OneByteRoundTrip(v: int, b: bool)
    ensures Unsigned(Encode(Byte(v)).value) == v
    ensures |Encode(Boolean(b)).value| == 1 && (Encode(Boolean(b)).value[0] != 0 <==> b)
  {
    assert Unsigned([v]) == Unsigned([]) * 256 + v;
  }

  /** `p.write(out)` for a byte sink: appends the encoding one byte at a time, or throws and appends nothing. */
  method WritePrimitive(p: Primitive, out: DataOutput) returns (r: Option<Error>)
    requires out.Valid()
    modifies out
    ensures out.Valid()
    ensures r == None <==> Encode(p).Success?
    ensures Encode(p).Success? ==> out.out == old(out.out) + Encode(p).value
    ensures Encode(p).Failure? ==> r == Some(Encode(p).error) && out.out == old(out.out)
  {
    var e := Encode(p);
    if e.Failure? {
      return Some(e.error);
    }
    var bs := e.value;
    var i := 0;
    while i < |bs|
      invariant 0 <= i <= |bs|
      invariant out.Valid() && out.out == old(out.out) + bs[..i]
    {
      out.WriteByte(bs[i]);
      assert bs[..i + 1] == bs[..i] + [bs[i]];
      i := i + 1;
    }
    assert bs[..i] == bs;
    r := None;
  }

  /** What `Array.write` appends: the element count as an Integer, then each element until one throws. */
  function ArrayRun(vals: seq<Primitive>): Run
  {
    AndThen(Done(Int32Bytes(|vals|)), ElementsRun(vals))
  }

  function ElementsRun(vals: seq<Primitive>): Run
  {
    if vals == [] then Done([])
    else
      var prev := ElementsRun(vals[..|vals| - 1]);
      match Encode(vals[|vals| - 1])
      case Success(bs) => AndThen(prev, Done(bs))
      case Failure(e) => AndThen(prev, Run([], Some(e)))
  }

  /** The concatenated encodings of the elements that can be written. */
  function EncodeAll(vals: seq<Primitive>): seq<int>
  {
    if vals == [] then []
    else
      match Encode(vals[0])
      case Success(bs) => bs + EncodeAll(vals[1..])
      case Failure(_) => EncodeAll(vals[1..])
  }

  function WidthSum(vals: seq<Primitive>): nat
  {
    if vals == [] then 0 else Width(vals[0]) + WidthSum(vals[1..])
  }

  /**
   * The elements' writes fail exactly when some element is a Float or Double;
   * otherwise they append every element's encoding, in order.
   */
  lemma {:induction false} ElementsRunSpec(vals: seq<Primitive>)
    ensures ElementsRun(vals).err.None? <==> forall i :: 0 <= i < |vals| ==> !vals[i].IsFloating()
    ensures ElementsRun(vals).err.Some? ==> ElementsRun(vals).err == Some(Unimplemented)
    ensures ElementsRun(vals).err.None? ==> ElementsRun(vals).bytes == EncodeAll(vals)
    decreases |vals|
  {
    if vals != [] {
      var n := |vals|;
      var front := vals[..n - 1];
      ElementsRunSpec(front);
      EncodeWidth(vals[n - 1]);
      if forall i :: 0 <= i < n ==> !vals[i].IsFloating() {
        EncodeAllSnoc(front, vals[n - 1]);
        assert front + [vals[n - 1]] == vals;
      }
    }
  }

  lemma {:induction false} EncodeAllSnoc(vals: seq<Primitive>, p: Primitive)
    requires forall i :: 0 <= i < |vals| ==> !vals[i].IsFloating()
    requires !p.IsFloating()
    ensures EncodeAll(vals + [p]) == EncodeAll(vals) + Encode(p).value
    decreases |vals|
  {
    if vals == [] {
      assert [p][1..] == [];
    } else {
      assert (vals + [p])[1..] == vals[1..] + [p];
      EncodeAllSnoc(vals[1..], p);
    }
  }

  lemma {:induction false} EncodeAllLength(vals: seq<Primitive>)
    requires forall i :: 0 <= i < |vals| ==> !vals[i].IsFloating()
    ensures |EncodeAll(vals)| == WidthSum(vals)
    decreases |vals|
  {
    if vals != [] {
      EncodeWidth(vals[0]);
      EncodeAllLength(vals[1..]);
    }
  }

  /**
   * `Array.write` throws "Unimplemented" exactly when an element is a Float
   * or Double; otherwise it appends the count, which reads back as the
   * element count, followed by the elements, 4 plus the elements' widths in all.
   */
  lemma ArrayRunSpec(vals: seq<Primitive>)
    requires |vals| < 0x1_0000_0000
    ensures ArrayRun(vals).err.None? <==> forall i :: 0 <= i < |vals| ==> !vals[i].IsFloating()
    ensures ArrayRun(vals).bytes[..4] == Int32Bytes(|vals|) && Unsigned(ArrayRun(vals).bytes[..4]) == |vals|
    ensures ArrayRun(vals).err.None? ==>
      ArrayRun(vals).bytes == Int32Bytes(|vals|) + EncodeAll(vals) && |ArrayRun(vals).bytes| == 4 + WidthSum(vals)
  {
    ArrayRunOf(vals);
    var head, rest := Int32Bytes(|vals|), ElementsRun(vals).bytes;
    assert (head + rest)[..4] == head by {
      assert |head| == 4;
    }
    assert Unsigned(head) == |vals| by {
      Int32RoundTrip(|vals|);
      assert |vals| % 0x1_0000_0000 == |vals|;
    }
    ElementsRunSpec(vals);
    if ArrayRun(vals).err.None? {
      EncodeAllLength(vals);
    }
  }

  /** `Array.write(out)` for a byte sink. */
  method WriteArray(vals: seq<Primitive>, out: DataOutput) returns (r: Option<Error>)
    requires out.Valid()
    modifies out
    ensures out.Valid()
    ensures out.out == old(out.out) + ArrayRun(vals).bytes && r == ArrayRun(vals).err
  {
    ghost var start := old(out.out) + Int32Bytes(|vals|);
    r := WritePrimitive(Integer(|vals|), out);
    assert vals[..0] == [] && start + [] == start;
    var i := 0;
    while i < |vals|
      invariant 0 <= i <= |vals|
      invariant out.Valid()
      invariant ElementsRun(vals[..i]).err.None?
      invariant out.out == start + ElementsRun(vals[..i]).bytes
    {
      ghost var prev := ElementsRun(vals[..i]).bytes;
      ElementsRunStep(vals, i);
      r := WritePrimitive(vals[i], out);
      if r.Some? {
        ElementsRunPrefixFails(vals, i + 1);
        ArrayRunOf(vals);
        Regroup(old(out.out), Int32Bytes(|vals|), prev);
        return;
      }
      Regroup(start, prev, Encode(vals[i]).value);
      i := i + 1;
    }
    assert vals[..i] == vals;
    ArrayRunOf(vals);
    Regroup(old(out.out), Int32Bytes(|vals|), ElementsRun(vals).bytes);
    r := None;
  }

  lemma ArrayRunOf(vals: seq<Primitive>)
    ensures ArrayRun(vals) == Run(Int32Bytes(|vals|) + ElementsRun(vals).bytes, ElementsRun(vals).err)
  {
  }

  /** Writing element `i` after the first `i` succeeded either appends its encoding or throws, appending nothing. */
  lemma ElementsRunStep(vals: seq<Primitive>, i: nat)
    requires i < |vals| && ElementsRun(vals[..i]).err.None?
    ensures Encode(vals[i]).Success? ==>
      ElementsRun(vals[..i + 1]) == Done(ElementsRun(vals[..i]).bytes + Encode(vals[i]).value)
    ensures Encode(vals[i]).Failure? ==>
      ElementsRun(vals[..i + 1]) == Run(ElementsRun(vals[..i]).bytes, Some(Encode(vals[i]).error))
  {
    assert vals[..i + 1][..i] == vals[..i];
    if Encode(vals[i]).Failure? {
      assert ElementsRun(vals[..i]).bytes + [] == ElementsRun(vals[..i]).bytes;
    }
  }

  /** Once an element throws, no later element is written. */
  lemma {:induction false} ElementsRunPrefixFails(vals: seq<Primitive>, k: nat)
    requires k <= |vals| && ElementsRun(vals[..k]).err.Some?
    ensures ElementsRun(vals) == ElementsRun(vals[..k])
    decreases |vals| - k
  {
    if k < |vals| {
      assert vals[..k + 1][..k] == vals[..k];
      ElementsRunPrefixFails(vals, k + 1);
    } else {
      assert vals[..k] == vals;
    }
  }
}
