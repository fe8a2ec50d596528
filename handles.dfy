/**
 * The handle table `ObjectHandles`: the objects and strings already written,
 * by position; position `h` goes on the wire as handle `0x7E0000 + h`.
 */
module Handles {
  import opened Wire
  import opened Values

  /**
   * A table entry. Objects are compared by identity in the source; the model
   * compares the values they stand for. Strings written by `writeString` and
   * `writeTypeString` are primitive strings, compared by contents, and are
   * never equal to an object (a `String` wrapper included).
   */
  datatype Entry = Ref(obj: Value) | Text(text: string)

  /** `handles.indexOf(e)`: the first position holding `e`, or -1. */
  function IndexOf(t: seq<Entry>, e: Entry): (r: int)
    ensures -1 <= r < |t|
  {
    if t == [] then -1
    else if t[0] == e then 0
    else
      var r := IndexOf(t[1..], e);
      if r == -1 then -1 else r + 1
  }

  /** -1 exactly for an entry not in the table; otherwise the first position holding it. */
  lemma {:induction false} IndexOfSpec(t: seq<Entry>, e: Entry)
    ensures IndexOf(t, e) == -1 <==> e !in t
    ensures IndexOf(t, e) >= 0 ==> t[IndexOf(t, e)] == e && forall j :: 0 <= j < IndexOf(t, e) ==> t[j] != e
    decreases |t|
  {
    if t != [] && t[0] != e {
      IndexOfSpec(t[1..], e);
      assert e in t <==> e in t[1..] by {
        assert t == [t[0]] + t[1..];
      }
      if IndexOf(t, e) >= 0 {
        forall j | 0 <= j < IndexOf(t, e) ensures t[j] != e {
          if j > 0 { assert t[j] == t[1..][j - 1]; }
        }
      }
    }
  }

  /**
   * The table after `assign(obj)`. The source returns early when the entry
   * is null or NOT yet in the table, so only an entry already present is
   * pushed (again); `None` stands for null.
   */
  function Assigned(t: seq<Entry>, e: Option<Entry>): seq<Entry>
  {
    if e.None? || IndexOf(t, e.value) < 0 then t else t + [e.value]
  }

  /**
   * `assign` never changes what `lookup` answers, for any entry: a pushed
   * entry is a duplicate of an earlier one. In particular a table that
   * starts empty stays empty.
   */
  lemma {:induction false} AssignKeepsLookups(t: seq<Entry>, e: Option<Entry>, x: Entry)
    ensures IndexOf(Assigned(t, e), x) == IndexOf(t, x)
    ensures t == [] ==> Assigned(t, e) == []
  {
    if e.Some? && IndexOf(t, e.value) >= 0 {
      var t' := t + [e.value];
      var r, r' := IndexOf(t', x), IndexOf(t, x);
      IndexOfSpec(t, e.value);
      IndexOfSpec(t, x);
      IndexOfSpec(t', x);
      if x in t {
        assert r' >= 0 && t'[r'] == x;
        assert r < |t| by {
          if r == |t| {
            assert t'[r'] == x;
          }
        }
        assert t[r] == x;
      } else {
        assert x != e.value;
        assert x !in t';
      }
    }
  }

  /** Lookups in a table decide its contents: if nothing is found, it is empty. */
  lemma NothingFoundMeansEmpty(t: seq<Entry>)
    ensures t == [] <==> forall x :: IndexOf(t, x) == -1
  {
    if t != [] {
      assert IndexOf(t, t[0]) == 0;
    } else {
      forall x ensures IndexOf(t, x) == -1 {
        IndexOfSpec(t, x);
      }
    }
  }

  /**
   * `t2` is `t` with entries appended that `t` already holds: what the
   * table can become while a value is written, since `assign` only pushes
   * duplicates.
   */
  ghost predicate Grows(t: seq<Entry>, t2: seq<Entry>)
  {
    t <= t2 && forall x :: x in t2 ==> x in t
  }

  lemma GrowsTrans(t1: seq<Entry>, t2: seq<Entry>, t3: seq<Entry>)
    requires Grows(t1, t2) && Grows(t2, t3)
    ensures Grows(t1, t3)
  {
    assert t3[..|t1|] == t2[..|t1|];
  }

  /** `assign` only lets the table grow by a duplicate. */
  lemma AssignedGrows(t: seq<Entry>, e: Option<Entry>)
    ensures Grows(t, Assigned(t, e))
  {
    if e.Some? && IndexOf(t, e.value) >= 0 {
      IndexOfSpec(t, e.value);
    }
  }

  /** A table that grew by duplicates answers every lookup as before. */
  lemma GrowsKeepsLookups(t: seq<Entry>, t2: seq<Entry>, x: Entry)
    requires Grows(t, t2)
    ensures IndexOf(t2, x) == IndexOf(t, x)
  {
    IndexOfSpec(t, x);
    IndexOfSpec(t2, x);
    if x in t {
      var i := IndexOf(t, x);
      assert t2[i] == x;
      var j := IndexOf(t2, x);
      assert j <= i;
      assert t[j] == t2[j];
    }
  }

  /** A table that starts empty stays empty. */
  lemma GrowsFromEmpty(t2: seq<Entry>)
    requires Grows([], t2)
    ensures t2 == []
  {
    forall x
      ensures IndexOf(t2, x) == -1
    {
      GrowsKeepsLookups([], t2, x);
    }
    NothingFoundMeansEmpty(t2);
  }

  class ObjectHandles {
    var handles: seq<Entry>

    constructor ()
      ensures handles == []
    {
      handles := [];
    }

    /** `assign(obj)`, with the inverted presence test of the source. */
    method Assign(e: Option<Entry>)
      modifies this
      ensures handles == Assigned(old(handles), e)
    {
      if e.None? || IndexOf(handles, e.value) < 0 {
        return;
      }
      handles := handles + [e.value];
    }

    /** `lookup(obj)`: the handle of `e`, its first position in the table, or -1 when absent. */
    method Lookup(e: Entry) returns (h: int)
      ensures -1 <= h < |handles|
      ensures h == -1 <==> e !in handles
      ensures h >= 0 ==> handles[h] == e && forall j :: 0 <= j < h ==> handles[j] != e
      ensures h == IndexOf(handles, e)
    {
      h := IndexOf(handles, e);
      IndexOfSpec(handles, e);
    }
  }
}
