/**
 * The byte sink `DataOutput`: an append-only array of numbers and a count of
 * the values appended since it was created.
 */
module Sink {

  class DataOutput {
    /** The array the sink appends to (a JS array of numbers). */
    var out: seq<int>
    /** How many values were appended since construction. */
    var written: nat
    /** The contents the array had when the sink was created. */
    ghost const initial: seq<int>

    /** Everything past the initial contents was written through this sink, and `written` counts it. */
    ghost predicate Valid()
      reads this
    {
      |out| == |initial| + written && out[..|initial|] == initial
    }

    /** What was appended since construction. */
    ghost function Written(): (s: seq<int>)
      reads this
      requires Valid()
      ensures |s| == written && out == initial + s
    {
      out[|initial|..]
    }

    constructor (out: seq<int>)
      ensures Valid() && initial == out && this.out == out && written == 0
    {
      this.out := out;
      this.written := 0;
      this.initial := out;
    }

    method WriteByte(b: int)
      requires Valid()
      modifies this
      ensures Valid() && out == old(out) + [b] && written == old(written) + 1
    {
      out := out + [b];
      written := written + 1;
    }

    method WriteBytes(bs: seq<int>)
      requires Valid()
      modifies this
      ensures Valid() && out == old(out) + bs && written == old(written) + |bs|
    {
      out := out + bs;
      written := written + |bs|;
    }
  }
}
