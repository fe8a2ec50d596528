/**
 * Block-data framing (section 6.2 of the Java Object Serialization
 * Specification): bytes written in block mode are buffered and go out as a
 * block, a header giving the length followed by the bytes.
 */
module BlockData {
  import opened Wire
  import opened Primitives

  /**
   * The header `writeBlockHeader(len)` should write: a short block
   * (`TC_BLOCKDATA`, one length byte) up to 0xFF bytes, a long block
   * (`TC_BLOCKDATALONG`, the length as a 4-byte Integer) beyond.
   */
  function BlockHeader(len: int): (h: seq<int>)
    ensures |h| == if len <= 0xFF then 2 else 5
  {
    if len <= 0xFF then [TC_BLOCKDATA, len] else [TC_BLOCKDATALONG] + Int32Bytes(len)
  }

  /**
   * The header as the source writes it: the long form writes
   * `new Integer()`, whose undefined value shifts to zero, instead of the
   * length.
   */
  function BlockHeaderAsWritten(len: int): seq<int>
  {
    if len <= 0xFF then [TC_BLOCKDATA, len] else [TC_BLOCKDATALONG] + Int32Bytes(0)
  }

  /** What `flush` sends to the sink for a buffer: nothing when empty, else the buffer, headed in block mode. */
  function Flushed(blockMode: bool, buf: seq<int>): seq<int>
  {
    if |buf| == 0 then [] else if blockMode then BlockHeader(|buf|) + buf else buf
  }

  /**
   * A reader for one block: its contents and what follows it, or `None` when
   * the bytes do not start with a complete block.
   */
  function ParseBlock(bs: seq<int>): Option<(seq<int>, seq<int>)>
  {
    if |bs| >= 2 && bs[0] == TC_BLOCKDATA && 0 <= bs[1] && 2 + bs[1] <= |bs| then
      Some((bs[2..2 + bs[1]], bs[2 + bs[1]..]))
    else if |bs| >= 5 && bs[0] == TC_BLOCKDATALONG then
      var len := Signed(Unsigned(bs[1..5]), 0x1_0000_0000);
      if 0 <= len && 5 + len <= |bs| then Some((bs[5..5 + len], bs[5 + len..])) else None
    else None
  }

  /** Every block the corrected header frames reads back as the buffered bytes, leaving what follows. */
  lemma BlockRoundTrip(buf: seq<int>, rest: seq<int>)
    requires 0 < |buf| < 0x8000_0000
    ensures ParseBlock(BlockHeader(|buf|) + buf + rest) == Some((buf, rest))
  {
    var bs := BlockHeader(|buf|) + buf + rest;
    if |buf| <= 0xFF {
      assert bs[2..2 + |buf|] == buf && bs[2 + |buf|..] == rest;
    } else {
      assert bs[1..5] == Int32Bytes(|buf|);
      Int32RoundTrip(|buf|);
      assert bs[5..5 + |buf|] == buf && bs[5 + |buf|..] == rest;
    }
  }

  /**
   * As written, a block of more than 0xFF bytes is announced as empty: a
   * reader takes no bytes from it and sees the block's contents as the
   * stream that follows.
   */
  lemma LongBlockAsWrittenIsEmpty(buf: seq<int>, rest: seq<int>)
    requires 0xFF < |buf|
    ensures ParseBlock(BlockHeaderAsWritten(|buf|) + buf + rest) == Some(([], buf + rest))
    ensures ParseBlock(BlockHeaderAsWritten(|buf|) + buf + rest) != Some((buf, rest))
  {
    var bs := BlockHeaderAsWritten(|buf|) + buf + rest;
    assert Int32Bytes(0) == [0, 0, 0, 0];
    assert bs[0] == TC_BLOCKDATALONG && bs[1..5] == [0, 0, 0, 0];
    assert Unsigned([0, 0, 0, 0]) == 0 by {
      assert [0, 0, 0, 0][..3] == [0, 0, 0];
      assert [0, 0, 0][..2] == [0, 0];
      assert [0, 0][..1] == [0];
      assert [0][..0] == [];
    }
    assert Signed(0, 0x1_0000_0000) == 0;
    assert bs[5..5] == [] && bs[5..] == buf + rest;
  }

  /** The decimal digits of a natural number, as `String(n)` gives them. */
  function Digits(n: nat): string
  {
    if n < 10 then ['0' + n as char] else Digits(n / 10) + ['0' + (n % 10) as char]
  }

  /** `String(n)` for an integer. */
  function Decimal(n: int): string
  {
    if n < 0 then "-" + Digits(-n) else Digits(n)
  }

  /** `String(a)` for an array of numbers: the elements in decimal, separated by commas. */
  function Joined(a: seq<int>): string
  {
    if a == [] then ""
    else if |a| == 1 then Decimal(a[0])
    else Joined(a[..|a| - 1]) + "," + Decimal(a[|a| - 1])
  }

  /**
   * `this.blockBuf += bs` as written: `+` on two arrays converts both to
   * strings and concatenates them, so the buffer becomes a string.
   */
  function AppendAsWritten(buf: seq<int>, bs: seq<int>): string
  {
    Joined(buf) + Joined(bs)
  }

  /**
   * After `writeBytes([65])` on an empty buffer in block mode, `blockPos`
   * says one byte is buffered while the buffer is the two-character string
   * "65": the count and the buffer disagree. (Flushing it would then hand a
   * string to `push.apply`.)
   */
  lemma AppendAsWrittenMismatch()
    ensures AppendAsWritten([], [65]) == "65"
    ensures |AppendAsWritten([], [65])| != 0 + |[65]|
  {
    assert Digits(65) == Digits(6) + ['5'];
  }
}
