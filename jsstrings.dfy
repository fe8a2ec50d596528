/**
 * JavaScript strings as the writer sees them: `length` and `charCodeAt`
 * count UTF-16 code units, and `unescape(encodeURIComponent(s)).length` is
 * the length of the UTF-8 encoding.
 */
module JsStrings {

  /** The UTF-16 code units of one character: one below 0x10000, else a surrogate pair. */
  function CodeUnits(c: char): (us: seq<int>)
    ensures 1 <= |us| <= 2 && forall i :: 0 <= i < |us| ==> 0 <= us[i] < 0x1_0000
  {
    var n := c as int;
    if n < 0x1_0000 then [n]
    else [0xD800 + (n - 0x1_0000) / 0x400, 0xDC00 + (n - 0x1_0000) % 0x400]
  }

  /** The string as JS stores it: `s.length` is `|Utf16(s)|`, `s.charCodeAt(i)` is `Utf16(s)[i]`. */
  function Utf16(s: string): seq<int>
  {
    if s == [] then [] else CodeUnits(s[0]) + Utf16(s[1..])
  }

  /** The number of bytes UTF-8 takes for one character. */
  function Utf8Width(c: char): nat
  {
    var n := c as int;
    if n < 0x80 then 1 else if n < 0x800 then 2 else if n < 0x1_0000 then 3 else 4
  }

  /** `unescape(encodeURIComponent(s)).length`: the length of the UTF-8 encoding. */
  function Utf8Length(s: string): nat
  {
    if s == [] then 0 else Utf8Width(s[0]) + Utf8Length(s[1..])
  }

  predicate IsAscii(s: string)
  {
    forall i :: 0 <= i < |s| ==> s[i] as int < 0x80
  }

  /**
   * The UTF-8 length is never below the code-unit count, and the two are
   * equal exactly when every character is ASCII; then the code units are the
   * characters' own numbers.
   */
  lemma {:induction false} Utf8VersusUtf16(s: string)
    ensures Utf8Length(s) >= |Utf16(s)|
    ensures Utf8Length(s) == |Utf16(s)| <==> IsAscii(s)
    ensures IsAscii(s) ==> |Utf16(s)| == |s| && forall i :: 0 <= i < |s| ==> Utf16(s)[i] == s[i] as int
  {
    if s != [] {
      Utf8VersusUtf16(s[1..]);
      assert IsAscii(s) <==> s[0] as int < 0x80 && IsAscii(s[1..]) by {
        if s[0] as int < 0x80 && IsAscii(s[1..]) {
          forall i | 0 <= i < |s| ensures s[i] as int < 0x80 {
            if i > 0 { assert s[i] == s[1..][i - 1]; }
          }
        }
      }
      if IsAscii(s) {
        forall i | 0 <= i < |s| ensures Utf16(s)[i] == s[i] as int {
          if i > 0 { assert s[i] == s[1..][i - 1]; }
        }
      }
    }
  }

  /** The low byte of each code unit, in order. */
  function LowUnits(us: seq<int>): (bs: seq<int>)
    ensures |bs| == |us|
  {
    if us == [] then [] else LowUnits(us[..|us| - 1]) + [us[|us| - 1] % 256]
  }

  lemma {:induction false} LowUnitsAt(us: seq<int>)
    ensures forall i :: 0 <= i < |us| ==> LowUnits(us)[i] == us[i] % 256
    decreases |us|
  {
    if us != [] {
      LowUnitsAt(us[..|us| - 1]);
    }
  }

  /** What `String.writeBytes` writes: the low byte of each code unit. */
  function LowBytes(s: string): (bs: seq<int>)
    ensures |bs| == |Utf16(s)|
  {
    LowUnits(Utf16(s))
  }

  /** Reads bytes back as characters, one character per byte. */
  function Latin1(bs: seq<int>): string
    requires forall i :: 0 <= i < |bs| ==> 0 <= bs[i] < 256
  {
    seq(|bs|, i requires 0 <= i < |bs| => bs[i] as char)
  }

  /** For an ASCII string the low bytes are the characters themselves, so they read back as the string. */
  lemma AsciiLowBytes(s: string)
    requires IsAscii(s)
    ensures |LowBytes(s)| == |s| && forall i :: 0 <= i < |s| ==> LowBytes(s)[i] == s[i] as int
    ensures forall i :: 0 <= i < |LowBytes(s)| ==> 0 <= LowBytes(s)[i] < 0x80
    ensures Latin1(LowBytes(s)) == s
  {
    Utf8VersusUtf16(s);
    LowUnitsAt(Utf16(s));
  }
}
