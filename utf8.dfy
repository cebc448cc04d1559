/**
 * UTF-8 as the Rust standard library uses it: the well-formed byte sequences
 * of RFC 3629 (what `String::from_utf8` and `BufRead::read_line` accept), the
 * encoding of a `char`, and `str::trim`, which removes Unicode White_Space
 * characters from both ends.
 */
module Utf8 {
  import opened Bytes

  predicate InRange(b: byte, lo: int, hi: int) { lo <= b <= hi }

  predicate IsContinuation(b: byte) { InRange(b, 0x80, 0xBF) }

  /**
   * The length of the well-formed character at the start of `b` (Table 3-7 of
   * the Unicode standard, restated in section 4 of RFC 3629), or 0 when `b` is
   * empty or does not start with a well-formed character.
   */
  function CharLen(b: seq<byte>): (k: nat)
    ensures k <= |b| && k <= 4
  {
    if |b| == 0 then 0
    else if b[0] < 0x80 then 1
    else if InRange(b[0], 0xC2, 0xDF) then
      if |b| >= 2 && IsContinuation(b[1]) then 2 else 0
    else if InRange(b[0], 0xE0, 0xEF) then
      if |b| >= 3 && IsContinuation(b[2]) &&
         (if b[0] == 0xE0 then InRange(b[1], 0xA0, 0xBF)
          else if b[0] == 0xED then InRange(b[1], 0x80, 0x9F)
          else IsContinuation(b[1]))
      then 3 else 0
    else if InRange(b[0], 0xF0, 0xF4) then
      if |b| >= 4 && IsContinuation(b[2]) && IsContinuation(b[3]) &&
         (if b[0] == 0xF0 then InRange(b[1], 0x90, 0xBF)
          else if b[0] == 0xF4 then InRange(b[1], 0x80, 0x8F)
          else IsContinuation(b[1]))
      then 4 else 0
    else 0
  }

  /** `b` is a concatenation of well-formed characters. */
  predicate Valid(b: seq<byte>)
    decreases |b|
  {
    b == [] || (CharLen(b) > 0 && Valid(b[CharLen(b)..]))
  }

  /** The UTF-8 encoding of one Unicode scalar value. */
  function EncodeChar(c: char): (r: seq<byte>)
    ensures 1 <= |r| <= 4
    ensures (c as int < 0x80) == (|r| == 1)
  {
    var cp := c as int;
    if cp < 0x80 then [cp]
    else if cp < 0x800 then [0xC0 + cp / 64, 0x80 + cp % 64]
    else if cp < 0x10000 then [0xE0 + cp / 4096, 0x80 + (cp / 64) % 64, 0x80 + cp % 64]
    else [0xF0 + cp / 262144, 0x80 + (cp / 4096) % 64, 0x80 + (cp / 64) % 64, 0x80 + cp % 64]
  }

  /** The bytes of a Rust `&str`, as `str::as_bytes` gives them. */
  function Encode(s: string): (r: seq<byte>)
    ensures |r| >= |s|
  {
    if s == [] then [] else EncodeChar(s[0]) + Encode(s[1..])
  }

  /** An encoded character is read back as exactly one character of the same length. */
  lemma EncodeCharLen(c: char, rest: seq<byte>)
    ensures CharLen(EncodeChar(c) + rest) == |EncodeChar(c)|
  {
    var cp := c as int;
    if cp < 0x80 {
    } else if cp < 0x800 {
      EncodeTwo(c);
    } else if cp < 0x10000 {
      EncodeThree(c);
    } else {
      EncodeFour(c);
    }
    CharLenPrefix(EncodeChar(c), rest);
  }

  lemma EncodeTwo(c: char)
    requires 0x80 <= c as int < 0x800
    ensures CharLen(EncodeChar(c)) == 2
  {
    assert 2 <= c as int / 64 < 32;
  }

  lemma EncodeThree(c: char)
    requires 0x800 <= c as int < 0x10000
    ensures CharLen(EncodeChar(c)) == 3
  {
    var cp := c as int;
    var hi, mid := cp / 4096, (cp / 64) % 64;
    assert cp / 64 == hi * 64 + mid;
    assert hi == 0 ==> mid >= 32;
    assert hi == 13 ==> mid < 32;
  }

  lemma EncodeFour(c: char)
    requires 0x10000 <= c as int
    ensures CharLen(EncodeChar(c)) == 4
  {
    var cp := c as int;
    var hi, mid := cp / 262144, (cp / 4096) % 64;
    assert cp / 4096 == hi * 64 + mid;
    assert hi <= 4;
    assert hi == 0 ==> mid >= 16;
    assert hi == 4 ==> mid < 16;
  }

  /** Whatever a string is, its encoding is well-formed UTF-8. */
  lemma {:induction false} EncodeValid(s: string)
    ensures Valid(Encode(s))
  {
    if s != [] {
      var e := EncodeChar(s[0]);
      EncodeCharLen(s[0], Encode(s[1..]));
      assert (e + Encode(s[1..]))[|e|..] == Encode(s[1..]);
      EncodeValid(s[1..]);
    }
  }

  /** ASCII text encodes to itself. */
  lemma {:induction false} EncodeAscii(s: string)
    requires forall i :: 0 <= i < |s| ==> s[i] as int < 128
    ensures Encode(s) == Ascii(s)
  {
    if s != [] {
      EncodeAscii(s[1..]);
    }
  }

  /** Every ASCII byte sequence is well-formed UTF-8. */
  lemma {:induction false} AsciiValid(b: seq<byte>)
    requires IsAscii(b)
    ensures Valid(b)
  {
    if b != [] {
      assert CharLen(b) == 1;
      AsciiValid(b[1..]);
    }
  }

  /** Well-formed UTF-8 is closed under concatenation. */
  lemma {:induction false} ValidConcat(a: seq<byte>, b: seq<byte>)
    requires Valid(a) && Valid(b)
    ensures Valid(a + b)
  {
    if a != [] {
      var k := CharLen(a);
      assert (a + b)[..k] == a[..k];
      assert CharLen(a + b) == k by { CharLenPrefix(a, b); }
      assert (a + b)[k..] == a[k..] + b;
      ValidConcat(a[k..], b);
    } else {
      assert a + b == b;
    }
  }

  /** The first character does not depend on what follows it. */
  lemma CharLenPrefix(a: seq<byte>, b: seq<byte>)
    requires CharLen(a) > 0
    ensures CharLen(a + b) == CharLen(a)
  {
    assert forall i :: 0 <= i < |a| ==> (a + b)[i] == a[i];
  }

  // ----- str::trim -----

  predicate IsAsciiSpace(b: byte) { 0x09 <= b <= 0x0D || b == 0x20 }

  /**
   * The length of the White_Space character that starts `b` (U+0009..U+000D,
   * U+0020, U+0085, U+00A0, U+1680, U+2000..U+200A, U+2028, U+2029, U+202F,
   * U+205F, U+3000), or 0 when `b` does not start with one.
   */
  function LeadingSpace(b: seq<byte>): (k: nat)
    ensures k <= |b|
  {
    if |b| >= 1 && IsAsciiSpace(b[0]) then 1
    else if |b| >= 2 && b[0] == 0xC2 && (b[1] == 0x85 || b[1] == 0xA0) then 2
    else if |b| >= 3 && IsWideSpace(b[0], b[1], b[2]) then 3
    else 0
  }

  /** The three-byte White_Space characters. */
  predicate IsWideSpace(b0: byte, b1: byte, b2: byte) {
    (b0 == 0xE1 && b1 == 0x9A && b2 == 0x80) ||
    (b0 == 0xE2 && b1 == 0x80 && (InRange(b2, 0x80, 0x8A) || b2 == 0xA8 || b2 == 0xA9 || b2 == 0xAF)) ||
    (b0 == 0xE2 && b1 == 0x81 && b2 == 0x9F) ||
    (b0 == 0xE3 && b1 == 0x80 && b2 == 0x80)
  }

  /** The length of the White_Space character that ends `b`, or 0. */
  function TrailingSpace(b: seq<byte>): (k: nat)
    ensures k <= |b|
  {
    var n := |b|;
    if n >= 1 && IsAsciiSpace(b[n - 1]) then 1
    else if n >= 2 && b[n - 2] == 0xC2 && (b[n - 1] == 0x85 || b[n - 1] == 0xA0) then 2
    else if n >= 3 && IsWideSpace(b[n - 3], b[n - 2], b[n - 1]) then 3
    else 0
  }

  /** Removes White_Space characters from the start, one character at a time. */
  function TrimStart(b: seq<byte>): (r: seq<byte>)
    ensures |r| <= |b|
    decreases |b|
  {
    var k := LeadingSpace(b);
    if k == 0 then b else TrimStart(b[k..])
  }

  /** Removes White_Space characters from the end, one character at a time. */
  function TrimEnd(b: seq<byte>): (r: seq<byte>)
    ensures |r| <= |b|
    decreases |b|
  {
    var k := TrailingSpace(b);
    if k == 0 then b else TrimEnd(b[..|b| - k])
  }

  /** Rust's `str::trim`. */
  function Trim(b: seq<byte>): (r: seq<byte>)
    ensures |r| <= |b|
  {
    TrimEnd(TrimStart(b))
  }

  /** `trim_start` keeps a suffix that does not start with White_Space. */
  lemma {:induction false} TrimStartSuffix(b: seq<byte>)
    ensures TrimStart(b) == b[|b| - |TrimStart(b)|..]
    ensures LeadingSpace(TrimStart(b)) == 0
    decreases |b|
  {
    var k := LeadingSpace(b);
    if k > 0 {
      TrimStartSuffix(b[k..]);
      var t := TrimStart(b[k..]);
      assert TrimStart(b) == t;
      assert b[k..][|b| - k - |t|..] == b[|b| - |t|..];
    }
  }

  /** `trim_end` keeps a prefix that does not end with White_Space. */
  lemma {:induction false} TrimEndPrefix(b: seq<byte>)
    ensures TrimEnd(b) == b[..|TrimEnd(b)|]
    ensures TrailingSpace(TrimEnd(b)) == 0
    decreases |b|
  {
    var k := TrailingSpace(b);
    if k > 0 {
      TrimEndPrefix(b[..|b| - k]);
      assert b[..|b| - k][..|TrimEnd(b)|] == b[..|TrimEnd(b)|];
    }
  }

  /**
   * `trim` keeps a contiguous part of its input that neither starts nor ends
   * with White_Space, and it is idempotent.
   */
  lemma TrimSlice(b: seq<byte>)
    ensures exists i, j :: 0 <= i <= j <= |b| && Trim(b) == b[i..j]
    ensures LeadingSpace(Trim(b)) == 0 && TrailingSpace(Trim(b)) == 0
    ensures Trim(Trim(b)) == Trim(b)
  {
    var t := TrimStart(b);
    TrimStartSuffix(b);
    TrimEndPrefix(t);
    var r := TrimEnd(t);
    LeadingSpaceOfPrefix(t, |r|);
    var i := |b| - |t|;
    assert r == b[i..i + |r|];
  }

  /** Cutting bytes off the end cannot create a White_Space character at the start. */
  lemma LeadingSpaceOfPrefix(b: seq<byte>, n: nat)
    requires n <= |b| && LeadingSpace(b) == 0
    ensures LeadingSpace(b[..n]) == 0
  {
  }
}
