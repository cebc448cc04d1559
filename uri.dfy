/**
 * The URI helpers of the LSP proxy (src/lsp.rs): `percent_decode`,
 * `uri_to_path` and `extract_uri`.
 *
 * `percent_decode` walks the UTF-8 bytes of its input. A `%` with two more
 * bytes after it is handed, as the two-byte string that follows it, to
 * `u8::from_str_radix(_, 16)`; when that parses, the byte replaces the three
 * input bytes. Every byte that ends up in the output, decoded or copied, is
 * pushed as the `char` with that code point (U+0000..U+00FF), so non-ASCII
 * input is not reassembled into its original characters.
 */
module Uri {
  import opened Wrappers
  import opened Bytes
  import opened Utf8
  import opened Json
  import opened Config

  const Percent: byte := 37
  const Plus: byte := 43

  /** `char::to_digit(16)` on one byte: `0-9`, `a-f` and `A-F`. */
  function HexDigit(b: byte): (r: Option<nat>)
    ensures r.Some? <==> (48 <= b <= 57 || 97 <= b <= 102 || 65 <= b <= 70)
    ensures r.Some? ==> r.value < 16
  {
    if 48 <= b <= 57 then Some(b - 48)
    else if 97 <= b <= 102 then Some(b - 97 + 10)
    else if 65 <= b <= 70 then Some(b - 65 + 10)
    else None
  }

  /**
   * `u8::from_str_radix(s, 16)` on a two-byte string `[a, b]`: two hex digits,
   * or a `+` sign followed by one hex digit.
   */
  function FromHex2(a: byte, b: byte): (r: Option<byte>)
    ensures r.Some? <==> HexDigit(b).Some? && (a == Plus || HexDigit(a).Some?)
  {
    if a == Plus then
      if HexDigit(b).Some? then Some(HexDigit(b).value) else None
    else if HexDigit(a).Some? && HexDigit(b).Some? then
      Some(16 * HexDigit(a).value + HexDigit(b).value)
    else None
  }

  /** The upper-case hex digit for `d`, as percent-encoding writes it (section 2.1 of RFC 3986). */
  function HexChar(d: nat): (r: byte)
    requires d < 16
    ensures HexDigit(r) == Some(d)
  {
    if d < 10 then 48 + d else 65 + d - 10
  }

  /** Two hex digits always parse back to the byte they were written for. */
  lemma FromHex2Inverse(v: byte)
    ensures FromHex2(HexChar(v / 16), HexChar(v % 16)) == Some(v)
  {
  }

  /** The `+` sign that `from_str_radix` accepts lets `%+5` decode to the byte 0x05. */
  lemma PlusSignAccepted()
    ensures FromHex2(Plus, 53) == Some(5)
  {
  }

  /** Each byte pushed as the `char` with that code point (`byte as char`). */
  function Latin1(b: seq<byte>): (r: string)
    ensures |r| == |b|
    ensures forall k :: 0 <= k < |b| ==> r[k] as int == b[k]
  {
    if b == [] then [] else [b[0] as char] + Latin1(b[1..])
  }

  /**
   * What `percent_decode` produces from the bytes `b`, on the corrected reading
   * that tests the two bytes after `%` without slicing the `str`.
   */
  function Decode(b: seq<byte>): (r: string)
    ensures |r| <= |b|
  {
    if b == [] then []
    else if b[0] == Percent && 2 < |b| && FromHex2(b[1], b[2]).Some? then
      [FromHex2(b[1], b[2]).value as char] + Decode(b[3..])
    else [b[0] as char] + Decode(b[1..])
  }

  /**
   * `percent_decode` as written: the same walk, except that `&input[i+1..i+3]`
   * panics (`None`) when `i + 3` falls inside a multi-byte character, that is
   * when the byte there is a UTF-8 continuation byte.
   */
  function DecodeAsWritten(b: seq<byte>): (r: Option<string>)
    ensures r.Some? ==> r.value == Decode(b)
  {
    if b == [] then Some([])
    else if b[0] == Percent && 2 < |b| && 3 < |b| && IsContinuation(b[3]) then None
    else if b[0] == Percent && 2 < |b| && FromHex2(b[1], b[2]).Some? then
      match DecodeAsWritten(b[3..])
      case Some(rest) => Some([FromHex2(b[1], b[2]).value as char] + rest)
      case None => None
    else
      match DecodeAsWritten(b[1..])
      case Some(rest) => Some([b[0] as char] + rest)
      case None => None
  }

  /** Input without continuation bytes (ASCII, in particular) never reaches the panic. */
  lemma {:induction false} AsciiNeverPanics(b: seq<byte>)
    requires IsAscii(b)
    ensures DecodeAsWritten(b) == Some(Decode(b))
  {
    if b != [] {
      AsciiNeverPanics(b[1..]);
      if 2 < |b| {
        AsciiNeverPanics(b[3..]);
      }
    }
  }

  /** `percent_decode("%aé")` panics: the slice `[1..3]` ends inside `é`. */
  lemma PanicExample()
    ensures Encode("%aé") == [Percent, 97, 0xC3, 0xA9]
    ensures DecodeAsWritten([Percent, 97, 0xC3, 0xA9]) == None
    ensures Decode([Percent, 97, 0xC3, 0xA9]) == "%aÃ©"
  {
    assert EncodeChar('é') == [0xC3, 0xA9];
    var b: seq<byte> := [Percent, 97, 0xC3, 0xA9];
    assert b[1..] == [97, 0xC3, 0xA9] && b[2..] == [0xC3, 0xA9] && b[3..] == [0xA9];
    assert Decode([0xA9]) == "©";
    assert Decode([0xC3, 0xA9]) == "Ã©";
    assert Decode([97, 0xC3, 0xA9]) == "aÃ©";
  }

  /**
   * `percent_decode`, corrected so that it never panics: the loop over the
   * input's bytes, pushing one `char` per step.
   */
  method PercentDecode(input: string) returns (r: string)
    ensures r == Decode(Encode(input))
    ensures |r| <= |Encode(input)|
  {
    var bytes := Encode(input);
    r := [];
    var i := 0;
    while i < |bytes|
      invariant i <= |bytes|
      invariant r + Decode(bytes[i..]) == Decode(bytes)
    {
      var c, k := DecodeStep(bytes, i);
      ConcatAssoc(r, [c], Decode(bytes[i + k..]));
      r := r + [c];
      i := i + k;
    }
    assert bytes[i..] == [];
  }

  /** One step of the loop: the `char` pushed at byte `i` and how far it advances. */
  method DecodeStep(bytes: seq<byte>, i: nat) returns (c: char, k: nat)
    requires i < |bytes|
    ensures 1 <= k <= |bytes| - i
    ensures Decode(bytes[i..]) == [c] + Decode(bytes[i + k..])
  {
    if bytes[i] == Percent && i + 2 < |bytes| && FromHex2(bytes[i + 1], bytes[i + 2]).Some? {
      c, k := FromHex2(bytes[i + 1], bytes[i + 2]).value as char, 3;
      assert bytes[i..][3..] == bytes[i + 3..];
    } else {
      c, k := bytes[i] as char, 1;
      assert bytes[i..][1..] == bytes[i + 1..];
    }
  }

  // ----- percent-encoding, the partner of the decoder -----

  /** Every byte written as `%XX`. */
  function PercentEncode(x: seq<byte>): (r: seq<byte>)
    ensures |r| == 3 * |x|
    ensures IsAscii(r)
  {
    if x == [] then []
    else [Percent, HexChar(x[0] / 16), HexChar(x[0] % 16)] + PercentEncode(x[1..])
  }

  /** Decoding undoes percent-encoding, byte for byte. */
  lemma {:induction false} DecodeEncoded(x: seq<byte>)
    ensures Decode(PercentEncode(x)) == Latin1(x)
  {
    if x != [] {
      var e := PercentEncode(x);
      FromHex2Inverse(x[0]);
      assert e[3..] == PercentEncode(x[1..]);
      DecodeEncoded(x[1..]);
    }
  }

  /** Bytes without a `%` are copied through unchanged. */
  lemma {:induction false} DecodeWithoutPercent(b: seq<byte>)
    requires forall k :: 0 <= k < |b| ==> b[k] != Percent
    ensures Decode(b) == Latin1(b)
  {
    if b != [] {
      DecodeWithoutPercent(b[1..]);
    }
  }

  /** A `%`-free prefix is copied through, and decoding then resumes after it. */
  lemma {:induction false} DecodePlainPrefix(a: seq<byte>, b: seq<byte>)
    requires forall k :: 0 <= k < |a| ==> a[k] != Percent
    ensures Decode(a + b) == Latin1(a) + Decode(b)
  {
    if a != [] {
      assert (a + b)[1..] == a[1..] + b;
      DecodePlainPrefix(a[1..], b);
    } else {
      assert a + b == b;
    }
  }

  // ----- uri_to_path and extract_uri -----

  function FileScheme(): string { "file://" }

  /**
   * `uri_to_path`: a `file://` URI loses the scheme and has the rest
   * percent-decoded; any other string is taken as the path unchanged.
   */
  function UriToPath(uri: string): (p: Path)
    ensures !HasPrefix(uri, FileScheme()) ==> p == uri
    ensures HasPrefix(uri, FileScheme()) ==> |p| <= |Encode(uri[|FileScheme()|..])|
  {
    if HasPrefix(uri, FileScheme()) then Decode(Encode(uri[|FileScheme()|..])) else uri
  }

  /** The text of a byte string whose bytes are all ASCII. */
  lemma {:induction false} Latin1Ascii(b: seq<byte>)
    requires IsAscii(b)
    ensures Encode(Latin1(b)) == b
  {
    if b != [] {
      Latin1Ascii(b[1..]);
      assert Latin1(b) == [b[0] as char] + Latin1(b[1..]);
    }
  }

  /** A path written as a `file://` URI with every byte percent-encoded comes back as those bytes. */
  lemma EncodedUriToPath(x: seq<byte>)
    ensures UriToPath(FileScheme() + Latin1(PercentEncode(x))) == Latin1(x)
  {
    var uri := FileScheme() + Latin1(PercentEncode(x));
    assert uri[..|FileScheme()|] == FileScheme();
    assert uri[|FileScheme()|..] == Latin1(PercentEncode(x));
    Latin1Ascii(PercentEncode(x));
    DecodeEncoded(x);
  }

  /** An ASCII path without `%` is its own `file://` URI's path. */
  lemma PlainUriToPath(path: string)
    requires forall k :: 0 <= k < |path| ==> path[k] as int < 128 && path[k] != '%'
    ensures UriToPath(FileScheme() + path) == path
  {
    var uri := FileScheme() + path;
    assert uri[..|FileScheme()|] == FileScheme();
    assert uri[|FileScheme()|..] == path;
    EncodeAscii(path);
    DecodeWithoutPercent(Ascii(path));
    assert Latin1(Ascii(path)) == path;
  }

  /** `uri_to_path("file:///home/user/my%20file.go")` is `/home/user/my file.go`. */
  lemma EscapedSpaceInPath()
    ensures UriToPath(FileScheme() + "/home/user/my" + "%20" + "file.go") == "/home/user/my" + " " + "file.go"
  {
    var head, tail := "/home/user/my", "file.go";
    var uri := FileScheme() + head + "%20" + tail;
    assert uri[..7] == FileScheme();
    assert uri[7..] == head + "%20" + tail;
    EscapedSpace(head, tail);
  }

  /** `head%20tail` decodes to `head tail` for ASCII `head` and `tail` without `%`. */
  lemma EscapedSpace(head: string, tail: string)
    requires forall k :: 0 <= k < |head| ==> head[k] as int < 128 && head[k] != '%'
    requires forall k :: 0 <= k < |tail| ==> tail[k] as int < 128 && tail[k] != '%'
    ensures Decode(Encode(head + "%20" + tail)) == head + " " + tail
  {
    var rest := EncodeAround(head, tail);
    var a := Ascii(head);
    assert forall k :: 0 <= k < |a| ==> a[k] != Percent;
    DecodePlainPrefix(a, rest);
    Latin1OfAscii(head);
    DecodeEscapedSpace(tail);
    ConcatAssoc(head, " ", tail);
  }

  lemma EncodeAround(head: string, tail: string) returns (rest: seq<byte>)
    requires forall k :: 0 <= k < |head| ==> head[k] as int < 128
    requires forall k :: 0 <= k < |tail| ==> tail[k] as int < 128
    ensures rest == [Percent, 50, 48] + Ascii(tail)
    ensures Encode(head + "%20" + tail) == Ascii(head) + rest
  {
    rest := [Percent, 50, 48] + Ascii(tail);
    EncodeAscii(head + "%20" + tail);
    assert Ascii(head + "%20" + tail) == Ascii(head) + rest;
  }

  lemma DecodeEscapedSpace(tail: string)
    requires forall k :: 0 <= k < |tail| ==> tail[k] as int < 128 && tail[k] != '%'
    ensures Decode([Percent, 50, 48] + Ascii(tail)) == " " + tail
  {
    var rest: seq<byte> := [Percent, 50, 48] + Ascii(tail);
    assert rest[3..] == Ascii(tail);
    assert FromHex2(50, 48) == Some(32);
    DecodeWithoutPercent(Ascii(tail));
    Latin1OfAscii(tail);
  }

  /** Pushing the bytes of ASCII text one by one gives the text back. */
  lemma Latin1OfAscii(s: string)
    requires forall k :: 0 <= k < |s| ==> s[k] as int < 128
    ensures Latin1(Ascii(s)) == s
  {
  }

  /** The path of a URI that is not `file://` is the URI itself. */
  lemma OtherUriUnchanged(uri: string)
    requires |uri| < 7 || uri[..7] != "file://"
    ensures UriToPath(uri) == uri
  {
  }

  /** `extract_uri`: `params.textDocument.uri`, when it is a string. */
  function ExtractUri(msg: Value): (r: Option<string>)
    ensures r.Some? <==>
      Get(msg, "params").Some? && Get(Get(msg, "params").value, "textDocument").Some? &&
      GetStr(Get(Get(msg, "params").value, "textDocument").value, "uri").Some?
    ensures r.Some? ==> r == GetStr(Get(Get(msg, "params").value, "textDocument").value, "uri")
  {
    match Get(msg, "params")
    case None => None
    case Some(params) =>
      match Get(params, "textDocument")
      case None => None
      case Some(doc) => GetStr(doc, "uri")
  }

  /** A message that carries `params.textDocument.uri` gives that URI back. */
  lemma ExtractUriOf(uri: string, name: string)
    ensures ExtractUri(Object([("method", Str(name)),
                               ("params", Object([("textDocument", Object([("uri", Str(uri))]))]))]))
            == Some(uri)
  {
    var doc := Object([("uri", Str(uri))]);
    var params := Object([("textDocument", doc)]);
    var msg := Object([("method", Str(name)), ("params", params)]);
    assert IndexOf(msg.members, "params") == 1;
  }

  /** A message without `params` has no URI. */
  lemma ExtractUriMissing(name: string)
    ensures ExtractUri(Object([("method", Str(name))])) == None
  {
  }
}
