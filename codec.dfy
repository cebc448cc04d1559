/**
 * The Language Server Protocol base framing the proxy speaks on every pipe
 * (`read_lsp_message` and `write_lsp_message` in src/lsp.rs): header lines up
 * to an empty line, a `Content-Length` header giving the body's size in bytes,
 * then the body, which must be UTF-8.
 *
 * A stream is the sequence of bytes still to come together with a position in
 * it; `BufRead::read_line` and `Read::read_exact` are modelled on that
 * sequence.
 */
module Codec {
  import opened Wrappers
  import opened Bytes
  import opened Utf8

  /** The largest `usize` on a 64-bit target. */
  const MaxUsize: nat := 0xFFFF_FFFF_FFFF_FFFF

  /** The largest `isize` on a 64-bit target: no allocation may hold more bytes. */
  const MaxIsize: nat := 0x7FFF_FFFF_FFFF_FFFF

  const LF: byte := 10
  const CR: byte := 13

  datatype ReadError =
    | EofInHeaders
    | HeaderNotUtf8
    | InvalidContentLength
    | MissingContentLength
    | CapacityOverflow    // `vec![0u8; length]` panics: the length exceeds `isize::MAX`
    | ShortBody
    | BodyNotUtf8

  // ----- lines -----

  /**
   * Where `read_line` stops when it starts at `from`: just after the first
   * newline, or at the end of the stream.
   */
  function LineEnd(s: seq<byte>, from: nat): (e: nat)
    requires from <= |s|
    ensures from <= e <= |s|
    ensures from < |s| ==> from < e
    ensures forall k :: from <= k < e - 1 ==> s[k] != LF
    ensures e < |s| ==> e > from && s[e - 1] == LF
    decreases |s| - from
  {
    if from == |s| then from
    else if s[from] == LF then from + 1
    else LineEnd(s, from + 1)
  }

  lemma {:induction false} LineEndAt(s: seq<byte>, from: nat, e: nat)
    requires from < e <= |s| && s[e - 1] == LF
    requires forall k :: from <= k < e - 1 ==> s[k] != LF
    ensures LineEnd(s, from) == e
    decreases e - from
  {
    if s[from] != LF {
      LineEndAt(s, from + 1, e);
    }
  }

  // ----- decimal numbers -----

  predicate IsDigit(b: byte) { 48 <= b <= 57 }

  predicate AllDigits(d: seq<byte>) {
    forall i :: 0 <= i < |d| ==> IsDigit(d[i])
  }

  /** The value of a string of decimal digits, most significant first. */
  function DigitsValue(d: seq<byte>): nat
    requires AllDigits(d)
    decreases |d|
  {
    if d == [] then 0 else 10 * DigitsValue(d[..|d| - 1]) + (d[|d| - 1] - 48)
  }

  /**
   * `str::parse::<usize>`: an optional `+`, then at least one decimal digit,
   * with a value that fits in 64 bits. Signs other than a leading `+`,
   * whitespace and every other character are rejected.
   */
  function ParseUsize(b: seq<byte>): (r: Option<nat>)
    ensures r.Some? ==> r.value <= MaxUsize
    ensures r.Some? ==> b != [] && ((AllDigits(b) && r.value == DigitsValue(b)) ||
                                    (b[0] == 43 && AllDigits(b[1..]) && r.value == DigitsValue(b[1..])))
    ensures b != [] && AllDigits(b) && DigitsValue(b) <= MaxUsize ==> r == Some(DigitsValue(b))
    ensures |b| > 1 && b[0] == 43 && AllDigits(b[1..]) && DigitsValue(b[1..]) <= MaxUsize ==> r == Some(DigitsValue(b[1..]))
  {
    var digits := if b != [] && b[0] == 43 then b[1..] else b;
    if digits != [] && AllDigits(digits) && DigitsValue(digits) <= MaxUsize then Some(DigitsValue(digits))
    else None
  }

  /** `n` in decimal, as `format!("{}", n)` writes it. */
  function Decimal(n: nat): (r: seq<byte>)
    ensures r != [] && AllDigits(r)
    ensures n > 0 ==> r[0] != 48
  {
    if n < 10 then [48 + n] else Decimal(n / 10) + [48 + n % 10]
  }

  /** Writing a number and parsing it back gives the number. */
  lemma {:induction false} DecimalValue(n: nat)
    ensures DigitsValue(Decimal(n)) == n
  {
    if n >= 10 {
      var d := Decimal(n);
      assert d[..|d| - 1] == Decimal(n / 10);
      DecimalValue(n / 10);
    }
  }

  lemma ParseDecimal(n: nat)
    requires n <= MaxUsize
    ensures ParseUsize(Decimal(n)) == Some(n)
  {
    DecimalValue(n);
  }

  // ----- reading a message -----

  function ContentLengthName(): (r: seq<byte>)
    ensures |r| == 15
  {
    [67, 111, 110, 116, 101, 110, 116, 45, 76, 101, 110, 103, 116, 104, 58]
  }

  /**
   * The header loop of `read_lsp_message` from position `pos`, holding the
   * length `cl` seen so far: each line must be UTF-8; a line that trims to
   * nothing ends the headers; a trimmed line starting with `Content-Length:`
   * (case-sensitive) sets the length from the rest of it, trimmed, and a later
   * such line overrides an earlier one; other lines are ignored. On success,
   * the length and the position after the empty line.
   */
  function ReadHeaders(s: seq<byte>, pos: nat, cl: Option<nat>): (r: Result<(Option<nat>, nat), ReadError>)
    requires pos <= |s|
    ensures r.Ok? ==> pos < r.value.1 <= |s|
    decreases |s| - pos
  {
    if pos == |s| then Err(EofInHeaders)
    else
      var e := LineEnd(s, pos);
      var line := s[pos..e];
      if !Valid(line) then Err(HeaderNotUtf8)
      else
        var t := Trim(line);
        if t == [] then Ok((cl, e))
        else if HasPrefix(t, ContentLengthName()) then
          match ParseUsize(Trim(t[|ContentLengthName()|..]))
          case None => Err(InvalidContentLength)
          case Some(n) => ReadHeaders(s, e, Some(n))
        else ReadHeaders(s, e, cl)
  }

  /**
   * The body part of `read_lsp_message`, once the headers ended at `p` with
   * the length `cl`: the length must have been given, a buffer of that many
   * bytes is allocated before anything is read, that many bytes must follow,
   * and they must be UTF-8.
   */
  function ReadBody(s: seq<byte>, p: nat, cl: Option<nat>): (r: Result<(seq<byte>, nat), ReadError>)
    requires p <= |s|
    ensures r.Ok? <==> cl.Some? && cl.value <= MaxIsize && cl.value <= |s| - p && Valid(s[p..p + cl.value])
    ensures r.Ok? ==> r.value.1 == p + cl.value <= |s| && r.value.0 == s[p..r.value.1]
    ensures r == Err(CapacityOverflow) <==> cl.Some? && cl.value > MaxIsize
    ensures r.Err? ==> r.error in {MissingContentLength, CapacityOverflow, ShortBody, BodyNotUtf8}
  {
    if cl.None? then Err(MissingContentLength)
    else if cl.value > MaxIsize then Err(CapacityOverflow)
    else if |s| - p < cl.value then Err(ShortBody)
    else
      var next: nat := p + cl.value;
      var body: seq<byte> := s[p..next];
      if !Valid(body) then Err(BodyNotUtf8) else Ok((body, next))
  }

  /**
   * `read_lsp_message` at position `pos`: the body and the position after it.
   * Fails on end of stream inside the headers, a length that is missing or not
   * a `usize`, a length no buffer can hold, a body cut short, or a body that is
   * not UTF-8.
   */
  function ReadMessage(s: seq<byte>, pos: nat): (r: Result<(seq<byte>, nat), ReadError>)
    requires pos <= |s|
    ensures r.Ok? ==>
      pos < r.value.1 <= |s| && |r.value.0| <= r.value.1 - pos &&
      r.value.0 == s[r.value.1 - |r.value.0|..r.value.1] && Valid(r.value.0)
  {
    match ReadHeaders(s, pos, None)
    case Err(e) => Err(e)
    case Ok((cl, p)) => ReadBody(s, p, cl)
  }

  lemma MessageAfterHeaders(s: seq<byte>, pos: nat, cl: Option<nat>, p: nat)
    requires pos <= p <= |s| && ReadHeaders(s, pos, None) == Ok((cl, p))
    ensures ReadMessage(s, pos) == ReadBody(s, p, cl)
  {
  }

  /** The header loop of `read_lsp_message`: line by line up to the empty line. */
  method ReadHeaderLines(s: seq<byte>, pos: nat) returns (r: Result<(Option<nat>, nat), ReadError>)
    requires pos <= |s|
    ensures r == ReadHeaders(s, pos, None)
  {
    var contentLength: Option<nat> := None;
    var p := pos;
    while true
      invariant pos <= p <= |s|
      invariant ReadHeaders(s, p, contentLength) == ReadHeaders(s, pos, None)
      decreases |s| - p
    {
      if p == |s| {
        return Err(EofInHeaders);
      }
      var e := LineEnd(s, p);
      var line := s[p..e];
      if !Valid(line) {
        return Err(HeaderNotUtf8);
      }
      var trimmed := Trim(line);
      if trimmed == [] {
        return Ok((contentLength, e));
      }
      p := e;
      if HasPrefix(trimmed, ContentLengthName()) {
        var length := ParseUsize(Trim(trimmed[|ContentLengthName()|..]));
        if length.None? {
          return Err(InvalidContentLength);
        }
        contentLength := length;
      }
    }
  }

  /** `read_lsp_message`: the header loop, then the body. */
  method ReadLspMessage(s: seq<byte>, pos: nat) returns (r: Result<(seq<byte>, nat), ReadError>)
    requires pos <= |s|
    ensures r == ReadMessage(s, pos)
  {
    var headers := ReadHeaderLines(s, pos);
    if headers.Err? {
      return Err(headers.error);
    }
    var contentLength, p := headers.value.0, headers.value.1;
    MessageAfterHeaders(s, pos, contentLength, p);
    if contentLength.None? {
      return Err(MissingContentLength);
    }
    var length := contentLength.value;
    if length > MaxIsize {
      return Err(CapacityOverflow);
    }
    if |s| - p < length {
      return Err(ShortBody);
    }
    var body := s[p..p + length];
    if !Valid(body) {
      return Err(BodyNotUtf8);
    }
    r := Ok((body, p + length));
  }

  // ----- writing a message -----

  function HeaderPrefix(): (r: seq<byte>)
    ensures |r| == 16
  {
    [67, 111, 110, 116, 101, 110, 116, 45, 76, 101, 110, 103, 116, 104, 58, 32]
  }

  /** `Content-Length: <byte length>\r\n\r\n<body>`, as `write_lsp_message` and `send_to_backend` write it. */
  function Frame(body: seq<byte>): (r: seq<byte>)
    ensures |r| > |body| && r[|r| - |body|..] == body
  {
    HeaderPrefix() + Decimal(|body|) + [CR, LF, CR, LF] + body
  }

  /** Several messages written one after the other. */
  function Frames(bodies: seq<seq<byte>>): seq<byte> {
    if bodies == [] then [] else Frame(bodies[0]) + Frames(bodies[1..])
  }

  lemma {:induction false} FramesAppend(a: seq<seq<byte>>, b: seq<seq<byte>>)
    ensures Frames(a + b) == Frames(a) + Frames(b)
  {
    if a == [] {
      assert a + b == b;
    } else {
      assert (a + b)[1..] == a[1..] + b;
      FramesAppend(a[1..], b);
    }
  }

  /** `write_lsp_message`: appends one frame to the output stream. */
  method WriteLspMessage(out: seq<byte>, body: seq<byte>) returns (out': seq<byte>)
    ensures out' == out + Frame(body)
    ensures Valid(body) && |body| <= MaxIsize ==> ReadMessage(out', |out|) == Ok((body, |out'|))
  {
    out' := out + Frame(body);
    if Valid(body) && |body| <= MaxIsize {
      AppendedAt(out, Frame(body));
      RoundTrip(out', |out|, body, [], |out'|);
    }
  }

  lemma AppendedAt(out: seq<byte>, f: seq<byte>)
    ensures |out| <= |out + f| && (out + f)[|out|..] == f + []
  {
    assert f + [] == f;
  }

  // ----- the round trip -----

  /**
   * A header value as the model's lemmas write it: ASCII, no newline, and
   * neither starting nor ending with white space.
   */
  predicate PlainValue(v: seq<byte>) {
    v != [] && IsAscii(v) && !IsAsciiSpace(v[0]) && !IsAsciiSpace(v[|v| - 1]) &&
    forall k :: 0 <= k < |v| ==> v[k] != LF
  }

  lemma TrimValueLine(h: seq<byte>, v: seq<byte>)
    requires h != [] && IsAscii(h) && !IsAsciiSpace(h[0]) && PlainValue(v)
    ensures Trim(h + v + [CR, LF]) == h + v
  {
    var hv := h + v;
    var line := hv + [CR, LF];
    assert line[0] == h[0];
    assert LeadingSpace(line) == 0;
    assert TrimStart(line) == line;
    assert TrailingSpace(line) == 1;
    assert line[..|line| - 1] == hv + [CR];
    assert TrailingSpace(hv + [CR]) == 1;
    assert (hv + [CR])[..|hv|] == hv;
    assert hv[|hv| - 1] == v[|v| - 1];
    assert TrailingSpace(hv) == 0;
    assert TrimEnd(hv) == hv;
    assert TrimEnd(hv + [CR]) == hv;
    assert TrimEnd(line) == hv;
  }

  lemma TrimValue(v: seq<byte>)
    requires PlainValue(v)
    ensures Trim([32] + v) == v
  {
    assert LeadingSpace([32] + v) == 1;
    assert ([32] + v)[1..] == v;
    assert LeadingSpace(v) == 0;
    assert TrimStart([32] + v) == v;
    assert TrailingSpace(v) == 0;
  }

  lemma DecimalPlain(n: nat)
    ensures PlainValue(Decimal(n))
  {
    var d := Decimal(n);
    assert IsDigit(d[0]) && IsDigit(d[|d| - 1]);
  }

  lemma TrimCrLf()
    ensures Trim([CR, LF]) == []
  {
    assert TrimStart([CR, LF]) == TrimStart([LF]) == TrimStart([]) == [];
  }

  /**
   * Reading back a written frame returns exactly its body and stops right
   * after it, whatever follows: framing round-trips for every UTF-8 body whose
   * length fits in an `isize`, as every Rust buffer's does; `end` is where the
   * frame ends.
   */
  lemma RoundTrip(s: seq<byte>, pos: nat, body: seq<byte>, rest: seq<byte>, end: nat)
    requires pos <= |s| && s[pos..] == Frame(body) + rest && end == pos + |Frame(body)|
    requires Valid(body) && |body| <= MaxIsize
    ensures ReadMessage(s, pos) == Ok((body, end))
  {
    var e1 := FrameParts(s, pos, body, rest, end);
    FrameAt(s, pos, e1, body, end);
  }

  /** A frame's header lines followed by its body, wherever they sit in a stream. */
  lemma FrameAt(s: seq<byte>, pos: nat, e1: nat, body: seq<byte>, end: nat)
    requires pos < e1 && e1 + 2 + |body| == end && end <= |s| && |body| <= MaxIsize
    requires s[pos..e1] == HeaderPrefix() + Decimal(|body|) + [CR, LF]
    requires s[e1..e1 + 2] == [CR, LF]
    requires s[e1 + 2..end] == body && Valid(body)
    ensures ReadMessage(s, pos) == Ok((body, end))
  {
    FrameHeaders(s, pos, e1, |body|);
    assert s[e1 + 2..end] == body;
    BodyAt(s, e1 + 2, body, end);
  }

  /** Where the parts of a frame lie in a stream that holds it at `pos`. */
  lemma FrameParts(s: seq<byte>, pos: nat, body: seq<byte>, rest: seq<byte>, end: nat) returns (e1: nat)
    requires pos <= |s| && s[pos..] == Frame(body) + rest && end == pos + |Frame(body)|
    ensures pos < e1 && e1 + 2 + |body| == end && end <= |s|
    ensures s[pos..e1] == HeaderPrefix() + Decimal(|body|) + [CR, LF]
    ensures s[e1..e1 + 2] == [CR, LF]
    ensures s[e1 + 2..end] == body
  {
    var line1 := HeaderPrefix() + Decimal(|body|) + [CR, LF];
    e1 := pos + |line1|;
    assert Frame(body) == line1 + [CR, LF] + body;
    assert s[pos..e1] == line1 by { assert s[pos..][..|line1|] == line1; }
    assert s[e1..e1 + 2] == [CR, LF] by { assert s[pos..][|line1|..|line1| + 2] == [CR, LF]; }
    assert s[e1 + 2..end] == body by { assert s[pos..][|line1| + 2..|Frame(body)|] == body; }
  }

  /** The header lines of a frame: the length line, then the empty line. */
  lemma FrameHeaders(s: seq<byte>, pos: nat, e1: nat, n: nat)
    requires pos < e1 && e1 + 2 <= |s| && n <= MaxUsize
    requires s[pos..e1] == HeaderPrefix() + Decimal(n) + [CR, LF]
    requires s[e1..e1 + 2] == [CR, LF]
    ensures ReadHeaders(s, pos, None) == Ok((Some(n), e1 + 2))
    ensures ReadMessage(s, pos) == ReadBody(s, e1 + 2, Some(n))
  {
    LengthLine(s, pos, e1, n, None);
    EmptyLine(s, e1, Some(n));
    assert ReadHeaders(s, pos, None) == Ok((Some(n), e1 + 2));
  }

  lemma BodyAt(s: seq<byte>, p: nat, body: seq<byte>, end: nat)
    requires end == p + |body| <= |s| && s[p..end] == body && Valid(body) && |body| <= MaxIsize
    ensures ReadBody(s, p, Some(|body|)) == Ok((body, end))
  {
  }

  /**
   * A line `Content-Length: <v>\r\n` decides the header loop by `v` alone,
   * whatever length was seen before it: a `v` that is not a `usize` fails the
   * message with `InvalidContentLength`, and one that is sets the length (an
   * earlier one is overridden) and moves past the line.
   */
  lemma {:induction false} LengthValueLine(s: seq<byte>, pos: nat, e: nat, v: seq<byte>, cl: Option<nat>)
    requires pos < e <= |s| && PlainValue(v)
    requires s[pos..e] == HeaderPrefix() + v + [CR, LF]
    ensures LineEnd(s, pos) == e
    ensures ParseUsize(v).None? ==> ReadHeaders(s, pos, cl) == Err(InvalidContentLength)
    ensures ParseUsize(v).Some? ==> ReadHeaders(s, pos, cl) == ReadHeaders(s, e, ParseUsize(v))
  {
    var h := HeaderPrefix();
    var line := s[pos..e];
    forall k | pos <= k < e - 1 ensures s[k] != LF {
      assert s[k] == line[k - pos];
    }
    LineEndAt(s, pos, e);
    assert IsAscii(line);
    AsciiValid(line);
    TrimValueLine(h, v);
    var t := h + v;
    assert t[..15] == ContentLengthName();
    assert t[15..] == [32] + v;
    TrimValue(v);
  }

  /** A line `Content-Length: <n>\r\n` sets the length to `n` and moves past it. */
  lemma LengthLine(s: seq<byte>, pos: nat, e: nat, n: nat, cl: Option<nat>)
    requires pos < e <= |s| && n <= MaxUsize
    requires s[pos..e] == HeaderPrefix() + Decimal(n) + [CR, LF]
    ensures LineEnd(s, pos) == e
    ensures ReadHeaders(s, pos, cl) == ReadHeaders(s, e, Some(n))
  {
    DecimalPlain(n);
    ParseDecimal(n);
    LengthValueLine(s, pos, e, Decimal(n), cl);
  }

  /** A length too large for a `usize` fails the message, wherever the line comes. */
  lemma LengthOverflowFails(s: seq<byte>, pos: nat, e: nat, n: nat, cl: Option<nat>)
    requires pos < e <= |s| && n > MaxUsize
    requires s[pos..e] == HeaderPrefix() + Decimal(n) + [CR, LF]
    ensures ReadHeaders(s, pos, cl) == Err(InvalidContentLength)
  {
    DecimalPlain(n);
    DecimalValue(n);
    LengthValueLine(s, pos, e, Decimal(n), cl);
  }

  /** A negative length fails the message: `usize` takes no `-` sign. */
  lemma NegativeLengthFails(s: seq<byte>, pos: nat, e: nat, n: nat, cl: Option<nat>)
    requires pos < e <= |s|
    requires s[pos..e] == HeaderPrefix() + [45] + Decimal(n) + [CR, LF]
    ensures ReadHeaders(s, pos, cl) == Err(InvalidContentLength)
  {
    var v := [45] + Decimal(n);
    DecimalPlain(n);
    assert !IsDigit(v[0]);
    assert HeaderPrefix() + [45] + Decimal(n) == HeaderPrefix() + v;
    LengthValueLine(s, pos, e, v, cl);
  }

  /**
   * A stream that ends right after a complete `Content-Length` line, before
   * the empty line, fails the message: end of stream inside the headers.
   */
  lemma HeadersCutShort(s: seq<byte>, pos: nat, n: nat)
    requires pos <= |s| && n <= MaxUsize
    requires s[pos..] == HeaderPrefix() + Decimal(n) + [CR, LF]
    ensures ReadMessage(s, pos) == Err(EofInHeaders)
  {
    assert s[pos..|s|] == s[pos..];
    LengthLine(s, pos, |s|, n, None);
  }

  /** A line holding only `\r\n` ends the headers. */
  lemma EmptyLine(s: seq<byte>, pos: nat, cl: Option<nat>)
    requires pos + 2 <= |s| && s[pos..pos + 2] == [CR, LF]
    ensures LineEnd(s, pos) == pos + 2
    ensures ReadHeaders(s, pos, cl) == Ok((cl, pos + 2))
  {
    LineEndAt(s, pos, pos + 2);
    AsciiValid([CR, LF]);
    TrimCrLf();
  }

  /**
   * The messages the proxy's main loop takes from a stream starting at `pos`:
   * it reads one message after another and stops at the first that cannot be
   * read (end of input included).
   */
  function Incoming(s: seq<byte>, pos: nat): seq<seq<byte>>
    requires pos <= |s|
    decreases |s| - pos
  {
    match ReadMessage(s, pos)
    case Ok((body, next)) => [body] + Incoming(s, next)
    case Err(_) => []
  }

  /** Why the message loop stops reading: the error of the first message that cannot be read. */
  function StreamEnd(s: seq<byte>, pos: nat): ReadError
    requires pos <= |s|
    decreases |s| - pos
  {
    match ReadMessage(s, pos)
    case Ok((_, next)) => StreamEnd(s, next)
    case Err(e) => e
  }

  lemma IncomingCons(s: seq<byte>, pos: nat, next: nat, body: seq<byte>, tail: seq<seq<byte>>)
    requires pos <= next <= |s| && ReadMessage(s, pos) == Ok((body, next)) && Incoming(s, next) == tail
    ensures Incoming(s, pos) == [body] + tail
  {
  }

  /** A body the writer can frame and the reader accepts: UTF-8, with a length a buffer can hold. */
  predicate Writable(body: seq<byte>) {
    Valid(body) && |body| <= MaxIsize
  }

  /**
   * A stream made of frames, one after the other, is read back as exactly
   * their bodies, in order, after which the loop stops at the end of input.
   */
  lemma {:induction false} ReadFrames(s: seq<byte>, pos: nat, bodies: seq<seq<byte>>)
    requires pos <= |s| && s[pos..] == Frames(bodies)
    requires forall b :: b in bodies ==> Writable(b)
    ensures Incoming(s, pos) == bodies
    decreases |bodies|
  {
    if bodies == [] {
      EmptyStreamFails(s);
    } else {
      var next := FramesParts(s, pos, bodies);
      RoundTrip(s, pos, bodies[0], Frames(bodies[1..]), next);
      ReadFrames(s, next, bodies[1..]);
      IncomingCons(s, pos, next, bodies[0], bodies[1..]);
    }
  }

  /** How a stream of frames splits after its first frame. */
  lemma FramesParts(s: seq<byte>, pos: nat, bodies: seq<seq<byte>>) returns (next: nat)
    requires pos <= |s| && s[pos..] == Frames(bodies) && bodies != []
    requires forall b :: b in bodies ==> Writable(b)
    ensures pos <= next <= |s| && next == pos + |Frame(bodies[0])|
    ensures s[pos..] == Frame(bodies[0]) + Frames(bodies[1..])
    ensures s[next..] == Frames(bodies[1..])
    ensures bodies == [bodies[0]] + bodies[1..]
    ensures Writable(bodies[0]) && forall b :: b in bodies[1..] ==> Writable(b)
  {
    next := pos + |Frame(bodies[0])|;
    assert s[next..] == s[pos..][|Frame(bodies[0])|..];
    assert forall b :: b in bodies[1..] ==> b in bodies;
  }

  /** An empty input ends the message loop: end of stream inside the headers. */
  lemma EmptyStreamFails(s: seq<byte>)
    ensures ReadMessage(s, |s|) == Err(EofInHeaders)
  {
  }

  /**
   * A length above `isize::MAX` panics when the body's buffer is allocated,
   * before a byte of the body is read: even with nothing after the headers.
   */
  lemma HugeLengthOverflows(s: seq<byte>, pos: nat, n: nat)
    requires pos <= |s| && MaxIsize < n <= MaxUsize
    requires s[pos..] == HeaderPrefix() + Decimal(n) + [CR, LF, CR, LF]
    ensures ReadMessage(s, pos) == Err(CapacityOverflow)
  {
    var line1 := HeaderPrefix() + Decimal(n) + [CR, LF];
    var e1 := pos + |line1|;
    assert s[pos..e1] == line1 by { assert s[pos..][..|line1|] == line1; }
    assert s[e1..e1 + 2] == [CR, LF] by { assert s[pos..][|line1|..|line1| + 2] == [CR, LF]; }
    FrameHeaders(s, pos, e1, n);
  }

  /** Without a `Content-Length` header the message is rejected. */
  lemma NoLengthFails(s: seq<byte>)
    requires |s| >= 2 && s[..2] == [CR, LF]
    ensures ReadMessage(s, 0) == Err(MissingContentLength)
  {
    assert s[0..2] == [CR, LF];
    EmptyLine(s, 0, None);
    MessageAfterHeaders(s, 0, None, 2);
  }
}
