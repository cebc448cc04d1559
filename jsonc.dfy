/**
 * The two character scanners that turn the commented routing file into strict
 * JSON before it is parsed (`strip_jsonc_comments` and `strip_trailing_commas`
 * in src/config.rs). Both walk the text once with an index and an
 * "inside a string literal" flag; inside a literal a backslash copies the
 * character after it too, so an escaped quote never ends the literal.
 */
module Jsonc {
  import opened Bytes

  // ----- character classes and searches -----

  /** Rust's `char::is_whitespace` (the Unicode White_Space property). */
  predicate IsWhitespace(c: char) {
    var n := c as int;
    (0x09 <= n <= 0x0D) || n == 0x20 || n == 0x85 || n == 0xA0 || n == 0x1680 ||
    (0x2000 <= n <= 0x200A) || n == 0x2028 || n == 0x2029 || n == 0x202F ||
    n == 0x205F || n == 0x3000
  }

  /** The first position at or after `from` holding a newline, or `|s|`. */
  function NextNewline(s: string, from: nat): (j: nat)
    requires from <= |s|
    ensures from <= j <= |s|
    ensures forall k :: from <= k < j ==> s[k] != '\n'
    ensures j < |s| ==> s[j] == '\n'
    decreases |s| - from
  {
    if from == |s| || s[from] == '\n' then from else NextNewline(s, from + 1)
  }

  // The two characters that close a block comment (star, slash) start at position `k`.
  predicate ClosesAt(s: string, k: int) {
    0 <= k && k + 1 < |s| && s[k] == '*' && s[k + 1] == '/'
  }

  // Where the skip loop of a block comment stops when it starts at `from`:
  // at the first closing star-slash (or at the last character when there is none).
  function BlockStop(s: string, from: nat): (j: nat)
    requires from <= |s|
    ensures from <= j <= |s|
    ensures forall k :: from <= k < j ==> !ClosesAt(s, k)
    ensures j + 1 < |s| ==> ClosesAt(s, j)
    ensures j + 1 >= |s| ==> j == if from < |s| then |s| - 1 else from
    decreases |s| - from
  {
    if from + 1 >= |s| || ClosesAt(s, from) then from else BlockStop(s, from + 1)
  }

  /** The first position at or after `from` that is not whitespace, or `|s|`. */
  function NextNonSpace(s: string, from: nat): (j: nat)
    requires from <= |s|
    ensures from <= j <= |s|
    ensures forall k :: from <= k < j ==> IsWhitespace(s[k])
    ensures j < |s| ==> !IsWhitespace(s[j])
    decreases |s| - from
  {
    if from == |s| || !IsWhitespace(s[from]) then from else NextNonSpace(s, from + 1)
  }

  /** After optional whitespace, the next character closes an object or an array. */
  predicate CloserFollows(s: string, from: nat)
    requires from <= |s|
  {
    var j := NextNonSpace(s, from);
    j < |s| && (s[j] == '}' || s[j] == ']')
  }

  // ----- the comment scanner -----

  /**
   * One step of the comment scanner at position `i < |s|` with the given
   * string flag: the characters it emits, where it continues and whether it is
   * then inside a string. One case per branch of its loop.
   */
  function CommentStep(s: string, i: nat, inString: bool): (st: (string, nat, bool))
    requires i < |s|
    ensures i < st.1 <= |s|
    ensures st.0 == [] || st.0 == s[i..st.1]
  {
    if inString then
      if s[i] == '\\' && i + 1 < |s| then
        assert [s[i], s[i + 1]] == s[i..i + 2];
        ([s[i], s[i + 1]], i + 2, true)
      else ([s[i]], i + 1, s[i] != '"')
    else if s[i] == '"' then ([s[i]], i + 1, true)
    else if s[i] == '/' && i + 1 < |s| && s[i + 1] == '/' then
      ([], NextNewline(s, i + 2), false)
    else if s[i] == '/' && i + 1 < |s| && s[i + 1] == '*' then
      var j := BlockStop(s, i + 2);
      ([], if j + 1 < |s| then j + 2 else j, false)
    else ([s[i]], i + 1, false)
  }

  /** What the comment scanner emits for `s[i..]` when it reaches position `i` with the given string flag. */
  function Uncommented(s: string, i: nat, inString: bool): (r: string)
    requires i <= |s|
    decreases |s| - i
  {
    if i == |s| then []
    else
      var st := CommentStep(s, i, inString);
      st.0 + Uncommented(s, st.1, st.2)
  }

  // ----- the trailing-comma scanner -----

  /** One step of the trailing-comma scanner at position `i < |s|`. */
  function CommaStep(s: string, i: nat, inString: bool): (st: (string, nat, bool))
    requires i < |s|
    ensures i < st.1 <= |s|
    ensures st.0 == [] || st.0 == s[i..st.1]
  {
    if inString then
      if s[i] == '\\' && i + 1 < |s| then
        assert [s[i], s[i + 1]] == s[i..i + 2];
        ([s[i], s[i + 1]], i + 2, true)
      else ([s[i]], i + 1, s[i] != '"')
    else if s[i] == '"' then ([s[i]], i + 1, true)
    else if s[i] == ',' && CloserFollows(s, i + 1) then ([], i + 1, false)
    else ([s[i]], i + 1, false)
  }

  /** What the trailing-comma scanner emits for `s[i..]` from position `i`. */
  function Decommaed(s: string, i: nat, inString: bool): (r: string)
    requires i <= |s|
    decreases |s| - i
  {
    if i == |s| then []
    else
      var st := CommaStep(s, i, inString);
      st.0 + Decommaed(s, st.1, st.2)
  }

  /**
   * The lexical state after a prefix of the text, as an automaton: outside
   * any string, inside a string, or just after a backslash inside a string.
   */
  datatype Lex = Code | Quoted | Escaped

  function Next(st: Lex, c: char): Lex {
    match st
    case Code => if c == '"' then Quoted else Code
    case Quoted => if c == '\\' then Escaped else if c == '"' then Code else Quoted
    case Escaped => Quoted
  }

  function LexAfter(p: string): Lex
    decreases |p|
  {
    if p == [] then Code else Next(LexAfter(p[..|p| - 1]), p[|p| - 1])
  }

  /** The comma at `k` is outside every string and only whitespace separates it from `}` or `]`. */
  predicate DroppedComma(s: string, k: nat)
    requires k < |s|
  {
    s[k] == ',' && LexAfter(s[..k]) == Code && CloserFollows(s, k + 1)
  }

  /** `s[i..]` without its dropped commas: the reference the scanner is proved against. */
  function KeptFrom(s: string, i: nat): (r: string)
    requires i <= |s|
    ensures |r| <= |s| - i
    decreases |s| - i
  {
    if i == |s| then []
    else (if DroppedComma(s, i) then [] else [s[i]]) + KeptFrom(s, i + 1)
  }

  /** Text without a droppable comma passes through unchanged. */
  lemma {:induction false} KeptWithoutDroppedComma(s: string, i: nat)
    requires i <= |s|
    requires forall k :: i <= k < |s| ==> !DroppedComma(s, k)
    ensures KeptFrom(s, i) == s[i..]
    decreases |s| - i
  {
    if i < |s| {
      KeptWithoutDroppedComma(s, i + 1);
      assert s[i..] == [s[i]] + s[i + 1..];
    }
  }

  /** Only commas are ever removed: every other character of the text is kept. */
  lemma {:induction false} KeptKeepsNonCommas(s: string, i: nat, k: nat)
    requires i <= k < |s| && s[k] != ','
    ensures s[k] in KeptFrom(s, i)
    decreases k - i
  {
    if i < k {
      KeptKeepsNonCommas(s, i + 1, k);
    }
  }

  lemma LexStep(s: string, i: nat)
    requires i < |s|
    ensures LexAfter(s[..i + 1]) == Next(LexAfter(s[..i]), s[i])
  {
    assert s[..i + 1][..i] == s[..i];
  }

  /**
   * The trailing-comma scanner removes exactly the dropped commas: started at
   * any position where the automaton is not in the middle of an escape, it
   * emits the kept characters of the rest of the text.
   */
  lemma {:induction false} DecommaedIsKept(s: string, i: nat)
    requires i <= |s| && LexAfter(s[..i]) != Escaped
    ensures Decommaed(s, i, LexAfter(s[..i]) == Quoted) == KeptFrom(s, i)
    decreases |s| - i
  {
    if i < |s| {
      var st := LexAfter(s[..i]);
      LexStep(s, i);
      if st == Quoted && s[i] == '\\' && i + 1 < |s| {
        LexStep(s, i + 1);
        DecommaedIsKept(s, i + 2);
        assert !DroppedComma(s, i) && !DroppedComma(s, i + 1);
        assert s[i..i + 2] == [s[i]] + [s[i + 1]];
      } else if st == Quoted && s[i] == '\\' {
        assert i + 1 == |s|;
      } else {
        DecommaedIsKept(s, i + 1);
      }
    }
  }

  /** The look-ahead after a comma: the first non-whitespace position from `from`. */
  method SkipWhitespace(input: string, from: nat) returns (j: nat)
    requires from <= |input|
    ensures j == NextNonSpace(input, from)
  {
    j := from;
    while j < |input| && IsWhitespace(input[j])
      invariant from <= j <= |input|
      invariant NextNonSpace(input, from) == NextNonSpace(input, j)
    {
      j := j + 1;
    }
  }

  /** The inner loop of a line comment: advances to the newline, which is not consumed. */
  method SkipLineComment(input: string, from: nat) returns (j: nat)
    requires from <= |input|
    ensures j == NextNewline(input, from)
  {
    j := from;
    while j < |input| && input[j] != '\n'
      invariant from <= j <= |input|
      invariant NextNewline(input, from) == NextNewline(input, j)
    {
      j := j + 1;
    }
  }

  /** The inner loop of a block comment: advances past the closing delimiter when there is one. */
  method SkipBlockComment(input: string, from: nat) returns (j: nat)
    requires from <= |input|
    ensures j == if BlockStop(input, from) + 1 < |input| then BlockStop(input, from) + 2 else BlockStop(input, from)
  {
    j := from;
    while j + 1 < |input| && !(input[j] == '*' && input[j + 1] == '/')
      invariant from <= j <= |input|
      invariant BlockStop(input, from) == BlockStop(input, j)
    {
      j := j + 1;
    }
    if j + 1 < |input| {
      j := j + 2;
    }
  }

  /**
   * `strip_trailing_commas`: copies the text except each comma that lies
   * outside every string and is followed, after whitespace, by `}` or `]`.
   */
  method StripTrailingCommas(input: string) returns (r: string)
    ensures r == Decommaed(input, 0, false)
    ensures r == KeptFrom(input, 0)
  {
    r := [];
    var i := 0;
    var inString := false;
    while i < |input|
      invariant i <= |input|
      invariant r + Decommaed(input, i, inString) == Decommaed(input, 0, false)
    {
      var out: string, next: nat, nowInString: bool;
      if inString {
        if input[i] == '\\' && i + 1 < |input| {
          out, next, nowInString := [input[i], input[i + 1]], i + 2, true;
        } else {
          out, next, nowInString := [input[i]], i + 1, input[i] != '"';
        }
      } else if input[i] == '"' {
        out, next, nowInString := [input[i]], i + 1, true;
      } else {
        out, next, nowInString := [input[i]], i + 1, false;
        if input[i] == ',' {
          var j := SkipWhitespace(input, i + 1);
          if j < |input| && (input[j] == '}' || input[j] == ']') {
            out := [];
          }
        }
      }
      assert (out, next, nowInString) == CommaStep(input, i, inString);
      assert Decommaed(input, i, inString) == out + Decommaed(input, next, nowInString);
      ConcatAssoc(r, out, Decommaed(input, next, nowInString));
      r, i, inString := r + out, next, nowInString;
    }
    assert input[..0] == [];
    DecommaedIsKept(input, 0);
  }

  /**
   * `strip_jsonc_comments`: removes line comments and block comments outside
   * string literals, then removes trailing commas.
   */
  method StripJsoncComments(input: string) returns (r: string)
    ensures r == KeptFrom(Uncommented(input, 0, false), 0)
  {
    var result: string := [];
    var i := 0;
    var inString := false;
    while i < |input|
      invariant i <= |input|
      invariant result + Uncommented(input, i, inString) == Uncommented(input, 0, false)
    {
      var out: string, next: nat, nowInString: bool;
      if inString {
        if input[i] == '\\' && i + 1 < |input| {
          out, next, nowInString := [input[i], input[i + 1]], i + 2, true;
        } else {
          out, next, nowInString := [input[i]], i + 1, input[i] != '"';
        }
      } else if input[i] == '"' {
        out, next, nowInString := [input[i]], i + 1, true;
      } else if input[i] == '/' && i + 1 < |input| && input[i + 1] == '/' {
        next := SkipLineComment(input, i + 2);
        out, nowInString := [], false;
      } else if input[i] == '/' && i + 1 < |input| && input[i + 1] == '*' {
        next := SkipBlockComment(input, i + 2);
        out, nowInString := [], false;
      } else {
        out, next, nowInString := [input[i]], i + 1, false;
      }
      assert (out, next, nowInString) == CommentStep(input, i, inString);
      assert Uncommented(input, i, inString) == out + Uncommented(input, next, nowInString);
      ConcatAssoc(result, out, Uncommented(input, next, nowInString));
      result, i, inString := result + out, next, nowInString;
    }
    assert result == Uncommented(input, 0, false);
    r := StripTrailingCommas(result);
  }

  // ----- what the scanners promise -----

  /**
   * `s[i..j]` is the rest of a string literal whose opening quote has been
   * read: ordinary characters and backslash pairs, then the closing quote at
   * `j - 1`.
   */
  predicate LiteralRest(s: string, i: nat, j: nat)
    decreases |s| - i
  {
    i < j <= |s| &&
    if s[i] == '"' then j == i + 1
    else if s[i] == '\\' then i + 2 < j && LiteralRest(s, i + 2, j)
    else LiteralRest(s, i + 1, j)
  }

  // Inside a literal, the comment scanner copies everything, comment openers included, up to the closing quote.
  lemma {:induction false} UncommentedCopiesLiteral(s: string, i: nat, j: nat)
    requires LiteralRest(s, i, j)
    ensures Uncommented(s, i, true) == s[i..j] + Uncommented(s, j, false)
    decreases |s| - i
  {
    if s[i] == '\\' {
      UncommentedInString(s, i);
      UncommentedCopiesLiteral(s, i + 2, j);
      assert s[i..j] == [s[i], s[i + 1]] + s[i + 2..j];
      ConcatAssoc([s[i], s[i + 1]], s[i + 2..j], Uncommented(s, j, false));
    } else if s[i] != '"' {
      UncommentedInString(s, i);
      UncommentedCopiesLiteral(s, i + 1, j);
      assert s[i..j] == [s[i]] + s[i + 1..j];
      ConcatAssoc([s[i]], s[i + 1..j], Uncommented(s, j, false));
    } else {
      UncommentedInString(s, i);
    }
  }

  /** One step of the comment scanner inside a literal. */
  lemma UncommentedInString(s: string, i: nat)
    requires i < |s|
    ensures s[i] == '\\' && i + 1 < |s| ==> Uncommented(s, i, true) == [s[i], s[i + 1]] + Uncommented(s, i + 2, true)
    ensures s[i] != '\\' ==> Uncommented(s, i, true) == [s[i]] + Uncommented(s, i + 1, s[i] != '"')
  {
    if s[i] == '\\' && i + 1 < |s| {
      assert CommentStep(s, i, true) == ([s[i], s[i + 1]], i + 2, true);
    } else {
      assert CommentStep(s, i, true) == ([s[i]], i + 1, s[i] != '"');
    }
  }

  /** Inside a literal, the trailing-comma scanner copies everything, commas included. */
  lemma {:induction false} DecommaedCopiesLiteral(s: string, i: nat, j: nat)
    requires LiteralRest(s, i, j)
    ensures Decommaed(s, i, true) == s[i..j] + Decommaed(s, j, false)
    decreases |s| - i
  {
    if s[i] == '\\' {
      DecommaedInString(s, i);
      DecommaedCopiesLiteral(s, i + 2, j);
      assert s[i..j] == [s[i], s[i + 1]] + s[i + 2..j];
      ConcatAssoc([s[i], s[i + 1]], s[i + 2..j], Decommaed(s, j, false));
    } else if s[i] != '"' {
      DecommaedInString(s, i);
      DecommaedCopiesLiteral(s, i + 1, j);
      assert s[i..j] == [s[i]] + s[i + 1..j];
      ConcatAssoc([s[i]], s[i + 1..j], Decommaed(s, j, false));
    } else {
      DecommaedInString(s, i);
    }
  }

  /** One step of the trailing-comma scanner inside a literal. */
  lemma DecommaedInString(s: string, i: nat)
    requires i < |s|
    ensures s[i] == '\\' && i + 1 < |s| ==> Decommaed(s, i, true) == [s[i], s[i + 1]] + Decommaed(s, i + 2, true)
    ensures s[i] != '\\' ==> Decommaed(s, i, true) == [s[i]] + Decommaed(s, i + 1, s[i] != '"')
  {
    if s[i] == '\\' && i + 1 < |s| {
      assert CommaStep(s, i, true) == ([s[i], s[i + 1]], i + 2, true);
    } else {
      assert CommaStep(s, i, true) == ([s[i]], i + 1, s[i] != '"');
    }
  }

  /** An escaped quote does not end a literal: `\"` followed by the rest of the literal is still its rest. */
  lemma EscapedQuoteStaysInLiteral(s: string, i: nat, j: nat)
    requires i + 1 < |s| && s[i] == '\\' && s[i + 1] == '"' && LiteralRest(s, i + 2, j)
    ensures LiteralRest(s, i, j)
  {
  }

  /**
   * A line comment is dropped up to, not including, the newline that ends it;
   * the newline itself is kept.
   */
  lemma LineCommentDropped(s: string, i: nat, j: nat)
    requires i + 1 < |s| && s[i] == '/' && s[i + 1] == '/'
    requires i + 2 <= j <= |s| && (j == |s| || s[j] == '\n')
    requires forall k :: i + 2 <= k < j ==> s[k] != '\n'
    ensures Uncommented(s, i, false) ==
      if j == |s| then [] else ['\n'] + Uncommented(s, j + 1, false)
  {
    assert NextNewline(s, i + 2) == j by { NextNewlineIsFirst(s, i + 2, j); }
  }

  lemma {:induction false} NextNewlineIsFirst(s: string, from: nat, j: nat)
    requires from <= j <= |s| && (j == |s| || s[j] == '\n')
    requires forall k :: from <= k < j ==> s[k] != '\n'
    ensures NextNewline(s, from) == j
    decreases j - from
  {
    if from < j {
      NextNewlineIsFirst(s, from + 1, j);
    }
  }

  /** A terminated block comment disappears together with both delimiters. */
  lemma BlockCommentDropped(s: string, i: nat, j: nat)
    requires i + 1 < |s| && s[i] == '/' && s[i + 1] == '*'
    requires i + 2 <= j && ClosesAt(s, j)
    requires forall k :: i + 2 <= k < j ==> !ClosesAt(s, k)
    ensures Uncommented(s, i, false) == Uncommented(s, j + 2, false)
  {
    assert BlockStop(s, i + 2) == j by { BlockStopIsFirst(s, i + 2, j); }
  }

  lemma {:induction false} BlockStopIsFirst(s: string, from: nat, j: nat)
    requires from <= j && ClosesAt(s, j)
    requires forall k :: from <= k < j ==> !ClosesAt(s, k)
    ensures BlockStop(s, from) == j
    decreases j - from
  {
    if from < j {
      BlockStopIsFirst(s, from + 1, j);
    }
  }

  /**
   * An unterminated block comment swallows the text except its final
   * character, which the scanner examines again and emits.
   */
  lemma UnterminatedBlockComment(s: string, i: nat)
    requires i + 1 < |s| && s[i] == '/' && s[i + 1] == '*'
    requires forall k :: i + 2 <= k < |s| ==> !ClosesAt(s, k)
    ensures Uncommented(s, i, false) == if i + 2 < |s| then [s[|s| - 1]] else []
  {
    var j := BlockStop(s, i + 2);
    if i + 2 < |s| {
      assert j == |s| - 1;
      assert Uncommented(s, |s|, s[|s| - 1] == '"') == [];
    }
  }

  // ----- the output is a subsequence of the input -----

  /** `a` can be obtained from `b` by deleting characters. */
  predicate IsSubsequence<T(==)>(a: seq<T>, b: seq<T>)
    decreases |b|
  {
    a == [] || (b != [] && ((a[0] == b[0] && IsSubsequence(a[1..], b[1..])) || IsSubsequence(a, b[1..])))
  }

  lemma {:induction false} SubsequenceShorter<T>(a: seq<T>, b: seq<T>)
    requires IsSubsequence(a, b)
    ensures |a| <= |b|
    decreases |b|
  {
    if a != [] {
      if a[0] == b[0] && IsSubsequence(a[1..], b[1..]) {
        SubsequenceShorter(a[1..], b[1..]);
      } else {
        SubsequenceShorter(a, b[1..]);
      }
    }
  }

  lemma {:induction false} SubsequenceDrop<T>(a: seq<T>, b: seq<T>, p: seq<T>)
    requires IsSubsequence(a, b)
    ensures IsSubsequence(a, p + b)
    decreases |p|
  {
    if p != [] {
      SubsequenceDrop(a, b, p[1..]);
      assert (p + b)[1..] == p[1..] + b;
    } else {
      assert p + b == b;
    }
  }

  lemma {:induction false} SubsequenceKeep<T>(a: seq<T>, b: seq<T>, p: seq<T>)
    requires IsSubsequence(a, b)
    ensures IsSubsequence(p + a, p + b)
    decreases |p|
  {
    if p != [] {
      SubsequenceKeep(a, b, p[1..]);
      assert (p + a)[1..] == p[1..] + a;
      assert (p + b)[1..] == p[1..] + b;
    } else {
      assert p + a == a && p + b == b;
    }
  }

  /** One step that emits nothing or exactly the characters it passes keeps the subsequence relation. */
  lemma SubsequenceStep<T>(s: seq<T>, i: nat, j: nat, out: seq<T>, rest: seq<T>)
    requires i <= j <= |s| && (out == [] || out == s[i..j])
    requires IsSubsequence(rest, s[j..])
    ensures IsSubsequence(out + rest, s[i..])
  {
    assert s[i..] == s[i..j] + s[j..];
    if out == [] {
      assert out + rest == rest;
      SubsequenceDrop(rest, s[j..], s[i..j]);
    } else {
      SubsequenceKeep(rest, s[j..], s[i..j]);
    }
  }

  /** The comment scanner only deletes characters: its output is a subsequence of its input. */
  lemma {:induction false} UncommentedIsSubsequence(s: string, i: nat, inString: bool)
    requires i <= |s|
    ensures IsSubsequence(Uncommented(s, i, inString), s[i..])
    decreases |s| - i
  {
    if i < |s| {
      var st := CommentStep(s, i, inString);
      UncommentedIsSubsequence(s, st.1, st.2);
      SubsequenceStep(s, i, st.1, st.0, Uncommented(s, st.1, st.2));
    }
  }

  /** The trailing-comma scanner only deletes characters, too. */
  lemma {:induction false} DecommaedIsSubsequence(s: string, i: nat, inString: bool)
    requires i <= |s|
    ensures IsSubsequence(Decommaed(s, i, inString), s[i..])
    decreases |s| - i
  {
    if i < |s| {
      var st := CommaStep(s, i, inString);
      DecommaedIsSubsequence(s, st.1, st.2);
      SubsequenceStep(s, i, st.1, st.0, Decommaed(s, st.1, st.2));
    }
  }

  /** So the whole preprocessing only deletes characters, and never lengthens the text. */
  lemma PreprocessingShortens(s: string)
    ensures IsSubsequence(Uncommented(s, 0, false), s)
    ensures IsSubsequence(Decommaed(Uncommented(s, 0, false), 0, false), Uncommented(s, 0, false))
    ensures |KeptFrom(Uncommented(s, 0, false), 0)| <= |Uncommented(s, 0, false)| <= |s|
  {
    var u := Uncommented(s, 0, false);
    UncommentedIsSubsequence(s, 0, false);
    DecommaedIsSubsequence(u, 0, false);
    assert s[0..] == s && u[0..] == u;
    SubsequenceShorter(u, s);
  }
}
