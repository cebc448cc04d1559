/**
 * Profile resolution (src/matcher.rs): ordered glob rules pick a profile for a
 * file path, and optional content patterns, tested on line-aligned blocks of
 * the file, can override it.
 *
 * Glob and regular-expression matching are foreign libraries: a compiled glob
 * is a predicate on paths and a compiled content pattern a predicate on the
 * bytes of a block. The file system is a function from paths to what reading
 * the file would give, line by line (`BufRead::read_line`).
 */
module Matcher {
  import opened Wrappers
  import opened Bytes
  import opened Utf8
  import opened Config

  /** Blocks are tested once they hold at least this many bytes. */
  const ContentMatchBlockBytes: nat := 8192

  /** A compiled rule: a matcher on `X` (paths or file content) and the profile it selects. */
  datatype Rule<-X> = Rule(matches: X -> bool, profile: string)

  /** The compiled `match_content` patterns, in the order the configuration declares them. */
  datatype ContentMatcher = ContentMatcher(patterns: seq<Rule<seq<byte>>>)

  datatype ProfileMatcher = ProfileMatcher(rules: seq<Rule<Path>>, content: Option<ContentMatcher>)

  datatype MatchError =
    | InvalidGlob(pattern: string)
    | InvalidContentPattern(message: string)
    | UndefinedInMatchRules(profile: string)
    | UndefinedInMatchContent(profile: string)

  /** One line as `read_line` returns it: never empty, since an empty read means end of file. */
  type Line = l: seq<byte> | l != [] witness [10]

  /** What opening and reading a file gives: failure to open, or its lines. */
  datatype FileData = Unopenable | Lines(lines: seq<Line>)

  datatype ReadError = CannotOpen | InvalidUtf8(line: nat)

  // ----- first match over ordered rules -----

  /** The position of the first rule that matches `x`, or `|rules|` when none does. */
  function FirstMatchIndex<X>(rules: seq<Rule<X>>, x: X): (k: nat)
    ensures k <= |rules|
    ensures forall j :: 0 <= j < k ==> !rules[j].matches(x)
    ensures k < |rules| ==> rules[k].matches(x)
  {
    if rules == [] then 0
    else if rules[0].matches(x) then 0
    else 1 + FirstMatchIndex(rules[1..], x)
  }

  /** The profile of the first matching rule. */
  function FirstMatch<X>(rules: seq<Rule<X>>, x: X): (r: Option<string>)
    ensures r.None? <==> forall j :: 0 <= j < |rules| ==> !rules[j].matches(x)
    ensures r.Some? ==> exists k :: 0 <= k < |rules| && rules[k].matches(x) && r.value == rules[k].profile &&
                          forall j :: 0 <= j < k ==> !rules[j].matches(x)
  {
    var k := FirstMatchIndex(rules, x);
    if k < |rules| then Some(rules[k].profile) else None
  }

  /** `ProfileMatcher::match_profile`: the first glob rule, in declared order, that matches the path. */
  function MatchProfile(m: ProfileMatcher, path: Path): (r: Option<string>)
    ensures r.None? <==> forall j :: 0 <= j < |m.rules| ==> !m.rules[j].matches(path)
    ensures r.Some? ==> exists k :: 0 <= k < |m.rules| && m.rules[k].matches(path) &&
                          r.value == m.rules[k].profile && forall j :: 0 <= j < k ==> !m.rules[j].matches(path)
  {
    FirstMatch(m.rules, path)
  }

  /** A later rule never overrides an earlier one: when rule `k` matches, the answer comes from rule `k` or before it. */
  lemma {:induction false} FirstMatchWins<X>(rules: seq<Rule<X>>, x: X, k: nat)
    requires k < |rules| && rules[k].matches(x)
    ensures FirstMatchIndex(rules, x) <= k
    ensures (forall j :: 0 <= j < k ==> !rules[j].matches(x)) ==> FirstMatch(rules, x) == Some(rules[k].profile)
  {
    if k > 0 && !rules[0].matches(x) {
      FirstMatchWins(rules[1..], x, k - 1);
    }
  }

  /** The content patterns' verdict on one block (the abstract `ContentMatcher::match_content`). */
  function MatchContent(cm: ContentMatcher, block: seq<byte>): Option<string> {
    FirstMatch(cm.patterns, block)
  }

  // ----- building the matcher -----

  /** Rule `i` is the first whose pattern, tilde-expanded, does not compile. */
  predicate FirstBadGlob(pairs: seq<(string, string)>, home: Option<Path>, compileGlob: Path -> Option<Path -> bool>, i: int) {
    0 <= i < |pairs| && compileGlob(ExpandTilde(pairs[i].0, home)).None? &&
    forall j :: 0 <= j < i ==> compileGlob(ExpandTilde(pairs[j].0, home)).Some?
  }

  /**
   * `ProfileMatcher::from_config`: one rule per string-valued match entry, its
   * pattern tilde-expanded and then compiled; the first pattern that does not
   * compile is an error. `compileGlob` stands for `Glob::new` and
   * `compiledContent` for the result of compiling the content patterns.
   */
  method FromConfig(cfg: MconfConfig, home: Option<Path>, compileGlob: Path -> Option<Path -> bool>,
                    compiledContent: Result<Option<ContentMatcher>, string>)
    returns (r: Result<ProfileMatcher, MatchError>)
    ensures var pairs := MatchRulesIter(cfg);
      r.Ok? <==> compiledContent.Ok? && forall i :: 0 <= i < |pairs| ==> compileGlob(ExpandTilde(pairs[i].0, home)).Some?
    ensures var pairs := MatchRulesIter(cfg);
      r.Ok? ==> (|r.value.rules| == |pairs| && r.value.content == compiledContent.value &&
        forall i :: 0 <= i < |pairs| ==>
          r.value.rules[i] == Rule(compileGlob(ExpandTilde(pairs[i].0, home)).value, pairs[i].1))
    ensures var pairs := MatchRulesIter(cfg);
      r.Err? && r.error.InvalidGlob? ==>
        exists i :: FirstBadGlob(pairs, home, compileGlob, i) && pairs[i].0 == r.error.pattern
    ensures var pairs := MatchRulesIter(cfg);
      r.Err? && !r.error.InvalidGlob? ==>
        compiledContent.Err? && r.error == InvalidContentPattern(compiledContent.error) &&
        forall i :: 0 <= i < |pairs| ==> compileGlob(ExpandTilde(pairs[i].0, home)).Some?
  {
    var pairs := MatchRulesIter(cfg);
    var rules: seq<Rule<Path>> := [];
    var i := 0;
    while i < |pairs|
      invariant i <= |pairs| && |rules| == i
      invariant forall j :: 0 <= j < i ==>
        compileGlob(ExpandTilde(pairs[j].0, home)).Some? && rules[j] == Rule(compileGlob(ExpandTilde(pairs[j].0, home)).value, pairs[j].1)
    {
      var glob := compileGlob(ExpandTilde(pairs[i].0, home));
      if glob.None? {
        assert FirstBadGlob(pairs, home, compileGlob, i);
        return Err(InvalidGlob(pairs[i].0));
      }
      rules := rules + [Rule(glob.value, pairs[i].1)];
      i := i + 1;
    }
    if compiledContent.Err? {
      return Err(InvalidContentPattern(compiledContent.error));
    }
    r := Ok(ProfileMatcher(rules, compiledContent.value));
  }

  // ----- resolution by path -----

  /**
   * `resolve_config_by_path`: no matching rule is "unknown file"; a matching
   * rule whose profile the configuration does not define is an error.
   */
  function ResolveConfigByPath(m: ProfileMatcher, path: Path, cfg: MconfConfig, home: Option<Path>)
    : (r: Result<Option<Resolution>, MatchError>)
    ensures MatchProfile(m, path).None? <==> r == Ok(None)
    ensures r.Err? <==> MatchProfile(m, path).Some? && ResolveProfile(cfg, MatchProfile(m, path).value, home).None?
    ensures r.Err? ==> r.error == UndefinedInMatchRules(MatchProfile(m, path).value)
    ensures r.Ok? && r.value.Some? ==> r.value == ResolveProfile(cfg, MatchProfile(m, path).value, home)
  {
    match MatchProfile(m, path)
    case None => Ok(None)
    case Some(name) =>
      match ResolveProfile(cfg, name, home)
      case Some(res) => Ok(Some(res))
      case None => Err(UndefinedInMatchRules(name))
  }

  // ----- content scan -----

  lemma {:induction false} FlattenEmpty(ls: seq<Line>)
    ensures Flatten(ls) == [] <==> ls == []
  {
    if ls != [] {
      assert |Flatten(ls)| >= |ls[0]| > 0;
    }
  }

  /**
   * What `match_file_content` returns once it has read the first `i` lines
   * and holds `block`: each line is appended; a block that reaches the
   * threshold is tested and then cleared; at end of file a non-empty block is
   * tested. A line that is not UTF-8 makes `read_line` fail.
   */
  function ScanFrom(cm: ContentMatcher, lines: seq<Line>, i: nat, block: seq<byte>)
    : (r: Result<Option<string>, ReadError>)
    requires i <= |lines|
    ensures r.Err? ==> r.error.InvalidUtf8? && i <= r.error.line < |lines| && !Valid(lines[r.error.line])
    decreases |lines| - i
  {
    if i == |lines| then
      if block != [] then Ok(MatchContent(cm, block)) else Ok(None)
    else if !Valid(lines[i]) then Err(InvalidUtf8(i))
    else
      var b := block + lines[i];
      if |b| >= ContentMatchBlockBytes then
        match MatchContent(cm, b)
        case Some(p) => Ok(Some(p))
        case None => ScanFrom(cm, lines, i + 1, [])
      else ScanFrom(cm, lines, i + 1, b)
  }

  /** The result of scanning a whole file. */
  function ContentScan(file: FileData, cm: ContentMatcher): (r: Result<Option<string>, ReadError>)
    ensures file.Unopenable? ==> r == Err(CannotOpen)
  {
    match file
    case Unopenable => Err(CannotOpen)
    case Lines(lines) => ScanFrom(cm, lines, 0, [])
  }

  /** `match_file_content`: reads the file line by line into a block buffer. */
  method MatchFileContent(file: FileData, cm: ContentMatcher) returns (r: Result<Option<string>, ReadError>)
    ensures r == ContentScan(file, cm)
  {
    if file.Unopenable? {
      return Err(CannotOpen);
    }
    var lines := file.lines;
    var block: seq<byte> := [];
    var i := 0;
    while true
      invariant i <= |lines|
      invariant ScanFrom(cm, lines, i, block) == ContentScan(file, cm)
      decreases |lines| - i
    {
      if i == |lines| {
        if block != [] {
          var profile := MatchContent(cm, block);
          if profile.Some? {
            return Ok(profile);
          }
        }
        return Ok(None);
      }
      var line := lines[i];
      if !Valid(line) {
        return Err(InvalidUtf8(i));
      }
      i := i + 1;
      block := block + line;
      if |block| >= ContentMatchBlockBytes {
        var profile := MatchContent(cm, block);
        if profile.Some? {
          return Ok(profile);
        }
        block := [];
      }
    }
  }

  // ----- the blocks a full scan tests -----

  /**
   * The blocks a scan that finds nothing tests, each as its run of lines,
   * when it reaches line `i` holding the lines `cur`.
   */
  function BlocksFrom(lines: seq<Line>, i: nat, cur: seq<Line>): seq<seq<Line>>
    requires i <= |lines|
    decreases |lines| - i
  {
    if i == |lines| then (if cur == [] then [] else [cur])
    else
      var c := cur + [lines[i]];
      if |Flatten(c)| >= ContentMatchBlockBytes then [c] + BlocksFrom(lines, i + 1, [])
      else BlocksFrom(lines, i + 1, c)
  }

  function Concat(bs: seq<seq<Line>>): seq<Line> {
    if bs == [] then [] else bs[0] + Concat(bs[1..])
  }

  /** Every line lies in exactly one tested block, and the blocks keep the file's order. */
  lemma {:induction false} BlocksCoverLines(lines: seq<Line>, i: nat, cur: seq<Line>)
    requires i <= |lines|
    ensures Concat(BlocksFrom(lines, i, cur)) == cur + lines[i..]
    decreases |lines| - i
  {
    if i == |lines| {
      if cur != [] {
        assert Concat([cur]) == cur + Concat([]);
      }
    } else {
      var c := cur + [lines[i]];
      assert lines[i..] == [lines[i]] + lines[i + 1..];
      BlocksCoverLines(lines, i + 1, if |Flatten(c)| >= ContentMatchBlockBytes then [] else c);
      if |Flatten(c)| >= ContentMatchBlockBytes {
        var bs := [c] + BlocksFrom(lines, i + 1, []);
        assert bs[1..] == BlocksFrom(lines, i + 1, []);
      }
    }
  }

  /** A block is a non-empty run of lines that was still under the threshold before its last line. */
  predicate TestedAsSoonAsFull(b: seq<Line>) {
    b != [] && |Flatten(b[..|b| - 1])| < ContentMatchBlockBytes
  }

  /**
   * The shape of the tested blocks: each is tested as soon as it reaches the
   * threshold, and every block but the last has reached it.
   */
  lemma {:induction false} BlocksShape(lines: seq<Line>, i: nat, cur: seq<Line>)
    requires i <= |lines|
    requires |Flatten(cur)| < ContentMatchBlockBytes
    ensures forall k :: 0 <= k < |BlocksFrom(lines, i, cur)| ==> TestedAsSoonAsFull(BlocksFrom(lines, i, cur)[k])
    ensures forall k :: 0 <= k < |BlocksFrom(lines, i, cur)| - 1 ==>
      |Flatten(BlocksFrom(lines, i, cur)[k])| >= ContentMatchBlockBytes
    decreases |lines| - i
  {
    var bs := BlocksFrom(lines, i, cur);
    if i < |lines| {
      var c := cur + [lines[i]];
      assert c[..|c| - 1] == cur;
      if |Flatten(c)| >= ContentMatchBlockBytes {
        BlocksShape(lines, i + 1, []);
        var rest := BlocksFrom(lines, i + 1, []);
        assert bs == [c] + rest;
        assert TestedAsSoonAsFull(c);
        forall k | 0 <= k < |bs|
          ensures TestedAsSoonAsFull(bs[k]) && (k < |bs| - 1 ==> |Flatten(bs[k])| >= ContentMatchBlockBytes)
        {
          if k > 0 {
            assert bs[k] == rest[k - 1];
          }
        }
      } else {
        BlocksShape(lines, i + 1, c);
      }
    } else if cur != [] {
      var n := |cur| - 1;
      assert cur == cur[..n] + [cur[n]];
      FlattenAppend(cur[..n], [cur[n]]);
      assert bs == [cur];
    }
  }

  /** The profile of the earliest block any content pattern matches. */
  function FirstBlockMatch(cm: ContentMatcher, bs: seq<seq<Line>>): Option<string> {
    if bs == [] then None
    else match MatchContent(cm, Flatten(bs[0]))
      case Some(p) => Some(p)
      case None => FirstBlockMatch(cm, bs[1..])
  }

  /**
   * On a file whose lines are all UTF-8, the scan answers with the profile
   * the earliest matching block selects, and nothing when no block matches.
   */
  lemma {:induction false} ScanIsFirstMatchingBlock(cm: ContentMatcher, lines: seq<Line>, i: nat, cur: seq<Line>)
    requires i <= |lines|
    requires forall j :: i <= j < |lines| ==> Valid(lines[j])
    ensures ScanFrom(cm, lines, i, Flatten(cur)) == Ok(FirstBlockMatch(cm, BlocksFrom(lines, i, cur)))
    decreases |lines| - i
  {
    FlattenEmpty(cur);
    if i < |lines| {
      var c := cur + [lines[i]];
      FlattenAppend(cur, [lines[i]]);
      assert Flatten([lines[i]]) == lines[i] + Flatten([]);
      assert Flatten(cur) + lines[i] == Flatten(c);
      if |Flatten(c)| >= ContentMatchBlockBytes {
        ScanIsFirstMatchingBlock(cm, lines, i + 1, []);
        var rest := BlocksFrom(lines, i + 1, []);
        assert BlocksFrom(lines, i, cur) == [c] + rest;
        assert ([c] + rest)[1..] == rest;
        assert ([c] + rest)[0] == c;
      } else {
        ScanIsFirstMatchingBlock(cm, lines, i + 1, c);
      }
    } else if cur != [] {
      assert [cur][1..] == [];
    }
  }

  /** Within one block, the pattern declared first wins when several match. */
  lemma DeclaredOrderWithinBlock(cm: ContentMatcher, block: seq<byte>, j: nat, k: nat)
    requires j < k < |cm.patterns|
    requires cm.patterns[j].matches(block) && cm.patterns[k].matches(block)
    requires forall l :: 0 <= l < j ==> !cm.patterns[l].matches(block)
    ensures MatchContent(cm, block) == Some(cm.patterns[j].profile)
  {
    FirstMatchWins(cm.patterns, block, j);
  }

  // ----- full resolution -----

  /**
   * `ProfileMatcher::resolve_config`: the path decides whether the file is
   * known at all; then, when content patterns are configured, a content match
   * anywhere in the file replaces the path's answer, and a file that cannot be
   * opened or read keeps it.
   */
  function ResolveConfig(m: ProfileMatcher, path: Path, cfg: MconfConfig, home: Option<Path>,
                         fs: Path -> FileData): (r: Result<Option<Resolution>, MatchError>)
    ensures MatchProfile(m, path).None? ==> r == Ok(None)
    ensures ResolveConfigByPath(m, path, cfg, home).Err? ==> r == ResolveConfigByPath(m, path, cfg, home)
    ensures m.content.None? ==> r == ResolveConfigByPath(m, path, cfg, home)
    ensures m.content.Some? && !ContentScan(fs(path), m.content.value).Ok? ==> r == ResolveConfigByPath(m, path, cfg, home)
    ensures m.content.Some? && ContentScan(fs(path), m.content.value) == Ok(None) ==>
      r == ResolveConfigByPath(m, path, cfg, home)
    ensures (ResolveConfigByPath(m, path, cfg, home).Ok? && MatchProfile(m, path).Some? && m.content.Some? &&
             ContentScan(fs(path), m.content.value).Ok? && ContentScan(fs(path), m.content.value).value.Some?) ==>
        var name := ContentScan(fs(path), m.content.value).value.value;
        if ResolveProfile(cfg, name, home).Some? then r == Ok(ResolveProfile(cfg, name, home))
        else r == Err(UndefinedInMatchContent(name))
  {
    match ResolveConfigByPath(m, path, cfg, home)
    case Err(e) => Err(e)
    case Ok(None) => Ok(None)
    case Ok(Some(byPath)) =>
      if m.content.None? then Ok(Some(byPath))
      else match ContentScan(fs(path), m.content.value)
        case Ok(Some(name)) =>
          (match ResolveProfile(cfg, name, home)
           case Some(res) => Ok(Some(res))
           case None => Err(UndefinedInMatchContent(name)))
        case _ => Ok(Some(byPath))
  }

  /** A file that no rule matches is skipped without its content being looked at. */
  lemma NoPathMatchIgnoresContent(m: ProfileMatcher, path: Path, cfg: MconfConfig, home: Option<Path>,
                                  fs1: Path -> FileData, fs2: Path -> FileData)
    requires MatchProfile(m, path).None?
    ensures ResolveConfig(m, path, cfg, home, fs1) == ResolveConfig(m, path, cfg, home, fs2) == Ok(None)
  {
  }

  /** A content match overrides the path's answer even when the path says `Ignore`. */
  lemma ContentMatchOverridesIgnore(m: ProfileMatcher, path: Path, cfg: MconfConfig, home: Option<Path>,
                                    fs: Path -> FileData, name: string, target: Path)
    requires ResolveConfigByPath(m, path, cfg, home) == Ok(Some(Ignore))
    requires m.content.Some? && ContentScan(fs(path), m.content.value) == Ok(Some(name))
    requires name in cfg.profiles && cfg.profiles[name] == Json.Str(target)
    ensures ResolveConfig(m, path, cfg, home, fs) == Ok(Some(ConfigPath(ExpandTilde(target, home))))
  {
  }

  /** A UTF-8 file none of whose tested blocks matches any pattern gives no content verdict. */
  lemma NoMatchingBlockGivesNone(cm: ContentMatcher, lines: seq<Line>)
    requires forall j :: 0 <= j < |lines| ==> Valid(lines[j])
    requires forall b :: b in BlocksFrom(lines, 0, []) ==> MatchContent(cm, Flatten(b)).None?
    ensures ScanFrom(cm, lines, 0, []) == Ok(None)
  {
    ScanIsFirstMatchingBlock(cm, lines, 0, []);
    NoBlockMatches(cm, BlocksFrom(lines, 0, []));
  }

  lemma {:induction false} NoBlockMatches(cm: ContentMatcher, bs: seq<seq<Line>>)
    requires forall b :: b in bs ==> MatchContent(cm, Flatten(b)).None?
    ensures FirstBlockMatch(cm, bs) == None
  {
    if bs != [] {
      assert bs[0] in bs;
      assert forall b :: b in bs[1..] ==> b in bs;
      NoBlockMatches(cm, bs[1..]);
    }
  }
}
