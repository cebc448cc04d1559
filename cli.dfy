/**
 * The command line of `dprintx`: `--config` is taken out wherever it
 * stands, the first remaining argument names the subcommand, and
 * everything this tool does not handle itself is passed to `dprint`
 * unchanged.
 */
module CommandLine {
  import opened Wrappers
  import opened Bytes

  datatype Command =
    | Fmt(stdin: Option<string>, files: seq<string>)
    | Check(files: seq<string>)
    | Config(file: Option<string>)
    | OutputFilePaths
    | Lsp
    | Passthrough(args: seq<string>)

  /** A parsed command line: the `--config` override and the command. */
  datatype Cli = Cli(config: Option<string>, command: Command)

  const ConfigFlag := "--config"
  const ConfigAssign := "--config="
  const StdinFlag := "--stdin"

  /** The subcommands handled here; any other name is passed through. */
  const Subcommands: set<string> := {"fmt", "check", "config", "output-file-paths", "lsp"}

  predicate IsHelp(a: string) {
    a == "-h" || a == "--help"
  }

  /** The later of two settings of one option, when there is one. */
  function Latest(earlier: Option<string>, later: Option<string>): Option<string> {
    if later.Some? then later else earlier
  }

  // ---------------------------------------------------------------------
  // `--config`
  // ---------------------------------------------------------------------

  /** The `--config` value and the arguments left once it is taken out. */
  datatype Extracted = Extracted(config: Option<string>, rest: seq<string>)

  /**
   * The reference reading of `--config`, from the front: `--config v` and
   * `--config=v` are removed and set the value, later settings winning; a
   * `--config` with nothing after it stays an ordinary argument.
   */
  function Extract(args: seq<string>): (e: Extracted)
    ensures |e.rest| <= |args|
    ensures forall k :: 0 <= k < |e.rest| ==> !HasPrefix(e.rest[k], ConfigAssign)
    ensures forall k :: 0 <= k < |e.rest| && e.rest[k] == ConfigFlag ==>
      k == |e.rest| - 1 && args[|args| - 1] == ConfigFlag
    decreases |args|
  {
    if args == [] then Extracted(None, [])
    else if args[0] == ConfigFlag && |args| > 1 then
      var e := Extract(args[2..]);
      Extracted(Latest(Some(args[1]), e.config), e.rest)
    else if HasPrefix(args[0], ConfigAssign) then
      var e := Extract(args[1..]);
      Extracted(Latest(Some(args[0][|ConfigAssign|..]), e.config), e.rest)
    else
      var e := Extract(args[1..]);
      Extracted(e.config, [args[0]] + e.rest)
  }

  /** What the scan still has to find, added to what it has already found. */
  function ResumeExtract(config: Option<string>, rest: seq<string>, e: Extracted): Extracted {
    Extracted(Latest(config, e.config), rest + e.rest)
  }

  /** The arguments do not end in a `--config` still waiting for its value. */
  predicate Closed(args: seq<string>) {
    var rest := Extract(args).rest;
    rest == [] || rest[|rest| - 1] != ConfigFlag
  }

  /** Without any `--config`, nothing is taken out and no override is set. */
  lemma {:induction false} ExtractPlain(args: seq<string>)
    requires forall k :: 0 <= k < |args| ==> args[k] != ConfigFlag && !HasPrefix(args[k], ConfigAssign)
    ensures Extract(args) == Extracted(None, args)
    decreases |args|
  {
    if args != [] {
      ExtractPlain(args[1..]);
    }
  }

  /**
   * Taking `--config` out of two pieces of a command line one after the
   * other is the same as taking it out of the whole, as long as the first
   * piece does not end in a `--config` that would take its value from the
   * second: the arguments keep their order and the later setting wins.
   */
  lemma {:induction false} ExtractAppend(a: seq<string>, b: seq<string>)
    requires Closed(a)
    ensures Extract(a + b) == ResumeExtract(Extract(a).config, Extract(a).rest, Extract(b))
    decreases |a|
  {
    if a == [] {
      assert a + b == b;
    } else if a[0] == ConfigFlag && |a| > 1 {
      assert (a + b)[2..] == a[2..] + b;
      assert Extract(a).rest == Extract(a[2..]).rest;
      ExtractAppend(a[2..], b);
    } else if HasPrefix(a[0], ConfigAssign) {
      assert (a + b)[1..] == a[1..] + b;
      assert Extract(a).rest == Extract(a[1..]).rest;
      ExtractAppend(a[1..], b);
    } else {
      assert (a + b)[1..] == a[1..] + b;
      var r := Extract(a[1..]).rest;
      assert Extract(a).rest == [a[0]] + r;
      assert r != [] ==> r[|r| - 1] == Extract(a).rest[|Extract(a).rest| - 1];
      ExtractAppend(a[1..], b);
      ConcatAssoc([a[0]], Extract(a[1..]).rest, Extract(b).rest);
    }
  }

  /** The last `--config` wins, whichever of its two spellings it uses. */
  lemma LastConfigWins(a: seq<string>, v: string)
    requires Closed(a)
    ensures Extract(a + [ConfigAssign + v]) == Extracted(Some(v), Extract(a).rest)
    ensures Extract(a + [ConfigFlag, v]) == Extracted(Some(v), Extract(a).rest)
  {
    var assign := [ConfigAssign + v];
    assert HasPrefix(ConfigAssign + v, ConfigAssign);
    assert (ConfigAssign + v)[|ConfigAssign|..] == v;
    assert Extract(assign) == Extracted(Some(v), []);
    ExtractAppend(a, assign);
    var spaced := [ConfigFlag, v];
    assert spaced[2..] == [];
    assert Extract(spaced) == Extracted(Some(v), []);
    ExtractAppend(a, spaced);
  }

  /** A `--config` at the very end has no value and stays an ordinary argument. */
  lemma TrailingConfigKept(a: seq<string>)
    requires Closed(a)
    ensures Extract(a + [ConfigFlag]) == Extracted(Extract(a).config, Extract(a).rest + [ConfigFlag])
  {
    assert !HasPrefix(ConfigFlag, ConfigAssign);
    assert Extract([ConfigFlag]) == Extracted(None, [ConfigFlag]);
    ExtractAppend(a, [ConfigFlag]);
  }

  // ---------------------------------------------------------------------
  // `fmt`
  // ---------------------------------------------------------------------

  /** What a scan of the arguments of `fmt` finds. */
  datatype FmtArgs = FmtArgs(stdin: Option<string>, files: seq<string>, help: bool)

  predicate IsFmtFlag(a: string) {
    a == StdinFlag || IsHelp(a)
  }

  /**
   * The reference reading of the arguments of `fmt`, from the front:
   * `--stdin X` names the file read from standard input (the later one
   * wins), a `--stdin` with nothing after it is dropped, a help flag stops
   * the scan, and anything else is a file.
   */
  function ScanFmt(args: seq<string>): (r: FmtArgs)
    ensures |r.files| <= |args|
    ensures forall k :: 0 <= k < |r.files| ==> !IsFmtFlag(r.files[k])
    decreases |args|
  {
    if args == [] then FmtArgs(None, [], false)
    else if args[0] == StdinFlag then
      if |args| > 1 then
        var r := ScanFmt(args[2..]);
        FmtArgs(Latest(Some(args[1]), r.stdin), r.files, r.help)
      else FmtArgs(None, [], false)
    else if IsHelp(args[0]) then FmtArgs(None, [], true)
    else
      var r := ScanFmt(args[1..]);
      FmtArgs(r.stdin, [args[0]] + r.files, r.help)
  }

  function ResumeFmt(stdin: Option<string>, files: seq<string>, r: FmtArgs): FmtArgs {
    FmtArgs(Latest(stdin, r.stdin), files + r.files, r.help)
  }

  /** The command `fmt` with these arguments stands for. */
  function FmtOf(args: seq<string>): Command {
    var r := ScanFmt(args);
    if r.help then Passthrough(["fmt"] + args) else Fmt(r.stdin, r.files)
  }

  /** Without flags, every argument of `fmt` is a file, in order. */
  lemma {:induction false} FmtPlain(args: seq<string>)
    requires forall k :: 0 <= k < |args| ==> !IsFmtFlag(args[k])
    ensures ScanFmt(args) == FmtArgs(None, args, false)
    ensures FmtOf(args) == Fmt(None, args)
    decreases |args|
  {
    if args != [] {
      FmtPlain(args[1..]);
    }
  }

  /** Without `--stdin`, a help flag anywhere hands all of `fmt` to `dprint`. */
  lemma {:induction false} FmtHelp(args: seq<string>, j: nat)
    requires j < |args| && IsHelp(args[j])
    requires forall k :: 0 <= k < |args| ==> args[k] != StdinFlag
    ensures ScanFmt(args).help
    ensures FmtOf(args) == Passthrough(["fmt"] + args)
    decreases |args|
  {
    if !IsHelp(args[0]) {
      FmtHelp(args[1..], j - 1);
    }
  }

  /**
   * `--stdin X` in front of plain files names X and leaves the files; a
   * `--stdin` after them, with no value, is dropped.
   */
  lemma FmtStdin(x: string, files: seq<string>)
    requires forall k :: 0 <= k < |files| ==> !IsFmtFlag(files[k])
    ensures FmtOf([StdinFlag, x] + files) == Fmt(Some(x), files)
    ensures FmtOf(files + [StdinFlag]) == Fmt(None, files)
  {
    FmtPlain(files);
    assert ([StdinFlag, x] + files)[2..] == files;
    TrailingStdinDropped(files);
  }

  lemma {:induction false} TrailingStdinDropped(files: seq<string>)
    requires forall k :: 0 <= k < |files| ==> !IsFmtFlag(files[k])
    ensures ScanFmt(files + [StdinFlag]) == FmtArgs(None, files, false)
    decreases |files|
  {
    if files == [] {
      assert files + [StdinFlag] == [StdinFlag];
    } else {
      assert (files + [StdinFlag])[1..] == files[1..] + [StdinFlag];
      TrailingStdinDropped(files[1..]);
    }
  }

  /** `parse_fmt`: one pass over the arguments of `fmt`. */
  method ParseFmt(args: seq<string>) returns (command: Command)
    ensures command == FmtOf(args)
  {
    var stdin: Option<string> := None;
    var files: seq<string> := [];
    var i := 0;
    while i < |args|
      invariant i <= |args|
      invariant ResumeFmt(stdin, files, ScanFmt(args[i..])) == ScanFmt(args)
      decreases |args| - i
    {
      if args[i] == StdinFlag {
        if i + 1 < |args| {
          assert args[i..][2..] == args[i + 2..];
          stdin := Some(args[i + 1]);
          i := i + 2;
          continue;
        }
      } else if IsHelp(args[i]) {
        return Passthrough(["fmt"] + args);
      } else {
        assert args[i..][1..] == args[i + 1..];
        ConcatAssoc(files, [args[i]], ScanFmt(args[i + 1..]).files);
        files := files + [args[i]];
      }
      i := i + 1;
    }
    assert files + [] == files;
    command := Fmt(stdin, files);
  }

  // ---------------------------------------------------------------------
  // `check`
  // ---------------------------------------------------------------------

  /** The command `check` with these arguments stands for. */
  function CheckOf(args: seq<string>): Command {
    if exists k :: 0 <= k < |args| && IsHelp(args[k]) then Passthrough(["check"] + args)
    else Check(args)
  }

  /**
   * `parse_check`: every argument of `check` is a file, in order, unless
   * one of them asks for help, in which case all of `check` is handed on.
   */
  method ParseCheck(args: seq<string>) returns (command: Command)
    ensures (exists k :: 0 <= k < |args| && IsHelp(args[k])) ==> command == Passthrough(["check"] + args)
    ensures (forall k :: 0 <= k < |args| ==> !IsHelp(args[k])) ==> command == Check(args)
  {
    var files: seq<string> := [];
    for i := 0 to |args|
      invariant files == args[..i]
      invariant forall k :: 0 <= k < i ==> !IsHelp(args[k])
    {
      if IsHelp(args[i]) {
        return Passthrough(["check"] + args);
      }
      TakeSnoc(args, i);
      files := files + [args[i]];
    }
    assert args[..|args|] == args;
    command := Check(files);
  }

  // ---------------------------------------------------------------------
  // The whole command line
  // ---------------------------------------------------------------------

  /**
   * `parse_from`: `--config` comes out first, then the first remaining
   * argument picks the subcommand; none at all, or one not handled here,
   * passes the remaining arguments to `dprint`.
   */
  method ParseFrom(args: seq<string>) returns (cli: Cli)
    ensures cli.config == Extract(args).config
    ensures Extract(args).rest == [] ==> cli.command == Passthrough([])
    ensures var rest := Extract(args).rest;
      rest != [] && rest[0] == "fmt" ==> cli.command == FmtOf(rest[1..])
    ensures var rest := Extract(args).rest;
      rest != [] && rest[0] == "check" ==> cli.command == CheckOf(rest[1..])
    ensures var rest := Extract(args).rest;
      rest != [] && rest[0] == "config" ==> cli.command == Config(if |rest| > 1 then Some(rest[1]) else None)
    ensures var rest := Extract(args).rest;
      rest != [] && rest[0] == "output-file-paths" ==> cli.command == OutputFilePaths
    ensures var rest := Extract(args).rest;
      rest != [] && rest[0] == "lsp" ==> cli.command == Lsp
    ensures var rest := Extract(args).rest;
      rest != [] && rest[0] !in Subcommands ==> cli.command == Passthrough(rest)
  {
    var config: Option<string> := None;
    var rest: seq<string> := [];
    var i := 0;
    while i < |args|
      invariant i <= |args|
      invariant ResumeExtract(config, rest, Extract(args[i..])) == Extract(args)
      decreases |args| - i
    {
      if args[i] == ConfigFlag {
        if i + 1 < |args| {
          assert args[i..][2..] == args[i + 2..];
          config := Some(args[i + 1]);
          i := i + 2;
          continue;
        }
      } else if HasPrefix(args[i], ConfigAssign) {
        assert args[i..][1..] == args[i + 1..];
        config := Some(args[i][|ConfigAssign|..]);
        i := i + 1;
        continue;
      }
      assert args[i..][1..] == args[i + 1..];
      ConcatAssoc(rest, [args[i]], Extract(args[i + 1..]).rest);
      rest := rest + [args[i]];
      i := i + 1;
    }
    assert rest + [] == rest;
    if rest == [] {
      return Cli(config, Passthrough(rest));
    }
    var subcommand, subArgs := rest[0], rest[1..];
    var command;
    if subcommand == "fmt" {
      command := ParseFmt(subArgs);
    } else if subcommand == "check" {
      command := ParseCheck(subArgs);
    } else if subcommand == "config" {
      command := Config(if subArgs != [] then Some(subArgs[0]) else None);
    } else if subcommand == "output-file-paths" {
      command := OutputFilePaths;
    } else if subcommand == "lsp" {
      command := Lsp;
    } else {
      command := Passthrough(rest);
    }
    cli := Cli(config, command);
  }
}
