/**
 * The routing configuration (`MconfConfig` in src/config.rs) after it has been
 * parsed, and the small lookups the matcher and the proxy make on it: tilde
 * expansion, a profile's config path, and the ordered match rules.
 *
 * The home directory (`dirs::home_dir()`) is a parameter: `None` when it
 * cannot be determined.
 */
module Config {
  import opened Wrappers
  import opened Bytes
  import opened Json

  type Path = string

  /** What a profile name resolves to: a config file, or "skip this file". */
  datatype Resolution = ConfigPath(path: Path) | Ignore

  /**
   * The parsed routing configuration. `profiles` maps a profile name to its
   * JSON value (a path string, or null for "ignore"); `matchRules` keeps the
   * glob rules in the order the file declares them.
   */
  datatype MconfConfig = MconfConfig(
    dprint: string,
    profiles: map<string, Value>,
    matchRules: seq<(string, Value)>,
    diffPager: Option<string>)

  /**
   * `Path::join` on Unix (`PathBuf::push`): an absolute `rest` replaces the
   * base; otherwise a `/` is inserted unless the base is empty or already
   * ends with one.
   */
  function Join(base: Path, rest: Path): (r: Path)
    ensures HasPrefix(rest, "/") ==> r == rest
    ensures !HasPrefix(rest, "/") ==> HasPrefix(r, base) && |rest| <= |r| && r[|r| - |rest|..] == rest
    ensures !HasPrefix(rest, "/") && base != [] && base[|base| - 1] != '/' ==> r == base + "/" + rest
  {
    if HasPrefix(rest, "/") then rest
    else if base == [] || base[|base| - 1] == '/' then base + rest
    else base + "/" + rest
  }

  /**
   * `expand_tilde`: a leading `~/` is replaced by the home directory joined
   * with the rest of the path; anything else, or a missing home directory,
   * leaves the path as it is.
   */
  function ExpandTilde(path: Path, home: Option<Path>): (r: Path)
    ensures !HasPrefix(path, "~/") || home.None? ==> r == path
    ensures HasPrefix(path, "~/") && home.Some? ==> r == Join(home.value, path[2..])
  {
    if HasPrefix(path, "~/") && home.Some? then Join(home.value, path[2..]) else path
  }

  /** A path of the form `~/rest` with a relative rest and a home directory becomes `home/rest`. */
  lemma ExpandTildeUnderHome(rest: Path, home: Path)
    requires !HasPrefix(rest, "/") && home != [] && home[|home| - 1] != '/'
    ensures ExpandTilde("~/" + rest, Some(home)) == home + "/" + rest
  {
    assert HasPrefix("~/" + rest, "~/");
    assert ("~/" + rest)[2..] == rest;
  }

  /** A bare `~` is not expanded: only the `~/` prefix is. */
  lemma BareTildeUnchanged(home: Option<Path>)
    ensures ExpandTilde("~", home) == "~"
  {
  }

  /** `MconfConfig::profile_config_path`: the expanded path of a profile whose value is a string. */
  function ProfileConfigPath(cfg: MconfConfig, name: string, home: Option<Path>): (r: Option<Path>)
    ensures r.Some? <==> name in cfg.profiles && cfg.profiles[name].Str?
    ensures r.Some? ==> r.value == ExpandTilde(cfg.profiles[name].s, home)
  {
    if name in cfg.profiles && cfg.profiles[name].Str? then
      Some(ExpandTilde(cfg.profiles[name].s, home))
    else None
  }

  /**
   * The profile lookup the matcher uses (`resolve_profile`): a string value is
   * a config path, `null` means "ignore", and a name that is absent (or bound
   * to any other kind of value) resolves to nothing.
   */
  function ResolveProfile(cfg: MconfConfig, name: string, home: Option<Path>): (r: Option<Resolution>)
    ensures r.Some? <==> name in cfg.profiles && (cfg.profiles[name].Str? || cfg.profiles[name].Null?)
    ensures r == Some(Ignore) <==> name in cfg.profiles && cfg.profiles[name].Null?
    ensures r.Some? && r.value.ConfigPath? ==> Some(r.value.path) == ProfileConfigPath(cfg, name, home)
  {
    if name !in cfg.profiles then None
    else match cfg.profiles[name]
      case Str(s) => Some(ConfigPath(ExpandTilde(s, home)))
      case Null => Some(Ignore)
      case _ => None
  }

  /**
   * `match_rules_iter` over a list of rules: the (pattern, profile) pairs whose
   * profile is a string, in declared order.
   */
  function StringRules(rules: seq<(string, Value)>): (r: seq<(string, string)>)
    ensures |r| <= |rules|
    ensures forall i :: 0 <= i < |r| ==> (r[i].0, Str(r[i].1)) in rules
    ensures forall i :: 0 <= i < |rules| && rules[i].1.Str? ==> (rules[i].0, rules[i].1.s) in r
  {
    if rules == [] then []
    else
      var tail := StringRules(rules[1..]);
      assert forall i :: 1 <= i < |rules| ==> rules[i] == rules[1..][i - 1];
      match rules[0].1
      case Str(p) => [(rules[0].0, p)] + tail
      case _ => tail
  }

  function MatchRulesIter(cfg: MconfConfig): seq<(string, string)> {
    StringRules(cfg.matchRules)
  }

  /** Filtering keeps the declared order: the rules of a concatenation come out concatenated. */
  lemma {:induction false} StringRulesAppend(a: seq<(string, Value)>, b: seq<(string, Value)>)
    ensures StringRules(a + b) == StringRules(a) + StringRules(b)
  {
    if a == [] {
      assert a + b == b;
    } else {
      assert (a + b)[1..] == a[1..] + b;
      StringRulesAppend(a[1..], b);
    }
  }
}
