/**
 * The pure pieces of the LSP proxy's dispatch (src/lsp.rs): the JSON messages
 * it builds, the `rootUri`/`rootPath` override a backend's `initialize`
 * receives, the configs the `initialize` handler spawns backends for, and the
 * rule by which a backend's queued output is read (`read_from_backend`).
 */
module Messages {
  import opened Wrappers
  import opened Bytes
  import opened Json
  import opened Config

  // ----- messages the proxy writes -----

  /** `json!(id)` for an `Option<Value>`: a missing id is written as `null`. */
  function IdOrNull(id: Option<Value>): (r: Value)
    ensures id.Some? ==> r == id.value
    ensures id.None? ==> r == Null
  {
    if id.Some? then id.value else Null
  }

  /** `{"jsonrpc": "2.0", "id": id, "result": null}`. */
  function NullResponse(id: Value): (r: Value)
    ensures Get(r, "id") == Some(id) && Get(r, "result") == Some(Null)
    ensures GetStr(r, "method") == None
  {
    var r := Object([("jsonrpc", Str("2.0")), ("id", id), ("result", Null)]);
    IndexOfAt(r.members, "id", 1);
    IndexOfAt(r.members, "result", 2);
    IndexOfAt(r.members, "method", 3);
    r
  }

  /** `{"jsonrpc": "2.0", "id": id, "method": "initialize", "params": params}`. */
  function InitializeRequest(id: Value, params: Value): (r: Value)
    ensures Get(r, "id") == Some(id) && Get(r, "params") == Some(params)
    ensures GetStr(r, "method") == Some("initialize")
  {
    var r := Object([("jsonrpc", Str("2.0")), ("id", id), ("method", Str("initialize")), ("params", params)]);
    IndexOfAt(r.members, "id", 1);
    IndexOfAt(r.members, "method", 2);
    IndexOfAt(r.members, "params", 3);
    r
  }

  /** `{"jsonrpc": "2.0", "method": "initialized", "params": {}}`: a notification, so no id. */
  function InitializedNotification(): (r: Value)
    ensures GetStr(r, "method") == Some("initialized") && Get(r, "id") == None
  {
    var r := Object([("jsonrpc", Str("2.0")), ("method", Str("initialized")), ("params", Object([]))]);
    IndexOfAt(r.members, "method", 1);
    IndexOfAt(r.members, "id", 3);
    r
  }

  /**
   * `init_params["rootUri"] = "file://<dir>"; init_params["rootPath"] = "<dir>"`
   * when the config path has a parent directory. Assigning a key into JSON
   * that is neither an object nor `null` panics in serde_json: `None`.
   */
  function RootedParams(params: Value, dir: Option<Path>): (r: Option<Value>)
    ensures dir.None? ==> r == Some(params)
    ensures dir.Some? ==> (r.Some? <==> params.Null? || params.Object?)
    ensures dir.Some? && r.Some? ==>
      Get(r.value, "rootUri") == Some(Str("file://" + dir.value)) &&
      Get(r.value, "rootPath") == Some(Str(dir.value))
  {
    if dir.None? then Some(params)
    else match SetMember(params, "rootUri", Str("file://" + dir.value))
      case None => None
      case Some(p) => SetMember(p, "rootPath", Str(dir.value))
  }

  /** Every other member of the editor's params reaches the backend unchanged. */
  lemma RootedParamsKeepsOthers(params: Value, dir: Option<Path>, k: string)
    requires RootedParams(params, dir).Some? && k != "rootUri" && k != "rootPath"
    ensures Get(RootedParams(params, dir).value, k) == Get(params, k)
  {
  }

  // ----- read_from_backend over a queue -----

  /** Why reading a backend's response failed. */
  datatype ReadFailure =
    | NotFound   // no backend is registered under that path
    | TimedOut   // the queue holds no further message: `recv_timeout` gives up
    | NotJson    // the message taken from the queue is not JSON

  /** The outcome of draining a backend's queue: the answer, what was forwarded, and what is left. */
  datatype Drained = Drained(result: Result<seq<byte>, ReadFailure>, forwarded: seq<seq<byte>>, rest: seq<seq<byte>>)

  /** A message that is JSON and carries an `id`: a response. */
  predicate IsResponse(parse: seq<byte> -> Option<Value>, m: seq<byte>) {
    parse(m).Some? && Get(parse(m).value, "id").Some?
  }

  /** A message that is JSON without an `id`: a notification. */
  predicate IsNotification(parse: seq<byte> -> Option<Value>, m: seq<byte>) {
    parse(m).Some? && Get(parse(m).value, "id").None?
  }

  /**
   * The loop of `read_from_backend`: messages are taken off the queue in
   * order; notifications are forwarded to the editor, the first response is
   * returned, and a message that does not parse ends the read with an error.
   */
  function Drain(parse: seq<byte> -> Option<Value>, q: seq<seq<byte>>): (d: Drained)
    ensures |d.forwarded| <= |q|
  {
    if q == [] then Drained(Err(TimedOut), [], [])
    else if parse(q[0]).None? then Drained(Err(NotJson), [], q[1..])
    else if Get(parse(q[0]).value, "id").Some? then Drained(Ok(q[0]), [], q[1..])
    else
      var d := Drain(parse, q[1..]);
      Drained(d.result, [q[0]] + d.forwarded, d.rest)
  }

  /** A drain forwards notifications only. */
  lemma {:induction false} DrainForwardsNotifications(parse: seq<byte> -> Option<Value>, q: seq<seq<byte>>)
    ensures forall k :: 0 <= k < |Drain(parse, q).forwarded| ==> IsNotification(parse, Drain(parse, q).forwarded[k])
    decreases |q|
  {
    if q != [] && parse(q[0]).Some? && Get(parse(q[0]).value, "id").None? {
      DrainForwardsNotifications(parse, q[1..]);
      var d, fwd := Drain(parse, q[1..]), Drain(parse, q).forwarded;
      assert fwd == [q[0]] + d.forwarded;
      forall k | 0 <= k < |fwd|
        ensures IsNotification(parse, fwd[k])
      {
        if k > 0 {
          assert fwd[k] == d.forwarded[k - 1];
        }
      }
    }
  }

  /** A drain that answers splits the queue into the forwarded notifications, the response, and the rest. */
  lemma {:induction false} DrainAnswered(parse: seq<byte> -> Option<Value>, q: seq<seq<byte>>)
    ensures var d := Drain(parse, q);
      d.result.Ok? ==> q == d.forwarded + [d.result.value] + d.rest && IsResponse(parse, d.result.value)
  {
    if q != [] && parse(q[0]).Some? && Get(parse(q[0]).value, "id").None? {
      DrainAnswered(parse, q[1..]);
      var d := Drain(parse, q[1..]);
      if d.result.Ok? {
        ConcatAssoc([q[0]], d.forwarded, [d.result.value]);
        ConcatAssoc([q[0]], d.forwarded + [d.result.value], d.rest);
        assert q == [q[0]] + q[1..];
      }
    } else if q != [] {
      assert q == [q[0]] + q[1..];
    }
  }

  /** A drain that times out forwarded the whole queue. */
  lemma {:induction false} DrainTimedOut(parse: seq<byte> -> Option<Value>, q: seq<seq<byte>>)
    ensures var d := Drain(parse, q);
      d.result == Err(TimedOut) ==> q == d.forwarded && d.rest == []
  {
    if q != [] && parse(q[0]).Some? && Get(parse(q[0]).value, "id").None? {
      DrainTimedOut(parse, q[1..]);
      assert q == [q[0]] + q[1..];
    }
  }

  /** A drain that stops at a message that is not JSON consumed that message. */
  lemma {:induction false} DrainNotJson(parse: seq<byte> -> Option<Value>, q: seq<seq<byte>>)
    ensures var d := Drain(parse, q);
      d.result == Err(NotJson) ==>
        |d.forwarded| < |q| && q == d.forwarded + [q[|d.forwarded|]] + d.rest && parse(q[|d.forwarded|]).None?
  {
    if q != [] && parse(q[0]).Some? && Get(parse(q[0]).value, "id").None? {
      DrainNotJson(parse, q[1..]);
      var d := Drain(parse, q[1..]);
      if d.result == Err(NotJson) {
        var m := q[1..][|d.forwarded|];
        assert m == q[|d.forwarded| + 1];
        ConcatAssoc([q[0]], d.forwarded, [m]);
        ConcatAssoc([q[0]], d.forwarded + [m], d.rest);
        assert q == [q[0]] + q[1..];
      }
    } else if q != [] {
      assert q == [q[0]] + q[1..];
    }
  }

  /**
   * What a drain did: it forwarded notifications only, and then either
   * returned the next message, a response, or stopped at a message that is not
   * JSON, or found the queue empty.
   */
  lemma DrainShape(parse: seq<byte> -> Option<Value>, q: seq<seq<byte>>)
    ensures forall k :: 0 <= k < |Drain(parse, q).forwarded| ==> IsNotification(parse, Drain(parse, q).forwarded[k])
    ensures var d := Drain(parse, q);
      (d.result.Ok? ==> q == d.forwarded + [d.result.value] + d.rest && IsResponse(parse, d.result.value)) &&
      (d.result == Err(TimedOut) ==> q == d.forwarded && d.rest == []) &&
      (d.result == Err(NotJson) ==>
        |d.forwarded| < |q| && q == d.forwarded + [q[|d.forwarded|]] + d.rest && parse(q[|d.forwarded|]).None?) &&
      d.result != Err(NotFound)
  {
    DrainForwardsNotifications(parse, q);
    DrainAnswered(parse, q);
    DrainTimedOut(parse, q);
    DrainNotJson(parse, q);
  }

  /**
   * The first response in a queue is the one returned, whatever follows it,
   * and every notification before it is forwarded, in arrival order.
   */
  lemma {:induction false} FirstResponseWins(parse: seq<byte> -> Option<Value>, notes: seq<seq<byte>>,
                                             m: seq<byte>, later: seq<seq<byte>>)
    requires forall k :: 0 <= k < |notes| ==> IsNotification(parse, notes[k])
    requires IsResponse(parse, m)
    ensures Drain(parse, notes + [m] + later) == Drained(Ok(m), notes, later)
  {
    if notes == [] {
      assert [m] + later == notes + [m] + later;
      assert (notes + [m] + later)[1..] == later;
    } else {
      assert (notes + [m] + later)[1..] == notes[1..] + [m] + later;
      FirstResponseWins(parse, notes[1..], m, later);
    }
  }

  /** A queue of notifications only is forwarded whole, and the read times out. */
  lemma {:induction false} OnlyNotificationsTimeOut(parse: seq<byte> -> Option<Value>, notes: seq<seq<byte>>)
    requires forall k :: 0 <= k < |notes| ==> IsNotification(parse, notes[k])
    ensures Drain(parse, notes) == Drained(Err(TimedOut), notes, [])
  {
    if notes != [] {
      OnlyNotificationsTimeOut(parse, notes[1..]);
    }
  }

  // ----- the configs `initialize` spawns backends for -----

  /**
   * The loop of the `initialize` handler over `match_rules_iter`: a profile
   * name is taken the first time it is seen (and marked seen even when it has
   * no config path), and its config path, when the profile is a string, is
   * collected with it.
   */
  function Collect(rules: seq<(string, string)>, seen: set<string>, cfg: MconfConfig, home: Option<Path>)
    : (r: seq<(string, Path)>)
    ensures forall k :: 0 <= k < |r| ==> r[k].0 !in seen && ProfileConfigPath(cfg, r[k].0, home) == Some(r[k].1)
  {
    if rules == [] then []
    else
      var name := rules[0].1;
      if name in seen then Collect(rules[1..], seen, cfg, home)
      else
        var tail := Collect(rules[1..], seen + {name}, cfg, home);
        match ProfileConfigPath(cfg, name, home)
        case Some(p) => [(name, p)] + tail
        case None => tail
  }

  predicate DistinctNames(r: seq<(string, Path)>) {
    forall i, j :: 0 <= i < j < |r| ==> r[i].0 != r[j].0
  }

  /** No profile name is collected twice. */
  lemma {:induction false} CollectDistinct(rules: seq<(string, string)>, seen: set<string>, cfg: MconfConfig, home: Option<Path>)
    ensures DistinctNames(Collect(rules, seen, cfg, home))
  {
    if rules != [] {
      var name := rules[0].1;
      if name in seen {
        assert Collect(rules, seen, cfg, home) == Collect(rules[1..], seen, cfg, home);
        CollectDistinct(rules[1..], seen, cfg, home);
      } else {
        var tail := Collect(rules[1..], seen + {name}, cfg, home);
        CollectDistinct(rules[1..], seen + {name}, cfg, home);
        assert forall k :: 0 <= k < |tail| ==> tail[k].0 != name;
      }
    }
  }

  /** The profile names of the rules, in declared order. */
  function ProfileNames(rules: seq<(string, string)>): (r: seq<string>)
    ensures |r| == |rules|
  {
    if rules == [] then [] else [rules[0].1] + ProfileNames(rules[1..])
  }

  /** Every collected name is the profile of some rule. */
  lemma {:induction false} CollectSound(rules: seq<(string, string)>, seen: set<string>, cfg: MconfConfig, home: Option<Path>)
    ensures forall e :: e in Collect(rules, seen, cfg, home) ==> e.0 in ProfileNames(rules)
  {
    if rules != [] {
      var name := rules[0].1;
      var seen' := if name in seen then seen else seen + {name};
      CollectSound(rules[1..], seen', cfg, home);
      var t := Collect(rules[1..], seen', cfg, home);
      assert ProfileNames(rules) == [name] + ProfileNames(rules[1..]);
    }
  }

  /** Every profile that has a config path and was not seen before is collected. */
  lemma {:induction false} CollectComplete(rules: seq<(string, string)>, seen: set<string>, cfg: MconfConfig,
                                           home: Option<Path>, i: nat)
    requires i < |rules| && rules[i].1 !in seen && ProfileConfigPath(cfg, rules[i].1, home).Some?
    ensures (rules[i].1, ProfileConfigPath(cfg, rules[i].1, home).value) in Collect(rules, seen, cfg, home)
  {
    var name := rules[0].1;
    if i > 0 {
      if name in seen {
        CollectComplete(rules[1..], seen, cfg, home, i - 1);
      } else if name != rules[i].1 {
        CollectComplete(rules[1..], seen + {name}, cfg, home, i - 1);
      }
    }
  }

  /** The position of the first rule naming profile `name`, or `|rules|` when none does. */
  function FirstNaming(rules: seq<(string, string)>, name: string): (k: nat)
    ensures k <= |rules| && (k < |rules| ==> rules[k].1 == name)
    ensures forall j :: 0 <= j < k ==> rules[j].1 != name
  {
    if rules == [] then 0 else if rules[0].1 == name then 0 else 1 + FirstNaming(rules[1..], name)
  }

  /** Every profile of `r` is named by some rule, and in `r` they follow the order the rules first name them. */
  predicate InFirstNamedOrder(rules: seq<(string, string)>, r: seq<(string, Path)>) {
    (forall k :: 0 <= k < |r| ==> FirstNaming(rules, r[k].0) < |rules|) &&
    forall k, l :: 0 <= k < l < |r| ==> FirstNaming(rules, r[k].0) < FirstNaming(rules, r[l].0)
  }

  /**
   * Profiles are collected in the order the rules first name them: of two
   * collected profiles, the earlier one is first named by an earlier rule.
   */
  lemma {:induction false} CollectOrder(rules: seq<(string, string)>, seen: set<string>, cfg: MconfConfig,
                                        home: Option<Path>)
    ensures InFirstNamedOrder(rules, Collect(rules, seen, cfg, home))
  {
    if rules != [] {
      var name := rules[0].1;
      var seen' := if name in seen then seen else seen + {name};
      CollectOrder(rules[1..], seen', cfg, home);
      var t := Collect(rules[1..], seen', cfg, home);
      var r := Collect(rules, seen, cfg, home);
      OrderBehind(rules, t);
      if name !in seen && ProfileConfigPath(cfg, name, home).Some? {
        assert r == [(name, ProfileConfigPath(cfg, name, home).value)] + t;
        OrderFront(rules, ProfileConfigPath(cfg, name, home).value, t);
      } else {
        assert r == t;
      }
    }
  }

  /** Collected behind the first rule, under names other than the first rule's, the order carries over. */
  lemma OrderBehind(rules: seq<(string, string)>, t: seq<(string, Path)>)
    requires rules != [] && InFirstNamedOrder(rules[1..], t)
    requires forall k :: 0 <= k < |t| ==> t[k].0 != rules[0].1
    ensures InFirstNamedOrder(rules, t)
  {
    forall k | 0 <= k < |t|
      ensures FirstNaming(rules, t[k].0) == 1 + FirstNaming(rules[1..], t[k].0)
    {
    }
  }

  /** The first rule's profile, collected in front, comes first in the order too. */
  lemma OrderFront(rules: seq<(string, string)>, p: Path, t: seq<(string, Path)>)
    requires rules != [] && InFirstNamedOrder(rules, t)
    requires forall k :: 0 <= k < |t| ==> t[k].0 != rules[0].1
    ensures InFirstNamedOrder(rules, [(rules[0].1, p)] + t)
  {
    var r := [(rules[0].1, p)] + t;
    forall k, l | 0 <= k < l < |r|
      ensures FirstNaming(rules, r[k].0) < FirstNaming(rules, r[l].0)
    {
      assert r[l] == t[l - 1];
      if k > 0 {
        assert r[k] == t[k - 1];
      }
    }
  }

  /** The config paths of the collected (profile, path) pairs, in order. */
  function ConfigPaths(r: seq<(string, Path)>): (ps: seq<Path>)
    ensures |ps| == |r| && forall k :: 0 <= k < |r| ==> ps[k] == r[k].1
  {
    seq(|r|, k requires 0 <= k < |r| => r[k].1)
  }

  /** One rule of the collecting loop: its profile is taken when not seen yet and marked seen either way. */
  lemma CollectStep(rules: seq<(string, string)>, i: nat, seen: set<string>, cfg: MconfConfig, home: Option<Path>)
    requires i < |rules|
    ensures var name := rules[i].1;
      Collect(rules[i..], seen, cfg, home) ==
        (if name !in seen && ProfileConfigPath(cfg, name, home).Some?
         then [(name, ProfileConfigPath(cfg, name, home).value)] else [])
        + Collect(rules[i + 1..], seen + {name}, cfg, home)
  {
    assert rules[i..][1..] == rules[i + 1..];
    var name := rules[i].1;
    if name in seen {
      assert seen + {name} == seen;
    }
  }
}
