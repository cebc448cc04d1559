/**
 * The LSP proxy of src/lsp.rs (`LspProxy`): it reads framed messages from
 * the editor, routes each to the `dprint lsp` backend of the file's profile,
 * and writes the backends' answers back to the editor.
 *
 * The state `run` keeps across messages is a class: the registry of running
 * backends by config path, the `initialize` params kept for backends spawned
 * later, the merged-config files kept alive, and the bytes written to the
 * editor. A backend is its stdin (the bytes the proxy wrote to it) and the
 * queue of messages it has produced and the proxy has not read yet.
 *
 * The outside world is an `Env` of functions: JSON parsing and printing
 * (serde_json), `Path::parent`, the config merger (`build_merged_config`),
 * process spawning, the files the content matcher reads, and the home
 * directory. A spawned backend's queue is everything that backend will ever
 * write; reading never waits, so "timed out" is "no message left".
 */
module Proxy {
  import opened Wrappers
  import opened Bytes
  import opened Json
  import opened Config
  import Matcher
  import opened Codec
  import opened Uri
  import opened Messages

  /** A running `dprint lsp --config <path>`: its stdin so far and its unread output. */
  datatype Backend = Backend(stdin: seq<byte>, responses: seq<seq<byte>>)

  /** `build_merged_config(dir, profile)`: a merged temporary config, none needed, or an error (logged). */
  datatype MergeResult = Merged(path: Path) | NoLocalConfig | MergeFailed

  datatype Env = Env(
    parse: seq<byte> -> Option<Value>,
    serialize: Value -> seq<byte>,
    parent: Path -> Option<Path>,
    merge: (Path, Path) -> MergeResult,
    spawn: Path -> Option<seq<seq<byte>>>,
    files: Path -> Matcher.FileData,
    home: Option<Path>)

  /**
   * How `run` ends: end of input (or a message that cannot be read), the
   * panic of allocating a body longer than `isize::MAX`, an `exit` message,
   * or an error that escapes the loop.
   */
  datatype Outcome = InputEnded | BodyTooLarge | Exited | SpawnFailed(path: Path) | Panicked

  /** The two ways the reading side of `run` ends it. */
  predicate ReadEnded(o: Outcome) {
    o == InputEnded || o == BodyTooLarge
  }


  /** A backend after one more message was written to its stdin. */
  function Sent(b: Backend, body: seq<byte>): (r: Backend)
    ensures r.responses == b.responses && r.stdin == b.stdin + Frame(body)
  {
    b.(stdin := b.stdin + Frame(body))
  }

  /** A drain that had already forwarded `fwd` before it reached the rest of the queue. */
  function Resume(fwd: seq<seq<byte>>, d: Drained): (r: Drained)
    ensures r.result == d.result && r.rest == d.rest && r.forwarded == fwd + d.forwarded
  {
    Drained(d.result, fwd + d.forwarded, d.rest)
  }

  /** One step of a drain: the message at the head of the queue decides. */
  lemma DrainCons(parse: seq<byte> -> Option<Value>, m: seq<byte>, q: seq<seq<byte>>)
    ensures Drain(parse, [m] + q) ==
      if parse(m).None? then Drained(Err(NotJson), [], q)
      else if Get(parse(m).value, "id").Some? then Drained(Ok(m), [], q)
      else Resume([m], Drain(parse, q))
  {
    assert ([m] + q)[1..] == q;
  }

  lemma ResumeTwice(fwd: seq<seq<byte>>, m: seq<byte>, d: Drained)
    ensures Resume(fwd, Resume([m], d)) == Resume(fwd + [m], d)
  {
    assert fwd + ([m] + d.forwarded) == (fwd + [m]) + d.forwarded;
  }

  predicate Distinct<T(==)>(s: seq<T>) {
    forall i, j :: 0 <= i < j < |s| ==> s[i] != s[j]
  }

  /** Every message is a notification. */
  predicate Notifications(parse: seq<byte> -> Option<Value>, msgs: seq<seq<byte>>) {
    forall k :: 0 <= k < |msgs| ==> IsNotification(parse, msgs[k])
  }

  lemma {:induction false} NotificationsAppend(parse: seq<byte> -> Option<Value>, a: seq<seq<byte>>, b: seq<seq<byte>>)
    requires Notifications(parse, a) && Notifications(parse, b)
    ensures Notifications(parse, a + b)
  {
    assert forall k :: 0 <= k < |a + b| ==> (a + b)[k] == if k < |a| then a[k] else b[k - |a|];
  }

  /** What a drain forwards are notifications, and what it returns is a response. */
  lemma DrainReply(parse: seq<byte> -> Option<Value>, q: seq<seq<byte>>)
    ensures Notifications(parse, Drain(parse, q).forwarded)
    ensures Drain(parse, q).result.Ok? ==> IsResponse(parse, Drain(parse, q).result.value)
  {
    DrainShape(parse, q);
  }

  /**
   * What the editor receives for a request: the notifications forwarded while
   * waiting, then one reply, which is a backend's response or `fallback`.
   */
  predicate Answered(parse: seq<byte> -> Option<Value>, added: seq<seq<byte>>, fallback: seq<byte>) {
    added != [] && Notifications(parse, added[..|added| - 1]) &&
    (IsResponse(parse, added[|added| - 1]) || added[|added| - 1] == fallback)
  }

  /**
   * What the editor receives for a request answered from a backend whose
   * queue is `q`: the notifications `read_from_backend` forwards, then the
   * response it returns, or `fallback` when it fails.
   */
  function AnswerFrom(parse: seq<byte> -> Option<Value>, q: seq<seq<byte>>, fallback: seq<byte>): (r: seq<seq<byte>>)
    ensures Answered(parse, r, fallback)
  {
    DrainReply(parse, q);
    var d := Drain(parse, q);
    assert (d.forwarded + [if d.result.Ok? then d.result.value else fallback])[..|d.forwarded|] == d.forwarded;
    d.forwarded + [if d.result.Ok? then d.result.value else fallback]
  }

  /** A response queued behind notifications is the reply, and the notifications reach the editor first. */
  lemma AnswerFromResponse(parse: seq<byte> -> Option<Value>, notes: seq<seq<byte>>, m: seq<byte>,
                           later: seq<seq<byte>>, fallback: seq<byte>)
    requires Notifications(parse, notes) && IsResponse(parse, m)
    ensures AnswerFrom(parse, notes + [m] + later, fallback) == notes + [m]
  {
    FirstResponseWins(parse, notes, m, later);
  }

  /** A queue of notifications only is forwarded whole, and the reply is `fallback`. */
  lemma AnswerFromTimeout(parse: seq<byte> -> Option<Value>, notes: seq<seq<byte>>, fallback: seq<byte>)
    requires Notifications(parse, notes)
    ensures AnswerFrom(parse, notes, fallback) == notes + [fallback]
  {
    OnlyNotificationsTimeOut(parse, notes);
  }

  /** The null result a request gets when no backend answers it. */
  function Fallback(env: Env, id: Value): seq<byte> {
    env.serialize(NullResponse(id))
  }

  /** A backend after `read_from_backend` took what it read off its queue. */
  function AfterRead(parse: seq<byte> -> Option<Value>, b: Backend): (r: Backend)
    ensures r.stdin == b.stdin
  {
    b.(responses := Drain(parse, b.responses).rest)
  }

  /** A request answered and dropped, then a notification: what a handshake leaves in the registry. */
  lemma HandshakeWrites(parse: seq<byte> -> Option<Value>, bs: map<Path, Backend>, path: Path,
                        request: seq<byte>, note: seq<byte>)
    requires path in bs && bs[path].stdin == []
    ensures var mid := bs[path := AfterRead(parse, Sent(bs[path], request))];
      mid[path := Sent(mid[path], note)]
      == bs[path := Backend(Frame(request) + Frame(note), Drain(parse, bs[path].responses).rest)]
  {
    assert [] + Frame(request) == Frame(request);
  }

  /** Every backend of `bs` after `body` was written to its stdin. */
  function SentAll(bs: map<Path, Backend>, body: seq<byte>): (r: map<Path, Backend>)
    ensures r.Keys == bs.Keys
    ensures forall p :: p in r ==> r[p].stdin == bs[p].stdin + Frame(body) && r[p].responses == bs[p].responses
  {
    map p | p in bs :: Sent(bs[p], body)
  }

  /** Every backend of `bs` after `body` was written to it and its answer was read and dropped. */
  function SentAndRead(parse: seq<byte> -> Option<Value>, bs: map<Path, Backend>, body: seq<byte>): (r: map<Path, Backend>)
    ensures r.Keys == bs.Keys
    ensures forall p :: p in r ==>
      r[p].stdin == bs[p].stdin + Frame(body) && r[p].responses == Drain(parse, bs[p].responses).rest
  {
    map p | p in bs :: AfterRead(parse, Sent(bs[p], body))
  }

  /** `order` names every backend of `bs` once: one pass over the map. */
  ghost predicate Covers(order: seq<Path>, bs: map<Path, Backend>) {
    Distinct(order) && forall p :: p in order <==> p in bs
  }

  /** The notifications read off the queues of the backends at `order`, one backend after another. */
  function ForwardedAll(parse: seq<byte> -> Option<Value>, bs: map<Path, Backend>, order: seq<Path>): (r: seq<seq<byte>>)
    requires forall p :: p in order ==> p in bs
    ensures Notifications(parse, r)
    decreases |order|
  {
    if order == [] then []
    else
      var last := order[|order| - 1];
      var before := ForwardedAll(parse, bs, order[..|order| - 1]);
      DrainReply(parse, bs[last].responses);
      NotificationsAppend(parse, before, Drain(parse, bs[last].responses).forwarded);
      before + Drain(parse, bs[last].responses).forwarded
  }

  /**
   * The registry partway through sending `body` to every backend and
   * dropping its answer: the backends at `order` are done, those in `rest`
   * are not, and `fwd` is what was forwarded so far.
   */
  ghost predicate DropState(parse: seq<byte> -> Option<Value>, start: map<Path, Backend>, now: map<Path, Backend>,
                            rest: set<Path>, order: seq<Path>, fwd: seq<seq<byte>>, body: seq<byte>) {
    rest <= now.Keys && now.Keys == start.Keys &&
    (forall p :: p in now ==> now[p] == if p in rest then start[p] else AfterRead(parse, Sent(start[p], body))) &&
    Distinct(order) && (forall p :: p in order <==> p in start && p !in rest) &&
    fwd == ForwardedAll(parse, start, order)
  }

  lemma DropStep(parse: seq<byte> -> Option<Value>, start: map<Path, Backend>, now: map<Path, Backend>,
                 after: map<Path, Backend>, rest: set<Path>, order: seq<Path>, fwd: seq<seq<byte>>, body: seq<byte>,
                 path: Path, f: seq<seq<byte>>)
    requires DropState(parse, start, now, rest, order, fwd, body) && path in rest
    requires after == now[path := AfterRead(parse, Sent(now[path], body))]
    requires f == Drain(parse, now[path].responses).forwarded
    ensures DropState(parse, start, after, rest - {path}, order + [path], fwd + f, body)
  {
    assert (order + [path])[..|order|] == order;
  }

  lemma DropDone(parse: seq<byte> -> Option<Value>, start: map<Path, Backend>, now: map<Path, Backend>,
                 order: seq<Path>, fwd: seq<seq<byte>>, body: seq<byte>)
    requires DropState(parse, start, now, {}, order, fwd, body)
    ensures now == SentAndRead(parse, start, body) && Covers(order, start)
  {
  }

  /**
   * The registry and the editor's replies after `shutdown`: every backend was
   * sent it and its answer read and dropped, in some order of the map; the
   * notifications met on the way, then a null result with the request's id.
   */
  ghost predicate ShutDown(env: Env, before: map<Path, Backend>, after: map<Path, Backend>, msg: Value,
                           added: seq<seq<byte>>) {
    after == SentAndRead(env.parse, before, env.serialize(msg)) &&
    exists order :: Covers(order, before) &&
      added == ForwardedAll(env.parse, before, order) + [Fallback(env, IdOrNull(Get(msg, "id")))]
  }

  /** After `shutdown` the editor gets notifications only, then the null result. */
  lemma ShutDownReplies(env: Env, before: map<Path, Backend>, after: map<Path, Backend>, msg: Value,
                        added: seq<seq<byte>>)
    requires ShutDown(env, before, after, msg, added)
    ensures added != [] && added[|added| - 1] == Fallback(env, IdOrNull(Get(msg, "id")))
    ensures Notifications(env.parse, added[..|added| - 1])
  {
    var order :| Covers(order, before) &&
      added == ForwardedAll(env.parse, before, order) + [Fallback(env, IdOrNull(Get(msg, "id")))];
    assert added[..|added| - 1] == ForwardedAll(env.parse, before, order);
  }

  /**
   * The registry and the editor's replies after a message of any other
   * method: every backend was sent it; a request is answered from one backend
   * (the first of the map's order), and nothing is answered without an id or
   * without a backend.
   */
  ghost predicate OtherDone(env: Env, before: map<Path, Backend>, after: map<Path, Backend>, msg: Value,
                            added: seq<seq<byte>>) {
    var sent := SentAll(before, env.serialize(msg));
    if Get(msg, "id").None? || |before| == 0 then after == sent && added == []
    else
      exists p :: p in before && after == sent[p := AfterRead(env.parse, sent[p])] &&
        added == AnswerFrom(env.parse, before[p].responses, Fallback(env, Get(msg, "id").value))
  }

  /**
   * What a lazily spawned backend is sent before the routed message: nothing
   * when no `initialize` was seen; otherwise an `initialize` with id 1 and the
   * kept params rooted at the config's directory, then `initialized`. `None`
   * when rooting the params panics.
   */
  function Handshake(env: Env, init: Option<Value>, path: Path): (r: Option<seq<byte>>)
    ensures init.None? ==> r == Some([])
    ensures init.Some? ==> (r.Some? <==> RootedParams(init.value, env.parent(path)).Some?)
    ensures init.Some? && r.Some? ==>
      r.value == Frame(env.serialize(InitializeRequest(Number(1), RootedParams(init.value, env.parent(path)).value)))
                 + Frame(env.serialize(InitializedNotification()))
  {
    if init.None? then Some([])
    else match RootedParams(init.value, env.parent(path))
      case None => None
      case Some(params) =>
        Some(Frame(env.serialize(InitializeRequest(Number(1), params))) + Frame(env.serialize(InitializedNotification())))
  }

  /**
   * A backend just spawned for `path` once it got the handshake: with an
   * `initialize` seen, the answer to the backend's own `initialize` was read
   * off its queue.
   */
  function Fresh(env: Env, init: Option<Value>, path: Path): (r: Backend)
    requires env.spawn(path).Some? && Handshake(env, init, path).Some?
    ensures r.stdin == Handshake(env, init, path).value
    ensures init.None? ==> r.responses == env.spawn(path).value
    ensures init.Some? ==> r.responses == Drain(env.parse, env.spawn(path).value).rest
  {
    var q := env.spawn(path).value;
    Backend(Handshake(env, init, path).value, if init.Some? then Drain(env.parse, q).rest else q)
  }

  /** The notifications a fresh backend for `path` forwards while its handshake's answer is read. */
  function Greeting(env: Env, init: Option<Value>, path: Path): (r: seq<seq<byte>>)
    requires env.spawn(path).Some?
    ensures Notifications(env.parse, r)
  {
    DrainReply(env.parse, env.spawn(path).value);
    if init.Some? then Drain(env.parse, env.spawn(path).value).forwarded else []
  }

  /**
   * The registry once a backend runs for `path`: the one that was there, or
   * a fresh one given the handshake; every other backend is as it was.
   */
  predicate Ready(env: Env, before: map<Path, Backend>, after: map<Path, Backend>, init: Option<Value>, path: Path) {
    if path in before then after == before
    else env.spawn(path).Some? && Handshake(env, init, path).Some? && after == before[path := Fresh(env, init, path)]
  }

  lemma FreshAfterSpawn(env: Env, before: map<Path, Backend>, spawned: map<Path, Backend>, after: map<Path, Backend>,
                        init: Option<Value>, path: Path)
    requires path !in before && env.spawn(path).Some? && Handshake(env, init, path).Some?
    requires spawned == before[path := Backend([], env.spawn(path).value)]
    requires init.None? ==> after == spawned
    requires init.Some? ==> after == spawned[path := Backend(Handshake(env, init, path).value,
                                                             Drain(env.parse, spawned[path].responses).rest)]
    ensures Ready(env, before, after, init, path)
  {
    assert after == before[path := Fresh(env, init, path)];
  }

  /** Why bringing up a backend for `path` stopped the proxy: spawning failed, or rooting the params panicked. */
  predicate SpawnHalted(env: Env, before: map<Path, Backend>, init: Option<Value>, path: Path, o: Outcome) {
    path !in before &&
    ((o == SpawnFailed(path) && env.spawn(path).None?) ||
     (o == Panicked && env.spawn(path).Some? && Handshake(env, init, path).None?))
  }

  /** A backend after the routed message was written to it and, for a request, its answer read. */
  function Delivered(env: Env, b: Backend, msg: Value): (r: Backend)
    ensures r.stdin == b.stdin + Frame(env.serialize(msg))
    ensures Get(msg, "id").None? ==> r.responses == b.responses
    ensures Get(msg, "id").Some? ==> r.responses == Drain(env.parse, b.responses).rest
  {
    var s := Sent(b, env.serialize(msg));
    if Get(msg, "id").Some? then AfterRead(env.parse, s) else s
  }

  /** What the editor receives for the routed message: a request's answer from `b`, nothing for a notification. */
  function Replies(env: Env, b: Backend, msg: Value): (r: seq<seq<byte>>)
    ensures Get(msg, "id").None? ==> r == []
    ensures Get(msg, "id").Some? ==> Answered(env.parse, r, Fallback(env, Get(msg, "id").value))
  {
    if Get(msg, "id").Some? then AnswerFrom(env.parse, b.responses, Fallback(env, Get(msg, "id").value)) else []
  }

  /** Writing `msg` to the backend and then reading its answer is delivering it. */
  lemma DeliverWrites(env: Env, bs: map<Path, Backend>, path: Path, msg: Value)
    requires path in bs && Get(msg, "id").Some?
    ensures var mid := bs[path := Sent(bs[path], env.serialize(msg))];
      mid[path := AfterRead(env.parse, mid[path])] == bs[path := Delivered(env, bs[path], msg)] &&
      AnswerFrom(env.parse, mid[path].responses, Fallback(env, Get(msg, "id").value)) == Replies(env, bs[path], msg)
  {
  }

  /**
   * The registry and the editor's replies after a document message went to
   * the backend for `path`: the running one, or a freshly spawned one given
   * the handshake, was sent the message and, for a request, its answer read.
   * Failing to spawn, or a panic while rooting the params, stops the proxy.
   */
  predicate Forwarded(env: Env, before: map<Path, Backend>, after: map<Path, Backend>, init: Option<Value>,
                      path: Path, msg: Value, halt: Option<Outcome>, added: seq<seq<byte>>) {
    if path in before then
      halt.None? && after == before[path := Delivered(env, before[path], msg)] && added == Replies(env, before[path], msg)
    else if env.spawn(path).None? then
      halt == Some(SpawnFailed(path)) && after == before && added == []
    else if Handshake(env, init, path).None? then
      halt == Some(Panicked) && added == []
    else
      halt.None? && after == before[path := Delivered(env, Fresh(env, init, path), msg)] &&
      added == Greeting(env, init, path) + Replies(env, Fresh(env, init, path), msg)
  }

  lemma HaltedForwarded(env: Env, before: map<Path, Backend>, after: map<Path, Backend>, init: Option<Value>,
                        path: Path, msg: Value, o: Outcome)
    requires SpawnHalted(env, before, init, path, o) && (o == SpawnFailed(path) ==> after == before)
    ensures Forwarded(env, before, after, init, path, msg, Some(o), [])
  {
  }

  lemma ReadyThenDelivered(env: Env, before: map<Path, Backend>, mid: map<Path, Backend>, after: map<Path, Backend>,
                           init: Option<Value>, path: Path, msg: Value, greeting: seq<seq<byte>>, more: seq<seq<byte>>)
    requires Ready(env, before, mid, init, path)
    requires greeting == if path in before then [] else Greeting(env, init, path)
    requires after == mid[path := Delivered(env, mid[path], msg)] && more == Replies(env, mid[path], msg)
    ensures Forwarded(env, before, after, init, path, msg, None, greeting + more)
  {
    if path in before {
      assert greeting + more == more;
      RunningDelivered(env, before, after, init, path, msg, more);
    } else {
      SpawnedDelivered(env, before, after, init, path, msg, more);
    }
  }

  lemma RunningDelivered(env: Env, bs: map<Path, Backend>, after: map<Path, Backend>,
                         init: Option<Value>, path: Path, msg: Value, more: seq<seq<byte>>)
    requires path in bs && after == bs[path := Delivered(env, bs[path], msg)] && more == Replies(env, bs[path], msg)
    ensures Forwarded(env, bs, after, init, path, msg, None, more)
  {
  }

  lemma SpawnedDelivered(env: Env, before: map<Path, Backend>, after: map<Path, Backend>,
                         init: Option<Value>, path: Path, msg: Value, more: seq<seq<byte>>)
    requires path !in before && env.spawn(path).Some? && Handshake(env, init, path).Some?
    requires after == before[path := Fresh(env, init, path)][path := Delivered(env, Fresh(env, init, path), msg)]
    requires more == Replies(env, Fresh(env, init, path), msg)
    ensures Forwarded(env, before, after, init, path, msg, None, Greeting(env, init, path) + more)
  {
    assert after == before[path := Delivered(env, Fresh(env, init, path), msg)];
  }

  lemma AnsweredAfter(parse: seq<byte> -> Option<Value>, a: seq<seq<byte>>, b: seq<seq<byte>>, fallback: seq<byte>)
    requires Notifications(parse, a) && Answered(parse, b, fallback)
    ensures Answered(parse, a + b, fallback)
  {
    assert (a + b)[..|a + b| - 1] == a + b[..|b| - 1];
    NotificationsAppend(parse, a, b[..|b| - 1]);
  }

  /** Forwarding stops the proxy only when a backend could not be brought up; otherwise the backend is registered. */
  lemma ForwardedHalts(env: Env, before: map<Path, Backend>, after: map<Path, Backend>, init: Option<Value>,
                       path: Path, msg: Value, halt: Option<Outcome>, added: seq<seq<byte>>)
    requires Forwarded(env, before, after, init, path, msg, halt, added)
    ensures halt.Some? ==> SpawnHalted(env, before, init, path, halt.value)
    ensures halt.None? ==> path in after && after.Keys == before.Keys + {path}
  {
  }

  /** A forwarded notification sends the editor notifications only; a forwarded request, one reply after them. */
  lemma ForwardedReplies(env: Env, before: map<Path, Backend>, after: map<Path, Backend>, init: Option<Value>,
                         path: Path, msg: Value, halt: Option<Outcome>, added: seq<seq<byte>>)
    requires Forwarded(env, before, after, init, path, msg, halt, added) && halt.None?
    ensures Get(msg, "id").None? ==> Notifications(env.parse, added)
    ensures Get(msg, "id").Some? ==> Answered(env.parse, added, Fallback(env, Get(msg, "id").value))
  {
    if path !in before {
      var g, r := Greeting(env, init, path), Replies(env, Fresh(env, init, path), msg);
      if Get(msg, "id").Some? {
        AnsweredAfter(env.parse, g, r, Fallback(env, Get(msg, "id").value));
      } else {
        assert g + r == g;
      }
    }
  }

  /** Where a message whose method starts with `textDocument/` goes. */
  datatype Route =
    | NoUri                                // no `params.textDocument.uri`: dropped
    | Unresolved                           // no profile config for the file
    | Routed(file: Path, profile: Path)    // the file and its profile's config

  function RouteOf(m: Matcher.ProfileMatcher, cfg: MconfConfig, env: Env, msg: Value): (r: Route)
    ensures r == NoUri <==> ExtractUri(msg).None?
    ensures ExtractUri(msg).Some? ==>
      var file := UriToPath(ExtractUri(msg).value);
      var res := Matcher.ResolveConfig(m, file, cfg, env.home, env.files);
      (r.Routed? <==> res.Ok? && res.value.Some? && res.value.value.ConfigPath?) &&
      (r.Routed? ==> r.file == file && res == Ok(Some(ConfigPath(r.profile))))
  {
    match ExtractUri(msg)
    case None => NoUri
    case Some(uri) =>
      var file := UriToPath(uri);
      match Matcher.ResolveConfig(m, file, cfg, env.home, env.files)
      case Ok(Some(ConfigPath(p))) => Routed(file, p)
      case _ => Unresolved
  }

  /** `build_merged_config(file.parent(), profile)`; a file without a parent needs no merge. */
  function MergeFor(env: Env, file: Path, profile: Path): (r: MergeResult)
    ensures env.parent(file).None? ==> r == NoLocalConfig
    ensures env.parent(file).Some? ==> r == env.merge(env.parent(file).value, profile)
  {
    if env.parent(file).Some? then env.merge(env.parent(file).value, profile) else NoLocalConfig
  }

  /** The config the backend is keyed by: the merged config when one was built, else the profile's. */
  function EffectiveConfig(merge: MergeResult, profile: Path): (r: Path)
    ensures merge.Merged? ==> r == merge.path
    ensures !merge.Merged? ==> r == profile
  {
    if merge.Merged? then merge.path else profile
  }

  /** What `run` keeps across messages: the registry, the kept `initialize` params and the merged configs. */
  datatype ProxyState = ProxyState(backends: map<Path, Backend>, init: Option<Value>, guards: seq<Path>)

  /**
   * The proxy's state and the editor's replies after a document message: a
   * message without a URI is dropped; one whose file resolves to no config is
   * dropped, or answered with a null result when it is a request; otherwise
   * it is forwarded to the backend of its effective config, and a merged
   * config is kept alive.
   */
  predicate Document(env: Env, m: Matcher.ProfileMatcher, cfg: MconfConfig, before: ProxyState, after: ProxyState,
                     msg: Value, halt: Option<Outcome>, added: seq<seq<byte>>) {
    match RouteOf(m, cfg, env, msg)
    case NoUri => halt.None? && added == [] && after == before
    case Unresolved =>
      halt.None? && after == before &&
      added == if Get(msg, "id").Some? then [Fallback(env, Get(msg, "id").value)] else []
    case Routed(file, profile) =>
      var merge := MergeFor(env, file, profile);
      after.init == before.init &&
      after.guards == before.guards + (if merge.Merged? then [merge.path] else []) &&
      Forwarded(env, before.backends, after.backends, before.init, EffectiveConfig(merge, profile), msg, halt, added)
  }

  /**
   * The answer a freshly spawned backend for `path` gives to `initialize`:
   * its first response, when reading one succeeds.
   */
  function FreshAnswer(env: Env, path: Path): (r: Option<seq<byte>>)
    ensures r.Some? ==> env.spawn(path).Some? && IsResponse(env.parse, r.value)
  {
    if env.spawn(path).None? then None
    else
      DrainReply(env.parse, env.spawn(path).value);
      var d := Drain(env.parse, env.spawn(path).value);
      if d.result.Ok? then Some(d.result.value) else None
  }

  /** The reply `initialize` gives the editor: the answer of the first backend, in order, that gave one. */
  function FirstAnswer(env: Env, paths: seq<Path>): (r: Option<seq<byte>>)
    ensures r.Some? ==> IsResponse(env.parse, r.value)
    ensures r.Some? <==> exists k :: 0 <= k < |paths| && FreshAnswer(env, paths[k]).Some?
  {
    if paths == [] then None
    else if FreshAnswer(env, paths[0]).Some? then FreshAnswer(env, paths[0])
    else
      assert forall k :: 1 <= k < |paths| ==> paths[k] == paths[1..][k - 1];
      FirstAnswer(env, paths[1..])
  }

  lemma {:induction false} FirstAnswerAppend(env: Env, paths: seq<Path>, p: Path)
    ensures FirstAnswer(env, paths + [p]) ==
      if FirstAnswer(env, paths).Some? then FirstAnswer(env, paths) else FreshAnswer(env, p)
  {
    if paths == [] {
      assert [] + [p] == [p];
    } else {
      assert (paths + [p])[1..] == paths[1..] + [p];
      FirstAnswerAppend(env, paths[1..], p);
    }
  }

  /** The notifications a freshly spawned backend for `path` forwards while its `initialize` answer is read. */
  function FreshForwarded(env: Env, path: Path): (r: seq<seq<byte>>)
    ensures Notifications(env.parse, r)
  {
    if env.spawn(path).None? then []
    else
      DrainReply(env.parse, env.spawn(path).value);
      Drain(env.parse, env.spawn(path).value).forwarded
  }

  /** The notifications the `initialize` handler forwards to the editor, config by config. */
  function InitForwarded(env: Env, paths: seq<Path>): (r: seq<seq<byte>>)
    ensures Notifications(env.parse, r)
    decreases |paths|
  {
    if paths == [] then []
    else
      var before := InitForwarded(env, paths[..|paths| - 1]);
      NotificationsAppend(env.parse, before, FreshForwarded(env, paths[|paths| - 1]));
      before + FreshForwarded(env, paths[|paths| - 1])
  }

  lemma InitForwardedSnoc(env: Env, paths: seq<Path>, i: nat)
    requires i < |paths|
    ensures InitForwarded(env, paths[..i + 1]) == InitForwarded(env, paths[..i]) + FreshForwarded(env, paths[i])
  {
    assert paths[..i + 1][..i] == paths[..i];
  }

  /** The `params` every backend's `initialize` carries: the editor's, or `{}`, rooted at the config's directory. */
  function InitParams(env: Env, params: Option<Value>, path: Path): Option<Value> {
    RootedParams(if params.Some? then params.value else Object([]), env.parent(path))
  }

  /**
   * The backend for `path` was freshly spawned, sent the editor's
   * `initialize` rooted at the config's directory and nothing else, and its
   * answer was read off its queue.
   */
  predicate InitSent(env: Env, backends: map<Path, Backend>, id: Value, params: Option<Value>, path: Path) {
    path in backends && InitParams(env, params, path).Some? && env.spawn(path).Some? &&
    backends[path] == Backend(Frame(env.serialize(InitializeRequest(id, InitParams(env, params, path).value))),
                              Drain(env.parse, env.spawn(path).value).rest)
  }

  /**
   * The registry while the `initialize` handler works through its configs:
   * those `done` so far are registered and were sent `initialize`, every
   * other backend is as it was.
   */
  ghost predicate InitState(env: Env, before: map<Path, Backend>, after: map<Path, Backend>, done: seq<Path>,
                      id: Value, params: Option<Value>) {
    (forall p :: p in after <==> p in before || p in done) &&
    (forall p :: p in before && p !in done ==> after[p] == before[p]) &&
    (forall k :: 0 <= k < |done| ==> InitSent(env, after, id, params, done[k]))
  }

  /** The configs the `initialize` handler is done with were all spawned and their params rooted. */
  lemma InitStateDone(env: Env, before: map<Path, Backend>, after: map<Path, Backend>, paths: seq<Path>, i: nat,
                      id: Value, params: Option<Value>)
    requires i <= |paths| && InitState(env, before, after, paths[..i], id, params)
    ensures forall j :: 0 <= j < i ==> env.spawn(paths[j]).Some? && InitParams(env, params, paths[j]).Some?
  {
    forall j | 0 <= j < i
      ensures env.spawn(paths[j]).Some? && InitParams(env, params, paths[j]).Some?
    {
      assert paths[..i][j] == paths[j];
      assert InitSent(env, after, id, params, paths[..i][j]);
    }
  }

  lemma InitStateStep(env: Env, before: map<Path, Backend>, mid: map<Path, Backend>, after: map<Path, Backend>,
                      done: seq<Path>, path: Path, id: Value, params: Option<Value>)
    requires InitState(env, before, mid, done, id, params)
    requires after.Keys == mid.Keys + {path} && InitSent(env, after, id, params, path)
    requires forall p :: p in mid && p != path ==> after[p] == mid[p]
    ensures InitState(env, before, after, done + [path], id, params)
  {
    forall k | 0 <= k < |done + [path]|
      ensures InitSent(env, after, id, params, (done + [path])[k])
    {
      if k < |done| {
        var p := done[k];
        assert InitSent(env, mid, id, params, p);
        if p != path {
          assert after[p] == mid[p];
        }
      }
    }
  }

  /** Why the `initialize` handler stopped at `path`: spawning failed, or rooting the params panicked. */
  predicate InitHalted(env: Env, params: Option<Value>, path: Path, o: Outcome) {
    (o == SpawnFailed(path) && env.spawn(path).None?) ||
    (o == Panicked && env.spawn(path).Some? && InitParams(env, params, path).None?)
  }
  /**
   * The `initialize` handler stopped with `o` at `paths[k]`, the first config
   * it could not bring up: every earlier one was spawned and its params rooted.
   */
  predicate InitStoppedAt(env: Env, params: Option<Value>, paths: seq<Path>, k: int, o: Outcome) {
    0 <= k < |paths| && InitHalted(env, params, paths[k], o) &&
    forall j :: 0 <= j < k ==> env.spawn(paths[j]).Some? && InitParams(env, params, paths[j]).Some?
  }

  /** Where and why the `initialize` handler stops is determined by the configs alone. */
  lemma {:induction false} InitStoppedUnique(env: Env, params: Option<Value>, paths: seq<Path>,
                                             k: int, o: Outcome, k': int, o': Outcome)
    requires InitStoppedAt(env, params, paths, k, o) && InitStoppedAt(env, params, paths, k', o')
    ensures k == k' && o == o'
  {
  }

  /** The `initialize` handler stopped with `o`, and the editor got what the configs before the failing one forwarded. */
  ghost predicate InitStopped(env: Env, params: Option<Value>, paths: seq<Path>, o: Outcome, added: seq<seq<byte>>) {
    exists k :: InitStoppedAt(env, params, paths, k, o) && added == InitForwarded(env, paths[..k])
  }

  /** The `initialize` handler's loop after its first `i` configs. */
  ghost predicate InitSoFar(env: Env, before: map<Path, Backend>, after: map<Path, Backend>, paths: seq<Path>, i: nat,
                            id: Value, params: Option<Value>, first: Option<seq<byte>>, added: seq<seq<byte>>) {
    i <= |paths| && first == FirstAnswer(env, paths[..i]) && added == InitForwarded(env, paths[..i]) &&
    InitState(env, before, after, paths[..i], id, params)
  }

  lemma InitHaltStep(env: Env, before: map<Path, Backend>, mid: map<Path, Backend>, paths: seq<Path>, i: nat,
                     id: Value, params: Option<Value>, first: Option<seq<byte>>, added: seq<seq<byte>>,
                     o: Outcome, more: seq<seq<byte>>)
    requires i < |paths| && InitSoFar(env, before, mid, paths, i, id, params, first, added)
    requires InitHalted(env, params, paths[i], o) && more == []
    ensures InitStopped(env, params, paths, o, added + more)
  {
    InitStateDone(env, before, mid, paths, i, id, params);
    assert InitStoppedAt(env, params, paths, i, o);
    assert added + more == added;
  }

  lemma InitGoStep(env: Env, before: map<Path, Backend>, after: map<Path, Backend>, paths: seq<Path>, i: nat,
                   id: Value, params: Option<Value>, first: Option<seq<byte>>, added: seq<seq<byte>>,
                   answer: Option<seq<byte>>, more: seq<seq<byte>>)
    requires i < |paths| && first == FirstAnswer(env, paths[..i]) && added == InitForwarded(env, paths[..i])
    requires answer == FreshAnswer(env, paths[i]) && more == FreshForwarded(env, paths[i])
    requires InitState(env, before, after, paths[..i + 1], id, params)
    ensures InitSoFar(env, before, after, paths, i + 1, id, params, if first.None? then answer else first, added + more)
  {
    InitForwardedSnoc(env, paths, i);
    TakeSnoc(paths, i);
    FirstAnswerAppend(env, paths[..i], paths[i]);
  }

  lemma InitFinish(env: Env, before: map<Path, Backend>, after: map<Path, Backend>, paths: seq<Path>,
                   id: Value, params: Option<Value>, first: Option<seq<byte>>, added: seq<seq<byte>>)
    requires InitSoFar(env, before, after, paths, |paths|, id, params, first, added)
    ensures first == FirstAnswer(env, paths) && added == InitForwarded(env, paths)
    ensures InitState(env, before, after, paths, id, params)
  {
    assert paths[..|paths|] == paths;
  }


  /**
   * The registry and the editor's replies after `initialize`: a backend was
   * spawned for every collected config and sent the request, with the params
   * rooted at the config's directory; the editor got the notifications read
   * on the way, then the first answer a backend gave, if any. The proxy
   * stops at a config it could not bring up.
   */
  ghost predicate InitDone(env: Env, cfg: MconfConfig, before: map<Path, Backend>, after: map<Path, Backend>,
                           msg: Value, halt: Option<Outcome>, added: seq<seq<byte>>) {
    var paths := ConfigPaths(Collect(MatchRulesIter(cfg), {}, cfg, env.home));
    var first := FirstAnswer(env, paths);
    (halt.Some? ==> InitStopped(env, Get(msg, "params"), paths, halt.value, added)) &&
    (halt.None? ==>
      InitState(env, before, after, paths, IdOrNull(Get(msg, "id")), Get(msg, "params")) &&
      added == InitForwarded(env, paths) + if first.Some? then [first.value] else [])
  }

  /**
   * One message of the editor, dispatched on its `method`: `initialize`, the
   * lifecycle messages `initialized`, `exit` (which ends the loop) and
   * `shutdown`, document messages (whose method starts with `textDocument/`)
   * and everything else.
   */
  ghost predicate Handled(env: Env, m: Matcher.ProfileMatcher, cfg: MconfConfig, before: ProxyState, after: ProxyState,
                          msg: Value, halt: Option<Outcome>, added: seq<seq<byte>>) {
    var name := GetStr(msg, "method");
    if name == Some("initialize") then
      after.init == Get(msg, "params") && after.guards == before.guards &&
      InitDone(env, cfg, before.backends, after.backends, msg, halt, added)
    else if name == Some("initialized") || name == Some("exit") then
      halt == (if name == Some("exit") then Some(Exited) else None) && added == [] &&
      after == before.(backends := SentAll(before.backends, env.serialize(msg)))
    else if name == Some("shutdown") then
      halt.None? && after.init == before.init && after.guards == before.guards &&
      ShutDown(env, before.backends, after.backends, msg, added)
    else if name.Some? && HasPrefix(name.value, "textDocument/") then
      Document(env, m, cfg, before, after, msg, halt, added)
    else
      halt.None? && after.init == before.init && after.guards == before.guards &&
      OtherDone(env, before.backends, after.backends, msg, added)
  }

  /**
   * Whatever the message, the loop ends on `exit` and on nothing else that
   * succeeds; a spawn failure names a path that cannot be spawned; only
   * `initialize` changes the kept params; and the registry and the merged
   * configs only grow.
   */
  lemma HandledOutcome(env: Env, m: Matcher.ProfileMatcher, cfg: MconfConfig, before: ProxyState, after: ProxyState,
                       msg: Value, halt: Option<Outcome>, added: seq<seq<byte>>)
    requires Handled(env, m, cfg, before, after, msg, halt, added)
    ensures halt == Some(Exited) <==> GetStr(msg, "method") == Some("exit")
    ensures halt.Some? ==> !ReadEnded(halt.value)
    ensures halt.Some? && halt.value.SpawnFailed? ==> env.spawn(halt.value.path).None?
    ensures halt.None? ==> before.backends.Keys <= after.backends.Keys && before.guards <= after.guards
    ensures GetStr(msg, "method") != Some("initialize") ==> after.init == before.init
  {
    var name := GetStr(msg, "method");
    if name == Some("initialize") {
      InitDoneOutcome(env, cfg, before.backends, after.backends, msg, halt, added);
    } else if name == Some("shutdown") {
      assert after.backends == SentAndRead(env.parse, before.backends, env.serialize(msg));
    } else if name.Some? && HasPrefix(name.value, "textDocument/") {
      DocumentOutcome(env, m, cfg, before, after, msg, halt, added);
    } else if !(name == Some("initialized") || name == Some("exit")) {
      OtherKeys(env, before.backends, after.backends, msg, added);
    }
  }

  lemma InitDoneOutcome(env: Env, cfg: MconfConfig, before: map<Path, Backend>, after: map<Path, Backend>,
                        msg: Value, halt: Option<Outcome>, added: seq<seq<byte>>)
    requires InitDone(env, cfg, before, after, msg, halt, added)
    ensures halt.Some? ==> halt.value.Panicked? || (halt.value.SpawnFailed? && env.spawn(halt.value.path).None?)
    ensures halt.None? ==> before.Keys <= after.Keys
  {
    var paths := ConfigPaths(Collect(MatchRulesIter(cfg), {}, cfg, env.home));
    if halt.Some? {
      var k :| InitStoppedAt(env, Get(msg, "params"), paths, k, halt.value) && added == InitForwarded(env, paths[..k]);
    }
  }

  lemma DocumentOutcome(env: Env, m: Matcher.ProfileMatcher, cfg: MconfConfig, before: ProxyState, after: ProxyState,
                        msg: Value, halt: Option<Outcome>, added: seq<seq<byte>>)
    requires Document(env, m, cfg, before, after, msg, halt, added)
    ensures halt.Some? ==> halt.value.Panicked? || (halt.value.SpawnFailed? && env.spawn(halt.value.path).None?)
    ensures halt.None? ==> before.backends.Keys <= after.backends.Keys && before.guards <= after.guards
    ensures after.init == before.init
  {
    match RouteOf(m, cfg, env, msg)
    case NoUri =>
    case Unresolved =>
    case Routed(file, profile) =>
      var merge := MergeFor(env, file, profile);
      ForwardedHalts(env, before.backends, after.backends, before.init, EffectiveConfig(merge, profile), msg, halt, added);
      PrefixOfConcat(before.guards, if merge.Merged? then [merge.path] else []);
  }

  lemma OtherKeys(env: Env, before: map<Path, Backend>, after: map<Path, Backend>, msg: Value, added: seq<seq<byte>>)
    requires OtherDone(env, before, after, msg, added)
    ensures after.Keys == before.Keys
  {
    if Get(msg, "id").Some? && |before| > 0 {
      var sent := SentAll(before, env.serialize(msg));
      var p :| p in before && after == sent[p := AfterRead(env.parse, sent[p])] &&
        added == AnswerFrom(env.parse, before[p].responses, Fallback(env, Get(msg, "id").value));
      SameKeys(sent, p, AfterRead(env.parse, sent[p]));
    }
  }

  lemma SameKeys(bs: map<Path, Backend>, p: Path, b: Backend)
    requires p in bs
    ensures bs[p := b].Keys == bs.Keys
  {
  }

  /** One frame body off the editor's stream: a body that is not JSON is skipped and changes nothing. */
  ghost predicate Dispatched(env: Env, m: Matcher.ProfileMatcher, cfg: MconfConfig, before: ProxyState, after: ProxyState,
                             body: seq<byte>, halt: Option<Outcome>, added: seq<seq<byte>>) {
    if env.parse(body).None? then halt.None? && added == [] && after == before
    else Handled(env, m, cfg, before, after, env.parse(body).value, halt, added)
  }

  /** A message from the editor that is the `exit` notification. */
  predicate IsExit(parse: seq<byte> -> Option<Value>, m: seq<byte>) {
    parse(m).Some? && GetStr(parse(m).value, "method") == Some("exit")
  }

  lemma DispatchedOutcome(env: Env, m: Matcher.ProfileMatcher, cfg: MconfConfig, before: ProxyState, after: ProxyState,
                          body: seq<byte>, halt: Option<Outcome>, added: seq<seq<byte>>)
    requires Dispatched(env, m, cfg, before, after, body, halt, added)
    ensures halt == Some(Exited) <==> IsExit(env.parse, body)
    ensures halt.Some? ==> !ReadEnded(halt.value)
    ensures halt.Some? && halt.value.SpawnFailed? ==> env.spawn(halt.value.path).None?
  {
    if env.parse(body).Some? {
      HandledOutcome(env, m, cfg, before, after, env.parse(body).value, halt, added);
    }
  }

  /**
   * A run over `bodies`: `states[i]` is the proxy's state before the i-th
   * body was dispatched and `outs[i]` what that body sent the editor. Every
   * body but the last let the loop go on; the last one stopped it with
   * `last`, or let it go on when `last` is `None`.
   */
  ghost predicate Trace(env: Env, m: Matcher.ProfileMatcher, cfg: MconfConfig, bodies: seq<seq<byte>>,
                        states: seq<ProxyState>, outs: seq<seq<seq<byte>>>, last: Option<Outcome>) {
    |states| == |bodies| + 1 && |outs| == |bodies| &&
    forall i :: 0 <= i < |bodies| ==>
      Dispatched(env, m, cfg, states[i], states[i + 1], bodies[i], if i == |bodies| - 1 then last else None, outs[i])
  }

  lemma TraceSnoc(env: Env, m: Matcher.ProfileMatcher, cfg: MconfConfig, bodies: seq<seq<byte>>,
                  states: seq<ProxyState>, outs: seq<seq<seq<byte>>>, body: seq<byte>, s: ProxyState,
                  out: seq<seq<byte>>, last: Option<Outcome>)
    requires Trace(env, m, cfg, bodies, states, outs, None)
    requires Dispatched(env, m, cfg, states[|states| - 1], s, body, last, out)
    ensures Trace(env, m, cfg, bodies + [body], states + [s], outs + [out], last)
    ensures Flatten(outs + [out]) == Flatten(outs) + out
  {
    forall i | 0 <= i < |bodies| + 1
      ensures Dispatched(env, m, cfg, (states + [s])[i], (states + [s])[i + 1], (bodies + [body])[i],
                         if i == |bodies| then last else None, (outs + [out])[i])
    {
      if i < |bodies| {
        assert Dispatched(env, m, cfg, states[i], states[i + 1], bodies[i], None, outs[i]);
      }
    }
    FlattenAppend(outs, [out]);
    assert Flatten([out]) == out + Flatten([]);
  }

  /**
   * A run that stopped early stopped at its last message: at an `exit`, or
   * at a backend that could not be spawned or greeted.
   */
  lemma TraceOutcome(env: Env, m: Matcher.ProfileMatcher, cfg: MconfConfig, bodies: seq<seq<byte>>,
                     states: seq<ProxyState>, outs: seq<seq<seq<byte>>>, last: Outcome)
    requires Trace(env, m, cfg, bodies, states, outs, Some(last)) && bodies != []
    ensures !ReadEnded(last)
    ensures last == Exited <==> IsExit(env.parse, bodies[|bodies| - 1])
    ensures last.SpawnFailed? ==> env.spawn(last.path).None?
  {
    var i := |bodies| - 1;
    DispatchedOutcome(env, m, cfg, states[i], states[i + 1], bodies[i], Some(last), outs[i]);
  }

  /** Once no further message can be read, every message of the stream was handled. */
  lemma AllHandled(s: seq<byte>, pos: nat, handled: seq<seq<byte>>)
    requires pos <= |s| && handled + Incoming(s, pos) == Incoming(s, 0) && ReadMessage(s, pos).Err?
    requires StreamEnd(s, pos) == StreamEnd(s, 0)
    ensures handled == Incoming(s, 0)
    ensures StreamEnd(s, 0) == ReadMessage(s, pos).error
  {
    assert Incoming(s, pos) == [];
    assert handled + [] == handled;
  }

  /** Reading one more message moves it from the stream still to come to the messages handled. */
  lemma HandledStep(s: seq<byte>, pos: nat, next: nat, body: seq<byte>, handled: seq<seq<byte>>)
    requires pos <= next <= |s| && ReadMessage(s, pos) == Ok((body, next))
    requires handled + Incoming(s, pos) == Incoming(s, 0)
    ensures (handled + [body]) + Incoming(s, next) == Incoming(s, 0)
    ensures handled + [body] <= Incoming(s, 0)
    ensures StreamEnd(s, next) == StreamEnd(s, pos)
  {
    IncomingCons(s, pos, next, body, Incoming(s, next));
    ConcatAssoc(handled, [body], Incoming(s, next));
    PrefixOfConcat(handled + [body], Incoming(s, next));
  }

  /**
   * `run`'s loop so far: the messages handled are the first ones of the stream
   * and the stream still to come starts at `pos`; the proxy went from `s0` to
   * `s` step by step, and the editor got `r0` followed by every step's replies.
   */
  ghost predicate RunSoFar(env: Env, m: Matcher.ProfileMatcher, cfg: MconfConfig, input: seq<byte>, pos: nat,
                           handled: seq<seq<byte>>, states: seq<ProxyState>, outs: seq<seq<seq<byte>>>,
                           s0: ProxyState, s: ProxyState, r0: seq<seq<byte>>, r: seq<seq<byte>>) {
    pos <= |input| && handled + Incoming(input, pos) == Incoming(input, 0) &&
    StreamEnd(input, pos) == StreamEnd(input, 0) &&
    Trace(env, m, cfg, handled, states, outs, None) &&
    states[0] == s0 && states[|states| - 1] == s && r == r0 + Flatten(outs)
  }

  /**
   * A finished run that ended with `o`: when reading ended it, every message
   * of the stream was handled, and the run ended with `BodyTooLarge` exactly
   * when the message that could not be read announced a length no buffer can
   * hold; otherwise the messages handled are the first ones of the stream and
   * the last of them stopped the run.
   */
  ghost predicate RunEnded(env: Env, m: Matcher.ProfileMatcher, cfg: MconfConfig, input: seq<byte>, o: Outcome,
                           handled: seq<seq<byte>>, states: seq<ProxyState>, outs: seq<seq<seq<byte>>>,
                           s0: ProxyState, s: ProxyState, r0: seq<seq<byte>>, r: seq<seq<byte>>) {
    (ReadEnded(o) ==>
      handled == Incoming(input, 0) && (o == BodyTooLarge <==> StreamEnd(input, 0) == CapacityOverflow)) &&
    (!ReadEnded(o) ==> handled != [] && handled <= Incoming(input, 0)) &&
    Trace(env, m, cfg, handled, states, outs, if ReadEnded(o) then None else Some(o)) &&
    states[0] == s0 && states[|states| - 1] == s && r == r0 + Flatten(outs)
  }

  lemma PrefixOfConcat<T>(a: seq<T>, b: seq<T>)
    ensures a <= a + b
  {
    assert (a + b)[..|a|] == a;
  }

  class LspProxy {
    const matcher: Matcher.ProfileMatcher
    const config: MconfConfig
    const env: Env

    /** Running backends by config path. */
    var backends: map<Path, Backend>
    /** The `params` of the last `initialize`, replayed to backends spawned later. */
    var lastInitParams: Option<Value>
    /** Merged config files, kept for as long as the proxy runs. */
    var mergedGuards: seq<Path>
    /** Every byte written to the editor. */
    var stdout: seq<byte>
    /** The messages written to the editor, in order. */
    ghost var replies: seq<seq<byte>>

    /** The editor's stream is exactly the framed replies. */
    ghost predicate Valid()
      reads this
    {
      stdout == Frames(replies)
    }

    /** The state `run` keeps across messages. */
    function State(): ProxyState
      reads this
    {
      ProxyState(backends, lastInitParams, mergedGuards)
    }

    constructor(matcher: Matcher.ProfileMatcher, config: MconfConfig, env: Env)
      ensures Valid()
      ensures this.matcher == matcher && this.config == config && this.env == env
      ensures backends == map[] && lastInitParams == None && mergedGuards == [] && replies == []
    {
      this.matcher := matcher;
      this.config := config;
      this.env := env;
      backends := map[];
      lastInitParams := None;
      mergedGuards := [];
      stdout := [];
      replies := [];
    }

    /** `write_lsp_message(&stdout, body)`. */
    method Write(body: seq<byte>)
      requires Valid()
      modifies this
      ensures Valid()
      ensures replies == old(replies) + [body] && stdout == old(stdout) + Frame(body)
      ensures backends == old(backends) && lastInitParams == old(lastInitParams) && mergedGuards == old(mergedGuards)
    {
      stdout := WriteLspMessage(stdout, body);
      FramesAppend(replies, [body]);
      assert Frames([body]) == Frame(body) + [];
      replies := replies + [body];
    }

    /**
     * `send_to_backend`: the message, printed as JSON, is framed onto the
     * backend's stdin; a path without a backend writes nothing.
     */
    method SendToBackend(path: Path, msg: Value)
      requires Valid()
      modifies this
      ensures Valid()
      ensures path in old(backends) ==> backends == old(backends)[path := Sent(old(backends)[path], env.serialize(msg))]
      ensures path !in old(backends) ==> backends == old(backends)
      ensures replies == old(replies) && stdout == old(stdout)
      ensures lastInitParams == old(lastInitParams) && mergedGuards == old(mergedGuards)
    {
      var json := env.serialize(msg);
      if path in backends {
        var b := backends[path];
        var stdin := WriteLspMessage(b.stdin, json);
        backends := backends[path := b.(stdin := stdin)];
      }
    }

    /**
     * `read_from_backend`: take messages off the backend's queue until a
     * response; every notification before it is written to the editor.
     */
    method ReadFromBackend(path: Path) returns (r: Result<seq<byte>, ReadFailure>)
      requires Valid()
      modifies this
      ensures Valid()
      ensures path !in old(backends) ==> r == Err(NotFound) && backends == old(backends) && replies == old(replies)
      ensures path in old(backends) ==>
        var d := Drain(env.parse, old(backends)[path].responses);
        r == d.result && replies == old(replies) + d.forwarded &&
        backends == old(backends)[path := old(backends)[path].(responses := d.rest)]
      ensures lastInitParams == old(lastInitParams) && mergedGuards == old(mergedGuards)
    {
      if path !in backends {
        return Err(NotFound);
      }
      var b := backends[path];
      var q;
      r, q := Pump(b.responses);
      backends := backends[path := b.(responses := q)];
    }

    /** The loop of `read_from_backend` over the queue `q0` of one backend. */
    method Pump(q0: seq<seq<byte>>) returns (r: Result<seq<byte>, ReadFailure>, q: seq<seq<byte>>)
      requires Valid()
      modifies this
      ensures Valid() && backends == old(backends)
      ensures r == Drain(env.parse, q0).result && q == Drain(env.parse, q0).rest
      ensures replies == old(replies) + Drain(env.parse, q0).forwarded
      ensures lastInitParams == old(lastInitParams) && mergedGuards == old(mergedGuards)
    {
      q := q0;
      ghost var fwd: seq<seq<byte>> := [];
      while true
        invariant Valid() && backends == old(backends)
        invariant Drain(env.parse, q0) == Resume(fwd, Drain(env.parse, q))
        invariant replies == old(replies) + fwd
        invariant lastInitParams == old(lastInitParams) && mergedGuards == old(mergedGuards)
        decreases |q|
      {
        if q == [] {
          r := Err(TimedOut);
          break;
        }
        var msg := q[0];
        assert q == [msg] + q[1..];
        DrainCons(env.parse, msg, q[1..]);
        q := q[1..];
        var parsed := env.parse(msg);
        if parsed.None? {
          r := Err(NotJson);
          break;
        }
        if Get(parsed.value, "id").Some? {
          r := Ok(msg);
          break;
        }
        Write(msg);
        ResumeTwice(fwd, msg, Drain(env.parse, q));
        fwd := fwd + [msg];
      }
    }

    /** `spawn_backend` followed by `insert`: a fresh backend replaces any entry for the path. */
    method Spawn(path: Path) returns (ok: bool)
      requires Valid()
      modifies this
      ensures Valid()
      ensures ok <==> env.spawn(path).Some?
      ensures ok ==> backends == old(backends)[path := Backend([], env.spawn(path).value)]
      ensures !ok ==> backends == old(backends)
      ensures replies == old(replies) && stdout == old(stdout)
      ensures lastInitParams == old(lastInitParams) && mergedGuards == old(mergedGuards)
    {
      match env.spawn(path)
      case None =>
        ok := false;
      case Some(output) =>
        backends := backends[path := Backend([], output)];
        ok := true;
    }

    /** `backends.keys().cloned().collect()`, in whatever order the map yields them. */
    method Keys() returns (keys: seq<Path>)
      ensures forall p :: p in keys <==> p in backends
      ensures Distinct(keys) && |keys| == |backends|
    {
      keys := [];
      var rest := backends.Keys;
      while rest != {}
        invariant rest <= backends.Keys
        invariant forall p :: p in keys <==> p in backends && p !in rest
        invariant Distinct(keys) && |keys| + |rest| == |backends|
        decreases rest
      {
        var p :| p in rest;
        keys := keys + [p];
        rest := rest - {p};
      }
    }

    /** The loop `for config_path in &keys { send_to_backend(...) }`. */
    method Broadcast(keys: seq<Path>, msg: Value)
      requires Valid() && Distinct(keys) && forall p :: p in keys ==> p in backends
      modifies this
      ensures Valid()
      ensures backends.Keys == old(backends).Keys
      ensures forall p :: p in backends ==>
        backends[p] == if p in keys then Sent(old(backends)[p], env.serialize(msg)) else old(backends)[p]
      ensures replies == old(replies) && stdout == old(stdout)
      ensures lastInitParams == old(lastInitParams) && mergedGuards == old(mergedGuards)
    {
      for i := 0 to |keys|
        invariant Valid()
        invariant backends.Keys == old(backends).Keys
        invariant forall p :: p in backends ==>
          backends[p] == if p in keys[..i] then Sent(old(backends)[p], env.serialize(msg)) else old(backends)[p]
        invariant replies == old(replies) && stdout == old(stdout)
        invariant lastInitParams == old(lastInitParams) && mergedGuards == old(mergedGuards)
      {
        assert keys[i] !in keys[..i];
        assert keys[..i + 1] == keys[..i] + [keys[i]];
        SendToBackend(keys[i], msg);
      }
      assert keys[..|keys|] == keys;
    }

    /** `Broadcast` over all the registry's keys: every backend is sent the message. */
    method BroadcastAll(msg: Value) returns (keys: seq<Path>)
      requires Valid()
      modifies this
      ensures Valid() && backends == SentAll(old(backends), env.serialize(msg))
      ensures Distinct(keys) && |keys| == |old(backends)| && forall p :: p in keys <==> p in old(backends)
      ensures replies == old(replies) && stdout == old(stdout)
      ensures lastInitParams == old(lastInitParams) && mergedGuards == old(mergedGuards)
    {
      keys := Keys();
      Broadcast(keys, msg);
    }

    /**
     * A request's reply: the backend's response when `read_from_backend`
     * gets one, otherwise a null result with the request's id.
     */
    method Answer(path: Path, id: Value) returns (ghost added: seq<seq<byte>>)
      requires Valid() && path in backends
      modifies this
      ensures Valid()
      ensures backends == old(backends)[path := AfterRead(env.parse, old(backends)[path])]
      ensures replies == old(replies) + added
      ensures added == AnswerFrom(env.parse, old(backends)[path].responses, Fallback(env, id))
      ensures lastInitParams == old(lastInitParams) && mergedGuards == old(mergedGuards)
    {
      ghost var d := Drain(env.parse, backends[path].responses);
      var r := ReadFromBackend(path);
      var fallback := env.serialize(NullResponse(id));
      var reply := if r.Ok? then r.value else fallback;
      Write(reply);
      added := d.forwarded + [reply];
      ConcatAssoc(old(replies), d.forwarded, [reply]);
    }

    /**
     * `send_to_backend` then `read_from_backend` with the answer dropped: only
     * the notifications met while waiting reach the editor.
     */
    method SendAndDrop(path: Path, msg: Value) returns (ghost fwd: seq<seq<byte>>)
      requires Valid() && path in backends
      modifies this
      ensures Valid()
      ensures backends == old(backends)[path := AfterRead(env.parse, Sent(old(backends)[path], env.serialize(msg)))]
      ensures fwd == Drain(env.parse, old(backends)[path].responses).forwarded && replies == old(replies) + fwd
      ensures lastInitParams == old(lastInitParams) && mergedGuards == old(mergedGuards)
    {
      SendToBackend(path, msg);
      fwd := Drain(env.parse, backends[path].responses).forwarded;
      var ignored := ReadFromBackend(path);
    }

    /** `SendAndDrop` for every backend in the registry, in the map's order. */
    method SendAndDropAll(msg: Value) returns (ghost fwd: seq<seq<byte>>, ghost order: seq<Path>)
      requires Valid()
      modifies this
      ensures Valid()
      ensures backends == SentAndRead(env.parse, old(backends), env.serialize(msg))
      ensures Covers(order, old(backends)) && fwd == ForwardedAll(env.parse, old(backends), order)
      ensures replies == old(replies) + fwd
      ensures lastInitParams == old(lastInitParams) && mergedGuards == old(mergedGuards)
    {
      var rest := backends.Keys;
      fwd, order := [], [];
      while rest != {}
        invariant Valid() && DropState(env.parse, old(backends), backends, rest, order, fwd, env.serialize(msg))
        invariant replies == old(replies) + fwd
        invariant lastInitParams == old(lastInitParams) && mergedGuards == old(mergedGuards)
        decreases rest
      {
        var path :| path in rest;
        ghost var before := backends;
        var f := SendAndDrop(path, msg);
        ConcatAssoc(old(replies), fwd, f);
        DropStep(env.parse, old(backends), before, backends, rest, order, fwd, env.serialize(msg), path, f);
        fwd := fwd + f;
        order := order + [path];
        rest := rest - {path};
      }
      DropDone(env.parse, old(backends), backends, order, fwd, env.serialize(msg));
    }

    /**
     * `shutdown`: sent to every backend and each backend's answer read and
     * dropped (notifications met on the way still reach the editor); then the
     * editor gets a null result with the request's id.
     */
    method Shutdown(msg: Value) returns (ghost added: seq<seq<byte>>)
      requires Valid()
      modifies this
      ensures Valid() && replies == old(replies) + added
      ensures ShutDown(env, old(backends), backends, msg, added)
      ensures lastInitParams == old(lastInitParams) && mergedGuards == old(mergedGuards)
    {
      var fwd, order := SendAndDropAll(msg);
      var reply := env.serialize(NullResponse(IdOrNull(Get(msg, "id"))));
      Write(reply);
      ConcatAssoc(old(replies), fwd, [reply]);
      added := fwd + [reply];
    }

    /**
     * Any other method: sent to every backend; a request is then answered
     * from the first backend in the registry's order, and gets no reply at
     * all when no backend runs.
     */
    method Other(msg: Value) returns (ghost added: seq<seq<byte>>)
      requires Valid()
      modifies this
      ensures Valid() && replies == old(replies) + added
      ensures OtherDone(env, old(backends), backends, msg, added)
      ensures lastInitParams == old(lastInitParams) && mergedGuards == old(mergedGuards)
    {
      var keys := BroadcastAll(msg);
      added := [];
      var id := Get(msg, "id");
      if id.Some? && keys != [] {
        added := Answer(keys[0], id.value);
      }
    }

    /** `initialize` with id 1 and `params`, its answer read and dropped, then `initialized`. */
    method SendHandshake(path: Path, params: Value) returns (ghost added: seq<seq<byte>>)
      requires Valid() && path in backends && backends[path].stdin == []
      modifies this
      ensures Valid() && replies == old(replies) + added
      ensures lastInitParams == old(lastInitParams) && mergedGuards == old(mergedGuards)
      ensures added == Drain(env.parse, old(backends)[path].responses).forwarded
      ensures backends == old(backends)[path := Backend(
        Frame(env.serialize(InitializeRequest(Number(1), params))) + Frame(env.serialize(InitializedNotification())),
        Drain(env.parse, old(backends)[path].responses).rest)]
    {
      HandshakeWrites(env.parse, backends, path, env.serialize(InitializeRequest(Number(1), params)),
                      env.serialize(InitializedNotification()));
      added := SendAndDrop(path, InitializeRequest(Number(1), params));
      SendToBackend(path, InitializedNotification());
    }

    /**
     * The handshake a lazily spawned backend gets: `initialize` with id 1 and
     * the kept params rooted at the config's directory (its answer read and
     * dropped), then `initialized`. False when rooting the params panics.
     */
    method Greet(path: Path, init: Value) returns (ok: bool, ghost added: seq<seq<byte>>)
      requires Valid() && path in backends && backends[path].stdin == []
      modifies this
      ensures Valid() && replies == old(replies) + added
      ensures lastInitParams == old(lastInitParams) && mergedGuards == old(mergedGuards)
      ensures ok <==> Handshake(env, Some(init), path).Some?
      ensures !ok ==> backends == old(backends) && added == []
      ensures ok ==> added == Drain(env.parse, old(backends)[path].responses).forwarded
      ensures ok ==> backends == old(backends)[path := Backend(Handshake(env, Some(init), path).value,
                                                               Drain(env.parse, old(backends)[path].responses).rest)]
    {
      var params := RootedParams(init, env.parent(path));
      if params.None? {
        return false, [];
      }
      added := SendHandshake(path, params.value);
      ok := true;
    }

    /**
     * Make sure a backend runs for `path`, spawning one when the registry has
     * none. A backend spawned after an `initialize` gets the handshake; the
     * answer to its `initialize` is read and dropped.
     */
    method EnsureBackend(path: Path) returns (halt: Option<Outcome>, ghost added: seq<seq<byte>>)
      requires Valid()
      modifies this
      ensures Valid() && replies == old(replies) + added
      ensures lastInitParams == old(lastInitParams) && mergedGuards == old(mergedGuards)
      ensures halt.None? ==> Ready(env, old(backends), backends, lastInitParams, path)
      ensures halt.None? ==> added == if path in old(backends) then [] else Greeting(env, lastInitParams, path)
      ensures halt.Some? ==> SpawnHalted(env, old(backends), lastInitParams, path, halt.value) && added == []
      ensures halt == Some(SpawnFailed(path)) ==> backends == old(backends)
    {
      added := [];
      if path in backends {
        return None, [];
      }
      var ok := Spawn(path);
      if !ok {
        return Some(SpawnFailed(path)), [];
      }
      ghost var spawned := backends;
      if lastInitParams.Some? {
        var greeted;
        greeted, added := Greet(path, lastInitParams.value);
        if !greeted {
          return Some(Panicked), added;
        }
      }
      FreshAfterSpawn(env, old(backends), spawned, backends, lastInitParams, path);
      halt := None;
    }

    /** `send_to_backend`, then, for a request, the backend's answer or a null result. */
    method Deliver(path: Path, msg: Value) returns (ghost added: seq<seq<byte>>)
      requires Valid() && path in backends
      modifies this
      ensures Valid() && replies == old(replies) + added
      ensures lastInitParams == old(lastInitParams) && mergedGuards == old(mergedGuards)
      ensures backends == old(backends)[path := Delivered(env, old(backends)[path], msg)]
      ensures added == Replies(env, old(backends)[path], msg)
    {
      ghost var before := backends;
      SendToBackend(path, msg);
      added := [];
      var id := Get(msg, "id");
      if id.Some? {
        DeliverWrites(env, before, path, msg);
        added := Answer(path, id.value);
      }
    }

    /**
     * The effective config of a document message: `build_merged_config` for
     * the file's directory; a merged config is kept alive and used, anything
     * else falls back to the profile's config.
     */
    method MergeConfig(file: Path, profile: Path) returns (path: Path)
      modifies this
      ensures path == EffectiveConfig(MergeFor(env, file, profile), profile)
      ensures var merge := MergeFor(env, file, profile);
        mergedGuards == old(mergedGuards) + if merge.Merged? then [merge.path] else []
      ensures backends == old(backends) && lastInitParams == old(lastInitParams)
      ensures replies == old(replies) && stdout == old(stdout)
    {
      var merge := MergeFor(env, file, profile);
      if merge.Merged? {
        mergedGuards := mergedGuards + [merge.path];
      }
      path := EffectiveConfig(merge, profile);
    }

    /** The backend for `path`, spawned if need be, then `Deliver`. */
    method Forward(path: Path, msg: Value) returns (halt: Option<Outcome>, ghost added: seq<seq<byte>>)
      requires Valid()
      modifies this
      ensures Valid() && replies == old(replies) + added
      ensures lastInitParams == old(lastInitParams) && mergedGuards == old(mergedGuards)
      ensures Forwarded(env, old(backends), backends, lastInitParams, path, msg, halt, added)
    {
      halt, added := EnsureBackend(path);
      if halt.Some? {
        HaltedForwarded(env, old(backends), backends, lastInitParams, path, msg, halt.value);
        return;
      }
      ghost var mid := backends;
      var more := Deliver(path, msg);
      ConcatAssoc(old(replies), added, more);
      ReadyThenDelivered(env, old(backends), mid, backends, lastInitParams, path, msg, added, more);
      added := added + more;
    }

    /**
     * A message whose method starts with `textDocument/`: dropped without a
     * `textDocument.uri`; a request for a file no profile config resolves
     * gets a null result, a notification nothing; otherwise `Forward` to the
     * effective config.
     */
    method TextDocument(msg: Value) returns (halt: Option<Outcome>, ghost added: seq<seq<byte>>)
      requires Valid()
      modifies this
      ensures Valid() && replies == old(replies) + added
      ensures Document(env, matcher, config, old(State()), State(), msg, halt, added)
    {
      halt, added := None, [];
      var id := Get(msg, "id");
      match RouteOf(matcher, config, env, msg)
      case NoUri =>
      case Unresolved =>
        if id.Some? {
          var reply := env.serialize(NullResponse(id.value));
          Write(reply);
          added := [reply];
        }
      case Routed(file, profile) =>
        var path := MergeConfig(file, profile);
        halt, added := Forward(path, msg);
    }

    /**
     * The loop over `match_rules_iter` in the `initialize` handler: a
     * profile's config path is collected the first time the profile is seen.
     */
    method CollectConfigs() returns (paths: seq<Path>)
      ensures paths == ConfigPaths(Collect(MatchRulesIter(config), {}, config, env.home))
    {
      var rules := MatchRulesIter(config);
      var seen: set<string> := {};
      paths := [];
      ghost var taken: seq<(string, Path)> := [];
      for i := 0 to |rules|
        invariant taken + Collect(rules[i..], seen, config, env.home) == Collect(rules, {}, config, env.home)
        invariant paths == ConfigPaths(taken)
      {
        var name := rules[i].1;
        CollectStep(rules, i, seen, config, env.home);
        if name !in seen {
          seen := seen + {name};
          var path := ProfileConfigPath(config, name, env.home);
          if path.Some? {
            ConcatAssoc(taken, [(name, path.value)], Collect(rules[i + 1..], seen, config, env.home));
            taken := taken + [(name, path.value)];
            paths := paths + [path.value];
          }
        }
      }
      assert rules[|rules|..] == [];
      assert taken == Collect(rules, {}, config, env.home);
    }

    /** Send `request` to a backend just spawned for `path` and read its answer. */
    method AskFresh(path: Path, request: Value) returns (answer: Option<seq<byte>>, ghost added: seq<seq<byte>>)
      requires Valid() && env.spawn(path).Some? && path in backends && backends[path] == Backend([], env.spawn(path).value)
      modifies this
      ensures Valid() && replies == old(replies) + added && added == FreshForwarded(env, path)
      ensures lastInitParams == old(lastInitParams) && mergedGuards == old(mergedGuards)
      ensures answer == FreshAnswer(env, path)
      ensures backends == old(backends)[path := Backend(Frame(env.serialize(request)),
                                                        Drain(env.parse, env.spawn(path).value).rest)]
    {
      ghost var frame := Frame(env.serialize(request));
      assert [] + frame == frame;
      SendToBackend(path, request);
      added := Drain(env.parse, env.spawn(path).value).forwarded;
      var r := ReadFromBackend(path);
      answer := if r.Ok? then Some(r.value) else None;
    }

    /**
     * One config of the `initialize` handler: spawn its backend (replacing
     * any running one), send it the editor's `initialize` with params rooted
     * at the config's directory, and read its answer.
     */
    method InitOne(path: Path, id: Value, params: Option<Value>)
      returns (halt: Option<Outcome>, answer: Option<seq<byte>>, ghost added: seq<seq<byte>>)
      requires Valid()
      modifies this
      ensures Valid() && replies == old(replies) + added
      ensures lastInitParams == old(lastInitParams) && mergedGuards == old(mergedGuards)
      ensures halt == Some(SpawnFailed(path)) <==> env.spawn(path).None?
      ensures halt == Some(Panicked) <==> env.spawn(path).Some? && InitParams(env, params, path).None?
      ensures halt.None? || halt == Some(SpawnFailed(path)) || halt == Some(Panicked)
      ensures halt.Some? ==> added == []
      ensures halt.None? ==> answer == FreshAnswer(env, path) && added == FreshForwarded(env, path)
      ensures halt.None? ==> backends.Keys == old(backends).Keys + {path} && InitSent(env, backends, id, params, path)
      ensures halt.None? ==> forall p :: p in old(backends) && p != path ==> backends[p] == old(backends)[p]
    {
      added := [];
      answer := None;
      var ok := Spawn(path);
      if !ok {
        return Some(SpawnFailed(path)), None, [];
      }
      var rooted := InitParams(env, params, path);
      if rooted.None? {
        return Some(Panicked), None, [];
      }
      answer, added := AskFresh(path, InitializeRequest(id, rooted.value));
      halt := None;
    }

    /** `InitOne` for the next config, extending the handler's state by one config. */
    method InitNext(paths: seq<Path>, i: nat, id: Value, params: Option<Value>, ghost before: map<Path, Backend>)
      returns (halt: Option<Outcome>, answer: Option<seq<byte>>, ghost added: seq<seq<byte>>)
      requires Valid() && i < |paths| && InitState(env, before, backends, paths[..i], id, params)
      modifies this
      ensures Valid() && replies == old(replies) + added
      ensures lastInitParams == old(lastInitParams) && mergedGuards == old(mergedGuards)
      ensures halt.Some? ==> InitHalted(env, params, paths[i], halt.value) && added == []
      ensures halt.None? ==> answer == FreshAnswer(env, paths[i]) && added == FreshForwarded(env, paths[i])
      ensures halt.None? ==> InitState(env, before, backends, paths[..i + 1], id, params)
    {
      ghost var mid := backends;
      halt, answer, added := InitOne(paths[i], id, params);
      if halt.Some? {
        return;
      }
      TakeSnoc(paths, i);
      InitStateStep(env, before, mid, backends, paths[..i], paths[i], id, params);
    }

    /**
     * The spawning loop of the `initialize` handler: `InitOne` for every
     * collected config in order, keeping the first answer; the first failure
     * to spawn or to root the params ends it.
     */
    method InitBackends(paths: seq<Path>, id: Value, params: Option<Value>)
      returns (halt: Option<Outcome>, first: Option<seq<byte>>, ghost added: seq<seq<byte>>)
      requires Valid()
      modifies this
      ensures Valid() && replies == old(replies) + added
      ensures lastInitParams == old(lastInitParams) && mergedGuards == old(mergedGuards)
      ensures halt.Some? ==> InitStopped(env, params, paths, halt.value, added)
      ensures halt.None? ==> first == FirstAnswer(env, paths) && added == InitForwarded(env, paths)
      ensures halt.None? ==> InitState(env, old(backends), backends, paths, id, params)
    {
      halt, first, added := None, None, [];
      for i := 0 to |paths|
        invariant halt.None?
        invariant Valid() && replies == old(replies) + added
        invariant lastInitParams == old(lastInitParams) && mergedGuards == old(mergedGuards)
        invariant InitSoFar(env, old(backends), backends, paths, i, id, params, first, added)
      {
        var answer;
        ghost var more;
        ghost var mid := backends;
        halt, answer, more := InitNext(paths, i, id, params, old(backends));
        ConcatAssoc(old(replies), added, more);
        if halt.Some? {
          InitHaltStep(env, old(backends), mid, paths, i, id, params, first, added, halt.value, more);
          added := added + more;
          return;
        }
        InitGoStep(env, old(backends), backends, paths, i, id, params, first, added, answer, more);
        added := added + more;
        if first.None? {
          first := answer;
        }
      }
      InitFinish(env, old(backends), backends, paths, id, params, first, added);
    }

    /**
     * `initialize`: its params are kept for backends spawned later; a backend
     * is spawned for every collected config and sent the request, with the
     * params rooted at the config's directory; the editor gets the first
     * answer a backend gave, and no reply when none did.
     */
    method Initialize(msg: Value) returns (halt: Option<Outcome>, ghost added: seq<seq<byte>>)
      requires Valid()
      modifies this
      ensures Valid() && replies == old(replies) + added
      ensures lastInitParams == Get(msg, "params") && mergedGuards == old(mergedGuards)
      ensures InitDone(env, config, old(backends), backends, msg, halt, added)
    {
      var id := Get(msg, "id");
      var params := Get(msg, "params");
      lastInitParams := params;
      var paths := CollectConfigs();
      var first;
      halt, first, added := InitBackends(paths, IdOrNull(id), params);
      if halt.Some? {
        return;
      }
      if first.Some? {
        Write(first.value);
        ConcatAssoc(old(replies), added, [first.value]);
        added := added + [first.value];
      } else {
        assert added + [] == added;
      }
    }

    /**
     * The lifecycle notifications and the `shutdown` request: `initialized`
     * and `exit` reach every backend, and `exit` ends the loop.
     */
    method Lifecycle(name: string, msg: Value) returns (halt: Option<Outcome>, ghost added: seq<seq<byte>>)
      requires Valid() && name in {"initialized", "shutdown", "exit"}
      modifies this
      ensures Valid() && replies == old(replies) + added
      ensures halt == (if name == "exit" then Some(Exited) else None)
      ensures name != "shutdown" ==> added == [] && backends == SentAll(old(backends), env.serialize(msg))
      ensures name == "shutdown" ==> ShutDown(env, old(backends), backends, msg, added)
      ensures lastInitParams == old(lastInitParams) && mergedGuards == old(mergedGuards)
    {
      added := [];
      halt := None;
      if name == "shutdown" {
        added := Shutdown(msg);
      } else {
        var keys := BroadcastAll(msg);
        if name == "exit" {
          halt := Some(Exited);
        }
      }
    }

    /**
     * One message of the editor, dispatched on its `method`: `initialize`,
     * the lifecycle messages, document messages (whose method starts with
     * `textDocument/`) and everything else.
     */
    method Handle(msg: Value) returns (halt: Option<Outcome>, ghost added: seq<seq<byte>>)
      requires Valid()
      modifies this
      ensures Valid() && replies == old(replies) + added
      ensures Handled(env, matcher, config, old(State()), State(), msg, halt, added)
    {
      var name := GetStr(msg, "method");
      if name == Some("initialize") {
        halt, added := Initialize(msg);
      } else if name == Some("initialized") || name == Some("shutdown") || name == Some("exit") {
        halt, added := Lifecycle(name.value, msg);
      } else if name.Some? && HasPrefix(name.value, "textDocument/") {
        halt, added := TextDocument(msg);
      } else {
        halt := None;
        added := Other(msg);
      }
    }

    /** One frame body off the editor's stream: a body that is not JSON is skipped. */
    method Dispatch(body: seq<byte>) returns (halt: Option<Outcome>, ghost added: seq<seq<byte>>)
      requires Valid()
      modifies this
      ensures Valid() && replies == old(replies) + added
      ensures Dispatched(env, matcher, config, old(State()), State(), body, halt, added)
    {
      var parsed := env.parse(body);
      if parsed.None? {
        return None, [];
      }
      halt, added := Handle(parsed.value);
    }

    /**
     * One turn of `run`'s loop: read the next message off the editor's stream
     * and dispatch it. The run goes on from `next`, or ended with `halt`.
     */
    method Turn(input: seq<byte>, pos: nat, ghost handled: seq<seq<byte>>, ghost states: seq<ProxyState>,
                ghost outs: seq<seq<seq<byte>>>, ghost s0: ProxyState, ghost r0: seq<seq<byte>>)
      returns (halt: Option<Outcome>, next: nat, ghost handled': seq<seq<byte>>, ghost states': seq<ProxyState>,
               ghost outs': seq<seq<seq<byte>>>)
      requires Valid() && RunSoFar(env, matcher, config, input, pos, handled, states, outs, s0, State(), r0, replies)
      modifies this
      ensures Valid()
      ensures halt.None? ==>
        pos < next && RunSoFar(env, matcher, config, input, next, handled', states', outs', s0, State(), r0, replies)
      ensures halt.Some? ==>
        RunEnded(env, matcher, config, input, halt.value, handled', states', outs', s0, State(), r0, replies)
    {
      var r := ReadLspMessage(input, pos);
      if r.Err? {
        AllHandled(input, pos, handled);
        halt := if r.error == CapacityOverflow then Some(BodyTooLarge) else Some(InputEnded);
        return halt, pos, handled, states, outs;
      }
      var body;
      body, next := r.value.0, r.value.1;
      HandledStep(input, pos, next, body, handled);
      ghost var before := State();
      ghost var added;
      halt, added := Dispatch(body);
      TraceSnoc(env, matcher, config, handled, states, outs, body, State(), added, halt);
      DispatchedOutcome(env, matcher, config, before, State(), body, halt, added);
      ConcatAssoc(r0, Flatten(outs), added);
      handled', states', outs' := handled + [body], states + [State()], outs + [added];
    }

    /**
     * `run`: read messages off the editor's stream and dispatch each, until
     * the stream ends or a message cannot be read; `exit`, a failed spawn and
     * a panic end it early.
     */
    method Run(input: seq<byte>)
      returns (o: Outcome, ghost handled: seq<seq<byte>>, ghost states: seq<ProxyState>, ghost outs: seq<seq<seq<byte>>>)
      requires Valid()
      modifies this
      ensures Valid()
      ensures RunEnded(env, matcher, config, input, o, handled, states, outs, old(State()), State(), old(replies), replies)
    {
      var pos := 0;
      handled, states, outs := [], [State()], [];
      while true
        invariant Valid()
        invariant RunSoFar(env, matcher, config, input, pos, handled, states, outs, old(State()), State(), old(replies), replies)
        decreases |input| - pos
      {
        var halt;
        halt, pos, handled, states, outs := Turn(input, pos, handled, states, outs, old(State()), old(replies));
        if halt.Some? {
          return halt.value, handled, states, outs;
        }
      }
    }
  }
}
