# dprintx, modelled in Dafny

`dprintx` wraps the `dprint` formatter so that different files use
different dprint configurations ("profiles"). A routing file, written in
JSON with comments, maps profile names to dprint config files. It also
lists glob rules, in order, that pick a profile for a path, and content
patterns that can override that choice. The CLI handles `fmt`, `check`,
`config`, `output-file-paths` and `lsp`, and hands every other command line
to `dprint` unchanged. In `lsp` mode it is a Language Server Protocol proxy.
It runs one `dprint lsp` backend per config file, routes each
`textDocument/...` message to the backend of the document's profile, and
relays the answers to the editor.

This project models that core and proves properties of it:

| file | module | models |
|---|---|---|
| `wrappers.dfy` | `Wrappers` | `Option` and `Result` |
| `bytes.dfy` | `Bytes` | bytes, ASCII literals, `starts_with` |
| `utf8.dfy` | `Utf8` | well-formed UTF-8, `str::as_bytes`, `str::trim` |
| `json.dfy` | `Json` | the parts of `serde_json::Value` the proxy uses |
| `jsonc.dfy` | `Jsonc` | `strip_jsonc_comments`, `strip_trailing_commas` |
| `config.dfy` | `Config` | the parsed routing config, `expand_tilde`, `profile_config_path`, `match_rules_iter` |
| `matcher.dfy` | `Matcher` | `ProfileMatcher`: `from_config`, `match_profile`, `resolve_config`, `resolve_config_by_path`, `match_file_content` |
| `codec.dfy` | `Codec` | LSP base framing: `read_lsp_message`, `write_lsp_message` |
| `uri.dfy` | `Uri` | `percent_decode`, `uri_to_path`, `extract_uri` |
| `messages.dfy` | `Messages` | the JSON messages the proxy builds, `read_from_backend`'s draining rule, and the profile collection in `initialize` |
| `proxy.dfy` | `Proxy` | `LspProxy::run` as a class holding the proxy's state, with one method per branch of its dispatch |
| `cli.dfy` | `CommandLine` | `Cli::parse_from`, `parse_fmt`, `parse_check` |

The outside world enters as parameters:
- A compiled glob is a predicate on paths, and a compiled content pattern is a predicate on the bytes of a block.
- A file is the sequence of lines `read_line` would return, or "cannot be opened".
- The home directory is an `Option`.
- `Proxy.Env` holds JSON parsing and printing, `Path::parent`, `build_merged_config` and process spawning.
- A spawned backend is its stdin, plus the queue of every message it will ever write.

Reading from a backend never waits, so "timed out" means the queue holds no further message. The proxy's state is a class (`Proxy.LspProxy`) with these fields:
- the backend registry;
- the kept `initialize` params;
- the merged configs kept alive;
- the bytes written to the editor.

A ghost list of the replies written to the editor is kept in step with the output bytes.

## Model

| member | source | states |
|---|---|---|
| `Utf8.EncodeValid` | src/lsp.rs:477 | the bytes of any string are well-formed UTF-8, so every body the proxy writes is one `String::from_utf8` accepts |
| `Utf8.TrimSlice` | src/lsp.rs:461 | `str::trim` keeps a contiguous slice that neither starts nor ends with White_Space, and trimming twice changes nothing |
| `Json.Get` | src/lsp.rs:74 | `Value::get` succeeds exactly on an object that has a member with that name |
| `Json.SetMember` | src/lsp.rs:106-113 | `v[key] = x` succeeds exactly on `null` or an object; the result is an object whose `key` is `x` and whose other members are unchanged |
| `Jsonc.StripTrailingCommas` | src/config.rs:162-207 | the loop's output equals `KeptFrom`: the input minus exactly the commas that lie outside string literals and are followed, after whitespace, by `}` or `]` |
| `Jsonc.StripJsoncComments` | src/config.rs:104-159 | the loop's output is the comment scanner's output with its trailing commas removed |
| `Jsonc.SkipLineComment` | src/config.rs:132-139 | the inner loop stops at the first newline, or at the end of the text |
| `Jsonc.SkipBlockComment` | src/config.rs:142-151 | the inner loop stops just past the first `*/`; with none, it stops at the last character, or at the end when `/*` ends the text |
| `Jsonc.SkipWhitespace` | src/config.rs:191-194 | the look-ahead stops at the first character that is not whitespace |
| `Jsonc.DecommaedIsKept` | src/config.rs:162-207 | from any position outside an escape, the trailing-comma scanner emits exactly the kept characters |
| `Jsonc.KeptWithoutDroppedComma` | src/config.rs:189-200 | text without a droppable comma passes through unchanged |
| `Jsonc.KeptKeepsNonCommas` | src/config.rs:189-203 | only commas are ever removed |
| `Jsonc.UncommentedCopiesLiteral` | src/config.rs:112-122 | the comment scanner copies a string literal verbatim, comment markers included, and resumes after its closing quote |
| `Jsonc.DecommaedCopiesLiteral` | src/config.rs:170-180 | the comma scanner copies a string literal verbatim, commas included |
| `Jsonc.EscapedQuoteStaysInLiteral` | src/config.rs:114-116 | a backslash-escaped quote does not end a literal |
| `Jsonc.LineCommentDropped` | src/config.rs:132-139 | a line comment is removed up to its newline, and the newline is kept |
| `Jsonc.BlockCommentDropped` | src/config.rs:142-151 | a terminated block comment disappears together with both delimiters |
| `Jsonc.UnterminatedBlockComment` | src/config.rs:142-151 | an unterminated block comment swallows the rest of the text except its final character, which is emitted |
| `Jsonc.UncommentedIsSubsequence` | src/config.rs:104-155 | the comment scanner only deletes characters |
| `Jsonc.DecommaedIsSubsequence` | src/config.rs:162-207 | the comma scanner only deletes characters |
| `Jsonc.PreprocessingShortens` | src/config.rs:104-159 | the whole preprocessing deletes characters and never lengthens the text |
| `Config.ExpandTilde` | src/config.rs:92-99 | a leading `~/` becomes the home directory joined with the rest; without `~/` or without a home directory, the path is unchanged |
| `Config.ExpandTildeUnderHome` | src/config.rs:92-99 | `~/rest` becomes `home/rest` for a relative rest |
| `Config.BareTildeUnchanged` | src/config.rs:93 | a bare `~` is not expanded |
| `Config.Join` | src/config.rs:95 | `Path::join`: an absolute part replaces the base, otherwise it is appended after one `/` |
| `Config.ProfileConfigPath` | src/config.rs:77-81 | a path exactly when the profile exists and its value is a string, and then that string tilde-expanded |
| `Config.ResolveProfile` | src/matcher.rs:60-65 | a string profile resolves to its config path and `null` to `Ignore`; an absent profile, or one of another kind, resolves to nothing |
| `Config.StringRules` | src/config.rs:84-88 | `match_rules_iter` yields exactly the rules whose profile is a string |
| `Config.StringRulesAppend` | src/config.rs:84-88 | the filter keeps the declared order |
| `Matcher.FromConfig` | src/matcher.rs:26-47 | one rule per string-valued match entry, in order, with its pattern tilde-expanded and then compiled. An `InvalidGlob` error names the first pattern that fails to compile, every earlier one having compiled; a content-pattern error is returned only when every glob compiled |
| `Matcher.MatchProfile` | src/matcher.rs:51-58 | `None` exactly when no rule matches; otherwise the profile of the first matching rule in declared order |
| `Matcher.FirstMatchWins` | src/matcher.rs:51-58 | a later rule never overrides an earlier one that matches |
| `Matcher.ResolveConfigByPath` | src/matcher.rs:107-122 | no match gives `Ok(None)`; a match whose profile is not defined gives the error naming it; otherwise the profile's resolution |
| `Matcher.ResolveConfig` | src/matcher.rs:70-104 | an unknown path is skipped without a content check; path errors pass through; without content patterns, or when the file cannot be read or gives no content match, the path's answer stands; a content match replaces it, and is an error when its profile is undefined |
| `Matcher.NoPathMatchIgnoresContent` | src/matcher.rs:77-80 | with no matching path rule, the result is `Ok(None)` whatever the file holds |
| `Matcher.ContentMatchOverridesIgnore` | src/matcher.rs:88-98 | a content match overrides even an `Ignore` the path chose |
| `Matcher.MatchFileContent` | src/matcher.rs:128-161 | the loop's result equals the reference scan `ContentScan` |
| `Matcher.ScanIsFirstMatchingBlock` | src/matcher.rs:136-160 | on a UTF-8 file the scan returns the profile of the earliest block any pattern matches, or nothing |
| `Matcher.BlocksCoverLines` | src/matcher.rs:152-158 | every line lies in exactly one tested block, and the blocks keep the file's order |
| `Matcher.BlocksShape` | src/matcher.rs:152-158 | each block is tested as soon as it reaches 8192 bytes, and every block but the last has reached it |
| `Matcher.DeclaredOrderWithinBlock` | src/matcher.rs:145-155 | within one block, the pattern declared first wins |
| `Matcher.NoMatchingBlockGivesNone` | src/matcher.rs:142-149 | when no tested block matches, a UTF-8 file gives no content verdict |
| `Codec.ParseUsize` | src/lsp.rs:467 | a parsed length is at most `usize::MAX` and is the value of its digits, optionally after a `+`; conversely, every non-empty digit string, with or without one leading `+`, whose value fits a `usize` parses to that value |
| `Codec.ParseDecimal` | src/lsp.rs:467-483 | the decimal length the writer prints parses back to the same number |
| `Codec.ReadBody` | src/lsp.rs:471-477 | the body is read exactly when a length was given, a buffer of that length can be allocated, that many bytes follow, and they are UTF-8; a length above `isize::MAX` is `CapacityOverflow`, the panic of `vec!`, exactly |
| `Codec.ReadHeaderLines` | src/lsp.rs:454-469 | the header loop agrees with the reference header reading `ReadHeaders`: it fails at end of input, on a line that is not UTF-8 or on a bad length, and otherwise ends at the first line that trims to nothing, with the length the last `Content-Length:` line set |
| `Codec.ReadLspMessage` | src/lsp.rs:450-478 | the loop over header lines agrees with the reference reading `ReadMessage` |
| `Codec.WriteLspMessage` | src/lsp.rs:481-486 | appends one frame, which reads back as the same body at that position |
| `Codec.RoundTrip` | src/lsp.rs:450-486 | reading a written frame returns exactly its body and stops right after it, for every UTF-8 body whose length fits an `isize`, as every Rust buffer's does |
| `Codec.HugeLengthOverflows` | src/lsp.rs:474 | a `Content-Length` above `isize::MAX` panics in `vec!` before any body byte is read, even when nothing follows the headers |
| `Codec.ReadFrames` | src/lsp.rs:60-65 | a stream of frames is read back as exactly their bodies, in order |
| `Codec.EmptyStreamFails` | src/lsp.rs:457-459 | reading from a position with no bytes left fails with `EofInHeaders` |
| `Codec.NoLengthFails` | src/lsp.rs:471 | without a `Content-Length` header, the message is rejected |
| `Codec.LengthLine` | src/lsp.rs:466-468 | a `Content-Length: n` line sets the length to `n`, whatever length an earlier header set: the last one wins |
| `Codec.LengthValueLine` | src/lsp.rs:466-468 | a `Content-Length:` line whose trimmed value does not parse as a `usize` fails with `InvalidContentLength`, whatever came before; one that parses sets the length to that value |
| `Codec.LengthOverflowFails` | src/lsp.rs:467 | a length above `usize::MAX` fails with `InvalidContentLength` |
| `Codec.NegativeLengthFails` | src/lsp.rs:467 | a negative length fails with `InvalidContentLength` |
| `Codec.HeadersCutShort` | src/lsp.rs:454-459 | input that ends after a complete `Content-Length` line, before the empty line that closes the headers, fails with `EofInHeaders` |
| `Codec.EmptyLine` | src/lsp.rs:461-464 | a line that trims to nothing ends the headers |
| `Uri.FromHex2` | src/lsp.rs:517 | `u8::from_str_radix(_, 16)` on two bytes: two hex digits, or `+` and one hex digit |
| `Uri.FromHex2Inverse` | src/lsp.rs:517 | two hex digits parse back to the byte they encode |
| `Uri.PlusSignAccepted` | src/lsp.rs:517 | `%+5` decodes to the byte 0x05 |
| `Uri.DecodeAsWritten` | src/lsp.rs:510-527 | as written, a successful decode equals the corrected decode |
| `Uri.PanicExample` | src/lsp.rs:517 | as written, `percent_decode("%aé")` panics |
| `Uri.AsciiNeverPanics` | src/lsp.rs:510-527 | input without multi-byte characters never reaches the panic |
| `Uri.PercentDecode` | src/lsp.rs:510-527 | the corrected loop equals `Decode` on the input's bytes and is never longer than them |
| `Uri.DecodeEncoded` | src/lsp.rs:510-527 | decoding undoes percent-encoding byte for byte |
| `Uri.DecodeWithoutPercent` | src/lsp.rs:523-524 | bytes without `%` are copied through |
| `Uri.UriToPath` | src/lsp.rs:499-507 | a string that is not a `file://` URI is its own path; a `file://` URI's path is no longer than the UTF-8 bytes of the text after `file://` |
| `Uri.EncodedUriToPath` | src/lsp.rs:499-527 | a path written as a fully percent-encoded `file://` URI comes back as those bytes |
| `Uri.PlainUriToPath` | src/lsp.rs:534-538 | an ASCII path without `%` is its own `file://` URI's path |
| `Uri.EscapedSpaceInPath` | src/lsp.rs:539-542 | `file:///home/user/my%20file.go` is `/home/user/my file.go` |
| `Uri.OtherUriUnchanged` | src/lsp.rs:504-506 | a URI that is not `file://` is taken as the path unchanged |
| `Uri.ExtractUri` | src/lsp.rs:490-496 | a URI exactly when `params.textDocument.uri` is a string, and then that string |
| `Uri.ExtractUriOf` | src/lsp.rs:546-559 | a message that carries `params.textDocument.uri` gives it back |
| `Uri.ExtractUriMissing` | src/lsp.rs:562-567 | a message without `params` has no URI |
| `Messages.NullResponse` | src/lsp.rs:163-167 | the null result carries the request's id and no method |
| `Messages.InitializeRequest` | src/lsp.rs:114-119 | the backend's `initialize` carries the id, the method and the params |
| `Messages.InitializedNotification` | src/lsp.rs:273-277 | `initialized` is a notification: it has a method and no id |
| `Messages.RootedParams` | src/lsp.rs:106-113 | with a parent directory, rooting succeeds exactly on `null` or an object and sets `rootUri` to `file://<dir>` and `rootPath` to `<dir>`; without one, the params are unchanged |
| `Messages.RootedParamsKeepsOthers` | src/lsp.rs:106-113 | every other member of the editor's params reaches the backend unchanged |
| `Messages.DrainForwardsNotifications` | src/lsp.rs:436-444 | every message a drain forwards is a notification |
| `Messages.DrainAnswered` | src/lsp.rs:436-440 | a drain that answers splits the queue into the forwarded notifications, the response and the rest |
| `Messages.DrainTimedOut` | src/lsp.rs:424-433 | a drain that times out forwarded the whole queue |
| `Messages.DrainNotJson` | src/lsp.rs:435-436 | a drain that stops at a message that is not JSON consumed exactly that message after the forwarded ones |
| `Messages.DrainShape` | src/lsp.rs:424-444 | a drain forwards notifications only, then returns a response, stops at a message that is not JSON, or finds the queue empty |
| `Messages.FirstResponseWins` | src/lsp.rs:436-443 | the first response in the queue is returned, whatever follows it, and the notifications before it are forwarded in order |
| `Messages.OnlyNotificationsTimeOut` | src/lsp.rs:425-433 | a queue of notifications is forwarded whole, and the read then times out |
| `Messages.Collect` | src/lsp.rs:84-93 | every collected profile was not seen before and has a config path, which is collected with it |
| `Messages.CollectDistinct` | src/lsp.rs:85-87 | no profile is collected twice |
| `Messages.CollectSound` | src/lsp.rs:86 | every collected profile is the profile of some rule |
| `Messages.CollectComplete` | src/lsp.rs:86-92 | every profile with a config path that was not seen before is collected |
| `Messages.CollectOrder` | src/lsp.rs:84-93 | the collected profiles keep first-seen order: of two collected profiles, the one collected first is named by an earlier rule |
| `Proxy.Handshake` | src/lsp.rs:244-283 | a lazily spawned backend gets nothing before any `initialize`. Otherwise it gets `initialize` with id 1 and the kept params rooted at its directory, then `initialized`. The rooting panic is `None` |
| `Proxy.RouteOf` | src/lsp.rs:185-213 | a document message has no route exactly when it has no URI; it is routed exactly when `resolve_config` gives a config path for the URI's path, and then to that file and config |
| `Proxy.MergeFor` | src/lsp.rs:216-231 | a file without a parent directory needs no merge; otherwise `build_merged_config` for its directory |
| `Proxy.EffectiveConfig` | src/lsp.rs:216-231 | the merged config when one was built, otherwise the profile's config |
| `Proxy.DrainReply` | src/lsp.rs:436-443 | `read_from_backend` forwards notifications only, and returns only responses |
| `Proxy.AnswerFrom` | src/lsp.rs:412-445 | what the editor gets for a request answered from a backend: the notifications read before its first response, then that response, or the null fallback when the read fails |
| `Proxy.AnswerFromResponse` | src/lsp.rs:436-441 | a response queued behind notifications is the reply, whatever follows it, and the notifications reach the editor first |
| `Proxy.AnswerFromTimeout` | src/lsp.rs:424-433 | a queue holding notifications only is forwarded whole, and the reply is the null fallback |
| `Proxy.SentAll` | src/lsp.rs:139-148 | sending a message to every backend keeps the registry's paths, appends the message's frame to each stdin and leaves each queue as it was |
| `Proxy.SentAndRead` | src/lsp.rs:155-160 | sending to every backend and reading its answer appends the frame to each stdin and leaves each queue with what the read did not take |
| `Proxy.ForwardedAll` | src/lsp.rs:155-160 | the messages forwarded while reading every backend's answer in turn are notifications only |
| `Proxy.ShutDownReplies` | src/lsp.rs:150-169 | after `shutdown` the editor gets notifications only, then the null result with the request's id as its last reply |
| `Proxy.Fresh` | src/lsp.rs:244-283 | a freshly spawned backend's stdin is exactly the handshake; with an `initialize` seen, the answer to its handshake was read off its queue, otherwise the queue is untouched |
| `Proxy.Greeting` | src/lsp.rs:254-272 | what a fresh backend forwards to the editor during its handshake is notifications only, and nothing when no `initialize` was seen |
| `Proxy.Delivered` | src/lsp.rs:287-320 | the routed message's frame is appended to the backend's stdin; for a request its answer is read off the queue, and a notification leaves the queue untouched |
| `Proxy.Replies` | src/lsp.rs:287-320 | a notification sends the editor nothing; a request sends it the backend's drained answer: notifications, then the response or the null result |
| `Proxy.ForwardedHalts` | src/lsp.rs:233-285 | forwarding stops the proxy only when a backend could not be spawned or greeted; otherwise the path is registered and no other path is added |
| `Proxy.ForwardedReplies` | src/lsp.rs:287-320 | a forwarded notification sends the editor notifications only; a forwarded request sends one reply after them |
| `Proxy.FirstAnswer` | src/lsp.rs:96-129 | `initialize` gets a reply exactly when some collected backend answered; the reply is a response |
| `Proxy.InitForwarded` | src/lsp.rs:96-129 | the messages `initialize` forwards while reading each backend's answer are notifications only |
| `Proxy.HandledOutcome` | src/lsp.rs:74-356 | whatever the message, the loop ends on `exit` and on nothing else that succeeds; a spawn failure names a path that cannot be spawned; only `initialize` changes the kept params; the registry and the kept merged configs only grow |
| `Proxy.DispatchedOutcome` | src/lsp.rs:68-74 | a frame body ends the loop with `Exited` exactly when it parses to an `exit` message |
| `Proxy.TraceSnoc` | src/lsp.rs:61-73 | a run extended by one dispatched body is still a run, and its replies are the old ones followed by that body's |
| `Proxy.TraceOutcome` | src/lsp.rs:61-181 | a run that stopped early stopped at its last body: at `exit` exactly when that body is `exit`, otherwise at a backend that could not be spawned or greeted |
| `Proxy.LspProxy.constructor` | src/lsp.rs:45-58 | the proxy starts with no backends, no kept params, no merged configs and nothing written |
| `Proxy.LspProxy.Write` | src/lsp.rs:481-486 | one frame is appended to the editor's stream |
| `Proxy.LspProxy.SendToBackend` | src/lsp.rs:393-408 | the message's frame is appended to that backend's stdin; a path without a backend writes nothing and succeeds |
| `Proxy.LspProxy.ReadFromBackend` | src/lsp.rs:412-445 | a missing backend is an error. Otherwise the queue is drained: the notifications before the first response go to the editor in order, the response is returned, and the rest stays queued |
| `Proxy.LspProxy.Pump` | src/lsp.rs:424-444 | the loop returns the drain's result, leaves the drain's rest queued, and writes exactly the forwarded notifications to the editor |
| `Proxy.LspProxy.Spawn` | src/lsp.rs:362-391 | a successful spawn registers a fresh backend under the path, replacing any previous one; a failed spawn changes nothing |
| `Proxy.LspProxy.Keys` | src/lsp.rs:141-143 | exactly the registered paths, each once |
| `Proxy.LspProxy.Broadcast` | src/lsp.rs:145-147 | every registered backend is sent the message, and nothing else changes |
| `Proxy.LspProxy.BroadcastAll` | src/lsp.rs:141-147 | the registry becomes `SentAll` of the message, the keys returned name each backend once, and nothing is written to the editor |
| `Proxy.LspProxy.SendAndDrop` | src/lsp.rs:156-159 | the backend is sent the message and its answer read; its queue keeps what the read did not take, and exactly the drained notifications reach the editor |
| `Proxy.LspProxy.Answer` | src/lsp.rs:291-319 | the backend's queue loses what the read took, and the editor gets exactly `AnswerFrom` of that queue: the drained notifications, then the backend's response or, failing one, a null result with the id |
| `Proxy.LspProxy.SendAndDropAll` | src/lsp.rs:156-160 | the registry becomes `SentAndRead` of the message: each backend was sent it and its queue keeps what the read did not take. The editor gets exactly the drained notifications of every backend, in one pass over the map |
| `Proxy.LspProxy.Shutdown` | src/lsp.rs:150-169 | `ShutDown`: every backend was sent `shutdown` and its answer read off its queue; the editor gets each backend's drained notifications in one pass over the map, then a null result with the request's id |
| `Proxy.LspProxy.Other` | src/lsp.rs:324-355 | `OtherDone`: every backend is sent the message. A request then gets `AnswerFrom` of one registered backend's queue, whose read is taken off that queue. A notification, or a request while no backend runs, gets nothing |
| `Proxy.LspProxy.Greet` | src/lsp.rs:244-283 | fails, changing nothing, exactly when rooting the params panics; otherwise the backend's stdin is exactly the handshake, its queue loses the handshake's answer, and the editor gets the drained notifications |
| `Proxy.LspProxy.SendHandshake` | src/lsp.rs:254-282 | the fresh backend's stdin becomes the `initialize` and `initialized` frames, its queue loses the `initialize` answer, and the editor gets the drained notifications |
| `Proxy.LspProxy.EnsureBackend` | src/lsp.rs:233-285 | `Ready`: a registered backend is kept as it is; otherwise the backend is `Fresh`, spawned and given the handshake (and its answer read) when `initialize` was seen, and the editor gets its `Greeting`. Failing to spawn or to greet stops the proxy, and a failed spawn changes nothing |
| `Proxy.LspProxy.Deliver` | src/lsp.rs:287-320 | the backend becomes `Delivered`: the message is appended to its stdin and, for a request, the answer is read off its queue; the editor gets `Replies`: the backend's drained answer for a request, nothing for a notification |
| `Proxy.LspProxy.MergeConfig` | src/lsp.rs:216-231 | the effective config is used, and a merged config is kept alive |
| `Proxy.LspProxy.Forward` | src/lsp.rs:233-320 | `Forwarded`: the message is delivered to the backend for the path, spawned and greeted first if need be, with exact queues and replies; the proxy stops only when bringing the backend up fails |
| `Proxy.LspProxy.TextDocument` | src/lsp.rs:183-322 | `Document`: a message without a URI is dropped. A message whose file resolves to no config is dropped, or answered with a null result when it is a request. Otherwise it is `Forwarded` to the backend of its effective config, and a merged config is kept alive |
| `Proxy.LspProxy.CollectConfigs` | src/lsp.rs:84-93 | the loop collects the config paths of `Collect` over `match_rules_iter`, in order |
| `Proxy.LspProxy.InitOne` | src/lsp.rs:97-128 | a config's backend is spawned, sent the rooted `initialize` and nothing else, and its answer read off its queue; the editor gets the drained notifications and the answer is returned. The proxy stops, adding nothing, on a failed spawn or a panic while rooting the params |
| `Proxy.InitStoppedUnique` | src/lsp.rs:96-121 | where and why the `initialize` handler stops is determined by the configs alone: two halts at first failing configs are the same halt |
| `Proxy.LspProxy.InitBackends` | src/lsp.rs:96-129 | every collected config gets a backend that was sent `initialize` and nothing else and whose queue lost the answer read; the forwarded notifications and the first answer are exact. It stops at the first config that cannot be spawned or whose params cannot be rooted, with the editor having got exactly what the configs before it forwarded |
| `Proxy.LspProxy.Initialize` | src/lsp.rs:77-137 | `InitDone`: the params are kept, every collected config's backend is started as `InitBackends` says, and the editor gets the drained notifications, then the first backend answer, or no reply when none answered; a halt happens at the first config that cannot be brought up, after exactly the notifications of the configs before it |
| `Proxy.LspProxy.Lifecycle` | src/lsp.rs:139-181 | `initialized` and `exit` reach every backend (the registry becomes `SentAll` of the message) and write nothing to the editor; `shutdown` does what `ShutDown` says; only `exit` ends the loop |
| `Proxy.LspProxy.Handle` | src/lsp.rs:74-356 | `Handled`: `initialize` does what `InitDone` says and keeps the params; `initialized` and `exit` are sent to every backend; `shutdown` does what `ShutDown` says; a `textDocument/` method does what `Document` says; any other method does what `OtherDone` says |
| `Proxy.LspProxy.Dispatch` | src/lsp.rs:68-72 | `Dispatched`: a body that is not JSON is skipped and changes nothing; a JSON body is `Handled` as its message |
| `Proxy.LspProxy.Turn` | src/lsp.rs:61-73 | one read and one dispatch: the run so far is extended by the body read, or it ends, at end of input with every message handled, or at the body that stopped it |
| `Proxy.LspProxy.Run` | src/lsp.rs:40-73 | `RunEnded`: the proxy went from its first state to its last through one `Dispatched` step per message read, in order, and the editor got every step's replies in order. At end of input every readable message was handled, and the run ends with `BodyTooLarge` exactly when the message that could not be read announced a length above `isize::MAX`; otherwise the loop stopped at the last message handled, at `exit` or at a backend that could not be brought up |
| `CommandLine.Extract` | src/cli.rs:42-57 | what remains of the arguments holds no `--config=...`, and holds `--config` only as its last element when the arguments ended with it |
| `CommandLine.ExtractPlain` | src/cli.rs:42-57 | without any `--config`, the arguments are left whole and no override is set |
| `CommandLine.ExtractAppend` | src/cli.rs:42-57 | removing `--config` piece by piece equals removing it from the whole: arguments keep their order, and the later setting wins |
| `CommandLine.LastConfigWins` | src/cli.rs:44-53 | the last `--config v` or `--config=v` wins |
| `CommandLine.TrailingConfigKept` | src/cli.rs:44-55 | a trailing `--config` with no value stays an ordinary argument |
| `CommandLine.ParseFrom` | src/cli.rs:37-83 | the override is the extracted one. No remaining argument gives an empty passthrough. `fmt`, `check`, `config`, `output-file-paths` and `lsp` select their commands: `config` takes only the first sub-argument, and the last two ignore theirs. Anything else passes all remaining arguments through |
| `CommandLine.ScanFmt` | src/cli.rs:85-111 | the files never include `--stdin`, `-h` or `--help`, and are no more than the arguments |
| `CommandLine.ParseFmt` | src/cli.rs:85-111 | the loop agrees with the reference scan of `fmt`'s arguments |
| `CommandLine.FmtPlain` | src/cli.rs:105 | without flags, every argument is a file, in order |
| `CommandLine.FmtHelp` | src/cli.rs:100-104 | without `--stdin`, a help flag anywhere passes `fmt` and all its arguments through |
| `CommandLine.FmtStdin` | src/cli.rs:92-98 | `--stdin X` names X as the stdin file; a trailing `--stdin` with no value is dropped |
| `CommandLine.ParseCheck` | src/cli.rs:113-128 | a help flag anywhere passes `check` and all its arguments through; otherwise every argument is a file, in order |

## Left out

- Threads, the `mpsc` channel and the one-second read timeout. Each backend's output is a queue fixed at spawn time, and "timed out" means the queue is empty.
- Write and flush failures on the editor's stdout and on a backend's stdin: every write is modelled as succeeding.
- JSON text is outside the model: parsing (`serde_json::from_str`) and printing (`to_string`) are functions in `Proxy.Env`. A body that does not parse is skipped.
- `globset`, the content regexes, `dirs::home_dir`, `Path::parent`, `Command::spawn` and the file system are parameters.
- `build_merged_config`, `DprintxConfig::resolve_profile` and `compile_content_patterns` are not part of this model. The first is the `merge` function of `Proxy.Env`. `Config.ResolveProfile` follows the doc comment of `resolve_config`. Content patterns arrive compiled.
- `MconfConfig::load`, `try_load_default` and `dprint_path`, and the config file's deserialisation into `MconfConfig`, are left out; the model starts from the parsed value.
- src/runner.rs and src/main.rs are not part of this model: the formatting runs, diffs and passthrough execution.
- The `eprintln!` diagnostics are left out.
- Proxy.LspProxy.Keys: HashMap iteration order is left open, as a nondeterministic choice. So `Proxy.LspProxy.Other` states only that the reply comes from some registered backend, not which one.
- Proxy.LspProxy.Other: the backend that answers a request is some registered one, because the map's order is left open; its answer is then exact.
- Proxy.LspProxy.Shutdown: the order in which the backends' notifications reach the editor is some pass over the map, not a fixed one; `Proxy.LspProxy.SendAndDropAll` likewise.
- Proxy.Forwarded: when rooting the params panics, the registry after the spawn is left unconstrained, because the run ends there.
- Proxy.InitDone: when a config cannot be brought up, the registry is left unconstrained, because the run ends there.
- Codec.ReadBody: an allocation that fails for lack of memory, for a length up to `isize::MAX` that the machine cannot hold, aborts the program; the model has no memory bound and reports `ShortBody` when the stream is shorter.
- Proxy.RouteOf: src/lsp.rs:196-197 uses the result of `resolve_config` as a config path. The model routes a `ConfigPath` and treats `Ignore` like an unresolved file: a request gets a null result.
- Proxy.LspProxy.Run: spawning a backend fails with `?` and ends `run`, and so does a panic while rooting the `initialize` params. The model ends the loop there (`SpawnFailed`, `Panicked`) rather than carrying on.
- Proxy.LspProxy.Run: the proxy uses the corrected `Uri.UriToPath`, which never panics (see Findings).
- Uri.Latin1: pushing each decoded byte as a `char` (`byte as char`) is modelled as written, so the two bytes of `é` become `Ã©` rather than being reassembled.
- Proxy.LspProxy.ReadFromBackend: a message from a backend that is not JSON ends the read with an error (src/lsp.rs:436), and that message is consumed.
- Json: numbers are integers, and objects keep insertion order (serde_json's `preserve_order`).
- `Utf8.TrimSlice` and `Jsonc`'s whitespace rely on the Unicode White_Space table as of Rust's `char::is_whitespace`. No other Unicode property is modelled.

## Findings

| source | as written | input that shows it | evidently intended | confidence | as-written member | corrected member |
|---|---|---|---|---|---|---|
| src/lsp.rs:515-517 | `percent_decode` slices `&input[i + 1..i + 3]`, which panics when `i + 3` falls inside a multi-byte character | `file://%aé` (bytes `%`, `a`, `0xC3`, `0xA9`): the slice ends inside `é`, so the editor's message crashes the proxy | test the two bytes after `%` without slicing the `str`, and copy the `%` when they are not hex digits | not executed | `Uri.DecodeAsWritten`, `Uri.PanicExample` | `Uri.Decode`, `Uri.PercentDecode` |
