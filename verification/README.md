# Verification of oas-rs

oas-rs is a Rust HTTP framework. Most of it connects Hyper, Tokio and serde; the
parts modelled here are the self-contained algorithms inside it, whose promises
range over every type graph, every history of calls, every interleaving or every
way of cutting a stream of bytes. `dafny verify dfyconfig.toml` checks the whole
project.

## What is modelled

**Request and response schemas** (`TypeGraph`, `RegistryState`, `SchemaRegistry`,
`SchemaDocument`). A registry builds the components of an OpenAPI document over a
graph of types that may be cyclic. A type needs a separate `{Name}Input` component
when its request form differs. A type still being built is assumed unchanged; when
that proves wrong, everything finished since is forgotten and built again. The
invariant `Valid` says what each assumption is worth while it is pending. The
result is that the finished document depends on the graph alone: the request form
of a type is `{Name}Input` exactly when the type is in the least fixpoint of
"differs itself or refers to one that does", whatever was assumed on the way.

**The rate limiter** (`Limiter`, `LimiterRuns`). A sharded, capped table of token
buckets with sweeping and a shared overflow bucket. It refines an ideal limiter
with one never-forgotten bucket per key, and a potential argument (what each bucket
is short of being full) bounds what all keys together can be admitted.

**Routing and layers** (`Codec`, `Path`, `Routes`, `Trie`, `DynamicRoutes`,
`Scopes`, `App`, `Params`). An index-based trie with backtracking refines a linear
scan of patterns; dispatch refines a description that mentions only the list of
registered routes; layer scopes, which are matched before routing and by other code,
are never narrower than routing, so no request reaches a route past a layer meant
for it; captured names are paired with the decoded text of their own segments.

**The HTTP/2 connection watchdog** (`Watchdog`, `WatchdogRuns`). Request guards, response streams,
socket writes and the loop of `drive_h2` as one state machine whose steps are single
atomic operations or clock readings, interleaved in any order. Statements are about
every run: they trace each decision of the loop back to what it saw in that same round,
and say what it decides wherever it saw that. Time is exact and the clock readings drop
fractions of a millisecond, as `as_millis` does.

**Streams of bytes** (`Frames`, `Multipart`, `Preface`, `Sse`). The HTTP/2 frame
scanner, the multipart delimiter scan and the guard around it, the detection of the
HTTP/2 preface with the rewinding reader, and the printer of server-sent events
against the parser of the WHATWG standard. None of the results depends on how bytes
are cut.

Objects that the source updates in place are classes, each with a value (`Snap`,
`View`, `Value`, `State`, `seen`) that its methods are specified by; the lemmas are
about those values. `hide` statements only keep definitions out of proofs that do
not need them.

## Where the code says something else than expected

- `stalled_for` compares whole milliseconds, so in real time the stall limit is not always
  reached. `StallTimeExactly` says which time is: a drop always finds a chunk untaken for X
  if and only if X is at most the limit rounded up to whole milliseconds, less one. The
  limit itself is always reached only if it is zero (`LimitIsReachedExactly`);
  `BarelyStalledRun` gives the runs that fall short. Whoever needs the full time adds a
  millisecond.
- The comment on `drive_h2` promises that a connection with requests in flight is never
  cut (src/runtime.rs:1410). `InFlightIsCutExactly`: that is so if and only if no stall
  limit is set. The drop while closing keeps the promise (`GraceDropCutsNothing`).
- The bytes `DelimiterScan` carries are not forgotten when the parser, rather than
  the delimiter, ends the skipping of a part. `LeftoverMattersExactly` says exactly
  when that can make the scan of the next skipped part report too early.
- Slashes at the end of a path are ignored, but for a lone slash: a route for `/` does not
  answer `//`, and one registered as `//` answers `//` and not `/`. `RegisteredIsReached`
  says so exactly (src/path.rs:67-83).
- After a registration panics nothing is promised about the tables:
  `static_routes.entry(..).or_default()` may leave an empty entry behind
  (src/app.rs:953-956).

## Model

| member | source | states |
|---|---|---|
| TypeGraph.DiffersIsLeastFixpoint | src/schema.rs:124-134 | "Differs itself or reaches a type that does" is the least set of types closed under "differs itself or refers to one in it", over any graph, cycles included |
| TypeGraph.NothingDiffersInside | src/schema.rs:131-134 | In a set of types closed under reference, none of which differs itself, no type differs: why a cycle of optimistic assumptions is right |
| SchemaRegistry.Registry.Define | src/schema.rs:91-122 | The response component of a type is registered once under its name with everything it refers to; where another type owns that name, exactly that name is appended to the conflicts, unless it is listed, and nothing else changes |
| SchemaRegistry.Registry.Output | src/schema.rs:112-118 | Building a response body names each child by its plain name and registers them all |
| SchemaRegistry.Registry.DefineInput | src/schema.rs:135-197 | Keeps the invariant, finishes or keeps building the type, returns its current form, records the assumption made about a type still being built, and terminates on every graph |
| SchemaRegistry.Registry.Build | src/schema.rs:159-197 | A type met for the first time ends up finished under the reference returned |
| SchemaRegistry.Registry.Start | src/schema.rs:159-161 | Starting a type marks it, registers its response form and remembers what was finished before |
| SchemaRegistry.Registry.Input | src/schema.rs:162-162 | The request body built refers to each child by the form known when the body is complete, and no assumption on the way goes unrecorded |
| SchemaRegistry.Registry.FinishSame | src/schema.rs:164-166 | A type whose two bodies are equal is finished under its plain name and nothing built before becomes wrong |
| SchemaRegistry.Registry.Rebuild | src/schema.rs:167-180 | After the rollback the new body is right and differs from the response body |
| SchemaRegistry.Registry.Forget | src/schema.rs:172-178 | The rollback loop removes exactly what finished since the type started, its components and their owners included |
| SchemaRegistry.Registry.Register | src/schema.rs:181-191 | The `Input` component is registered unless another type owns the name, which is reported once |
| SchemaRegistry.Registry.FinishDiffers | src/schema.rs:181-196 | A type whose bodies differ is finished under `{Name}Input` |
| SchemaRegistry.CountRollback | src/schema.rs:167-180 | A type is discarded and rebuilt at most once in the registry's life, because it is then known to differ |
| RegistryState.StartKeepsValid | src/schema.rs:159-161 | Starting a type keeps every invariant of the registry |
| RegistryState.FinishSameKeepsValid | src/schema.rs:164-166 | So does finishing one unchanged, although others may have assumed it |
| RegistryState.FinishDiffersKeepsValid | src/schema.rs:181-196 | So does finishing one that differs |
| RegistryState.RollbackKeepsValid | src/schema.rs:168-178 | So does the rollback: what is left relied on no assumption about the type |
| RegistryState.RollbackKeepsForms | src/schema.rs:168-178 | The types that stay finished refer only to types that stay |
| RegistryState.RollbackKeepsComponents | src/schema.rs:168-178 | Rollback leaves no stale and no orphan component |
| RegistryState.AssumeKeepsValid | src/schema.rs:149-155 | Recording an assumption keeps the invariants |
| SchemaDocument.ValidSettles | src/schema.rs:147-196 | With nothing being built, every recorded form stands on no assumption any more |
| SchemaDocument.SettledForms | src/schema.rs:135-197 | Then a finished type counts as differing exactly when it does, and its form is `{Name}Input` exactly then |
| SchemaDocument.DocumentIsRight | src/schema.rs:91-197 | The components are exactly those the graph asks for, each body refers to each child by its final form, and no two types share a name |
| SchemaDocument.BuildDocument | src/schema.rs:91-197 | For every list of roots: conflicts are reported exactly when two types need the same component name, the first reported is a name two different types need, and none is reported twice; otherwise the document is right and every reference returned on the way is final; and the calls of all builders, for responses and requests, are at most outs + 2 * ins + 2 * ins * ins |
| SchemaDocument.DocumentIsUnique | src/schema.rs:91-197 | The document is determined by the graph and what is reached |
| SchemaDocument.OrderDoesNotMatter | src/schema.rs:91-197 | Two lists of the same roots, in any order and with repetitions, give the same document |
| SchemaDocument.EveryReferenceResolves | src/schema.rs:121-146 | Every reference in every stored body names a stored component |
| Limiter.BuildShards | src/rate_limit.rs:47-69 | One shard below 1024 keys and 16 from there on, each empty with a full overflow bucket, and no two caps further apart than one, the larger first |
| Limiter.Limiter.RefillBucket | src/rate_limit.rs:208-213 | Refilling never takes a token away, never exceeds the burst and never moves a bucket's clock back, whatever the reading |
| LimiterRuns.RefillInSteps | src/rate_limit.rs:208-213 | Refilling at one time and again later is refilling once at the later time |
| Limiter.Limiter.Take | src/rate_limit.rs:216-267 | One call changes the table and answers as the step function on its value says, which the rows from KnownKeyExactly to OneShardExactly determine completely |
| LimiterRuns.KnownKeyExactly | src/rate_limit.rs:234-266 | A call for a known key is admitted exactly when its own bucket, refilled for the time since its last use and capped at the burst, holds a whole token; that token is taken, and nothing else changes |
| LimiterRuns.NewKeyExactly | src/rate_limit.rs:234-266 | While its shard has room a new key is admitted and gets a bucket of its own with the burst less one |
| LimiterRuns.FullShardExactly | src/rate_limit.rs:222-266 | For a new key a full shard is swept exactly when it was not swept for max(1, 1/rate) seconds, which drops exactly the buckets that are full again; the key then gets a bucket if there is room, and is otherwise served from the overflow bucket alone |
| LimiterRuns.OneShardExactly | src/rate_limit.rs:216-219 | A call touches the shard given by the hash modulo the number of shards and no other |
| LimiterRuns.BurstExactly | src/rate_limit.rs:216-267 | Of the calls at one instant for a new key that is not sent to overflow, exactly as many as the burst has whole tokens are admitted, or all if there are fewer, whatever other keys call in between |
| LimiterRuns.RetryAfterIsLeast | src/rate_limit.rs:279-282 | The `Retry-After` sent is the least whole number of seconds, at least one, that is no less than the wait |
| LimiterRuns.OwnKeyTracks | src/rate_limit.rs:216-267 | A call for a known or re-created key gets the answer of the key's ideal bucket and stays in step with it |
| LimiterRuns.RunTracks | src/rate_limit.rs:216-267 | Over any run with a nondecreasing clock the stored bucket of a key never sent to overflow is the ideal one, or is gone while the ideal one is full |
| LimiterRuns.IdealForTrackedKeys | src/rate_limit.rs:216-267 | Every key never sent to the overflow bucket gets exactly the answers of a limiter with one never-forgotten bucket per key: sharding, the cap and the sweep are invisible |
| LimiterRuns.CapsAddUp | src/rate_limit.rs:53-66 | The caps of the shards add up to exactly the key limit |
| LimiterRuns.CapIsKept | src/rate_limit.rs:222-265 | Over any run, the clock in any order, each shard keeps within its cap |
| LimiterRuns.SweepsAreApart | src/rate_limit.rs:227-233 | Two sweeps of a shard are at least max(1, 1/rate) seconds apart, the clock in any order |
| LimiterRuns.BucketBound | src/rate_limit.rs:208-260 | One bucket admits at most its tokens plus the rate times the advance of its clock, for readings in any order |
| LimiterRuns.WaitIsExact | src/rate_limit.rs:252-282 | After a refusal the same key is admitted exactly from the returned wait on, hence after the rounded Retry-After |
| LimiterRuns.TakeAddsDebt | src/rate_limit.rs:216-267 | A call adds exactly what it admits to what its shard's buckets are short of: sweeping, re-creation and overflow add nothing |
| LimiterRuns.AdmitsAreDebt | src/rate_limit.rs:216-267 | Over a run, what is admitted is paid for by that debt, which time reduces by the rate per bucket |
| LimiterRuns.WindowBound | src/rate_limit.rs:47-267 | However keys are varied, at most (max_keys + shards) * (burst + rate * T) are admitted in any window of length T, after any history |
| Codec.PercentDecode | src/codec.rs:157-187 | Decoding that copies whole runs equals decoding byte by byte |
| Codec.LiteralRun | src/codec.rs:163-166 | The run copied ends at the next `%` or at the end |
| Codec.ValidPercentEncoding | src/codec.rs:195-212 | Accepts exactly the text in which every `%` starts an escape |
| Codec.DecodeQueryComponent | src/codec.rs:187-193 | The shortcut for text without `%` changes no result |
| Codec.BadEscapeExactly | src/codec.rs:157-212 | Decoding reports a bad escape exactly when the encoding is not valid |
| Codec.PlainTextIsItself | src/codec.rs:187-193 | Text without `%` decodes to itself |
| Codec.DecodingUndoesWriting | src/codec.rs:157-187 | Decoding gives a text exactly if what was decoded writes its bytes one by one, any but `%` as itself and any as `%` with two digits in either case |
| Codec.HexExactly | src/codec.rs:214-221 | The digits are those of 0123456789abcdef and 0123456789ABCDEF and no other byte |
| Codec.ValidUtf8Exactly | src/codec.rs:184-186 | The bytes accepted as text are exactly the UTF-8 encodings of lists of Unicode scalar values |
| Codec.DecodingUndoesEncoding | src/codec.rs:157-187 | Decoding undoes any encoder that escapes `%` and whatever else it likes |
| Path.PathParts.Next | src/path.rs:47-64 | The iterator yields the next part with its byte range and moves past it |
| Path.PartsAreRuns | src/path.rs:44-65 | The parts are exactly the maximal runs of bytes other than slashes, from left to right |
| Path.TrailingSlashesIgnored | src/path.rs:67-83 | Slashes at the end change neither the parts nor their byte ranges |
| Path.NormalizedParts | src/path.rs:67-83 | Normalizing a path or a template changes none of its parts |
| Path.NormalizedExactly | src/path.rs:67-83 | Of a path of more than one byte exactly the slashes at its end are taken off; a shorter one stays as it is, but for the empty template, which becomes `/` |
| Path.RegisteredIsLookedUp | src/path.rs:67-83 | A template and a request that differ in the slashes at their ends only normalize to the same text, unless just one of them is a lone slash |
| Path.JoinKeepsSegments | src/group.rs:4-13 | A joined path has the segments of the prefix, then those of the path |
| Path.JoinExactly | src/group.rs:4-13 | The joined path has exactly one slash before each of the two parts that is not empty, whatever slashes were given around them |
| Routes.InsertSetsRoute | src/router/mod.rs:224-234 | Inserting sets one method's route, keeps the mask in step, and panics exactly on a duplicate or an unsupported method |
| Routes.EmptyExactly | src/router/mod.rs:214-267 | The mask is zero exactly when no method has a route |
| Routes.ResolvesTo | src/router/mod.rs:322-342 | A request resolves to its method's route, `HEAD` to `GET`'s when it has none; otherwise the list of allowed methods is exactly those registered, each once and in alphabetical order |
| Trie.CaptureIsAppended | src/router/mod.rs:296-314 | Packing two positions into one word loses nothing below 4 GiB and appends one range |
| Trie.ChildExists | src/router/mod.rs:358-388 | Every registered pattern below a node is below the child for its next segment |
| Trie.FindNodeIsRight | src/router/mod.rs:397-432 | The backtracking search below any node finds the preferred match with the range of each capture, or nothing exactly when there is none |
| Trie.NothingBelow | src/router/mod.rs:416-431 | Not taking the capture branch, at the limit of 8 captures included, hides no registered route |
| DynamicRoutes.DynamicRouteTrie.Insert | src/router/mod.rs:358-388 | Changes the entry of its own pattern only, and fails exactly on a duplicate or an unsupported method |
| DynamicRoutes.DynamicRouteTrie.Descend | src/router/mod.rs:361-385 | Goes to the child for a segment, adding a node if there is none, without registering anything |
| DynamicRoutes.FindIsLinearScan | src/router/mod.rs:390-432 | Looking up a path is a linear scan of the registered patterns for the best match, with its routes and the exact byte ranges |
| DynamicRoutes.BestMatchIsUnique | src/router/mod.rs:405-411 | At most one pattern is preferred at the first difference |
| Scopes.TemplateExactly | src/path.rs:3-19 | A template parses to exactly the segments that, written out again (a literal without braces, or a name in braces), give its parts one by one, and panics exactly when there are none |
| Scopes.ScopeAndTemplateAgree | src/middleware.rs:128-144 | A scope pattern panics exactly when the same route template does, and otherwise has a literal for each literal and a wildcard for each capture |
| Scopes.MatchDecoded | src/middleware.rs:166-168 | Only text with `%` is compared decoded, and undecodable text never matches |
| Scopes.MatchSegments | src/middleware.rs:172-186 | Walking the path matches exactly when each pattern segment matches the segment in its place, and for an exact scope none is left; what it is to match is pinned by ScopeMatchesExactly |
| Scopes.MatchScope | src/middleware.rs:146-158 | The method decides ScopeMatches, which ScopeMatchesExactly pins |
| Scopes.ScopeMatchesExactly | src/middleware.rs:146-186 | A scope matches a request if and only if each literal of its pattern is the segment in its place, or that segment has a `%` and percent-encodes the literal; a scope of one route has as many segments as the path, and its method is the request's or `GET` for `HEAD` |
| Scopes.Run | src/middleware.rs:219-237 | The chain skips to each next layer that covers the request as it then is |
| Scopes.ChainExactly | src/middleware.rs:219-237 | Whatever layers do to requests: a layer runs exactly when the layers before it that ran passed a request on and its scope matches that request; and what the last one passed on is dispatched |
| Scopes.OtherLiteralDoesNotRun | src/middleware.rs:172-237 | A layer with a literal other than the plain segment in its place, in the request as it reaches the layer, does not run |
| Scopes.CoveringLayersRun | src/middleware.rs:219-237 | If layers keep the method and path, exactly the covering layers run, in order, up to one that answers |
| Scopes.SkippingTheChain | src/runtime.rs:42-46 | When no layer covers a request, the chain only dispatches it |
| Scopes.Prepare | src/runtime.rs:164-184 | Skipping the chain when no layer covers the request changes no outcome |
| App.App.AddRoute | src/app.rs:896-1066 | Panics exactly for a path without a leading slash, a malformed template, a route that is there already or an unsupported method; refuses exactly templates with more than 8 captures; otherwise adds the route, and the tables hold exactly the listed routes; the first refusal is remembered |
| App.App.Enter | src/app.rs:950-959 | The route goes into the table for its kind under its key and method, and no other entry changes |
| App.App.RouteLayer | src/app.rs:458-470 | Does nothing before the first route; otherwise adds a layer for exactly the method and pattern of the last route, which covers it |
| App.App.LayerFor | src/app.rs:484-490 | Panics on exactly the patterns that are no route template |
| App.App.Layer | src/app.rs:439-445 | Adds, after the earlier ones, a layer whose scope matches every request and so covers every route |
| App.DispatchIsLinear | src/runtime.rs:187-222 | Dispatch gives what the list of routes says: the template equal to the path without the slashes at its end, else the best matching pattern, then the method; with the ranges of its captures; and not found exactly when nothing fits |
| App.KeyExactly | src/app.rs:948-958 | A route without captures is looked up by its template, any other by the sequence of its literals and captures |
| App.SlashesDispatchAlike | src/runtime.rs:190-193 | A path of more than one byte goes where it goes with any slashes put at its end |
| App.RegisteredIsReached | src/runtime.rs:187-193 | A route without captures is reached by its method under the path it was registered with, however many slashes end either, if and only if not just one of them is a lone slash |
| App.ChosenIsUnique | src/runtime.rs:187-222 | A path belongs to the routes of at most one template or pattern |
| App.ReachedPathFits | src/runtime.rs:187-222 | A request dispatched to a route has its method, or is `HEAD` for `GET`, and fits it segment by segment |
| App.ScopesAreNotNarrower | src/middleware.rs:146-186 | If a request reaches a route, every scope that covers the route matches the request: `HEAD`, repeated and trailing slashes and captured text that decodes to a literal included |
| App.SameSegmentsCover | src/app.rs:472-490 | A prefix scope with the route's first segments covers the route |
| App.GroupLayersCover | src/group.rs:28-192 | The layers of a group and of every group around it cover the routes registered in it |
| App.NoWayAround | src/runtime.rs:164-222 | Whatever request is dispatched in the end, every layer whose scope covers the route it reaches has run, from the last layer on that rewrites requests |
| Scopes.ChainReaches | src/middleware.rs:219-237 | From any layer on, the chain is that of the remaining layers with the request as it then is |
| Params.MaterializedValues | src/params.rs:96-110 | Decodes every captured range in order, or reports the first failure |
| Params.PairedAt | src/router/mod.rs:52-73 | A capture's number gives its own name and the text of its own segment |
| Params.OnlyUtf8CanFail | src/params.rs:96-110 | Captures from the router fail to decode only where one is not UTF-8 |
| Params.NamesArePaired | src/params.rs:39-47 | Looking up a name gives the decoded text of the first segment captured under it, and nothing for a name not captured |
| Params.DispatchedCaptures | src/router/mod.rs:52-73 | What dispatch hands to a route as captures lies in the normalized path, fails to decode only where a captured segment is not UTF-8, and otherwise gives under each name the decoded text of that name's own segment, and nothing under any other name |
| Watchdog.RunKeepsInv | src/runtime.rs:976-1375 | In every interleaving: the counter is the number of unfinished requests, the last stamp is the latest one made and no other, a slot is set exactly while a chunk is handed out and not taken, and a stream's request is in flight until the stream is gone |
| WatchdogRuns.CountsAndAsksOnce | src/runtime.rs:1256-1263 | The in-flight counter equals the number of requests not finished, and graceful shutdown is requested at most once |
| WatchdogRuns.OnlyUntakenChunksCount | src/runtime.rs:1342-1364 | A stream waiting for its own application has an empty slot, and as long as a stream is there its request is in flight |
| WatchdogRuns.RunHasEvidence | src/runtime.rs:1026-1049 | At every point of its round the loop holds what it read in that round: which reading, when, and what was true then |
| WatchdogRuns.IdleForIsExact | src/runtime.rs:1044-1049 | Where `idle_for` answers d, at this call's own load of the counter nothing was in flight and no stream was left, and d is exactly the time from the latest stamp at its second load to its clock reading, so no longer than the time since the stamp of any request finished by the first load |
| WatchdogRuns.GracefulIsDue | src/runtime.rs:1428-1456 | Graceful shutdown is requested, and never while closing, only on the stop signal or because the answer of `idle_for` in this round reached the idle limit; JudgesIdle is the converse |
| WatchdogRuns.JudgesIdle | src/runtime.rs:1442-1456 | Where `idle_for` answered d, the loop's own next step requests graceful shutdown exactly when not closing and the idle limit is at most d, drops the connection exactly when closing for 2 s and d is at least 2 s, and otherwise goes back to waiting |
| WatchdogRuns.AsksForIdle | src/runtime.rs:1044-1049 | `idle_for` goes on to an answer exactly when every request is finished at its load of the counter, and the answer is the whole milliseconds from the stamp it loads to its clock reading, or zero |
| WatchdogRuns.ClosingBegan | src/runtime.rs:1428-1456 | Closing begins once, at the clock reading of the step after graceful shutdown was requested, and that time never changes |
| WatchdogRuns.LoopNeverStuck | src/runtime.rs:1425-1460 | In every state of every run the loop can take its own next step until it exits |
| WatchdogRuns.IdleConnectionCloses | src/runtime.rs:1442-1456 | After any history, a connection with nothing in flight and nothing stamped for the idle limit is asked to close if the loop goes its next round alone |
| WatchdogRuns.QuietPeerIsDropped | src/runtime.rs:1442-1451 | And one that has been closing, with nothing stamped, for the grace period is dropped |
| WatchdogRuns.UnusedConnectionCloses | src/runtime.rs:1442-1456 | Both happen in some run, for every idle limit |
| WatchdogRuns.GraceDropIsDue | src/runtime.rs:1442-1451 | The drop while closing means, of the round that decides it: closing began at least the grace period before, nothing was in flight and no stream was left at the load of the counter, and no progress was recorded for the grace period; and if no request started since, none is in flight at the drop; JudgesIdle is the converse |
| WatchdogRuns.GraceDropCutsNothing | src/runtime.rs:1405-1411 | If requests start only while the loop waits, the drop while closing leaves none in flight |
| WatchdogRuns.StallDropIsDue | src/runtime.rs:1026-1041 | The drop for a stalled stream means that a limit is set and that the scan leading to it found a stream whose chunk had not been taken for the whole limit by the connection's clock, its request in flight |
| WatchdogRuns.OverdueIsDropped | src/runtime.rs:1026-1041 | No overdue stream is missed: if throughout a scan the chunk of a stream is not taken and it was timed the stall limit before the scan's clock reading, the loop exits at the end of that scan |
| WatchdogRuns.StallTimeExactly | src/runtime.rs:1002-1039 | In real time such a chunk has been untaken for X in every run if and only if X is at most the limit rounded up to whole milliseconds, less one (or zero) |
| WatchdogRuns.LimitIsReachedExactly | src/runtime.rs:1434-1441 | The stall limit itself is reached in real time in every run if and only if it is zero |
| WatchdogRuns.BarelyStalledRun | src/runtime.rs:1002-1039 | For any longer time, a run whose drop finds only a chunk untaken for less |
| WatchdogRuns.InFlightIsCutExactly | src/runtime.rs:1405-1441 | Some run drops the connection with a request in flight if and only if a stall limit is set |
| Frames.FrameScanner.Feed | src/runtime.rs:1069-1098 | Feeding a chunk moves the scanner on as if byte by byte and reports whether any byte was response data |
| Frames.ChunksDoNotMatter | src/runtime.rs:1069-1098 | Feeding a then b gives the same state and the same reports together as feeding a + b |
| Frames.FoldFollowsFrames | src/runtime.rs:1051-1098 | After any bytes, a feed reports progress exactly when one of its bytes is payload of a DATA, HEADERS or CONTINUATION frame or completes the header of a HEADERS frame, by the frames of the whole stream |
| Frames.ResponseFramesAreProgress | src/runtime.rs:1051-1056 | Of whole frames exactly those with response data are progress, however many control frames come with them |
| Frames.ObserveVectored | src/runtime.rs:1197-1213 | A vectored write shows the scanner exactly the first n bytes of the joined buffers |
| Multipart.DelimiterScan.Feed | src/multipart.rs:77-89 | However the body is cut, reports in the chunk where the first delimiter of all bytes fed ends, with the number of bytes after it |
| Multipart.FindIsFirst | src/multipart.rs:80-82 | The position found is that of the first occurrence, and none is found exactly when there is none |
| Multipart.TheCarryIsEnough | src/multipart.rs:63-88 | One byte less than the delimiter's length is enough to carry over to find one that straddles chunks |
| Multipart.LeftoverMattersExactly | src/multipart.rs:22-27 | Bytes carried over from an earlier scan are harmless for every later part exactly when they do not end like the start of a delimiter |
| Multipart.GuardedBody.PollNext | src/multipart.rs:95-127 | One pull from the body changes the counters and passes or refuses the chunk as the step function says |
| Multipart.GuardedBody.DropField | src/multipart.rs:35-41 | Only a field dropped unfinished starts the draining |
| Multipart.PassedIsBounded | src/multipart.rs:95-127 | In any run, unless a part is being skipped, at most 256 KiB and one chunk have been passed since the parser last produced something, and the counter is exact until a chunk is refused |
| Multipart.RefusedExactly | src/multipart.rs:113-122 | The first refusal comes exactly when more than 256 KiB produced nothing |
| Multipart.StepExactly | src/multipart.rs:22-127 | What each event does to the counter and the scan, with the first delimiter of all bytes scanned and the limit of 262144 bytes |
| Multipart.SkippingRefusesNothing | src/multipart.rs:95-112 | After a field is dropped unfinished, every chunk up to and including the one in which its delimiter ends is passed, however many bytes that is, and counting starts with the bytes behind it |
| Preface.DetectH2 | src/runtime.rs:1490-1509 | However the reads are cut, answers whether the stream begins with the 24-byte preface, reads no further than byte 24 nor after the preface is ruled out, and keeps what it read |
| Preface.Rewind.Read | src/runtime.rs:1519-1534 | Gives the next bytes of the stream for a buffer of any size, none lost, repeated or reordered |
| Preface.ReadWith | src/runtime.rs:1519-1534 | Any sequence of buffer sizes yields the original stream from its start, all of it after enough reads |
| Preface.Accept | src/runtime.rs:887-924 | After the detection, whatever its answer, the reader given to the protocol still has the whole stream |
| Sse.Display | src/sse.rs:74-97 | Writing an event field by field gives its printed lines |
| Sse.WithoutKeepsTheRest | src/sse.rs:18-25 | Only banned characters are removed and the rest keeps its order |
| Sse.TakenFromLines | src/sse.rs:17-20 | From names and comments exactly the line breaks are taken out, wherever they are |
| Sse.TakenFromIds | src/sse.rs:23-25 | From ids exactly line breaks and NUL |
| Sse.BuildersKeepLines | src/sse.rs:27-71 | No event that can be built has a line break in its name, id or comment, or NUL in its id |
| Sse.ReplacingNormalizes | src/sse.rs:89-90 | The two replacements turn every line break into one `\n` |
| Sse.NormalizedExactly | src/sse.rs:89-90 | Each of the three line breaks, wherever it is, becomes one `\n`, and the text around it is normalized by itself |
| Sse.SplitAndJoin | src/sse.rs:91-93 | Splitting data into lines loses nothing and leaves no line break in a line |
| Sse.DigitsReadBack | src/sse.rs:85-87 | A printed reconnection time reads back as the same number |
| Sse.FieldIsRead | src/sse.rs:76-93 | A printed field is read as that field with that value, even one that starts with a space or holds a colon |
| Sse.PrintedEventsAreReadBack | src/sse.rs:74-97 | A client that parses any printed events, from between two events, sees the effect of each in order, and no field adds another field or event |
| Sse.StreamIsReadBack | src/sse.rs:74-97 | The same for a whole stream read by a new client |
| Sse.BuiltEventIsReadBack | src/sse.rs:27-97 | From the builders to the client: the message has the data with its line breaks normalized, and the name and id without what is taken out of them, and the reconnection time is set |
| Sse.CommentIsPrinted | src/sse.rs:46-97 | A comment is printed as a line of its own and an empty one, which change nothing for a client |
| Sse.CutOffEventIsNotDelivered | src/sse.rs:74-97 | An event cut off anywhere is not delivered in part, and those before it are delivered |
| Sse.OneMessagePerData | src/sse.rs:88-94 | As many messages are dispatched as events with data |

## Left out

- The inline mode of the schema registry and its `stack`, JSON contents of bodies (an own form flag and the children stand for them), types defined without a request form of their own, and OpenAPI document assembly.
- SchemaRegistry.Registry.DefineInput: assumes that the response and the request body of a type refer to the same child types.
- LimiterRuns.WindowBound: exact reals, so neither floating-point rounding nor `Duration` conversion; the hash of a key stands for the key.
- LimiterRuns.IdealForTrackedKeys: for a nondecreasing clock only, because `now` is read before the lock; `BucketBound`, `CapIsKept` and `SweepsAreApart` need no such assumption.
- App.App.AddRoute: fewer than `u32::MAX` routes and trie nodes are preconditions; `add_raw_route` and `add_static_route` differ from it in what they store beside the tables only, and panics of the schema builders are not part of it.
- Handlers, body limits and OpenAPI metadata of a route; the text of an `Allow` header (the methods it lists are modelled); building the runtime, which fails after a refused route.
- Route sets and capture sets are values here: the source stores them inside nodes and tables and never shares them.
- App.DispatchIsLinear: paths shorter than 4 GiB, the width of a packed position.
- App.NoWayAround: a layer before one that rewrites the request has seen the request as it was before; nothing is said of the route the rewritten one reaches.
- Scopes.Run: a layer is a function of the request; what it does to the response, and its own state, are not modelled.
- Params: typed extractors that borrow a range instead of owning the decoded values.
- Watchdog: weak memory ordering (each atomic operation is one step) and the removal of dropped streams from the list, whose slots are empty anyway.
- WatchdogRuns.GraceDropCutsNothing: that requests start only on the connection's own task, which runs the loop too, is a fact about Hyper, so it is a condition here.
- Multipart.PassedIsBounded: part bytes that multer holds already when a field is dropped; the scan is described from the point where draining starts.
- Preface.DetectH2: the timeout around it, which only abandons it.
- Tracked: the send timeout of a single socket write.
- Sse: UTF-8, and the heartbeat comments of a stream.
- CORS, compression, static files, cookies, request ids, WebSocket, TLS and listening: I/O, header plumbing or facts about one branch.
