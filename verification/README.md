# ShieldWard, modelled and proved

ShieldWard has two halves. A Go control plane compiles policy documents into
bundles and publishes them; a TypeScript edge enforces the current bundle in
front of upstream services. This project models the parts of both whose
correctness spans several functions, several processes or whole runs:

- **Routes.** `Text`, `Letters`, `Regex`, `RouteTemplate`, `RoutePattern`, `RouteMeaning`,
  `RouteCompiler` and `RouteMatching`: path templates become the text of one
  anchored pattern per method; the text is read back into a tree; the tree is
  run with the priority semantics of regular-expression alternation; and the
  edge takes the route from the first defined group. The reference meaning is a
  first match in document order over `/`-separated segments.
- **Circuit breaker.** `CircuitModel`, `CircuitRuns`, `CircuitObservers`,
  `CircuitEpisodes`, `CircuitMetrics` and `CircuitBreaker`: the bounded map of
  circuits, its runs with permits that complete at any later moment, an unbounded
  reference breaker, and the transition counters and gauge.
- **Rate limiters.** `FixedWindow`, `LimiterRuns`, `WindowBounds`, `RateLimiter`
  and `Duration`: the in-memory limiter and the stored script against one policy,
  and the text of a window's length.
- **Configuration propagation.** `ConfigStore` (publication over one-slot
  channels), `EventStream`, `EventStandard`, `EventFrames` and `BundleEvent`
  (the event stream, from the frames written to the versions heard),
  `ConfigSync` (conditional, single-flight refresh) and `Propagation`, which joins
  them end to end.
- **Admission and shutdown.** `Admission` and `Shutdown`: the counting gate, the
  release of each request, draining, idle waiters, and the race that ends a
  process.

Objects the sources update in place are classes, and each of their methods is
proved equal to a function of the old state; what the sources promise is then
proved of those functions over every run. Go code interleaves at channel and
lock operations, TypeScript code at awaits; a run is any sequence of such steps.

## Where code and documentation part

- `docs/circuit-breaking-and-draining.md:31-34` says that exactly one request
  becomes the probe and the others are refused until it succeeds. A permit
  granted before the circuit opened may fail late and reopen it, and the next
  deadline then grants a second probe while the first is still out.
  `OneProbeIff` gives the exact condition (no permit granted earlier is still
  out), and `SecondProbePossible` a run from the start with two probes out.

## Where a reader might expect more

- A final `*` matches any remainder that holds no line terminator, because `.`
  excludes them; `WildcardExcludesLineTerminators` states it exactly.
- The event decoder waits for the character after a carriage return, where the
  HTML Standard dispatches at once. `AgreesWithStandard` states when that is
  visible.
- An announced version alone does not bring the edge up to date: the refresh it
  asks for may join one that was answered before. `AnnouncedRefreshIff` says that
  this is the only way among refreshes that succeed, `AnnouncementMayLag` gives a
  run, and `NextPollRepairs` says that the next poll makes up for it.
- After the clock has stepped back the two limiters answer a check alike exactly
  when there is room for the key in memory and both would count in the same window
  (`ClockRegressionIff`). While a key's window is live that means the clock still
  reads inside it (`LiveWindowRegressionIff`); an expired window can show as well,
  when one limiter has forgotten it and the other has not (`DroppedWindowDiffers`,
  `CleanedWindowDiffers`).
- The bounded breaker can be told from an unbounded one as soon as there are more
  origins than it may hold circuits, and not before (`DeletionsUnobservableIff`).

## Model

| member | source | states |
|---|---|---|
| RouteTemplate.CompilePathTemplate | internal/compiler/compiler.go:155-196 | a template compiles exactly when every piece between slashes is `:` with a name, a lone `*` standing last, or a literal without `*` and leading `:`; otherwise the error is the one that goes with the first piece that is not; the builder loop yields the template's text |
| RouteTemplate.TemplateTextIff | internal/compiler/compiler.go:155-196 | that grammar of paths, which mentions neither the compiler nor its name pattern, is what the text and its errors follow, in both directions |
| RouteCompiler.Compile | internal/compiler/compiler.go:47-79 | succeeds exactly when the document is valid, every path is well formed by the grammar above and no two routes share a method and a path; the bundle is then the one `IsCompiled` describes, and otherwise the error blames the first offending route, naming the first offending piece of its path or the route it collides with |
| RouteCompiler.CompileMatchers | internal/compiler/compiler.go:81-153 | the same for the matchers alone: strictly sorted methods, each with the combined text and route identifiers of its routes in document order |
| RouteCompiler.GroupByMethod | internal/compiler/compiler.go:82-114 | the grouping loops hold, per method, the patterns of the routes listing it in document order, and refuse exactly the documents with a path that is not well formed or a collision, blaming the first |
| RouteCompiler.ValidateRoutes | internal/policy/validate.go:42-63 | the loop with the identifiers seen so far accepts exactly the non-empty lists of valid routes whose identifiers are distinct |
| RouteCompiler.ValidateRoute | internal/policy/validate.go:67-90 | a route is valid exactly when its methods are allowed, distinct and at least one, and its path begins with a slash |
| RouteCompiler.CompiledUnique | internal/compiler/compiler.go:116-150 | a document has one bundle, whatever order the maps were iterated in |
| RouteCompiler.MatcherHoldsEachPair | internal/compiler/compiler.go:122-149 | a matcher's route identifiers are exactly those of the routes that list its method |
| RouteCompiler.MatcherHoldsEachPairOnce | internal/compiler/compiler.go:122-149 | and no identifier appears twice in a matcher |
| RouteCompiler.EmittedReads | internal/compiler/compiler.go:136-149 | every emitted text can be read as a pattern, with as many groups as route identifiers |
| RoutePattern.CombinedReadsBack | internal/compiler/compiler.go:124-136 | whatever characters literals hold, the combined text reads back as exactly the intended tree: group i + 1 is template i and there are no other groups |
| RoutePattern.ReadNodes | internal/compiler/compiler.go:163-193 | the text of a template, whatever its literals hold, is read as exactly its chain of atoms, up to the parenthesis that closes its group |
| RouteMeaning.TemplateAccepts | internal/compiler/compiler.go:163-193 | the tree of a template accepts a path exactly when the template matches it segment by segment |
| RouteMeaning.TreeExecutes | edge/src/route-matcher.ts:93-106 | running the anchored alternation defines the group of the first accepting alternative and no other, and fails exactly when none accepts |
| RouteMeaning.PatternMeaning | edge/src/route-matcher.ts:77-97 | emitted text, read back and run on any path, finds the first template that matches |
| RouteMatching.RouteMatcher.Create | edge/src/route-matcher.ts:40-82 | the constructor accepts a bundle exactly when its identifiers and methods are distinct, its patterns anchored and readable and its routes known, and a refusal names something that is wrong with the bundle; the two maps then index the bundle |
| RouteMatching.RouteMatcher.Resolve | edge/src/route-matcher.ts:84-126 | the answer is the bundle's; for every document the bundle was compiled from, and every method without lower-case letters from which the request's differs in letter case only, of which there is one, it is that document's own first match or default for that method |
| RouteMatching.ToUpperIff | edge/src/route-matcher.ts:85 | the normalised method is the one text without lower-case letters that differs from the request's in letter case only, by the list of the 26 letter pairs |
| RouteMatching.AllowedMethodsHaveNoSmallLetter | internal/policy/validate.go:14-22 | every method a policy may name is such a text, so that it is its own normal form |
| RouteMatching.CompiledBundleAccepted | edge/src/route-matcher.ts:40-82 | every compiled bundle is accepted by the constructor |
| RouteMatching.CompiledBundleEnforces | edge/src/route-matcher.ts:84-134 | compilation preserves meaning: for every document that compiles, method and path, the edge resolves to the first route in document order that lists the method and matches, else to the default; the two internal errors are unreachable |
| RouteMatching.WildcardExcludesLineTerminators | internal/compiler/compiler.go:177-183 | a final `*` matches exactly the remainders that hold no line terminator: the enforced meaning and one in which it matches every remainder differ on exactly the other paths |
| Text.NulKeyInjective | internal/compiler/compiler.go:96 | composite keys joined by NUL agree exactly when both halves do, if the left halves hold no NUL |
| Text.JoinSplit | internal/compiler/compiler.go:160 | splitting a path into segments loses and invents nothing: joining the segments gives it back |
| Text.SplitJoin | internal/compiler/compiler.go:160 | and segments that hold no slash, joined and split again, are themselves |
| Text.LessIff | internal/compiler/compiler.go:120 | the order methods are sorted by is the one of the first character in which two differ |
| CircuitModel.VictimIsLeastRecent | edge/src/circuit-breaker.ts:171-191 | eviction picks the closed circuit touched least recently, the earliest inserted among equals, and fails exactly when none is closed |
| CircuitModel.AcquireKeeps | edge/src/circuit-breaker.ts:81-113 | acquiring keeps the invariant: closed exactly below the threshold, otherwise exactly at it, and never more circuits than the maximum |
| CircuitModel.RecordFailureKeeps | edge/src/circuit-breaker.ts:207-240 | so does recording a failure, also for an origin whose circuit was deleted or evicted meanwhile |
| CircuitModel.AbandonKeeps | edge/src/circuit-breaker.ts:242-267 | so does abandoning a permit |
| CircuitBreaker.UpstreamCircuitBreaker.FindVictim | edge/src/circuit-breaker.ts:171-185 | the minimum-finding loop finds the model's victim |
| CircuitBreaker.UpstreamCircuitBreaker.FindOrCreate | edge/src/circuit-breaker.ts:143-169 | finding, creating and evicting on the mutable map is the model's step |
| CircuitBreaker.UpstreamCircuitBreaker.Acquire | edge/src/circuit-breaker.ts:81-113 | the object's answer and its whole new state are the model's, and a permit is issued exactly with a grant |
| CircuitBreaker.UpstreamCircuitBreaker.RecordFailure | edge/src/circuit-breaker.ts:207-240 | the object's new state after a failure is the model's |
| CircuitBreaker.Permit.Succeed | edge/src/circuit-breaker.ts:115-141 | a permit's first completion reports to the breaker and a later one does nothing |
| CircuitBreaker.SettlePermit | edge/src/gateway.ts:379-455 | however the proxied request ends, also when completing the response throws after the outcome was recorded, the permit completes once: a status below 500 deletes the origin's circuit, one of 500 or more and a throw that is no abort count one failure or open the circuit at the threshold for the open period, an aborted probe reopens it at once and any other abort counts nothing; no other circuit changes unless one is evicted for a new one |
| CircuitBreaker.VerdictMeans | edge/src/gateway.ts:379-455 | the same of the breaker's state before and after, for every kind of ending |
| CircuitBreaker.GoodAnswersNeverOpen | edge/src/gateway.ts:398-402 | however many responses below 500 come back, every request to an origin that is closed or has room is let through and nothing is left against the origin |
| CircuitBreaker.BadAnswersOpen | edge/src/gateway.ts:398-402 | as many consecutive responses of 500 or more as are missing to the threshold are all let through, and the last opens the circuit until the open period after it |
| CircuitRuns.CreationUnnoticedIff | edge/src/circuit-breaker.ts:143-169 | making room for an origin leaves every origin's circuit as the unbounded breaker has it exactly when there is room or the evicted circuit has no failures |
| CircuitRuns.HarmlessRunsAgree | edge/src/circuit-breaker.ts:81-267 | as long as making room is harmless, every run answers as an unbounded breaker would, however late permits complete |
| CircuitRuns.DeletionsUnobservable | edge/src/circuit-breaker.ts:81-267 | in every run touching at most the maximum number of origins, every acquire is answered as by an unbounded total map in which origins start closed with no failures |
| CircuitObservers.HarmShows | edge/src/circuit-breaker.ts:143-191 | a step that makes room at a loss is observable: some run beginning with it, on a clock that never goes back, is answered otherwise than by the unbounded breaker |
| CircuitObservers.ObservableIff | edge/src/circuit-breaker.ts:81-267 | from agreeing states no run of calls tells the two breakers apart exactly when no run makes room at a loss |
| CircuitObservers.DeletionsUnobservableIff | edge/src/circuit-breaker.ts:81-267 | all runs touching a set of origins are answered as by the unbounded breaker exactly when there are at most `maximumUpstreams` of them |
| CircuitEpisodes.ProbeIffEpisodeStarts | edge/src/circuit-breaker.ts:95-112 | a probe is granted by exactly the step that makes a circuit half-open |
| CircuitEpisodes.EpisodeEndsIff | edge/src/circuit-breaker.ts:193-267 | during a half-open episode every acquire is refused, and the episode ends exactly when a permit of that origin completes (an abandoned one only if it is a probe); eviction never ends it |
| CircuitEpisodes.OnePermitPerEpisode | edge/src/circuit-breaker.ts:95-112 | in every run, probes granted equal half-open episodes and nothing is granted inside one |
| CircuitEpisodes.NoEarlyPermit | edge/src/circuit-breaker.ts:207-267 | until some permit reports success the circuit stays unavailable, its deadline never decreases and every acquire before the deadline is refused |
| CircuitEpisodes.OneProbeAtATime | edge/src/circuit-breaker.ts:95-112 | with no earlier permit out when the circuit opened, at most one permit is out until a success, and exactly while half-open |
| CircuitEpisodes.OneProbeIff | docs/circuit-breaking-and-draining.md:31-34 | the documented "exactly one probe" (in every later run, until a success, at most one probe is out) holds of an open circuit exactly when no permit granted earlier is still out |
| CircuitEpisodes.SecondProbe | edge/src/circuit-breaker.ts:217-240 | from any open circuit with an earlier permit still out, a run without a success in which the permit's late failure brings a second probe |
| CircuitEpisodes.SecondProbePossible | edge/src/circuit-breaker.ts:95-112 | a run from the start, on a clock that never goes back and without any success, that ends with two probes out |
| CircuitMetrics.OperationalMetrics.RecordUpstreamCircuitTransition | edge/src/metrics.ts:250-278 | the counters and the clamped gauge after one recorded transition |
| CircuitMetrics.GaugeIsExact | edge/src/metrics.ts:250-278 | after every run of the breaker the gauge is the number of circuits not closed, the clamp never acted, closed-to-open transitions are transitions to closed plus the gauge, and half-open transitions never exceed open ones; the half-open count is the number of probes granted |
| CircuitMetrics.StepLogged | edge/src/circuit-breaker.ts:269-289 | every call tells the observer exactly the change of state it makes, if any, and changes no other origin's state |
| FixedWindow.MemoryDecides | edge/src/rate-limit.ts:93-176 | the in-memory check answers as the policy does for the key's governing window, disturbs no other key, keeps its invariant, and fails only for capacity; what the answer tells the caller is `DecideStamped`'s |
| FixedWindow.RedisDecides | edge/src/redis-rate-limit.ts:11-45 | the script answers as the policy does and disturbs no other key; what the answer tells the caller is `DecideStamped`'s |
| FixedWindow.DecideStamped | edge/src/rate-limit.ts:128-167 | an answer names the policy's limit, the next multiple of the window's length as the reset, the whole seconds to it rounded up and at least one, and nothing remaining when refused |
| FixedWindow.CapacityIff | edge/src/rate-limit.ts:110-127 | the capacity error is raised exactly when at least `maxBuckets` other keys hold unexpired buckets |
| LimiterRuns.LimitersIdentical | edge/src/rate-limit.ts:82-176 | on every run with a non-decreasing clock, across policy changes, cleanups and whatever moments expired keys are dropped at, both limiters give identical results until the in-memory one runs out of capacity |
| LimiterRuns.ClockRegressionIff | edge/src/rate-limit.ts:93-176 | any two sound stores, whatever time the clock reads and whatever the key holds, answer a check alike exactly when fewer than `maxBuckets` other keys hold unexpired buckets and the bucket's window, if still before its reset time, is the stored one, if aligned with the clock, each replaced by a fresh window otherwise |
| LimiterRuns.LiveWindowRegressionIff | edge/src/redis-rate-limit.ts:11-45 | with agreeing stores, a key with a live window checked under the same policy at an earlier time is answered alike exactly when that time is still inside the window; before it the stores come to hold different windows, the reset times differ, and the verdicts differ exactly when the window is used up |
| LimiterRuns.DroppedWindowDiffers | edge/src/redis-rate-limit.ts:11-45 | for every policy and key, after a window has passed and its hash was dropped, a check back inside it is answered differently |
| LimiterRuns.CleanedWindowDiffers | edge/src/rate-limit.ts:101-105 | so it is when a cleanup has removed the bucket and the hash was not dropped yet |
| LimiterRuns.ClockRegressionDiffers | edge/src/rate-limit.ts:93-176 | for every policy, key and pair of times, two checks from the start tell the limiters apart if the second reads the clock before the window of the first |
| WindowBounds.ServedAreIndependent | edge/src/rate-limit.ts:93-176 | what the in-memory limiter answers to a key's checks that it does not refuse for capacity depends on their times alone, through any number of capacity errors |
| WindowBounds.KeysAreIndependent | edge/src/redis-rate-limit.ts:11-45 | what the script answers a key depends on its own checks alone |
| WindowBounds.WindowGrantsExactly | edge/src/rate-limit.ts:93-167 | of n checks of a key in one aligned window under one policy that the in-memory limiter does not refuse for capacity, exactly min(n, limit) are allowed |
| WindowBounds.RemainingIsExact | edge/src/rate-limit.ts:160-166 | of later checks in the same window exactly as many are allowed as the answer said remain, or all if there are fewer |
| WindowBounds.IntervalBound | edge/src/rate-limit.ts:93-167 | in any interval of length d the in-memory limiter allows at most limit * (ceil(d / window) + 1) checks of a key |
| WindowBounds.StoredWindowGrantsExactly | edge/src/redis-rate-limit.ts:11-45 | the script allows exactly min(n, limit) of n checks in one aligned window |
| WindowBounds.StoredIntervalBound | edge/src/redis-rate-limit.ts:11-45 | the script allows at most limit * (ceil(d / window) + 1) checks in any interval of length d |
| RateLimiter.FixedWindowRateLimiter.CheckLimit | edge/src/rate-limit.ts:82-168 | the object's result and whole new state are those of the modelled step; an invalid policy is refused exactly when it is one, and an answer is stamped as `DecideStamped` says |
| RateLimiter.FixedWindowRateLimiter.DeleteExpired | edge/src/rate-limit.ts:170-176 | the deleting loop keeps exactly the unexpired buckets, in any iteration order |
| RateLimiter.ScriptedStore.Eval | edge/src/redis-rate-limit.ts:11-45 | the script's commands, one after the other, are the modelled step, and its answer is stamped as `DecideStamped` says |
| Duration.ParseDurationMilliseconds | edge/src/rate-limit.ts:179-268 | the scanning loop, whose offset strictly increases, answers a value exactly when the text means it, and refuses every other text |
| Duration.ParseMeans | edge/src/rate-limit.ts:179-268 | a text parses to a value exactly when it is a non-empty sequence of parts, each worth the number its digits spell by place times its unit (1000 ns = 1 us, 1000 us = 1 ms, 1000 ms = 1 s, 60 s = 1 m, 60 m = 1 h), that add up to the value, in range |
| Duration.ScanRendered | edge/src/rate-limit.ts:188-221 | every concatenation of amounts with units is read back as exactly those tokens |
| Duration.DurationUnambiguous | edge/src/rate-limit.ts:179-236 | no text is written by two token lists, and a text parses to a value exactly when it is a non-empty concatenation of tokens with that sum, in range; every other text is refused |
| EventStream.FindLineEnding | edge/src/sse.ts:110-136 | the index loop finds the first line ending, and none while a final carriage return is undecided |
| EventStream.ServerSentEventDecoder.Push | edge/src/sse.ts:16-38 | the events returned and the whole new state are those of draining the old buffer with the chunk appended |
| EventStream.ServerSentEventDecoder.ProcessLine | edge/src/sse.ts:48-89 | what one line does to the event type and data lines, and what it completes |
| EventStream.DrainAppend | edge/src/sse.ts:16-38 | draining a buffer early and going on later is draining it once at the end |
| EventStream.ChunkingUnobservable | edge/src/sse.ts:16-38 | for every text and every way of cutting it, also between CR and LF, the events and the final decoder state are those of one push of the whole |
| EventStream.AnyTwoCutsAgree | edge/src/sse.ts:16-38 | two ways of cutting one text give the same events and the same final state |
| EventStandard.LineAgrees | edge/src/sse.ts:48-107 | a line means the same to the decoder and to the standard's data buffer with its trailing line feeds |
| EventStandard.AgreesWithStandard | edge/src/sse.ts:16-136 | on every text in any chunks the events are those of section 9.2.6 of the HTML Standard, read character by character, unless the text ends in a bare carriage return; exactly when the held-back line is empty and data is waiting one event is still to come |
| EventFrames.FramesRoundTrip | internal/server/handler.go:151-195 | any sequence of bundle frames and keep-alive comments, in any chunks, decodes to exactly the announced payloads in order and leaves the decoder idle |
| EventFrames.LostConnection | internal/server/handler.go:151-195 | a stream cut off at any character has delivered exactly the announcements whose frames were complete |
| BundleEvent.PayloadIsOneLine | internal/server/handler.go:178-187 | a payload holds no raw line terminator, whatever the version holds |
| BundleEvent.VersionsArrive | internal/server/handler.go:178-195 | every version announced, encoded as JSON and framed, is heard once and in order over any chunking |
| ConfigStore.StepKeeps | internal/server/store.go:50-145 | every atomic step of publishing, subscribing, cancelling and receiving keeps the store's invariant, each channel judged by how far the publisher has got with it |
| ConfigStore.LatestReachesEverySubscriber | internal/server/store.go:50-145 | in every interleaving: while the lock is free each live subscriber has the current version waiting or received it last; what it received is in publication order without repetition; the last select finds the slot free and never gives up a version; a channel is closed exactly when its subscription is cancelled, and no closed channel is sent on or closed |
| ConfigStore.OneReceiveSuffices | internal/server/store.go:68-98 | a live subscriber is at most one receive from the current version |
| ConfigStore.PublisherNeverWaits | internal/server/store.go:129-145 | a publisher always has an enabled step of its own, each shortens its remaining work, and no consumer step lengthens it |
| ConfigStore.Store.Publish | internal/server/store.go:50-117 | an envelope is accepted exactly when its algorithm, key identifier, version and signature are all non-empty; otherwise the error names the first empty one in that order and nothing changes; an accepted one is recorded as one publication with receives in between, and every live subscriber ends up to date; no empty version is ever published |
| ConfigStore.Store.PushLatest | internal/server/store.go:129-145 | the three selects, with consumers free to receive around each, finish with this subscriber |
| ConfigStore.Store.Subscribe | internal/server/store.go:68-83 | a new channel is up to date from the start |
| ConfigStore.Store.Cancel | internal/server/store.go:85-95 | the channel is closed once, however often cancel is called |
| ConfigSync.VersionIff | internal/compiler/compiler.go:75-76 | the texts taken for versions are exactly those that write thirty-two bytes in hexadecimal after `sha256:` |
| ConfigSync.FindMatch | internal/server/handler.go:197-207 | the loop over candidates finds a match exactly when some trimmed candidate is `*` or the tag |
| ConfigSync.ListMatchesIff | internal/server/handler.go:197-207 | a header listing tags with spaces and tabs around them matches exactly when one of them is `*` or the current tag |
| ConfigSync.TagMatchesIff | internal/server/handler.go:115-121 | the header a request carries matches exactly when the version held is the current one, and never when none is held |
| ConfigSync.NotModifiedIff | internal/server/handler.go:98-125 | in every run a request is answered 304 exactly when the edge holds the version current when it is served, with that version's bundle when it does not, and 503 before anything was published |
| ConfigSync.ConfigurationClient.Refresh | edge/src/config-client.ts:86-108 | a refresh under way is joined, otherwise one starts that sends the tag of the version held now, in quotes, or none; either way it is the machine's step |
| ConfigSync.ConfigurationClient.Complete | edge/src/config-client.ts:121-214 | the snapshot is replaced exactly by a bundle whose status is a success, whose body is JSON that verifies and whose tag is its quoted version, is confirmed exactly by a 304 while one is held, and is kept in every other case, each of which fails; the answer served is the machine's delivery and whatever fails its loss |
| ConfigSync.JudgedMeans | edge/src/config-client.ts:121-214 | the same of every snapshot and response, in both directions |
| ConfigSync.ServedJudged | edge/src/config-client.ts:137-214 | an honest answer leaves the edge on exactly the publication it was served from, by confirmation or replacement |
| ConfigSync.EdgeNeverGoesBack | edge/src/config-client.ts:86-214 | in every run of publications, refreshes, answers and failures the snapshots correspond to a non-decreasing sequence of publication positions, and the one held is the content at the last |
| ConfigSync.SuccessIsCurrent | edge/src/config-client.ts:86-214 | a successful refresh leaves the edge no older than the publication current when it started, and on the current version if none came since |
| ConfigSync.OnlySuccessMoves | edge/src/config-client.ts:110-214 | in every run only a successful refresh moves the edge, and then to exactly the publication current when its request was served; publications, pending answers, failures of every kind and clearing leave it alone |
| ConfigSync.AnnouncedRefreshIff | edge/src/config-client.ts:86-214 | whatever else happens meanwhile, a refresh that succeeds leaves the edge at a publication's position or later exactly when it did not join one answered before that publication |
| ConfigSync.AnnouncementMayLag | edge/src/config-client.ts:86-89 | a run in which the newer version is published while an answered refresh is under way, the refresh it asks for joins that one and succeeds, and the edge is left on the older version |
| ConfigSync.NextPollRepairs | edge/src/config-client.ts:86-214 | with no refresh under way, one answered refresh brings the edge to the current version |
| Propagation.HeardIsReceived | internal/server/handler.go:151-195 | over any chunking the edge hears exactly the versions its channel received, which name publications at strictly increasing positions |
| Propagation.AnnouncementReachesEdge | edge/src/config-sync.ts:291-314 | end to end: each announcement heard names the publication at a position its channel received, and the refresh it asks for, once it succeeds, leaves the edge at that position or later exactly when it did not join one answered before it |
| Propagation.RestLeavesEdgeCurrent | edge/src/config-sync.ts:291-314 | with publishing at rest and everything received and written, the last version heard is the current one, and handling it leaves the edge on it unless the refresh joined one answered before |
| Admission.AdmissionGate.TryAcquire | edge/src/gateway.ts:614-647 | draining is answered exactly when the gate does not accept, overload exactly when it accepts and is full; otherwise the admission counts one more |
| Admission.AdmissionGate.Release | edge/src/gateway.ts:631-645 | a second call changes nothing; the first lowers the count and, at zero, resolves every waiter on the list once |
| Admission.AdmissionGate.WaitForIdle | edge/src/gateway.ts:662-670 | a waiter is resolved at once at zero and is otherwise put on the list |
| Admission.RequestTracker.Admit | edge/src/gateway.ts:147-192 | an arrival is answered as the gate answers; admitted, it is counted by gate and gauge together |
| Admission.RequestTracker.ReleaseRequest | edge/src/gateway.ts:194-204 | the request's own flag, the gate's flag and the gauge move together, once |
| Admission.EventKeeps | edge/src/gateway.ts:194-220 | every arrival, return, throw, pull, cancel, drain and wait keeps the gateway's invariant |
| Admission.ActiveIsUnfinished | edge/src/gateway.ts:595-714 | in every run the active count is admissions less distinct requests ended, is the number of requests handled or streamed, is what the gauge shows and is within the maximum; the gauge's clamp never acts |
| Admission.DrainingOnlyEmpties | edge/src/gateway.ts:223-235 | once draining starts nothing is admitted, the count never rises, and an idle gate stays idle |
| Admission.WaitersResolveOnce | edge/src/gateway.ts:638-670 | in every reachable state a waiter has been resolved once, or not yet and the gate is busy |
| Admission.ResolvedAtZero | edge/src/gateway.ts:638-670 | a waiter is resolved only by an event that leaves the gate idle, and never unresolved |
| Admission.LastRequestWakesTheWaiter | edge/src/gateway.ts:595-670 | a run in which a waiter stays unresolved through draining and a refused arrival until the one request ends |
| Shutdown.GracefulShutdown.Begin | edge/src/shutdown.ts:37-59 | draining, closing the server and asking for idleness on the real gate are the machine's start |
| Shutdown.GracefulShutdown.RaceSettled | edge/src/shutdown.ts:80-98 | from the race's result to the one call that stops dependencies the whole new state is the machine's, and a wait that rejected is the one problem |
| Shutdown.GracefulShutdown.DependenciesSettled | edge/src/shutdown.ts:97-112 | any problem is thrown, otherwise the shutdown reports whether it was forced; the whole new state is the machine's |
| Shutdown.DependenciesStopOnce | edge/src/shutdown.ts:37-113 | in every interleaving of traffic, server close and timer, dependencies are stopped at most once, and exactly once by the end |
| Shutdown.UnforcedIsClean | edge/src/shutdown.ts:37-113 | a return with `forced` false means the race was won by completion, the server closed without error and no admitted request was active when dependencies began stopping, and none has become active since; with `forced` true the timer fired and won the race |
| Shutdown.ProblemsAreThrown | edge/src/shutdown.ts:80-112 | a shutdown that ended has thrown exactly if closing all connections threw, stopping dependencies failed, or the race was won by completion and the server had closed with an error; each is among the problems thrown exactly when it happened |
| Shutdown.AlwaysEnds | edge/src/shutdown.ts:64-113 | from any reachable race a run of at most three steps, of the timer and of stopping the dependencies alone, ends the shutdown, whatever requests and server do |
| Shutdown.EndsCalmly | edge/src/shutdown.ts:44-78 | with no request active and the server closed without error, two steps that need no timer end it unforced |

## Left out

- Signatures, digests, canonical JSON, tokens and key handling (`edge/src/verify.ts`, `edge/src/jwt.ts`, `internal/signing`, `internal/canonicaljson`): library calls. Verification is an abstract step that yields the version it vouches for, a version is an opaque identifier of content, and the bundle's own version field is not part of `Compile`.
- TLS reloading, health probes, command lines, audit logging, metrics text and process wiring: I/O only.
- Field validation other than what the compiler relies on (`internal/policy/validate.go`, `edge/src/bundle.ts`, `edge/src/runtime-config.ts`): `ValidRoutes` keeps distinct identifiers, allowed and distinct methods and the leading slash.
- Regular expressions outside the emitted fragment: the reader knows anchors, groups, alternation, escaped and plain characters, `.`, `[^/]`, `*` and `+`. Text the edge could be given by anyone else is refused as unreadable here. Go's own limits on pattern size are not modelled, so `Compile` never fails for them.
- RouteMatching.RouteMatcher.Resolve: upper-casing is modelled for ASCII letters only, which is what request methods are made of.
- The URL of an upstream: circuits are keyed by an abstract origin.
- Limiter keys: the checks that a route identifier and an identity are not blank, and the digest the stored key is made from, are not modelled; keys are strings, and a bucket is a value in the map.
- FixedWindow.RedisDecides: parsing of the script's reply, and transport failures, are not modelled.
- Duration.ParseMeans: over exact rationals; the rounding of floating-point sums and windows of fractional milliseconds are not modelled.
- LimiterRuns.LimitersIdentical: assumes a clock that does not step back; `ClockRegressionIff` says exactly when one check is answered alike whatever the clock did.
- EventStandard.AgreesWithStandard: the `id` and `retry` fields and the byte order mark are not modelled.
- BundleEvent.VersionsArrive: reads back the JSON the control plane writes; other spellings `JSON.parse` would accept, surrogate pairs written as escapes, invalid UTF-8, and the edge's check that a version has the form of a digest, are not modelled.
- ConfigSync.EdgeNeverGoesBack: answers come from the control plane or fail; an intermediary replaying an older, correctly signed bundle is not modelled. Published versions have the form of a digest.
- The store's channels are values of a map field that the methods reassign, and a channel carries the position of a publication in place of its version text; `Subscribe` and `Cancel` are one step each, being critical sections.
- Promises are modelled by their settling: a waiter by how often it was resolved, a refresh by its outcome; the order of microtasks that settle at once is not distinguished. The shutdown race's failed branch is handled by `RaceSettled` but never taken in a run, because the gateway's wait cannot reject.
- The control plane's select loop over updates, ticks and disconnection is any sequence of announcements and keep-alive comments, cut off anywhere.
- Fairness of timers, networks and consumers: delivery is stated as "waiting or received last".
- Policy evaluation order, WAF rules, proxying and header rewriting: each readable from one function.
