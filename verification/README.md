# Verified models of the QA platform's self-contained cores

Each file models one core of the backend and proves what its documentation promises, for
all inputs, all runs or all interleavings. Code that updates state is a class or a method
with loops, proved equal to a specification function; the theorems are about that function.

- `BridgeGate.dfy`: the bridge's admission gate as a step system over any number of threads.
- `CaseDiff.dfy`: the structured diff of two test-case versions, and a strict patch.
- `Graph.dfy`, `Crawler.dfy`, `Journey.dfy`: the two bounded traversals, against link distance.
- `HealApply.dfy`, `HealService.dfy`: re-addressing a script, and the life of a heal.
- `DayRegistry.dfy`, `GeminiChain.dfy`: the model fallback chain with its three nested loops.
- `TokenBudget.dfy`, `Chunker.dfy`: prompt truncation and document chunking.
- `RateLimit.dfy`: the fixed-window limiter over every history of hits.
- `Templates.dfy`, `EndpointMatching.dfy`: route templates and the two endpoint matchers.
- `PhpLiteral.dfy`: the PHP literal printer, and a parser that reads it back.
- `Plan.dfy`: the deterministic test plan.
- `Prelude.dfy`: options, code-point order on strings, sorted keys, slashes, letter case, truncation, sums.

What the outside world does (the caller's `fn`, clocks, jitter, page fetching, href
resolution, the transport, the store's row order, failure classification, the assertion-line
pattern, route re-resolution) is a parameter and stays arbitrary. URLs arrive split.

## Where the code does less than its text says

- The gate's docstring says no concurrent call ever triggers a refresh. Two readers can be
  inside `fn` at once in a stale window, under every window and every concurrency of two or
  more (`StaleReadersOverlap`). A reader starts in a fresh window iff it gets its slot less
  than an interval after the warm-up that was the last one when it was admitted
  (`ReaderFreshness`).
- The chain's comment lists a timeout among the remembered transient failures. An exhausted
  timeout ends the walk at once (`TimeoutIsNotRemembered`): it is raised iff it is the last
  reply of the first model that is not passed over (`ChainOutcome`).
- `retry_after` is cut to whole seconds: a caller that returns exactly then is let in iff at
  most one second, or a whole number of seconds, was left and the limit is at least one
  (`RetryAfterHonest`).
- The limiter's bound of twice the limit per window length holds for every history iff the
  window is not exactly zero or the limit is zero or less (`BoundIff`). With a window of zero
  or less and a limit of one or more any number of hits pass at one instant (`NoWindowNoBound`).
- A crawl key normalized again changes iff its path was two or more bare slashes
  (`NormalizeTwice`).
- A template that repeats a parameter name keeps only the last capture. Every path a template
  matches comes back from its values iff its parameter names are pairwise distinct
  (`RebuildsAllIff`); one path does iff equal names captured equal text (`MatchInverts`).
- The two endpoint matchers differ on a path with a brace iff an endpoint's own URI is that
  path (`MatchersDisagree`).
- A happy value misses its own field's rules for some limits, and a boundary case keeps the
  rule it should break for others; the exact limits are `StringLimitsOk`, `NumericLimitsOk`
  (`HappyCaseFits`) and `Unbreakable` (`BoundariesViolate`).
- The day registry forgets on read. It answers as the rule iff the rule no longer says
  exhausted or no question since the last mark read a time past that mark's midnight
  (`AnswersAsRuleIff`); `BackwardClockForgets` is a history where it does not.

## Model

| member | source | states |
|---|---|---|
| BridgeGate.WarmUpIsExclusive | backend/app/bridge/server.py:76-120 | in every interleaving: while one thread runs the warm-up nobody else runs, is queued on a slot or holds the warm-up role; at most one thread holds that role; no reader exists before some warm-up ended |
| BridgeGate.GateBookkeeping | backend/app/bridge/server.py:93-120 | `_active` equals the admitted unreleased readers, at most `concurrency` callers are inside `fn`, and every sleeper's wait condition still holds, so no wakeup is lost |
| BridgeGate.CallsRunFn | backend/app/bridge/server.py:76-120 | in every run from a fresh gate a thread that is outside has entered `fn` once for each of its calls and come back once from each, and holds the outcome of the step that ended its last `fn`; a call under way is on its way to `fn`, in it or behind it |
| BridgeGate.EveryCallRunsOnce | backend/app/bridge/server.py:76-120 | the same balance between calls made, entries into `fn` and returns over any stretch of a run, from any state |
| BridgeGate.SerialByDefault | backend/app/bridge/server.py:78-80 | a concurrency of one or less runs one caller at a time and never uses the two lanes |
| BridgeGate.StepInv | backend/app/bridge/server.py:76-120 | every step of every thread keeps the gate's invariant |
| BridgeGate.NeverStuck | backend/app/bridge/server.py:93-120 | no reachable state with a pending call is stuck, given that every `fn` ends |
| BridgeGate.DrainPaysOff | backend/app/bridge/server.py:101-104 | while the warm-up role is held nobody is admitted and every reader step pays off exactly one unit of the remaining work |
| BridgeGate.DrainTerminates | backend/app/bridge/server.py:101-104 | a draining writer waits for at most three steps per reader; while one is left some reader can move, and with none left the writer can enter `fn` |
| BridgeGate.WarmUpsAreSpaced | backend/app/bridge/server.py:97-115 | `n` warm-ups, raised ones included, move `_last_warm` by at least `n` intervals under a clock that never goes back |
| BridgeGate.ReaderFreshness | backend/app/bridge/server.py:76-120 | over every run between admission and slot: a reader starts `fn` in a fresh window iff it gets its slot less than an interval after the warm-up that was the last when it was admitted; a call admitted without waiting was admitted inside that interval |
| BridgeGate.AdmittedFreezesWarmUp | backend/app/bridge/server.py:101-115 | while a thread waits for its slot as an admitted reader no step of the others moves `_last_warm` |
| BridgeGate.StaleReadersOverlap | backend/app/bridge/server.py:51-64 | for every window, zero and negative ones included, and every concurrency of two or more, a run with two readers inside `fn` at once in a stale window and no warm-up under way |
| BridgeGate.ConcurrencyGate.ClaimWriter | backend/app/bridge/server.py:76-108 | the entry region of `run` and `_claim_writer` is the step of a thread outside the gate; it leaves the thread inside `fn` or on its way there, never outside |
| BridgeGate.ConcurrencyGate.Recheck | backend/app/bridge/server.py:102-108 | a notified thread tests its wait condition again and sleeps, enters or is admitted accordingly |
| BridgeGate.ConcurrencyGate.FinishCall | backend/app/bridge/server.py:81-91 | `fn` returning or raising gives the slot back and keeps the outcome |
| BridgeGate.ConcurrencyGate.Release | backend/app/bridge/server.py:110-120 | the `finally` blocks: a warm-up counts as done however `fn` ended, and everybody asleep is woken |
| CaseDiff.PatchRebuildsB | backend/app/cases/diff.py:128-138 | applying the leaf changes, each checked against the value it replaces, to version A's content gives exactly version B's |
| CaseDiff.Extends | backend/app/cases/diff.py:246-284 | the sets and additions found at any depth turn the old value into the new one plus what only the old one had |
| CaseDiff.UndoAll | backend/app/cases/diff.py:246-284 | any applied list of leaf changes is undone by its swapped entries in reverse order |
| CaseDiff.ChangesExact | backend/app/cases/diff.py:246-310 | no changes iff the normalized contents are equal; a field is CHANGED iff its two values differ |
| CaseDiff.UnchangedIffEqual | backend/app/cases/diff.py:246-299 | at every node, container or leaf, UNCHANGED iff the two values are equal |
| CaseDiff.ChangesPrefixFree | backend/app/cases/diff.py:128-138 | leaf paths are pairwise distinct and none is a prefix of another |
| CaseDiff.ChangesSwap | backend/app/cases/diff.py:246-310 | diffing B against A gives the same tree and leaves with old and new, ADDED and REMOVED swapped |
| CaseDiff.NormalizePlain | backend/app/cases/diff.py:313-329 | plain data passes through normalization unchanged, so normalizing twice is normalizing once |
| CaseDiff.NormalizeIsMeaning | backend/app/cases/diff.py:313-329 | normalization computes what a stored value means: an enum its wire value, a UUID its text, a list its items, a dictionary each key's last value, at any depth, and nothing else |
| CaseDiff.WrappedScalars | backend/app/cases/diff.py:318-325 | two enums mean the same iff their wire values are equal, and an enum the same as that value stored plainly; two UUIDs iff their texts are equal, and a UUID the same as its text |
| CaseDiff.NestedMeaning | backend/app/cases/diff.py:326-329 | two lists mean the same iff they do item by item, whatever the items are |
| CaseDiff.PairsMeaning | backend/app/cases/diff.py:326-329 | two dictionaries mean the same iff they have the same keys and the last values of each key mean the same |
| CaseDiff.DiffValue | backend/app/cases/diff.py:246-284 | the recursive loops build the diff tree of the specification |
| CaseDiff.CollectLeafChanges | backend/app/cases/diff.py:302-310 | the collector's list grows by exactly the entry's leaf changes, in document order |
| CaseDiff.DiffVersions | backend/app/cases/diff.py:150-190 | incomparable iff the guard is on and project or lineage differ; otherwise one entry per compared field in the fixed order, UNCHANGED iff the two stored values mean the same |
| CaseDiff.ChangesOf | backend/app/cases/diff.py:128-138 | the compact view is the leaves of all fields in order |
| Prelude.SortedKeys | backend/app/cases/diff.py:250 | keys once each in code-point order, which makes the diff deterministic |
| Crawler.Discover | backend/app/crawler/crawler.py:100-139 | the loop terminates and returns the snapshots of exactly the pages, in the order, of the crawl as a function of what fetching, resolving and the clock answer, or fails iff the resolved start differs from the base in scheme or host; `CrawlMeaning` holds of that crawl, and its first page is the one the start path resolves to |
| Crawler.CrawlMeaning | backend/app/crawler/crawler.py:100-139 | pages are distinct, each with the base's scheme and host in any case of letters, at most `max_pages`, each at its exact link distance within `max_depth` and only after every closer page; the clock is read just before each fetch and at most two times more often than there are links, and every reading is before the deadline but a last one that stops the crawl; if neither that nor the page cap did, every page of the ball is fetched |
| Crawler.InTimeFetchesTheBall | backend/app/crawler/crawler.py:116-121 | if no reading the crawl can take is past the deadline, it holds `max_pages` pages or the whole ball |
| Crawler.CloserIsSeen | backend/app/crawler/crawler.py:112-138 | everything closer than the head of the queue has been visited |
| Crawler.VisitKeeps | backend/app/crawler/crawler.py:116-138 | visiting the head and queueing its links keeps the loop's invariant |
| Crawler.FoundIsNew | backend/app/crawler/crawler.py:131-138 | a page queues exactly its links not met yet whose scheme and host are the base's in any case of letters, one level deeper, and none at the depth cap |
| Crawler.NormalizeTwice | backend/app/crawler/urls.py:23-34 | normalizing keeps the origin, and is stable iff the path is not two or more bare slashes |
| Crawler.SameKeyIff | backend/app/crawler/urls.py:23-34 | two URLs are crawled as one page iff scheme and host agree in any case of letters and the paths are both the root, both two or more bare slashes, or equal up to slashes at the end |
| Crawler.OriginMeaning | backend/app/crawler/urls.py:12-20 | the origin test passes iff scheme and host agree in any case of letters |
| Journey.Journey | backend/app/brain/cross_layer.py:197-233 | never more than 500 nodes, all within `max_depth` hops; below 500 they are exactly that ball and the edges exactly the out-edges of nodes nearer than `max_depth`; at 500 they are a whole ball, then only nodes one hop further, and the edges exactly the ball's out-edges |
| Journey.LevelStep | backend/app/brain/cross_layer.py:214-227 | one level of the search keeps the invariant that ties nodes, edges and frontier to distances |
| Journey.EmptyLevelCloses | backend/app/brain/cross_layer.py:215-216 | an empty frontier means the ball does not grow any more, so stopping early loses nothing |
| Journey.OutEdges | backend/app/brain/cross_layer.py:217-222 | the edges out of the frontier and the ids they newly reach |
| Journey.Hydrate | backend/app/brain/cross_layer.py:223-226 | discovered nodes are added in the store's order, until none is left or the cap is reached |
| HealApply.HealUndo | backend/app/healing/apply.py:58-91 | if the new path has no quote or line break and is not addressed yet, and the assertion lines came out unchanged, healing there and back returns the script character for character |
| HealApply.UnchangedIffNotAddressed | backend/app/healing/apply.py:69-101 | the code comes back unchanged iff no non-assertion line addresses the old path, or both paths are the same |
| HealApply.SubstituteBack | backend/app/healing/apply.py:58-91 | on one line, replacing a path by one that does not occur and back is the identity, slashes and quotes included |
| HealApply.StatusKept | backend/app/healing/apply.py:49-55 | a heal can only add assertion lines; if their number is unchanged every line keeps its status |
| HealApply.SplitJoin | backend/app/healing/apply.py:85-91 | the rewritten lines are the lines of the rewritten script |
| HealApply.StripSlashesMeaning | backend/app/healing/apply.py:65-80 | a path loses exactly the slashes at its two ends |
| HealApply.ApplyRouteHeal | backend/app/healing/apply.py:69-91 | the line loop computes the healed script |
| HealService.HealingIsHonest | backend/app/healing/service.py:99-241 | after any sequence of scans, confirms and rejects from an empty table every case's current script has its original assertion lines, and differs from the original only by a confirmed heal of that case |
| HealService.ResolvedIsFinal | backend/app/healing/service.py:209-241 | rows are never dropped or re-aimed, and a confirmed or rejected heal never changes again |
| HealService.ScanIsFlagged | backend/app/healing/service.py:99-150 | a scan touches no script and adds only proposed rows, each the one `CandidateIff` describes, for a result that failed or erred, of a case that passed before, classified as a location failure |
| HealService.CandidateIff | backend/app/healing/service.py:152-207 | a heal is proposed iff the re-binding is confident, the current script addresses the old path, the path moves and the assertion lines come out identical; the row then carries the run, both paths and the re-addressed script |
| HealService.FailuresExact | backend/app/healing/service.py:99-122 | a scan looks at exactly the results that failed or erred, of cases that passed before, each as often as it was reported |
| HealService.FailuresInOrder | backend/app/healing/service.py:99-122 | and in the order they were reported |
| HealService.RescanIsIdempotent | backend/app/healing/service.py:186-191 | scanning the same run again changes nothing |
| HealService.RecordedOnce | backend/app/healing/service.py:186-191 | over every run from an empty table one re-addressing of one case is one row |
| HealService.ReportIsExact | backend/app/healing/service.py:123-140 | every scanned failure lands in exactly one bucket, in order, decided by whether its case still exists, whether it is a location failure and whether a heal may be proposed; a healed one is reported with the row that re-addresses its case |
| HealService.HealService.Propose | backend/app/healing/service.py:152-207 | the proposing steps, with the existing row returned when the re-addressing is known |
| HealService.HealService.ScanRun | backend/app/healing/service.py:99-150 | the loop over the failures computes the scan's store and report |
| HealService.HealService.ConfirmHeal | backend/app/healing/service.py:209-228 | a proposed row writes its code over the case's current script and is resolved as confirmed; every other script and row, and the store on any other confirm, is left as it was |
| HealService.HealService.RejectHeal | backend/app/healing/service.py:230-241 | a proposed row is resolved as rejected; no script, no other row, and on any other reject nothing changes |
| HealService.ConfirmApplies | backend/app/healing/service.py:209-228 | what a confirm does to every script and every row, for every row number and state |
| HealService.RejectDiscards | backend/app/healing/service.py:230-241 | what a reject does, likewise |
| HealService.CurrentIsLastApplied | backend/app/healing/service.py:209-241 | over every run a case's current script is the code of its last confirmed heal until the next one is confirmed, and the one it started with before the first |
| DayRegistry.AnswersAsRule | backend/app/ai/gemini.py:181-202 | under a clock that never goes back the table with delete-on-read answers exactly: the midnight after the last mark is still ahead |
| DayRegistry.AnswersAsRuleIff | backend/app/ai/gemini.py:181-202 | for any clock: the table answers as the rule iff it is not the case that the rule says exhausted and some question since the last mark read a time at or past that mark's midnight |
| DayRegistry.BackwardClockForgets | backend/app/ai/gemini.py:192-199 | a concrete history with a clock stepping back where table and rule differ |
| DayRegistry.MidnightIsNext | backend/app/ai/gemini.py:172-178 | the reset point is a whole number of days, and the first such point strictly after now |
| DayRegistry.DayExhaustionRegistry.IsExhausted | backend/app/ai/gemini.py:192-199 | answers from the table and drops a window that has rolled over |
| GeminiChain.CallBound | backend/app/ai/gemini.py:340-395 | one `generate` makes at most chain length x minute retries x attempts transport calls, for any transport |
| GeminiChain.WalkSleep | backend/app/ai/retry.py:31-51 | total sleep is at most chain length x (backoffs of max_delay + base_delay after all attempts but a round's last, and a capped wait between rounds) |
| GeminiChain.ChainOutcome | backend/app/ai/gemini.py:335-368 | with the chain's first model that was neither out for the day, nor got a per-day 429 last in its turn, nor gave way: its text is returned iff its turn's last reply is a 200 with text, the timeout raised iff it is a timeout, a permanent error iff it is a 401 or 403, an unexpected one iff the transport raised something else |
| GeminiChain.AllPassedOver | backend/app/ai/gemini.py:335-368 | AllModelsExhausted iff every model of the chain was out for the day at its turn or got a per-day 429 as the last wire reply of its turn; a transient error iff all were passed over and one gave way, its last reply a per-minute 429, a connection failure, another status or a text without content |
| GeminiChain.InterpretMeaning | backend/app/ai/gemini.py:396-440 | what each wire reply is taken for, status by status, both ways; only timeouts, connection failures, other statuses and empty texts are retried |
| GeminiChain.ExhaustedByRule | backend/app/ai/gemini.py:335-368 | the same with the registry's table replaced by the rule on its whole history, this walk's marks included, under a clock that never goes back |
| GeminiChain.WalkVisits | backend/app/ai/gemini.py:340-363 | verdict number i of a walk is what visiting model number i comes to, in the state the earlier visits left |
| GeminiChain.NoAttemptsAllowed | backend/app/ai/retry.py:31-51 | with no attempts allowed the call raises without sending anything iff some model is not out for the day |
| GeminiChain.VisitMeaning | backend/app/ai/gemini.py:340-363 | a visit skips iff the registry says so, and otherwise its verdict is that of the last reply to this model in this visit |
| GeminiChain.RoundsMeaning | backend/app/ai/gemini.py:370-395 | a model's verdict is that of its last reply, and all earlier ones were timeouts, transient failures or per-minute 429s |
| GeminiChain.MinuteRoundsRunOut | backend/app/ai/gemini.py:370-395 | a turn whose last wire reply is a per-minute 429 got one in every round it was allowed, and no turn gets more |
| GeminiChain.AttemptsMeaning | backend/app/ai/retry.py:31-51 | every reply but the last was a timeout or a transient failure, and if the last is one too the attempts ran out |
| GeminiChain.TurnNaps | backend/app/ai/gemini.py:370-395 | a turn sleeps once between any two of its calls and at no other time: after a per-minute 429 the hinted wait up to the cap, or the cap; else the backoff for the call's place since the last such refusal; a retryable last reply means all attempts in a row were used |
| GeminiChain.BackoffMeaning | backend/app/ai/retry.py:38-39 | the backoff is base_delay x 2 ** (attempt - 1) up to max_delay, and jitter |
| GeminiChain.TimeoutIsNotRemembered | backend/app/ai/gemini.py:335-368 | a two-model chain where the first times out, the second would answer, and the timeout is raised |
| GeminiChain.GeminiProvider.WithRetries | backend/app/ai/retry.py:21-51 | the attempt loop, with its calls and its sleeps |
| GeminiChain.GeminiProvider.GenerateWithModel | backend/app/ai/gemini.py:370-395 | the per-minute wait loop around it |
| GeminiChain.GeminiProvider.Generate | backend/app/ai/gemini.py:339-368 | the chain loop ends as its verdicts say |
| TokenBudget.BuildWithinBudget | backend/app/ai/budget.py:49-80 | any prompt returned fits and starts with the whole instruction and task; a cut one keeps a context prefix of length k with 8k >= 7k* for the longest that fits; the bare prompt only if no non-empty prefix fits; errors exactly when they are due |
| TokenBudget.ShrinkIsNearOptimal | backend/app/ai/budget.py:71-78 | one shrinking step from a prefix that does not fit loses at most an eighth |
| Chunker.ChunksAreSound | backend/app/documents/chunk.py:15-49 | chunks are non-empty and within the limit, hold the content's non-space characters in order, and any two neighbours together hold at least `max_chars` |
| Chunker.ChunkCount | backend/app/documents/chunk.py:23-30 | one fewer than the number of chunks, times `max_chars`, is at most twice their total length |
| Chunker.ChunksAreFewest | backend/app/documents/chunk.py:15-31 | no way of packing the document's pieces in their order into joined chunks within the limit uses fewer chunks |
| Chunker.ChunksArePacking | backend/app/documents/chunk.py:15-31 | the chunks are such a packing: consecutive pieces joined by newlines, none lost |
| Chunker.ParagraphsMeaning | backend/app/documents/chunk.py:12-17 | the content is its paragraphs with blank-line separators between them, and no paragraph holds a separator |
| Chunker.ChunksAreClean | backend/app/documents/chunk.py:15-49 | no chunk starts or ends with white space or contains a blank line |
| Chunker.StripMeaning | backend/app/documents/chunk.py:17-49 | stripping takes off exactly the white space at the two ends |
| Chunker.CutPrefersBlank | backend/app/documents/chunk.py:40-44 | a longer text is cut at the last blank of its window after the first character, at the limit iff there is none; both sides are stripped and the rest is cut on |
| Chunker.NextSeparator | backend/app/documents/chunk.py:12-17 | the leftmost blank-line separator, as long as possible |
| Chunker.SplitLongText | backend/app/documents/chunk.py:34-49 | the hard-split loop |
| Chunker.ChunkText | backend/app/documents/chunk.py:15-31 | the packing loops compute the chunks |
| RateLimit.RateBound | backend/app/core/rate_limit.py:57-76 | in any mixed history of hits under a nondecreasing clock, any stretch as long as a rule's window holds at most twice its limit of one identity's requests that `hit` allowed |
| RateLimit.BoundIff | backend/app/core/rate_limit.py:57-76 | that bound holds for every ordered history of one identity iff the window is not exactly zero or the limit is zero or less |
| RateLimit.CountsAlone | backend/app/core/rate_limit.py:57-76 | the allowed requests of one identity in a mixed history are as many as its own hits alone would have got |
| RateLimit.NoWindowNoBound | backend/app/core/rate_limit.py:57-76 | with a window of zero or less all hits at one instant are allowed if the limit is at least one, and none otherwise |
| RateLimit.CountIsExact | backend/app/core/rate_limit.py:65-69 | the stored count is the number of hits since the window's first one |
| RateLimit.AllowedIffEarly | backend/app/core/rate_limit.py:71-76 | a hit is allowed iff it is among the first `limit` of its window, and `remaining` says how many are left |
| RateLimit.OthersDoNotMatter | backend/app/core/rate_limit.py:64-69 | what is stored for an identity depends on its own hits only, for rule names without a colon |
| RateLimit.RetryAfterHonest | backend/app/core/rate_limit.py:71-73 | a denied caller back after `retry_after` is let in iff the limit is at least one and at most a second or a whole number of seconds was left; one second later iff the limit is at least one |
| RateLimit.RateLimiter.Hit | backend/app/core/rate_limit.py:57-76 | one hit updates its window and is decided by it |
| Templates.MatchPathExact | backend/app/brain/cross_layer.py:84-94 | segment-wise matching decides the compiled pattern's language, with unique captures |
| Templates.CompileKeepsText | backend/app/brain/cross_layer.py:84-94 | compiling loses nothing: the segments as written join to the URI, and one is a parameter iff it is written in braces |
| Templates.MatchInverts | backend/app/brain/cross_layer.py:129-138 | putting the named captures back gives the path iff equal names captured equal text |
| Templates.RebuildsAllIff | backend/app/brain/cross_layer.py:129-138 | every path a template matches is rebuilt from its named captures iff the template's parameter names are pairwise distinct |
| Templates.RepeatedNameLosesTheFirst | backend/app/brain/cross_layer.py:134-137 | a template of one name twice matches any two texts and keeps the second; putting it back gives the path iff they are equal |
| EndpointMatching.NoneIffNoEndpoint | backend/app/brain/cross_layer.py:119-139 | no result iff no endpoint of the method has the path as URI or as an instance of its template |
| EndpointMatching.TemplateMatchInverts | backend/app/brain/cross_layer.py:129-138 | a template result is a same-method endpoint whose template the path instantiates; its path values are exactly the captured ones by name, and put back they give the path iff equal names captured equal text |
| EndpointMatching.MatchersAgree | backend/app/crawler/matching.py:41-68 | both matchers give the same endpoint and confidence for every path without a brace |
| EndpointMatching.MatchersDisagree | backend/app/crawler/matching.py:54-68 | with a brace they agree iff no usable endpoint of the method has the path itself as its URI |
| EndpointMatching.OrderIsDeterministic | backend/app/brain/cross_layer.py:97-108 | with distinct names the order of the input does not matter |
| EndpointMatching.LeastNameWins | backend/app/brain/cross_layer.py:97-139 | an exact hit wins over every template, and among hits of one kind the least name |
| EndpointMatching.ExactMeaning | backend/app/brain/cross_layer.py:106-128 | an endpoint is an exact hit iff its verb agrees in any case of letters and its URI, without the slashes at its ends, is the path |
| EndpointMatching.TemplateMeaning | backend/app/brain/cross_layer.py:106-139 | and a template hit iff its URI has a brace and the path is an instance of it |
| EndpointMatching.ConfidenceTellsHow | backend/app/crawler/matching.py:58-68 | 0.9 is the confidence of a match by the URI itself and 0.7 of one by template, with either matcher |
| EndpointMatching.EndpointIndex.Match | backend/app/brain/cross_layer.py:119-139 | the lookup and the template loop find the first endpoint in name order |
| EndpointMatching.EndpointMatcher.Match | backend/app/crawler/matching.py:58-68 | the same for the crawler's matcher |
| PhpLiteral.RoundTrip | backend/app/generation/csv_import.py:249-271 | parsing the text of a payload followed by any delimiter returns the payload, up to empty dict and empty list |
| PhpLiteral.StringRoundTrip | backend/app/generation/csv_import.py:259-260 | no string content can close its literal early, whatever follows |
| PhpLiteral.TextDeterminesPayload | backend/app/generation/csv_import.py:263-271 | payloads with the same text differ at most in empty dict against empty list |
| Plan.PlanNamesDistinct | backend/app/generation/plan.py:323-454 | with distinct field names all case names of a plan are distinct |
| Plan.PlanKeysDistinct | backend/app/generation/case_key.py:16-27 | with distinct field names so are all case keys |
| Plan.KeysMeetIff | backend/app/generation/case_key.py:16-27 | for verbs without a blank and URIs without a double colon, cases of any two endpoints share a key iff the verbs agree in any case of letters, the URIs up to leading slashes, and type and name of the case |
| Plan.OneChangePerCase | backend/app/generation/plan.py:402-452 | every case after the first ones targets one field and equals the happy payload outside it |
| Plan.HappyStringFits | backend/app/generation/plan.py:100-140 | a string field's happy value satisfies min, max and size iff the limits meet `StringLimitsOk` |
| Plan.HappyNumberFits | backend/app/generation/plan.py:116-121 | the same for numeric fields iff `NumericLimitsOk`, where a size rule is not looked at and must happen to equal the generated number |
| Plan.HappyCaseFits | backend/app/generation/plan.py:323-380 | the plan's happy case satisfies the min, max and size rules of every string and numeric field iff that field's limits are ones the generator can meet |
| Plan.BoundariesViolate | backend/app/generation/plan.py:402-452 | for every string or numeric field and every limit it has the plan holds one edge case of that name whose value breaks that very limit, unless no string can: a minimum of zero or less, a size of zero from below |
| Plan.EveryRuleHasACase | backend/app/generation/plan.py:402-452 | every rule that applies to a field has its case in the plan |
| Plan.NegativesSend | backend/app/generation/plan.py:402-452 | the required negative leaves its field out, the type negative sends a value that is not of the field's type where the happy one is, the exists negative the id 999999999, the unique negative the happy value again |
| Plan.AuthIsTested | backend/app/generation/plan.py:384-400 | an unauthenticated case is planned iff the endpoint asks for authentication; it is the happy request sent without it and expects 401, or 302 off the API |
| Plan.ExpectedStatuses | backend/app/generation/plan.py:167-238 | the happy status by verb in any case of letters, 422 or 302 naming its field for every targeted case, and the happy case authenticated iff the endpoint asks for it |
| Plan.NegativeFlipsItsField | backend/app/generation/plan.py:240-274 | an exists or unique negative of the plan asks for the opposite row state of its own field with the value it sends, and every other dependency is the happy case's |
| Plan.HappyDependencies | backend/app/generation/plan.py:240-274 | the happy case needs exactly one row state per field with a relation, in field order: present for exists, absent for unique, with the value it sends |
| Plan.PlanCases | backend/app/generation/plan.py:323-454 | the planner's loops build the plan of the specification |

## Left out

- HTTP endpoints, database models, repositories, migrations, the frontend, browser drivers, subprocesses and the job queue: plumbing around the cores.
- Bridge gate: which queued thread a freed slot goes to; any choice is covered. `Condition` is taken to wake only on `notify_all`.
- CaseDiff.Diff: Python's equality of booleans and numbers (`True == 1`) is not modelled; JSON values are typed here.
- CaseDiff.NormalizePlain: dictionary keys arrive in their `str` form; the text rendering of a diff and the version lookup are not part of this model.
- Crawler.Discover: splitting a URL and resolving an href (section 5.2 of RFC 3986) are library calls; lower-casing is modelled on ASCII letters; writing pages to the store is not modelled.
- Journey.Journey: the final sort of nodes and edges, and the order the store returns rows in (it decides which nodes are kept at the cap).
- HealApply.Heal: the assertion-line pattern is an arbitrary test on a line's text without its terminator.
- HealService.HealingIsHonest: no regeneration of scripts between the steps; timestamps and rationale texts are not modelled.
- GeminiChain.GeminiProvider.Generate: prompt assembly, the missing-key error, usage records and body parsing happen before or inside one call and are not modelled; a transport reply carries their result.
- DayRegistry.NextUtcMidnight: the microsecond rounding of `fromtimestamp`.
- Chunker.ChunkText: with `max_chars` below one the hard-split loop makes no progress on a long paragraph, so such a call has no result to describe.
- Templates.MatchPath: `$` also accepting a trailing newline, and white space next to slashes in a URI.
- EndpointMatching.EndpointIndex.Match: the query string kept as metadata.
- PhpLiteral.RoundTrip: floats, and PHP turning numeric string keys into integers when the literal runs.
- Plan.PlanOf: happy shapes and echo checks, path values and descriptions.
- Plan.HappyCaseFits: e-mail, date, UUID, boolean, array and related-id values are generated but not compared with size rules.
- Failure classification, route re-resolution, CSV row validation, the impact query and the text render of diffs: finite tables or single-pass filters.
