# A verified model of the OpenCode free gateway

The gateway accepts OpenAI-style requests on `/v1/*` and forwards each to one upstream through one
of many workers. A worker is an account, usually bound to a proxy of its own. This project models
the parts of the gateway whose behaviour comes from state that outlives a single call, and proves
what holds of every input, every run and every interleaving.

`dafny verify dfyconfig.toml` checks all of it.

## The parts

**Scheduling and retries** (`Rotator`, `Selection`, `History`, `AutoDisable`, `Relay`, `Forward`,
`Protocol`). The
rotator is a cursor over workers, each with a cooldown clock, a ban clock and a failure counter. The
class `Rotator` is the code; the functions `Pick`, `MarkById` and `SyncTo` are what its locked
sections do to the abstract value `Rot`. `Selection` says what a pick chooses, `History` what whole
runs of picks, marks and resyncs leave behind, `Forward` is the retry loop of one request on a
rotator of its own, and `Protocol` is any number of such loops interleaved with resyncs.

**Proxy pool, workers and settings** (`Pool`, `PoolLaws`, `Naming`, `Registry`, `GatewayRuns`). The
pool keeps a map and an order; handlers edit it together with the worker list, reflect both into the
settings, save those, and resync the rotator if the save succeeded. `GatewayRuns` is the state machine
of all handlers, probes, traffic and restarts, with the invariant that ties the four together.

**Usage** (`Sse`, `Account`, `Stats`, `Dashboard`, `Counting`, `Saver`). An observer keeps the last
megabyte of a streamed body and reads token usage from it; the store counts requests and tokens per
account, the dashboard adds them up, `Counting` says event by event what each counter counts, and a
debounced loop saves them.

**Request bodies** (`BodyFix`, `BodyLaws`). The rewriting of a JSON object: drop `client_metadata`,
resolve effort aliases, repair messages.

**SOCKS5** (`Socks5`, `SocksLaws`). The dialogues of the relay and of the probe over a connection,
against parsers written from RFC 1928 (sections 3 to 6) and RFC 1929 (section 2).

`Common` and `Text` hold shared vocabulary: 64-bit wrap-around, decimal printing, splitting at the
last separator.

## How to read it

Where the code changes state in place there is a class with the same fields and methods; each method
is proved to take the abstract value to what a specification function says, and the lemmas are about
those functions. Methods that hold the code's loops (`Rotator.FirstReady`, `Manager.Import`,
`Store.OverallStats`, `DialSOCKS5`, ...) carry the loop invariants.

Beside the laws stand statements that repeat, with every constant, byte and text spelled out and
without the functions of the model, what the operations do (`...Meaning`, `...InPlainTerms`).

What the code leaves to its surroundings is an argument: clock readings (`now`), the start of the local
day (`midnight`), what upstream answers, the random new proxy ids, whether a save succeeds, the bytes a
SOCKS server will send and how many writes go through, the JSON decoder of usage payloads, and which
model names count as thinking models. Every statement holds for all of them; where one is restricted,
the restriction is in the statement: new ids are fresh, parsed lines have a host and a port from 1 to
65535. Each locked section of the rotator and each operation of the pool and the store is one atomic
step. Time is an integer, and the zero time lies before every clock reading.

## Where code and documentation disagree

The model follows the code.

- The README of the gateway (`README.md:29`) and the comments at `internal/rotator/rotator.go:126-127`
  promise that a worker keeps serving until it fails. The code is round robin: the worker is kept
  exactly when no other is ready (`Selection.KeptOnlyWhenAlone`).
- `internal/relayproxy/relay.go:80-81` promises different workers. A worker is retried when every ready
  one has been tried (`Selection.PickRetriesOnlyIfForced`, `Protocol.RetryOnlyWhenForced`).
- The label of a worker can be "ready" at an instant at which no pick calls it ready
  (`Selection.LabelAgreesExceptAtExpiry`), so a pick can fail with no worker banned
  (`Selection.PickWhenNoneReady`).
- The gateway's README (`README.md:31`) says a ban lasts 24 hours. It ends at the next midnight, so it
  lasts them only if it is given at midnight; and as that is 24 hours after the last one, on a 25-hour
  day a ban given in the last hour is over when it is given (`History.BanTakesEffect`). A restart drops
  every ban (`GatewayRuns.RestartDropsClocks`).
- The gateway's README (`README.md:33`) says five consecutive failures disable a worker for 10 minutes.
  The fifth resets the counter, so one more failure, of a request still in flight, sets the clock to 5
  seconds from then. `AutoDisable.TenMinutesHoldIff` says exactly when the ten minutes hold. Even then
  the worker is picked when none is ready (`AutoDisable.DisabledButAlone`).
- `internal/relayproxy/relay.go:28-29` says the no-worker error means that none is configured. It is
  returned whenever every worker is banned, or at the instant its clock runs out, at the request's
  first pick (`Protocol.NoWorkerIff`).
- Settings may repeat a worker id. A mark then reaches the first entry while a resync copies the last:
  `History.ResyncKeepsBanIff` and `History.MarkCommutesWithSync` say exactly when that matters, and
  `Dashboard.OverallBalances` when the dashboard counts requests twice.
- A worker may be bound to a proxy that does not exist (`GatewayRuns.EditedBound`). A failed save
  leaves a rotator that was up to date behind the settings exactly if the request changes the workers
  (`GatewayRuns.FailedSaveSkipsResync`); in any run its list is that of the last successful resync
  (`GatewayRuns.RotatorIsLastSynced`).
- A success that is no stream is cut at 32 MiB, not passed on byte for byte
  (`Accounting.PassedWhole`), and a usage window that begins in mid-line can see usage where there is
  none (`Sse.CutMayInvent`; `Sse.TailAgreesIff` says when the two agree).
- A failed write of the counters is not retried until the next change
  (`Saving.FailedWriteIsNotRetried`); `Saving.SavedIff` says exactly what gets saved.
- The status page takes the store's lock four times, so it can miss a request of an account that is first
  recorded while it is built (`Dashboard.OverallShows`, `Dashboard.MissedIff`).
- A dial through SOCKS5 succeeds on replies the documents do not allow: with another version or
  reserved byte, cut off in the bound address, after a login reply of another version, or after method
  0 was chosen though only username and password were offered, in which case the credentials are never
  sent. `SocksLaws.SuccessConformsIff` says these are all. The probe leaves the bound address unread
  (`SocksLaws.ProbeLeavesBoundAddress`).

## Model

| member | source | states |
|---|---|---|
| `Scheduler.Rotator.Sync` | internal/rotator/rotator.go:91-124 | the mutable worker list becomes `SyncTo` of the old one: fresh objects, runtime state carried over by id from the last old entry with that id, cursor reset only when out of range |
| `Scheduler.Rotator.IndexById` | internal/rotator/rotator.go:97-101 | the map built from the old list holds, for every id, the last worker with it |
| `Scheduler.Rotator.BuildNext` | internal/rotator/rotator.go:102-119 | the new list has one distinct fresh worker per configured one, each with the state its id had |
| `Scheduler.Rotator.PickExcluding` | internal/rotator/rotator.go:137-184 | returns the worker, and moves the cursor, that `Pick` says; touches nothing else |
| `Scheduler.Rotator.FirstReady` | internal/rotator/rotator.go:150-170 | the scan from the cursor finds the least offset of a ready worker that is not excluded, or that there is none |
| `Scheduler.Rotator.FirstCooling` | internal/rotator/rotator.go:171-178 | the scan in list order finds the first worker that is cooling down and not banned |
| `Scheduler.Rotator.Find` | internal/rotator/rotator.go:281-288 | returns the first worker with the id, or none |
| `Scheduler.Rotator.MarkSuccess` | internal/rotator/rotator.go:187-197 | resets the failure counter of the first worker with the id and changes no other worker |
| `Scheduler.Rotator.MarkCooldown` | internal/rotator/rotator.go:200-218 | counts the failure; sets now + 10 min and counter 0 on the fifth, else a doubling backoff, on that worker only |
| `Scheduler.Rotator.MarkBan` | internal/rotator/rotator.go:222-244 | bans that worker until the next midnight (or now + dur), clears its cooldown and counter |
| `Scheduler.Rotator.MarkError` | internal/rotator/rotator.go:248-260 | stores the message cut at 400 and its time on that worker only |
| `Scheduler.Rotator.ReadyCount` | internal/rotator/rotator.go:263-273 | counts the workers that are ready |
| `Selection.ScanReadyMeaning` | internal/rotator/rotator.go:150-159 | the scan yields the eligible worker nearest after the cursor going round, and none only if none is eligible |
| `Selection.PickNearestUntried` | internal/rotator/rotator.go:150-159 | whenever an untried worker is ready, a pick takes the one nearest after the cursor and leaves the cursor just past it: round robin |
| `Selection.PickStepOne` | internal/rotator/rotator.go:150-159 | in literal terms: the first worker going round from the cursor that has both clocks strictly behind it and is not excluded is taken, and the cursor goes just past it |
| `Selection.KeptOnlyWhenAlone` | internal/rotator/rotator.go:126-165 | sticky affinity, the documented promise: after a pick with nothing excluded took a ready worker that is ready again, the next pick takes it again if and only if no other worker is ready then |
| `Selection.PickRetriesOnlyIfForced` | internal/rotator/rotator.go:160-170 | a tried worker is taken only if no untried one is ready, and then the nearest ready one |
| `Selection.PickStepTwo` | internal/rotator/rotator.go:160-170 | in literal terms: if every ready worker is excluded, the first ready one is taken, and the cursor goes one on from where it was |
| `Selection.PickWhenNoneReady` | internal/rotator/rotator.go:171-183 | with none ready the first cooling worker of the list is taken; nothing is picked exactly when every worker is banned or at the very instant its later clock runs out |
| `Selection.PickStepThree` | internal/rotator/rotator.go:171-182 | in literal terms: if none is ready, the first of the list that is cooling down and not banned is taken, and the cursor goes one on from where it was |
| `Selection.PickNothing` | internal/rotator/rotator.go:171-184 | otherwise nothing is taken and neither cursor nor workers change |
| `Selection.PickFailsIff` | internal/rotator/rotator.go:146-184 | for every list: a pick fails if and only if every worker, if there is any, is banned or at the instant its later clock runs out |
| `Selection.PickedUnready` | internal/rotator/rotator.go:160-183 | a worker that is not ready is picked only when none is |
| `Selection.PickSafe` | internal/rotator/rotator.go:146-184 | no pick returns a banned worker; the cursor stays in range and the workers are unchanged |
| `Selection.LabelAgreesExceptAtExpiry` | internal/rotator/rotator.go:46-63 | the status label "ready" agrees with the test the picks use at every instant but the one at which the later clock runs out |
| `Selection.LabelMeaning` | internal/rotator/rotator.go:46-63 | each of the three labels is given under exactly its condition on the two clocks |
| `Selection.CountReadyMeaning` | internal/rotator/rotator.go:263-273 | the ready count is the number of list entries with both clocks strictly behind them |
| `Selection.MissedPickComesNearer` | internal/rotator/rotator.go:146-159 | a pick that misses an eligible worker strictly shortens the cyclic distance from the cursor to it |
| `History.BoundedWaiting` | internal/rotator/rotator.go:146-184 | without a resync, a worker that is ready and not excluded at every pick is chosen within one round of picks, whatever marks, clocks and exclusions happen to the others |
| `History.EveryMissCounts` | internal/rotator/rotator.go:146-184 | over a run of misses, distance plus number of picks never exceeds the initial distance |
| `History.MarkExtendsRecord` | internal/rotator/rotator.go:187-218 | one more mark acts on the closed form as the code acts on the stored counters; the shift never exceeds 40 s, so the 60 s clamp is never taken |
| `History.StateIsRecord` | internal/rotator/rotator.go:91-124 | after any history of picks, marks and resyncs, ids repeated or not, every entry's clocks and counter are the closed form of the marks that reached it: counter = cooldown marks since the last success or ban, mod 5; 10 min on every fifth, else 5 s times 2^(k-1). The first entry of an id gets its marks, a resync gives all entries what the last one had |
| `History.LookupIsRecord` | internal/rotator/rotator.go:91-124 | for an id no resync repeats, those are all marks issued for it since it was added, and no pick, other id or resync that kept it matters |
| `History.CounterBounded` | internal/rotator/rotator.go:200-218 | the failure counter is always 0 to 4, after every history |
| `History.LookupAfterMark` | internal/rotator/rotator.go:187-260 | a mark changes the looked-up state of its id by the mark and of no other id |
| `History.MarksInPlainTerms` | internal/rotator/rotator.go:187-260 | what each mark does to each field, in nanoseconds: 5, 10, 20, 40 s and 10 min for the first to fifth failure; a ban of 24 h ends 24 h after the day began; messages are cut at 400 |
| `History.LookupAfterSync` | internal/rotator/rotator.go:91-124 | after a resync of any list an id has its first new configuration with the state of its last old entry, or a fresh one, or is gone |
| `History.SyncInPlainTerms` | internal/rotator/rotator.go:91-124 | after a resync the list is the new one; each entry has cooldown, ban, counter and last error of the last old entry with its id, or all of them zero if there was none; the cursor stays if in range and else is 0 |
| `History.MarkCommutesWithSync` | internal/rotator/rotator.go:91-124 | for any two lists, mark-then-sync and sync-then-mark give the same rotator if and only if the id is not configured afterwards, or the mark would not change the state carried over, or the id has one entry before and after |
| `History.MarkInFlight` | internal/rotator/rotator.go:91-124 | for an id that is not repeated: if and only if the id was known before, or is not configured after, or the mark is a success, so a request in flight never loses its mark |
| `History.ResyncKeepsBanIff` | internal/rotator/rotator.go:97-119 | for any two lists, a resync keeps a ban of a configured id if and only if the entry banned is also the last with the id, or the last is banned as long anyway |
| `History.DuplicateIdLosesBan` | internal/rotator/rotator.go:97-119 | an instance of the failing case: two fresh workers under one id |
| `History.BanPersists` | internal/rotator/rotator.go:187-260 | a ban of all entries of an id is not shortened by any run of picks, other marks and resyncs that keep the id, repeated or not |
| `History.NoPickBeforeBanEnds` | internal/rotator/rotator.go:146-184 | no pick before the end of a ban returns the banned worker |
| `History.BanReachesAllIff` | internal/rotator/rotator.go:230-244 | a ban reaches all entries of its id if and only if the id is known and its further entries, if it is repeated, are banned as long already |
| `History.BanSafety` | internal/rotator/rotator.go:222-244 | then a free-limit ban keeps its worker out of every pick until the next midnight |
| `History.BanTakesEffect` | internal/rotator/rotator.go:222-244 | the ban is in force when given exactly if less than 24 h of the local day have passed (always, on a 24 h day), otherwise the worker is ready; it ends within 24 h, and lasts them in full only if given at midnight |
| `AutoDisable.SixthFailureShortensIff` | internal/rotator/rotator.go:207-217 | after the fifth failure in a row, a further one keeps the ten minutes if and only if it is marked in their last five seconds or later |
| `AutoDisable.TenMinutesHoldIff` | internal/rotator/rotator.go:200-218 | over every run, a worker whose id is not repeated stays disabled for ten minutes throughout if and only if the run has no ban of it and marks no further failure more than its own backoff before the end |
| `AutoDisable.RunAppliesMarks` | internal/rotator/rotator.go:91-260 | over every run, only its own marks move the clocks and counter of the one entry of an id |
| `AutoDisable.DisabledOnlyAsLastResort` | internal/rotator/rotator.go:146-184 | as long as they hold, the worker is picked only when no worker is ready |
| `AutoDisable.DisabledButAlone` | internal/rotator/rotator.go:171-182 | a disabled worker that is alone serves the next request |
| `Forwarding.Client.Forward` | internal/relayproxy/relay.go:84-139 | the loop of one request issues exactly the rotator calls its attempts account for, makes at most three attempts on the workers its picks returned, and returns `ResultOf` them |
| `Forwarding.Client.AttemptOne` | internal/relayproxy/relay.go:187-242 | which marks one attempt issues itself, in order, and what it returns, for each way it can end; `Relay.RateLimitMarks` and `Relay.MarkedIffEarned` say in literal terms what those marks are |
| `Forwarding.Client.Round` | internal/relayproxy/relay.go:107-127 | the marks of an attempt including those of its answer, and exactly when the loop stops |
| `Relay.LastAnswerMeaning` | internal/relayproxy/relay.go:96-112 | the variable lastResult holds the latest attempt that got a response, if any did |
| `Relay.ResultMeaning` | internal/relayproxy/relay.go:112-138 | the result is the first answer that is neither 429 nor 5xx, else the latest answer even if later attempts failed in transport, else the last failure; no-worker exactly when nothing was attempted |
| `Relay.ServedInPlainTerms` | internal/relayproxy/relay.go:84-139 | with the numbers spelled out: at most three attempts; an answer that is neither 429 nor 5xx is the last attempt and the result; fewer than three without one only if a pick found nothing; a failure names the last attempt's |
| `Relay.OneClockMarkPerAttempt` | internal/relayproxy/relay.go:99-128 | the attempts of a request issue exactly one success, cooldown or ban each, except those that return at once on another status or fail before sending |
| `Relay.MarkedIffEarned` | internal/relayproxy/relay.go:99-128 | a request issues a mark for a worker if and only if one of its attempts there met what earns it: success for 200 to 399; a ban of 24 h for a 429 whose body has the text FreeUsageLimitError somewhere; cooldown for any other 429, 500 up, and failures on the way; and which message with which failure |
| `Relay.RateLimitMarks` | internal/relayproxy/relay.go:222-237 | a 429 is marked with its message and then with the ban of 24 h if and only if FreeUsageLimitError starts at some place of its body, and with a cooldown otherwise |
| `Relay.ContainsMeaning` | internal/rotator/rotator.go:277-279 | the body test is true exactly if the text occurs somewhere in the body |
| `Relay.FreeUsageLimitMeaning` | internal/rotator/rotator.go:277-279 | the text searched for is FreeUsageLimitError, at any place of the body |
| `Protocol.StepKeepsInv` | internal/relayproxy/relay.go:84-139 | every locked section and every arriving outcome, of any request or of the admin side, keeps the protocol invariant |
| `Protocol.ReachableInv` | internal/relayproxy/relay.go:84-139 | the invariant holds after every interleaving of any number of requests with resyncs |
| `Protocol.FinishedRequestServed` | internal/relayproxy/relay.go:99-138 | in every interleaving a finished request made at most three attempts, each on the worker its pick returned, returned the result of its own outcomes, and marked the clocks once per marked attempt |
| `Protocol.AlwaysBounded` | internal/relayproxy/relay.go:99-128 | at every moment the cursor is in range, no request has more than three attempts, and no more clock marks than attempts |
| `Protocol.RetryOnlyWhenForced` | internal/relayproxy/relay.go:95-105 | in every interleaving a request retries a worker only when every ready worker had been tried, and uses one that is not ready only when none is |
| `Protocol.NoWorkerIff` | internal/relayproxy/relay.go:99-138 | in every interleaving a pick ends its request with no-worker if and only if it is the request's first and every worker, if any is configured, is then banned or at the instant its later clock runs out |
| `Protocol.NoWorkerMeansNoAttempt` | internal/relayproxy/relay.go:130-138 | a request that ended with no-worker made one pick and no attempt |
| `Protocol.NoRequestUsesBannedWorker` | internal/rotator/rotator.go:230-244 | once a configured worker got a free-limit ban, no request picks it before the next midnight, however requests and resyncs interleave; if its id is repeated at that moment, its further entries have to be banned already |
| `ProxyPool.Manager.Import` | internal/pool/pool.go:160-195 | registry, ids and counts become those of `AfterImport` |
| `ProxyPool.Manager.Remove` | internal/pool/pool.go:198-210 | registry becomes `AfterRemove`; tells whether the entry existed |
| `ProxyPool.Manager.Prune` | internal/pool/pool.go:214-230 | registry becomes `AfterPrune`; reports the removed ids in order |
| `ProxyPool.Manager.SetUsable` | internal/pool/pool.go:233-240 | rewrites the flag of a registered entry, and does nothing for an id that is gone |
| `ProxyPool.Manager.SetEnabled` | internal/pool/mutate.go:4-9 | rewrites the flag of a registered entry only |
| `ProxyPool.Manager.SetSource` | internal/pool/mutate.go:12-17 | rewrites the label of a registered entry only |
| `GatewayRuns.SourceMeaning` | internal/pool/mutate.go:12-17 | the label of that entry becomes the given one; order, other fields and other entries stay |
| `ProxyPool.Manager.ListAll` | internal/pool/pool.go:140-148 | lists the entries in insertion order |
| `ProxyPool.Manager.Restore` | internal/pool/restore.go:21-53 | registry becomes `AfterRestore`; the count is how many entries were added |
| `PoolLaws.KeyInjective` | internal/pool/pool.go:44 | the printed key host:port determines host and port, also for hosts with colons |
| `PoolLaws.ImportExact` | internal/pool/pool.go:160-195 | an import appends exactly the first line of each new (host, port), in input order, under the new ids; added plus skipped is the number of lines |
| `PoolLaws.ImportPairs` | internal/pool/pool.go:160-195 | afterwards the pairs are those before and those of the lines, pairwise distinct if they were |
| `PoolLaws.ImportKeepsGood` | internal/pool/pool.go:172-193 | an import keeps order duplicate-free with exactly the map's keys, keeps every entry restorable, and changes no existing entry |
| `PoolLaws.ImportedEntries` | internal/pool/pool.go:172-193 | every line that is kept is found under its new id with its endpoint and credentials, enabled and usable |
| `PoolLaws.RemoveKeepsGood` | internal/pool/pool.go:198-210 | removal takes out that entry alone, from map and order alike, and the order of the others stays |
| `PoolLaws.PruneKeepsGood` | internal/pool/pool.go:214-230 | pruning keeps exactly the entries that are enabled and usable, unchanged and in their order, and reports exactly the others |
| `PoolLaws.RestoreKeepsGood` | internal/pool/restore.go:21-53 | a restore of any list keeps the registry consistent and restorable |
| `PoolLaws.RoundTrip` | internal/server/adminapi.go:549-587 | restoring the persisted list into an empty manager gives the same items, ids and order if and only if every entry has an id, a host, a positive port, a type and a name |
| `GatewayRuns.PersistedMeaning` | internal/server/adminapi.go:549-563 | the i-th listed proxy has every field of the i-th entry in order |
| `GatewayRuns.RestoredMeaning` | internal/pool/restore.go:21-53 | a restored entry has every field as listed, but http for a missing type and type://host:port for a missing name |
| `PoolLaws.LookupAgrees` | internal/config/config.go:185-192 | the linear lookup over the persisted list agrees with the map lookup |
| `Naming.CandidatesDiffer` | internal/server/adminapi.go:297-304 | host, host-2, host-3, ... are pairwise different |
| `Naming.TakenCandidates` | internal/server/adminapi.go:301-304 | at most as many candidates can be taken as there are ids |
| `Naming.FirstFree` | internal/server/adminapi.go:301-304 | the search ends within one check more than there are ids, at the first free candidate |
| `GatewayRuns.UniqueNameMeaning` | internal/server/adminapi.go:297-304 | the name is the host if that is free, and else host, dash and the least number from 2 on that makes a free one |
| `Text.DigitsSayTheNumber` | internal/server/adminapi.go:303 | numbers print in decimal, without a zero in front |
| `Registry.Server.NewWorkerID` | internal/server/adminapi.go:297-304 | the loop terminates with that first free name |
| `Registry.Server.WorkerExists` | internal/server/adminapi.go:334-341 | tells exactly whether the id is used |
| `Registry.Server.AddWorkers` | internal/server/adminapi.go:292-310 | appends one worker per new proxy, under `WithWorkers` |
| `Registry.Server.DeleteWorkersByProxyIDs` | internal/server/adminapi.go:516-532 | filters the worker list to `Unbound` |
| `Registry.Server.PersistPool` | internal/server/adminapi.go:549-563 | settings list the registry in order and are saved, if the save succeeds |
| `Registry.Server.ResyncRotator` | internal/server/adminapi.go:498-512 | the rotator becomes `SyncTo` of the rotator there was and the configured workers; `GatewayRuns.HandlerKeepsClocks` says what that keeps |
| `Registry.Server.ApiPoolImport` | internal/server/adminapi.go:281-331 | the whole effect of an import on registry, settings, file and rotator |
| `Registry.Server.ApiPoolPrune` | internal/server/adminapi.go:356-365 | the whole effect of a prune |
| `Registry.Server.ApiPoolRemove` | internal/server/adminpool.go:22-40 | the whole effect of a removal, including that of the bound workers |
| `Registry.Server.ApiPoolToggle` | internal/server/adminpool.go:22-49 | the whole effect of a toggle |
| `Registry.Server.ApiDeleteWorker` | internal/server/adminapi.go:383-398 | the whole effect of a worker deletion |
| `Registry.Server.ApiEditWorker` | internal/server/adminapi.go:400-435 | the whole effect of adding or updating a worker, or of a blank id |
| `GatewayRuns.WithWorkersDistinct` | internal/server/adminapi.go:292-310 | a whole import batch keeps worker ids distinct |
| `GatewayRuns.WithWorkersMeaning` | internal/server/adminapi.go:292-310 | it keeps all workers and adds exactly one for each new proxy, bound to it, in order, with the key public |
| `GatewayRuns.AddedNames` | internal/server/adminapi.go:292-310 | each worker added is named after the host of the very proxy it is bound to, given all ids before it |
| `GatewayRuns.UnboundMeaning` | internal/server/adminapi.go:516-532 | exactly the workers bound to a removed proxy go |
| `GatewayRuns.RemovalsKeepOrder` | internal/server/adminapi.go:383-391 | the workers that stay keep their order in the round |
| `GatewayRuns.EditedFields` | internal/server/adminapi.go:413-429 | the edited or added worker has each field as given, or else as it was, or empty |
| `GatewayRuns.EditedMeaning` | internal/server/adminapi.go:405-429 | an edit touches no worker but the one with the id, which exists afterwards; ids stay distinct |
| `Registry.EditedAt` | internal/server/adminapi.go:405-429 | the worker edited is the first with the id and stays at its place; a new one comes last |
| `GatewayRuns.BlankIdRefused` | internal/server/adminapi.go:400-404 | an edit with a blank id, and a removal or toggle with an empty one, change nothing |
| `GatewayRuns.EditedBound` | internal/server/adminapi.go:413-426 | an edit keeps all bindings valid if and only if it names no missing proxy: the handler does not check |
| `GatewayRuns.StepKeepsInv` | internal/server/adminapi.go:281-439 | every handler, probe result, rotator operation and restart keeps registry, settings, file, worker bindings and rotator in agreement |
| `GatewayRuns.RunKeepsInv` | internal/server/adminapi.go:281-439 | so does every run from consistent settings |
| `GatewayRuns.HandlerKeepsClocks` | internal/server/adminapi.go:498-512 | every handler that saves and resyncs gives the rotator the configured workers, each with the clocks, counter and last error of the last old entry with its id, or fresh if there was none, and keeps the cursor while in range; every other handler, and a failed save, leaves the rotator alone |
| `GatewayRuns.BanOutlivesHandlers` | internal/server/adminapi.go:281-439 | over every run of handlers, probes, picks and marks that keeps its worker configured, a ban in force stays in force |
| `GatewayRuns.ToggleFlipsFlag` | internal/server/adminpool.go:22-49 | a toggle turns the enabled flag of its entry over, in registry and settings, and changes nothing else |
| `GatewayRuns.ProbeSetsFlag` | internal/pool/pool.go:246-267 | a probe that ends sets the usable flag of its entry to its result, and changes nothing else |
| `GatewayRuns.OtherSaves` | internal/server/adminapi.go:546-563 | saving settings, or probe results, leaves rotator and workers alone and writes exactly what the settings then hold |
| `GatewayRuns.DefaultsConsistent` | internal/config/config.go:78-93 | settings with one unbound worker and no proxies are consistent |
| `GatewayRuns.StaysForgotten` | internal/server/adminapi.go:281-439 | a removed id stays out of registry and settings (and of the file, if the removal was saved) through any steps that do not draw it again, and no restart from a file that still has it |
| `GatewayRuns.LateProbeIsDropped` | internal/pool/pool.go:246-267 | so, in any run, a probe that ends that late changes nothing: it never brings a removed entry back |
| `GatewayRuns.BindingsResolve` | internal/relayproxy/relay.go:485-500 | in any run a bound worker's proxy is found in the settings with the registry's endpoint and credentials, and is used exactly when enabled and usable once probe results are persisted |
| `GatewayRuns.ResolveMeaning` | internal/relayproxy/relay.go:485-500 | the proxy of a worker is the first one listed under the id it is bound to, if that is enabled and usable; there is none exactly otherwise |
| `GatewayRuns.FoundFirst` | internal/config/config.go:185-192 | the lookup returns the first entry with the id, or none if there is none |
| `GatewayRuns.RestartKeepsBindings` | internal/server/adminapi.go:566-588 | a restart reproduces registry, lookups, worker list and rotator from the file |
| `GatewayRuns.SuccessIsDurable` | internal/server/adminapi.go:546-563 | when a handler reports success the file holds the current settings, so a restart gives back the pool and, after a worker change, the rotator's workers |
| `GatewayRuns.ChangesWorkersMeaning` | internal/server/adminapi.go:281-439 | exactly which requests change the worker list: lines with a new host and port; a worker bound to a registered proxy that is dead, or to the one removed; a known id deleted; a new id, or another key or proxy than there is |
| `GatewayRuns.FailedSaveSkipsResync` | internal/server/adminapi.go:312-316 | after a failed save, the first or a later one, rotator and file are as before, and the settings' workers change if and only if the request was one of those; so a rotator that agreed with them disagrees exactly then |
| `GatewayRuns.RotatorIsLastSynced` | internal/server/adminapi.go:498-512 | in every run, however many saves fail, the rotator's list is the workers of the last successful resync or restart |
| `GatewayRuns.RestartDropsClocks` | internal/server/adminapi.go:498-512 | after a restart every worker is fresh: all bans and cooldowns are gone |
| `Sse.SseUsageParser.Write` | internal/server/server.go:217-223 | the buffer is the last 2^20 bytes of what it held and what is added |
| `Sse.WindowMeaning` | internal/server/server.go:217-223 | the window is everything up to 1048576 bytes, and else the last 1048576 |
| `Sse.SseUsageParser.GetUsage` | internal/server/server.go:226-245 | the backward scan finds the usage of the last line that carries any |
| `Sse.LinesMeaning` | internal/server/server.go:227 | lines are what stands between bytes 10 |
| `Sse.DataLineMeaning` | internal/server/server.go:229-242 | in bytes: data:, white space, a payload and white space carry what the payload decodes to, and nothing if it is [DONE] |
| `Sse.OtherLineMeaning` | internal/server/server.go:229-232 | a line that begins with any other character carries nothing |
| `Sse.WhiteSpaceIsUnicode` | internal/server/server.go:229-233 | the bytes trimmed are the encodings of exactly the white space characters |
| `Text.SpacesByCodePoint` | internal/server/server.go:229-233 | and those are, by code point, the characters Unicode calls white space |
| `Sse.CopyResponseWithHook` | internal/relayproxy/relay.go:253-286 | for every chunking and every failing write: the client got all chunks before the failing one, and the observer holds the last 2^20 bytes of what was read |
| `Sse.LinesAppend` | internal/server/server.go:227 | joining two texts joins the last line of the one with the first of the other |
| `Sse.WindowSuffices` | internal/server/server.go:217-245 | a window that may begin in mid-line answers like the whole text whenever the last line with usage lies wholly in it |
| `Sse.WindowExact` | internal/server/server.go:217-245 | for any cut: the lines after the window's first newline decide alone if one has usage; otherwise exactly which line the two answers depend on |
| `Sse.TailAgreesIff` | internal/server/server.go:217-245 | for every body, exactly when observer and whole body agree |
| `Sse.CutMayInvent` | internal/server/server.go:217-245 | a body without usage of which the window shows some: a line of 2^20 + 1 bytes that starts with x before data:, for every object payload of that length with usage |
| `Sse.TailSuffices` | internal/server/server.go:217-245 | what the observer holds answers for the whole body whenever the last line with usage lies in its last megabyte |
| `Sse.StreamAndAccount` | internal/server/server.go:164-172 | for every chunking the client gets the body as it is and the usage is that of the whole body, under the same condition |
| `Stats.Store.RecordRequest` | internal/stats/stats.go:117-138 | the rows become those after one recorded request, and a change token is left; `Counting.RowCounts` says what each counter then counts |
| `Counting.RowCounts` | internal/stats/stats.go:117-151 | after every history from an empty store each of the ten counters of an account is the 64-bit image of a sum over its own events since the last reset: requests 1 each; successes those with status 200 to 399, errors the others; chats and model lists by kind; each token counter the sum reported under its name. An account without a row has none |
| `Counting.OverallCounts` | internal/stats/stats.go:217-242 | over distinct live workers each counter of the overall row is the 64-bit image of the same sum over all events |
| `Counting.Int64Meaning` | internal/stats/stats.go:117-151 | a sum that fits 64 bits is shown as it is, any other is off by a multiple of 2^64 |
| `Counting.UsageReported` | internal/server/server.go:258-267 | which field of a usage object goes to which counter |
| `Stats.Store.AddTokens` | internal/stats/stats.go:141-151 | the rows become those after one token report |
| `Stats.Store.ResetAll` | internal/stats/stats.go:245-250 | no row is left |
| `Stats.Store.Ensure` | internal/stats/stats.go:253-263 | a row for the id (for "unknown" if empty) exists afterwards, as it was or zero; no other row changes |
| `Stats.Store.AllAccounts` | internal/stats/stats.go:174-182 | lists every recorded id once, in any order |
| `Stats.Store.ForAccounts` | internal/stats/stats.go:155-169 | the rows of the given ids, zero for those without one |
| `Stats.Store.Totals` | internal/stats/stats.go:185-199 | the loop computes the token part of `Overall` |
| `Stats.Store.OverallStats` | internal/stats/stats.go:217-242 | the loop computes `Overall` of the listed ids |
| `Stats.RowIsTally` | internal/stats/stats.go:117-151 | after every history each row is the 64-bit image of its account's exact numbers since the last reset |
| `Stats.RowsBalance` | internal/stats/stats.go:117-138 | from an empty store requests = successes + errors = chats + models, per account |
| `Stats.OverallIsSum` | internal/stats/stats.go:217-242 | over any ids, repeated ones included, the overall row is the 64-bit image of the exact sum |
| `Stats.SumIsTotal` | internal/stats/stats.go:185-242 | over ids that list every account once the sum is everything recorded since the last reset |
| `Dashboard.OverallIsTotal` | internal/stats/stats.go:217-242 | over any ids the overall row is what the listed accounts recorded since the last reset, plus the tally of an account for every further place it is listed at |
| `Dashboard.OverallShows` | internal/server/adminapi.go:98-154 | for any live workers and for requests before and after the accounts were listed: what the row shows, and that what it misses is exactly what unlisted accounts recorded meanwhile |
| `Dashboard.OverallConserved` | internal/server/adminapi.go:98-112 | with none meanwhile: everything recorded since the last reset plus the surplus of repeated ids, independent of deletions and map order; for distinct ids the surplus is nothing |
| `Dashboard.OverallRightIff` | internal/server/adminapi.go:98-154 | the row is right if and only if the surplus wraps to zero |
| `Dashboard.MissedIff` | internal/server/adminapi.go:98-154 | a request is missed if and only if an account neither live nor listed recorded one meanwhile |
| `Dashboard.OverallBalances` | internal/server/adminapi.go:153-154 | below 2^63 the row is balanced, and its number of requests is right if and only if no live id that has any is listed twice |
| `Stats.RestartKeepsCounting` | internal/stats/stats.go:88-114 | counting on from loaded rows equals counting on in one run |
| `Dashboard.DuplicateIdCountsTwice` | internal/server/adminapi.go:103-112 | an instance: a store with one account and a live list that names it twice shows twice its requests |
| `Dashboard.UnionIds` | internal/server/adminapi.go:103-111 | the loops compute the live ids followed by the recorded ids that are not live |
| `Dashboard.StatusIdsMeaning` | internal/server/adminapi.go:103-111 | the list has exactly the live and the recorded ids, and repeats one if and only if the live list does |
| `Dashboard.Status` | internal/server/adminapi.go:98-154 | the page under its four separate locks, with any requests in between: what rows, totals and overall row show of what had been recorded by then |
| `Accounting.HandleV1` | internal/server/server.go:155-203 | one handled response adds exactly one recorded request and at most one token report, and the client, gone at any chunk or staying, gets `Passed` |
| `Accounting.EventsMeaning` | internal/server/server.go:155-183 | the request recorded is the worker's, with its status and kind; a token report is the worker's, and there is one if and only if something is charged |
| `Accounting.KindMeaning` | internal/server/server.go:155-158 | the kind is models if and only if the path ends in /models, and else chat |
| `Accounting.ChargedMeaning` | internal/server/server.go:160-183 | what is charged, with the numbers spelled out: nothing outside 200 to 299; of a stream, the usage in the last 1048576 bytes read; of a JSON body the usage of its first 33554432 bytes, nothing if it breaks off before; nothing of other bodies |
| `Accounting.PassedMeaning` | internal/server/server.go:164-203 | what the client gets, with the numbers spelled out: a success that is no stream in one write of at most 33554432 bytes, or nothing; anything else chunk by chunk until a write fails |
| `Accounting.StreamCharged` | internal/server/server.go:164-172 | a stream whose client stays is charged with the usage of its whole body, if the last line with usage lies in the last megabyte |
| `Accounting.CopyResponse` | internal/relayproxy/relay.go:246-283 | the plain copy stops at the first write that fails |
| `Accounting.ReadLimited` | internal/server/server.go:176-178 | the limited read yields the first 32 MiB, and fails exactly if the connection breaks before them |
| `Accounting.PassedWhole` | internal/server/server.go:164-203 | the client gets exactly the upstream bytes if and only if it stays, and a success that is no stream is at most 32 MiB and does not break off |
| `Accounting.DashboardCounts` | internal/server/server.go:155-183 | over every run of responses and resets the dashboard counts each response once by outcome and once by kind, and shows their number if and only if no live worker that served one is listed twice |
| `Saving.DiskIsPrefix` | internal/stats/stats.go:294-312 | in every interleaving the file holds the store as it was after some first part of the mutations, the part the last successful write covered |
| `Saving.NothingForgotten` | internal/stats/stats.go:266-292 | whenever a mutation came after the last write, failed or not, a token waits, the timer is armed, a tick is under way or the loop is between receiving one and saving |
| `Saving.UnsavedMeans` | internal/stats/stats.go:266-292 | a mutation that is not on disk will be saved, or the last write failed, or the loop is gone |
| `Saving.QuietMeans` | internal/stats/stats.go:277-292 | the states in which neither loop nor timer can do anything |
| `Saving.ComesToRest` | internal/stats/stats.go:277-292 | left alone, the saver rests within 21 steps from any state, with memory unchanged |
| `Saving.SavedIff` | internal/stats/stats.go:277-292 | from any state, left alone the loop rests with all of memory on disk if and only if it is there already or a save is to come |
| `Saving.EventuallySaved` | internal/stats/stats.go:266-292 | in every run, once a mutation came after the last write, failed or not, all mutations are on disk when the loop rests |
| `Saving.CloseSaves` | internal/stats/stats.go:287-289 | after the close branch the disk holds the memory it found |
| `Saving.CloseLeadsToLastWrite` | internal/stats/stats.go:287-289 | left alone after the close signal the loop ends, not without a last write, and all of memory is on disk if that write succeeds |
| `Saving.FailedWriteIsNotRetried` | internal/stats/stats.go:284-286 | an instance of the failing case, for every store and every mutation that changes it: after a failed write the loop rests unsaved |
| `Saving.GoneSavesNothing` | internal/stats/stats.go:287-289 | once the close branch has run nothing is written any more |
| `BodyFix.ParseEffortLevel` | internal/relayproxy/relay.go:403-412 | the search gives the one answer `AliasOf` for every order in which the map is iterated |
| `BodyFix.AliasUnique` | internal/relayproxy/relay.go:390-412 | a model name is an alias of at most one base and level |
| `BodyFix.AliasTable` | internal/relayproxy/relay.go:390-401 | the names that are aliases, all 23 spelled out |
| `BodyFix.BaseIsNoAlias` | internal/relayproxy/relay.go:390-412 | no base of the table is itself an alias |
| `BodyFix.InjectReasoningContent` | internal/relayproxy/relay.go:316-354 | the loop adds the placeholder to exactly the assistant messages without reasoning content of their own, and does nothing to messages it cannot read; `BodyLaws.ReasoningInPlainTerms` says what counts as such |
| `BodyFix.NormalizeDeveloperRole` | internal/relayproxy/relay.go:359-386 | the loop turns exactly the developer roles into system |
| `BodyFix.TransformRequestBody` | internal/relayproxy/relay.go:422-462 | the whole rewriting, for blank, non-JSON, non-object, null and object bodies |
| `BodyLaws.OtherBodiesUntouched` | internal/relayproxy/relay.go:422-430 | blank, non-JSON, null and non-object bodies go out as they came |
| `BodyLaws.StringAtMeaning` | internal/relayproxy/relay.go:434-437 | only strings are read as model or role; anything else counts as empty |
| `BodyLaws.PassesCommute` | internal/relayproxy/relay.go:449-455 | the assistant and the developer pass commute |
| `BodyLaws.TransformFrame` | internal/relayproxy/relay.go:431-447 | all keys but four are unchanged, client_metadata is gone, an explicit reasoning_effort (null included) is never overwritten, the model changes for an alias only, to its base |
| `BodyLaws.AliasResolved` | internal/relayproxy/relay.go:439-446 | a model base-level becomes base, and level the effort unless the object has one |
| `BodyLaws.TransformMessages` | internal/relayproxy/relay.go:449-455 | message count and order are kept, and each message changes in role and reasoning_content only, and only where it must |
| `BodyLaws.ReasoningInPlainTerms` | internal/relayproxy/relay.go:316-354 | for a thinking model every assistant message goes out with reasoning content that is one blank or has a character that is not white space; its own is kept if and only if it was such, and is one blank if it was absent, no string, or blank; otherwise it is as it was |
| `BodyLaws.TransformCleans` | internal/relayproxy/relay.go:422-462 | whatever comes in, what goes out has no client_metadata, no alias, no developer role, and reasoning content on every assistant message of a thinking model |
| `BodyLaws.CleanIsFixed` | internal/relayproxy/relay.go:422-462 | the rewriting leaves an object alone if and only if it is already so |
| `BodyLaws.RewritingIsIdempotent` | internal/relayproxy/relay.go:422-462 | rewriting twice is rewriting once |
| `Socks5.DialSOCKS5` | internal/relayproxy/proxydial.go:130-218 | writes, reads and ends as `Dial` says, for every server, failing write and target |
| `Socks5.SocksAuth` | internal/relayproxy/proxydial.go:222-241 | writes, reads and ends as `Authenticate` says |
| `Socks5.DialSOCKS5Probe` | internal/pool/pool.go:382-460 | writes, reads and ends as `Negotiate` says |
| `Socks5.BuildRequest` | internal/relayproxy/proxydial.go:172-190 | builds the bytes of `Request`, which the three rows below spell out |
| `SocksLaws.RequestForIPv4` | internal/relayproxy/proxydial.go:173-177 | to an IPv4 upstream: 5 1 0, 1, the four bytes after ten zeros and two 255, the port high byte first |
| `SocksLaws.RequestForIPv6` | internal/relayproxy/proxydial.go:178-181 | to any other IP address: 5 1 0, 4, its sixteen bytes, the port |
| `SocksLaws.RequestForName` | internal/relayproxy/proxydial.go:182-190 | to a name: 5 1 0, 3, its length, its bytes, the port |
| `SocksLaws.LimitsMeaning` | internal/relayproxy/proxydial.go:165-188 | exactly which targets can be asked for and which credentials can be sent |
| `Socks5.To4` | internal/relayproxy/proxydial.go:174 | the last four bytes of the addresses `Mapped` holds of, and nothing of others |
| `SocksLaws.MappedMeaning` | internal/relayproxy/proxydial.go:174 | those are exactly ten zeros, two bytes 255 and any four |
| `SocksLaws.ServerUnderstands` | internal/relayproxy/proxydial.go:130-194 | once the request is out, a parser written from RFC 1928 and RFC 1929 recovers method, credentials, port, and address up to IPv4 mapping from the bytes sent |
| `SocksLaws.AddressRecovered` | internal/relayproxy/proxydial.go:130-194 | in literal terms: once the request is out, the parser recovers the port, the four bytes of an IPv4 upstream, the sixteen of any other IP address, and every name |
| `SocksLaws.CredentialsSentIffChosen` | internal/relayproxy/proxydial.go:130-161 | once the request is out, the credentials have been sent if and only if the server chose method 2 |
| `SocksLaws.SameBytes` | internal/pool/pool.go:382-460 | probe and relay write the same bytes to every server; the probe succeeds exactly when the relay does or fails only at the bound address |
| `SocksLaws.ProbeReads` | internal/pool/pool.go:390-460 | for every server, target, credentials and failing write: exactly when the probe succeeds, and where it stops reading |
| `SocksLaws.RelayReads` | internal/relayproxy/proxydial.go:140-218 | for every server, target, credentials and failing write: exactly when the relay succeeds, and where it stops reading |
| `SocksLaws.FailuresExplained` | internal/relayproxy/proxydial.go:130-241 | whenever a dial or a probe fails, the failure it reports is the true one: the bytes of the server, the failed write or the limit it names |
| `SocksLaws.RelayLeavesTunnel` | internal/relayproxy/proxydial.go:196-218 | after a complete success reply of any address type the relay has consumed the handshake and not one byte more |
| `SocksLaws.ProbeLeavesBoundAddress` | internal/pool/pool.go:453-460 | the probe leaves exactly the bound address in front of the tunnel |
| `SocksLaws.SuccessIsGrantedIff` | internal/relayproxy/proxydial.go:196-218 | for every dial that succeeds, the reply is a complete success reply if and only if its version is 5, its reserved byte 0 and its bound address complete |
| `SocksLaws.SuccessConformsIff` | internal/relayproxy/proxydial.go:140-218 | for every dial that succeeds, a client that follows both documents would have accepted the same bytes if and only if also the method chosen is the one offered and the login reply has version 1 |
| `SocksLaws.ConformingServerAccepted` | internal/relayproxy/proxydial.go:140-218 | whatever such a client accepts the relay accepts, with the same tunnel |
| `SocksLaws.TruncatedReplySucceeds` | internal/relayproxy/proxydial.go:203-218 | every reply cut off in its bound address passes for a success |
| `SocksLaws.WrongReplySucceeds` | internal/relayproxy/proxydial.go:196-202 | an instance: a reply of version 0 with reserved byte 7 |
| `SocksLaws.WrongLoginSucceeds` | internal/relayproxy/proxydial.go:233-240 | an instance: a login reply of version 9 |
| `SocksLaws.UnofferedMethodSucceeds` | internal/relayproxy/proxydial.go:148-149 | an instance: method 0 chosen when only method 2 was offered; relay and probe go on and the login is never sent |

## Left out

- Sockets, TLS, `http.Client`, contexts and timeouts: an attempt meets an arbitrary outcome instead; closing a connection after a failed dialogue is not modelled.
- Authentication, sessions, call keys and password hashing: library cryptography and simple lookups.
- The admin pages, routing, cookies, logging and the masking of credentials: plumbing.
- Outbound headers (`internal/relayproxy/headers.go`) and the upstream URL: straight-line code.
- The transport cache of `TransportFor`: its key leaves out credentials, so it agrees with an uncached dialer only if the endpoint determines them.
- The byte syntax of JSON and of proxy lines, and the model-name patterns: values, parsed lines and a predicate stand for them. The rewriting is therefore proved up to what the JSON text means, and its error return, which only a failing encoder could cause, does not occur.
- Data races of the pool methods that take no lock (`Import`, `Remove`, `SetEnabled`, `SetSource`, `Restore`): each is one step here. Two overlapping admin handlers are not modelled either; a probe result may arrive at any time.
- The calendar: the start of the local day is an argument of a ban.
- `cmd/relay` is not part of this model, as its source is not in the repository; a restart is taken to load the settings, restore the pool and resync the rotator.
- The response's proxy id, a worker's last request time and last status, the raw text of a proxy line and cache rates: shown, never decided on.
- Response headers on the way back, and closing the bodies of discarded attempts.
- Lengths in bytes and in characters are the same in the model: messages are cut at 400 and 300 characters.
- Loading saved counters: rows are taken as they were saved; entries with an empty id, which `ensure` never creates, are not considered.
- Accounting.HandleV1: of a write that fails nothing counts as delivered, as how much of it got through is not known.
- Whether a content type is an event stream or JSON is an argument, not read off the header.
- The length of the 500 ms and the fairness of the scheduler: `Saving.ComesToRest` counts steps.
- A strict reading of section 2 of RFC 1929, which has no empty password: the parser here accepts one, as the dialers send one when no password is configured.
