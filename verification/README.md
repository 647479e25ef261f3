# Verified model of the FortressFlag Go SDK

A Dafny 4.11 model of the server-side feature-flag SDK: a poller that fetches signed rulesets, verifies
them, publishes them behind an atomic pointer and persists them to an opt-in cache file, and getters that
evaluate flags locally. `dafny verify dfyconfig.toml` checks everything.

What is modelled, file by file:

| module | what it is |
|---|---|
| `Text`, `Semver` | the string functions the parsers use; the version parser and comparison loops, and the integer order they implement |
| `Ruleset`, `Evaluator` | payload types, value decoding, the first-match rule walk with its lazily computed bucket, edits that keep its meaning, rollouts |
| `Verifier`, `Configuration` | envelope verification as an ordered list of checks, the signature field, server keys |
| `Recording`, `Memory`, `Backoff` | what one fetch outcome does to the state record; what `loadCache` and `record` do to all shared memory; delays |
| `FileCache`, `Client` | the objects whose methods update fields in place, proved against the effects named above |
| `Protocol` | the running system as a step relation: the poller (each sub-step of `poll`, `record` and `store`), any number of threads inside Start, Close and the getters, failing system calls, crash and restart, a server |
| `Invariants` | what every step of `Protocol` keeps (`Core`), hence what every reachable state satisfies |
| `Linearizability`, `Durability`, `Coherence`, `Shutdown`, `StartOutcomes`, `Histories`, `Pacing` | whole-run theorems |
| `Refinement` | the step relation's `record`, `store` and `loadCache` have the effects of the client object's methods, and every passage through `record` has no other |

Conventions. A `char` is one byte of a Go string. Library code the SDK only calls (JSON, base64url, SHA-256,
Ed25519, RFC 3339, whitespace trimming) is the record `Library` of deterministic functions about which
nothing is known. Clock readings, fetch outcomes, file-system faults, `Retry-After` values and draws of the
injected randomness are parameters or step labels, so every theorem holds for all of them; a draw is only
assumed to lie in the range asked for. Times and durations are integers of nanoseconds, delays before
truncation are reals, flag numbers are reals. The 64-bit words that can wrap (the version accumulator, the
counters) and the saturating duration subtraction are written out. `History`, `Log`, `waits`, `renamed`, `current`
and `initialFile` in `Protocol.System` record the past for stating theorems; no step reads them.

Where the code does less than its comments say, the model follows the code:

- TimedOut is said to mean that the context ended before any ruleset existed (fortressflag.go:42-43). Start can
  answer it while a live ruleset is stored (client.go:249-261 and 133-141): exactly while the first publication
  is in progress (`StartOutcomes.BelatedExactlyWhenPublishing`; a run: `TimedOutWhileHolding`). And it can answer
  it although the context lives on: exactly when Start goes on after a failed first attempt and no acceptance is
  through `record` by its final look (`StartOutcomes.TimedOutUnprompted`, `FirstAttemptOver`; a run: `TimedOutInTime`).
- Start is said to block until the first ruleset exists, from network or cache (fortressflag.go:109-112). A cache
  ruleset does not release it (client.go:120-132): it blocks exactly until the first attempt is over or an
  acceptance is through `record` (`StartOutcomes.BlockedExactly`; a run: `BlockedWithCache`).
- CacheOnly is said to mean that the network has not answered yet (fortressflag.go:39-41). It is answered exactly
  when the cache had a ruleset and no live one is published, so also after answers that brought none
  (client.go:133-135): `StartOutcomes.CacheOnlyExactly`; a run: `CacheOnlyAfterAnswer`.
- Close cancels nothing when it runs before the cancel function is set, and a later Start then leaves a poller
  that nobody stops (client.go:113-118, 145-153). `Shutdown.CloseIsFinalExactlyWhenItStops` says exactly when
  Close is final; `Shutdown.EarlyCloseHappens` is a run in which it is not.
- `lastRejection` survives a 304 and other failures; only an acceptance clears it (client.go:246, 262-285,
  against fortressflag.go:69-70). `Recording.StaleRejection` says exactly when it shows beside another status;
  `Recording.StaleRejectionHappens` is such a history.
- The 1800 s cap is applied before jitter, so an unhinted delay can exceed it (backoff.go:40-41, 60-63), exactly
  from the eleventh failure in a row on, and reach 2160 s: `Backoff.CeilingExceeded`.

## Model

| member | source | states |
|---|---|---|
| Text.SplitOfJoin | semver.go:31 | splitting a joined list of separator-free parts gives the parts back |
| Text.JoinOfSplit | semver.go:31 | joining a split string gives the string back, and no part holds a separator |
| Text.SplitNThree | configuration.go:127 | a split limited to three cuts at the first two separators, and that decomposition is unique |
| Text.ContainsMeaning | evaluate.go:86 | a string contains another exactly when it sits between some prefix and suffix |
| Semver.ParseVersionLoop | semver.go:27-48 | the nested loops with a wrapping 64-bit accumulator compute the unbounded value of every dotted run of 1 to 10 digits, and refuse everything else |
| Semver.DigitsStep | semver.go:37-44 | the accumulator stays exact and below 2^64 at every digit |
| Semver.ParseAcceptsExactly | semver.go:13-36 | a string is a version iff it is a non-empty dotted list of runs of 1 to 10 digits; components stay below 10^10 |
| Semver.ParseOfRender | semver.go:27-48 | parsing the canonical decimal rendering of any non-empty list of components below 10^10 returns the list |
| Semver.LeadingZeros | semver.go:31-45 | leading zeros within the digit limit do not change what is parsed |
| Semver.AppendedZero | semver.go:50-74 | an appended ".0" parses and changes no comparison, on either side |
| Semver.CompareVersionsLoop | semver.go:53-74 | the loop returns the first difference's sign over components padded with zeros |
| Semver.VersionOrderEmbedding | semver.go:53-74 | comparing parsed versions is comparing their zero-padded base-10^10 encodings as integers |
| Semver.VersionOrderIsTotal | semver.go:50-74 | the order is antisymmetric, transitive and total |
| Semver.VersionEquality | semver.go:50-74 | two versions compare equal iff they agree after dropping trailing zeros |
| Evaluator.AnswersAreSpelled | ruleset.go:43-75 | every value answered is of the flag's kind and spelled by the raw JSON of the default or of a matching rule, absent and null spelling none; without an answer the default spells none |
| Evaluator.RuleMatchesLoop | evaluate.go:66-77 | the early-exit loop decides whether every condition's tag is present and its value satisfies it |
| Evaluator.EvaluateFlag | evaluate.go:43-62 | the loop with its -1 sentinel answers like the declarative walk, and hashes at most once, iff the walk meets a matching gated rule |
| Evaluator.EvaluateIsFirstMatch | evaluate.go:24-62 | the answer is the decoded serve of the least-index rule that matches, is admitted and decodes, else the decoded default |
| Evaluator.EvaluateFromHash | evaluate.go:43-77 | the same from the tags and the hash up: the first rule whose every condition names a present tag that satisfies it, whose gate admits the hash modulo 100 and whose serve decodes |
| Evaluator.AbsentTagsGiveDefault | evaluate.go:66-77 | when every rule has a condition on an absent tag, whatever its operator, the default is answered |
| Evaluator.RemovedTagRemovesRules | evaluate.go:66-77 | taking a tag from a context answers as taking the rules that name it from the flag |
| Evaluator.SemverGatesAreIntervals | evaluate.go:87-108 | a version gate selects an interval of versions, and does not tell spellings of one version apart |
| Evaluator.SemverTrichotomy | evaluate.go:87-108 | when both sides parse exactly one of semver_lt, semver_eq, semver_gt holds, as for the integers they stand for; else none |
| Evaluator.StringOperators | evaluate.go:79-112 | by their wire names: eq and neq are complementary and exact, contains is substring, an unknown operator never holds |
| Evaluator.ContradictionsNeverHold | evaluate.go:79-112 | eq with neq of one value, two different eq, or semver_lt v with semver_gte w where v is not above w hold of no tag value |
| Evaluator.EditsPreserveMeaning | evaluate.go:29-62 | any series of permuting or duplicating conditions, swapping neighbours that serve the same, cutting after a catch-all and dropping contradictory rules keeps every answer |
| Evaluator.UnnamedTagsAreIrrelevant | evaluate.go:66-77 | tags no condition names have no influence |
| Evaluator.RolloutIsMonotone | evaluate.go:49-56 | raising a rule's percentage from p to q changes answers only for hashes in [p, q) modulo 100 and keeps everyone the rule served, wherever it sits |
| Evaluator.RolloutExtremes | evaluate.go:49-56 | a gate of 100 or more is no gate, a gate of 0 or less is no rule |
| Evaluator.GateIsHashed | bucket.go:20-23 | an unconditional rule gated at p is served exactly to the contexts whose hash of context key, colon, flag key leaves less than p modulo 100 |
| Evaluator.BothKeysAreHashed | bucket.go:20-23 | a library under which one context is inside one flag's rollout and outside another's, and one flag's rollout tells two contexts apart |
| Verifier.AcceptanceCharacterised | verifier.go:64-111 | an envelope is accepted iff its bytes decode, step by step, to a version 1 ruleset of this environment with known kinds, signed over exactly those bytes with ed25519 under a trusted 32-byte key when required, and with times inside 300 s |
| Verifier.VerdictOverTime | verifier.go:58-107 | the live verdict on a good envelope over time: accepted from 300 s before issue to 300 s past expiry inclusive, a nanosecond earlier from the future, a nanosecond later expired; the cache verdict ignores the end |
| Verifier.ParsePayloadLoop | envelope.go:57-73 | the loop over the flags map decides like the declarative test |
| Verifier.SignatureFields | verifier.go:122-138 | for colon-free algorithm and key ID and any signature text the index arithmetic recovers the three parts; it is the split at the first two colons |
| Verifier.SignatureAcceptance | verifier.go:117-159 | a signature is accepted iff it cuts into ed25519, a trusted 32-byte key and a non-empty decodable signature that verifies under it |
| Verifier.OtherKeysAreIrrelevant | verifier.go:149-158 | trust-store entries under other key IDs, well formed or not, never change the verdict |
| Verifier.VerdictCharacterised | verifier.go:64-111 | verification accepts iff every check of the contract passes, otherwise names the first failing one; times compare as unbounded integers, with a tolerance of 300 s |
| Verifier.LiveImpliesCached | verifier.go:43-111 | accepted live at t implies accepted from the cache at every later time, with the same payload |
| Verifier.LiveAndCacheVerdicts | verifier.go:43-111 | live and cache verdicts at one time differ iff the envelope is otherwise good and past its tolerance, and then only by `expired` |
| Configuration.ValidEnvironmentKeyLoop | configuration.go:141-157 | the byte loop decides the environment key format |
| Configuration.ValidEnvironmentKeys | configuration.go:137-157 | by character codes: a letter or digit, up to 30 letters, digits and hyphens, a letter or digit |
| Configuration.ParseKeyInverse | configuration.go:126-135 | `parseKey` accepts exactly ffs_ env _ secret with valid env and non-empty secret, in one way only, and answers env |
| Configuration.KeyPrefixReveals | configuration.go:159-175 | the loggable prefix is a prefix of the key showing env and six secret bytes, or nothing when six do not exist |
| Configuration.MalformedKeyHasNoPrefix | configuration.go:163-169 | a string that is no key has no loggable form |
| Configuration.SignatureRequired | configuration.go:69-75 | the entry-by-entry copy equals the caller's trust store |
| Configuration.ResolveInterval | configuration.go:204-210 | 60 s when unset, floored at 30 s, else as configured |
| Recording.AnswerCharacterised | client.go:291-317 | which of the five answers a getter gives, and the served value in terms of the rule list |
| Recording.AcceptedAtItsClock | client.go:233-241 | a live response is accepted iff it passes every check, expiry included, at the clock reading taken for it |
| Recording.HistoryCharacterised | client.go:225-287 | the state record after any outcomes: failures since the last acceptance or 304, ETag of the last acceptance, rejection since it, last time, and a status that tells the last outcome case by case, neverFetched only before the first |
| Recording.StaleRejection | client.go:236-285 | a rejection shows beside a status other than rejectedEnvelope iff a later outcome, no acceptance, followed the last rejection |
| Recording.StaleRejectionHappens | client.go:262-265 | such a history: a refused body, then a 304 |
| Memory.OnlyAcceptanceMoves | client.go:236-261 | only an accepted envelope moves snapshot, ETag, ready channel, cache state or file; a held ruleset is never lost |
| Memory.LoadTells | client.go:156-180 | what a new client's cache state says of its load: nothing readable of at most 1 MiB, a ruleset acceptable at the clock read but for expiry, or a refused body; and which ruleset it then holds |
| Memory.StoreThenReload | client.go:156-256 | what is accepted live and stored reloads to the same flags and issue time at any later clock |
| Backoff.RetryDelayBounds | backoff.go:33-42 | after k failures the delay is the k-th rung of 2, 4, ..., 1024, 1800, 1800, ..., a fifth either way; capping the exponent never shows |
| Backoff.WaitBounds | backoff.go:44-63 | every wait is between 1 s and max(2160 s, 1.2 intervals), within a fifth of the interval and at least 24 s after success, exactly a positive Retry-After up to 1800 s after a rate limit, and fits int64 |
| Backoff.EveryPollDelayHappens | backoff.go:44-63 | every whole number of nanoseconds within a fifth of the interval is chosen by some draw after a success |
| Backoff.EveryRetryDelayHappens | backoff.go:33-63 | and every one within a fifth of the rung after a failure |
| Backoff.CeilingExceeded | backoff.go:33-42 | the delay after k unhinted failures exceeds the 1800 s ceiling iff k is 11 or more and the draw does; it can then be exactly 2160 s |
| Backoff.CeilingCanBeExceeded | backoff.go:60-63 | some draw takes the delay past the ceiling iff k is 11 or more |
| Backoff.FailurePacing | backoff.go:33-42 | unhinted failures in a row, from the (j+1)-th to the n-th, sleep S(n) - S(j) in all, a fifth either way, S in closed form |
| FileCache.StoreStepKeeps | cache.go:46-70 | each system call of `store` leaves the cache file alone, except the rename, which installs exactly the stored bytes |
| FileCache.StoreIsAtomic | cache.go:40-70 | under any fault the file is all new or untouched, and at most one temp file is left, only if its removal failed |
| FileCache.FileCache.Load | cache.go:26-38 | answers the file's bytes unless missing, unreadable, empty or over 1 MiB |
| FileCache.FileCache.Store | cache.go:46-70 | changes the directory as the named effect of its fault says |
| Client.Client.constructor | client.go:85-107 | a new client holds nothing, counts nothing, and names its cache state |
| Client.Client.LoadCache | client.go:156-180 | has the effect `LoadEffect` on the shared memory |
| Client.Client.RecordEnvelope | client.go:231-261 | the fetchSuccess case has the effect `RecordEffect`, rejected or accepted |
| Client.Client.Record | client.go:225-287 | every case has the effect `RecordEffect`; counters stay |
| Client.Client.Poll | client.go:182-222 | until its context is cancelled, in a sleep or in a fetch, the loop folds the effects of its outcomes, presents each time the ETag on record, chooses the named waits, and closes both its channels once |
| Client.RecordAllReplays | client.go:182-287 | after any turns, under any disk faults, the state record is the replay of the outcomes |
| Client.Client.Value | client.go:291-317 | answers `Resolve` of the held snapshot and bumps exactly that answer's counter |
| Client.Client.GetBool | fortressflag.go:128-138 | the evaluated boolean, else the fallback; the type assertion cannot fail |
| Client.Client.GetString | fortressflag.go:141-151 | the evaluated string, else the fallback; the type assertion cannot fail |
| Client.Client.GetNumber | fortressflag.go:154-164 | the evaluated number, else the fallback; the type assertion cannot fail |
| Invariants.ReachableCore | client.go:55-287 | every state any interleaving reaches, across crashes, satisfies the lifecycle and data invariants |
| Linearizability.LinearizableReads | client.go:289-317 | each getter answers with one whole published ruleset current at an instant inside its call, and no later call sees an older one |
| Linearizability.CounterConservation | client.go:291-316 | each counter is the number of calls with its answer, and the five sum to the counted calls, modulo 2^64 |
| Linearizability.PublishedSnapshotInvariant | snapshot.go:10-24 | every published snapshot is a verified payload's, with the issue time that payload's own text parses to; each of its flags is readable through exactly one typed getter |
| Linearizability.PublishedAreAuthentic | client.go:156-261 | in every reachable state, whatever file and fetcher yield, every published ruleset passes all checks from the bytes up: signed over exactly its bytes under a trusted key when the policy requires it |
| Linearizability.ServedHaveKind | fortressflag.go:128-164 | in every interleaving an answer from a ruleset has the kind asked for, so no type assertion fails |
| Durability.CacheFileOverRuns | cache.go:40-70 | over any run with failures and crashes anywhere the file is its initial content or the bytes of the last accepted envelope whose rename took effect |
| Durability.FileChangesOnlyByRename | cache.go:65-69 | the file changes at a successful rename only, to the bytes just accepted |
| Durability.ReachableDurable | client.go:250-256 | also, while the cache state says stored, the file holds the envelope being served |
| Durability.CrashThenRestart | client.go:156-180 | crash anywhere after a store took effect: in every run of the next process whose clock is no earlier, the cache load publishes the same flags and issue time, unless the file cannot be read, and getters see that until the next acceptance |
| Durability.RestartCanLoad | client.go:156-180 | whichever thread calls Start, such a run exists |
| Coherence.ConditionalPoll | client.go:182-249 | a presented ETag is that of the response the held snapshot came from; a cache load or untagged response presents none |
| Coherence.NotModifiedMeansCurrent | client.go:262-265 | against a server whose 304 means the tag is current when it answers and whose tags identify payloads, a client told 304 holds what was the server's ruleset at that instant, between request and response, and still is unless one with another tag was published since |
| Coherence.CurrentUntilPublished | client.go:225-287 | told 304 while its tag is still the server's, the client holds the server's ruleset through every later step of every interleaving, until the server publishes another |
| Shutdown.ChannelsCloseAtMostOnce | client.go:112-261 | none of the three channels is closed twice in any interleaving |
| Shutdown.CloseWaitsBoundedly | client.go:145-222 | after the cancellation the poller takes boundedly many steps, at most one fetch and one record among them |
| Shutdown.SeenIsObeyed | client.go:189-221 | having seen the cancellation, in its sleep or when a fetch returns, the poller fetches and records nothing more and exits within two steps |
| Shutdown.CloseAlwaysProgresses | client.go:145-154 | a waiting Close can always be moved along by the poller, the launching Start, or itself |
| Shutdown.FrozenForever | client.go:182-222 | once the poller has exited nothing moves snapshot, state, ready channel or cache file |
| Shutdown.EarlyCloseStopsNothing | client.go:145-153 | after a Close that found no cancel function, no later call cancels anything and no poller leaves |
| Shutdown.EarlyCloseHappens | client.go:112-154 | under any settings, a run in which Close returns and Start then launches a poller that no caller can stop |
| Shutdown.CloseIsFinalExactlyWhenItStops | client.go:145-154 | a finished Close freezes the client for good iff it found the cancel function set |
| StartOutcomes.ReadyIffNetwork | client.go:249-261 | outside record's critical section the ready channel is closed iff the snapshot is a network one; the exception inside is a first publication |
| StartOutcomes.StartOutcomeSoundness | client.go:120-142 | what Ready, CacheOnly and TimedOut each imply at the deciding step; unless its context prompted it, Start answers only after the first attempt or publication, and other than Ready only after the first attempt |
| StartOutcomes.StartReturned | client.go:112-142 | what an answer still implies in every state until the caller moves on |
| StartOutcomes.BlockedExactly | client.go:120-132 | a waiting Start can be moved only by its context iff the first attempt is not over and no acceptance is through record, whatever ruleset is held |
| StartOutcomes.BlockedWithCache | client.go:113-132 | for any loadable cache, a run in which Start is blocked while it holds the cache's ruleset |
| StartOutcomes.ReadyForever | client.go:120-142 | once a network ruleset is ready, every later state of the process holds one |
| StartOutcomes.BelatedExactlyWhenPublishing | client.go:133-141 | at the deciding step of any interleaving, TimedOut is answered while a live ruleset is held iff its first publication is in progress |
| StartOutcomes.TimedOutUnprompted | client.go:124-141 | a Start not prompted by its context answers TimedOut iff no acceptance is through record by its final look; its first attempt has then failed |
| StartOutcomes.CacheOnlyExactly | client.go:133-135 | CacheOnly is answered iff the cache had a ruleset and no live one is published, and although the network has answered iff, besides, some recorded outcome is no transport error; an unprompted Start answers it only after a failed first attempt |
| StartOutcomes.CacheOnlyAfterAnswer | client.go:124-135 | for any loadable cache and any first outcome that is no acceptance, a run in which Start answers CacheOnly after it |
| StartOutcomes.FirstAttemptOver | client.go:124-141 | undisturbed after a failed first attempt, Start answers CacheOnly iff it holds a cache ruleset, else TimedOut |
| StartOutcomes.TimedOutInTime | client.go:124-141 | for any settings and any first outcome that is no acceptance, a run in which Start answers TimedOut though its context never ended |
| StartOutcomes.TimedOutWhileHolding | client.go:133-141 | for any settings and any first envelope they accept, a run in which Start answers TimedOut while that ruleset is stored |
| Histories.ReachableHistory | client.go:225-287 | in every reachable state, failures, ETag, rejection, its staleness, status and served flags are read off the recorded outcomes |
| Histories.AcceptancesAreTimely | client.go:231-243 | in every reachable state each acceptance was of a body received, at its own clock reading, no more than 300 s before issue or past expiry |
| Histories.CacheStateTells | client.go:156-256 | in every reachable state, disabled iff no cache path; before any acceptance loaded iff the load brought a ruleset; after one, what became of the last store |
| Histories.DiagnosticsCoherent | client.go:319-347 | outside that section source, ETag, flags and ready channel belong together |
| Pacing.PollPacing | client.go:203-220 | over every run each wait is within its bounds and is the Retry-After of a rate limit when positive, up to 1800 s; each stretch of k failures without one, after j others, slept S(j+k) - S(j), a fifth either way |
| Refinement.StoreRefines | cache.go:46-70 | the store method's effect under each fault is a run of its system calls |
| Refinement.RecordRefines | client.go:225-287 | the record method's effect is a run of the poller's steps, for every outcome, clock and fault |
| Refinement.EveryPassageIsRecord | client.go:225-287 | conversely, each passage of the poller through record, interleaved with any other thread, has the method's effect under some fault |
| Refinement.EveryHistoryHappens | client.go:182-222 | every sequence of outcomes and clock readings is the history of some run |
| Refinement.LoadRefines | client.go:156-180 | the loadCache method's effect is a run of the starting thread's steps |

## Left out

- The transport (transport.go:57-116): the HTTP exchange, headers, redirects and timeouts; a fetch is an arbitrary outcome.
- HTTP status and `Retry-After` parsing (transport.go:94-131): an outcome carries the parsed value, which is never negative.
- JSON, base64url, SHA-256, Ed25519 and RFC 3339 themselves: uninterpreted deterministic functions.
- float64 rounding in delays and number flags: reals instead.
- Durability of a rename across power loss, and other writers to the cache file: a crash ends the process, not the disk.
- Data races on the plain field `stop` (client.go:81, 116, 147): each read and write is one atomic step.
- `start` and `close` as methods that block on channels: modelled as steps of `Protocol`, not as class methods.
- Client.Client.Poll: other threads stand still while it runs; every interleaving is in `Protocol`. A loop that is never cancelled never returns, so the method has nothing to say of it.
- Mutexes inside `record`: other threads never need the lock while the poller holds it, except for Diagnostics, which is modelled by `Histories.DiagnosticsCoherent` and not as a step.
- Base URL, HTTP timeout and default-policy resolution (configuration.go:198-220), outcome names and the example program: no hard properties.
