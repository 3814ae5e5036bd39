# Verified model of resiliencx

A Dafny model of the stateful parts of resiliencx, with proofs of what they promise: the circuit breaker,
the token bucket, the retry loop, the bulkhead, the goal evidence ledger, the two manifest parsers with
their validators, and the byte stream behind the source digest.

Check everything with `dafny verify dfyconfig.toml`.

| file | contents |
|---|---|
| Circuit.dfy | the breaker's fields as a value, its critical sections as functions, and the mutable object |
| CircuitProtocol.dfy | interleavings of critical sections: probe budget, load shedding, exclusivity, the failure counter |
| CircuitEager.dfy | the lazily polled breaker against one with a timer |
| RateLimit.dfy | the token bucket: exactness, window bounds, invisible denials, tight waits |
| Retry.dfy | the retry loop and backoff arithmetic |
| RetryBreaker.dfy | one retry loop around one breaker |
| Bulkhead.dfy | the semaphore object and its interleavings |
| Ledger.dfy | upsert, the final gate, and whole runs of evaluation and writing |
| GoStrings.dfy, Yaml.dfy | string functions and the indentation reader shared by the two parsers |
| OwnerFile.dfy, ContextFile.dfy | the two manifest parsers and validators |
| Digest.dfy | sorting and framing of the digest stream |
| GoNumbers.dfy, Wrappers.dfy | truncation; Option and Result |

How the parts fit: each mutable object's methods are proved to perform a function of the object's old value
(`View()`), and the theorems are about runs of those functions. A bulkhead's `View()` also holds the clients
that have a slot, which its code does not record. The breaker's runs are interleavings of its critical
sections with `fn` outside the lock; a history that no step reads records trips, half-open entries, probes
and completions, and is computed from the states before and after each step.

Where the code and its comments differ, the model follows the code:

- `retry.Do` returns the last error (retry.go:40, 61); its comment says the first (retry.go:28).
- `Limiter.Reserve` never blocks and does not record debt: it returns a wait, empties the bucket and forgives
  the shortfall (ratelimit.go:47-50), although its comment says that it blocks.
- "A single probe" (circuit.go:17) holds per half-open episode, not of all calls inside `fn`:
  `CircuitProtocol.TwoProbesPossible` gives a run with two, and `ExclusivityLostIff` the exact step.
- The comparison of `local_write` and `release_verify` fields (validation.go:160) can only add a gap where
  there is another one already: `ContextFile.NotDistinctNeverAlone`.

Where a promise does not hold of every input, the model gives an input and the exact condition:

- `WriteEvidence` keeps the ledger's gate unless it is given an accepted final report whose pack path leads to
  the ledger itself (goalruntime.go:292): the pack then replaces the five prerequisites.
  `Ledger.SourceLedgerOverwritten` is such a run, and `Ledger.WriteSoundIff` and `Ledger.RunSoundIff` say that nothing else breaks it. Reports
  that come from `Evaluate` never do it (`Ledger.EvaluatedPackElsewhere`).
- The bulkhead is sure to keep to its limit if and only if no client has released what it did not hold:
  `Bulkhead.StrayReleaseBreaksLimit`, `Bulkhead.LimitKeptIff` and `Bulkhead.LimitBrokenIff`.
- Comments and blank lines leave a validator's whole answer as it was, except in a file of nothing but white
  space, which is only reported as empty: `BlankFileIsException` and `GapsIgnoreCommentsIff` of `OwnerFile` and
  `ContextFile`.

Assumptions: the clock does not go back between critical sections, `fn` returns, and the lemmas about the
token bucket take rate, maximum and amounts to be non-negative (the object's methods take any).

## Model

| member | source | states |
|---|---|---|
| Circuit.Breaker.constructor | pkg/resiliencx/circuit/circuit.go:38-44 | a new breaker is Closed with no failures |
| Circuit.Breaker.CurrentState | pkg/resiliencx/circuit/circuit.go:47-55 | polls the timer, reports the state it leaves |
| Circuit.Breaker.Enter | pkg/resiliencx/circuit/circuit.go:59-89 | the critical section before `fn` performs the admission step of the protocol |
| Circuit.Breaker.Leave | pkg/resiliencx/circuit/circuit.go:78-100 | the critical section after `fn` performs the completion step for the mode of admission |
| Circuit.Breaker.Do | pkg/resiliencx/circuit/circuit.go:58-103 | an uninterrupted call is admission, then completion, with the sentinel error if refused |
| Circuit.Breaker.Reset | pkg/resiliencx/circuit/circuit.go:106-112 | Closed, no failures, no probe; timestamp kept |
| Circuit.Breaker.Trip | pkg/resiliencx/circuit/circuit.go:114-117 | Open as of now, everything else kept |
| CircuitProtocol.DoAloneIsSteps | pkg/resiliencx/circuit/circuit.go:58-103 | a sequential `Do` is two adjacent protocol steps, or one if refused |
| CircuitProtocol.ProbeBudget | pkg/resiliencx/circuit/circuit.go:47-117 | in every interleaving, stale completions and Resets included: half-open entries are a cooldown apart, each episode admits at most one probe, and probes by time t are at most (t - first trip) / cooldown |
| CircuitProtocol.NoWedging | pkg/resiliencx/circuit/circuit.go:69-86 | half-open with the flag set implies that this episode's probe is inside `fn` |
| CircuitProtocol.FlagIsLatestProbe | pkg/resiliencx/circuit/circuit.go:69-112 | in every interleaving a set flag belongs to the latest probe, still inside `fn`, and a closed breaker has none |
| CircuitProtocol.SingleProbe | pkg/resiliencx/circuit/circuit.go:60-86 | with no Reset and no Closed-mode call inside `fn` at half-open entries, at most one probe is ever inside `fn` |
| CircuitProtocol.ExclusivityLostIff | pkg/resiliencx/circuit/circuit.go:60-74 | a step makes two probes run if and only if it begins a call at a free half-open gate while an older probe is inside `fn` |
| CircuitProtocol.TwoProbesPossible | pkg/resiliencx/circuit/circuit.go:60-62 | a concrete interleaving with two probes inside `fn` |
| CircuitProtocol.LoadShed | pkg/resiliencx/circuit/circuit.go:60-95 | if every `fn` fails and nobody resets, calls starting `fn` after the first trip are at most (t - first trip) / cooldown in any interleaving |
| CircuitProtocol.SequentialLoadShed | pkg/resiliencx/circuit/circuit.go:60-95 | and in sequential runs all starts are at most max(threshold, 1) plus that |
| CircuitProtocol.FailuresAreHistory | pkg/resiliencx/circuit/circuit.go:80-112 | `failures` counts failed Closed-mode completions since the last success or Reset, stays below the trip level while Closed, and a Closed-mode completion trips exactly when it reaches the threshold |
| CircuitEager.LazyIsEager | pkg/resiliencx/circuit/circuit.go:47-103 | every admission and observed state equals that of a breaker whose timer fires at lastFailTime + cooldown |
| CircuitEager.AgreeAtEveryInstant | pkg/resiliencx/circuit/circuit.go:47-55 | after any run, at any later instant, `State()` would report the state the eager breaker is in |
| CircuitEager.NewBreakerIsEager | pkg/resiliencx/circuit/circuit.go:38-103 | both, from the creation of the breaker on |
| CircuitEager.DoAloneReturns | pkg/resiliencx/circuit/circuit.go:58-103 | a sequential `Do` returns ErrOpen exactly when a breaker with a timer is open, ErrHalfOpen exactly when its probe is running, and otherwise what `fn` returned |
| CircuitEager.QueriesInvisible | pkg/resiliencx/circuit/circuit.go:47-63 | erasing any of a run's `State()` calls, wherever they are, leaves a run in which every other call, remaining `State()` calls included, sees what it saw |
| RateLimit.Limiter.constructor | pkg/resiliencx/ratelimit/ratelimit.go:19-21 | a full bucket as of now |
| RateLimit.Limiter.Allow | pkg/resiliencx/ratelimit/ratelimit.go:24 | one AllowN step for one token |
| RateLimit.Limiter.AllowN | pkg/resiliencx/ratelimit/ratelimit.go:27-36 | performs one AllowN step of the model |
| RateLimit.Limiter.Reserve | pkg/resiliencx/ratelimit/ratelimit.go:39-51 | performs one Reserve step of the model |
| RateLimit.Limiter.RefillTo | pkg/resiliencx/ratelimit/ratelimit.go:53-61 | performs a refill of the model |
| RateLimit.TokensInRange | pkg/resiliencx/ratelimit/ratelimit.go:27-61 | 0 <= tokens <= max after any mix of calls |
| RateLimit.LevelIsLeastRoom | pkg/resiliencx/ratelimit/ratelimit.go:53-61 | over any mix of calls, the level a call finds is the least room left by any window that ends with it |
| RateLimit.AllowExactly | pkg/resiliencx/ratelimit/ratelimit.go:19-61 | over any mix of calls, AllowN grants and Reserve takes its whole amount if and only if in every window ending with the call, tokens taken plus its own amount are within max + rate * length |
| RateLimit.GrantedIsTaken | pkg/resiliencx/ratelimit/ratelimit.go:27-36 | among AllowN calls the tokens taken in a window are the tokens granted in it |
| RateLimit.WindowBound | pkg/resiliencx/ratelimit/ratelimit.go:27-61 | over any mix of calls, tokens deducted in a window are at most max + rate * length |
| RateLimit.ReserveTakes | pkg/resiliencx/ratelimit/ratelimit.go:39-51 | Reserve takes min(n, level), and does what AllowN does where that grants |
| RateLimit.RefillTwice | pkg/resiliencx/ratelimit/ratelimit.go:53-61 | refilling at t and then u is refilling at u |
| RateLimit.DenialsInvisible | pkg/resiliencx/ratelimit/ratelimit.go:27-61 | deleting every denied AllowN leaves all other results of the run as they were |
| RateLimit.WaitIsTight | pkg/resiliencx/ratelimit/ratelimit.go:47-50 | the wait w in ms satisfies rate * w <= 1000 * deficit < rate * (w + 1) |
| RateLimit.WaitIsRight | pkg/resiliencx/ratelimit/ratelimit.go:27-51 | with no calls between, the deficit is granted exactly when it has been earned: never before w ms, always from w + 1 ms on |
| Retry.Do | pkg/resiliencx/retry/retry.go:30-62 | error, number of attempts, waits slept and the part slept of a cancelled wait are those of the policy, the callback and the context; total sleep is at most InitialWait + (MaxAttempts - 2) * MaxWait |
| Retry.OutcomeMeans | pkg/resiliencx/retry/retry.go:38-61 | stops at the first success, the first cancellation after a failure or the last attempt; the error is nil, the context's or the last attempt's accordingly |
| Retry.UncappedWait | pkg/resiliencx/retry/retry.go:31-58 | uncapped, with any positive multiplier m, the i-th wait is within 1 + m + ... + m^(i-1) below InitialWait * m^i and never above it |
| Retry.WholeWait | pkg/resiliencx/retry/retry.go:31-58 | with whole m, and with 2 where m is not positive, the waits are exact, and capped from the second on |
| Retry.DefaultDoubles | pkg/resiliencx/retry/retry.go:31-33 | a policy without a positive multiplier waits as one with 2 |
| Retry.CappedGrows | pkg/resiliencx/retry/retry.go:55-58 | with any m >= 1, every wait after the first is the smaller of MaxWait and the uncapped wait |
| Retry.CappedShrinks | pkg/resiliencx/retry/retry.go:55-58 | with 0 < m <= 1, the waits after the first are those of an uncapped policy that begins with the second, the smaller of MaxWait and InitialWait * m truncated |
| Retry.TotalSleep | pkg/resiliencx/retry/retry.go:35-58 | the same bound for any full waits of the policy and part of the next one |
| RetryBreaker.RetryAroundBreaker | pkg/resiliencx/retry/retry.go:38-61 | with an always-failing `fn` behind a new breaker: all attempts are made, starts are min(MaxAttempts, max(threshold, 1)) plus at most elapsed / cooldown, exactly that many while elapsed < cooldown, and then the error is ErrOpen |
| RetryBreaker.PatientRetryAlwaysStarts | pkg/resiliencx/retry/retry.go:38-61 | if from the trip on every wait of the policy is at least the cooldown and is slept, every attempt starts `fn` and the error is its last |
| RetryBreaker.AfterTrip | pkg/resiliencx/circuit/circuit.go:60-102 | between attempts the breaker rests in Open, and the probes since the trip are a cooldown apart |
| Bulkhead.Bulkhead.constructor | pkg/resiliencx/bulkhead/bulkhead.go:17-19 | all slots free |
| Bulkhead.Bulkhead.Acquire | pkg/resiliencx/bulkhead/bulkhead.go:22-29 | takes a slot for its caller exactly when it returns nil: the step Acquired or Cancelled |
| Bulkhead.Bulkhead.TryAcquire | pkg/resiliencx/bulkhead/bulkhead.go:32-39 | fails exactly when full, and then takes nothing: the step Acquired or Refused |
| Bulkhead.Bulkhead.Release | pkg/resiliencx/bulkhead/bulkhead.go:42-44 | gives one slot back: the step Released |
| Bulkhead.Bulkhead.Do | pkg/resiliencx/bulkhead/bulkhead.go:47-53 | acquires and releases, or is cancelled, and leaves slots and holders as they were |
| Bulkhead.Bulkhead.Available | pkg/resiliencx/bulkhead/bulkhead.go:56-58 | capacity less slots in use |
| Bulkhead.SlotsConserved | pkg/resiliencx/bulkhead/bulkhead.go:17-58 | in every interleaving holders + Available() = capacity + stray releases |
| Bulkhead.BulkheadHolds | pkg/resiliencx/bulkhead/bulkhead.go:17-58 | with matched releases: at most maxConcurrent inside, no slot lost, a holder's release never blocks, only a full bulkhead refuses |
| Bulkhead.FailedAttemptsLeaveNoTrace | pkg/resiliencx/bulkhead/bulkhead.go:25-38 | dropping all cancelled and refused acquires leaves the run's end as it was |
| Bulkhead.LimitKeptIff | pkg/resiliencx/bulkhead/bulkhead.go:17-58 | after any run, clients that release what they hold stay within maxConcurrent from then on if and only if every release so far was a holder's |
| Bulkhead.LimitBrokenIff | pkg/resiliencx/bulkhead/bulkhead.go:17-58 | in any run within the limit, an Acquire can go through and be one too many if and only if maxConcurrent clients are inside and some release so far was not a holder's |
| Bulkhead.StrayReleaseBreaksLimit | pkg/resiliencx/bulkhead/bulkhead.go:42-44 | a concrete run in which an unmatched Release lets one client too many inside |
| Ledger.EvidenceStore.ReadEntries | internal/goalruntime/goalruntime.go:336-355 | the entries in order, or the number of the first line that does not decode |
| Ledger.EvidenceStore.ValidateFinalPrerequisites | internal/goalruntime/goalruntime.go:310-334 | the gaps of the final gate, in order |
| Ledger.EvidenceStore.Upsert | internal/goalruntime/goalruntime.go:357-393 | the rewritten file: surviving lines, the entry, a final newline; other files untouched |
| Ledger.EvidenceStore.WriteEvidence | internal/goalruntime/goalruntime.go:268-296 | new files and error as a function of the old files and the report; ledgers and packs share one file system |
| Ledger.EvidenceStore.Evaluate | internal/goalruntime/goalruntime.go:126-211 | the gate-relevant part of the report |
| Ledger.EvaluatedGoal | internal/goalruntime/goalruntime.go:131-160 | the caller's goal and mode, trimmed, are the report's, the pack is named after the goal, and blank ones are replaced by the defaults |
| Ledger.EvaluatedGaps | internal/goalruntime/goalruntime.go:178-210 | the gaps are the missing authority paths in order, or without any what the gate answers to the final command; they decide status and MVA status |
| Ledger.EvaluatedCommands | internal/goalruntime/goalruntime.go:35-42 | exactly the six commands are evaluated |
| Ledger.WriteRefused | internal/goalruntime/goalruntime.go:268-283 | which error a refused write gives, in the order of the checks, and that it changes nothing |
| Ledger.WrittenEntry | internal/goalruntime/goalruntime.go:298-308 | an accepted report is recorded at its ledger path with all seven fields |
| Ledger.PackTellsReport | internal/goalruntime/goalruntime.go:284-293 | packs with the same lines report the same |
| Ledger.PathsCompose | internal/goalruntime/goalruntime.go:279-295 | following a path is following its parts one after the other |
| Ledger.OnePart | internal/goalruntime/goalruntime.go:279-295 | an empty part and "." stay, ".." goes up and any other name goes down |
| Ledger.GateOpensIff | internal/goalruntime/goalruntime.go:310-334 | the gate opens if and only if the ledger exists, decodes, and the goal's last entry of each prerequisite is passed, complete and blocking |
| Ledger.FinalGapsMean | internal/goalruntime/goalruntime.go:310-334 | the gate answers that the ledger is unreadable, or the shares of the five commands in their order |
| Ledger.CommandGaps | internal/goalruntime/goalruntime.go:322-332 | a command's share is that it is missing, that its last entry is incomplete, or nothing |
| Ledger.EvaluateDecidesWrite | internal/goalruntime/goalruntime.go:194-209 | evidence of a report evaluated on the same store is accepted exactly when the report has no gaps |
| Ledger.UpsertUpdatesMap | internal/goalruntime/goalruntime.go:316-321 | read back per goal, an upsert is a map update at the command and nothing else |
| Ledger.UpsertIdempotent | internal/goalruntime/goalruntime.go:357-393 | upserting twice is upserting once, line for line |
| Ledger.UpsertKeepsKeys | internal/goalruntime/goalruntime.go:368-388 | entries of another goal, command or pack path are kept, in order, one of the same three is replaced, unique keys stay unique |
| Ledger.UpsertLineByLine | internal/goalruntime/goalruntime.go:368-391 | blank lines go, undecodable lines and other entries stay where they are, and the new entry comes last |
| Ledger.FinalImpliesPrerequisites | internal/goalruntime/goalruntime.go:194-296 | after any Evaluate-then-WriteEvidence run from nothing, a final entry implies its goal's five prerequisite entries, passed, complete and blocking |
| Ledger.FinalReachable | internal/goalruntime/goalruntime.go:194-296 | and such a run exists for every root and goal: the five prerequisites and then the final command, evaluated and written from nothing, leave the goal's final entry and its pack |
| Ledger.FinalImpliesPrerequisitesForAnyReports | internal/goalruntime/goalruntime.go:268-296 | the same for WriteEvidence on arbitrary reports whose pack paths do not lead to the source ledger |
| Ledger.WriteSoundIff | internal/goalruntime/goalruntime.go:268-296 | one write keeps a sound ledger sound if and only if it is not an accepted final report whose pack path leads to the source ledger |
| Ledger.RunSoundIff | internal/goalruntime/goalruntime.go:268-296 | a run of writes of arbitrary reports keeps it sound if and only if none of them is such a write |
| Ledger.OverwriteLosesPrerequisites | internal/goalruntime/goalruntime.go:284-295 | such a write leaves the final entry alone in the ledger, without its prerequisites |
| Ledger.OverwritingRun | internal/goalruntime/goalruntime.go:268-296 | such a run from nothing, for every root, goal and spelling of the ledger's path |
| Ledger.SourceLedgerOverwritten | internal/goalruntime/goalruntime.go:268-296 | that run with the source ledger's own path as ledger path and pack path |
| Ledger.SourceLedgerResolved | internal/goalruntime/goalruntime.go:311-312 | the path that evaluated reports carry leads to the ledger that the gate reads, from every root |
| Ledger.EvaluatedPackElsewhere | internal/goalruntime/goalruntime.go:144-160 | the pack of an evaluated report is never the source ledger, whatever the goal is called |
| Ledger.PackImpliesPrerequisites | internal/goalruntime/goalruntime.go:281-294 | a generated pack exists only for a passed final report of a goal with all five prerequisites |
| Ledger.MalformedBlocksForever | internal/goalruntime/goalruntime.go:349-381 | a line that does not decode survives all writes and keeps the final gate shut |
| GoStrings.SplitTerminated | internal/validation/validation.go:203 | lines that each end in a newline split into themselves and an empty last part |
| GoStrings.TrimSpaceAscii | internal/validation/validation.go:205-209 | blanks, tabs and line ends around a text go, and the text stays |
| Yaml.ContainsKey | internal/validation/validation.go:181-189 | found exactly when some stripped line is the key |
| Yaml.KeyInMeans | internal/validation/validation.go:181-189 | having a key is a property of some single line |
| Yaml.HasKeyMeans | internal/validation/validation.go:181-189 | a file has a key if and only if a line without its comment is white space, the key, a colon, and then a blank and anything or only white space |
| Yaml.GivesKey | internal/validation/validation.go:181-189 | such a line gives the key, comments and all |
| Yaml.RoundTrip | internal/validation/validation.go:203-246 | clean items in the canonical layout, in any of three name styles, read back the same and in order |
| Yaml.TopLevelEndsItems | internal/validation/validation.go:216-219 | the next unindented text ends the items, and nothing after it is read |
| Yaml.ByIndent | internal/validation/validation.go:208-229 | what a line of text is by its indentation: top level at none, other text at one and three, and without a colon nothing at two and from four on |
| Yaml.IndentCountsBlanks | internal/validation/validation.go:208 | only blanks indent |
| Yaml.StrayFieldIgnored | internal/validation/validation.go:225-227 | a field before the first item is not read |
| Yaml.UnquoteQuotes | internal/validation/validation.go:334-336 | quotes of either kind come off with the white space around them, and what is inside stays |
| Yaml.QuotedFieldIsRead | internal/validation/validation.go:225-232 | a field indented by four or more, its value in quotes, is read with the value inside them |
| Yaml.SameTextReadsSame | internal/validation/validation.go:203-207 | items and keys depend only on the lines left after comments and blank lines are removed |
| Yaml.InsertBlankLine | internal/validation/validation.go:204-207 | a blank or comment-only line anywhere in any text leaves those lines as they were |
| Yaml.AppendComment | internal/validation/validation.go:327-332 | so does a comment appended to any line of any text |
| OwnerFile.ParseLine | internal/validation/validation.go:203-243 | one turn of the owner parser's loop follows the reader |
| OwnerFile.ParseRuntimeFileOwners | internal/validation/validation.go:191-246 | the records of the items read from the file |
| OwnerFile.OwnersRoundTrip | internal/validation/validation.go:191-298 | clean owner records in the canonical layout parse to the same list in order |
| OwnerFile.LaterFieldWins | internal/validation/validation.go:232-242 | a field given again replaces its value and no other; other names are ignored |
| OwnerFile.CheckOwners | internal/validation/validation.go:60-87 | exactly the gaps of the record list, each path judged by its first record |
| OwnerFile.RequireRuntimeOwner | internal/validation/validation.go:166-179 | exactly the gaps of one required path |
| OwnerFile.ValidateRuntimeFileOwnership | internal/validation/validation.go:43-93 | a gap is reported if and only if the text or its records have it; none if and only if the manifest is acceptable |
| OwnerFile.AcceptsMeansNoGaps | internal/validation/validation.go:43-93 | acceptability, stated on the records, is the absence of every gap |
| OwnerFile.RenderedAcceptedIff | internal/validation/validation.go:43-93 | end to end: clean records rendered under any schema version are accepted if and only if the list is good |
| OwnerFile.OwnerFault | internal/validation/validation.go:68-72 | in a good record another owner is no gap if it is one of the eight, and otherwise the one gap |
| OwnerFile.PathFault | internal/validation/validation.go:73-75 | a path that begins with a slash is the one gap |
| OwnerFile.ReviewFault | internal/validation/validation.go:76-82 | which one gap a review requirement and its rule make |
| OwnerFile.RationaleFault | internal/validation/validation.go:83-85 | no rationale is the one gap |
| OwnerFile.RequiredFault | internal/validation/validation.go:166-179 | a required path without a record is one gap; with one, a wrong owner and a wrong review are a gap each |
| OwnerFile.VerdictIgnoresComments | internal/validation/validation.go:203-207 | the verdict depends only on the lines left after comments and blank lines are removed |
| OwnerFile.GapsIgnoreCommentsIff | internal/validation/validation.go:43-93 | of two texts that differ only in comments and blank lines all gaps are the same if and only if both or neither are blank |
| OwnerFile.BlankFileIsException | internal/validation/validation.go:43-46 | every blank file is an instance: a comment on its first line changes the answer |
| OwnerFile.BlankLineChangesNothing | internal/validation/validation.go:205-207 | inserting a blank or comment-only line anywhere in any text leaves the verdict and, unless the text was blank, every gap |
| OwnerFile.TrailingCommentChangesNothing | internal/validation/validation.go:327-332 | so does appending a comment to any line of any text |
| ContextFile.ParseLine | internal/validation/validation.go:260-295 | one turn of the context parser's loop follows the reader |
| ContextFile.ParseExecutionContexts | internal/validation/validation.go:248-298 | the contexts of the items read from the file |
| ContextFile.ContextsRoundTrip | internal/validation/validation.go:248-298 | clean contexts in mapping or dash style, fields in any order, parse to the same list |
| ContextFile.LaterFieldWins | internal/validation/validation.go:295 | a field given again replaces its value and no other |
| ContextFile.RelativeFields | internal/validation/validation.go:323-325 | names with path, root or manifest anywhere in them must be relative |
| ContextFile.OtherFields | internal/validation/validation.go:323-325 | and no others |
| ContextFile.CheckContexts | internal/validation/validation.go:118-142 | exactly the gaps of the context list, each name judged by its first context |
| ContextFile.CheckRelative | internal/validation/validation.go:137-141 | exactly the path-like fields with an absolute value, in whatever order the fields come |
| ContextFile.CheckExpected | internal/validation/validation.go:143-147 | exactly the expected names that no context has |
| ContextFile.CheckSemantics | internal/validation/validation.go:149-162 | exactly the gaps in the values of local_write and release_verify |
| ContextFile.RightListHasNoSemanticGap | internal/validation/validation.go:149-162 | with right values no semantic gap is left, the distinctness check included |
| ContextFile.NotDistinctNeverAlone | internal/validation/validation.go:149-162 | whenever local_write and release_verify are reported as not distinct, there is another gap too |
| ContextFile.ValidateExecutionContext | internal/validation/validation.go:97-164 | a gap is reported if and only if the text or its contexts have it; none if and only if the manifest is acceptable |
| ContextFile.AcceptsMeansNoGaps | internal/validation/validation.go:97-164 | acceptability, stated on the contexts, is the absence of every gap |
| ContextFile.RenderedAcceptedIff | internal/validation/validation.go:97-164 | end to end: contexts in any clean rendering under any schema version are accepted if and only if the list is good |
| ContextFile.NameFault | internal/validation/validation.go:130-132 | in a good context a name that is not expected is the one gap |
| ContextFile.TextFault | internal/validation/validation.go:300-304 | an empty write_scope or requires_gowork is the one gap |
| ContextFile.BoolFault | internal/validation/validation.go:306-315 | which one gap a yes-or-no field makes |
| ContextFile.RelativeFault | internal/validation/validation.go:137-141 | an absolute value of a path-like field is the one gap |
| ContextFile.ValueFault | internal/validation/validation.go:317-321 | a value that is given and wrong is the one gap, an absent one is none |
| ContextFile.GapsIgnoreCommentsIff | internal/validation/validation.go:97-164 | of two texts that differ only in comments and blank lines all gaps are the same if and only if both or neither are blank |
| ContextFile.BlankFileIsException | internal/validation/validation.go:97-100 | every blank file is an instance: a comment on its first line changes the answer |
| ContextFile.VerdictIgnoresComments | internal/validation/validation.go:260-264 | the verdict depends only on the lines left after comments and blank lines are removed |
| ContextFile.BlankLineChangesNothing | internal/validation/validation.go:262-264 | inserting a blank or comment-only line anywhere in any text leaves the verdict and, unless the text was blank, every gap |
| ContextFile.TrailingCommentChangesNothing | internal/validation/validation.go:327-332 | so does appending a comment to any line of any text |
| Digest.SourceDigest | internal/tools/releasemanifest/util.go:24-52 | the stream written to the hash and the number of files, or failure if a file cannot be read |
| Digest.SortedUnique | internal/tools/releasemanifest/util.go:36 | sorted lists of the same paths are equal, so the sorting algorithm does not matter |
| Digest.AtMostMeans | internal/tools/releasemanifest/util.go:36 | a prefix comes before what it is a prefix of; otherwise the smaller byte decides where two paths first differ |
| Digest.FilesOfListing | internal/tools/releasemanifest/util.go:29-35 | the files of a listing are its paths, all of them, in order |
| Digest.StreamOfListing | internal/tools/releasemanifest/util.go:29-49 | the stream of a listing is that of its paths in ascending order, or nothing if one cannot be read |
| Digest.UnframedFramed | internal/tools/releasemanifest/util.go:45-48 | the framed stream decodes to exactly the files it was made of |
| Digest.OrderIrrelevant | internal/tools/releasemanifest/util.go:29-49 | the stream does not depend on the order of the file list |
| Digest.SameStreamIff | internal/tools/releasemanifest/util.go:29-49 | two trees give the same stream if and only if they have the same paths, as often, with the same sums |

## Left out

- Floating point: tokens, rates and multipliers are exact reals; rounding, NaN and infinities are not modelled.
- RateLimit.Limiter.Reserve: with rate zero the source divides by zero and converts the result to an integer, which its language leaves open; the wait is then `Unspecified`.
- Retry.UncappedWait: takes InitialWait to be non-negative, as the other lemmas about waits do; with a negative one every timer fires at once.
- OwnerFile.ValidateRuntimeFileOwnership: says which gaps are reported, not in which order or how often; acceptance does not depend on that.
- OwnerFile.CheckOwners: likewise.
- OwnerFile.RequireRuntimeOwner: likewise.
- ContextFile.ValidateExecutionContext: likewise; the source itself visits a context's fields in no fixed order.
- ContextFile.CheckContexts: likewise.
- ContextFile.CheckExpected: likewise.
- ContextFile.CheckSemantics: likewise.
- Ledger.EvidenceStore.Evaluate: leaves out the report's details, gates, evidence strings and authority paths, and which authority paths are required (they come as a list of missing ones).
- Bulkhead.HandedOver is a send that meets a waiting receive, two calls at once, so it is a step of runs that no method performs by itself.
- Overflow: instants, durations, counters and backoff are unbounded integers; a duration product that does not fit 64 bits is not modelled.
- Panics: a panicking `fn` skips the breaker's bookkeeping (circuit.go:78-86); the model takes `fn` to return.
- Clocks, contexts and callbacks are parameters: instants of critical sections, answers of `fn`, and outcomes of selects.
- Blocking and fairness: a step that would block is a step that does not happen yet; nothing is said about who goes first.
- Files: permissions, failing reads and writes, partial writes and concurrent writers; a path that would need a file as a directory; symbolic links. The root is taken as an absolute path.
- JSON: a ledger line is blank, undecodable or an entry; its exact text is not modelled, so reformatting of an entry is invisible. Of a pack only the lines of the modelled members are listed, without escapes.
- Message texts: gaps and errors are values; where the source builds strings from them, only their content is modelled.
- Bytes and runes: manifests and the strings of reports and ledger entries are sequences of characters, so invalid UTF-8 is not modelled; in a goal id the JSON encoder replaces it, and the entry read back then has another key than the one written.
- SHA-256 and git: the digest's input stream is modelled, the hash is not; file sums are given.
- The sort of `sourceDigest` is the library's; any sort gives the same list (`Digest.SortedUnique`), and an insertion sort stands for it.
- timeout, fallback, the no-op strategy, idempotency guard, classifier, events, options, configuration, client and health checks: short single-branch logic that would add only easy members.
- debtcheck, releasequality scoring and manifest field checks: flat comparisons over file scans.
- Scripts, schemas and the test kit.
