# Verified model of the LLM gateway's metering and billing core

The gateway routes a client's request to one of several upstream channels, streams the answer back, reads the token
usage off the stream, prices it, and charges it to the budgets of the key and of its owner. This project is a Dafny 4.11
model of that path and of the background jobs and admin operations that touch the same state, with proofs about whole
runs. `dafny verify dfyconfig.toml` checks everything.

| file | models |
|---|---|
| `Calendar` | UTC months over epoch seconds, and the service's two ways of detecting a month turn |
| `Cost`, `Money` | per-tier ceiling prices in micro-CNY with 64-bit saturation and wrap-around; decimal parsing |
| `Utf8`, `Text` | boundary-safe truncation of audited bodies; whitespace trimming |
| `UsageJson`, `SseTap` | usage extraction; the usage tap that cuts lines out of arbitrary chunks under a memory cap |
| `Sql`, `Budgets` | the budget tables as a class: checks, settlement, rollover, cleanup, create, update |
| `Ledger`, `RolloverJob`, `Overshoot` | runs of those tables |
| `Shuffle`, `Channels` | weighted draw; the channel table as a class: cooldown, recovery, admin changes, failover |
| `Spacing`, `Recovery` | runs of one channel |
| `Settlement`, `EndToEnd` | the stream wrapper, the request handler, and the way from bytes to budgets |
| `Limiter`, `Logins` | the login limiter, used by one login at a time and by concurrent logins |
| `Prelude` | options, results, 64-bit limits, lemmas on sequences |

State the service updates in place is a class whose methods carry their own loops and statements; each method is proved
equal to a specification function on values (`SettleTables`, `FeedState`, `AfterForward`, ...), and the theorems about runs
are lemmas on those functions. Constants, field names, status codes and who is charged are stated with literal values in
lemmas beside the functions that use them. A settlement, a job run and an admin operation are each one atomic step, as its transaction
or statement makes it. Time, random draws, upstream answers and decoded JSON are inputs.

## Conditions that run through the theorems

- Clocks: `now_epoch` (src/lib.rs:79-84) never returns a negative number. Runs of budgets take clocks from 1970 to the end
  of year 9999, the last the date library represents (`Ledger.Timely`).
- Order: the time of a settlement is read before its transaction starts (src/gateway/mod.rs:51), so commit order can differ
  from clock order. Where a theorem needs clock order it says so (`Ordered`); `StoredMonthly`, `StoredTotal` and
  `BoundedOvershoot` hold for every order. What a clock that goes back does expose is shown by `LateChargeMovesMonth`,
  `BackwardClockExposesRollover`, `BackwardClockExposesRecovery` and `BackwardClockExposesEviction`.

## Where the code differs from its comments

The model follows the code.

- A tap that overflows keeps the usage of the lines it completed; the comment at src/gateway/sse_tap.rs:7-9 says it bills
  zero (`OverflowKeepsUsage`, `TapStops`).
- The backoff exponent stops at 32, so the documented min(base * 2^level, max) of src/gateway/upstream.rs:154 holds at every
  level if and only if max <= base * 2^32 (`BackoffExactly`).
- Each tier saturates so as never to bill too little (src/billing.rs:41), but the four tiers are added with plain `+`. A
  release build wraps: two tiers at the 64-bit maximum cost -2, whether they reach it exactly or saturate there
  (`FullTiersWrap`). So the rounding bound, without saturation, and monotonicity hold if and only if the sum fits 64 bits
  (`CostBounds`, `MonotoneIffFits`), and the cost is exact if and only if it does (`CostExactIffFits`).
- A negative cached count in an OpenAI answer adds to the billed prompt tokens, since only the cached tier is clamped
  (`PromptBilledOnce`).
- A stream whose end is polled is settled as ok even if it yielded an error before; the comment at
  src/gateway/mod.rs:338-339 leaves errors to the drop (`ErrorsIrrelevant`).
- The comments at src/billing.rs:283-285 and src/jobs.rs:21-23 leave month ends to the rollover job. A settlement that
  commits out of clock order can still count in the month after its own, and the job does not undo that; `Late` says by how
  much, exactly (`StoredMonthly`, `LateChargeMovesMonth`).

## Model

| member | source | states |
|---|---|---|
| Calendar.NextMonthStart | src/jobs.rs:8-17 | month starts by the seconds-since-the-Epoch formula of IEEE Std 1003.1-2017 section 4.16 are one month length by the leap-year rule apart, in every year |
| Calendar.YearMonthContains | src/billing.rs:184-189 | a timestamp lies between the first second and the end of the month computed for it |
| Calendar.YearMonthUnique | src/billing.rs:184-189 | no other month contains it |
| Calendar.MonthStartIsLeast | src/jobs.rs:8-17 | the month start is the least timestamp of the month of `now` |
| Calendar.MonthTestsAgree | src/billing.rs:191-195 | for all representable pairs, `ts` is before the month start of `now` iff its (year, month) pair is smaller |
| Calendar.MonthTestsAgreeExactly | src/billing.rs:183-195 | for a clock in 1970..9999 and any `ts` at all, the two tests agree iff `ts` is not past the last representable second |
| Calendar.KnownRange | src/billing.rs:183-189 | the representable seconds are exactly those of the years -9999 to 9999 |
| Calendar.KnownTurns | src/billing.rs:184-189 | known turns of the month fall on their seconds: the Epoch, February 1900 and 2000, the end of 2024 |
| Cost.MillionTokens | src/billing.rs:17-43 | 1,000,000 tokens of any of the four tiers cost exactly the price of that tier |
| Cost.DirtyValuesFree | src/billing.rs:29-35 | tiers with a negative count or price cost nothing |
| Cost.CostBounds | src/billing.rs:28-51 | without saturation, the returned cost is never below the exact price and less than four micro above it iff the sum of the tiers fits 64 bits |
| Cost.CostMonotone | src/billing.rs:28-51 | more tokens or higher prices never cost less, saturation and clamping included, if the larger sum fits 64 bits |
| Cost.MonotoneIffFits | src/billing.rs:46-51 | at given prices the returned cost is monotone up to a usage iff the sum for that usage fits 64 bits |
| Cost.CostSplit | src/billing.rs:28-51 | billing one usage in two parts costs zero to four micro more, always if the whole fits 64 bits, and in general iff the whole wraps as often as the parts together |
| Cost.FullTiersWrap | src/billing.rs:41-51 | two tiers at the 64-bit maximum cost -2 at every price from one CNY per million tokens |
| Cost.CostExactIffFits | src/billing.rs:46-51 | the 64-bit addition gives the sum iff the sum fits, and is then not negative |
| Money.ParseMeaning | src/billing.rs:55-78 | the parser returns `v` iff the trimmed text is a decimal with at most six decimals whose exact micro value is `v` and fits 64 bits |
| Money.DecimalParses | src/billing.rs:55-78 | a well-formed decimal is rejected, as too large, iff its exact value exceeds 64 bits |
| Money.TrailingZeros | src/billing.rs:70-74 | appending zeros up to six decimals never changes the outcome |
| Money.RenderParses | src/billing.rs:55-78 | every amount of 0..i64::MAX survives rendering with six decimals and parsing |
| Money.WholeParses | src/billing.rs:53-59 | digits without a point are whole CNY, a million micro each |
| Money.HundredFifty | src/billing.rs:53-56 | 100.50 is 100,500,000 micro, blanks around it ignored |
| Money.RejectedEarly | src/billing.rs:56-58 | the text is rejected as empty iff it is blank, as negative iff it starts with a minus sign |
| Money.BytesOfUtf8 | src/billing.rs:60 | decimals are counted in bytes of UTF-8 |
| Text.WhitespaceExactly | src/billing.rs:56 | what trimming removes, code point by code point |
| Utf8.TruncateUtf8 | src/billing.rs:125-135 | a short text is unchanged; a long one is cut at the last character boundary at or below the limit, and marked |
| Utf8.CutKeepsCodePoints | src/billing.rs:125-135 | for well-formed text (RFC 3629 section 3) the cut keeps whole code points, as many as fit, and loses at most three bytes |
| Utf8.PrefixEndsAtBoundary | src/billing.rs:129-133 | the end of every encoded prefix is a boundary |
| Utf8.BoundaryEndsPrefix | src/billing.rs:129-133 | every boundary is the end of an encoded prefix |
| Utf8.CutDecodes | src/billing.rs:125-135 | what is kept decodes to a prefix of the original code points |
| Utf8.DecodeEncode | src/billing.rs:125-135 | decoding inverts encoding |
| Utf8.SuffixReads | src/billing.rs:134 | the mark appended to a cut text reads as its five characters |
| Limiter.LoginLimiter.Check | src/admin/limiter.rs:24-30 | locked until a time iff the entry's lock lies in the future |
| Limiter.LoginLimiter.RecordFailure | src/admin/limiter.rs:32-48 | the table after a failure: window, count, lock, eviction |
| Limiter.LoginLimiter.Clear | src/admin/limiter.rs:50-52 | exactly the key's entry is gone |
| Limiter.EvictionInvisible | src/admin/limiter.rs:44-47 | after every run with a clock that never goes back, each key gets the answer of a limiter that never evicts |
| Limiter.RecordedSurvives | src/admin/limiter.rs:45-47 | the entry just recorded is not evicted |
| Limiter.EvictsExactly | src/admin/limiter.rs:44-47 | up to 1000 keys nothing is evicted; beyond, exactly the keys neither locked nor failing within 900 seconds |
| Limiter.KeyHistory | src/admin/limiter.rs:32-48 | a key's entry depends on its own failures only, and each of these waited for the lock to expire |
| Limiter.FifthLocks | src/admin/limiter.rs:35-43 | in a first window the fifth failure locks for 900 seconds, and no earlier one does |
| Limiter.NineAttained | src/admin/limiter.rs:35-43 | the bound of nine below cannot be lowered: a guarded run has nine failures of a key within 900 seconds |
| Limiter.TenSpan | src/admin/limiter.rs:6-8 | ten failures recorded from any entry, each after the lock expired, span at least 900 seconds |
| Limiter.RateBound | src/admin/limiter.rs:24-48 | when each failure is recorded at the time of its check, and the key is let through then, ten consecutive failures of a key span 900 seconds |
| Limiter.AtMostNine | src/admin/limiter.rs:24-48 | so every half-open interval of 900 seconds holds at most nine failures of a key |
| Logins.ConcurrentBound | src/admin/api.rs:88-103 | with checks and late records of any number of keys interleaved in any order, and at most n logins of a key open at once, 900 seconds hold at most 8 + n of its failures by their stamps, and n + 3 more for each login open when they begin |
| Logins.RunBounded | src/admin/limiter.rs:24-48 | what every such move keeps: failures recorded, still open, and still possible in the interval never exceed the bound, eviction and late stamps that replace a lock included |
| Logins.ConcurrentAttained | src/admin/api.rs:88-103 | with no login open when the interval begins, 8 + n is reached, for every n |
| UsageJson.OpenAIReadsBack | src/billing.rs:95-113 | every usage an OpenAI answer can report is read back, whatever other fields the answer has |
| UsageJson.PlainPrompt | src/billing.rs:102-113 | an OpenAI answer without prompt details has its whole prompt as input and nothing cached |
| UsageJson.OpenAIMissing | src/billing.rs:89-113 | each field of an OpenAI answer that is missing or not an integer counts as zero |
| UsageJson.AnthropicMissing | src/billing.rs:89-119 | the same for Anthropic |
| UsageJson.NoUsageNothing | src/billing.rs:94-99 | an answer without a usage object reports all zeros |
| UsageJson.AnthropicReadsBack | src/billing.rs:114-119 | the same for Anthropic |
| UsageJson.PromptBilledOnce | src/billing.rs:102-110 | the billed prompt tokens, fresh and cached, are the reported prompt, or the cached tokens if these are more, iff the cached count is not negative or the prompt is no greater than it |
| SseTap.FramedEvent | src/gateway/sse_tap.rs:62-74 | a payload framed as a `data:` line (WHATWG HTML sections 9.2.5 and 9.2.6) is decoded, however it is padded with whitespace |
| SseTap.UnframedLine | src/gateway/sse_tap.rs:62-69 | other lines, empty data and the end marker carry no event |
| SseTap.UsageTap.Feed | src/gateway/sse_tap.rs:31-50 | the draining loop consumes exactly the complete lines of buffer and input and keeps the unfinished one, or overflows |
| SseTap.UsageTap.Finish | src/gateway/sse_tap.rs:53-60 | the unfinished line is consumed once, the usage returned |
| SseTap.UsageTap.ConsumeLine | src/gateway/sse_tap.rs:62-74 | the usage changes by the line's event, if it has one |
| SseTap.UsageTap.ConsumeEvent | src/gateway/sse_tap.rs:76-106 | what one event does to the usage, by protocol |
| SseTap.StartEvent | src/gateway/sse_tap.rs:84-93 | a `message_start` event sets the reported fields except the output |
| SseTap.DeltaEvent | src/gateway/sse_tap.rs:94-102 | a `message_delta` event with an integer count sets the output |
| SseTap.OtherEvent | src/gateway/sse_tap.rs:76-105 | every other event changes nothing |
| SseTap.CutJoins | src/gateway/sse_tap.rs:36-43 | lines, newlines and unfinished rest put together are the bytes |
| SseTap.PiecesClean | src/gateway/sse_tap.rs:38-41 | no line holds a newline |
| SseTap.CutResumes | src/gateway/sse_tap.rs:36-43 | cutting a concatenation is cutting its first part and resuming from the rest |
| SseTap.TappedExactly | src/gateway/sse_tap.rs:31-60 | for every chunking: the tap overflows iff some chunk ends beyond the cap inside a line; if not, the result is the one-shot parse of the bytes; if so, it is the fold over the lines completed by the first such chunk, a prefix of the lines |
| SseTap.ChunkingInvisible | src/gateway/sse_tap.rs:31-60 | if no line exceeds the cap, every chunking gives the one-shot parse |
| SseTap.TapStops | src/gateway/sse_tap.rs:33-35 | after the first overflow nothing fed later matters |
| SseTap.OverflowKeepsUsage | src/gateway/sse_tap.rs:46-60 | what a complete line reported before an endless one is still billed |
| SseTap.BufferBounded | src/gateway/sse_tap.rs:44-49 | after every feed the buffer holds no newline and at most the cap |
| SseTap.FoldIsLastWriter | src/gateway/sse_tap.rs:76-106 | for every interleaving of events: Anthropic input and cache fields are those of the last `message_start` with a message, output that of the last `message_delta` with an integer count; OpenAI usage is that of the last event with a usage object |
| SseTap.OneShotIsLastWriter | src/billing.rs:95-121 | the same of the one-shot parse of a byte stream |
| Budgets.AdmittedIff | src/billing.rs:200-230 | a request is admitted iff every active budget of every subject counts less than its limit this month |
| Budgets.KeyVerdict | src/billing.rs:144-157 | the verdict for a key: a spent active budget of ("key", id) stops it first, then one of (owner type, owner id), and nothing else |
| Budgets.SubjectsAreOfKey | src/billing.rs:144-157 | a key counts against itself and its owner, once each |
| Budgets.FirstExhausted | src/billing.rs:201-228 | otherwise the verdict names the first subject with an exhausted budget |
| Budgets.CreateAccepts | src/admin/budgets.rs:124-155 | a budget can be created iff the subject exists, type and period are known, the limit is a positive decimal that fits 64 bits, and the threshold lies in 0..1 |
| Budgets.UpdateAccepts | src/admin/budgets.rs:249-276 | a budget can be updated iff some field is given and each given one is valid |
| Budgets.CreateInserts | src/admin/budgets.rs:156-195 | the row a create adds, field by field from the request, and the conflict |
| Budgets.UpdateWrites | src/admin/budgets.rs:278-310 | the given fields are written, an explicit null threshold clears it, all else stays |
| Budgets.RecordKeeps | src/billing.rs:242-266 | a record keeps key, model, channel, usage, status, error and bodies of its settlement; a negative cost becomes zero |
| Budgets.RolloverExactly | src/jobs.rs:24-36 | exactly active monthly rows of an earlier month restart, from the first second of the month |
| Budgets.RolloverCounts | src/jobs.rs:35 | the number returned is the number of rows changed |
| Budgets.CleanupExactly | src/jobs.rs:58-76 | exactly the bodies and audit events from before the retention days go, and nothing else |
| Budgets.CleanupCounts | src/jobs.rs:57-75 | the number returned is the number of records changed |
| Budgets.Database.CheckBudgets | src/billing.rs:200-230 | the loops with early return find the first exhausted subject |
| Budgets.Database.SettleUsage | src/billing.rs:233-307 | one record is appended, and every active budget of a subject is charged once per listing, a budget of an earlier month restarting; nothing else changes |
| Budgets.Database.ChargeActive | src/billing.rs:271-301 | rows selected first and then updated one by one by id: exactly the active rows of the subject are charged, each once |
| Budgets.ChargeOneMore | src/billing.rs:271-301 | charging subject after subject adds up to one charge of the total, month turn included |
| Budgets.Database.RunMonthlyRolloverOnce | src/jobs.rs:24-36 | exactly the active monthly rows of earlier months restart at zero, and are counted |
| Budgets.Database.RunAuditCleanupOnce | src/jobs.rs:58-76 | bodies of old records and old audit events go, amounts stay; the number of records cleared is returned |
| Budgets.Database.Create | src/admin/budgets.rs:119-222 | validation in order of precedence, conflict iff the subject has a budget of that period, otherwise one fresh row |
| Budgets.Database.Update | src/admin/budgets.rs:243-311 | validation, not found, and only the given fields of the row changed |
| Ledger.RunConsistent | migrations/0001_init.sql:64-76 | every run keeps one budget per subject and period, amounts not negative, and unique ids |
| Ledger.HistoryKept | src/billing.rs:280-300 | every event of every run either adds to the month a row counts or turns the row to the event's own month |
| Ledger.StoredMonthly | src/billing.rs:233-307 | for every commit order a monthly row stores the charges of the month it counts plus the late ones; so at least those charges, and exactly those iff nothing was late |
| Ledger.StoredTotal | src/billing.rs:295-299 | for every commit order a total row stores everything ever charged to it |
| Ledger.EffectiveExactly | src/billing.rs:218-223 | for every commit order, at a clock in the month a row counts or later, the effective usage is exactly what was charged in that clock's month iff the month has turned or nothing was late |
| Ledger.LedgerAgreement | src/billing.rs:233-307 | in clock order the effective usage is exactly what was charged: in the current UTC month, or ever, through disabling, updates, rollovers and cleanups |
| Ledger.NothingLate | src/billing.rs:280-300 | in clock order no charge arrives late |
| Ledger.LateChargeMovesMonth | src/gateway/mod.rs:51 | a settlement stamped in an earlier month than the row counts is billed to the later month |
| Ledger.ChargedByRecords | src/billing.rs:242-303 | the charges to a key's budget never exceed the sum of the key's usage records, and equal it if the budget was active whenever the key was charged |
| Ledger.KeyBudgetMatchesRecords | src/billing.rs:197-199 | in clock order such a budget counts exactly the sum over the usage records, of the month or of all time |
| RolloverJob.RolloverInvisible | src/jobs.rs:24-36 | removing every rollover from a run in clock order changes no verdict and no effective usage |
| RolloverJob.BackwardClockExposesRollover | src/billing.rs:281-300 | a settlement that commits late makes a row that was rolled over count it and a row that was not count nothing |
| RolloverJob.RolloverTwice | src/jobs.rs:22-36 | a second rollover at the same time changes no row and reports zero |
| Overshoot.BoundedOvershoot | src/billing.rs:197-230 | with at most n admitted requests in flight, each costing at most C, usage never exceeds limit - 1 + n*C, in every interleaving and every clock order |
| Overshoot.CreatedBounded | src/admin/budgets.rs:183-197 | so from its creation on every budget is bounded, with requests of its subject already in flight |
| Overshoot.BoundAttained | src/gateway/mod.rs:92-120 | n requests admitted together one micro below the limit reach the bound exactly |
| Overshoot.ChargeRaises | src/billing.rs:268-303 | a settlement raises what is counted by at most its charge, whatever its stamp |
| Shuffle.WeightedShuffle | src/gateway/upstream.rs:129-146 | the nested loop draws by weight intervals and never falls back to the last index |
| Shuffle.ShufflePermutes | src/gateway/upstream.rs:129-146 | the order is a permutation for all draws |
| Shuffle.PickInterval | src/gateway/upstream.rs:136-142 | a candidate is picked iff the draw lies in its interval |
| Shuffle.DrawsPerCandidate | src/gateway/upstream.rs:133-142 | exactly max(weight, 1) of the possible draws pick a candidate |
| Shuffle.EveryOrderPossible | src/gateway/upstream.rs:129-146 | every order is produced by some draws |
| Channels.ChannelTable.MarkCooldown | src/gateway/upstream.rs:156-178 | the named row cools for the backoff of the given level, at the next level; no other row changes |
| Channels.ChannelTable.ResetCooldown | src/gateway/upstream.rs:181-200 | the named row comes to rest unless the snapshot was at rest |
| Channels.ChannelTable.RunCooldownRecoveryOnce | src/jobs.rs:43-53 | exactly the rows whose deadline has passed become active and keep their level; they are counted |
| Channels.ChannelTable.Create | src/admin/channels.rs:91-134 | validation, and one row at rest |
| Channels.ChannelTable.Update | src/admin/channels.rs:162-215 | validation, not found, only the given fields changed, activation lifts the cooldown |
| Channels.CreateAccepts | src/admin/channels.rs:96-134 | a channel can be created iff type, name, credential, base URL and weight are valid; it starts at rest, field by field from the request |
| Channels.UpdateAccepts | src/admin/channels.rs:168-194 | a channel can be updated iff some field is given and each given one is valid |
| Channels.UpdateWrites | src/admin/channels.rs:171-209 | activation clears deadline and level and makes the channel routable, disabling keeps both and takes it out of routing, other fields are written as given |
| Channels.RecoversExactly | src/jobs.rs:43-53 | exactly the cooling rows whose deadline has come become active, with their level; the number returned is the number of rows changed |
| Channels.NormalizedIff | src/admin/channels.rs:54-69 | accepted iff the trimmed text is http(s)://, something, /v1 and slashes, as what stands before the slashes |
| Channels.NormalizedOnce | src/admin/channels.rs:56-69 | a normalized base URL is its own normal form and has no trailing slash |
| Channels.CandidatesAre | src/gateway/upstream.rs:221-232 | the candidates are exactly the loaded channels that are not cooling |
| Channels.ChannelTable.TryInOrder | src/gateway/upstream.rs:253-414 | the loop stops at the first definite answer; the rows are as `AfterForward` says |
| Channels.ChannelTable.Forward | src/gateway/upstream.rs:203-418 | attempts go down the shuffled order, each channel at most once, up to the first definite answer; failed channels cool at snapshot level + 1, the answering one is at rest, the others unchanged; no channel iff none is enabled, answered iff some usable channel would answer |
| Channels.FailoverByCode | src/gateway/upstream.rs:148-151 | 401, 403, 408, 429, 500 and above, network errors and decryption failures fail over and cool the channel at the next level; a forward is answered if a usable channel gives any other code, and only with such a code |
| Channels.ForwardLeaves | src/gateway/upstream.rs:335-369 | after a forward a failed channel is routable again iff its backoff has passed, at the next level; the answering one is active at level 0; the rest are untouched |
| Spacing.ForwardIsAttempt | src/gateway/upstream.rs:253-414 | what a forward does to one channel is a load and a failure, or a load and nothing |
| Spacing.RetrySpacing | src/gateway/upstream.rs:156-178 | failed attempt k + 1 comes no sooner than the first k backoffs after the first, wherever recoveries and edits fall: between forwards, or between the load, the attempt and its failure, with stamps older than later writes |
| Spacing.LoadSpacing | src/gateway/upstream.rs:216-232 | after k failures no forward even loads the channel as usable before those k backoffs are over |
| Spacing.DoublingSpacing | src/gateway/upstream.rs:153-155 | from level 0 those waits are min(base * 2^i, max) |
| Spacing.BackoffExactly | src/gateway/upstream.rs:159-164 | the wait is min(base * 2^level, max) at every level iff max <= base * 2^32 |
| Spacing.AttemptsBounded | src/config.rs:178-188 | where base * 2^m reaches max, the attempts within T seconds beyond the first m + 1 take max seconds each |
| Recovery.ForwardIsSteps | src/gateway/upstream.rs:216-236 | a forward acts on a channel as a load and then a failure, an answer or nothing |
| Recovery.OverlapWritesSnapshots | src/gateway/upstream.rs:253-257 | overlapping forwards write from their own snapshots: two failures from one level leave the next level once, and an answer from a snapshot at rest leaves a later cooldown alone |
| Recovery.ReachableSound | src/gateway/upstream.rs:156-200 | in every reachable state a cooling channel has a deadline and level at least one, and an active one has no deadline, overlapping forwards included |
| Recovery.CreatedStaysSound | src/admin/channels.rs:121-134 | so every channel an admin creates stays so |
| Recovery.RunsAlike | src/jobs.rs:43-53 | runs with and without recoveries are bisimilar, with forwards that overlap and write from old snapshots |
| Recovery.RecoveryInvisible | src/jobs.rs:38-53 | same routing at every later time, same level, same row after a failure |
| Recovery.RecoveryForgottenByAnswer | src/gateway/upstream.rs:181-200 | same row after an answer |
| Settlement.SettleOnEnd.PollNext | src/gateway/mod.rs:321-347 | a chunk passes the tap, the end settles once, everything is forwarded unchanged |
| Settlement.SettleOnEnd.Drop | src/gateway/mod.rs:349-362 | an unsettled stream is settled as a client abort, or given up without a runtime |
| Settlement.SettleOnEnd.Settle | src/gateway/mod.rs:288-311 | one settlement with the tap's final usage and its cost |
| Settlement.SettledExactlyOnce | src/gateway/mod.rs:314-362 | for every trace of polls ending in a drop with a live runtime, exactly one settlement, ok iff the end was polled, at the cost of what the tap read; without a runtime one iff the end was polled |
| Settlement.ErrorsIrrelevant | src/gateway/mod.rs:337-343 | an error item inserted anywhere in a stream changes nothing of its settlement |
| Settlement.StreamCost | src/gateway/upstream.rs:391-413 | if no line exceeds the cap, the stream is billed for the one-shot parse of the forwarded bytes |
| Settlement.RejectedRecord | src/gateway/mod.rs:94-120 | a request over budget is recorded as rejected, budget_exhausted, without cost, channel or bodies |
| Settlement.UnansweredRecord | src/gateway/mod.rs:146-171 | an unanswered one as upstream_error, upstream_failed, without cost or channel; without an enabled channel nothing is recorded |
| Settlement.PassedThroughRecord | src/gateway/mod.rs:179-203 | an answer outside 200..299 as upstream_error with its status in decimal, without cost, with channel and bodies |
| Settlement.BufferedRecord | src/gateway/mod.rs:204-228 | a success as ok, with the usage its body reports and that usage's cost at the model's prices |
| Settlement.StreamedRecord | src/gateway/mod.rs:229-247 | a streamed success as ok or client abort, with the usage the tap read and its cost |
| Settlement.Handle | src/gateway/mod.rs:92-257 | check, forward and settlement by branch; a rejected request touches no channel, an admitted one leaves the channels as its forward does |
| Settlement.RequestSettledOnce | src/gateway/mod.rs:92-257 | every request leaves exactly one record, except one within budget for which no channel is enabled; a charge implies that every active budget of key and owner counted less than its limit at the check, and a success of the channel recorded |
| EndToEnd.BufferedCharges | src/gateway/mod.rs:204-228 | a success that is not streamed raises every active budget of ("key", id) and the owner by the exact cost of the reported usage, leaves all else alone, and appends one record |
| EndToEnd.OthersChargeNothing | src/gateway/mod.rs:94-203 | every other request leaves all budgets alone and at most one record without cost |
| EndToEnd.StreamCharges | src/gateway/mod.rs:229-257 | however a stream was chunked and ended, its one settlement raises every active budget of key and owner by the exact cost of the one-shot parse, changes no other field but the start of an outdated period, no other budget and no earlier record, and appends one record with that cost |

## Left out

- HTTP, routing, authentication, model lookup, header and body rewriting; an upstream's answer is an input: a failed
  decryption, a network error, or a status code.
- SQLite itself. A failed transaction changes nothing and is `Lost` in `Overshoot`; failed channel writes, the branch that
  lets a request through when a budget cannot be read (src/billing.rs:211-216), and the branch that answers an internal error
  when channels cannot be read are not modelled.
- Budgets.Database.CheckBudgets: reads the budgets of all subjects at one moment; the source reads them one subject at a
  time. `BoundedOvershoot` needs only the read of the budget's own subject, whenever the others happen.
- Channels.ChannelTable.Forward: is one step on the table. What other writers do between its load, its attempts and their
  failures is modelled in `Recovery`, with forwards that overlap and write levels from old snapshots, and in `Spacing`, for
  forwards of one channel that do not overlap.
- Limiter.RateBound: is about logins of a key one at a time; `Logins` has the bound for concurrent logins, in intervals that
  begin more than 900 seconds after the Epoch. A successful login clears the key, and
  with it the count; both bounds are for keys that are not cleared.
- Settlement.Handle: takes audited bodies already truncated, and does not model latency and time-to-first-token.
- JSON parsing and lossy UTF-8 decoding: the tap takes them as unspecified functions of a line.
- Money.ParseCny: the texts of error messages are reduced to one constructor per message.
- Overflow of 64 bits in stored sums, in `now + backoff`, in the sum of weights, and in prompt minus cached tokens; the debug
  assertions on negative prices and costs; the usize width.
- Random numbers: the draws are inputs, each below the total weight of its round.
- Shutdown and drain timing, the counter of failed settlements, tracing, poisoned locks.
- Encryption and rotation of credentials, password hashing and sessions.
- Users, teams, keys, models, reports and listings, and the details recorded in audit events; the budget created with a key
  (src/admin/keys.rs:223-243) is a `Create` event.
