# Verification of the toss-trading core

A Dafny model of the parts of the toss-trading repository whose correctness cannot be read off one branch, and
machine-checked proofs about it. `dafny verify dfyconfig.toml` checks the whole project.

Source code that changes state is modelled as classes and methods with loops; every such method is proved against a
function of its inputs or of the old state, and the properties are proved about those functions over all inputs, all
runs or all reachable states.

| component | modules |
|---|---|
| token leases shared by concurrent callers | `AuthClient`, `LeaseProtocol`, `LeaseTheorems`, `LeaseMeaning` |
| child-process runner | `ProcessRunner`, `ProcessSignals` |
| Sharpe statistics | `LoInflation`, `LoInflationSharp`, `SharpeMoments`, `SharpeMomentsSharp`, `SharpeMomentsRounded` |
| replay provenance reader and the writer it reads | `ReplayProvenance`, `ReplayMeaning`, `ReplayWriter` |
| JSON recovery from noisy output | `JsonScanner`, `ScannerMeaning` |
| portfolio arithmetic of the dashboard and the backend | `FifoLots`, `FifoProfit`, `Drawdown`, `Timeline` |
| scans and classifiers | `LatestTests`, `Linkage`, `MarketRegime`, `RegimeMeaning` |
| paper policies and their test matrix | `PolicyValidation`, `PolicyMeaning`, `PolicyMatrix`, `MatrixMeaning` |
| shared arithmetic, sequence, text and market definitions | `Numbers`, `Sequences`, `Texts`, `Markets` |

## What the proofs found

- **Lo variance inflation.** Before its coefficients are rounded the factor is a sum of squares, and positive for every
  real span q up to L + 1, where L is the number of lags. The bound is exact: for every longer span there is a return
  sequence with a negative factor (`LoInflationSharp.PositiveExactlyWithinLags`). With the rounded coefficients, the only
  ones the source has, it stays above minus L half-millionths up to that span and is negative for some returns once
  q - (L + 1) exceeds 2 L q millionths. The source guards the case with a null result.
- **Sharpe denominator.** For a sample of n returns with Sharpe ratio S it is, before rounding, at least
  1/n - S S (2n - 1) / (4 n n), whatever the shape of the sample, so it is positive while S S (2n - 1) < 4n. Over all
  samples the bound is exact: it always is positive if and only if S S <= 2
  (`SharpeMomentsSharp.PositiveExactlyUpToRootTwo`). Four returns of -3 %, -3 %, -3 % and -7 % attain the bound below
  zero. With both moments rounded, as the source has them, some sample is refused for every S S >= 2.1
  (`SharpeMomentsRounded.RoundedSteepSharpeFails`).
- **Provenance reader.** The comment on the log says that a sequential append produces a prefix. The writer's `try` block
  also covers two appends. When the one that follows the run row fails, a second row is appended for the same run. When
  the append of a completed run's own row fails, the log gets a failed row alone, while the counts of later manifests
  include the completed one: the log then holds every run once and the reader still refuses the next manifest
  (`ReplayWriter.LostRowRefusesSequentialLog`). The reader accepts a batch at every moment exactly when no run was
  recorded twice and no manifest was written after a completed row was lost
  (`ReplayWriter.ReaderNeverRefusesExactly`). For one manifest and one log the condition is that no run is recorded twice
  and as many completed rows were appended since as had been lost before.
- **FIFO lots.** A lot that a sell cuts down to a billionth of a unit or less is thrown away with its cost. The lots
  follow the cumulative cost curve all along a history if and only if no sell does that
  (`FifoLots.LotsFollowCurveExactly`). With whole units it never happens; `FifoLots.DustLosesCost` is a fractional
  history where it changes the profit. In every history the units and won bought are those held, those taken by sells and
  that dust (`FifoLots.LotsConserve`).
- **Bounded timeline.** The 1500 stored points are the end of the uncut timeline all along a history if and only if no
  write revives a tie: an evicted key written again at the time of the earliest stored point
  (`Timeline.BoundedRefinesFullExactly`).
- **Drawdown.** The running peak finds the largest fall over all pairs on every curve with values above a bound if and
  only if the bound is not negative; a curve with a negative value can hide a larger fall from a lower start.
- **Policy matrix.** A valid policy can still be refused as a matrix: the hedge policy's own target may be zero while
  the hedge bucket has a target within the tolerance. A well-formed matrix request is queued exactly when the policy is
  valid, its other settings pass and the hedge policy's target is positive whenever the hedge bucket is enabled.
- **Decision linkage.** Items and trades are linked by keys joined with colons. An item shares its key with another one
  if and only if a market between colons stands at a second place of packet id, market and symbol. Linked items are the
  items that decisions and trades have in common, for every list of trades, if and only if no buying or selling
  decision is such an item (`Linkage.LinkedAreCommonExactly`).

## Conventions

Numbers are exact: a JavaScript number is a `real`, `Math.round` rounds ties up, `toFixed(6)` rounds ties away from zero,
and every statement about a rounded value names its error bound. `Option.None` is the source's `null`, a value that is
not finite or a thrown error, as each module says. A `char` is a Unicode scalar value, so lengths and cuts of
texts are those of the source inside the basic plane. A standard deviation is given as the non-negative root of the
variance. Protocols are state machines over atomic steps: in `LeaseProtocol` each step runs from one `await` to the next, continuations run in the order they were queued, and the issuer, the server and
the clock are unconstrained; in `ProcessRunner` an event carries its time, and timers fire when they are due.

## Model

| member | source | states |
|---|---|---|
| `AuthClient.TokenLeaseClient.constructor` | src/broker/tossOpenApiAuthClient.ts:60-70 | a new client has no lease, no pending issue and generation 0 |
| `AuthClient.TokenLeaseClient.EnterGetTokenLease` | src/broker/tossOpenApiAuthClient.ts:82-112 | a configuration that is not ready is refused and changes nothing; otherwise the cached lease is returned exactly when it expires later than now plus the margin; else the caller joins the pending issue or opens the only new one, dated by its own clock reading |
| `AuthClient.TokenLeaseClient.SettleIssue` | src/broker/tossOpenApiAuthClient.ts:111-132 | a good answer takes the next generation and becomes the cached lease; a bad one, or an exhausted counter, changes neither |
| `AuthClient.TokenLeaseClient.FinishGetTokenLease` | src/broker/tossOpenApiAuthClient.ts:96-100 | the pending slot is cleared only when it still holds the waiter's own issue |
| `AuthClient.TokenLeaseClient.InvalidateTokenLease` | src/broker/tossOpenApiAuthClient.ts:103-109 | the cached lease is evicted exactly when its generation is the given one |
| `LeaseProtocol.StepKeepsInvariant` | src/broker/tossOpenApiReadOnlyHttpClient.ts:107-140 | every atomic step of any number of callers keeps the protocol invariant |
| `LeaseProtocol.EvictionFindsSlotCleared` | src/broker/tossOpenApiAuthClient.ts:93-109 | when a holder of the newest lease evicts it, the pending slot no longer holds the promise of that lease |
| `LeaseTheorems.ReachableKeepsInvariant` | src/broker/tossOpenApiCalendarNetworkTransport.ts:154-178 | the invariant holds in every state of every interleaving of both kinds of callers |
| `LeaseTheorems.SingleFlight` | src/broker/tossOpenApiAuthClient.ts:93 | at every moment at most one issuer call is outstanding, and the pending slot names it |
| `LeaseTheorems.SlotClearedOnlyByOwnWaiter` | src/broker/tossOpenApiAuthClient.ts:94-100 | the pending slot is emptied only by a waiter of the issue it names, after that issue settled |
| `LeaseTheorems.ClientCanIssueAgain` | src/broker/tossOpenApiAuthClient.ts:82-121 | after any successes and failures, once nobody waits a call without a usable lease opens a new issue |
| `LeaseTheorems.LeaseChain` | src/broker/tossOpenApiAuthClient.ts:103-132 | generations strictly increase, each is evicted at most once and after its issue, and lease k + 1 is issued only after lease k was evicted or found expired |
| `LeaseTheorems.EveryGenerationIssued` | src/broker/tossOpenApiAuthClient.ts:123-132 | generations have no gaps |
| `LeaseTheorems.EvictedOnlyByItsHolder` | src/broker/tossOpenApiReadOnlyHttpClient.ts:112-117 | the cache loses a lease only to a caller holding that very generation and told its token is refreshable, with one logged eviction |
| `LeaseTheorems.AtMostTwoSends` | src/broker/tossOpenApiReadOnlyHttpClient.ts:107-122 | every caller sends at most two requests, the second with a strictly newer generation |
| `LeaseTheorems.SchedulesAreFinite` | src/broker/tossOpenApiReadOnlyHttpClient.ts:107-140 | n callers take at most 21 n atomic steps under every schedule |
| `LeaseTheorems.NobodyStuck` | src/broker/tossOpenApiCalendarNetworkTransport.ts:154-178 | while a caller is not done some step other than an arrival is possible |
| `LeaseMeaning.CacheDecides` | src/broker/tossOpenApiAuthClient.ts:82-101 | in every schedule a call is served from the cache exactly when the cached lease expires later than now plus the margin; else it joins the pending issue or opens a new one |
| `LeaseMeaning.ExpiredMeansExpired` | src/broker/tossOpenApiAuthClient.ts:138-142 | a lease is passed over as expired only when its expiry date is invalid or no later than now plus the margin |
| `LeaseMeaning.ReplyDecides` | src/broker/tossOpenApiAuthClient.ts:111-132 | a good token becomes the cached lease of the next generation, dated its lifetime after the issue started; any other answer rejects the issue and changes nothing else |
| `LeaseMeaning.HeldLeaseIsDated` | src/broker/tossOpenApiAuthClient.ts:111-121 | every lease a caller ever holds was issued for a token, and expires that token's lifetime after the clock reading of the call that opened its issue |
| `LeaseMeaning.WakeDecides` | src/broker/tossOpenApiAuthClient.ts:93-100 | a waiter gets the lease its own issue resolved to or fails with it, and clears only its own slot |
| `LeaseMeaning.SendDecides` | src/broker/tossOpenApiReadOnlyHttpClient.ts:124-140 | a caller sends with the lease it was given, unless a calendar caller finds it unusable |
| `LeaseMeaning.HandleDecides` | src/broker/tossOpenApiReadOnlyHttpClient.ts:111-122 | an answer that asks for a new token evicts the caller's own lease, if it still is the cached one, and leads to a second attempt after the first only |
| `LeaseMeaning.RefreshableAnswerRetries` | src/broker/tossOpenApiReadOnlyHttpClient.ts:111-122 | a caller whose first answer asks for a new token sends again before it is done, unless its second attempt gets no usable lease |
| `LeaseMeaning.FirstComeFirstServed` | src/broker/tossOpenApiAuthClient.ts:93-101 | of the callers that can continue one that was queued first does, waiters counting from the settlement of their issue |
| `ProcessRunner.CheckLimits` | src/ai/processRunner.ts:39-46 | limits are accepted exactly within the source's ranges |
| `ProcessRunner.ProcessRun.constructor` | src/ai/processRunner.ts:56-66 | a spawned child starts unsettled with the execution timer armed |
| `ProcessRunner.ProcessRun.FinishRun` | src/ai/processRunner.ts:68-91 | the first call settles the result and disarms all timers; later calls change nothing |
| `ProcessRunner.ProcessRun.SendSignal` | src/ai/processRunner.ts:93-99 | a signal is requested only while the child can still be reached, and a failed request is remembered |
| `ProcessRunner.ProcessRun.StopRun` | src/ai/processRunner.ts:101-112 | the first failure drops the output, swaps the execution timer for the grace timer and requests SIGTERM |
| `ProcessRunner.ProcessRun.OnData` | src/ai/processRunner.ts:114-121 | a chunk is kept when it fits its cap, else it stops the run |
| `ProcessRunner.ProcessRun.OnError` | src/ai/processRunner.ts:126-133 | an error means a failed spawn, a failed termination request or a failing process, by state |
| `ProcessRunner.ProcessRun.OnGraceTimer` | src/ai/processRunner.ts:107-110 | the grace timer arms the kill timer and requests SIGKILL |
| `ProcessRunner.FlattenChunks` | src/ai/processRunner.ts:85-86 | collected chunks are concatenated in order |
| `ProcessRunner.OneTimerArmed` | src/ai/processRunner.ts:64-112 | for any order of events exactly one timer is armed until the run settles and none afterwards |
| `ProcessRunner.SettledByDeadline` | src/ai/processRunner.ts:66-112 | whatever the child does, the run has settled before anything happens past timeout + termination grace + kill grace |
| `ProcessRunner.TimersAloneSettle` | src/ai/processRunner.ts:66-112 | from any unsettled run the timers alone bring the result by the deadline |
| `ProcessRunner.SettlesOnce` | src/ai/processRunner.ts:68-70 | a result never changes |
| `ProcessRunner.SignalsBounded` | src/ai/processRunner.ts:93-112 | at most one SIGTERM and then at most one SIGKILL are requested |
| `ProcessRunner.NoSignalAfterExitOrSettlement` | src/ai/processRunner.ts:93-95 | no signal is requested after exit, without a process or after settlement |
| `ProcessRunner.OutputBounded` | src/ai/processRunner.ts:114-121 | collected bytes are exactly the delivered ones and never exceed either cap |
| `ProcessRunner.SettlementIsExact` | src/ai/processRunner.ts:85-88 | a result without a failure closed with everything delivered in order; a failure has empty output |
| `ProcessRunner.UnfailedExactlyWhenClean` | src/ai/processRunner.ts:101-140 | for any events at all, timers included, the run is unsettled and unfailed exactly when it has not closed, no error was reported, the execution timer has not fired and both streams kept to their caps |
| `ProcessRunner.EndsUnfailedExactly` | src/ai/processRunner.ts:68-140 | a run ends without a failure if and only if it closes after such events |
| `ProcessRunner.FirstFailureDecides` | src/ai/processRunner.ts:101-133 | the first event that is not clean decides the failure of a started child for good: a timeout for the execution timer, a limit for a chunk too many, else a process error |
| `ProcessSignals.FailureArms` | src/ai/processRunner.ts:103-112 | from its first failure until its grace timer or its end a run waits for the grace timer, due that long after the failure; SIGTERM was requested at the failure unless the child was gone |
| `ProcessSignals.GraceArms` | src/ai/processRunner.ts:107-110 | from its grace timer until its kill timer or its end a run waits for the kill timer, due that long after; SIGKILL was requested then unless the child was gone |
| `ProcessSignals.KillRequestStays` | src/ai/processRunner.ts:94-112 | however a run goes on after its grace timer, each signal is among the requests if and only if the child was not gone at its moment |
| `ProcessSignals.KillTimerEnds` | src/ai/processRunner.ts:108 | the kill timer settles the run as unconfirmed, with the exit code known by then, and this is its whole result |
| `ProcessSignals.EndsExactly` | src/ai/processRunner.ts:66-92 | a result comes from the close, from the error of a child that never started, or from the kill timer after the two others |
| `ProcessSignals.KilledBeforeGivenUp` | src/ai/processRunner.ts:94-112 | a started child that is given up on got SIGTERM and then SIGKILL unless it was gone at one of the two moments |
| `ProcessSignals.CleanResult` | src/ai/processRunner.ts:66-92 | a run that closes after clean events has everything delivered, its exit code and no failure |
| `ProcessSignals.FailedResult` | src/ai/processRunner.ts:66-92 | a failed run that closes has no output, the reason of its first failure and its exit code, and says whether a request failed |
| `LoInflation.AutocorrelationAtLag` | src/analytics/sharpeValidation.ts:1034-1051 | the loop computes the rounded ratio of the lagged to the total sum of squared deviations, or null |
| `LoInflation.SummarizeAutocorrelation` | src/analytics/sharpeValidation.ts:1005-1032 | one coefficient per lag from 1 to the smaller of the maximum and n - 1 |
| `LoInflation.EnergyIsTriangle` | src/analytics/sharpeValidation.ts:989-999 | q times the variance plus twice the triangle-weighted autocovariances is the sum of all squared q-windows |
| `LoInflation.InflationIsSumOfSquares` | src/analytics/sharpeValidation.ts:983-1003 | the factor scaled by span and variance is a weighted average of two sums of squared windows |
| `LoInflation.InflationPositive` | src/analytics/sharpeValidation.ts:983-1003 | the unrounded factor is positive for any returns and any real span up to L + 1 |
| `LoInflation.RoundedInflationMargin` | src/analytics/sharpeValidation.ts:983-1032 | for any span up to L + 1, given or default, rounding the coefficients moves the factor by at most L half-millionths, so it stays above minus that |
| `LoInflationSharp.LongSpanFails` | src/analytics/sharpeValidation.ts:989-1001 | for every span above the lags plus one some returns make the unrounded factor negative |
| `LoInflationSharp.RoundedLongSpanFails` | src/analytics/sharpeValidation.ts:983-1032 | with rounded coefficients too, once the span exceeds the lags plus one by more than rounding can make up for |
| `LoInflationSharp.PositiveExactlyWithinLags` | src/analytics/sharpeValidation.ts:466-476 | the unrounded factor passes the guard for all long enough returns if and only if the span is at most the lags plus one |
| `SharpeMoments.StandardizedMoments` | src/analytics/sharpeValidation.ts:1053-1081 | standardized values sum to zero and their squares to n - 1 |
| `SharpeMoments.KurtosisBound` | src/analytics/sharpeValidation.ts:1053-1081 | for four or more values kurtosis is at least n / (n - 1) times skewness squared plus ((n - 1) / n) squared |
| `SharpeMoments.DenominatorBound` | src/analytics/sharpeValidation.ts:803-813 | the denominator is a perfect square up to S squared (2n - 1) / (4 n squared) |
| `SharpeMoments.DenominatorAtLeast` | src/analytics/sharpeValidation.ts:803-813 | whatever the sample's shape the denominator is at least 1 / n less that margin |
| `SharpeMoments.LeastTermSign` | src/analytics/sharpeValidation.ts:803-813 | this least value is positive exactly when S squared (2n - 1) is below 4n, and zero when they are equal |
| `SharpeMoments.DenominatorPositive` | src/analytics/sharpeValidation.ts:797-813 | under that condition on size and Sharpe ratio alone the denominator passes the guard |
| `SharpeMoments.RoundedDenominatorAtLeast` | src/analytics/sharpeValidation.ts:785-813 | with rounded moments the same less a stated slack: the non-positive guard fires only where the least value is within the slack |
| `SharpeMoments.RoundedDenominatorBound` | src/analytics/sharpeValidation.ts:785-813 | with rounded moments the perfect square up to margin and slack |
| `SharpeMoments.DenominatorCanBeNegative` | src/analytics/sharpeValidation.ts:803-813 | four returns that attain the least value, below zero |
| `SharpeMomentsSharp.DenominatorIsDistance` | src/analytics/sharpeValidation.ts:803-813 | n times the denominator is 1 - S squared / 2 plus a multiple of the values' squared distance from a quadratic |
| `SharpeMomentsSharp.SteepSharpeFails` | src/analytics/sharpeValidation.ts:803-813 | for every Sharpe ratio with S squared above two some sample with it has a negative denominator |
| `SharpeMomentsSharp.PositiveExactlyUpToRootTwo` | src/analytics/sharpeValidation.ts:797-813 | every sample of four or more returns with Sharpe ratio S has a positive denominator if and only if S squared is at most two |
| `SharpeMomentsRounded.RoundedSteepSharpeFails` | src/analytics/sharpeValidation.ts:785-813 | with both moments rounded some sample with Sharpe ratio S is refused whenever S squared is at least 2.1 |
| `SharpeMoments.FlatExactlyWhenNoVariance` | src/analytics/sharpeValidation.ts:1216-1225 | the early return for equal values is taken exactly when the variance is zero |
| `SharpeMoments.MomentsExistExactly` | src/analytics/sharpeValidation.ts:1053-1081 | the skewness exists exactly for three or more values that are not all equal, the excess kurtosis for four or more |
| `ReplayProvenance.Budget.Charge` | src/api/replayProvenanceReader.ts:26-38 | a file is read exactly when it fits its cap and the remaining bytes, which then shrink by its size |
| `ReplayProvenance.ScanLines` | src/api/replayProvenanceReader.ts:99-122 | the line loop accepts exactly the logs whose rows agree with the manifest and one another |
| `ReplayProvenance.CheckBatch` | src/api/replayProvenanceReader.ts:94-137 | the checks after the last line pass exactly for consistent batches, and a run is found exactly when a line of the log or the active run has the requested id, the logged one first |
| `ReplayProvenance.ScanEntry` | src/api/replayProvenanceReader.ts:86-137 | a directory entry is accepted exactly when it is sound and fits the byte budget |
| `ReplayProvenance.Scan` | src/api/replayProvenanceReader.ts:79-141 | a directory is accepted exactly when every entry is sound, the limits hold and at most one batch has the run; something is found exactly when a batch has it, logged or active, and the match names that batch, that identity and whether it is only active |
| `ReplayProvenance.OrderIndependent` | src/api/replayProvenanceReader.ts:84-139 | success and match do not depend on the directory order |
| `ReplayProvenance.AtMostOneHolder` | src/api/replayProvenanceReader.ts:134-137 | two entries of an accepted directory never both have the requested run, logged or active |
| `ReplayProvenance.IndicesExact` | src/api/replayProvenanceReader.ts:115-131 | in an accepted batch the row indices are 0 to n - 1, each once, and run ids are distinct |
| `ReplayProvenance.TerminalCountsSum` | src/api/replayProvenanceReader.ts:125-127 | the counts of an accepted terminal manifest are those of its log and sum to the run count |
| `ReplayMeaning.BatchMeaning` | src/api/replayProvenanceReader.ts:49-136 | a batch is consistent exactly when it is sound, told by the manifest's fields, the lines of the log and how many of them have which status |
| `ReplayMeaning.AcceptedExactly` | src/api/replayProvenanceReader.ts:79-141 | a directory is accepted exactly when it has at most 256 entries, every batch is sound and within its file limits, at most 8 MiB are read and at most one batch has the requested run |
| `ReplayWriter.RunIdsDistinct` | src/workflows/historicalBatchReplayWorkflow.ts:1621-1631 | runs of one batch have distinct ids whatever their windows |
| `ReplayWriter.ReflectedIsConsistent` | src/api/replayProvenanceReader.ts:60-136 | a manifest written after the first k rows of a sequential log passes every check against the whole log exactly when the log has as many more completed rows as had been lost |
| `ReplayWriter.LogOnlyGrows` | src/workflows/historicalBatchReplayWorkflow.ts:1549-1561 | rows are only appended and nothing follows the terminal manifest |
| `ReplayWriter.ReaderAcceptsExactly` | src/workflows/historicalBatchReplayWorkflow.ts:551-850 | a manifest seen at any moment passes against the log seen then or later if and only if no run was recorded twice and as many completed rows were appended since the manifest was written as had been lost before |
| `ReplayWriter.ReaderNeverRefusesExactly` | src/workflows/historicalBatchReplayWorkflow.ts:551-850 | every manifest passes against every log seen then or later if and only if no run was recorded twice and no manifest was written after a lost row |
| `ReplayWriter.LossIsRefused` | src/workflows/historicalBatchReplayWorkflow.ts:750-806 | a manifest written after a completed row was lost is refused at that moment |
| `ReplayWriter.LostRowRefusesSequentialLog` | src/workflows/historicalBatchReplayWorkflow.ts:750-806 | losing the first run's completed row makes the reader refuse a log that holds every run once |
| `ReplayWriter.RefailedRunIsRefused` | src/workflows/historicalBatchReplayWorkflow.ts:750-806 | a failed append after the first run's completed row records that run twice, and the reader refuses the log it accepted before |
| `JsonScanner.FindJsonObjectEnd` | src/ai/codexCliDecisionProvider.ts:319-357 | the loop stops where the depth, string and escape automaton first completes an object, or returns -1 |
| `JsonScanner.ExtractJsonObjectCandidates` | src/ai/codexCliDecisionProvider.ts:301-317 | candidates start at each brace that is outside the previous candidate and is closed |
| `JsonScanner.CandidatesAreDisjointAndMinimal` | src/ai/codexCliDecisionProvider.ts:301-317 | candidates are disjoint pieces in order, each closed at its last character and not before |
| `JsonScanner.ValueIsNeutral` | src/ai/codexCliDecisionProvider.ts:327-350 | scanning any JSON text inside an object returns the automaton to its state |
| `JsonScanner.ObjectEndFindsPrintedObject` | src/ai/codexCliDecisionProvider.ts:319-357 | from the opening brace of any JSON object text, whatever surrounds it, the scanner returns its last character |
| `JsonScanner.ExtractRecoversObjects` | src/ai/codexCliDecisionProvider.ts:301-317 | output of JSON objects between pieces without an opening brace yields exactly those objects in order |
| `JsonScanner.ParseVirtualDecision` | src/ai/codexCliDecisionProvider.ts:269-299 | the decision is the first acceptable text among the whole output and the candidates |
| `JsonScanner.DecisionIsFirstAcceptedObject` | src/ai/codexCliDecisionProvider.ts:269-283 | among printed objects in brace-free noise it is the first one the schema accepts |
| `JsonScanner.PrintScanRoundTrip` | src/ai/codexCliDecisionProvider.ts:301-357 | printing any object value with standard escaping and scanning it finds exactly its text, as the first candidate |
| `ScannerMeaning.ClosedExactly` | src/ai/codexCliDecisionProvider.ts:319-357 | any text is an object to the scanner exactly when it is an opening brace up to the first point where every brace outside of strings is closed again |
| `ScannerMeaning.CandidatesExactly` | src/ai/codexCliDecisionProvider.ts:301-317 | for every output, noise with braces included, the candidates are the parts of the one way to cut it so that no object could be closed from a place between them |
| `ScannerMeaning.FirstParsedMeaning` | src/ai/codexCliDecisionProvider.ts:269-299 | the decision is that of the first text that is not empty and is accepted, and there is none exactly when no text is |
| `FifoLots.ConsumeLots` | dashboard/portfolioModel.js:111-126 | the inner loop takes a quantity from the oldest lots first and cuts the last one in proportion |
| `FifoProfit.RealizedPnlFromTrades` | dashboard/portfolioModel.js:71-139 | no trades give null, explicit profits are summed, else for trades in any order the profit is that of booking them earliest first, ties as given |
| `FifoProfit.TimeOrderIsBooked` | dashboard/portfolioModel.js:84-87 | there is exactly one rearrangement of the trades that is earliest first and keeps ties, and it is the one that is booked |
| `FifoProfit.OversellAdds` | dashboard/portfolioModel.js:109-134 | a sell of all that is held or more takes the whole cost and pays its own known price for an excess above a billionth of a unit |
| `FifoProfit.CoveredSellAdds` | dashboard/portfolioModel.js:109-134 | a sell of no more than is held pays the cost of the lots it takes and nothing else |
| `FifoProfit.GainInAnyOrder` | dashboard/portfolioModel.js:84-139 | a purchase and a later sale realize the gain whichever is listed first |
| `FifoLots.TakeFollowsCurve` | dashboard/portfolioModel.js:111-126 | taking from the lots left at c costs the cumulative curve between c and where the sale ends |
| `FifoLots.UncleanCutLosesLot` | dashboard/portfolioModel.js:117-125 | a sell that cuts a lot to a billionth or less leaves fewer lots than the curve |
| `FifoLots.LotsFollowCurve` | dashboard/portfolioModel.js:82-138 | without such a sell the lots of every symbol are what the curve leaves after the units consumed |
| `FifoLots.LotsFollowCurveExactly` | dashboard/portfolioModel.js:82-138 | the lots of every symbol follow the curve after every trade of a history if and only if no sell cuts a lot to dust |
| `FifoLots.LotsRealizeCurve` | dashboard/portfolioModel.js:82-138 | then the realized profit equals the one computed from the curve, oversells included |
| `FifoLots.TotalBasisIsCurve` | dashboard/portfolioModel.js:82-138 | without dust the cost the sells of a symbol take from its lots is the curve at the units they used, however they are split or interleaved |
| `FifoLots.SplittingChangesNothing` | dashboard/portfolioModel.js:82-138 | covered histories without dust with the same purchases and total sold take the same cost from their lots |
| `FifoLots.TakeConserves` | dashboard/portfolioModel.js:108-126 | a sell splits units and won of the lots into held, taken and dust, and its dust is at most a billionth of a unit |
| `FifoLots.LotsConserve` | dashboard/portfolioModel.js:82-138 | after every history the units and won bought of a symbol are those held, those taken by its sells and the dust, at most a billionth of a unit per sell |
| `FifoLots.WithinHalfWonPerSell` | dashboard/portfolioModel.js:128-134 | rounding moves the realized profit by at most half a won per sell |
| `FifoLots.WholeUnitsLeaveNoDust` | dashboard/portfolioModel.js:117-124 | with whole quantities no lot is ever thrown away as dust |
| `FifoLots.WholeUnitsRealizeCurve` | dashboard/portfolioModel.js:82-138 | with whole quantities the booked profit is the curve's over the same time order, within half a won per sell of the exact value |
| `FifoLots.DustLosesCost` | dashboard/portfolioModel.js:117-124 | a fractional history whose dust lot loses its cost |
| `Drawdown.MaxDrawdownRatio` | dashboard/portfolioModel.js:234-248 | the dashboard loop computes the worst fall below the running peak of the finite values |
| `Drawdown.CalculateMaxDrawdownRatio` | src/analytics/performanceMetrics.ts:280-299 | the backend loop computes the same fall, negated and rounded |
| `Drawdown.OnlyFiniteValuesCount` | dashboard/portfolioModel.js:234-248 | a value that is not finite is skipped wherever it stands and every other is kept in its place |
| `Drawdown.VersionsAgree` | src/analytics/performanceMetrics.ts:280-299 | on one curve the two differ only in sign and by the backend's rounding |
| `Drawdown.RunningPeakFindsLargestPair` | dashboard/portfolioModel.js:234-248 | on a non-negative curve the result is the largest fall over all pairs, floored at zero and at most one |
| `Drawdown.NegativeValuesDiffer` | dashboard/portfolioModel.js:234-248 | for every negative value a curve ending in it where the running peak misses the largest fall |
| `Drawdown.LargestPairExactlyAboveZero` | dashboard/portfolioModel.js:234-248 | all curves above a bound have the largest fall over all pairs as their drawdown if and only if the bound is not negative |
| `Drawdown.StartAddsItsFalls` | src/analytics/performanceMetrics.ts:264-278 | putting the starting net worth in front of a non-negative timeline adds exactly the falls below it to the drawdown |
| `Drawdown.TickReturns` | src/analytics/performanceMetrics.ts:301-311 | one return per step, skipping steps from a non-positive value |
| `Drawdown.ReturnsCompoundToLast` | src/analytics/performanceMetrics.ts:301-311 | compounding the returns of a positive curve from its first value ends at its last |
| `Timeline.PerformanceState.RememberPerformancePoint` | dashboard/portfolioModel.js:141-157 | a point replaces the one with its key or is added, then the list is sorted and cut to its capacity |
| `Timeline.FullTimelineIsLastWriteWins` | dashboard/portfolioModel.js:141-157 | without the cut the timeline is sorted, has every key once and holds exactly the last write of every key, ties in time included |
| `Timeline.TiesStandInFirstOrder` | dashboard/portfolioModel.js:141-157 | without the cut points of one time stand in the order in which their keys were first written |
| `Timeline.CutCommutes` | dashboard/portfolioModel.js:150-156 | cutting before a write gives what cutting after it gives, exactly when the write does not revive an evicted key at the time of the earliest stored point |
| `Timeline.BoundedRefinesFullExactly` | dashboard/portfolioModel.js:141-157 | the stored points are the last 1500 of the uncut timeline after every write of a history if and only if no write revives such a tie |
| `Timeline.BoundedRefinesFull` | dashboard/portfolioModel.js:141-157 | with one time per key they always are, evicted keys included |
| `Timeline.RevivedTieDiffers` | dashboard/portfolioModel.js:150-156 | one point more than fits, all of one time, and the first written again |
| `Timeline.StoredPointsAreLatest` | dashboard/portfolioModel.js:141-157 | after any history, ties in time included, the stored points are last writes of distinct keys in time order, and a last write that is missing is no later than any of the 1500 that are stored |
| `LatestTests.LatestActiveStrategyBucketTests` | src/api/dashboardViewModels.ts:2349-2376 | the early-exit scan returns the first limit of the latest active records |
| `LatestTests.LatestStrategyBucketTestResults` | src/api/dashboardViewModels.ts:2378-2409 | the early-exit scan returns the results of the first limit of the latest terminal records |
| `LatestTests.LatestStrategyBucketTestById` | src/api/dashboardViewModels.ts:2499-2516 | the lookup returns the newest parseable record of the id |
| `LatestTests.NewestFirst` | src/api/dashboardViewModels.ts:2349-2409 | the full list holds exactly the records that are the latest of their test with a wanted status, newest first |
| `LatestTests.ActiveTestsTold` | src/api/dashboardViewModels.ts:2349-2376 | the active list shows the latest records with status queued or running, newest first, as many as the limit allows |
| `LatestTests.ResultsTold` | src/api/dashboardViewModels.ts:2378-2435 | the result list shows the fields of the latest completed, failed and cancelled records, and an added warning exactly for an unfinished test without one |
| `LatestTests.ListedTestsAreFound` | src/api/dashboardViewModels.ts:2499-2516 | looking up a listed test finds the very summary that is listed |
| `LatestTests.ListedTestsAreDistinct` | src/api/dashboardViewModels.ts:2349-2409 | no test is listed twice |
| `LatestTests.ListsAreDisjoint` | src/api/dashboardViewModels.ts:2349-2409 | no test is in both the active and the result list, whatever the limits |
| `Linkage.CountTrades` | src/analytics/paperPortfolioAnalytics.ts:172-175 | the first loop counts the trades of every key |
| `Linkage.LinkItems` | src/analytics/paperPortfolioAnalytics.ts:177-184 | the greedy loop links the multiset intersection and leaves the difference |
| `Linkage.BuildDecisionTradeLinkage` | src/analytics/paperPortfolioAnalytics.ts:160-196 | linked is the size of the multiset intersection of the keys, and linked plus unlinked, or plus unmatched, give the two totals |
| `Linkage.JoinedKeyDecides` | src/analytics/paperPortfolioAnalytics.ts:164-171 | of two items without colons in their symbols equal keys mean equal packet, market, symbol and action |
| `Linkage.SharedExactlyWhenAmbiguous` | src/analytics/paperPortfolioAnalytics.ts:164-171 | an item shares its key with another one if and only if a market between colons stands at a second place of packet id, market and symbol |
| `Linkage.LinkedAreCommonItems` | src/analytics/paperPortfolioAnalytics.ts:160-196 | without ambiguous buying or selling decisions as many items are linked as decisions and trades have in common |
| `Linkage.LinkedAreCommonExactly` | src/analytics/paperPortfolioAnalytics.ts:160-196 | that holds for every list of trades if and only if no buying or selling decision is ambiguous |
| `Linkage.ColonsCollide` | src/analytics/paperPortfolioAnalytics.ts:164-171 | a colon in a symbol can link an item to a trade of another packet |
| `MarketRegime.GroupBySymbol` | src/analytics/marketRegimeClassifier.ts:263-277 | the loop groups the snapshots by market and symbol, groups in order of first appearance and members in order |
| `MarketRegime.KeyDecides` | src/analytics/marketRegimeClassifier.ts:263-277 | snapshots share a group key exactly when they share market and symbol |
| `MarketRegime.ClassifyMarketRegime` | src/analytics/marketRegimeClassifier.ts:71-155 | label, reason, counts, mean and breadth of the windowed, sorted and grouped snapshots, or an error for invalid options |
| `MarketRegime.ClassifyMarketRegimeByMarket` | src/analytics/marketRegimeClassifier.ts:157-183 | one classification for each market with snapshots in the window, of that market's snapshots alone |
| `MarketRegime.GroupMeaning` | src/analytics/marketRegimeClassifier.ts:94-100 | a group is the symbol's snapshots in the window, all of them, in time order |
| `RegimeMeaning.ReturnMeaning` | src/analytics/marketRegimeClassifier.ts:244-261 | every return names one symbol, the earliest and the latest of all its snapshots in the window and their count, and its ratio takes the first price to the last within half a millionth, with its sign |
| `RegimeMeaning.ReturnsSorted` | src/analytics/marketRegimeClassifier.ts:303-312 | the returns stand by market and then by the collation order of their symbols |
| `RegimeMeaning.RatiosMeaning` | src/analytics/marketRegimeClassifier.ts:120-132 | the mean is that of the returns and the three shares are those of the rising, falling and unchanged ones, each within half a millionth |
| `RegimeMeaning.LabelMeaning` | src/analytics/marketRegimeClassifier.ts:106-242 | label and reason are decided by the ratios and the thresholds, and are insufficient exactly with too few returns |
| `RegimeMeaning.NoRiseIsNeverBull` | src/analytics/marketRegimeClassifier.ts:71-155 | a window in which no price rose is never bull under a positive threshold |
| `RegimeMeaning.NoFallIsNeverBear` | src/analytics/marketRegimeClassifier.ts:71-155 | a window in which no price fell is never bear under a negative threshold |
| `RegimeMeaning.AllRoseIsBull` | src/analytics/marketRegimeClassifier.ts:71-155 | when every return reaches the bull threshold the window is bull |
| `RegimeMeaning.AllFellIsBear` | src/analytics/marketRegimeClassifier.ts:71-155 | when every return is at or below the bear threshold the window is bear |
| `RegimeMeaning.MarketIsPresent` | src/analytics/marketRegimeClassifier.ts:157-183 | a market is classified exactly when one of its snapshots is in the window, and then it counts a symbol |
| `MarketRegime.OneReturnPerSymbol` | src/analytics/marketRegimeClassifier.ts:101-104 | a symbol has exactly one return when the window holds enough of its snapshots, and none otherwise |
| `MarketRegime.ReturnsCompose` | src/analytics/marketRegimeClassifier.ts:71-183 | the returns of all markets are those of each market concatenated in market order |
| `MarketRegime.CountsCompose` | src/analytics/marketRegimeClassifier.ts:71-155 | symbol counts add up over the markets |
| `MarketRegime.LoneMarketDecides` | src/analytics/marketRegimeClassifier.ts:157-183 | when one market alone has snapshots in the window its classification is the global one |
| `MarketRegime.MeanIsWeighted` | src/analytics/marketRegimeClassifier.ts:343-345 | the unrounded global mean is the count-weighted mean of the market means |
| `MarketRegime.UnanimousMarketsDecide` | src/analytics/marketRegimeClassifier.ts:214-242 | markets that agree on bull, or with ordered thresholds on bear or sideways, give the whole that label, rounding included |
| `PolicyValidation.ValidateBucketSet` | src/api/paperPolicyValidation.ts:203-231 | one issue per missing and per duplicated bucket is pushed, in the order of the required buckets |
| `PolicyValidation.ValidateBuckets` | src/api/paperPolicyValidation.ts:233-304 | the issues of every entry are pushed in order |
| `PolicyValidation.ValidateHedgePolicy` | src/api/paperPolicyValidation.ts:335-384 | the hedge issues are pushed against the target of the first hedge entry |
| `PolicyValidation.ValidateExposurePolicy` | src/api/paperPolicyValidation.ts:386-413 | one issue per cap outside (0, 1] is pushed |
| `PolicyValidation.ValidatePaperPolicyCandidate` | src/api/paperPolicyValidation.ts:145-201 | no issue is reported if and only if the policy is sound, a definition that mentions no issue list |
| `PolicyMeaning.ReportedExactlyWhenFaulty` | src/api/paperPolicyValidation.ts:145-413 | for every code and every entry an issue is reported if and only if the policy has the fault it names, told by the policy's fields |
| `PolicyValidation.SoundIsPermutation` | src/api/paperPolicyValidation.ts:203-231 | the entries of a sound policy are the five buckets in some order |
| `PolicyValidation.AllocationMargin` | src/api/paperPolicyValidation.ts:150-167 | the rounded total is within a millionth of the exact one, so accepted totals are within the tolerance plus a millionth of 1 and totals that close less a millionth are accepted |
| `PolicyValidation.SoundEnablesSome` | src/api/paperPolicyValidation.ts:306-333 | a sound policy has an enabled bucket |
| `PolicyMatrix.SanitizedIsSafe` | src/storage/artifactPaths.ts:478-484 | a sanitized part is never empty and holds safe characters only |
| `PolicyMatrix.IdentitiesWithinBounds` | src/api/strategyBucketTestRuns.ts:302-347 | generated request ids and seeds have 1 to 120 characters, and a short enough seed base is kept whole |
| `PolicyMatrix.IdentitiesDiffer` | src/api/strategyBucketTestRuns.ts:302-347 | different buckets get different request ids and, whatever the hash gives, different seeds |
| `PolicyMatrix.TestIdsDiffer` | src/api/strategyBucketTestRuns.ts:466-482 | different buckets get different test ids although parts are cut and sanitized |
| `PolicyMatrix.ValidateSelectedBucket` | src/api/strategyBucketTestValidation.ts:332-372 | missing, disabled and unhedged buckets are reported, a missing one alone |
| `PolicyMatrix.PrepareStrategyBucketTestRun` | src/api/strategyBucketTestRuns.ts:361-423 | a candidate becomes a record exactly when its schema bounds, policy and settings pass |
| `PolicyMatrix.CreateStrategyBucketTestMatrixRun` | src/api/strategyBucketTestRuns.ts:180-257 | every run is prepared before one is stored: a refused matrix leaves the store unchanged, an accepted one appends all its records |
| `PolicyMatrix.SelectedBucketPasses` | src/api/strategyBucketTestValidation.ts:332-372 | an enabled bucket of a sound policy passes exactly when it is not the hedge or the hedge policy has a positive target |
| `PolicyMatrix.HedgeAboveToleranceIsReady` | src/api/strategyBucketTestValidation.ts:358-371 | a sound policy whose hedge target is zero or above the tolerance passes for every enabled bucket |
| `PolicyMatrix.QueuedExactlyWhen` | src/api/strategyBucketTestRuns.ts:180-257 | a well-formed request is queued if and only if policy, settings and hedge pass; the generated identities never fail it |
| `PolicyMatrix.QueuedRuns` | src/api/strategyBucketTestRuns.ts:180-257 | a queued matrix holds one run per enabled bucket, in policy order, with that bucket's identities |
| `PolicyMatrix.QueuedRunsAreDistinct` | src/api/strategyBucketTestRuns.ts:180-257 | the runs of a queued matrix have pairwise different buckets, test ids, request ids and seeds |
| `PolicyMatrix.TinyHedgeIsNotReady` | src/api/strategyBucketTestValidation.ts:358-371 | a sound policy whose matrix is refused |
| `MatrixMeaning.SanitizedJoinsParts` | src/storage/artifactPaths.ts:478-484 | sanitizing keeps the safe parts of a text in order and makes each gap of unsafe characters between them one underscore |
| `MatrixMeaning.SanitizedIsPart` | src/storage/artifactPaths.ts:478-484 | what is not the fallback is made of letters, digits, underscores and hyphens and has no underscore at either end |
| `MatrixMeaning.SeedMeaning` | src/api/strategyBucketTestRuns.ts:340-359 | a bucket's seed is as much of the seed base as fits 120 characters, twelve characters of the digest and the bucket's name |
| `MatrixMeaning.RequestIdMeaning` | src/api/strategyBucketTestRuns.ts:278-327 | a clean matrix id is kept up to 80 characters, and with the bucket's name it is the request id |
| `MatrixMeaning.TestIdMeaning` | src/api/strategyBucketTestRuns.ts:467-482 | with a clean short request id a test id is the fixed head, the first seventeen digits of the time, the bucket's name and that id |
| `MatrixMeaning.CandidateReports` | src/api/strategyBucketTestValidation.ts:332-372 | each issue is reported if and only if its fault is there: an unsound policy, other bad settings, no entry for the bucket, a first entry that is disabled, a hedge that is not ready |
| `MatrixMeaning.PreparedDecides` | src/api/strategyBucketTestRuns.ts:361-423 | texts of a bad length are refused first, then a policy with no entry or more than five, then exactly the reported issues |
| `MatrixMeaning.MatrixDecides` | src/api/strategyBucketTestRuns.ts:180-319 | a bad request, a policy of a bad size and a policy without an enabled bucket are refused in this order |
| `MatrixMeaning.EnabledInOrder` | src/api/strategyBucketTestRuns.ts:302-319 | the enabled buckets are those of the entries with a positive target, in policy order |
| `MatrixMeaning.QueuedRunKeepsCandidate` | src/api/strategyBucketTestRuns.ts:321-338 | run k is that of the k-th enabled bucket and keeps the candidate's policy and settings |

## Left out

- IEEE rounding: numbers are exact reals, and only `toFixed(6)` and `Math.round` round.
- The normal distribution functions, the probabilistic and deflated Sharpe ratios built on them, and the annualization root.
- Sockets, TLS, process spawning, file access, DNS and HTTP serving: events and in-memory data stand for them.
- Request and URL building and parsing of error codes: whether an answer is refreshable is a parameter.
- Schema checks of single texts, timestamps and modes: `wellFormed`, `pathInside` and `configOk` stand for their outcome.
- Hashing: the digest of a seed base and a bucket is any function.
- Decoding collected bytes as UTF-8, and texts outside the basic plane: surrogate pairs, whose halves the source counts, cuts and compares singly, and lone surrogates.
- Deadline checks, torn lines, half-written manifests and unsafe paths in the provenance reader; reruns into an existing batch directory in the writer.
- The result of a child that cannot be spawned at all, which is returned before any state exists.
- Dashboard points whose time does not parse as a date, for which the source's comparator is not an order.
- Timers that fire late: `ProcessRunner.Punctual` assumes that nothing happens after an armed timer is due.
- The thrown messages of the regime classifier.
- User interface, routes, configuration readers and fixed status views, which would only add easy members.
- ReplayProvenance.Scan: leaves open which failure code a refused directory gets, because the code depends on the order in which the operating system lists it.
- FifoLots.LotsRealizeCurve: one direction only; a history whose dust cost nothing, or is never missed by a later sell, can realize the same profit.
- Timeline.BoundedRefinesFull: the special case of one time per key; `Timeline.BoundedRefinesFullExactly` is without it.
- SharpeMoments.KurtosisBound: states the moments before they are rounded; rounding is `SharpeMoments.RoundedDenominatorBound`.
- SharpeMoments.DenominatorBound: before rounding; rounding is `SharpeMoments.RoundedDenominatorBound`.
- SharpeMoments.DenominatorAtLeast: before rounding; rounding is `SharpeMoments.RoundedDenominatorAtLeast`.
- SharpeMoments.DenominatorPositive: before rounding, and one direction for a fixed sample size, as the least value is attained only by two-valued samples, whose skewnesses at one size are finitely many. Over all sizes the bound is exact.
- SharpeMomentsSharp.DenominatorIsDistance: an identity of the moments before they are rounded.
- SharpeMomentsSharp.SteepSharpeFails: before rounding; with rounded moments `SharpeMomentsRounded.RoundedSteepSharpeFails` starts at S squared 2.1.
- SharpeMomentsSharp.PositiveExactlyUpToRootTwo: exact before rounding. With rounded moments neither direction is: the guarantee of `SharpeMoments.RoundedDenominatorAtLeast` ends where the least value, which vanishes for large samples, is within the slack, and ratios with S squared between 2 and 2.1 are open.
- LoInflation.InflationPositive: states the unrounded factor; rounding is `LoInflation.RoundedInflationMargin`.
- LoInflationSharp.LongSpanFails: states the unrounded factor; rounding is `LoInflationSharp.RoundedLongSpanFails`.
- LoInflationSharp.PositiveExactlyWithinLags: exact for the unrounded factor; for the rounded one the two margins of `LoInflation.RoundedInflationMargin` and `LoInflationSharp.RoundedLongSpanFails` leave open the spans just above L + 1, those with q - (L + 1) at most 2 L q millionths.
- Linkage.JoinedKeyDecides: leaves out symbols with a colon; `Linkage.SharedExactlyWhenAmbiguous` is the exact condition.
- FifoLots.TotalBasisIsCurve: asks for histories without dust; `FifoLots.LotsConserve` accounts for the dust of all others.
- LoInflation.InflationIsSumOfSquares: states the unrounded factor, as the identity does not survive rounding.
- MarketRegime.ClassifyMarketRegime: leaves out the median, whose sort has no defined order when a return is not a number.
- PolicyMatrix.PrepareStrategyBucketTestRun: takes the outcome of the window, data directory and provider checks as one flag, because none of them looks at the bucket, the seed or the request id.
