# Dogwatch: a verified model of its algorithms

Dogwatch is an observability server. Around its storage and network layers it keeps a number of small algorithms and
state machines whose guarantees span whole runs: the alert evaluator, the searches in the dependency graphs, the
correlator that works without trace headers, the asynchronous audit logger, the numeric cores of histograms and anomaly
detection, the alert router, the data-shaping rules, the HTTP aggregator and the SQL normaliser. This project models
those algorithms in Dafny and proves what they promise. `dafny verify dfyconfig.toml` checks all of it.

## How the model is built

State that the program updates in place is a class with the same fields, or a step function with the class beside it;
loops stay loops, with maps visited in an arbitrary order. Histories that the program does not keep, such as everything
ever pushed into a buffer or every send of a group, are ghost state or part of a log, so that a property of a whole run
can be stated as an invariant or as a lemma over all sequences of steps.

| files | component |
|---|---|
| `AlertModel`, `AlertRuns`, `AlertTheorems`, `AlertGaps`, `AlertEffects`, `AlertEngine` | the alert evaluator: steps, what every run keeps, what that means, series that go missing, what the records hold and when, the object itself |
| `Walks`, `EntityGraph` | breadth-first search in general; dependency chains and neighbourhoods |
| `BlastRadius`, `RootCause`, `Suppression` | dependency-aware alerting |
| `AuditLogger` | producers, flush worker, `Stop` and `Flush` as interleaved steps |
| `Correlation`, `Correlator` | headerless correlation: values and arithmetic, then the object |
| `Histogram`, `HistogramMerge` | quantiles; merging and aggregation |
| `MetricBuffer`, `Statistics`, `IsolationTree` | the numeric cores of anomaly detection |
| `AlertRouter`, `DataShaping`, `HttpAggregator`, `QueryNormaliser` | the remaining engines |
| `Common`, `Totals`, `Reals` | shared types, sums over maps, real arithmetic |

Choices that hold throughout:

- Times and durations are integers, in nanoseconds where a constant matters. Clock readings are arguments and never go
  back. Differences do not saturate.
- Floating-point numbers are reals, so rounding, infinities and NaN are not modelled. Square roots and logarithms are
  left out; where the program takes a square root the model returns its argument.
- 64-bit unsigned wrap-around is modelled where it can be observed: histogram counts and the sampling counter.
- An alert's fingerprint is the pair of rule id and labels, which makes it free of collisions and tied to one rule.
- Label matchers and regular expressions are arbitrary predicates. Random numbers are arguments, and sorting ties arbitrary.
- Looking up a service in the catalog is a map; saving an alert is no step at all.

Where the code does not do what one would expect, the code is kept and the exact extent is proved:

- `KeepFiringFor`: a failing result that is held back still erases ActiveSince, and from then on no failing result
  resolves the alert (`FailingResultResolves`, `HeldAlertNeverResolves`, and the run of `KeepFiringForNeverEnds`).
- A pending alert whose series vanishes is not swept: a batch that leaves an alert out changes it iff it is firing
  (`UnseenChangesIffFiring`). After a gap of any length the next firing result therefore enters firing iff ForDuration
  has passed since before the gap (`ReturnFiresIff`, and the run of `VanishedSeriesFires`). `StateInactive` is never
  assigned, so the table of pending alerts stays empty (part of `AlertRuns.Inv`).
- `findRootCauseRecursive` can report a service that still has a firing upstream (`DiamondIsCutShort`); it does so
  exactly when the trail of last firing upstreams is cut short (`RootUnlessCutShort`), which a tree never does.
- `Flush` overtakes the worker's batch (`FlushReorders`); every step keeps the order exactly if the entry it moves
  overtakes nothing but copies of itself (`KeepsOrderIff`). No entry is lost or duplicated either way.
- `Stop` can return while a call of `Flush` has an entry in hand that is not yet in the store (`StopOutrunsFlush`). It
  hands over everything iff no `Flush` has one when the drain ends (`StopHandsOverIff`).
- `AggregateHistograms` depends on the order of the points when none of them holds an observation
  (`AggregateIgnoresOrderIff`, `EmptyPointsKeepTheirOrder`).
- Sampling by the counter is exact except across the wrap of the counter, where `AcrossTheWrapIff` says when it is;
  `HalfAcrossTheWrap` keeps 66 of a hundred at a rate of one half.
- Leading empty buckets leave the lower end of the interpolation at zero, so a quantile can lie below the bucket it is
  taken from (`QuartileBelowEveryObservation`). It does iff only empty buckets precede and the rank is low enough
  (`QuantileBelowEdgeIff`); some quantile does iff the first bucket is empty (`SomeQuantileBelowEdgeIff`).
- A list of child routes without a match contributes its first child (`FindsExactlySelected`); a group keeps the receiver
  it was created with whatever route adds to it (`AddToGroup`).
- An outbound request correlated by timing stays among the waiting ones, and is correlated again each time it is
  completed while there is a candidate (`CompleteTwice`, and the calls of `StoredTwice`).

## Model

| member | source | states |
|---|---|---|
| `AlertRuns.EveryRunKeepsInv` | internal/alerting/evaluator.go:112-181 | on every run, for any mix of rules and durations, every logged event is justified by what came before it, an alert is firing iff its last entry into firing has not been closed, FiringAlerts lists exactly the firing alerts of its rule, every ActiveSince goes back to an unbroken observation, and PendingAlerts is empty |
| `AlertRuns.FiringKeepsInv` | internal/alerting/evaluator.go:502-580 | handling a firing result keeps that invariant |
| `AlertRuns.ResolvedKeepsInv` | internal/alerting/evaluator.go:583-628 | handling a failing result keeps it, KeepFiringFor included |
| `AlertRuns.SweepKeepsInv` | internal/alerting/evaluator.go:476-498 | so does the sweep over unseen firing alerts |
| `AlertRuns.CleanupKeepsInv` | internal/alerting/evaluator.go:705-715 | so does forgetting old resolved alerts |
| `AlertTheorems.EntryNeedsSpan` | internal/alerting/evaluator.go:538-553 | on every run an alert enters firing only when observations of its condition, none failing in between, span ForDuration |
| `AlertTheorems.EntriesAreSeparated` | internal/alerting/evaluator.go:542-553 | on every run two entries of one alert into firing have a resolution or a sweep of it between them |
| `AlertTheorems.NotifiedOncePerEntry` | internal/alerting/evaluator.go:555-563 | on every run the notifier is called at most once per entry into firing |
| `AlertTheorems.HandleDecides` | internal/alerting/evaluator.go:464-474 | without KeepFiringFor one result decides whether its own alert is firing and leaves all others alone |
| `AlertTheorems.BatchDecides` | internal/alerting/evaluator.go:458-499 | after a batch, duplicates and unseen series included, an alert of the rule is firing iff its last result is firing and its ActiveSince is ForDuration old |
| `AlertTheorems.EveryBatchDecides` | internal/alerting/evaluator.go:458-628 | the same at the end of every run of a rule with fixed ForDuration and no KeepFiringFor, with FiringAlerts equal to the firing alerts |
| `AlertTheorems.FailingResultResolves` | internal/alerting/evaluator.go:583-628 | a failing result takes a firing alert out of firing iff it is still active and not held by KeepFiringFor |
| `AlertTheorems.StrandedForEver` | internal/alerting/evaluator.go:584-610 | a firing alert without ActiveSince stays firing through any number of failing results, on any run that keeps mentioning it |
| `AlertTheorems.HeldAlertNeverResolves` | internal/alerting/evaluator.go:603-610 | one failing result inside KeepFiringFor makes a firing alert outlast every failing result after it |
| `AlertTheorems.KeepFiringForNeverEnds` | internal/alerting/evaluator.go:584-610 | a run on which an alert with KeepFiringFor 10 is still firing 98 ticks after its condition failed |
| `AlertGaps.UnseenChangesIffFiring` | internal/alerting/evaluator.go:476-498 | a batch that does not mention an alert changes it, and forgets since when it was active, iff it is a firing alert of the rule |
| `AlertGaps.GapKeepsWaiting` | internal/alerting/evaluator.go:476-498 | an alert that is active but not firing stays so, since the same time, through any number of steps that do not mention it |
| `AlertGaps.ReturnFiresIff` | internal/alerting/evaluator.go:509-553 | after a gap of any length, the next batch that confirms the condition makes the alert enter firing iff ForDuration has passed since it became active before the gap |
| `AlertGaps.VanishedSeriesFires` | internal/alerting/evaluator.go:476-553 | a run on which two observations 99 ticks apart, with the series missing between, make an alert with ForDuration 10 fire |
| `AlertEffects.FiringRecords` | internal/alerting/evaluator.go:502-580 | a firing result leaves the value, the times of evaluation, start, firing and notification, and the state as stated, field by field, and touches no other alert |
| `AlertEffects.NotifiesIff` | internal/alerting/evaluator.go:555-563 | the notifier is called iff the alert enters firing, is not silenced, and there is a notifier |
| `AlertEffects.FailingResolvesIff` | internal/alerting/evaluator.go:583-628 | a failing result makes an alert Resolved at that time, with its other fields as they were, iff it is pending or firing, active and not held; it touches no other alert |
| `AlertEffects.UnseenIsResolved` | internal/alerting/evaluator.go:476-498 | every firing alert of the rule that a batch does not mention becomes Resolved at the time of the sweep, with its other fields as they were |
| `AlertEffects.ForgottenIff` | internal/alerting/evaluator.go:705-715 | an alert is forgotten iff it has been Resolved for more than an hour |
| `AlertEffects.SweptIsForgottenIff` | internal/alerting/evaluator.go:476-498 | an alert the sweep resolved is forgotten iff more than an hour has passed since the sweep |
| `AlertEffects.EveryRunDates` | internal/alerting/evaluator.go:542-547 | on every run FiredAt of a firing alert is the time of its last entry into firing |
| `AlertEffects.KeptForItsTime` | internal/alerting/evaluator.go:602-610 | on every run a failing result takes a firing alert out of firing iff it is active and KeepFiringFor has passed since its last entry |
| `AlertEffects.EvaluatedIff` | internal/alerting/evaluator.go:140-151 | on every run a rule is evaluated iff its interval, one minute by default, has passed since every earlier evaluation of it; an attempt before that changes nothing |
| `AlertEngine.Evaluator.HandleFiringResult` | internal/alerting/evaluator.go:502-580 | the in-place update equals the firing step |
| `AlertEngine.Evaluator.HandleResolvedResult` | internal/alerting/evaluator.go:583-628 | the in-place update equals the failing step |
| `AlertEngine.Evaluator.ProcessResults` | internal/alerting/evaluator.go:458-499 | the loop over the results and the sweep, in any map order, equal the batch step and keep the invariant |
| `AlertEngine.Evaluator.EvaluateRule` | internal/alerting/evaluator.go:128-181 | the interval gate, the stamp of the last evaluation and the batch equal the evaluation step |
| `AlertEngine.Evaluator.CleanupResolvedAlerts` | internal/alerting/evaluator.go:705-715 | exactly the alerts resolved more than an hour ago are forgotten |
| `AlertEngine.Evaluator.EvaluateComposite` | internal/alerting/evaluator.go:400-455 | a composite rule fires iff all, or any, of its sub-rules really have a firing alert; no sub-rules is an error |
| `AlertEngine.AsksForAllIff` | internal/alerting/evaluator.go:418-430 | an expression asks for all sub-rules iff the word and occurs in it between blanks, in any case of letters |
| `EntityGraph.GetDependencyChain` | internal/entity/graph.go:252-297 | returns a shortest walk along relationships of known entities if there is one, and nothing iff there is none |
| `EntityGraph.Retrace` | internal/entity/graph.go:285-291 | the walk back along the parents terminates and rebuilds the route |
| `Walks.Covered` | internal/entity/graph.go:266-294 | in a layered search every walk no longer than the nearest open route ends at an id already met, at least as near |
| `Walks.FirstMeeting` | internal/entity/graph.go:275-292 | the route by which an id is first met is a shortest walk |
| `EntityGraph.GetSubgraph` | internal/entity/graph.go:105-210 | nodes are exactly the known entities within the clamped depth in the undirected graph, each once; edges are exactly their relationships to ids within that depth, each once |
| `EntityGraph.VisitLayers` | internal/entity/graph.go:116-154 | the layered search visits exactly the ids within the given number of hops |
| `EntityGraph.Emit` | internal/entity/graph.go:156-207 | emits each known visited entity and each relationship between visited ids once |
| `BlastRadius.RefreshDependencyCache` | internal/alerting/dependency.go:138-166 | for every service the two caches list the other ends of its dependency rows, row by row and in order; as relations they are converse |
| `BlastRadius.CalculateBlastRadius` | internal/alerting/dependency.go:279-364 | nothing iff the service is unknown; otherwise each service reachable downstream through resolvable ones exactly once, without the failed one, in order of depth, with shortest depth and the names along a shortest walk; the totals are the number listed, the number of critical ones and the greatest depth |
| `BlastRadius.SearchMeets` | internal/alerting/dependency.go:320-357 | listing one more service keeps the list in order of depth, distinct and explained by its routes |
| `RootCause.FindRootCauseRecursive` | internal/alerting/dependency.go:443-472 | terminates on any graph; a visited service yields nothing; otherwise it marks exactly what the service leads to without touching marked ids, and reports what the specification says |
| `RootCause.FindRootCause` | internal/alerting/dependency.go:428-440 | the report from an empty set of visited services |
| `RootCause.ReportIsFiringUpstream` | internal/alerting/dependency.go:443-472 | nothing is reported iff no direct upstream is firing; a reported service is firing and reached through firing upstreams |
| `RootCause.RootUnlessCutShort` | internal/alerting/dependency.go:453-469 | the reported service has a firing upstream iff the trail of last firing upstreams comes to a service that has one, and that the trail has been at or an earlier firing upstream of some service on the trail leads to clear of the trail so far |
| `RootCause.MarkedIsMet` | internal/alerting/dependency.go:444-459 | what the search has visited when the trail comes to a service is exactly the trail and what its earlier branches lead to |
| `RootCause.TreeReportIsRoot` | internal/alerting/dependency.go:443-472 | when the firing upstream graph is a tree the reported service has no firing upstream |
| `RootCause.DiamondIsCutShort` | internal/alerting/dependency.go:444-447 | on a diamond a service with a firing upstream is reported |
| `Suppression.ShouldSuppress` | internal/alerting/dependency.go:238-276 | suppressed iff a firing upstream is at least as severe and the alert is about connections, or a firing upstream is critical and the alert is not |
| `Suppression.SeverityOrder` | internal/alerting/dependency.go:85-96 | critical is above warning, warning above info, info above anything else |
| `Suppression.ContainsAny` | internal/alerting/dependency.go:475-486 | true iff one of the words occurs at some position |
| `AuditLogger.EveryRunConserves` | internal/audit/logger.go:144-266 | in every interleaving, with any number of calls of Flush, offered equals accepted plus dropped, the batch stays below its limit, what was logged, drained and half flushed adds up to what was written, and every accepted entry is written, held by the worker, Stop or a Flush, or waiting, exactly once |
| `AuditLogger.StepDropsIff` | internal/audit/logger.go:144-159 | a step drops an entry iff it logs one to a full channel with DropOnFull set; without that nothing changes; it accepts one iff there is room, or a ready receiver without a buffer |
| `AuditLogger.DropsOnlyWhenAsked` | internal/audit/logger.go:144-159 | on every run nothing is dropped unless DropOnFull is set, and nothing is taken when the level is off |
| `AuditLogger.FullChannel` | internal/audit/logger.go:149-158 | two calls with room for one: dropped with DropOnFull, blocked without |
| `AuditLogger.WorkerCanCatchUp` | internal/audit/logger.go:237-266 | from every reachable state a worker not told to exit can by itself bring everything it holds and everything waiting into the store, in order |
| `AuditLogger.EveryRunIsFifo` | internal/audit/logger.go:144-266 | in every interleaving without Flush, written, held and waiting entries make up the accepted ones in order |
| `AuditLogger.NextMoves` | internal/audit/logger.go:237-266 | each step moves at most one entry past those it overtakes, and otherwise only adds what it accepts |
| `AuditLogger.StopHandsOverIff` | internal/audit/logger.go:125-141 | when the drain of Stop ends, what is missing from the store is exactly what calls of Flush have in hand, so everything accepted was handed over exactly once iff none has any |
| `AuditLogger.StoppedStaysComplete` | internal/audit/logger.go:125-141 | if producers then stay quiet, all is in the store iff no Flush has an entry in hand, and stays there while the logger is stopped; in order if Flush was never called |
| `AuditLogger.StopOutrunsFlush` | internal/audit/logger.go:437-493 | a run on which Stop returns while the only entry is in the hand of a Flush |
| `AuditLogger.StopCanComplete` | internal/audit/logger.go:134-138 | from every reachable state Stop can run to completion without a producer or another caller |
| `AuditLogger.RestartedMayExit` | internal/audit/logger.go:102-141 | once stopped, the logger stays cancelled, so a worker started later may exit whenever it selects |
| `AuditLogger.KeepsOrderIff` | internal/audit/logger.go:437-493 | in an ordered state a step keeps the order iff the entry it moves overtakes only copies of itself: Flush overtakes the worker and Stop, and these overtake what Flush has in hand |
| `AuditLogger.FlushReorders` | internal/audit/logger.go:488-493 | a run on which Flush writes the second entry before the first |
| `Correlation.TallyAdds` | internal/correlation/headerless.go:472-480 | storing a correlation keeps the found counter, the counts by method, the stored lists and the average exact |
| `Correlation.ThreadsStayOk` | internal/correlation/headerless.go:270-302 | storing a correlation keeps, for every thread: idle iff without a request, waiting only with outbound calls, and each listed call already correlated with the current request |
| `Correlation.MeanInRange` | internal/correlation/headerless.go:477-479 | the running average is the exact mean and lies between the bounds of its terms |
| `Correlation.MethodsAddUp` | internal/correlation/headerless.go:474-475 | the counts by method add up to the number of correlations |
| `Correlation.TimingConfidence` | internal/correlation/headerless.go:409-420 | confidence by timing lies in [0.392, 0.7] |
| `Correlation.ConfidenceFallsEvenly` | internal/correlation/headerless.go:409-420 | confidence falls by 0.21 over the window in whole milliseconds, and by a fifth iff there are several candidates |
| `Correlation.ConfidenceAtTheEnds` | internal/correlation/headerless.go:409-420 | it is 0.7 at once and 0.49 at the edge of the window |
| `Correlation.CloserIsSurer` | internal/correlation/headerless.go:409-420 | of two candidates in the same situation the closer never gets less confidence, and more iff it is closer by a whole millisecond |
| `Correlator.HeaderlessCorrelator.StatisticsAgree` | internal/correlation/headerless.go:172-181 | in every reachable state the total equals the stored correlations and the sum by method, and the average is their mean, in [0.392, 0.85] once there is one |
| `Correlator.HeaderlessCorrelator.RecordInboundRequest` | internal/correlation/headerless.go:203-229 | the thread starts handling the request with no outbound calls; the request is listed under its socket; the invariant of all threads is kept |
| `Correlator.HeaderlessCorrelator.RecordInboundComplete` | internal/correlation/headerless.go:232-254 | frees one thread handling the request, if any; finalisation adds nothing, so correlations and statistics stay as they were |
| `Correlator.HeaderlessCorrelator.FinalizeCorrelation` | internal/correlation/headerless.go:438-470 | adds a correlation iff there is none for the two requests, with a warning and a count iff the socket is pooled |
| `Correlator.HeaderlessCorrelator.RecordOutboundRequest` | internal/correlation/headerless.go:257-306 | correlates at once iff the thread is handling a request, otherwise the request waits; it is listed under its socket, and pooling is warned of and counted iff the socket then has more than two requests |
| `Correlator.HeaderlessCorrelator.RecordOutboundComplete` | internal/correlation/headerless.go:309-334 | tries timing iff the request was waiting, leaves it waiting, and resumes exactly the threads waiting for it; the request totals stay |
| `Correlator.HeaderlessCorrelator.TryTimingCorrelation` | internal/correlation/headerless.go:337-435 | adds nothing iff there is no candidate, otherwise one correlation with a closest candidate, the confidence of its distance and the number of candidates, and exactly the warnings that apply, each counted |
| `Correlator.HeaderlessCorrelator.CollectCandidates` | internal/correlation/headerless.go:341-368 | one entry for each thread of the same process whose request started inside the window |
| `Correlator.HeaderlessCorrelator.AddCorrelation` | internal/correlation/headerless.go:472-480 | appends to the stored list and keeps every invariant |
| `Correlator.HeaderlessCorrelator.CorrelateByContent` | internal/correlation/headerless.go:504-533 | nothing iff no waiting request shares a configured header; otherwise correlates and releases one that does |
| `Correlator.HeaderlessCorrelator.Cleanup` | internal/correlation/headerless.go:560-618 | drops exactly the stale threads and socket entries, keeps the fresh waiting requests or the newest of them, and leaves correlations and statistics alone |
| `Correlator.RecentKeepsYoung` | internal/correlation/headerless.go:581-594 | the clean-up of a socket leaves each young event as often as it was there, and no other |
| `Correlator.CompleteTwice` | internal/correlation/headerless.go:309-319 | a waiting request with a candidate is correlated once more each time it is completed |
| `Correlator.StoredTwice` | internal/correlation/headerless.go:309-319 | calls after which one pair of requests is stored twice |
| `Correlator.TimedOnce` | internal/correlation/headerless.go:337-435 | calls after which the only correlation is by timing, at 0.7, with the warning of an asynchronous worker |
| `Correlator.ThirdUseIsPooled` | internal/correlation/headerless.go:275-282 | of three calls over one socket the third is the first counted as pooled |
| `Histogram.Quantile` | internal/custommetrics/histogram.go:42-112 | for a well-formed snapshot the result is the one value the specification allows: the interpolation in the first bucket that reaches the rank, or zero without observations |
| `Histogram.ScanBuckets` | internal/custommetrics/histogram.go:54-111 | on a well-formed snapshot the scan never falls through and never meets an empty bucket at the rank |
| `Histogram.QuantileIsMonotone` | internal/custommetrics/histogram.go:42-112 | a larger quantile never has a smaller value |
| `Histogram.QuantileInBucket` | internal/custommetrics/histogram.go:78-98 | the value lies in the first bucket that reaches the rank, and between zero and the top bound |
| `Histogram.QuantileIsShare` | internal/custommetrics/histogram.go:78-98 | the quantile divides the width of its bucket as its rank divides the observations in it; the last bucket ends at Max, at twice the last bound, or at one |
| `Histogram.QuantileAtCount` | internal/custommetrics/histogram.go:78-98 | at the share of observations counted up to a filled bucket the quantile is where the bucket ends |
| `Histogram.QuantileBelowEdgeIff` | internal/custommetrics/histogram.go:62-98 | a quantile lies below the lower edge of its bucket iff only empty buckets precede and the rank is below a given share of the bucket |
| `Histogram.SomeQuantileBelowEdgeIff` | internal/custommetrics/histogram.go:62-98 | some quantile does iff the first bucket is empty |
| `Histogram.QuartileBelowEveryObservation` | internal/custommetrics/histogram.go:62-98 | a snapshot with all observations between 10 and 20 and a lower quartile of 5 |
| `Histogram.QuantileIsUnique` | internal/custommetrics/histogram.go:42-112 | the specification determines the value |
| `HistogramMerge.HistogramSnapshot.Merge` | internal/custommetrics/histogram.go:116-148 | the in-place merge equals the merge of the values |
| `HistogramMerge.MergeKeepsWellFormed` | internal/custommetrics/histogram.go:116-148 | merging well-formed snapshots with the same buckets gives a well-formed one with bucket-wise sums, if the total fits 64 bits |
| `HistogramMerge.MergesCommute` | internal/custommetrics/histogram.go:116-148 | two merges into a snapshot may be done in either order |
| `HistogramMerge.AggregateHistograms` | internal/custommetrics/histogram.go:170-180 | the loop computes the fold of the merges |
| `HistogramMerge.AggregateIsSum` | internal/custommetrics/histogram.go:116-180 | of points with observations and the same buckets, total, sum and every bucket add up, the last as unsigned 64-bit numbers, and minimum and maximum are those of the points |
| `HistogramMerge.AggregateIgnoresOrderIff` | internal/custommetrics/histogram.go:170-180 | the aggregate of reordered points is the same iff there is an observation or the first points agree |
| `HistogramMerge.EmptyPointsKeepTheirOrder` | internal/custommetrics/histogram.go:170-180 | two points without observations whose order shows in the aggregate |
| `MetricBuffer.Buffer.Push` | internal/anomaly/detector.go:499-510 | the value is the newest of everything pushed; the ring still holds the last capacity values in their slots |
| `MetricBuffer.Buffer.GetLast` | internal/anomaly/detector.go:512-535 | the last min(n, size) values pushed, in order |
| `Statistics.MeanVariance` | internal/anomaly/detector.go:540-559 | the online update yields the exact mean and the sum of squared deviations over n-1 |
| `Statistics.WelfordStep` | internal/anomaly/detector.go:546-552 | one update keeps mean and squared deviations exact |
| `Statistics.VolatilitySquared` | internal/anomaly/detector.go:618-630 | the sample variance of the first differences, whose mean is the overall change per step |
| `Statistics.LinearSlope` | internal/anomaly/detector.go:594-615 | the sums gathered in one pass give the regression slope, zero for fewer than two values |
| `Statistics.DenominatorPositive` | internal/anomaly/detector.go:609-612 | with at least two values the denominator is positive |
| `Statistics.SlopeIsLeastSquares` | internal/anomaly/detector.go:593-615 | no line leaves smaller squared residuals than the one with this slope |
| `Statistics.SlopeOfLine` | internal/anomaly/detector.go:593-615 | on a straight line the slope is exact |
| `IsolationTree.Subsample` | internal/anomaly/iforest.go:89-113 | for every outcome of the draws the sample consists of the rows at the first shuffled positions, which are distinct, as many as asked for or all |
| `IsolationTree.EverySampleIsDrawn` | internal/anomaly/iforest.go:103-106 | every choice of distinct rows, in every order, comes from some draws |
| `IsolationTree.DrawsAreUnique` | internal/anomaly/iforest.go:103-106 | and from no others, so fair draws make every sample equally likely |
| `IsolationTree.BuildTree` | internal/anomaly/iforest.go:116-177 | for every outcome of the random choices: a leaf stands only at the height limit, for at most one row, where the drawn attribute is constant or the drawn fraction zero; a split stands at the drawn fraction of the range of the drawn attribute; the tree describes the data, its splits have rows on both sides, and its height respects the limit |
| `IsolationTree.ChoicesDetermine` | internal/anomaly/iforest.go:116-177 | the random choices determine the tree |
| `IsolationTree.LeavesAreForced` | internal/anomaly/iforest.go:120-143 | with no fraction zero, the rows of a leaf of more than one row above the limit agree in the attribute drawn for it |
| `IsolationTree.LeafSizesCountArrivals` | internal/anomaly/iforest.go:203-222 | each leaf's size is the number of training rows that descend to it |
| `IsolationTree.LeavesPartition` | internal/anomaly/iforest.go:116-177 | the leaf sizes add up to the number of rows |
| `IsolationTree.RowsReachLeaves` | internal/anomaly/iforest.go:203-222 | every row of the training width ends in a leaf within the height of the tree |
| `IsolationTree.SplitIsProperIff` | internal/anomaly/iforest.go:150-169 | both sides of a split have rows iff the random fraction is not zero |
| `AlertRouter.FindsExactlySelected` | internal/alerting/router.go:137-165 | the search returns the routes at the selected paths in preorder, one for each path: matching ones not cut off by an earlier match, and the first of a list without a match |
| `AlertRouter.CadenceIsOfRoute` | internal/alerting/router.go:293-318 | each interval is the field of that name in the first route with the receiver, if positive, and otherwise, or without such a route, 30 seconds, 5 minutes and 4 hours |
| `AlertRouter.Router.AddToGroup` | internal/alerting/router.go:220-260 | the alert replaces the one with its fingerprint or joins at the end; fingerprints stay distinct; an existing group keeps receiver and creation time |
| `AlertRouter.Router.ProcessGroup` | internal/alerting/router.go:277-349 | a notification goes out iff some alert is firing, the interval of its route that applies has passed, the receiver exists and sending succeeds; it carries the firing alerts in order; only then do NotifiedAt and lastNotify advance, together; without one the group goes iff nothing in it is firing and it has been quiet long enough |
| `AlertRouter.Router.HandleResolvedGroup` | internal/alerting/router.go:352-378 | a group is deleted iff it has been quiet long enough, 15 minutes after a notification or 5 without one |
| `AlertRouter.SendsAreSpaced` | internal/alerting/router.go:323-344 | over a group's lifetime the first send comes at least GroupWait after creation, and any two sends are apart by as many of the smaller of GroupInterval and RepeatInterval as there are sends between them |
| `AlertRouter.Router.GroupKeepsCadence` | internal/alerting/router.go:323-344 | the sends of a live group keep the wait and the two intervals of its route |
| `DataShaping.Engine.AddRule` | internal/datashaping/rules.go:128-151 | replaces the rule with the same id, or refuses one that does not compile; ids stay distinct and rules sorted |
| `DataShaping.Engine.RemoveRule` | internal/datashaping/rules.go:160-170 | removes exactly the rule with the id |
| `DataShaping.Engine.SortRules` | internal/datashaping/rules.go:357-366 | the exchange sort orders the rules by priority and permutes them |
| `DataShaping.Engine.Evaluate` | internal/datashaping/rules.go:196-251 | Keep iff no enabled rule matches, otherwise the ruling of an enabled matching rule of least priority, which alone may advance the sample counter; every decision is counted and dropped bytes are added up |
| `DataShaping.Engine.ApplyRule` | internal/datashaping/rules.go:334-355 | a sampling rule drops what its rate does not keep, every other rule decides as it says; the counter advances iff a rate inside (0, 1) was used |
| `DataShaping.Engine.CountersBalance` | internal/datashaping/rules.go:236-248 | processed equals dropped, sampled, transformed, kept and uncounted decisions |
| `DataShaping.Engine.ShouldSample` | internal/datashaping/rules.go:269-280 | for a rate inside (0, 1) the counter advances and data is kept iff its remainder by 100, plus one, is at most 100 times the rate; other rates keep all or nothing |
| `DataShaping.HundredCallsKeepThePercentage` | internal/datashaping/rules.go:277-279 | any hundred consecutive calls at one rate keep k, with k at most 100 times the rate and k + 1 above it, unless the counter wraps among them |
| `DataShaping.HundredPointsKeepThePercentage` | internal/datashaping/rules.go:334-341 | of a hundred points in a row that one sampling rule decides it keeps that many and drops the rest, unless the counter wraps among them |
| `DataShaping.AcrossTheWrapIff` | internal/datashaping/rules.go:277-279 | exactly when that still holds across the wrap of the counter |
| `DataShaping.HalfAcrossTheWrap` | internal/datashaping/rules.go:277-279 | a hundred calls at one half that keep 66 |
| `HttpAggregator.Aggregator.RecordRequest` | internal/aggregator/aggregator.go:79-97 | opens the thread's slot and counts the request; a request still open there counts as overwritten; all books balance |
| `HttpAggregator.Aggregator.RecordResponse` | internal/aggregator/aggregator.go:100-133 | answers the open request with its clamped latency and status, or changes nothing; LastSeen and the error count follow; latencies are the last 1000 answered; all books balance |
| `HttpAggregator.Aggregator.Cleanup` | internal/aggregator/aggregator.go:345-356 | gives up exactly the requests older than the timeout, and books them as timed out |
| `HttpAggregator.Aggregator.GetStats` | internal/aggregator/aggregator.go:250-258 | the totals are the sums over the endpoints, and errors with open requests never exceed requests |
| `HttpAggregator.Aggregator.ErrorsAndPendingFit` | internal/aggregator/aggregator.go:119-129 | in every reachable state and for every endpoint the error count is the number of failed answers, errors with open requests never exceed requests, and at most 1000 latencies are held |
| `HttpAggregator.ComputePercentiles` | internal/aggregator/aggregator.go:168-191 | P50 and P99 are the order statistics at n*50/100 and n*99/100, P50 is at most P99, and the average is the truncated mean and lies among the values |
| `HttpAggregator.OrderIsUnique` | internal/aggregator/aggregator.go:174-179 | a sorted permutation is unique, so the order statistics do not depend on the sort |
| `QueryNormaliser.NormalizeQuery` | internal/dbwatch/store.go:541-583 | the byte scanner computes the skeleton of the tokens of the query |
| `QueryNormaliser.TokensRenderBack` | internal/dbwatch/store.go:551-580 | every query is the rendering of its tokens, which are well separated |
| `QueryNormaliser.TokensReadBack` | internal/dbwatch/store.go:551-580 | well separated tokens are read back from their rendering |
| `QueryNormaliser.NormaliseIsIdempotent` | internal/dbwatch/store.go:541-583 | normalising twice changes nothing; a query is normal iff it has no digit and no quote |
| `QueryNormaliser.NormaliseIsClean` | internal/dbwatch/store.go:541-583 | the result has no digit and no single or double quote |
| `QueryNormaliser.LiteralsDoNotMatter` | internal/dbwatch/store.go:541-583 | replacing literals by other literals, strings or numbers, leaves the result unchanged |
| `QueryNormaliser.Example` | internal/dbwatch/store.go:541-583 | the query a=1.5'x' becomes a=?? |

## Left out

- Evaluating threshold, anomaly, change and absence rules: comparisons on one value; the results enter the model as given.
- Silence matching, inhibition, acknowledgement and the stored fields of an alert that no decision reads (labels, annotations, severity, EndsAt).
- Several clock readings inside one sweep are taken as one.
- Other relationship and node attributes in the entity graph (call counts, latencies, sizes): copied without a decision. The id in an entity is taken to be its key, and an edge id to be the triple it is built from.
- `EstimatedImpact` and updating service health from alerts: tables of constants.
- The age check of the dependency cache: the model rebuilds the cache from the rows it is given.
- The auth, admin and export channels of the audit logger: the same shape as the query channel.
- AuditLogger.EveryRunIsFifo: one logger is started again only after Stop has returned; calling Start while Stop is waiting would run two workers.
- Average flush duration and flush times of the audit logger: clock arithmetic without a guarantee.
- Durations of requests in the correlator, and the metadata of a correlation: written but never read there. A timing window of zero milliseconds, for which the program divides zero by zero, is excluded when a correlator is made.
- Callers changing rules, alerts or events they have handed over: rules and events are values, and the states of grouped alerts are read afresh each time a group is processed.
- Building group keys and group labels in the router: sorted joins of labels; the key is an argument. Changing routes while groups live is not modelled, since the cadence is promised for fixed routes.
- Per-rule statistics and the counts by data type of the shaping engine: further counters with the same shape.
- Connections and their cleanup in the HTTP aggregator, and the text summary: further counters and formatting.
- Path lengths, scores and the parallel training of the isolation forest: logarithms and powers of floating-point numbers.
- XGBoost, the normal distribution, sigmoid and chi-squared tests: transcendental or library code.
- SQLite stores, HTTP, OTLP, StatsD and Prometheus receivers, notification receivers, eBPF programs, the command line and the user interfaces: input, output and foreign code.
- Federation: only message types, without merge logic.
