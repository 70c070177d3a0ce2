# hmasync_controller, verified

A Dafny 4.11 model of the parts of `hmasync_controller` whose correctness rests on arithmetic, on a
protocol or on a parser, with the properties its code and documentation promise proved for every
input, every history and every moment the process may die. `dafny verify dfyconfig.toml` checks the
whole project.

## What is modelled

**Bench numerics.** `LinearAlgebra`, `LinearSolver`, `CostModel`, `EnergyAttribution`, `Statistics`,
`Bootstrap` and `Wilson` follow `bench/metrics/costmodel.py`, `compute.py` and `stats.py` over exact
reals. The Gauss-Jordan solver works in place on an array of rows and is proved to compute a pure
elimination, `Reduced`; the results about solutions, kernels, least squares and r2 are proved of
that function. `_SINGULAR_PIVOT_EPS` stays the absolute constant of the source, so a refusal does
not mean singular: what a refusal does mean is stated exactly, by the pivots of the elimination run
without the threshold.

**Daemon protocol.** `Scheduling` (which placements are attempted), `JobRun` (one attempt: acks,
brackets, exceptions, the card's limit, time budget), `SpoolQueue` (the durable queue), `Reporting`
(store and forward against an idempotent server), `AuthedCalls` (one authenticated call with its
retry) and `PowerCap` (the cap around each job). Each is a transition system: a function for one step, a recursive function for a
whole history, invariants over histories, and classes whose methods are proved to take exactly those
steps. The network is a script of fates, one entry per atomic step, so an outage is a `Refused`, a
lost reply is a `LostReply` (applied, but the client saw a failure), and a kill is a script that
runs out: the state then is whatever had been made durable. The reporter's documented limitation, that
a trace push failing midway may append samples again, is made exact by `StoredOnceIff`. In `JobRun` each call of an attempt that
may not come back has an outcome, and the attempt is written with the source's own control flow: an
unguarded call, a `try` with its handlers, and a `finally` that drives the power-cap manager.

**Text algorithms.** `RougeL` proves the two-row dynamic program equal to the full table and the
table optimal. `BoxedAnswers` proves the brace matcher against a printer, in both directions.

**Schema validator and bench drain.** `SchemaValidator` is the recursive walker as coded, with its
shared error list, proved equivalent to a declarative meaning, and compared with the semantics of
JSON Schema 2020-12. `BenchDrain` is the second spool's drain.

**Bench power limit.** `BenchPower` is the ladder derivation, the sweep and the suite's `finally`,
over histories of completed, failed and hard-killed suites. Writes go out in whole watts and reads
floor to whole watts, as in `sampler.py`.

`Basics` and `Sorting` hold shared vocabulary. Sorting is a stable sort given as a function, proved
sorted, stable and a permutation.

## Where the code and its documentation differ

The code was followed in each case. A concrete input shows each difference, and the exact condition
under which code and documentation agree is proved.

- `_solve_linear_system` and `fit_cost_model` document None as a singular or nearly singular system,
  collinear token counts. The threshold is absolute: an empty request and two of forty thousand
  tokens that differ by one have independent token counts and get no fit, whatever their energies
  (`IndependentYetUnfitted`). None means singular exactly when the elimination meets a zero pivot or
  no pivot below the threshold (`NoneMeansSingularIff`); for the fit, the same holds of collinear
  token counts (`EmptyFitMeansCollinearIff`).
- `_executed` is documented as attempting an instance at most once. The due list is computed before
  anything is marked, so a schedule that lists a key twice runs it twice (`RepeatedListingRunsTwice`);
  `AtMostOnceIff` gives the exact condition.
- `_execute` is documented never to raise. The profiler's start and stop and the report have no
  handler, so after the started ack an exception can escape with the job never closed
  (`ProfilerCanEscape`); `LogIsBracketed` says exactly when every started job is closed.
- `_bounded_request` documents a bound that keeps a job inside its window. Its budget is counted from
  the tick's start, but the pull, the drains, preflight, acks, the profiler and earlier jobs come
  before the run, so even the first job can end late (`DrainingDelaysTheFirstJob`). `WindowIsKeptIff`
  says exactly when a window is guaranteed: for the first job, with no delay, and the minimum timeout
  left.
- `extract_boxed_answers` documents an unclosed marker as ignored. It ends the extraction, so a
  closed box after it is lost (`UnclosedHidesLaterBox`); `UnclosedIsIgnoredIff` says when the two
  readings agree.
- Windows that tile the sampled range do not always add up to the run's counter energy: with
  several readings at the last timestamp, interpolation takes the first and the total takes the last
  (`TilingCanFallShort`, and `TilingIsExact` for the exact condition).
- The validator's `integer` is decided by runtime type and its `const` and `enum` by the language's
  own equality, so it differs from the standard on `1.0` and on `true` against `1`
  (`WhereTheyDiffer`). `ConstantsAgreeIff` says which constants both compare alike, and on schemas
  of the vendored shape with only those `AgreesWithStandard` says exactly which documents they judge
  alike.

## Model

| member | source | states |
|---|---|---|
| `LinearSolver.SolveLinearSystem` | hmasync_controller/bench/metrics/costmodel.py:83-104 | elimination in place over the augmented rows computes `Solution`; a result satisfies every original equation exactly and is the only vector that does |
| `LinearSolver.EliminateColumn` | hmasync_controller/bench/metrics/costmodel.py:96-102 | the row loop clears the pivot column from every other row and touches nothing else |
| `LinearSolver.SubtractPivotRow` | hmasync_controller/bench/metrics/costmodel.py:100-102 | starting the inner loop at the pivot column loses nothing: the row ends as the whole-row difference, all other rows unchanged |
| `LinearSolver.PivotRow` | hmasync_controller/bench/metrics/costmodel.py:92 | the chosen row is at or below the diagonal and has the largest magnitude in its column |
| `LinearSolver.ReducedKeepsSolutions` | hmasync_controller/bench/metrics/costmodel.py:91-102 | a whole elimination, swaps included, changes neither the solutions nor the kernel |
| `LinearSolver.ReducedIsDiagonal` | hmasync_controller/bench/metrics/costmodel.py:91-102 | after the last column the coefficients are a diagonal with no zero on it, so the final divisions are defined |
| `LinearSolver.SolutionIsExactAndUnique` | hmasync_controller/bench/metrics/costmodel.py:83-104 | for every n, matrix and right-hand side, a returned vector solves the system and every solution equals it |
| `LinearSolver.SingularIsRefused` | hmasync_controller/bench/metrics/costmodel.py:83-94 | a matrix with a nontrivial kernel yields None for every right-hand side |
| `LinearSolver.RegularIsSolvedWhenScaled` | hmasync_controller/bench/metrics/costmodel.py:91-94 | a non-singular system is solved once its equations are multiplied by any large enough factor |
| `LinearSolver.ReducedIffPivots` | hmasync_controller/bench/metrics/costmodel.py:91-102 | elimination under any threshold succeeds if and only if every pivot of the elimination without one reaches it |
| `LinearSolver.SingularIffZeroPivot` | hmasync_controller/bench/metrics/costmodel.py:91-102 | a matrix is singular if and only if that elimination meets a zero pivot |
| `LinearSolver.RefusedIffSmallPivot` | hmasync_controller/bench/metrics/costmodel.py:92-94 | a system is refused if and only if some pivot is below a billionth |
| `LinearSolver.NoneMeansSingularIff` | hmasync_controller/bench/metrics/costmodel.py:83-94 | None means singular, as documented, if and only if there is a zero pivot or no pivot below the threshold; the wrongly refused systems are the others |
| `LinearSolver.SingularIffRefusedAtEveryScale` | hmasync_controller/bench/metrics/costmodel.py:83-94 | multiplying all equations by one factor tells the two kinds of refusal apart: the singular systems are those refused under every positive factor |
| `CostModel.FitCostModel` | hmasync_controller/bench/metrics/costmodel.py:131-186 | the accumulating loops and the solver compute the fit of the requests with a usable energy; its count is their number, and if their energies are a fixed one plus fixed ones per prompt and completion token, those three come back under their own names |
| `CostModel.RowsAreUsable` | hmasync_controller/bench/metrics/costmodel.py:145-150 | the fitted rows are as many as the usable energies, and each request with one stands after those before it with its own prompt tokens, completion tokens and energy |
| `CostModel.PricesAreRecovered` | hmasync_controller/bench/metrics/costmodel.py:145-186 | whenever a fit is returned for requests priced per prompt and per completion token, alpha is the prompt price, beta the completion price, e_fixed the rest, and r2 is 1 |
| `CostModel.ShortRequestsAreFitted` | hmasync_controller/bench/metrics/costmodel.py:131-186 | three concrete short requests are fitted whatever their energies, and the coefficients are read off them |
| `CostModel.Accumulate` | hmasync_controller/bench/metrics/costmodel.py:155-162 | the nested loops compute the normal equations: all nine products and three right-hand sides are dot products of columns |
| `CostModel.AddRow` | hmasync_controller/bench/metrics/costmodel.py:158-162 | one item adds its outer product and its energy-weighted features, no more |
| `CostModel.SumSquares` | hmasync_controller/bench/metrics/costmodel.py:171-176 | the second loop computes the residual and the total sum of squares |
| `CostModel.FitIsLeastSquares` | hmasync_controller/bench/metrics/costmodel.py:135-167 | returned coefficients minimise the sum of squared residuals over all triples, and no other triple attains the minimum |
| `CostModel.ResidualsOrthogonal` | hmasync_controller/bench/metrics/costmodel.py:155-167 | the residuals of a solution are orthogonal to every prediction any triple can make |
| `CostModel.R2InUnitInterval` | hmasync_controller/bench/metrics/costmodel.py:169-178 | r2 is reported exactly when two energies differ, and then lies in [0, 1] |
| `CostModel.R2IsExplainedShare` | hmasync_controller/bench/metrics/costmodel.py:169-178 | one minus r2, times the spread of the energies around the mean, is the squared error of the fit, and no constant lies closer to the energies than that mean |
| `CostModel.ExactModelIsRecovered` | hmasync_controller/bench/metrics/costmodel.py:131-186 | items lying exactly on a linear model give back that very model, with r2 = 1 |
| `CostModel.SingularIffCollinear` | hmasync_controller/bench/metrics/costmodel.py:140-166 | the normal matrix is singular if and only if the constant and token columns are linearly dependent on the items |
| `CostModel.CollinearNeverFits` | hmasync_controller/bench/metrics/costmodel.py:140-166 | collinear token counts always give the empty fit |
| `CostModel.EmptyFitMeansCollinearIff` | hmasync_controller/bench/metrics/costmodel.py:140-166 | token counts are collinear if and only if the normal equations meet a zero pivot, and an empty fit means collinear if and only if there is one or no pivot is below the threshold |
| `CostModel.IndependentYetUnfitted` | hmasync_controller/bench/metrics/costmodel.py:140-166 | three concrete requests with independent token counts, whose normal equations are not singular, get the empty fit whatever their energies |
| `CostModel.TooFewItemsAreCollinear` | hmasync_controller/bench/metrics/costmodel.py:35-38 | fewer than three items are rank-deficient by construction, so the item guard refuses nothing solvable |
| `EnergyAttribution.InterpolateIsLinear` | hmasync_controller/bench/metrics/costmodel.py:54-58 | strictly between two neighbouring readings the value is the point of the straight line through them |
| `EnergyAttribution.InterpolateBetween` | hmasync_controller/bench/metrics/costmodel.py:43-58 | inside the sampled range the value lies between the energies of the readings around it |
| `EnergyAttribution.InterpolateMonotone` | hmasync_controller/bench/metrics/costmodel.py:43-58 | over a nondecreasing counter a later time never reads a smaller energy |
| `EnergyAttribution.InterpolateAtReading` | hmasync_controller/bench/metrics/costmodel.py:51-53 | at a sampled instant the first reading carrying that timestamp is returned |
| `EnergyAttribution.AttributedIff` | hmasync_controller/bench/metrics/costmodel.py:61-128 | a request gets an energy if and only if there are two readings, both its times are known and inside the sampled range and the counter does not fall between them; it is then that rise in joules |
| `EnergyAttribution.ReadingsAreSamples` | hmasync_controller/bench/metrics/costmodel.py:119-122 | the readings are exactly the samples with a counter value, in order, each with its own time and value |
| `EnergyAttribution.SerializedTotal` | hmasync_controller/bench/metrics/costmodel.py:61-80 | serialized windows never claim more than the counter gained between two instants, and exactly that when they tile them |
| `EnergyAttribution.AttributionIsConservative` | hmasync_controller/bench/metrics/costmodel.py:107-128 | with a growing counter and non-overlapping windows inside the range every timed request gets an energy, none negative, and they sum to at most the run's counter energy |
| `EnergyAttribution.CounterEnergy` | hmasync_controller/bench/metrics/compute.py:141-164 | reported exactly for two or more readings of which the last is not below the first, and then it is the millijoules from first to last, in joules |
| `EnergyAttribution.PctDiffMeaning` | hmasync_controller/bench/metrics/compute.py:166-173 | the percentage is reported exactly for a counter that gained, the integrated total can be recovered from it, and it is 0 exactly when the two agree |
| `EnergyAttribution.TilingIsExact` | hmasync_controller/bench/metrics/costmodel.py:107-128 | tiling requests sum to the counter energy if and only if the first reading at the final timestamp already carries the final energy |
| `EnergyAttribution.TilingCanFallShort` | hmasync_controller/bench/metrics/costmodel.py:51-53 | a concrete trace with a repeated final timestamp on which tiling windows sum to less |
| `Statistics.WrapCorrectedEnergy` | hmasync_controller/bench/metrics/compute.py:176-199 | the delta loop computes the wrap-corrected total; None exactly with fewer than two readings or a decrease and no range |
| `Statistics.WrapCorrectionIsExact` | hmasync_controller/bench/metrics/compute.py:179-199 | for a true energy read modulo the range, gaining less than one range per step, the total is the last energy minus the first, for any number of wraps |
| `Statistics.NoDropNoCorrection` | hmasync_controller/bench/metrics/compute.py:191-199 | a counter that never drops totals its last reading less its first, with or without a range |
| `Statistics.PercentilesAgree` | hmasync_controller/bench/metrics/stats.py:22-31 | both percentile routines compute the same function |
| `Statistics.PercentileIsLinear` | hmasync_controller/bench/metrics/compute.py:228-237 | in both routines a percentile whose position (n - 1) * p falls between two neighbours is as far along the line between them as the position is |
| `Statistics.MedianIsMiddle` | hmasync_controller/bench/metrics/compute.py:228-237 | the 0.5 percentile is the middle element, or half-way between the two middle ones |
| `Statistics.PercentileLaws` | hmasync_controller/bench/metrics/compute.py:228-237 | over a sorted series the percentile is monotone in its argument, stays between the extremes, and reaches them at 0 and 1 |
| `Statistics.OrderedIsUnique` | hmasync_controller/bench/metrics/compute.py:254 | there is one ascending order of a list of numbers, so what sorting returns is fixed by its elements |
| `Statistics.AtRankWithin` | hmasync_controller/bench/metrics/compute.py:234-237 | an interpolated rank lies between its two neighbours, and a whole rank returns that element |
| `Statistics.BurstRatioMeaning` | hmasync_controller/bench/metrics/compute.py:254-274 | for the samples in ascending order, the ratio is reported if and only if there are two and their median is positive, and it is then the 95th percentile over the median |
| `Statistics.BurstRatioAtLeastOne` | hmasync_controller/bench/metrics/compute.py:254-276 | a reported p95/p50 power ratio is at least 1 for any sample order |
| `Statistics.TtftMeaning` | hmasync_controller/bench/metrics/compute.py:295-303 | reported if and only if every request streamed and there was one, and then the median and the 95th percentile of the times in ascending order |
| `Statistics.TtftOrdered` | hmasync_controller/bench/metrics/compute.py:298-306 | ttft_p95 is at least ttft_p50 whenever they are reported |
| `Bootstrap.BootstrapJpcCi` | hmasync_controller/bench/metrics/stats.py:34-91 | for any draws, the routine computes `Interval`: withheld without a total, without attributable items, or with too many empty resamples |
| `Bootstrap.PairsAreItems` | hmasync_controller/bench/metrics/stats.py:60-64 | the resampled pairs are exactly the items with both an energy and a score, in order, each with its own |
| `Bootstrap.Resample` | hmasync_controller/bench/metrics/stats.py:76-85 | one ratio per resample that scores at least one, in order, and a count of exactly the others |
| `Bootstrap.RatiosAreJoulesPerCorrect` | hmasync_controller/bench/metrics/stats.py:76-85 | the ratios are exactly those of the resamples with a correct answer, in order, and a ratio times the correct answers is the energy of the resample |
| `Bootstrap.FullEnergiesSumToTotal` | hmasync_controller/bench/metrics/stats.py:43-48 | after spreading the remainder the items sum to the measured total exactly, and every item was given the same share |
| `Bootstrap.RemainderIsNonnegative` | hmasync_controller/bench/metrics/stats.py:69-71 | on a growing counter with serialized requests the remainder is never negative, nor is any item's share |
| `Bootstrap.IntervalLaws` | hmasync_controller/bench/metrics/stats.py:87-91 | the interval exists exactly when at most one resample in twenty scores nothing; then low <= high, and it is non-negative on a sound trace |
| `Bootstrap.IntervalIsPercentiles` | hmasync_controller/bench/metrics/stats.py:87-91 | a reported interval runs from the 2.5th to the 97.5th percentile of the ratios in ascending order, and needs a total and an attributable item |
| `Bootstrap.SummaryLaws` | hmasync_controller/bench/metrics/stats.py:87-91 | no percentile of an empty list is ever taken, and the two percentiles come out ordered |
| `Wilson.AccuracyCi` | hmasync_controller/bench/metrics/stats.py:94-110 | None exactly when nothing was scored; otherwise the bounds lie in [0, 1] around the observed proportion and are exactly the end points of the set the score test does not reject |
| `Wilson.IntervalInvertsScoreTest` | hmasync_controller/bench/metrics/stats.py:103-109 | the unclamped interval is exactly the set of proportions the score test does not reject, which is what makes it the Wilson interval |
| `Wilson.WilsonBounds` | hmasync_controller/bench/metrics/stats.py:103-110 | for every 0 <= n_correct <= n_scored the bounds satisfy 0 <= low <= n_correct/n_scored <= high <= 1 and the clamps never change them |
| `Scheduling.ScheduleExecutor.Tick` | hmasync_controller/executor.py:318-348 | one tick extends the run's attempt log and its executed set exactly by the due list computed once at its start, and reports the earliest target still ahead; `AttemptedIff` and `AttemptRecord` say what that log holds |
| `Scheduling.AttemptedIff` | hmasync_controller/executor.py:318-479 | a tick of a run attempts a placement of the last schedule pulled if and only if it is feasible, has a start, its turn has come and no earlier tick attempted the same workflow with the same start instant and offset; its turn comes at its start within the validity, and past it when its planned length would end no earlier than its deadline |
| `Scheduling.AttemptRecord` | hmasync_controller/executor.py:425-474 | every attempt of a run is of a placement of the last schedule pulled, in normal mode if and only if that schedule is open-ended or still valid, with the planned start as target or past validity the deadline less the planned length |
| `Scheduling.LatestPull` | hmasync_controller/executor.py:421-423 | the schedule and version a tick works on are those of the last pull, its own included |
| `Scheduling.ScheduleExecutor.Adopt` | hmasync_controller/executor.py:421-423 | adopting replaces schedule and version and keeps the executed set |
| `Scheduling.ScheduleExecutor.Pending` | hmasync_controller/executor.py:432-451 | the filtering loop and the sort compute the pending list |
| `Scheduling.ScheduleExecutor.AttemptAll` | hmasync_controller/executor.py:335-338 | the loop logs one attempt per due entry, of that entry and in that order, and marks its key afterwards |
| `Scheduling.OncePerTick` | hmasync_controller/executor.py:287-291 | no (workflow, start) key is attempted in two different ticks, through any schedules adopted in between |
| `Scheduling.AttemptsPerListing` | hmasync_controller/executor.py:335-338 | a tick attempts a key exactly as many times as the schedule lists it startable and due |
| `Scheduling.AtMostOnceIff` | hmasync_controller/executor.py:287-338 | over a whole run no key is attempted twice if and only if no tick meets two startable, due listings of one key |
| `Scheduling.AtMostOnce` | hmasync_controller/executor.py:287-291 | if no schedule lists a key twice, every key is attempted at most once in the whole run |
| `Scheduling.RepeatedListingRunsTwice` | hmasync_controller/executor.py:335-338 | any due placement listed twice is attempted twice in one tick |
| `Scheduling.AttemptsAreDue` | hmasync_controller/executor.py:432-474 | every attempt in a run is of a feasible placement with a start, at a target not after the tick's time |
| `Scheduling.AttemptsInOrder` | hmasync_controller/executor.py:449-457 | attempts follow ticks, and within a tick the earlier target first and then the smaller workflow id |
| `Scheduling.StringLeMeaning` | hmasync_controller/executor.py:449-450 | ids compare by code points: a prefix first, else the smaller character where they first differ |
| `Sorting.SortIsStable` | hmasync_controller/executor.py:449-450 | entries with the same target and id keep the order the schedule lists them in |
| `Scheduling.NothingDueIsSkipped` | hmasync_controller/executor.py:333-342 | after a tick, everything pending under the same catalog is strictly ahead, in normal and in fallback mode |
| `Scheduling.NextIsEarliest` | hmasync_controller/executor.py:340-348 | the reported next start is at most the target of every placement still startable, and strictly ahead |
| `Scheduling.NextIsSomeones` | hmasync_controller/executor.py:340-348 | and it is the target of some placement still startable |
| `Scheduling.FallbackRunsAsLateAsAllowed` | hmasync_controller/executor.py:425-474 | once the schedule in force is past its validity, an attempt of a windowed job is in fallback mode, its target shifted by exactly deadline minus planned end, and it is never made before that start |
| `Scheduling.LogKeys` | hmasync_controller/executor.py:335-338 | the executed set is exactly the keys attempted so far, across adoptions |
| `JobRun.Daemon.Execute` | hmasync_controller/executor.py:483-537 | one attempt, with each of its four calls returning, raising either kind of exception or dying: what it logs, how it ends, and that the card takes exactly the power-cap job it amounts to |
| `JobRun.Daemon.RunGuarded` | hmasync_controller/executor.py:517-529 | the restore of the `finally` happens on every way out of the adapter's run that the process survives, and only an ordinary exception is contained |
| `JobRun.Daemon.Live` | hmasync_controller/executor.py:335-338 | an exception that escapes an attempt ends the loop: the log and the card's limit stop there |
| `JobRun.LogIsBracketed` | hmasync_controller/executor.py:503-536 | whatever the four calls do, no process lifetime breaks a bracketing rule, and every started job is closed by one ack for the same workflow and version before the next starts if and only if none of the calls escapes |
| `JobRun.AttemptIsBracketed` | hmasync_controller/executor.py:503-536 | an attempt leaves a job open exactly when it does not complete, and leaves its cap applied exactly when the process died between apply and restore |
| `JobRun.ProfilerCanEscape` | hmasync_controller/profiler.py:490-492 | when the profiler fails to start, the job acked as started is never closed |
| `JobRun.BracketsBalance` | hmasync_controller/executor.py:513-530 | in every log that breaks no rule profiler and cap brackets balance, but for the one job still open |
| `JobRun.BracketedExactlyOnce` | hmasync_controller/executor.py:513-533 | every completed job is profiled, run and reported exactly once and, with a cap wired, capped and uncapped exactly once, raising adapters included |
| `JobRun.AckSaysOutcome` | hmasync_controller/executor.py:499-536 | a completed job is acked started once and then finished, if its adapter returned and said ok, or else failed, once; a failed preflight is acked failed only |
| `JobRun.KilledLogIsAPrefix` | hmasync_controller/executor.py:503-536 | a process killed between any two events leaves a log that breaks no bracketing rule |
| `JobRun.CapIsUndoneIff` | hmasync_controller/executor.py:513-529 | an attempt leaves the card at the limit it found if and only if it applied no cap, or the process lived to restore it and the restore write went through, or the cap was that limit already |
| `JobRun.LifetimeIsJobs` | hmasync_controller/executor.py:335-338 | to the card a lifetime is exactly the history of its power-cap jobs |
| `JobRun.EscapesLeaveNoCap` | hmasync_controller/executor.py:513-530 | over any number of processes, however exceptions end them, a preserved limit survives if none dies between a cap's apply and its restore and the restore writes go through |
| `JobRun.FinishBound` | hmasync_controller/executor.py:320-337 | with honest adapters the k-th job of a tick is over by the tick start plus the delays and budgets up to it, and overruns its limit by at most those delays and the earlier runs |
| `JobRun.TimeoutIs` | hmasync_controller/executor.py:546-579 | a declared timeout is kept; otherwise the bound ends at the placement, or without one at the local deadline, but is at least a minute; none without all three |
| `JobRun.JobsCanOverrun` | hmasync_controller/executor.py:572-579 | the bound is attained: any job can end past its window by all the delays so far and a minute per earlier job, without any adapter breaking its timeout |
| `JobRun.DrainingDelaysTheFirstJob` | hmasync_controller/executor.py:320-337 | a concrete first job that keeps to its timeout and ends as late as the drain before it took |
| `JobRun.WindowIsKeptIff` | hmasync_controller/executor.py:546-579 | a job's window is guaranteed if and only if it is the first of its tick, its run starts with no delay after the tick's start, and at least the minimum timeout is left |
| `SpoolQueue.IdsNeverReused` | hmasync_controller/spool.py:29-38 | over any history of enqueues, removals, clears and restarts ids strictly increase, and the queue stays in that order |
| `SpoolQueue.QueuedUntilRemoved` | hmasync_controller/spool.py:4-8 | over any such history the queue holds exactly the items issued and not since removed or cleared: nothing leaves by itself |
| `SpoolQueue.Spool.Enqueue` | hmasync_controller/spool.py:86-112 | appends at the tail under an id above every id in the queue |
| `SpoolQueue.Spool.Remove` | hmasync_controller/spool.py:114-117 | deletes the rows with that id and keeps order |
| `SpoolQueue.PrefixIsOldest` | hmasync_controller/spool.py:126-134 | what a limited query returns is in id order, and every item it leaves out is newer than all it returns |
| `SpoolQueue.WithoutMembers` | hmasync_controller/spool.py:114-117 | a removal keeps exactly the rows with another id |
| `SpoolQueue.RemoveHead` | hmasync_controller/spool.py:114-117 | removing the oldest id removes exactly the head |
| `Reporting.RunReporter.Push` | hmasync_controller/reporter.py:133-154 | the batch loop performs exactly the pushes of `PushBundle`, whatever the network does and wherever the process dies |
| `Reporting.ChunksAreBatches` | hmasync_controller/reporter.py:64-68 | the batches in order are the trace; with a positive size all but the last have exactly that many samples and the last at most that many |
| `Reporting.RunReporter.ReportRun` | hmasync_controller/reporter.py:87-105 | push live, or else enqueue the whole report |
| `Reporting.ReportEnds` | hmasync_controller/reporter.py:87-105 | by the number of steps that go through: after a whole push nothing is queued, after a failed one the report joins the tail under a new id unless the process dies first, and only then has the reporter returned |
| `Reporting.RunReporter.DrainSpool` | hmasync_controller/reporter.py:109-129 | the loop performs `AfterDrain` and reports how many were drained and how many remain |
| `Reporting.PushBundleEffect` | hmasync_controller/reporter.py:133-154 | one push leaves the server alone or appends one batch-aligned prefix of the trace to the run's only row; success means the whole trace |
| `Reporting.PushEnds` | hmasync_controller/reporter.py:133-154 | a push succeeds when all its steps go through, fails at the first reply that is not a delivery, and dies only when there are no more replies |
| `Reporting.NothingIsLost` | hmasync_controller/reporter.py:4-19 | over every history of reports, drains, outages, lost replies and kills, a report for which `report_run` returned is queued or wholly upstream |
| `Reporting.ServerIsIdempotent` | hmasync_controller/reporter.py:13-19 | upstream holds at most one row per run, and each row is a concatenation of batch-aligned prefixes of that run's trace |
| `Reporting.DrainTakesAPrefix` | hmasync_controller/reporter.py:109-129 | after any drain the queue is a suffix of what it was, everything removed is wholly upstream, the counts add up, and an unlimited drain stops early exactly when something is left |
| `Reporting.StoredIsWhatWasApplied` | hmasync_controller/reporter.py:87-154 | over every history a run's samples upstream are, push by push, the prefixes of its trace that its pushes got applied, and a run returned and no longer queued was pushed whole |
| `Reporting.StoredOnceIff` | hmasync_controller/reporter.py:21-26 | a run returned and no longer queued has exactly its trace upstream if and only if its pushes got no more samples applied than the trace has; for a non-empty trace, if and only if just one push got any |
| `Reporting.OrdinaryOutagesStoreOnce` | hmasync_controller/reporter.py:24-26 | the documented common case: when only run pushes fail, what is not queued has exactly its trace upstream and what is queued has no samples there |
| `Reporting.LostSampleReplyDuplicates` | hmasync_controller/reporter.py:21-24 | the documented limitation is real: one lost sample reply stores a one-batch trace twice |
| `Reporting.HealthyDrainEmpties` | hmasync_controller/reporter.py:109-129 | over a healthy network, given enough steps, a drain empties what it set out to drain |
| `AuthedCalls.ApiClient.AuthedRequest` | hmasync_controller/apiclient.py:242-268 | the call performs exactly `Called`, whose sends and result `FirstSend` and `RetriedIff` give: login if needed, one send, on 401 one renewal and one more send |
| `AuthedCalls.FirstSend` | hmasync_controller/apiclient.py:242-260 | the request is left out if and only if a login is needed and impossible or not accepted; otherwise it goes out with the key, the token held or the one the login brought, and its reply is the result unless it is a 401 without a key |
| `AuthedCalls.RetriedIff` | hmasync_controller/apiclient.py:261-268 | after a 401 without a key the call is sent again if and only if a refresh token is held and its refresh leaves a renewed session, or else email and password are set and the login is accepted; the second send carries the delivered token and its reply is the result, and otherwise the result is the 401 |
| `AuthedCalls.LoginLaws` | hmasync_controller/apiclient.py:183-198 | a login goes out exactly when email and password are configured, succeeds exactly when its reply does, and then takes over each token the reply carries and keeps the others |
| `AuthedCalls.RefreshLaws` | hmasync_controller/apiclient.py:200-212 | a refresh goes out exactly when a refresh token is held, and succeeds exactly when its reply does and an access token, fresh or old, is held afterwards |
| `AuthedCalls.SendsCarryCredentials` | hmasync_controller/apiclient.py:153-159 | a request leaves without a credential if and only if there is no API key, no token was held and the accepted login carried none; every retry carries what is held after the renewal |
| `AuthedCalls.LoginWithoutToken` | hmasync_controller/apiclient.py:231-240 | a concrete accepted login without a token, after which the request goes out bare |
| `AuthedCalls.CallAppliesAtMostOnce` | hmasync_controller/apiclient.py:242-268 | against an honest server a call acts at most once: refused means not at all, success means once, and a second send only follows a 401 |
| `AuthedCalls.TokensAreKept` | hmasync_controller/apiclient.py:214-268 | a call never loses a token it held, an API key is sent once and never renewed, and anything but a 401 is returned as it came |
| `BenchDrain.DrainBenchSpool` | hmasync_controller/bench/submission.py:244-264 | the loop computes `DrainRecords` and the remaining count |
| `BenchDrain.DrainAccounting` | hmasync_controller/bench/submission.py:244-264 | the queue loses a prefix; what was accepted is that prefix's bundles in order, plus at most the new head after a lost reply; malformed records are dropped, and an early stop leaves a well-formed bundle at the head |
| `BenchDrain.DrainGoesAsFar` | hmasync_controller/bench/submission.py:244-264 | a drain submits one bundle per delivery until a reply is anything else, and is complete if and only if the deliveries suffice |
| `PowerCap.PowerCapManager.Apply` | hmasync_controller/powercap.py:137-203 | one apply is the step `AfterApply`: the limit changes and the prior limit is saved together or not at all |
| `PowerCap.AppliedIff` | hmasync_controller/powercap.py:137-203 | a cap is written if and only if there is a GPU, a recommendation, a readable limit and a write that goes through; the card is then within half a milliwatt of it and the limit found is saved, and otherwise neither changes |
| `PowerCap.PowerCapManager.Restore` | hmasync_controller/powercap.py:205-237 | one restore is the step `AfterRestore`: the saved limit is forgotten even when the write fails |
| `PowerCap.PowerCapManager.RecommendedCap` | hmasync_controller/powercap.py:116-122 | the cache is refreshed exactly when it is empty or older than its lifetime, failures included |
| `PowerCap.MilliwattsRoundTrip` | hmasync_controller/profiler.py:521-559 | reading a limit in watts and writing it back restores the same milliwatts |
| `PowerCap.NothingSavedBetweenJobs` | hmasync_controller/powercap.py:217-220 | after any history of brackets and kills no limit is saved, so a restore only ever undoes its own apply |
| `PowerCap.PreserveBracket` | hmasync_controller/powercap.py:205-237 | under preserve a bracket ends at the limit it found if and only if nothing was applied, the restore write went through, or the cap was that limit already |
| `PowerCap.ManagedBracket` | hmasync_controller/powercap.py:222-229 | under managed an applied and restored bracket ends at the factory default when readable, else at the found limit |
| `PowerCap.PreserveHistory` | hmasync_controller/powercap.py:208-209 | a preserved limit survives any number of brackets |
| `PowerCap.ManagedHistory` | hmasync_controller/powercap.py:209-212 | a managed history without kills ends at the default if any bracket applied a cap, and else where it began |
| `PowerCap.EveryBracketEnds` | hmasync_controller/powercap.py:205-237 | in any history, kills included, every applied and restored bracket ends at the limit it found, or under managed at the readable default |
| `PowerCap.NoneDecides` | hmasync_controller/powercap.py:205-237 | in any history, kills included, the limit changes only through a killed job that applied a cap or a managed job that did |
| `PowerCap.LastDecides` | hmasync_controller/powercap.py:205-237 | and the last such job alone fixes where the card ends: at the cap it left behind if it was killed, else at the default |
| `PowerCap.LeftoverCap` | hmasync_controller/powercap.py:170-212 | a killed job's cap is handed on by every later bracket under preserve and healed by the first applied one under managed |
| `PowerCap.FetchBound` | hmasync_controller/powercap.py:116-122 | with a clock that does not run backwards the recommendation is fetched at most 1 + floor(span / ttl) times |
| `PowerCap.CapIsRecent` | hmasync_controller/powercap.py:116-122 | after an apply that sees a GPU the cached recommendation was fetched less than a lifetime ago and is what that fetch brought |
| `BenchPower.DerivePowerSweepCaps` | hmasync_controller/bench/quick.py:634-661 | the loop computes `Ladder` |
| `BenchPower.LadderShape` | hmasync_controller/bench/quick.py:639-661 | the rungs strictly descend, and they are exactly the clamped wattages that come out below stock; with a known range they lie inside it |
| `BenchPower.RungIsNearest` | hmasync_controller/bench/quick.py:653-657 | a rung is its fraction of stock in the nearest whole watts, moved to the nearer end of a known range only when outside it |
| `BenchPower.FullLadder450` | hmasync_controller/bench/quick.py:634-661 | a 450 W card gets 382, 338 and 292 W, with and without its range |
| `BenchPower.LocalNvmlSampler.SetPowerLimit` | hmasync_controller/bench/sampler.py:319-331 | a write that cannot be read back has still changed the card |
| `BenchPower.LocalNvmlSampler.GetPowerLimit` | hmasync_controller/bench/sampler.py:275-280 | none exactly on a driver failure; otherwise whole watts, not above the limit and less than one watt below it |
| `BenchPower.LocalNvmlSampler.GetPowerLimitDefault` | hmasync_controller/bench/sampler.py:282-305 | the same of the factory default |
| `BenchPower.ReadBackLosesLessThanAWatt` | hmasync_controller/bench/sampler.py:275-331 | writing back a limit that was read loses less than a watt, nothing exactly for whole watts, and nothing more when repeated |
| `BenchPower.RunPowerSweep` | hmasync_controller/bench/quick.py:713-784 | the sweep leaves the card at the last cap written, and confirms exactly the caps before the first write that is not confirmed |
| `BenchPower.SweepLeaves` | hmasync_controller/bench/quick.py:756-784 | a sweep leaves the card at the last cap whose write landed, confirmed or not, and where it was when none did |
| `BenchPower.SweepTriesFirstRungs` | hmasync_controller/bench/quick.py:713-755 | the caps tried are the first rungs below the default, or below the limit found when that cannot be read, as many as may be measured |
| `BenchPower.RunBenchSuite` | hmasync_controller/bench/quick.py:1264-1379 | capture, sweep and `finally` together take the step `AfterSuite` |
| `BenchPower.HistoryStaysAllowed` | hmasync_controller/bench/sampler.py:288-299 | over any history of completed, failed and killed suites with a readable default the card is at its initial limit, that limit in whole watts, the default, or a rung of the default's ladder |
| `BenchPower.CompletedSuite` | hmasync_controller/bench/quick.py:1365-1379 | a suite that reaches its `finally` ends where its policy says if and only if the restore is not refused or the sweep left it there |
| `BenchPower.FallbackSuite` | hmasync_controller/bench/quick.py:1365-1379 | when the limit the policy promises could not be read, the other captured limit is written back, and with neither the card stays where the sweep left it |
| `BenchPower.CompletedHistory` | hmasync_controller/bench/quick.py:1365-1379 | no drift over any history of restored suites: the card ends at the factory default if any of them managed it, else at the whole watts of the limit the first one found |
| `BenchPower.UnreadableDefaultWalksDown` | hmasync_controller/bench/quick.py:717-725 | without a readable default two killed suites do walk a concrete card down |
| `RougeL.LcsLength` | hmasync_controller/bench/tasks/rouge_l.py:51-68 | two rolling rows compute the last cell of the full table |
| `RougeL.LcsIsUpperBound` | hmasync_controller/bench/tasks/rouge_l.py:51-68 | no common subsequence is longer than the table's value |
| `RougeL.LcsIsAttained` | hmasync_controller/bench/tasks/rouge_l.py:51-68 | some common subsequence has exactly that length |
| `RougeL.RougeLFMeasure` | hmasync_controller/bench/tasks/rouge_l.py:71-89 | the score is the F-measure of the two token lists, for any tokenizer |
| `RougeL.FMeasureIsDice` | hmasync_controller/bench/tasks/rouge_l.py:84-89 | over exact reals F is twice the common length over the sum of the two lengths |
| `RougeL.FMeasureLaws` | hmasync_controller/bench/tasks/rouge_l.py:71-89 | F lies in [0, 1], is symmetric, is 1 exactly for equal non-empty token lists, and 0 exactly when no token is shared |
| `BoxedAnswers.ExtractBoxedAnswers` | hmasync_controller/bench/tasks/math500.py:49-76 | the nested loops compute `Extract` |
| `BoxedAnswers.MatchBrace` | hmasync_controller/bench/tasks/math500.py:64-71 | the inner loop finds the brace that closes depth one, or reports that none does |
| `BoxedAnswers.PrintThenExtract` | hmasync_controller/bench/tasks/math500.py:49-76 | printing any balanced payloads between marker-free separators and extracting returns exactly them |
| `BoxedAnswers.ExtractionDecomposes` | hmasync_controller/bench/tasks/math500.py:52-54 | every text is the print of what is extracted from it: balanced payloads, marker-free separators and a tail with no readable box, so payloads never overlap |
| `BoxedAnswers.CloseFindsBalanced` | hmasync_controller/bench/tasks/math500.py:64-71 | the scan stops exactly at the brace that closes a balanced payload |
| `BoxedAnswers.CloseIsBalanced` | hmasync_controller/bench/tasks/math500.py:64-74 | wherever the scan closes, the payload before it is balanced |
| `BoxedAnswers.ExtractionIsMonotone` | hmasync_controller/bench/tasks/math500.py:49-76 | what is extracted from a text is a prefix of what is extracted from any continuation |
| `BoxedAnswers.UnclosedIsIgnoredIff` | hmasync_controller/bench/tasks/math500.py:54-73 | an unclosed marker is passed over, as documented, if and only if no closed box follows it |
| `BoxedAnswers.UnclosedHidesLaterBox` | hmasync_controller/bench/tasks/math500.py:72-73 | a concrete text whose closed box is lost |
| `SchemaValidator.ValidateBundle` | hmasync_controller/bench/submission.py:55-60 | the list is exactly the walk's errors, all of them real; it is empty if and only if the bundle conforms; the only other outcome is the unresolvable reference |
| `SchemaValidator.Validate` | hmasync_controller/bench/submission.py:63-96 | the recursive walk appends its own errors to the shared list and nothing else |
| `SchemaValidator.ValidateProperties` | hmasync_controller/bench/submission.py:90-92 | declared properties are walked in schema order |
| `SchemaValidator.ValidateElements` | hmasync_controller/bench/submission.py:94-96 | elements are walked in document order |
| `SchemaValidator.NoErrorsIffConforms` | hmasync_controller/bench/submission.py:55-96 | no errors if and only if the document satisfies the order-free meaning of the subset as coded |
| `SchemaValidator.TypeNames` | hmasync_controller/bench/submission.py:104-115 | for every document and type name: a node with only that type accepts exactly the documents of that runtime type for the seven names, and none for any other |
| `SchemaValidator.ExactKeys` | hmasync_controller/bench/submission.py:81-89 | a required key must be there and a closed object may hold declared keys only |
| `SchemaValidator.ReferenceNames` | hmasync_controller/bench/submission.py:99-101 | a reference resolves to the definition called by the text after its last slash |
| `SchemaValidator.NeverRaises` | hmasync_controller/bench/submission.py:63-101 | when every reference resolves, cyclic definitions included, the walk finishes on every document |
| `SchemaValidator.ErrorsAreReal` | hmasync_controller/bench/submission.py:63-96 | every error's path leads to a place in the document and to the schema node governing it, and the place breaks that node in the way the reason says |
| `SchemaValidator.NothingIsOverlooked` | hmasync_controller/bench/submission.py:81-96 | and nothing is left out: every missing required key, every undeclared key of a closed object and every error of every member and element is in the list |
| `SchemaValidator.OneErrorPerMismatch` | hmasync_controller/bench/submission.py:67-79 | a place that breaks its constant, enumeration or type is reported once, for the first it breaks, and not descended into |
| `SchemaValidator.ConstantsAgreeIff` | hmasync_controller/bench/submission.py:67-72 | the walker compares every value with a constant as the standard does if and only if the constant holds no boolean and no number equal to 0 or 1; for parsed constants the values may be restricted to parsed ones |
| `SchemaValidator.AgreesWithStandard` | hmasync_controller/bench/submission.py:13-17 | on schemas of the vendored shape with such constants, a document conforms if and only if JSON Schema 2020-12 accepts it and at no visited place a whole number written as a float meets types that name `integer` but not `number` |
| `SchemaValidator.WhereTheyDiffer` | hmasync_controller/bench/submission.py:67-111 | concrete documents on which the walker and the standard disagree, one each way |

## Left out

- Floating-point rounding: numerics are over exact reals. Python's `round` (ties to even) and floor
  division are modelled; a fraction of the ladder that ties exactly in reals may not tie in floats.
- NaN and infinities, which the JSON reader and the samplers could in principle deliver.
- Wilson.AccuracyCi: takes the square root as the non-negative number whose square is the radicand,
  and any positive critical value, since neither `** 0.5` nor the normal quantile is exact. Counts
  outside 0 to n_scored, for which no real root may exist, are outside its contract.
- Bootstrap.BootstrapJpcCi: takes the resamples as arbitrary index lists, at least one of them; with
  `n_boot = 0` the source divides by zero.
- RougeL.RougeLFMeasure: takes the tokenizer as an arbitrary function, since it rests on regular
  expressions.
- HTTP, NVML, SQLite and the clock are inputs or oracles. The server is assumed to insert runs
  idempotently, to append samples, and to answer below 400 only when it acted.
- Scheduling.ScheduleExecutor.Tick: starts with no memory of earlier processes, as the source does,
  so a restarted executor may attempt a key again. It models ticks that run to their end; an
  attempt that escapes ends the process (`JobRun`), and the log is then a prefix of the modelled one.
  Of the tick's result it models the attempts and
  the next start, not the mode, counts and drain totals; the drains are in `Reporting` and `BenchDrain`.
- Scheduling.FallbackRunsAsLateAsAllowed: times are an instant and a fixed offset, so two ISO texts
  are equal exactly when both agree; daylight-saving arithmetic on zone objects is not modelled.
- JobRun.Daemon.Execute: an exception arises inside one of the profiler's start, the adapter's run,
  the profiler's stop or the report. An interrupt between those calls or inside the power-cap manager,
  acks that fail to reach the server, record building and telemetry are not modelled.
- Reporting.NothingIsLost: a SQLite write that fails is not modelled; a kill before the enqueue is.
- SpoolQueue.Spool.Enqueue: stores the body as a value; the JSON encoding of records is not modelled.
- BenchPower.RunPowerSweep: explicit `caps_w`, a negative `max_points`, the measurements themselves
  and the reason texts are not modelled.
- SchemaValidator.Validate: error texts are reasons; `$ref` is followed one hop and `required` is
  read only beside `properties`, as coded. Objects are lists of fields in document order.
- `submit_bundle_file`, the denylist walk, schema loading, thermal pauses, flexibility metrics,
  dataset loading, prompt building, CLI, `.env` editing and logging: branching without hard state.
- asyncio and sampler threads: only the sequence of samples matters to the metrics.
