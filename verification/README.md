# Verified kernels of the trading back end

This project models the numerical kernels and state machines of the trading back end and proves
what they compute, over every input and every run. It stands beside the program: nothing in it
executes the original.

`dafny verify dfyconfig.toml` checks everything.

Floats and decimals are exact reals (structural_break.rs also gets the infinities and NaN its
branches depend on), clocks are sequences of readings or parameters, random draws and rounding to a
price grid are parameters. Classes whose methods update fields or buffers in place are Dafny classes
over the same fields; each method is tied to a function of the old state, and the theorems are
lemmas about that function.

| files | models |
|---|---|
| Walks, Relaxation, PredecessorGraph, BellmanFordSolver, CyclePricing, ArbitrageScan | backend/arbitrage/bellman_ford_solver.py: relaxation with slack, early exit, detection, walk-back, pricing, deduplication |
| GaussianElimination, SingularSystems, LeastSquares, StructuralBreak, Solvability, Floats | backend/anomaly/structural_break.rs: normal equations, the pivoted solver and when it gives up, RSS, Chow and QLR tests |
| GaussJordan, Invertibility, RollingCovariance, CovarianceEstimator, ClampedCovariance | backend/anomaly/mahalanobis_math.rs: inversion and when it fails, the sliding Welford covariance, the sign of the squared distance |
| NeweyWest, ForecastEvaluation | backend/analytics/forecast_eval.rs: long-run variance and the Diebold-Mariano comparison |
| ParticleFilter | backend/anomaly/particle_filter.py: systematic resampling |
| ChangePoint | backend/anomaly/change_point.py: the run-length posterior |
| Cusum | backend/anomaly/cusum_engine.rs: the two-sided control chart |
| CircuitBreaker, BreakerHistory | backend/alerts/circuit_breaker_telemetry.py: the breaker and interleaved `execute` calls |
| LeggingRiskShield | backend/arbitrage/legging_risk_shield.rs: the trade lifecycle |
| PerformanceIndexer | backend/analytics/performance_indexer.rs: time buckets |
| OrderFlow | backend/analytics/order_flow.py: running delta and footprint chart |
| Vectors, VectorLaws, Reals, Windows, Options | shared vocabulary |

## Where the code does something other than it says

The code is modelled as it is. Each point below is a theorem.

- bellman_ford_solver.py lists a cycle in predecessor order and looks quotes up in that order, so it
  prices the cycle run the other way. Quoted both ways, once for each pair, the total is the weight
  of that other walk, equals the gain found exactly when the two weigh the same
  (`PricedRightExactly`), and a cycle is answered exactly when the other walk passes the profit test
  (`ScanAnswersListedGains`). A market without two-leg gains never yields an answer, nor does one
  quoted in one direction only (`TwoSidedMarketIsSilent`, `OneSidedMarketIsSilent`); the triangle of
  `GainShownAsLoss` gains 3, is found, and is shown as a loss of 3.
- Its detection pass does not write predecessors, so a flagged vertex can be lost: exactly when the
  walk back meets a start vertex that was never relaxed; every other flagged vertex leads to a gain
  (`FlaggedLeadsToGain`). With a gain in reach some vertex is flagged, and the scan finds a gain
  exactly when one of the flagged is not lost (`ReachableGainIsFound`); the two-quote market of
  `MissedCycle` loses it, that of `KeptWithoutStart` keeps it although the start is never relaxed.
- structural_break.rs reports RSS as infinite when the solver finds no pivot. The residual sum is
  finite exactly for more observations than regressors, independent regressors, and no pivot of X'X
  strictly between 0 and 1e-10 (`RssFiniteExactly`). The last clause depends on the unit of the
  regressors: two observations at 1e-6 fail it, at 1e-5 they do not (`ScaleDecides`). The QLR scan
  finds the largest statistic exactly when the regressions of every test that does not decline solve
  (`MaximumExactly`); where no segment solves the supremum is 0 however large the break
  (`CollinearScanIsBlind`, `SmallScaleScanIsBlind`).
- mahalanobis_math.rs never moves its sample count off 0, so the mean is the last observation, the
  products stay 0 and the buffer grows without bound (`ShippedNeverCounts`). With a first sample that
  counts, clamping covariances as well as variances at 0 is wrong exactly when a covariance of the
  remaining window is negative (`RemoveIsBatch`, `ClampLosesCovariance`): in every run each entry is
  the window's raised by the running maximum of how far past windows' entries were below 0
  (`ClampedExceedsBatch`, `ExcessIsWorstDip`), so that clamp does no harm exactly when no window left
  by a removal had a negative covariance (`ClampHarmlessExactly`). `RepairedIsBatch` proves the version
  with both repairs right.
- Its inversion fails exactly for singular matrices and for a pivot strictly between 0 and 1e-12
  (`InverseExactly`); with a positive regularisation only the second can happen
  (`FallbackExactly`), and the distance is then measured with the identity.
- forecast_eval.rs calls better the model with the larger mean loss (`VerdictNamesLargerLoss`): the
  verdict means what it says exactly when the test is not decisive and names nobody
  (`VerdictRightExactly`, with the series of `WorseModelCalledBetter`).
- change_point.py updates its predictive parameters in an ascending in-place pass, so they depend on
  the prior and the last observation only (`MeanClosedForm`, `VarianceClosedForm`). With a threshold
  above the hazard rate no data can raise an event before the mass reaches the top bin
  (`NoEarlyEvent`).
- cusum_engine.rs documents `sample_count` as counted since the last reset; a reset leaves it, so the
  warm-up is not repeated. A degenerate deviation scales by 1 at construction and by 1e10 on a later
  update (`ScalesAgree`).
- circuit_breaker_telemetry.py can never log "Half-open testing failed"
  (`TestingNeverFailsBySuccess`). half_open_max_calls bounds the calls counted while half open, not
  those let in: with at most c calls running at once, up to min(half_open_max_calls,
  success_threshold) - 1 + c are let in before the breaker leaves the state, and that many can be
  (`LetInBound`, `LetInIsTight`). So it holds exactly for c up to 1, or up to 1 plus what it exceeds
  the success threshold by (`LimitExactly`, `OneAtATime`); without a bound on c there is none
  (`AdmissionsNotCounted`). Only an open breaker refuses exactly when
  success_threshold <= half_open_max_calls (`AdmissionExactly`); otherwise some run ends half open and
  refuses everyone, and looking and asking never change that (`HalfOpenStarves`, `StarvedForever`).
- legging_risk_shield.rs leaves an aborted trade in the active map, so aborts use capacity up
  (`AbortsLeakCapacity`, `SlotsFreedByCompletion`); a trade whose legs are all filled is told to abort
  once its earliest leg is 501 ms old (`FilledTradeExpires`); a leg stamped ahead of the clock reads as
  timed out until the clock catches up (`FutureStampAborts`). A verdict to abort stands for as long as
  the clock can show exactly when a leg has failed, a leg is overdue, or one leg's time runs out before
  another leg's stamp is reached; otherwise it falls at the latest stamp (`AbortStands`,
  `FutureStampRevokes`).
- Its counter of aborts is the aborted trades in flight plus the calls that abort or complete a trade
  already aborted (`AbortedCounter`). So it counts aborted trades exactly when there are no such calls,
  and completions plus aborts exceed the trades initiated exactly when there are more of them than
  trades in flight that were not aborted (`CountersAddUp`; three calls do in `AbortedCountsAsSuccess`).
- order_flow.py never prunes, because no level lies outside the active range; `max_levels` has no
  effect (`PruneLevels`). A chart has as many levels as distinct rounded prices were traded
  (`LevelCount`), so it exceeds the limit exactly when those do, and k trades can make k levels
  (`LadderLevels`). Trades of unknown side are sells to the running delta and nothing to the
  chart (`ViewsDifferByUnknown`).

## Model

| member | source | states |
|---|---|---|
| Relaxation.RelaxInv | backend/arbitrage/bellman_ford_solver.py:135-145 | Each relaxation keeps every label the weight of a recorded walk from the start whose last edge comes from the predecessor, and that walk loses more than the slack whenever it revisits a vertex |
| Relaxation.StillRelaxableMeansNegativeCycle | backend/arbitrage/bellman_ford_solver.py:177-201 | For every edge order and weighting, an edge still relaxable after n - 1 passes leads to a reachable closed walk of weight below -1e-10 |
| Relaxation.NegativeCycleIsDetected | backend/arbitrage/bellman_ford_solver.py:195-201 | A reachable closed walk of k edges weighing less than -k * 1e-10 leaves a relaxable edge |
| Relaxation.LabelsNearShortest | backend/arbitrage/bellman_ford_solver.py:172-189 | Without negative closed walks every label is the weight of a walk and at most (n - 1) * 1e-10 above the weight of any walk, and nothing is flagged |
| Relaxation.QuietPasses | backend/arbitrage/bellman_ford_solver.py:187-189 | Leaving the loop early loses no relaxation |
| Relaxation.ReachedIsLabelled | backend/arbitrage/bellman_ford_solver.py:171-189 | A vertex that k edges can reach is labelled after k passes, whatever the edge order |
| Relaxation.FlaggedIsLabelled | backend/arbitrage/bellman_ford_solver.py:191-201 | After n - 1 passes every flagged vertex has a label |
| PredecessorGraph.RunCyclesPay | backend/arbitrage/bellman_ford_solver.py:141-145 | At every point of every run each cycle of the predecessor array weighs less than -1e-10 |
| PredecessorGraph.LandsOnCycle | backend/arbitrage/bellman_ford_solver.py:231-236 | n steps back that never meet -1 end on a predecessor cycle |
| BellmanFordSolver.FirstIsHit | backend/arbitrage/bellman_ford_solver.py:251-254 | The first vertex the trace repeats is its own first, so cycle_idx is 0 |
| BellmanFordSolver.BellmanFordSolver.UpdateGraph | backend/arbitrage/bellman_ford_solver.py:109-133 | Replaces the edges and gives labels and predecessors the new size |
| BellmanFordSolver.BellmanFordSolver.RelaxEdge | backend/arbitrage/bellman_ford_solver.py:135-145 | Relaxes in place and reports whether it did |
| BellmanFordSolver.BellmanFordSolver.RelaxAll | backend/arbitrage/bellman_ford_solver.py:171-189 | Initialisation and the loop with its early exit leave the labels of all n - 1 passes |
| BellmanFordSolver.BellmanFordSolver.Detect | backend/arbitrage/bellman_ford_solver.py:191-201 | Collects exactly the targets of relaxable edges |
| BellmanFordSolver.BellmanFordSolver.ExtractCycle | backend/arbitrage/bellman_ford_solver.py:225-294 | Terminates; a result is the one predecessor cycle the vertex leads to, with its quotes in listed order; None only when there is no such result |
| BellmanFordSolver.BellmanFordSolver.Collect | backend/arbitrage/bellman_ford_solver.py:203-210 | One report for each set of vertices a flagged vertex leads to |
| BellmanFordSolver.BellmanFordSolver.Price | backend/arbitrage/bellman_ford_solver.py:262-278 | Sums the first matching quote of each listed pair, skipping missing ones; None when none is found |
| BellmanFordSolver.FirstEdgeIsFirst | backend/arbitrage/bellman_ford_solver.py:270-275 | Of several quotes for one pair the first in the list is taken |
| BellmanFordSolver.BellmanFordSolver.FindArbitrageCycles | backend/arbitrage/bellman_ford_solver.py:147-223 | The answer is that of a scan from the requested start, or from vertex 0 when none or an unknown one is given: the profitable, deduplicated reports of the flagged vertices; the counters say how many |
| BellmanFordSolver.SameVerticesSamePrice | backend/arbitrage/bellman_ford_solver.py:296-309 | Two reports over the same vertices have the same total, so deduplication loses nothing |
| BellmanFordSolver.RotationPrice | backend/arbitrage/bellman_ford_solver.py:262-275 | The total of a listed cycle does not depend on where the listing starts |
| BellmanFordSolver.ShippedPriceIsALoss | backend/arbitrage/bellman_ford_solver.py:256-278 | Quoted both ways without two-leg gains, every reported total is above +1e-10 |
| BellmanFordSolver.OneSidedMarketIsSilent | backend/arbitrage/bellman_ford_solver.py:266-278 | Without opposite quotes nothing is reported |
| BellmanFordSolver.ForwardPriceIsAGain | backend/arbitrage/bellman_ford_solver.py:256-278 | Read along its edges, with one quote per pair, a predecessor cycle prices below -1e-10 |
| CyclePricing.ReportIsListedWalk | backend/arbitrage/bellman_ford_solver.py:256-278 | Quoted both ways, a report is a closed walk of the market in listing order and its total that walk's weight |
| CyclePricing.PricedRightExactly | backend/arbitrage/bellman_ford_solver.py:256-278 | The total is the weight of the listed walk, and the found gain exactly when that walk and the cycle along its edges weigh the same |
| CyclePricing.ShortCyclePricedRight | backend/arbitrage/bellman_ford_solver.py:256-278 | Cycles of one or two vertices are priced as the gain they are |
| CyclePricing.GainShownAsLoss | backend/arbitrage/bellman_ford_solver.py:256-278 | A triangle that gains 3 is found and reported with a total of +3 |
| ArbitrageScan.ReportsAreNegativeCycles | backend/arbitrage/bellman_ford_solver.py:191-223 | Every reported list of vertices runs over a closed walk of the market below -1e-10, and such a walk is reachable from the start |
| ArbitrageScan.NoArbitrageNoReport | backend/arbitrage/bellman_ford_solver.py:147-223 | Without a closed walk below -1e-10 the answer is empty |
| ArbitrageScan.TwoSidedMarketIsSilent | backend/arbitrage/bellman_ford_solver.py:147-223 | Quoted both ways without two-leg gains, the answer is empty whatever longer gains exist |
| ArbitrageScan.FlaggedLeadsToGain | backend/arbitrage/bellman_ford_solver.py:191-249 | A flagged vertex leads nowhere exactly when its walk back meets a start vertex that was never relaxed, and to a closed walk below -1e-10 exactly when it does not |
| ArbitrageScan.ReachableGainIsFound | backend/arbitrage/bellman_ford_solver.py:171-249 | A reachable closed walk of k edges below -k * 1e-10 leaves a flagged vertex, and some flagged vertex leads to a gain exactly when one of them is not lost |
| ArbitrageScan.AnswersUnlessLost | backend/arbitrage/bellman_ford_solver.py:147-223 | Quoted both ways and with a profit test that lets everything through, the answer is nonempty exactly when some flagged vertex is not lost |
| ArbitrageScan.KeptWithoutStart | backend/arbitrage/bellman_ford_solver.py:191-236 | A market whose gain avoids the start: the start is never relaxed and the flagged vertex is not lost |
| ArbitrageScan.ScanAnswersListedGains | backend/arbitrage/bellman_ford_solver.py:147-223 | Quoted both ways, once for each pair, a set of vertices is answered exactly when a flagged vertex leads to a cycle over it whose walk in listing order passes the profit test |
| ArbitrageScan.TriangleIsSilent | backend/arbitrage/bellman_ford_solver.py:147-223 | A two-sided market without two-leg gains with a closed walk of weight -3 gives an empty answer |
| ArbitrageScan.MissedCycle | backend/arbitrage/bellman_ford_solver.py:191-210 | A market with a closed walk of weight -2 whose only flagged vertex yields no report |
| ArbitrageScan.StartDecides | backend/arbitrage/bellman_ford_solver.py:165-169 | A market whose gain a scan from 0 answers with total -2 and a scan from 2 does not |
| GaussianElimination.ForwardSolutions | backend/anomaly/structural_break.rs:144-180 | Elimination with row swaps ends triangular and keeps the solution set |
| GaussianElimination.BackSubstitutionUnique | backend/anomaly/structural_break.rs:182-196 | A vector satisfies the triangular rows exactly when it is the back substituted one |
| GaussianElimination.SolveIsExact | backend/anomaly/structural_break.rs:144-196 | Some(beta): beta, and nothing else, solves the given system |
| GaussianElimination.SolveRows | backend/anomaly/structural_break.rs:144-196 | The in-place loops return the solver function's answer |
| GaussianElimination.FindPivot | backend/anomaly/structural_break.rs:155-165 | First row with the largest absolute entry of the column |
| SingularSystems.ZeroPivotKernel | backend/anomaly/structural_break.rs:155-170 | Stopping at a pivot of exactly zero means that a vector other than zero is orthogonal to every row |
| SingularSystems.SameStop | backend/anomaly/structural_break.rs:144-180 | The pivot elimination stops at depends on the square part only, not on the right-hand side |
| LeastSquares.NormalSymmetric | backend/anomaly/structural_break.rs:100-121 | X'X is symmetric and its entries are the products of columns |
| LeastSquares.NormalRowResidual | backend/anomaly/structural_break.rs:144-196 | Row i of the normal equations says the residuals are orthogonal to column i |
| LeastSquares.NormalEquationsMinimise | backend/anomaly/structural_break.rs:124-141 | A solution of the normal equations has the least residual sum over all coefficients |
| LeastSquares.RssFormula | backend/anomaly/structural_break.rs:124-141 | At a solution y'y - beta'X'y is the sum of squared residuals |
| LeastSquares.SSRConcat | backend/anomaly/structural_break.rs:253-310 | Residual sums of two segments add up |
| StructuralBreak.RssIsLeast | backend/anomaly/structural_break.rs:124-141 | A finite rss is the true residual sum of the solved coefficients, nonnegative and least over all coefficients |
| StructuralBreak.FullAtLeastSegments | backend/anomaly/structural_break.rs:253-310 | RSS of the full sample is at least the sum over the two segments |
| StructuralBreak.FStatisticRange | backend/anomaly/structural_break.rs:282-296 | What the F expression can be: a nonnegative number, NaN, or infinite, and when |
| StructuralBreak.ChowStatistic | backend/anomaly/structural_break.rs:253-310 | A Chow F is a nonnegative number when all three regressions solve, NaN when a segment does not, infinite when only the full sample does not |
| StructuralBreak.ChowAnswer | backend/anomaly/structural_break.rs:253-310 | The Chow F of any sample, break point and number of regressors satisfies that equation |
| StructuralBreak.ChowExample | backend/anomaly/structural_break.rs:282-290 | Residual sums 99.2 and 2 with one regressor and five observations give F = 145.8 |
| StructuralBreak.ScanIsSupremum | backend/anomaly/structural_break.rs:330-345 | No scanned statistic exceeds sup_f, which is 0 or the statistic at best_break |
| StructuralBreak.SupIsMaximum | backend/anomaly/structural_break.rs:313-359 | When every regression solves, sup_f is the maximum of the scanned Chow F values and 0, attained at best_break when positive |
| StructuralBreak.MaximumExactly | backend/anomaly/structural_break.rs:253-359 | sup_f is the maximum of the scanned Chow F values and 0, attained at best_break when positive, exactly when full sample and segments solve for every test that does not decline |
| StructuralBreak.QlrAnswer | backend/anomaly/structural_break.rs:313-359 | The scan answers as stated for every trim proportion |
| StructuralBreak.CollinearRss | backend/anomaly/structural_break.rs:124-141 | Collinear regressors never give a finite rss |
| StructuralBreak.CollinearScanIsBlind | backend/anomaly/structural_break.rs:313-359 | On collinear regressors the supremum is 0 whatever the data |
| Solvability.RssFiniteExactly | backend/anomaly/structural_break.rs:124-196 | rss is finite exactly for more observations than regressors, none dependent on the others, and no pivot of X'X strictly between 0 and 1e-10 |
| Solvability.FiniteWhateverResponse | backend/anomaly/structural_break.rs:124-141 | Whether a regression solves does not depend on the response |
| Solvability.OneRegressor | backend/anomaly/structural_break.rs:144-196 | One regressor solves exactly when its squares sum to at least 1e-10 |
| Solvability.UnsolvedScanIsBlind | backend/anomaly/structural_break.rs:313-359 | When no break point leaves two segments that solve, the supremum is 0 |
| Solvability.SmallScaleScanIsBlind | backend/anomaly/structural_break.rs:313-359 | A regressor whose squares sum to less than 1e-10 gives a supremum of 0 whatever the data |
| Solvability.ScaleDecides | backend/anomaly/structural_break.rs:168-170 | Two independent observations at 1e-6 give an infinite rss, at 1e-5 a finite one |
| StructuralBreak.RollingRegression.Update | backend/anomaly/structural_break.rs:100-121 | The accumulators are X'X, X'y and y'y of exactly the observations so far |
| StructuralBreak.RollingRegression.UpdateProducts | backend/anomaly/structural_break.rs:103-112 | Upper triangle with mirroring adds the outer product, without counting the diagonal twice |
| StructuralBreak.RollingRegression.SolveNormalEquations | backend/anomaly/structural_break.rs:144-196 | Solves the normal equations of the observations accumulated |
| StructuralBreak.RollingRegression.ResidualSum | backend/anomaly/structural_break.rs:124-141 | The specified rss, infinite for too few observations or no solution |
| StructuralBreak.StructuralBreakDetector.AddObservation | backend/anomaly/structural_break.rs:221-251 | The window is the last 4 * min_observations observations and the stored regression is theirs |
| StructuralBreak.StructuralBreakDetector.ChowTest | backend/anomaly/structural_break.rs:253-310 | The answer in terms of least residual sums: F * k * (r1 + r2) = (R - r1 - r2) * (n - 2k), nothing for break points out of range or r1 + r2 < 1e-10 * (n - 2k), NaN or infinite when a regression does not solve |
| StructuralBreak.StructuralBreakDetector.QlrTest | backend/anomaly/structural_break.rs:313-359 | The statistics of these tests over the trimmed range in order, their supremum and the first break point that attains it; None when there is nothing to scan or every test declines |
| GaussJordan.InverseIsLeft | backend/anomaly/mahalanobis_math.rs:233-291 | Some(inv) implies inv * A = I for every size |
| GaussJordan.ReducedKeeps | backend/anomaly/mahalanobis_math.rs:245-280 | Swaps, scalings and eliminations keep every relation the augmented rows satisfy, and end with the identity on the left |
| GaussJordan.SymmetricInverse | backend/anomaly/mahalanobis_math.rs:233-291 | The inverse of a symmetric matrix is symmetric |
| GaussJordan.InverseSemidefinite | backend/anomaly/mahalanobis_math.rs:233-291 | The inverse of a symmetric positive semidefinite matrix is positive semidefinite |
| GaussJordan.InvertRows | backend/anomaly/mahalanobis_math.rs:233-291 | The in-place reduction of [A, I] returns the inverse function's answer |
| Invertibility.InverseExactly | backend/anomaly/mahalanobis_math.rs:233-291 | A matrix is inverted exactly when it is not singular and no pivot falls strictly between 0 and 1e-12 |
| Invertibility.OneByOne | backend/anomaly/mahalanobis_math.rs:259 | A single number is inverted exactly when its size is at least 1e-12 |
| RollingCovariance.CrossFormula | backend/anomaly/mahalanobis_math.rs:130-150 | A centered cross product is the sum of products less n times the means |
| RollingCovariance.InsertIsBatch | backend/anomaly/mahalanobis_math.rs:110-150 | Inserting gives the batch mean and centered cross products of one more observation |
| RollingCovariance.BatchRotates | backend/anomaly/mahalanobis_math.rs:152-189 | Batch moments do not depend on which end an observation is on |
| RollingCovariance.RemovalUndoesInsertion | backend/anomaly/mahalanobis_math.rs:152-189 | Removing what was just inserted gives the old moments back exactly when no clamped entry was negative |
| RollingCovariance.RemoveIsBatch | backend/anomaly/mahalanobis_math.rs:152-189 | Removing the oldest observation gives the batch moments of the rest; with the clamp on all entries exactly when no covariance of the rest is negative |
| RollingCovariance.ClampLosesCovariance | backend/anomaly/mahalanobis_math.rs:184 | A window whose negative covariance the clamp loses |
| CovarianceEstimator.ShippedNeverCounts | backend/anomaly/mahalanobis_math.rs:100-128 | As shipped, after any run the count is 0, the mean is the last observation, the products are 0 and the buffer is the whole history |
| CovarianceEstimator.RepairedIsBatch | backend/anomaly/mahalanobis_math.rs:100-189 | With the two repairs, after any run the moments are the batch moments of exactly the last window_size observations |
| ClampedCovariance.ClampedExceedsBatch | backend/anomaly/mahalanobis_math.rs:100-189 | With samples counted and the shipped clamp, after any run mean, count and buffer are the last window's and each entry is that window's plus the excess |
| ClampedCovariance.ExcessIsWorstDip | backend/anomaly/mahalanobis_math.rs:176-187 | The excess of an entry is the largest of 0 and how far below 0 it was in a window left by a removal |
| ClampedCovariance.ClampHarmlessExactly | backend/anomaly/mahalanobis_math.rs:100-189 | The moments are the batch moments exactly when no window left by a removal had a negative covariance |
| CovarianceEstimator.CovarianceSemidefinite | backend/anomaly/mahalanobis_math.rs:191-217 | The covariance of any window is symmetric and positive semidefinite |
| CovarianceEstimator.CovarianceEntries | backend/anomaly/mahalanobis_math.rs:191-217 | Entry by entry: the identity for fewer than two samples, otherwise centered cross products over n - 1 |
| CovarianceEstimator.ShippedCovariance | backend/anomaly/mahalanobis_math.rs:100-128 | As shipped the covariance is the identity after any run and the observation just taken in has no deviation from the mean |
| CovarianceEstimator.DistanceClampIdle | backend/anomaly/mahalanobis_math.rs:350-393 | With a nonnegative regularisation the squared distance is never negative, with the inverse or the identity it falls back to, so clamping it changes nothing |
| CovarianceEstimator.DistanceSolves | backend/anomaly/mahalanobis_math.rs:350-393 | The squared distance is diff'z where the regularised covariance sends z to diff, unless it is singular or loses a pivot |
| CovarianceEstimator.FallbackDistance | backend/anomaly/mahalanobis_math.rs:353-362 | Then it is diff'diff |
| CovarianceEstimator.FallbackExactly | backend/anomaly/mahalanobis_math.rs:350-362 | The identity is used exactly when the inversion loses a pivot to its tolerance, or without regularisation when the window is singular |
| CovarianceEstimator.RollingCovarianceEstimator.Update | backend/anomaly/mahalanobis_math.rs:100-128 | One observation: mean, products, count and buffer are those of the step function |
| CovarianceEstimator.RollingCovarianceEstimator.AddProducts | backend/anomaly/mahalanobis_math.rs:130-150 | Every cell of the flattened triangle gets its own product |
| CovarianceEstimator.RollingCovarianceEstimator.RemoveObservation | backend/anomaly/mahalanobis_math.rs:152-189 | Takes an observation out of mean and products, clamped as configured |
| CovarianceEstimator.RollingCovarianceEstimator.GetCovariance | backend/anomaly/mahalanobis_math.rs:191-217 | The identity below two samples, otherwise the mirrored triangle over n - 1 |
| NeweyWest.BartlettIsEnergy | backend/analytics/forecast_eval.rs:109-140 | The Bartlett-weighted sum of lag products is the sum of squared windowed sums |
| NeweyWest.RawVarianceIsEnergy | backend/analytics/forecast_eval.rs:109-140 | The estimate before the clamp, times n and lag count, is that sum, for lags beyond the series too |
| NeweyWest.ClampIdle | backend/analytics/forecast_eval.rs:139 | The clamp is idle for every series and lag, and the estimate is 0 exactly for a constant series |
| NeweyWest.Estimate | backend/analytics/forecast_eval.rs:109-140 | The loop returns the specified long-run variance |
| ForecastEvaluation.SwapSymmetry | backend/analytics/forecast_eval.rs:187-250 | Exchanging the models negates statistic and mean difference, exchanges the verdicts and keeps the rest |
| ForecastEvaluation.VerdictNamesLargerLoss | backend/analytics/forecast_eval.rs:207-238 | With a nonnegative critical value a model is called better exactly when the test is decisive and its mean loss is the larger |
| ForecastEvaluation.VerdictRightExactly | backend/analytics/forecast_eval.rs:207-238 | "Better" means the smaller mean loss exactly when the mean difference is within critical value times standard error, the variance is at most 1e-10, or observations are too few |
| ForecastEvaluation.WorseModelCalledBetter | backend/analytics/forecast_eval.rs:187-250 | Against a perfect forecast a model with absolute errors 1, 1, 5, 5 is called better |
| ForecastEvaluation.LossNonnegative | backend/analytics/forecast_eval.rs:82-95 | Losses are nonnegative exactly when a Huber delta is not negative |
| ForecastEvaluation.Compare | backend/analytics/forecast_eval.rs:187-250 | Over the observations all three series share: the mean difference is the difference of the two total losses over their number (under MSE, of the sums of squared errors), the statistic is it in standard errors, the verdicts compare the statistic with the critical value; nothing for too few observations |
| ForecastEvaluation.LossIs | backend/analytics/forecast_eval.rs:82-95 | The loss of an error is its square, its size, or half its square up to delta and the tangent beyond |
| ForecastEvaluation.MeanDifferenceIs | backend/analytics/forecast_eval.rs:206-218 | The mean difference times the number of observations is the difference of the two total losses |
| ForecastEvaluation.LossesDisagree | backend/analytics/forecast_eval.rs:82-95 | A series on which squared and absolute loss name different models |
| ParticleFilter.SystematicIndices | backend/anomaly/particle_filter.py:124-154 | The two-pointer loop stays in range, takes fewer than 2n steps, and each draw's ancestor owns its position on the cumulative weights |
| ParticleFilter.AncestryUnique | backend/anomaly/particle_filter.py:124-154 | Weights and offset determine the ancestors |
| ParticleFilter.AncestryOrdered | backend/anomaly/particle_filter.py:136-152 | Ancestor indices never decrease |
| ParticleFilter.BelowBound | backend/anomaly/particle_filter.py:124-154 | The number of ancestors below j is n times (weight before j less the offset), rounded up |
| ParticleFilter.OffspringCount | backend/anomaly/particle_filter.py:124-154 | n * w - 1 < offspring < n * w + 1 for each particle |
| ParticleFilter.OffspringTotal | backend/anomaly/particle_filter.py:124-154 | Offspring counts add up to n |
| ParticleFilter.SampleSizeRange | backend/anomaly/particle_filter.py:119-122 | The effective sample size lies between 1 and n, and is n exactly for uniform weights |
| ParticleFilter.UniformResamplingIsIdentity | backend/anomaly/particle_filter.py:124-154 | Uniform weights draw every particle once, in order |
| ParticleFilter.ResampleOnce | backend/anomaly/particle_filter.py:156-163 | Right after resampling another is due exactly when the threshold is above 1 |
| ParticleFilter.DueExactly | backend/anomaly/particle_filter.py:119-163 | Resampling is due exactly when the squared weights sum to more than 1 over the threshold |
| ParticleFilter.BootstrapParticleFilter.SystematicResampling | backend/anomaly/particle_filter.py:124-154 | Returns the ancestors' states with uniform weights |
| ParticleFilter.BootstrapParticleFilter.ResampleIfNeeded | backend/anomaly/particle_filter.py:156-163 | Resamples exactly when the effective sample size is below threshold * n, and otherwise changes nothing |
| ChangePoint.PosteriorNonnegative | backend/anomaly/change_point.py:136-160 | The posterior stays nonnegative |
| ChangePoint.PosteriorTotal | backend/anomaly/change_point.py:136-160 | It sums to 1 when normalised, otherwise to a negligible amount |
| ChangePoint.PosteriorIsBayes | backend/anomaly/change_point.py:136-160 | Run length 0 gets the hazard's share of all evidence and every other the rest of its predecessor's, over the evidence that survives unless that is at most 1e-10 |
| ChangePoint.EvolvedTotal | backend/anomaly/change_point.py:136-152 | Of the top bin's evidence only a hazard's share survives the shift; all other evidence does |
| ChangePoint.EmptyTopGivesHazard | backend/anomaly/change_point.py:136-160 | With an empty top bin the change probability is the hazard rate whatever was observed |
| ChangePoint.DetectionCondition | backend/anomaly/change_point.py:239-247 | The exact condition under which a normalised step declares a change point |
| ChangePoint.QuietUntilTop | backend/anomaly/change_point.py:136-174 | Until mass can have reached the top bin no data raises an event |
| ChangePoint.NoEarlyEvent | backend/anomaly/change_point.py:117-174 | With the threshold above hazard and 1e-10, no event in the first max_run_length observations after warm-up |
| ChangePoint.EventsAreApart | backend/anomaly/change_point.py:272-282 | After an event none follows for max_run_length - 4 observations |
| ChangePoint.ResetIsDistribution | backend/anomaly/change_point.py:272-282 | The distribution written after an event sums to 1 and has support 0 to 4 |
| ChangePoint.ResetWeights | backend/anomaly/change_point.py:272-282 | In it run length 0 weighs five times each of the lengths 1 to 4 |
| ChangePoint.EndedRunIs | backend/anomaly/change_point.py:248-253 | The run reported as ended is the first most likely of the lengths from 1 on, or their mean rounded down if all are at most 1e-10 |
| ChangePoint.MeanClosedForm | backend/anomaly/change_point.py:208-237 | Each run length's mean is the prior mean weighted against copies of the last observation |
| ChangePoint.VarianceClosedForm | backend/anomaly/change_point.py:208-237 | Each run length's variance likewise depends on the prior and the last observation only |
| ChangePoint.BayesianOnlineChangePointDetector.UpdatePredictiveParams | backend/anomaly/change_point.py:208-237 | What the ascending in-place pass leaves in both arrays |
| ChangePoint.BayesianOnlineChangePointDetector.Update | backend/anomaly/change_point.py:117-174 | The whole new state, the event and its contents; nothing but the parameters changes during warm-up |
| ChangePoint.BayesianOnlineChangePointDetector.CheckDetection | backend/anomaly/change_point.py:239-270 | An event exactly at the threshold, naming the most likely earlier run or the middle one |
| Cusum.ClampedIsLargestSegment | backend/anomaly/cusum_engine.rs:109-113 | The clamped sum is the largest sum over the segments ending now, the empty one included |
| Cusum.AlarmIffSegment | backend/anomaly/cusum_engine.rs:119-137 | An upward alarm exactly when some segment's excess passes the threshold, a downward one when a mirrored one does and there is no upward one |
| Cusum.SmallInputsAreQuiet | backend/anomaly/cusum_engine.rs:106-142 | Inputs within the allowance never raise an alarm, from any state below the threshold |
| Cusum.ShiftIsFoundInTime | backend/anomaly/cusum_engine.rs:106-142 | Inputs at least delta above the allowance sound the upward alarm first, within floor(h / delta) + 1 steps |
| Cusum.DelayIsTight | backend/anomaly/cusum_engine.rs:106-142 | From rest a shift of exactly delta sounds at that very step |
| Cusum.AlarmsMirror | backend/anomaly/cusum_engine.rs:119-137 | With a nonnegative allowance mirrored input gives mirrored alarms: the order of the two tests never shows |
| Cusum.ScalesAgree | backend/anomaly/cusum_engine.rs:75-80 | Constructor and update_reference agree on the scale exactly for deviations above 1e-10 |
| Cusum.StandardizedIs | backend/anomaly/cusum_engine.rs:107 | A standardized value times the reference deviation is the distance from the reference mean |
| Cusum.UnitFree | backend/anomaly/cusum_engine.rs:107 | Changing the unit of the observations changes no standardized value |
| Cusum.CusumEngine.Update | backend/anomaly/cusum_engine.rs:95-143 | Warm-up drops the observation; after it the result says whether a segment since the last reset passes the threshold, and an alarm clears the sums |
| Cusum.CusumEngine.Reset | backend/anomaly/cusum_engine.rs:147-151 | Clears the two sums; sample count, reference, scale and last update stay |
| Cusum.CusumEngine.UpdateReference | backend/anomaly/cusum_engine.rs:155-159 | New mean and scale; the sums stay |
| CircuitBreaker.RunInv | backend/alerts/circuit_breaker_telemetry.py:130-250 | In every run: closed means failures below threshold and window rate below its limit, half-open means calls = successes below the threshold, the log is a gap-free chain of legal edges forward in time, each half-open entry at least timeout after the open entry before it, and operations = successes + failures |
| CircuitBreaker.SuccessKeepsRate | backend/alerts/circuit_breaker_telemetry.py:180-213 | A success that evicts an old entry keeps the window's failure rate below the limit |
| BreakerHistory.ClosedRemembers | backend/alerts/circuit_breaker_telemetry.py:180-250 | In every run a closed breaker counts failures and successes, and keeps the window, of exactly the results since it last closed or was reset |
| BreakerHistory.ClosedFailure | backend/alerts/circuit_breaker_telemetry.py:215-250 | A failure opens a closed breaker, and is reported as blocked, exactly when the failures since it closed reach the threshold or make up the limit's share of the last window_size results; the log tells which, with both counts |
| BreakerHistory.ClosedSuccess | backend/alerts/circuit_breaker_telemetry.py:180-213 | A success never opens a closed breaker |
| BreakerHistory.HalfOpenSuccess | backend/alerts/circuit_breaker_telemetry.py:196-203 | A success closes a half-open breaker exactly when it is the success that reaches the threshold since the breaker became half open |
| BreakerHistory.HalfOpenFailure | backend/alerts/circuit_breaker_telemetry.py:244-248 | A failure reopens a half-open breaker and is reported as blocked |
| BreakerHistory.OpenLook | backend/alerts/circuit_breaker_telemetry.py:130-138 | Looking at an open breaker finds it half open exactly once the timeout has passed since it opened |
| BreakerHistory.ResetCloses | backend/alerts/circuit_breaker_telemetry.py:334-342 | A manual reset closes with nothing remembered, logged unless already closed |
| BreakerHistory.TotalsAre | backend/alerts/circuit_breaker_telemetry.py:180-250 | total_failures counts every failure, total_successes every success that did not find the breaker open |
| BreakerHistory.LastFailureStamp | backend/alerts/circuit_breaker_telemetry.py:215-229 | The last failure time is a reading taken while that failure was recorded, and nothing else changes it |
| CircuitBreaker.TestingNeverFailsBySuccess | backend/alerts/circuit_breaker_telemetry.py:196-210 | "Half-open testing failed" is never logged |
| CircuitBreaker.HalfOpenAdmits | backend/alerts/circuit_breaker_telemetry.py:260-271 | If success_threshold <= half_open_max_calls a breaker refuses only while open |
| CircuitBreaker.HalfOpenStarves | backend/alerts/circuit_breaker_telemetry.py:260-271 | Otherwise, for every such configuration, some run from the initial state under a clock that does not run backwards ends half open and refuses |
| CircuitBreaker.StarvedForever | backend/alerts/circuit_breaker_telemetry.py:260-271 | From there looking and asking never change anything |
| CircuitBreaker.AdmissionExactly | backend/alerts/circuit_breaker_telemetry.py:260-271 | In every run only an open breaker refuses, exactly when success_threshold <= half_open_max_calls |
| CircuitBreaker.ExecuteInv | backend/alerts/circuit_breaker_telemetry.py:273-297 | Under every interleaving of execute calls the invariant holds, and admitted calls are those running, recorded or finished while open |
| CircuitBreaker.LetInBound | backend/alerts/circuit_breaker_telemetry.py:260-297 | Under every interleaving with at most c calls at once, at most min(half_open_max_calls, success_threshold) - 1 + c calls are let in since the breaker last became half open |
| CircuitBreaker.LetInIsTight | backend/alerts/circuit_breaker_telemetry.py:260-297 | For every configuration that admits while half open and every c, some run from the initial state lets in exactly that many |
| CircuitBreaker.LimitExactly | backend/alerts/circuit_breaker_telemetry.py:260-297 | half_open_max_calls bounds the calls let in exactly when c is at most 1 plus its excess over the success threshold |
| CircuitBreaker.OneAtATime | backend/alerts/circuit_breaker_telemetry.py:260-297 | It does for callers going one at a time, and not for two at once when it is at most the success threshold |
| CircuitBreaker.AdmissionsNotCounted | backend/alerts/circuit_breaker_telemetry.py:260-297 | For every k some run from the initial state reaches a half-open breaker with no call running into which k calls then start before one finishes |
| CircuitBreaker.CircuitBreakerTelemetry.MoveTo | backend/alerts/circuit_breaker_telemetry.py:140-178 | Logs the transition and resets what the new state resets |
| CircuitBreaker.CircuitBreakerTelemetry.Expire | backend/alerts/circuit_breaker_telemetry.py:130-138 | An open breaker becomes half-open once the timeout has passed |
| CircuitBreaker.CircuitBreakerTelemetry.AddSuccess | backend/alerts/circuit_breaker_telemetry.py:180-213 | The whole new state after a success, and whether it was counted |
| CircuitBreaker.CircuitBreakerTelemetry.AddFailure | backend/alerts/circuit_breaker_telemetry.py:215-250 | The whole new state after a failure |
| CircuitBreaker.CircuitBreakerTelemetry.CurrentRate | backend/alerts/circuit_breaker_telemetry.py:252-258 | Failures over length of the window, 0 for an empty one |
| CircuitBreaker.CircuitBreakerTelemetry.MayExecute | backend/alerts/circuit_breaker_telemetry.py:260-271 | The admission decision and the state it leaves |
| CircuitBreaker.CircuitBreakerTelemetry.ResetManually | backend/alerts/circuit_breaker_telemetry.py:334-342 | Manual reset, logged unless already closed |
| LeggingRiskShield.AbortMeans | backend/arbitrage/legging_risk_shield.rs:290-319 | On one clock reading: abort exactly when a leg failed, expired or reads as timed out, which for past stamps means overdue; the partial-fill clause adds nothing |
| LeggingRiskShield.CompleteMeans | backend/arbitrage/legging_risk_shield.rs:80-83 | Complete exactly when not to be aborted and every leg is Filled with its quantity matched to less than 1e-8 |
| LeggingRiskShield.FailureReportAborts | backend/arbitrage/legging_risk_shield.rs:253-286 | A report of failure or expiry is answered with AbortTrade |
| LeggingRiskShield.LastFillCompletes | backend/arbitrage/legging_risk_shield.rs:253-286 | A full fill of the last open leg is answered with CompleteTrade if no leg reads as timed out |
| LeggingRiskShield.AbortStands | backend/arbitrage/legging_risk_shield.rs:92-110 | With legs unchanged a verdict to abort stands for as long as the clock can show exactly when a leg failed, a leg is overdue, or one leg's time runs out before another leg's stamp |
| LeggingRiskShield.PastStampsStand | backend/arbitrage/legging_risk_shield.rs:290-319 | With no stamp ahead of the clock it stands as time advances |
| LeggingRiskShield.ReadingsBracket | backend/arbitrage/legging_risk_shield.rs:92-104 | With a clock reading for each leg asked, the verdict lies between those on the first and on the last reading |
| LeggingRiskShield.PartialFillDecides | backend/arbitrage/legging_risk_shield.rs:304-316 | The partial-fill clause decides when an open leg beside a filled one runs out of time between the two times it is asked |
| LeggingRiskShield.FilledTradeExpires | backend/arbitrage/legging_risk_shield.rs:106-110 | A fully filled trade may complete exactly until its earliest submission is overdue |
| LeggingRiskShield.FutureStampAborts | backend/arbitrage/legging_risk_shield.rs:92-104 | A submission stamped ahead of the clock reads as timed out |
| LeggingRiskShield.FutureStampRevokes | backend/arbitrage/legging_risk_shield.rs:92-110 | In every other case the verdict falls when the clock reaches the latest stamp |
| LeggingRiskShield.RunSound | backend/arbitrage/legging_risk_shield.rs:227-362 | In every run trades in flight stay within the limit, keys are issued identifiers carried by trade and legs, and initiated = in flight + completed |
| LeggingRiskShield.SlotsFreedByCompletion | backend/arbitrage/legging_risk_shield.rs:323-362 | A step frees a slot exactly when it completes a trade in flight |
| LeggingRiskShield.AbortsLeakCapacity | backend/arbitrage/legging_risk_shield.rs:323-351 | A run initiates at most the limit plus one trade for each completion, however many are aborted |
| LeggingRiskShield.FullStaysFull | backend/arbitrage/legging_risk_shield.rs:227-249 | A full shield refuses every trade until one is completed |
| LeggingRiskShield.AbortRepeats | backend/arbitrage/legging_risk_shield.rs:323-351 | A second abort issues and counts the same cancellations again and leaves every leg alone |
| LeggingRiskShield.AbortedCounter | backend/arbitrage/legging_risk_shield.rs:323-362 | In every run aborted_trades is the aborted trades in flight plus the calls that abort or complete a trade already aborted |
| LeggingRiskShield.CountersAddUp | backend/arbitrage/legging_risk_shield.rs:323-362 | It counts the aborted trades in flight exactly when there is no such call; completions plus aborts exceed the initiated trades exactly when such calls outnumber the trades in flight that were not aborted |
| LeggingRiskShield.AbortedCountsAsSuccess | backend/arbitrage/legging_risk_shield.rs:355-362 | Three calls by which one trade counts as aborted and as completed |
| LeggingRiskShield.LeggingRiskShield.CreateArbTrade | backend/arbitrage/legging_risk_shield.rs:227-249 | Refuses exactly when disabled or full; otherwise stores the legs, tagged and otherwise unchanged, under a fresh identifier as neither complete nor aborted |
| LeggingRiskShield.LeggingRiskShield.UpdateLegStatus | backend/arbitrage/legging_risk_shield.rs:253-286 | The first leg with the identifier has the reported status, price and quantity and, if Filled, a stamp of now; all else is unchanged; returns the verdict on the updated trade, AbortTrade for a reported failure or expiry, and marks the trade complete if that is the verdict; nothing for unknown trade or leg |
| LeggingRiskShield.LeggingRiskShield.Abort | backend/arbitrage/legging_risk_shield.rs:323-351 | Marks the trade; cancel orders for exactly the legs neither filled in full nor cancelled, in order; counts the abort, the orders and the failed or expired legs |
| LeggingRiskShield.LeggingRiskShield.Complete | backend/arbitrage/legging_risk_shield.rs:355-362 | Removes and returns the trade, counted |
| LeggingRiskShield.LeggingRiskShield.MonitorActiveTrades | backend/arbitrage/legging_risk_shield.rs:366-381 | Reports each trade that calls for an action exactly once, with its verdict |
| PerformanceIndexer.AlignedUnique | backend/analytics/performance_indexer.rs:47-51 | A second lies in one aligned interval only, the one its bucket key names |
| PerformanceIndexer.IndexedIsGroupBy | backend/analytics/performance_indexer.rs:167-208 | Indexing a trade keeps the bucket map the group-by of the trade list: counts, volume, pnl, profit, loss, exact mean duration, running pnl |
| PerformanceIndexer.TallyIs | backend/analytics/performance_indexer.rs:167-208 | The figures of an interval are the number, quantities, pnl, durations, wins and losses of the trades left in it, each summed on its own |
| PerformanceIndexer.BucketHolds | backend/analytics/performance_indexer.rs:47-51 | A timestamp lies in the aligned bucket its key names |
| PerformanceIndexer.SecondsAre | backend/analytics/performance_indexer.rs:35-44 | The bucket sizes in seconds |
| PerformanceIndexer.CoarseIsSumOfFine | backend/analytics/performance_indexer.rs:167-208 | A coarse bucket is the sum of the fine buckets nested in it |
| PerformanceIndexer.Factor | backend/analytics/performance_indexer.rs:35-44 | Each indexed resolution is a whole multiple of the one before, so that 60, 300, 900, 3600 and 14400 seconds nest |
| PerformanceIndexer.QueryTotals | backend/analytics/performance_indexer.rs:251-267 | A range query sums to the trades of whole buckets, from the first boundary not before its start to the end of the bucket its end falls in |
| PerformanceIndexer.RangeIs | backend/analytics/performance_indexer.rs:251-267 | A query lists exactly the buckets whose start lies in the range, once each, in ascending order |
| PerformanceIndexer.SessionAgreesWithBuckets | backend/analytics/performance_indexer.rs:280-300 | Session totals equal the sum over the buckets of any resolution, and pnl = profit - loss |
| PerformanceIndexer.StatsConsistent | backend/analytics/performance_indexer.rs:287-325 | Wins and losses leave room for break-even trades only, and are 0 exactly when profit and loss are |
| PerformanceIndexer.PerformanceIndexer.IndexTrade | backend/analytics/performance_indexer.rs:143-164 | Appends the trade and keeps all five resolutions the group-by and the curve the prefix sums |
| PerformanceIndexer.PerformanceIndexer.UpdateBuckets | backend/analytics/performance_indexer.rs:167-208 | Each of the five resolutions gets the trade in its own bucket, the daily one none |
| PerformanceIndexer.PerformanceIndexer.GetBucketMetrics | backend/analytics/performance_indexer.rs:251-267 | The buckets that start in the range, in ascending order |
| OrderFlow.CvdIsNetVolume | backend/analytics/order_flow.py:97-101 | The running delta is bought less sold less unknown volume |
| OrderFlow.CellsAreGroupBy | backend/analytics/order_flow.py:204-226 | A level for exactly the rounded prices traded, with that level's volumes, count, high and low |
| OrderFlow.LevelCount | backend/analytics/order_flow.py:204-236 | The levels are the distinct rounded prices traded, so the limit is kept exactly when there are no more of those |
| OrderFlow.LadderLevels | backend/analytics/order_flow.py:238-259 | k trades can make k levels, for any limit |
| OrderFlow.ViewsDifferByUnknown | backend/analytics/order_flow.py:204-226 | The level deltas add up to the running delta plus the volume of unknown side |
| OrderFlow.ViewsAgree | backend/analytics/order_flow.py:87-107 | The two views agree exactly when the trades of unknown side net to nothing |
| OrderFlow.VolumeIsConserved | backend/analytics/order_flow.py:204-226 | The level volumes add up to all that was bought and sold |
| OrderFlow.EngineViewsAgree | backend/analytics/order_flow.py:315-398 | In every reachable state, for each symbol, level deltas sum to the running delta and no volume is lost |
| OrderFlow.CumulativeVolumeDelta.AddTrade | backend/analytics/order_flow.py:87-107 | Logs the trade; the value returned is the net volume since the last reset |
| OrderFlow.FootprintChart.AddTrade | backend/analytics/order_flow.py:204-236 | The chart is the group-by of one more trade, whatever the limit on levels |
| OrderFlow.FootprintChart.PruneLevels | backend/analytics/order_flow.py:238-259 | Deletes nothing |
| OrderFlow.FootprintChart.GetPoc | backend/analytics/order_flow.py:273-286 | A level of largest volume, or None when no level has volume |
| OrderFlow.OrderFlowEngine.ProcessTrade | backend/analytics/order_flow.py:315-352 | Both views log the same trade, a sell when the buyer was the maker |
| OrderFlow.OrderFlowEngine.ResetSymbol | backend/analytics/order_flow.py:387-398 | Both views forget the symbol's trades and no other |

## Left out

- Rounding of machine floats, overflow of machine integers and allocation limits; where a usize
  subtraction would panic a precondition excludes it. u64 wrap-around is modelled where it shows, in
  the age of a leg (as in a build without overflow checks).
- Logarithm, exponential, square root, normal distribution and quantile, Student-t likelihoods: they
  are parameters. Profit in basis points and confidence of an arbitrage cycle, p-values and critical
  values are not modelled.
- Symbol to index dictionaries of the arbitrage solver: vertices are their indices. The set of flagged
  vertices is visited in an arbitrary order, as is a hash map of trades.
- BellmanFordSolver.BellmanFordSolver.UpdateGraph: takes edges with ready weights, because the weight
  is the logarithm of rate and fee.
- Callbacks, locks as such, logging, file and network output, asyncio wrappers, registries.
- The flattened matrix of the Gauss-Jordan inversion is kept as rows; the layout of the flattened
  covariance triangle is modelled.
- MahalanobisDistanceCalculator apart from the sign of its squared distance; its contributions,
  singularity test and severity levels.
- BellmanFordSolver.BellmanFordSolver.ExtractCycle: without profit in basis points and confidence,
  which are functions of the total by way of the exponential.
- BellmanFordSolver.BellmanFordSolver.FindArbitrageCycles: the minimum profit is a parameter
  `profitable` on totals, and detection times are not kept.
- StructuralBreak.StructuralBreakDetector.ChowTest: without critical value, p-value and break flag; the
  equation for F is stated for at least one regressor, as none would divide by zero.
- StructuralBreak.StructuralBreakDetector.QlrTest: without critical value and break flag; likewise.
- LeggingRiskShield.AbortMeans: the verdicts of methods and runs take one clock reading, where the
  program reads the clock for each leg; ReadingsBracket says how far apart the two are.
- LeggingRiskShield.AbortStands: for stamps that a 64-bit clock can give and that lie at most
  2^64 ns - 501 ms ahead, which every stamp does once the clock is past 501 ms.
- ForecastEvaluation.Compare: without the p-value; the critical value is a parameter.
- ForecastEvaluation.VerdictNamesLargerLoss and VerdictRightExactly: for critical values that are not
  negative, as the quantile of a significance level of at most 1 is.
- ChangePoint.BayesianOnlineChangePointDetector.Update: the likelihoods are an input.
- rolling_test and should_disable_model of forecast_eval.rs; the sampling of random draws, weight
  update, state estimates, and the regularised and auxiliary particle filters.
- Expected run length, change point rate and adaptive hazard of change_point.py.
- MultiAssetCusum; the field detection_start of the engine, which is never set.
- FlashCrashDetector, get_stats and price, side and symbol of a leg in legging_risk_shield.rs; the
  text of a cancel order is its leg identifier.
- Metrics per symbol in performance_indexer.rs, which use fields their record does not have; win rate,
  profit factor, fees and recent trades of the session.
- OrderFlow.FootprintChart.GetPoc: which of several levels with equal largest volume is returned.
- OrderFlow.OrderFlowEngine.ProcessTrade: without delta analysis, divergence, imbalance levels, point
  of control and timing in its result; the trade history is not kept.
