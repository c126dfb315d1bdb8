# Verification of the approximate CFS scheduler

This project models the scheduler simulator in `apex-cfs/src` and the Linux code it
mirrors in `apex-cfs/docs`, and proves properties of the model with Dafny 4.11. Run
`dafny verify dfyconfig.toml` to check it.

Three parts are modelled.

1. **The tick schedulers and the adaptive loop.** A runqueue over an array of tasks, with
   one exact and three approximate ticks (BSA, CLTI, APAF), and the APAF controller that
   reads Jain's fairness index every fourth tick (`RunQueue`, `Jain`, `Charge`,
   `NewtonReciprocal`, `ApproxDecay`). Proved: fairness and conservation over every run
   (`Fairness`), CPU time in proportion to weight (`ProportionalTime`), round robin and
   the fairness index of equal tasks (`RoundRobin`), stabilisation of the closed loop
   (`ClosedLoop`, `LongRun`, `WideLoop`), the controller by itself (`Hysteresis`,
   `Controller`), error bounds of the decays and charges (`DecayError`, `ChargeError`),
   load trajectories and steady states (`LoadTrajectory`, `SteadyState`), and what a tick
   records (`TickRecords`).
2. **PELT.** The accumulator of one `sched_avg` (`Decay`, `Pelt`), its decay against the
   half-life of 32 periods (`HalfLife`), and what every history of updates keeps and
   measures (`PeltBounds`, `PeltRuns`).
3. **Slices of fair.c.** `__calc_delta` and wall-clock slices through a group hierarchy
   (`WeightScaling`, `Slices`), the leaf list (`Lists`, `LeafList`) and the test that
   guards its removals (`LeafTest`), the enqueue and dequeue walks with their accounting
   (`Hierarchy`, `HierarchyAccounting`, `HierarchyWeights`, `HierarchyRemoval`), and
   bandwidth control (`Bandwidth`, `BandwidthSteps`).

Code that changes state in place is modelled by classes and loops (`Pelt.SchedAvg`,
`RunQueue.CfsRq`, `WeightScaling.LoadWeight`, `Hierarchy.Rq`, `Bandwidth.TaskGroup`, and
the loops of BSA, CLTI and the slices). Each method's contract gives the whole new
state as a function of the old one; the theorems are about those functions.

Constants come from `apex-cfs/src/task.h` and `apex-cfs/src/approx_clti.h`. The stubs at
`apex-cfs/docs/pelt.c:71-87` stand in for kernel code; the model uses a full-width
product for `mul_u64_u32_shr` and the divider of `apex-cfs/docs/pelt.h:40-45`.

## Where the code and its documentation differ

The model follows the code. Each point below is a theorem.

- The accumulators of Jain's index are u64 and wrap after 4.3 s of CPU time, so the
  controller can leave LOOSE although all tasks are served equally. The stabilisation
  claim holds uniformly up to tick 4295 and no further (`ClosedLoop.StabilisationHorizon`),
  and without end for 1, 2 and 4 tasks only (`LongRun.StaysLooseIff`). With unbounded
  accumulators it holds of every number of tasks without end (`WideLoop.WideLoopSettles`).
- The 1.911% bound on the BSA reciprocal fails for the weights too far below the power of
  two they are compared with, about 0.774 of it (`ChargeError.DocumentedBsaBound`); of the
  nice levels this is -5 alone (`ChargeError.BsaNiceLevels`). The 3% bound on CLTI
  vruntime holds for the weights within 3% of a class representative, but for four weights
  next to the ends of the largest class that truncation moves across
  (`ChargeError.DocumentedCltiBound`); of the nice levels these are 0 and -3
  (`ChargeError.CltiNiceLevels`).
- CLTI halves instead of interpolating beyond its last table entry
  (`DecayError.CltiErrorBound`). The APAF error is far below the documented figures
  (`DecayError.ApafErrorBound`, `ChargeError.ApafChargeError`).
- The maximum of a PELT sum given in the comment at `apex-cfs/docs/pelt.c:306-329` is not
  an upper bound for `util_sum`; the average reaches 1025 and no more
  (`PeltBounds.RunKeepsBounds`, `PeltBounds.UtilAverageReaches1025`). Which updates keep
  the maximum is `PeltBounds.CapacityStepIff`.
- The comment at `apex-cfs/docs/fair.c:3541-3549` says a child queue is always placed
  immediately before its parent; it is placed somewhere before it, so the test built on it
  misses children (`LeafList.PreviousIsChildIncomplete`), and with that test as the only
  guard of removals a parent can end up before its child (`HierarchyRemoval.TestBreaksOrder`).
  Which steps keep the test exact is `HierarchyRemoval.TestedStep`.
- `__calc_delta` overshoots its ratio for scaled divisors above 2^32, and its shift can
  fall to 10 for weights from 2^52 on (`WeightScaling.NeverExceedsIff`,
  `WeightScaling.ShiftBounds`). The slices of a queue overrun their period when the
  fixed-point shares of its entities exceed one (`Slices.NeverOverrunsIff`), which light
  group entities reach (`Slices.LightGroupsOverrun`).
- In BSA mode an always-runnable nice-0 task settles at a load_avg of 702 instead of 1024
  (`TickRecords.NiceZeroBsaAverage`).
- The clamp of the exact `load_avg` is dead code up to nice 0
  (`SteadyState.ClampActsOnlyAboveNiceZero`), and the early exit of the Newton loop is
  unreachable (`NewtonReciprocal.NewtonNeverStops`).

## Model

| member | source | states |
|---|---|---|
| `Decay.KernelDecaySuperadditive` | apex-cfs/docs/pelt.c:105-129 | decaying two sums apart never keeps more than decaying them together, for every u64 sum and period count |
| `Decay.KernelDecayMonotone` | apex-cfs/docs/pelt.c:105-129 | a larger sum decays to a larger sum |
| `Decay.ExactRefinesKernel` | apex-cfs/src/cfs_exact.c:31-54 | for every u64 load and period count the simulator equals the kernel decay off the half-lives and from 2016 on, and otherwise exceeds it by exactly ceil(v / 2^32) |
| `HalfLife.TableDoubles` | apex-cfs/docs/pelt.c:89-98 | the square of every table entry is the entry of twice the periods, within 2.75 units of the last place below and 1/16 above |
| `HalfLife.TableNearRoot` | apex-cfs/docs/pelt.c:89-98 | every entry e for n periods satisfies (e - 1)^32 * 2^n <= 2^1024 <= (e + 7)^32 * 2^n, so it lies next to 2^32 * 2^(-n/32) |
| `HalfLife.FirstEntryCouldBeMore` | apex-cfs/docs/pelt.c:89-98 | the entries are not the roots rounded down: the entry of one period could be one more |
| `HalfLife.CltiTableRoundsKernel` | apex-cfs/src/approx_clti.h:18-27 | every CLTI entry is the kernel entry of four times as many periods rounded to 15 bits |
| `HalfLife.DecayBelowRoot` | apex-cfs/docs/pelt.c:105-129 | for every u64 sum and period count the decay exceeds val * 2^(-n/32) by at most one unit, and one for every 2^32 of the sum |
| `HalfLife.DecayAboveRoot` | apex-cfs/docs/pelt.c:105-129 | and up to period 2015 it falls at most three units, and one for every 2^29 of the sum, below |
| `HalfLife.LastPeriod` | apex-cfs/docs/pelt.c:109-111 | the largest u64 decays to something if and only if fewer than 2016 periods pass |
| `Pelt.SchedAvg.AccumulateSum` | apex-cfs/docs/pelt.c:175-223 | the in-place update of the three sums and of period_contrib is the function Accumulate, u32 and u64 wraps included |
| `Pelt.SchedAvg.UpdateLoadSum` | apex-cfs/docs/pelt.c:253-304 | backward clocks and sub-unit deltas change only what the source changes; otherwise the sums move by Accumulate |
| `Pelt.SchedAvg.UpdateLoadAvg` | apex-cfs/docs/pelt.c:330-341 | the averages are the sums over the divider of the current position, the u64 product included; `PeltBounds.UpdateAvgsBounds` says how large they are |
| `Pelt.SchedAvg.UpdateLoadAvgSe` | apex-cfs/docs/pelt.c:380-392 | one update of an entity: sums first, averages only when a period boundary was crossed, which is also the result |
| `PeltBounds.SegmentsValue` | apex-cfs/docs/pelt.c:131-152 | no u32 of the segment sum wraps: c2 never underflows and the contribution stays within the history it belongs to |
| `PeltBounds.UnitSumStep` | apex-cfs/docs/pelt.c:190-223 | a load of 0 or 1: a sum below the divider of the old position ends below the divider of the new one |
| `PeltBounds.ScaledSumStep` | apex-cfs/docs/pelt.c:190-223 | a sum that scales the truncated contribution by up to k stays below k times the divider plus 375/8 of k |
| `PeltBounds.RunKeepsBounds` | apex-cfs/docs/pelt.c:253-341 | over every history of updates at any times: load_avg never exceeds a task's weight, util_avg never exceeds 1025, util_sum stays within 1024 * divider + 48000 and fits u32, and the sums of a cfs_rq keep the corresponding bounds |
| `PeltBounds.UtilAverageReaches1025` | apex-cfs/docs/pelt.h:40-45 | the bound is sharp: a task updated once a period at position 44 reaches a util_avg of exactly 1025, so the maximum the comment on the divider gives (1024) is exceeded; such an update violates KeepsCapacity |
| `PeltBounds.CapacityStepIff` | apex-cfs/docs/pelt.c:175-223 | an update keeps every util_sum of at most 1024 times the divider within 1024 times the new divider if and only if it stays in its period or the decays of the full sum, of what was left of the period and of LOAD_AVG_MAX satisfy KeepsCapacity |
| `PeltBounds.RunWithinCapacity` | apex-cfs/docs/pelt.c:253-341 | over every history whose updates meet that condition util_avg never exceeds 1024 |
| `PeltRuns.PositionFollowsClock` | apex-cfs/docs/pelt.c:253-304 | while the clock does not run backwards no time is lost: last_update_time and period_contrib are functions of the last clock value alone |
| `PeltRuns.BackwardClock` | apex-cfs/docs/pelt.c:258-266 | an update after the clock has run backwards takes the time over and changes nothing else |
| `PeltRuns.RunnableIsUtil` | apex-cfs/docs/pelt.c:213-220 | over every history in which runnable is one exactly while the entity runs, runnable_sum equals util_sum and runnable_avg equals util_avg |
| `PeltRuns.RunningFills` | apex-cfs/docs/pelt.c:175-223 | over every history of an always-running entity of any load, at whatever times it is updated, what the three sums are missing to their ceilings beyond 47 (k + 1) for a scale of k shrinks by 46/47 or more with every update that crosses a boundary |
| `PeltRuns.RunningAverages` | apex-cfs/docs/pelt.c:330-341 | after 2112 such updates a task has a load_avg of at least 99.7% of its weight, less one, and a util_avg and runnable_avg of at least 1022 |
| `PeltRuns.BlockedUpdate` | apex-cfs/docs/pelt.c:268-303 | an update of an entity with zero load, whatever it claims to run, only decays the sums: by half for every 32 periods crossed, within the bounds of HalfLife |
| `NewtonReciprocal.BsaNearestPow2` | apex-cfs/src/approx_bsa.c:13-46 | the doubling loop computes NearestPow2, also where the shift wraps to zero |
| `NewtonReciprocal.NearestPow2IsNearest` | apex-cfs/src/approx_bsa.c:13-46 | the result is a power of two that fits u32, no other such power is nearer, and ties go to the smaller one |
| `NewtonReciprocal.BsaNewtonReciprocal` | apex-cfs/src/approx_bsa.c:57-91 | the Newton loop with its early exit computes the iterate number k |
| `NewtonReciprocal.SeedFollowsParabola` | apex-cfs/src/approx_bsa.c:69-75 | over 2 p^2 the deficit of the warm start is the parabola (w - p)(w - 2p) of the weight and its nearest power of two, within one unit from below and w from above |
| `NewtonReciprocal.SeedDeficit` | apex-cfs/src/approx_bsa.c:69-75 | the affine warm start is within 5/32 below and 1/8 above the reciprocal, for every u32 weight |
| `NewtonReciprocal.NewtonNeverStops` | apex-cfs/src/approx_bsa.c:77-88 | the early exit of the loop is unreachable |
| `NewtonReciprocal.NewtonConverges` | apex-cfs/src/approx_bsa.c:77-88 | from the first iteration on, w * x <= 2^32, x never decreases, and the next deficit lies between the square of the last and one truncation more |
| `NewtonReciprocal.OneIterationDeficit` | apex-cfs/src/approx_bsa.c:57-91 | after one iteration the deficit is at most 25/1024 of 2^32 plus 3w |
| `Charge.BsaVruntimeDelta` | apex-cfs/src/approx_bsa.c:142-156 | the charging method computes BsaCharge, with its early returns and the cast of the inverse to u32; `Charge.BsaQuotient` gives its value, `Charge.BsaChargeError` its error |
| `Charge.ApafVruntimeDelta` | apex-cfs/src/approx_apaf.c:121-149 | the charging method computes ApafCharge, with one or two iterations by state; `Charge.ApafQuotient` gives its value, `ChargeError.ApafChargeError` its error |
| `Charge.CltiWeightToClass` | apex-cfs/src/approx_clti.c:12-37 | the argmin loop finds the first nearest representative, and the shortcut for 1024 agrees with it |
| `Charge.CltiVruntimeDelta` | apex-cfs/src/approx_clti.c:121-140 | the charging method computes CltiCharge, from the class the argmin loop finds; `ChargeError.RepresentativeCharge` gives its value for a tick |
| `Charge.UnitWeight` | apex-cfs/src/cfs_exact.c:86-87 | a weight of 1 has the inverse 2^32, which the cast to u32 turns into 0 |
| `Charge.ApproximationsNeverOvercharge` | apex-cfs/src/cfs_exact.c:68-95 | for every u32 delta and weight BSA charges at most what APAF charges in any state, and APAF at most what exact CFS charges |
| `Charge.BsaChargeError` | apex-cfs/src/approx_bsa.c:142-156 | for all nice-table weights the BSA charge is within 2.45% of the exact one |
| `ChargeError.ApafChargeError` | apex-cfs/src/approx_apaf.c:121-149 | the APAF charge is within 0.07% of the exact one in TIGHT and MEDIUM and within 2.45% in LOOSE |
| `ChargeError.ApafTickDeficit` | apex-cfs/src/approx_apaf.c:121-149 | in TIGHT and MEDIUM the charge of a tick falls short by the square of what one iteration leaves, up to truncation |
| `ChargeError.LongStretch` | apex-cfs/src/cfs_exact.c:68-95 | a delta of 2^32 or more is charged delta * inverse / 2^22 to within two units and the last bit of delta, while it fits u64 |
| `ChargeError.DocumentedBsaBound` | apex-cfs/src/approx_bsa.c:48-91 | for every weight below 98304, with p its nearest power of two, the documented 1.911% holds of the reciprocal after one iteration if and only if 1250000000 w >= p (968007500 + p), that is w is at least about 0.7744 p |
| `ChargeError.FarBelowPowerFails` | apex-cfs/src/approx_bsa.c:48-91 | for every u32 weight of at most 0.7744 times its nearest power of two the documented bound fails |
| `ChargeError.DocumentedBsaCharge` | apex-cfs/src/approx_bsa.c:132-156 | a weight within the bound is charged within it, up to one nanosecond, for every u32 time |
| `ChargeError.BsaTickBound` | apex-cfs/src/approx_bsa.c:132-156 | for weights below 98304 the charge of one tick is within 1.911% of the exact one from 0.775 p on, and is not up to 0.774 p |
| `ChargeError.BsaNiceLevels` | apex-cfs/src/approx_bsa.c:132-156 | of the nice levels the charge of a tick misses the documented bound exactly at the weight 3121 |
| `ChargeError.DocumentedCltiBound` | apex-cfs/src/approx_clti.c:111-140 | for every u32 weight from 1 on the CLTI charge of a tick is within the documented 3% if and only if the weight is within 3% of its class representative; truncation moves the ends of the interval of the largest class by three weights and by one |
| `ChargeError.CltiNiceLevels` | apex-cfs/src/approx_clti.c:111-140 | of the nice levels those are the weights 1024 and 1991 |
| `ApproxDecay.BsaDecayLoad` | apex-cfs/src/approx_bsa.c:106-129 | the shift loop computes BsaDecay |
| `DecayError.BsaDecayBounds` | apex-cfs/src/approx_bsa.c:106-129 | over any number of periods BSA lies between the geometric decay of the load and the geometric decay towards 31 |
| `DecayError.BsaOnePeriodError` | apex-cfs/src/approx_bsa.c:106-129 | one period of BSA is at most 1 above the exact decay and at most 1.0038% below it |
| `DecayError.CltiErrorBound` | apex-cfs/src/approx_clti.c:49-109 | CLTI is within 0.09% of the load plus 3 of the exact decay for every u64 load, if and only if the period count modulo 32 is at most 28 or the count is at least 1952 |
| `DecayError.ApafErrorBound` | apex-cfs/src/approx_apaf.c:17-108 | APAF is within 0.034% / 0.214% / 3.034% of the exact decay plus 2 in TIGHT / MEDIUM / LOOSE for every u64 load and period count, and LOOSE is never below it |
| `DecayError.ApafErrorsAttained` | apex-cfs/src/approx_apaf.c:17-108 | the factors of TIGHT, MEDIUM and LOOSE exceed the exact ones by 0.033%, 0.21% and 3.03% at 16, 31 and 17 periods, so those bounds are nearly attained |
| `Jain.CauchySchwarz` | apex-cfs/src/fairness.c:44-48 | the square of the sum never exceeds n times the sum of squares, so the clamp at 1 is unreachable without wrap-around |
| `Jain.IndexWithoutWrap` | apex-cfs/src/fairness.c:14-53 | while n * sum_sq fits u64 the computed index is the exact ratio, positive and at most 1 |
| `RunQueue.TaskCreate` | apex-cfs/src/task.c:10-33 | the nice value is clamped to -20..19, the weight is that of the clamped value in the table, and every counter is zero |
| `TickRecords.NiceStepsAreGeometric` | apex-cfs/src/task.h:36-45 | every nice level weighs 1.20 to 1.28 times the next |
| `RunQueue.CfsRq.constructor` | apex-cfs/src/task.c:80-110 | the counting loop and the initial MEDIUM state give RqInit |
| `RunQueue.PickAmong` | apex-cfs/src/cfs_exact.c:178-198 | the pick is a runnable task of least vruntime, the first such; -1 only when nothing is runnable |
| `RunQueue.CfsRq.PickNextTask` | apex-cfs/src/cfs_exact.c:178-198 | the array scan computes PickAmong over all tasks |
| `RunQueue.CfsRq.CountRunning` | apex-cfs/src/task.c:136-156 | nr_running becomes the number of runnable tasks |
| `RunQueue.CfsRq.FairnessJainIndex` | apex-cfs/src/fairness.c:14-53 | the loop over wrapping u64 accumulators computes JainIndex |
| `RunQueue.CfsRq.ApafUpdateState` | apex-cfs/src/approx_apaf.c:171-191 | the controller moves and stores the index it sampled only at ticks divisible by four |
| `RunQueue.CfsRq.UpdateCurr` | apex-cfs/src/cfs_exact.c:107-128 | one task gets TICK_NS of runtime and the charge of its mode; no other task changes |
| `RunQueue.CfsRq.UpdateLoadAvg` | apex-cfs/src/cfs_exact.c:142-168 | one task's load is decayed by its mode, topped up if runnable, and its average clamped; no other task changes |
| `RunQueue.CfsRq.ExactTick` | apex-cfs/src/cfs_exact.c:216-238 | the whole new state of an exact tick |
| `RunQueue.CfsRq.ApproximateTick` | apex-cfs/src/approx_bsa.c:246-270 | the whole new state of a BSA or CLTI tick, including the early return of an idle tick |
| `RunQueue.CfsRq.ApafTick` | apex-cfs/src/approx_apaf.c:290-314 | the whole new state of an APAF tick: loads by the old controller state, then the controller |
| `TickRecords.LoadAverageOfRun` | apex-cfs/src/cfs_exact.c:142-168 | over every run that does not end with an idle approximate tick, load_avg is the weight times the current load_sum over 47742, capped at the weight |
| `TickRecords.NiceZeroAverage` | apex-cfs/src/cfs_exact.c:142-168 | an always-runnable nice-0 task has a load_avg of exactly 1024 from tick 47742 on |
| `TickRecords.NiceZeroBsaAverage` | apex-cfs/src/approx_bsa.c:195-218 | in BSA mode it has one of exactly 702 from tick 32768 on |
| `TickRecords.FirstAverage` | apex-cfs/src/cfs_exact.c:142-168 | after its first exact tick it has one of 21 |
| `TickRecords.SnapshotOfRun` | apex-cfs/src/cfs_exact.c:216-238 | every tick that does something leaves the number of set runnable flags in nr_running and the index of the runtimes it leaves in jain_index |
| `TickRecords.IdleTicksLeaveNoTrace` | apex-cfs/src/approx_bsa.c:246-270 | idle ticks of the approximate modes change the clock and the tick count alone |
| `TickRecords.NewRunqueue` | apex-cfs/src/task.c:80-110 | until something runs, a new runqueue reports an index of 1 and the MEDIUM budget |
| `TickRecords.OnlyApafControls` | apex-cfs/src/cfs_exact.c:216-238 | no run in another mode moves the controller |
| `TickRecords.NoWeightNoCharge` | apex-cfs/src/cfs_exact.c:68-95 | a task without weight is never charged |
| `Fairness.PairFairness` | apex-cfs/src/cfs_exact.c:178-238 | in every mode and whatever other tasks do, two tasks that stay runnable satisfy v_i <= v_j + (one charge of i) at every tick |
| `Fairness.ProportionalShare` | apex-cfs/src/cfs_exact.c:107-128 | in exact, BSA and CLTI mode exec_i * c_i and exec_j * c_j differ by at most TICK_NS * max(c_i, c_j) at every tick |
| `ProportionalTime.TimeByWeight` | apex-cfs/src/cfs_exact.c:68-128 | in exact and BSA mode the CPU time of an always-runnable task over its weight is ahead of that of another by at most one charge of a tick and what its own charges are short of: less than 1.3 in 10^9 for each unit of weight in exact mode, at most 25/1024 and rounding in BSA mode |
| `Fairness.CpuTimeConserved` | apex-cfs/src/cfs_exact.c:107-128 | over any run with blocking and waking, total exec_runtime grows by TICK_NS for each tick with a runnable task, and tick and clock count every tick |
| `Fairness.CountersFit` | apex-cfs/src/cfs_exact.c:125-127 | within 2^34 ticks no vruntime or exec_runtime leaves u64 |
| `RoundRobin.EqualTasksRotate` | apex-cfs/src/cfs_exact.c:178-198 | n nice-0 tasks run round robin in every mode: after t ticks the next is task t mod n and each runtime is its number of turns |
| `RoundRobin.EqualTasksIndex` | apex-cfs/src/fairness.c:14-53 | after q >= 1 rounds Jain's index is at least 4q(q+1)/(2q+1)^2, and 1 when no round is open |
| `ClosedLoop.SettlesInLoose` | apex-cfs/src/approx_apaf.c:290-314 | closed-loop stabilisation: with n always-runnable nice-0 tasks the controller is in LOOSE at every tick from 3n + 7 to 4295 (without end for n = 1) |
| `ClosedLoop.LeavesLooseAt4296` | apex-cfs/src/fairness.c:37-44 | a concrete failure: with 300 tasks the u64 square of the sum wraps at tick 4296 and the controller leaves LOOSE |
| `ClosedLoop.StabilisationHorizon` | apex-cfs/src/fairness.c:37-44 | the stabilisation claim holds for every number of tasks up to a horizon if and only if the horizon is at most 4295 |
| `LongRun.StaysLooseIff` | apex-cfs/src/fairness.c:37-44 | for every number of tasks an int can hold, the controller stays in LOOSE from tick 3n + 7 on for good if and only if there are 1, 2 or 4 tasks |
| `LongRun.IndexAtFourTurns` | apex-cfs/src/fairness.c:26-44 | for five tasks or more the index four turns into a round that begins at tick 2^49 n is below 0.93, unless 4n * 10^12 is nearly a multiple of 2^64 |
| `LongRun.IndexAt2To40` | apex-cfs/src/fairness.c:26-44 | at tick 2^40 the square of the sum wraps to 0: the index is 0 unless a round is completed there or n is a multiple of 2^22 |
| `WideLoop.WideIndexIsJainIndex` | apex-cfs/src/fairness.c:14-53 | the index of the source is the one over unbounded sums as long as n * sum_sq fits u64 |
| `WideLoop.WideLoopSettles` | apex-cfs/src/approx_apaf.c:171-191 | over unbounded sums the controller is in LOOSE at every tick from 3n + 7 on, for every number of always-runnable nice-0 tasks |
| `ClosedLoop.DivisorsOfFourStayLoose` | apex-cfs/src/approx_apaf.c:171-191 | for 1, 2 and 4 tasks every sample falls on a completed round, so LOOSE is kept forever, whatever wraps |
| `Controller.FirstDecision` | apex-cfs/src/approx_apaf.c:171-191 | up to 4611686 equal tasks: MEDIUM up to tick 3, and at tick 4 LOOSE for 1, 2 and 4 tasks and TIGHT for every other number |
| `LongRun.TwoTasksWrapped` | apex-cfs/src/fairness.c:37-53 | for two equal tasks the index is 0/0 at tick 2^26 and 1 at tick 2^27 |
| `Hysteresis.NoLevelSkipped` | apex-cfs/src/fairness.c:71-104 | no sample moves the controller between TIGHT and LOOSE in one step |
| `Controller.LowSamplesTighten` | apex-cfs/src/fairness.c:71-104 | from every state, any two or more samples below 0.90 end in TIGHT |
| `Controller.HighSamplesLoosen` | apex-cfs/src/fairness.c:71-104 | from every state, any two or more samples above 0.97 end in LOOSE |
| `Controller.StateIsKept` | apex-cfs/src/fairness.c:71-104 | TIGHT is kept by every sequence of samples up to 0.95, MEDIUM by those within 0.90 and 0.97, LOOSE by those from 0.93 on, and the next sample leaves the state exactly when it is outside |
| `Hysteresis.TransitionBound` | apex-cfs/src/fairness.c:71-104 | any sequence of samples causes at most 2 + 2 * variation / 0.04 transitions; a constant index at most two |
| `Hysteresis.RunFollowsSamples` | apex-cfs/src/approx_apaf.c:171-191 | over any run the controller state is its response to the sampled indices, and it moves exactly as often as they make it |
| `Hysteresis.RunMovesBound` | apex-cfs/src/approx_apaf.c:171-191 | the transition bound for every run of the APAF scheduler |
| `LoadTrajectory.LoadOfRun` | apex-cfs/src/cfs_exact.c:142-168 | in a run each task's load depends on its own flags alone, in the approximate modes while no tick is idle |
| `LoadTrajectory.CltiRunAgainstExact` | apex-cfs/src/approx_clti.c:179-202 | over any run without idle ticks each CLTI load_sum is at least the exact one and exceeds it by at most 1.53 * weight + 83 |
| `LoadTrajectory.ApafAgainstExact` | apex-cfs/src/approx_apaf.c:235-258 | under every sequence of controller states an APAF load is at most 2.4 * weight + 45 below the exact one, and for weights below 2^20 at most one above it |
| `LoadTrajectory.ApafRunAgainstExact` | apex-cfs/src/approx_apaf.c:235-314 | the same over every run without idle ticks, whatever the controller does |
| `SteadyState.BsaNeverExceeds` | apex-cfs/src/approx_bsa.c:195-211 | whatever the history, a BSA load that starts empty never exceeds 32 * weight |
| `SteadyState.BsaSteadyState` | apex-cfs/src/approx_bsa.c:195-211 | an always-runnable BSA load reaches exactly 32 * weight within 32 * weight ticks and stays |
| `SteadyState.BlockedBsaStaysPositive` | apex-cfs/src/approx_bsa.c:195-211 | decayed tick by tick a positive BSA load never reaches zero |
| `SteadyState.BlockedExactReachesZero` | apex-cfs/src/cfs_exact.c:142-168 | a blocked exact load reaches zero |
| `SteadyState.ExactSteadyState` | apex-cfs/src/cfs_exact.c:142-168 | an always-runnable nice-0 exact load reaches exactly LOAD_AVG_MAX and stays |
| `SteadyState.LeastFixedPoint` | apex-cfs/src/cfs_exact.c:142-168 | LOAD_AVG_MAX is the least fixed point of the nice-0 tick |
| `SteadyState.ClampActsOnlyAboveNiceZero` | apex-cfs/src/cfs_exact.c:163-167 | the clamp of load_avg to the weight acts after some history if and only if the weight exceeds 1024 |
| `WeightScaling.LoadWeight.UpdateInvWeight` | apex-cfs/docs/fair.c:279-295 | the cached inverse is the one a fresh computation gives |
| `WeightScaling.LoadWeight.Scale` | apex-cfs/docs/fair.c:308-333 | the normalising shifts compute CalcDelta, and the cache never changes the result |
| `WeightScaling.ShiftForNiceZero` | apex-cfs/docs/fair.c:297-307 | for NICE_0_LOAD the shift is at least 22 whatever the divisor |
| `WeightScaling.ShiftBounds` | apex-cfs/docs/fair.c:297-307 | for a weight within the divisor the shift is at least 10, and at least 22 if and only if the scaled weight is below 2^42 |
| `WeightScaling.CalcDeltaNeverExceeds` | apex-cfs/docs/fair.c:308-333 | the scaled time never exceeds delta * w / W |
| `WeightScaling.CalcDeltaAtLeast` | apex-cfs/docs/fair.c:308-333 | for scaled weights and divisors below 2^32 the scaled time falls short of delta * w / W by less than one unit, what the truncated inverse loses, and what the second normalisation truncates |
| `WeightScaling.ZeroDivisorIsOne` | apex-cfs/docs/fair.c:279-295 | a zero divisor scales like a divisor of one |
| `WeightScaling.NeverExceedsIff` | apex-cfs/docs/fair.c:279-333 | that bound holds of every delta and weight if and only if the scaled divisor is at most 2^32 |
| `Slices.SchedSlice` | apex-cfs/docs/fair.c:726-763 | the walk to the root computes the nested slice, with the optional floor |
| `Slices.SliceBelowShare` | apex-cfs/docs/fair.c:726-763 | a slice is at most the period times the product of the weight ratios on the path |
| `Slices.SliceNearShare` | apex-cfs/docs/fair.c:726-763 | and at least that product times 1 - W / 2^32 for every scaled total W on the path, less one unit for each level |
| `Slices.LevelSliceAtLeast` | apex-cfs/docs/fair.c:738-753 | one level takes less than one unit more than its ratio and the truncation of the inverse |
| `Slices.UnqueuedCountsItselfIn` | apex-cfs/docs/fair.c:746-751 | an entity that is not queued gets the slice it would get once it is |
| `Slices.NeverOverrunsIff` | apex-cfs/docs/fair.c:738-753 | the entities of one queue never get more together than the slice they divide, whatever the slice, if and only if their scaled weights times the inverse of the scaled total are at most 2^32 |
| `Slices.SlicesFitPeriod` | apex-cfs/docs/fair.c:726-763 | the slices of all tasks of any group hierarchy sum to at most the period when every queue meets that condition and the floor is off |
| `Slices.HeavyFits` | apex-cfs/docs/sched.h:144-160 | every queue of a hierarchy whose entities weigh at least 2048 meets it |
| `Slices.LightGroupsOverrun` | apex-cfs/docs/fair.c:738-753 | two groups of weight 1024, each with one task of the least weight, do not meet it, and their tasks nearly get a whole period each |
| `LeafList.AddKeepsBuilding` | apex-cfs/docs/fair.c:348-414 | in a bottom-up walk the next queue lands behind its branch and before its own parent, and the result says whether the branch is connected |
| `LeafList.AddBranchConnects` | apex-cfs/docs/fair.c:5267-5270 | the walk that adds queue after queue until one is connected leaves the list ordered and tmp_alone_branch at the head |
| `LeafList.DelKeepsConnected` | apex-cfs/docs/fair.c:416-434 | taking a queue off keeps the list ordered if and only if none of its children is on it |
| `LeafList.DelUndoesAdd` | apex-cfs/docs/fair.c:416-434 | taking off the queue added last restores the list, and tmp_alone_branch where the addition did not connect the branch |
| `LeafList.AddReportsConnection` | apex-cfs/docs/fair.c:348-414 | the result of an addition says whether the list is connected after it, also for a queue already listed |
| `LeafList.PreviousIsChildSound` | apex-cfs/docs/fair.c:3550-3566 | what the test of the previous element finds is a child on the list |
| `LeafList.PreviousIsChildIncomplete` | apex-cfs/docs/fair.c:3541-3566 | the converse, which the comment states, fails: a concrete list on which the test misses a child |
| `LeafList.TestOfPending` | apex-cfs/docs/fair.c:3556-3560 | while a branch is pending the test of an unlisted queue says whether it is the parent to add next |
| `LeafTest.AddBranchShape` | apex-cfs/docs/fair.c:348-414 | on every tree a walk leaves the queues it adds at the front in order, but the last of them right before its parent |
| `LeafTest.AddBranchKeepsComplete` | apex-cfs/docs/fair.c:3541-3566 | on every tree a walk leaves the test exact if and only if it adds nothing, starts the list, adds one queue, or meets its first listed ancestor at the head of the list |
| `LeafTest.DelKeepsComplete` | apex-cfs/docs/fair.c:416-434 | taking off a queue without listed children leaves the test exact if and only if it was not right before its parent, or a sibling is right before it, or the parent has no other child listed |
| `Hierarchy.Rq.ListAddLeafCfsRq` | apex-cfs/docs/fair.c:348-414 | the in-place insertion is Add |
| `Hierarchy.Rq.ListDelLeafCfsRq` | apex-cfs/docs/fair.c:416-434 | the in-place removal is Del |
| `Hierarchy.Rq.ReweightGroup` | apex-cfs/docs/fair.c:3306-3331 | a queued group entity moves its queue's load by the change of its weight, an unqueued one only changes its weight; `HierarchyAccounting.UpdateCfsGroupEffect` says that the sums stay balanced and nothing else moves |
| `Hierarchy.Rq.Enqueue` | apex-cfs/docs/fair.c:4584-4636 | enqueue_entity: reweight, account, queue, and list the queue when this is its first entity |
| `Hierarchy.Rq.Dequeue` | apex-cfs/docs/fair.c:4686-4746 | dequeue_entity: account, unqueue, then reweight |
| `Hierarchy.Rq.EnqueueTaskFair` | apex-cfs/docs/fair.c:5910-5990 | the two loops of the enqueue walk compute EnqueueTask |
| `Hierarchy.Rq.DequeueTaskFair` | apex-cfs/docs/fair.c:6003-6078 | the two loops of the dequeue walk compute DequeueTask |
| `HierarchyAccounting.EnqueueTaskKeeps` | apex-cfs/docs/fair.c:5910-5990 | enqueuing keeps the whole invariant and makes exactly this task runnable |
| `HierarchyAccounting.DequeueTaskKeeps` | apex-cfs/docs/fair.c:6003-6078 | dequeuing keeps the whole invariant and stops exactly this task from being runnable |
| `HierarchyWeights.EnqueueTaskWeights` | apex-cfs/docs/fair.c:4611-4620 | after an enqueue every group entity above the task weighs what its share gives, also one that has just been queued, and every other entity keeps its weight |
| `HierarchyWeights.DequeueTaskWeights` | apex-cfs/docs/fair.c:6003-6062 | the same after a dequeue, also for a group entity that has just left its queue |
| `HierarchyAccounting.RemoveLeafKeeps` | apex-cfs/docs/fair.c:3568-3580 | removing an empty queue from the leaf list keeps the invariant if and only if none of its children is listed |
| `HierarchyAccounting.HierarchyTheorem` | apex-cfs/docs/fair.c:5909-6078 | after every sequence of enqueues, dequeues and removals of empty queues without listed children, on any group tree: h_nr_running counts the runnable tasks below, load.weight and nr_running are sums over the queued entities, a group is queued iff its queue is not empty, the leaf list is ordered and complete, and tmp_alone_branch is at its head |
| `HierarchyRemoval.EnqueueTaskLeaf` | apex-cfs/docs/fair.c:5909-5990 | the two loops of an enqueue do to the leaf list exactly what the walk that stops at the first connection does |
| `HierarchyRemoval.TestedStep` | apex-cfs/docs/fair.c:3568-3580 | with the test of the source as guard of removals: from a state in which the test is exact every step keeps the whole invariant, and leaves the test exact if and only if KeepsTestExact held before it |
| `HierarchyRemoval.TestedHierarchyTheorem` | apex-cfs/docs/fair.c:3568-3580 | with that guard the whole invariant is kept, from a fresh CPU, over every run whose steps satisfy KeepsTestExact |
| `HierarchyRemoval.TestBreaksOrder` | apex-cfs/docs/fair.c:3541-3580 | a run in which that guard lets two parents go while their descendant is listed, after which a parent is placed before its child |
| `Bandwidth.TaskGroup.RefillCfsBandwidthRuntime` | apex-cfs/docs/fair.c:4999-5016 | the refill, clipped at quota + burst, with its burst statistics |
| `Bandwidth.TaskGroup.AssignCfsRqRuntime` | apex-cfs/docs/fair.c:5023-5047 | the pool pays what the queue needs to reach its target, or all it has |
| `Bandwidth.TaskGroup.AccountCfsRqRuntime` | apex-cfs/docs/fair.c:5063-5079 | executed time is docked first, and runtime extended only if it ran out and the queue is not throttled |
| `Bandwidth.TaskGroup.CheckCfsRqRuntime` | apex-cfs/docs/fair.c:5151-5179 | a queue is throttled and listed exactly when one more nanosecond cannot be had |
| `Bandwidth.TaskGroup.ReturnCfsRqRuntime` | apex-cfs/docs/fair.c:5474-5495 | slack above 1 ms goes back to the pool |
| `Bandwidth.TaskGroup.DistributeCfsRuntime` | apex-cfs/docs/fair.c:5321-5360 | the list walk with its early exit computes Distribute |
| `Bandwidth.TaskGroup.DoSchedCfsPeriodTimer` | apex-cfs/docs/fair.c:5368-5422 | the period timer terminates, leaves no throttled queue or an empty pool, and is stopped exactly when idle without throttled queues or unlimited |
| `Bandwidth.StepConserves` | apex-cfs/docs/fair.c:5023-5495 | every step moves runtime about; only a refill changes the total of pool, local runtime and executed time |
| `BandwidthSteps.AccountOutcome` | apex-cfs/docs/fair.c:5063-5079 | a limited queue that is not throttled and has run out ends with min(slice, docked + pool), hence with a slice or an empty pool; any other is only docked; taking from the pool clears idle |
| `BandwidthSteps.ThrottleOutcome` | apex-cfs/docs/fair.c:5151-5179 | a queue without runtime is throttled if and only if the pool cannot lift it above zero, and then the pool is empty; otherwise it goes on with one nanosecond |
| `BandwidthSteps.NothingToThrottle` | apex-cfs/docs/fair.c:5151-5179 | a queue with runtime, or one that is throttled already, is left alone |
| `BandwidthSteps.ReturnOutcome` | apex-cfs/docs/fair.c:5474-5495 | a queue keeps min(remaining, 1 ms) and the pool of a limited group receives the rest |
| `BandwidthSteps.RefillOutcome` | apex-cfs/docs/fair.c:4999-5016 | the pool grows by the quota up to quota + burst; burst_time grows by what the period spent beyond the quota, and nr_burst by one exactly if that is positive |
| `BandwidthSteps.BurstOfRun` | apex-cfs/docs/fair.c:4999-5016 | over every run burst_time is at most nr_burst * burst |
| `BandwidthSteps.NoQueueHoards` | apex-cfs/docs/fair.c:5023-5061 | over every interleaving no queue holds more than the largest slice |
| `BandwidthSteps.UnlimitedRun` | apex-cfs/docs/fair.c:5033-5034 | no queue of a group without a limit is ever throttled, and its pool is not touched |
| `Bandwidth.RunConserves` | apex-cfs/docs/fair.c:4999-5495 | over every interleaving of all CPUs' steps the total changes only by the clipped refills, and the throttled list stays consistent |
| `Bandwidth.ExecutionBound` | apex-cfs/docs/fair.c:4999-5495 | over any run with k refills the group executes at most its initial budget + k * quota + outstanding debt |
| `Bandwidth.ThrottledHasNothing` | apex-cfs/docs/fair.c:5333-5334 | in any interleaving a throttled queue has runtime_remaining <= 0, which the source only warns about |
| `Bandwidth.PassWorks` | apex-cfs/docs/fair.c:5321-5360 | in isolation a pass leaves no throttled queue or an empty pool, issues at most what the pool held, gives each unthrottled queue exactly 1 ns, and touches no other queue |

## Left out

- IEEE rounding of `double`: the APAF coefficients, the decayed load and Jain's ratio are reals. The 0/0 that a wrapped denominator can produce is kept as a value of its own.
- `CfsRq`: load_sum, the product weight * load_sum, vruntime and exec_runtime are unbounded naturals. `Fairness.CountersFit` covers the last two for 2^34 ticks; the loads stay below 50 times a u32 weight.
- `CfsRq`: null pointers, negative counts and the reset of an invalid approx_mode; `runnable` is a boolean, as task_set_runnable makes it.
- `ApproximateTick`: models bsa_tick and clti_tick as one method with the mode as parameter; their texts differ only in the functions they call.
- `LoadOfRun`: does not cover APAF, whose decay also depends on the controller state; `ApafRunAgainstExact` does, in real arithmetic.
- `CltiRunAgainstExact`: needs a runnable task at every tick, because an idle CLTI tick does not decay while an idle exact tick does.
- `PairFairness`: compares tasks that stay runnable; the simulator places no waking task, so a task that sleeps returns with its old vruntime.
- `SettlesInLoose`: with more than one task it is stated up to tick 4295, beyond which it is false for some numbers of tasks (`LeavesLooseAt4296`). The first tick at which a given number of tasks leaves LOOSE is not determined.
- `UpdateLoadAvgSe`: the UTIL_AVG_UNCHANGED flag that cfs_se_util_change clears, and the trace points.
- `RunKeepsBounds`: the u64 sums are shown not to wrap for loads below 2^48 and runnable counts below 2^38.
- `SlicesFitPeriod`: entities that are all queued, u64 periods, and totals up to 2^42 in every queue, none empty but the root's. The condition is exact for one queue (`NeverOverrunsIff`); a queue that overruns below one that loses time may still fit.
- `TableNearRoot`: within one above and seven below; which entries are rounded down and which are one less is not stated for each.
- `NiceStepsAreGeometric`: the weights are a table; beyond the ratio of neighbours nothing is said of the single numbers.
- `FirstDecision`: up to 4611686 tasks, where nothing wraps at tick 4.
- `DocumentedBsaBound`: weights below 98304, which includes all nice levels. Beyond, truncation makes the boundary ragged; `FarBelowPowerFails` holds for every u32 weight.
- `BsaTickBound`: leaves the band between 0.774 and 0.775 of the power of two open, where the rounding of one nanosecond decides; `BsaNiceLevels` decides the one nice level in it.
- `Hierarchy.Rq`: indices stand for pointers, so aliasing is not modelled; the rb-tree timeline, vruntime renormalisation, `idle_h_nr_running`, NUMA, utilisation estimates and buddies are not modelled; the weights that calc_group_shares computes are arbitrary positive numbers.
- `HierarchyTheorem`: queues that are not throttled. Its removals happen only when no child is listed; `RemoveLeafKeeps` shows that this is exactly what it needs. `TestedHierarchyTheorem` is about removals guarded by the test of the source. Whether the load averages of an empty queue have decayed is left open.
- `PreviousIsChild`: where the list head is the previous element the source reads the memory around the head as a queue; the model takes it for no child.
- `ReweightGroup`: the load averages that reweight_entity rescales, and the time it commits for a running entity.
- `Bandwidth`: each section under a runqueue lock is one step; timers starting, the slack timer, changes of quota, and the effect of throttling on the hierarchy are not modelled.
- `DistributeCfsRuntime`: runs in isolation, as does `DoSchedCfsPeriodTimer`; single entries interleave freely with all other steps in `RunConserves`.
- `update_rq_clock_pelt` and the idle clock of pelt.h, and the rt, dl, thermal and irq signals of pelt.c.
- fairness_cpu_shares, fairness_ideal_share, fairness_total_weight: measurements no scheduling step reads.
- metrics.c, the experiments, printing and the embedded tests.
