# Timetable solver: scoring, rota, placement order and bench runner

A Dafny 4.11 model of the timetable solver's evaluation code and of the bench driver around it.
It covers the soft score and its fast forms, the quality report, break supervision, the
first-fit-decreasing lesson order, the concurrent cell runner and the parameter-sweep choices.
`dafny verify dfyconfig.toml` checks everything.

## What is proved

**One objective, several computations.** `Score.ScoreSolution`, `Score.SliceRecompute` and
`Quality.BuildQualityReport` are the loops of the source, proved against one specification:
`Objective.WeightedTotal` of ten axis values, each defined from the placements without loops,
hash-map order or intermediate saturation. On that footing the report's weighted score is proved
equal to the score, with the exact conditions where it is not: a class with an uneven week listed
twice (`Parity.ReportedScoreIsObjectiveIff`), and a malformed soft pin reaching the JSON entry
point (`Parity.JsonScoreAgreesIff`). The report's own counters explain the score: the preference
total is weight times reported units summed over the four time-of-day axes, and the home-room total
is weight times reported misses, each with its exact limit (`UnitTotals.ReportedUnitsIff`,
`UnitTotals.ReportedMissesIff`).

**Incremental helpers.** Over every run of inserts and removes, the gap deltas add up to the number
of missing ordinals of the final day (`Gaps.RunOfEditsKeepsGapTotal`). The day-balance forms for a
swap and an add have the counts of the updated partition if and only if the target is free, and then
equal a recount (`BalanceExact.SwapFormExact`, `BalanceExact.AddFormExact`); the form on given counts
equals the class cost when the list covers the week (`BalanceExact.FromCountsExact`, and
`BalanceExact.FromShortCounts` for shorter lists). The cost is 0 exactly for an even week, and the
`u32` forms rank moves and additions fairly.

**Break supervision.** The min-load greedy keeps any teacher at most one break ahead of anyone who
could have stood in for them throughout, covers every break with one row, and does not depend on
input order.

**Placement order.** The closed form used when nothing is blocked equals the nested loops; the run
counter succeeds exactly when a free window exists; blocking more never makes a lesson look easier;
the order is the sorted permutation and forgets the order of the lesson list.

**Concurrent runner.** Workers, mutex, channels and main thread form a state machine
(`WorkerPool`). Both channels count their live senders, and receiving from an empty channel blocks
while one is alive. Under every schedule each plan index is in exactly one place, the sender counts
are exact, some thread can always move, every run has exactly 7n + 5j + 4 steps, and then every
outcome slot is filled with the runner's answer. The two explicit drops in the code are what this
rests on: for a pool that keeps either sender, every run goes on to a state in which nothing can move
and main is not done (`WorkerPool.KeptSenderHangs`, `WorkerPool.StuckWhere`).
So the rendered report is a function of plan and runner alone
(`CellRunner.Report.RenderCells`).

**Sweep.** The Pareto filter returns exactly the grid points with a non-dominated cell; the
recommendation is the eligible point of least mean, whatever rounding the means go through.

**What the figures mean.** The modules `Meanings`, `HomeRooms`, `RotaMeaning` and `OrderMeaning`, and the
last sections of `Sweep` and `Recommend`, restate each specification on the problem's own lists and the
placements, without the functions that compute it: which placement is away from home, which break
blocks get which row and who stands there, which lesson comes first, which cells are on the frontier.
`SingleWeights` says for each of the thirteen weights what it alone is charged for.

## Conventions

- Identifiers are 128-bit numbers (`Types.Uuid`); `u8` and `u32` are bounded integers. Saturating
  operations stop at 2^32 - 1 (`Machine.Cap`), plain additions and `.sum()` wrap (`Machine.Wrap`) as
  they do without overflow checks, and the `u8` span `last - first + 1` wraps at 256.
- Iterating a hash map is an arbitrary pick from the remaining keys, so results hold for every
  iteration order. `sort_unstable` on positions and ids is `Sorting.Sort`; equal ones cannot be told
  apart.
- `Objective.Resolves` states what indexing the lookup tables demands: every placement's lesson,
  subject and time block can be found (a missing one would panic), and there are fewer than 2^32
  time blocks.
- Local names follow the source. A method is a loop of the source; the function in its `ensures` is
  the specification.

## Where the code and its comments differ

The model follows the code.

- The day-balance comment suggests that scaling keeps the division exact. It drops a remainder:
  one slot in a five-day week has scaled imbalance 8 and cost 1 (`Balance.FloorLossExample`).
  `Balance.FloorLossExact` says when nothing is dropped.
- `worst_class_spread` is described as counting slots; it counts placements. A class's counted days
  are the described ones exactly when no two of its placements share a slot
  (`GapMetrics.RawCountIsSlotCountIff`, `GapMetrics.CountedDaysIff`);
  `Witnesses.TwoGroupsSpreadDiffers` has a spread of 2 against 1.
- `lesson_home_rooms` keeps the first four home rooms of a lesson. The metric counts fewer home pairs
  than it should exactly when a dropped room is viable on some day
  (`LessonOrder.HomeLimitHarmlessIff`); a lesson of five classes for which it counts 0 instead of 1
  is `Witnesses.FifthHomeRoomLost`.
- The swap form assumes that the target slot is free. Onto an occupied slot it answers 3 where a
  recount gives 1 (`BalanceExact.SwapFormOnSharedSlot`).
- The report and the score claim to agree. A class listed twice counts once in the report and twice
  in the score; `Witnesses.TwiceListedClassDiffers` has 1 against 2.
- The bench gap metric and `gap_count` differ on a day that uses both position 0 and position 255,
  where the `u8` span wraps (`GapMetrics.BenchTotalAgreesIff`); `Witnesses.LongDayDiffers` has 0
  against 254.
- `quality_report` claims that its score stays equal to `score_solution` when soft pins are malformed,
  because both sides drop them. The JSON entry point of the score keeps them;
  `Witnesses.StrayPinDiffers` has 1 against 0.
- The Pareto section prints "no feasible cells" for an empty frontier. The frontier is empty only
  when there is no sweep cell; if no cell is feasible, all of them are listed
  (`Sweep.FrontierEmptyIff`, `Sweep.InfeasibleOnFrontierIff`, `Witnesses.InfeasibleCellOnFrontier`).
- Naming a fixture twice leaves no recommendation, although every point may have run on every
  fixture (`Recommend.RepeatedFixtureBlocksAll`, `Witnesses.RepeatedFixtureLosesRecommendation`).

## Model

| member | source | states |
|---|---|---|
| Gaps.GapCountCountsMissing | solver/solver-core/src/score.rs:647-654 | the gap count of a sorted day is the number of ordinals strictly between its first and last that are free |
| Gaps.GapAfterInsertExact | solver/solver-core/src/score.rs:660-683 | the insert helper equals the gap count of the list with the position inserted, for an absent day, an empty day, a new position and a repeated one |
| Gaps.GapAfterRemoveExact | solver/solver-core/src/score.rs:690-711 | the remove helper equals the gap count of the list with the position removed, present or not |
| Gaps.InsertSpan | solver/solver-core/src/score.rs:660-683 | the span after an insertion holds every entry, so the u32 subtraction cannot underflow |
| Gaps.RemoveSpan | solver/solver-core/src/score.rs:690-711 | the same after a removal |
| Gaps.RunOfEditsKeepsGapTotal | solver/solver-core/src/score.rs:647-711 | over any sequence of inserts and removes, the accumulated helper deltas land on the number of missing ordinals of the final occupied set |
| Gaps.RunOfEditsRecounts | solver/solver-core/src/score.rs:647-711 | the accumulated deltas equal a recount, and the edited list stays sorted, duplicate-free and holds the edited set |
| Balance.SidesCancel | solver/solver-core/src/score.rs:426-458 | around its own mean a class's surplus days and deficit days cancel, so the imbalance is twice one side |
| Balance.CostUpperBound | solver/solver-core/src/score.rs:426-458 | the cost never exceeds 2 * sum * (D - 1) / D |
| Balance.FloorLossExact | solver/solver-core/src/score.rs:426-458 | the division by D is exact if and only if D divides twice the total times the number of days above the mean |
| Balance.FloorLossExample | solver/solver-core/src/score.rs:426-458 | a week where the division drops a remainder |
| Balance.CostMeaning | solver/solver-core/src/score.rs:426-458 | the cost is the sum of the differences between count times days and total, divided by the days |
| Balance.CostZeroIffEven | solver/solver-core/src/score.rs:426-458 | the floored cost is 0 if and only if every day has the same count |
| Balance.MoveToEmptierDay | solver/solver-core/src/score.rs:426-458 | on the exact cost: moving one slot from a fuller to a strictly emptier day never raises it |
| Balance.AddToLighterDay | solver/solver-core/src/score.rs:426-458 | on the exact cost: adding n slots to a lighter day never costs more than adding them to a heavier one |
| BalanceForms.ClassDayBalanceCostForClass | solver/solver-core/src/score.rs:467-497 | the two loops compute the capped distance of the scaled day counts from their total, divided by the days; 0 for no days |
| BalanceForms.ClassDayBalanceCostForClassWithSwap | solver/solver-core/src/score.rs:504-543 | the same on counts with one slot virtually moved, with the total of the unmoved counts |
| BalanceForms.ClassDayBalanceCostForClassAfterAdd | solver/solver-core/src/score.rs:552-591 | the same on counts with n slots virtually added |
| BalanceForms.ClassDayBalanceCostForClassFromCounts | solver/solver-core/src/score.rs:598-619 | the same on the first `days` given counts |
| BalanceForms.ClassDayBalanceCost | solver/solver-core/src/score.rs:426-458 | the school total is the capped sum of the per-class costs in list order |
| BalanceExact.NothingSaturates | solver/solver-core/src/score.rs:426-591 | with at most 512 slots a day and 255 days, as after any add of a u8, no saturating operation saturates and the u32 cost is the exact cost |
| BalanceExact.CostBound | solver/solver-core/src/score.rs:426-458 | a week of at most 255 days of at most 256 slots costs at most 32639 |
| BalanceExact.FullestWeekCosts | solver/solver-core/src/score.rs:426-458 | a week that costs exactly 32639; 131590 such classes fit a u32 and one more does not |
| BalanceExact.ClassCostExact | solver/solver-core/src/score.rs:467-497 | on a deduplicated partition the class cost is the exact cost of the numbers of distinct occupied positions |
| BalanceExact.ClassCostZeroIffEven | solver/solver-core/src/score.rs:467-497 | the u32 class cost is 0 if and only if the class has equally many slots on every day |
| BalanceExact.SchoolCostExact | solver/solver-core/src/score.rs:426-458 | the school cost is the plain sum of the exact class costs if and only if that sum fits a u32, as it does for up to 131590 classes |
| BalanceExact.SwapFormExact | solver/solver-core/src/score.rs:504-543 | for moves between days and within one day: the swap form's counts are those of the moved partition if and only if the target slot is free, and then the form equals full recomputation |
| BalanceExact.SwapFormRanksFairly | solver/solver-core/src/score.rs:504-543 | the u32 swap form never prices a move to a strictly emptier day above staying |
| BalanceExact.SwapFormOnSharedSlot | solver/solver-core/src/score.rs:504-543 | a move onto an occupied slot where form and recount differ |
| BalanceExact.SharedSlotCostsCoincide | solver/solver-core/src/score.rs:504-543 | a move onto an occupied slot where form and recount have imbalances 16 and 18 and both cost 3, which is why the condition is on counts |
| BalanceExact.AddFormExact | solver/solver-core/src/score.rs:552-591 | the add form's counts are those of the grown partition if and only if no added position was taken, and then the form equals full recomputation |
| BalanceExact.AddFormRanksFairly | solver/solver-core/src/score.rs:552-591 | the u32 add form never prices adding n slots on a lighter day above a heavier one |
| BalanceExact.FromCountsExact | solver/solver-core/src/score.rs:598-619 | the form on a list that agrees with the partition on every day is the class cost; further entries are ignored |
| BalanceExact.FromShortCounts | solver/solver-core/src/score.rs:598-619 | a list shorter than the week leaves out the full total for every missing day: never above a recount of the padded list, and at an equal distance only when nothing is counted |
| Timetable.ClassSlotsMember | solver/solver-core/src/score.rs:182-196 | a class occupies a position exactly when one of its meetings is there |
| Timetable.TeacherSlotsMember | solver/solver-core/src/score.rs:182-196 | the same for teachers |
| Meanings.ClassOccupiedMeaning | solver/solver-core/src/score.rs:182-196 | a class takes a position exactly when a placement of one of its lessons resolves to it |
| Meanings.TeacherOccupiedMeaning | solver/solver-core/src/score.rs:182-196 | a teacher takes a position exactly when one of their placements resolves to it |
| Timetable.CollectPartitions | solver/solver-core/src/score.rs:179-196 | the two partition maps hold exactly the occupied positions of every class and teacher day |
| Timetable.CollectClassPositions | solver/solver-core/src/score.rs:371-393 | the class partition of the placements that resolve; the others are skipped |
| Timetable.SortDedupAll | solver/solver-core/src/score.rs:211-214 | sorting and deduplicating every list keeps what it represents and makes it strictly ascending |
| Timetable.SumGaps | solver/solver-core/src/score.rs:33-42 | the summed gap counts are the number of missing ordinals over all days, for every iteration order |
| Objective.LastPositionsExact | solver/solver-core/src/score.rs:161-170 | each day's entry is the largest position of its time blocks, and only days with blocks have one |
| Objective.DaysCover | solver/solver-core/src/score.rs:171-177 | every day below 255 is counted, and the number of days is one more than a day that occurs |
| Objective.FirstTeachersExact | solver/solver-core/src/score.rs:251-259 | the teacher noted for a class and subject is that of the earliest placement giving the class that subject |
| Meanings.LastPositionMeaning | solver/solver-core/src/score.rs:161-170 | the last position of a block's day is the largest among the blocks of that day |
| Meanings.ClassTeacherMissesMeaning | solver/solver-core/src/score.rs:235-272 | a (class, subject) pair is a miss exactly when the class has a listed, qualified class teacher and its first placement in the subject is taught by somebody else |
| Meanings.SoftMissesMeaning | solver/solver-core/src/score.rs:275-297 | the soft-pin axis counts exactly the soft pins that no placement honours, in the report those whose names are listed |
| Meanings.RawCountMeaning | solver/solver-core/src/score.rs:329-362 | a class's count on a day is the number of (placement, member) pairs that put it there |
| Meanings.WorstSpreadMeaning | solver/solver-core/src/score.rs:329-362 | the worst spread is the largest difference between two of the first five days of one class |
| AxisPasses.SubjectPreferenceScore | solver/solver-core/src/score.rs:724-763 | the guarded, saturating step-by-step score is the capped sum of the four weighted terms |
| Meanings.PreferenceMeaning | solver/solver-core/src/score.rs:724-763 | the four terms of a placement's preference score as products of weight, subject flag and position or distance |
| Meanings.TermsMeaning | solver/solver-core/src/score.rs:43-55 | the term of each placement is that of its own lesson's subject and its own block |
| AxisPasses.PreferenceTotal | solver/solver-core/src/score.rs:43-55 | the preference sum over the placements |
| AxisPasses.HomeRoomPenalty | solver/solver-core/src/score.rs:770-788 | the penalty is the weight times the number of listed member classes away from home, capped |
| HomeRooms.AwayFromHomeMeaning | solver/solver-core/src/score.rs:627-642 | a class is away exactly when its last listing has a home room set and that is another room |
| HomeRooms.HomeElsewhereUnique | solver/solver-core/src/score.rs:627-642 | with unique class ids any listing will do |
| HomeRooms.AwayCountMeaning | solver/solver-core/src/score.rs:770-788 | the away members of a placement are the member positions whose class has its home room elsewhere |
| HomeRooms.HomeRoomAxisMeaning | solver/solver-core/src/score.rs:227-233 | the home-room axis is the weight for every (placement, member) pair away from home, while that fits a u32 |
| AxisPasses.HomeRoomTotal | solver/solver-core/src/score.rs:227-233 | the home-room sum over the placements |
| AxisPasses.WorstClassSpread | solver/solver-core/src/score.rs:329-362 | the largest difference between a class's fullest and emptiest of the first five days, counting placements; 0 without classes |
| AxisPasses.WorstClassInteriorGaps | solver/solver-core/src/score.rs:371-411 | the largest total of span gaps of any class; 0 without classes |
| AxisPasses.SpanGapsExact | solver/solver-core/src/score.rs:396-410 | the u8 span less the number of positions is the wrapped span gap of the occupied set |
| AxisPasses.ClassTeacherMissCount | solver/solver-core/src/score.rs:235-272 | the number of (class, subject) pairs whose class teacher is qualified while the first teacher is someone else |
| Score.SliceCosts | solver/solver-core/src/score.rs:23-61 | the slice is the capped weighted sum of class gaps, teacher gaps and preferences |
| Score.SliceRecompute | solver/solver-core/src/score.rs:69-120 | recomputing the slice from the placements gives the slice part of the objective |
| Score.ScoreSolution | solver/solver-core/src/score.rs:128-319 | the score is the weighted total of the ten axes, capped once; with all weights zero it is 0 without any lookup |
| SingleWeights.SingleWeightScore | solver/solver-core/src/score.rs:128-319 | with one weight set the score is that weight times what it is charged for, for each of the thirteen weights |
| SingleWeights.HomeRoomScore | solver/solver-core/src/score.rs:128-319 | with only the home-room weight set the score is that weight for every pair away from home |
| SingleWeights.ScoreOfSingleWeight | solver/solver-core/src/score.rs:128-319 | the same of the score the code computes |
| Score.FoldExtrasExact | solver/solver-core/src/score.rs:299-318 | saturating at every addition equals capping the exact weighted sum once, so the order of additions is immaterial |
| Score.ZeroWeightsScoreZero | solver/solver-core/src/score.rs:134-149 | the all-zero shortcut returns what the full computation would |
| Quality.AttributeGaps | solver/solver-core/src/quality.rs:212-230 | the per-owner gap maps hold exactly the owners with gaps and their sums, and their total is the number of missing ordinals |
| Meanings.ReportedClassGaps | solver/solver-core/src/quality.rs:212-219 | a class's entry is its free ordinals between first and last, added day by day; a class without any has no entry |
| Meanings.ReportedTeacherGaps | solver/solver-core/src/quality.rs:220-230 | the same for teachers |
| Quality.AttributeBalance | solver/solver-core/src/quality.rs:202-210 | the per-class balance map holds exactly the positive costs |
| Quality.AttributeHomeRooms | solver/solver-core/src/quality.rs:277-291 | the per-class home-room misses count every listed member class away from home, and sum to the misses of all placements |
| HomeRooms.AwayByClassMeaning | solver/solver-core/src/quality.rs:277-291 | a class has an entry exactly when one of its placements is away from home, and the entry is the number of such (placement, member) pairs |
| HomeRooms.ReportedMissesByClass | solver/solver-core/src/quality.rs:277-291 | the same of the report's map |
| HomeRooms.TotalMissesMeaning | solver/solver-core/src/quality.rs:277-291 | the misses of all placements are the pairs away from home |
| Quality.CountUnits | solver/solver-core/src/quality.rs:232-275 | the four unit counters are the capped sums of the unweighted terms |
| Meanings.UnitsMeaning | solver/solver-core/src/quality.rs:247-275 | the units of one placement on each axis |
| Quality.BuildQualityReport | solver/solver-core/src/quality.rs:134-460 | every field of the report, including the weighted score as the weighted total with the report's own balance figure |
| Meanings.ReportFields | solver/solver-core/src/quality.rs:134-460 | each scalar of the report on the problem's own quantities, among them the unplaced hours as weekly hours less placements |
| Meanings.ExpectedHoursMeaning | solver/solver-core/src/quality.rs:169-173 | the expected hours are the weekly hours of all lessons |
| Parity.AttributedCosts | solver/solver-core/src/quality.rs:202-210 | summing the per-class map never exceeds summing in list order, and equals it if and only if no class with a positive cost is listed twice |
| Parity.ReportedScoreIsObjectiveIff | solver/solver-core/src/quality.rs:404-435 | where the class costs fit a u32, the weighted score of the report equals the score on the same soft pins if and only if no class with an uneven week is listed twice, day balance has weight 0, or the score has saturated |
| Parity.ReportedScoreIsObjective | solver/solver-core/src/quality.rs:404-435 | with distinct class ids whose costs fit a u32 the two are equal for every placement list and every weight set |
| Parity.ReportedScoreOfAnySchool | solver/solver-core/src/quality.rs:404-435 | in particular for every school of up to 131590 distinct classes |
| Parity.WeightedScoreMatches | solver/solver-core/src/score.rs:128-319 | running both computations yields one number |
| Parity.MalformedPinsAllMissed | solver/solver-core/src/json.rs:106-118 | every malformed soft pin adds one miss to the unfiltered count |
| Parity.JsonScoreAgreesIff | solver/solver-core/src/json.rs:106-118 | with an active soft-pin weight the JSON score equals the report's objective if and only if every soft pin is well formed or the score has saturated |
| UnitTotals.PreferenceFromUnitsIff | solver/solver-core/src/quality.rs:232-306 | the preference total never exceeds the weighted exact units, and equals them if and only if the score of no placement saturates |
| UnitTotals.ReportedUnitsIff | solver/solver-core/src/quality.rs:232-306 | the preference total inside the score is the sum over the four axes of weight times reported units if and only if that sum is below the u32 limit, whatever the placements |
| UnitTotals.PreferenceFromReportedUnits | solver/solver-core/src/quality.rs:232-306 | it also is whenever no placement saturates and the total fits a u32 |
| UnitTotals.HomeRoomFromMissesIff | solver/solver-core/src/quality.rs:277-314 | the home-room total never exceeds the weight times the misses, and equals it if and only if the penalty of no placement saturates |
| UnitTotals.ReportedMissesIff | solver/solver-core/src/quality.rs:277-314 | the home-room total inside the score is the weight times the reported misses if and only if that product fits a u32 |
| UnitTotals.AwayCountCountsMembers | solver/solver-core/src/score.rs:627-642 | the misses of a placement count exactly its listed members whose home room is another room |
| GapMetrics.TotalInteriorGaps | solver/solver-bench/src/quality.rs:104-140 | the bench metric is the capped sum of span gaps over all class days |
| GapMetrics.BenchTotalAgreesIff | solver/solver-bench/src/quality.rs:104-140 | where the gap hours fit a u32, the bench total equals the core's class gap hours if and only if no class day's span wraps |
| GapMetrics.GapHoursFit | solver/solver-core/src/score.rs:30-42 | they fit for up to 16909320 class days |
| GapMetrics.BenchMatchesReport | solver/solver-bench/src/quality.rs:104-140 | the same for the two loops run on one problem |
| GapMetrics.WorstInteriorIsLargestAttributionIff | solver/solver-core/src/score.rs:371-411 | the worst interior gaps of a slot map are the largest per-class gap attribution if and only if there is no class day or some class with the most gap hours has no wrapping day |
| GapMetrics.WorstGapsMatchReport | solver/solver-core/src/score.rs:371-411 | the same of the code's worst gaps and the report's per-class map, run on one problem |
| GapMetrics.OwnerGapBound | solver/solver-core/src/quality.rs:212-219 | one class has at most 65024 gap hours, and the span form never exceeds them and equals them if and only if none of its days wraps |
| GapMetrics.RawCountIsSlotCountIff | solver/solver-core/src/score.rs:329-362 | a class has at least as many placements on a day as slots, and as many if and only if no two of its placements share a slot |
| GapMetrics.CountedDaysIff | solver/solver-core/src/score.rs:320-362 | the five counted days are the distinct slots that the comment describes if and only if the class shares no slot on them |
| GapMetrics.WorstSpreadIsSlotSpread | solver/solver-core/src/score.rs:320-362 | without shared slots the worst spread is the one the comment describes |
| GapMetrics.EvenWeekByBothMetrics | solver/solver-core/src/score.rs:329-362 | on a five-day week where no class has two placements in one slot and every class that meets is listed, the total day-balance cost is 0 if and only if the worst spread is 0 |
| GapMetrics.EvenWeekByBothPasses | solver/solver-core/src/score.rs:329-362 | the same of the two figures the code computes for one problem with five days |
| GapMetrics.CoPlacedMeetingCountsTwice | solver/solver-core/src/score.rs:329-362 | a second placement in a taken slot raises the raw count and no slot count |
| Supervision.NeverMoreThanOneAhead | solver/solver-core/src/supervision.rs:141-149 | if u was eligible at every break t took, t ends at most one ahead of u |
| Supervision.SharedPoolSpread | solver/solver-core/src/supervision.rs:156-166 | if all staffed breaks share one eligible set the spread is at most 1 |
| Supervision.ChosenWasEligible | solver/solver-core/src/supervision.rs:141-149 | each break gets the eligible teacher with the least count so far, then the least id, and none exactly when nobody is eligible |
| Supervision.LoadsSumToAssignments | solver/solver-core/src/supervision.rs:139-154 | the running counts add up to the number of assignments |
| Supervision.InputOrderIrrelevant | solver/solver-core/src/supervision.rs:60-123 | permuting time blocks, teachers and placements leaves break slots and eligible sets unchanged |
| SupervisionPass.BuildOccupancy | solver/solver-core/src/supervision.rs:60-80 | the occupancy map lists exactly the teachers placed at each day and position |
| SupervisionPass.EligibleTeachers | solver/solver-core/src/supervision.rs:99-123 | the scan finds exactly the teachers free at the break and teaching at the previous or next position |
| RotaMeaning.CanStandMeaning | solver/solver-core/src/supervision.rs:99-123 | a teacher qualifies exactly when listed, without a placement at the break and with one at the previous or next position of that day |
| SupervisionPass.ComputeInner | solver/solver-core/src/supervision.rs:55-169 | the loop produces the rows and the spread of the greedy rota |
| SupervisionPass.ComputeSupervisionFull | solver/solver-core/src/supervision.rs:37-44 | all rows and the spread |
| SupervisionPass.ComputeSupervisionSpread | solver/solver-core/src/supervision.rs:48-51 | the count-only path returns the spread of the full path |
| SupervisionPass.OneRowPerBreak | solver/solver-core/src/supervision.rs:122-154 | every break slot yields exactly one assignment or gap row |
| SupervisionPass.RotaCoversBreaks | solver/solver-core/src/supervision.rs:82-156 | every break block is covered; an assigned teacher can supervise there with least count and id; a gap occurs only when nobody can |
| RotaMeaning.BreakSlotsMeaning | solver/solver-core/src/supervision.rs:82-89 | the slots are the break blocks of the problem, one for each, by day, position and id |
| RotaMeaning.RowsMeaning | solver/solver-core/src/supervision.rs:82-156 | every break block has a row, every row is that of a break block, and there are as many rows as break blocks |
| RotaMeaning.ChoiceMeaning | solver/solver-core/src/supervision.rs:125-149 | nobody stands at a break exactly when nobody qualifies; otherwise the one with the fewest breaks so far, the smallest id among equals |
| RotaMeaning.SpreadMeaning | solver/solver-core/src/supervision.rs:157-166 | the spread is the largest difference in breaks taken between two teachers of the rota, 0 without any |
| SupervisionPass.RotaForgetsInputOrder | solver/solver-core/src/supervision.rs:55-169 | rota, open breaks and spread do not depend on the order of the inputs |
| Index.NewIndexed | solver/solver-core/src/index.rs:19-52 | the index answers all four questions exactly as scanning the relation lists would |
| Ordering.LessonDaysExact | solver/solver-core/src/ordering.rs:31-43 | each day once, with exactly its lesson blocks as a multiset, in position order |
| OrderMeaning.DaysAscend | solver/solver-core/src/ordering.rs:41-43 | the blocks of each day come by ascending position |
| Ordering.RunFits | solver/solver-core/src/ordering.rs:200-217 | the run counter succeeds if and only if some window of n consecutive blocks is free for teacher and room |
| Ordering.LessonHomeRooms | solver/solver-core/src/ordering.rs:96-114 | the array keeps the first four home rooms of the lesson's classes in order |
| Ordering.FourHomeRoomsSuffice | solver/solver-core/src/ordering.rs:96-114 | the kept rooms are all home rooms if and only if the later ones repeat the first four |
| LessonOrder.HomeLimitHarmlessIff | solver/solver-core/src/ordering.rs:174-224 | the limit of four leaves the home metric unchanged if and only if no dropped home room is viable on any day, or the count has saturated; it never raises it |
| LessonOrder.AllHomeRoomsExact | solver/solver-core/src/ordering.rs:96-114 | with unique class ids a lesson's home rooms are those of its classes that have one |
| OrderMeaning.FoundRoomMeaning | solver/solver-core/src/ordering.rs:96-114 | the room found for a class is that of its first listing with a home room |
| OrderMeaning.RoomsInMemberOrder | solver/solver-core/src/ordering.rs:96-114 | a member's home room stands right after those of the members before it |
| OrderMeaning.KeptMeaning | solver/solver-core/src/ordering.rs:96-119 | kept are the first four |
| LessonOrder.SameRoomEligibility | solver/solver-core/src/ordering.rs:174-224 | the nested loops count the (day, room) pairs with a free window, overall and in home rooms |
| OrderMeaning.ViableMeaning | solver/solver-core/src/ordering.rs:189-217 | a (day, room) pair is viable exactly when the room is suitable and some run of blocks of the lesson's size is unblocked for its teacher and the room |
| OrderMeaning.MetricMeaning | solver/solver-core/src/ordering.rs:174-224 | the metric is the number of viable pairs, or of those with a kept home room, capped; 0 for a block size of 0 |
| LessonOrder.SameRoomEligibilityNoBlocks | solver/solver-core/src/ordering.rs:125-169 | the closed form computes the same metric when nothing is blocked, also for a lesson without a teacher |
| LessonOrder.PairsFactor | solver/solver-core/src/ordering.rs:125-169 | without blocked times the pairs are long days times suitable rooms |
| LessonOrder.FastPathAgrees | solver/solver-core/src/ordering.rs:58-86 | fast and slow path return the same pair for every lesson |
| LessonOrder.MetricShrinks | solver/solver-core/src/ordering.rs:174-224 | more blocked rows never raise viable or home pairs, and home pairs never exceed viable pairs |
| LessonOrder.FfdOrder | solver/solver-core/src/ordering.rs:23-94 | the order is a permutation of the lesson indices ascending by (candidates, viable pairs, home pairs, id) |
| OrderMeaning.EarlierIsScarcer | solver/solver-core/src/ordering.rs:64-93 | of two lessons the earlier has no more candidates, then no more viable pairs, then no more home pairs, then no larger id |
| OrderMeaning.OrderListsEachOnce | solver/solver-core/src/ordering.rs:87-94 | every lesson is listed exactly once |
| LessonOrder.OrderForgetsInput | solver/solver-core/src/ordering.rs:87-93 | every reordering of the lessons yields the same sequence of lesson ids |
| WorkerPool.StepInv | solver/solver-bench/src/main.rs:801-823 | every step of every thread keeps each plan index in exactly one place, the mutex with one owner, the sender counts exact and every outcome the runner's |
| WorkerPool.StepKeepsSenders | solver/solver-bench/src/main.rs:801-823 | a work sender lives until the plan is sent; a result sender lives for main until all workers are spawned and for each worker until it exits |
| WorkerPool.StepKeepsPlaces | solver/solver-bench/src/main.rs:794-829 | no step loses or duplicates a plan index among main, queue, workers, result channel and slots |
| WorkerPool.NeverDeadlocks | solver/solver-bench/src/main.rs:794-828 | until main is done some thread can move: no worker waits for work and main never waits for results that cannot come |
| WorkerPool.KeptSenderHangs | solver/solver-bench/src/main.rs:794-828 | a pool that keeps its sender of either channel is never done, and each of its runs extends to one after which no thread can move; with both drops that run is done |
| WorkerPool.StuckWhere | solver/solver-bench/src/main.rs:794-828 | where a run can end: done exactly with both drops, waiting for its workers exactly when main kept the work sender, waiting for results exactly when it kept only the result sender |
| WorkerPool.StepCountsDown | solver/solver-bench/src/main.rs:801-823 | every step uses up exactly one of the remaining steps, whoever takes it |
| WorkerPool.FinishedOutcomes | solver/solver-bench/src/main.rs:825-833 | a finished pool has every slot filled with the runner's answer for its index |
| WorkerPool.EveryRunFinishes | solver/solver-bench/src/main.rs:780-834 | every schedule can be extended until exactly 7n + 5j + 4 steps, and only then is main done |
| CellRunner.RunCellsParallel | solver/solver-bench/src/main.rs:780-834 | under an arbitrary scheduler the pool ends and returns the serial outcomes |
| CellRunner.RunCellsSerial | solver/solver-bench/src/main.rs:733-749 | the serial loop returns the runner's outcomes in plan order |
| CellRunner.Report.RenderCells | solver/solver-bench/src/main.rs:719-778 | rows, collected results and success count are functions of plan and runner, whatever the number of jobs |
| CellRunner.SuccessesInPlanOrder | solver/solver-bench/src/main.rs:751-777 | a successful entry is listed right after the successes before it |
| CellRunner.SuccessComesFromPlan | solver/solver-bench/src/main.rs:751-777 | every listed success is the plan entry with that many successes before it |
| CellRunner.RowsFollowPlan | solver/solver-bench/src/main.rs:751-777 | one row per plan entry with its fixture and backend, a panic row exactly where the runner failed and otherwise the cell it returned |
| Sweep.DominanceIsPareto | solver/solver-bench/src/main.rs:1705-1720 | the two-armed test is Pareto dominance with a missing score above every score |
| Sweep.DominanceIsStrictOrder | solver/solver-bench/src/main.rs:1705-1720 | dominance is irreflexive, asymmetric and transitive |
| Sweep.SweepParetoNonDominated | solver/solver-bench/src/main.rs:1693-1735 | the result is exactly the grid points with a non-dominated cell, strictly ascending |
| Sweep.FrontierMeaning | solver/solver-bench/src/main.rs:1693-1735 | a grid point is on the frontier exactly when some cell with these two parameters is beaten by no cell with both parameters, in feasible seeds and score |
| Sweep.DominatedByFrontier | solver/solver-bench/src/main.rs:1693-1735 | every dominated candidate is dominated by a cell whose grid point is on the frontier |
| Sweep.FrontierEmptyIff | solver/solver-bench/src/main.rs:1693-1735 | the frontier is empty if and only if there is no sweep cell |
| Sweep.InfeasibleOnFrontierIff | solver/solver-bench/src/main.rs:1693-1735 | a cell without a feasible seed is non-dominated if and only if all cells are like it |
| Sweep.FrontierListForgetsOrder | solver/solver-bench/src/main.rs:1693-1735 | reordering the cells does not change the frontier list |
| Recommend.SweepRecommend | solver/solver-bench/src/main.rs:1749-1791 | the eligible point of least mean after any given rounding, ties to the smallest period and K; none when no point is eligible |
| Recommend.EligibleMeaning | solver/solver-bench/src/main.rs:1749-1778 | a point is eligible exactly when its feasible, scored cells cover enough fixtures; its mean is the sum of their scores over their number |
| Recommend.RecommendationMeaning | solver/solver-bench/src/main.rs:1749-1791 | no covering point has a smaller rounded mean, or an equal one with a smaller period, or then a smaller K |
| Recommend.RoundingOnlyBlursTies | solver/solver-bench/src/main.rs:1778-1790 | under monotone rounding no eligible point has a smaller exact mean, unless both means round to one number and that point comes later |
| Recommend.DistinctCount | solver/solver-bench/src/main.rs:1772-1776 | sorting and deduplicating the fixture names counts the distinct fixtures |
| Recommend.RecommendationUnique | solver/solver-bench/src/main.rs:1749-1791 | at most one answer meets that description |
| Recommend.EligibleIff | solver/solver-bench/src/main.rs:1771-1778 | a point is eligible if and only if it ran feasibly on every listed fixture and no fixture is listed twice |
| Recommend.RepeatedFixtureBlocksAll | solver/solver-bench/src/main.rs:1833-1833 | naming a fixture twice leaves no recommendation |
| Witnesses.TwiceListedClassDiffers | solver/solver-core/src/quality.rs:202-210 | a school where the report scores 1 and the score is 2 |
| Witnesses.StrayPinDiffers | solver/solver-core/src/json.rs:106-118 | a problem whose one malformed soft pin costs 1 through JSON and 0 in the report |
| Witnesses.LongDayDiffers | solver/solver-bench/src/quality.rs:104-140 | a class day at positions 0 and 255 with 254 gap hours in the core and none in the bench |
| Witnesses.FifthHomeRoomLost | solver/solver-core/src/ordering.rs:96-114 | a lesson of five classes for which the code counts no home pair where there is one |
| Witnesses.TwoGroupsSpreadDiffers | solver/solver-core/src/score.rs:320-362 | two groups of one class in one slot: the code's worst spread is 2, the described one 1 |
| Witnesses.RepeatedFixtureLosesRecommendation | solver/solver-bench/src/main.rs:1771-1778 | one feasible cell and its fixture named twice: the point ran on every named fixture and is not recommended |
| Witnesses.InfeasibleCellOnFrontier | solver/solver-bench/src/main.rs:1693-1735 | a single cell without a feasible seed is on the frontier |
| Unpin.UnpinTeachers | solver/solver-bench/src/main.rs:44-65 | every lesson loses its pin and gets exactly the qualified teachers in ascending order; nothing else changes |
| Unpin.UnpinForgetsOrderAndPins | solver/solver-bench/src/main.rs:44-65 | the outcome depends only on which qualifications are listed |
| Unpin.UnpinIdempotent | solver/solver-bench/src/main.rs:44-65 | unpinning twice is unpinning once |
| Unpin.UnpinnedTeacher | solver/solver-bench/src/main.rs:44-65 | an unpinned lesson has a teacher if and only if someone is qualified, and its first is the qualified one with the smallest id |

## Left out

- Local search (`lahc.rs`), construction (`solve.rs`) and validation (`validate.rs`): the helpers they call are proved, their own moves and acceptance rules are not part of this model.
- Serialisation, error envelopes and the Python binding; `json.rs` matters only for how soft pins are derived.
- `progress.rs`, `trace.rs`, logging, timing and memory readings: no effect on results.
- The component labels and backend objective tables of the quality module: constant data.
- Starting cell processes, command-line parsing and the text of table rows: a cell runner is a function of its spec, and a row is the data the formatter reads.
- A panicking runner and a poisoned mutex: a runner that fails returns an error value.
- The bench ratio metrics (home-room ratio, late-period ratio, class-teacher share): their point is floating-point comparison.
- Recommend.SweepRecommend: the rounding of a mean to `f64` is a parameter; the sums before the division are exact, as they are in `f64` below 2^53.
- WorkerPool.NeverDeadlocks: stated for pools that drop both senders, as the code does; for the others see `WorkerPool.StuckWhere`. Sends never fail here; main owns both receivers until every sender is gone.
- Unpin.UnpinTeachers: returns the changed problem instead of changing it in place.
- SupervisionPass.ComputeInner: the `u32` running counts are unbounded here; `Supervision.SpreadBound` bounds them by the number of breaks.
- LessonOrder.FfdOrder: with blocked times it requires that every lesson has a pin or a candidate teacher, which validation guarantees and without which the source panics.
- Parity.ReportedScoreIsObjectiveIff: says nothing where the report's plain `u32` sum of class costs overflows, which takes more than 131590 classes.
- GapMetrics.BenchTotalAgreesIff: says nothing where the plain `u32` sum of gaps overflows, which takes more than 16909320 class days.
- UnitTotals.ReportedUnitsIff: at reported units that weigh exactly 2^32 - 1 it promises equality only when no counter saturated; a saturated counter can coincide with the total or not.
- UnitTotals.ReportedMissesIff: requires that the plain `u32` sum of the misses does not overflow.
- Ordering.LessonDaysExact: lesson blocks that share a day and a position keep their input order; `sort_unstable_by_key` may order them either way.
- The source computes score and report with repeated copies of the same loops; here they share one method per loop.
- Record fields that none of these functions read (names, buffers, lesson groups, weekly limits).
- The web backend and the frontend.
