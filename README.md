# TotalCoursePoints in Dafny

A model of the grading core of TotalCoursePoints, a course-grade calculator.
The repository holds two revisions of its student and category code:

- the root files `assignment.py`, `category.py`, `student.py`, `classroom.py` and `grade_bins.py`;
- the newer `TotalCoursePoints/` package.

The model covers both revisions:

- **Assignments** (`assignment.dfy`) models the root assignment: loading the per-student score table from rows, parsing "H:M:S" lateness into days late, looking up a student's record, rank, possible points, late days and course points.
- **CategoriesV1** (`categories_v1.dfy`) models the root category: possible points, the greedy slip-day allocation, the total score and the record lookup.
- **StudentsV1** (`students_v1.dfy`) models the root student: total points, exact and approximate grade, extensions and slip days.
- **Times** (`times.dfy`) models the signed duration `Time`: normalisation, seconds, ceilings, arithmetic, `get_count`, comparisons and pretty printing.
- **Conversions** (`conversions.dfy`) models the decimal text of integers and `safe_cast`.
- **Categories** (`categories.dfy`) models the newer category:
  - possible points with dropped assignments, and the "all entered" check;
  - scores with overrides;
  - the ordered and the optimal slip-time strategies, and slip validation;
  - dropping the lowest assignments.
- **Lowest** (`lowest.dfy`) models "remove the first minimum, k times".
- **Combos** (`combos.dfy`) models the search space of the optimal strategy, in `numpy.meshgrid` order, and `argmax`.
- **Students** (`students.dfy`) models the newer student: override score, totals with ignored categories, the class bonus, grade resolution (incomplete, pass/no-pass, bins), extensions, slip time and drop-lowest over all categories.
- **GradeBins** (`grade_bins.dfy`) models grade bins: half-open ranges, first-match lookup, pass thresholds, relative scores, the A+ increment and the pass/no-pass registry.
- **Classrooms** (`classroom.dfy`) models the classroom: its student and category registries, class-wide possible points, merging class-wide extensions into each student's own, and the processing order.
- **Supporting modules:**
  - **Dicts** (`dicts.dfy`): Python dictionaries with insertion order, as association lists with distinct keys;
  - **ExtensionData** (`extensions.dfy`): the nested extension maps and their merge;
  - **Wrappers** (`wrappers.dfy`): `Option`, `Result` and `Outcome`, which carry the Python exception a call raises.

How the source's forms map to Dafny:

- Objects whose fields the source updates become classes:
  - `Assignment`;
  - both `StudentCategoryData` classes;
  - both `Student` classes;
  - `GradeBins`, as `GradeBinSet`;
  - the `PNP` registry, as `PnpRegistry`;
  - `Classroom`.
- Their loops become methods with loop invariants, proved against specification functions. Lemmas state the source's promises about those functions.
- Records (`StudentAssignmentData`), configurations, bins and `Time` are datatypes.
- Python floats are modelled as exact `real` numbers.

## Model

| member | source | states |
|---|---|---|
| Times.MakeTime | TotalCoursePoints/utils.py:225-248 | the constructor normalises seconds and minutes into [0,60) and hours into [0,24); the sign is -1 iff some component argument is negative, else the sign argument; the magnitude is the sum of the components' absolute values in seconds |
| Times.CarryLaw | TotalCoursePoints/utils.py:243-248 | carrying seconds into minutes, minutes into hours and hours into days keeps the total number of seconds |
| Times.GetSign | TotalCoursePoints/utils.py:253-254 | `get_sign` is 1 or -1, and -1 exactly when the stored sign is negative |
| Times.FromSecondsRoundTrip | TotalCoursePoints/utils.py:236-254 | for every integer n, `Time(seconds=n)` is normalised, its `get_seconds()` is n, and it is negative iff n < 0 |
| Times.CeilDiv | TotalCoursePoints/utils.py:260-262 | the ceiling quotient q satisfies (q-1)*b < a <= q*b |
| Times.CeilToDaysLaw | TotalCoursePoints/utils.py:256-263 | `ceil_to_days` is `days` plus 1 iff hours, minutes or seconds is nonzero, and it is the least number of whole days covering the magnitude |
| Times.CeilToDaysValue | TotalCoursePoints/utils.py:256-263 | `ceil_to_days` equals `days` plus one exactly when some smaller component is nonzero |
| Times.CeilToHoursLaw | TotalCoursePoints/utils.py:265-271 | `ceil_to_hours` is 24*days + hours plus 1 iff minutes or seconds is nonzero, and it is the least number of whole hours covering the magnitude |
| Times.SubtractionLaws | TotalCoursePoints/utils.py:273-292 | `a - b` is normalised, its seconds are the difference of the seconds, and it is negative iff the difference is; `__rsub__` agrees with `__sub__`, and swapping the operands negates the result, also for int operands |
| Times.MulLaw | TotalCoursePoints/utils.py:294-300 | `(t * k).get_seconds()` is `t.get_seconds() * k`, and the product is negative iff that number is |
| Times.GetCount | TotalCoursePoints/utils.py:315-324 | the loop returns 0 iff the value is zero; for a positive value it returns the ceiling of value/interval; for a negative value it returns 1 |
| Times.CountAsWrittenNeverEnds | TotalCoursePoints/utils.py:319-324 | as written, a value that is not zero with an interval that is not positive and below the value never leaves the loop, whatever number of rounds is allowed |
| Times.ZeroIntervalNeverEnds | TotalCoursePoints/utils.py:319-324 | one minute counted in zero-second intervals never finishes as written |
| Times.GetCountChecked | TotalCoursePoints/utils.py:315-324 | `ValueError` exactly on the inputs where the loop as written never ends; otherwise the count, with the properties of `GetCount` |
| Times.ComparisonLaws | TotalCoursePoints/utils.py:326-354 | `<`/`>=`, `>`/`<=` and `!=`/`==` are complements; `==` is `<=` and `>=`; a `Time` equals its own seconds and the `Time` built from them; comparing with a `Time` is comparing with its seconds |
| Times.PrettyTimeStr | TotalCoursePoints/utils.py:356-379 | the loop builds the text `Pretty(t)`, which the shape lemmas describe |
| Times.JoinedShape | TotalCoursePoints/utils.py:369-373 | joining the unit parts with a single space keeps every non-empty part starting with a digit, and is empty iff every part is empty |
| Times.UnitPlural | TotalCoursePoints/utils.py:361-368 | a unit's text starts with the decimal count and ends in "s" iff the count is not 1 |
| Times.PrettyShape | TotalCoursePoints/utils.py:356-379 | an all-zero time prints "0 seconds"; otherwise the text starts with "- " iff the time is negative, followed by a digit |
| Conversions.SafeCast | TotalCoursePoints/utils.py:218-222 | the converted value when the conversion succeeds, else the default |
| Conversions.SafeCastInt | TotalCoursePoints/utils.py:218-222 | `safe_cast` to int of an integer's decimal text gives the integer; of "" or "-" it gives the default |
| Conversions.ParseInt | assignment.py:120 | `int()` of text fails on the empty string and succeeds only on non-empty text |
| Conversions.IntStrRoundTrip | assignment.py:120 | `int(str(n)) == n` for every integer n |
| Dicts.Put | classroom.py:58 | assignment to a key: the key maps to the new value, every other key is unchanged, an existing key keeps its position and a new key is appended |
| Dicts.Remove | classroom.py:62-63 | `del` of a key: it is gone, every other key is unchanged, and an absent key leaves the dictionary as it was |
| Dicts.PutTwice | classroom.py:58 | storing twice under a key is storing the second value |
| Dicts.RemovePut | classroom.py:57-63 | removing a newly added key restores the dictionary |
| Assignments.GetTotalPossible | assignment.py:172-178 | `course_points` when `percentage` is None; the category's points shared evenly among the `percentage is True` assignments; the category's points times a fractional percentage; an error when the category has no points |
| Assignments.GetLateDays | assignment.py:235-236 | the late days are 0 iff the days late are covered by slip days plus extension days, else the uncovered remainder |
| Assignments.CoursePointsLaws | assignment.py:238-244 | no late days gives the full points; a penalty of 1 or more gives 0; with non-negative penalty and points the result lies between 0 and the full points |
| Assignments.TryCoursePoints | assignment.py:238-244 | the points succeed iff the assignment is scorable, and then equal the course points; otherwise the possible points' exception, or `ZeroDivisionError` for an `out_of` of 0 |
| Assignments.SlipDayNeverHurts | assignment.py:235-244 | one more slip day never lowers a record's course points |
| Assignments.ThreeDaysLateScenario | assignment.py:238-244 | 80 out of 100 points, 3 days late at a 10% penalty, earns 56 points |
| Assignments.Split | assignment.py:118 | `split(':')` yields at least one part, and no part contains the separator |
| Assignments.SplitJoin | assignment.py:118 | splitting `a:b` with `a` free of the separator gives `a` followed by the parts of `b` |
| Assignments.SplitNoSep | assignment.py:118 | text without the separator splits into itself |
| Assignments.CeilDiv24 | assignment.py:125 | the days are the least whole number of 24-hour blocks covering the hours |
| Assignments.ParseLatenessOfHms | assignment.py:115-125 | the text "H:M:S" parses to the days late computed from H, M and S |
| Assignments.DaysLateLaws | assignment.py:115-125 | a missing lateness or one that is not three parts gives 0 days; for non-negative parts, the seconds, if positive, first add one minute, then positive minutes add one hour, and the days are the least number of 24-hour blocks covering those hours |
| Assignments.RowScore | assignment.py:110-111 | a missing score counts as 0.0, a present one as itself |
| Assignments.LoadRows | assignment.py:108-138 | loading keeps the per-sid table's keys distinct |
| Assignments.LoadRowsScores | assignment.py:127 | when every lateness parses, every row's score is appended to `scores` in row order and the old scores are kept |
| Assignments.LoadRowsShape | assignment.py:128-138 | a sid with no rows has no entry; with one row it has that row's record; with n >= 2 rows it has a list of 2n-1 records starting with the first row's record, and when the last row is that sid's, its record fills the last two places |
| Assignments.FileRecordOther | assignment.py:128-138 | filing one sid's record leaves every other sid's entry unchanged |
| Assignments.Assignment.constructor | assignment.py:71-73 | a new assignment has its configuration, an empty table and no scores |
| Assignments.Assignment.LoadData | assignment.py:108-138 | the table and the scores are those of `LoadRows`; the call fails iff a lateness fails to parse |
| Assignments.Assignment.File | assignment.py:128-138 | one row's record is filed under its sid, and nothing else changes |
| Assignments.Assignment.GetStudentData | assignment.py:140-170 | unloaded data gives a zero record marked not loaded; an unknown sid gives a zero record marked not found; a single record is returned as is; in a list, the record at the first index with the student's email if any, else the record at the first index with the student's name if any, else the whole list unchanged |
| Assignments.Assignment.GetRank | assignment.py:180-185 | the rank is 1 plus the number of scores strictly above the argument, and lies in [1, len(scores)+1] |
| Assignments.LoadFailureSticks | assignment.py:120 | once a lateness fails to parse, the remaining rows change nothing |
| Assignments.FirstWithEmail | assignment.py:153-155 | the position of the first record with the email, or none if no record has it |
| Assignments.FirstWithName | assignment.py:156-158 | the position of the first record with the name, or none if no record has it |
| Assignments.CountAbove | assignment.py:182-184 | the count of scores above a value is at most the number of scores |
| Assignments.RankMonotone | assignment.py:180-185 | a higher score never gets a worse rank |
| Assignments.RankExtremes | assignment.py:180-185 | a score at or above every score has rank 1; one below every score has rank len(scores)+1 |
| CategoriesV1.GetCategoryTotalPossible | category.py:47-55 | the loop returns `course_points` if set, else the sum of possible points of the counted assignments, or the first error |
| CategoriesV1.PossibleSumHidden | category.py:50-55 | with non-negative possible points, leaving out hidden assignments never increases the sum, and changes nothing when none is hidden |
| CategoriesV1.ThroughRecords | category.py:87-95 | one assignment's pass over the records keeps their number |
| CategoriesV1.ThroughRecordsShape | category.py:87-95 | the pass changes only slip days, and only on records of that assignment with late days |
| CategoriesV1.ThroughRecordsBudget | category.py:89-94 | with a non-negative budget, the days left stay non-negative and the slip days added plus those left never exceed the budget |
| CategoriesV1.OrderedLaws | category.py:80-95 | the ordered strategy changes only slip days, leaves on-time records, skipped assignments and assignments outside the category alone, and never overspends a non-negative budget |
| CategoriesV1.OrderedWithinBudget | category.py:89-94 | starting from no slip days, the total slip days used lie between 0 and the budget |
| CategoriesV1.SlipEach | category.py:87-95 | the loop over the records computes `ThroughRecords` |
| CategoriesV1.StudentCategoryData.constructor | category.py:66-69 | the category and its records are stored |
| CategoriesV1.StudentCategoryData.ApplyOrderedSlipDays | category.py:80-95 | without `max_slip_days` the records are unchanged; otherwise they become those of the ordered strategy |
| CategoriesV1.StudentCategoryData.SlipThroughRecords | category.py:87-95 | the records and the days left become those of `ThroughRecords` |
| CategoriesV1.StudentCategoryData.ApplyOptimalSlipDays | category.py:77-78 | the optimal strategy of this revision changes nothing |
| CategoriesV1.StudentCategoryData.FindAssignmentData | category.py:100-104 | the lookup returns the first record with the id |
| CategoriesV1.GetAssignmentData | category.py:100-104 | the position of the first record whose assignment id matches, or none iff no record matches |
| CategoriesV1.StudentCategoryData.ApplySlipDays | category.py:125 | `apply_slip_days` is the ordered strategy |
| CategoriesV1.TryTotalScoreOk | category.py:117-123 | the total succeeds iff every counted record can be scored, and then equals the sum of their course points |
| CategoriesV1.TryTotalScoreFirstError | category.py:117-123 | a failing total raises the exception of a counted record that cannot be scored, with every counted record before it scorable |
| CategoriesV1.StudentCategoryData.GetTotalScore | category.py:117-123 | the loop returns the sum of course points over the counted records, or stops at the first counted record that cannot be scored with its exception |
| CategoriesV1.TotalScoreHidden | category.py:117-123 | the total with hidden records is the total without them plus the hidden records' points |
| Categories.DropSumLaws | TotalCoursePoints/category.py:109-114 | dropping n of the non-zero points subtracts exactly n values, each no larger than any value kept |
| Categories.NonZeroSum | TotalCoursePoints/category.py:109 | leaving out zeros does not change the sum |
| Categories.PossibleDropsLowest | TotalCoursePoints/category.py:101-115 | without `course_points`, possible points fail iff more must be dropped than there are non-zero values; otherwise they are the sum less exactly that many lowest non-zero values |
| Categories.PossibleNoDrop | TotalCoursePoints/category.py:106-114 | when nothing must be dropped, possible points are the plain sum |
| Categories.PossibleCoursePointsInputted | TotalCoursePoints/category.py:84-100 | with `course_points` and only entered assignments, the sum of entered points is reduced by at most as many lowest non-zero values as exist |
| Categories.CollectPoints | TotalCoursePoints/category.py:86-105 | the loop collects the points the category counts: entered points when `course_points` is set, else the listed points |
| Categories.FilterNonZero | TotalCoursePoints/category.py:109 | the loop keeps exactly the non-zero values |
| Categories.RemoveLowest | TotalCoursePoints/category.py:110-113 | removing the minimum n times leaves the points without their n lowest values, and fails when there are fewer than n |
| Categories.SumOf | TotalCoursePoints/category.py:114 | the loop computes the sum |
| Categories.GetTotalPossible | TotalCoursePoints/category.py:81-115 | the method returns the category's possible points as `Possible` defines them |
| Categories.GetAllInputted | TotalCoursePoints/category.py:117-123 | true iff every counted assignment is entered |
| Categories.ScoreSumIgnoresHiddenSlip | TotalCoursePoints/category.py:276-279 | slip changes on hidden records do not change the score without hidden records |
| Categories.ScoreSumWithHidden | TotalCoursePoints/category.py:276-279 | with non-negative points, counting hidden records never lowers the score |
| Categories.GetAssignmentData | TotalCoursePoints/category.py:250-254 | the position of the first record with the id, or none iff no record has it |
| Categories.FirstRecordOf | TotalCoursePoints/category.py:227-228 | the position of the first record of the assignment, or none iff no record has it |
| Categories.OrderedSlip | TotalCoursePoints/category.py:224-235 | the ordered strategy keeps the number of records |
| Categories.PrefixSlipBelow | TotalCoursePoints/category.py:214-218 | with non-negative slip amounts, every running sum is at most the total |
| Categories.OrderedSlipLaws | TotalCoursePoints/category.py:224-235 | the ordered strategy changes only slip time, keeps it non-negative, keeps the remaining budget non-negative and never overspends it |
| Categories.OrderedSlipTake | TotalCoursePoints/category.py:229-234 | the same holds when the first assignment takes slip time |
| Categories.OrderedSlipValidates | TotalCoursePoints/category.py:220-236 | starting from no slip time, the ordered strategy's result passes `validate_slip_days` |
| Categories.LateList | TotalCoursePoints/category.py:168-175 | the late list holds only positions of eligible records whose assignment allows slip time and belongs to the category |
| Categories.LateListDistinct | TotalCoursePoints/category.py:168-175 | with distinct assignments, the late list has no repeats |
| Categories.Need | TotalCoursePoints/category.py:182-183 | a record's cap is the smaller of its late amount and the assignment's allowance |
| Categories.Caps | TotalCoursePoints/category.py:180-187 | one cap per late record, equal to its need |
| Categories.AssignCombo | TotalCoursePoints/category.py:194-196 | assigning a combination keeps the number of records |
| Categories.AssignComboChanges | TotalCoursePoints/category.py:194-196 | assigning a combination changes only the slip time of the late records |
| Categories.AssignComboOverwrites | TotalCoursePoints/category.py:194-196 | a later combination overwrites whatever an earlier one set on the late records |
| Categories.AssignComboTwice | TotalCoursePoints/category.py:199-204 | assigning two combinations in a row is assigning the second |
| Categories.AssignComboAt | TotalCoursePoints/category.py:194-196 | each late record gets its own entry of the combination |
| Categories.ComboScores | TotalCoursePoints/category.py:198-201 | one score per combination |
| Categories.OptimalIsBest | TotalCoursePoints/category.py:188-203 | the chosen combination scores at least as high as every admissible combination |
| Categories.OptimalExists | TotalCoursePoints/category.py:188-203 | with late records, a combination is chosen iff the budget is non-negative |
| Categories.OptimalSpends | TotalCoursePoints/category.py:178-193 | each chosen amount lies within its cap, and the total is the smaller of the summed caps and the budget |
| Categories.OptimalSlipAt | TotalCoursePoints/category.py:194-204 | only the late records' slip time changes, each to an amount between 0 and its need |
| Categories.LateListIgnoresSlip | TotalCoursePoints/category.py:166-180 | which records are late depends only on the records' assignments, late time and score, not on slip time |
| Categories.OrderedIsGreedy | TotalCoursePoints/category.py:220-236 | from a non-negative budget, the ordered strategy assigns the greedy fill of the late records' caps in assignment order, and leaves the budget less the greedy total |
| Categories.OrderedSlipAt | TotalCoursePoints/category.py:220-236 | with distinct assignments, the k-th late record gets the k-th greedy amount, and those amounts stay within the caps and spend min(sum of caps, budget) |
| Categories.OptimalNoWorseThanOrdered | TotalCoursePoints/category.py:163-236 | from a non-negative budget, the optimal strategy scores at least as much as the ordered one |
| Categories.Candidates | TotalCoursePoints/category.py:241 | the candidates are exactly the records worth points, in order, each with its course points |
| Categories.MarkDroppedAt | TotalCoursePoints/category.py:242-245 | a record is marked dropped iff it was chosen, and is otherwise unchanged |
| Categories.DropStep | TotalCoursePoints/category.py:242-245 | dropping the first lowest candidate and then m-1 more is dropping the m lowest |
| Categories.DropEach | TotalCoursePoints/category.py:242-245 | the loop marks the m lowest candidates dropped, and reports whether there were m |
| Categories.DropLowestCount | TotalCoursePoints/category.py:238-245 | exactly N distinct records worth points are dropped (none for N <= 0), and no other record changes |
| Categories.DroppedAreLowest | TotalCoursePoints/category.py:241-245 | every dropped record's points are at most those of every undropped record worth points |
| Categories.StudentCategoryData.constructor | TotalCoursePoints/category.py:137-142 | the category and its records are stored, with no override |
| Categories.StudentCategoryData.GetTotalScore | TotalCoursePoints/category.py:270-280 | the loop returns the category's total score: 0 when the category does not count, the override when set, else the sum over the counted records |
| Categories.StudentCategoryData.FindAssignmentData | TotalCoursePoints/category.py:250-254 | the loop finds the first record with the id |
| Categories.StudentCategoryData.FindRecord | TotalCoursePoints/category.py:227-228 | the loop finds the first record of the assignment |
| Categories.StudentCategoryData.ValidateSlipDays | TotalCoursePoints/category.py:210-218 | the loop raises `ValueError` iff a running sum of slip time exceeds `max_slip_count`, and passes when there is none |
| Categories.StudentCategoryData.ApplyOrderedSlipTime | TotalCoursePoints/category.py:220-236 | without `max_slip_count` nothing changes; otherwise the records become those of the ordered strategy and are then validated |
| Categories.StudentCategoryData.ApplySlipTime | TotalCoursePoints/category.py:282 | `apply_slip_time` is the ordered strategy followed by validation |
| Categories.StudentCategoryData.CollectLate | TotalCoursePoints/category.py:167-175 | the loop collects the late list |
| Categories.StudentCategoryData.CollectCaps | TotalCoursePoints/category.py:178-187 | the loop collects the caps and their sum |
| Categories.StudentCategoryData.AssignSlip | TotalCoursePoints/category.py:194-196 | the records take a combination's slip amounts |
| Categories.StudentCategoryData.ScoreCombos | TotalCoursePoints/category.py:198-201 | the loop scores every combination and leaves the last one assigned |
| Categories.StudentCategoryData.ApplyOptimalSlipTime | TotalCoursePoints/category.py:163-208 | the records become the best-scoring admissible combination (the first one in enumeration order on a tie), and the outcome is that of validation |
| Categories.StudentCategoryData.DropLowestAssignments | TotalCoursePoints/category.py:238-245 | N at least the number of records raises `ValueError` and changes nothing; otherwise the N lowest are marked dropped, and too few candidates raise the error of `min()` |
| Categories.StudentCategoryData.DropRounds | TotalCoursePoints/category.py:242-245 | the loop marks the m lowest candidates dropped |
| Categories.StudentCategoryData.CollectCandidates | TotalCoursePoints/category.py:241 | the loop collects the candidates |
| Lowest.FirstMinIndexLaws | TotalCoursePoints/category.py:113 | `min` picks a smallest element, and the first of them |
| Lowest.LowestK | TotalCoursePoints/category.py:112-113 | removing the minimum k times removes min(k, n) elements and keeps the rest |
| Lowest.LowestKMembers | TotalCoursePoints/category.py:112-113 | every element is either removed or kept |
| Lowest.LowestKBelow | TotalCoursePoints/category.py:110-113 | every removed element is at most every kept element |
| Lowest.LowestKSum | TotalCoursePoints/category.py:112-114 | the kept elements' sum is the total less the removed elements' sum |
| Combos.ProductMembership | TotalCoursePoints/category.py:185-188 | the Cartesian product of the ranges holds exactly the combinations within the caps |
| Combos.RestoreReorder | TotalCoursePoints/category.py:188 | the axis order `meshgrid(...).T` produces is undone by `Restore` |
| Combos.MeshMembership | TotalCoursePoints/category.py:185-188 | the meshgrid enumeration holds exactly the combinations within the caps |
| Combos.WithTotalIn | TotalCoursePoints/category.py:190-193 | the filter keeps exactly the combinations whose total lies in the range |
| Combos.AdmissibleTotal | TotalCoursePoints/category.py:190-193 | an admissible combination is within the caps, and its total is the smaller of the summed caps and the budget |
| Combos.AdmissibleExists | TotalCoursePoints/category.py:189-193 | an admissible combination exists iff the budget is non-negative |
| Combos.ArgMax | TotalCoursePoints/category.py:202 | `argmax` returns a largest score, and the first one |
| Combos.FilterByTotal | TotalCoursePoints/category.py:189-193 | the loop computes the filter |
| Combos.FindArgMax | TotalCoursePoints/category.py:202 | the loop computes `argmax` |
| GradeBins.InBinHalfOpen | grade_bins.py:59-68 | an unbounded bin holds everything; a bounded bin never holds None; otherwise the bin holds the values in [min, max), its min included and its max excluded |
| GradeBins.FirstContaining | grade_bins.py:141-145 | the lookup returns a bin of the set that contains the value, or none iff no bin does |
| GradeBins.FirstContainingIsFirst | grade_bins.py:141-145 | when the value lies in bin i and in no earlier bin, the lookup returns bin i |
| GradeBins.MaxOfBinsIsLargest | grade_bins.py:76-84 | with bounded bins, the computed maximum is the largest `max` and belongs to one of the bins |
| GradeBins.Reaches | grade_bins.py:7-36 | `Max()` is never reached; a numeric threshold is reached iff the value is at least it; None cannot be compared and raises |
| GradeBins.GradeBinSet.Empty | grade_bins.py:74-75 | the set starts with no bins and no maximum, and keeps the given thresholds |
| GradeBins.GradeBinSet.AddBin | grade_bins.py:117-127 | `ValueError` iff the id is present, with nothing changed; otherwise the bin is appended |
| GradeBins.GradeBinSet.RemoveBin | grade_bins.py:129-133 | True iff the id was present; the result is the dictionary with that entry deleted, so the other bins keep their values and their insertion order |
| GradeBins.GradeBinSet.InBinLookup | grade_bins.py:141-145 | the loop returns the first bin containing the value, or None iff no bin does |
| GradeBins.GradeBinSet.IsPassing | grade_bins.py:147-150 | the per-grade-type threshold is used when one exists, else the global one |
| GradeBins.GradeBinSet.RelativeScore | grade_bins.py:160-163 | `GradeBinsError` without `normal_max_points`, `ZeroDivisionError` for a zero maximum, else score/max_score*normal_max_points |
| GradeBins.GradeBinSet.RelativeBin | grade_bins.py:152-158 | `GradeBinsError` without `normal_max_points`; with no bins, no bin and nothing divided; otherwise the error of the relative score, or the first bin containing it |
| GradeBins.GradeBinSet.Replace | grade_bins.py:169-170 | storing a bin under an existing id replaces it in place, and no other bin changes |
| GradeBins.GradeBinSet.IncrementAPlus | grade_bins.py:165-172 | with both "A+" and "A", A+'s min and A's max grow by the amount and the result is True; without both it is False and nothing changes; an unbounded A+ min raises `TypeError` before any change; an unbounded A max raises `TypeError` after A+ has grown, with A unchanged |
| GradeBins.NewGradeBinSet | grade_bins.py:74-103 | construction fails iff a bin id repeats or the maxima cannot be compared, and then with the first exception of the loop over the bins (`BuildBins`); otherwise the bins are stored in order, `normal_max_points` is the argument or else the largest max, and the thresholds are converted |
| GradeBins.BuildBinsLaws | grade_bins.py:77-80 | the constructor's loop completes iff no `max` comparison fails and no id repeats, with the largest max as its value; its exception is the `>` `TypeError` or `add_bin`'s `ValueError` |
| GradeBins.AddNextBin | grade_bins.py:77-80 | one iteration of the constructor's loop updates the running maximum and adds the next bin, with `BuildBins`' result for the longer prefix; an exception there is that of the whole loop |
| GradeBins.PnpRegistry.constructor | grade_bins.py:183-184 | the registry starts with the EPN and ESU grade types |
| GradeBins.PnpRegistry.Register | grade_bins.py:176-182 | `ValueError` iff the grade type is already registered, with nothing changed; otherwise it is registered |
| ExtensionData.PutAllGet | classroom.py:144-145 | after storing a sheet's values, an assignment has the sheet's value if given, else its old one |
| ExtensionData.MergeIntoGet | classroom.py:141-147 | after a merge, each category's assignment has the sheet's value if given, else the student's own; a category new to the student is taken whole |
| ExtensionData.MergeAllOnce | classroom.py:137-147 | with unique sids, a student is merged with its own entry once, or left unchanged when it has none |
| Classrooms.FindSid | classroom.py:47-51 | the position of the first student with the sid, or none iff no student has it |
| Classrooms.RemoveFirst | classroom.py:53-55 | removing a student takes out one occurrence if present and leaves the list unchanged otherwise |
| Classrooms.RemoveFirstAt | classroom.py:53-55 | removal takes out the first occurrence |
| Classrooms.RemoveAdded | classroom.py:44-55 | removing a newly added student restores the list |
| Classrooms.ClassPossibleAppend | classroom.py:101-107 | the class total over two groups of categories is the sum of their totals, with the first error winning |
| Classrooms.HiddenAddsNothing | classroom.py:104-105 | without `with_hidden`, a hidden category adds nothing |
| Classrooms.PutEach | classroom.py:144-145 | the loop stores a sheet's values over a category's extensions |
| Classrooms.MergeStudent | classroom.py:140-147 | one student's extensions become the merge, and nothing else changes |
| Classrooms.MergeEach | classroom.py:141-147 | the loop over a sheet's categories computes the merge |
| Classrooms.MergedTable | classroom.py:137-149 | after the table is merged, the first student with each sid has had its entry merged, and every other student is unchanged |
| Classrooms.FindStudent | classroom.py:49-51 | the loop returns the first student with the sid |
| Classrooms.MergeEntry | classroom.py:138-149 | one sid's entry is merged into the first student with that sid; sids not in the roster change nothing |
| Classrooms.MergeTable | classroom.py:137-149 | the loop over the table merges every entry |
| Classrooms.Classroom.constructor | classroom.py:19-26 | the classroom stores its name, id, bins, categories and students, and is valid iff the category names are distinct and the students are valid, distinct and hold disjoint records |
| Classrooms.Classroom.AddStudent | classroom.py:44-45 | the student is appended |
| Classrooms.Classroom.GetStudent | classroom.py:47-51 | the first student with the sid, or None iff there is none |
| Classrooms.Classroom.RemoveStudent | classroom.py:53-55 | the student is removed if present, and nothing changes otherwise; a valid classroom stays valid |
| Classrooms.Classroom.AddCategory | classroom.py:57-58 | the category is stored under its name, replacing any earlier one; a valid classroom stays valid |
| Classrooms.Classroom.RemoveCategory | classroom.py:60-63 | the category is deleted if present, and nothing changes otherwise; a valid classroom stays valid |
| Classrooms.Classroom.GetTotalPossible | classroom.py:101-107 | the loop sums the counted categories' possible points, with the first error winning |
| Classrooms.Classroom.AllInputted | classroom.py:164-168 | true iff every category is fully entered |
| Classrooms.Classroom.MergeExtensions | classroom.py:132-149 | without a table nothing changes; otherwise every roster student's extensions become the merge of its entry |
| Classrooms.Classroom.ApplyExtensions | classroom.py:131-158 | the extensions are merged, then applied to every student's records |
| Classrooms.Classroom.Process | classroom.py:109-117 | extensions are merged and applied, then slip days are allocated, for every student |
| Classrooms.Classroom.ApplyStudentExtensions | classroom.py:157-158 | every student's extensions are applied to its records |
| Classrooms.Classroom.ApplySlipDays | classroom.py:160-162 | every student's slip days are allocated |
| StudentsV1.ExtendRecordsAt | student.py:81-90 | a record gets the extension days of its category's map iff it is the first record of its assignment and the map has that assignment; every other record is unchanged |
| StudentsV1.ExtendedLateDays | student.py:86-90 | with the extension applied, the late days are the days late less slip and extension days, floored at 0 |
| StudentsV1.AsWrittenKeepsLateDays | student.py:90 | the extension as written changes only `extension_time`, so no record's late days change |
| StudentsV1.ExtensionIgnoredExample | student.py:90 | a record 2 days late with a 2-day extension stays 2 days late as written, and becomes on time as intended |
| StudentsV1.ScoresOfHidden | student.py:47-51 | the total with hidden records is the total without them plus the hidden points |
| StudentsV1.ExtendCategory | student.py:86-90 | one category's records take its extensions |
| StudentsV1.Student.constructor | student.py:9-18 | a new student has its identity, extensions and no categories |
| StudentsV1.Student.IsAuth | student.py:35-36 | true iff the sids match and either no secret is stored or the secrets are equal |
| StudentsV1.Student.AddCategoryData | student.py:44-45 | the category data is stored under its category name, replacing any earlier one |
| StudentsV1.TryScoresOk | student.py:47-51 | the total points succeed iff every category's counted records can be scored, and then equal the sum of the category totals |
| StudentsV1.TryScoresFirstError | student.py:47-51 | failing total points raise the exception of a category whose total fails, with every category before it scorable |
| StudentsV1.Student.TotalPoints | student.py:47-51 | the loop sums every category's total score, or stops at the first category whose total raises, with that exception |
| StudentsV1.Student.GetGrade | student.py:65-67 | a record that cannot be scored raises its exception first; otherwise the id of a bin containing the total points, or `AttributeError` iff no bin contains them |
| StudentsV1.Student.GetApproxGradeId | student.py:69-73 | a record that cannot be scored raises first; then the exception of the classroom's entered-points total; then `GradeBinsError` without `normal_max_points`; `AttributeError` with no bins; `ZeroDivisionError` with bins and nothing entered; otherwise the id of a bin containing the relative score |
| StudentsV1.Student.GradeLine | student.py:96-101 | fully entered: exactly `Grade`'s id as an exact grade, or its exception; otherwise exactly `ApproxGrade`'s id with the entered points as an on-track grade, or its exception (the total's, then the entered-points total's, then the lookup's) |
| StudentsV1.Student.ApplyExtensions | student.py:81-90 | every category's records take their extensions, as `ExtendRecords` defines. This is the corrected behaviour of the student.py:90 finding: the extension goes into `extension_days`. `ExtendRecordsAsWritten` is the version as written |
| StudentsV1.Student.ApplySlipDays | student.py:92-94 | every category's records get the ordered slip days |
| Students.WithClassLaws | TotalCoursePoints/student.py:95-99 | with everything entered the whole bonus is added; a zero total counts as 1; with entered points between 0 and the total, the bonus added lies between 0 and the raw bonus |
| Students.ExtendTimesAt | TotalCoursePoints/student.py:142-151 | a record gets `extension_time` from its category's map iff it is the first record of its assignment and the map has that assignment; every other record is unchanged |
| Students.ExtendCategoryTimes | TotalCoursePoints/student.py:147-151 | one category's records take their extension times |
| Students.SlipCategory | TotalCoursePoints/student.py:155 | one category's slip time is applied and validated |
| Students.DropCategory | TotalCoursePoints/student.py:159 | one category's lowest assignments are dropped |
| Students.SlipAll | TotalCoursePoints/student.py:153-155 | categories are slipped in order until one raises; later categories are untouched |
| Students.DropAll | TotalCoursePoints/student.py:157-159 | categories drop their lowest in order until one raises; later categories are untouched |
| Students.ScoresOfIgnore | TotalCoursePoints/student.py:72-79 | the total over all categories is the total without the ignored ones plus the ignored ones' scores |
| Students.Student.constructor | TotalCoursePoints/student.py:9-31 | a new student has its identity, status, extensions, no categories and no override |
| Students.Student.SetOverrideScore | TotalCoursePoints/student.py:33-37 | an int, float or None is stored; any other value raises `ValueError` and changes nothing |
| Students.Student.IsForGrade | TotalCoursePoints/student.py:48-49 | true iff the status is "GRD" and the student is not incomplete |
| Students.Student.IsAuth | TotalCoursePoints/student.py:57-58 | true iff the sids match and either no secret is stored or the secrets are equal |
| Students.Student.AddCategoryData | TotalCoursePoints/student.py:66-67 | the category data is stored under its category name, replacing any earlier one |
| Students.Student.TotalPoints | TotalCoursePoints/student.py:69-80 | the override when set, else the sum of the category totals, skipping ignored categories |
| Students.Student.TotalPointsWithClass | TotalCoursePoints/student.py:95-99 | the total plus the class bonus scaled by the entered share of the possible points |
| Students.Student.GradeLaws | TotalCoursePoints/student.py:101-112 | for a pass/no-pass status, the grade is the pass or no-pass label by `is_passing`, and fails iff `is_passing` does |
| Students.Student.BinGradeLaws | TotalCoursePoints/student.py:114-115 | otherwise the grade is the id of a bin containing the score, and fails iff no bin does |
| Students.Student.GetGrade | TotalCoursePoints/student.py:101-115 | an incomplete student gets "I"; otherwise the grade as resolved above |
| Students.Student.GetApproxGradeId | TotalCoursePoints/student.py:117-134 | "I" when incomplete; `GradeBinsError` without `normal_max_points`; `AttributeError` with no bins outside pass/no-pass; `ZeroDivisionError` when nothing is entered and there are bins or pass/no-pass applies; else the relative grade |
| Students.Student.Report | TotalCoursePoints/student.py:161-164 | the report holds the grade, plus the on-track grade iff the classroom is not fully entered, and fails iff one of them fails; `get_grade`'s exception is raised first, then the on-track lookup's |
| Students.Student.ApplyExtensions | TotalCoursePoints/student.py:142-151 | every category's records take their extension times, and the overrides are kept |
| Students.Student.ApplySlipTime | TotalCoursePoints/student.py:153-155 | every category's slip time is applied in order, stopping at the first that raises |
| Students.Student.DropLowestAssignments | TotalCoursePoints/student.py:157-159 | every category's lowest assignments are dropped in order, stopping at the first that raises |

## Left out

- Google Sheets, CSV and file I/O are not modelled: `load_file`, `load_gsheet`, `load_students_from_roster`, `dump_data`, `dump_result` and the GSheet helpers. Parsed rows and decoded extension tables are parameters instead. A sheet that could not be read is `None`.
- JSON decoding of extension strings is not modelled. Constructors take decoded extension maps, and a falsy value is passed as the empty map.
- `match_assignments_to_students` is not modelled. `Classrooms.Classroom.Process` starts after matching, on students whose records are in place.
- Statistics and text rendering are not modelled: `get_stats`, `bar_plot_str`, the class GPA and statistics strings, and `get_str`/`main_results_str`/`dump_str`. Only the grade choices in the text are modelled, by `StudentsV1.Student.GradeLine` and `Students.Student.Report`.
- Floating point is modelled as exact `real` arithmetic. `str(sid)` is the identity, since sids are already strings.
- Object identity and aliasing are not modelled:
  - students are distinct objects;
  - their category records are disjoint;
  - an `Assignment`'s stored record is a value, not shared with the student's record.
- The loops that update records (`SlipEach`, `DropEach`, `MergeEach`, `SlipAll`, `DropAll`) work on a local copy of the record list, which is then assigned back, rather than updating each record object in place.
- Python's mutable default arguments are not modelled. Each constructor takes its collections explicitly.
- `Time(parse=...)` raises `NotImplementedError` and is not modelled. Neither is `GracePeriod`, a plain record with no behaviour.
- The debugger call in `Time.__sub__` for a non-int, non-`Time` operand is not modelled. The operand type admits only `int` and `Time`.
- TotalCoursePoints/group.py is not part of this model. It merges records through a caller-supplied callback and uses attributes no shown assignment defines.
- The newer record methods (`get_late_time`, `get_num_late`, `get_course_points`, `is_worth_points`, `drop_assignment`, `is_inputted`) are not among the files modelled. They appear as fields of the record and of the assignment information.
- The classroom holds the newer `Category` form, the only one with `get_total_possible(only_inputted)` and `all_inputted`, beside the root students.
- Times.GetCount: its `requires` excludes a value that is not zero with an interval that is not positive and below the value, on which the source loops forever. `Times.CountAsWritten` models that loop, and `Times.GetCountChecked` is the guarded version (see Findings).
- ParseInt: accepts only an optional sign followed by ASCII digits. Python's `int()` also accepts surrounding whitespace, `_` between digits and non-ASCII digits; the model rejects these.
- GradeBins.NewGradeBinSet: the threshold map takes only `Bin` values. A `None` map and the `isinstance(value, [int, float])` crash are excluded by the parameter types.
- `GradeBins.copy`, `Bin.copy`, `get_bins`, `get_bin` and `in_relative_bin` are not modelled. `copy` passes `normal_max_points` where the constructor expects the threshold map.
- Truthiness of extension values is not modelled: extensions are integers, stored as given.

## Findings

| source | as written | input that shows it | evidently intended | confidence | as-written member | corrected member |
|---|---|---|---|---|---|---|
| student.py:90 | `apply_extensions` stores the extension in the record's `extension_time`, but `get_late_days` (assignment.py:236) subtracts `extension_days`, so an extension never reduces the late days | a record 2 days late on assignment "hw", with extensions `{hw: 2}` in its category: it stays 2 days late | store the extension in `extension_days`, so the record becomes on time | not executed | StudentsV1.AsWrittenKeepsLateDays | StudentsV1.ExtendRecordsAt |
| TotalCoursePoints/utils.py:319-324 | `get_count` subtracts the interval until nothing positive is left, with no check on the interval | a value of 60 seconds with an interval of 0 seconds: the value stays at 60 and the loop never ends | refuse an interval that is not positive instead of looping forever | not executed; medium, since callers may only pass positive intervals | Times.CountAsWrittenNeverEnds | Times.GetCountChecked |
