/**
 * The root revision's categories (category.py): the category's possible
 * points, and a student's records in one category with the greedy slip-day
 * allocation, the total score and the record lookup.
 */
module CategoriesV1 {
  import opened Wrappers
  import opened Assignments

  /** The root `Category` configuration. */
  datatype Category = Category(
    name: string,
    assignments: seq<AssignmentConfig>,
    coursePoints: Option<real>,
    maxSlipDays: Option<int>,
    hidden: bool)

  /**
   * The possible points of `assignments` in order, skipping hidden ones
   * unless `withHidden`; the first assignment whose possible points cannot
   * be computed gives its exception.
   */
  function PossibleSum(assignments: seq<AssignmentConfig>, withHidden: bool): Result<real> {
    if assignments == [] then Ok(0.0)
    else
      var prev := PossibleSum(assignments[..|assignments| - 1], withHidden);
      var a := assignments[|assignments| - 1];
      if prev.Err? || (a.hidden && !withHidden) then prev
      else match GetTotalPossible(a)
        case Err(e) => Err(e)
        case Ok(v) => Ok(prev.value + v)
  }

  /** `Category.get_total_possible(with_hidden)`. */
  function TotalPossible(c: Category, withHidden: bool): Result<real> {
    if c.coursePoints.Some? then Ok(c.coursePoints.value) else PossibleSum(c.assignments, withHidden)
  }

  /**
   * `Category.get_total_possible(with_hidden)`: the category's own course
   * points when set, else the sum over its (visible) assignments.
   */
  method GetCategoryTotalPossible(c: Category, withHidden: bool) returns (r: Result<real>)
    ensures r == TotalPossible(c, withHidden)
  {
    if c.coursePoints.Some? {
      return Ok(c.coursePoints.value);
    }
    var points := 0.0;
    var i := 0;
    while i < |c.assignments|
      invariant 0 <= i <= |c.assignments|
      invariant PossibleSum(c.assignments[..i], withHidden) == Ok(points)
    {
      var a := c.assignments[i];
      assert c.assignments[..i + 1][..i] == c.assignments[..i];
      if a.hidden && !withHidden {
        i := i + 1;
        continue;
      }
      var tp := GetTotalPossible(a);
      if tp.Err? {
        PossibleSumErrSticks(c.assignments, withHidden, i + 1);
        return Err(tp.error);
      }
      points := points + tp.value;
      i := i + 1;
    }
    assert c.assignments[..i] == c.assignments;
    r := Ok(points);
  }

  lemma {:induction false} PossibleSumErrSticks(assignments: seq<AssignmentConfig>, withHidden: bool, n: nat)
    requires n <= |assignments| && PossibleSum(assignments[..n], withHidden).Err?
    ensures PossibleSum(assignments, withHidden) == PossibleSum(assignments[..n], withHidden)
    decreases |assignments| - n
  {
    if n < |assignments| {
      assert assignments[..n + 1][..n] == assignments[..n];
      PossibleSumErrSticks(assignments, withHidden, n + 1);
    } else {
      assert assignments[..n] == assignments;
    }
  }

  /**
   * Hidden assignments only add when `withHidden`: when every possible
   * points value can be computed and none is negative, the visible total
   * is at most the total with hidden ones, and equal when none is hidden.
   */
  lemma {:induction false} PossibleSumHidden(assignments: seq<AssignmentConfig>)
    requires forall i :: 0 <= i < |assignments| ==>
      GetTotalPossible(assignments[i]).Ok? && GetTotalPossible(assignments[i]).value >= 0.0
    ensures PossibleSum(assignments, false).Ok? && PossibleSum(assignments, true).Ok?
    ensures PossibleSum(assignments, false).value <= PossibleSum(assignments, true).value
    ensures (forall i :: 0 <= i < |assignments| ==> !assignments[i].hidden) ==>
      PossibleSum(assignments, false) == PossibleSum(assignments, true)
  {
    if assignments != [] {
      var init := assignments[..|assignments| - 1];
      forall i | 0 <= i < |init|
        ensures GetTotalPossible(init[i]).Ok? && GetTotalPossible(init[i]).value >= 0.0
      {
        assert init[i] == assignments[i];
      }
      PossibleSumHidden(init);
      if forall i :: 0 <= i < |assignments| ==> !assignments[i].hidden {
        assert forall i :: 0 <= i < |init| ==> !init[i].hidden by {
          forall i | 0 <= i < |init| ensures !init[i].hidden {
            assert init[i] == assignments[i];
          }
        }
      }
    }
  }

  function MinInt(x: int, y: int): int {
    if x <= y then x else y
  }

  /** `allowed_slip_days` is an integer below 0: the assignment takes no slip days. */
  predicate NoSlipAllowed(a: AssignmentConfig) {
    a.allowedSlipDays.Some? && a.allowedSlipDays.value < 0
  }

  /** The slip days a late record of `a` receives with `left` days left. */
  function Allotment(a: AssignmentConfig, r: Record, left: int): int {
    if a.allowedSlipDays.Some?
    then MinInt(MinInt(GetLateDays(r), left), a.allowedSlipDays.value)
    else MinInt(GetLateDays(r), left)
  }

  /** One record of the inner loop: a late record of `a` gets its allotment, which leaves the days left. */
  function SlipStep(a: AssignmentConfig, r: Record, left: int): (Record, int) {
    if r.assignment == a && GetLateDays(r) != 0
    then (r.(slipDaysUsed := Allotment(a, r, left)), left - Allotment(a, r, left))
    else (r, left)
  }

  /** The inner loop over the records for one assignment. */
  function ThroughRecords(a: AssignmentConfig, recs: seq<Record>, left: int): (p: (seq<Record>, int))
    ensures |p.0| == |recs|
  {
    if recs == [] then ([], left)
    else
      var step := SlipStep(a, recs[0], left);
      var rest := ThroughRecords(a, recs[1..], step.1);
      ([step.0] + rest.0, rest.1)
  }

  lemma ThroughRecordsAt(a: AssignmentConfig, recs: seq<Record>, j: nat, left: int)
    requires j < |recs|
    ensures var step := SlipStep(a, recs[j], left);
      var rest := ThroughRecords(a, recs[j + 1..], step.1);
      ThroughRecords(a, recs[j..], left) == ([step.0] + rest.0, rest.1)
  {
    assert recs[j..][1..] == recs[j + 1..];
  }

  /** `apply_ordered_slip_days` over `assignments` with `left` slip days left. */
  function Ordered(assignments: seq<AssignmentConfig>, recs: seq<Record>, left: int): (p: (seq<Record>, int))
    ensures |p.0| == |recs|
  {
    if assignments == [] then (recs, left)
    else if NoSlipAllowed(assignments[0]) then Ordered(assignments[1..], recs, left)
    else
      var q := ThroughRecords(assignments[0], recs, left);
      Ordered(assignments[1..], q.0, q.1)
  }

  function SumSlip(recs: seq<Record>): int {
    if recs == [] then 0 else recs[0].slipDaysUsed + SumSlip(recs[1..])
  }

  predicate SlipsNonNegative(recs: seq<Record>) {
    forall j :: 0 <= j < |recs| ==> recs[j].slipDaysUsed >= 0
  }

  /** A record whose slip days may change only in their number. */
  predicate SameButSlip(r: Record, r': Record) {
    r' == r.(slipDaysUsed := r'.slipDaysUsed)
  }

  /**
   * One assignment's pass keeps every record but its slip days, and leaves
   * records of other assignments and records not late unchanged.
   */
  lemma {:induction false} ThroughRecordsShape(a: AssignmentConfig, recs: seq<Record>, left: int)
    ensures var p := ThroughRecords(a, recs, left);
      forall j :: 0 <= j < |recs| ==>
        (SameButSlip(recs[j], p.0[j]) && (recs[j].assignment != a || GetLateDays(recs[j]) == 0 ==> p.0[j] == recs[j]))
  {
    if recs != [] {
      var step := SlipStep(a, recs[0], left);
      ThroughRecordsShape(a, recs[1..], step.1);
      var p := ThroughRecords(a, recs, left);
      var rest := ThroughRecords(a, recs[1..], step.1);
      assert p.0 == [step.0] + rest.0;
      forall j | 0 <= j < |recs|
        ensures SameButSlip(recs[j], p.0[j])
        ensures recs[j].assignment != a || GetLateDays(recs[j]) == 0 ==> p.0[j] == recs[j]
      {
        if j > 0 {
          assert p.0[j] == rest.0[j - 1] && recs[j] == recs[1..][j - 1];
        }
      }
    }
  }

  /**
   * With non-negative slip days and budget, one assignment's pass hands out
   * non-negative slip days, keeps the budget non-negative, and spends no
   * more than it had.
   */
  lemma {:induction false} ThroughRecordsBudget(a: AssignmentConfig, recs: seq<Record>, left: int)
    requires !NoSlipAllowed(a) && left >= 0 && SlipsNonNegative(recs)
    ensures var p := ThroughRecords(a, recs, left);
      p.1 >= 0 && SlipsNonNegative(p.0) && SumSlip(p.0) + p.1 <= SumSlip(recs) + left
  {
    if recs != [] {
      var step := SlipStep(a, recs[0], left);
      assert SlipsNonNegative(recs[1..]) by {
        forall j | 0 <= j < |recs[1..]| ensures recs[1..][j].slipDaysUsed >= 0 {
          assert recs[1..][j] == recs[j + 1];
        }
      }
      ThroughRecordsBudget(a, recs[1..], step.1);
      var p := ThroughRecords(a, recs, left);
      var rest := ThroughRecords(a, recs[1..], step.1);
      assert p.0 == [step.0] + rest.0;
      forall j | 0 <= j < |p.0| ensures p.0[j].slipDaysUsed >= 0 {
        if j > 0 {
          assert p.0[j] == rest.0[j - 1];
        }
      }
      assert p.0[1..] == rest.0;
    }
  }

  /**
   * The greedy allocation changes nothing but slip days; records not late,
   * and records of assignments not listed or taking no slip days, keep
   * theirs; with a non-negative budget and no slip days in use before, the
   * slip days used add up to at most the budget.
   */
  lemma {:induction false} OrderedLaws(assignments: seq<AssignmentConfig>, recs: seq<Record>, left: int)
    ensures var p := Ordered(assignments, recs, left);
      forall j :: 0 <= j < |recs| ==>
        (SameButSlip(recs[j], p.0[j])
         && ((GetLateDays(recs[j]) == 0 || NoSlipAllowed(recs[j].assignment) || recs[j].assignment !in assignments)
             ==> p.0[j] == recs[j]))
    ensures var p := Ordered(assignments, recs, left);
      left >= 0 && SlipsNonNegative(recs) ==>
        p.1 >= 0 && SlipsNonNegative(p.0) && SumSlip(p.0) + p.1 <= SumSlip(recs) + left
  {
    if assignments != [] {
      var a := assignments[0];
      if NoSlipAllowed(a) {
        OrderedLaws(assignments[1..], recs, left);
        forall j | 0 <= j < |recs| && recs[j].assignment !in assignments
          ensures recs[j].assignment !in assignments[1..]
        {
          assert forall x :: x in assignments[1..] ==> x in assignments;
        }
      } else {
        var q := ThroughRecords(a, recs, left);
        ThroughRecordsShape(a, recs, left);
        if left >= 0 && SlipsNonNegative(recs) {
          ThroughRecordsBudget(a, recs, left);
        }
        OrderedLaws(assignments[1..], q.0, q.1);
        var p := Ordered(assignments, recs, left);
        forall j | 0 <= j < |recs|
          ensures SameButSlip(recs[j], p.0[j])
          ensures GetLateDays(recs[j]) == 0 || NoSlipAllowed(recs[j].assignment) || recs[j].assignment !in assignments
                  ==> p.0[j] == recs[j]
        {
          assert forall x :: x in assignments[1..] ==> x in assignments;
        }
      }
    }
  }

  lemma SumSlipZero(recs: seq<Record>)
    requires forall j :: 0 <= j < |recs| ==> recs[j].slipDaysUsed == 0
    ensures SumSlip(recs) == 0 && SlipsNonNegative(recs)
  {
    if recs != [] {
      SumSlipZero(recs[1..]);
    }
  }

  /** With a non-negative budget and no slip days used before, no more than the budget is spent. */
  lemma OrderedWithinBudget(assignments: seq<AssignmentConfig>, recs: seq<Record>, budget: int)
    requires budget >= 0 && forall j :: 0 <= j < |recs| ==> recs[j].slipDaysUsed == 0
    ensures 0 <= SumSlip(Ordered(assignments, recs, budget).0) <= budget
  {
    SumSlipZero(recs);
    OrderedLaws(assignments, recs, budget);
    SumSlipNonNegative(Ordered(assignments, recs, budget).0);
  }

  lemma {:induction false} SumSlipNonNegative(recs: seq<Record>)
    requires SlipsNonNegative(recs)
    ensures SumSlip(recs) >= 0
  {
    if recs != [] {
      assert SlipsNonNegative(recs[1..]) by {
        forall j | 0 <= j < |recs[1..]| ensures recs[1..][j].slipDaysUsed >= 0 {
          assert recs[1..][j] == recs[j + 1];
        }
      }
      SumSlipNonNegative(recs[1..]);
    }
  }

  /** The record counts towards a total: it is shown, or hidden ones are asked for. */
  predicate Counted(r: Record, withHidden: bool) {
    !r.assignment.hidden || withHidden
  }

  /** Every record that counts can be scored. */
  predicate AllScorable(recs: seq<Record>, withHidden: bool) {
    forall j :: 0 <= j < |recs| ==> (Counted(recs[j], withHidden) ==> Scorable(recs[j].assignment))
  }

  /** The sum of course points over the records, skipping hidden ones unless `withHidden`. */
  function TotalScore(recs: seq<Record>, withHidden: bool): real
    requires AllScorable(recs, withHidden)
  {
    if recs == [] then 0.0
    else
      var init := recs[..|recs| - 1];
      var r := recs[|recs| - 1];
      assert forall j :: 0 <= j < |init| ==> init[j] == recs[j];
      TotalScore(init, withHidden) + (if Counted(r, withHidden) then CoursePoints(r) else 0.0)
  }

  /**
   * `get_total_score(with_hidden)` with the exception it raises: that of the
   * first counted record that cannot be scored, else the total.
   */
  function TryTotalScore(recs: seq<Record>, withHidden: bool): Result<real> {
    if recs == [] then Ok(0.0)
    else
      var init := recs[..|recs| - 1];
      var r := recs[|recs| - 1];
      var prev := TryTotalScore(init, withHidden);
      assert forall j :: 0 <= j < |init| ==> init[j] == recs[j];
      if prev.Err? || !Counted(r, withHidden) then prev
      else match TryCoursePoints(r)
        case Err(e) => Err(e)
        case Ok(v) => Ok(prev.value + v)
  }

  /** `get_total_score` returns exactly when every counted record can be scored, and then the total. */
  lemma {:induction false} TryTotalScoreOk(recs: seq<Record>, withHidden: bool)
    ensures TryTotalScore(recs, withHidden).Ok? <==> AllScorable(recs, withHidden)
    ensures TryTotalScore(recs, withHidden).Ok? ==> TryTotalScore(recs, withHidden).value == TotalScore(recs, withHidden)
  {
    if recs != [] {
      var init := recs[..|recs| - 1];
      assert forall j :: 0 <= j < |init| ==> init[j] == recs[j];
      TryTotalScoreOk(init, withHidden);
    }
  }

  /** The exception `get_total_score` raises is that of the first counted record that cannot be scored. */
  lemma {:induction false} TryTotalScoreFirstError(recs: seq<Record>, withHidden: bool)
    requires TryTotalScore(recs, withHidden).Err?
    ensures exists j :: 0 <= j < |recs| && Counted(recs[j], withHidden)
                        && TryTotalScore(recs, withHidden) == TryCoursePoints(recs[j])
                        && AllScorable(recs[..j], withHidden)
  {
    var init := recs[..|recs| - 1];
    assert forall j :: 0 <= j < |init| ==> init[j] == recs[j];
    if TryTotalScore(init, withHidden).Err? {
      TryTotalScoreFirstError(init, withHidden);
      var j :| 0 <= j < |init| && Counted(init[j], withHidden)
                && TryTotalScore(init, withHidden) == TryCoursePoints(init[j])
                && AllScorable(init[..j], withHidden);
      assert init[..j] == recs[..j];
    } else {
      assert recs[..|recs| - 1] == init;
      TryTotalScoreOk(init, withHidden);
    }
  }

  lemma {:induction false} TryTotalScoreErrSticks(recs: seq<Record>, withHidden: bool, n: nat)
    requires n <= |recs| && TryTotalScore(recs[..n], withHidden).Err?
    ensures TryTotalScore(recs, withHidden) == TryTotalScore(recs[..n], withHidden)
    decreases |recs| - n
  {
    if n < |recs| {
      assert recs[..n + 1][..n] == recs[..n];
      TryTotalScoreErrSticks(recs, withHidden, n + 1);
    } else {
      assert recs[..n] == recs;
    }
  }

  /** One more record in the total: skipped, its exception, or its points added. */
  lemma TryTotalScoreStep(recs: seq<Record>, i: nat, withHidden: bool)
    requires i < |recs| && TryTotalScore(recs[..i], withHidden).Ok?
    ensures TryTotalScore(recs[..i + 1], withHidden) ==
      if !Counted(recs[i], withHidden) then TryTotalScore(recs[..i], withHidden)
      else match TryCoursePoints(recs[i])
        case Err(e) => Err(e)
        case Ok(v) => Ok(TryTotalScore(recs[..i], withHidden).value + v)
  {
    assert recs[..i + 1][..i] == recs[..i];
  }

  /** The total score with hidden records is the visible total plus the hidden records' points. */
  lemma {:induction false} TotalScoreHidden(recs: seq<Record>)
    requires AllScorable(recs, true)
    ensures AllScorable(recs, false)
    ensures TotalScore(recs, true) == TotalScore(recs, false) + HiddenScore(recs)
  {
    if recs != [] {
      var init := recs[..|recs| - 1];
      assert forall j :: 0 <= j < |init| ==> init[j] == recs[j];
      TotalScoreHidden(init);
    }
  }

  function HiddenScore(recs: seq<Record>): real
    requires AllScorable(recs, true)
  {
    if recs == [] then 0.0
    else
      var init := recs[..|recs| - 1];
      var r := recs[|recs| - 1];
      assert forall j :: 0 <= j < |init| ==> init[j] == recs[j];
      HiddenScore(init) + (if r.assignment.hidden then CoursePoints(r) else 0.0)
  }

  /** `get_assignment_data(id)`: the first record of the assignment with that id, else `None`. */
  function GetAssignmentData(recs: seq<Record>, id: string): (r: Option<nat>)
    ensures r.Some? ==> r.value < |recs| && recs[r.value].assignment.id == id
    ensures r.Some? ==> forall j :: 0 <= j < r.value ==> recs[j].assignment.id != id
    ensures r.None? <==> forall j :: 0 <= j < |recs| ==> recs[j].assignment.id != id
  {
    if recs == [] then None
    else if recs[0].assignment.id == id then Some(0)
    else match GetAssignmentData(recs[1..], id)
      case None => None
      case Some(j) => Some(j + 1)
  }

  /** The loop of `SlipThroughRecords` over a copy of the records. */
  method SlipEach(a: AssignmentConfig, before: seq<Record>, left: int) returns (recs: seq<Record>, slipDaysLeft: int)
    ensures (recs, slipDaysLeft) == ThroughRecords(a, before, left)
  {
    recs, slipDaysLeft := before, left;
    var j := 0;
    assert before[0..] == before && recs[..0] == [];
    assert [] + ThroughRecords(a, before, left).0 == ThroughRecords(a, before, left).0;
    while j < |recs|
      invariant 0 <= j <= |recs| == |before|
      invariant recs[j..] == before[j..]
      invariant ThroughRecords(a, before, left) == (recs[..j] + ThroughRecords(a, before[j..], slipDaysLeft).0, ThroughRecords(a, before[j..], slipDaysLeft).1)
    {
      SlipEachStep(a, before, recs, j, left, slipDaysLeft);
      ghost var step := SlipStep(a, recs[j], slipDaysLeft);
      ghost var recs' := recs[j := step.0];
      var r := recs[j];
      if r.assignment == a && GetLateDays(r) != 0 {
        var amount := Allotment(a, r, slipDaysLeft);
        recs := recs[j := r.(slipDaysUsed := amount)];
        slipDaysLeft := slipDaysLeft - amount;
      }
      assert recs == recs' && slipDaysLeft == step.1;
      j := j + 1;
    }
    assert before[j..] == [] && recs[..j] == recs;
    assert recs[..j] + [] == recs;
  }

  /** One record more in `SlipEach`'s loop. */
  lemma SlipEachStep(a: AssignmentConfig, before: seq<Record>, recs: seq<Record>, j: nat, left: int, days: int)
    requires j < |before| == |recs| && recs[j..] == before[j..]
    requires ThroughRecords(a, before, left) == (recs[..j] + ThroughRecords(a, before[j..], days).0, ThroughRecords(a, before[j..], days).1)
    ensures var step := SlipStep(a, recs[j], days);
      var recs' := recs[j := step.0];
      && recs'[j + 1..] == before[j + 1..]
      && ThroughRecords(a, before, left) == (recs'[..j + 1] + ThroughRecords(a, before[j + 1..], step.1).0, ThroughRecords(a, before[j + 1..], step.1).1)
  {
    assert recs[j] == recs[j..][0] == before[j];
    var step := SlipStep(a, recs[j], days);
    var rest := ThroughRecords(a, before[j + 1..], step.1);
    var recs' := recs[j := step.0];
    ThroughRecordsAt(a, before, j, days);
    assert recs'[..j + 1] == recs[..j] + [step.0];
    assert recs'[j + 1..] == recs[j + 1..] == recs[j..][1..];
    assert recs[..j] + ([step.0] + rest.0) == recs'[..j + 1] + rest.0;
  }

  /** A student's records in one category (`StudentCategoryData`). */
  class StudentCategoryData {
    const category: Category
    var records: seq<Record>

    constructor (category: Category, records: seq<Record>)
      ensures this.category == category && this.records == records
    {
      this.category := category;
      this.records := records;
    }

    /**
     * `apply_ordered_slip_days`: nothing without a slip-day budget; else,
     * assignment by assignment, skipping those that take no slip days,
     * every late record of the assignment gets `min(late days, days left,
     * allowed)` slip days, which are taken off the days left.
     */
    method ApplyOrderedSlipDays()
      modifies this
      ensures category.maxSlipDays.None? ==> records == old(records)
      ensures category.maxSlipDays.Some? ==>
        records == Ordered(category.assignments, old(records), category.maxSlipDays.value).0
    {
      if category.maxSlipDays.None? {
        return;
      }
      var slipDaysLeft := category.maxSlipDays.value;
      var assignments := category.assignments;
      ghost var goal := Ordered(assignments, records, slipDaysLeft);
      var i := 0;
      while i < |assignments|
        invariant 0 <= i <= |assignments|
        invariant Ordered(assignments[i..], records, slipDaysLeft) == goal
      {
        var a := assignments[i];
        assert assignments[i..][1..] == assignments[i + 1..];
        if !NoSlipAllowed(a) {
          slipDaysLeft := SlipThroughRecords(a, slipDaysLeft);
        }
        i := i + 1;
      }
    }

    /** The inner loop of `apply_ordered_slip_days` for one assignment. */
    method SlipThroughRecords(a: AssignmentConfig, left: int) returns (slipDaysLeft: int)
      modifies this
      ensures (records, slipDaysLeft) == ThroughRecords(a, old(records), left)
    {
      var recs, days := SlipEach(a, records, left);
      records, slipDaysLeft := recs, days;
    }

    /** `apply_optimal_slip_days`: a stub that changes nothing. */
    method ApplyOptimalSlipDays()
      modifies this
      ensures records == old(records)
    {
    }

    /** `get_assignment_data(id)`: the position of the first record of `id`. */
    method FindAssignmentData(id: string) returns (r: Option<nat>)
      ensures r == GetAssignmentData(records, id)
    {
      var i := 0;
      while i < |records|
        invariant 0 <= i <= |records|
        invariant forall j :: 0 <= j < i ==> records[j].assignment.id != id
      {
        if records[i].assignment.id == id {
          return Some(i);
        }
        i := i + 1;
      }
      return None;
    }

    /** `apply_slip_days`, an alias of the ordered strategy. */
    method ApplySlipDays()
      modifies this
      ensures category.maxSlipDays.None? ==> records == old(records)
      ensures category.maxSlipDays.Some? ==>
        records == Ordered(category.assignments, old(records), category.maxSlipDays.value).0
    {
      ApplyOrderedSlipDays();
    }

    /**
     * `get_total_score(with_hidden)`: the sum of course points over the
     * counted records, or the exception of the first one that cannot be
     * scored.
     */
    method GetTotalScore(withHidden: bool) returns (r: Result<real>)
      ensures r == TryTotalScore(records, withHidden)
    {
      var total := 0.0;
      var i := 0;
      while i < |records|
        invariant 0 <= i <= |records|
        invariant TryTotalScore(records[..i], withHidden) == Ok(total)
      {
        var rec := records[i];
        TryTotalScoreStep(records, i, withHidden);
        if !rec.assignment.hidden || withHidden {
          var points := TryCoursePoints(rec);
          if points.Err? {
            TryTotalScoreErrSticks(records, withHidden, i + 1);
            return Err(points.error);
          }
          total := total + points.value;
        }
        i := i + 1;
      }
      assert records[..i] == records;
      r := Ok(total);
    }
  }
}
