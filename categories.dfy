/**
 * The category of TotalCoursePoints/category.py: possible points with
 * dropped assignments, scores, slip time (ordered and optimal), validation
 * and dropping the lowest assignments.
 */
module Categories {
  import opened Wrappers
  import opened Times
  import opened Lowest
  import opened Combos

  /**
   * What a category reads of one of its assignments. `inputted` and
   * `inputtedWithHidden` are `is_inputted()` and `is_inputted(with_hidden=True)`;
   * `totalPossible` is `get_total_possible()`.
   */
  datatype AssignmentInfo = AssignmentInfo(
    id: string,
    allowedSlipCount: Option<int>,
    hidden: bool,
    extraCredit: bool,
    inputted: bool,
    inputtedWithHidden: bool,
    totalPossible: real)

  function IsInputted(a: AssignmentInfo, withHidden: bool): bool {
    if withHidden then a.inputtedWithHidden else a.inputted
  }

  /** The configuration of a category that the modelled operations read. */
  datatype Category = Category(
    name: string,
    assignments: seq<AssignmentInfo>,
    coursePoints: Option<real>,
    maxSlipCount: Option<int>,
    hidden: bool,
    extraCredit: bool,
    dropLowestN: int,
    doesNotContribute: bool)

  /**
   * A student's record for one assignment. `lateTime` is `get_late_time()`,
   * `numLate` is `get_num_late()`, `worthPoints` is `is_worth_points()`,
   * `dropped` is set by `drop_assignment()`, and `pointsAt(s)` is the course
   * points the record earns with `s` slip units applied.
   */
  datatype AssignmentData = AssignmentData(
    assignment: AssignmentInfo,
    score: real,
    lateTime: Time,
    numLate: nat,
    slipTimeUsed: int,
    extensionTime: Option<int>,
    worthPoints: bool,
    dropped: bool,
    pointsAt: int -> real)

  /** `get_course_points()`: nothing once dropped. */
  function CoursePointsOf(r: AssignmentData): real {
    if r.dropped then 0.0 else r.pointsAt(r.slipTimeUsed)
  }

  /* ---------------------------------------------------------------- */
  /* Possible points                                                  */
  /* ---------------------------------------------------------------- */

  /** The points of the inputted, non extra-credit assignments. */
  function InputtedPoints(assigns: seq<AssignmentInfo>, withHidden: bool): (r: seq<real>)
    ensures |r| <= |assigns|
  {
    if assigns == [] then []
    else
      var a := assigns[|assigns| - 1];
      InputtedPoints(assigns[..|assigns| - 1], withHidden)
        + (if IsInputted(a, withHidden) && !a.extraCredit then [a.totalPossible] else [])
  }

  /** The points of the assignments that are shown and, if asked, inputted. */
  function ListedPoints(assigns: seq<AssignmentInfo>, withHidden: bool, onlyInputted: bool): (r: seq<real>)
    ensures |r| <= |assigns|
  {
    if assigns == [] then []
    else
      var a := assigns[|assigns| - 1];
      ListedPoints(assigns[..|assigns| - 1], withHidden, onlyInputted)
        + (if (a.hidden && !withHidden) || (!a.inputted && onlyInputted) then [] else [a.totalPossible])
  }

  /** `[i for i in points if i != 0]`. */
  function NonZero(s: seq<real>): (r: seq<real>)
    ensures |r| <= |s|
    ensures forall i :: 0 <= i < |r| ==> r[i] != 0.0
  {
    if s == [] then []
    else NonZero(s[..|s| - 1]) + (if s[|s| - 1] != 0.0 then [s[|s| - 1]] else [])
  }

  /** How many more assignments are listed than are kept after dropping. */
  function Excess(listed: nat, c: Category): int {
    listed - (|c.assignments| - c.dropLowestN)
  }

  /** `Category.get_total_possible(with_hidden, only_inputted)`. */
  function Possible(c: Category, withHidden: bool, onlyInputted: bool): Result<real> {
    if c.extraCredit then Ok(0.0)
    else if c.coursePoints.Some? && !onlyInputted then Ok(c.coursePoints.value)
    else if c.coursePoints.Some? then
      var pts := InputtedPoints(c.assignments, withHidden);
      var nz := NonZero(pts);
      var excess := Excess(|pts|, c);
      Ok(DropSum(pts, if excess <= 0 then 0 else if excess <= |nz| then excess else |nz|))
    else
      var pts := ListedPoints(c.assignments, withHidden, onlyInputted);
      var nz := NonZero(pts);
      var excess := Excess(|pts|, c);
      if excess > |nz| then Err(ValueError("min() arg is an empty sequence"))
      else Ok(DropSum(pts, if excess <= 0 then 0 else excess))
  }

  /** The sum of the non-zero points once the `n` smallest are removed. */
  function DropSum(pts: seq<real>, n: nat): real {
    Sum(LowestK(NonZero(pts), Id, n).1)
  }

  /**
   * Dropping `n` of the non-zero points takes exactly `n` of them off the
   * sum, and none of them is larger than a point that stays.
   */
  lemma DropSumLaws(pts: seq<real>, n: nat)
    requires n <= |NonZero(pts)|
    ensures var removed := LowestK(NonZero(pts), Id, n).0;
      && DropSum(pts, n) == Sum(pts) - Sum(removed)
      && |removed| == n
      && AllBelow(removed, LowestK(NonZero(pts), Id, n).1, Id)
  {
    NonZeroSum(pts);
    LowestKSum(NonZero(pts), n);
    LowestKBelow(NonZero(pts), Id, n);
  }

  /** Leaving out zeros does not change a sum. */
  lemma {:induction false} NonZeroSum(s: seq<real>)
    ensures Sum(NonZero(s)) == Sum(s)
  {
    if s != [] {
      var init := s[..|s| - 1];
      var last := s[|s| - 1];
      NonZeroSum(init);
      SumAppend(NonZero(init), if last != 0.0 then [last] else []);
      SumOne(last);
    }
  }

  /**
   * Without course points, possible points fail exactly when more
   * assignments are to be dropped than have non-zero points; otherwise
   * they are the sum of the listed points less the smallest ones dropped,
   * and each dropped value is at most every kept one.
   */
  lemma PossibleDropsLowest(c: Category, withHidden: bool, onlyInputted: bool)
    requires !c.extraCredit && c.coursePoints.None?
    ensures var pts := ListedPoints(c.assignments, withHidden, onlyInputted);
      var nz := NonZero(pts);
      var excess := Excess(|pts|, c);
      var n: nat := if excess <= 0 then 0 else excess;
      && (Possible(c, withHidden, onlyInputted).Err? <==> excess > |nz|)
      && (excess <= |nz| ==>
            && Possible(c, withHidden, onlyInputted) == Ok(Sum(pts) - Sum(LowestK(nz, Id, n).0))
            && |LowestK(nz, Id, n).0| == n
            && AllBelow(LowestK(nz, Id, n).0, LowestK(nz, Id, n).1, Id))
  {
    var pts := ListedPoints(c.assignments, withHidden, onlyInputted);
    var excess := Excess(|pts|, c);
    var n: nat := if excess <= 0 then 0 else excess;
    if excess <= |NonZero(pts)| {
      PossibleDropped(c, withHidden, onlyInputted);
    } else {
      assert Possible(c, withHidden, onlyInputted).Err? by {
        PossibleListed(c, withHidden, onlyInputted);
      }
    }
  }

  /** Without course points and with enough non-zero points: the sum less the smallest ones dropped. */
  lemma PossibleDropped(c: Category, withHidden: bool, onlyInputted: bool)
    requires !c.extraCredit && c.coursePoints.None?
    requires Excess(|ListedPoints(c.assignments, withHidden, onlyInputted)|, c)
             <= |NonZero(ListedPoints(c.assignments, withHidden, onlyInputted))|
    ensures var pts := ListedPoints(c.assignments, withHidden, onlyInputted);
      var nz := NonZero(pts);
      var excess := Excess(|pts|, c);
      var n: nat := if excess <= 0 then 0 else excess;
      && Possible(c, withHidden, onlyInputted) == Ok(Sum(pts) - Sum(LowestK(nz, Id, n).0))
      && |LowestK(nz, Id, n).0| == n
      && AllBelow(LowestK(nz, Id, n).0, LowestK(nz, Id, n).1, Id)
  {
    var pts := ListedPoints(c.assignments, withHidden, onlyInputted);
    var excess := Excess(|pts|, c);
    var n: nat := if excess <= 0 then 0 else excess;
    assert Possible(c, withHidden, onlyInputted) == Ok(DropSum(pts, n)) by {
      PossibleListed(c, withHidden, onlyInputted);
    }
    DropSumLaws(pts, n);
  }

  /** Without course points: the error when too many are to be dropped, else the sum after dropping. */
  lemma PossibleListed(c: Category, withHidden: bool, onlyInputted: bool)
    requires !c.extraCredit && c.coursePoints.None?
    ensures var pts := ListedPoints(c.assignments, withHidden, onlyInputted);
      var excess := Excess(|pts|, c);
      Possible(c, withHidden, onlyInputted)
        == if excess > |NonZero(pts)| then Err(ValueError("min() arg is an empty sequence"))
           else Ok(DropSum(pts, if excess <= 0 then 0 else excess))
  {
  }

  /** With no assignment to drop the possible points are the plain sum. */
  lemma PossibleNoDrop(c: Category, withHidden: bool, onlyInputted: bool)
    requires !c.extraCredit && c.coursePoints.None?
    requires Excess(|ListedPoints(c.assignments, withHidden, onlyInputted)|, c) <= 0
    ensures Possible(c, withHidden, onlyInputted) == Ok(Sum(ListedPoints(c.assignments, withHidden, onlyInputted)))
  {
    var pts := ListedPoints(c.assignments, withHidden, onlyInputted);
    NonZeroSum(pts);
    LowestZero(NonZero(pts), Id);
  }

  /**
   * With course points, only the inputted points are ever counted and the
   * call never fails: at most the non-zero points are dropped, smallest first.
   */
  lemma PossibleCoursePointsInputted(c: Category, withHidden: bool)
    requires !c.extraCredit && c.coursePoints.Some?
    ensures var pts := InputtedPoints(c.assignments, withHidden);
      var nz := NonZero(pts);
      var excess := Excess(|pts|, c);
      var n: nat := if excess <= 0 then 0 else if excess <= |nz| then excess else |nz|;
      && Possible(c, withHidden, true) == Ok(Sum(pts) - Sum(LowestK(nz, Id, n).0))
      && |LowestK(nz, Id, n).0| == n
      && AllBelow(LowestK(nz, Id, n).0, LowestK(nz, Id, n).1, Id)
  {
    var pts := InputtedPoints(c.assignments, withHidden);
    var excess := Excess(|pts|, c);
    DropSumLaws(pts, if excess <= 0 then 0 else if excess <= |NonZero(pts)| then excess else |NonZero(pts)|);
  }

  /** `[a.get_total_possible() for a in ...]` built up in a loop. */
  method CollectPoints(c: Category, withHidden: bool, onlyInputted: bool) returns (pts: seq<real>)
    ensures c.coursePoints.Some? ==> pts == InputtedPoints(c.assignments, withHidden)
    ensures c.coursePoints.None? ==> pts == ListedPoints(c.assignments, withHidden, onlyInputted)
  {
    pts := [];
    var i := 0;
    while i < |c.assignments|
      invariant 0 <= i <= |c.assignments|
      invariant c.coursePoints.Some? ==> pts == InputtedPoints(c.assignments[..i], withHidden)
      invariant c.coursePoints.None? ==> pts == ListedPoints(c.assignments[..i], withHidden, onlyInputted)
    {
      var a := c.assignments[i];
      assert c.assignments[..i + 1][..i] == c.assignments[..i];
      if c.coursePoints.Some? {
        if IsInputted(a, withHidden) && !a.extraCredit {
          pts := pts + [a.totalPossible];
        }
      } else if !((a.hidden && !withHidden) || (!a.inputted && onlyInputted)) {
        pts := pts + [a.totalPossible];
      }
      i := i + 1;
    }
    assert c.assignments[..i] == c.assignments;
  }

  method FilterNonZero(s: seq<real>) returns (r: seq<real>)
    ensures r == NonZero(s)
  {
    r := [];
    var i := 0;
    while i < |s|
      invariant 0 <= i <= |s|
      invariant r == NonZero(s[..i])
    {
      assert s[..i + 1][..i] == s[..i];
      if s[i] != 0.0 {
        r := r + [s[i]];
      }
      i := i + 1;
    }
    assert s[..i] == s;
  }

  /**
   * `points.remove(min(points))`, `n` times: `None` when the list runs out
   * first (`min` of an empty list raises).
   */
  method RemoveLowest(points: seq<real>, n: nat) returns (r: Option<seq<real>>)
    ensures n <= |points| ==> r == Some(LowestK(points, Id, n).1)
    ensures n > |points| ==> r == None
  {
    var rest := points;
    var k := 0;
    while k < n
      invariant 0 <= k <= n && k <= |points|
      invariant |rest| == |points| - k
      invariant LowestK(points, Id, n).1 == LowestK(rest, Id, n - k).1
    {
      if rest == [] {
        return None;
      }
      rest := RemoveAt(rest, FirstMinIndex(rest, Id));
      k := k + 1;
    }
    LowestZero(rest, Id);
    return Some(rest);
  }

  method SumOf(s: seq<real>) returns (total: real)
    ensures total == Sum(s)
  {
    total := 0.0;
    var i := 0;
    while i < |s|
      invariant 0 <= i <= |s|
      invariant total == Sum(s[..i])
    {
      SumAppend(s[..i], [s[i]]);
      assert s[..i + 1] == s[..i] + [s[i]];
      total := total + s[i];
      i := i + 1;
    }
    assert s[..i] == s;
  }

  /** `Category.get_total_possible`, as the loops compute it. */
  method GetTotalPossible(c: Category, withHidden: bool, onlyInputted: bool) returns (r: Result<real>)
    ensures r == Possible(c, withHidden, onlyInputted)
  {
    if c.extraCredit {
      return Ok(0.0);
    }
    if c.coursePoints.Some? && !onlyInputted {
      return Ok(c.coursePoints.value);
    }
    var pts := CollectPoints(c, withHidden, onlyInputted);
    var nz := FilterNonZero(pts);
    var excess := Excess(|pts|, c);
    var n: nat := if excess <= 0 then 0 else excess;
    if c.coursePoints.Some? && n > |nz| {
      n := |nz|;
    }
    var kept := RemoveLowest(nz, n);
    if kept.None? {
      return Err(ValueError("min() arg is an empty sequence"));
    }
    var total := SumOf(kept.value);
    return Ok(total);
  }

  /* ---------------------------------------------------------------- */
  /* All inputted                                                     */
  /* ---------------------------------------------------------------- */

  /** `Category.all_inputted`: a hidden category counts as inputted. */
  ghost predicate AllInputted(c: Category, withHidden: bool) {
    (c.hidden && !withHidden)
    || forall i :: 0 <= i < |c.assignments| ==> IsInputted(c.assignments[i], withHidden)
  }

  method GetAllInputted(c: Category, withHidden: bool) returns (b: bool)
    ensures b <==> AllInputted(c, withHidden)
  {
    if c.hidden && !withHidden {
      return true;
    }
    var i := 0;
    while i < |c.assignments|
      invariant 0 <= i <= |c.assignments|
      invariant forall k :: 0 <= k < i ==> IsInputted(c.assignments[k], withHidden)
    {
      if !IsInputted(c.assignments[i], withHidden) {
        return false;
      }
      i := i + 1;
    }
    return true;
  }

  /* ---------------------------------------------------------------- */
  /* Scores                                                           */
  /* ---------------------------------------------------------------- */

  /** The course points of the records, skipping hidden ones unless asked. */
  function ScoreSum(recs: seq<AssignmentData>, withHidden: bool): real {
    if recs == [] then 0.0
    else
      var r := recs[|recs| - 1];
      ScoreSum(recs[..|recs| - 1], withHidden)
        + (if r.assignment.hidden && !withHidden then 0.0 else CoursePointsOf(r))
  }

  /** `StudentCategoryData.get_total_score`. */
  function TotalScore(c: Category, overrideScore: Option<real>, recs: seq<AssignmentData>,
                      withHidden: bool, ignoreNotForPoints: bool): real {
    if c.doesNotContribute && !ignoreNotForPoints then 0.0
    else if overrideScore.Some? then overrideScore.value
    else ScoreSum(recs, withHidden)
  }

  /** Records that differ only in their slip time. */
  ghost predicate SameButSlip(a: seq<AssignmentData>, b: seq<AssignmentData>) {
    |a| == |b| && forall i :: 0 <= i < |a| ==> b[i] == a[i].(slipTimeUsed := b[i].slipTimeUsed)
  }

  /**
   * The score only depends on the slip time of shown records: changing the
   * slip time of a hidden record leaves a score without hidden ones as is.
   */
  lemma {:induction false} ScoreSumIgnoresHiddenSlip(a: seq<AssignmentData>, b: seq<AssignmentData>)
    requires SameButSlip(a, b)
    requires forall i :: 0 <= i < |a| && !a[i].assignment.hidden ==> a[i].slipTimeUsed == b[i].slipTimeUsed
    ensures ScoreSum(a, false) == ScoreSum(b, false)
  {
    if a != [] {
      ScoreSumIgnoresHiddenSlip(a[..|a| - 1], b[..|b| - 1]);
    }
  }

  /** Hidden records only ever add to the score when they are counted. */
  lemma {:induction false} ScoreSumWithHidden(recs: seq<AssignmentData>)
    requires forall i :: 0 <= i < |recs| ==> CoursePointsOf(recs[i]) >= 0.0
    ensures ScoreSum(recs, false) <= ScoreSum(recs, true)
  {
    if recs != [] {
      ScoreSumWithHidden(recs[..|recs| - 1]);
    }
  }

  /** `get_assignment_data(assign_id)`: the first record of that assignment. */
  function GetAssignmentData(recs: seq<AssignmentData>, id: string): (r: Option<nat>)
    ensures r.Some? ==> (r.value < |recs| && recs[r.value].assignment.id == id
      && forall k :: 0 <= k < r.value ==> recs[k].assignment.id != id)
    ensures r.None? ==> forall k :: 0 <= k < |recs| ==> recs[k].assignment.id != id
  {
    if recs == [] then None
    else if recs[0].assignment.id == id then Some(0)
    else match GetAssignmentData(recs[1..], id)
      case None => None
      case Some(k) => Some(k + 1)
  }

  /* ---------------------------------------------------------------- */
  /* Slip time                                                        */
  /* ---------------------------------------------------------------- */

  /** `isinstance(allowed_slip_count, int) and allowed_slip_count < 0`. */
  predicate NoSlipAllowed(a: AssignmentInfo) {
    a.allowedSlipCount.Some? && a.allowedSlipCount.value < 0
  }

  /** Late, and either scored or scores are ignored. */
  predicate Eligible(r: AssignmentData, ignoreScore: bool) {
    GetSeconds(r.lateTime) > 0 && (r.score > 0.0 || ignoreScore)
  }

  /** The first record of an assignment (`assignment_data.assignment == assignment`). */
  function FirstRecordOf(recs: seq<AssignmentData>, a: AssignmentInfo): (r: Option<nat>)
    ensures r.Some? ==> (r.value < |recs| && recs[r.value].assignment == a
      && forall k :: 0 <= k < r.value ==> recs[k].assignment != a)
    ensures r.None? ==> forall k :: 0 <= k < |recs| ==> recs[k].assignment != a
  {
    if recs == [] then None
    else if recs[0].assignment == a then Some(0)
    else match FirstRecordOf(recs[1..], a)
      case None => None
      case Some(k) => Some(k + 1)
  }

  function MinInt(a: int, b: int): int {
    if a <= b then a else b
  }

  /** The slip time the ordered strategy gives a late record. */
  function SlipAmount(a: AssignmentInfo, r: AssignmentData, left: int): int {
    if a.allowedSlipCount.Some? then MinInt(MinInt(r.numLate, left), a.allowedSlipCount.value)
    else MinInt(r.numLate, left)
  }

  /** The first record of `a` exists, is eligible, and `a` allows slip time. */
  predicate Takes(a: AssignmentInfo, recs: seq<AssignmentData>, ignoreScore: bool) {
    !NoSlipAllowed(a) && FirstRecordOf(recs, a).Some?
    && Eligible(recs[FirstRecordOf(recs, a).value], ignoreScore)
  }

  /**
   * The ordered strategy: in assignment order, the first record of each
   * assignment that allows slip time and is eligible takes as much as it
   * needs and is left; the records and the slip time still left.
   */
  function OrderedSlip(assigns: seq<AssignmentInfo>, recs: seq<AssignmentData>, left: int,
                       ignoreScore: bool): (p: (seq<AssignmentData>, int))
    ensures |p.0| == |recs|
  {
    if assigns == [] then (recs, left)
    else if !Takes(assigns[0], recs, ignoreScore) then OrderedSlip(assigns[1..], recs, left, ignoreScore)
    else
      var j := FirstRecordOf(recs, assigns[0]).value;
      var amount := SlipAmount(assigns[0], recs[j], left);
      OrderedSlip(assigns[1..], recs[j := recs[j].(slipTimeUsed := amount)], left - amount, ignoreScore)
  }

  /** The running total of slip time over the records, front to back. */
  function SumSlip(recs: seq<AssignmentData>): int {
    if recs == [] then 0 else SumSlip(recs[..|recs| - 1]) + recs[|recs| - 1].slipTimeUsed
  }

  /** Some running total of slip time goes over `mx`. */
  ghost predicate Overruns(recs: seq<AssignmentData>, mx: int) {
    exists k :: 0 < k <= |recs| && SumSlip(recs[..k]) > mx
  }

  ghost predicate SlipsNonNegative(recs: seq<AssignmentData>) {
    forall i :: 0 <= i < |recs| ==> recs[i].slipTimeUsed >= 0
  }

  /** With no negative slip time, no running total is above the whole. */
  lemma {:induction false} PrefixSlipBelow(recs: seq<AssignmentData>, k: nat)
    requires SlipsNonNegative(recs) && k <= |recs|
    ensures SumSlip(recs[..k]) <= SumSlip(recs)
  {
    if k < |recs| {
      var init := recs[..|recs| - 1];
      assert recs[..k] == init[..k];
      PrefixSlipBelow(init, k);
    } else {
      assert recs[..k] == recs;
    }
  }

  /**
   * The ordered strategy changes only slip time, never gives a negative
   * amount from a non-negative budget, and never spends more than it has:
   * the slip time in the records plus what is left never grows.
   */
  lemma {:induction false} OrderedSlipLaws(assigns: seq<AssignmentInfo>, recs: seq<AssignmentData>,
                                           left: int, ignoreScore: bool)
    requires left >= 0 && SlipsNonNegative(recs)
    ensures var p := OrderedSlip(assigns, recs, left, ignoreScore);
      && SameButSlip(recs, p.0)
      && SlipsNonNegative(p.0)
      && p.1 >= 0
      && SumSlip(p.0) + p.1 <= SumSlip(recs) + left
    decreases |assigns|, 1
  {
    if assigns != [] {
      if !Takes(assigns[0], recs, ignoreScore) {
        OrderedSlipLaws(assigns[1..], recs, left, ignoreScore);
      } else {
        OrderedSlipTake(assigns, recs, left, ignoreScore);
      }
    }
  }

  lemma {:induction false} OrderedSlipTake(assigns: seq<AssignmentInfo>, recs: seq<AssignmentData>,
                                           left: int, ignoreScore: bool)
    requires assigns != [] && Takes(assigns[0], recs, ignoreScore)
    requires left >= 0 && SlipsNonNegative(recs)
    ensures var p := OrderedSlip(assigns, recs, left, ignoreScore);
      && SameButSlip(recs, p.0)
      && SlipsNonNegative(p.0)
      && p.1 >= 0
      && SumSlip(p.0) + p.1 <= SumSlip(recs) + left
    decreases |assigns|, 0
  {
    var a := assigns[0];
    var j := FirstRecordOf(recs, a).value;
    var amount := SlipAmount(a, recs[j], left);
    var recs' := recs[j := recs[j].(slipTimeUsed := amount)];
    assert 0 <= amount <= left;
    SetSlipLaws(recs, j, amount);
    OrderedSlipLaws(assigns[1..], recs', left - amount, ignoreScore);
    SameButSlipTrans(recs, recs', OrderedSlip(assigns[1..], recs', left - amount, ignoreScore).0);
  }

  /** Setting one record's slip time to a non-negative amount. */
  lemma SetSlipLaws(recs: seq<AssignmentData>, j: nat, amount: int)
    requires j < |recs| && amount >= 0 && SlipsNonNegative(recs)
    ensures var recs' := recs[j := recs[j].(slipTimeUsed := amount)];
      && SameButSlip(recs, recs')
      && SlipsNonNegative(recs')
      && SumSlip(recs') <= SumSlip(recs) + amount
  {
    SumSlipUpdate(recs, j, amount);
  }

  /** Changing one record's slip time changes the total by the difference. */
  lemma {:induction false} SumSlipUpdate(recs: seq<AssignmentData>, j: nat, amount: int)
    requires j < |recs|
    ensures SumSlip(recs[j := recs[j].(slipTimeUsed := amount)])
      == SumSlip(recs) - recs[j].slipTimeUsed + amount
  {
    var recs' := recs[j := recs[j].(slipTimeUsed := amount)];
    if j < |recs| - 1 {
      assert recs'[..|recs'| - 1] == recs[..|recs| - 1][j := recs[j].(slipTimeUsed := amount)];
      SumSlipUpdate(recs[..|recs| - 1], j, amount);
    } else {
      assert recs'[..|recs'| - 1] == recs[..|recs| - 1];
    }
  }

  lemma SameButSlipTrans(a: seq<AssignmentData>, b: seq<AssignmentData>, c: seq<AssignmentData>)
    requires SameButSlip(a, b) && SameButSlip(b, c)
    ensures SameButSlip(a, c)
  {
    forall i | 0 <= i < |a| ensures c[i] == a[i].(slipTimeUsed := c[i].slipTimeUsed) {
      assert b[i] == a[i].(slipTimeUsed := b[i].slipTimeUsed);
    }
  }

  /**
   * On records without slip time, the ordered strategy with a non-negative
   * budget always passes `validate_slip_days`.
   */
  lemma OrderedSlipValidates(assigns: seq<AssignmentInfo>, recs: seq<AssignmentData>, mx: int,
                             ignoreScore: bool)
    requires mx >= 0
    requires forall i :: 0 <= i < |recs| ==> recs[i].slipTimeUsed == 0
    ensures !Overruns(OrderedSlip(assigns, recs, mx, ignoreScore).0, mx)
  {
    var out := OrderedSlip(assigns, recs, mx, ignoreScore).0;
    SumSlipZero(recs);
    OrderedSlipLaws(assigns, recs, mx, ignoreScore);
    forall k | 0 < k <= |out| ensures SumSlip(out[..k]) <= mx {
      PrefixSlipBelow(out, k);
    }
  }

  lemma {:induction false} SumSlipZero(recs: seq<AssignmentData>)
    requires forall i :: 0 <= i < |recs| ==> recs[i].slipTimeUsed == 0
    ensures SumSlip(recs) == 0 && SlipsNonNegative(recs)
  {
    if recs != [] {
      SumSlipZero(recs[..|recs| - 1]);
    }
  }

  /** The records after `apply_slip_time()`. */
  function SlippedRecords(c: Category, recs: seq<AssignmentData>): seq<AssignmentData> {
    if c.maxSlipCount.None? then recs
    else OrderedSlip(c.assignments, recs, c.maxSlipCount.value, false).0
  }

  /** What `validate_slip_days` reports about the records. */
  ghost function ValidationOf(recs: seq<AssignmentData>, maxSlipCount: Option<int>): Outcome {
    if maxSlipCount.Some? && Overruns(recs, maxSlipCount.value)
    then Fail(ValueError("Somehow applied more slipdays than the max!"))
    else Pass
  }

  /* ---------------------------------------------------------------- */
  /* Optimal slip time                                                */
  /* ---------------------------------------------------------------- */

  /**
   * The records the optimal strategy may give slip time to, as positions in
   * `recs`, in assignment order: the first record of each assignment that
   * allows slip time, when that record is eligible.
   */
  function LateList(assigns: seq<AssignmentInfo>, recs: seq<AssignmentData>, ignoreScore: bool): (late: seq<nat>)
    ensures forall k :: 0 <= k < |late| ==> (late[k] < |recs|
      && !NoSlipAllowed(recs[late[k]].assignment)
      && Eligible(recs[late[k]], ignoreScore)
      && recs[late[k]].assignment in assigns)
  {
    if assigns == [] then []
    else
      var a := assigns[|assigns| - 1];
      LateList(assigns[..|assigns| - 1], recs, ignoreScore)
        + (if Takes(a, recs, ignoreScore) then [FirstRecordOf(recs, a).value] else [])
  }

  /** Positions into `recs` of records that allow slip time. */
  predicate LateOk(late: seq<nat>, recs: seq<AssignmentData>) {
    forall k :: 0 <= k < |late| ==> late[k] < |recs| && !NoSlipAllowed(recs[late[k]].assignment)
  }

  predicate Distinct(late: seq<nat>) {
    forall k, l :: 0 <= k < l < |late| ==> late[k] != late[l]
  }

  /** Distinct assignments give distinct late records. */
  lemma {:induction false} LateListDistinct(assigns: seq<AssignmentInfo>, recs: seq<AssignmentData>, ignoreScore: bool)
    requires forall k, l :: 0 <= k < l < |assigns| ==> assigns[k] != assigns[l]
    ensures Distinct(LateList(assigns, recs, ignoreScore))
  {
    if assigns != [] {
      var init := assigns[..|assigns| - 1];
      var a := assigns[|assigns| - 1];
      LateListDistinct(init, recs, ignoreScore);
      assert a !in init;
    }
  }

  /**
   * How much slip time a late record can use: its number of late units,
   * capped by what its assignment allows.
   */
  function Need(r: AssignmentData): (n: nat)
    requires !NoSlipAllowed(r.assignment)
    ensures n <= r.numLate
    ensures r.assignment.allowedSlipCount.Some? ==> n <= r.assignment.allowedSlipCount.value
    ensures n == r.numLate || (r.assignment.allowedSlipCount.Some? && n == r.assignment.allowedSlipCount.value)
  {
    if r.assignment.allowedSlipCount.Some? then MinInt(r.assignment.allowedSlipCount.value, r.numLate)
    else r.numLate
  }

  /** The cap of each late record, in order. */
  function Caps(recs: seq<AssignmentData>, late: seq<nat>): (caps: seq<nat>)
    requires LateOk(late, recs)
    ensures |caps| == |late|
    ensures forall k :: 0 <= k < |late| ==> caps[k] == Need(recs[late[k]])
  {
    seq(|late|, k requires 0 <= k < |late| && LateOk(late, recs) => Need(recs[late[k]]))
  }

  /**
   * The combinations the optimal strategy weighs: within the caps, and
   * spending between `min(sum of caps, budget)` and the budget.
   */
  function Admissible(caps: seq<nat>, budget: int): seq<seq<nat>> {
    WithTotalIn(MeshGrid(caps), MinInt(SumNat(caps), budget), budget)
  }

  /** `assign_slip_days`: zip the late records with the amounts. */
  function AssignCombo(recs: seq<AssignmentData>, late: seq<nat>, combo: seq<nat>): (r: seq<AssignmentData>)
    requires forall k :: 0 <= k < |late| ==> late[k] < |recs|
    ensures |r| == |recs|
    decreases |late|
  {
    if late == [] || combo == [] then recs
    else AssignCombo(recs[late[0] := recs[late[0]].(slipTimeUsed := combo[0])], late[1..], combo[1..])
  }

  /** `b` is `a` except for the slip time of records at positions in `late`. */
  ghost predicate SlipOnlyAt(a: seq<AssignmentData>, b: seq<AssignmentData>, late: seq<nat>) {
    |a| == |b| && forall p :: 0 <= p < |a| ==>
      b[p] == a[p] || (p in late && b[p] == a[p].(slipTimeUsed := b[p].slipTimeUsed))
  }

  /** Assigning a combination only changes the slip time of late records. */
  lemma {:induction false} AssignComboChanges(recs: seq<AssignmentData>, late: seq<nat>, combo: seq<nat>)
    requires forall k :: 0 <= k < |late| ==> late[k] < |recs|
    ensures SlipOnlyAt(recs, AssignCombo(recs, late, combo), late)
    decreases |late|
  {
    if late != [] && combo != [] {
      var recs1 := recs[late[0] := recs[late[0]].(slipTimeUsed := combo[0])];
      AssignComboChanges(recs1, late[1..], combo[1..]);
      var out := AssignCombo(recs, late, combo);
      forall p | 0 <= p < |recs|
        ensures out[p] == recs[p] || (p in late && out[p] == recs[p].(slipTimeUsed := out[p].slipTimeUsed))
      {
        if p in late[1..] {
          assert p in late;
        }
      }
    }
  }

  /**
   * A combination as long as the late list sets every late record, so what
   * those records held before does not matter.
   */
  lemma {:induction false} AssignComboOverwrites(a: seq<AssignmentData>, b: seq<AssignmentData>,
                                                 late: seq<nat>, combo: seq<nat>)
    requires forall k :: 0 <= k < |late| ==> late[k] < |a|
    requires SlipOnlyAt(a, b, late) && |combo| >= |late|
    ensures AssignCombo(a, late, combo) == AssignCombo(b, late, combo)
    decreases |late|
  {
    if late != [] {
      var a1 := a[late[0] := a[late[0]].(slipTimeUsed := combo[0])];
      var b1 := b[late[0] := b[late[0]].(slipTimeUsed := combo[0])];
      forall p | 0 <= p < |a1|
        ensures b1[p] == a1[p] || (p in late[1..] && b1[p] == a1[p].(slipTimeUsed := b1[p].slipTimeUsed))
      {
        if p != late[0] && b[p] != a[p] {
          assert p in late;
          var k :| 0 <= k < |late| && late[k] == p;
          assert late[1..][k - 1] == p;
        }
      }
      AssignComboOverwrites(a1, b1, late[1..], combo[1..]);
    }
  }

  /** Assigning one full combination after another is assigning the second. */
  lemma AssignComboTwice(recs: seq<AssignmentData>, late: seq<nat>, c1: seq<nat>, c2: seq<nat>)
    requires forall k :: 0 <= k < |late| ==> late[k] < |recs|
    requires |c2| >= |late|
    ensures AssignCombo(AssignCombo(recs, late, c1), late, c2) == AssignCombo(recs, late, c2)
  {
    AssignComboChanges(recs, late, c1);
    AssignComboOverwrites(recs, AssignCombo(recs, late, c1), late, c2);
  }

  /** With distinct late records, the `k`-th one gets the `k`-th amount. */
  lemma {:induction false} AssignComboAt(recs: seq<AssignmentData>, late: seq<nat>, combo: seq<nat>, k: nat)
    requires forall i :: 0 <= i < |late| ==> late[i] < |recs|
    requires Distinct(late) && |combo| >= |late| && k < |late|
    ensures AssignCombo(recs, late, combo)[late[k]] == recs[late[k]].(slipTimeUsed := combo[k])
    decreases |late|
  {
    var recs1 := recs[late[0] := recs[late[0]].(slipTimeUsed := combo[0])];
    if k == 0 {
      AssignComboChanges(recs1, late[1..], combo[1..]);
      assert late[0] !in late[1..];
    } else {
      assert late[1..][k - 1] == late[k];
      AssignComboAt(recs1, late[1..], combo[1..], k - 1);
    }
  }

  /** The score of each admissible combination, as `get_total_score(with_hidden=True)`. */
  function ComboScores(c: Category, overrideScore: Option<real>, recs: seq<AssignmentData>,
                       late: seq<nat>, combos: seq<seq<nat>>): (scores: seq<real>)
    requires forall k :: 0 <= k < |late| ==> late[k] < |recs|
    ensures |scores| == |combos|
  {
    seq(|combos|, k requires 0 <= k < |combos| =>
      TotalScore(c, overrideScore, AssignCombo(recs, late, combos[k]), true, false))
  }

  /**
   * The combination the optimal strategy settles on: the first best-scoring
   * admissible one; none when there is no budget, nothing is late, or no
   * combination is admissible.
   */
  function OptimalCombo(c: Category, overrideScore: Option<real>, recs: seq<AssignmentData>,
                        ignoreScore: bool): Option<seq<nat>>
  {
    if c.maxSlipCount.None? then None
    else
      var late := LateList(c.assignments, recs, ignoreScore);
      var combos := Admissible(Caps(recs, late), c.maxSlipCount.value);
      if late == [] || combos == [] then None
      else Some(combos[ArgMax(ComboScores(c, overrideScore, recs, late, combos))])
  }

  /** The records after `apply_optimal_slip_time`. */
  function OptimalRecords(c: Category, overrideScore: Option<real>, recs: seq<AssignmentData>,
                          ignoreScore: bool): seq<AssignmentData>
  {
    match OptimalCombo(c, overrideScore, recs, ignoreScore)
    case None => recs
    case Some(combo) => AssignCombo(recs, LateList(c.assignments, recs, ignoreScore), combo)
  }

  /**
   * What `apply_optimal_slip_time` reports: nothing without a budget or late
   * records, the `np.argmax` error when no combination is admissible, and
   * otherwise the verdict of `validate_slip_days`.
   */
  ghost function OptimalOutcome(c: Category, overrideScore: Option<real>, recs: seq<AssignmentData>,
                                ignoreScore: bool): Outcome
  {
    if c.maxSlipCount.None? || LateList(c.assignments, recs, ignoreScore) == [] then Pass
    else if OptimalCombo(c, overrideScore, recs, ignoreScore).None?
    then Fail(ValueError("attempt to get argmax of an empty sequence"))
    else ValidationOf(OptimalRecords(c, overrideScore, recs, ignoreScore), c.maxSlipCount)
  }

  /**
   * The optimal strategy, once the late records, their caps and the
   * admissible combinations are named.
   */
  lemma OptimalComboUnfold(c: Category, overrideScore: Option<real>, recs: seq<AssignmentData>,
                           ignoreScore: bool, late: seq<nat>, combos: seq<seq<nat>>)
    requires c.maxSlipCount.Some?
    requires late == LateList(c.assignments, recs, ignoreScore) && late != []
    requires combos == Admissible(Caps(recs, late), c.maxSlipCount.value)
    ensures combos == [] ==> OptimalCombo(c, overrideScore, recs, ignoreScore).None?
    ensures combos != [] ==>
      OptimalCombo(c, overrideScore, recs, ignoreScore)
        == Some(combos[ArgMax(ComboScores(c, overrideScore, recs, late, combos))])
  {
  }

  /**
   * No admissible combination scores more than the chosen one, and the
   * chosen one is found whenever some combination is admissible.
   */
  lemma OptimalIsBest(c: Category, overrideScore: Option<real>, recs: seq<AssignmentData>,
                      ignoreScore: bool, choice: seq<nat>)
    requires c.maxSlipCount.Some?
    requires var late := LateList(c.assignments, recs, ignoreScore);
      var caps := Caps(recs, late);
      late != [] && WithinCaps(choice, caps)
      && MinInt(SumNat(caps), c.maxSlipCount.value) <= SumNat(choice) <= c.maxSlipCount.value
    ensures OptimalCombo(c, overrideScore, recs, ignoreScore).Some?
    ensures TotalScore(c, overrideScore, AssignCombo(recs, LateList(c.assignments, recs, ignoreScore), choice), true, false)
      <= TotalScore(c, overrideScore, OptimalRecords(c, overrideScore, recs, ignoreScore), true, false)
  {
    var late := LateList(c.assignments, recs, ignoreScore);
    var caps := Caps(recs, late);
    var combos := Admissible(caps, c.maxSlipCount.value);
    MeshMembership(caps, choice);
    var k := IndexOf(combos, choice);
    OptimalComboUnfold(c, overrideScore, recs, ignoreScore, late, combos);
    var scores := ComboScores(c, overrideScore, recs, late, combos);
    assert scores[k] <= scores[ArgMax(scores)];
  }

  /** A position of `x` in `s`. */
  lemma IndexOf(s: seq<seq<nat>>, x: seq<nat>) returns (k: nat)
    requires x in s
    ensures k < |s| && s[k] == x
  {
    k :| 0 <= k < |s| && s[k] == x;
  }

  /** The optimal strategy chooses a combination iff the budget is not negative. */
  lemma OptimalExists(c: Category, overrideScore: Option<real>, recs: seq<AssignmentData>, ignoreScore: bool)
    requires c.maxSlipCount.Some? && LateList(c.assignments, recs, ignoreScore) != []
    ensures OptimalCombo(c, overrideScore, recs, ignoreScore).Some? <==> c.maxSlipCount.value >= 0
  {
    var late := LateList(c.assignments, recs, ignoreScore);
    var caps := Caps(recs, late);
    AdmissibleExists(caps, c.maxSlipCount.value);
    OptimalComboUnfold(c, overrideScore, recs, ignoreScore, late, Admissible(caps, c.maxSlipCount.value));
  }

  /**
   * The chosen combination stays within each record's cap and spends
   * exactly `min(sum of caps, budget)`.
   */
  lemma OptimalSpends(c: Category, overrideScore: Option<real>, recs: seq<AssignmentData>, ignoreScore: bool)
    requires c.maxSlipCount.Some? && OptimalCombo(c, overrideScore, recs, ignoreScore).Some?
    ensures var caps := Caps(recs, LateList(c.assignments, recs, ignoreScore));
      var combo := OptimalCombo(c, overrideScore, recs, ignoreScore).value;
      WithinCaps(combo, caps) && SumNat(combo) == MinInt(SumNat(caps), c.maxSlipCount.value)
  {
    var late := LateList(c.assignments, recs, ignoreScore);
    var caps := Caps(recs, late);
    var combos := Admissible(caps, c.maxSlipCount.value);
    OptimalComboUnfold(c, overrideScore, recs, ignoreScore, late, combos);
    var combo := OptimalCombo(c, overrideScore, recs, ignoreScore).value;
    assert combo in combos;
    AdmissibleTotal(caps, c.maxSlipCount.value, combo);
  }

  /**
   * With distinct late records, the chosen amounts land on them in order,
   * each between 0 and the record's cap, and nothing else changes.
   */
  lemma OptimalSlipAt(c: Category, overrideScore: Option<real>, recs: seq<AssignmentData>,
                      ignoreScore: bool, k: nat)
    requires OptimalCombo(c, overrideScore, recs, ignoreScore).Some?
    requires Distinct(LateList(c.assignments, recs, ignoreScore))
    requires k < |LateList(c.assignments, recs, ignoreScore)|
    ensures var late := LateList(c.assignments, recs, ignoreScore);
      var out := OptimalRecords(c, overrideScore, recs, ignoreScore);
      && SlipOnlyAt(recs, out, late)
      && out[late[k]] == recs[late[k]].(slipTimeUsed := out[late[k]].slipTimeUsed)
      && 0 <= out[late[k]].slipTimeUsed <= Need(recs[late[k]])
  {
    var late := LateList(c.assignments, recs, ignoreScore);
    var combo := OptimalCombo(c, overrideScore, recs, ignoreScore).value;
    OptimalSpends(c, overrideScore, recs, ignoreScore);
    AssignComboChanges(recs, late, combo);
    AssignComboAt(recs, late, combo, k);
  }

  /* ---------------------------------------------------------------- */
  /* The ordered strategy against the optimal one                     */
  /* ---------------------------------------------------------------- */

  /** Records that differ only in slip time have the same first record of each assignment. */
  lemma {:induction false} FirstRecordIgnoresSlip(a: seq<AssignmentData>, b: seq<AssignmentData>, x: AssignmentInfo)
    requires SameButSlip(a, b)
    ensures FirstRecordOf(a, x) == FirstRecordOf(b, x)
  {
    if a != [] {
      assert SameButSlip(a[1..], b[1..]) by {
        forall i | 0 <= i < |a[1..]| ensures b[1..][i] == a[1..][i].(slipTimeUsed := b[1..][i].slipTimeUsed) {
          assert b[i + 1] == a[i + 1].(slipTimeUsed := b[i + 1].slipTimeUsed);
        }
      }
      assert b[0] == a[0].(slipTimeUsed := b[0].slipTimeUsed);
      FirstRecordIgnoresSlip(a[1..], b[1..], x);
    }
  }

  /** Which records are late does not depend on slip time. */
  lemma {:induction false} LateListIgnoresSlip(assigns: seq<AssignmentInfo>, a: seq<AssignmentData>,
                                               b: seq<AssignmentData>, ignoreScore: bool)
    requires SameButSlip(a, b)
    ensures LateList(assigns, a, ignoreScore) == LateList(assigns, b, ignoreScore)
  {
    if assigns != [] {
      var x := assigns[|assigns| - 1];
      LateListIgnoresSlip(assigns[..|assigns| - 1], a, b, ignoreScore);
      FirstRecordIgnoresSlip(a, b, x);
      if FirstRecordOf(a, x).Some? {
        var j := FirstRecordOf(a, x).value;
        assert b[j] == a[j].(slipTimeUsed := b[j].slipTimeUsed);
      }
    }
  }

  /** The caps do not depend on slip time either. */
  lemma CapsIgnoreSlip(a: seq<AssignmentData>, b: seq<AssignmentData>, late: seq<nat>)
    requires SameButSlip(a, b) && LateOk(late, a)
    ensures LateOk(late, b) && Caps(a, late) == Caps(b, late)
  {
    forall k | 0 <= k < |late| ensures b[late[k]].assignment == a[late[k]].assignment && b[late[k]].numLate == a[late[k]].numLate {
      assert b[late[k]] == a[late[k]].(slipTimeUsed := b[late[k]].slipTimeUsed);
    }
  }

  /** The late list read from the front: the first assignment's record, then the rest. */
  lemma {:induction false} LateListCons(assigns: seq<AssignmentInfo>, recs: seq<AssignmentData>, ignoreScore: bool)
    requires assigns != []
    ensures LateList(assigns, recs, ignoreScore)
      == (if Takes(assigns[0], recs, ignoreScore) then [FirstRecordOf(recs, assigns[0]).value] else [])
         + LateList(assigns[1..], recs, ignoreScore)
    decreases |assigns|
  {
    if |assigns| > 1 {
      var init := assigns[..|assigns| - 1];
      LateListCons(init, recs, ignoreScore);
      assert init[1..] == assigns[1..][..|assigns[1..]| - 1];
      assert init[0] == assigns[0];
    } else {
      assert assigns[..0] == [] && assigns[1..] == [];
    }
  }

  /**
   * From a non-negative budget, the ordered strategy is the greedy fill of
   * the caps of the late list in assignment order: each late record takes
   * `min(cap, slip time left)`, and what is left is the budget less the
   * greedy total. A repeated assignment sets its record again, as the
   * combination does.
   */
  lemma OrderedIsGreedy(assigns: seq<AssignmentInfo>, recs: seq<AssignmentData>, left: nat, ignoreScore: bool)
    ensures var late := LateList(assigns, recs, ignoreScore);
      var g := Greedy(Caps(recs, late), left);
      && OrderedSlip(assigns, recs, left, ignoreScore).0 == AssignCombo(recs, late, g)
      && OrderedSlip(assigns, recs, left, ignoreScore).1 == left - SumNat(g)
  {
    var late := LateList(assigns, recs, ignoreScore);
    OrderedIsGreedyOn(assigns, recs, left, ignoreScore, late, Caps(recs, late));
  }

  /** `OrderedIsGreedy`, by induction with the late list and its caps as parameters. */
  lemma {:induction false} OrderedIsGreedyOn(assigns: seq<AssignmentInfo>, recs: seq<AssignmentData>, left: nat,
                                             ignoreScore: bool, late: seq<nat>, caps: seq<nat>)
    requires late == LateList(assigns, recs, ignoreScore) && caps == Caps(recs, late)
    ensures var g := Greedy(caps, left);
      && OrderedSlip(assigns, recs, left, ignoreScore).0 == AssignCombo(recs, late, g)
      && OrderedSlip(assigns, recs, left, ignoreScore).1 == left - SumNat(g)
    decreases |assigns|
  {
    if assigns != [] {
      LateListCons(assigns, recs, ignoreScore);
      if !Takes(assigns[0], recs, ignoreScore) {
        assert OrderedSlip(assigns, recs, left, ignoreScore) == OrderedSlip(assigns[1..], recs, left, ignoreScore);
        OrderedIsGreedyOn(assigns[1..], recs, left, ignoreScore, late, caps);
      } else {
        var j := FirstRecordOf(recs, assigns[0]).value;
        assert late != [] && late[0] == j;
        var amount: nat := if caps[0] <= left then caps[0] else left;
        var recs1 := recs[j := recs[j].(slipTimeUsed := amount)];
        OrderedTakeStep(assigns, recs, left, ignoreScore, late, caps, amount);
        OrderedIsGreedyOn(assigns[1..], recs1, left - amount, ignoreScore, late[1..], caps[1..]);
        ComboFront(recs, late, caps, left);
      }
    }
  }

  /** One taking step of the ordered strategy, against the late list and its caps. */
  lemma OrderedTakeStep(assigns: seq<AssignmentInfo>, recs: seq<AssignmentData>, left: nat,
                        ignoreScore: bool, late: seq<nat>, caps: seq<nat>, amount: nat)
    requires assigns != [] && Takes(assigns[0], recs, ignoreScore)
    requires late == LateList(assigns, recs, ignoreScore) && caps == Caps(recs, late)
    requires late != [] && amount == if caps[0] <= left then caps[0] else left
    ensures var j := late[0];
      var recs1 := recs[j := recs[j].(slipTimeUsed := amount)];
      && OrderedSlip(assigns, recs, left, ignoreScore) == OrderedSlip(assigns[1..], recs1, left - amount, ignoreScore)
      && late[1..] == LateList(assigns[1..], recs1, ignoreScore)
      && caps[1..] == Caps(recs1, late[1..])
  {
    var j := FirstRecordOf(recs, assigns[0]).value;
    assert late[0] == j && late[1..] == LateList(assigns[1..], recs, ignoreScore) by {
      LateListCons(assigns, recs, ignoreScore);
    }
    assert SlipAmount(assigns[0], recs[j], left) == amount;
    LateIgnoresSlip(assigns[1..], recs, late[1..], caps[1..], j, amount, ignoreScore);
  }

  /** Setting one record's slip time changes neither the late list nor its caps. */
  lemma LateIgnoresSlip(assigns: seq<AssignmentInfo>, recs: seq<AssignmentData>, late: seq<nat>, caps: seq<nat>,
                        j: nat, amount: nat, ignoreScore: bool)
    requires j < |recs| && late == LateList(assigns, recs, ignoreScore) && caps == Caps(recs, late)
    ensures var recs1 := recs[j := recs[j].(slipTimeUsed := amount)];
      late == LateList(assigns, recs1, ignoreScore) && caps == Caps(recs1, late)
  {
    var recs1 := recs[j := recs[j].(slipTimeUsed := amount)];
    assert SameButSlip(recs, recs1);
    LateListIgnoresSlip(assigns, recs, recs1, ignoreScore);
    CapsIgnoreSlip(recs, recs1, late);
  }

  /** The greedy fill assigned from the front: the first late record's share, then the rest. */
  lemma ComboFront(recs: seq<AssignmentData>, late: seq<nat>, caps: seq<nat>, left: nat)
    requires late != [] && |caps| == |late| && forall k :: 0 <= k < |late| ==> late[k] < |recs|
    ensures var amount := if caps[0] <= left then caps[0] else left;
      var recs1 := recs[late[0] := recs[late[0]].(slipTimeUsed := amount)];
      var g1 := Greedy(caps[1..], left - amount);
      && AssignCombo(recs, late, Greedy(caps, left)) == AssignCombo(recs1, late[1..], g1)
      && SumNat(Greedy(caps, left)) == amount + SumNat(g1)
  {
    var amount := if caps[0] <= left then caps[0] else left;
    var g1 := Greedy(caps[1..], left - amount);
    GreedyFront(caps, left);
    assert ([amount] + g1)[1..] == g1;
  }

  /**
   * With distinct assignments, the ordered strategy gives the `k`-th late
   * record the `k`-th greedy amount: a combination within the caps that
   * spends `min(sum of caps, budget)`.
   */
  lemma OrderedSlipAt(assigns: seq<AssignmentInfo>, recs: seq<AssignmentData>, left: nat, ignoreScore: bool, k: nat)
    requires forall p, q :: 0 <= p < q < |assigns| ==> assigns[p] != assigns[q]
    requires k < |LateList(assigns, recs, ignoreScore)|
    ensures var late := LateList(assigns, recs, ignoreScore);
      var g := Greedy(Caps(recs, late), left);
      && OrderedSlip(assigns, recs, left, ignoreScore).0[late[k]] == recs[late[k]].(slipTimeUsed := g[k])
      && WithinCaps(g, Caps(recs, late))
      && SumNat(g) == MinInt(SumNat(Caps(recs, late)), left)
  {
    var late := LateList(assigns, recs, ignoreScore);
    OrderedIsGreedy(assigns, recs, left, ignoreScore);
    LateListDistinct(assigns, recs, ignoreScore);
    AssignComboAt(recs, late, Greedy(Caps(recs, late), left), k);
    GreedyAdmissible(Caps(recs, late), left);
  }

  /**
   * From a non-negative budget, the optimal strategy scores at least as
   * much as the ordered one (`get_total_score(with_hidden=True)`): the
   * ordered amounts are one of the combinations the optimal strategy weighs.
   */
  lemma OptimalNoWorseThanOrdered(c: Category, overrideScore: Option<real>, recs: seq<AssignmentData>, ignoreScore: bool)
    requires c.maxSlipCount.Some? && c.maxSlipCount.value >= 0
    ensures TotalScore(c, overrideScore, OrderedSlip(c.assignments, recs, c.maxSlipCount.value, ignoreScore).0, true, false)
      <= TotalScore(c, overrideScore, OptimalRecords(c, overrideScore, recs, ignoreScore), true, false)
  {
    var mx: nat := c.maxSlipCount.value;
    var late := LateList(c.assignments, recs, ignoreScore);
    var g := Greedy(Caps(recs, late), mx);
    OrderedIsGreedy(c.assignments, recs, mx, ignoreScore);
    if late == [] {
      assert OptimalCombo(c, overrideScore, recs, ignoreScore).None?;
    } else {
      GreedyAdmissible(Caps(recs, late), mx);
      OptimalIsBest(c, overrideScore, recs, ignoreScore, g);
    }
  }

  /* ---------------------------------------------------------------- */
  /* Dropping the lowest assignments                                  */
  /* ---------------------------------------------------------------- */

  /** A candidate for dropping: a record's position and its course points. */
  type Candidate = (nat, real)

  function Points(x: Candidate): real {
    x.1
  }

  /** `[(a, a.get_course_points()) for a in assignments_data if a.is_worth_points()]`. */
  function Candidates(recs: seq<AssignmentData>): (r: seq<Candidate>)
    ensures forall k :: 0 <= k < |r| ==> (r[k].0 < |recs| && recs[r[k].0].worthPoints
      && r[k].1 == CoursePointsOf(recs[r[k].0]))
    ensures forall k, l :: 0 <= k < l < |r| ==> r[k].0 < r[l].0
    ensures forall p :: 0 <= p < |recs| && recs[p].worthPoints ==> (p, CoursePointsOf(recs[p])) in r
  {
    if recs == [] then []
    else
      var init := recs[..|recs| - 1];
      var last := recs[|recs| - 1];
      assert forall p :: 0 <= p < |init| ==> init[p] == recs[p];
      Candidates(init) + (if last.worthPoints then [(|recs| - 1, CoursePointsOf(last))] else [])
  }

  /** Some candidate of `ds` is at position `p`. */
  predicate DropsAt(ds: seq<Candidate>, p: nat) {
    exists k :: 0 <= k < |ds| && ds[k].0 == p
  }

  /** `drop_assignment()` on the record of each candidate, in order. */
  function MarkDropped(recs: seq<AssignmentData>, ds: seq<Candidate>): (r: seq<AssignmentData>)
    ensures |r| == |recs|
    decreases |ds|
  {
    if ds == [] then recs
    else if ds[0].0 < |recs| then MarkDropped(recs[ds[0].0 := recs[ds[0].0].(dropped := true)], ds[1..])
    else MarkDropped(recs, ds[1..])
  }

  /** Exactly the records of the candidates are marked dropped. */
  lemma {:induction false} MarkDroppedAt(recs: seq<AssignmentData>, ds: seq<Candidate>, p: nat)
    requires p < |recs|
    ensures MarkDropped(recs, ds)[p] == if DropsAt(ds, p) then recs[p].(dropped := true) else recs[p]
    decreases |ds|
  {
    if ds != [] {
      var recs1 := if ds[0].0 < |recs| then recs[ds[0].0 := recs[ds[0].0].(dropped := true)] else recs;
      MarkDroppedAt(recs1, ds[1..], p);
      if DropsAt(ds[1..], p) {
        var k :| 0 <= k < |ds[1..]| && ds[1..][k].0 == p;
        assert ds[k + 1].0 == p;
      }
      if DropsAt(ds, p) && ds[0].0 != p {
        var k :| 0 <= k < |ds| && ds[k].0 == p;
        assert ds[1..][k - 1].0 == p;
      }
    }
  }

  /** The candidates dropped from `recs` when dropping `n`. */
  function DroppedOf(recs: seq<AssignmentData>, n: int): seq<Candidate> {
    LowestK(Candidates(recs), Points, if n < 0 then 0 else n).0
  }

  /** Nothing is removed when nothing is asked for or nothing is left. */
  lemma LowestKNone(s: seq<Candidate>, m: nat)
    requires m == 0 || s == []
    ensures LowestK(s, Points, m).0 == []
  {
  }

  /** One round of the drop loop: mark the first smallest candidate, remove it. */
  lemma DropStep(recs: seq<AssignmentData>, cands: seq<Candidate>, m: nat, j: nat,
                 recs': seq<AssignmentData>, rest: seq<Candidate>)
    requires cands != [] && m > 0 && j == FirstMinIndex(cands, Points)
    requires forall l :: 0 <= l < |cands| ==> cands[l].0 < |recs|
    requires recs' == recs[cands[j].0 := recs[cands[j].0].(dropped := true)]
    requires rest == RemoveAt(cands, j)
    ensures forall l :: 0 <= l < |rest| ==> rest[l].0 < |recs'|
    ensures MarkDropped(recs, LowestK(cands, Points, m).0) == MarkDropped(recs', LowestK(rest, Points, m - 1).0)
  {
    LowestKStep(cands, Points, m);
    forall l | 0 <= l < |rest| ensures rest[l] == cands[if l < j then l else l + 1] { }
  }

  /** The loop of `DropRounds` over a copy of the records. */
  method DropEach(before: seq<AssignmentData>, cands: seq<Candidate>, m: nat) returns (recs: seq<AssignmentData>, ok: bool)
    requires forall l :: 0 <= l < |cands| ==> cands[l].0 < |before|
    ensures recs == MarkDropped(before, LowestK(cands, Points, m).0)
    ensures ok <==> m <= |cands|
  {
    recs := before;
    var rest := cands;
    var i := 0;
    while i < m && rest != []
      invariant 0 <= i <= m
      invariant forall l :: 0 <= l < |rest| ==> rest[l].0 < |recs|
      invariant |rest| + i == |cands|
      invariant MarkDropped(recs, LowestK(rest, Points, m - i).0) == MarkDropped(before, LowestK(cands, Points, m).0)
    {
      var j := FirstMinIndex(rest, Points);
      var p := rest[j].0;
      var recs' := recs[p := recs[p].(dropped := true)];
      var rest' := RemoveAt(rest, j);
      DropStep(recs, rest, m - i, j, recs', rest');
      recs := recs';
      rest := rest';
      i := i + 1;
    }
    LowestKNone(rest, m - i);
    ok := i == m;
  }

  ghost predicate DistinctPositions(ds: seq<Candidate>) {
    forall k, l :: 0 <= k < l < |ds| ==> ds[k].0 != ds[l].0
  }

  lemma RemoveAtDistinct(s: seq<Candidate>, i: nat)
    requires i < |s| && DistinctPositions(s)
    ensures DistinctPositions(RemoveAt(s, i))
    ensures forall x :: x in RemoveAt(s, i) ==> x.0 != s[i].0
  {
    var r := RemoveAt(s, i);
    forall k | 0 <= k < |r| ensures r[k] == s[if k < i then k else k + 1] { }
  }

  /** Removing the smallest candidates removes no position twice. */
  lemma {:induction false} LowestKDistinct(s: seq<Candidate>, k: nat)
    requires DistinctPositions(s)
    ensures DistinctPositions(LowestK(s, Points, k).0)
  {
    if k != 0 && s != [] {
      var i := FirstMinIndex(s, Points);
      RemoveAtDistinct(s, i);
      LowestKDistinct(RemoveAt(s, i), k - 1);
      LowestKDistinctStep(s, k, i, RemoveAt(s, i));
    }
  }

  lemma LowestKDistinctStep(s: seq<Candidate>, k: nat, i: nat, s': seq<Candidate>)
    requires k != 0 && s != [] && i == FirstMinIndex(s, Points) && s' == RemoveAt(s, i)
    requires forall x :: x in s' ==> x.0 != s[i].0
    requires DistinctPositions(LowestK(s', Points, k - 1).0)
    ensures DistinctPositions(LowestK(s, Points, k).0)
  {
    LowestKStep(s, Points, k);
    var rem := LowestK(s', Points, k - 1).0;
    forall x | x in rem ensures x.0 != s[i].0 {
      LowestKMembers(s', Points, k - 1, x);
    }
    DistinctCons(s[i], rem);
  }

  lemma DistinctCons(x: Candidate, s: seq<Candidate>)
    requires DistinctPositions(s) && forall y :: y in s ==> y.0 != x.0
    ensures DistinctPositions([x] + s)
  {
    var all := [x] + s;
    forall a, b | 0 <= a < b < |all| ensures all[a].0 != all[b].0 {
      assert all[b] == s[b - 1];
    }
  }

  /**
   * Dropping `n` (not more than there are candidates) marks `n` distinct
   * worth-points records, and no other record.
   */
  lemma DropLowestCount(recs: seq<AssignmentData>, n: int)
    requires n <= |Candidates(recs)|
    ensures var ds := DroppedOf(recs, n);
      && |ds| == (if n < 0 then 0 else n)
      && DistinctPositions(ds)
      && forall p :: 0 <= p < |recs| ==>
           (DropsAt(ds, p) ==> recs[p].worthPoints)
           && MarkDropped(recs, ds)[p] == if DropsAt(ds, p) then recs[p].(dropped := true) else recs[p]
  {
    var cands := Candidates(recs);
    var k := if n < 0 then 0 else n;
    var ds := DroppedOf(recs, n);
    LowestKDistinct(cands, k);
    forall p | 0 <= p < |recs|
      ensures (DropsAt(ds, p) ==> recs[p].worthPoints)
        && MarkDropped(recs, ds)[p] == if DropsAt(ds, p) then recs[p].(dropped := true) else recs[p]
    {
      MarkDroppedAt(recs, ds, p);
      if DropsAt(ds, p) {
        var j :| 0 <= j < |ds| && ds[j].0 == p;
        LowestKMembers(cands, Points, k, ds[j]);
      }
    }
  }

  /**
   * Every dropped record earned no more course points than any worth-points
   * record that is kept.
   */
  lemma DroppedAreLowest(recs: seq<AssignmentData>, n: int, p: nat, q: nat)
    requires p < |recs| && q < |recs| && recs[q].worthPoints
    requires DropsAt(DroppedOf(recs, n), p) && !DropsAt(DroppedOf(recs, n), q)
    ensures recs[p].worthPoints && CoursePointsOf(recs[p]) <= CoursePointsOf(recs[q])
  {
    var cands := Candidates(recs);
    var k := if n < 0 then 0 else n;
    var ds := DroppedOf(recs, n);
    var j :| 0 <= j < |ds| && ds[j].0 == p;
    var x := ds[j];
    LowestKMembers(cands, Points, k, x);
    var i :| 0 <= i < |cands| && cands[i] == x;
    assert recs[p].worthPoints && x.1 == CoursePointsOf(recs[p]);
    var y := (q, CoursePointsOf(recs[q]));
    LowestKMembers(cands, Points, k, y);
    assert forall l :: 0 <= l < |ds| ==> ds[l].0 != q;
    assert y !in ds;
    LowestKBelow(cands, Points, k);
    assert Points(x) <= Points(y);
  }

  /* ---------------------------------------------------------------- */
  /* A student's records in one category                              */
  /* ---------------------------------------------------------------- */

  /** `StudentCategoryData`: one student's records for a category. */
  class StudentCategoryData {
    const category: Category
    var records: seq<AssignmentData>
    var overrideScore: Option<real>

    constructor(category: Category, records: seq<AssignmentData>)
      ensures this.category == category && this.records == records
      ensures overrideScore == None
    {
      this.category := category;
      this.records := records;
      overrideScore := None;
    }

    /** `get_total_score`. */
    method GetTotalScore(withHidden: bool, ignoreNotForPoints: bool) returns (total: real)
      ensures total == TotalScore(category, overrideScore, records, withHidden, ignoreNotForPoints)
    {
      if category.doesNotContribute && !ignoreNotForPoints {
        return 0.0;
      }
      if overrideScore.Some? {
        return overrideScore.value;
      }
      total := 0.0;
      var i := 0;
      while i < |records|
        invariant 0 <= i <= |records|
        invariant total == ScoreSum(records[..i], withHidden)
      {
        assert records[..i + 1][..i] == records[..i];
        if !(records[i].assignment.hidden && !withHidden) {
          total := total + CoursePointsOf(records[i]);
        }
        i := i + 1;
      }
      assert records[..i] == records;
    }

    /** `get_assignment_data`: the position of the first record of `id`. */
    method FindAssignmentData(id: string) returns (r: Option<nat>)
      ensures r == GetAssignmentData(records, id)
    {
      var i := 0;
      while i < |records|
        invariant 0 <= i <= |records|
        invariant forall k :: 0 <= k < i ==> records[k].assignment.id != id
      {
        if records[i].assignment.id == id {
          return Some(i);
        }
        i := i + 1;
      }
      return None;
    }

    /** The inner loop of both strategies: the first record of `a`. */
    method FindRecord(a: AssignmentInfo) returns (r: Option<nat>)
      ensures r == FirstRecordOf(records, a)
    {
      var i := 0;
      while i < |records|
        invariant 0 <= i <= |records|
        invariant forall k :: 0 <= k < i ==> records[k].assignment != a
      {
        if records[i].assignment == a {
          return Some(i);
        }
        i := i + 1;
      }
      return None;
    }

    /**
     * `validate_slip_days`: fails as soon as the running total of slip time
     * goes over the maximum.
     */
    method ValidateSlipDays() returns (r: Outcome)
      ensures r == ValidationOf(records, category.maxSlipCount)
    {
      if category.maxSlipCount.None? {
        return Pass;
      }
      var mx := category.maxSlipCount.value;
      var count := 0;
      var i := 0;
      while i < |records|
        invariant 0 <= i <= |records|
        invariant count == SumSlip(records[..i])
        invariant forall k :: 0 < k <= i ==> SumSlip(records[..k]) <= mx
      {
        assert records[..i + 1][..i] == records[..i];
        count := count + records[i].slipTimeUsed;
        if count > mx {
          assert SumSlip(records[..i + 1]) > mx;
          return Fail(ValueError("Somehow applied more slipdays than the max!"));
        }
        i := i + 1;
      }
      return Pass;
    }

    /**
     * `apply_ordered_slip_time` (also `apply_slip_time`): the ordered
     * strategy, then `validate_slip_days`.
     */
    method ApplyOrderedSlipTime(ignoreScore: bool) returns (r: Outcome)
      modifies this
      ensures overrideScore == old(overrideScore)
      ensures category.maxSlipCount.None? ==> records == old(records) && r == Pass
      ensures category.maxSlipCount.Some? ==>
        records == OrderedSlip(category.assignments, old(records), category.maxSlipCount.value, ignoreScore).0
        && r == ValidationOf(records, category.maxSlipCount)
    {
      if category.maxSlipCount.None? {
        return Pass;
      }
      var assigns := category.assignments;
      var left := category.maxSlipCount.value;
      var i := 0;
      while i < |assigns|
        invariant 0 <= i <= |assigns|
        invariant overrideScore == old(overrideScore)
        invariant OrderedSlip(assigns[i..], records, left, ignoreScore).0
          == OrderedSlip(assigns, old(records), category.maxSlipCount.value, ignoreScore).0
      {
        var a := assigns[i];
        assert assigns[i..][0] == a && assigns[i..][1..] == assigns[i + 1..];
        if !NoSlipAllowed(a) {
          var j := FindRecord(a);
          if j.Some? && Eligible(records[j.value], ignoreScore) {
            var amount := SlipAmount(a, records[j.value], left);
            records := records[j.value := records[j.value].(slipTimeUsed := amount)];
            left := left - amount;
          }
        }
        i := i + 1;
      }
      r := ValidateSlipDays();
    }

    /** `apply_slip_time`: the ordered strategy with scores counted. */
    method ApplySlipTime() returns (r: Outcome)
      modifies this
      ensures overrideScore == old(overrideScore)
      ensures records == SlippedRecords(category, old(records))
      ensures r == ValidationOf(records, category.maxSlipCount)
    {
      r := ApplyOrderedSlipTime(false);
    }

    /** The loop that collects the late records. */
    method CollectLate(ignoreScore: bool) returns (late: seq<nat>)
      ensures late == LateList(category.assignments, records, ignoreScore)
    {
      var assigns := category.assignments;
      late := [];
      var i := 0;
      while i < |assigns|
        invariant 0 <= i <= |assigns|
        invariant late == LateList(assigns[..i], records, ignoreScore)
      {
        assert assigns[..i + 1][..i] == assigns[..i];
        var a := assigns[i];
        if !NoSlipAllowed(a) {
          var j := FindRecord(a);
          if j.Some? && Eligible(records[j.value], ignoreScore) {
            late := late + [j.value];
          }
        }
        i := i + 1;
      }
      assert assigns[..i] == assigns;
    }

    /** The loop that caps each late record and adds the caps up. */
    method CollectCaps(late: seq<nat>) returns (caps: seq<nat>, total: nat)
      requires LateOk(late, records)
      ensures caps == Caps(records, late) && total == SumNat(caps)
    {
      caps := [];
      total := 0;
      var i := 0;
      while i < |late|
        invariant 0 <= i <= |late|
        invariant caps == Caps(records, late[..i]) && total == SumNat(caps)
      {
        assert late[..i + 1][..i] == late[..i];
        var need := Need(records[late[i]]);
        SumNatSnoc(caps, need);
        caps := caps + [need];
        total := total + need;
        i := i + 1;
      }
      assert late[..i] == late;
    }

    /** `assign_slip_days`. */
    method AssignSlip(late: seq<nat>, combo: seq<nat>)
      requires forall k :: 0 <= k < |late| ==> late[k] < |records|
      modifies this
      ensures overrideScore == old(overrideScore)
      ensures records == AssignCombo(old(records), late, combo)
    {
      var i := 0;
      while i < |late| && i < |combo|
        invariant 0 <= i <= |late| && i <= |combo|
        invariant |records| == |old(records)|
        invariant overrideScore == old(overrideScore)
        invariant AssignCombo(records, late[i..], combo[i..]) == AssignCombo(old(records), late, combo)
      {
        assert late[i..][0] == late[i] && late[i..][1..] == late[i + 1..];
        assert combo[i..][0] == combo[i] && combo[i..][1..] == combo[i + 1..];
        records := records[late[i] := records[late[i]].(slipTimeUsed := combo[i])];
        i := i + 1;
      }
    }

    /** Score each combination in turn, leaving the last one assigned. */
    method ScoreCombos(late: seq<nat>, combos: seq<seq<nat>>) returns (scores: seq<real>)
      requires forall k :: 0 <= k < |late| ==> late[k] < |records|
      requires forall k :: 0 <= k < |combos| ==> |combos[k]| >= |late|
      modifies this
      ensures overrideScore == old(overrideScore)
      ensures scores == ComboScores(category, overrideScore, old(records), late, combos)
      ensures combos == [] ==> records == old(records)
      ensures combos != [] ==> records == AssignCombo(old(records), late, combos[|combos| - 1])
    {
      scores := [];
      var i := 0;
      while i < |combos|
        invariant 0 <= i <= |combos|
        invariant |records| == |old(records)|
        invariant overrideScore == old(overrideScore)
        invariant i == 0 ==> records == old(records)
        invariant i > 0 ==> records == AssignCombo(old(records), late, combos[i - 1])
        invariant |scores| == i
        invariant forall k :: 0 <= k < i ==>
          scores[k] == TotalScore(category, overrideScore, AssignCombo(old(records), late, combos[k]), true, false)
      {
        AssignSlip(late, combos[i]);
        if i > 0 {
          AssignComboTwice(old(records), late, combos[i - 1], combos[i]);
        }
        var score := GetTotalScore(true, false);
        scores := scores + [score];
        i := i + 1;
      }
    }

    /**
     * `apply_optimal_slip_time`: try every admissible combination of slip
     * time over the late records, keep the first best-scoring one, then
     * `validate_slip_days`.
     */
    method ApplyOptimalSlipTime(ignoreScore: bool) returns (r: Outcome)
      modifies this
      ensures overrideScore == old(overrideScore)
      ensures records == OptimalRecords(category, overrideScore, old(records), ignoreScore)
      ensures r == OptimalOutcome(category, overrideScore, old(records), ignoreScore)
    {
      if category.maxSlipCount.None? {
        return Pass;
      }
      var mx := category.maxSlipCount.value;
      var late := CollectLate(ignoreScore);
      if late == [] {
        return Pass;
      }
      var caps, minToUse := CollectCaps(late);
      var combos := FilterByTotal(MeshGrid(caps), MinInt(minToUse, mx), mx);
      forall k | 0 <= k < |combos| ensures |combos[k]| >= |late| {
        MeshMembership(caps, combos[k]);
      }
      ghost var recs0 := records;
      OptimalComboUnfold(category, overrideScore, recs0, ignoreScore, late, combos);
      var scores := ScoreCombos(late, combos);
      if scores == [] {
        return Fail(ValueError("attempt to get argmax of an empty sequence"));
      }
      var best := FindArgMax(scores);
      AssignSlip(late, combos[best]);
      AssignComboTwice(recs0, late, combos[|combos| - 1], combos[best]);
      r := ValidateSlipDays();
    }

    /**
     * `drop_lowest_assignments`: refuse to drop as many records as there
     * are; otherwise drop the worth-points record with the fewest course
     * points, `n` times, failing like `min` of an empty list when they run
     * out.
     */
    method DropLowestAssignments() returns (r: Outcome)
      modifies this
      ensures overrideScore == old(overrideScore)
      ensures category.dropLowestN >= |old(records)| ==>
        records == old(records) && r == Fail(ValueError("You cannot drop more assignments than what exists!"))
      ensures category.dropLowestN < |old(records)| ==>
        records == MarkDropped(old(records), DroppedOf(old(records), category.dropLowestN))
        && r == if category.dropLowestN > |Candidates(old(records))|
                then Fail(ValueError("min() arg is an empty sequence")) else Pass
    {
      var n := category.dropLowestN;
      if n >= |records| {
        return Fail(ValueError("You cannot drop more assignments than what exists!"));
      }
      var cands := CollectCandidates();
      var ok := DropRounds(cands, if n < 0 then 0 else n);
      r := if ok then Pass else Fail(ValueError("min() arg is an empty sequence"));
    }

    /**
     * The loop of `drop_lowest_assignments`: `m` times, drop the record of
     * the first smallest candidate and remove it; false if they run out.
     */
    method DropRounds(cands: seq<Candidate>, m: nat) returns (ok: bool)
      requires forall l :: 0 <= l < |cands| ==> cands[l].0 < |records|
      modifies this
      ensures overrideScore == old(overrideScore)
      ensures records == MarkDropped(old(records), LowestK(cands, Points, m).0)
      ensures ok <==> m <= |cands|
    {
      var recs;
      recs, ok := DropEach(records, cands, m);
      records := recs;
    }

    /** The list of worth-points records and their course points. */
    method CollectCandidates() returns (cands: seq<Candidate>)
      ensures cands == Candidates(records)
    {
      cands := [];
      var p := 0;
      while p < |records|
        invariant 0 <= p <= |records|
        invariant cands == Candidates(records[..p])
      {
        assert records[..p + 1][..p] == records[..p];
        if records[p].worthPoints {
          cands := cands + [(p, CoursePointsOf(records[p]))];
        }
        p := p + 1;
      }
      assert records[..p] == records;
    }
  }
}
