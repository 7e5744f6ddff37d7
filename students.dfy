/**
 * The newer revision's students (TotalCoursePoints/student.py): an override
 * score, totals that skip the classroom's ignored categories, the class
 * bonus scaled by the points entered so far, grade resolution (incomplete,
 * then pass/no-pass labels, then bins), extensions, slip time and
 * drop-lowest over every category.
 *
 * The classroom this revision's student reads is not part of this model:
 * what the student asks of it arrives as a `ClassView`, and its grade bins
 * and the pass/no-pass registry as objects.
 */
module Students {
  import opened Wrappers
  import opened Dicts
  import opened Categories
  import opened GradeBins
  import opened ExtensionData

  /** What `set_override_score` may be given: an int, a float, `None`, or anything else. */
  datatype ScoreArg = IntScore(i: int) | FloatScore(x: real) | NoScore | OtherScore

  /**
   * The classroom's answers the student reads: `get_ignore_category()`,
   * `get_total_possible()`, `get_total_possible(only_inputted=True)` and
   * `get_raw_additional_pts()`.
   */
  datatype ClassView = ClassView(ignore: set<string>, totalPossible: real, inputtedPossible: real, rawAdditional: real)

  /** `main_results_str`'s grade, and the on-track grade while points are still missing. */
  datatype GradeReport = GradeReport(grade: string, onTrack: Option<string>)

  /**
   * `get_total_points_with_class`: the class's raw additional points,
   * scaled by the fraction of the possible points entered so far, where a
   * total possible of 0 counts as 1.
   */
  function WithClass(points: real, v: ClassView): real {
    points + v.rawAdditional * (v.inputtedPossible / (if v.totalPossible == 0.0 then 1.0 else v.totalPossible))
  }

  /**
   * The bonus is whole once everything is entered, scales the entered
   * points directly when nothing is possible, and otherwise lies between
   * nothing and the whole bonus.
   */
  lemma WithClassLaws(points: real, v: ClassView)
    ensures v.totalPossible != 0.0 && v.inputtedPossible == v.totalPossible ==>
      WithClass(points, v) == points + v.rawAdditional
    ensures v.totalPossible == 0.0 ==> WithClass(points, v) == points + v.rawAdditional * v.inputtedPossible
    ensures 0.0 <= v.inputtedPossible <= v.totalPossible && v.rawAdditional >= 0.0 ==>
      points <= WithClass(points, v) <= points + v.rawAdditional
  {
    if 0.0 <= v.inputtedPossible <= v.totalPossible && v.rawAdditional >= 0.0 && v.totalPossible != 0.0 {
      var f := v.inputtedPossible / v.totalPossible;
      RatioBounds(v.inputtedPossible, v.totalPossible);
      Scaled(v.rawAdditional, f);
      assert WithClass(points, v) == points + v.rawAdditional * f;
    }
  }

  /** A part of a positive whole, as a fraction of it, lies between 0 and 1. */
  lemma RatioBounds(n: real, t: real)
    requires 0.0 <= n <= t && t > 0.0
    ensures 0.0 <= n / t <= 1.0
  {
    var f := n / t;
    assert f * t == n;
    assert f < 0.0 ==> f * t < 0.0;
    assert f > 1.0 ==> f * t > t;
  }

  /** A fraction of a non-negative amount lies between nothing and the whole amount. */
  lemma Scaled(r: real, f: real)
    requires r >= 0.0 && 0.0 <= f <= 1.0
    ensures 0.0 <= r * f <= r
  {
    assert r * f <= r * 1.0;
  }

  /** The score `set_override_score` stores. */
  function ScoreValue(score: ScoreArg): Option<real>
    requires !score.OtherScore?
  {
    match score
    case IntScore(i) => Some(i as real)
    case FloatScore(x) => Some(x)
    case NoScore => None
  }

  /** The bin's id, or the `AttributeError` that `None.id` raises. */
  function BinId(b: Option<Bin>): Result<string> {
    match b
    case None => Err(AttributeError("'NoneType' object has no attribute 'id'"))
    case Some(b) => Ok(b.id)
  }

  /** As `apply_extensions` writes them: each listed assignment id's first record gets `extension_time`. */
  function ExtendTimes(recs: seq<AssignmentData>, exts: Dict<string, int>): (r: seq<AssignmentData>)
    ensures |r| == |recs|
    decreases |exts|
  {
    if exts == [] then recs
    else match GetAssignmentData(recs, exts[0].0)
      case None => ExtendTimes(recs, exts[1..])
      case Some(j) => ExtendTimes(recs[j := recs[j].(extensionTime := Some(exts[0].1))], exts[1..])
  }

  lemma {:induction false} SameIdsSameLookup(recs: seq<AssignmentData>, recs': seq<AssignmentData>, id: string)
    requires |recs| == |recs'|
    requires forall j :: 0 <= j < |recs| ==> recs[j].assignment.id == recs'[j].assignment.id
    ensures GetAssignmentData(recs', id) == GetAssignmentData(recs, id)
  {
    if recs != [] {
      SameIdsSameLookup(recs[1..], recs'[1..], id);
    }
  }

  /**
   * Extensions record by record: the first record of an assignment id
   * with an extension gets it as `extension_time`; every other record,
   * and everything else about that one, is unchanged.
   */
  lemma {:induction false} ExtendTimesAt(recs: seq<AssignmentData>, exts: Dict<string, int>, p: nat)
    requires DistinctKeys(exts) && p < |recs|
    ensures var id := recs[p].assignment.id;
      ExtendTimes(recs, exts)[p] ==
        if GetAssignmentData(recs, id) == Some(p) && HasKey(exts, id)
        then recs[p].(extensionTime := Some(Get(exts, id).value))
        else recs[p]
    decreases |exts|
  {
    if exts != [] {
      var id := recs[p].assignment.id;
      GetTail(exts, id);
      assert DistinctKeys(exts[1..]);
      match GetAssignmentData(recs, exts[0].0)
      case None =>
        ExtendTimesAt(recs, exts[1..], p);
      case Some(j) =>
        var recs' := recs[j := recs[j].(extensionTime := Some(exts[0].1))];
        SameIdsSameLookup(recs, recs', id);
        ExtendTimesAt(recs', exts[1..], p);
    }
  }

  /** One `apply_extensions` inner loop over a category's records. */
  method ExtendCategoryTimes(cat: StudentCategoryData, exts: Dict<string, int>)
    modifies cat
    ensures cat.overrideScore == old(cat.overrideScore)
    ensures cat.records == ExtendTimes(old(cat.records), exts)
  {
    ghost var goal := ExtendTimes(cat.records, exts);
    var j := 0;
    while j < |exts|
      invariant 0 <= j <= |exts|
      invariant cat.overrideScore == old(cat.overrideScore)
      invariant ExtendTimes(cat.records, exts[j..]) == goal
    {
      assert exts[j..][1..] == exts[j + 1..];
      var a := cat.FindAssignmentData(exts[j].0);
      if a.Some? {
        cat.records := cat.records[a.value := cat.records[a.value].(extensionTime := Some(exts[j].1))];
      }
      j := j + 1;
    }
  }

  /** The records of `c` after `drop_lowest_assignments`. */
  function DropResult(c: Category, recs: seq<AssignmentData>): seq<AssignmentData> {
    if c.dropLowestN >= |recs| then recs else MarkDropped(recs, DroppedOf(recs, c.dropLowestN))
  }

  /** What `drop_lowest_assignments` raises, if anything. */
  function DropOutcome(c: Category, recs: seq<AssignmentData>): Outcome {
    if c.dropLowestN >= |recs| then Fail(ValueError("You cannot drop more assignments than what exists!"))
    else if c.dropLowestN > |Candidates(recs)| then Fail(ValueError("min() arg is an empty sequence"))
    else Pass
  }

  /** One category's `apply_slip_time`. */
  method SlipCategory(d: StudentCategoryData) returns (r: Outcome)
    modifies d
    ensures d.overrideScore == old(d.overrideScore)
    ensures d.records == SlippedRecords(d.category, old(d.records))
    ensures r == ValidationOf(d.records, d.category.maxSlipCount)
  {
    r := d.ApplySlipTime();
  }

  /** One category's `drop_lowest_assignments`. */
  method DropCategory(d: StudentCategoryData) returns (r: Outcome)
    modifies d
    ensures d.overrideScore == old(d.overrideScore)
    ensures d.records == DropResult(d.category, old(d.records))
    ensures r == DropOutcome(d.category, old(d.records))
  {
    r := d.DropLowestAssignments();
  }

  /** `d` dropped its lowest assignments with outcome `r`, its override untouched. */
  twostate predicate DroppedWith(d: StudentCategoryData, r: Outcome)
    reads d
  {
    d.overrideScore == old(d.overrideScore)
    && d.records == DropResult(d.category, old(d.records))
    && r == DropOutcome(d.category, old(d.records))
  }

  /** `d` dropped its lowest assignments and passed. */
  twostate predicate Dropped(d: StudentCategoryData)
    reads d
  {
    DroppedWith(d, Pass)
  }

  /** Neither the records nor the override of `d` changed. */
  twostate predicate Untouched(d: StudentCategoryData)
    reads d
  {
    d.overrideScore == old(d.overrideScore) && d.records == old(d.records)
  }

  /** `d` applied its slip-day strategy, its override untouched, and validation answered `r`. */
  twostate predicate SlippedWith(d: StudentCategoryData, r: Outcome)
    reads d
  {
    d.overrideScore == old(d.overrideScore)
    && d.records == SlippedRecords(d.category, old(d.records))
    && r == ValidationOf(d.records, d.category.maxSlipCount)
  }

  /** `d` applied its slip-day strategy and passed validation. */
  twostate predicate SlippedValid(d: StudentCategoryData)
    reads d
  {
    SlippedWith(d, Pass)
  }

  /** The loop of `apply_slip_time` over category records held by no other entry. */
  method SlipAll(cd: Dict<string, StudentCategoryData>) returns (r: Outcome, ghost stopped: nat)
    requires forall i, j :: 0 <= i < |cd| && 0 <= j < |cd| && i != j ==> cd[i].1 != cd[j].1
    modifies Objects(cd)
    ensures stopped <= |cd| && (r.Pass? <==> stopped == |cd|)
    ensures forall k :: 0 <= k < stopped ==> SlippedValid(cd[k].1)
    ensures r.Fail? ==> SlippedWith(cd[stopped].1, r)
    ensures forall k :: stopped < k < |cd| ==> Untouched(cd[k].1)
  {
    var i := 0;
    while i < |cd|
      invariant 0 <= i <= |cd|
      invariant forall k :: 0 <= k < i ==> SlippedValid(cd[k].1)
      invariant forall k :: i <= k < |cd| ==> Untouched(cd[k].1)
    {
      var o := SlipCategory(cd[i].1);
      if o.Fail? {
        return o, i;
      }
      i := i + 1;
    }
    r, stopped := Pass, i;
  }

  /** The loop of `drop_lowest_assignments` over category records held by no other entry. */
  method DropAll(cd: Dict<string, StudentCategoryData>) returns (r: Outcome, ghost stopped: nat)
    requires forall i, j :: 0 <= i < |cd| && 0 <= j < |cd| && i != j ==> cd[i].1 != cd[j].1
    modifies Objects(cd)
    ensures stopped <= |cd| && (r.Pass? <==> stopped == |cd|)
    ensures forall k :: 0 <= k < stopped ==> Dropped(cd[k].1)
    ensures r.Fail? ==> DroppedWith(cd[stopped].1, r)
    ensures forall k :: stopped < k < |cd| ==> Untouched(cd[k].1)
  {
    var i := 0;
    while i < |cd|
      invariant 0 <= i <= |cd|
      invariant forall k :: 0 <= k < i ==> Dropped(cd[k].1)
      invariant forall k :: i <= k < |cd| ==> Untouched(cd[k].1)
    {
      var o := DropCategory(cd[i].1);
      if o.Fail? {
        return o, i;
      }
      i := i + 1;
    }
    r, stopped := Pass, i;
  }

  /** The set of category records of a dictionary. */
  ghost function Objects(cd: Dict<string, StudentCategoryData>): set<StudentCategoryData> {
    set i | 0 <= i < |cd| :: cd[i].1
  }

  /** One category's contribution to `total_points`: nothing when its name is ignored. */
  ghost function Contribution(d: StudentCategoryData, withHidden: bool, ignore: set<string>): real
    reads d
  {
    if d.category.name in ignore then 0.0
    else TotalScore(d.category, d.overrideScore, d.records, withHidden, false)
  }

  /** The categories' total scores in order, skipping ignored category names. */
  ghost function ScoresOf(cd: Dict<string, StudentCategoryData>, withHidden: bool, ignore: set<string>): real
    reads Objects(cd)
  {
    if cd == [] then 0.0
    else
      var init := cd[..|cd| - 1];
      assert forall i :: 0 <= i < |init| ==> init[i] == cd[i];
      ScoresOf(init, withHidden, ignore) + Contribution(cd[|cd| - 1].1, withHidden, ignore)
  }

  /** The total scores of the ignored categories alone. */
  ghost function IgnoredScores(cd: Dict<string, StudentCategoryData>, withHidden: bool, ignore: set<string>): real
    reads Objects(cd)
  {
    if cd == [] then 0.0
    else
      var init := cd[..|cd| - 1];
      var d := cd[|cd| - 1].1;
      assert forall i :: 0 <= i < |init| ==> init[i] == cd[i];
      IgnoredScores(init, withHidden, ignore)
        + (if d.category.name in ignore then TotalScore(d.category, d.overrideScore, d.records, withHidden, false) else 0.0)
  }

  /** Ignoring categories takes exactly their scores off the total. */
  lemma {:induction false} ScoresOfIgnore(cd: Dict<string, StudentCategoryData>, withHidden: bool, ignore: set<string>)
    ensures ScoresOf(cd, withHidden, {}) == ScoresOf(cd, withHidden, ignore) + IgnoredScores(cd, withHidden, ignore)
  {
    if cd != [] {
      var init := cd[..|cd| - 1];
      assert forall i :: 0 <= i < |init| ==> init[i] == cd[i];
      ScoresOfIgnore(init, withHidden, ignore);
    }
  }

  class Student {
    const name: string
    const sid: string
    const email: string
    const activeStudent: bool
    const gradeStatus: string
    const secret: Option<string>
    const incomplete: bool
    var overrideScore: Option<real>
    var categoryData: Dict<string, StudentCategoryData>
    var extensionData: Extensions

    /** Categories are keyed by their own names, and extension keys are unique. */
    ghost predicate Valid()
      reads this
    {
      DistinctKeys(categoryData) && ValidExtensions(extensionData)
      && (forall i :: 0 <= i < |categoryData| ==> categoryData[i].1.category.name == categoryData[i].0)
    }

    ghost function Cats(): set<StudentCategoryData>
      reads this
    {
      Objects(categoryData)
    }

    lemma DistinctObjects()
      requires Valid()
      ensures forall i, j :: 0 <= i < |categoryData| && 0 <= j < |categoryData| && i != j ==>
        categoryData[i].1 != categoryData[j].1
    {
    }

    /** A student with no category records and no override yet. */
    constructor (name: string, sid: string, email: string, activeStudent: bool, gradeStatus: string,
                 extensionData: Extensions, secret: Option<string>, incomplete: bool)
      requires ValidExtensions(extensionData)
      ensures Valid() && categoryData == [] && this.extensionData == extensionData && overrideScore == None
      ensures this.name == name && this.sid == sid && this.email == email && this.activeStudent == activeStudent
      ensures this.gradeStatus == gradeStatus && this.secret == secret && this.incomplete == incomplete
    {
      this.name := name;
      this.sid := sid;
      this.email := email;
      this.activeStudent := activeStudent;
      this.gradeStatus := gradeStatus;
      this.secret := secret;
      this.incomplete := incomplete;
      this.overrideScore := None;
      this.categoryData := [];
      this.extensionData := extensionData;
    }

    /**
     * `set_override_score(score)`: an int, a float or `None` is stored
     * (`None` switching the override off); anything else raises.
     */
    method SetOverrideScore(score: ScoreArg) returns (r: Outcome)
      modifies this
      ensures score.OtherScore? ==>
        r == Fail(ValueError("Score must be int, float, or None")) && overrideScore == old(overrideScore)
      ensures !score.OtherScore? ==> r == Pass && overrideScore == ScoreValue(score)
      ensures categoryData == old(categoryData) && extensionData == old(extensionData)
    {
      if score.OtherScore? {
        return Fail(ValueError("Score must be int, float, or None"));
      }
      overrideScore := ScoreValue(score);
      r := Pass;
    }

    /** `is_for_grade()`: graded for a letter and not incomplete. */
    function IsForGrade(): (b: bool)
      ensures b ==> gradeStatus == "GRD"
      ensures incomplete ==> !b
      ensures b <==> gradeStatus == "GRD" && !incomplete
    {
      gradeStatus == "GRD" && !incomplete
    }

    /**
     * `is_auth(sid, secret)`: the sid must match, and the secret too unless
     * the student has none.
     */
    function IsAuth(sid: string, secret: Option<string>): (ok: bool)
      ensures ok ==> sid == this.sid
      ensures this.secret.None? ==> (ok <==> sid == this.sid)
      ensures this.secret.Some? ==> (ok <==> sid == this.sid && secret == this.secret)
    {
      sid == this.sid && (this.secret == secret || this.secret.None?)
    }

    /** `add_category_data(data)`: stores `data` under its category's name. */
    method AddCategoryData(data: StudentCategoryData)
      requires Valid()
      modifies this
      ensures Valid()
      ensures categoryData == Put(old(categoryData), data.category.name, data)
      ensures extensionData == old(extensionData) && overrideScore == old(overrideScore)
    {
      categoryData := Put(categoryData, data.category.name, data);
    }

    /** `total_points(with_hidden, c)`: the override if set, else the categories' scores. */
    ghost function Total(withHidden: bool, ignore: set<string>): real
      reads this, Objects(categoryData)
    {
      if overrideScore.Some? then overrideScore.value else ScoresOf(categoryData, withHidden, ignore)
    }

    /**
     * `total_points(with_hidden, c)`: the override verbatim when set;
     * otherwise the sum of the categories' total scores, skipping the
     * categories the classroom ignores.
     */
    method TotalPoints(withHidden: bool, ignore: set<string>) returns (tp: real)
      ensures tp == Total(withHidden, ignore)
      ensures overrideScore.Some? ==> tp == overrideScore.value
      ensures overrideScore.None? ==> tp == ScoresOf(categoryData, withHidden, ignore)
    {
      if overrideScore.Some? {
        return overrideScore.value;
      }
      tp := 0.0;
      var i := 0;
      while i < |categoryData|
        invariant 0 <= i <= |categoryData|
        invariant tp == ScoresOf(categoryData[..i], withHidden, ignore)
      {
        var init := categoryData[..i + 1];
        assert init[..i] == categoryData[..i] && init[i] == categoryData[i];
        var d := categoryData[i].1;
        if d.category.name !in ignore {
          var s := d.GetTotalScore(withHidden, false);
          assert forall o :: o in Objects(init) ==> unchanged(o);
          tp := tp + s;
        }
        i := i + 1;
      }
      assert categoryData[..i] == categoryData;
    }

    /** `get_total_points_with_class(c, with_hidden)`. */
    method TotalPointsWithClass(v: ClassView, withHidden: bool) returns (p: real)
      ensures p == WithClass(Total(withHidden, v.ignore), v)
    {
      var tp := TotalPoints(withHidden, v.ignore);
      p := WithClass(tp, v);
    }

    /** The score a grade is computed from: the one given, else the total with the class bonus. */
    ghost function Score(v: ClassView, score: Option<real>, withHidden: bool): real
      reads this, Objects(categoryData)
    {
      if score.Some? then score.value else WithClass(Total(withHidden, v.ignore), v)
    }

    /** The student takes a pass/no-pass label: not graded, and a registered pass/no-pass status. */
    predicate PnpApplies(pnp: PnpRegistry, ignorePnp: bool)
      reads pnp
    {
      !ignorePnp && !IsForGrade() && HasKey(pnp.types, gradeStatus)
    }

    function PnpLabel(pnp: PnpRegistry, passed: bool): string
      reads pnp
      requires HasKey(pnp.types, gradeStatus)
    {
      var t := Get(pnp.types, gradeStatus).value;
      if passed then t.passValue else t.notPassValue
    }

    /** `get_grade`: "I", else a pass/no-pass label, else the id of the bin holding the score. */
    ghost function Grade(bins: GradeBinSet, pnp: PnpRegistry, v: ClassView, score: Option<real>,
                         withHidden: bool, ignorePnp: bool): Result<string>
      reads this, Objects(categoryData), bins, pnp
    {
      if incomplete then Ok("I") else GradeOf(bins, pnp, Score(v, score, withHidden), ignorePnp)
    }

    /** The grade of score `s` of a student who is not incomplete. */
    ghost function GradeOf(bins: GradeBinSet, pnp: PnpRegistry, s: real, ignorePnp: bool): Result<string>
      reads bins, pnp
    {
      if PnpApplies(pnp, ignorePnp) then
        match bins.IsPassing(s, Some(gradeStatus))
        case Err(e) => Err(e)
        case Ok(passed) => Ok(PnpLabel(pnp, passed))
      else BinId(FirstContaining(bins.bins, Some(s)))
    }

    /**
     * What a grade means: a pass/no-pass student's label follows whether
     * the score passes; anyone else's grade names a bin holding the score,
     * and there is an error exactly when no bin holds it.
     */
    lemma GradeLaws(bins: GradeBinSet, pnp: PnpRegistry, v: ClassView, score: Option<real>,
                    withHidden: bool, ignorePnp: bool)
      requires bins.Valid() && !incomplete
      ensures var r := Grade(bins, pnp, v, score, withHidden, ignorePnp);
        var s := Score(v, score, withHidden);
        PnpApplies(pnp, ignorePnp) ==>
          (r.Ok? <==> bins.IsPassing(s, Some(gradeStatus)).Ok?)
          && (r.Ok? ==> r.value == PnpLabel(pnp, bins.IsPassing(s, Some(gradeStatus)).value))
    {
    }

    lemma BinGradeLaws(bins: GradeBinSet, pnp: PnpRegistry, v: ClassView, score: Option<real>,
                       withHidden: bool, ignorePnp: bool)
      requires bins.Valid() && !incomplete && !PnpApplies(pnp, ignorePnp)
      ensures var r := Grade(bins, pnp, v, score, withHidden, ignorePnp);
        var s := Score(v, score, withHidden);
        (r.Ok? ==> exists i :: 0 <= i < |bins.bins| && bins.bins[i].1.id == r.value && InBin(bins.bins[i].1, Some(s)))
        && (r.Err? <==> forall i :: 0 <= i < |bins.bins| ==> !InBin(bins.bins[i].1, Some(s)))
    {
    }

    /**
     * `get_approx_grade_id`: "I", else the pass/no-pass label of the
     * rescaled score, else the id of the bin holding the rescaled score;
     * with no bins nothing is rescaled and no bin is found.
     */
    ghost function ApproxGrade(bins: GradeBinSet, pnp: PnpRegistry, v: ClassView, score: Option<real>,
                               withHidden: bool, ignorePnp: bool): Result<string>
      reads this, Objects(categoryData), bins, pnp
    {
      if incomplete then Ok("I")
      else if !PnpApplies(pnp, ignorePnp) && bins.normalMaxPoints.Some? && bins.bins == [] then BinId(None)
      else
        match bins.RelativeScore(Score(v, score, withHidden), v.inputtedPossible)
        case Err(e) => Err(e)
        case Ok(rel) =>
          if PnpApplies(pnp, ignorePnp) then
            match bins.IsPassing(rel, Some(gradeStatus))
            case Err(e) => Err(e)
            case Ok(passed) => Ok(PnpLabel(pnp, passed))
          else BinId(FirstContaining(bins.bins, Some(rel)))
    }

    /**
     * `get_grade(c, score, with_hidden, ignore_pnp)`: an incomplete student
     * gets "I"; a student not graded for a letter whose status is a
     * registered pass/no-pass type gets its pass or no-pass label; anyone
     * else gets the id of the first bin holding the score.
     */
    method GetGrade(bins: GradeBinSet, pnp: PnpRegistry, v: ClassView, score: Option<real>,
                    withHidden: bool, ignorePnp: bool) returns (r: Result<string>)
      requires bins.Valid()
      ensures r == Grade(bins, pnp, v, score, withHidden, ignorePnp)
      ensures incomplete ==> r == Ok("I")
    {
      if incomplete {
        return Ok("I");
      }
      var s: real;
      if score.Some? {
        s := score.value;
      } else {
        s := TotalPointsWithClass(v, withHidden);
      }
      ghost var total := Score(v, score, withHidden);
      assert s == total;
      if !ignorePnp && !IsForGrade() && HasKey(pnp.types, gradeStatus) {
        var passing := bins.IsPassing(s, Some(gradeStatus));
        if passing.Err? {
          return Err(passing.error);
        }
        r := Ok(PnpLabel(pnp, passing.value));
      } else {
        var b := bins.InBinLookup(Some(s));
        assert forall o :: o in Objects(categoryData) ==> unchanged(o);
        r := BinId(b);
      }
      assert r == GradeOf(bins, pnp, s, ignorePnp);
      assert total == Score(v, score, withHidden);
    }

    /**
     * `get_approx_grade_id(c, score, with_hidden, ignore_pnp)`: as
     * `get_grade`, on the score rescaled from the points entered so far;
     * the rescaling's errors pass through.
     */
    method GetApproxGradeId(bins: GradeBinSet, pnp: PnpRegistry, v: ClassView, score: Option<real>,
                            withHidden: bool, ignorePnp: bool) returns (r: Result<string>)
      requires bins.Valid()
      ensures r == ApproxGrade(bins, pnp, v, score, withHidden, ignorePnp)
      ensures incomplete ==> r == Ok("I")
      ensures !incomplete && bins.normalMaxPoints.None? ==> r.Err? && r.error.GradeBinsError?
      ensures !incomplete && bins.normalMaxPoints.Some? && bins.bins == [] && !PnpApplies(pnp, ignorePnp) ==>
        r.Err? && r.error.AttributeError?
      ensures (!incomplete && bins.normalMaxPoints.Some? && v.inputtedPossible == 0.0
               && (bins.bins != [] || PnpApplies(pnp, ignorePnp))) ==> r == Err(ZeroDivisionError)
    {
      if incomplete {
        return Ok("I");
      }
      var s: real;
      if score.Some? {
        s := score.value;
      } else {
        s := TotalPointsWithClass(v, withHidden);
      }
      var curMax := v.inputtedPossible;
      if !ignorePnp && !IsForGrade() && HasKey(pnp.types, gradeStatus) {
        var rel := bins.RelativeScore(s, curMax);
        if rel.Err? {
          return Err(rel.error);
        }
        var passing := bins.IsPassing(rel.value, Some(gradeStatus));
        if passing.Err? {
          return Err(passing.error);
        }
        r := Ok(PnpLabel(pnp, passing.value));
      } else {
        var b := bins.RelativeBin(s, curMax);
        assert forall o :: o in Objects(categoryData) ==> unchanged(o);
        if b.Err? {
          return Err(b.error);
        }
        r := BinId(b.value);
      }
    }

    /** The bin `get_approx_grade` names: the bin of the rescaled score with the class bonus. */
    ghost function OnTrackGrade(bins: GradeBinSet, v: ClassView): Result<string>
      reads this, Objects(categoryData), bins
    {
      if bins.normalMaxPoints.Some? && bins.bins == [] then BinId(None)
      else match bins.RelativeScore(WithClass(Total(false, v.ignore), v), v.inputtedPossible)
        case Err(e) => Err(e)
        case Ok(rel) => BinId(FirstContaining(bins.bins, Some(rel)))
    }

    /**
     * The grades `main_results_str` shows: always `get_grade(c)`, and, while
     * the classroom is not fully entered, also the grade the student is on
     * track for; `get_grade`'s exception is raised first, then the on-track
     * lookup's.
     */
    method Report(bins: GradeBinSet, pnp: PnpRegistry, v: ClassView, allInputted: bool) returns (r: Result<GradeReport>)
      requires bins.Valid()
      ensures r.Ok? ==> Grade(bins, pnp, v, None, false, false) == Ok(r.value.grade)
      ensures r.Ok? ==> (r.value.onTrack.None? <==> allInputted)
      ensures r.Ok? && !allInputted ==> OnTrackGrade(bins, v) == Ok(r.value.onTrack.value)
      ensures r.Err? <==> Grade(bins, pnp, v, None, false, false).Err? || (!allInputted && OnTrackGrade(bins, v).Err?)
      ensures Grade(bins, pnp, v, None, false, false).Err? ==> r == Err(Grade(bins, pnp, v, None, false, false).error)
      ensures Grade(bins, pnp, v, None, false, false).Ok? && !allInputted && OnTrackGrade(bins, v).Err? ==>
        r == Err(OnTrackGrade(bins, v).error)
    {
      var g := GetGrade(bins, pnp, v, None, false, false);
      if g.Err? {
        return Err(g.error);
      }
      if allInputted {
        return Ok(GradeReport(g.value, None));
      }
      var cur := TotalPointsWithClass(v, false);
      var b := bins.RelativeBin(cur, v.inputtedPossible);
      assert forall o :: o in Objects(categoryData) ==> unchanged(o);
      if b.Err? {
        return Err(b.error);
      }
      var id := BinId(b.value);
      if id.Err? {
        return Err(id.error);
      }
      r := Ok(GradeReport(g.value, Some(id.value)));
    }

    /**
     * `apply_extensions`: every category's records get the extensions
     * listed under its name, as `extension_time`.
     */
    method ApplyExtensions()
      requires Valid()
      modifies Cats()
      ensures forall k :: 0 <= k < |categoryData| ==>
        categoryData[k].1.records == ExtendTimes(old(categoryData[k].1.records), ExtsFor(extensionData, categoryData[k].0))
        && categoryData[k].1.overrideScore == old(categoryData[k].1.overrideScore)
    {
      DistinctObjects();
      var i := 0;
      while i < |extensionData|
        invariant 0 <= i <= |extensionData|
        invariant forall k :: 0 <= k < |categoryData| ==>
          categoryData[k].1.records == ExtendTimes(old(categoryData[k].1.records), ExtsFor(extensionData[..i], categoryData[k].0))
          && categoryData[k].1.overrideScore == old(categoryData[k].1.overrideScore)
      {
        var key := extensionData[i].0;
        forall k | 0 <= k < |categoryData|
          ensures ExtsFor(extensionData[..i + 1], categoryData[k].0) ==
            if key == categoryData[k].0 then extensionData[i].1 else ExtsFor(extensionData[..i], categoryData[k].0)
          ensures key == categoryData[k].0 ==> ExtsFor(extensionData[..i], categoryData[k].0) == []
        {
          ExtsForStep(extensionData, i, categoryData[k].0);
        }
        var c := Dicts.IndexOf(categoryData, key);
        if c.Some? {
          ExtendCategoryTimes(categoryData[c.value].1, extensionData[i].1);
        }
        i := i + 1;
      }
      assert extensionData[..i] == extensionData;
    }

    /**
     * `apply_slip_time`: every category in turn applies the ordered
     * strategy and validates it. The first validation error stops the
     * loop at category `stopped`: the categories before it are slipped and
     * valid, it is slipped and invalid, and the later ones are untouched.
     */
    method ApplySlipTime() returns (r: Outcome, ghost stopped: nat)
      requires Valid()
      modifies Cats()
      ensures stopped <= |categoryData| && (r.Pass? <==> stopped == |categoryData|)
      ensures forall k :: 0 <= k < stopped ==> SlippedValid(categoryData[k].1)
      ensures r.Fail? ==> SlippedWith(categoryData[stopped].1, r)
      ensures forall k :: stopped < k < |categoryData| ==> Untouched(categoryData[k].1)
    {
      DistinctObjects();
      r, stopped := SlipAll(categoryData);
    }

    /**
     * `drop_lowest_assignments`: every category in turn drops its lowest
     * records. The first error stops the loop at category `stopped`: the
     * categories before it dropped theirs, it raised (having dropped when
     * the only error was `min()` of nothing), and the later ones are
     * untouched.
     */
    method DropLowestAssignments() returns (r: Outcome, ghost stopped: nat)
      requires Valid()
      modifies Cats()
      ensures stopped <= |categoryData| && (r.Pass? <==> stopped == |categoryData|)
      ensures forall k :: 0 <= k < stopped ==> Dropped(categoryData[k].1)
      ensures r.Fail? ==> DroppedWith(categoryData[stopped].1, r)
      ensures forall k :: stopped < k < |categoryData| ==> Untouched(categoryData[k].1)
    {
      DistinctObjects();
      r, stopped := DropAll(categoryData);
    }
  }
}
