/**
 * The root revision's students (student.py): a student's records by
 * category, authentication, total points, the exact and the approximate
 * grade, extensions and slip days.
 *
 * `apply_extensions` as written stores an extension in the record's
 * `extension_time`, while `get_late_days` subtracts `extension_days`; the
 * model keeps the written behaviour (`ExtendRecordsAsWritten`) beside the
 * evidently intended one (`ExtendRecords`), which the `Student` class uses.
 */
module StudentsV1 {
  import opened Wrappers
  import opened Dicts
  import opened Assignments
  import opened CategoriesV1
  import opened GradeBins
  import opened ExtensionData

  /**
   * The intended effect of one category's extensions: in order, each
   * assignment id's first record gets the extension as extension days.
   */
  function ExtendRecords(recs: seq<Record>, exts: Dict<string, int>): (r: seq<Record>)
    ensures |r| == |recs|
    decreases |exts|
  {
    if exts == [] then recs
    else match GetAssignmentData(recs, exts[0].0)
      case None => ExtendRecords(recs, exts[1..])
      case Some(j) => ExtendRecords(recs[j := recs[j].(extensionDays := exts[0].1)], exts[1..])
  }

  /** The same loop as written: the extension lands in `extension_time`. */
  function ExtendRecordsAsWritten(recs: seq<Record>, exts: Dict<string, int>): (r: seq<Record>)
    ensures |r| == |recs|
    decreases |exts|
  {
    if exts == [] then recs
    else match GetAssignmentData(recs, exts[0].0)
      case None => ExtendRecordsAsWritten(recs, exts[1..])
      case Some(j) => ExtendRecordsAsWritten(recs[j := recs[j].(extensionTime := Some(exts[0].1))], exts[1..])
  }

  /** Records with the same assignment ids give the same lookups. */
  lemma {:induction false} SameIdsSameLookup(recs: seq<Record>, recs': seq<Record>, id: string)
    requires |recs| == |recs'|
    requires forall j :: 0 <= j < |recs| ==> recs[j].assignment.id == recs'[j].assignment.id
    ensures GetAssignmentData(recs', id) == GetAssignmentData(recs, id)
  {
    if recs != [] {
      SameIdsSameLookup(recs[1..], recs'[1..], id);
    }
  }

  /**
   * The intended extensions, record by record: a record that is the first
   * of its assignment id, with an extension listed for that id, gets the
   * extension as its extension days; every other record is unchanged.
   */
  lemma {:induction false} ExtendRecordsAt(recs: seq<Record>, exts: Dict<string, int>, p: nat)
    requires DistinctKeys(exts) && p < |recs|
    ensures var id := recs[p].assignment.id;
      ExtendRecords(recs, exts)[p] ==
        if GetAssignmentData(recs, id) == Some(p) && HasKey(exts, id)
        then recs[p].(extensionDays := Get(exts, id).value)
        else recs[p]
    decreases |exts|
  {
    if exts != [] {
      var id := recs[p].assignment.id;
      var k := exts[0].0;
      GetTail(exts, id);
      assert DistinctKeys(exts[1..]);
      match GetAssignmentData(recs, k)
      case None =>
        ExtendRecordsAt(recs, exts[1..], p);
      case Some(j) =>
        var recs' := recs[j := recs[j].(extensionDays := exts[0].1)];
        SameIdsSameLookup(recs, recs', id);
        ExtendRecordsAt(recs', exts[1..], p);
    }
  }

  /**
   * With the intended extensions, the first record of an assignment with an
   * extension of `e` days counts `e` fewer late days, down to 0.
   */
  lemma ExtendedLateDays(recs: seq<Record>, exts: Dict<string, int>, p: nat)
    requires DistinctKeys(exts) && p < |recs|
    requires GetAssignmentData(recs, recs[p].assignment.id) == Some(p)
    requires HasKey(exts, recs[p].assignment.id)
    ensures GetLateDays(ExtendRecords(recs, exts)[p]) ==
      Max0(recs[p].daysLate - recs[p].slipDaysUsed - Get(exts, recs[p].assignment.id).value)
  {
    ExtendRecordsAt(recs, exts, p);
  }

  /** As written, extensions change nothing but `extension_time`, so no late days and no points. */
  lemma {:induction false} AsWrittenKeepsLateDays(recs: seq<Record>, exts: Dict<string, int>)
    ensures forall p :: 0 <= p < |recs| ==>
      ExtendRecordsAsWritten(recs, exts)[p] == recs[p].(extensionTime := ExtendRecordsAsWritten(recs, exts)[p].extensionTime)
    ensures forall p :: 0 <= p < |recs| ==> GetLateDays(ExtendRecordsAsWritten(recs, exts)[p]) == GetLateDays(recs[p])
    decreases |exts|
  {
    if exts != [] {
      match GetAssignmentData(recs, exts[0].0)
      case None =>
        AsWrittenKeepsLateDays(recs, exts[1..]);
      case Some(j) =>
        var recs' := recs[j := recs[j].(extensionTime := Some(exts[0].1))];
        AsWrittenKeepsLateDays(recs', exts[1..]);
    }
  }

  /**
   * A record two days late of assignment "hw", with a two-day extension for
   * "hw": as written it still counts two late days; as intended, none.
   */
  lemma ExtensionIgnoredExample()
    ensures var a := AssignmentConfig("hw", 10.0, NoPercentage, 0.1, None, 10.0, false, 0.0, None, 0);
      var rec := Record(10.0, 2, None, "1", None, a, 0, 0, None, true, true);
      GetLateDays(ExtendRecordsAsWritten([rec], [("hw", 2)])[0]) == 2
      && GetLateDays(ExtendRecords([rec], [("hw", 2)])[0]) == 0
  {
    var a := AssignmentConfig("hw", 10.0, NoPercentage, 0.1, None, 10.0, false, 0.0, None, 0);
    var rec := Record(10.0, 2, None, "1", None, a, 0, 0, None, true, true);
    assert GetAssignmentData([rec], "hw") == Some(0);
    assert [("hw", 2)][1..] == [];
    AsWrittenKeepsLateDays([rec], [("hw", 2)]);
  }

  /** The records of `c` after `apply_slip_days`. */
  function Slipped(c: Category, recs: seq<Record>): seq<Record> {
    if c.maxSlipDays.None? then recs else Ordered(c.assignments, recs, c.maxSlipDays.value).0
  }

  /** The bin's id, or the `AttributeError` that `None.id` raises. */
  function BinId(b: Option<Bin>): Result<string> {
    match b
    case None => Err(AttributeError("'NoneType' object has no attribute 'id'"))
    case Some(b) => Ok(b.id)
  }

  /** The set of category records of a dictionary. */
  ghost function Objects(cd: Dict<string, StudentCategoryData>): set<StudentCategoryData> {
    set i | 0 <= i < |cd| :: cd[i].1
  }

  /** Every category's counted records can be scored. */
  ghost predicate AllCategoriesScorable(cd: Dict<string, StudentCategoryData>, withHidden: bool)
    reads Objects(cd)
  {
    forall i :: 0 <= i < |cd| ==> AllScorable(cd[i].1.records, withHidden)
  }

  /** The sum of the categories' total scores, in order. */
  ghost function ScoresOf(cd: Dict<string, StudentCategoryData>, withHidden: bool): real
    reads Objects(cd)
    requires AllCategoriesScorable(cd, withHidden)
  {
    if cd == [] then 0.0
    else
      var init := cd[..|cd| - 1];
      assert forall i :: 0 <= i < |init| ==> init[i] == cd[i];
      ScoresOf(init, withHidden) + TotalScore(cd[|cd| - 1].1.records, withHidden)
  }

  /**
   * `total_points(with_hidden)` with the exception it raises: that of the
   * first category whose total score raises, else the sum.
   */
  ghost function TryScores(cd: Dict<string, StudentCategoryData>, withHidden: bool): Result<real>
    reads Objects(cd)
  {
    if cd == [] then Ok(0.0)
    else
      var init := cd[..|cd| - 1];
      assert forall i :: 0 <= i < |init| ==> init[i] == cd[i];
      var prev := TryScores(init, withHidden);
      if prev.Err? then prev
      else match TryTotalScore(cd[|cd| - 1].1.records, withHidden)
        case Err(e) => Err(e)
        case Ok(v) => Ok(prev.value + v)
  }

  /** `total_points` returns exactly when every category can be scored, and then the sum. */
  lemma {:induction false} TryScoresOk(cd: Dict<string, StudentCategoryData>, withHidden: bool)
    ensures TryScores(cd, withHidden).Ok? <==> AllCategoriesScorable(cd, withHidden)
    ensures TryScores(cd, withHidden).Ok? ==> TryScores(cd, withHidden).value == ScoresOf(cd, withHidden)
  {
    if cd != [] {
      var init := cd[..|cd| - 1];
      assert forall i :: 0 <= i < |init| ==> init[i] == cd[i];
      TryScoresOk(init, withHidden);
      TryTotalScoreOk(cd[|cd| - 1].1.records, withHidden);
    }
  }

  /** The exception `total_points` raises is that of the first category that raises. */
  lemma {:induction false} TryScoresFirstError(cd: Dict<string, StudentCategoryData>, withHidden: bool)
    requires TryScores(cd, withHidden).Err?
    ensures exists i :: 0 <= i < |cd| && TryScores(cd, withHidden) == TryTotalScore(cd[i].1.records, withHidden)
                        && AllCategoriesScorable(cd[..i], withHidden)
  {
    var init := cd[..|cd| - 1];
    assert forall i :: 0 <= i < |init| ==> init[i] == cd[i];
    if TryScores(init, withHidden).Err? {
      TryScoresFirstError(init, withHidden);
      var i :| 0 <= i < |init| && TryScores(init, withHidden) == TryTotalScore(init[i].1.records, withHidden)
                && AllCategoriesScorable(init[..i], withHidden);
      assert init[..i] == cd[..i];
    } else {
      assert cd[..|cd| - 1] == init;
      TryScoresOk(init, withHidden);
    }
  }

  lemma {:induction false} TryScoresErrSticks(cd: Dict<string, StudentCategoryData>, withHidden: bool, n: nat)
    requires n <= |cd| && TryScores(cd[..n], withHidden).Err?
    ensures TryScores(cd, withHidden) == TryScores(cd[..n], withHidden)
    decreases |cd| - n
  {
    if n < |cd| {
      assert cd[..n + 1][..n] == cd[..n];
      TryScoresErrSticks(cd, withHidden, n + 1);
    } else {
      assert cd[..n] == cd;
    }
  }

  /** One more category in the sum: its exception, or its total added. */
  lemma TryScoresStep(cd: Dict<string, StudentCategoryData>, i: nat, withHidden: bool)
    requires i < |cd| && TryScores(cd[..i], withHidden).Ok?
    ensures TryScores(cd[..i + 1], withHidden) ==
      match TryTotalScore(cd[i].1.records, withHidden)
      case Err(e) => Err(e)
      case Ok(v) => Ok(TryScores(cd[..i], withHidden).value + v)
  {
    assert cd[..i + 1][..i] == cd[..i];
  }

  /** The sum of the categories' hidden records' points. */
  ghost function HiddenOf(cd: Dict<string, StudentCategoryData>): real
    reads Objects(cd)
    requires AllCategoriesScorable(cd, true)
  {
    if cd == [] then 0.0
    else
      var init := cd[..|cd| - 1];
      assert forall i :: 0 <= i < |init| ==> init[i] == cd[i];
      HiddenOf(init) + HiddenScore(cd[|cd| - 1].1.records)
  }

  /** The total with hidden records is the visible total plus the hidden records' points. */
  lemma {:induction false} ScoresOfHidden(cd: Dict<string, StudentCategoryData>)
    requires AllCategoriesScorable(cd, true)
    ensures AllCategoriesScorable(cd, false)
    ensures ScoresOf(cd, true) == ScoresOf(cd, false) + HiddenOf(cd)
  {
    if cd != [] {
      var init := cd[..|cd| - 1];
      assert forall i :: 0 <= i < |init| ==> init[i] == cd[i];
      ScoresOfHidden(init);
      TotalScoreHidden(cd[|cd| - 1].1.records);
    }
  }

  /** `main_results_str`'s grade: the exact grade, or the grade the student is on track for. */
  datatype GradeInfo = Exact(id: string) | OnTrack(id: string, pointsEntered: real)

  /**
   * One `apply_extensions` inner loop: each listed assignment id's first
   * record gets the extension.
   */
  method ExtendCategory(cat: StudentCategoryData, exts: Dict<string, int>)
    modifies cat
    ensures cat.records == ExtendRecords(old(cat.records), exts)
  {
    ghost var goal := ExtendRecords(cat.records, exts);
    var j := 0;
    while j < |exts|
      invariant 0 <= j <= |exts|
      invariant ExtendRecords(cat.records, exts[j..]) == goal
    {
      assert exts[j..][1..] == exts[j + 1..];
      var a := cat.FindAssignmentData(exts[j].0);
      if a.Some? {
        cat.records := cat.records[a.value := cat.records[a.value].(extensionDays := exts[j].1)];
      }
      j := j + 1;
    }
  }

  class Student {
    const name: string
    const sid: string
    const email: string
    const activeStudent: bool
    const secret: Option<string>
    var categoryData: Dict<string, StudentCategoryData>
    var extensionData: Extensions

    /** Categories are keyed by their own names, and extension keys are unique. */
    ghost predicate Valid()
      reads this
    {
      DistinctKeys(categoryData) && ValidExtensions(extensionData)
      && (forall i :: 0 <= i < |categoryData| ==> categoryData[i].1.category.name == categoryData[i].0)
    }

    ghost function Cats(): set<StudentCategoryData>
      reads this
    {
      Objects(categoryData)
    }

    /** Different keys hold different category objects. */
    lemma DistinctObjects()
      requires Valid()
      ensures forall i, j :: 0 <= i < |categoryData| && 0 <= j < |categoryData| && i != j ==>
        categoryData[i].1 != categoryData[j].1
    {
    }

    /** A student with no category records yet; missing extensions become `{}`. */
    constructor (name: string, sid: string, email: string, activeStudent: bool,
                 extensionData: Extensions, secret: Option<string>)
      requires ValidExtensions(extensionData)
      ensures Valid() && categoryData == [] && this.extensionData == extensionData
      ensures this.name == name && this.sid == sid && this.email == email
      ensures this.activeStudent == activeStudent && this.secret == secret
    {
      this.name := name;
      this.sid := sid;
      this.email := email;
      this.activeStudent := activeStudent;
      this.secret := secret;
      this.categoryData := [];
      this.extensionData := extensionData;
    }

    /**
     * `is_auth(sid, secret)`: the sid must match, and the secret too unless
     * the student has none.
     */
    function IsAuth(sid: string, secret: Option<string>): (ok: bool)
      ensures ok ==> sid == this.sid
      ensures this.secret.None? ==> (ok <==> sid == this.sid)
      ensures this.secret.Some? ==> (ok <==> sid == this.sid && secret == this.secret)
    {
      sid == this.sid && (this.secret == secret || this.secret.None?)
    }

    /** `add_category_data(data)`: stores `data` under its category's name. */
    method AddCategoryData(data: StudentCategoryData)
      requires Valid()
      modifies this
      ensures Valid()
      ensures categoryData == Put(old(categoryData), data.category.name, data)
      ensures extensionData == old(extensionData)
    {
      categoryData := Put(categoryData, data.category.name, data);
    }

    /**
     * `total_points(with_hidden)`: the sum of the categories' total scores,
     * or the exception of the first one that raises.
     */
    method TotalPoints(withHidden: bool) returns (r: Result<real>)
      ensures r == TryScores(categoryData, withHidden)
    {
      var tp := 0.0;
      var i := 0;
      while i < |categoryData|
        invariant 0 <= i <= |categoryData|
        invariant TryScores(categoryData[..i], withHidden) == Ok(tp)
      {
        TryScoresStep(categoryData, i, withHidden);
        ghost var next := TryScores(categoryData[..i + 1], withHidden);
        ghost var objs := Objects(categoryData[..i + 1]);
        var s := categoryData[i].1.GetTotalScore(withHidden);
        assert forall o :: o in objs ==> unchanged(o);
        if s.Err? {
          TryScoresErrSticks(categoryData, withHidden, i + 1);
          return Err(s.error);
        }
        tp := tp + s.value;
        assert Ok(tp) == next;
        i := i + 1;
      }
      assert categoryData[..i] == categoryData;
      r := Ok(tp);
    }

    /**
     * The grade of the visible total: the id of the first bin holding it;
     * the total's exception comes first.
     */
    ghost function Grade(bins: GradeBinSet): Result<string>
      reads this, Objects(categoryData), bins
    {
      match TryScores(categoryData, false)
      case Err(e) => Err(e)
      case Ok(t) => BinId(FirstContaining(bins.bins, Some(t)))
    }

    /**
     * The grade of the visible total rescaled from `curMax` (the classroom's
     * `get_total_possible(only_inputted=True)`) onto the bins' maximum: the
     * total's exception comes first, then that of `curMax`; with no bins
     * nothing is rescaled and no bin is found.
     */
    ghost function ApproxGrade(bins: GradeBinSet, curMax: Result<real>): Result<string>
      reads this, Objects(categoryData), bins
    {
      match TryScores(categoryData, false)
      case Err(e) => Err(e)
      case Ok(t) =>
        match curMax
        case Err(e) => Err(e)
        case Ok(m) =>
          if bins.normalMaxPoints.Some? && bins.bins == [] then BinId(None)
          else match bins.RelativeScore(t, m)
            case Err(e) => Err(e)
            case Ok(v) => BinId(FirstContaining(bins.bins, Some(v)))
    }

    /**
     * `get_grade(grade_bins)`: the id of a bin that holds the visible total,
     * the first one; `AttributeError` when no bin holds it; the exception of
     * a record that cannot be scored before either.
     */
    method GetGrade(bins: GradeBinSet) returns (r: Result<string>)
      requires bins.Valid()
      ensures r == Grade(bins)
      ensures !AllCategoriesScorable(categoryData, false) ==>
        TryScores(categoryData, false).Err? && r == Err(TryScores(categoryData, false).error)
      ensures r.Ok? ==>
        AllCategoriesScorable(categoryData, false)
        && exists i :: 0 <= i < |bins.bins| && bins.bins[i].1.id == r.value
                       && InBin(bins.bins[i].1, Some(ScoresOf(categoryData, false)))
      ensures AllCategoriesScorable(categoryData, false) ==>
        (r.Err? <==> forall i :: 0 <= i < |bins.bins| ==> !InBin(bins.bins[i].1, Some(ScoresOf(categoryData, false))))
    {
      var tp := TotalPoints(false);
      TryScoresOk(categoryData, false);
      if tp.Err? {
        return Err(tp.error);
      }
      var b := bins.InBinLookup(Some(tp.value));
      assert forall o :: o in Objects(categoryData) ==> unchanged(o);
      r := BinId(b);
    }

    /**
     * `get_approx_grade_id(c)`: the bin of the visible total rescaled from
     * the points entered so far (`curMax`, the classroom's
     * `get_total_possible(only_inputted=True)`); the exceptions of the
     * total, of `curMax` and of the rescaling pass through, in that order.
     */
    method GetApproxGradeId(bins: GradeBinSet, curMax: Result<real>) returns (r: Result<string>)
      requires bins.Valid()
      ensures r == ApproxGrade(bins, curMax)
      ensures !AllCategoriesScorable(categoryData, false) ==>
        TryScores(categoryData, false).Err? && r == Err(TryScores(categoryData, false).error)
      ensures AllCategoriesScorable(categoryData, false) && curMax.Err? ==> r == Err(curMax.error)
      ensures AllCategoriesScorable(categoryData, false) && curMax.Ok? && bins.normalMaxPoints.None? ==>
        r.Err? && r.error.GradeBinsError?
      ensures AllCategoriesScorable(categoryData, false) && curMax.Ok? && bins.normalMaxPoints.Some? && bins.bins == [] ==>
        r.Err? && r.error.AttributeError?
      ensures (AllCategoriesScorable(categoryData, false) && bins.normalMaxPoints.Some? && bins.bins != []
               && curMax == Ok(0.0)) ==> r == Err(ZeroDivisionError)
      ensures r.Ok? ==>
        AllCategoriesScorable(categoryData, false) && curMax.Ok?
        && var rel := bins.RelativeScore(ScoresOf(categoryData, false), curMax.value);
        rel.Ok? && exists i :: 0 <= i < |bins.bins| && bins.bins[i].1.id == r.value && InBin(bins.bins[i].1, Some(rel.value))
    {
      var tp := TotalPoints(false);
      TryScoresOk(categoryData, false);
      if tp.Err? {
        return Err(tp.error);
      }
      if curMax.Err? {
        return Err(curMax.error);
      }
      var b := bins.RelativeBin(tp.value, curMax.value);
      assert forall o :: o in Objects(categoryData) ==> unchanged(o);
      if b.Err? {
        return Err(b.error);
      }
      r := BinId(b.value);
    }

    /**
     * The grade `main_results_str` shows: the exact grade once every
     * category is fully entered, else the grade the student is on track for
     * with the points entered so far (`curMax`); the chosen lookup's
     * exception passes through.
     */
    method GradeLine(bins: GradeBinSet, allInputted: bool, curMax: Result<real>) returns (r: Result<GradeInfo>)
      requires bins.Valid()
      ensures r.Ok? ==> (r.value.Exact? <==> allInputted)
      ensures allInputted ==>
        r == match Grade(bins) case Ok(g) => Ok(Exact(g)) case Err(e) => Err(e)
      ensures !allInputted && ApproxGrade(bins, curMax).Err? ==> r == Err(ApproxGrade(bins, curMax).error)
      ensures !allInputted && ApproxGrade(bins, curMax).Ok? ==>
        curMax.Ok? && r == Ok(OnTrack(ApproxGrade(bins, curMax).value, curMax.value))
    {
      if allInputted {
        var g := GetGrade(bins);
        if g.Err? {
          return Err(g.error);
        }
        r := Ok(Exact(g.value));
      } else {
        var g := GetApproxGradeId(bins, curMax);
        if g.Err? {
          return Err(g.error);
        }
        r := Ok(OnTrack(g.value, curMax.value));
      }
    }

    /**
     * `apply_extensions`, with the extension days the late-day count reads:
     * every category's records get the extensions listed under its name.
     */
    method ApplyExtensions()
      requires Valid()
      modifies Cats()
      ensures forall k :: 0 <= k < |categoryData| ==>
        categoryData[k].1.records == ExtendRecords(old(categoryData[k].1.records), ExtsFor(extensionData, categoryData[k].0))
    {
      DistinctObjects();
      var i := 0;
      while i < |extensionData|
        invariant 0 <= i <= |extensionData|
        invariant forall k :: 0 <= k < |categoryData| ==>
          categoryData[k].1.records == ExtendRecords(old(categoryData[k].1.records), ExtsFor(extensionData[..i], categoryData[k].0))
      {
        var key := extensionData[i].0;
        forall k | 0 <= k < |categoryData|
          ensures ExtsFor(extensionData[..i + 1], categoryData[k].0) ==
            if key == categoryData[k].0 then extensionData[i].1 else ExtsFor(extensionData[..i], categoryData[k].0)
          ensures key == categoryData[k].0 ==> ExtsFor(extensionData[..i], categoryData[k].0) == []
        {
          ExtsForStep(extensionData, i, categoryData[k].0);
        }
        var c := IndexOf(categoryData, key);
        if c.Some? {
          ExtendCategory(categoryData[c.value].1, extensionData[i].1);
        }
        i := i + 1;
      }
      assert extensionData[..i] == extensionData;
    }

    /** `apply_slip_days`: every category applies its greedy slip-day allocation. */
    method ApplySlipDays()
      requires Valid()
      modifies Cats()
      ensures forall k :: 0 <= k < |categoryData| ==>
        categoryData[k].1.records == Slipped(categoryData[k].1.category, old(categoryData[k].1.records))
    {
      DistinctObjects();
      var i := 0;
      while i < |categoryData|
        invariant 0 <= i <= |categoryData|
        invariant forall k :: 0 <= k < i ==>
          categoryData[k].1.records == Slipped(categoryData[k].1.category, old(categoryData[k].1.records))
        invariant forall k :: i <= k < |categoryData| ==> categoryData[k].1.records == old(categoryData[k].1.records)
      {
        categoryData[i].1.ApplySlipDays();
        i := i + 1;
      }
    }
  }
}
