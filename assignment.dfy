/**
 * The root revision's assignments (assignment.py): the per-student score
 * table loaded from rows, the lookup that matches a student to a row, the
 * rank of a score, the possible points, and each record's late days and
 * course points.  Scores are exact reals, not floating point.
 */
module Assignments {
  import opened Wrappers
  import opened Dicts
  import opened Conversions

  /** `percentage`: `None`, `True` (an even share of the category), or a fraction. */
  datatype Percentage = NoPercentage | EvenShare | Fraction(f: real)

  /**
   * The configuration of an `Assignment`, with the two facts about its
   * category that `get_total_possible` reads: the category's `course_points`
   * and how many of its assignments have `percentage is True`.
   */
  datatype AssignmentConfig = AssignmentConfig(
    id: string,
    coursePoints: real,
    percentage: Percentage,
    latePenalty: real,
    allowedSlipDays: Option<int>,
    outOf: real,
    hidden: bool,
    additionalPoints: real,
    categoryCoursePoints: Option<real>,
    evenShareCount: nat)

  /**
   * `StudentAssignmentData`: one student's result on one assignment.
   * `extensionTime` is the attribute `Student.apply_extensions` sets; no
   * computation of this revision reads it.
   */
  datatype Record = Record(
    score: real,
    daysLate: int,
    name: Option<string>,
    sid: string,
    email: Option<string>,
    assignment: AssignmentConfig,
    slipDaysUsed: int,
    extensionDays: int,
    extensionTime: Option<int>,
    dataLoaded: bool,
    dataFound: bool)

  /** A row of the score table: its columns, `None` where absent. */
  datatype Row = Row(
    sid: string,
    name: Option<string>,
    email: Option<string>,
    score: Option<real>,
    lateness: Option<string>)

  /** An entry of the per-sid table: one record, or a list once a sid repeats. */
  datatype Entry = Single(record: Record) | Many(records: seq<Record>)

  /** `get_total_possible`. */
  function GetTotalPossible(a: AssignmentConfig): (r: Result<real>)
    ensures a.percentage.NoPercentage? ==> r == Ok(a.coursePoints)
    ensures a.percentage.EvenShare? && a.categoryCoursePoints.Some? && a.evenShareCount > 0 ==>
      r.Ok? && r.value * (a.evenShareCount as real) == a.categoryCoursePoints.value
    ensures a.percentage.Fraction? && a.categoryCoursePoints.Some? ==>
      r == Ok(a.categoryCoursePoints.value * a.percentage.f)
    ensures !a.percentage.NoPercentage? && a.categoryCoursePoints.None? ==> r.Err?
  {
    if a.percentage.NoPercentage? then Ok(a.coursePoints)
    else if a.categoryCoursePoints.None? then
      Err(TypeError("unsupported operand type(s) for NoneType"))
    else if a.percentage.Fraction? then Ok(a.categoryCoursePoints.value * a.percentage.f)
    else if a.evenShareCount == 0 then Err(ZeroDivisionError)
    else Ok(a.categoryCoursePoints.value / (a.evenShareCount as real))
  }

  /** Course points can be computed: the possible points exist and `out_of` is not 0. */
  predicate Scorable(a: AssignmentConfig) {
    GetTotalPossible(a).Ok? && a.outOf != 0.0
  }

  function Max0(x: int): nat {
    if x < 0 then 0 else x
  }

  /** `get_late_days`: the days late left after slip days and extension days. */
  function GetLateDays(r: Record): (d: nat)
    ensures d == 0 <==> r.daysLate <= r.slipDaysUsed + r.extensionDays
    ensures d > 0 ==> d == r.daysLate - r.slipDaysUsed - r.extensionDays
  {
    Max0(r.daysLate - r.slipDaysUsed - r.extensionDays)
  }

  function MinReal(x: real, y: real): real {
    if x <= y then x else y
  }

  /** The factor the late penalty leaves: `1 - min(late_days * late_penalty, 1)`. */
  function PenaltyFactor(lateDays: nat, latePenalty: real): real {
    1.0 - MinReal(lateDays as real * latePenalty, 1.0)
  }

  /** `get_course_points(with_additional_points, convert_to_course_points)`. */
  function GetCoursePoints(r: Record, withAdditionalPoints: bool, convertToCoursePoints: bool): real
    requires Scorable(r.assignment)
  {
    var penalty := PenaltyFactor(GetLateDays(r), r.assignment.latePenalty);
    var score := r.score + (if withAdditionalPoints then r.assignment.additionalPoints else 0.0);
    var scaled := if convertToCoursePoints
      then score * (GetTotalPossible(r.assignment).value / r.assignment.outOf)
      else score;
    penalty * scaled
  }

  /** `get_course_points()` with its default arguments. */
  function CoursePoints(r: Record): real
    requires Scorable(r.assignment)
  {
    GetCoursePoints(r, true, true)
  }

  /**
   * `get_course_points()` with the exceptions it raises: those of
   * `get_total_possible` first, then `ZeroDivisionError` for an `out_of` of 0.
   */
  function TryCoursePoints(r: Record): (res: Result<real>)
    ensures res.Ok? <==> Scorable(r.assignment)
    ensures res.Ok? ==> res.value == CoursePoints(r)
    ensures GetTotalPossible(r.assignment).Err? ==> res == Err(GetTotalPossible(r.assignment).error)
    ensures GetTotalPossible(r.assignment).Ok? && r.assignment.outOf == 0.0 ==> res == Err(ZeroDivisionError)
  {
    match GetTotalPossible(r.assignment)
    case Err(e) => Err(e)
    case Ok(_) => if r.assignment.outOf == 0.0 then Err(ZeroDivisionError) else Ok(CoursePoints(r))
  }

  /** The points before any late penalty. */
  function FullPoints(r: Record): real
    requires Scorable(r.assignment)
  {
    (r.score + r.assignment.additionalPoints) * (GetTotalPossible(r.assignment).value / r.assignment.outOf)
  }

  lemma ScaleBetween(p: real, x: real)
    requires 0.0 <= p <= 1.0 && x >= 0.0
    ensures 0.0 <= p * x <= x
  {
    assert x - p * x == (1.0 - p) * x;
  }

  /**
   * With no late days there is no penalty; once `late_days * late_penalty`
   * reaches 1 nothing is left; in between, for a non-negative penalty and
   * non-negative points, the result lies between 0 and the full points.
   */
  lemma {:induction false} CoursePointsLaws(r: Record)
    requires Scorable(r.assignment)
    ensures GetLateDays(r) == 0 ==> CoursePoints(r) == FullPoints(r)
    ensures GetLateDays(r) as real * r.assignment.latePenalty >= 1.0 ==> CoursePoints(r) == 0.0
    ensures r.assignment.latePenalty >= 0.0 && FullPoints(r) >= 0.0 ==>
      0.0 <= CoursePoints(r) <= FullPoints(r)
  {
    var p := PenaltyFactor(GetLateDays(r), r.assignment.latePenalty);
    var full := FullPoints(r);
    assert CoursePoints(r) == p * full;
    if GetLateDays(r) == 0 {
      assert p == 1.0;
    }
    if r.assignment.latePenalty >= 0.0 && full >= 0.0 {
      ScaleBetween(p, full);
    }
  }

  /**
   * Using one more slip day never lowers the course points, for a
   * non-negative penalty and non-negative points.
   */
  lemma {:induction false} SlipDayNeverHurts(r: Record)
    requires Scorable(r.assignment)
    requires r.assignment.latePenalty >= 0.0 && FullPoints(r) >= 0.0
    ensures CoursePoints(r) <= CoursePoints(r.(slipDaysUsed := r.slipDaysUsed + 1))
  {
    var r' := r.(slipDaysUsed := r.slipDaysUsed + 1);
    assert GetLateDays(r') <= GetLateDays(r);
    var lp := r.assignment.latePenalty;
    assert GetLateDays(r') as real * lp <= GetLateDays(r) as real * lp;
    assert PenaltyFactor(GetLateDays(r), lp) <= PenaltyFactor(GetLateDays(r'), lp);
    assert CoursePoints(r) == PenaltyFactor(GetLateDays(r), lp) * FullPoints(r);
    assert CoursePoints(r') == PenaltyFactor(GetLateDays(r'), lp) * FullPoints(r');
  }

  /** An assignment worth 100 points, 0.1 penalty per day, 3 days late, score 80: 56 points. */
  lemma ThreeDaysLateScenario()
    ensures var a := AssignmentConfig("hw", 100.0, NoPercentage, 0.1, None, 100.0, false, 0.0, None, 0);
      var r := Record(80.0, 3, None, "1", None, a, 0, 0, None, true, true);
      Scorable(a) && CoursePoints(r) == 56.0
  {
    var a := AssignmentConfig("hw", 100.0, NoPercentage, 0.1, None, 100.0, false, 0.0, None, 0);
    var r := Record(80.0, 3, None, "1", None, a, 0, 0, None, true, true);
    assert GetLateDays(r) == 3;
    assert PenaltyFactor(3, 0.1) == 0.7;
  }

  /** Python's `s.split(sep)` for a one-character separator. */
  function Split(s: string, sep: char): (parts: seq<string>)
    ensures |parts| >= 1
    ensures forall i :: 0 <= i < |parts| ==> sep !in parts[i]
  {
    if s == [] then [""]
    else
      var rest := Split(s[1..], sep);
      if s[0] == sep then [""] + rest
      else [[s[0]] + rest[0]] + rest[1..]
  }

  lemma {:induction false} SplitJoin(a: string, b: string, sep: char)
    requires sep !in a
    ensures Split(a + [sep] + b, sep) == [a] + Split(b, sep)
  {
    if a != [] {
      assert (a + [sep] + b)[1..] == a[1..] + [sep] + b;
      SplitJoin(a[1..], b, sep);
      var rest := Split(a[1..] + [sep] + b, sep);
      assert rest[0] == a[1..] && rest[1..] == Split(b, sep);
      assert [a[0]] + a[1..] == a;
    } else {
      assert (a + [sep] + b)[1..] == b;
    }
  }

  lemma {:induction false} SplitNoSep(a: string, sep: char)
    requires sep !in a
    ensures Split(a, sep) == [a]
  {
    if a != [] {
      SplitNoSep(a[1..], sep);
      assert [a[0]] + a[1..] == a;
    }
  }

  /** Python's `math.ceil(h / 24)` for an integer `h`. */
  function CeilDiv24(h: int): (q: int)
    ensures (q - 1) * 24 < h <= q * 24
  {
    -((-h) / 24)
  }

  /**
   * The days late of a "H:M:S" lateness: the hours are rounded up by one
   * when the minutes (themselves rounded up by one for positive seconds) are
   * positive, then divided by 24 and rounded up.
   */
  function DaysLateOf(hours: int, minutes: int, seconds: int): int {
    var m := if seconds > 0 then minutes + 1 else minutes;
    var h := if m > 0 then hours + 1 else hours;
    CeilDiv24(h)
  }

  /**
   * The lateness column of a row: 0 for anything but a string of three
   * ':'-separated parts; `ValueError` when such a part is not an integer.
   */
  function ParseLateness(lateness: Option<string>): Result<int> {
    if lateness.None? then Ok(0)
    else
      var parts := Split(lateness.value, ':');
      if |parts| != 3 then Ok(0)
      else
        var h, m, s := ParseInt(parts[0]), ParseInt(parts[1]), ParseInt(parts[2]);
        if h.None? || m.None? || s.None? then Err(ValueError("invalid literal for int() with base 10"))
        else Ok(DaysLateOf(h.value, m.value, s.value))
  }

  /** A lateness "H:M:S" written from integers parses back to its rounded-up days. */
  lemma {:induction false} ParseLatenessOfHms(h: int, m: int, s: int)
    ensures ParseLateness(Some(IntStr(h) + ":" + IntStr(m) + ":" + IntStr(s))) == Ok(DaysLateOf(h, m, s))
  {
    NoColonInIntStr(h);
    NoColonInIntStr(m);
    NoColonInIntStr(s);
    var text := IntStr(h) + ":" + IntStr(m) + ":" + IntStr(s);
    assert text == IntStr(h) + [':'] + (IntStr(m) + [':'] + IntStr(s));
    SplitJoin(IntStr(h), IntStr(m) + [':'] + IntStr(s), ':');
    SplitJoin(IntStr(m), IntStr(s), ':');
    SplitNoSep(IntStr(s), ':');
    IntStrRoundTrip(h);
    IntStrRoundTrip(m);
    IntStrRoundTrip(s);
  }

  lemma NoColonInIntStr(n: int)
    ensures ':' !in IntStr(n)
  {
    var s := IntStr(n);
    if n < 0 {
      assert forall i :: 1 <= i < |s| ==> IsDigit(s[i]) by {
        assert s[1..] == NatStr(-n);
      }
    }
  }

  /** Days late of a lateness that is not "H:M:S", and the rounding law. */
  lemma {:induction false} DaysLateLaws(hours: int, minutes: int, seconds: int, text: string)
    requires |Split(text, ':')| != 3
    ensures ParseLateness(None) == Ok(0) && ParseLateness(Some(text)) == Ok(0)
    ensures hours >= 0 && minutes >= 0 && seconds >= 0 ==>
      var h := hours + (if minutes > 0 || seconds > 0 then 1 else 0);
      (DaysLateOf(hours, minutes, seconds) - 1) * 24 < h <= DaysLateOf(hours, minutes, seconds) * 24
  {
  }

  /** The score of a row: a missing, unparseable or zero score is 0. */
  function RowScore(row: Row): (s: real)
    ensures row.score.None? ==> s == 0.0
    ensures row.score.Some? ==> s == row.score.value
  {
    if row.score.None? || row.score.value == 0.0 then 0.0 else row.score.value
  }

  /** The record `load_data` builds for a row whose lateness parsed to `daysLate`. */
  function RowRecord(row: Row, daysLate: int, a: AssignmentConfig): Record {
    Record(RowScore(row), daysLate, row.name, row.sid, row.email, a, 0, 0, None, true, true)
  }

  /**
   * How `load_data` files a record under its sid: the first record is kept
   * alone; a second one turns the entry into a list and, like every later
   * one, is appended twice.
   */
  function FileRecord(data: Dict<string, Entry>, sad: Record): Dict<string, Entry>
    requires DistinctKeys(data)
  {
    var dat := Get(data, sad.sid);
    if dat.None? then Put(data, sad.sid, Single(sad))
    else match dat.value
      case Single(d) => Put(data, sad.sid, Many([d, sad, sad]))
      case Many(l) => Put(data, sad.sid, Many(l + [sad, sad]))
  }

  /** The table and scores after loading `rows`, or the exception of the first bad row. */
  datatype Loaded = Loaded(data: Dict<string, Entry>, scores: seq<real>, failure: Option<Exception>)

  function LoadRows(data: Dict<string, Entry>, scores: seq<real>, rows: seq<Row>, a: AssignmentConfig): (l: Loaded)
    requires DistinctKeys(data)
    ensures DistinctKeys(l.data)
  {
    if rows == [] then Loaded(data, scores, None)
    else
      var prev := LoadRows(data, scores, rows[..|rows| - 1], a);
      if prev.failure.Some? then prev
      else
        var row := rows[|rows| - 1];
        match ParseLateness(row.lateness)
        case Err(e) => Loaded(prev.data, prev.scores, Some(e))
        case Ok(d) =>
          var sad := RowRecord(row, d, a);
          Loaded(FileRecord(prev.data, sad), prev.scores + [sad.score], None)
  }

  /** Number of rows with sid `sid`. */
  function CountSid(rows: seq<Row>, sid: string): nat {
    if rows == [] then 0
    else CountSid(rows[..|rows| - 1], sid) + (if rows[|rows| - 1].sid == sid then 1 else 0)
  }

  /** Index of the first row with sid `sid`. */
  function FirstRowOf(rows: seq<Row>, sid: string): (i: nat)
    requires CountSid(rows, sid) > 0
    ensures i < |rows| && rows[i].sid == sid
  {
    var init := rows[..|rows| - 1];
    if CountSid(init, sid) > 0 then FirstRowOf(init, sid) else |rows| - 1
  }

  predicate LatenessParses(rows: seq<Row>) {
    forall i :: 0 <= i < |rows| ==> ParseLateness(rows[i].lateness).Ok?
  }

  /** Loading appends every row's score, in row order. */
  lemma {:induction false} LoadRowsScores(data: Dict<string, Entry>, scores: seq<real>, rows: seq<Row>,
                                          a: AssignmentConfig)
    requires DistinctKeys(data) && LatenessParses(rows)
    ensures var l := LoadRows(data, scores, rows, a);
      && l.failure.None?
      && |l.scores| == |scores| + |rows|
      && l.scores[..|scores|] == scores
      && (forall i :: 0 <= i < |rows| ==> l.scores[|scores| + i] == RowScore(rows[i]))
  {
    if rows != [] {
      var init := rows[..|rows| - 1];
      LatenessParsesInit(rows);
      LoadRowsScores(data, scores, init, a);
      var prev := LoadRows(data, scores, init, a);
      var l := LoadRows(data, scores, rows, a);
      assert l.scores == prev.scores + [RowScore(rows[|rows| - 1])];
      forall i | 0 <= i < |rows| ensures l.scores[|scores| + i] == RowScore(rows[i]) {
        if i < |init| {
          assert init[i] == rows[i];
        }
      }
    }
  }

  lemma LatenessParsesInit(rows: seq<Row>)
    requires rows != [] && LatenessParses(rows)
    ensures LatenessParses(rows[..|rows| - 1]) && ParseLateness(rows[|rows| - 1].lateness).Ok?
  {
    var init := rows[..|rows| - 1];
    forall i | 0 <= i < |init| ensures ParseLateness(init[i].lateness).Ok? {
      assert init[i] == rows[i];
    }
  }

  /** The record a row is filed as. */
  function RecordOf(row: Row, a: AssignmentConfig): Record
    requires ParseLateness(row.lateness).Ok?
  {
    RowRecord(row, ParseLateness(row.lateness).value, a)
  }

  /**
   * For a sid not yet in the table, one row is filed alone, and n >= 2
   * rows give a list of 2n - 1 records that starts with the first row's
   * record and, when the last row has that sid, ends with its record twice.
   */
  lemma {:induction false} LoadRowsShape(data: Dict<string, Entry>, scores: seq<real>, rows: seq<Row>,
                                         a: AssignmentConfig, sid: string)
    requires DistinctKeys(data) && !HasKey(data, sid) && LatenessParses(rows)
    ensures var e := Get(LoadRows(data, scores, rows, a).data, sid);
      && (CountSid(rows, sid) == 0 <==> e.None?)
      && (CountSid(rows, sid) == 1 ==> e == Some(Single(RecordOf(rows[FirstRowOf(rows, sid)], a))))
      && (CountSid(rows, sid) >= 2 ==>
            && e.Some? && e.value.Many?
            && |e.value.records| == 2 * CountSid(rows, sid) - 1
            && e.value.records[0] == RecordOf(rows[FirstRowOf(rows, sid)], a)
            && (rows[|rows| - 1].sid == sid ==>
                  e.value.records[|e.value.records| - 1] == RecordOf(rows[|rows| - 1], a)
                  && e.value.records[|e.value.records| - 2] == RecordOf(rows[|rows| - 1], a)))
  {
    if rows != [] {
      var init := rows[..|rows| - 1];
      LatenessParsesInit(rows);
      LoadRowsShape(data, scores, init, a, sid);
      LoadRowsScores(data, scores, init, a);
      var prev := LoadRows(data, scores, init, a);
      var row := rows[|rows| - 1];
      var sad := RecordOf(row, a);
      assert LoadRows(data, scores, rows, a).data == FileRecord(prev.data, sad);
      if CountSid(init, sid) > 0 {
        assert FirstRowOf(rows, sid) == FirstRowOf(init, sid);
        assert rows[FirstRowOf(init, sid)] == init[FirstRowOf(init, sid)];
      }
      if row.sid != sid {
        FileRecordOther(prev.data, sad, sid);
      }
    }
  }

  lemma FileRecordOther(data: Dict<string, Entry>, sad: Record, sid: string)
    requires DistinctKeys(data) && sid != sad.sid
    ensures Get(FileRecord(data, sad), sid) == Get(data, sid)
  {
  }

  /** `Assignment`: its configuration, its per-sid table and the list of all scores. */
  class Assignment {
    const config: AssignmentConfig
    var data: Dict<string, Entry>
    var scores: seq<real>
    var dataLoaded: bool

    ghost predicate Valid()
      reads this
    {
      DistinctKeys(data)
    }

    /** A new assignment whose file or sheet was (`dataLoaded`) or was not read. */
    constructor (config: AssignmentConfig, dataLoaded: bool)
      ensures Valid() && this.config == config && this.dataLoaded == dataLoaded
      ensures data == [] && scores == []
    {
      this.config := config;
      this.dataLoaded := dataLoaded;
      data := [];
      scores := [];
    }

    /**
     * `load_data(rows)`: files each row's record under its sid and appends
     * its score; a lateness part that is not an integer raises `ValueError`
     * after the earlier rows were loaded.
     */
    method LoadData(rows: seq<Row>) returns (r: Outcome)
      requires Valid()
      modifies this
      ensures Valid() && dataLoaded == old(dataLoaded)
      ensures var l := LoadRows(old(data), old(scores), rows, config);
        data == l.data && scores == l.scores && (r.Fail? <==> l.failure.Some?)
    {
      var i := 0;
      while i < |rows|
        invariant 0 <= i <= |rows|
        invariant Valid() && dataLoaded == old(dataLoaded)
        invariant LoadRows(old(data), old(scores), rows[..i], config) == Loaded(data, scores, None)
      {
        var row := rows[i];
        assert rows[..i + 1][..i] == rows[..i];
        var daysLate := ParseLateness(row.lateness);
        if daysLate.Err? {
          LoadFailureSticks(old(data), old(scores), rows, config, i + 1);
          return Fail(daysLate.error);
        }
        var sad := RowRecord(row, daysLate.value, config);
        scores := scores + [sad.score];
        File(sad);
        i := i + 1;
      }
      assert rows[..i] == rows;
      r := Pass;
    }

    /**
     * The filing step of `load_data`: a new sid gets the record alone, an
     * existing one becomes or grows a list, and a list then gets the record
     * appended once more.
     */
    method File(sad: Record)
      requires Valid()
      modifies this
      ensures Valid() && data == FileRecord(old(data), sad)
      ensures scores == old(scores) && dataLoaded == old(dataLoaded)
    {
      var dat := Get(data, sad.sid);
      var entry: Entry;
      if dat.None? {
        entry := Single(sad);
      } else if dat.value.Many? {
        entry := Many(dat.value.records + [sad]);
      } else {
        entry := Many([dat.value.record, sad]);
      }
      ghost var before := data;
      data := Put(data, sad.sid, entry);
      var again := Get(data, sad.sid);
      assert again == Some(entry);
      if again.Some? && again.value.Many? {
        data := Put(data, sad.sid, Many(again.value.records + [sad]));
        PutTwice(before, sad.sid, entry, Many(entry.records + [sad]));
        if dat.value.Many? {
          assert entry.records + [sad] == dat.value.records + [sad, sad];
        } else {
          assert entry.records + [sad] == [dat.value.record, sad, sad];
        }
        assert data == Put(before, sad.sid, Many(entry.records + [sad]));
      } else {
        assert dat.None? && data == Put(before, sad.sid, Single(sad));
      }
    }

    /**
     * `get_student_data(student)`: a zero record marked not loaded when the
     * data was not loaded, a zero record marked not found for an unknown
     * sid, the stored record for a single entry, and for a list the first
     * record with the student's email, else the first with the student's
     * name, else the list itself.
     */
    function GetStudentData(name: string, sid: string, email: string): (r: Entry)
      reads this
      ensures !dataLoaded ==> r == Single(Record(0.0, 0, Some(name), sid, Some(email), config, 0, 0, None, false, true))
      ensures dataLoaded && Get(data, sid).None? ==>
        r == Single(Record(0.0, 0, Some(name), sid, Some(email), config, 0, 0, None, true, false))
      ensures dataLoaded && Get(data, sid).Some? && Get(data, sid).value.Single? ==> r == Get(data, sid).value
      ensures dataLoaded && Get(data, sid).Some? && Get(data, sid).value.Many? ==>
        var l := Get(data, sid).value.records;
        && ((exists i :: 0 <= i < |l| && l[i].email == Some(email)) ==>
              exists i :: 0 <= i < |l| && r == Single(l[i]) && l[i].email == Some(email)
                && forall j :: 0 <= j < i ==> l[j].email != Some(email))
        && ((forall j :: 0 <= j < |l| ==> l[j].email != Some(email)) && (exists i :: 0 <= i < |l| && l[i].name == Some(name)) ==>
              exists i :: 0 <= i < |l| && r == Single(l[i]) && l[i].name == Some(name)
                && forall j :: 0 <= j < i ==> l[j].name != Some(name))
        && (r.Many? <==> forall j :: 0 <= j < |l| ==> l[j].email != Some(email) && l[j].name != Some(name))
        && (r.Many? ==> r == Many(l))
    {
      if !dataLoaded then Single(Record(0.0, 0, Some(name), sid, Some(email), config, 0, 0, None, false, true))
      else if Get(data, sid).None? then Single(Record(0.0, 0, Some(name), sid, Some(email), config, 0, 0, None, true, false))
      else match Get(data, sid).value
        case Single(d) => Single(d)
        case Many(l) =>
          match FirstWithEmail(l, Some(email))
          case Some(i) => Single(l[i])
          case None =>
            match FirstWithName(l, Some(name))
            case Some(i) => Single(l[i])
            case None => Many(l)
    }

    /**
     * `get_rank(score)`: 1 plus the number of recorded scores strictly above
     * `score`.
     */
    method GetRank(score: real) returns (rank: nat)
      ensures rank == 1 + CountAbove(scores, score)
      ensures 1 <= rank <= |scores| + 1
    {
      rank := 1;
      var i := 0;
      while i < |scores|
        invariant 0 <= i <= |scores|
        invariant rank == 1 + CountAbove(scores[..i], score)
      {
        assert scores[..i + 1][..i] == scores[..i];
        if scores[i] > score {
          rank := rank + 1;
        }
        i := i + 1;
      }
      assert scores[..i] == scores;
    }
  }

  lemma {:induction false} LoadFailureSticks(data: Dict<string, Entry>, scores: seq<real>, rows: seq<Row>,
                                             a: AssignmentConfig, n: nat)
    requires DistinctKeys(data)
    requires n <= |rows| && LoadRows(data, scores, rows[..n], a).failure.Some?
    ensures LoadRows(data, scores, rows, a) == LoadRows(data, scores, rows[..n], a)
    decreases |rows| - n
  {
    if n < |rows| {
      assert rows[..n + 1][..n] == rows[..n];
      LoadFailureSticks(data, scores, rows, a, n + 1);
    } else {
      assert rows[..n] == rows;
    }
  }

  function FirstWithEmail(l: seq<Record>, email: Option<string>): (r: Option<nat>)
    ensures r.Some? ==> r.value < |l| && l[r.value].email == email
    ensures r.Some? ==> forall j :: 0 <= j < r.value ==> l[j].email != email
    ensures r.None? ==> forall j :: 0 <= j < |l| ==> l[j].email != email
  {
    if l == [] then None
    else if l[0].email == email then Some(0)
    else match FirstWithEmail(l[1..], email)
      case None => None
      case Some(j) => Some(j + 1)
  }

  function FirstWithName(l: seq<Record>, name: Option<string>): (r: Option<nat>)
    ensures r.Some? ==> r.value < |l| && l[r.value].name == name
    ensures r.Some? ==> forall j :: 0 <= j < r.value ==> l[j].name != name
    ensures r.None? ==> forall j :: 0 <= j < |l| ==> l[j].name != name
  {
    if l == [] then None
    else if l[0].name == name then Some(0)
    else match FirstWithName(l[1..], name)
      case None => None
      case Some(j) => Some(j + 1)
  }

  /** How many of `scores` are strictly above `x`. */
  function CountAbove(scores: seq<real>, x: real): (n: nat)
    ensures n <= |scores|
  {
    if scores == [] then 0
    else CountAbove(scores[..|scores| - 1], x) + (if scores[|scores| - 1] > x then 1 else 0)
  }

  /** A higher score never gets a worse (larger) rank. */
  lemma {:induction false} RankMonotone(scores: seq<real>, x: real, y: real)
    requires x <= y
    ensures CountAbove(scores, y) <= CountAbove(scores, x)
  {
    if scores != [] {
      RankMonotone(scores[..|scores| - 1], x, y);
    }
  }

  /** The best score is ranked first and a score below all others last. */
  lemma {:induction false} RankExtremes(scores: seq<real>, x: real)
    ensures (forall i :: 0 <= i < |scores| ==> scores[i] <= x) ==> CountAbove(scores, x) == 0
    ensures (forall i :: 0 <= i < |scores| ==> scores[i] > x) ==> CountAbove(scores, x) == |scores|
  {
    if scores != [] {
      RankExtremes(scores[..|scores| - 1], x);
    }
  }
}
