/**
 * The classroom (classroom.py): the registries of students and categories,
 * the class-wide possible points and "all entered" check, the merge of
 * extensions fetched for the whole class into the students' own, and the
 * processing order: extensions, then slip days.
 *
 * Its categories take the form whose `get_total_possible` accepts
 * `only_inputted` and which has `all_inputted` (the newer `Category`); its
 * students are the root revision's, whose `apply_slip_days` it calls.
 */
module Classrooms {
  import opened Wrappers
  import opened Dicts
  import opened ExtensionData
  import Categories
  import CategoriesV1
  import GradeBins
  import StudentsV1

  /** `get_student`'s loop: the position of the first student with `sid`. */
  function FindSid(students: seq<StudentsV1.Student>, sid: string): (r: Option<nat>)
    ensures r.Some? ==> r.value < |students| && students[r.value].sid == sid
    ensures r.Some? ==> forall j :: 0 <= j < r.value ==> students[j].sid != sid
    ensures r.None? <==> forall j :: 0 <= j < |students| ==> students[j].sid != sid
  {
    if students == [] then None
    else if students[0].sid == sid then Some(0)
    else match FindSid(students[1..], sid)
      case None => None
      case Some(j) => Some(j + 1)
  }

  /** `list.remove(x)` guarded by `x in list`: drops the first occurrence, if any. */
  function RemoveFirst<T(==)>(xs: seq<T>, x: T): (r: seq<T>)
    ensures x !in xs ==> r == xs
    ensures x in xs ==> |r| == |xs| - 1
    ensures multiset(r) == multiset(xs) - multiset{x}
  {
    if xs == [] then []
    else if xs[0] == x then
      assert xs == [xs[0]] + xs[1..];
      xs[1..]
    else
      assert xs == [xs[0]] + xs[1..];
      [xs[0]] + RemoveFirst(xs[1..], x)
  }

  /** Removing a student keeps the others valid, distinct and with disjoint records. */
  lemma RemoveFirstKeepsApart(xs: seq<StudentsV1.Student>, s: StudentsV1.Student)
    requires s in xs
    requires forall i :: 0 <= i < |xs| ==> xs[i].Valid()
    requires forall i, j :: 0 <= i < j < |xs| ==> xs[i] != xs[j] && xs[i].Cats() !! xs[j].Cats()
    ensures var r := RemoveFirst(xs, s);
      (forall i :: 0 <= i < |r| ==> r[i].Valid())
      && (forall i, j :: 0 <= i < j < |r| ==> r[i] != r[j] && r[i].Cats() !! r[j].Cats())
  {
    var k := RemoveFirstShape(xs, s);
    var r := RemoveFirst(xs, s);
    forall i | 0 <= i < |r| ensures r[i].Valid() {
      assert r[i] == xs[if i < k then i else i + 1];
    }
    forall i, j | 0 <= i < j < |r| ensures r[i] != r[j] && r[i].Cats() !! r[j].Cats() {
      var i', j' := if i < k then i else i + 1, if j < k then j else j + 1;
      assert r[i] == xs[i'] && r[j] == xs[j'] && i' < j';
    }
  }

  /** Removing an element that is present shifts what follows the removed position. */
  lemma {:induction false} RemoveFirstShape<T>(xs: seq<T>, x: T) returns (k: nat)
    requires x in xs
    ensures k < |xs| && |RemoveFirst(xs, x)| == |xs| - 1
    ensures forall j :: 0 <= j < |xs| - 1 ==> RemoveFirst(xs, x)[j] == xs[if j < k then j else j + 1]
  {
    if xs[0] == x {
      k := 0;
    } else {
      assert x in xs[1..] by { assert xs == [xs[0]] + xs[1..]; }
      var k' := RemoveFirstShape(xs[1..], x);
      k := k' + 1;
    }
  }

  /** The first occurrence goes: what precedes it stays, and what follows it moves up by one. */
  lemma {:induction false} RemoveFirstAt<T>(xs: seq<T>, x: T, i: nat)
    requires i < |xs| && xs[i] == x && x !in xs[..i]
    ensures RemoveFirst(xs, x) == xs[..i] + xs[i + 1..]
  {
    if i > 0 {
      assert xs[0] != x by { assert xs[0] == xs[..i][0]; }
      assert xs[1..][..i - 1] == xs[..i][1..];
      RemoveFirstAt(xs[1..], x, i - 1);
      assert xs[..i] == [xs[0]] + xs[1..][..i - 1];
    }
  }

  /** Adding a student and removing it again gives back the roster. */
  lemma {:induction false} RemoveAdded<T>(xs: seq<T>, x: T)
    requires x !in xs
    ensures RemoveFirst(xs + [x], x) == xs
  {
    assert (xs + [x])[..|xs|] == xs;
    RemoveFirstAt(xs + [x], x, |xs|);
  }

  /** `get_total_possible`'s loop: the possible points of the categories counted, the first error ending it. */
  function ClassPossible(cats: Dict<string, Categories.Category>, withHidden: bool, onlyInputted: bool): Result<real> {
    if cats == [] then Ok(0.0)
    else
      var c := cats[|cats| - 1].1;
      match ClassPossible(cats[..|cats| - 1], withHidden, onlyInputted)
      case Err(e) => Err(e)
      case Ok(prev) =>
        if c.hidden && !withHidden then Ok(prev)
        else match Categories.Possible(c, withHidden, onlyInputted)
          case Err(e) => Err(e)
          case Ok(p) => Ok(prev + p)
  }

  /** The points of two runs of categories add up; an error in the first wins, then one in the second. */
  lemma {:induction false} ClassPossibleAppend(a: Dict<string, Categories.Category>, b: Dict<string, Categories.Category>,
                                               withHidden: bool, onlyInputted: bool)
    ensures ClassPossible(a + b, withHidden, onlyInputted) ==
      match ClassPossible(a, withHidden, onlyInputted)
      case Err(e) => Err(e)
      case Ok(x) =>
        match ClassPossible(b, withHidden, onlyInputted)
        case Err(e) => Err(e)
        case Ok(y) => Ok(x + y)
  {
    if b == [] {
      assert a + b == a;
    } else {
      assert (a + b)[..|a + b| - 1] == a + b[..|b| - 1];
      ClassPossibleAppend(a, b[..|b| - 1], withHidden, onlyInputted);
    }
  }

  /** One more category in `get_total_possible`'s loop, as the definition unfolds. */
  lemma PossibleStep(cats: Dict<string, Categories.Category>, i: nat, withHidden: bool, onlyInputted: bool)
    requires i < |cats|
    ensures var c := cats[i].1;
      ClassPossible(cats[..i + 1], withHidden, onlyInputted) ==
        match ClassPossible(cats[..i], withHidden, onlyInputted)
        case Err(e) => Err(e)
        case Ok(prev) =>
          if c.hidden && !withHidden then Ok(prev)
          else match Categories.Possible(c, withHidden, onlyInputted)
            case Err(e) => Err(e)
            case Ok(p) => Ok(prev + p)
  {
    assert cats[..i + 1][..i] == cats[..i];
  }

  /** A counted category adds its possible points to the loop's sum. */
  lemma PossibleAdds(cats: Dict<string, Categories.Category>, i: nat, withHidden: bool, onlyInputted: bool, points: real, p: real)
    requires i < |cats| && ClassPossible(cats[..i], withHidden, onlyInputted) == Ok(points)
    requires !(cats[i].1.hidden && !withHidden) && Categories.Possible(cats[i].1, withHidden, onlyInputted) == Ok(p)
    ensures ClassPossible(cats[..i + 1], withHidden, onlyInputted) == Ok(points + p)
  {
    PossibleStep(cats, i, withHidden, onlyInputted);
  }

  /** A category's error is the error of the whole loop. */
  lemma PossibleFails(cats: Dict<string, Categories.Category>, i: nat, withHidden: bool, onlyInputted: bool, points: real)
    requires i < |cats| && ClassPossible(cats[..i], withHidden, onlyInputted) == Ok(points)
    requires !(cats[i].1.hidden && !withHidden) && Categories.Possible(cats[i].1, withHidden, onlyInputted).Err?
    ensures ClassPossible(cats, withHidden, onlyInputted) == Categories.Possible(cats[i].1, withHidden, onlyInputted)
  {
    PossibleStep(cats, i, withHidden, onlyInputted);
    ErrorEndsSum(cats, i + 1, withHidden, onlyInputted);
  }

  /** An error among the first `n` categories is the error of them all. */
  lemma ErrorEndsSum(cats: Dict<string, Categories.Category>, n: nat, withHidden: bool, onlyInputted: bool)
    requires n <= |cats| && ClassPossible(cats[..n], withHidden, onlyInputted).Err?
    ensures ClassPossible(cats, withHidden, onlyInputted) == ClassPossible(cats[..n], withHidden, onlyInputted)
  {
    ClassPossibleAppend(cats[..n], cats[n..], withHidden, onlyInputted);
    assert cats[..n] + cats[n..] == cats;
  }

  /** A hidden category adds nothing to the class's possible points unless hidden ones count. */
  lemma HiddenAddsNothing(cats: Dict<string, Categories.Category>, k: string, c: Categories.Category, onlyInputted: bool)
    requires c.hidden
    ensures ClassPossible(cats + [(k, c)], false, onlyInputted) == ClassPossible(cats, false, onlyInputted)
  {
    assert (cats + [(k, c)])[..|cats|] == cats;
  }

  /** `for a, days in info.items(): edat[a] = days`. */
  method PutEach(d: Dict<string, int>, info: Dict<string, int>) returns (r: Dict<string, int>)
    requires DistinctKeys(d)
    ensures r == PutAll(d, info)
  {
    ghost var goal := PutAll(d, info);
    r := d;
    var a := 0;
    while a < |info|
      invariant 0 <= a <= |info|
      invariant DistinctKeys(r) && PutAll(r, info[a..]) == goal
    {
      assert info[a..][1..] == info[a + 1..];
      r := Put(r, info[a].0, info[a].1);
      a := a + 1;
    }
  }

  /**
   * The merge of one table entry into a student's extensions: an existing
   * category gets the entry's assignments stored over its own, a new one is
   * stored whole.
   */
  method MergeStudent(s: StudentsV1.Student, exts: Extensions)
    requires ValidExtensions(s.extensionData) && ValidExtensions(exts)
    modifies s
    ensures s.categoryData == old(s.categoryData)
    ensures s.extensionData == MergeInto(old(s.extensionData), exts)
  {
    var ed := MergeEach(s.extensionData, exts);
    s.extensionData := ed;
  }

  /** The loop of `MergeStudent` over a copy of the student's extensions. */
  method MergeEach(before: Extensions, exts: Extensions) returns (ed: Extensions)
    requires ValidExtensions(before) && ValidExtensions(exts)
    ensures ed == MergeInto(before, exts)
  {
    ed := before;
    assert exts[0..] == exts;
    var j := 0;
    while j < |exts|
      invariant 0 <= j <= |exts|
      invariant ValidExtensions(ed)
      invariant MergeInto(ed, exts[j..]) == MergeInto(before, exts)
    {
      MergeIntoStep(ed, exts, j);
      var ext := exts[j].0;
      var info := exts[j].1;
      ghost var next := MergeOne(ed, ext, info);
      var edat := Get(ed, ext);
      if edat.Some? {
        var merged := PutEach(edat.value, info);
        ed := Put(ed, ext, merged);
      } else {
        ed := Put(ed, ext, info);
      }
      assert ed == next;
      j := j + 1;
    }
    assert exts[j..] == [];
  }

  /** Every student's extensions, in roster order. */
  ghost function ExtensionsOf(students: seq<StudentsV1.Student>): (r: seq<Extensions>)
    reads set i | 0 <= i < |students| :: students[i]
    ensures |r| == |students| && forall i :: 0 <= i < |students| ==> r[i] == students[i].extensionData
  {
    seq(|students|, i requires 0 <= i < |students| reads set j | 0 <= j < |students| :: students[j] =>
      students[i].extensionData)
  }

  /** Every student's category records by name, in roster order. */
  ghost function CategoryDataOf(students: seq<StudentsV1.Student>): (r: seq<Dict<string, CategoriesV1.StudentCategoryData>>)
    reads set i | 0 <= i < |students| :: students[i]
    ensures |r| == |students| && forall i :: 0 <= i < |students| ==> r[i] == students[i].categoryData
  {
    seq(|students|, i requires 0 <= i < |students| reads set j | 0 <= j < |students| :: students[j] =>
      students[i].categoryData)
  }

  ghost predicate EachValid(eds: seq<Extensions>) {
    forall k :: 0 <= k < |eds| ==> ValidExtensions(eds[k])
  }

  /** One table entry merged into the extensions `eds` of the roster: only the first student with its sid changes. */
  ghost function MergeFor(students: seq<StudentsV1.Student>, eds: seq<Extensions>, sid: string, exts: Extensions): (r: seq<Extensions>)
    requires |eds| == |students| && EachValid(eds) && ValidExtensions(exts)
    ensures |r| == |students| && EachValid(r)
    ensures forall k :: 0 <= k < |r| ==>
      r[k] == if FindSid(students, sid) == Some(k) then MergeInto(eds[k], exts) else eds[k]
  {
    seq(|students|, k requires 0 <= k < |students| =>
      if FindSid(students, sid) == Some(k) then MergeInto(eds[k], exts) else eds[k])
  }

  /**
   * The whole table merged into the extensions `eds` of the roster: the
   * first student with each sid gets that sid's entries, in table order;
   * every other student keeps its own.
   */
  ghost function MergedTable(students: seq<StudentsV1.Student>, eds: seq<Extensions>, xs: Dict<string, Extensions>): (r: seq<Extensions>)
    requires |eds| == |students| && EachValid(eds) && AllValid(xs)
    ensures |r| == |students| && EachValid(r)
    ensures forall k :: 0 <= k < |r| ==>
      r[k] == if FindSid(students, students[k].sid) == Some(k) then MergeAll(eds[k], students[k].sid, xs) else eds[k]
  {
    seq(|students|, k requires 0 <= k < |students| =>
      if FindSid(students, students[k].sid) == Some(k) then MergeAll(eds[k], students[k].sid, xs) else eds[k])
  }

  /** One more table entry in the merge loop. */
  lemma MergedTableStep(students: seq<StudentsV1.Student>, eds: seq<Extensions>, xs: Dict<string, Extensions>, j: nat)
    requires |eds| == |students| && EachValid(eds) && AllValid(xs) && j < |xs|
    ensures AllValid(xs[..j]) && AllValid(xs[..j + 1])
    ensures MergedTable(students, eds, xs[..j + 1]) == MergeFor(students, MergedTable(students, eds, xs[..j]), xs[j].0, xs[j].1)
  {
    var before := MergedTable(students, eds, xs[..j]);
    var after := MergedTable(students, eds, xs[..j + 1]);
    var step := MergeFor(students, before, xs[j].0, xs[j].1);
    forall k | 0 <= k < |students| ensures after[k] == step[k] {
      MergeAllStep(eds[k], students[k].sid, xs, j);
    }
  }

  /** No student is listed twice. */
  ghost predicate Distinct(students: seq<StudentsV1.Student>) {
    forall i, j :: 0 <= i < j < |students| ==> students[i] != students[j]
  }

  /** `get_student`'s loop: the first student with `sid`, if any. */
  method FindStudent(students: seq<StudentsV1.Student>, sid: string) returns (r: Option<StudentsV1.Student>)
    ensures r.Some? <==> FindSid(students, sid).Some?
    ensures r.Some? ==> r.value == students[FindSid(students, sid).value] && r.value.sid == sid
  {
    var i := 0;
    while i < |students|
      invariant 0 <= i <= |students|
      invariant forall j :: 0 <= j < i ==> students[j].sid != sid
    {
      if students[i].sid == sid {
        return Some(students[i]);
      }
      i := i + 1;
    }
    r := None;
  }

  /** One entry of the fetched table: merged into the first student with its sid, if any. */
  method MergeEntry(students: seq<StudentsV1.Student>, sid: string, exts: Extensions)
    requires Distinct(students) && EachValid(ExtensionsOf(students)) && ValidExtensions(exts)
    modifies students
    ensures CategoryDataOf(students) == old(CategoryDataOf(students))
    ensures ExtensionsOf(students) == MergeFor(students, old(ExtensionsOf(students)), sid, exts)
  {
    ghost var eds := ExtensionsOf(students);
    ghost var cds := CategoryDataOf(students);
    var st := FindStudent(students, sid);
    if st.Some? {
      ghost var f := FindSid(students, sid).value;
      assert ValidExtensions(eds[f]);
      MergeStudent(st.value, exts);
      forall k | 0 <= k < |students|
        ensures students[k].extensionData == if k == f then MergeInto(eds[k], exts) else eds[k]
        ensures students[k].categoryData == cds[k]
      {
        if k != f {
          assert students[k] != students[f];
        }
      }
    }
    ghost var r := MergeFor(students, eds, sid, exts);
    assert forall k :: 0 <= k < |students| ==> ExtensionsOf(students)[k] == r[k];
    assert forall k :: 0 <= k < |students| ==> CategoryDataOf(students)[k] == cds[k];
  }

  /** The loop over the fetched table. */
  method MergeTable(students: seq<StudentsV1.Student>, xs: Dict<string, Extensions>)
    requires Distinct(students) && EachValid(ExtensionsOf(students)) && AllValid(xs)
    modifies students
    ensures CategoryDataOf(students) == old(CategoryDataOf(students))
    ensures ExtensionsOf(students) == MergedTable(students, old(ExtensionsOf(students)), xs)
  {
    ghost var orig := ExtensionsOf(students);
    assert xs[..0] == [];
    var j := 0;
    while j < |xs|
      invariant 0 <= j <= |xs|
      invariant AllValid(xs[..j])
      invariant CategoryDataOf(students) == old(CategoryDataOf(students))
      invariant ExtensionsOf(students) == MergedTable(students, orig, xs[..j])
    {
      MergeStep(students, xs, j, orig);
      j := j + 1;
    }
    assert xs[..j] == xs;
  }

  /** One iteration of the loop over the fetched table. */
  method MergeStep(students: seq<StudentsV1.Student>, xs: Dict<string, Extensions>, j: nat, ghost orig: seq<Extensions>)
    requires Distinct(students) && AllValid(xs) && j < |xs| && |orig| == |students| && EachValid(orig)
    requires AllValid(xs[..j]) && ExtensionsOf(students) == MergedTable(students, orig, xs[..j])
    modifies students
    ensures CategoryDataOf(students) == old(CategoryDataOf(students))
    ensures AllValid(xs[..j + 1]) && ExtensionsOf(students) == MergedTable(students, orig, xs[..j + 1])
  {
    MergedTableStep(students, orig, xs, j);
    ghost var before := MergedTable(students, orig, xs[..j]);
    assert EachValid(ExtensionsOf(students));
    MergeEntry(students, xs[j].0, xs[j].1);
    assert ExtensionsOf(students) == MergeFor(students, before, xs[j].0, xs[j].1);
  }

  /** Every category record of `s` holds its old records with `s`'s extensions applied. */
  twostate predicate ExtensionsApplied(s: StudentsV1.Student)
    reads s, s.Cats()
  {
    s.categoryData == old(s.categoryData) &&
    forall k :: 0 <= k < |s.categoryData| ==>
      s.categoryData[k].1.records ==
        StudentsV1.ExtendRecords(old(s.categoryData[k].1.records), ExtsFor(s.extensionData, s.categoryData[k].0))
  }

  /** Every category record of `s` holds its old records with its slip days applied. */
  twostate predicate SlipApplied(s: StudentsV1.Student)
    reads s, s.Cats()
  {
    s.categoryData == old(s.categoryData) &&
    forall k :: 0 <= k < |s.categoryData| ==>
      s.categoryData[k].1.records == StudentsV1.Slipped(s.categoryData[k].1.category, old(s.categoryData[k].1.records))
  }

  /** No category record of `s` has changed. */
  twostate predicate RecordsKept(s: StudentsV1.Student)
    reads s, s.Cats()
  {
    s.categoryData == old(s.categoryData) &&
    forall k :: 0 <= k < |s.categoryData| ==> s.categoryData[k].1.records == old(s.categoryData[k].1.records)
  }

  /**
   * Every category record of `s` holds its old records with `s`'s
   * extensions applied and then its slip days.
   */
  twostate predicate Processed(s: StudentsV1.Student)
    reads s, s.Cats()
  {
    s.categoryData == old(s.categoryData) &&
    forall k :: 0 <= k < |s.categoryData| ==>
      s.categoryData[k].1.records ==
        StudentsV1.Slipped(s.categoryData[k].1.category,
                           StudentsV1.ExtendRecords(old(s.categoryData[k].1.records), ExtsFor(s.extensionData, s.categoryData[k].0)))
  }

  class Classroom {
    const name: string
    const classId: string
    const gradeBins: GradeBins.GradeBinSet
    var categories: Dict<string, Categories.Category>
    var students: seq<StudentsV1.Student>

    /**
     * Category names are unique, and every student is a valid student
     * listed once, with category records of its own.
     */
    ghost predicate Valid()
      reads this, students
    {
      DistinctKeys(categories)
      && (forall i :: 0 <= i < |students| ==> students[i].Valid())
      && (forall i, j :: 0 <= i < j < |students| ==> students[i] != students[j] && students[i].Cats() !! students[j].Cats())
    }

    /** With its category records unchanged and its extensions valid, the classroom stays valid. */
    twostate lemma ValidKept()
      requires old(Valid()) && students == old(students) && categories == old(categories)
      requires EachValid(ExtensionsOf(students)) && CategoryDataOf(students) == old(CategoryDataOf(students))
      ensures Valid()
    {
      forall i | 0 <= i < |students| ensures students[i].Valid() && students[i].Cats() == old(students[i].Cats()) {
        assert students[i].categoryData == CategoryDataOf(students)[i] == old(CategoryDataOf(students))[i];
        assert old(students[i].Valid());
      }
    }

    /** With the same students holding the same category records, the set of all records is unchanged. */
    twostate lemma CatsKept()
      requires students == old(students) && CategoryDataOf(students) == old(CategoryDataOf(students))
      ensures AllCats() == old(AllCats())
    {
      forall i | 0 <= i < |students| ensures students[i].Cats() == old(students[i].Cats()) {
        assert students[i].categoryData == CategoryDataOf(students)[i] == old(CategoryDataOf(students))[i];
      }
    }

    /** The category records of every student. */
    ghost function AllCats(): set<CategoriesV1.StudentCategoryData>
      reads this, students
    {
      set i, o | 0 <= i < |students| && o in students[i].Cats() :: o
    }

    /** A classroom is valid iff its categories and students are. */
    constructor (name: string, classId: string, gradeBins: GradeBins.GradeBinSet,
                 categories: Dict<string, Categories.Category>, students: seq<StudentsV1.Student>)
      ensures this.name == name && this.classId == classId && this.gradeBins == gradeBins
      ensures this.categories == categories && this.students == students
      ensures Valid() <==>
        DistinctKeys(categories)
        && (forall i :: 0 <= i < |students| ==> students[i].Valid())
        && (forall i, j :: 0 <= i < j < |students| ==> students[i] != students[j] && students[i].Cats() !! students[j].Cats())
    {
      this.name := name;
      this.classId := classId;
      this.gradeBins := gradeBins;
      this.categories := categories;
      this.students := students;
    }

    /** `add_student(s)`: appends, even a student already listed. */
    method AddStudent(s: StudentsV1.Student)
      modifies this
      ensures students == old(students) + [s]
      ensures categories == old(categories)
    {
      students := students + [s];
    }

    /** `get_student(sid)`: the first student with that sid, or `None`. */
    method GetStudent(sid: string) returns (r: Option<StudentsV1.Student>)
      ensures r.Some? <==> FindSid(students, sid).Some?
      ensures r.Some? ==> r.value == students[FindSid(students, sid).value] && r.value.sid == sid
    {
      r := FindStudent(students, sid);
    }

    /** `remove_student(s)`: removes its first occurrence if it is listed. */
    method RemoveStudent(s: StudentsV1.Student)
      modifies this
      ensures students == RemoveFirst(old(students), s)
      ensures categories == old(categories)
      ensures old(Valid()) ==> Valid()
    {
      if s in students {
        if Valid() {
          RemoveFirstKeepsApart(students, s);
        }
        students := RemoveFirst(students, s);
      }
    }

    /** `add_category(c)`: stores `c` under its name, replacing a category of that name. */
    method AddCategory(c: Categories.Category)
      requires DistinctKeys(categories)
      modifies this
      ensures categories == Put(old(categories), c.name, c)
      ensures students == old(students)
      ensures old(Valid()) ==> Valid()
    {
      categories := Put(categories, c.name, c);
    }

    /** `remove_category(name)`: deletes the category if there is one of that name. */
    method RemoveCategory(name: string)
      requires DistinctKeys(categories)
      modifies this
      ensures categories == Remove(old(categories), name)
      ensures students == old(students)
      ensures old(Valid()) ==> Valid()
    {
      categories := Remove(categories, name);
    }

    /**
     * `get_total_possible(with_hidden, only_inputted)`: the sum of the
     * categories' possible points, skipping hidden categories unless
     * `with_hidden`; a category's error ends the loop.
     */
    method GetTotalPossible(withHidden: bool, onlyInputted: bool) returns (r: Result<real>)
      ensures r == ClassPossible(categories, withHidden, onlyInputted)
    {
      var cats := categories;
      var points := 0.0;
      var i := 0;
      while i < |cats|
        invariant 0 <= i <= |cats|
        invariant ClassPossible(cats[..i], withHidden, onlyInputted) == Ok(points)
      {
        var c := cats[i].1;
        if !(c.hidden && !withHidden) {
          var p := Categories.GetTotalPossible(c, withHidden, onlyInputted);
          if p.Err? {
            PossibleFails(cats, i, withHidden, onlyInputted, points);
            return Err(p.error);
          }
          PossibleAdds(cats, i, withHidden, onlyInputted, points, p.value);
          points := points + p.value;
        } else {
          PossibleStep(cats, i, withHidden, onlyInputted);
        }
        i := i + 1;
      }
      assert cats[..i] == cats;
      r := Ok(points);
    }

    /** `all_inputted(with_hidden)`: every category reports all of its points entered. */
    method AllInputted(withHidden: bool) returns (b: bool)
      ensures b <==> forall i :: 0 <= i < |categories| ==> Categories.AllInputted(categories[i].1, withHidden)
    {
      var i := 0;
      while i < |categories|
        invariant 0 <= i <= |categories|
        invariant forall j :: 0 <= j < i ==> Categories.AllInputted(categories[j].1, withHidden)
      {
        var ok := Categories.GetAllInputted(categories[i].1, withHidden);
        if !ok {
          return false;
        }
        i := i + 1;
      }
      b := true;
    }

    /**
     * The merge in `apply_extensions`: each entry of the fetched table, in
     * order, is merged into the extensions of the first student with its
     * sid; entries for sids not on the roster are ignored, and nothing is
     * merged when no table was fetched.
     */
    method MergeExtensions(table: Option<Dict<string, Extensions>>)
      requires Valid() && (table.Some? ==> AllValid(table.value))
      modifies students
      ensures Valid()
      ensures CategoryDataOf(students) == old(CategoryDataOf(students))
      ensures table.None? ==> ExtensionsOf(students) == old(ExtensionsOf(students))
      ensures table.Some? ==> ExtensionsOf(students) == MergedTable(students, old(ExtensionsOf(students)), table.value)
    {
      if table.Some? {
        assert EachValid(ExtensionsOf(students)) by {
          forall i | 0 <= i < |students| ensures ValidExtensions(students[i].extensionData) {
            assert students[i].Valid();
          }
        }
        MergeTable(students, table.value);
        ValidKept();
      }
    }

    /**
     * `apply_extensions`: the fetched table, if any, is merged into the
     * students' extensions, then every student applies its own.
     */
    method ApplyExtensions(table: Option<Dict<string, Extensions>>)
      requires Valid() && (table.Some? ==> AllValid(table.value))
      modifies students, AllCats()
      ensures Valid()
      ensures table.None? ==> ExtensionsOf(students) == old(ExtensionsOf(students))
      ensures table.Some? ==> ExtensionsOf(students) == MergedTable(students, old(ExtensionsOf(students)), table.value)
      ensures AllCats() == old(AllCats())
      ensures forall i :: 0 <= i < |students| ==> ExtensionsApplied(students[i])
    {
      MergeExtensions(table);
      CatsKept();
      ApplyStudentExtensions();
    }

    /**
     * `process` after matching: extensions first, slip days second, so that
     * slip days are spent on lateness left after extensions.
     */
    method Process(table: Option<Dict<string, Extensions>>)
      requires Valid() && (table.Some? ==> AllValid(table.value))
      modifies students, AllCats()
      ensures Valid()
      ensures table.None? ==> ExtensionsOf(students) == old(ExtensionsOf(students))
      ensures table.Some? ==> ExtensionsOf(students) == MergedTable(students, old(ExtensionsOf(students)), table.value)
      ensures forall i :: 0 <= i < |students| ==> Processed(students[i])
    {
      ApplyExtensions(table);
      ghost var eds := ExtensionsOf(students);
      label extended:
      ApplySlipDays();
      assert forall k :: 0 <= k < |students| ==> students[k].extensionData == eds[k];
      assert ExtensionsOf(students) == eds;
      forall i | 0 <= i < |students| ensures Processed(students[i]) {
        var s := students[i];
        forall k | 0 <= k < |s.categoryData|
          ensures s.categoryData[k].1.records ==
            StudentsV1.Slipped(s.categoryData[k].1.category,
                               StudentsV1.ExtendRecords(old(s.categoryData[k].1.records), ExtsFor(s.extensionData, s.categoryData[k].0)))
        {
          assert SlipApplied@extended(s);
        }
      }
    }

    /** The second half of `apply_extensions`: every student applies its extensions. */
    method ApplyStudentExtensions()
      requires Valid()
      modifies AllCats()
      ensures unchanged(students)
      ensures forall i :: 0 <= i < |students| ==> ExtensionsApplied(students[i])
    {
      var i := 0;
      while i < |students|
        invariant 0 <= i <= |students|
        invariant forall j :: 0 <= j < i ==> ExtensionsApplied(students[j])
        invariant forall j :: i <= j < |students| ==> RecordsKept(students[j])
      {
        Disjoint(i);
        students[i].ApplyExtensions();
        i := i + 1;
      }
    }

    /** `apply_slip_days`: every student applies its slip days. */
    method ApplySlipDays()
      requires Valid()
      modifies AllCats()
      ensures unchanged(students)
      ensures forall i :: 0 <= i < |students| ==> SlipApplied(students[i])
    {
      var i := 0;
      while i < |students|
        invariant 0 <= i <= |students|
        invariant forall j :: 0 <= j < i ==> SlipApplied(students[j])
        invariant forall j :: i <= j < |students| ==> RecordsKept(students[j])
      {
        Disjoint(i);
        students[i].ApplySlipDays();
        i := i + 1;
      }
    }

    /** The students other than the `i`-th keep none of its category records. */
    lemma Disjoint(i: nat)
      requires Valid() && i < |students|
      ensures forall j :: 0 <= j < |students| && j != i ==> students[j].Cats() !! students[i].Cats()
    {
    }
  }
}
