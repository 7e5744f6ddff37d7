/**
 * Extensions as both revisions store them: for each category name, the
 * extension granted on each assignment id.  Also the merge of extensions
 * fetched for the whole class into a student's own (classroom.py).
 */
module ExtensionData {
  import opened Wrappers
  import opened Dicts

  /** Extensions by category name, then by assignment id. */
  type Extensions = Dict<string, Dict<string, int>>

  /** Keys are unique at both levels, as in the JSON objects they come from. */
  ghost predicate ValidExtensions(ed: Extensions) {
    DistinctKeys(ed) && forall i :: 0 <= i < |ed| ==> DistinctKeys(ed[i].1)
  }

  /** `extensionData.get(cat)`, with `{}` for a category without extensions. */
  function ExtsFor(ed: Extensions, cat: string): Dict<string, int> {
    match Get(ed, cat)
    case None => []
    case Some(e) => e
  }

  /** The extensions of one category after one more entry of `ed`. */
  lemma ExtsForStep(ed: Extensions, i: nat, key: string)
    requires DistinctKeys(ed) && i < |ed|
    ensures ExtsFor(ed[..i + 1], key) == if key == ed[i].0 then ed[i].1 else ExtsFor(ed[..i], key)
    ensures key == ed[i].0 ==> ExtsFor(ed[..i], key) == []
  {
    assert ed[..i + 1] == ed[..i] + [ed[i]];
    AppendIndex(ed[..i], ed[i], key);
  }

  /** `for a, days in info.items(): edat[a] = days`. */
  function PutAll(d: Dict<string, int>, info: Dict<string, int>): (r: Dict<string, int>)
    requires DistinctKeys(d)
    ensures DistinctKeys(r)
    decreases |info|
  {
    if info == [] then d else PutAll(Put(d, info[0].0, info[0].1), info[1..])
  }

  /** After `PutAll`, an assignment has the new extension if one is given, else the old one. */
  lemma {:induction false} PutAllGet(d: Dict<string, int>, info: Dict<string, int>, a: string)
    requires DistinctKeys(d) && DistinctKeys(info)
    ensures Get(PutAll(d, info), a) == if HasKey(info, a) then Get(info, a) else Get(d, a)
    decreases |info|
  {
    if info != [] {
      GetTail(info, a);
      assert DistinctKeys(info[1..]);
      PutAllGet(Put(d, info[0].0, info[0].1), info[1..], a);
    }
  }

  lemma PutValid(ed: Extensions, k: string, v: Dict<string, int>)
    requires ValidExtensions(ed) && DistinctKeys(v)
    ensures ValidExtensions(Put(ed, k, v))
  {
  }

  lemma TailValid(ed: Extensions)
    requires ed != [] && ValidExtensions(ed)
    ensures ValidExtensions(ed[1..])
  {
    assert forall i :: 0 <= i < |ed[1..]| ==> ed[1..][i] == ed[i + 1];
  }

  /**
   * One category's merge: a category the student has gets the new
   * assignments' extensions stored over its own; a new category is stored
   * as it is.
   */
  function MergeOne(ed: Extensions, ext: string, info: Dict<string, int>): (r: Extensions)
    requires ValidExtensions(ed) && DistinctKeys(info)
    ensures ValidExtensions(r)
  {
    var merged := match Get(ed, ext)
      case Some(edat) => PutAll(edat, info)
      case None => info;
    PutValid(ed, ext, merged);
    Put(ed, ext, merged)
  }

  /** The merge of `exts` into a student's extensions `ed`, category by category. */
  function MergeInto(ed: Extensions, exts: Extensions): (r: Extensions)
    requires ValidExtensions(ed) && ValidExtensions(exts)
    ensures ValidExtensions(r)
    decreases |exts|
  {
    if exts == [] then ed
    else
      TailValid(exts);
      MergeInto(MergeOne(ed, exts[0].0, exts[0].1), exts[1..])
  }

  /**
   * After the merge, every category's extension for an assignment is the
   * merged-in one when `exts` gives one, and the student's own otherwise.
   */
  lemma {:induction false} MergeIntoGet(ed: Extensions, exts: Extensions, k: string, a: string)
    requires ValidExtensions(ed) && ValidExtensions(exts)
    ensures Get(ExtsFor(MergeInto(ed, exts), k), a) ==
      if HasKey(ExtsFor(exts, k), a) then Get(ExtsFor(exts, k), a) else Get(ExtsFor(ed, k), a)
    decreases |exts|
  {
    if exts != [] {
      var ext := exts[0].0;
      var info := exts[0].1;
      TailValid(exts);
      GetTail(exts, k);
      var ed' := MergeOne(ed, ext, info);
      MergeIntoGet(ed', exts[1..], k, a);
      if k == ext {
        assert ExtsFor(exts[1..], k) == [];
        assert ExtsFor(exts, k) == info;
        if HasKey(ed, ext) {
          PutAllGet(Get(ed, ext).value, info, a);
        }
      }
    }
  }

  /** The merge after the first entry of `exts`. */
  lemma MergeIntoStep(ed: Extensions, exts: Extensions, j: nat)
    requires ValidExtensions(ed) && ValidExtensions(exts) && j < |exts|
    ensures ValidExtensions(exts[j..]) && ValidExtensions(exts[j + 1..]) && DistinctKeys(exts[j].1)
    ensures MergeInto(ed, exts[j..]) == MergeInto(MergeOne(ed, exts[j].0, exts[j].1), exts[j + 1..])
  {
    assert forall i :: 0 <= i < |exts[j..]| ==> exts[j..][i] == exts[j + i];
    assert exts[j..][1..] == exts[j + 1..];
  }

  /** Every student's extensions in a table by sid are valid. */
  ghost predicate AllValid(xs: Dict<string, Extensions>) {
    forall i :: 0 <= i < |xs| ==> ValidExtensions(xs[i].1)
  }

  /** The merges `apply_extensions` performs for the student with `sid`, in table order. */
  function MergeAll(ed: Extensions, sid: string, xs: Dict<string, Extensions>): (r: Extensions)
    requires ValidExtensions(ed) && AllValid(xs)
    ensures ValidExtensions(r)
  {
    if xs == [] then ed
    else
      var init := xs[..|xs| - 1];
      assert forall i :: 0 <= i < |init| ==> init[i] == xs[i];
      var prev := MergeAll(ed, sid, init);
      if xs[|xs| - 1].0 == sid then MergeInto(prev, xs[|xs| - 1].1) else prev
  }

  /** With unique sids, a student is merged with its own entry once, or not at all. */
  lemma {:induction false} MergeAllOnce(ed: Extensions, sid: string, xs: Dict<string, Extensions>)
    requires ValidExtensions(ed) && AllValid(xs) && DistinctKeys(xs)
    ensures HasKey(xs, sid) ==> MergeAll(ed, sid, xs) == MergeInto(ed, Get(xs, sid).value)
    ensures !HasKey(xs, sid) ==> MergeAll(ed, sid, xs) == ed
  {
    if xs != [] {
      var n := |xs| - 1;
      var init := xs[..n];
      assert forall i :: 0 <= i < |init| ==> init[i] == xs[i];
      assert DistinctKeys(init) && AllValid(init);
      MergeAllOnce(ed, sid, init);
      assert !HasKey(init, xs[n].0);
      assert xs == init + [xs[n]];
      AppendIndex(init, xs[n], sid);
      if xs[n].0 == sid {
        assert Get(xs, sid) == Some(xs[n].1) && !HasKey(init, sid);
      } else {
        assert Get(xs, sid) == Get(init, sid);
      }
    }
  }

  /** One more table entry in `apply_extensions`'s loop. */
  lemma MergeAllStep(ed: Extensions, sid: string, xs: Dict<string, Extensions>, j: nat)
    requires ValidExtensions(ed) && AllValid(xs) && j < |xs|
    ensures AllValid(xs[..j]) && AllValid(xs[..j + 1])
    ensures MergeAll(ed, sid, xs[..j + 1]) ==
      if xs[j].0 == sid then MergeInto(MergeAll(ed, sid, xs[..j]), xs[j].1) else MergeAll(ed, sid, xs[..j])
  {
    assert xs[..j + 1][..j] == xs[..j];
  }
}
