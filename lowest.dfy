/**
 * Repeatedly removing the first smallest element of a list, as
 * `points.remove(min(points))` and `min(assignments, key=...)` followed by
 * `assignments.remove(lowest)` do.
 */
module Lowest {
  /** The position of the first element with the smallest key. */
  function FirstMinIndex<T>(s: seq<T>, key: T -> real): (i: nat)
    requires |s| > 0
    ensures i < |s|
  {
    if |s| == 1 then 0
    else
      var j := FirstMinIndex(s[1..], key);
      if key(s[0]) <= key(s[1..][j]) then 0 else j + 1
  }

  /** `FirstMinIndex` is a smallest element, and every earlier one is larger. */
  lemma {:induction false} FirstMinIndexLaws<T>(s: seq<T>, key: T -> real)
    requires |s| > 0
    ensures forall j :: 0 <= j < |s| ==> key(s[FirstMinIndex(s, key)]) <= key(s[j])
    ensures forall j :: 0 <= j < FirstMinIndex(s, key) ==> key(s[j]) > key(s[FirstMinIndex(s, key)])
  {
    if |s| > 1 {
      FirstMinIndexLaws(s[1..], key);
      forall j | 1 <= j < |s| ensures s[j] == s[1..][j - 1] { }
    }
  }

  function RemoveAt<T>(s: seq<T>, i: nat): (r: seq<T>)
    requires i < |s|
    ensures |r| == |s| - 1
  {
    s[..i] + s[i + 1..]
  }

  /**
   * Removing the first smallest element `k` times, or until the list runs
   * out: the elements removed, in removal order, and what is left.
   */
  function LowestK<T>(s: seq<T>, key: T -> real, k: nat): (p: (seq<T>, seq<T>))
    ensures |p.0| == if k <= |s| then k else |s|
    ensures |p.1| == |s| - |p.0|
  {
    if k == 0 || s == [] then ([], s)
    else
      var i := FirstMinIndex(s, key);
      var p := LowestK(RemoveAt(s, i), key, k - 1);
      ([s[i]] + p.0, p.1)
  }

  /** One step of `LowestK`: the first smallest element goes first. */
  lemma LowestKStep<T>(s: seq<T>, key: T -> real, k: nat)
    requires k != 0 && s != []
    ensures var i := FirstMinIndex(s, key);
      var p' := LowestK(RemoveAt(s, i), key, k - 1);
      LowestK(s, key, k).0 == [s[i]] + p'.0 && LowestK(s, key, k).1 == p'.1
  {
  }

  /** Removing position `i` keeps every other element. */
  lemma RemoveAtIn<T>(s: seq<T>, i: nat, x: T)
    requires i < |s|
    ensures x in s <==> x == s[i] || x in RemoveAt(s, i)
  {
    assert s == s[..i] + [s[i]] + s[i + 1..];
  }

  /**
   * An element of the list is removed or remains, and nothing else is
   * either.
   */
  lemma {:induction false} LowestKMembers<T>(s: seq<T>, key: T -> real, k: nat, x: T)
    ensures x in s <==> x in LowestK(s, key, k).0 || x in LowestK(s, key, k).1
  {
    if k != 0 && s != [] {
      var i := FirstMinIndex(s, key);
      LowestKMembers(RemoveAt(s, i), key, k - 1, x);
      RemoveAtIn(s, i, x);
      LowestKStep(s, key, k);
    }
  }

  /** No element of `a` has a larger key than an element of `b`. */
  ghost predicate AllBelow<T>(a: seq<T>, b: seq<T>, key: T -> real) {
    forall x, y :: x in a && y in b ==> key(x) <= key(y)
  }

  /** No removed element has a larger key than a remaining one. */
  lemma {:induction false} LowestKBelow<T>(s: seq<T>, key: T -> real, k: nat)
    ensures AllBelow(LowestK(s, key, k).0, LowestK(s, key, k).1, key)
  {
    if k != 0 && s != [] {
      var i := FirstMinIndex(s, key);
      var s' := RemoveAt(s, i);
      LowestKBelow(s', key, k - 1);
      LowestKBelowStep(s, key, k);
    }
  }

  lemma LowestKBelowStep<T>(s: seq<T>, key: T -> real, k: nat)
    requires k != 0 && s != []
    requires var p' := LowestK(RemoveAt(s, FirstMinIndex(s, key)), key, k - 1);
      AllBelow(p'.0, p'.1, key)
    ensures AllBelow(LowestK(s, key, k).0, LowestK(s, key, k).1, key)
  {
    var i := FirstMinIndex(s, key);
    var s' := RemoveAt(s, i);
    var p' := LowestK(s', key, k - 1);
    LowestKStep(s, key, k);
    FirstMinIndexLaws(s, key);
    forall y | y in p'.1 ensures key(s[i]) <= key(y) {
      LowestKMembers(s', key, k - 1, y);
      RemoveAtIn(s, i, y);
    }
    BelowCons(s[i], p'.0, p'.1, key);
  }

  lemma BelowCons<T>(x: T, a: seq<T>, b: seq<T>, key: T -> real)
    requires AllBelow(a, b, key)
    requires forall y :: y in b ==> key(x) <= key(y)
    ensures AllBelow([x] + a, b, key)
  {
  }

  /** Removing nothing leaves the list as it is. */
  lemma LowestZero<T>(s: seq<T>, key: T -> real)
    ensures LowestK(s, key, 0) == ([], s)
  {
  }

  function Sum(s: seq<real>): real {
    if s == [] then 0.0 else Sum(s[..|s| - 1]) + s[|s| - 1]
  }

  lemma {:induction false} SumAppend(a: seq<real>, b: seq<real>)
    ensures Sum(a + b) == Sum(a) + Sum(b)
    decreases |b|
  {
    if b != [] {
      assert (a + b)[..|a + b| - 1] == a + b[..|b| - 1];
      SumAppend(a, b[..|b| - 1]);
    } else {
      assert a + b == a;
    }
  }

  function Id(x: real): real {
    x
  }

  /**
   * The sum of what is left after dropping the `k` smallest points is the
   * whole sum less the dropped ones.
   */
  lemma {:induction false} LowestKSum(s: seq<real>, k: nat)
    ensures Sum(LowestK(s, Id, k).1) == Sum(s) - Sum(LowestK(s, Id, k).0)
  {
    if k != 0 && s != [] {
      var i := FirstMinIndex(s, Id);
      var s' := RemoveAt(s, i);
      var p := LowestK(s', Id, k - 1);
      LowestKSum(s', k - 1);
      LowestKStep(s, Id, k);
      RemoveAtSum(s, i);
      SumCons(s[i], p.0);
      assert Sum(p.1) == Sum(s') - Sum(p.0);
      assert LowestK(s, Id, k) == ([s[i]] + p.0, p.1);
    }
  }

  lemma RemoveAtSum(s: seq<real>, i: nat)
    requires i < |s|
    ensures Sum(s) == Sum(RemoveAt(s, i)) + s[i]
  {
    RemoveAtSplit(s, i);
    SumSplit(s[..i], s[i], s[i + 1..]);
    SumAppend(s[..i], s[i + 1..]);
  }

  lemma RemoveAtSplit<T>(s: seq<T>, i: nat)
    requires i < |s|
    ensures s == s[..i] + [s[i]] + s[i + 1..]
  {
  }

  lemma SumSplit(a: seq<real>, x: real, b: seq<real>)
    ensures Sum(a + [x] + b) == Sum(a) + x + Sum(b)
  {
    SumAppend(a + [x], b);
    SumAppend(a, [x]);
    SumOne(x);
  }

  lemma SumOne(x: real)
    ensures Sum([x]) == x
  {
    assert [x][..0] == [];
  }

  lemma SumCons(x: real, s: seq<real>)
    ensures Sum([x] + s) == x + Sum(s)
  {
    SumAppend([x], s);
    SumOne(x);
  }
}
