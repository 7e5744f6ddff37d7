/**
 * The search space of the optimal slip-time strategy: every way to pick,
 * for each late assignment, an amount between 0 and its cap, in the order
 * `np.array(np.meshgrid(*ranges)).T.reshape(-1, n)` lists them, and the
 * first position of a largest score (`np.argmax`).
 */
module Combos {
  /** `[[i] + p for p in ps]`. */
  function Prefixed(i: nat, ps: seq<seq<nat>>): (r: seq<seq<nat>>)
    ensures |r| == |ps|
    ensures forall k :: 0 <= k < |ps| ==> r[k] == [i] + ps[k]
  {
    if ps == [] then [] else [[i] + ps[0]] + Prefixed(i, ps[1..])
  }

  /** The combinations whose first amount is `from`, `from + 1`, ..., `n`. */
  function FirstFrom(from: nat, n: nat, rest: seq<seq<nat>>): seq<seq<nat>>
    decreases n + 1 - from
  {
    if from > n then [] else Prefixed(from, rest) + FirstFrom(from + 1, n, rest)
  }

  /** Every combination of amounts `c` with `0 <= c[k] <= caps[k]`. */
  function Product(caps: seq<nat>): seq<seq<nat>>
  {
    if caps == [] then [[]] else FirstFrom(0, caps[0], Product(caps[1..]))
  }

  /** A combination within the caps. */
  predicate WithinCaps(c: seq<nat>, caps: seq<nat>) {
    |c| == |caps| && forall k :: 0 <= k < |c| ==> c[k] <= caps[k]
  }

  lemma {:induction false} FirstFromMembership(from: nat, n: nat, rest: seq<seq<nat>>, c: seq<nat>)
    ensures c in FirstFrom(from, n, rest) <==> |c| > 0 && from <= c[0] <= n && c[1..] in rest
    decreases n + 1 - from
  {
    if from <= n {
      FirstFromMembership(from + 1, n, rest, c);
      var pre := Prefixed(from, rest);
      if c in pre {
        var k :| 0 <= k < |pre| && pre[k] == c;
        assert c[1..] == rest[k];
      }
      if |c| > 0 && c[0] == from && c[1..] in rest {
        var k :| 0 <= k < |rest| && rest[k] == c[1..];
        assert pre[k] == c;
      }
    }
  }

  /** The product holds exactly the combinations within the caps. */
  lemma {:induction false} ProductMembership(caps: seq<nat>, c: seq<nat>)
    ensures c in Product(caps) <==> WithinCaps(c, caps)
  {
    if caps == [] {
      assert Product(caps) == [[]];
    } else {
      FirstFromMembership(0, caps[0], Product(caps[1..]), c);
      if |c| > 0 {
        ProductMembership(caps[1..], c[1..]);
        if WithinCaps(c[1..], caps[1..]) && c[0] <= caps[0] {
          forall k | 0 <= k < |c| ensures c[k] <= caps[k] {
            if k > 0 {
              assert c[k] == c[1..][k - 1];
            }
          }
        }
        if WithinCaps(c, caps) {
          forall k | 0 <= k < |c[1..]| ensures c[1..][k] <= caps[1..][k] {
            assert c[1..][k] == c[k + 1];
          }
        }
      }
    }
  }

  /** The reversal of a sequence. */
  function Rev(s: seq<nat>): (r: seq<nat>)
    ensures |r| == |s|
    ensures forall i :: 0 <= i < |s| ==> r[i] == s[|s| - 1 - i]
  {
    if s == [] then [] else Rev(s[1..]) + [s[0]]
  }

  /**
   * The order in which `meshgrid(...).T.reshape` varies the amounts, slowest
   * first: the last one, ..., the third, then the first and the second (with
   * the default `xy` indexing the first two axes are swapped, and `.T`
   * reverses them all).
   */
  function Reorder(c: seq<nat>): (r: seq<nat>)
    ensures |r| == |c|
    ensures |c| >= 2 ==> (r[|c| - 2] == c[0] && r[|c| - 1] == c[1]
      && forall i :: 0 <= i < |c| - 2 ==> r[i] == c[|c| - 1 - i])
    ensures |c| < 2 ==> r == c
  {
    if |c| < 2 then c else Rev(c[2..]) + c[..2]
  }

  /** The inverse of `Reorder`. */
  function Restore(k: seq<nat>): (r: seq<nat>)
    ensures |r| == |k|
    ensures |k| >= 2 ==> (r[0] == k[|k| - 2] && r[1] == k[|k| - 1]
      && forall j :: 2 <= j < |k| ==> r[j] == k[|k| - 1 - j])
    ensures |k| < 2 ==> r == k
  {
    if |k| < 2 then k else k[|k| - 2..] + Rev(k[..|k| - 2])
  }

  lemma RestoreReorder(c: seq<nat>)
    ensures Restore(Reorder(c)) == c
  {
    if |c| >= 2 {
      var m := |c|;
      var k := Reorder(c);
      var r := Restore(k);
      forall j | 0 <= j < m ensures r[j] == c[j] {
        if j >= 2 {
          assert r[j] == k[m - 1 - j] == c[j];
        }
      }
    }
  }

  lemma WithinCapsReorder(c: seq<nat>, caps: seq<nat>)
    ensures WithinCaps(c, caps) <==> WithinCaps(Reorder(c), Reorder(caps))
  {
    if |c| == |caps| && |c| >= 2 && WithinCaps(Reorder(c), Reorder(caps)) {
      var m := |c|;
      forall j | 0 <= j < m ensures c[j] <= caps[j] {
        if j >= 2 {
          assert Reorder(c)[m - 1 - j] == c[j];
        }
      }
    }
  }

  lemma WithinCapsRestore(k: seq<nat>, caps: seq<nat>)
    requires WithinCaps(k, caps)
    ensures WithinCaps(Restore(k), Restore(caps))
  {
    if |k| >= 2 {
      var m := |k|;
      var r, rc := Restore(k), Restore(caps);
      forall j | 0 <= j < m ensures r[j] <= rc[j] {
        if j >= 2 {
          assert r[j] == k[m - 1 - j] && rc[j] == caps[m - 1 - j];
        }
      }
    }
  }

  /** Each combination of `ks`, put back in assignment order. */
  function RestoreAll(ks: seq<seq<nat>>): (r: seq<seq<nat>>)
    ensures |r| == |ks|
    ensures forall i :: 0 <= i < |ks| ==> r[i] == Restore(ks[i])
  {
    if ks == [] then [] else [Restore(ks[0])] + RestoreAll(ks[1..])
  }

  /** Every combination within the caps, in `meshgrid(...).T.reshape` order. */
  function MeshGrid(caps: seq<nat>): seq<seq<nat>> {
    RestoreAll(Product(Reorder(caps)))
  }

  /** The grid holds exactly the combinations within the caps. */
  lemma MeshMembership(caps: seq<nat>, c: seq<nat>)
    ensures c in MeshGrid(caps) <==> WithinCaps(c, caps)
  {
    var ks := Product(Reorder(caps));
    if WithinCaps(c, caps) {
      WithinCapsReorder(c, caps);
      ProductMembership(Reorder(caps), Reorder(c));
      var i :| 0 <= i < |ks| && ks[i] == Reorder(c);
      RestoreReorder(c);
      assert MeshGrid(caps)[i] == c;
    }
    if c in MeshGrid(caps) {
      var i :| 0 <= i < |ks| && Restore(ks[i]) == c;
      ProductMembership(Reorder(caps), ks[i]);
      WithinCapsRestore(ks[i], Reorder(caps));
      RestoreReorder(caps);
    }
  }

  function SumNat(s: seq<nat>): nat {
    if s == [] then 0 else s[0] + SumNat(s[1..])
  }

  lemma {:induction false} SumNatSnoc(s: seq<nat>, x: nat)
    ensures SumNat(s + [x]) == SumNat(s) + x
  {
    if s == [] {
      assert [x][1..] == [];
    } else {
      assert (s + [x])[1..] == s[1..] + [x];
      SumNatSnoc(s[1..], x);
    }
  }

  /** The combinations whose total lies in `[lo, hi]`, in order. */
  function WithTotalIn(cs: seq<seq<nat>>, lo: int, hi: int): (r: seq<seq<nat>>)
    ensures forall c :: c in r <==> c in cs && lo <= SumNat(c) <= hi
  {
    if cs == [] then []
    else
      var last := cs[|cs| - 1];
      assert forall c :: c in cs <==> c in cs[..|cs| - 1] || c == last;
      WithTotalIn(cs[..|cs| - 1], lo, hi) + (if lo <= SumNat(last) <= hi then [last] else [])
  }

  lemma {:induction false} SumNatWithinCaps(c: seq<nat>, caps: seq<nat>)
    requires WithinCaps(c, caps)
    ensures SumNat(c) <= SumNat(caps)
  {
    if c != [] {
      assert WithinCaps(c[1..], caps[1..]) by {
        forall k | 0 <= k < |c[1..]| ensures c[1..][k] <= caps[1..][k] {
          assert c[1..][k] == c[k + 1];
        }
      }
      SumNatWithinCaps(c[1..], caps[1..]);
    }
  }

  /**
   * A combination within the caps whose total lies between
   * `min(sum of caps, budget)` and the budget spends exactly
   * `min(sum of caps, budget)`.
   */
  lemma AdmissibleTotal(caps: seq<nat>, budget: int, c: seq<nat>)
    requires c in WithTotalIn(MeshGrid(caps), if SumNat(caps) <= budget then SumNat(caps) else budget, budget)
    ensures WithinCaps(c, caps)
    ensures SumNat(c) == if SumNat(caps) <= budget then SumNat(caps) else budget
  {
    MeshMembership(caps, c);
    SumNatWithinCaps(c, caps);
  }

  /** Fill the caps in order until `budget` is spent. */
  function Greedy(caps: seq<nat>, budget: nat): (c: seq<nat>)
    ensures |c| == |caps|
  {
    if caps == [] then []
    else
      var first := if caps[0] <= budget then caps[0] else budget;
      [first] + Greedy(caps[1..], budget - first)
  }

  /** The greedy fill stays within the caps and spends `min(sum of caps, budget)`. */
  lemma {:induction false} GreedyAdmissible(caps: seq<nat>, budget: nat)
    ensures WithinCaps(Greedy(caps, budget), caps)
    ensures SumNat(Greedy(caps, budget)) == if SumNat(caps) <= budget then SumNat(caps) else budget
  {
    if caps != [] {
      var first := if caps[0] <= budget then caps[0] else budget;
      var rest := Greedy(caps[1..], budget - first);
      GreedyAdmissible(caps[1..], budget - first);
      assert forall k :: 1 <= k < |caps| ==> ([first] + rest)[k] == rest[k - 1];
      assert ([first] + rest)[1..] == rest;
    }
  }

  /** The greedy fill takes its share of the first cap, then fills the rest. */
  lemma GreedyFront(caps: seq<nat>, budget: nat)
    requires caps != []
    ensures var first := if caps[0] <= budget then caps[0] else budget;
      Greedy(caps, budget) == [first] + Greedy(caps[1..], budget - first)
  {
  }

  /**
   * With a non-negative budget some combination is admissible; with a
   * negative one none is.
   */
  lemma AdmissibleExists(caps: seq<nat>, budget: int)
    ensures var lo := if SumNat(caps) <= budget then SumNat(caps) else budget;
      WithTotalIn(MeshGrid(caps), lo, budget) != [] <==> budget >= 0
  {
    var lo := if SumNat(caps) <= budget then SumNat(caps) else budget;
    if budget >= 0 {
      var g := Greedy(caps, budget);
      GreedyAdmissible(caps, budget);
      MeshMembership(caps, g);
      assert g in WithTotalIn(MeshGrid(caps), lo, budget);
    } else {
      NoneAbove(MeshGrid(caps), lo, budget);
    }
  }

  lemma {:induction false} NoneAbove(cs: seq<seq<nat>>, lo: int, hi: int)
    requires hi < 0
    ensures WithTotalIn(cs, lo, hi) == []
  {
    if cs != [] {
      NoneAbove(cs[..|cs| - 1], lo, hi);
    }
  }

  /** `np.argmax`: the first position of a largest value. */
  function ArgMax(s: seq<real>): (i: nat)
    requires |s| > 0
    ensures i < |s|
    ensures forall j :: 0 <= j < |s| ==> s[j] <= s[i]
    ensures forall j :: 0 <= j < i ==> s[j] < s[i]
  {
    if |s| == 1 then 0
    else
      var j := ArgMax(s[..|s| - 1]);
      if s[|s| - 1] > s[j] then |s| - 1 else j
  }

  /** The loop that keeps the combinations whose total lies in `[lo, hi]`. */
  method FilterByTotal(cs: seq<seq<nat>>, lo: int, hi: int) returns (r: seq<seq<nat>>)
    ensures r == WithTotalIn(cs, lo, hi)
  {
    r := [];
    var i := 0;
    while i < |cs|
      invariant 0 <= i <= |cs|
      invariant r == WithTotalIn(cs[..i], lo, hi)
    {
      assert cs[..i + 1][..i] == cs[..i];
      var total := 0;
      var k := 0;
      while k < |cs[i]|
        invariant 0 <= k <= |cs[i]|
        invariant total == SumNat(cs[i][..k])
      {
        SumNatSnoc(cs[i][..k], cs[i][k]);
        assert cs[i][..k + 1] == cs[i][..k] + [cs[i][k]];
        total := total + cs[i][k];
        k := k + 1;
      }
      assert cs[i][..k] == cs[i];
      if lo <= total <= hi {
        r := r + [cs[i]];
      }
      i := i + 1;
    }
    assert cs[..i] == cs;
  }

  /** `np.argmax` as a scan that keeps the first strictly larger value. */
  method FindArgMax(s: seq<real>) returns (best: nat)
    requires |s| > 0
    ensures best == ArgMax(s)
  {
    best := 0;
    var i := 1;
    while i < |s|
      invariant 1 <= i <= |s|
      invariant best == ArgMax(s[..i])
    {
      assert s[..i + 1][..i] == s[..i];
      if s[i] > s[best] {
        best := i;
      }
      i := i + 1;
    }
    assert s[..i] == s;
  }
}
