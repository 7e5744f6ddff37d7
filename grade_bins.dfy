/**
 * Grade bins (grade_bins.py): half-open score ranges mapped to grade ids,
 * looked up first-match in insertion order, with pass thresholds, the
 * relative ("on track") rescaling and the pass/not-pass registry.
 */
module GradeBins {
  import opened Wrappers
  import opened Dicts

  /** `Bin(id, gpa_value, min, max)`: the range `[min, max)`; a `None` bound is unbounded. */
  datatype Bin = Bin(id: string, gpaValue: real, min: Option<real>, max: Option<real>)

  /**
   * A pass threshold: a number, the sentinel `Max()` that no number reaches,
   * or `None` (the `min` of an unbounded bin), which no number can be
   * compared with.
   */
  datatype Threshold = AtLeast(v: real) | Max | NoThreshold

  /** The `pass_threshold` argument of the constructor. */
  datatype ThresholdArg = BinArg(b: Bin) | NumberArg(v: real) | OtherArg

  /** `Bin.in_bin(value)`; `value` may be `None`. */
  function InBin(b: Bin, value: Option<real>): bool {
    if b.min.None? && b.max.None? then true
    else if value.None? then false
    else if b.min.None? then value.value < b.max.value
    else if b.max.None? then value.value >= b.min.value
    else value.value >= b.min.value && value.value < b.max.value
  }

  /**
   * A bin is the half-open range `[min, max)` with `None` meaning unbounded;
   * a fully unbounded bin holds everything, `None` included, and any other
   * bin holds no `None`.
   */
  lemma {:induction false} InBinHalfOpen(b: Bin, value: Option<real>)
    ensures b.min.None? && b.max.None? ==> InBin(b, value)
    ensures (b.min.Some? || b.max.Some?) && value.None? ==> !InBin(b, value)
    ensures value.Some? ==>
      (InBin(b, value) <==>
        (b.min.None? || b.min.value <= value.value) && (b.max.None? || value.value < b.max.value))
    ensures b.min.Some? && value == b.min && (b.max.None? || b.min.value < b.max.value) ==> InBin(b, value)
    ensures b.max.Some? && value == b.max ==> !InBin(b, value)
  {
  }

  /** The first bin, in insertion order, that holds `value`. */
  function FirstContaining(bins: Dict<string, Bin>, value: Option<real>): (r: Option<Bin>)
    ensures r.Some? ==> exists i :: 0 <= i < |bins| && bins[i].1 == r.value
    ensures r.Some? ==> InBin(r.value, value)
    ensures r.None? <==> forall i :: 0 <= i < |bins| ==> !InBin(bins[i].1, value)
  {
    if bins == [] then None
    else if InBin(bins[0].1, value) then Some(bins[0].1)
    else
      var r := FirstContaining(bins[1..], value);
      assert r.Some? ==> exists i :: 0 <= i < |bins| && bins[i].1 == r.value by {
        if r.Some? {
          var i :| 0 <= i < |bins[1..]| && bins[1..][i].1 == r.value;
          assert bins[i + 1].1 == r.value;
        }
      }
      r
  }

  /** Bins listed before the first one holding `value` do not hold it. */
  lemma {:induction false} FirstContainingIsFirst(bins: Dict<string, Bin>, value: Option<real>, i: nat)
    requires i < |bins| && InBin(bins[i].1, value)
    ensures FirstContaining(bins, value).Some?
    ensures forall j :: 0 <= j < i && FirstContaining(bins, value) == Some(bins[j].1) ==> InBin(bins[j].1, value)
    ensures (forall j :: 0 <= j < i ==> !InBin(bins[j].1, value)) ==> FirstContaining(bins, value) == Some(bins[i].1)
  {
    if i > 0 && !InBin(bins[0].1, value) {
      FirstContainingIsFirst(bins[1..], value, i - 1);
    }
  }

  /** The running maximum of bin `max`es in the constructor (`TypeError` when it meets a `None`). */
  function MaxStep(mx: Option<real>, b: Bin): Result<Option<real>> {
    if mx.None? then Ok(b.max)
    else if b.max.None? then Err(TypeError("'>' not supported between 'NoneType' and 'float'"))
    else Ok(if b.max.value > mx.value then b.max else mx)
  }

  function MaxOfBins(bins: seq<Bin>): Result<Option<real>> {
    if bins == [] then Ok(None)
    else match MaxOfBins(bins[..|bins| - 1])
      case Err(e) => Err(e)
      case Ok(mx) => MaxStep(mx, bins[|bins| - 1])
  }

  /** When every bin has a `max`, the constructor's default is the largest of them. */
  lemma {:induction false} MaxOfBinsIsLargest(bins: seq<Bin>)
    requires bins != []
    requires forall i :: 0 <= i < |bins| ==> bins[i].max.Some?
    ensures MaxOfBins(bins).Ok? && MaxOfBins(bins).value.Some?
    ensures forall i :: 0 <= i < |bins| ==> bins[i].max.value <= MaxOfBins(bins).value.value
    ensures exists i :: 0 <= i < |bins| && bins[i].max == MaxOfBins(bins).value
  {
    var init := bins[..|bins| - 1];
    if init != [] {
      MaxOfBinsIsLargest(init);
      var i :| 0 <= i < |init| && init[i].max == MaxOfBins(init).value;
      assert bins[i] == init[i];
    }
  }

  const DuplicateBinMessage := "A bin with the same id already exists in the GradeBins!"

  /**
   * The constructor's loop over `bins` as a value: per bin, first the
   * running maximum (its `TypeError`), then `add_bin` (its `ValueError` when
   * an earlier bin has the same id); the first exception stops the loop.
   */
  function BuildBins(bins: seq<Bin>): Result<Option<real>> {
    if bins == [] then Ok(None)
    else
      var last := bins[|bins| - 1];
      match BuildBins(bins[..|bins| - 1])
      case Err(e) => Err(e)
      case Ok(mx) =>
        match MaxStep(mx, last)
        case Err(e) => Err(e)
        case Ok(m) =>
          if exists j :: 0 <= j < |bins| - 1 && bins[j].id == last.id then Err(ValueError(DuplicateBinMessage))
          else Ok(m)
  }

  /**
   * The loop completes iff no `max` comparison fails and no id repeats,
   * with the running maximum as its value; it raises the `>` `TypeError` or
   * `add_bin`'s `ValueError` and nothing else.
   */
  lemma {:induction false} BuildBinsLaws(bins: seq<Bin>)
    ensures BuildBins(bins).Ok? <==> MaxOfBins(bins).Ok? && !HasDuplicateIds(bins)
    ensures BuildBins(bins).Ok? ==> BuildBins(bins).value == MaxOfBins(bins).value
    ensures BuildBins(bins).Err? ==>
      BuildBins(bins).error.TypeError? || BuildBins(bins).error == ValueError(DuplicateBinMessage)
  {
    if bins != [] {
      var init := bins[..|bins| - 1];
      BuildBinsLaws(init);
      if HasDuplicateIds(init) {
        var i, j :| 0 <= i < j < |init| && init[i].id == init[j].id;
        assert bins[i].id == bins[j].id;
      }
      if HasDuplicateIds(bins) && !HasDuplicateIds(init) {
        var i, j :| 0 <= i < j < |bins| && bins[i].id == bins[j].id;
        assert j == |bins| - 1;
      }
    }
  }

  /** Whether `bins` has two bins with the same id (the constructor's `ValueError`). */
  predicate HasDuplicateIds(bins: seq<Bin>) {
    exists i, j :: 0 <= i < j < |bins| && bins[i].id == bins[j].id
  }

  function ThresholdOfBound(bound: Option<real>): Threshold {
    if bound.Some? then AtLeast(bound.value) else NoThreshold
  }

  function ThresholdOf(arg: ThresholdArg): Threshold {
    match arg
    case BinArg(b) => ThresholdOfBound(b.min)
    case NumberArg(v) => AtLeast(v)
    case OtherArg => Max
  }

  /** `value >= threshold`: `Max` is never reached, `None` cannot be compared. */
  function Reaches(value: real, t: Threshold): (r: Result<bool>)
    ensures t.Max? ==> r == Ok(false)
    ensures t.AtLeast? ==> r == Ok(value >= t.v)
    ensures t.NoThreshold? ==> r.Err?
  {
    match t
    case AtLeast(v) => Ok(value >= v)
    case Max => Ok(false)
    case NoThreshold => Err(TypeError("'>=' not supported between 'float' and 'NoneType'"))
  }

  /** Every bin is stored under its own id. */
  ghost predicate IdsMatch(bins: Dict<string, Bin>) {
    forall i :: 0 <= i < |bins| ==> bins[i].1.id == bins[i].0
  }

  lemma PutKeepsIds(bins: Dict<string, Bin>, b: Bin)
    requires DistinctKeys(bins) && IdsMatch(bins)
    ensures IdsMatch(Put(bins, b.id, b))
  {
  }

  lemma GetHasId(bins: Dict<string, Bin>, k: string)
    requires IdsMatch(bins) && HasKey(bins, k)
    ensures Get(bins, k).value.id == k
  {
  }

  /** `b.min += amt`. */
  function RaiseMin(b: Bin, amt: real): Bin
    requires b.min.Some?
  {
    b.(min := Some(b.min.value + amt))
  }

  /** `b.max += amt`. */
  function RaiseMax(b: Bin, amt: real): Bin
    requires b.max.Some?
  {
    b.(max := Some(b.max.value + amt))
  }

  class GradeBinSet {
    /** `bins`: id to bin, in insertion order. */
    var bins: Dict<string, Bin>
    var passThreshold: Threshold
    var passThresholdMap: Dict<string, Threshold>
    var normalMaxPoints: Option<real>

    ghost predicate Valid()
      reads this
    {
      DistinctKeys(bins) && IdsMatch(bins) && DistinctKeys(passThresholdMap)
    }

    constructor Empty(passThreshold: Threshold, passThresholdMap: Dict<string, Threshold>)
      requires DistinctKeys(passThresholdMap)
      ensures Valid() && bins == [] && normalMaxPoints == None
      ensures this.passThreshold == passThreshold && this.passThresholdMap == passThresholdMap
    {
      bins := [];
      this.passThreshold := passThreshold;
      this.passThresholdMap := passThresholdMap;
      normalMaxPoints := None;
    }

    /** `add_bin`: `ValueError` on a duplicate id, otherwise the bin is added last. */
    method AddBin(newBin: Bin) returns (r: Outcome)
      requires Valid()
      modifies this
      ensures Valid()
      ensures r.Fail? <==> HasKey(old(bins), newBin.id)
      ensures r.Fail? ==> r.error == ValueError(DuplicateBinMessage) && bins == old(bins)
      ensures r.Pass? ==> bins == old(bins) + [(newBin.id, newBin)]
      ensures passThreshold == old(passThreshold) && passThresholdMap == old(passThresholdMap)
      ensures normalMaxPoints == old(normalMaxPoints)
    {
      if HasKey(bins, newBin.id) {
        return Fail(ValueError(DuplicateBinMessage));
      }
      bins := Put(bins, newBin.id, newBin);
      r := Pass;
    }

    /** `remove_bin`: deletes the bin and answers true iff the id is present. */
    method RemoveBin(id: string) returns (removed: bool)
      requires Valid()
      modifies this
      ensures Valid()
      ensures removed <==> HasKey(old(bins), id)
      ensures bins == Remove(old(bins), id)
      ensures !HasKey(bins, id)
      ensures forall k :: k != id ==> Get(bins, k) == Get(old(bins), k)
      ensures !removed ==> bins == old(bins)
      ensures passThreshold == old(passThreshold) && passThresholdMap == old(passThresholdMap)
      ensures normalMaxPoints == old(normalMaxPoints)
    {
      removed := HasKey(bins, id);
      ghost var i := IndexOf(bins, id);
      bins := Remove(bins, id);
      assert forall j :: 0 <= j < |bins| ==> bins[j].1.id == bins[j].0 by {
        if i.Some? {
          forall j | 0 <= j < |bins| ensures bins[j].1.id == bins[j].0 {
            assert bins[j] == if j < i.value then old(bins)[j] else old(bins)[j + 1];
          }
        }
      }
    }

    /** `in_bin(value)`: the first bin in insertion order that holds `value`. */
    method InBinLookup(value: Option<real>) returns (r: Option<Bin>)
      requires Valid()
      ensures r == FirstContaining(bins, value)
      ensures r.Some? ==> InBin(r.value, value)
      ensures r.None? <==> forall i :: 0 <= i < |bins| ==> !InBin(bins[i].1, value)
    {
      var i := 0;
      while i < |bins|
        invariant 0 <= i <= |bins|
        invariant forall j :: 0 <= j < i ==> !InBin(bins[j].1, value)
        invariant FirstContaining(bins, value) == FirstContaining(bins[i..], value)
      {
        if InBin(bins[i].1, value) {
          return Some(bins[i].1);
        }
        assert bins[i..][1..] == bins[i + 1..];
        i := i + 1;
      }
      return None;
    }

    /** `is_passing(value, grade_type)`. */
    function IsPassing(value: real, gradeType: Option<string>): (r: Result<bool>)
      reads this
      ensures gradeType.Some? && HasKey(passThresholdMap, gradeType.value) ==>
        r == Reaches(value, Get(passThresholdMap, gradeType.value).value)
      ensures (gradeType.None? || !HasKey(passThresholdMap, gradeType.value)) ==> r == Reaches(value, passThreshold)
    {
      if gradeType.Some? && HasKey(passThresholdMap, gradeType.value) then
        Reaches(value, Get(passThresholdMap, gradeType.value).value)
      else Reaches(value, passThreshold)
    }

    /** `relative_score(score, max_score)`: `score` rescaled onto `normal_max_points`. */
    function RelativeScore(score: real, maxScore: real): (r: Result<real>)
      reads this
      ensures normalMaxPoints.None? ==> r.Err? && r.error.GradeBinsError?
      ensures normalMaxPoints.Some? && maxScore == 0.0 ==> r == Err(ZeroDivisionError)
      ensures normalMaxPoints.Some? && maxScore != 0.0 ==>
        r.Ok? && r.value * maxScore == score * normalMaxPoints.value
    {
      if normalMaxPoints.None? then Err(GradeBinsError("There is no max score set!"))
      else if maxScore == 0.0 then Err(ZeroDivisionError)
      else Ok((score / maxScore) * normalMaxPoints.value)
    }

    /**
     * `relative_bin(score, max_score)`: the bin of the rescaled score. The
     * score is rescaled once per bin tried, so with no bins nothing is
     * divided and no bin is found.
     */
    method RelativeBin(score: real, maxScore: real) returns (r: Result<Option<Bin>>)
      requires Valid()
      ensures normalMaxPoints.None? ==> r == Err(RelativeScore(score, maxScore).error)
      ensures normalMaxPoints.Some? && bins == [] ==> r == Ok(None)
      ensures bins != [] && RelativeScore(score, maxScore).Err? ==> r == Err(RelativeScore(score, maxScore).error)
      ensures bins != [] && RelativeScore(score, maxScore).Ok? ==>
        r == Ok(FirstContaining(bins, Some(RelativeScore(score, maxScore).value)))
    {
      if normalMaxPoints.None? {
        return Err(GradeBinsError("There is no max score set!"));
      }
      if bins == [] {
        return Ok(None);
      }
      var relative := RelativeScore(score, maxScore);
      if relative.Err? {
        return Err(relative.error);
      }
      var b := InBinLookup(Some(relative.value));
      return Ok(b);
    }

    /** Stores `b` in place of the bin with its id. */
    method Replace(b: Bin)
      requires Valid() && HasKey(bins, b.id)
      modifies this
      ensures Valid() && Keys(bins) == Keys(old(bins))
      ensures Get(bins, b.id) == Some(b)
      ensures forall k :: k != b.id ==> Get(bins, k) == Get(old(bins), k)
      ensures passThreshold == old(passThreshold) && passThresholdMap == old(passThresholdMap)
      ensures normalMaxPoints == old(normalMaxPoints)
    {
      PutKeepsIds(bins, b);
      bins := Put(bins, b.id, b);
    }

    /**
     * `increment_A_plus(amt)`: with both "A+" and "A" present, raises the
     * lower bound of "A+" and the upper bound of "A" by `amt` and answers
     * true; otherwise changes nothing and answers false.  Adding to a `None`
     * bound raises `TypeError`, after the "A+" update when only "A" is
     * unbounded.
     */
    method IncrementAPlus(amt: real) returns (r: Result<bool>)
      requires Valid()
      modifies this
      ensures Valid()
      ensures Keys(bins) == Keys(old(bins))
      ensures !(HasKey(old(bins), "A+") && HasKey(old(bins), "A")) ==> r == Ok(false) && bins == old(bins)
      ensures HasKey(old(bins), "A+") && HasKey(old(bins), "A") ==>
        var aPlus, a := Get(old(bins), "A+").value, Get(old(bins), "A").value;
        if aPlus.min.None? then r.Err? && r.error.TypeError? && bins == old(bins)
        else if a.max.None? then
          (r.Err? && r.error.TypeError?
          && Get(bins, "A+") == Some(RaiseMin(aPlus, amt))
          && Get(bins, "A") == Some(a))
        else (r == Ok(true)
          && Get(bins, "A+") == Some(RaiseMin(aPlus, amt))
          && Get(bins, "A") == Some(RaiseMax(a, amt)))
      ensures forall k :: k != "A+" && k != "A" ==> Get(bins, k) == Get(old(bins), k)
      ensures passThreshold == old(passThreshold) && passThresholdMap == old(passThresholdMap)
      ensures normalMaxPoints == old(normalMaxPoints)
    {
      if !(HasKey(bins, "A+") && HasKey(bins, "A")) {
        return Ok(false);
      }
      var aPlus := Get(bins, "A+").value;
      var a := Get(bins, "A").value;
      if aPlus.min.None? {
        return Err(TypeError("unsupported operand type(s) for +=: 'NoneType' and 'float'"));
      }
      GetHasId(bins, "A+");
      GetHasId(bins, "A");
      ghost var b0 := bins;
      var raised := RaiseMin(aPlus, amt);
      Replace(raised);
      if a.max.None? {
        return Err(TypeError("unsupported operand type(s) for +=: 'NoneType' and 'float'"));
      }
      ghost var b1 := bins;
      var widened := RaiseMax(a, amt);
      Replace(widened);
      assert Get(bins, "A+") == Get(b1, "A+") == Some(raised);
      r := Ok(true);
    }
  }

  /**
   * `GradeBins(bins, pass_threshold, pass_threshold_map, normal_max_points)`:
   * adds the bins in order (`ValueError` on a duplicate id), keeps the
   * largest bin `max` unless `normal_max_points` is given, and turns the
   * thresholds into numbers or the `Max` sentinel.  Only bins are accepted
   * as values of `pass_threshold_map`.
   */
  method NewGradeBinSet(binList: seq<Bin>, passThreshold: ThresholdArg, passThresholdMap: Dict<string, Bin>,
                        normalMaxPoints: Option<real>)
    returns (r: Result<GradeBinSet>)
    requires DistinctKeys(passThresholdMap)
    ensures r.Ok? <==> MaxOfBins(binList).Ok? && !HasDuplicateIds(binList)
    ensures r.Err? ==> BuildBins(binList).Err? && r.error == BuildBins(binList).error
    ensures r.Ok? ==> fresh(r.value) && r.value.Valid()
    ensures r.Ok? ==> (|r.value.bins| == |binList|
      && (forall i :: 0 <= i < |binList| ==> r.value.bins[i] == (binList[i].id, binList[i])))
    ensures r.Ok? ==> (r.value.normalMaxPoints ==
      (if normalMaxPoints.Some? then normalMaxPoints else MaxOfBins(binList).value))
    ensures r.Ok? ==> r.value.passThreshold == ThresholdOf(passThreshold)
    ensures r.Ok? ==> (|r.value.passThresholdMap| == |passThresholdMap|
      && forall i :: 0 <= i < |passThresholdMap| ==>
        r.value.passThresholdMap[i] == (passThresholdMap[i].0, ThresholdOfBound(passThresholdMap[i].1.min)))
  {
    var thresholds := seq(|passThresholdMap|, i requires 0 <= i < |passThresholdMap| =>
      (passThresholdMap[i].0, ThresholdOfBound(passThresholdMap[i].1.min)));
    assert DistinctKeys(thresholds);
    var gb := new GradeBinSet.Empty(ThresholdOf(passThreshold), thresholds);
    var mx: Option<real> := None;
    var i := 0;
    while i < |binList|
      invariant 0 <= i <= |binList|
      invariant gb.Valid() && fresh(gb)
      invariant MaxOfBins(binList[..i]) == Ok(mx) && BuildBins(binList[..i]) == Ok(mx)
      invariant !HasDuplicateIds(binList[..i])
      invariant |gb.bins| == i && forall j :: 0 <= j < i ==> gb.bins[j] == (binList[j].id, binList[j])
      invariant gb.passThreshold == ThresholdOf(passThreshold) && gb.passThresholdMap == thresholds
    {
      var step := AddNextBin(gb, binList, i, mx);
      if step.Err? {
        return Err(step.error);
      }
      mx := step.value;
      i := i + 1;
    }
    assert binList[..i] == binList;
    gb.normalMaxPoints := if normalMaxPoints.Some? then normalMaxPoints else mx;
    r := Ok(gb);
  }

  /**
   * One iteration of the constructor's loop: the bin's `max` is compared
   * with the largest so far (a `TypeError` when one of them is `None`), then
   * the bin is added (a `ValueError` on a duplicate id).
   */
  method AddNextBin(gb: GradeBinSet, binList: seq<Bin>, i: nat, mx: Option<real>) returns (r: Result<Option<real>>)
    requires i < |binList| && gb.Valid()
    requires MaxOfBins(binList[..i]) == Ok(mx) && !HasDuplicateIds(binList[..i])
    requires BuildBins(binList[..i]) == Ok(mx)
    requires |gb.bins| == i && forall j :: 0 <= j < i ==> gb.bins[j] == (binList[j].id, binList[j])
    modifies gb
    ensures gb.Valid() && gb.passThreshold == old(gb.passThreshold) && gb.passThresholdMap == old(gb.passThresholdMap)
    ensures r.Err? ==> MaxOfBins(binList).Err? || HasDuplicateIds(binList)
    ensures r == BuildBins(binList[..i + 1])
    ensures r.Err? ==> BuildBins(binList) == r
    ensures r.Ok? ==> MaxOfBins(binList[..i + 1]) == Ok(r.value) && !HasDuplicateIds(binList[..i + 1])
    ensures r.Ok? ==> |gb.bins| == i + 1 && forall j :: 0 <= j <= i ==> gb.bins[j] == (binList[j].id, binList[j])
  {
    var b := binList[i];
    BinsStep(binList, i);
    BuildBinsStep(binList, i, mx);
    var step := MaxStep(mx, b);
    if step.Err? {
      MaxOfBinsErrSticks(binList, i + 1);
      BuildBinsErrSticks(binList, i + 1);
      return Err(step.error);
    }
    var added := gb.AddBin(b);
    if added.Fail? {
      ghost var k := IndexOf(gb.bins, b.id).value;
      DuplicateFound(binList, k, i);
      assert binList[k].id == binList[i].id;
      BuildBinsErrSticks(binList, i + 1);
      return Err(added.error);
    }
    assert forall j :: 0 <= j < i ==> binList[j].id != b.id by {
      forall j | 0 <= j < i ensures binList[j].id != b.id {
        assert gb.bins[j].0 == binList[j].id;
      }
    }
    r := step;
  }

  /** One more bin in the constructor's loop: its `max` is folded in and its id checked. */
  lemma BinsStep(bins: seq<Bin>, i: nat)
    requires i < |bins|
    ensures MaxOfBins(bins[..i + 1]) ==
      match MaxOfBins(bins[..i]) case Err(e) => Err(e) case Ok(mx) => MaxStep(mx, bins[i])
    ensures !HasDuplicateIds(bins[..i]) && (forall j :: 0 <= j < i ==> bins[j].id != bins[i].id) ==>
      !HasDuplicateIds(bins[..i + 1])
  {
    assert bins[..i + 1][..i] == bins[..i];
  }

  /** One more bin in `BuildBins`: the `max` comparison's error, else the duplicate id's, else the new maximum. */
  lemma BuildBinsStep(bins: seq<Bin>, i: nat, mx: Option<real>)
    requires i < |bins| && BuildBins(bins[..i]) == Ok(mx)
    ensures MaxStep(mx, bins[i]).Err? ==> BuildBins(bins[..i + 1]) == MaxStep(mx, bins[i])
    ensures MaxStep(mx, bins[i]).Ok? && (exists j :: 0 <= j < i && bins[j].id == bins[i].id) ==>
      BuildBins(bins[..i + 1]) == Err(ValueError(DuplicateBinMessage))
    ensures MaxStep(mx, bins[i]).Ok? && (forall j :: 0 <= j < i ==> bins[j].id != bins[i].id) ==>
      BuildBins(bins[..i + 1]) == MaxStep(mx, bins[i])
  {
    assert bins[..i + 1][..i] == bins[..i];
    assert bins[..i + 1][i] == bins[i];
    forall j | 0 <= j < i ensures bins[..i + 1][j] == bins[j] {
    }
  }

  lemma {:induction false} BuildBinsErrSticks(bins: seq<Bin>, n: nat)
    requires n <= |bins| && BuildBins(bins[..n]).Err?
    ensures BuildBins(bins) == BuildBins(bins[..n])
    decreases |bins| - n
  {
    if n < |bins| {
      assert bins[..n + 1][..n] == bins[..n];
      BuildBinsErrSticks(bins, n + 1);
    } else {
      assert bins[..n] == bins;
    }
  }

  lemma DuplicateFound(bins: seq<Bin>, k: nat, i: nat)
    requires k < i < |bins| && bins[k].id == bins[i].id
    ensures HasDuplicateIds(bins)
  {
  }

  lemma {:induction false} MaxOfBinsErrSticks(bins: seq<Bin>, n: nat)
    requires n <= |bins| && MaxOfBins(bins[..n]).Err?
    ensures MaxOfBins(bins).Err?
    decreases |bins| - n
  {
    if n < |bins| {
      assert bins[..n + 1][..n] == bins[..n];
      MaxOfBinsErrSticks(bins, n + 1);
    } else {
      assert bins[..n] == bins;
    }
  }

  /** A pass/not-pass grading basis: its pass label and its not-pass label. */
  datatype Pnp = Pnp(gradeType: string, passValue: string, notPassValue: string)

  /** `PNP.PNP_Types`: the registry of pass/not-pass grading bases. */
  class PnpRegistry {
    var types: Dict<string, Pnp>

    ghost predicate Valid()
      reads this
    {
      DistinctKeys(types)
    }

    /** The registry after the module's own `PNP("EPN", ...)` and `PNP("ESU", ...)`. */
    constructor ()
      ensures Valid()
      ensures types == [("EPN", Pnp("EPN", "P", "NP")), ("ESU", Pnp("ESU", "S", "U"))]
    {
      types := [("EPN", Pnp("EPN", "P", "NP")), ("ESU", Pnp("ESU", "S", "U"))];
    }

    /** `PNP(grade_type, pass_value, not_pass_value)`: `ValueError` if the type is registered. */
    method Register(gradeType: string, passValue: string, notPassValue: string) returns (r: Outcome)
      requires Valid()
      modifies this
      ensures Valid()
      ensures r.Fail? <==> HasKey(old(types), gradeType)
      ensures r.Fail? ==> types == old(types)
      ensures r.Pass? ==> types == old(types) + [(gradeType, Pnp(gradeType, passValue, notPassValue))]
    {
      if HasKey(types, gradeType) {
        return Fail(ValueError("grade type already exists in the PNP mapping!"));
      }
      types := types + [(gradeType, Pnp(gradeType, passValue, notPassValue))];
      assert DistinctKeys(types) by {
        forall j | 0 <= j < |old(types)| ensures old(types)[j].0 != gradeType {
        }
      }
      r := Pass;
    }
  }
}
