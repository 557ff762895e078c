/** CameraRenderer's choices before capture starts: which camera to open
    and which preview size to ask for. */
module CameraSelection {
  import opened Common

  const PREFERRED_WIDTH := 640
  const PREFERRED_HEIGHT := 480
  const MAX_PREVIEW_WIDTH := 1920
  const MAX_PREVIEW_HEIGHT := 1080

  /** `CameraCharacteristics.LENS_FACING_BACK`. */
  const LENS_FACING_BACK := 1

  /** An output size the camera offers. */
  datatype Size = Size(width: int, height: int)

  /** The sort key: width times height, computed in 64 bits by the Java comparator,
      where a product of two 32-bit values cannot overflow. */
  function Area(s: Size): int
  {
    s.width * s.height
  }

  /** The size tests of the two scans, and the fallback that takes any size. */
  datatype SizeTest = Ideal | FitsMax | AnySize

  predicate Passes(t: SizeTest, s: Size)
  {
    match t
    case Ideal =>
      s.width <= MAX_PREVIEW_WIDTH && s.height <= MAX_PREVIEW_HEIGHT &&
      s.width >= PREFERRED_WIDTH && s.height >= PREFERRED_HEIGHT
    case FitsMax => s.width <= MAX_PREVIEW_WIDTH && s.height <= MAX_PREVIEW_HEIGHT
    case AnySize => true
  }

  /** Non-decreasing area. */
  predicate SortedByArea(s: seq<Size>)
  {
    forall a, b :: 0 <= a < b < |s| ==> Area(s[a]) <= Area(s[b])
  }

  /** Inserts `x` before the first element whose area is at least its own,
      so that `x` stays ahead of the later elements it ties with. */
  function Insert(x: Size, t: seq<Size>): seq<Size>
  {
    if t == [] || Area(x) <= Area(t[0]) then [x] + t else [t[0]] + Insert(x, t[1..])
  }

  /** The order `Collections.sort` leaves with the area comparator: an
      insertion sort by area in which each size goes ahead of the later
      sizes of equal area, so ties keep their original order as in the
      stable library sort. */
  function SortByArea(s: seq<Size>): seq<Size>
  {
    if s == [] then [] else Insert(s[0], SortByArea(s[1..]))
  }

  /** The first element of `t` that passes `test`. */
  function FirstMatch(t: seq<Size>, test: SizeTest): Option<Size>
  {
    if t == [] then None else if Passes(test, t[0]) then Some(t[0]) else FirstMatch(t[1..], test)
  }

  /** The reference answer on the unsorted list: among the sizes passing
      `test`, the one of least area, the earliest one on a tie. */
  function BestIn(s: seq<Size>, test: SizeTest): Option<Size>
  {
    if s == [] then None
    else
      var rest := BestIn(s[1..], test);
      if Passes(test, s[0]) && (rest.None? || Area(s[0]) <= Area(rest.value)) then Some(s[0]) else rest
  }

  /** The size `chooseOptimalSize` returns, stated on the sizes as offered:
      the smallest ideal size, else the smallest size within the maximum,
      else the smallest size; `None` (the exception of `get(0)`) when no size
      is offered. */
  function PreferredSize(s: seq<Size>): Option<Size>
  {
    if s == [] then None
    else if BestIn(s, Ideal).Some? then BestIn(s, Ideal)
    else if BestIn(s, FitsMax).Some? then BestIn(s, FitsMax)
    else BestIn(s, AnySize)
  }

  lemma {:induction false} InsertKeepsElements(x: Size, t: seq<Size>)
    ensures multiset(Insert(x, t)) == multiset([x]) + multiset(t)
    decreases |t|
  {
    if t != [] && Area(x) > Area(t[0]) {
      InsertKeepsElements(x, t[1..]);
      assert t == [t[0]] + t[1..];
    }
  }

  lemma {:induction false} InsertKeepsOrder(x: Size, t: seq<Size>)
    requires SortedByArea(t)
    ensures SortedByArea(Insert(x, t))
    ensures |Insert(x, t)| == |t| + 1
    decreases |t|
  {
    if t != [] && Area(x) > Area(t[0]) {
      InsertKeepsOrder(x, t[1..]);
      InsertKeepsElements(x, t[1..]);
      var r := Insert(x, t[1..]);
      forall k | 0 <= k < |r|
        ensures Area(t[0]) <= Area(r[k])
      {
        assert r[k] in multiset(r);
        if r[k] != x {
          assert r[k] in multiset(t[1..]);
          var m :| 0 <= m < |t[1..]| && t[1..][m] == r[k];
          assert t[m + 1] == r[k];
        }
      }
    }
  }

  /** The sort is a permutation into non-decreasing area. */
  lemma {:induction false} SortByAreaIsSortedPermutation(s: seq<Size>)
    ensures SortedByArea(SortByArea(s))
    ensures multiset(SortByArea(s)) == multiset(s)
    ensures |SortByArea(s)| == |s|
  {
    if s != [] {
      SortByAreaIsSortedPermutation(s[1..]);
      InsertKeepsOrder(s[0], SortByArea(s[1..]));
      InsertKeepsElements(s[0], SortByArea(s[1..]));
      assert s == [s[0]] + s[1..];
    }
  }

  lemma {:induction false} FirstMatchIsElement(t: seq<Size>, test: SizeTest)
    ensures FirstMatch(t, test).Some? ==> FirstMatch(t, test).value in t && Passes(test, FirstMatch(t, test).value)
  {
    if t != [] && !Passes(test, t[0]) {
      FirstMatchIsElement(t[1..], test);
    }
  }

  /** Inserting `x` into a sorted list changes its first match only when `x`
      passes and does not have a larger area than the old first match. */
  lemma {:induction false} FirstMatchInsert(x: Size, t: seq<Size>, test: SizeTest)
    requires SortedByArea(t)
    ensures var before, after := FirstMatch(t, test), FirstMatch(Insert(x, t), test);
      after == if Passes(test, x) && (before.None? || Area(x) <= Area(before.value)) then Some(x) else before
    decreases |t|
  {
    if t == [] {
    } else if Area(x) <= Area(t[0]) {
      assert Insert(x, t) == [x] + t;
      assert ([x] + t)[1..] == t;
      FirstMatchIsElement(t, test);
      var m := FirstMatch(t, test);
      if m.Some? {
        var k :| 0 <= k < |t| && t[k] == m.value;
        assert Area(t[0]) <= Area(t[k]);
      }
    } else {
      assert Insert(x, t) == [t[0]] + Insert(x, t[1..]);
      assert ([t[0]] + Insert(x, t[1..]))[1..] == Insert(x, t[1..]);
      if !Passes(test, t[0]) {
        FirstMatchInsert(x, t[1..], test);
      }
    }
  }

  /** Scanning the sorted list and taking the first size that passes finds
      the reference answer on the unsorted list. */
  lemma {:induction false} FirstMatchOfSortedIsBest(s: seq<Size>, test: SizeTest)
    ensures FirstMatch(SortByArea(s), test) == BestIn(s, test)
  {
    if s != [] {
      FirstMatchOfSortedIsBest(s[1..], test);
      SortByAreaIsSortedPermutation(s[1..]);
      FirstMatchInsert(s[0], SortByArea(s[1..]), test);
    }
  }

  /** `BestIn` is what its name says: `None` exactly when no size passes;
      otherwise a passing size of least area, and every earlier passing size
      has a strictly larger area. */
  lemma {:induction false} BestInIsLeastEarliest(s: seq<Size>, test: SizeTest)
    ensures BestIn(s, test).None? <==> forall k :: 0 <= k < |s| ==> !Passes(test, s[k])
    ensures BestIn(s, test).Some? ==>
      var b := BestIn(s, test).value;
      Passes(test, b) &&
      (forall k :: 0 <= k < |s| && Passes(test, s[k]) ==> Area(b) <= Area(s[k])) &&
      exists k :: 0 <= k < |s| && s[k] == b &&
        forall m :: 0 <= m < k && Passes(test, s[m]) ==> Area(s[m]) > Area(b)
  {
    if s != [] {
      BestInIsLeastEarliest(s[1..], test);
      var rest := BestIn(s[1..], test);
      forall k | 1 <= k < |s|
        ensures s[k] == s[1..][k - 1]
      {
      }
      if BestIn(s, test) == Some(s[0]) {
        assert s[0] == BestIn(s, test).value;
      } else if rest.Some? {
        var b := rest.value;
        var k :| 0 <= k < |s[1..]| && s[1..][k] == b &&
          forall m :: 0 <= m < k && Passes(test, s[1..][m]) ==> Area(s[1..][m]) > Area(b);
        assert s[k + 1] == b;
        forall m | 0 <= m < k + 1 && Passes(test, s[m])
          ensures Area(s[m]) > Area(b)
        {
          if m > 0 {
            assert s[1..][m - 1] == s[m];
          }
        }
      }
    }
  }

  /** What `PreferredSize` promises: an offered size, ideal when some size is
      ideal, within the maximum when some size is, and of least area among
      the sizes of its kind. */
  lemma PreferredSizeMeaning(s: seq<Size>)
    ensures PreferredSize(s).None? <==> s == []
    ensures PreferredSize(s).Some? ==>
      var p := PreferredSize(s).value;
      p in s &&
      ((exists k :: 0 <= k < |s| && Passes(Ideal, s[k])) ==>
        Passes(Ideal, p) && forall k :: 0 <= k < |s| && Passes(Ideal, s[k]) ==> Area(p) <= Area(s[k])) &&
      ((exists k :: 0 <= k < |s| && Passes(FitsMax, s[k])) ==>
        Passes(FitsMax, p)) &&
      ((forall k :: 0 <= k < |s| ==> !Passes(Ideal, s[k])) ==>
        forall k :: 0 <= k < |s| && Passes(FitsMax, s[k]) ==> Area(p) <= Area(s[k])) &&
      ((forall k :: 0 <= k < |s| ==> !Passes(FitsMax, s[k])) ==>
        forall k :: 0 <= k < |s| ==> Area(p) <= Area(s[k]))
  {
    BestInIsLeastEarliest(s, Ideal);
    BestInIsLeastEarliest(s, FitsMax);
    BestInIsLeastEarliest(s, AnySize);
  }

  /** `chooseOptimalSize`: `Arrays.asList` is a view of `choices`, so the
      sort reorders the array itself; then the two scans and the fallback to
      the first (smallest) size. `None` stands for the exception `get(0)`
      throws on an empty array. */
  method ChooseOptimalSize(choices: array<Size>) returns (best: Option<Size>)
    modifies choices
    ensures choices[..] == SortByArea(old(choices[..]))
    ensures best == PreferredSize(old(choices[..]))
  {
    ghost var offered := choices[..];
    var sorted := SortByArea(choices[..]);
    SortByAreaIsSortedPermutation(offered);
    forall k | 0 <= k < choices.Length {
      choices[k] := sorted[k];
    }
    assert choices[..] == sorted;
    FirstMatchOfSortedIsBest(offered, Ideal);
    FirstMatchOfSortedIsBest(offered, FitsMax);
    FirstMatchOfSortedIsBest(offered, AnySize);

    var i := 0;
    while i < choices.Length
      invariant 0 <= i <= choices.Length
      invariant FirstMatch(choices[i..], Ideal) == FirstMatch(sorted, Ideal)
    {
      assert choices[i..][1..] == choices[i + 1..];
      if Passes(Ideal, choices[i]) {
        return Some(choices[i]);
      }
      i := i + 1;
    }
    i := 0;
    while i < choices.Length
      invariant 0 <= i <= choices.Length
      invariant FirstMatch(choices[i..], FitsMax) == FirstMatch(sorted, FitsMax)
    {
      assert choices[i..][1..] == choices[i + 1..];
      if Passes(FitsMax, choices[i]) {
        return Some(choices[i]);
      }
      i := i + 1;
    }
    if choices.Length == 0 {
      return None;
    }
    best := Some(choices[0]);
  }

  /** What `getCameraCharacteristics(id).get(LENS_FACING)` gives for one
      camera: `None` when the characteristic is absent. */
  datatype CameraInfo = CameraInfo(id: string, facing: Option<int>)

  predicate FacesBack(c: CameraInfo)
  {
    c.facing == Some(LENS_FACING_BACK)
  }

  /** `getBestCameraId`: the first back-facing camera, else the first camera,
      else `None`. `cameras == None` stands for a `CameraAccessException`,
      which is caught and also gives `None`: thrown either by
      `getCameraIdList` or by `getCameraCharacteristics` for a camera the
      loop reaches before any back-facing one. A camera after the first
      back-facing one is never queried, so its entry does not matter. */
  method GetBestCameraId(cameras: Option<seq<CameraInfo>>) returns (id: Option<string>)
    ensures cameras.None? ==> id.None?
    ensures cameras.Some? ==>
      var cs := cameras.value;
      (id.None? <==> cs == []) &&
      (forall k :: 0 <= k < |cs| && FacesBack(cs[k]) && (forall m :: 0 <= m < k ==> !FacesBack(cs[m])) ==>
        id == Some(cs[k].id)) &&
      ((forall k :: 0 <= k < |cs| ==> !FacesBack(cs[k])) && cs != [] ==> id == Some(cs[0].id))
  {
    if cameras.None? {
      return None;
    }
    var cs := cameras.value;
    var i := 0;
    while i < |cs|
      invariant 0 <= i <= |cs|
      invariant forall m :: 0 <= m < i ==> !FacesBack(cs[m])
    {
      if cs[i].facing.Some? && cs[i].facing.value == LENS_FACING_BACK {
        return Some(cs[i].id);
      }
      i := i + 1;
    }
    if |cs| > 0 {
      return Some(cs[0].id);
    }
    return None;
  }
}
