/** The coordinate aligner inside `createDHWs`: both pairs of axes are sorted, and the
    first positions of the baseline's smallest and largest coordinate in the sorted SST
    axis give a half-open window `[min_idx, max_idx + 1)` per axis. Coordinates are
    integer hundredths of a degree, so `round(x, 2)` leaves them as they are. */
module Align {
  import opened Wrappers
  import opened Select

  predicate Sorted(s: seq<int>) {
    forall i, j :: 0 <= i < j < |s| ==> s[i] <= s[j]
  }

  /** A smallest element placed in front of an ascending sequence keeps it ascending. */
  lemma SortedCons(h: int, t: seq<int>)
    requires Sorted(t) && forall k :: 0 <= k < |t| ==> h <= t[k]
    ensures Sorted([h] + t)
  {
    var r := [h] + t;
    forall i, j | 0 <= i < j < |r| ensures r[i] <= r[j] {
      if i > 0 { assert r[i] == t[i - 1] && r[j] == t[j - 1]; }
    }
  }

  /** Places `x` into an ascending sequence; the result starts with the smaller of `x`
      and the old first element. */
  function Insert(x: int, s: seq<int>): (r: seq<int>)
    requires Sorted(s)
    ensures Sorted(r) && multiset(r) == multiset(s) + multiset{x}
    ensures forall k :: 0 <= k < |r| ==> (if s == [] || x <= s[0] then x else s[0]) <= r[k]
    decreases |s|
  {
    if s == [] || x <= s[0] then
      SortedCons(x, s);
      [x] + s
    else
      var tail := s[1..];
      var rest := Insert(x, tail);
      assert s == [s[0]] + tail;
      SortedCons(s[0], rest);
      [s[0]] + rest
  }

  /** numpy's `sort`: an ascending permutation of the input. */
  function Sort(s: seq<int>): (r: seq<int>)
    ensures Sorted(r) && multiset(r) == multiset(s)
    decreases |s|
  {
    if s == [] then []
    else
      assert s == [s[0]] + s[1..];
      Insert(s[0], Sort(s[1..]))
  }

  /** Python's `min` of a non-empty list. */
  function Min(s: seq<int>): (m: int)
    requires s != []
    ensures m in s && forall x :: x in s ==> m <= x
    decreases |s|
  {
    if |s| == 1 then s[0]
    else
      var rest := Min(s[1..]);
      assert s == [s[0]] + s[1..];
      if s[0] <= rest then s[0] else rest
  }

  /** Python's `max` of a non-empty list. */
  function Max(s: seq<int>): (m: int)
    requires s != []
    ensures m in s && forall x :: x in s ==> x <= m
    decreases |s|
  {
    if |s| == 1 then s[0]
    else
      var rest := Max(s[1..]);
      assert s == [s[0]] + s[1..];
      if s[0] >= rest then s[0] else rest
  }

  /** A half-open index range `[lo, hi)`. */
  datatype Window = Window(lo: nat, hi: nat)

  datatype AlignError =
    | EmptyBaselineAxis         // `min()` of an empty coordinate list raises
    | NoMatch(coordinate: int)  // a baseline extremum is not an SST coordinate

  /** The windows and the sliced, sorted SST axes (`new_lat`, `new_lon`). */
  datatype Alignment = Alignment(latWindow: Window, lonWindow: Window, lat: seq<int>, lon: seq<int>)

  datatype AlignResult = Matched(value: Alignment) | Mismatch(error: AlignError)

  datatype AxisResult = Found(window: Window) | Unmatched(coordinate: int)

  /** The window of one axis, or the coordinate with no match. */
  function AxisWindow(sorted: seq<int>, baseline: seq<int>): (r: AxisResult)
    requires Sorted(sorted) && baseline != []
    ensures r.Found? ==> r.window.lo < r.window.hi <= |sorted|
  {
    match (FirstIndex(sorted, Min(baseline)), FirstIndex(sorted, Max(baseline)))
    case (None, _) => Unmatched(Min(baseline))
    case (_, None) => Unmatched(Max(baseline))
    case (Some(lo), Some(hi)) =>
      assert Min(baseline) <= Max(baseline) by { assert Max(baseline) in baseline; }
      assert lo <= hi;
      Found(Window(lo, hi + 1))
  }

  /** On a sorted axis that holds both baseline extrema the window starts at the first
      occurrence of the baseline minimum, ends just after the first occurrence of the
      baseline maximum, is non-empty, and every coordinate inside it lies between the two. */
  lemma AxisWindowCovers(sorted: seq<int>, baseline: seq<int>)
    requires Sorted(sorted) && baseline != []
    ensures AxisWindow(sorted, baseline).Found? <==> Min(baseline) in sorted && Max(baseline) in sorted
    ensures AxisWindow(sorted, baseline).Unmatched? ==>
      var c := AxisWindow(sorted, baseline).coordinate;
      (c == Min(baseline) || c == Max(baseline)) && c !in sorted
    ensures AxisWindow(sorted, baseline).Found? ==>
      var w := AxisWindow(sorted, baseline).window;
      && w.lo < w.hi <= |sorted|
      && sorted[w.lo] == Min(baseline) && sorted[w.hi - 1] == Max(baseline)
      && (forall k :: 0 <= k < w.lo ==> sorted[k] < Min(baseline))
      && (forall k :: 0 <= k < w.hi - 1 ==> sorted[k] < Max(baseline))
      && (forall k :: w.lo <= k < w.hi ==> Min(baseline) <= sorted[k] <= Max(baseline))
  {
    var mn, mx := Min(baseline), Max(baseline);
    var lo, hi := FirstIndex(sorted, mn), FirstIndex(sorted, mx);
    if lo.Some? && hi.Some? {
      assert mn <= mx by { assert mx in baseline; }
      forall k | 0 <= k < lo.value ensures sorted[k] < mn {
        assert sorted[k] <= sorted[lo.value] && sorted[k] != mn;
      }
      forall k | 0 <= k < hi.value ensures sorted[k] < mx {
        assert sorted[k] <= sorted[hi.value] && sorted[k] != mx;
      }
      forall k | lo.value <= k <= hi.value ensures mn <= sorted[k] <= mx {
        assert sorted[lo.value] <= sorted[k] <= sorted[hi.value];
      }
    }
  }

  /** Lines 750-785 of `createDHWs`: sort the four axes, take the baseline extrema
      (an empty baseline axis raises in `min`), locate them in the sorted SST axes and
      slice those axes to the windows. */
  function AlignAxes(sstLat: seq<int>, sstLon: seq<int>, baseLat: seq<int>, baseLon: seq<int>): AlignResult {
    var lat, lon := Sort(sstLat), Sort(sstLon);
    if baseLat == [] || baseLon == [] then Mismatch(EmptyBaselineAxis)
    else
      match (AxisWindow(lat, baseLat), AxisWindow(lon, baseLon))
      case (Unmatched(c), _) => Mismatch(NoMatch(c))
      case (_, Unmatched(c)) => Mismatch(NoMatch(c))
      case (Found(latW), Found(lonW)) =>
        Matched(Alignment(latW, lonW, lat[latW.lo..latW.hi], lon[lonW.lo..lonW.hi]))
  }

  /** Sorting keeps the length and the set of coordinates. */
  lemma SortKeepsCoordinates(s: seq<int>)
    ensures |Sort(s)| == |s| && forall x :: x in Sort(s) <==> x in s
  {
    var sorted := Sort(s);
    assert |sorted| == |s| by { assert |multiset(sorted)| == |multiset(s)|; }
    forall x ensures x in sorted <==> x in s {
      assert x in multiset(sorted) <==> x in multiset(s);
    }
  }

  /** The slice of a sorted axis by its window runs from the baseline minimum to the
      baseline maximum, ascending, with every coordinate between the two. */
  lemma {:induction false} WindowSlice(sorted: seq<int>, baseline: seq<int>)
    requires Sorted(sorted) && baseline != [] && AxisWindow(sorted, baseline).Found?
    ensures var w := AxisWindow(sorted, baseline).window;
      var slice := sorted[w.lo..w.hi];
      && |slice| == w.hi - w.lo && Sorted(slice)
      && slice[0] == Min(baseline) && slice[|slice| - 1] == Max(baseline)
      && (forall k :: 0 <= k < |slice| ==> Min(baseline) <= slice[k] <= Max(baseline))
  {
    AxisWindowCovers(sorted, baseline);
    var w := AxisWindow(sorted, baseline).window;
    var slice := sorted[w.lo..w.hi];
    forall k | 0 <= k < |slice| ensures Min(baseline) <= slice[k] <= Max(baseline) {
      assert slice[k] == sorted[w.lo + k];
    }
  }

  /** One axis of the aligner: it finds a window exactly when both baseline extrema are
      SST coordinates. */
  lemma AxisFound(sst: seq<int>, baseline: seq<int>)
    requires baseline != []
    ensures AxisWindow(Sort(sst), baseline).Found? <==> Min(baseline) in sst && Max(baseline) in sst
  {
    SortKeepsCoordinates(sst);
    AxisWindowCovers(Sort(sst), baseline);
  }

  /** The aligner succeeds exactly when both baseline axes are non-empty and their
      extrema occur among the SST coordinates; then each sliced axis is ascending and
      runs from the baseline minimum to the baseline maximum. */
  lemma AlignAxesCorrect(sstLat: seq<int>, sstLon: seq<int>, baseLat: seq<int>, baseLon: seq<int>)
    ensures var r := AlignAxes(sstLat, sstLon, baseLat, baseLon);
      r.Matched? <==>
        baseLat != [] && baseLon != [] &&
        Min(baseLat) in sstLat && Max(baseLat) in sstLat && Min(baseLon) in sstLon && Max(baseLon) in sstLon
    ensures var r := AlignAxes(sstLat, sstLon, baseLat, baseLon);
      r.Matched? ==>
        var a := r.value;
        && a.latWindow.hi <= |sstLat| && a.lonWindow.hi <= |sstLon|
        && |a.lat| == a.latWindow.hi - a.latWindow.lo > 0 && |a.lon| == a.lonWindow.hi - a.lonWindow.lo > 0
        && Sorted(a.lat) && Sorted(a.lon)
        && a.lat[0] == Min(baseLat) && a.lat[|a.lat| - 1] == Max(baseLat)
        && a.lon[0] == Min(baseLon) && a.lon[|a.lon| - 1] == Max(baseLon)
  {
    if baseLat != [] && baseLon != [] {
      SortKeepsCoordinates(sstLat);
      SortKeepsCoordinates(sstLon);
      AxisFound(sstLat, baseLat);
      AxisFound(sstLon, baseLon);
      var lat, lon := Sort(sstLat), Sort(sstLon);
      if AxisWindow(lat, baseLat).Found? { WindowSlice(lat, baseLat); }
      if AxisWindow(lon, baseLon).Found? { WindowSlice(lon, baseLon); }
    }
  }
}
