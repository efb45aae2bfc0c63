/** The rolling Degree Heating Weeks accumulator of `createDHWs`. Temperatures are
    integer hundredths of a kelvin and baseline values integer hundredths of a degree,
    so the offsets `273.14` and `+ 1.0` are the integers 27314 and 100 and
    `around(total, 2)` leaves the sum as it is. */
module Dhw {
  import opened Wrappers
  import opened Text
  import opened Select
  import opened Ingest
  import opened Align

  /** `273.14`, subtracted from the SST to get degrees Celsius. */
  const KelvinOffset: int := 27314
  /** `+ 1.0`, added to the maximum monthly mean to get the bleaching threshold. */
  const ThresholdOffset: int := 100
  /** Number of list entries summed for one anchor, and number of leading anchors skipped. */
  const WindowLength: nat := 84

  // ---------------------------------------------------------------------------
  // The archive's dates

  /** Places `x` into a strictly ascending list unless it is already there. */
  function InsertDistinct(x: string, s: seq<string>): (r: seq<string>)
    requires StrictlyAscending(s)
    ensures StrictlyAscending(r) && forall y :: y in r <==> y in s || y == x
    decreases |s|
  {
    if s == [] then [x]
    else if x == s[0] then s
    else if LexLess(x, s[0]) then
      assert forall j :: 0 <= j < |s| ==> LexLess(x, s[j]) by {
        forall j | 0 <= j < |s| ensures LexLess(x, s[j]) {
          if j > 0 { LexLessTransitive(x, s[0], s[j]); }
        }
      }
      [x] + s
    else
      LexLessTotal(x, s[0]);
      var rest := InsertDistinct(x, s[1..]);
      assert forall j :: 0 <= j < |rest| ==> LexLess(s[0], rest[j]) by {
        forall j | 0 <= j < |rest| ensures LexLess(s[0], rest[j]) {
          assert rest[j] in rest;
        }
      }
      assert s == [s[0]] + s[1..];
      [s[0]] + rest
  }

  /** `sort(list(set(xs)))`: the distinct strings of `xs` in ascending order. */
  function SortedDistinct(xs: seq<string>): (r: seq<string>)
    ensures StrictlyAscending(r) && forall y :: y in r <==> y in xs
    decreases |xs|
  {
    if xs == [] then []
    else
      assert xs == xs[..|xs| - 1] + [xs[|xs| - 1]];
      InsertDistinct(xs[|xs| - 1], SortedDistinct(xs[..|xs| - 1]))
  }

  /** Lines 730-735: the first ten characters of every name in the SST directory,
      de-duplicated and sorted. */
  function ArchiveDates(listing: seq<string>): (files: seq<string>)
    ensures StrictlyAscending(files)
    ensures forall d :: d in files <==> exists k :: 0 <= k < |listing| && Take(listing[k], 10) == d
  {
    var prefixes := seq(|listing|, k requires 0 <= k < |listing| => Take(listing[k], 10));
    assert forall d :: d in prefixes <==> exists k :: 0 <= k < |listing| && Take(listing[k], 10) == d by {
      forall d ensures d in prefixes <==> exists k :: 0 <= k < |listing| && Take(listing[k], 10) == d {
        if d in prefixes {
          var k :| 0 <= k < |prefixes| && prefixes[k] == d;
        }
        if exists k :: 0 <= k < |listing| && Take(listing[k], 10) == d {
          var k :| 0 <= k < |listing| && Take(listing[k], 10) == d;
          assert prefixes[k] == d;
        }
      }
    }
    SortedDistinct(prefixes)
  }

  // ---------------------------------------------------------------------------
  // One cell of one window

  /** `where(x < 0, 0, x)` for `x = sst - 273.14 - threshold`. */
  function Excess(sst: int, threshold: int): int {
    var x := sst - KelvinOffset - threshold;
    if x < 0 then 0 else x
  }

  /** Every day of the window has a value at cell `(r, c)`. */
  predicate HasCell(days: seq<Grid>, r: nat, c: nat, n: nat) {
    n <= |days| && forall i :: 0 <= i < n ==> r < |days[i]| && c < |days[i][r]|
  }

  /** The daily excesses of cell `(r, c)` over the first `n` days, summed. */
  function CellSum(days: seq<Grid>, threshold: int, r: nat, c: nat, n: nat): int
    requires HasCell(days, r, c, n)
    decreases n
  {
    if n == 0 then 0 else CellSum(days, threshold, r, c, n - 1) + Excess(days[n - 1][r][c], threshold)
  }

  /** Accumulated heat stress is never negative. */
  lemma {:induction false} CellSumNonNegative(days: seq<Grid>, threshold: int, r: nat, c: nat, n: nat)
    requires HasCell(days, r, c, n)
    ensures CellSum(days, threshold, r, c, n) >= 0
    decreases n
  {
    if n > 0 { CellSumNonNegative(days, threshold, r, c, n - 1); }
  }

  /** The sum is zero exactly when no day of the window is above the threshold at that
      cell: days below the threshold contribute nothing, never a negative amount. */
  lemma {:induction false} CellSumZero(days: seq<Grid>, threshold: int, r: nat, c: nat, n: nat)
    requires HasCell(days, r, c, n)
    ensures CellSum(days, threshold, r, c, n) == 0 <==>
      forall i :: 0 <= i < n ==> days[i][r][c] - KelvinOffset <= threshold
    decreases n
  {
    if n > 0 {
      CellSumZero(days, threshold, r, c, n - 1);
      CellSumNonNegative(days, threshold, r, c, n - 1);
    }
  }

  /** Raising the SST of any days of the window, with the baseline fixed, never lowers
      the accumulated value of that cell. */
  lemma {:induction false} CellSumMonotonic(days: seq<Grid>, warmer: seq<Grid>, threshold: int, r: nat, c: nat, n: nat)
    requires HasCell(days, r, c, n) && HasCell(warmer, r, c, n)
    requires forall i :: 0 <= i < n ==> days[i][r][c] <= warmer[i][r][c]
    ensures CellSum(days, threshold, r, c, n) <= CellSum(warmer, threshold, r, c, n)
    decreases n
  {
    if n > 0 { CellSumMonotonic(days, warmer, threshold, r, c, n - 1); }
  }

  /** Lowering one day's SST at one cell lowers the cell's sum by exactly the change in
      that day's clipped excess: the other days' contributions are untouched. */
  lemma {:induction false} CellSumOneDay(days: seq<Grid>, k: nat, v: int, threshold: int, r: nat, c: nat, n: nat)
    requires HasCell(days, r, c, n) && k < n
    ensures var changed := days[k := days[k][r := days[k][r][c := v]]];
      HasCell(changed, r, c, n) &&
      CellSum(changed, threshold, r, c, n) - CellSum(days, threshold, r, c, n)
        == Excess(v, threshold) - Excess(days[k][r][c], threshold)
    decreases n
  {
    var changed := days[k := days[k][r := days[k][r][c := v]]];
    if n - 1 > k {
      CellSumOneDay(days, k, v, threshold, r, c, n - 1);
    } else {
      assert k == n - 1;
      CellSumSame(days, changed, threshold, r, c, n - 1);
    }
  }

  /** Windows that agree at a cell on their first `n` days agree in that cell's sum. */
  lemma {:induction false} CellSumSame(a: seq<Grid>, b: seq<Grid>, threshold: int, r: nat, c: nat, n: nat)
    requires HasCell(a, r, c, n) && HasCell(b, r, c, n)
    requires forall i :: 0 <= i < n ==> a[i][r][c] == b[i][r][c]
    ensures CellSum(a, threshold, r, c, n) == CellSum(b, threshold, r, c, n)
    decreases n
  {
    if n > 0 { CellSumSame(a, b, threshold, r, c, n - 1); }
  }

  /** A day's contribution added to the end of a window raises each cell's sum by that
      day's clipped excess. */
  lemma CellSumExtend(days: seq<Grid>, g: Grid, threshold: int, r: nat, c: nat)
    requires HasCell(days, r, c, |days|) && r < |g| && c < |g[r]|
    ensures HasCell(days + [g], r, c, |days| + 1)
    ensures CellSum(days + [g], threshold, r, c, |days| + 1)
      == CellSum(days, threshold, r, c, |days|) + Excess(g[r][c], threshold)
  {
    var longer := days + [g];
    assert forall i :: 0 <= i < |days| ==> longer[i] == days[i];
    CellSumSame(days, longer, threshold, r, c, |days|);
  }

  // ---------------------------------------------------------------------------
  // Grids of one window

  /** `flip(total_dhw, 0)`: the rows in reverse order. */
  function Flip(g: Grid): (f: Grid)
    ensures |f| == |g|
  {
    seq(|g|, r requires 0 <= r < |g| => g[|g| - 1 - r])
  }

  /** Flipping twice gives back the grid; the output grid therefore carries the same
      rows as the accumulated one, bottom row first. */
  lemma FlipInvolution(g: Grid)
    ensures Flip(Flip(g)) == g
    ensures forall r :: 0 <= r < |g| ==> Flip(g)[r] == g[|g| - 1 - r]
  {
    assert forall r :: 0 <= r < |g| ==> Flip(Flip(g))[r] == g[r];
  }

  /** The bleaching threshold: every cell of the maximum monthly mean plus one degree. */
  function Threshold(mmm: Grid): (t: Grid)
    ensures |t| == |mmm|
    ensures forall r :: 0 <= r < |t| ==> |t[r]| == |mmm[r]|
  {
    seq(|mmm|, r requires 0 <= r < |mmm| =>
      seq(|mmm[r]|, c requires 0 <= c < |mmm[r]| => mmm[r][c] + ThresholdOffset))
  }

  /** Number of indices in the half-open window. */
  function Extent(w: Window): nat {
    if w.lo <= w.hi then w.hi - w.lo else 0
  }

  /** The day grid reaches past both windows of the alignment, so the slice
      `[0, lat_lo:lat_hi, lon_lo:lon_hi]` is the full window. */
  predicate Covers(g: Grid, a: Alignment) {
    a.latWindow.lo <= a.latWindow.hi <= |g| && a.lonWindow.lo <= a.lonWindow.hi &&
    forall r :: 0 <= r < |g| ==> a.lonWindow.hi <= |g[r]|
  }

  /** The slice of a day grid that the alignment selects. */
  function Cut(g: Grid, a: Alignment): (cut: Grid)
    requires Covers(g, a)
    ensures Shaped(cut, Extent(a.latWindow), Extent(a.lonWindow))
    ensures forall r, c :: 0 <= r < |cut| && 0 <= c < |cut[r]| ==>
      cut[r][c] == g[a.latWindow.lo + r][a.lonWindow.lo + c]
  {
    seq(Extent(a.latWindow), r requires 0 <= r < Extent(a.latWindow) =>
      g[a.latWindow.lo + r][a.lonWindow.lo .. a.lonWindow.hi])
  }

  /** What can stop `createDHWs`; each is an exception in the original. */
  datatype DhwError =
    | EmptyArchive                   // `files_nc[0]` of an empty listing
    | MissingFile(name: string)      // a day file that cannot be opened
    | NoBaseline                     // the maximum monthly mean file cannot be opened
    | Misaligned(cause: AlignError)  // the coordinate aligner found no match
    | ShapeMismatch(name: string)    // a day slice and the threshold differ in shape
    | NotInArchive(date: string)     // a downloaded date absent from the archive
    | IncompleteWindow               // fewer than 84 entries end at this position; both loops skip it

  datatype Result<+T> = Ok(value: T) | Err(error: DhwError)

  /** One day of a window: the day file, opened, cropped to the alignment and checked
      against the threshold's shape. */
  function Day(contents: map<string, GridFile>, name: string, a: Alignment, threshold: Grid): (r: Result<Grid>)
    ensures r.Ok? <==>
      (name in contents && Covers(contents[name].sst, a) &&
       Shaped(threshold, Extent(a.latWindow), Extent(a.lonWindow)))
    ensures r.Ok? ==> r.value == Cut(contents[name].sst, a)
  {
    if name !in contents then Err(MissingFile(name))
    else if !Covers(contents[name].sst, a) || !Shaped(threshold, Extent(a.latWindow), Extent(a.lonWindow))
    then Err(ShapeMismatch(name))
    else Ok(Cut(contents[name].sst, a))
  }

  /** The file of list entry `k`, as `files_nc[k]` names it. */
  function FileName(date: string): string { date + ".nc" }

  /** Day `i` of the window anchored at list position `k`: list entry `k - i`, whatever
      its calendar date. */
  function DayAt(files: seq<string>, contents: map<string, GridFile>, k: nat, a: Alignment, threshold: Grid, i: nat): Result<Grid>
    requires i <= k < |files|
  {
    Day(contents, FileName(files[k - i]), a, threshold)
  }

  /** The first `n` days of the window anchored at position `k`, newest first. The first
      day that cannot be used stops the window. */
  function Window(files: seq<string>, contents: map<string, GridFile>, k: nat, a: Alignment, threshold: Grid, n: nat): Result<seq<Grid>>
    requires n <= k + 1 && k < |files|
    decreases n
  {
    if n == 0 then Ok([])
    else
      match Window(files, contents, k, a, threshold, n - 1)
      case Err(e) => Err(e)
      case Ok(days) =>
        match DayAt(files, contents, k, a, threshold, n - 1)
        case Err(e) => Err(e)
        case Ok(g) => Ok(days + [g])
  }

  /** A window is complete exactly when each of its days is usable, and then day `i` of
      it is the cropped grid of list entry `k - i`. */
  lemma {:induction false} WindowDays(files: seq<string>, contents: map<string, GridFile>, k: nat, a: Alignment, threshold: Grid, n: nat)
    requires n <= k + 1 && k < |files|
    ensures var w := Window(files, contents, k, a, threshold, n);
      w.Ok? <==> forall i :: 0 <= i < n ==> DayAt(files, contents, k, a, threshold, i).Ok?
    ensures var w := Window(files, contents, k, a, threshold, n);
      w.Ok? ==> (|w.value| == n &&
        forall i :: 0 <= i < n ==> DayAt(files, contents, k, a, threshold, i) == Ok(w.value[i]))
    decreases n
  {
    if n > 0 {
      WindowDays(files, contents, k, a, threshold, n - 1);
      var w := Window(files, contents, k, a, threshold, n - 1);
      if w.Ok? && DayAt(files, contents, k, a, threshold, n - 1).Ok? {
        var longer := w.value + [DayAt(files, contents, k, a, threshold, n - 1).value];
        assert forall i :: 0 <= i < n - 1 ==> longer[i] == w.value[i];
      }
    }
  }

  /** A complete window has the threshold's shape on every day. */
  lemma WindowShaped(files: seq<string>, contents: map<string, GridFile>, k: nat, a: Alignment, threshold: Grid, n: nat)
    requires 0 < n <= k + 1 && k < |files|
    requires Window(files, contents, k, a, threshold, n).Ok?
    ensures var days := Window(files, contents, k, a, threshold, n).value;
      Shaped(threshold, Extent(a.latWindow), Extent(a.lonWindow)) &&
      |days| == n && forall i :: 0 <= i < |days| ==> Shaped(days[i], Extent(a.latWindow), Extent(a.lonWindow))
  {
    WindowDays(files, contents, k, a, threshold, n);
    assert DayAt(files, contents, k, a, threshold, 0).Ok?;
  }

  /** Once a window has stopped, a longer one stops with the same error. */
  lemma {:induction false} WindowStops(files: seq<string>, contents: map<string, GridFile>, k: nat, a: Alignment, threshold: Grid, n: nat, m: nat)
    requires n <= m <= k + 1 && k < |files|
    requires Window(files, contents, k, a, threshold, n).Err?
    ensures Window(files, contents, k, a, threshold, m) == Window(files, contents, k, a, threshold, n)
    decreases m
  {
    if m > n { WindowStops(files, contents, k, a, threshold, n, m - 1); }
  }

  /** The accumulated grid of a window: cell `(r, c)` is the window's clipped excess over
      the threshold of that cell. */
  function WindowSum(days: seq<Grid>, threshold: Grid, rows: nat, cols: nat): (s: Grid)
    requires Shaped(threshold, rows, cols)
    requires forall i :: 0 <= i < |days| ==> Shaped(days[i], rows, cols)
    ensures Shaped(s, rows, cols)
    ensures forall r, c :: 0 <= r < rows && 0 <= c < cols ==>
      HasCell(days, r, c, |days|) && s[r][c] == CellSum(days, threshold[r][c], r, c, |days|)
  {
    assert forall r, c :: 0 <= r < rows && 0 <= c < cols ==> HasCell(days, r, c, |days|) by {
      forall r, c | 0 <= r < rows && 0 <= c < cols ensures HasCell(days, r, c, |days|) {
        forall i | 0 <= i < |days| ensures r < |days[i]| && c < |days[i][r]| {
          assert Shaped(days[i], rows, cols);
        }
      }
    }
    seq(rows, r requires 0 <= r < rows =>
      seq(cols, c requires 0 <= c < cols => CellSum(days, threshold[r][c], r, c, |days|)))
  }

  /** The analysis state `createDHWs` sets up before either branch runs. */
  datatype Context = Context(files: seq<string>, align: Alignment, threshold: Grid)

  /** Lines 730-757: the archive's sorted dates, the coordinates of its first file
      aligned with the baseline, and the bleaching threshold. */
  function Setup(listing: seq<string>, contents: map<string, GridFile>, baseline: Option<GridFile>): (r: Result<Context>)
    ensures r == Err(EmptyArchive) <==> ArchiveDates(listing) == []
    ensures r.Ok? ==> (
      var files := ArchiveDates(listing);
      files != [] && r.value.files == files && FileName(files[0]) in contents && baseline.Some? &&
      AlignAxes(contents[FileName(files[0])].lat, contents[FileName(files[0])].lon, baseline.value.lat, baseline.value.lon)
        == Matched(r.value.align) &&
      r.value.threshold == Threshold(baseline.value.sst))
  {
    var files := ArchiveDates(listing);
    if files == [] then Err(EmptyArchive)
    else if FileName(files[0]) !in contents then Err(MissingFile(FileName(files[0])))
    else if baseline.None? then Err(NoBaseline)
    else
      var first := contents[FileName(files[0])];
      match AlignAxes(first.lat, first.lon, baseline.value.lat, baseline.value.lon)
      case Mismatch(e) => Err(Misaligned(e))
      case Matched(a) => Ok(Context(files, a, Threshold(baseline.value.sst)))
  }

  /** The DHW file written for anchor position `k`: the aligned coordinates and the
      window sum with its rows flipped. */
  function AnchorDhw(ctx: Context, contents: map<string, GridFile>, k: nat): (r: Result<GridFile>)
    requires WindowLength <= k + 1 && k < |ctx.files|
  {
    match Window(ctx.files, contents, k, ctx.align, ctx.threshold, WindowLength)
    case Err(e) => Err(e)
    case Ok(days) =>
      WindowShaped(ctx.files, contents, k, ctx.align, ctx.threshold, WindowLength);
      var rows, cols := Extent(ctx.align.latWindow), Extent(ctx.align.lonWindow);
      Ok(GridFile(ctx.align.lat, ctx.align.lon, Flip(WindowSum(days, ctx.threshold, rows, cols))))
  }

  /** Every cell of the accumulated grid is non-negative, and vanishes exactly when the
      cell never rose above its threshold on any day of the window. */
  lemma WindowSumCells(days: seq<Grid>, threshold: Grid, rows: nat, cols: nat)
    requires Shaped(threshold, rows, cols)
    requires forall i :: 0 <= i < |days| ==> Shaped(days[i], rows, cols)
    ensures forall r, c :: 0 <= r < rows && 0 <= c < cols ==>
      WindowSum(days, threshold, rows, cols)[r][c] >= 0 &&
      (WindowSum(days, threshold, rows, cols)[r][c] == 0 <==>
       forall i :: 0 <= i < |days| ==> days[i][r][c] - KelvinOffset <= threshold[r][c])
  {
    var sum := WindowSum(days, threshold, rows, cols);
    forall r, c | 0 <= r < rows && 0 <= c < cols
      ensures sum[r][c] >= 0
      ensures sum[r][c] == 0 <==> forall i :: 0 <= i < |days| ==> days[i][r][c] - KelvinOffset <= threshold[r][c]
    {
      CellSumNonNegative(days, threshold[r][c], r, c, |days|);
      CellSumZero(days, threshold[r][c], r, c, |days|);
    }
  }

  /** The DHW grid of a complete window carries the aligned coordinates, and its row `r`
      holds the sums of accumulated row `rows - 1 - r`: the sum over the 84 list entries
      ending at `k` of each day's clipped excess. */
  lemma AnchorDhwCells(ctx: Context, contents: map<string, GridFile>, k: nat)
    requires WindowLength <= k + 1 && k < |ctx.files|
    ensures var w := Window(ctx.files, contents, k, ctx.align, ctx.threshold, WindowLength);
      AnchorDhw(ctx, contents, k).Ok? <==> w.Ok?
    ensures var w := Window(ctx.files, contents, k, ctx.align, ctx.threshold, WindowLength);
      var rows, cols := Extent(ctx.align.latWindow), Extent(ctx.align.lonWindow);
      w.Ok? ==> (
        var out := AnchorDhw(ctx, contents, k).value;
        out.lat == ctx.align.lat && out.lon == ctx.align.lon && Shaped(out.sst, rows, cols) &&
        forall r, c :: 0 <= r < rows && 0 <= c < cols ==>
          HasCell(w.value, rows - 1 - r, c, |w.value|) &&
          out.sst[r][c] == CellSum(w.value, ctx.threshold[rows - 1 - r][c], rows - 1 - r, c, |w.value|))
  {
    var w := Window(ctx.files, contents, k, ctx.align, ctx.threshold, WindowLength);
    if w.Ok? {
      WindowShaped(ctx.files, contents, k, ctx.align, ctx.threshold, WindowLength);
      var rows, cols := Extent(ctx.align.latWindow), Extent(ctx.align.lonWindow);
      var sum := WindowSum(w.value, ctx.threshold, rows, cols);
      FlipInvolution(sum);
      assert AnchorDhw(ctx, contents, k).value.sst == Flip(sum);
    }
  }

  /** The threshold of cell `(r, c)`, where the threshold grid has one. */
  function ThresholdAt(threshold: Grid, r: nat, c: nat): int {
    if r < |threshold| && c < |threshold[r]| then threshold[r][c] else 0
  }

  /** Cell `(r, c)` of the running total holds the clipped excess of the window's days so
      far; before the first day every cell is zero. */
  predicate CellDone(v: int, days: seq<Grid>, threshold: Grid, r: nat, c: nat) {
    HasCell(days, r, c, |days|) && v == CellSum(days, ThresholdAt(threshold, r, c), r, c, |days|)
  }

  /** Every cell of the running total is up to date with the window's days so far. */
  predicate Accumulated(total: array2<int>, days: seq<Grid>, threshold: Grid)
    reads total
  {
    forall r, c :: 0 <= r < total.Length0 && 0 <= c < total.Length1 ==> CellDone(total[r, c], days, threshold, r, c)
  }

  /** `total_dhw += sst_data_dailydhw`: one more day's clipped excess is added onto the
      running total, cell by cell. */
  method AddDay(total: array2<int>, ghost days: seq<Grid>, day: Grid, threshold: Grid)
    requires Shaped(day, total.Length0, total.Length1)
    requires Accumulated(total, days, threshold)
    modifies total
    ensures Accumulated(total, days + [day], threshold)
  {
    for r := 0 to total.Length0
      invariant forall r', c :: 0 <= r' < r && 0 <= c < total.Length1 ==> CellDone(total[r', c], days + [day], threshold, r', c)
      invariant forall r', c :: r <= r' < total.Length0 && 0 <= c < total.Length1 ==> CellDone(total[r', c], days, threshold, r', c)
    {
      for c := 0 to total.Length1
        invariant forall r', c' :: 0 <= r' < r && 0 <= c' < total.Length1 ==> CellDone(total[r', c'], days + [day], threshold, r', c')
        invariant forall c' :: 0 <= c' < c ==> CellDone(total[r, c'], days + [day], threshold, r, c')
        invariant forall c' :: c <= c' < total.Length1 ==> CellDone(total[r, c'], days, threshold, r, c')
        invariant forall r', c' :: r < r' < total.Length0 && 0 <= c' < total.Length1 ==> CellDone(total[r', c'], days, threshold, r', c')
      {
        assert CellDone(total[r, c], days, threshold, r, c);
        CellSumExtend(days, day, ThresholdAt(threshold, r, c), r, c);
        total[r, c] := total[r, c] + Excess(day[r][c], ThresholdAt(threshold, r, c));
      }
    }
  }

  /** The values of a 2-D array as rows of a grid. */
  method Snapshot(a: array2<int>) returns (g: Grid)
    ensures Shaped(g, a.Length0, a.Length1)
    ensures forall r, c :: 0 <= r < a.Length0 && 0 <= c < a.Length1 ==> g[r][c] == a[r, c]
  {
    g := seq(a.Length0, r requires 0 <= r < a.Length0 reads a =>
      seq(a.Length1, c requires 0 <= c < a.Length1 reads a => a[r, c]));
  }

  /** The 84-iteration loop of `createDHWs` for the anchor at list position `k`: open
      each day from the anchor backwards, add its clipped excess to the total, then flip
      the rows. It computes exactly the DHW grid the anchor defines. */
  method AnchorGrid(ctx: Context, contents: map<string, GridFile>, k: nat) returns (r: Result<GridFile>)
    requires WindowLength <= k + 1 && k < |ctx.files|
    ensures r == AnchorDhw(ctx, contents, k)
  {
    var rows, cols := Extent(ctx.align.latWindow), Extent(ctx.align.lonWindow);
    var total := new int[rows, cols]((r, c) => 0);
    ghost var days: seq<Grid> := [];
    for i := 0 to WindowLength
      invariant Window(ctx.files, contents, k, ctx.align, ctx.threshold, i) == Ok(days)
      invariant |days| == i
      invariant Accumulated(total, days, ctx.threshold)
    {
      var day := DayAt(ctx.files, contents, k, ctx.align, ctx.threshold, i);
      if day.Err? {
        WindowStops(ctx.files, contents, k, ctx.align, ctx.threshold, i + 1, WindowLength);
        return Err(day.error);
      }
      AddDay(total, days, day.value, ctx.threshold);
      days := days + [day.value];
    }
    var sum := Snapshot(total);
    WindowShaped(ctx.files, contents, k, ctx.align, ctx.threshold, WindowLength);
    var expected := WindowSum(days, ctx.threshold, rows, cols);
    forall r, c | 0 <= r < rows && 0 <= c < cols ensures sum[r][c] == expected[r][c] {
      assert CellDone(total[r, c], days, ctx.threshold, r, c);
    }
    forall r | 0 <= r < rows ensures sum[r] == expected[r] { }
    assert sum == WindowSum(days, ctx.threshold, rows, cols);
    r := Ok(GridFile(ctx.align.lat, ctx.align.lon, Flip(sum)));
  }

  // ---------------------------------------------------------------------------
  // Which anchors are written

  /** `f"{file[0:10]}.nc"` for `file` in `files_nc`: the DHW file name the daily sweep
      checks and writes for a list entry. */
  function SweepName(date: string): string {
    Take(FileName(date), 10) + ".nc"
  }

  /** What a run leaves behind: how it ended and the DHW directory afterwards. */
  datatype Run = Run(outcome: Outcome<DhwError>, outputs: map<string, GridFile>)

  /** The DHW grid of every anchor position of the archive; positions before the first
      complete window hold `IncompleteWindow`, which the sweeps never look at. */
  function Anchors(ctx: Context, contents: map<string, GridFile>): (anchors: seq<Result<GridFile>>)
    ensures |anchors| == |ctx.files|
    ensures forall k :: 0 <= k < |ctx.files| && k < WindowLength ==> anchors[k] == Err(IncompleteWindow)
    ensures forall k :: WindowLength <= k < |ctx.files| ==> anchors[k] == AnchorDhw(ctx, contents, k)
  {
    seq(|ctx.files|, k requires 0 <= k < |ctx.files| =>
      if k < WindowLength then Err(IncompleteWindow) else AnchorDhw(ctx, contents, k))
  }

  /** The `delete_singles` sweep from list position `idx` on: an entry is skipped when it
      is among the first 84 or its DHW file already exists; otherwise the anchor's DHW
      grid is written, and the first window that cannot be computed stops the sweep. */
  function Sweep(files: seq<string>, anchors: seq<Result<GridFile>>, outputs: map<string, GridFile>, idx: nat): Run
    requires |anchors| == |files|
    decreases |files| - idx
  {
    if idx >= |files| then Run(Pass, outputs)
    else if SweepName(files[idx]) in outputs || idx < WindowLength then Sweep(files, anchors, outputs, idx + 1)
    else
      match anchors[idx]
      case Err(e) => Run(Fail(e), outputs)
      case Ok(g) => Sweep(files, anchors, outputs[SweepName(files[idx]) := g], idx + 1)
  }

  /** The refresh over the downloaded dates from the `j`-th on: each is looked up in the
      archive and, unless it is among the first 84 entries, its DHW file is written
      whether or not one exists. */
  function Refresh(files: seq<string>, anchors: seq<Result<GridFile>>, outputs: map<string, GridFile>, dates: seq<string>, j: nat): Run
    requires |anchors| == |files|
    decreases |dates| - j
  {
    if j >= |dates| then Run(Pass, outputs)
    else
      match FirstIndex(files, dates[j])
      case None => Run(Fail(NotInArchive(dates[j])), outputs)
      case Some(k) =>
        if k < WindowLength then Refresh(files, anchors, outputs, dates, j + 1)
        else
          match anchors[k]
          case Err(e) => Run(Fail(e), outputs)
          case Ok(g) => Refresh(files, anchors, outputs[FileName(dates[j]) := g], dates, j + 1)
  }

  /** `createDHWs` as a whole: the set-up, then the sweep, the refresh, or nothing. */
  function CreateDhwsRun(listing: seq<string>, contents: map<string, GridFile>, baseline: Option<GridFile>,
                         deleteSingles: bool, datesMissing: bool, downloaded: seq<string>,
                         outputs: map<string, GridFile>): Run
  {
    match Setup(listing, contents, baseline)
    case Err(e) => Run(Fail(e), outputs)
    case Ok(ctx) =>
      if deleteSingles then Sweep(ctx.files, Anchors(ctx, contents), outputs, 0)
      else if datesMissing then Refresh(ctx.files, Anchors(ctx, contents), outputs, downloaded, 0)
      else Run(Pass, outputs)
  }

  /** `g` is the grid of an anchor at position `from` or later (and never among the
      first 84) whose sweep name is `name`. */
  predicate SweptFrom(files: seq<string>, anchors: seq<Result<GridFile>>, from: nat, name: string, g: GridFile)
    requires |anchors| == |files|
  {
    exists k :: from <= k < |files| && WindowLength <= k && SweepName(files[k]) == name && anchors[k] == Ok(g)
  }

  /** The sweep never rewrites or removes a DHW file that exists. */
  lemma {:induction false} SweepKeeps(files: seq<string>, anchors: seq<Result<GridFile>>, outputs: map<string, GridFile>, idx: nat)
    requires |anchors| == |files|
    ensures var run := Sweep(files, anchors, outputs, idx);
      forall name :: name in outputs ==> name in run.outputs && run.outputs[name] == outputs[name]
    decreases |files| - idx
  {
    if idx < |files| {
      var name := SweepName(files[idx]);
      if name in outputs || idx < WindowLength {
        SweepKeeps(files, anchors, outputs, idx + 1);
      } else if anchors[idx].Ok? {
        SweepKeeps(files, anchors, outputs[name := anchors[idx].value], idx + 1);
      }
    }
  }

  /** An anchor found from one position on is found from any earlier one. */
  lemma SweptEarlier(files: seq<string>, anchors: seq<Result<GridFile>>, from: nat, name: string, g: GridFile)
    requires |anchors| == |files| && SweptFrom(files, anchors, from + 1, name, g)
    ensures SweptFrom(files, anchors, from, name, g)
  {
    var k :| from + 1 <= k < |files| && WindowLength <= k && SweepName(files[k]) == name && anchors[k] == Ok(g);
    assert from <= k;
  }

  /** Every DHW file the sweep writes holds the grid of an anchor at position 84 or
      later, under that anchor's name. */
  lemma {:induction false} SweepSound(files: seq<string>, anchors: seq<Result<GridFile>>, outputs: map<string, GridFile>, idx: nat)
    requires |anchors| == |files|
    ensures var run := Sweep(files, anchors, outputs, idx);
      forall name :: name in run.outputs && name !in outputs ==> SweptFrom(files, anchors, idx, name, run.outputs[name])
    decreases |files| - idx
  {
    if idx < |files| {
      var name := SweepName(files[idx]);
      var skip := name in outputs || idx < WindowLength;
      if skip || anchors[idx].Ok? {
        var next := if skip then outputs else outputs[name := anchors[idx].value];
        var run := Sweep(files, anchors, next, idx + 1);
        assert Sweep(files, anchors, outputs, idx) == run;
        SweepSound(files, anchors, next, idx + 1);
        SweepKeeps(files, anchors, next, idx + 1);
        forall n | n in run.outputs && n !in outputs
          ensures SweptFrom(files, anchors, idx, n, run.outputs[n])
        {
          if n in next {
            assert !skip && n == name && run.outputs[n] == anchors[idx].value;
            assert SweepName(files[idx]) == n && anchors[idx] == Ok(run.outputs[n]);
          } else {
            SweptEarlier(files, anchors, idx, n, run.outputs[n]);
          }
        }
      }
    }
  }

  /** A sweep that finishes leaves a DHW file for every entry from position 84 on. */
  lemma {:induction false} SweepComplete(files: seq<string>, anchors: seq<Result<GridFile>>, outputs: map<string, GridFile>, idx: nat)
    requires |anchors| == |files|
    requires Sweep(files, anchors, outputs, idx).outcome.Pass?
    ensures forall k :: idx <= k < |files| && WindowLength <= k ==>
      SweepName(files[k]) in Sweep(files, anchors, outputs, idx).outputs
    decreases |files| - idx
  {
    if idx < |files| {
      var name := SweepName(files[idx]);
      if name in outputs || idx < WindowLength {
        SweepComplete(files, anchors, outputs, idx + 1);
        SweepKeeps(files, anchors, outputs, idx + 1);
      } else {
        var next := outputs[name := anchors[idx].value];
        assert Sweep(files, anchors, outputs, idx) == Sweep(files, anchors, next, idx + 1);
        SweepComplete(files, anchors, next, idx + 1);
        SweepKeeps(files, anchors, next, idx + 1);
      }
    }
  }

  /** `g` is the grid of the anchor of a downloaded date, from the `from`-th on, whose
      position in the archive is 84 or later and whose DHW file is `name`. */
  ghost predicate RefreshedFrom(files: seq<string>, anchors: seq<Result<GridFile>>, dates: seq<string>, from: nat, name: string, g: GridFile)
    requires |anchors| == |files|
  {
    exists j, k :: from <= j < |dates| && FileName(dates[j]) == name && FirstIndex(files, dates[j]) == Some(k) &&
      WindowLength <= k && anchors[k] == Ok(g)
  }

  /** The DHW file of a date names that date alone. */
  lemma FileNameInjective(a: string, b: string)
    requires FileName(a) == FileName(b)
    ensures a == b
  {
    assert a == FileName(a)[..|a|] && b == FileName(b)[..|b|];
  }

  /** Date `d`, when the refresh reaches it, leaves `g` in its DHW file or writes
      nothing there. */
  predicate RewritesWith(files: seq<string>, anchors: seq<Result<GridFile>>, d: string, g: GridFile)
    requires |anchors| == |files|
  {
    match FirstIndex(files, d)
    case None => true
    case Some(k) => k < WindowLength || anchors[k].Err? || anchors[k] == Ok(g)
  }

  /** Date `d` is in the archive and, from position 84 on, its DHW file holds the grid
      of its anchor. */
  predicate Refreshed(files: seq<string>, anchors: seq<Result<GridFile>>, outputs: map<string, GridFile>, d: string)
    requires |anchors| == |files|
  {
    match FirstIndex(files, d)
    case None => false
    case Some(k) => k < WindowLength || (FileName(d) in outputs && anchors[k] == Ok(outputs[FileName(d)]))
  }

  /** A DHW file the refresh would only ever rewrite with its present grid keeps it. */
  lemma {:induction false} RefreshKeeps(files: seq<string>, anchors: seq<Result<GridFile>>, outputs: map<string, GridFile>,
                                        dates: seq<string>, j: nat, name: string)
    requires |anchors| == |files| && name in outputs
    requires forall j' :: j <= j' < |dates| && FileName(dates[j']) == name ==>
      RewritesWith(files, anchors, dates[j'], outputs[name])
    ensures var run := Refresh(files, anchors, outputs, dates, j);
      name in run.outputs && run.outputs[name] == outputs[name]
    decreases |dates| - j
  {
    if j < |dates| {
      var found := FirstIndex(files, dates[j]);
      if found.Some? && found.value >= WindowLength && anchors[found.value].Ok? {
        var next := outputs[FileName(dates[j]) := anchors[found.value].value];
        assert Refresh(files, anchors, outputs, dates, j) == Refresh(files, anchors, next, dates, j + 1);
        RefreshKeeps(files, anchors, next, dates, j + 1, name);
      } else if found.Some? {
        RefreshKeeps(files, anchors, outputs, dates, j + 1, name);
      }
    }
  }

  /** A refresh that finishes has found every downloaded date in the archive, and leaves
      for each one from position 84 on a DHW file holding that anchor's grid, rewritten
      whether or not a file existed before. */
  lemma {:induction false} RefreshComplete(files: seq<string>, anchors: seq<Result<GridFile>>, outputs: map<string, GridFile>,
                                           dates: seq<string>, j: nat)
    requires |anchors| == |files|
    requires Refresh(files, anchors, outputs, dates, j).outcome.Pass?
    ensures forall j' :: j <= j' < |dates| ==> Refreshed(files, anchors, Refresh(files, anchors, outputs, dates, j).outputs, dates[j'])
    decreases |dates| - j
  {
    if j < |dates| {
      var d := dates[j];
      var k := FirstIndex(files, d).value;
      if k < WindowLength {
        RefreshComplete(files, anchors, outputs, dates, j + 1);
      } else {
        var g := anchors[k].value;
        var next := outputs[FileName(d) := g];
        var run := Refresh(files, anchors, next, dates, j + 1);
        assert Refresh(files, anchors, outputs, dates, j) == run;
        RefreshComplete(files, anchors, next, dates, j + 1);
        forall j' | j + 1 <= j' < |dates| && FileName(dates[j']) == FileName(d)
          ensures RewritesWith(files, anchors, dates[j'], next[FileName(d)])
        {
          FileNameInjective(dates[j'], d);
        }
        RefreshKeeps(files, anchors, next, dates, j + 1, FileName(d));
        assert Refreshed(files, anchors, run.outputs, d);
      }
    }
  }

  /** Every DHW file the refresh adds or changes holds the grid of the anchor of a
      downloaded date at position 84 or later, under that date's name. */
  lemma {:induction false} RefreshSound(files: seq<string>, anchors: seq<Result<GridFile>>, outputs: map<string, GridFile>,
                                        dates: seq<string>, j: nat)
    requires |anchors| == |files|
    ensures var run := Refresh(files, anchors, outputs, dates, j);
      forall name :: name in run.outputs && (name in outputs ==> run.outputs[name] != outputs[name]) ==>
        RefreshedFrom(files, anchors, dates, j, name, run.outputs[name])
    decreases |dates| - j
  {
    if j < |dates| && FirstIndex(files, dates[j]).Some? {
      var k := FirstIndex(files, dates[j]).value;
      var write := k >= WindowLength && anchors[k].Ok?;
      if k < WindowLength || write {
        var name := FileName(dates[j]);
        var next := if write then outputs[name := anchors[k].value] else outputs;
        var run := Refresh(files, anchors, next, dates, j + 1);
        assert Refresh(files, anchors, outputs, dates, j) == run;
        RefreshSound(files, anchors, next, dates, j + 1);
        forall n | n in run.outputs && (n in outputs ==> run.outputs[n] != outputs[n])
          ensures RefreshedFrom(files, anchors, dates, j, n, run.outputs[n])
        {
          if n in next && run.outputs[n] == next[n] {
            assert write && n == name;
            assert anchors[k] == Ok(run.outputs[n]);
          } else {
            var j', k' :| j + 1 <= j' < |dates| && FileName(dates[j']) == n && FirstIndex(files, dates[j']) == Some(k') &&
              WindowLength <= k' && anchors[k'] == Ok(run.outputs[n]);
          }
        }
      }
    }
  }

  /** How the flags decide what `createDHWs` does to the DHW directory: a failed set-up
      or neither flag leaves it untouched; the `delete_singles` sweep keeps every
      existing file and, when it finishes, covers every entry from position 84 on; a
      refresh that finishes found every downloaded date in the archive. */
  lemma CreateDhwsPolicy(listing: seq<string>, contents: map<string, GridFile>, baseline: Option<GridFile>,
                         deleteSingles: bool, datesMissing: bool, downloaded: seq<string>,
                         outputs: map<string, GridFile>)
    ensures var run := CreateDhwsRun(listing, contents, baseline, deleteSingles, datesMissing, downloaded, outputs);
      (Setup(listing, contents, baseline).Err? || (!deleteSingles && !datesMissing)) ==> run.outputs == outputs
    ensures var run := CreateDhwsRun(listing, contents, baseline, deleteSingles, datesMissing, downloaded, outputs);
      deleteSingles ==> forall name :: name in outputs ==> name in run.outputs && run.outputs[name] == outputs[name]
    ensures var run := CreateDhwsRun(listing, contents, baseline, deleteSingles, datesMissing, downloaded, outputs);
      var files := ArchiveDates(listing);
      deleteSingles && run.outcome.Pass? ==>
        forall k :: WindowLength <= k < |files| ==> SweepName(files[k]) in run.outputs
    ensures var run := CreateDhwsRun(listing, contents, baseline, deleteSingles, datesMissing, downloaded, outputs);
      !deleteSingles && datesMissing && run.outcome.Pass? ==>
        forall d :: d in downloaded ==> d in ArchiveDates(listing)
  {
    var setup := Setup(listing, contents, baseline);
    if setup.Ok? {
      var ctx := setup.value;
      var anchors := Anchors(ctx, contents);
      if deleteSingles {
        SweepKeeps(ctx.files, anchors, outputs, 0);
        if Sweep(ctx.files, anchors, outputs, 0).outcome.Pass? {
          SweepComplete(ctx.files, anchors, outputs, 0);
        }
      } else if datesMissing && Refresh(ctx.files, anchors, outputs, downloaded, 0).outcome.Pass? {
        RefreshComplete(ctx.files, anchors, outputs, downloaded, 0);
        forall d | d in downloaded ensures d in ctx.files {
          var j :| 0 <= j < |downloaded| && downloaded[j] == d;
          assert Refreshed(ctx.files, anchors, Refresh(ctx.files, anchors, outputs, downloaded, 0).outputs, d);
        }
      }
    }
  }

  // ---------------------------------------------------------------------------
  // The DHW directory

  /** The `nc_dhw` directory: one DHW grid per file name. */
  class DhwArchive {
    var outputs: map<string, GridFile>

    constructor(outputs: map<string, GridFile>)
      ensures this.outputs == outputs
    {
      this.outputs := outputs;
    }

    /** The `delete_singles` loop: every list entry from position 84 on whose DHW file
        does not exist yet gets one. */
    method SweepAll(ctx: Context, contents: map<string, GridFile>) returns (result: Outcome<DhwError>)
      modifies this
      ensures Run(result, outputs) == Sweep(ctx.files, Anchors(ctx, contents), old(outputs), 0)
    {
      ghost var anchors := Anchors(ctx, contents);
      ghost var final := Sweep(ctx.files, anchors, outputs, 0);
      for idx := 0 to |ctx.files|
        invariant Sweep(ctx.files, anchors, outputs, idx) == final
      {
        var name := Take(FileName(ctx.files[idx]), 10) + ".nc";
        if name in outputs || idx < WindowLength {
          continue;
        }
        var dhw := AnchorGrid(ctx, contents, idx);
        assert anchors[idx] == dhw;
        if dhw.Err? {
          return Fail(dhw.error);
        }
        outputs := outputs[name := dhw.value];
      }
      result := Pass;
    }

    /** The loop over the freshly downloaded dates: each is looked up in the archive and,
        from position 84 on, its DHW file is written again. */
    method RefreshAll(ctx: Context, contents: map<string, GridFile>, downloaded: seq<string>) returns (result: Outcome<DhwError>)
      modifies this
      ensures Run(result, outputs) == Refresh(ctx.files, Anchors(ctx, contents), old(outputs), downloaded, 0)
    {
      ghost var anchors := Anchors(ctx, contents);
      ghost var final := Refresh(ctx.files, anchors, outputs, downloaded, 0);
      for j := 0 to |downloaded|
        invariant Refresh(ctx.files, anchors, outputs, downloaded, j) == final
      {
        var date := downloaded[j];
        var found := FirstIndex(ctx.files, date);
        if found.None? {
          return Fail(NotInArchive(date));
        }
        var k := found.value;
        if k < WindowLength {
          continue;
        }
        var dhw := AnchorGrid(ctx, contents, k);
        assert anchors[k] == dhw;
        if dhw.Err? {
          return Fail(dhw.error);
        }
        outputs := outputs[FileName(date) := dhw.value];
      }
      result := Pass;
    }

    /** `createDHWs`: set up from the SST directory and the baseline, then run the
        `delete_singles` sweep, else the refresh of the downloaded dates when dates were
        missing, else nothing. The directory ends as the run specifies. */
    method CreateDhws(listing: seq<string>, contents: map<string, GridFile>, baseline: Option<GridFile>,
                      deleteSingles: bool, datesMissing: bool, downloaded: seq<string>)
      returns (result: Outcome<DhwError>)
      modifies this
      ensures Run(result, outputs) ==
        CreateDhwsRun(listing, contents, baseline, deleteSingles, datesMissing, downloaded, old(outputs))
    {
      var setup := Setup(listing, contents, baseline);
      if setup.Err? {
        return Fail(setup.error);
      }
      if deleteSingles {
        result := SweepAll(setup.value, contents);
      } else if datesMissing {
        result := RefreshAll(setup.value, contents, downloaded);
      } else {
        result := Pass;
      }
    }
  }
}
