/** The ingestion step of `BMNP_Download.downloadData.FixData`: crop a downloaded day
    grid to the configured region and record the day as freshly downloaded.
    Coordinates are integer hundredths of a degree and temperatures integer hundredths
    of a kelvin; the downloaded file carries one time step, so the grid is 2-D. */
module Ingest {
  import opened Wrappers
  import opened Select
  import Text

  /** Rows indexed by latitude, columns by longitude. */
  type Grid = seq<seq<int>>

  /** A gridded netCDF file: its `lat` and `lon` axes and its temperature variable. */
  datatype GridFile = GridFile(lat: seq<int>, lon: seq<int>, sst: Grid)

  /** The `[coordinates]` bounding box of the configuration. */
  datatype Region = Region(minLat: int, maxLat: int, minLon: int, maxLon: int)

  predicate Shaped(g: Grid, rows: nat, cols: nat) {
    |g| == rows && forall r :: 0 <= r < rows ==> |g[r]| == cols
  }

  /** The temperature variable has one row per latitude and one column per longitude. */
  predicate WellShaped(f: GridFile) {
    Shaped(f.sst, |f.lat|, |f.lon|)
  }

  /** `where((axis >= lo) & (axis <= hi))[0]`: the positions of the in-range coordinates. */
  function InBounds(axis: seq<int>, lo: int, hi: int): (idx: seq<nat>)
    ensures StrictlyIncreasing(idx)
    ensures forall j :: 0 <= j < |idx| ==> idx[j] < |axis| && lo <= axis[idx[j]] <= hi
    ensures forall i :: 0 <= i < |axis| && lo <= axis[i] <= hi ==> i in idx
  {
    Where(seq(|axis|, i requires 0 <= i < |axis| => lo <= axis[i] <= hi))
  }

  /** `temp[lat_idx, :][:, lon_idx]`. */
  function CropGrid(g: Grid, latIdx: seq<nat>, lonIdx: seq<nat>, cols: nat): Grid
    requires forall a :: 0 <= a < |latIdx| ==> latIdx[a] < |g| && |g[latIdx[a]]| == cols
    requires forall b :: 0 <= b < |lonIdx| ==> lonIdx[b] < cols
  {
    seq(|latIdx|, a requires 0 <= a < |latIdx| =>
      seq(|lonIdx|, b requires 0 <= b < |lonIdx| => g[latIdx[a]][lonIdx[b]]))
  }

  /** The crop of `FixData`: both axes filtered to the region, the grid sliced on both. */
  function Crop(f: GridFile, region: Region): GridFile
    requires WellShaped(f)
  {
    var latIdx := InBounds(f.lat, region.minLat, region.maxLat);
    var lonIdx := InBounds(f.lon, region.minLon, region.maxLon);
    GridFile(Gather(f.lat, latIdx), Gather(f.lon, lonIdx), CropGrid(f.sst, latIdx, lonIdx, |f.lon|))
  }

  /** The crop is an exact, order-preserving filter: the kept coordinates are the
      in-region ones, each axis is read at strictly increasing positions, and every
      cell of the result is the source cell at those positions. */
  lemma CropExact(f: GridFile, region: Region)
    requires WellShaped(f)
    ensures var r := Crop(f, region);
      var latIdx := InBounds(f.lat, region.minLat, region.maxLat);
      var lonIdx := InBounds(f.lon, region.minLon, region.maxLon);
      && WellShaped(r)
      && EmbedsAt(r.lat, f.lat, latIdx) && EmbedsAt(r.lon, f.lon, lonIdx)
      && (forall a :: 0 <= a < |r.lat| ==> region.minLat <= r.lat[a] <= region.maxLat)
      && (forall b :: 0 <= b < |r.lon| ==> region.minLon <= r.lon[b] <= region.maxLon)
      && (forall i :: 0 <= i < |f.lat| && region.minLat <= f.lat[i] <= region.maxLat ==> f.lat[i] in r.lat)
      && (forall i :: 0 <= i < |f.lon| && region.minLon <= f.lon[i] <= region.maxLon ==> f.lon[i] in r.lon)
      && (forall a, b :: 0 <= a < |r.lat| && 0 <= b < |r.lon| ==> r.sst[a][b] == f.sst[latIdx[a]][lonIdx[b]])
  {
    var r := Crop(f, region);
    var latIdx := InBounds(f.lat, region.minLat, region.maxLat);
    var lonIdx := InBounds(f.lon, region.minLon, region.maxLon);
    forall i | 0 <= i < |f.lat| && region.minLat <= f.lat[i] <= region.maxLat
      ensures f.lat[i] in r.lat
    {
      var a :| 0 <= a < |latIdx| && latIdx[a] == i;
      assert r.lat[a] == f.lat[i];
    }
    forall i | 0 <= i < |f.lon| && region.minLon <= f.lon[i] <= region.maxLon
      ensures f.lon[i] in r.lon
    {
      var b :| 0 <= b < |lonIdx| && lonIdx[b] == i;
      assert r.lon[b] == f.lon[i];
    }
  }

  /** The names of a listing that do not end in `.txt`, in listing order. */
  function WithoutText(names: seq<string>): (r: seq<string>)
    ensures forall n :: n in r <==> n in names && !Text.EndsWith(n, ".txt")
    decreases |names|
  {
    if names == [] then []
    else
      var init := WithoutText(names[..|names| - 1]);
      var last := names[|names| - 1];
      assert names == names[..|names| - 1] + [last];
      if Text.EndsWith(last, ".txt") then init else init + [last]
  }

  /** Which names of a listing survive the `.txt` cleanup. */
  function KeptMask(names: seq<string>): (m: seq<bool>)
    ensures |m| == |names|
  {
    seq(|names|, i requires 0 <= i < |names| => !Text.EndsWith(names[i], ".txt"))
  }

  /** The cleanup keeps listing order: what is left is the listing read at the
      positions of its non-`.txt` names, in ascending order. So its first name is the
      first non-`.txt` name of the listing. */
  lemma {:induction false} WithoutTextInOrder(names: seq<string>)
    ensures WithoutText(names) == Gather(names, Where(KeptMask(names)))
    decreases |names|
  {
    if names != [] {
      var n := |names| - 1;
      var init := names[..n];
      WithoutTextInOrder(init);
      var mask := KeptMask(names);
      assert mask[..n] == KeptMask(init);
      var idx := Where(KeptMask(init));
      assert Gather(names, idx) == Gather(init, idx);
      if mask[n] {
        assert Where(mask) == idx + [n];
        assert Gather(names, idx + [n]) == Gather(names, idx) + [names[n]];
      } else {
        assert Where(mask) == idx;
      }
    }
  }

  /** The name `listdir(...)[0]` picks after the cleanup is the first listed name that
      does not end in `.txt`: every name before it is a `.txt` file. */
  lemma FirstKept(names: seq<string>)
    requires WithoutText(names) != []
    ensures exists i :: (0 <= i < |names| && WithoutText(names)[0] == names[i]
      && !Text.EndsWith(names[i], ".txt")
      && forall j :: 0 <= j < i ==> Text.EndsWith(names[j], ".txt"))
  {
    WithoutTextInOrder(names);
    var mask := KeptMask(names);
    var idx := Where(mask);
    WhereStartsAtFirst(mask);
    var i := idx[0];
    assert mask[i];
    forall j | 0 <= j < i
      ensures Text.EndsWith(names[j], ".txt")
    {
      assert !mask[j];
    }
    assert WithoutText(names)[0] == names[i];
  }

  /** A listing after `remove` of one name. */
  function Removed(names: seq<string>, name: string): (r: seq<string>)
    ensures forall n :: n in r <==> n in names && n != name
    decreases |names|
  {
    if names == [] then []
    else
      var init := Removed(names[..|names| - 1], name);
      var last := names[|names| - 1];
      assert names == names[..|names| - 1] + [last];
      if last == name then init else init + [last]
  }

  /** Why `FixData` raised. */
  datatype FixError =
    | NoDataFile            // only `.txt` files were downloaded: `listdir(...)[0]` fails
    | Unreadable(name: string)  // the remaining file is not a readable grid file
    | Misshapen(name: string)   // its temperature variable does not match its axes

  /** `False`, `True`, or the exception that escapes. */
  datatype FixResult = NothingDownloaded | Refined | Raised(error: FixError)

  /** The download side of the pipeline: the region of interest, the download
      directory's listing, the refined SST files written so far, and the dates for
      which a download arrived. */
  class Downloader {
    const region: Region
    var downloadedDates: seq<string>
    var downloadDir: seq<string>
    var refined: map<string, GridFile>

    constructor (region: Region, downloadDir: seq<string>, refined: map<string, GridFile>)
      ensures this.region == region && this.downloadDir == downloadDir && this.refined == refined
      ensures downloadedDates == []
    {
      this.region := region;
      this.downloadDir := downloadDir;
      this.refined := refined;
      downloadedDates := [];
    }

    /** `FixData(date, ...)`; `contents` gives what each downloaded file holds. */
    method FixData(date: string, contents: map<string, GridFile>) returns (result: FixResult)
      modifies this
      // An empty download directory: report `False` and change nothing.
      ensures old(downloadDir) == [] ==>
        result == NothingDownloaded && downloadedDates == old(downloadedDates) &&
        downloadDir == old(downloadDir) && refined == old(refined)
      // Otherwise the date is appended exactly once, before any processing, and the
      // `.txt` files are gone whatever happens next.
      ensures old(downloadDir) != [] ==>
        result != NothingDownloaded && downloadedDates == old(downloadedDates) + [date]
      ensures var rest := WithoutText(old(downloadDir));
        && (old(downloadDir) != [] && rest == [] ==>
              result == Raised(NoDataFile) && downloadDir == rest && refined == old(refined))
        && (old(downloadDir) != [] && rest != [] && rest[0] !in contents ==>
              result == Raised(Unreadable(rest[0])) && downloadDir == rest && refined == old(refined))
        && (old(downloadDir) != [] && rest != [] && rest[0] in contents && !WellShaped(contents[rest[0]]) ==>
              result == Raised(Misshapen(rest[0])) && downloadDir == rest && refined == old(refined))
      // On success the cropped grid is stored as `<date>.nc` and the raw file removed.
      ensures result == Refined <==>
        old(downloadDir) != [] && WithoutText(old(downloadDir)) != [] &&
        WithoutText(old(downloadDir))[0] in contents && WellShaped(contents[WithoutText(old(downloadDir))[0]])
      ensures result == Refined ==>
        var name := WithoutText(old(downloadDir))[0];
        && refined == old(refined)[date + ".nc" := Crop(contents[name], region)]
        && downloadDir == Removed(WithoutText(old(downloadDir)), name)
    {
      if |downloadDir| == 0 {
        return NothingDownloaded;
      }
      downloadedDates := downloadedDates + [date];
      downloadDir := WithoutText(downloadDir);
      if downloadDir == [] {
        return Raised(NoDataFile);
      }
      var name := downloadDir[0];
      if name !in contents {
        return Raised(Unreadable(name));
      }
      var file := contents[name];
      if !WellShaped(file) {
        return Raised(Misshapen(name));
      }
      refined := refined[date + ".nc" := Crop(file, region)];
      downloadDir := Removed(downloadDir, name);
      return Refined;
    }
  }
}
