/** The date ledger of `BMNP_Data`: `makeDateList` enumerates the calendar days from the
    start date to the end date inclusive, and `checkMissingDates` keeps those whose
    `<date>.nc` file is absent from the listing of the refined SST directory. */
module Ledger {
  import opened Wrappers
  import opened Calendar
  import opened Select
  import DateLayout

  /** `int((end - start).days) + 1` as a `range` length: no days when `end` precedes `start`. */
  function DayCount(start: Date, end: Date): nat
    requires Valid(start) && Valid(end)
  {
    if Ordinal(start) <= Ordinal(end) then Ordinal(end) - Ordinal(start) + 1 else 0
  }

  /** `[start + timedelta(n) for n in range(...)]`: consecutive calendar days from `start`. */
  function DaysBetween(start: Date, end: Date): (r: seq<Date>)
    requires Valid(start) && Valid(end)
    ensures |r| == DayCount(start, end)
    ensures forall i :: 0 <= i < |r| ==> Valid(r[i]) && Ordinal(r[i]) == Ordinal(start) + i
    ensures |r| > 0 ==> r[0] == start && r[|r| - 1] == end
  {
    var n := DayCount(start, end);
    if n == 0 then []
    else
      AddDaysReaches(start, end);
      seq(n, i requires 0 <= i < n => AddDays(start, i))
  }

  /** `makeDateList`: both bounds are read with `strptime('%Y-%m-%d')` (a bound it refuses
      raises, here `None`), then every day in range is written with `strftime`. */
  function MakeDateList(startDate: string, endDate: string): (r: Option<seq<string>>)
    ensures r.None? <==> ParseIsoDate(startDate).None? || ParseIsoDate(endDate).None?
  {
    match (ParseIsoDate(startDate), ParseIsoDate(endDate))
    case (Some(start), Some(end)) =>
      var days := DaysBetween(start, end);
      Some(seq(|days|, i requires 0 <= i < |days| => Format(days[i])))
    case _ => None
  }

  /** The list holds exactly one entry per day of the range, in order: the `i`-th entry
      is the day `i` days after the start. */
  lemma MakeDateListDays(startDate: string, endDate: string)
    requires ParseIsoDate(startDate).Some? && ParseIsoDate(endDate).Some?
    ensures var start, end := ParseIsoDate(startDate).value, ParseIsoDate(endDate).value;
      var r := MakeDateList(startDate, endDate).value;
      && |r| == DayCount(start, end)
      && (forall i :: 0 <= i < |r| ==> ParseIsoDate(r[i]).Some? && Ordinal(ParseIsoDate(r[i]).value) == Ordinal(start) + i)
  {
    var start, end := ParseIsoDate(startDate).value, ParseIsoDate(endDate).value;
    var days := DaysBetween(start, end);
    var r := MakeDateList(startDate, endDate).value;
    forall i | 0 <= i < |r|
      ensures ParseIsoDate(r[i]) == Some(days[i])
    {
      ParseFormat(days[i]);
    }
  }

  /** A non-empty list begins with the start date and ends with the end date, as given. */
  lemma MakeDateListEnds(startDate: string, endDate: string)
    requires ParseIsoDate(startDate).Some? && ParseIsoDate(endDate).Some?
    ensures var r := MakeDateList(startDate, endDate).value;
      |r| > 0 ==> r[0] == startDate && r[|r| - 1] == endDate
  {
    FormatParse(startDate);
    FormatParse(endDate);
  }

  /** The days of `all` whose `<date>.nc` file is not in the listing, in their order. */
  function MissingDates(all: seq<string>, files: seq<string>): seq<string>
    decreases |all|
  {
    if all == [] then []
    else
      var last := all[|all| - 1];
      MissingDates(all[..|all| - 1], files) + (if last + ".nc" !in files then [last] else [])
  }

  /** The loop of `checkMissingDates`: walks the days in order and appends each one
      whose `<date>.nc` is not in the listing. */
  method CollectMissing(dates: seq<string>, files: seq<string>) returns (missing: seq<string>)
    ensures missing == MissingDates(dates, files)
  {
    missing := [];
    for k := 0 to |dates|
      invariant missing == MissingDates(dates[..k], files)
    {
      assert dates[..k + 1][..k] == dates[..k];
      if dates[k] + ".nc" !in files {
        missing := missing + [dates[k]];
      }
    }
    assert dates[..|dates|] == dates;
  }

  /** `checkMissingDates`: the full range of `makeDateList`, filtered by the listing. */
  method CheckMissingDates(startDate: string, endDate: string, files: seq<string>)
    returns (missing: Option<seq<string>>)
    ensures missing.None? <==> MakeDateList(startDate, endDate).None?
    ensures missing.Some? ==> missing.value == MissingDates(MakeDateList(startDate, endDate).value, files)
  {
    var all := MakeDateList(startDate, endDate);
    if all.None? {
      return None;
    }
    var m := CollectMissing(all.value, files);
    missing := Some(m);
  }

  /** A day is reported missing exactly when it lies in the range and has no file. */
  lemma {:induction false} MissingMembership(all: seq<string>, files: seq<string>, d: string)
    ensures d in MissingDates(all, files) <==> d in all && d + ".nc" !in files
    decreases |all|
  {
    if all != [] {
      var init := all[..|all| - 1];
      MissingMembership(init, files, d);
      assert all == init + [all[|all| - 1]];
    }
  }

  /** The missing days are a subsequence of the range: the `j`-th of them is the
      `pos[j]`-th day of the range, with `pos` strictly increasing. */
  lemma {:induction false} MissingSubsequence(all: seq<string>, files: seq<string>)
    ensures exists pos: seq<nat> :: EmbedsAt(MissingDates(all, files), all, pos)
    decreases |all|
  {
    var m := MissingDates(all, files);
    if all == [] {
      assert |m| == 0;
      var pos: seq<nat> := [];
      assert EmbedsAt(m, all, pos);
    } else {
      var n := |all| - 1;
      var init := all[..n];
      MissingSubsequence(init, files);
      var m0 := MissingDates(init, files);
      var pos0: seq<nat> :| EmbedsAt(m0, init, pos0);
      assert all[..n] == init;
      if all[n] + ".nc" !in files {
        assert m == m0 + [all[n]];
        assert EmbedsAt(m, all, pos0 + [n]);
      } else {
        assert m == m0;
        assert EmbedsAt(m, all, pos0);
      }
    }
  }

  /** Over a date list from `makeDateList`, the missing days come out in strictly
      ascending calendar order. */
  lemma MissingAscending(startDate: string, endDate: string, files: seq<string>)
    requires MakeDateList(startDate, endDate).Some?
    ensures var m := MissingDates(MakeDateList(startDate, endDate).value, files);
      && (forall j :: 0 <= j < |m| ==> ParseIsoDate(m[j]).Some?)
      && (forall i, j :: 0 <= i < j < |m| ==> Ordinal(ParseIsoDate(m[i]).value) < Ordinal(ParseIsoDate(m[j]).value))
  {
    var all := MakeDateList(startDate, endDate).value;
    MakeDateListDays(startDate, endDate);
    MissingSubsequence(all, files);
    var m := MissingDates(all, files);
    var pos: seq<nat> :| EmbedsAt(m, all, pos);
    forall j | 0 <= j < |m|
      ensures ParseIsoDate(m[j]).Some?
    {
      assert m[j] == all[pos[j]];
    }
    forall i, j | 0 <= i < j < |m|
      ensures Ordinal(ParseIsoDate(m[i]).value) < Ordinal(ParseIsoDate(m[j]).value)
    {
      assert m[i] == all[pos[i]] && m[j] == all[pos[j]];
    }
  }

  /** A user-supplied bound as `BMNP_Data.__init__` reads it: normalised with
      `changeDateLayout` as written, then parsed by `strptime('%Y-%m-%d')` in
      `makeDateList`. `None` is either the `None` the normaliser falls through to or the
      ValueError `strptime` raises; the `'nd'` sentinel never yields a date. */
  function ParseBound(input: string): (r: Option<Date>)
    ensures r.Some? ==> Valid(r.value) && DateLayout.ChangeDateLayout(input) == Some(Format(r.value))
    ensures DateLayout.ChangeDateLayout(input).Some? && ParseIsoDate(DateLayout.ChangeDateLayout(input).value).Some? ==> r.Some?
    ensures DateLayout.ChangeDateLayout(input) == Some(DateLayout.NoDate) ==> r.None?
  {
    match DateLayout.ChangeDateLayout(input)
    case Some(s) =>
      var d := ParseIsoDate(s);
      if d.Some? then FormatParse(s); d else d
    case None => None
  }

  /** Through the as-written normaliser a month-first slash date is no bound at all,
      while the compact and ISO spellings give 1 June 2002. */
  lemma ParseBoundExamples()
    ensures ParseBound("06/01/2002") == None
    ensures ParseBound("20020601") == Some(Date(2002, 6, 1))
    ensures ParseBound("2002-06-01") == Some(Date(2002, 6, 1))
  {
    DateLayout.SlashBranchAsWritten();
    DateLayout.ChangeDateLayoutExamples();
    ParseFormat(Date(2002, 6, 1));
    assert Format(Date(2002, 6, 1)) == "2002-06-01";
  }
}
