/** `BMNP_Data.changeDateLayout`: best-effort rewriting of a user-supplied date into
    `YYYY-MM-DD`, with the sentinel `'nd'` for inputs with no separator that are not
    eight characters long. Branches that match nothing fall off the end of the Python
    function and return `None`; here that is `Option.None`. The warning printed on a
    rewrite is left out. */
module DateLayout {
  import opened Wrappers
  import Calendar

  /** The "no date" sentinel. */
  const NoDate: string := "nd"

  /** `f'{year}-{month}-{day}'`. */
  function Join(year: string, month: string, day: string): string {
    year + "-" + month + "-" + day
  }

  /** The normalised shape: ten characters with `-` at positions 4 and 7. */
  predicate IsoShaped(s: string) {
    |s| == 10 && s[4] == '-' && s[7] == '-'
  }

  /** `changeDateLayout` as the repository writes it. */
  function ChangeDateLayout(date: string): (r: Option<string>)
    ensures r.Some? ==> r.value == NoDate || |r.value| == 10
  {
    if '-' in date then
      if |date| == 8 then Some(Join(date[0..4], date[4..6], date[6..8]))
      else if |date| == 10 then
        if date[4] == '-' && date[7] == '-' then Some(date)
        else if date[2] == '-' then Some(Join(date[6..10], date[0..2], date[3..5]))
        else None
      else None
    else if '/' in date then
      if |date| == 8 then Some(Join(date[4..8], date[0..2], date[3..5]))
      else if |date| == 10 then
        // The guard tests the separator positions of YYYY/MM/DD, the slices read MM/DD/YYYY.
        if date[4] == '/' && date[7] == '/' then Some(Join(date[6..10], date[0..2], date[3..5]))
        else None
      else None
    else if |date| == 8 then Some(Join(date[0..4], date[4..6], date[6..8]))
    else Some(NoDate)
  }

  /** When the function returns nothing, and when it returns the sentinel. */
  lemma ChangeDateLayoutOutcomes(date: string)
    ensures ChangeDateLayout(date).None? <==>
      if '-' in date then
        (|date| != 8 && |date| != 10) || (|date| == 10 && !(date[4] == '-' && date[7] == '-') && date[2] != '-')
      else
        '/' in date && ((|date| != 8 && |date| != 10) || (|date| == 10 && !(date[4] == '/' && date[7] == '/')))
    ensures ChangeDateLayout(date) == Some(NoDate) <==> '-' !in date && '/' !in date && |date| != 8
  {
  }

  /** Every date the function produces, other than the sentinel, has the normalised
      shape, and normalising it again leaves it as it is. */
  lemma ChangeDateLayoutIdempotent(date: string)
    requires ChangeDateLayout(date).Some?
    ensures var s := ChangeDateLayout(date).value;
      (s == NoDate || IsoShaped(s)) && ChangeDateLayout(s) == Some(s)
  {
    var s := ChangeDateLayout(date).value;
    if s != NoDate {
      assert IsoShaped(s);
      assert s[4] in s;
    }
  }

  /** The ISO passthrough and the two rewriting branches of the dashed and unseparated
      forms, stated over all inputs. */
  lemma ChangeDateLayoutBranches(date: string)
    ensures IsoShaped(date) ==> ChangeDateLayout(date) == Some(date)
    ensures |date| == 8 && '-' !in date && '/' !in date ==>
      ChangeDateLayout(date) == Some(date[0..4] + "-" + date[4..6] + "-" + date[6..8])
    ensures '-' in date && |date| == 10 && !IsoShaped(date) && date[2] == '-' ==>
      ChangeDateLayout(date) == Some(date[6..10] + "-" + date[0..2] + "-" + date[3..5])
  {
    if IsoShaped(date) { assert date[4] in date; }
  }

  /** Dates written by `strftime('%Y-%m-%d')` pass through unchanged. */
  lemma FormattedDateUnchanged(d: Calendar.Date)
    requires Calendar.Valid(d)
    ensures ChangeDateLayout(Calendar.Format(d)) == Some(Calendar.Format(d))
  {
    var s := Calendar.Format(d);
    assert IsoShaped(s);
    ChangeDateLayoutBranches(s);
  }

  /** Worked inputs: the compact and ISO forms are accepted, the day-first dashed form is
      rewritten, and `not-a-date` falls through to `None`. */
  lemma ChangeDateLayoutExamples()
    ensures ChangeDateLayout("20020601") == Some("2002-06-01")
    ensures ChangeDateLayout("2002-06-01") == Some("2002-06-01")
    ensures ChangeDateLayout("06-01-2002") == Some("2002-06-01")
    ensures ChangeDateLayout("not-a-date") == None
    ensures ChangeDateLayout("June 1") == Some(NoDate)
  {
    assert '-' !in "20020601" && '/' !in "20020601";
    assert "20020601"[0..4] == "2002" && "20020601"[4..6] == "06" && "20020601"[6..8] == "01";
    assert Join("2002", "06", "01") == "2002-06-01";
    assert "2002-06-01"[4] in "2002-06-01";
    assert "06-01-2002"[2] in "06-01-2002";
    assert "06-01-2002"[6..10] == "2002" && "06-01-2002"[0..2] == "06" && "06-01-2002"[3..5] == "01";
    assert "not-a-date"[3] in "not-a-date";
    assert '-' !in "June 1" && '/' !in "June 1";
  }

  /** The slash branch as written: `06/01/2002` (month first, the form the slices read)
      gets no result, and `2002/06/01` (the form the guard tests) is cut into pieces of
      the wrong fields. */
  lemma SlashBranchAsWritten()
    ensures ChangeDateLayout("06/01/2002") == None
    ensures ChangeDateLayout("2002/06/01") == Some("6/01-20-2/")
  {
    assert '-' !in "06/01/2002" && "06/01/2002"[2] in "06/01/2002";
    assert '-' !in "2002/06/01" && "2002/06/01"[4] in "2002/06/01";
    assert "2002/06/01"[6..10] == "6/01" && "2002/06/01"[0..2] == "20" && "2002/06/01"[3..5] == "2/";
    assert Join("6/01", "20", "2/") == "6/01-20-2/";
  }

  /** `changeDateLayout` with the slash guard testing the separators of `MM/DD/YYYY`,
      the layout its slices read. */
  function ChangeDateLayoutIntended(date: string): (r: Option<string>)
    ensures r.Some? ==> r.value == NoDate || |r.value| == 10
  {
    if '-' in date then ChangeDateLayout(date)
    else if '/' in date then
      if |date| == 8 then Some(Join(date[4..8], date[0..2], date[3..5]))
      else if |date| == 10 then
        if date[2] == '/' && date[5] == '/' then Some(Join(date[6..10], date[0..2], date[3..5]))
        else None
      else None
    else ChangeDateLayout(date)
  }

  /** With the corrected guard every month-first slash date becomes `YYYY-MM-DD`, and
      every input outside the ten-character slash branch is treated as before. */
  lemma IntendedSlashLayout(date: string)
    ensures |date| == 10 && '-' !in date && date[2] == '/' && date[5] == '/' ==>
      ChangeDateLayoutIntended(date) == Some(date[6..10] + "-" + date[0..2] + "-" + date[3..5])
    ensures !('-' !in date && '/' in date && |date| == 10) ==>
      ChangeDateLayoutIntended(date) == ChangeDateLayout(date)
  {
    if |date| == 10 && '-' !in date && date[2] == '/' && date[5] == '/' {
      assert date[2] in date;
    }
  }

  /** The corrected function keeps the idempotence of the original. */
  lemma IntendedIdempotent(date: string)
    requires ChangeDateLayoutIntended(date).Some?
    ensures var s := ChangeDateLayoutIntended(date).value;
      (s == NoDate || IsoShaped(s)) && ChangeDateLayoutIntended(s) == Some(s)
  {
    var s := ChangeDateLayoutIntended(date).value;
    if s != NoDate {
      assert IsoShaped(s);
      assert s[4] in s;
    } else {
      assert '-' !in s && '/' !in s;
    }
  }

  /** The three accepted spellings of 1 June 2002 agree, and `not-a-date` is refused. */
  lemma IntendedExamples()
    ensures ChangeDateLayoutIntended("20020601") == Some("2002-06-01")
    ensures ChangeDateLayoutIntended("06/01/2002") == Some("2002-06-01")
    ensures ChangeDateLayoutIntended("2002-06-01") == Some("2002-06-01")
    ensures ChangeDateLayoutIntended("not-a-date") == None
  {
    ChangeDateLayoutExamples();
    assert '-' !in "20020601" && '/' !in "20020601";
    assert '-' !in "06/01/2002" && "06/01/2002"[2] in "06/01/2002";
    assert "06/01/2002"[6..10] == "2002" && "06/01/2002"[0..2] == "06" && "06/01/2002"[3..5] == "01";
    assert Join("2002", "06", "01") == "2002-06-01";
    assert "2002-06-01"[4] in "2002-06-01";
    assert "not-a-date"[3] in "not-a-date";
  }
}
