/** The proleptic Gregorian calendar as Python's `datetime` uses it: day ordinals
    (0001-01-01 is day 1), the successor day, `date + timedelta(n)`, and the
    `'%Y-%m-%d'` text form written by `strftime` and read by `strptime`. */
module Calendar {
  import opened Wrappers

  datatype Date = Date(year: int, month: int, day: int)

  const MinYear: int := 1
  const MaxYear: int := 9999

  /** The last day `datetime` can represent. */
  const MaxDate: Date := Date(9999, 12, 31)

  predicate IsLeap(y: int) {
    y % 4 == 0 && (y % 100 != 0 || y % 400 == 0)
  }

  function DaysInYear(y: int): int {
    if IsLeap(y) then 366 else 365
  }

  function DaysInMonth(y: int, m: int): int
    requires 1 <= m <= 12
  {
    if m == 2 then (if IsLeap(y) then 29 else 28)
    else if m == 4 || m == 6 || m == 9 || m == 11 then 30
    else 31
  }

  /** Days of year `y` that come before the first of month `m`. */
  function DaysBeforeMonth(y: int, m: int): int
    requires 1 <= m <= 12
  {
    var table := [0, 31, 59, 90, 120, 151, 181, 212, 243, 273, 304, 334];
    table[m - 1] + (if m > 2 && IsLeap(y) then 1 else 0)
  }

  /** Days before January 1st of year `y`, counted from 0001-01-01. */
  function DaysBeforeYear(y: int): int
    requires y >= 1
  {
    var p := y - 1;
    p * 365 + p / 4 - p / 100 + p / 400
  }

  predicate Valid(d: Date) {
    MinYear <= d.year <= MaxYear && 1 <= d.month <= 12 && 1 <= d.day <= DaysInMonth(d.year, d.month)
  }

  /** `date.max.toordinal()`. */
  const MaxOrdinal: int := 3652059

  /** `date.toordinal()`: every valid date gets a day number between 1 and `MaxOrdinal`. */
  function Ordinal(d: Date): (n: int)
    requires Valid(d)
    ensures 1 <= n <= MaxOrdinal
  {
    YearSpan(d.year, d.month);
    DaysBeforeYearMonotonic(d.year, MaxYear);
    DaysBeforeYear(d.year) + DaysBeforeMonth(d.year, d.month) + d.day
  }

  /** `MaxOrdinal` is the ordinal of the last representable day. */
  lemma MaxOrdinalIsMaxDate()
    ensures Valid(MaxDate) && Ordinal(MaxDate) == MaxOrdinal
  {
  }

  /** The calendar day after `d`. */
  function NextDay(d: Date): Date
    requires Valid(d)
  {
    if d.day < DaysInMonth(d.year, d.month) then Date(d.year, d.month, d.day + 1)
    else if d.month < 12 then Date(d.year, d.month + 1, 1)
    else Date(d.year + 1, 1, 1)
  }

  lemma YearStep(y: int)
    requires y >= 1
    ensures DaysBeforeYear(y + 1) == DaysBeforeYear(y) + DaysInYear(y)
  {
    var p := y - 1;
    assert y / 4 == p / 4 + (if y % 4 == 0 then 1 else 0);
    assert y / 100 == p / 100 + (if y % 100 == 0 then 1 else 0);
    assert y / 400 == p / 400 + (if y % 400 == 0 then 1 else 0);
  }

  lemma {:induction false} DaysBeforeYearMonotonic(x: int, y: int)
    requires 1 <= x <= y
    ensures DaysBeforeYear(x) + (if x < y then DaysInYear(x) else 0) <= DaysBeforeYear(y)
    decreases y - x
  {
    if x < y {
      YearStep(x);
      if x + 1 < y { DaysBeforeYearMonotonic(x + 1, y); }
    }
  }

  /** A day of a valid date falls inside its month's span of the year. */
  lemma MonthSpan(y: int, m: int, m2: int)
    requires 1 <= m < m2 <= 12
    ensures DaysBeforeMonth(y, m) + DaysInMonth(y, m) <= DaysBeforeMonth(y, m2)
  {
  }

  lemma YearSpan(y: int, m: int)
    requires 1 <= m <= 12
    ensures DaysBeforeMonth(y, m) + DaysInMonth(y, m) <= DaysInYear(y)
  {
  }

  /** The successor day is valid (below the last representable day) and one ordinal later. */
  lemma NextDayOrdinal(d: Date)
    requires Valid(d) && Ordinal(d) < MaxOrdinal
    ensures Valid(NextDay(d)) && Ordinal(NextDay(d)) == Ordinal(d) + 1
  {
    if d.day == DaysInMonth(d.year, d.month) && d.month == 12 {
      YearStep(d.year);
    }
  }

  /** Ordinals are strictly increasing in calendar order. */
  lemma {:induction false} OrdinalOrdered(a: Date, b: Date)
    requires Valid(a) && Valid(b)
    requires a.year < b.year || (a.year == b.year && (a.month < b.month || (a.month == b.month && a.day < b.day)))
    ensures Ordinal(a) < Ordinal(b)
  {
    if a.year < b.year {
      YearSpan(a.year, a.month);
      DaysBeforeYearMonotonic(a.year, b.year);
    } else if a.month < b.month {
      MonthSpan(a.year, a.month, b.month);
    }
  }

  /** Two valid dates with the same ordinal are the same date. */
  lemma OrdinalInjective(a: Date, b: Date)
    requires Valid(a) && Valid(b) && Ordinal(a) == Ordinal(b)
    ensures a == b
  {
    if a.year < b.year || (a.year == b.year && (a.month < b.month || (a.month == b.month && a.day < b.day))) {
      OrdinalOrdered(a, b);
    } else if b.year < a.year || (b.year == a.year && (b.month < a.month || (b.month == a.month && b.day < a.day))) {
      OrdinalOrdered(b, a);
    }
  }

  /** `d + timedelta(n)`, taken one day at a time. */
  function AddDays(d: Date, n: nat): (r: Date)
    requires Valid(d) && Ordinal(d) + n <= MaxOrdinal
    ensures Valid(r) && Ordinal(r) == Ordinal(d) + n
    decreases n
  {
    if n == 0 then d
    else
      NextDayOrdinal(d);
      AddDays(NextDay(d), n - 1)
  }

  /** Adding the ordinal distance to `start` lands exactly on `end`. */
  lemma AddDaysReaches(start: Date, end: Date)
    requires Valid(start) && Valid(end) && Ordinal(start) <= Ordinal(end)
    ensures AddDays(start, Ordinal(end) - Ordinal(start)) == end
  {
    OrdinalInjective(AddDays(start, Ordinal(end) - Ordinal(start)), end);
  }

  // ---------------------------------------------------------------------------
  // The '%Y-%m-%d' text form

  predicate IsDigit(c: char) {
    '0' <= c <= '9'
  }

  function DigitChar(n: int): (c: char)
    requires 0 <= n <= 9
    ensures IsDigit(c) && c as int - '0' as int == n
  {
    (48 + n) as char
  }

  predicate AllDigits(s: string) {
    forall i :: 0 <= i < |s| ==> IsDigit(s[i])
  }

  /** The decimal value of a string of digits. */
  function Number(s: string): nat
    requires AllDigits(s)
  {
    if s == [] then 0 else 10 * Number(s[..|s| - 1]) + (s[|s| - 1] as int - '0' as int)
  }

  function Pad2(n: int): string
    requires 0 <= n < 100
  {
    [DigitChar(n / 10), DigitChar(n % 10)]
  }

  function Pad4(n: int): string
    requires 0 <= n < 10000
  {
    [DigitChar(n / 1000), DigitChar(n / 100 % 10), DigitChar(n / 10 % 10), DigitChar(n % 10)]
  }

  /** `date.strftime('%Y-%m-%d')`. */
  function Format(d: Date): string
    requires Valid(d)
  {
    Pad4(d.year) + "-" + Pad2(d.month) + "-" + Pad2(d.day)
  }

  /** `datetime.strptime(s, '%Y-%m-%d')`; `None` is the ValueError it raises. */
  function ParseIsoDate(s: string): (r: Option<Date>)
    ensures r.Some? ==> Valid(r.value) && |s| == 10
  {
    if |s| == 10 && s[4] == '-' && s[7] == '-' && AllDigits(s[..4]) && AllDigits(s[5..7]) && AllDigits(s[8..]) then
      var d := Date(Number(s[..4]), Number(s[5..7]), Number(s[8..]));
      if Valid(d) then Some(d) else None
    else None
  }

  lemma Pad2Number(n: int)
    requires 0 <= n < 100
    ensures AllDigits(Pad2(n)) && Number(Pad2(n)) == n
  {
    var s := Pad2(n);
    assert s[..1] == [DigitChar(n / 10)];
    assert s[..1][..0] == [];
    assert Number(s[..1]) == n / 10;
  }

  lemma Pad4Number(n: int)
    requires 0 <= n < 10000
    ensures AllDigits(Pad4(n)) && Number(Pad4(n)) == n
  {
    var s := Pad4(n);
    assert s[..3][..2][..1][..0] == [];
    assert Number(s[..3][..2][..1]) == n / 1000;
    assert Number(s[..3][..2]) == n / 100;
    assert Number(s[..3]) == n / 10;
  }

  /** Writing a date and reading it back gives the same date. */
  lemma ParseFormat(d: Date)
    requires Valid(d)
    ensures ParseIsoDate(Format(d)) == Some(d)
  {
    var s := Format(d);
    Pad4Number(d.year);
    Pad2Number(d.month);
    Pad2Number(d.day);
    assert s[..4] == Pad4(d.year);
    assert s[5..7] == Pad2(d.month);
    assert s[8..] == Pad2(d.day);
  }

  lemma Quotient10(n: int, q: int, r: int)
    requires 0 <= r < 10 && n == 10 * q + r
    ensures n / 10 == q && n % 10 == r
  {
  }

  lemma Quotient100(n: int, q: int, r: int)
    requires 0 <= r < 100 && n == 100 * q + r
    ensures n / 100 == q && n % 100 == r
  {
  }

  lemma Quotient1000(n: int, q: int, r: int)
    requires 0 <= r < 1000 && n == 1000 * q + r
    ensures n / 1000 == q && n % 1000 == r
  {
  }

  lemma NumberPad2(t: string)
    requires |t| == 2 && AllDigits(t)
    ensures Number(t) < 100 && Pad2(Number(t)) == t
  {
    var a, b := t[0] as int - 48, t[1] as int - 48;
    assert t[..1][..0] == [];
    assert Number(t[..1]) == a;
    assert Number(t) == 10 * a + b;
    assert DigitChar(a) == t[0] && DigitChar(b) == t[1];
  }

  lemma NumberPad4(t: string)
    requires |t| == 4 && AllDigits(t)
    ensures Number(t) < 10000 && Pad4(Number(t)) == t
  {
    var a, b, c, e := t[0] as int - 48, t[1] as int - 48, t[2] as int - 48, t[3] as int - 48;
    assert t[..3][..2][..1][..0] == [];
    assert Number(t[..3][..2][..1]) == a;
    assert Number(t[..3][..2]) == 10 * a + b;
    assert Number(t[..3]) == 100 * a + 10 * b + c;
    var n := Number(t);
    assert n == 1000 * a + 100 * b + 10 * c + e;
    Quotient1000(n, a, 100 * b + 10 * c + e);
    Quotient100(n, 10 * a + b, 10 * c + e);
    Quotient10(n, 100 * a + 10 * b + c, e);
    Quotient10(10 * a + b, a, b);
    Quotient10(100 * a + 10 * b + c, 10 * a + b, c);
    assert DigitChar(a) == t[0] && DigitChar(b) == t[1] && DigitChar(c) == t[2] && DigitChar(e) == t[3];
  }

  /** Every string `strptime` accepts is exactly the one `strftime` writes for its date. */
  lemma FormatParse(s: string)
    requires ParseIsoDate(s).Some?
    ensures Format(ParseIsoDate(s).value) == s
  {
    NumberPad4(s[..4]);
    NumberPad2(s[5..7]);
    NumberPad2(s[8..]);
    assert s == s[..4] + "-" + s[5..7] + "-" + s[8..];
  }
}
