/**
 * Calendar dates (Python `datetime.date`) and their ISO text `YYYY-MM-DD`,
 * which is what `str(d)`, `d.isoformat()` and `d.strftime("%Y-%m-%d")` give.
 */
module Dates {
  import opened Wrappers
  import opened Numerals

  datatype Date = Date(year: int, month: int, day: int)

  predicate IsLeap(y: int) {
    y % 4 == 0 && (y % 100 != 0 || y % 400 == 0)
  }

  function DaysInMonth(y: int, m: int): int {
    if m == 2 then (if IsLeap(y) then 29 else 28)
    else if m == 4 || m == 6 || m == 9 || m == 11 then 30
    else 31
  }

  /** The dates Python can represent: years 1 to 9999. */
  predicate Valid(d: Date) {
    1 <= d.year <= 9999 && 1 <= d.month <= 12 && 1 <= d.day <= DaysInMonth(d.year, d.month)
  }

  lemma PowFacts()
    ensures Pow(10, 2) == 100 && Pow(10, 4) == 10000
  {
  }

  /** `strftime("%Y")`: the year in four digits. */
  function YearText(d: Date): (s: string)
    requires Valid(d)
    ensures |s| == 4
  {
    PowFacts();
    Fixed(d.year, 4, 10)
  }

  /** `strftime("%m")`: the month in two digits. */
  function MonthText(d: Date): (s: string)
    requires Valid(d)
    ensures |s| == 2
  {
    PowFacts();
    Fixed(d.month, 2, 10)
  }

  function DayText(d: Date): (s: string)
    requires Valid(d)
    ensures |s| == 2
  {
    PowFacts();
    Fixed(d.day, 2, 10)
  }

  function Iso(d: Date): (s: string)
    requires Valid(d)
    ensures |s| == 10
  {
    YearText(d) + "-" + MonthText(d) + "-" + DayText(d)
  }

  /** Reading `YYYY-MM-DD` back; anything else, or a date that does not exist, is rejected. */
  function ParseIso(s: string): (r: Option<Date>)
    ensures r.Some? ==> Valid(r.value)
  {
    if |s| == 10 && s[4] == '-' && s[7] == '-'
       && AllDigits(s[..4], 10) && AllDigits(s[5..7], 10) && AllDigits(s[8..], 10)
    then
      var d := Date(Value(s[..4], 10), Value(s[5..7], 10), Value(s[8..], 10));
      if Valid(d) then Some(d) else None
    else None
  }

  /** Where the parts of `YYYY-MM-DD` sit. */
  lemma IsoLayout(y: string, m: string, dd: string)
    requires |y| == 4 && |m| == 2 && |dd| == 2
    ensures var s := y + "-" + m + "-" + dd;
      && |s| == 10 && s[..4] == y && s[4] == '-' && s[5..7] == m && s[7] == '-' && s[8..] == dd
  {
  }

  lemma ParseIsoRoundTrip(d: Date)
    requires Valid(d)
    ensures ParseIso(Iso(d)) == Some(d)
  {
    PowFacts();
    IsoLayout(YearText(d), MonthText(d), DayText(d));
    FixedRoundTrip(d.year, 4, 10);
    FixedRoundTrip(d.month, 2, 10);
    FixedRoundTrip(d.day, 2, 10);
  }

  /** Distinct dates have distinct ISO texts. */
  lemma IsoInjective(a: Date, b: Date)
    requires Valid(a) && Valid(b) && Iso(a) == Iso(b)
    ensures a == b
  {
    ParseIsoRoundTrip(a);
    ParseIsoRoundTrip(b);
  }

  /** Calendar order, as the database compares DATE values. */
  predicate Before(a: Date, b: Date) {
    a.year < b.year || (a.year == b.year && (a.month < b.month || (a.month == b.month && a.day < b.day)))
  }

  /** An integer that orders valid dates as the calendar does; used as a sort key. */
  function Ordinal(d: Date): int {
    d.year * 10000 + d.month * 100 + d.day
  }

  lemma OrdinalOrder(a: Date, b: Date)
    requires Valid(a) && Valid(b)
    ensures Ordinal(a) < Ordinal(b) <==> Before(a, b)
    ensures Ordinal(a) == Ordinal(b) <==> a == b
  {
  }
}
