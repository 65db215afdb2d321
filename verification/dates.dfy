/**
 * Birth dates, parsed with Go's layout "2006-01-02" (time.DateOnly): a
 * four-digit year, a two-digit month 01-12 and a two-digit day that exists
 * in that month, separated by '-', and nothing else.
 */
module Dates {

  import opened Optional
  import opened Decimal

  /** A calendar day (the time.Time at midnight UTC that time.Parse yields). */
  datatype Date = Date(year: int, month: int, day: int)

  predicate IsLeap(year: int) {
    year % 4 == 0 && (year % 100 != 0 || year % 400 == 0)
  }

  function DaysIn(month: int, year: int): int {
    if month == 2 then (if IsLeap(year) then 29 else 28)
    else if month == 4 || month == 6 || month == 9 || month == 11 then 30
    else 31
  }

  /** A day the layout can express. */
  predicate Valid(d: Date) {
    && 0 <= d.year <= 9999
    && 1 <= d.month <= 12
    && 1 <= d.day <= DaysIn(d.month, d.year)
  }

  /** The character shape of the layout: dddd-dd-dd. */
  predicate Shaped(s: string) {
    && |s| == 10
    && s[4] == '-' && s[7] == '-'
    && AllDigits(s[..4]) && AllDigits(s[5..7]) && AllDigits(s[8..])
  }

  /** time.Parse(time.DateOnly, s): None is the parse error. */
  function ParseDate(s: string): (r: Option<Date>)
    ensures r.Some? ==> Valid(r.value) && Shaped(s)
    ensures !Shaped(s) ==> r.None?
  {
    if Shaped(s) then
      var d := Date(Value(s[..4]), Value(s[5..7]), Value(s[8..]));
      if Valid(d) then Some(d) else None
    else
      None
  }

  /** The layout's rendering of a date; the reference ParseDate inverts. */
  function FormatDate(d: Date): (s: string)
    requires Valid(d)
    ensures Shaped(s)
  {
    var s := Pad(d.year, 4) + "-" + Pad(d.month, 2) + "-" + Pad(d.day, 2);
    assert s[..4] == Pad(d.year, 4);
    assert s[5..7] == Pad(d.month, 2);
    assert s[8..] == Pad(d.day, 2);
    s
  }

  /** Every valid date survives formatting and parsing. */
  lemma ParseFormat(d: Date)
    requires Valid(d)
    ensures ParseDate(FormatDate(d)) == Some(d)
  {
    var s := FormatDate(d);
    assert s[..4] == Pad(d.year, 4);
    assert s[5..7] == Pad(d.month, 2);
    assert s[8..] == Pad(d.day, 2);
    PadValue(d.year, 4);
    PadValue(d.month, 2);
    PadValue(d.day, 2);
  }

  /** Parsing accepts only the canonical spelling of the date it returns. */
  lemma FormatParse(s: string)
    requires ParseDate(s).Some?
    ensures FormatDate(ParseDate(s).value) == s
  {
    PadOfValue(s[..4]);
    PadOfValue(s[5..7]);
    PadOfValue(s[8..]);
    assert s == s[..4] + "-" + s[5..7] + "-" + s[8..];
  }

  /** The empty string is never a date (Register relies on this). */
  lemma EmptyIsNoDate()
    ensures ParseDate("") == None
  {
  }
}
