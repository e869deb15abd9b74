/**
 * The calendar facts the handlers take from Python's `datetime`: a date is a
 * (year, month, day) triple, `strftime('%B')` is an English month name,
 * `strptime(text, '%B')` reads one back, and `datetime(y, m, d)` raises
 * ValueError outside years 1..9999 or outside the month's days.
 */
module Calendar {
  import opened Wrappers

  datatype Date = Date(year: int, month: int, day: int)

  /** `datetime.MINYEAR` and `datetime.MAXYEAR`. */
  const MinYear := 1
  const MaxYear := 9999

  predicate IsLeapYear(y: int) {
    y % 4 == 0 && (y % 100 != 0 || y % 400 == 0)
  }

  function DaysInMonth(y: int, m: int): (r: int)
    requires 1 <= m <= 12
    ensures 28 <= r <= 31
  {
    if m == 2 then (if IsLeapYear(y) then 29 else 28)
    else if m == 4 || m == 6 || m == 9 || m == 11 then 30
    else 31
  }

  /** The dates `datetime.date` can represent. */
  predicate ValidDate(d: Date) {
    MinYear <= d.year <= MaxYear && 1 <= d.month <= 12 && 1 <= d.day <= DaysInMonth(d.year, d.month)
  }

  /** `datetime(y, m, d)`, with None for the ValueError it raises. */
  function MakeDate(y: int, m: int, d: int): (r: Option<Date>)
    ensures r.Some? <==> ValidDate(Date(y, m, d))
    ensures r.Some? ==> r.value == Date(y, m, d)
  {
    if ValidDate(Date(y, m, d)) then Some(Date(y, m, d)) else None
  }

  /** Strict chronological order, the `<` of `datetime.date`. */
  predicate Before(a: Date, b: Date) {
    a.year < b.year || (a.year == b.year && (a.month < b.month || (a.month == b.month && a.day < b.day)))
  }

  /** `date.strftime('%B')` in the English locale. */
  function MonthName(m: int): (r: string)
    requires 1 <= m <= 12
    ensures |r| >= 3
  {
    ["January", "February", "March", "April", "May", "June", "July",
     "August", "September", "October", "November", "December"][m - 1]
  }

  function LowerChar(c: char): char {
    if 'A' <= c <= 'Z' then (c as int + 32) as char else c
  }

  /** Equal text when case is ignored, as `re.IGNORECASE` compares letters. */
  predicate SameIgnoringCase(a: string, b: string) {
    |a| == |b| && forall i :: 0 <= i < |a| ==> LowerChar(a[i]) == LowerChar(b[i])
  }

  /**
   * `datetime.strptime(name, '%B').month`: the full English month name,
   * compared without regard to case; None for the ValueError.
   */
  function MonthNumber(name: string): (r: Option<int>)
    ensures r.Some? ==> 1 <= r.value <= 12 && SameIgnoringCase(name, MonthName(r.value))
    ensures r.None? ==> forall n :: 1 <= n <= 12 ==> !SameIgnoringCase(name, MonthName(n))
  {
    MonthFrom(name, 1)
  }

  function MonthFrom(name: string, n: int): (r: Option<int>)
    requires 1 <= n <= 13
    decreases 13 - n
    ensures r.Some? ==> n <= r.value <= 12 && SameIgnoringCase(name, MonthName(r.value))
    ensures r.None? ==> forall k :: n <= k <= 12 ==> !SameIgnoringCase(name, MonthName(k))
  {
    if n == 13 then None
    else if SameIgnoringCase(name, MonthName(n)) then Some(n)
    else MonthFrom(name, n + 1)
  }

  /** A date field of a request: absent or empty, text not in `%Y-%m-%d` form, or its three numbers. */
  datatype DateArg = Absent | Unparsable | Ymd(year: int, month: int, day: int)

  /** `datetime.strptime(text, '%Y-%m-%d').date()`, with None for the exception it raises. */
  function Strptime(a: DateArg): (r: Option<Date>)
    ensures r.Some? <==> a.Ymd? && ValidDate(Date(a.year, a.month, a.day))
    ensures r.Some? ==> r.value == Date(a.year, a.month, a.day)
  {
    if a.Ymd? then MakeDate(a.year, a.month, a.day) else None
  }

  /** No two month names are equal, even ignoring case. */
  lemma MonthNamesDistinct(n: int, k: int)
    requires 1 <= n <= 12 && 1 <= k <= 12 && n != k
    ensures !SameIgnoringCase(MonthName(n), MonthName(k))
  {
    var a, b := MonthName(n), MonthName(k);
    if |a| == |b| {
      var i := if (n == 6 && k == 7) || (n == 7 && k == 6) then 2 else 0;
      assert LowerChar(a[i]) != LowerChar(b[i]);
    }
  }

  /** Each English month name reads back as its own number. */
  lemma MonthNumberOfName(n: int)
    requires 1 <= n <= 12
    ensures MonthNumber(MonthName(n)) == Some(n)
  {
    var r := MonthNumber(MonthName(n));
    if r != Some(n) {
      MonthNamesDistinct(n, r.value);
    }
  }

  /** The first day of the month after month `n` of year `y`. */
  function NextMonthStart(y: int, n: int): Date
    requires 1 <= n <= 12
  {
    if n == 12 then Date(y + 1, 1, 1) else Date(y, n + 1, 1)
  }

  /** A valid date lies in [first of month n, first of the next month) iff it is in month n of year y. */
  lemma InMonthWindow(d: Date, y: int, n: int)
    requires ValidDate(d) && 1 <= n <= 12
    ensures (!Before(d, Date(y, n, 1)) && Before(d, NextMonthStart(y, n))) <==> (d.year == y && d.month == n)
  {
  }

  /** A valid date lies in [1 January of y, 1 January of y + 1) iff its year is y. */
  lemma InYearWindow(d: Date, y: int)
    requires ValidDate(d)
    ensures (!Before(d, Date(y, 1, 1)) && Before(d, Date(y + 1, 1, 1))) <==> d.year == y
  {
  }
}
