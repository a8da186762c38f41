/**
 * Python's `datetime` and `date` values as the scraper uses them: the
 * validating constructor and `isoformat()`. Microseconds and time zones are
 * not represented; every timestamp the scraper builds has neither.
 */
module Clock {
  import opened Wrappers
  import opened PyBuiltins

  datatype Date = Date(year: int, month: int, day: int)

  datatype Timestamp = Timestamp(year: int, month: int, day: int, hour: int, minute: int, second: int)
  {
    function DateOf(): Date { Date(year, month, day) }
  }

  const MinYear := 1
  const MaxYear := 9999

  predicate IsLeapYear(y: int) {
    y % 4 == 0 && (y % 100 != 0 || y % 400 == 0)
  }

  function DaysInMonth(y: int, m: int): (n: int)
    requires 1 <= m <= 12
    ensures 28 <= n <= 31
  {
    if m == 2 then (if IsLeapYear(y) then 29 else 28)
    else if m == 4 || m == 6 || m == 9 || m == 11 then 30
    else 31
  }

  /** The range `date(y, m, d)` accepts. */
  predicate ValidDate(d: Date) {
    && MinYear <= d.year <= MaxYear
    && 1 <= d.month <= 12
    && 1 <= d.day <= DaysInMonth(d.year, d.month)
  }

  /** The range `datetime(y, m, d, h, mi, s)` accepts. */
  predicate Valid(t: Timestamp) {
    && ValidDate(t.DateOf())
    && 0 <= t.hour < 24
    && 0 <= t.minute < 60
    && 0 <= t.second < 60
  }

  /** A value CPython's argument parsing accepts for a C `int`. */
  predicate IsCInt(x: int) {
    -0x8000_0000 <= x < 0x8000_0000
  }

  /** Every argument of `datetime(...)` fits a C `int`. */
  predicate CIntFields(year: int, month: int, day: int, hour: int, minute: int, second: int) {
    IsCInt(year) && IsCInt(month) && IsCInt(day) && IsCInt(hour) && IsCInt(minute) && IsCInt(second)
  }

  /** `datetime(year, month, day, hour, minute, second)`: `OverflowError` when an
      argument does not fit a C `int` (the arguments are converted before any
      range check), else `ValueError` for any field out of range. */
  function MakeDatetime(year: int, month: int, day: int, hour: int, minute: int, second: int): (r: Result<Timestamp, PyError>)
    ensures !CIntFields(year, month, day, hour, minute, second) ==> r == Err(OverflowError)
    ensures r.Ok? ==> Valid(r.value) && r.value == Timestamp(year, month, day, hour, minute, second)
    ensures CIntFields(year, month, day, hour, minute, second) ==>
      (r.Err? <==> !Valid(Timestamp(year, month, day, hour, minute, second))) && (r.Err? ==> r.error == ValueError)
  {
    var t := Timestamp(year, month, day, hour, minute, second);
    if !CIntFields(year, month, day, hour, minute, second) then Err(OverflowError)
    else if Valid(t) then Ok(t) else Err(ValueError)
  }

  /** `%0<width>d` for a value that fits the width. */
  function Pad(n: nat, width: nat): (s: string)
    ensures |s| == width && AllDigits(s)
  {
    if width == 0 then "" else Pad(n / 10, width - 1) + [Digit(n % 10)]
  }

  /** The characters an ISO timestamp is made of. */
  predicate IsoChars(s: string) {
    forall i :: 0 <= i < |s| ==> IsDigit(s[i]) || s[i] == '-' || s[i] == 'T' || s[i] == ':'
  }

  lemma IsoCharsAppend(a: string, b: string)
    requires IsoChars(a) && IsoChars(b)
    ensures IsoChars(a + b)
  {
  }

  /** `date.isoformat()`: `YYYY-MM-DD`. */
  function DateIsoFormat(d: Date): (s: string)
    requires ValidDate(d)
    ensures |s| == 10 && IsoChars(s) && IsDigit(s[0])
  {
    var s := Pad(d.year, 4) + "-" + Pad(d.month, 2) + "-" + Pad(d.day, 2);
    IsoCharsAppend(Pad(d.year, 4), "-");
    IsoCharsAppend(Pad(d.year, 4) + "-", Pad(d.month, 2));
    IsoCharsAppend(Pad(d.year, 4) + "-" + Pad(d.month, 2), "-");
    IsoCharsAppend(Pad(d.year, 4) + "-" + Pad(d.month, 2) + "-", Pad(d.day, 2));
    s
  }

  /** `datetime.isoformat()` with no microseconds: `YYYY-MM-DDTHH:MM:SS`. */
  function IsoFormat(t: Timestamp): (s: string)
    requires Valid(t)
    ensures |s| == 19 && IsoChars(s) && IsDigit(s[0]) && IsDigit(s[18])
  {
    var day := DateIsoFormat(t.DateOf());
    var clock := Pad(t.hour, 2) + ":" + Pad(t.minute, 2) + ":" + Pad(t.second, 2);
    IsoCharsAppend(Pad(t.hour, 2), ":");
    IsoCharsAppend(Pad(t.hour, 2) + ":", Pad(t.minute, 2));
    IsoCharsAppend(Pad(t.hour, 2) + ":" + Pad(t.minute, 2), ":");
    IsoCharsAppend(Pad(t.hour, 2) + ":" + Pad(t.minute, 2) + ":", Pad(t.second, 2));
    IsoCharsAppend(day, "T");
    IsoCharsAppend(day + "T", clock);
    day + "T" + clock
  }

  /** `isoformat()` is the date, a 'T', and the time of day. */
  lemma IsoFormatPieces(t: Timestamp)
    requires Valid(t)
    ensures IsoFormat(t) == DateIsoFormat(t.DateOf()) + "T" + (Pad(t.hour, 2) + ":" + Pad(t.minute, 2) + ":" + Pad(t.second, 2))
  {
  }

  /** `date.isoformat()` is the padded year, month and day joined by '-'. */
  lemma DateIsoFormatPieces(d: Date)
    requires ValidDate(d)
    ensures DateIsoFormat(d) == Pad(d.year, 4) + "-" + Pad(d.month, 2) + "-" + Pad(d.day, 2)
  {
  }
}
