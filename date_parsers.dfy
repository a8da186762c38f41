/**
 * The dashboard's two publication-date formats and the chain that tries them
 * in order. The h4 walk and regular-expression search that locate a date in
 * the page are not modelled: each format's input is the text its pattern
 * matched, or `None` when no h4 text matched.
 */
module DateParsers {
  import opened Wrappers
  import opened PyBuiltins
  import opened Clock

  const MdyNotFound := "unable to find MM/DD/YY format"
  const MonthNameNotFound := "unable to find Mo. DD format"

  /** `list(map(int, parts))`: `None` when some part is not an integer literal. */
  function IntsOf(parts: seq<string>): (r: Option<seq<int>>)
    ensures r.Some? ==> |r.value| == |parts|
  {
    if parts == [] then Some([])
    else
      match ParseInt(parts[0])
      case None => None
      case Some(v) =>
        match IntsOf(parts[1..])
        case None => None
        case Some(vs) => Some([v] + vs)
  }

  /** `list(map(int, parts))` succeeds exactly when every part is an integer literal. */
  lemma {:induction false} IntsOfSucceedsIff(parts: seq<string>)
    ensures IntsOf(parts).Some? <==> forall i :: 0 <= i < |parts| ==> ParseInt(parts[i]).Some?
  {
    if parts != [] {
      IntsOfSucceedsIff(parts[1..]);
      assert forall i :: 1 <= i < |parts| ==> parts[i] == parts[1..][i - 1];
    }
  }

  /** When it succeeds, `list(map(int, parts))` holds each part's value in order. */
  lemma {:induction false} IntsOfValues(parts: seq<string>)
    requires IntsOf(parts).Some?
    ensures forall i :: 0 <= i < |parts| ==> ParseInt(parts[i]) == Some(IntsOf(parts).value[i])
  {
    if parts != [] {
      var rest := IntsOf(parts[1..]);
      assert rest.Some?;
      IntsOfValues(parts[1..]);
      assert IntsOf(parts).value == [ParseInt(parts[0]).value] + rest.value;
    }
  }

  /** `hh, mm = list(map(int, word.split(':')))`: two integers, else `ValueError`. */
  function HourMinute(word: string): (r: Result<(int, int), PyError>)
    ensures r.Err? ==> r.error == ValueError
    ensures r.Ok? <==> |Split(word, ':')| == 2 && IntsOf(Split(word, ':')).Some?
  {
    var hm := IntsOf(Split(word, ':'));
    if hm.None? || |hm.value| != 2 then Err(ValueError) else Ok((hm.value[0], hm.value[1]))
  }

  /** `int(ampm[0] == 'p') * 12` with `ampm = word.split('.')`: twelve exactly when the text before the first '.' is "p". */
  function PmShift(word: string): (h: int)
    ensures h == 0 || h == 12
  {
    if Split(word, '.')[0] == "p" then 12 else 0
  }

  /** The meridiem shifts the hour exactly when it is "p" or starts with "p.":
      "p.m." shifts, while "pm" and "P.M." do not. */
  lemma PmShiftRule(w: string)
    ensures PmShift(w) == 12 <==> w == "p" || (|w| >= 2 && w[..2] == "p.")
  {
    var i := IndexOf(w, '.');
    assert Split(w, '.')[0] == w[..i] by {
      if i == |w| { assert w[..i] == w; }
    }
    if |w| >= 2 && w[..2] == "p." {
      assert w[0] == w[..2][0] == 'p' && w[1..][0] == w[..2][1] == '.';
      assert IndexOf(w[1..], '.') == 0;
    } else if w == "p" {
      assert w[1..] == [];
      assert i == 1;
    }
  }

  /** Meridiems without the dot, or in capitals, leave the hour as written. */
  lemma OtherMeridiemsKeepHour()
    ensures PmShift("pm") == 0 && PmShift("P.M.") == 0
  {
    PmShiftRule("pm");
    PmShiftRule("P.M.");
    assert "pm"[..2] == "pm";
    assert "P.M."[..2] == "P.";
  }

  /** `UWEC_date_to_datetime_til_sept14_2`: reads `hh:mm a.m. MM/dd/yy`. */
  function UwecDateTilSept14(datestring: string): (r: Result<Timestamp, PyError>)
    ensures r.Ok? ==> Valid(r.value) && r.value.second == 0
    ensures r.Err? ==> r.error == ValueError || r.error == IndexError || r.error == OverflowError
  {
    Sept14FromWords(Words(datestring))
  }

  /** The first format once the date string is split into words. */
  function Sept14FromWords(words: seq<string>): (r: Result<Timestamp, PyError>)
    ensures r.Ok? ==> Valid(r.value) && r.value.second == 0
    ensures r.Err? ==> r.error == ValueError || r.error == IndexError || r.error == OverflowError
  {
    if |words| < 1 then Err(IndexError)
    else match HourMinute(words[0])
      case Err(e) => Err(e)
      case Ok(hm) =>
        if |words| < 2 then Err(IndexError)
        else
          var shift := PmShift(words[1]);
          if |words| < 3 then Err(IndexError)
          else
            var mdy := IntsOf(Split(words[2], '/'));
            if mdy.None? || |mdy.value| != 3 then Err(ValueError)
            else MakeDatetime(2000 + mdy.value[2], mdy.value[0], mdy.value[1], hm.0 + shift, hm.1, 0)
  }

  /** The month abbreviations the dashboard used and their months. */
  const AbbrMap: map<string, int> := map["Sept." := 9, "Oct." := 10, "Nov." := 11, "Dec." := 12]

  /** `abbr_to_month`: the four month abbreviations the dashboard used; `KeyError` otherwise. */
  function AbbrToMonth(abbr: string): (r: Result<int, PyError>)
    ensures r.Ok? <==> abbr in AbbrMap
    ensures r.Ok? ==> r.value == AbbrMap[abbr] && 9 <= r.value <= 12
    ensures r.Err? ==> r.error == KeyError
  {
    if abbr == "Sept." then Ok(9)
    else if abbr == "Oct." then Ok(10)
    else if abbr == "Nov." then Ok(11)
    else if abbr == "Dec." then Ok(12)
    else Err(KeyError)
  }

  /** `UWEC_date_to_datetime_til_sept25`: reads `hh:mm p.m. Sept. dd`, always in 2020. */
  function UwecDateTilSept25(datestring: string): (r: Result<Timestamp, PyError>)
    ensures r.Ok? ==> Valid(r.value) && r.value.year == 2020 && 9 <= r.value.month <= 12 && r.value.second == 0
    ensures r.Err? ==> r.error == ValueError || r.error == IndexError || r.error == KeyError || r.error == OverflowError
  {
    Sept25FromWords(Words(datestring))
  }

  /** The second format once the date string is split into words. */
  function Sept25FromWords(words: seq<string>): (r: Result<Timestamp, PyError>)
    ensures r.Ok? ==> Valid(r.value) && r.value.year == 2020 && 9 <= r.value.month <= 12 && r.value.second == 0
    ensures r.Err? ==> r.error == ValueError || r.error == IndexError || r.error == KeyError || r.error == OverflowError
  {
    if |words| < 1 then Err(IndexError)
    else match HourMinute(words[0])
      case Err(e) => Err(e)
      case Ok(hm) =>
        if |words| < 2 then Err(IndexError)
        else
          var shift := PmShift(words[1]);
          if |words| < 3 then Err(IndexError)
          else match AbbrToMonth(words[2])
            case Err(e) => Err(e)
            case Ok(month) =>
              if |words| < 4 then Err(IndexError)
              else match ParseInt(words[3])
                case None => Err(ValueError)
                case Some(day) =>
                  var yy := 20;
                  MakeDatetime(2000 + yy, month, day, hm.0 + shift, hm.1, 0)
  }

  /** `get_date_til_sept14_2` from the text its pattern matched, if any. */
  function GetDateTilSept14(found: Option<string>): Result<Timestamp, PyError> {
    match found
    case None => Err(RuntimeError(MdyNotFound))
    case Some(s) => UwecDateTilSept14(s)
  }

  /** `get_date_til_sept25` from the text its pattern matched, if any. */
  function GetDateTilSept25(found: Option<string>): Result<Timestamp, PyError> {
    match found
    case None => Err(RuntimeError(MonthNameNotFound))
    case Some(s) => UwecDateTilSept25(s)
  }

  /** `get_date`: the first format, then the second if the first raised
      `RuntimeError`; when both raise `RuntimeError`, the first one's. Other
      exceptions pass through untouched. */
  function GetDate(mdy: Option<string>, monthName: Option<string>): (r: Result<Timestamp, PyError>)
    ensures mdy.Some? ==> r == UwecDateTilSept14(mdy.value)
    ensures mdy.None? && monthName.Some? ==> r == UwecDateTilSept25(monthName.value)
    ensures mdy.None? && monthName.None? ==> r == Err(RuntimeError(MdyNotFound))
    ensures r.Ok? ==> Valid(r.value)
  {
    match GetDateTilSept14(mdy)
    case Ok(t) => Ok(t)
    case Err(e1) =>
      if !e1.RuntimeError? then Err(e1)
      else
        match GetDateTilSept25(monthName)
        case Ok(t) => Ok(t)
        case Err(e2) => if e2.RuntimeError? then Err(e1) else Err(e2)
  }

  /** `get_date` raises `RuntimeError` (the case `gather_and_save` recovers
      from) exactly when neither format was found in the page, and then it is
      the first format's error. */
  lemma NoDateFoundIff(mdy: Option<string>, monthName: Option<string>)
    ensures GetDate(mdy, monthName).Err? && GetDate(mdy, monthName).error.RuntimeError?
        <==> mdy.None? && monthName.None?
    ensures mdy.None? && monthName.None? ==> GetDate(mdy, monthName).error.message == MdyNotFound
  {
  }

  // ------------------------------------------------------------ reading well-formed dates

  /** A decimal string holds none of the characters the parsers split on. */
  lemma DigitWord(s: string)
    requires AllDigits(s)
    ensures NoSpace(s) && ':' !in s && '/' !in s && '.' !in s
  {
    DigitsAreNotSpace(s);
  }

  lemma IntsOfCons(a: string, rest: seq<string>, x: int, xs: seq<int>)
    requires ParseInt(a) == Some(x) && IntsOf(rest) == Some(xs)
    ensures IntsOf([a] + rest) == Some([x] + xs)
  {
    assert ([a] + rest)[1..] == rest;
  }

  /** `list(map(int, [a, b]))` is the two parsed values. */
  lemma IntsOfTwo(a: string, b: string, x: int, y: int)
    requires ParseInt(a) == Some(x) && ParseInt(b) == Some(y)
    ensures IntsOf([a, b]) == Some([x, y])
  {
    assert IntsOf([]) == Some([]);
    IntsOfCons(b, [], y, []);
    assert [b] + [] == [b] && [y] + [] == [y];
    IntsOfCons(a, [b], x, [y]);
    assert [a] + [b] == [a, b] && [x] + [y] == [x, y];
  }

  /** `list(map(int, [a, b, c]))` is the three parsed values. */
  lemma IntsOfThree(a: string, b: string, c: string, x: int, y: int, z: int)
    requires ParseInt(a) == Some(x) && ParseInt(b) == Some(y) && ParseInt(c) == Some(z)
    ensures IntsOf([a, b, c]) == Some([x, y, z])
  {
    IntsOfTwo(b, c, y, z);
    IntsOfCons(a, [b, c], x, [y, z]);
    assert [a] + [b, c] == [a, b, c] && [x] + [y, z] == [x, y, z];
  }

  /** A word that splits at ':' into two integer literals reads as those two values. */
  lemma HourMinuteOfParts(word: string, a: string, b: string, x: int, y: int)
    requires Split(word, ':') == [a, b]
    requires ParseInt(a) == Some(x) && ParseInt(b) == Some(y)
    ensures HourMinute(word) == Ok((x, y))
  {
    IntsOfTwo(a, b, x, y);
  }

  /** `hh:mm` with digit strings reads as their values. */
  lemma ReadsHourMinute(hh: string, mm: string)
    requires hh != [] && AllDigits(hh) && mm != [] && AllDigits(mm)
    ensures HourMinute(hh + ":" + mm) == Ok((DigitsValue(hh), DigitsValue(mm)))
  {
    assert Split(hh + ":" + mm, ':') == [hh, mm] by {
      DigitWord(hh);
      DigitWord(mm);
      JoinTwo(hh, mm, ":");
      SplitJoin([hh, mm], ':');
    }
    ParseDigits(hh);
    ParseDigits(mm);
    HourMinuteOfParts(hh + ":" + mm, hh, mm, DigitsValue(hh), DigitsValue(mm));
  }

  /** `MM/dd/yy` with digit strings splits into their values. */
  lemma ReadsMonthDayYear(mo: string, dd: string, yy: string)
    requires mo != [] && AllDigits(mo) && dd != [] && AllDigits(dd) && yy != [] && AllDigits(yy)
    ensures IntsOf(Split(mo + "/" + dd + "/" + yy, '/')) == Some([DigitsValue(mo), DigitsValue(dd), DigitsValue(yy)])
  {
    assert Split(mo + "/" + dd + "/" + yy, '/') == [mo, dd, yy] by {
      DigitWord(mo);
      DigitWord(dd);
      DigitWord(yy);
      JoinThree(mo, dd, yy, "/");
      SplitJoin([mo, dd, yy], '/');
    }
    ParseDigits(mo);
    ParseDigits(dd);
    ParseDigits(yy);
    IntsOfThree(mo, dd, yy, DigitsValue(mo), DigitsValue(dd), DigitsValue(yy));
  }

  /** The first format reads its three words as clock, meridiem and date. */
  lemma Sept14OfFields(clock: string, meridiem: string, date: string, h: int, m: int, mo: int, dd: int, yy: int)
    requires HourMinute(clock) == Ok((h, m))
    requires IntsOf(Split(date, '/')) == Some([mo, dd, yy])
    ensures Sept14FromWords([clock, meridiem, date]) == MakeDatetime(2000 + yy, mo, dd, h + PmShift(meridiem), m, 0)
  {
    var words := [clock, meridiem, date];
    assert words[0] == clock && words[1] == meridiem && words[2] == date;
    Sept14OfWords(words, h, m, mo, dd, yy);
  }

  lemma Sept14OfWords(words: seq<string>, h: int, m: int, mo: int, dd: int, yy: int)
    requires |words| == 3
    requires HourMinute(words[0]) == Ok((h, m))
    requires IntsOf(Split(words[2], '/')) == Some([mo, dd, yy])
    ensures Sept14FromWords(words) == MakeDatetime(2000 + yy, mo, dd, h + PmShift(words[1]), m, 0)
  {
    var mdy := [mo, dd, yy];
    assert mdy[2] == yy && mdy[0] == mo && mdy[1] == dd;
  }

  /** Fields joined by a non-space separator make a single word. */
  lemma FieldsAreWords(a: string, sep: string, b: string)
    requires a != [] && NoSpace(a) && NoSpace(b) && |sep| == 1 && !IsSpace(sep[0])
    ensures a + sep + b != [] && NoSpace(a + sep + b)
  {
  }

  lemma MdyWords(ds: string, hh: string, mm: string, meridiem: string, mo: string, dd: string, yy: string)
    requires ds == (hh + ":" + mm) + " " + meridiem + " " + (mo + "/" + dd + "/" + yy)
    requires hh != [] && AllDigits(hh) && AllDigits(mm)
    requires mo != [] && AllDigits(mo) && AllDigits(dd) && AllDigits(yy)
    requires meridiem != [] && NoSpace(meridiem)
    ensures Words(ds) == [hh + ":" + mm, meridiem, mo + "/" + dd + "/" + yy]
  {
    DigitWord(hh);
    DigitWord(mm);
    DigitWord(mo);
    DigitWord(dd);
    DigitWord(yy);
    FieldsAreWords(hh, ":", mm);
    FieldsAreWords(mo, "/", dd);
    FieldsAreWords(mo + "/" + dd, "/", yy);
    WordsThree(hh + ":" + mm, meridiem, mo + "/" + dd + "/" + yy);
  }

  /** A date written as `hh:mm <meridiem> MM/dd/yy` with decimal fields of
      values `h`, `m`, `month`, `day` and `yy` reads as year 2000+yy, month and
      day as written, and the hour shifted by twelve exactly when the
      meridiem's text before its first '.' is "p". */
  lemma ReadsMdyDate(ds: string, hh: string, mm: string, meridiem: string, mo: string, dd: string, yy: string,
                     h: int, m: int, month: int, day: int, year: int)
    requires ds == (hh + ":" + mm) + " " + meridiem + " " + (mo + "/" + dd + "/" + yy)
    requires hh != [] && AllDigits(hh) && mm != [] && AllDigits(mm)
    requires mo != [] && AllDigits(mo) && dd != [] && AllDigits(dd) && yy != [] && AllDigits(yy)
    requires meridiem != [] && NoSpace(meridiem)
    requires h == DigitsValue(hh) && m == DigitsValue(mm)
    requires month == DigitsValue(mo) && day == DigitsValue(dd) && year == DigitsValue(yy)
    ensures UwecDateTilSept14(ds) == MakeDatetime(2000 + year, month, day, h + PmShift(meridiem), m, 0)
  {
    MdyWords(ds, hh, mm, meridiem, mo, dd, yy);
    MdyFields(hh, mm, meridiem, mo, dd, yy, h, m, month, day, year);
  }

  lemma MdyFields(hh: string, mm: string, meridiem: string, mo: string, dd: string, yy: string,
                  h: int, m: int, month: int, day: int, year: int)
    requires hh != [] && AllDigits(hh) && mm != [] && AllDigits(mm)
    requires mo != [] && AllDigits(mo) && dd != [] && AllDigits(dd) && yy != [] && AllDigits(yy)
    requires h == DigitsValue(hh) && m == DigitsValue(mm)
    requires month == DigitsValue(mo) && day == DigitsValue(dd) && year == DigitsValue(yy)
    ensures Sept14FromWords([hh + ":" + mm, meridiem, mo + "/" + dd + "/" + yy])
         == MakeDatetime(2000 + year, month, day, h + PmShift(meridiem), m, 0)
  {
    ReadsHourMinute(hh, mm);
    ReadsMonthDayYear(mo, dd, yy);
    Sept14OfFields(hh + ":" + mm, meridiem, mo + "/" + dd + "/" + yy, h, m, month, day, year);
  }

  /** "p.m." moves the hour by twelve. */
  lemma PmShiftsTwelve()
    ensures PmShift("p.m.") == 12
  {
    assert "p.m." == "p" + ['.'] + "m.";
    SplitCons("p", '.', "m.");
  }

  /** "a.m." leaves the hour as written. */
  lemma AmKeepsHour()
    ensures PmShift("a.m.") == 0
  {
    assert "a.m." == "a" + ['.'] + "m.";
    SplitCons("a", '.', "m.");
  }

  /** "12:mm p.m." gives hour 24, which `datetime` rejects: the whole parse raises
      (`ValueError`, or `OverflowError` when another field does not fit a C `int`). */
  lemma TwelvePmRejected(ds: string, mm: string, mo: string, dd: string, yy: string)
    requires ds == ("12" + ":" + mm) + " " + "p.m." + " " + (mo + "/" + dd + "/" + yy)
    requires mm != [] && AllDigits(mm)
    requires mo != [] && AllDigits(mo) && dd != [] && AllDigits(dd) && yy != [] && AllDigits(yy)
    ensures UwecDateTilSept14(ds).Err?
  {
    var m, month, day, year := DigitsValue(mm), DigitsValue(mo), DigitsValue(dd), DigitsValue(yy);
    assert DigitsValue("12") == 12;
    PmShiftsTwelve();
    ReadsMdyDate(ds, "12", mm, "p.m.", mo, dd, yy, 12, m, month, day, year);
    HourTwentyFourRejected(2000 + year, month, day, m);
  }

  /** `datetime` never accepts hour 24: `ValueError` when every argument fits a C `int`. */
  lemma HourTwentyFourRejected(year: int, month: int, day: int, minute: int)
    ensures MakeDatetime(year, month, day, 24, minute, 0).Err?
    ensures CIntFields(year, month, day, 24, minute, 0) ==> MakeDatetime(year, month, day, 24, minute, 0) == Err(ValueError)
  {
  }

  /** The second format reads its four words as clock, meridiem, month name and day. */
  lemma Sept25OfFields(clock: string, meridiem: string, abbr: string, day: string, h: int, m: int, month: int, dd: int)
    requires HourMinute(clock) == Ok((h, m))
    requires AbbrToMonth(abbr) == Ok(month)
    requires ParseInt(day) == Some(dd)
    ensures Sept25FromWords([clock, meridiem, abbr, day]) == MakeDatetime(2020, month, dd, h + PmShift(meridiem), m, 0)
  {
    var words := [clock, meridiem, abbr, day];
    assert words[0] == clock && words[1] == meridiem && words[2] == abbr && words[3] == day;
  }

  /** A date written as `hh:mm <meridiem> <Mon.> dd`, with decimal clock
      fields of values `h` and `m` and a day field that `int()` reads as
      `day`, reads in 2020 with the month from `AbbrToMonth`. */
  lemma ReadsMonthNameDate(ds: string, hh: string, mm: string, meridiem: string, abbr: string, dd: string,
                           h: int, m: int, month: int, day: int)
    requires ds == (hh + ":" + mm) + " " + meridiem + " " + abbr + " " + dd
    requires hh != [] && AllDigits(hh) && mm != [] && AllDigits(mm)
    requires meridiem != [] && NoSpace(meridiem)
    requires AbbrToMonth(abbr) == Ok(month)
    requires dd != [] && NoSpace(dd) && ParseInt(dd) == Some(day)
    requires h == DigitsValue(hh) && m == DigitsValue(mm)
    ensures UwecDateTilSept25(ds) == MakeDatetime(2020, month, day, h + PmShift(meridiem), m, 0)
  {
    AbbrIsWord(abbr);
    MonthNameWords(hh, mm, meridiem, abbr, dd);
    ReadsHourMinute(hh, mm);
    Sept25OfFields(hh + ":" + mm, meridiem, abbr, dd, h, m, month, day);
  }

  lemma AbbrIsWord(abbr: string)
    requires AbbrToMonth(abbr).Ok?
    ensures abbr != [] && NoSpace(abbr)
  {
  }

  lemma MonthNameWords(hh: string, mm: string, meridiem: string, abbr: string, dd: string)
    requires hh != [] && AllDigits(hh) && AllDigits(mm) && dd != [] && NoSpace(dd)
    requires meridiem != [] && NoSpace(meridiem)
    requires abbr != [] && NoSpace(abbr)
    ensures Words((hh + ":" + mm) + " " + meridiem + " " + abbr + " " + dd) == [hh + ":" + mm, meridiem, abbr, dd]
  {
    DigitWord(hh);
    DigitWord(mm);
    FieldsAreWords(hh, ":", mm);
    WordsFour(hh + ":" + mm, meridiem, abbr, dd);
  }
}
