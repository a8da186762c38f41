/**
 * The arithmetic end of the dashboard-image pipeline (`ocr_tools.py`):
 * reading the three daily numbers out of the text the OCR engine returned,
 * and growing the stored time series by one row. The image handling, the
 * OCR engine, the CSV file and the clock are not modelled: the recognised
 * text, the table's rows and today's date are inputs. Floating point is kept
 * abstract: a literal `float()` accepts is recognised by `isFloat`, `int()`
 * of a float is `floatToInt`, and the rounded percentage is `roundedPercent`.
 */
module OcrTools {
  import opened Wrappers
  import opened PyBuiltins
  import opened Clock

  // ---------------------------------------------------------------- daily_numbers

  /** The text before the first '%' with its commas removed; `None` when there is no '%'
      (`text.index("%")` raises). */
  function Cut(text: string): Option<string> {
    var i := IndexOf(text, '%');
    if i == |text| then None else Some(Remove(text[..i], ','))
  }

  /** A list of strings as Python values. */
  function Strs(tokens: seq<string>): (vals: seq<PyValue>)
    ensures |vals| == |tokens|
    ensures forall k :: 0 <= k < |tokens| ==> vals[k] == Str(tokens[k])
  {
    seq(|tokens|, k requires 0 <= k < |tokens| => Str(tokens[k]))
  }

  /** The list `daily_numbers` returns: the space-separated tokens of the cut text with
      the first two read by `int()` and the third by `float()`. The first failure
      wins: no '%' or a bad integer is `ValueError`, a missing token `IndexError`. */
  function ReadDailyNumbers(text: string, isFloat: string -> bool): Result<seq<PyValue>, PyError> {
    match Cut(text)
    case None => Err(ValueError)
    case Some(cstext) => ReadTokens(Split(cstext, ' '), isFloat)
  }

  /** The reading of the space-separated tokens of the cut text. */
  function ReadTokens(vals: seq<string>, isFloat: string -> bool): Result<seq<PyValue>, PyError>
    requires |vals| >= 1
  {
    match ParseInt(vals[0])
    case None => Err(ValueError)
    case Some(pos) =>
      if |vals| < 2 then Err(IndexError)
      else match ParseInt(vals[1])
        case None => Err(ValueError)
        case Some(tests) =>
          if |vals| < 3 then Err(IndexError)
          else if !isFloat(vals[2]) then Err(ValueError)
          else Ok([Int(pos), Int(tests), Float(vals[2])] + Strs(vals[3..]))
  }

  /** `daily_numbers` from the recognised text: the list of tokens is overwritten
      element by element. */
  method DailyNumbers(text: string, isFloat: string -> bool) returns (r: Result<seq<PyValue>, PyError>)
    ensures r == ReadDailyNumbers(text, isFloat)
  {
    var i := IndexOf(text, '%');
    if i == |text| {
      return Err(ValueError);
    }
    var cstext := text[..i];
    cstext := Remove(cstext, ',');
    var tokens := Split(cstext, ' ');
    var vals := Strs(tokens);
    var pos := ParseInt(vals[0].s);
    if pos.None? {
      return Err(ValueError);
    }
    vals := vals[0 := Int(pos.value)];
    if |vals| < 2 {
      return Err(IndexError);
    }
    var tests := ParseInt(vals[1].s);
    if tests.None? {
      return Err(ValueError);
    }
    vals := vals[1 := Int(tests.value)];
    if |vals| < 3 {
      return Err(IndexError);
    }
    if !isFloat(vals[2].s) {
      return Err(ValueError);
    }
    vals := vals[2 := Float(vals[2].s)];
    Overwritten(tokens, pos.value, tests.value);
    return Ok(vals);
  }

  /** The token list with its first three entries overwritten by the parsed values. */
  lemma Overwritten(tokens: seq<string>, x: int, y: int)
    requires |tokens| >= 3
    ensures Strs(tokens)[0 := Int(x)][1 := Int(y)][2 := Float(tokens[2])]
         == [Int(x), Int(y), Float(tokens[2])] + Strs(tokens[3..])
  {
    StrsFront(tokens);
    UpdateFront(Str(tokens[0]), Str(tokens[1]), Str(tokens[2]), Strs(tokens[3..]), Int(x), Int(y), Float(tokens[2]));
  }

  lemma StrsFront(tokens: seq<string>)
    requires |tokens| >= 3
    ensures Strs(tokens) == [Str(tokens[0]), Str(tokens[1]), Str(tokens[2])] + Strs(tokens[3..])
  {
    var rhs := [Str(tokens[0]), Str(tokens[1]), Str(tokens[2])] + Strs(tokens[3..]);
    forall k | 3 <= k < |tokens| ensures Strs(tokens)[k] == rhs[k] {
      assert rhs[k] == Strs(tokens[3..])[k - 3] == Str(tokens[k]);
    }
  }

  lemma UpdateFront(a: PyValue, b: PyValue, c: PyValue, rest: seq<PyValue>, x: PyValue, y: PyValue, z: PyValue)
    ensures ([a, b, c] + rest)[0 := x][1 := y][2 := z] == [x, y, z] + rest
  {
    var lhs := ([a, b, c] + rest)[0 := x][1 := y][2 := z];
    assert forall k | 3 <= k < |lhs| :: lhs[k] == rest[k - 3];
  }

  /** Parsing succeeds only on text that holds a '%'. */
  lemma PercentRequired(text: string, isFloat: string -> bool)
    ensures Cut(text).Some? <==> '%' in text
    ensures '%' !in text ==> ReadDailyNumbers(text, isFloat) == Err(ValueError)
  {
    IndexOfFirst(text, '%');
    if IndexOf(text, '%') == |text| {
      assert text[..|text|] == text;
    }
  }

  /** Only the text before the first '%' is read. */
  lemma OnlyBeforeFirstPercent(before: string, after: string, isFloat: string -> bool)
    requires '%' !in before
    ensures ReadDailyNumbers(before + "%" + after, isFloat) == ReadDailyNumbers(before + "%", isFloat)
  {
    IndexOfPrefix(before, '%', after);
    IndexOfPrefix(before, '%', "");
    assert before + "%" + after == before + ['%'] + after;
    assert before + "%" == before + ['%'] + "";
    assert (before + "%" + after)[..|before|] == before;
    assert (before + "%")[..|before|] == before;
  }

  /** Cutting a character onto the front of the text. */
  lemma CutCons(c: char, rest: string)
    requires c != '%'
    ensures Cut([c] + rest) == match Cut(rest)
      case None => None
      case Some(x) => Some((if c == ',' then "" else [c]) + x)
  {
    var s := [c] + rest;
    assert s[1..] == rest;
    var i := IndexOf(rest, '%');
    assert IndexOf(s, '%') == 1 + i;
    if i < |rest| {
      var head := [c] + rest[..i];
      assert s[..1 + i] == head;
      assert head[0] == c && head[1..] == rest[..i];
      assert Remove(head, ',') == (if c == ',' then "" else [c]) + Remove(rest[..i], ',');
    }
  }

  /** Commas anywhere in the text are ignored: "1,234" reads as 1234. */
  lemma {:induction false} CommasIgnored(text: string)
    ensures Cut(Remove(text, ',')) == Cut(text)
  {
    if text != [] {
      var c := text[0];
      var rest := text[1..];
      assert text == [c] + rest;
      if c == '%' {
        assert Remove(text, ',') == [c] + Remove(rest, ',');
        assert IndexOf(text, '%') == 0 && IndexOf(Remove(text, ','), '%') == 0;
      } else {
        CommasIgnored(rest);
        CutCons(c, rest);
        if c == ',' {
          assert Remove(text, ',') == Remove(rest, ',');
          if Cut(rest).Some? {
            assert "" + Cut(rest).value == Cut(rest).value;
          }
        } else {
          assert Remove(text, ',') == [c] + Remove(rest, ',');
          CutCons(c, Remove(rest, ','));
        }
      }
    }
  }

  /** So `daily_numbers` reads the same numbers from the text with or without its commas. */
  lemma CommasIgnoredByReading(text: string, isFloat: string -> bool)
    ensures ReadDailyNumbers(Remove(text, ','), isFloat) == ReadDailyNumbers(text, isFloat)
  {
    CommasIgnored(text);
  }

  /** Tokens split on single spaces. */
  lemma SpaceTokens(a: string, b: string, c: string)
    requires ' ' !in a && ' ' !in b && ' ' !in c
    ensures Split(a + " " + b + " " + c, ' ') == [a, b, c]
  {
    JoinThree(a, b, c, " ");
    SplitJoin([a, b, c], ' ');
  }

  lemma SpaceTokensTwo(a: string, b: string)
    requires ' ' !in a && ' ' !in b
    ensures Split(a + " " + b, ' ') == [a, b]
  {
    JoinTwo(a, b, " ");
    SplitJoin([a, b], ' ');
  }

  /** The cut text of `<prefix>%<rest>` when the prefix has no '%' and no ','. */
  lemma CutPlain(prefix: string, rest: string)
    requires '%' !in prefix && ',' !in prefix
    ensures Cut(prefix + "%" + rest) == Some(prefix)
  {
    assert prefix + "%" + rest == prefix + ['%'] + rest;
    IndexOfPrefix(prefix, '%', rest);
    assert (prefix + "%" + rest)[..|prefix|] == prefix;
    RemoveAbsent(prefix, ',');
  }

  /** Text whose cut splits into three tokens, two integers and a float literal. */
  lemma ReadsThreeTokens(text: string, cstext: string, a: string, b: string, c: string, x: int, y: int,
                         isFloat: string -> bool)
    requires Cut(text) == Some(cstext) && Split(cstext, ' ') == [a, b, c]
    requires ParseInt(a) == Some(x) && ParseInt(b) == Some(y) && isFloat(c)
    ensures ReadDailyNumbers(text, isFloat) == Ok([Int(x), Int(y), Float(c)])
  {
    var vals := [a, b, c];
    assert vals[0] == a && vals[1] == b && vals[2] == c && vals[3..] == [];
    assert [Int(x), Int(y), Float(c)] + Strs([]) == [Int(x), Int(y), Float(c)];
  }

  /** `<pos> <tests> <pct>%...` with decimal counts and a float literal reads as
      the two counts and the literal. */
  lemma ReadsThreeNumbers(pos: string, tests: string, pct: string, rest: string, isFloat: string -> bool)
    requires pos != [] && AllDigits(pos) && tests != [] && AllDigits(tests)
    requires ' ' !in pct && '%' !in pct && ',' !in pct && isFloat(pct)
    ensures ReadDailyNumbers(pos + " " + tests + " " + pct + "%" + rest, isFloat)
         == Ok([Int(DigitsValue(pos)), Int(DigitsValue(tests)), Float(pct)])
  {
    var prefix := pos + " " + tests + " " + pct;
    PlainDigits(pos);
    PlainDigits(tests);
    CutPlain(prefix, rest);
    SpaceTokens(pos, tests, pct);
    ParseDigits(pos);
    ParseDigits(tests);
    ReadsThreeTokens(pos + " " + tests + " " + pct + "%" + rest, prefix, pos, tests, pct,
                     DigitsValue(pos), DigitsValue(tests), isFloat);
  }

  lemma PlainDigits(s: string)
    requires AllDigits(s)
    ensures '%' !in s && ',' !in s && ' ' !in s
  {
  }

  /** With only two tokens before the '%', reading the third raises `IndexError`. */
  lemma TwoTokensFail(pos: string, tests: string, rest: string, isFloat: string -> bool)
    requires pos != [] && AllDigits(pos) && tests != [] && AllDigits(tests)
    ensures ReadDailyNumbers(pos + " " + tests + "%" + rest, isFloat) == Err(IndexError)
  {
    var prefix := pos + " " + tests;
    PlainDigits(pos);
    PlainDigits(tests);
    CutPlain(prefix, rest);
    SpaceTokensTwo(pos, tests);
    ParseDigits(pos);
    ParseDigits(tests);
  }

  /** "12 200 6.0%\n" gives 12 positives out of 200 tests. */
  lemma SampleDailyNumbers(isFloat: string -> bool)
    requires isFloat("6.0")
    ensures ReadDailyNumbers("12 200 6.0%\n", isFloat) == Ok([Int(12), Int(200), Float("6.0")])
  {
    SampleText();
    SampleDigits();
    ReadsThreeNumbers("12", "200", "6.0", "\n", isFloat);
  }

  lemma SampleText()
    ensures "12 200 6.0%\n" == "12" + " " + "200" + " " + "6.0" + "%" + "\n"
    ensures "12" != [] && AllDigits("12") && "200" != [] && AllDigits("200")
    ensures ' ' !in "6.0" && '%' !in "6.0" && ',' !in "6.0"
  {
  }

  lemma SampleDigits()
    ensures DigitsValue("12") == 12 && DigitsValue("200") == 200
  {
    assert DigitsValue("12") == 12;
    assert "200"[..2] == "20" && "20"[..1] == "2";
  }

  // ---------------------------------------------------------------- add_new_data

  /** One row of the stored series: `date, daily_pos, daily_tests, daily_pcnt, cumul_pos, cumul_test`. */
  datatype Row<P> = Row(date: string, dailyPos: int, dailyTests: int, dailyPcnt: P, cumulPos: int, cumulTest: int)

  /** `int(d)` for one element of `data`. */
  function ToInt(v: PyValue, floatToInt: string -> Result<int, PyError>): Result<int, PyError> {
    match v
    case Int(i) => Ok(i)
    case Str(s) => (match ParseInt(s) case Some(i) => Ok(i) case None => Err(ValueError))
    case Float(literal) => floatToInt(literal)
  }

  /** `[int(d) for d in data]`: the first element that fails decides the error. */
  function ToInts(data: seq<PyValue>, floatToInt: string -> Result<int, PyError>): (r: Result<seq<int>, PyError>)
    ensures r.Ok? ==> |r.value| == |data|
  {
    if data == [] then Ok([])
    else match ToInt(data[0], floatToInt)
      case Err(e) => Err(e)
      case Ok(i) =>
        match ToInts(data[1..], floatToInt)
        case Err(e) => Err(e)
        case Ok(rest) => Ok([i] + rest)
  }

  lemma ToIntsThree(a: PyValue, b: PyValue, c: PyValue, floatToInt: string -> Result<int, PyError>, x: int, y: int, z: int)
    requires ToInt(a, floatToInt) == Ok(x) && ToInt(b, floatToInt) == Ok(y) && ToInt(c, floatToInt) == Ok(z)
    ensures ToInts([a, b, c], floatToInt) == Ok([x, y, z])
  {
    ToIntsCons(c, [], floatToInt, z, []);
    assert [c] + [] == [c] && [z] + [] == [z];
    ToIntsCons(b, [c], floatToInt, y, [z]);
    assert [b] + [c] == [b, c] && [y] + [z] == [y, z];
    ToIntsCons(a, [b, c], floatToInt, x, [y, z]);
    assert [a] + [b, c] == [a, b, c] && [x] + [y, z] == [x, y, z];
  }

  lemma ToIntsCons(a: PyValue, rest: seq<PyValue>, floatToInt: string -> Result<int, PyError>, x: int, xs: seq<int>)
    requires ToInt(a, floatToInt) == Ok(x) && ToInts(rest, floatToInt) == Ok(xs)
    ensures ToInts([a] + rest, floatToInt) == Ok([x] + xs)
  {
    assert ([a] + rest)[0] == a && ([a] + rest)[1..] == rest;
  }

  /** The converted list holds each element's `int()`, in order. */
  lemma {:induction false} ToIntsValues(data: seq<PyValue>, floatToInt: string -> Result<int, PyError>)
    requires ToInts(data, floatToInt).Ok?
    ensures forall k :: 0 <= k < |data| ==> ToInt(data[k], floatToInt) == Ok(ToInts(data, floatToInt).value[k])
  {
    if data != [] {
      ToIntsValues(data[1..], floatToInt);
      var rest := ToInts(data[1..], floatToInt).value;
      assert ToInts(data, floatToInt).value == [ToInt(data[0], floatToInt).value] + rest;
      forall k | 1 <= k < |data| ensures ToInt(data[k], floatToInt) == Ok(ToInts(data, floatToInt).value[k]) {
        assert data[k] == data[1..][k - 1];
      }
    }
  }

  /** `add_new_data` on the stored rows: the new table, or the exception the call raises.
      `percent` is `round(100*data[0]/data[1], 1)`. */
  function AddNewData<P>(data: seq<PyValue>, table: seq<Row<P>>, today: Date,
                         floatToInt: string -> Result<int, PyError>, roundedPercent: (int, int) -> P)
    : (r: Result<seq<Row<P>>, PyError>)
    requires ValidDate(today)
    ensures r.Ok? ==> |table| >= 1 && |r.value| == |table| + 1 && r.value[..|table|] == table
    ensures r.Ok? ==> r.value[|table|].date == DateIsoFormat(today)
  {
    match ToInts(data, floatToInt)
    case Err(e) => Err(e)
    case Ok(d) =>
      if |d| < 2 then Err(IndexError)
      else AppendDay(d[0], d[1], table, today, roundedPercent)
  }

  /** The part of `add_new_data` after the conversion, from the first two counts. */
  function AppendDay<P>(pos: int, tests: int, table: seq<Row<P>>, today: Date, roundedPercent: (int, int) -> P)
    : (r: Result<seq<Row<P>>, PyError>)
    requires ValidDate(today)
    ensures r.Ok? ==> |table| >= 1 && |r.value| == |table| + 1 && r.value[..|table|] == table
    ensures r.Ok? ==> r.value[|table|].date == DateIsoFormat(today)
  {
    if tests == 0 then Err(ZeroDivisionError)
    else
      var percent := roundedPercent(pos, tests);
      if table == [] then Err(IndexError)
      else
        var last := table[|table| - 1];
        var row := Row(DateIsoFormat(today), pos, tests, percent, last.cumulPos + pos, last.cumulTest + tests);
        Ok(table + [row])
  }

  /** The new row holds today's counts and the running totals of the previous row plus them. */
  lemma NewRowTotals<P>(data: seq<PyValue>, table: seq<Row<P>>, today: Date,
                        floatToInt: string -> Result<int, PyError>, roundedPercent: (int, int) -> P)
    requires ValidDate(today)
    requires AddNewData(data, table, today, floatToInt, roundedPercent).Ok?
    ensures var rows := AddNewData(data, table, today, floatToInt, roundedPercent).value;
            var row := rows[|table|];
            var last := table[|table| - 1];
            && ToInt(data[0], floatToInt) == Ok(row.dailyPos)
            && ToInt(data[1], floatToInt) == Ok(row.dailyTests)
            && row.dailyPcnt == roundedPercent(row.dailyPos, row.dailyTests)
            && row.cumulPos == last.cumulPos + row.dailyPos
            && row.cumulTest == last.cumulTest + row.dailyTests
  {
    ToIntsValues(data, floatToInt);
  }

  /** The call fails exactly when the table is empty, a conversion fails, fewer than
      two values are given, or the test count is zero. */
  lemma AddNewDataFails<P>(data: seq<PyValue>, table: seq<Row<P>>, today: Date,
                           floatToInt: string -> Result<int, PyError>, roundedPercent: (int, int) -> P)
    requires ValidDate(today)
    ensures AddNewData(data, table, today, floatToInt, roundedPercent).Err? <==>
      || ToInts(data, floatToInt).Err?
      || |data| < 2
      || ToInt(data[1], floatToInt) == Ok(0)
      || table == []
  {
    if ToInts(data, floatToInt).Ok? {
      ToIntsValues(data, floatToInt);
    }
  }

  /** With no negative counts the running totals never go down. */
  lemma CumulativeNonDecreasing<P>(data: seq<PyValue>, table: seq<Row<P>>, today: Date,
                                   floatToInt: string -> Result<int, PyError>, roundedPercent: (int, int) -> P)
    requires ValidDate(today)
    requires AddNewData(data, table, today, floatToInt, roundedPercent).Ok?
    requires forall k :: 0 <= k < 2 ==> ToInt(data[k], floatToInt).Ok? && ToInt(data[k], floatToInt).value >= 0
    ensures var rows := AddNewData(data, table, today, floatToInt, roundedPercent).value;
            && rows[|table|].cumulPos >= rows[|table| - 1].cumulPos
            && rows[|table|].cumulTest >= rows[|table| - 1].cumulTest
  {
    NewRowTotals(data, table, today, floatToInt, roundedPercent);
  }

  /** Once it converts, the value of the supplied percentage, the third value,
      plays no part in the result: the percentage is recomputed. */
  lemma PercentIgnored<P>(data: seq<PyValue>, other: PyValue, table: seq<Row<P>>, today: Date,
                          floatToInt: string -> Result<int, PyError>, roundedPercent: (int, int) -> P)
    requires ValidDate(today)
    requires |data| == 3 && ToInt(data[2], floatToInt).Ok? && ToInt(other, floatToInt).Ok?
    ensures AddNewData(data, table, today, floatToInt, roundedPercent)
         == AddNewData(data[2 := other], table, today, floatToInt, roundedPercent)
  {
    SameCounts(data, data[2 := other], floatToInt);
    AddNewDataOfCounts(data, data[2 := other], table, today, floatToInt, roundedPercent);
  }

  /** The third value still goes through `int()`: when that raises, so does the call. */
  lemma PercentMustConvert<P>(data: seq<PyValue>, table: seq<Row<P>>, today: Date,
                              floatToInt: string -> Result<int, PyError>, roundedPercent: (int, int) -> P)
    requires ValidDate(today)
    requires |data| == 3 && ToInt(data[0], floatToInt).Ok? && ToInt(data[1], floatToInt).Ok?
    requires ToInt(data[2], floatToInt).Err?
    ensures AddNewData(data, table, today, floatToInt, roundedPercent) == Err(ToInt(data[2], floatToInt).error)
  {
    var e := ToInt(data[2], floatToInt).error;
    assert data[2..][0] == data[2];
    assert ToInts(data[2..], floatToInt) == Err(e);
    assert data[1..][0] == data[1] && data[1..][1..] == data[2..];
    assert ToInts(data[1..], floatToInt) == Err(e);
  }

  /** Two lists of three values that differ only in the third convert alike up to it. */
  lemma SameCounts(data: seq<PyValue>, data': seq<PyValue>, floatToInt: string -> Result<int, PyError>)
    requires |data| == 3 && |data'| == 3 && data[0] == data'[0] && data[1] == data'[1]
    requires ToInt(data[2], floatToInt).Ok? && ToInt(data'[2], floatToInt).Ok?
    ensures ToInts(data, floatToInt).Err? ==> ToInts(data', floatToInt) == ToInts(data, floatToInt)
    ensures ToInts(data, floatToInt).Ok? ==>
      && ToInts(data', floatToInt).Ok?
      && ToInts(data, floatToInt).value[0] == ToInts(data', floatToInt).value[0]
      && ToInts(data, floatToInt).value[1] == ToInts(data', floatToInt).value[1]
  {
    var x, y := ToInt(data[0], floatToInt), ToInt(data[1], floatToInt);
    if x.Ok? && y.Ok? {
      ThreeConverted(data, floatToInt);
      ThreeConverted(data', floatToInt);
    } else {
      ToIntsFirstTwo(data, floatToInt);
      ToIntsFirstTwo(data', floatToInt);
    }
  }

  /** Three values that all convert give the list of their conversions. */
  lemma ThreeConverted(data: seq<PyValue>, floatToInt: string -> Result<int, PyError>)
    requires |data| == 3
    requires ToInt(data[0], floatToInt).Ok? && ToInt(data[1], floatToInt).Ok? && ToInt(data[2], floatToInt).Ok?
    ensures ToInts(data, floatToInt)
         == Ok([ToInt(data[0], floatToInt).value, ToInt(data[1], floatToInt).value, ToInt(data[2], floatToInt).value])
  {
    ToIntsThree(data[0], data[1], data[2], floatToInt,
                ToInt(data[0], floatToInt).value, ToInt(data[1], floatToInt).value, ToInt(data[2], floatToInt).value);
    assert ToInts(data, floatToInt) == ToInts([data[0], data[1], data[2]], floatToInt) by {
      assert data == [data[0], data[1], data[2]];
    }
  }

  /** `add_new_data` reads only the first two converted values. */
  lemma AddNewDataOfCounts<P>(data: seq<PyValue>, data': seq<PyValue>, table: seq<Row<P>>, today: Date,
                              floatToInt: string -> Result<int, PyError>, roundedPercent: (int, int) -> P)
    requires ValidDate(today)
    requires ToInts(data, floatToInt).Err? ==> ToInts(data', floatToInt) == ToInts(data, floatToInt)
    requires ToInts(data, floatToInt).Ok? ==>
      && ToInts(data', floatToInt).Ok?
      && |data| == |data'| >= 2
      && ToInts(data, floatToInt).value[0] == ToInts(data', floatToInt).value[0]
      && ToInts(data, floatToInt).value[1] == ToInts(data', floatToInt).value[1]
    ensures AddNewData(data, table, today, floatToInt, roundedPercent)
         == AddNewData(data', table, today, floatToInt, roundedPercent)
  {
  }

  /** The comprehension stops at the first value whose `int()` fails, and
      raises that value's error, wherever it sits. */
  lemma {:induction false} ToIntsFirstFailure(data: seq<PyValue>, floatToInt: string -> Result<int, PyError>, k: nat)
    requires k < |data|
    requires forall j :: 0 <= j < k ==> ToInt(data[j], floatToInt).Ok?
    requires ToInt(data[k], floatToInt).Err?
    ensures ToInts(data, floatToInt) == Err(ToInt(data[k], floatToInt).error)
  {
    if k > 0 {
      assert ToInt(data[0], floatToInt).Ok?;
      var rest := data[1..];
      assert forall j :: 0 <= j < k - 1 ==> rest[j] == data[j + 1];
      assert rest[k - 1] == data[k];
      ToIntsFirstFailure(rest, floatToInt, k - 1);
    }
  }

  /** Conversely, a failing comprehension has a first failing value, and its error is the one raised. */
  lemma {:induction false} ToIntsFailureIsFirst(data: seq<PyValue>, floatToInt: string -> Result<int, PyError>)
    requires ToInts(data, floatToInt).Err?
    ensures exists k :: 0 <= k < |data| && (forall j :: 0 <= j < k ==> ToInt(data[j], floatToInt).Ok?) &&
              ToInt(data[k], floatToInt).Err? && ToInts(data, floatToInt).error == ToInt(data[k], floatToInt).error
  {
    if ToInt(data[0], floatToInt).Err? {
      assert 0 < |data| && ToInt(data[0], floatToInt).Err? &&
             ToInts(data, floatToInt).error == ToInt(data[0], floatToInt).error;
    } else {
      var rest := data[1..];
      ToIntsFailureIsFirst(rest, floatToInt);
      var k :| 0 <= k < |rest| && (forall j :: 0 <= j < k ==> ToInt(rest[j], floatToInt).Ok?) &&
                ToInt(rest[k], floatToInt).Err? && ToInts(rest, floatToInt).error == ToInt(rest[k], floatToInt).error;
      assert rest[k] == data[k + 1];
      assert forall j :: 1 <= j < k + 1 ==> data[j] == rest[j - 1];
      assert forall j :: 0 <= j < k + 1 ==> ToInt(data[j], floatToInt).Ok?;
    }
  }

  /** A failing conversion among the first two values fails the whole list with its error. */
  lemma ToIntsFirstTwo(data: seq<PyValue>, floatToInt: string -> Result<int, PyError>)
    requires |data| >= 2
    ensures ToInt(data[0], floatToInt).Err? ==> ToInts(data, floatToInt) == Err(ToInt(data[0], floatToInt).error)
    ensures ToInt(data[0], floatToInt).Ok? && ToInt(data[1], floatToInt).Err? ==>
              ToInts(data, floatToInt) == Err(ToInt(data[1], floatToInt).error)
  {
    assert data[1..][0] == data[1];
  }

  /** Every row after the first carries the previous row's totals plus its own counts. */
  predicate RunningTotals<P>(table: seq<Row<P>>) {
    forall k :: 0 < k < |table| ==>
      && table[k].cumulPos == table[k - 1].cumulPos + table[k].dailyPos
      && table[k].cumulTest == table[k - 1].cumulTest + table[k].dailyTests
  }

  /** Adding a day keeps the table's running totals consistent. */
  lemma AddKeepsRunningTotals<P>(data: seq<PyValue>, table: seq<Row<P>>, today: Date,
                                 floatToInt: string -> Result<int, PyError>, roundedPercent: (int, int) -> P)
    requires ValidDate(today)
    requires RunningTotals(table)
    requires AddNewData(data, table, today, floatToInt, roundedPercent).Ok?
    ensures RunningTotals(AddNewData(data, table, today, floatToInt, roundedPercent).value)
  {
    NewRowTotals(data, table, today, floatToInt, roundedPercent);
    var rows := AddNewData(data, table, today, floatToInt, roundedPercent).value;
    var n := |table|;
    assert rows == rows[..n] + [rows[n]];
    RunningTotalsAppend(table, rows[n]);
  }

  lemma RunningTotalsAppend<P>(table: seq<Row<P>>, row: Row<P>)
    requires RunningTotals(table) && table != []
    requires row.cumulPos == table[|table| - 1].cumulPos + row.dailyPos
    requires row.cumulTest == table[|table| - 1].cumulTest + row.dailyTests
    ensures RunningTotals(table + [row])
  {
    var rows := table + [row];
    forall k | 0 < k < |rows|
      ensures rows[k].cumulPos == rows[k - 1].cumulPos + rows[k].dailyPos
      ensures rows[k].cumulTest == rows[k - 1].cumulTest + rows[k].dailyTests
    {
      if k < |table| {
        assert rows[k] == table[k] && rows[k - 1] == table[k - 1];
      }
    }
  }

  /** A table with totals (100, 2000) and a day of 12 positives out of 200 tests
      ends with totals (112, 2200). */
  lemma SampleNewRow<P>(last: Row<P>, today: Date, pct: string,
                        floatToInt: string -> Result<int, PyError>, roundedPercent: (int, int) -> P)
    requires ValidDate(today)
    requires last.cumulPos == 100 && last.cumulTest == 2000
    requires floatToInt(pct).Ok?
    ensures AddNewData([Int(12), Int(200), Float(pct)], [last], today, floatToInt, roundedPercent)
         == Ok([last, Row(DateIsoFormat(today), 12, 200, roundedPercent(12, 200), 112, 2200)])
  {
    ToIntsThree(Int(12), Int(200), Float(pct), floatToInt, 12, 200, floatToInt(pct).value);
    assert [last][0] == last && |[last]| == 1;
    assert [last] + [Row(DateIsoFormat(today), 12, 200, roundedPercent(12, 200), 112, 2200)]
        == [last, Row(DateIsoFormat(today), 12, 200, roundedPercent(12, 200), 112, 2200)];
  }
}
