/**
 * How the scraper files the pages it fetches (`uwecscraper.py`): the name a
 * capture is saved under (`gen_filename_from_date`), the check that a page
 * is not already stored (`is_new_data`), the type guard of `save_html` and
 * the decision taken by `gather_and_save`. The directory listing, the stored
 * pages, the hash function, today's date and the fetched page are inputs;
 * reading and writing files is not modelled.
 */
module Archive {
  import opened Wrappers
  import opened PyBuiltins
  import opened Clock
  import opened DateParsers

  const DefaultDataLocation := "/Users/amethyst/Dropbox/work/covid/data/daily_website_saves/"

  /** The Finder metadata file both directory scans skip. */
  const DsStore := ".DS_Store"

  /** `f.strip('.html')` removes any of these characters, not the suffix. */
  const HtmlChars := AnyOf(".html")

  function Max(a: int, b: int): int { if a < b then b else a }

  // ---------------------------------------------------------------- the directory listing

  /** The listing without `.DS_Store`, order kept. `entries` is the listing
      after the `isfile` test: regular files only, so sub-directories such as
      an image folder never reach the loop. */
  function OnlyFiles(entries: seq<string>): seq<string> {
    if entries == [] then []
    else (if entries[0] == DsStore then [] else [entries[0]]) + OnlyFiles(entries[1..])
  }

  /** `OnlyFiles` keeps every entry but `.DS_Store`. */
  lemma {:induction false} OnlyFilesMembers(entries: seq<string>)
    ensures forall f :: f in OnlyFiles(entries) <==> f in entries && f != DsStore
  {
    if entries != [] {
      OnlyFilesMembers(entries[1..]);
      assert entries == [entries[0]] + entries[1..];
    }
  }

  lemma {:induction false} OnlyFilesAppend(entries: seq<string>, f: string)
    requires f != DsStore
    ensures OnlyFiles(entries + [f]) == OnlyFiles(entries) + [f]
  {
    if entries == [] {
      assert entries + [f] == [f];
    } else {
      assert (entries + [f])[1..] == entries[1..] + [f];
      OnlyFilesAppend(entries[1..], f);
    }
  }

  // ---------------------------------------------------------------- gen_filename_from_date

  /** `date.isoformat().replace(':', '.')`: the part of a capture's name taken from its timestamp. */
  function FileStem(date: Timestamp): (stem: string)
    requires Valid(date)
    ensures |stem| == 19 && IsDigit(stem[0]) && IsDigit(stem[18])
    ensures '_' !in stem && ':' !in stem
  {
    ReplaceChar(IsoFormat(date), ':', '.')
  }

  /** `"{}/{}_{}.html".format(path, stem, n)`. */
  function CaptureName(path: string, stem: string, n: int): string {
    path + "/" + stem + "_" + IntToString(n) + ".html"
  }

  /** The loop looks at a file when, once stripped, its first 19 characters are the stem. */
  predicate SameStem(stem: string, f: string) {
    SliceTo(Strip(f, HtmlChars), 19) == stem
  }

  /** One turn of the loop: `highest` after file `f`. The test reads the number
      after the first '_', the assignment everything from index 20 on. */
  function Visit(stem: string, f: string, highest: int): Result<int, PyError> {
    if !SameStem(stem, f) then Ok(highest)
    else
      var t := Strip(f, HtmlChars);
      var parts := Split(t, '_');
      if |parts| < 2 then Err(IndexError)
      else match ParseInt(parts[1])
        case None => Err(ValueError)
        case Some(n) =>
          if n <= highest then Ok(highest)
          else match ParseInt(SliceFrom(t, 20))
            case None => Err(ValueError)
            case Some(m) => Ok(m)
  }

  /** The whole loop, from a starting `highest`. */
  function ScanHighest(stem: string, files: seq<string>, highest: int): Result<int, PyError> {
    if files == [] then Ok(highest)
    else match Visit(stem, files[0], highest)
      case Err(e) => Err(e)
      case Ok(h) => ScanHighest(stem, files[1..], h)
  }

  /** `gen_filename_from_date(path, date, autoincrement)` on the regular files `entries` of the directory.
      With `autoincrement` off the format reads `highest` unbound. */
  function CaptureFilename(path: string, date: Timestamp, autoincrement: bool, entries: seq<string>): Result<string, PyError>
    requires Valid(date)
  {
    if !autoincrement then Err(UnboundLocalError)
    else match ScanHighest(FileStem(date), OnlyFiles(entries), -1)
      case Err(e) => Err(e)
      case Ok(highest) => Ok(CaptureName(path, FileStem(date), highest + 1))
  }

  method GenFilenameFromDate(path: string, date: Timestamp, autoincrement: bool, entries: seq<string>)
    returns (r: Result<string, PyError>)
    requires Valid(date)
    ensures r == CaptureFilename(path, date, autoincrement, entries)
  {
    var fname := ReplaceChar(IsoFormat(date), ':', '.');
    if !autoincrement {
      return Err(UnboundLocalError);
    }
    var onlyfiles := OnlyFiles(entries);
    var highest := -1;
    for i := 0 to |onlyfiles|
      invariant ScanHighest(fname, onlyfiles, -1) == ScanHighest(fname, onlyfiles[i..], highest)
    {
      assert onlyfiles[i..][1..] == onlyfiles[i + 1..];
      var t := Strip(onlyfiles[i], HtmlChars);
      if fname == SliceTo(t, 19) {
        var parts := Split(t, '_');
        if |parts| < 2 {
          return Err(IndexError);
        }
        var n := ParseInt(parts[1]);
        if n.None? {
          return Err(ValueError);
        }
        if n.value > highest {
          var m := ParseInt(SliceFrom(t, 20));
          if m.None? {
            return Err(ValueError);
          }
          highest := m.value;
        }
      }
    }
    assert onlyfiles[|onlyfiles|..] == [];
    return Ok(CaptureName(path, fname, highest + 1));
  }

  /** The files of a listing that the loop looks at. */
  function WithStem(stem: string, files: seq<string>): seq<string> {
    if files == [] then []
    else (if SameStem(stem, files[0]) then [files[0]] else []) + WithStem(stem, files[1..])
  }

  /** `WithStem` keeps exactly the files of the stem. */
  lemma {:induction false} WithStemMembers(stem: string, files: seq<string>)
    ensures forall f :: f in WithStem(stem, files) <==> f in files && SameStem(stem, f)
  {
    if files != [] {
      WithStemMembers(stem, files[1..]);
      assert files == [files[0]] + files[1..];
    }
  }

  /** Files with another stem never change `highest`. */
  lemma {:induction false} ScanIgnoresOtherStems(stem: string, files: seq<string>, highest: int)
    ensures ScanHighest(stem, files, highest) == ScanHighest(stem, WithStem(stem, files), highest)
  {
    if files != [] {
      var rest := WithStem(stem, files[1..]);
      if SameStem(stem, files[0]) {
        assert WithStem(stem, files) == [files[0]] + rest;
        assert ([files[0]] + rest)[1..] == rest;
        match Visit(stem, files[0], highest)
        case Err(e) =>
        case Ok(h) => ScanIgnoresOtherStems(stem, files[1..], h);
      } else {
        assert WithStem(stem, files) == rest;
        ScanIgnoresOtherStems(stem, files[1..], highest);
      }
    }
  }

  /** With no file of the same stem in the directory, the first capture gets number 0. */
  lemma FirstOfItsStem(path: string, date: Timestamp, entries: seq<string>)
    requires Valid(date)
    requires forall f :: f in entries && f != DsStore ==> !SameStem(FileStem(date), f)
    ensures CaptureFilename(path, date, true, entries) == Ok(CaptureName(path, FileStem(date), 0))
  {
    var stem := FileStem(date);
    ScanIgnoresOtherStems(stem, OnlyFiles(entries), -1);
    OnlyFilesMembers(entries);
    WithStemMembers(stem, OnlyFiles(entries));
    var w := WithStem(stem, OnlyFiles(entries));
    assert w == [];
  }

  // ---------------------------------------------------------------- names the generator writes

  /** A same-stem file whose stripped name is `<stem>_<digits>`, as every name the generator writes is. */
  predicate Conforms(stem: string, f: string) {
    SameStem(stem, f) ==>
      var t := Strip(f, HtmlChars);
      |t| > 20 && t[19] == '_' && AllDigits(t[20..])
  }

  predicate AllConform(stem: string, files: seq<string>) {
    forall i :: 0 <= i < |files| ==> Conforms(stem, files[i])
  }

  /** The sequence number of a conforming same-stem file. */
  function SeqNumber(stem: string, f: string): nat
    requires SameStem(stem, f) && Conforms(stem, f)
  {
    DigitsValue(Strip(f, HtmlChars)[20..])
  }

  /** The largest sequence number in use for the stem, -1 when there is none. */
  function Highest(stem: string, files: seq<string>): (h: int)
    requires AllConform(stem, files)
    ensures h >= -1
  {
    if files == [] then -1
    else
      var rest := Highest(stem, files[1..]);
      if SameStem(stem, files[0]) then Max(SeqNumber(stem, files[0]), rest) else rest
  }

  /** `Highest` is the maximum: every same-stem number is at most it, and it is one of them unless it is -1. */
  lemma {:induction false} HighestIsMaximum(stem: string, files: seq<string>)
    requires AllConform(stem, files)
    ensures forall i :: 0 <= i < |files| && SameStem(stem, files[i]) ==> SeqNumber(stem, files[i]) <= Highest(stem, files)
    ensures Highest(stem, files) == -1 ||
            exists i :: 0 <= i < |files| && SameStem(stem, files[i]) && SeqNumber(stem, files[i]) == Highest(stem, files)
  {
    if files != [] {
      HighestIsMaximum(stem, files[1..]);
      forall i | 1 <= i < |files| ensures files[i] == files[1..][i - 1] { }
      var rest := Highest(stem, files[1..]);
      if rest != -1 && Highest(stem, files) == rest {
        var j :| 0 <= j < |files[1..]| && SameStem(stem, files[1..][j]) && SeqNumber(stem, files[1..][j]) == rest;
        assert files[j + 1] == files[1..][j];
      }
    }
  }

  lemma HighestAppend(stem: string, files: seq<string>, f: string)
    requires AllConform(stem, files) && Conforms(stem, f)
    ensures AllConform(stem, files + [f])
    ensures Highest(stem, files + [f]) == if SameStem(stem, f) then Max(Highest(stem, files), SeqNumber(stem, f)) else Highest(stem, files)
    decreases |files|
  {
    var all := files + [f];
    assert forall i :: 0 <= i < |files| ==> all[i] == files[i];
    if files == [] {
      assert all == [f];
    } else {
      assert all[1..] == files[1..] + [f];
      HighestAppend(stem, files[1..], f);
    }
  }

  /** A conforming same-stem file moves `highest` to the larger of the two. */
  lemma VisitConforming(stem: string, f: string, highest: int)
    requires |stem| == 19 && '_' !in stem
    requires SameStem(stem, f) && Conforms(stem, f)
    ensures Visit(stem, f, highest) == Ok(Max(highest, SeqNumber(stem, f)))
  {
    var t := Strip(f, HtmlChars);
    var digits := t[20..];
    assert t == stem + ['_'] + digits;
    SplitCons(stem, '_', digits);
    DigitsNotSeparated(digits);
    ParseDigits(digits);
  }

  /** A decimal string has no '_': it splits into itself. */
  lemma DigitsNotSeparated(digits: string)
    requires digits != [] && AllDigits(digits)
    ensures Split(digits, '_') == [digits]
  {
    assert '_' !in digits;
  }

  /** On a directory where every same-stem name conforms, the loop finds the largest number in use. */
  lemma {:induction false} ScanFindsHighest(stem: string, files: seq<string>, highest: int)
    requires |stem| == 19 && '_' !in stem
    requires AllConform(stem, files) && highest >= -1
    ensures ScanHighest(stem, files, highest) == Ok(Max(highest, Highest(stem, files)))
  {
    if files != [] {
      assert Conforms(stem, files[0]);
      var h := highest;
      var rest := Highest(stem, files[1..]);
      if SameStem(stem, files[0]) {
        VisitConforming(stem, files[0], highest);
        h := Max(highest, SeqNumber(stem, files[0]));
        assert Highest(stem, files) == Max(SeqNumber(stem, files[0]), rest);
      } else {
        assert Highest(stem, files) == rest;
      }
      assert AllConform(stem, files[1..]) by {
        forall i | 0 <= i < |files[1..]| ensures Conforms(stem, files[1..][i]) {
          assert files[1..][i] == files[i + 1];
        }
      }
      ScanFindsHighest(stem, files[1..], h);
    }
  }

  /** On such a directory the new capture's number is the largest in use plus one. */
  lemma CaptureAfterHighest(path: string, date: Timestamp, entries: seq<string>)
    requires Valid(date)
    requires AllConform(FileStem(date), OnlyFiles(entries))
    ensures CaptureFilename(path, date, true, entries)
         == Ok(CaptureName(path, FileStem(date), Highest(FileStem(date), OnlyFiles(entries)) + 1))
  {
    var stem := FileStem(date);
    var files := OnlyFiles(entries);
    ScanFindsHighest(stem, files, -1);
    assert ScanHighest(stem, files, -1) == Ok(Highest(stem, files));
  }

  /** So the new number is larger than every number already taken: no name is reused. */
  lemma CaptureNameIsFresh(path: string, date: Timestamp, entries: seq<string>)
    requires Valid(date)
    requires AllConform(FileStem(date), OnlyFiles(entries))
    ensures var stem := FileStem(date);
            var files := OnlyFiles(entries);
            && CaptureFilename(path, date, true, entries) == Ok(CaptureName(path, stem, Highest(stem, files) + 1))
            && forall i :: 0 <= i < |files| && SameStem(stem, files[i]) ==> SeqNumber(stem, files[i]) < Highest(stem, files) + 1
    ensures var stem := FileStem(date);
            var n := Highest(stem, OnlyFiles(entries)) + 1;
            && CaptureName(path, stem, n) == path + "/" + Basename(stem, n)
            && Basename(stem, n) !in entries
  {
    var stem, files := FileStem(date), OnlyFiles(entries);
    var n := Highest(stem, files) + 1;
    CaptureAfterHighest(path, date, entries);
    HighestIsMaximum(stem, files);
    NextNameUnused(stem, files);
    CaptureNameOfBasename(path, stem, n);
    // A generated name is longer than `.DS_Store`, so it is absent from the
    // whole listing and not only from the part the loop reads.
    assert |Basename(stem, n)| > |DsStore|;
    OnlyFilesMembers(entries);
  }

  /** The name numbered one above the highest is not in the listing. */
  lemma NextNameUnused(stem: string, files: seq<string>)
    requires |stem| == 19 && IsDigit(stem[0])
    requires AllConform(stem, files)
    ensures Basename(stem, Highest(stem, files) + 1) !in files
  {
    var n := Highest(stem, files) + 1;
    HighestIsMaximum(stem, files);
    NewNameConforms(stem, n);
  }

  lemma CaptureNameOfBasename(path: string, stem: string, n: nat)
    ensures CaptureName(path, stem, n) == path + "/" + Basename(stem, n)
  {
  }

  /** The name the capture numbered `n` gets inside the directory. */
  function Basename(stem: string, n: nat): string {
    stem + "_" + NatToString(n) + ".html"
  }

  /** A name the generator writes conforms, has the stem, and carries its number. */
  lemma NewNameConforms(stem: string, n: nat)
    requires |stem| == 19 && IsDigit(stem[0])
    ensures SameStem(stem, Basename(stem, n)) && Conforms(stem, Basename(stem, n))
    ensures SeqNumber(stem, Basename(stem, n)) == n
  {
    var digits := NatToString(n);
    var x := stem + "_" + digits;
    assert IsDigit(x[|x| - 1]);
    StripSuffix(x, ".html", HtmlChars);
    assert Basename(stem, n) == x + ".html";
    assert x[..19] == stem && x[20..] == digits;
  }

  /** Saving the capture keeps the directory conforming, and the next capture
      with the same timestamp is numbered one higher. */
  lemma NextAfterSave(path: string, date: Timestamp, entries: seq<string>)
    requires Valid(date)
    requires AllConform(FileStem(date), OnlyFiles(entries))
    ensures var stem := FileStem(date);
            var n := Highest(stem, OnlyFiles(entries)) + 1;
            var after := entries + [Basename(stem, n)];
            && AllConform(stem, OnlyFiles(after))
            && CaptureFilename(path, date, true, after) == Ok(CaptureName(path, stem, n + 1))
  {
    var stem := FileStem(date);
    var n := Highest(stem, OnlyFiles(entries)) + 1;
    var f := Basename(stem, n);
    SavedFileJoins(stem, entries, n);
    CaptureAfterHighest(path, date, entries + [f]);
  }

  /** The listing after the save: still conforming, and its highest number is the new one. */
  lemma SavedFileJoins(stem: string, entries: seq<string>, n: nat)
    requires |stem| == 19 && IsDigit(stem[0])
    requires AllConform(stem, OnlyFiles(entries)) && n == Highest(stem, OnlyFiles(entries)) + 1
    ensures AllConform(stem, OnlyFiles(entries + [Basename(stem, n)]))
    ensures Highest(stem, OnlyFiles(entries + [Basename(stem, n)])) == n
  {
    var f := Basename(stem, n);
    NewNameConforms(stem, n);
    assert f != DsStore by {
      assert |f| > |DsStore|;
    }
    OnlyFilesAppend(entries, f);
    HighestAppend(stem, OnlyFiles(entries), f);
  }

  /** The properties of a stem the crafted-name lemmas below rely on. */
  predicate StemShape(stem: string) {
    |stem| == 19 && IsDigit(stem[0]) && IsDigit(stem[18]) && '_' !in stem
  }

  lemma StemOfTimestamp(date: Timestamp)
    requires Valid(date)
    ensures StemShape(FileStem(date))
  {
  }

  /** Listings of ordinary names pass `OnlyFiles` unchanged. */
  lemma OnlyFilesTwo(a: string, b: string)
    requires a != DsStore && b != DsStore
    ensures OnlyFiles([a, b]) == [a, b]
  {
    assert [a, b][1..] == [b];
    assert OnlyFiles([b]) == [b];
  }

  /** The loop's test and its assignment read different numbers. A foreign name
      such as `<stem>x-0_1.html` passes the test (1 > 0) and then sets `highest`
      to `int("-0_1")`, -1, so the generator hands out a name already taken. */
  lemma ForeignNameReusesExisting(path: string, date: Timestamp)
    requires Valid(date)
    ensures var stem := FileStem(date);
            var taken := stem + "_0.html";
            CaptureFilename(path, date, true, [taken, stem + "x-0_1.html"]) == Ok(path + "/" + taken)
  {
    var stem := FileStem(date);
    StemOfTimestamp(date);
    var taken := stem + "_0.html";
    var foreign := stem + "x-0_1.html";
    assert |taken| > |DsStore| && |foreign| > |DsStore|;
    OnlyFilesTwo(taken, foreign);
    ScanReusesZero(stem, taken, foreign);
    NumberZeroName(path, stem);
  }

  /** The outcome depends on the order of the listing: listed before
      `<stem>_0.html`, the foreign name sets `highest` to -1 while it is still
      -1, and the generator returns the fresh `<stem>_1.html`. */
  lemma ForeignNameFirstIsHarmless(path: string, date: Timestamp)
    requires Valid(date)
    ensures var stem := FileStem(date);
            CaptureFilename(path, date, true, [stem + "x-0_1.html", stem + "_0.html"]) == Ok(CaptureName(path, stem, 1))
  {
    var stem := FileStem(date);
    StemOfTimestamp(date);
    var taken := stem + "_0.html";
    var foreign := stem + "x-0_1.html";
    assert |taken| > |DsStore| && |foreign| > |DsStore|;
    OnlyFilesTwo(foreign, taken);
    ForeignVisit(stem, foreign, -1);
    TakenVisit(stem, taken);
    ScanStep(stem, taken, [], -1, 0);
    assert [taken] + [] == [taken];
    ScanStep(stem, foreign, [taken], -1, -1);
    assert [foreign] + [taken] == [foreign, taken];
  }

  lemma NumberZeroName(path: string, stem: string)
    ensures CaptureName(path, stem, 0) == path + "/" + (stem + "_0.html")
  {
    assert IntToString(0) == "0";
    assert "_" + "0" + ".html" == "_0.html";
  }

  /** One step of the scan. */
  lemma ScanStep(stem: string, f: string, rest: seq<string>, highest: int, h: int)
    requires Visit(stem, f, highest) == Ok(h)
    ensures ScanHighest(stem, [f] + rest, highest) == ScanHighest(stem, rest, h)
  {
    assert ([f] + rest)[0] == f && ([f] + rest)[1..] == rest;
  }

  /** The scan over the taken name and the foreign one ends at -1. */
  lemma ScanReusesZero(stem: string, taken: string, foreign: string)
    requires StemShape(stem)
    requires taken == stem + "_0.html" && foreign == stem + "x-0_1.html"
    ensures ScanHighest(stem, [taken, foreign], -1) == Ok(-1)
  {
    TakenVisit(stem, taken);
    ForeignVisit(stem, foreign, 0);
    ScanStep(stem, foreign, [], 0, -1);
    assert [foreign] + [] == [foreign];
    ScanStep(stem, taken, [foreign], -1, 0);
    assert [taken] + [foreign] == [taken, foreign];
  }

  lemma TakenVisit(stem: string, taken: string)
    requires StemShape(stem)
    requires taken == stem + "_0.html"
    ensures Visit(stem, taken, -1) == Ok(0)
  {
    NewNameConforms(stem, 0);
    assert NatToString(0) == "0";
    assert Basename(stem, 0) == taken;
    VisitConforming(stem, taken, -1);
  }

  /** The foreign name passes the test (1 > highest) and sets `highest` to -1. */
  lemma ForeignVisit(stem: string, foreign: string, highest: int)
    requires StemShape(stem)
    requires foreign == stem + "x-0_1.html" && highest < 1
    ensures Visit(stem, foreign, highest) == Ok(-1)
  {
    var t := stem + "x-0_1";
    assert t[0] == stem[0] && t[|t| - 1] == '1';
    StripSuffix(t, ".html", HtmlChars);
    assert foreign == t + ".html";
    assert t[..19] == stem && t[20..] == "-0_1";
    ForeignParts(stem, t);
    ParseDigits("1");
    assert DigitsValue("1") == 1;
    ReadsMinusOne();
  }

  lemma ForeignParts(stem: string, t: string)
    requires '_' !in stem && t == stem + "x-0_1"
    ensures Split(t, '_') == [stem + "x-0", "1"]
  {
    assert t == (stem + "x-0") + ['_'] + "1";
    SplitCons(stem + "x-0", '_', "1");
    DigitsNotSeparated("1");
  }

  /** `int("-0_1")` is -1: a sign, then digits grouped by an underscore. */
  lemma ReadsMinusOne()
    ensures ParseInt("-0_1") == Some(-1)
  {
    StripUnchanged("-0_1", IntWhitespace);
    assert "-0_1"[1..] == "0_1";
    assert "0_1"[2..] == "1";
    assert GroupedDigits("0_1");
    assert Remove("0_1", '_') == "01" by {
      assert "0_1"[1..] == "_1" && "_1"[1..] == "1" && "1"[1..] == [];
    }
    assert DigitsValue("01") == 1 by {
      assert "01"[..1] == "0";
      assert "0"[..0] == [];
    }
  }

  /** A copy such as `<stem>_3_copy.html` passes the test with 3 and then fails
      on `int("3_copy")`: the whole call raises `ValueError`. */
  lemma CopiedCaptureCrashes(path: string, date: Timestamp)
    requires Valid(date)
    ensures CaptureFilename(path, date, true, [FileStem(date) + "_3_copy.html"]) == Err(ValueError)
  {
    var stem := FileStem(date);
    StemOfTimestamp(date);
    var f := stem + "_3_copy.html";
    assert OnlyFiles([f]) == [f] by {
      assert |f| > |DsStore|;
    }
    CopyVisit(stem, f, -1);
  }

  /** The crash also depends on the order of the listing: after a same-stem
      number of 3 or more, the copy fails the test and `int("3_copy")` never
      runs, so `<stem>_5.html` listed first gives the name numbered 6. */
  lemma CopyAfterHigherIsSkipped(path: string, date: Timestamp)
    requires Valid(date)
    ensures var stem := FileStem(date);
            CaptureFilename(path, date, true, [Basename(stem, 5), stem + "_3_copy.html"]) == Ok(CaptureName(path, stem, 6))
  {
    var stem := FileStem(date);
    StemOfTimestamp(date);
    var b := Basename(stem, 5);
    var f := stem + "_3_copy.html";
    assert |b| > |DsStore| && |f| > |DsStore|;
    OnlyFilesTwo(b, f);
    NewNameConforms(stem, 5);
    VisitConforming(stem, b, -1);
    CopyVisit(stem, f, 5);
    ScanStep(stem, f, [], 5, 5);
    assert [f] + [] == [f];
    ScanStep(stem, b, [f], -1, 5);
    assert [b] + [f] == [b, f];
  }

  /** The copy passes the test exactly when `highest` is below 3, and then raises. */
  lemma CopyVisit(stem: string, f: string, highest: int)
    requires StemShape(stem) && f == stem + "_3_copy.html"
    ensures highest < 3 ==> Visit(stem, f, highest) == Err(ValueError)
    ensures highest >= 3 ==> Visit(stem, f, highest) == Ok(highest)
  {
    var t := stem + "_3_copy";
    CopyStrip(stem, f, t);
    CopyParts(stem, t);
    ParseDigits("3");
    RejectsCopy();
  }

  lemma CopyStrip(stem: string, f: string, t: string)
    requires StemShape(stem) && f == stem + "_3_copy.html" && t == stem + "_3_copy"
    ensures Strip(f, HtmlChars) == t && SameStem(stem, f) && SliceFrom(t, 20) == "3_copy"
  {
    assert t[0] == stem[0] && t[|t| - 1] == 'y';
    StripSuffix(t, ".html", HtmlChars);
    assert f == t + ".html";
    assert t[..19] == stem;
  }

  lemma CopyParts(stem: string, t: string)
    requires '_' !in stem && t == stem + "_3_copy"
    ensures |Split(t, '_')| >= 2 && Split(t, '_')[1] == "3"
  {
    assert t == stem + ['_'] + "3_copy";
    SplitCons(stem, '_', "3_copy");
    CopySuffixParts();
  }

  lemma CopySuffixParts()
    ensures Split("3_copy", '_') == ["3", "copy"]
  {
    assert "3_copy" == "3" + ['_'] + "copy";
    SplitCons("3", '_', "copy");
    assert Split("copy", '_') == ["copy"];
  }

  /** `int("3_copy")` raises `ValueError`. */
  lemma RejectsCopy()
    ensures ParseInt("3_copy") == None
  {
    StripUnchanged("3_copy", IntWhitespace);
    assert !GroupedDigits("3_copy") by {
      assert "3_copy"[2..] == "copy";
      assert !IsDigit('c');
    }
  }

  /** A same-stem file with no '_' after stripping, such as `<stem>.html`,
      makes `split('_')[1]` raise `IndexError`. */
  lemma UnnumberedCaptureCrashes(path: string, date: Timestamp)
    requires Valid(date)
    ensures CaptureFilename(path, date, true, [FileStem(date) + ".html"]) == Err(IndexError)
  {
    var stem := FileStem(date);
    StemOfTimestamp(date);
    var f := stem + ".html";
    assert OnlyFiles([f]) == [f] by {
      assert |f| > |DsStore|;
    }
    UnnumberedVisit(stem, f);
  }

  lemma UnnumberedVisit(stem: string, f: string)
    requires StemShape(stem) && f == stem + ".html"
    ensures Visit(stem, f, -1) == Err(IndexError)
  {
    StripSuffix(stem, ".html", HtmlChars);
    assert SliceTo(stem, 19) == stem;
    assert Split(stem, '_') == [stem];
  }

  /** The capture of 13:24:17 on 3 October 2020, first of its second. */
  lemma FirstCaptureName()
    ensures CaptureFilename(DefaultDataLocation, Timestamp(2020, 10, 3, 13, 24, 17), true, [])
         == Ok(DefaultDataLocation + "/" + "2020-10-03T13.24.17_0.html")
  {
    var date := Timestamp(2020, 10, 3, 13, 24, 17);
    SampleStem();
    FirstOfItsStem(DefaultDataLocation, date, []);
    NumberZeroName(DefaultDataLocation, "2020-10-03T13.24.17");
    SampleNamePieces();
  }

  lemma SampleNamePieces()
    ensures "2020-10-03T13.24.17" + "_0.html" == "2020-10-03T13.24.17_0.html"
  {
  }

  lemma SampleStem()
    ensures Valid(Timestamp(2020, 10, 3, 13, 24, 17))
    ensures FileStem(Timestamp(2020, 10, 3, 13, 24, 17)) == "2020-10-03T13.24.17"
  {
    SampleIso();
    SamplePieces();
    ReplaceColons("2020-10-03T13", "24", "17");
  }

  lemma SamplePieces()
    ensures "2020-10-03T13:24:17" == "2020-10-03T13" + ":" + "24" + ":" + "17"
    ensures "2020-10-03T13.24.17" == "2020-10-03T13" + "." + "24" + "." + "17"
    ensures ':' !in "2020-10-03T13" && ':' !in "24" && ':' !in "17"
  {
  }

  /** `replace(':', '.')` on `day:m:sec` whose pieces hold no ':'. */
  lemma ReplaceColons(day: string, m: string, sec: string)
    requires ':' !in day && ':' !in m && ':' !in sec
    ensures ReplaceChar(day + ":" + m + ":" + sec, ':', '.') == day + "." + m + "." + sec
  {
    ReplaceCharAppend(day + ":" + m + ":", sec, ':', '.');
    ReplaceCharAppend(day + ":" + m, ":", ':', '.');
    ReplaceCharAppend(day + ":", m, ':', '.');
    ReplaceCharAppend(day, ":", ':', '.');
    ReplaceCharAbsent(day, ':', '.');
    ReplaceCharAbsent(m, ':', '.');
    ReplaceCharAbsent(sec, ':', '.');
    assert ReplaceChar(":", ':', '.') == ".";
  }

  lemma SampleIso()
    ensures Valid(Timestamp(2020, 10, 3, 13, 24, 17))
    ensures IsoFormat(Timestamp(2020, 10, 3, 13, 24, 17)) == "2020-10-03T13:24:17"
  {
    var date := Timestamp(2020, 10, 3, 13, 24, 17);
    SampleDay();
    assert Valid(date);
    IsoFormatPieces(date);
    SampleClock();
    SampleIsoPieces();
  }

  lemma SampleIsoPieces()
    ensures "2020-10-03" + "T" + "13:24:17" == "2020-10-03T13:24:17"
  {
  }

  lemma SampleDay()
    ensures ValidDate(Date(2020, 10, 3)) && DateIsoFormat(Date(2020, 10, 3)) == "2020-10-03"
  {
    assert ValidDate(Date(2020, 10, 3));
    DateIsoFormatPieces(Date(2020, 10, 3));
    SampleYear();
    SampleMonthDay();
    SampleDayPieces();
  }

  lemma SampleYear()
    ensures Pad(2020, 4) == "2020"
  {
    assert Pad(2, 1) == "2";
    assert Pad(20, 2) == "20";
    assert Pad(202, 3) == "202";
  }

  lemma SampleMonthDay()
    ensures Pad(10, 2) == "10" && Pad(3, 2) == "03"
  {
  }

  lemma SampleDayPieces()
    ensures "2020" + "-" + "10" + "-" + "03" == "2020-10-03"
  {
  }

  lemma SampleClock()
    ensures Pad(13, 2) + ":" + Pad(24, 2) + ":" + Pad(17, 2) == "13:24:17"
  {
    assert Pad(13, 2) == "13" by {
      assert Pad(1, 1) == "1";
    }
    SampleMinuteSecond();
    SampleClockPieces();
  }

  lemma SampleMinuteSecond()
    ensures Pad(24, 2) == "24" && Pad(17, 2) == "17"
  {
    assert Pad(2, 1) == "2";
    assert Pad(1, 1) == "1";
  }

  lemma SampleClockPieces()
    ensures "13" + ":" + "24" + ":" + "17" == "13:24:17"
  {
  }

  // ---------------------------------------------------------------- is_new_data

  /** A regular file of the data directory (`isfile` holds) with the text
      `str(BeautifulSoup(...))` gives for it; a `dir` of them is the listing. */
  datatype StoredFile = StoredFile(name: string, page: string)

  function Names(dir: seq<StoredFile>): (names: seq<string>)
    ensures |names| == |dir|
    ensures forall i :: 0 <= i < |dir| ==> names[i] == dir[i].name
  {
    if dir == [] then [] else [dir[0].name] + Names(dir[1..])
  }

  /** `read_daily_websites()`: the pages of every listed file except `.DS_Store`. */
  function ReadDailyWebsites(dir: seq<StoredFile>): (pages: seq<string>)
    ensures forall p :: p in pages <==> exists i :: 0 <= i < |dir| && dir[i].name != DsStore && dir[i].page == p
  {
    if dir == [] then []
    else
      var rest := ReadDailyWebsites(dir[1..]);
      assert forall i :: 1 <= i < |dir| ==> dir[i] == dir[1..][i - 1];
      (if dir[0].name == DsStore then [] else [dir[0].page]) + rest
  }

  /** No stored page hashes like `page`. */
  predicate Unseen<D(==)>(page: string, pages: seq<string>, hash: string -> D) {
    forall i :: 0 <= i < |pages| ==> hash(pages[i]) != hash(page)
  }

  /** `is_new_data`: false as soon as a stored page, any of them, has the fetched page's hash. */
  method IsNewData<D(==)>(page: string, dir: seq<StoredFile>, hash: string -> D) returns (isNew: bool)
    ensures isNew <==> Unseen(page, ReadDailyWebsites(dir), hash)
    ensures !isNew <==> exists p :: p in ReadDailyWebsites(dir) && hash(p) == hash(page)
  {
    var currHash := hash(page);
    var data := ReadDailyWebsites(dir);
    for i := 0 to |data|
      invariant forall j :: 0 <= j < i ==> hash(data[j]) != currHash
    {
      var thenHash := hash(data[i]);
      if currHash == thenHash {
        return false;
      }
    }
    return true;
  }

  /** Once a page is stored, fetching it again is not new, wherever it sits in the listing. */
  lemma {:induction false} SavedPageIsNotNew<D>(page: string, before: seq<StoredFile>, name: string,
                                                after: seq<StoredFile>, hash: string -> D)
    requires name != DsStore
    ensures !Unseen(page, ReadDailyWebsites(before + [StoredFile(name, page)] + after), hash)
  {
    var all := before + [StoredFile(name, page)] + after;
    assert all[|before|].name != DsStore && all[|before|].page == page;
    var pages := ReadDailyWebsites(all);
    assert page in pages;
    var k :| 0 <= k < |pages| && pages[k] == page;
  }

  // ---------------------------------------------------------------- save_html and gather_and_save

  /** What `save_html` may be handed as `date`. */
  datatype DateArg = IsDatetime(t: Timestamp) | NotDatetime

  /** `save_html`: a non-`datetime` date raises `TypeError` before any name is
      generated; otherwise the page goes to the generated name. */
  method SaveHtml(page: string, date: DateArg, path: string, entries: seq<string>) returns (r: Result<StoredFile, PyError>)
    requires date.IsDatetime? ==> Valid(date.t)
    ensures date.NotDatetime? ==> r == Err(TypeError)
    ensures date.IsDatetime? ==>
      match CaptureFilename(path, date.t, true, entries)
      case Ok(fname) => r == Ok(StoredFile(fname, page))
      case Err(e) => r == Err(e)
  {
    if date.NotDatetime? {
      return Err(TypeError);
    }
    var fname := GenFilenameFromDate(path, date.t, true, entries);
    match fname
    case Err(e) => return Err(e);
    case Ok(name) => return Ok(StoredFile(name, page));
  }

  /** The stand-in timestamp when the page shows no date: today at 01:02:34. */
  function Fallback(today: Date): (t: Timestamp)
    requires ValidDate(today)
    ensures Valid(t) && t.DateOf() == today
  {
    Timestamp(today.year, today.month, today.day, 1, 2, 34)
  }

  /** The capture timestamp: the page's own date, or `Fallback` when `get_date`
      raised `RuntimeError`; any other exception escapes. */
  function CaptureDate(mdy: Option<string>, monthName: Option<string>, today: Date): (r: Result<Timestamp, PyError>)
    requires ValidDate(today)
    ensures r.Ok? ==> Valid(r.value)
    ensures GetDate(mdy, monthName).Ok? ==> r == GetDate(mdy, monthName)
    ensures GetDate(mdy, monthName).Err? ==>
      if GetDate(mdy, monthName).error.RuntimeError? then r == Ok(Fallback(today)) else r == GetDate(mdy, monthName)
  {
    match GetDate(mdy, monthName)
    case Ok(t) => Ok(t)
    case Err(e) => if e.RuntimeError? then Ok(Fallback(today)) else Err(e)
  }

  /** A date that one of the patterns found but that does not parse raises
      something other than `RuntimeError`, so no fallback is used and the
      exception escapes. */
  lemma UnreadableDateEscapes(mdy: Option<string>, monthName: Option<string>, today: Date)
    requires ValidDate(today)
    requires || (mdy.Some? && UwecDateTilSept14(mdy.value).Err?)
             || (mdy.None? && monthName.Some? && UwecDateTilSept25(monthName.value).Err?)
    ensures CaptureDate(mdy, monthName, today).Err?
    ensures CaptureDate(mdy, monthName, today).error in {ValueError, IndexError, KeyError, OverflowError}
  {
  }

  /** A page in which neither date pattern matched is filed under today at 01:02:34. */
  lemma UndatedPageUsesFallback(today: Date)
    requires ValidDate(today)
    ensures CaptureDate(None, None, today) == Ok(Timestamp(today.year, today.month, today.day, 1, 2, 34))
  {
    NoDateFoundIff(None, None);
  }

  /** What one run of `gather_and_save` did with the fetched page. */
  datatype Outcome = Saved(date: Timestamp, file: StoredFile) | AlreadyHad(date: Timestamp)

  /** `gather_and_save` from the fetched page's text and the date strings found
      in it: the page is saved exactly when `evenIfOld` is set or its hash is new,
      under the name generated in the default location. */
  method GatherAndSave<D(==)>(page: string, mdy: Option<string>, monthName: Option<string>, today: Date,
                              evenIfOld: bool, dir: seq<StoredFile>, hash: string -> D)
    returns (r: Result<Outcome, PyError>)
    requires ValidDate(today)
    ensures CaptureDate(mdy, monthName, today).Err? ==> r == Err(CaptureDate(mdy, monthName, today).error)
    ensures CaptureDate(mdy, monthName, today).Ok? ==>
      var date := CaptureDate(mdy, monthName, today).value;
      if evenIfOld || Unseen(page, ReadDailyWebsites(dir), hash) then
        match CaptureFilename(DefaultDataLocation, date, true, Names(dir))
        case Ok(fname) => r == Ok(Saved(date, StoredFile(fname, page)))
        case Err(e) => r == Err(e)
      else r == Ok(AlreadyHad(date))
    ensures r.Ok? && r.value.Saved? ==> r.value.file.page == page
  {
    var date: Timestamp;
    match GetDate(mdy, monthName) {
      case Ok(t) =>
        date := t;
      case Err(e) =>
        if !e.RuntimeError? {
          return Err(e);
        }
        date := Timestamp(today.year, today.month, today.day, 1, 2, 34);
    }
    var save := evenIfOld;
    if !save {
      save := IsNewData(page, dir, hash);
    }
    if save {
      var saved := SaveHtml(page, IsDatetime(date), DefaultDataLocation, Names(dir));
      match saved
      case Err(e) => return Err(e);
      case Ok(f) => return Ok(Saved(date, f));
    }
    return Ok(AlreadyHad(date));
  }
}
