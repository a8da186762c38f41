/**
 * The parts of Python's built-in `str` and `int` behaviour that the scraper's
 * logic depends on: `str.split()`, `str.split(sep)`, `str.strip(chars)`,
 * `str.replace`, `str.index`, slicing, `int(s)` and `str(n)`.
 */
module PyBuiltins {
  import opened Wrappers

  /** The exceptions the modelled code can raise. Only `RuntimeError` keeps its
      message, because `get_date` re-raises the first one it caught. */
  datatype PyError =
    | RuntimeError(message: string)
    | ValueError
    | KeyError
    | IndexError
    | TypeError
    | ZeroDivisionError
    | OverflowError
    | UnboundLocalError

  /** A dynamically typed list element: `daily_numbers` overwrites the strings
      of its list with an int, an int and a float. A float is kept as the
      literal it was read from. */
  datatype PyValue = Str(s: string) | Int(i: int) | Float(literal: string)

  // ---------------------------------------------------------------- characters

  predicate IsDigit(c: char) { '0' <= c <= '9' }

  /** `c.isspace()`: the characters Python's `str.split()` and `str.strip()` treat as whitespace. */
  predicate IsSpace(c: char) {
    || '\U{9}' <= c <= '\U{d}'
    || '\U{1c}' <= c <= '\U{20}'
    || c == '\U{85}' || c == '\U{a0}' || c == '\U{1680}'
    || '\U{2000}' <= c <= '\U{200a}'
    || c == '\U{2028}' || c == '\U{2029}' || c == '\U{202f}' || c == '\U{205f}' || c == '\U{3000}'
  }

  /** The whitespace `int()` skips around a number. Below U+007F the string is
      handed to the C parser unchanged, and that parser skips only tab, line
      feed, vertical tab, form feed, carriage return and space; above it every
      `isspace()` character is first turned into a space. So the separators
      U+001C to U+001F count as whitespace for `str.split()` but not for `int()`. */
  predicate IntSpace(c: char) {
    || '\U{9}' <= c <= '\U{d}'
    || c == ' '
    || (c as int >= 0x7f && IsSpace(c))
  }

  /** Every character `int()` skips is whitespace to `str.split()` as well. */
  lemma IntSpaceIsSpace(c: char)
    ensures IntSpace(c) ==> IsSpace(c)
    ensures IsSpace(c) && !IntSpace(c) <==> '\U{1c}' <= c <= '\U{1f}'
  {
  }

  predicate AllDigits(s: string) {
    forall i :: 0 <= i < |s| ==> IsDigit(s[i])
  }

  predicate NoSpace(s: string) {
    forall i :: 0 <= i < |s| ==> !IsSpace(s[i])
  }

  function Digit(d: nat): char
    requires d < 10
  {
    ('0' as int + d) as char
  }

  // ---------------------------------------------------------------- searching and slicing

  /** Position of the first `c` in `s`, or `|s|` when there is none. */
  function IndexOf(s: string, c: char): (i: nat)
    ensures i <= |s|
    ensures i < |s| ==> s[i] == c
  {
    if s == [] then 0
    else if s[0] == c then 0
    else 1 + IndexOf(s[1..], c)
  }

  /** `IndexOf` finds the first occurrence: none comes before it. */
  lemma {:induction false} IndexOfFirst(s: string, c: char)
    ensures c !in s[..IndexOf(s, c)]
  {
    if s != [] && s[0] != c {
      IndexOfFirst(s[1..], c);
      assert s[1..][..IndexOf(s[1..], c)] == s[1..1 + IndexOf(s[1..], c)];
    }
  }

  /** `s[:hi]` for a non-negative `hi`: Python clamps the bound to the length. */
  function SliceTo(s: string, hi: nat): (r: string)
    ensures |r| == if hi <= |s| then hi else |s|
  {
    if hi <= |s| then s[..hi] else s
  }

  /** `s[lo:]` for a non-negative `lo`: empty when `lo` is past the end. */
  function SliceFrom(s: string, lo: nat): string {
    if lo <= |s| then s[lo..] else ""
  }

  // ---------------------------------------------------------------- replace

  /** `s.replace(from, to)` for one-character `from` and `to`. */
  function ReplaceChar(s: string, from: char, to: char): (r: string)
    ensures |r| == |s|
    ensures forall i :: 0 <= i < |s| ==> r[i] == (if s[i] == from then to else s[i])
  {
    if s == [] then []
    else [if s[0] == from then to else s[0]] + ReplaceChar(s[1..], from, to)
  }

  lemma {:induction false} ReplaceCharAppend(a: string, b: string, from: char, to: char)
    ensures ReplaceChar(a + b, from, to) == ReplaceChar(a, from, to) + ReplaceChar(b, from, to)
  {
    if a != [] {
      assert (a + b)[1..] == a[1..] + b;
      ReplaceCharAppend(a[1..], b, from, to);
    } else {
      assert a + b == b;
    }
  }

  lemma {:induction false} ReplaceCharAbsent(s: string, from: char, to: char)
    requires from !in s
    ensures ReplaceChar(s, from, to) == s
  {
    if s != [] {
      ReplaceCharAbsent(s[1..], from, to);
    }
  }

  /** `s.replace(c, "")`. */
  function Remove(s: string, c: char): (r: string)
    ensures |r| <= |s|
    ensures forall i :: 0 <= i < |r| ==> r[i] != c && r[i] in s
  {
    if s == [] then []
    else if s[0] == c then Remove(s[1..], c)
    else [s[0]] + Remove(s[1..], c)
  }

  lemma {:induction false} RemoveAbsent(s: string, c: char)
    requires c !in s
    ensures Remove(s, c) == s
  {
    if s != [] {
      RemoveAbsent(s[1..], c);
    }
  }

  // ---------------------------------------------------------------- split

  /** `s.split(sep)` for a one-character separator: every piece, empty ones included. */
  function Split(s: string, sep: char): (r: seq<string>)
    ensures |r| >= 1
    decreases |s|
  {
    var i := IndexOf(s, sep);
    if i == |s| then [s] else [s[..i]] + Split(s[i + 1..], sep)
  }

  /** `sep.join(parts)`. */
  function Join(parts: seq<string>, sep: string): string {
    if |parts| <= 1 then (if parts == [] then "" else parts[0])
    else parts[0] + sep + Join(parts[1..], sep)
  }

  lemma JoinTwo(a: string, b: string, sep: string)
    ensures Join([a, b], sep) == a + sep + b
  {
    assert [a, b][1..] == [b];
  }

  lemma JoinThree(a: string, b: string, c: string, sep: string)
    ensures Join([a, b, c], sep) == a + sep + b + sep + c
  {
    JoinTwo(b, c, sep);
    assert [a, b, c][1..] == [b, c];
  }

  lemma JoinFour(a: string, b: string, c: string, d: string, sep: string)
    ensures Join([a, b, c, d], sep) == a + sep + b + sep + c + sep + d
  {
    JoinThree(b, c, d, sep);
    assert [a, b, c, d][1..] == [b, c, d];
  }

  lemma {:induction false} IndexOfPrefix(a: string, c: char, b: string)
    requires c !in a
    ensures IndexOf(a + [c] + b, c) == |a|
  {
    if a != [] {
      assert (a + [c] + b)[1..] == a[1..] + [c] + b;
      IndexOfPrefix(a[1..], c, b);
    }
  }

  lemma SplitCons(a: string, sep: char, b: string)
    requires sep !in a
    ensures Split(a + [sep] + b, sep) == [a] + Split(b, sep)
  {
    var s := a + [sep] + b;
    IndexOfPrefix(a, sep, b);
    assert s[..|a|] == a;
    assert s[|a| + 1..] == b;
  }

  /** Splitting a join gives the pieces back, as long as no piece holds the separator. */
  lemma {:induction false} SplitJoin(parts: seq<string>, sep: char)
    requires |parts| >= 1
    requires forall i :: 0 <= i < |parts| ==> sep !in parts[i]
    ensures Split(Join(parts, [sep]), sep) == parts
  {
    if |parts| == 1 {
      assert Join(parts, [sep]) == parts[0];
      assert IndexOf(parts[0], sep) == |parts[0]|;
    } else {
      SplitJoin(parts[1..], sep);
      SplitCons(parts[0], sep, Join(parts[1..], [sep]));
      assert [parts[0]] + parts[1..] == parts;
    }
  }

  // ---------------------------------------------------------------- whitespace split

  /** Length of the run of non-whitespace characters at the start of `s`. */
  function WordLength(s: string): (n: nat)
    ensures n <= |s|
    ensures n == |s| || IsSpace(s[n])
  {
    if s == [] || IsSpace(s[0]) then 0 else 1 + WordLength(s[1..])
  }

  /** `s.split()`: the maximal runs of non-whitespace characters. */
  function Words(s: string): (r: seq<string>)
    decreases |s|
  {
    if s == [] then []
    else if IsSpace(s[0]) then Words(s[1..])
    else
      var n := WordLength(s);
      [s[..n]] + Words(s[n..])
  }

  lemma {:induction false} WordLengthOfWord(w: string, rest: string)
    requires NoSpace(w)
    requires rest == [] || IsSpace(rest[0])
    ensures WordLength(w + rest) == |w|
  {
    if w == [] {
      assert w + rest == rest;
    } else {
      assert (w + rest)[1..] == w[1..] + rest;
      WordLengthOfWord(w[1..], rest);
    }
  }

  lemma WordsCons(w: string, rest: string)
    requires w != [] && NoSpace(w)
    requires rest == [] || IsSpace(rest[0])
    ensures Words(w + rest) == [w] + Words(rest)
  {
    WordLengthOfWord(w, rest);
    var s := w + rest;
    assert s[..|w|] == w;
    assert s[|w|..] == rest;
  }

  /** Whitespace-splitting a single-space join gives the words back. */
  lemma {:induction false} WordsJoin(ws: seq<string>)
    requires forall i :: 0 <= i < |ws| ==> ws[i] != [] && NoSpace(ws[i])
    ensures Words(Join(ws, " ")) == ws
  {
    if |ws| == 1 {
      WordsCons(ws[0], "");
      assert ws[0] + "" == ws[0];
    } else if |ws| > 1 {
      var rest := Join(ws[1..], " ");
      WordsJoin(ws[1..]);
      assert ws[0] + " " + rest == ws[0] + (" " + rest);
      WordsCons(ws[0], " " + rest);
      assert (" " + rest)[1..] == rest;
      assert [ws[0]] + ws[1..] == ws;
    }
  }

  lemma WordsThree(a: string, b: string, c: string)
    requires a != [] && NoSpace(a) && b != [] && NoSpace(b) && c != [] && NoSpace(c)
    ensures Words(a + " " + b + " " + c) == [a, b, c]
  {
    JoinThree(a, b, c, " ");
    WordsJoin([a, b, c]);
  }

  lemma WordsFour(a: string, b: string, c: string, d: string)
    requires a != [] && NoSpace(a) && b != [] && NoSpace(b)
    requires c != [] && NoSpace(c) && d != [] && NoSpace(d)
    ensures Words(a + " " + b + " " + c + " " + d) == [a, b, c, d]
  {
    JoinFour(a, b, c, d, " ");
    WordsJoin([a, b, c, d]);
  }

  // ---------------------------------------------------------------- strip

  /** The set of characters a strip removes: the whitespace `int()` skips, or
      the listed characters of `s.strip(chars)`. */
  datatype CharClass = IntWhitespace | AnyOf(chars: string)

  predicate InClass(c: char, cls: CharClass) {
    match cls
    case IntWhitespace => IntSpace(c)
    case AnyOf(chars) => c in chars
  }

  function LStrip(s: string, cls: CharClass): (r: string)
    ensures |r| <= |s|
    ensures r == [] || !InClass(r[0], cls)
  {
    if s != [] && InClass(s[0], cls) then LStrip(s[1..], cls) else s
  }

  function RStrip(s: string, cls: CharClass): (r: string)
    ensures |r| <= |s|
    ensures r == [] || !InClass(r[|r| - 1], cls)
  {
    if s != [] && InClass(s[|s| - 1], cls) then RStrip(s[..|s| - 1], cls) else s
  }

  /** `s.strip()` / `s.strip(chars)`: remove class members from both ends. */
  function Strip(s: string, cls: CharClass): (r: string)
    ensures |r| <= |s|
  {
    RStrip(LStrip(s, cls), cls)
  }

  /** A string whose two ends lie outside the class is left as it is. */
  lemma StripUnchanged(s: string, cls: CharClass)
    requires s != [] && !InClass(s[0], cls) && !InClass(s[|s| - 1], cls)
    ensures Strip(s, cls) == s
  {
    assert LStrip(s, cls) == s;
    assert RStrip(s, cls) == s;
  }

  /** Right-stripping cuts off a suffix made only of class members and stops
      at the first character outside the class. */
  lemma {:induction false} RStripSuffix(x: string, y: string, cls: CharClass)
    requires x == [] || !InClass(x[|x| - 1], cls)
    requires forall i :: 0 <= i < |y| ==> InClass(y[i], cls)
    ensures RStrip(x + y, cls) == x
    decreases |y|
  {
    if y == [] {
      assert x + y == x;
      if x != [] {
        assert RStrip(x, cls) == x;
      }
    } else {
      var s := x + y;
      assert InClass(s[|s| - 1], cls);
      assert s[..|s| - 1] == x + y[..|y| - 1];
      RStripSuffix(x, y[..|y| - 1], cls);
    }
  }

  lemma StripSuffix(x: string, y: string, cls: CharClass)
    requires x != [] && !InClass(x[0], cls) && !InClass(x[|x| - 1], cls)
    requires forall i :: 0 <= i < |y| ==> InClass(y[i], cls)
    ensures Strip(x + y, cls) == x
  {
    assert (x + y)[0] == x[0];
    assert LStrip(x + y, cls) == x + y;
    RStripSuffix(x, y, cls);
  }

  // ---------------------------------------------------------------- int() and str()

  /** Value of a string of decimal digits. */
  function DigitsValue(s: string): nat
    requires AllDigits(s)
  {
    if s == [] then 0 else DigitsValue(s[..|s| - 1]) * 10 + (s[|s| - 1] as int - '0' as int)
  }

  /** The body `int()` accepts in base 10: digits, optionally with single
      underscores between them (PEP 515). */
  predicate GroupedDigits(s: string) {
    |s| > 0 && IsDigit(s[0]) && (|s| == 1 || GroupedDigits(if s[1] == '_' then s[2..] else s[1..]))
  }

  lemma {:induction false} DigitsAreGrouped(s: string)
    requires s != [] && AllDigits(s)
    ensures GroupedDigits(s)
  {
    if |s| > 1 {
      DigitsAreGrouped(s[1..]);
    }
  }

  /** Dropping the underscores of grouped digits leaves only digits. */
  lemma {:induction false} GroupedWithoutSeparators(s: string)
    requires GroupedDigits(s)
    ensures AllDigits(Remove(s, '_'))
  {
    if |s| > 1 {
      var rest := if s[1] == '_' then s[2..] else s[1..];
      GroupedWithoutSeparators(rest);
      if s[1] == '_' {
        assert Remove(s[1..], '_') == Remove(rest, '_') by {
          assert s[1..][1..] == rest;
        }
      }
      assert Remove(s, '_') == [s[0]] + Remove(rest, '_');
    }
  }

  function GroupedValue(s: string): nat
    requires GroupedDigits(s)
  {
    GroupedWithoutSeparators(s);
    DigitsValue(Remove(s, '_'))
  }

  /** `int(s)`: surrounding whitespace (as `IntSpace` has it) ignored, an
      optional sign, then grouped digits; `None` where Python raises `ValueError`. */
  function ParseInt(s: string): Option<int> {
    var t := Strip(s, IntWhitespace);
    if |t| > 0 && (t[0] == '+' || t[0] == '-') then
      if GroupedDigits(t[1..]) then
        var v: int := GroupedValue(t[1..]);
        Some(if t[0] == '-' then -v else v)
      else None
    else if GroupedDigits(t) then Some(GroupedValue(t))
    else None
  }

  /** `str(n)` for a non-negative `n`. */
  function NatToString(n: nat): (s: string)
    ensures s != [] && AllDigits(s)
    ensures DigitsValue(s) == n
  {
    if n < 10 then [Digit(n)]
    else
      var s := NatToString(n / 10) + [Digit(n % 10)];
      assert s[..|s| - 1] == NatToString(n / 10);
      s
  }

  /** `str(i)`. */
  function IntToString(i: int): string {
    if i < 0 then "-" + NatToString(-i) else NatToString(i)
  }

  lemma DigitsAreNotSpace(s: string)
    requires AllDigits(s)
    ensures NoSpace(s)
  {
  }

  /** `int()` of a plain digit string is its decimal value. */
  lemma ParseDigits(s: string)
    requires s != [] && AllDigits(s)
    ensures ParseInt(s) == Some(DigitsValue(s))
  {
    assert IsDigit(s[0]) && IsDigit(s[|s| - 1]);
    StripUnchanged(s, IntWhitespace);
    DigitsAreGrouped(s);
    RemoveAbsent(s, '_');
  }

  /** `int(str(i)) == i`. */
  lemma ParseIntToString(i: int)
    ensures ParseInt(IntToString(i)) == Some(i)
  {
    if i < 0 {
      var d := NatToString(-i);
      var s := "-" + d;
      assert s[|s| - 1] == d[|d| - 1] && IsDigit(d[|d| - 1]);
      StripUnchanged(s, IntWhitespace);
      assert s[1..] == d;
      DigitsAreGrouped(d);
      RemoveAbsent(d, '_');
    } else {
      ParseDigits(NatToString(i));
    }
  }

  /** `int()` skips a space or a line feed around the digits, but a file
      separator (U+001C) makes it raise. */
  lemma SeparatorIsNotSkipped()
    ensures ParseInt(" 5\n") == Some(5)
    ensures ParseInt("\U{1c}5") == None
  {
    assert LStrip(" 5\n", IntWhitespace) == "5\n";
    assert RStrip("5\n", IntWhitespace) == "5";
    ParseDigits("5");
    StripUnchanged("\U{1c}5", IntWhitespace);
    assert !GroupedDigits("\U{1c}5");
  }
}
