# UWEC COVID dashboard scraper: a Dafny model of its core

The scraper takes snapshots of the University of Wisconsin–Eau Claire COVID
dashboard. It files each capture under a name built from the date the page
shows. It skips pages it has already stored, and it reads the publication
date in the two formats the dashboard used. A second script reads the daily
numbers from the text that OCR recognised in the dashboard image. It then
appends one row, with running totals, to a time series.

This project models that logic in Dafny and proves properties of it:

- `uwecscraper.py` is modelled by `archive.dfy` (capture naming,
  de-duplication, saving, the gather decision) and `date_parsers.dfy` (the
  two date formats and the chain that tries them).
- `ocr_tools.py` is modelled by `ocr_tools.dfy` (reading the daily numbers,
  appending a row).
- `builtins.dfy` models the Python behaviour the code depends on: `int()`
  of a string, `str.split(sep)`, `str.split()`, `str.strip(chars)`,
  `str.replace`, `str.index` and slicing. `clock.dfy` models `datetime`
  construction and `isoformat()`. `wrappers.dfy` holds `Option` and
  `Result`.

Python exceptions are modelled as `Result` values with a `PyError`. The
program's outside world is passed in as values:

- the directory listing and the stored pages;
- the CSV table's rows;
- today's date;
- the page text and the date strings the h4 search found in it;
- the hash function, of which only equality is used;
- the three float operations: `float()` validity, `int()` of a float, and
  the rounded percentage.

Four behaviours of the code are worth stating outright, because the model
follows them:

- `is_new_data` compares the fetched page with every stored page, so a page
  seen at any earlier time is not new.
- Only the page's own HTML is hashed.
- A page in which neither date pattern matched (`get_date` raised
  `RuntimeError`) is filed under today at 01:02:34. The `save_html`
  docstring (uwecscraper.py:90-91) speaks of the current time, but `date`
  has no default and `gather_and_save` always passes one.
- A date that a pattern matched but that does not parse, such as
  "12:05 p.m. 9/10/20" (hour 24) or an unknown month abbreviation, raises
  `ValueError`, `KeyError`, `IndexError` or `OverflowError`. That escapes
  `gather_and_save`, and nothing is filed.

## Model

| member | source | states |
|---|---|---|
| DateParsers.IntsOfSucceedsIff | uwecscraper.py:133 | `list(map(int, parts))` succeeds exactly when every part is an integer literal |
| DateParsers.IntsOfValues | uwecscraper.py:136 | when it succeeds, the list holds each part's `int()` value, in order |
| DateParsers.HourMinute | uwecscraper.py:133 | `hh, mm = …split(':')` succeeds exactly when there are two integer parts; otherwise `ValueError` |
| DateParsers.PmShift | uwecscraper.py:134 | the meridiem adds 0 or 12 hours |
| DateParsers.PmShiftRule | uwecscraper.py:134-138 | the meridiem adds twelve hours exactly when it is "p" or starts with "p." |
| DateParsers.OtherMeridiemsKeepHour | uwecscraper.py:138 | "pm" and "P.M." add nothing |
| DateParsers.PmShiftsTwelve | uwecscraper.py:138 | "p.m." adds twelve hours |
| DateParsers.AmKeepsHour | uwecscraper.py:138 | "a.m." leaves the hour as written |
| DateParsers.UwecDateTilSept14 | uwecscraper.py:132-138 | a parsed `hh:mm a.m. MM/dd/yy` date is a valid datetime with second 0; the only failures are `ValueError`, `IndexError` and `OverflowError` |
| DateParsers.ReadsMdyDate | uwecscraper.py:132-138 | decimal fields read as year 2000+yy, month, day and minute as written; the hour moves by twelve exactly for a "p" meridiem |
| DateParsers.TwelvePmRejected | uwecscraper.py:138 | "12:mm p.m." gives hour 24, so the parse raises |
| DateParsers.HourTwentyFourRejected | uwecscraper.py:138 | `datetime` always rejects hour 24, with `ValueError` when every argument fits a C `int` |
| DateParsers.AbbrToMonth | uwecscraper.py:154-156 | "Sept." maps to 9, "Oct." to 10, "Nov." to 11 and "Dec." to 12; anything else raises `KeyError` |
| DateParsers.UwecDateTilSept25 | uwecscraper.py:160-169 | a parsed `hh:mm a.m. Mon. dd` date is valid, in 2020, with month 9 to 12 and second 0; failures are `ValueError`, `IndexError`, `KeyError` or `OverflowError` |
| DateParsers.ReadsMonthNameDate | uwecscraper.py:160-169 | a well-formed second-format date reads in 2020, with its month from the abbreviation and the twelve-hour shift for "p" |
| DateParsers.Sept25OfFields | uwecscraper.py:162-169 | the four words are read as clock, meridiem, month name and day |
| DateParsers.GetDate | uwecscraper.py:191-198 | a first-format match decides the result; otherwise the second format's; with neither, the first format's `RuntimeError`; a result is a valid datetime |
| DateParsers.NoDateFoundIff | uwecscraper.py:140-150 | `get_date` raises `RuntimeError` exactly when neither pattern matched, and then with the first format's message |
| Clock.MakeDatetime | uwecscraper.py:138 | `datetime(...)` raises `OverflowError` when an argument does not fit a C `int`; otherwise it yields the given fields when they are in range, and raises `ValueError` when they are not |
| PyBuiltins.ParseIntToString | uwecscraper.py:79-82 | `int(str(n)) == n`: the number written into a name reads back as itself |
| PyBuiltins.IntSpaceIsSpace | uwecscraper.py:78 | the whitespace `int()` skips is `isspace()` whitespace without U+001C to U+001F |
| PyBuiltins.SeparatorIsNotSkipped | ocr_tools.py:31 | `int(" 5\n")` is 5, while `int("\x1c5")` raises `ValueError` |
| PyBuiltins.ParseDigits | uwecscraper.py:78 | `int()` of a decimal string is its value |
| Archive.FileStem | uwecscraper.py:66 | the stem from `isoformat()` with ':' replaced by '.' is 19 characters, starts and ends with a digit, and holds no '_' or ':' |
| Archive.GenFilenameFromDate | uwecscraper.py:64-83 | the loop over the listing computes `CaptureFilename`: the highest number seen plus one, or the exception the loop raises |
| Archive.ScanIgnoresOtherStems | uwecscraper.py:75-79 | files whose stripped first 19 characters are not the stem never change `highest` |
| Archive.FirstOfItsStem | uwecscraper.py:72-82 | with no file of the same stem, the capture is numbered 0 |
| Archive.HighestIsMaximum | uwecscraper.py:74-79 | the number the loop is after bounds every same-stem number and is one of them unless it is -1 |
| Archive.ScanFindsHighest | uwecscraper.py:74-79 | when every same-stem name is `<stem>_<digits>`, the loop ends with the largest number in use |
| Archive.CaptureAfterHighest | uwecscraper.py:64-83 | on such a directory the new name carries the largest number plus one |
| Archive.CaptureNameIsFresh | uwecscraper.py:64-83 | on such a directory the new number is above every number taken and the new name is not in the listing (a generated name is never `.DS_Store`), so no existing capture is overwritten |
| Archive.NextNameUnused | uwecscraper.py:82 | on such a directory the name numbered one above the highest is not in the listing |
| Archive.NewNameConforms | uwecscraper.py:82 | a generated name has the stem, is `<stem>_<digits>` once stripped, and carries its number |
| Archive.NextAfterSave | uwecscraper.py:82-101 | after a capture is saved the directory still conforms, and the next capture of the same second gets the next number |
| Archive.ForeignNameReusesExisting | uwecscraper.py:78-79 | the loop's test reads `split('_')[1]` while its assignment reads `[20:]`: with `<stem>x-0_1.html` listed after `<stem>_0.html`, the generator returns the existing `<stem>_0.html` |
| Archive.ForeignNameFirstIsHarmless | uwecscraper.py:75-83 | the outcome depends on the listing's order: with the foreign name listed first, the generator returns the fresh `<stem>_1.html` |
| Archive.CopiedCaptureCrashes | uwecscraper.py:78-79 | in a listing holding only the copy `<stem>_3_copy.html`, it passes the test and then makes `int("3_copy")` raise `ValueError` |
| Archive.CopyAfterHigherIsSkipped | uwecscraper.py:75-83 | when `<stem>_5.html` is listed before the copy, the copy fails the test, no exception is raised, and the name numbered 6 is returned |
| Archive.UnnumberedCaptureCrashes | uwecscraper.py:76-78 | a same-stem name without '_' such as `<stem>.html` makes `split('_')[1]` raise `IndexError` |
| Archive.FirstCaptureName | uwecscraper.py:64-83 | example: the first capture of 13:24:17 on 3 October 2020 is `…/2020-10-03T13.24.17_0.html` |
| Archive.ReadDailyWebsites | uwecscraper.py:25-40 | the stored pages are those of every listed file except `.DS_Store` |
| Archive.IsNewData | uwecscraper.py:45-61 | the page is new exactly when no stored page has its hash |
| Archive.SavedPageIsNotNew | uwecscraper.py:45-61 | once a page is stored under any name but `.DS_Store`, wherever it sits in the listing, fetching it again is not new |
| Archive.SaveHtml | uwecscraper.py:86-103 | a non-`datetime` date raises `TypeError` before any name is made; otherwise the page is stored under the generated name, or the generator's exception escapes |
| Archive.Fallback | uwecscraper.py:117-118 | the stand-in timestamp is valid and falls on today |
| Archive.CaptureDate | uwecscraper.py:114-118 | the capture date is the page's date; a `RuntimeError` gives the fallback; any other exception escapes |
| Archive.UndatedPageUsesFallback | uwecscraper.py:114-118 | a page in which neither date pattern matched is filed under today at 01:02:34 |
| Archive.UnreadableDateEscapes | uwecscraper.py:114-118 | a matched date that does not parse raises a non-`RuntimeError` exception, which escapes instead of giving the fallback |
| Archive.GatherAndSave | uwecscraper.py:111-125 | the page is saved in the default location exactly when `even_if_old` is set or its hash is unseen; otherwise the result is "already had"; a date exception other than `RuntimeError` escapes |
| OcrTools.DailyNumbers | ocr_tools.py:28-33 | overwriting the token list in place yields `ReadDailyNumbers`, or the first exception raised |
| OcrTools.PercentRequired | ocr_tools.py:28 | text without '%' raises `ValueError` |
| OcrTools.OnlyBeforeFirstPercent | ocr_tools.py:28 | nothing after the first '%' affects the result |
| OcrTools.CommasIgnored | ocr_tools.py:29 | removing commas from the whole text gives the same cut text |
| OcrTools.CommasIgnoredByReading | ocr_tools.py:28-29 | so "1,234" and "1234" read alike |
| OcrTools.ReadsThreeTokens | ocr_tools.py:30-33 | three tokens, two integers and a float literal, read as `[int, int, float]` |
| OcrTools.ReadsThreeNumbers | ocr_tools.py:28-33 | `<pos> <tests> <pct>%…` with decimal counts reads as those two values and the literal |
| OcrTools.TwoTokensFail | ocr_tools.py:33 | with only two tokens before the '%', `vals[2]` raises `IndexError` |
| OcrTools.SampleDailyNumbers | ocr_tools.py:28-33 | example: "12 200 6.0%\n" reads as 12, 200 and 6.0 |
| OcrTools.ToIntsValues | ocr_tools.py:53 | the converted list holds each element's `int()`, in order |
| OcrTools.ToIntsFirstFailure | ocr_tools.py:53 | when every value before position k converts and the value at k does not, the comprehension raises the error of the value at k |
| OcrTools.ToIntsFailureIsFirst | ocr_tools.py:53 | conversely, a failing comprehension has such a first failing value, and raises its error |
| OcrTools.ToIntsFirstTwo | ocr_tools.py:53 | a failure among the first two values decides the exception |
| OcrTools.AddNewData | ocr_tools.py:53-70 | on success the table grows by one row dated today and keeps its old rows unchanged |
| OcrTools.NewRowTotals | ocr_tools.py:53-68 | the new row holds the two counts, the percentage of them, and the previous row's totals plus the counts |
| OcrTools.AddNewDataFails | ocr_tools.py:53-57 | the call fails exactly when a conversion fails, fewer than two values are given, the test count is zero, or the table is empty |
| OcrTools.CumulativeNonDecreasing | ocr_tools.py:56-57 | with non-negative counts the running totals never go down |
| OcrTools.PercentIgnored | ocr_tools.py:52-54 | once the third value converts, its value plays no part; the percentage is recomputed |
| OcrTools.PercentMustConvert | ocr_tools.py:53 | the third value must still convert: when it does not, its `int()` exception is the result |
| OcrTools.AddKeepsRunningTotals | ocr_tools.py:56-70 | a table whose every row adds its counts to the previous totals keeps that property |
| OcrTools.SampleNewRow | ocr_tools.py:53-70 | example: totals (100, 2000) plus a day of 12 out of 200 give totals (112, 2200) |

## Left out

- The HTTP fetch, BeautifulSoup parsing, the h4 walk and its regular expressions (uwecscraper.py:105-108, 140-150, 174-187) are not modelled. The date strings a search found are inputs. The `unicodedata` normalisation and the discarded `replace('\xa0', ' ')` are dropped with them.
- Directory listing, `isfile`, and reading and writing files are not modelled. The listing and the stored page texts are inputs; a listing holds only the entries for which `isfile` holds (uwecscraper.py:29 and :72), so sub-directories are already left out. `listdir` returns names in no fixed order; the model takes the listing in whatever order it is given, and the outcome of a listing with foreign or copied names depends on that order. `SaveHtml` returns the file it would write.
- SHA-256 is an abstract `hash` parameter compared only for equality. Collisions are not modelled.
- `datetime.now()` and `date.today()` are parameters. Microseconds are not modelled: the dashboard dates carry none.
- `print` calls and `daily_numbers`'s `report` branch are output only and are not modelled.
- The image steps of `daily_numbers` (opening, cropping, greyscale, tesseract, ocr_tools.py:18-23) are not modelled. The recognised text is an input.
- Floating point is left abstract:
  - `float()` validity is the parameter `isFloat`;
  - `int()` of a float is `floatToInt`;
  - `round(100*pos/tests, 1)` is `roundedPercent`.
- The CSV read and write and pandas' 64-bit column arithmetic are not modelled. Totals are unbounded integers.
- PyBuiltins.ParseInt: the limit of 4300 digits that newer Python versions put on `int()` of a string is not modelled; the dashboard's numbers are short.
- `int()` of a string accepts ASCII digits, signs, single underscores between digits, and surrounding whitespace: tab to carriage return, space, and non-ASCII `isspace()` characters, but not U+001C to U+001F. Non-ASCII Unicode digits are not modelled.
- The table-processing helpers for the September formats (uwecscraper.py:204 onward) are outside this core.
- Archive.ReadDailyWebsites: stored pages are compared as their text. Re-parsing a stored page with BeautifulSoup is taken to give back the text it was saved from.
