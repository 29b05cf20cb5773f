# Menu page model

A Dafny model of the logic of a small school-lunch menu page written with
Streamlit. The user picks a date. The page shows a header naming that date's
month, then three sections for yesterday, today and tomorrow. Each section
reads the menu of its own date from the CSV file of that date's month
(`YYYYMM.csv`, e.g. `202403.csv`). It shows one of three things:

- a "not found" notice naming that month, when the file is missing or cannot be read;
- a "no data" notice, when the file has no row or no `menu` cell for that day;
- the day's menu cell formatted as Markdown.

The formatter (`format_menu_display`) has three outcomes, tested in this order:

- an empty or blank cell gives `データなし` ("no data");
- a cell that strips to `おやすみ` ("day off") gives that word unchanged;
- anything else is split at `・` (U+30FB), and each piece becomes a line `- <piece stripped>`.

The modules follow the program's parts:

| module | file | what it covers |
|---|---|---|
| `PyStr` | pystr.dfy | Python's `str.strip()`, `str.split(sep)`, `sep.join(parts)` and `str.count(sep)`. Whitespace is exactly the set of characters `str.isspace()` accepts. |
| `Decimal` | decimal.dfy | `f"{n}"` and `f"{n:02d}"`, with reading a digit string back as their inverse. |
| `MenuFile` | menufile.dfy | The month file name `f"{year}{month:02d}.csv"`, loading a month from a snapshot of the working directory, and the `table.loc[day, "menu"]` lookup. |
| `MenuFormat` | format.dfy | `format_menu_display`. |
| `Calendar` | calendar.dfy | The proleptic Gregorian dates of Python's `datetime.date`, and `d ∓ timedelta(days=1)`. Both are specified through the day number `date.toordinal()`, and this is equivalent to CPython's stepping of the day into the next or previous month. |
| `MenuPage` | page.dfy | The three-day loop of the page. `Render` is a method with a loop that appends one section per day. `DayOutcome` is the function that specifies each section's contents. |
| `Wrappers` | wrappers.dfy | `Option`. |

The working directory is a parameter: a map from file name to `Readable(table)`
or `Unreadable`. A name missing from the map is a file that does not exist.
A table maps a day number (the CSV's first column, the index) to its row.
A row maps a column name to a cell. A cell is `Some(text)`, or `None` for an
empty (NaN) cell.

## Model

| member | source | states |
|---|---|---|
| PyStr.Strip | app.py:23 | `str.strip()`; its own contract says only that the result is no longer than the input, and StripBlank, StripResult and StripPadded carry what it computes |
| PyStr.StripBlank | app.py:23 | `s.strip() == ""` exactly when every character of `s` is whitespace |
| PyStr.StripResult | app.py:29 | a stripped string has no whitespace at either end and holds only characters of its argument |
| PyStr.StripPadded | app.py:25 | stripping whitespace padding of any length from around a string without edge whitespace gives that string back |
| PyStr.StripIdempotent | app.py:25 | stripping twice is the same as stripping once |
| PyStr.Count | app.py:28 | the count is at most the length, and it is zero exactly when the character does not occur |
| PyStr.Split | app.py:28 | `split('・')`; its own contract says only that there is at least one piece, and SplitCount, SplitPiecesFree, JoinSplit and SplitJoin carry what it computes |
| PyStr.SplitCount | app.py:28 | `s.split(sep)` has `s.count(sep) + 1` pieces, counting empty ones |
| PyStr.SplitPiecesFree | app.py:28 | no piece of a split contains the separator |
| PyStr.SplitKeepsOut | app.py:28 | a character that is not in the string is in none of its pieces |
| PyStr.Join | app.py:29 | `"\n".join(...)`; it has no contract of its own, and JoinSplit, SplitJoin, CountJoin, MenuFormat.JoinStartsWith and MenuFormat.JoinEndsWith carry what it computes |
| MenuFormat.JoinStartsWith | app.py:29 | a join starts with its first part |
| MenuFormat.JoinEndsWith | app.py:29 | a join ends with the last character of its last part, when that part is not empty |
| PyStr.JoinSplit | app.py:28 | joining the pieces with the separator rebuilds the original string |
| PyStr.SplitJoin | app.py:29 | splitting a join of separator-free parts gives back exactly those parts |
| PyStr.CountJoin | app.py:29 | a join of separator-free parts holds one separator per gap between parts |
| Decimal.DigitChar | app.py:10 | the character of a digit is a digit character with that value |
| Decimal.NatToDecimal | app.py:10 | `str(n)` is a non-empty digit string with no leading zero, one character long exactly when `n < 10` |
| Decimal.ParseNatToDecimal | app.py:10 | reading back the digits of `str(n)` gives `n` |
| Decimal.NatToDecimalInjective | app.py:10 | two different numbers never print the same |
| Decimal.IntToDecimal | app.py:10 | `str(n)` starts with a minus sign exactly when `n` is negative |
| Decimal.Pad2 | app.py:10 | `format(n, "02d")` has at least two characters; for `0 <= n < 100` it is exactly two digits whose value is `n` |
| MenuFile.FilePath | app.py:10 | `f"{year}{month:02d}.csv"` is at least seven characters long and ends in `.csv`; FilePathParts and FilePathInjective carry the rest |
| MenuFile.FilePathParts | app.py:10 | for a year `>= 0` and a month 1..12, the name is the year's digits, then two month digits, then `.csv`; year and month read back from the name |
| MenuFile.FilePathInjective | app.py:10 | different (year, month) pairs get different file names |
| MenuFile.FilePathMarch2024 | app.py:10 | March 2024 is read from `202403.csv` |
| MenuFile.LoadMenuData | app.py:8-19 | a month loads exactly when its file exists and can be parsed, and then the result is that file's table; otherwise the result is absent |
| MenuFile.LoadIgnoresOtherMonths | app.py:10-12 | replacing another month's file does not change what is loaded for a month |
| MenuFile.Lookup | app.py:56 | `table.loc[day, "menu"]` finds a cell exactly when the day is a row key and the row has a `menu` column, and then it is that row's `menu` cell; otherwise it is the `KeyError` case |
| MenuFormat.Bulleted | app.py:29 | the generator `f"- {item.strip()}"` gives one line per item, and line i is `"- "` plus item i stripped |
| MenuFormat.BulletLines | app.py:28-29 | there are `count('・') + 1` lines, one per piece of the split; line i is `"- "` plus piece i stripped |
| MenuFormat.Format | app.py:21-29 | the result is `データなし` exactly when the cell is NaN or blank; it is `おやすみ` exactly when the cell strips to `おやすみ`, because the blank test comes first and no bullet text equals either word |
| MenuFormat.FormatDishes | app.py:28-29 | a cell with dishes gives its bullet lines joined by `"\n"`, and its pieces re-joined with `・` rebuild the cell |
| MenuFormat.BulletTextShape | app.py:29 | bullet lines joined by `"\n"` start with `"- "` and never end with a line feed |
| MenuFormat.FormatDishesShape | app.py:28-29 | the formatted dishes start with `"- "` and have no trailing line feed |
| MenuFormat.FormatLineCount | app.py:28-29 | for a cell without line feeds, the output holds `count('・')` line feeds, and splitting it at line feeds gives exactly the `count('・') + 1` bullet lines |
| MenuFormat.BulletLinesKeepOut | app.py:29 | a character absent from the cell and from the bullet appears in no line |
| MenuFormat.BlankPieceLine | app.py:29 | an empty or blank piece still produces a line, which is the bare bullet `"- "` |
| MenuFormat.FormatRestDay | app.py:25-26 | `おやすみ` with any whitespace around it is shown as the bare word |
| MenuFormat.FormatThreeDishes | app.py:28-29 | `"A・B ・ C"` is shown as `"- A\n- B\n- C"` |
| Calendar.IsLeap | app.py:44-45 | the Gregorian leap rule of `datetime.date`: divisible by 4, except century years not divisible by 400; it has no contract of its own, and DaysInMonth, LeapCycle and PredOfMarchFirst carry its consequences |
| Calendar.LeapCycle | app.py:44-45 | the leap rule repeats every 400 years, and 400 years hold 146097 days |
| Calendar.DaysInMonth | app.py:44-45 | months have 28 to 31 days; February has 29 days in a leap year and 28 otherwise; April, June, September and November have 30; the rest have 31 |
| Calendar.OrdinalInjective | app.py:44-45 | different valid dates have different day numbers |
| Calendar.OrdinalRange | app.py:44-45 | valid dates have day numbers from 1 to 3652059, which is 9999-12-31 |
| Calendar.FirstDate | app.py:44 | a valid date has a day before it exactly when it is not 0001-01-01 |
| Calendar.LastDate | app.py:45 | a valid date has a day after it exactly when it is not 9999-12-31 |
| Calendar.Pred | app.py:44 | `d - timedelta(days=1)` is a valid date whose day number is one less |
| Calendar.Succ | app.py:45 | `d + timedelta(days=1)` is a valid date whose day number is one more |
| Calendar.PredSuccUnique | app.py:44-45 | the day before (after) is the only valid date one day number earlier (later) |
| Calendar.SuccPredInverse | app.py:44-45 | going back a day and then forward again, or forward and then back, returns to the date |
| Calendar.PredOfFirstDay | app.py:44 | the day before the 1st is the last day of the previous month, and the day before January 1 is December 31 of the previous year |
| Calendar.PredOfMarchFirst | app.py:44 | the day before March 1 is February 29 exactly in leap years, otherwise February 28 |
| MenuPage.DayOutcome | app.py:51-63 | the outcome of one day; its own contract says that a "not found" names the day's own year and month, and DayOutcomeCases states all three cases over the directory |
| MenuPage.Days | app.py:44-47 | three days captioned 昨日, 今日 and 明日 in that order, the middle one the chosen date, with day numbers one before, equal to and one after the chosen date |
| MenuPage.ShowDay | app.py:51-63 | one loop iteration computes its day's outcome as `DayOutcome` defines it: load, then look up, then format |
| MenuPage.Render | app.py:42-63 | the header carries the chosen date's year and month; there are three sections in day order, each with its caption, its own date, and that date's outcome |
| MenuPage.DayOutcomeCases | app.py:51-63 | a section shows "not found" for its own year and month exactly when its month's file is missing or unreadable; "no data" exactly when the file lacks the day or its `menu` cell; otherwise the formatted cell |
| MenuPage.DayOutcomeLocal | app.py:51 | a section depends only on its own month's file |
| MenuPage.NeighbourIgnoresChosenMonth | app.py:51 | when yesterday or tomorrow lies in another month, the chosen month's file has no effect on that day's section |
| MenuPage.MarchFirst2024 | app.py:44-63 | choosing 2024-03-01 with only `202403.csv` present gives 2024-02-29 "not found (2024, 2)", today's three bullets, and 2024-03-02 "no data" |

## Left out

- Streamlit output (`st.title`, `st.write`, `st.date_input`, `st.header`, `st.subheader`, `st.markdown`, `st.info`, `st.error`): these are rendering side effects. The page is an abstract value. It keeps the header's year and month and each section's caption, date and outcome. It drops the exact message strings and the `divider` styling.
- `os.path.exists` and `pd.read_csv`: these are I/O and a foreign library. The directory is a map parameter, and a file the CSV reader rejects is `Unreadable`. The error banner and its exception text are not modelled.
- `st.cache_data`: a foreign memoising decorator. Within one render over one directory snapshot, loading is a pure function of the snapshot, so caching changes nothing there. Across reruns the cache keeps each month's first load, an absent result included. A month file that is added, fixed or edited after its first load therefore goes unseen until the cache is cleared. This is not modelled.
- The pandas details of a cell: a cell is `Option<string>`. Numeric cells, which would reach `.strip()` as numbers, are not modelled. Neither are duplicate index labels, which make `.loc` return a Series, nor the kinds of missing value `pd.isna` accepts beyond an empty cell. A table is keyed by integers, so an index that pandas did not parse as integers is not modelled.
- Calendar.Pred: requires a date other than 0001-01-01, where Python raises `OverflowError`; the exception itself is not modelled.
- Calendar.Succ: requires a date other than 9999-12-31, where Python raises `OverflowError`; the exception itself is not modelled.
- MenuPage.Render: requires a chosen date other than 0001-01-01 and 9999-12-31. On those dates the page stops with `OverflowError` before its loop starts.
- The date picker's default value `datetime.date.today()`: the clock is left out, and the chosen date is a parameter.
