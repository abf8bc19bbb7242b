# cdi-logger core in Dafny

cdi-logger is a library attendance logger. For each hour slot of a school day, a librarian
records how many pupils of each grade (6ème, 5ème, 4ème, 3ème) came. The entries go into
table `attendance` of an SQLite file. A statistics view then reduces all stored rows to:

- the day total;
- the average per slot;
- the peak slots;
- the grade repartition.

A separate installer downloads the application archive. It finds the `app/` folder in the
archive and extracts the entries below it, while a progress bar follows five step messages.

This project models that core and proves properties of it:

- `outcome.dfy`: module `Outcome`. The error kinds (the Python exceptions the core can
  raise) and the `Result` and `Option` types.
- `calendar.dfy`: module `Calendar`. The part of Python's `datetime` that the window uses.
  - Dates are day numbers: 1 is Monday 0001-01-01, the last is 9999-12-31.
  - `toordinal` and `fromordinal`, `weekday()`, and adding days, with `OverflowError`
    outside the range.
  - `replace(year=, month=)`, with `ValueError` when the day does not exist.
  - `strftime('%Y-%m-%d')`, as the ISO 8601 extended calendar date `YYYY-MM-DD`
    (section 4.1.2.2 of ISO 8601:2004).
- `database.dfy`: module `Database`.
  - The attendance store is a class. It holds a table-exists flag, the rows in insertion
    order, and the AUTOINCREMENT counter.
  - The login check is a loop over the entries of the users file.
- `statistics.dfy`: module `Statistics`. The four reductions, each over the row sequence.
  - The loops that fill dictionaries are methods.
  - Each method is proved against a recursive specification function.
  - Dictionary insertion order is modelled as first-appearance order of the slots.
- `app.dfy`: module `App`. The date and slot logic of the main window:
  - the slot list and the derived total;
  - the day, week and month arrows, and the calendar pop-up's month arrows;
  - the week label;
  - the grade chart's lookup.

  The state that `self` and the pop-up's `nonlocal` variables hold becomes two small
  classes.
- `installer.dfy`: module `Installer`.
  - Discovery of the app folder, a loop with `break`.
  - Selection of entries with their relative paths, a loop with `continue`.
  - The progress percentage, and the progress bar and status label it writes.

Integer widths and floating point are not modelled (see "Left out").

## Model

| member | source | states |
|---|---|---|
| Database.AttendanceStore.InitDb | app/src/database.py:8-24 | afterwards the table exists; the rows and the id counter are exactly as before, so a second call changes nothing more and no row is ever removed or altered |
| Database.AttendanceStore.AddAttendance | app/src/database.py:26-34 | without the table: error `TableMissing` and nothing changes; otherwise exactly one row is appended carrying the seven given values (total unchecked), its id is the counter value, greater than every earlier id, and the old rows are untouched; the class invariant keeps ids strictly increasing |
| Database.AttendanceStore.GetAllAttendance | app/src/database.py:36-42 | changes nothing; returns every stored row in insertion order (ids strictly increasing), or `TableMissing` when the table does not exist |
| Database.Authenticate | app/src/database.py:44-52 | false when the users file is absent; otherwise true iff some entry has exactly that username and that (plain-text) password |
| Statistics.RowsOn | app/src/statistics.py:8 | a row is kept iff it is a stored row and its date equals the given day |
| Statistics.StatsToday | app/src/statistics.py:5-10 | the day total sums the totals of exactly the rows dated today; it is never negative when no row's total is |
| Statistics.StatsTodaySnoc | app/src/statistics.py:5-10 | appending a row raises the day total by its total when it is dated that day and leaves it unchanged otherwise |
| Statistics.StatsTodayConcat | app/src/statistics.py:5-10 | the day total of two row sequences together is the sum of their day totals |
| Statistics.StatsTodayNoMatch | app/src/statistics.py:5-10 | the day total is 0 when no row carries that date |
| Statistics.SlotOrder | app/src/statistics.py:14-16 | the dictionary keys: no duplicates, and a slot occurs iff some row has it |
| Statistics.FirstRow | app/src/statistics.py:14-16 | the position of the first row of a slot: that row has the slot and no earlier one does; it is the row count iff no row has the slot |
| Statistics.SlotOrderFirstAppearance | app/src/statistics.py:14-16 | the keys come in strictly increasing order of the row where each slot first appears, the insertion order of the dictionary |
| Statistics.SlotTotals | app/src/statistics.py:14-16 | the list collected for a slot is empty iff no row has that slot, so no average divides by zero |
| Statistics.SlotTotalsSum | app/src/statistics.py:16-17 | the sum of a slot's collected totals equals its summed total |
| Statistics.SlotAverageBetween | app/src/statistics.py:17 | a slot's average lies between any lower and upper bound on the totals of its rows, so between their minimum and maximum |
| Statistics.TotalsAfterStep | app/src/statistics.py:15-16 | appending a row's total to its slot's list (a new slot also becomes the last key) keeps the dict equal to the slots' collected totals in first-appearance order |
| Statistics.AveragePerHour | app/src/statistics.py:12-17 | the keys are exactly the slots occurring in the rows, in first-appearance order, and each value is the slot's sum of totals divided by its row count |
| Statistics.MaxSlotSum | app/src/statistics.py:26 | the maximum over the slots: no slot's sum is larger and some slot reaches it |
| Statistics.SlotsWithSumKeepsOrder | app/src/statistics.py:27 | keeping only the slots with a given sum keeps first-appearance order |
| Statistics.SlotsWithSum | app/src/statistics.py:27 | a slot is kept iff it is listed and its sum equals the given value; keeps the listing free of duplicates |
| Statistics.SumsAfterStep | app/src/statistics.py:22-23 | adding a row's total to its slot (a new slot also becomes the last key, starting from 0) keeps the dict equal to the slot sums in first-appearance order |
| Statistics.SumPerHour | app/src/statistics.py:21-23 | the keys are exactly the slots occurring in the rows, in first-appearance order, each mapped to its summed total |
| Statistics.PeakHours | app/src/statistics.py:19-27 | the result is the specification `Peaks` of the rows |
| Statistics.MaxValue | app/src/statistics.py:26 | `max(hours.values())` over a non-empty key list whose values are the slot sums is the largest slot sum |
| Statistics.KeysWithValue | app/src/statistics.py:27 | the comprehension keeps, in key order, exactly the keys whose sum equals the maximum |
| Statistics.PeaksFirstAppearance | app/src/statistics.py:19-27 | the peak slots are listed in the order in which they first appear in the rows |
| Statistics.PeaksEmpty | app/src/statistics.py:24-25 | there are no peak slots iff there are no rows |
| Statistics.PeaksExactlyMaximal | app/src/statistics.py:26-27 | a slot is a peak iff it occurs and no slot has a larger sum, so every tie is kept |
| Statistics.PeaksNoDuplicates | app/src/statistics.py:27 | no slot is reported twice |
| Statistics.PeaksSingleRow | app/src/statistics.py:19-27 | for one row, its slot is the only peak |
| Statistics.RepartitionParClasse | app/src/statistics.py:29-37 | exactly the four keys 6ème, 5ème, 4ème, 3ème, each equal to the column sum of its grade (0 on empty data) |
| Statistics.RepartitionAddsUpToTotals | app/src/statistics.py:29-37 | when every row's total is its grade sum, the four column sums add up to the sum of the totals |
| Statistics.ExampleAverage | app/src/statistics.py:12-17 | entries of totals 6 and 4 in slot 09:00 average 5.0 |
| Statistics.ExampleColumns | app/src/statistics.py:29-37 | the grade columns of those two entries sum to 2, 3, 1 and 4 |
| Statistics.ExamplePeaksAndToday | app/src/statistics.py:5-27 | for those two entries 09:00 is the only peak, and the first day totals 6 |
| Calendar.DaysInMonth | app/main.py:358 | the Gregorian month lengths: February has 29 days in a leap year and 28 otherwise, April, June, September and November 30, every other month 31 |
| Calendar.ToOrdinal | app/main.py:162 | `date.toordinal()`: the days before the year and the month plus the day of month; its range and inverse are stated by FromToOrdinal and OrdinalInjective |
| Calendar.FromOrdinal | app/main.py:162 | the date of a day number is a valid date whose day number is that number |
| Calendar.FromToOrdinal | app/main.py:162 | every valid date has a day number in range and converts back to itself |
| Calendar.OrdinalInjective | app/main.py:162 | distinct valid dates have distinct day numbers |
| Calendar.Weekday | app/main.py:372 | Monday is 0, Sunday 6, and the weekday advances by one per day |
| Calendar.AddDays | app/main.py:162 | adding days succeeds iff the result is a day from 0001-01-01 to 9999-12-31 (otherwise `OverflowError`), and then it is the sum |
| Calendar.ReplaceYearMonth | app/main.py:358 | replacing year and month succeeds iff the year is 1..9999 and the day of month exists in the target month, and then the result has that year, month and the same day |
| Calendar.IsoKey | app/main.py:317 | the key is ten characters with dashes at positions 4 and 7 |
| Calendar.IsoKeyRoundTrip | app/main.py:317 | parsing the key of a valid date as `YYYY-MM-DD` gives back that date |
| Calendar.DateKey | app/main.py:317 | the key of a day number is ten characters with dashes at positions 4 and 7 |
| Calendar.DateKeyInjective | app/main.py:317 | two day numbers have the same key iff they are equal |
| App.SlotHoursExactly | app/main.py:245 | an hour is offered iff it lies in 8..17 and is neither 12 nor 17, and the hours strictly increase |
| App.SlotLabel | app/main.py:245 | `f"{h:02d}:00"` is five characters ending in `:00` |
| App.SlotList | app/main.py:245 | one label per offered hour, each five characters ending in `:00` |
| App.Slots | app/main.py:245 | the form offers eight slots |
| App.SlotsExactly | app/main.py:245 | the slot list is exactly 08:00, 09:00, 10:00, 11:00, 13:00, 14:00, 15:00, 16:00 |
| App.SlotListDistinct | app/main.py:245 | the labels of the offered hours are pairwise distinct |
| App.SlotListAvoids | app/main.py:245 | the label of an hour outside the range, or of 12 or 17, is not offered |
| App.SlotsDistinct | app/main.py:245 | the eight slots are distinct |
| App.SlotsWithoutBreaks | app/main.py:245 | 12:00 and 17:00 are not offered |
| App.SlotLabelInjective | app/main.py:245 | distinct hours get distinct labels |
| App.AppWindow.SaveEntryMulti | app/main.py:308-318 | succeeds iff the table exists, which it leaves as it was; on success appends one row whose id is the old counter, whose total is the sum of the four grade counts and whose date is the selected date's key, and advances the counter by one; without the table returns `TableMissing` and leaves rows and counter unchanged |
| App.SavedEntryCountsOnItsDay | app/main.py:316-317 | a saved row adds its total to the day total of exactly the day it was entered on |
| App.ChartValuesByLabel | app/main.py:440-445 | the corrected chart lookup: four values, each a value of the repartition or the default 0 |
| App.ChartValuesByLabelShowsColumns | app/main.py:440-445 | keyed by label, the chart receives the four column sums, which add up to the sum of totals on entries saved through the form |
| App.AppWindow.PreviousDay | app/main.py:161-163 | the selected date moves one day back, or stays with `OverflowError` at 0001-01-01 |
| App.AppWindow.NextDay | app/main.py:165-167 | the selected date moves one day forward, or stays with `OverflowError` at 9999-12-31 |
| App.DayStepsCancel | app/main.py:161-167 | previous day then next day (and the reverse) restores the date; only the first and last dates cannot step |
| App.AppWindow.SelectDate | app/main.py:207-210 | selecting a day sets the selected date to that (year, month, day) when it is a valid date; otherwise the date is unchanged and the error is the `ValueError` for the year or the day |
| App.CalendarMonthStep | app/main.py:177-185 | the displayed month stays in 1..12; when the year changes it changes by exactly one, to January after passing December or to December before January |
| App.CalendarPopup.UpdateMonth | app/main.py:177-185 | the pop-up's (year, month) becomes the calendar month step of the old one |
| App.CalendarStepIsOneMonth | app/main.py:177-185 | for the arrows' steps of ±1 the pop-up moves exactly one month, as the statistics month step does |
| App.ShiftMonth | app/main.py:356-357 | the month step yields a month in 1..12 exactly delta months away |
| App.ShiftMonthDecember | app/main.py:356-357 | +1 from December gives January of the next year |
| App.ShiftMonthRoundTrip | app/main.py:356-357 | stepping delta months then −delta returns the original (year, month) |
| App.MonthIndexInjective | app/main.py:356-357 | year and month are determined by the month count |
| App.StepStatsDate | app/main.py:350-358 | the day, week or month step of the statistics date; a step that succeeds lands on a day number from 0001-01-01 to 9999-12-31 |
| App.WeekStepIsSevenDays | app/main.py:353-354 | week navigation moves exactly 7·delta days and fails only off the ends of the calendar |
| App.MonthStepKeepsDay | app/main.py:355-358 | month navigation lands delta months away on the same day of month, and fails exactly when that day does not exist there or the year is out of range |
| App.AppWindow.UpdateDate | app/main.py:350-359 | the statistics date takes the next date of its mode, or stays unchanged on error; the entry date is untouched |
| App.WeekWindow | app/main.py:372-373 | the week starts on a Monday, ends six days later and contains the date; it fails only when that Sunday is past 9999-12-31 |
| App.WeekWindowExample | app/main.py:372-373 | Thursday 2024-03-14 lies in the week Monday 2024-03-11 to Sunday 2024-03-17 |
| App.DateKeyOfDate | app/main.py:317 | the key of a date's day number is that date's ISO text |
| App.IsoKeyExample | app/main.py:317 | 2024-03-11 is keyed "2024-03-11" |
| App.ChartValues | app/main.py:441-442 | the chart lookup as written: four values, each a value of the repartition or the default 0 |
| App.ChartValuesAlwaysZero | app/main.py:441-445 | with the repartition's keys, the chart as written receives four zeros, so its sum is never positive |
| App.ChartExampleLosesData | app/main.py:441-442 | on two entries whose 6ème column sums to 2, the chart as written receives zeros while the label lookup receives 2, 3, 1, 4 |
| Installer.FindFrom | installer/main.py:52-54 | the first occurrence of the pattern at or after the start: it occurs there and not earlier; none means it occurs nowhere after the start |
| Installer.IndexOfFindsContains | installer/main.py:52 | the search finds an occurrence iff the pattern is contained |
| Installer.FolderOf | installer/main.py:52-58 | the folder an entry names: up to and including its first `/app/`, else the entry itself when it ends with `app/`, else none (proved properties in FolderOfIsPrefix and MarkerTakesPrecedence) |
| Installer.FolderOfIsPrefix | installer/main.py:52-58 | a discovered folder is a non-empty prefix of the entry it came from and ends with `app/` |
| Installer.MarkerTakesPrecedence | installer/main.py:52-58 | an entry containing `/app/` names the folder up to its first `/app/`, whatever it ends with |
| Installer.FindAppFolder | installer/main.py:49-61 | fails with `AppFolderNotFound` iff no entry qualifies; otherwise the folder comes from the first qualifying entry, is a prefix of it and ends with `app/` |
| Installer.Selected | installer/main.py:69-81 | every selected entry is in the archive and is the folder followed by a non-empty relative path, flagged as a directory iff it ends with `/`; every entry strictly below the folder whose destination is inside the install directory is selected |
| Installer.SelectedPositionsExact | installer/main.py:69-81 | the positions of the selected entries strictly increase and are exactly the archive positions of the entries below the folder whose destination is inside the install directory |
| Installer.SelectedPositionsNames | installer/main.py:69-81 | the k-th selected entry is the archive entry at the k-th such position, so the selection keeps archive order and each occurrence once |
| Installer.SelectedReassembles | installer/main.py:71-75 | a selected entry starts with the folder and its remainder is the non-empty relative path |
| Installer.SelectedOnlyBelow | installer/main.py:71-75 | an entry not strictly below the folder is never selected |
| Installer.SelectEntries | installer/main.py:70-83 | the selection loop computes `Selected`, in archive order |
| Installer.FirstIndex | installer/main.py:186 | the position of the message is its first occurrence |
| Installer.Percent | installer/main.py:186-187 | the percentage is between 100 // len(steps) and 100, and 100 for an unknown message |
| Installer.StepPercent | installer/main.py:177-187 | the step at index i shows (i+1)·20 percent, in 20..100 |
| Installer.StepPercentIncreasing | installer/main.py:177-187 | the percentage strictly increases along the steps |
| Installer.InstallerWindow.ProgressCallback | installer/main.py:185-188 | the bar shows the message's percentage, in 20..100, and the status label the message |
| Installer.InstallerWindow.StartInstall | installer/main.py:172-174 | the bar is reset to 0 |
| Installer.InstallerWindow.FinishInstall | installer/main.py:190-192 | the bar is set to 100 and the status label to the final message |

## Left out

- The Tkinter windows, widgets, matplotlib charts, themes, configuration files and logging
  of `app/main.py` (display and I/O). What the chart code computes from the repartition is
  modelled; the drawing is not.
- SQLite and file paths. The store and the users file are in-memory values. A failing
  connection or a full disk is not modelled. The only error modelled is the missing table.
- CSV parsing of the users file. The file is a sequence of (username, password) entries,
  or absent.
- `app/src/export.py` and `app/src/utils.py` are not part of this model (CSV writing
  through a library, an empty PDF export, and wrappers around hashlib and the clock).
- `stats_semaine` and `average_per_hour_week`. `app/main.py` imports them at lines 15-22,
  but they do not exist in `app/src/statistics.py`. The import fails with
  `ImportError`, so `app/main.py` cannot start as written; these two are not invented
  here. The window behaviour modelled below, the grade chart of the finding included, is
  what `app/main.py` does once that import is resolved. The same applies to the monthly
  statistics, which are a placeholder label (`app/main.py:396`).
- The reductions read the store through `get_all_attendance`. Here they take the row
  sequence as a parameter. "Today" in `stats_today` is a parameter instead of the clock,
  and the two windows' initial date is a constructor parameter.
- Only `stats_today` filters the rows, by today's key (`app/src/statistics.py:8`). The
  other three reductions read every stored row, not a date window, as the source does.
- Database.AttendanceStore.AddAttendance: ids, counts and totals are unbounded integers.
  SQLite stores INTEGER in 64 bits, and `sqlite3` raises `OverflowError` for a Python int
  outside that range; that error is not modelled.
- Statistics.AveragePerHour: the averages are exact `real` quotients. The rounding of the
  float division `sum(vals)/len(vals)` is not modelled.
- Calendar.IsoKey: always writes a four-digit year. `strftime('%Y')` on common C
  libraries does not pad years below 1000, so keys of years 1..999 differ from the source's.
- Only the date part of the `datetime` values is modelled. The time of day carried by
  `datetime.now()` plays no role in the day, week and month steps or in the keys.
- The installer's network, process, filesystem and threading work is not modelled:
  - `requests`, the zip extraction itself, `pip`, PowerShell and `threading.Thread`;
  - the `run_install` sequence;
  - the message boxes.
- Installer.Selected: the zip-slip test `os.path.normpath(...).startswith(...)` is a
  parameter `inside` applied to the relative path. Path normalisation is not modelled.
- The calendar pop-up's weekday header (four names, display only) and its day grid from
  `calendar.monthcalendar`. A day button only offers days of the displayed month, and
  App.AppWindow.SelectDate models the `datetime(year, month, day)` it calls.
- App.CalendarMonthStep: modelled for any delta. For steps of more than one month the
  wrap is not a month shift, but the pop-up's arrows only pass ±1, where it is one.
- App.ShiftMonth: Python's `//` and `%` round towards minus infinity. For the positive
  divisor 12 they agree with Dafny's `/` and `%`, so the formula is written directly.
- The grade counts come from Tk `IntVar`s. Their parse errors (a non-numeric field makes
  `get()` raise) are not modelled. Counts are arbitrary integers, negatives included,
  since nothing validates them.

## Findings

| source | as written | input that shows it | evidently intended | confidence | as-written member | corrected member |
|---|---|---|---|---|---|---|
| app/main.py:441-442 | the grade chart looks up keys '6', '5', '4', '3' in the repartition, whose only keys are '6ème', '5ème', '4ème', '3ème' (app/src/statistics.py:31), so every lookup falls back to 0 and the chart always shows "Aucune donnée"; the view is reached only once the `ImportError` at app/main.py:15-22 is resolved | two entries with grade counts (2,3,1,0) and (0,0,0,4): the chart receives [0,0,0,0] instead of [2,3,1,4] | look up the keys the repartition uses, as the chart's own labels at app/main.py:440 name them | high (not executed) | App.ChartValues, App.ChartValuesAlwaysZero, App.ChartExampleLosesData | App.ChartValuesByLabel, App.ChartValuesByLabelShowsColumns |
