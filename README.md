# EOVSA total-power spectrogram reader, modelled in Dafny

This project models the computational core of `EOVSASpectrogram` in the
`radiospectra` package. That class is the reader for total-power spectrogram
files from the Expanded Owens Valley Solar Array (EOVSA). The model covers
three parts of the class:

- **The date a file name carries** (`swavesfile_to_date`). It takes the tail of
  the path, as `os.path.split` returns it, and the third `_`-separated field of
  that tail. `datetime.datetime(int(f[0:4]), int(f[4:6]), int(f[6:]))` then
  reads that field as a date. The error paths are modelled too: an
  `IndexError` when the name has too few fields, a `ValueError` from `int()`, an
  `OverflowError` from `datetime` for arguments outside a C int, and a
  `ValueError` for a date that does not exist.
- **The axes `read` derives from a file's three tables.** These are:
  - the elapsed-time axis `sec - sec[0]`;
  - `start` and `end`, taken from the first and last `(mjd, time)` samples;
  - `t_init`, the whole seconds from midnight of the start day;
  - the frequency axis and the data rows, reversed together with `[::-1]`.

  The error paths are an `IndexError` on an empty time table and a
  `ValueError` when `.datetime` meets a day outside years 1 to 9999.
- **The fixed fields** the class attaches: `t_delt = 1.0`, the two axis labels
  and the instrument set `{"EOVSA"}`. These come from `read` and `__init__`.

The project has two modules:

- `builtins.dfy` (`Builtins`) holds the Python built-ins the reader relies on,
  modelled on strings and sequences. These are the POSIX tail of
  `os.path.split`, `str.split` with its inverse `str.join`, clamped slicing,
  `int()` on a string in base 10 and the reversing slice `[::-1]`. `int()` is
  modelled as CPython defines it from 3.11, 3.10.7, 3.9.14, 3.8.14 and 3.7.14
  on: the six ASCII white-space characters it skips, an
  optional sign, digits with single underscores between them, and at most
  4300 digits, the default of `sys.get_int_max_str_digits()`. Underscores,
  the sign and white space do not count towards that limit; leading zeros do.
- `eovsa.dfy` (`Eovsa`) holds the reader itself. `Eovsa.ReadIn` states the
  steps of `read` once. The corrected reader `Eovsa.Read` and the reader as
  written, `Eovsa.ReadAsWritten`, differ only in the value `content` has when
  the constructor call reaches it.

Exceptions are modelled as a `Result` whose `Error` names the Python exception.
Times are integers:

- a time-table sample is a Modified Julian Day and the milliseconds of that day,
  which are the file's own `mjd` and `time` columns;
- a timestamp is a day plus milliseconds within it;
- the elapsed-time axis is in milliseconds (1000 times the source's seconds).

Intensities and frequencies are never computed on, so they are carried as
`real` values.

Two behaviours of the code are easy to assume otherwise. The model follows
the code, and lemmas state what the code does:

- The reversal of the frequency axis is unconditional. No first-versus-last
  check is made, so reading an already ascending axis leaves it descending, and
  reversing twice undoes the reversal (`Eovsa.ReversalIsNotIdempotent`).
- Nothing checks that the time column is monotonic, and nothing checks that the
  data's shape agrees with the axes. The result is well shaped exactly when the
  inputs are (`Eovsa.ReadAligned`). The time axis ignores the day column, so a sample
  on the next day less than a day after the first gets a negative offset
  (`Eovsa.ConsecutiveDaysOffset`, `Eovsa.MidnightCrossingGoesNegative`).

## Model

| member | source | states |
|---|---|---|
| `Builtins.BaseName` | radiospectra/sources/eovsa.py:25 | the tail `os.path.split` returns contains no '/' |
| `Builtins.BaseNameIsSuffix` | radiospectra/sources/eovsa.py:25 | the tail is a suffix of the path, and a '/' stands just before it unless it is the whole path, so it is the longest '/'-free suffix |
| `Builtins.BaseNameOfPlainName` | radiospectra/sources/eovsa.py:25 | a path without '/' is its own tail |
| `Builtins.BaseNameIgnoresDirectory` | radiospectra/sources/eovsa.py:25 | putting any directory and a '/' in front of a path does not change its tail |
| `Builtins.Split` | radiospectra/sources/eovsa.py:26 | `str.split` on one character gives at least one field, and no field contains the separator |
| `Builtins.JoinSplit` | radiospectra/sources/eovsa.py:26 | joining the fields of `s.split(sep)` with `sep` gives `s` back |
| `Builtins.SplitJoin` | radiospectra/sources/eovsa.py:26 | splitting a join of separator-free fields gives exactly those fields, so the third field of such a name is its third part |
| `Builtins.SplitOfPrefix` | radiospectra/sources/eovsa.py:26 | a separator-free prefix followed by the separator is the first field, and the rest is split on its own |
| `Builtins.Slice` | radiospectra/sources/eovsa.py:28 | `s[lo:hi]` has the length Python gives it when the bounds run past the end, and its character `k` is `s[lo + k]` |
| `Builtins.SliceFrom` | radiospectra/sources/eovsa.py:28 | `s[lo:]` is empty when `lo` is past the end, otherwise it has `len(s) - lo` characters; its character `k` is `s[lo + k]` |
| `Builtins.StripLeftSpec` | radiospectra/sources/eovsa.py:28 | the left strip `int()` performs drops exactly the leading white space (space, tab, line feed, vertical tab, form feed, carriage return): the rest is a suffix that does not start with white space |
| `Builtins.StripRightSpec` | radiospectra/sources/eovsa.py:28 | the right strip drops exactly the trailing white space (the same six characters): the rest is a prefix that does not end with white space |
| `Builtins.ParseInt` | radiospectra/sources/eovsa.py:28 | `int(text)`; its contract lives in the lemmas below: the decimal value of a digit run, `int(str(n)) == n`, ValueError past 4300 digits, on a stray character or on blank text |
| `Builtins.ParseIntOfDigits` | radiospectra/sources/eovsa.py:28 | `int()` of a run of 1 to 4300 decimal digits is its decimal value |
| `Builtins.ParseIntOfTooManyDigits` | radiospectra/sources/eovsa.py:28 | `int()` of a run of more than 4300 decimal digits raises ValueError |
| `Builtins.ParseIntDecimal` | radiospectra/sources/eovsa.py:28 | `int(str(n)) == n` for every natural number `n` that `str` renders, that is, of at most 4300 digits |
| `Builtins.ParseIntOfStrayChar` | radiospectra/sources/eovsa.py:28 | a character that is not white space, a digit, an underscore or a sign, anywhere in the text, makes `int()` raise ValueError; the separators `\x1c`-`\x1f` are such characters |
| `Builtins.ParseIntOfBlank` | radiospectra/sources/eovsa.py:28 | `int()` of an empty or all-blank text raises ValueError |
| `Builtins.Reverse` | radiospectra/sources/eovsa.py:52-53 | `[::-1]` keeps the length and puts element `n-1-i` at position `i` |
| `Builtins.ReverseReverse` | radiospectra/sources/eovsa.py:52-53 | reversing twice gives the original sequence |
| `Builtins.ReverseMultiset` | radiospectra/sources/eovsa.py:52-53 | reversing keeps every element with its multiplicity |
| `Eovsa.MakeDate` | radiospectra/sources/eovsa.py:27-29 | `datetime(y, m, d)` succeeds exactly on real dates of years 1 to 9999 and then holds `(y, m, d)`; OverflowError exactly when an argument is outside a C int; ValueError otherwise |
| `Eovsa.DaysInMonth` | radiospectra/sources/eovsa.py:27-29 | the length of a month in the check `datetime` makes, between 28 and 31; `DaysBeforeMonthStep` ties it to the day table |
| `Eovsa.IsValidDate` | radiospectra/sources/eovsa.py:27-29 | the dates `datetime` accepts: years 1 to 9999, months 1 to 12, days within the month; `MakeDate` and `DatesAreInDatetimeRange` state what follows from it |
| `Eovsa.DateOfField` | radiospectra/sources/eovsa.py:27-29 | reading a date field never gives the missing-field error, and every date it gives is a real date |
| `Eovsa.DateOfTexts` | radiospectra/sources/eovsa.py:27-29 | the three `int()` conversions followed by `datetime` never give the missing-field error, and every date they give is a real date; ValueError from `int()` exactly when one of the texts does not parse, naming the first such text in argument order |
| `Eovsa.DateOfDigitTexts` | radiospectra/sources/eovsa.py:27-29 | when the three texts are runs of at most 4300 digits, the result is `datetime` of their decimal values |
| `Eovsa.SwavesFileToDate` | radiospectra/sources/eovsa.py:24-29 | IndexError exactly when the base name has fewer than three '_' fields; every date returned is a real date; `SwavesFileToDateOfStrayChar` gives the ValueError for a date field holding a non-numeric character |
| `Eovsa.SwavesFileToDateIgnoresDirectory` | radiospectra/sources/eovsa.py:25 | the result depends only on the base name: any directory in front gives the same result |
| `Eovsa.SwavesFileToDateOfFields` | radiospectra/sources/eovsa.py:25-26 | for a name joined from three or more plain fields, the result is the date read from the third field |
| `Eovsa.SwavesFileToDateOfThreeFields` | radiospectra/sources/eovsa.py:25-26 | for a name `a_b_c` of three plain fields, the result is the date read from `c` |
| `Eovsa.SwavesFileToDateOfFewFields` | radiospectra/sources/eovsa.py:26 | a name joined from fewer than three plain fields raises IndexError |
| `Eovsa.FourDigitsValue` | radiospectra/sources/eovsa.py:28 | four decimal digits have the value `1000a + 100b + 10c + d` |
| `Eovsa.TwoDigitsValue` | radiospectra/sources/eovsa.py:28 | two decimal digits have the value `10a + b` |
| `Eovsa.YearOfEightDigits` | radiospectra/sources/eovsa.py:28 | in an eight-digit field, `date[0:4]` has the value of the digits YYYY |
| `Eovsa.MonthOfEightDigits` | radiospectra/sources/eovsa.py:28 | in an eight-digit field, `date[4:6]` has the value of the digits MM |
| `Eovsa.DayOfEightDigits` | radiospectra/sources/eovsa.py:28 | in an eight-digit field, `date[6:]` has the value of the digits DD |
| `Eovsa.DateOfEightDigits` | radiospectra/sources/eovsa.py:27-29 | an eight-digit field YYYYMMDD gives `datetime(YYYY, MM, DD)`: that date when it exists, ValueError otherwise |
| `Eovsa.DateOfFieldOfStrayChar` | radiospectra/sources/eovsa.py:27-29 | a character that is not white space, a digit, an underscore or a sign, anywhere in the date field, makes `int()` of `date[0:4]`, `date[4:6]` or `date[6:]` raise ValueError |
| `Eovsa.SwavesFileToDateOfStrayChar` | radiospectra/sources/eovsa.py:24-29 | in any directory, a name whose third field holds such a character (as in `abcd0626` or `2020Jun26`) raises ValueError from `int()` |
| `Eovsa.DateOfFieldWithLongDay` | radiospectra/sources/eovsa.py:28 | a digit field whose `date[6:]` has more than 4300 digits fails with ValueError on `int(date[6:])`, before `datetime` sees the number |
| `Eovsa.SwavesFileToDateOfDigitField` | radiospectra/sources/eovsa.py:24-29 | in any directory, a name whose third field is eight digits gives `datetime` of the values of `date[0:4]`, `date[4:6]` and `date[6:]` |
| `Eovsa.SwavesFileToDateOfEightDigits` | radiospectra/sources/eovsa.py:24-29 | in any directory, a name whose third field is eight digits `YYYYMMDD` gives `datetime(YYYY, MM, DD)` |
| `Eovsa.DateOfFieldWithExtension` | radiospectra/sources/eovsa.py:28 | the field `20200626.fts` fails with ValueError on `int("26.fts")` |
| `Eovsa.ScriptFileNameIsRejected` | radiospectra/sources/eovsa.py:90 | `swavesfile_to_date` rejects the file name the module's script opens, `EOVSA_TPall_20200626.fts`, with ValueError on `int("26.fts")`, in any directory; the script itself only calls `read`, which never calls `swavesfile_to_date` |
| `Eovsa.ScriptBaseNameIsRejected` | radiospectra/sources/eovsa.py:24-29 | the same for the bare name `EOVSA_TPall_20200626.fts` |
| `Eovsa.ExampleFileName` | radiospectra/sources/eovsa.py:24-29 | `EOVSA_TPall_20200626` in any directory gives 26 June 2020 |
| `Eovsa.ExampleBaseName` | radiospectra/sources/eovsa.py:24-29 | the bare name `EOVSA_TPall_20200626` gives 26 June 2020 |
| `Eovsa.SeparatorInDateIsRejected` | radiospectra/sources/eovsa.py:28 | `EOVSA_TPall_2020\x1c626` is rejected with ValueError on `int("\x1c6")` in any directory, since `int()` does not skip `\x1c` |
| `Eovsa.SeparatorBaseNameIsRejected` | radiospectra/sources/eovsa.py:24-29 | the same for the bare name `EOVSA_TPall_2020\x1c626` |
| `Eovsa.ToTimestamp` | radiospectra/sources/eovsa.py:42-43 | the instant of a sample as a normal timestamp (milliseconds within the day), denoting the same instant as the sample |
| `Eovsa.ToDatetime` | radiospectra/sources/eovsa.py:42-43 | `.datetime` succeeds exactly when the sample's day lies in `datetime`'s range, and then gives the sample's instant; ValueError otherwise |
| `Eovsa.DaysBeforeMonthStep` | radiospectra/sources/eovsa.py:42-43 | the day table agrees with the month lengths: each month adds its own number of days |
| `Eovsa.DaysBeforeNextYear` | radiospectra/sources/eovsa.py:42-43 | a year adds 366 days when it is a leap year and 365 otherwise |
| `Eovsa.DatesAreInDatetimeRange` | radiospectra/sources/eovsa.py:42-43 | every date `datetime` accepts falls on a Modified Julian Day inside the range `.datetime` accepts |
| `Eovsa.DatetimeRangeEnds` | radiospectra/sources/eovsa.py:42-43 | the range runs from 1 January of year 1 to 31 December of year 9999; MJD 0 is 17 November 1858 and 26 June 2020 is MJD 59026 |
| `Eovsa.DatedSampleIsConverted` | radiospectra/sources/eovsa.py:42-43 | a sample on the day of any date `datetime` accepts is converted |
| `Eovsa.NotAfterIsInstantOrder` | radiospectra/sources/eovsa.py:42-43 | on normal timestamps, the calendar comparison agrees with the order of instants, both ways |
| `Eovsa.ToTimestampOfNormalSample` | radiospectra/sources/eovsa.py:42-43 | a sample whose milliseconds lie within the day keeps its day and milliseconds |
| `Eovsa.DayOffset` | radiospectra/sources/eovsa.py:47 | `t_init` lies in `[0, 86400)`, and the start lies within that whole second of its day |
| `Eovsa.DayOffsetFiveMinutes` | radiospectra/sources/eovsa.py:47 | a start at 00:05:00 gives `t_init` 300 |
| `Eovsa.Offsets` | radiospectra/sources/eovsa.py:44 | one offset per sample, each the sample's milliseconds minus the origin |
| `Eovsa.TimeAxis` | radiospectra/sources/eovsa.py:41-44 | the time axis has one entry per sample, entry 0 is 0, and entry i is sample i's milliseconds minus sample 0's |
| `Eovsa.SampleOrderIsChronological` | radiospectra/sources/eovsa.py:42-43 | samples ordered by `(mjd, time)`, each within its day, denote instants that never go back |
| `Eovsa.TimeAxisIsMonotone` | radiospectra/sources/eovsa.py:44 | when the milliseconds column never goes down, the time axis never goes down and is never negative |
| `Eovsa.StartNotAfterEnd` | radiospectra/sources/eovsa.py:42-43 | for chronological samples, `start <= end` |
| `Eovsa.ConsecutiveDaysOffset` | radiospectra/sources/eovsa.py:44 | for two samples on consecutive days, each within its day, the second is later and its offset is their distance minus one day, so it is negative exactly when they are less than a day apart |
| `Eovsa.MidnightCrossingGoesNegative` | radiospectra/sources/eovsa.py:44 | samples one second before and one second after midnight are chronological and give the second offset `2000 - 86400000` ms |
| `Eovsa.NewSpectrogram` | radiospectra/sources/eovsa.py:58-68 | `__init__` keeps every argument and sets the instruments to `{"EOVSA"}` |
| `Eovsa.ReadIn` | radiospectra/sources/eovsa.py:40-56 | the steps of `read` with `content` given or unbound, with no contract of its own: `Eovsa.Read` and `Eovsa.ReadAsWritten` state what it gives in the two cases |
| `Eovsa.Read` | radiospectra/sources/eovsa.py:40-56 | succeeds exactly when the table is not empty and its first and last samples lie in years 1 to 9999; IndexError on an empty table, ValueError for a sample out of range; on success the time axis, the instants of start and end, the `t_init` bounds, the axis and the rows each reversed, and the fixed fields |
| `Eovsa.ReadAsWritten` | radiospectra/sources/eovsa.py:40-56 | the same steps with `content` unbound always raise: IndexError on an empty table, ValueError for a sample out of range, and NameError for `content` on every table the corrected reader accepts |
| `Eovsa.ReadAsWrittenNeverSucceeds` | radiospectra/sources/eovsa.py:48-56 | the two readers differ exactly where the corrected one succeeds: there the as-written one raises NameError, elsewhere both raise the same error |
| `Eovsa.ReadAligned` | radiospectra/sources/eovsa.py:52-56 | the result has one frequency per row and one time per column exactly when the inputs do |
| `Eovsa.ReadOrdered` | radiospectra/sources/eovsa.py:42-44 | chronological samples give `start <= end`; a milliseconds column that never goes down gives a non-decreasing, non-negative axis |
| `Eovsa.ReadKeepsPairs` | radiospectra/sources/eovsa.py:52-53 | the result's (frequency, row) pairs are the input's pairs reversed, so it has the same multiset of pairs |
| `Eovsa.ReadReversalUndone` | radiospectra/sources/eovsa.py:52-53 | reversing the result's axis and rows once more gives the file's order |
| `Eovsa.ReversalIsNotIdempotent` | radiospectra/sources/eovsa.py:52-53 | because the reversal is unconditional, applying it twice differs from applying it once |
| `Eovsa.FiveChannelsTenSeconds` | radiospectra/sources/eovsa.py:40-56 | five channels from 18 down to 14 and ten samples one second apart from 00:00:10 give an axis from 14 up to 18, rows in the same reversed order, time axis 0 to 9000 ms and `t_init` 10 |

## Left out

- FITS input: `fits.open`, the HDU indexing and the header (lines 36-39 and 45) belong to a foreign library. `Eovsa.Read` takes the primary array, the `sfreq` column and the time table as parameters instead.
- astropy `Time`: lines 42-43 convert a floating-point MJD to a `datetime`. The model converts the integer `(mjd, ms)` sample exactly, so float rounding and leap seconds are not modelled. The year range `.datetime` enforces is modelled by `Eovsa.ToDatetime` as the days from MJD -678575 to MJD 2973483. The lemmas prove that both ends are the first and last dates and that every date lies inside. That every day in between is a date is not proved.
- `get_day` lives in `radiospectra/util`, which is not part of this model. `Eovsa.DayOffset` assumes that it returns midnight of the same day.
- The dispatch registry (`ConditionalDispatch`, `create`, lines 17-18) and the docstring patching (lines 72-87) are not computation and are not modelled.
- `COPY_PROPERTIES` (lines 19-21) is not modelled. It is class plumbing for the `LinearTimeSpectrogram` parent, which is not part of this model.
- The checks and conversions the `LinearTimeSpectrogram` constructor makes (line 64) are not modelled. `Eovsa.NewSpectrogram` records its arguments as they are.
- The `__main__` block (lines 89-92) opens a fixed path and plots it. Only what `swavesfile_to_date` makes of the file name it uses is modelled, in `Eovsa.ScriptFileNameIsRejected`.
- The elapsed-time axis is in integer milliseconds. The source computes floating-point seconds, `time / 1000.`, so each source value is the model's value divided by 1000, up to floating-point rounding (for `time = [100, 400]` the source gives `0.4 - 0.1`, which is `0.30000000000000004`).
- Data values and frequencies are `real`, not IEEE floats. No arithmetic is done on them.
- `os.path.split` is modelled with the POSIX separator '/' only.
- `int()` is modelled on ASCII text only, skipping the six ASCII white-space characters it skips. Non-ASCII white space and non-ASCII decimal digits, which Python also accepts, are not modelled.
- `int()`'s digit limit is fixed at its default of 4300. A program can change it with `sys.set_int_max_str_digits` or the `PYTHONINTMAXSTRDIGITS` setting, and older releases without the limit accept any length; neither is modelled.
- `Builtins.Slice`: only bounds with `lo <= hi` are modelled. Python also accepts a larger `lo` and returns an empty string, but the source only slices with fixed bounds `[0:4]` and `[4:6]`.

## Findings

| source | as written | input that shows it | evidently intended | confidence | as-written member | corrected member |
|---|---|---|---|---|---|---|
| radiospectra/sources/eovsa.py:48-56 | `read` passes `content` to the constructor, but its assignment at line 48 is commented out, so `content` is undefined | any file whose time table is not empty and whose first and last samples lie in years 1 to 9999: `read` raises NameError at line 56 | pass a defined title (the commented-out string) as `content` | not executed | `Eovsa.ReadAsWritten`, `Eovsa.ReadAsWrittenNeverSucceeds` | `Eovsa.Read` |
