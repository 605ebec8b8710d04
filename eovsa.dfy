/**
 The EOVSA total-power spectrogram reader (`EOVSASpectrogram`): the date a
 file name carries, the axes `read` derives from the three tables of a file,
 and the fixed fields the class attaches on construction.

 Times are integers: a sample of the time table is a Modified Julian Day and
 the milliseconds since that day's midnight, and the elapsed-time axis is in
 milliseconds. Intensities and frequencies are never computed on, so they are
 carried as `real` values.
 */
module Eovsa {
  import opened Builtins

  /** The exceptions the reader can raise on the paths modelled here. */
  datatype Error =
    | MissingField                  // IndexError: the name has fewer than three '_' fields
    | NotAnInteger(text: string)    // ValueError: int() of a slice of the date field
    | IntOverflow(value: int)       // OverflowError: a datetime argument outside a C int
    | DateOutOfRange                // ValueError: datetime's year, month or day check
    | EmptyTimeTable                // IndexError: mjd[0] of an empty time table
    | TimeOutOfRange                // ValueError: `.datetime` of an instant outside years 1 to 9999
    | UndefinedName(name: string)   // NameError: a variable that is never assigned

  datatype Result<+T> = Ok(value: T) | Err(error: Error)

  // ===========================================================================
  // The date in a file name
  // ===========================================================================

  /** A calendar date, as `datetime.datetime(year, month, day)` holds it. */
  datatype Date = Date(year: int, month: int, day: int)

  const MIN_YEAR := 1
  const MAX_YEAR := 9999
  const C_INT_MIN := -0x8000_0000
  const C_INT_MAX := 0x7FFF_FFFF

  predicate IsLeapYear(year: int) {
    year % 4 == 0 && (year % 100 != 0 || year % 400 == 0)
  }

  function DaysInMonth(year: int, month: int): (days: int)
    requires 1 <= month <= 12
    ensures 28 <= days <= 31
  {
    if month == 2 then (if IsLeapYear(year) then 29 else 28)
    else if month == 4 || month == 6 || month == 9 || month == 11 then 30
    else 31
  }

  /** The dates `datetime` accepts. */
  predicate IsValidDate(year: int, month: int, day: int) {
    MIN_YEAR <= year <= MAX_YEAR && 1 <= month <= 12 && 1 <= day <= DaysInMonth(year, month)
  }

  predicate FitsCInt(n: int) {
    C_INT_MIN <= n <= C_INT_MAX
  }

  /**
   `datetime.datetime(year, month, day)`: the arguments are first converted to C
   ints (OverflowError), then range-checked year, month, day (ValueError).
   */
  function MakeDate(year: int, month: int, day: int): (r: Result<Date>)
    ensures r.Ok? <==> IsValidDate(year, month, day)
    ensures r.Ok? ==> r.value == Date(year, month, day)
    ensures r.Err? ==> (r.error.IntOverflow? <==> !(FitsCInt(year) && FitsCInt(month) && FitsCInt(day)))
    ensures r.Err? ==> r.error.IntOverflow? || r.error == DateOutOfRange
  {
    if !FitsCInt(year) then Err(IntOverflow(year))
    else if !FitsCInt(month) then Err(IntOverflow(month))
    else if !FitsCInt(day) then Err(IntOverflow(day))
    else if !IsValidDate(year, month, day) then Err(DateOutOfRange)
    else Ok(Date(year, month, day))
  }

  /**
   The date a `YYYYMMDD` field names: `datetime(int(field[0:4]),
   int(field[4:6]), int(field[6:]))`, the three conversions made in that order.
   */
  function DateOfField(field: string): (r: Result<Date>)
    ensures r != Err(MissingField)
    ensures r.Ok? ==> IsValidDate(r.value.year, r.value.month, r.value.day)
  {
    DateOfTexts(Slice(field, 0, 4), Slice(field, 4, 6), SliceFrom(field, 6))
  }

  /** `datetime(int(yearText), int(monthText), int(dayText))`. */
  function DateOfTexts(yearText: string, monthText: string, dayText: string): (r: Result<Date>)
    ensures r != Err(MissingField)
    ensures r.Ok? ==> IsValidDate(r.value.year, r.value.month, r.value.day)
    ensures ParseInt(yearText) == None ==> r == Err(NotAnInteger(yearText))
    ensures ParseInt(yearText).Some? && ParseInt(monthText) == None ==> r == Err(NotAnInteger(monthText))
    ensures ParseInt(yearText).Some? && ParseInt(monthText).Some? && ParseInt(dayText) == None
            ==> r == Err(NotAnInteger(dayText))
    ensures (r.Err? && r.error.NotAnInteger?)
            <==> ParseInt(yearText) == None || ParseInt(monthText) == None || ParseInt(dayText) == None
  {
    match ParseInt(yearText)
    case None => Err(NotAnInteger(yearText))
    case Some(year) =>
      match ParseInt(monthText)
      case None => Err(NotAnInteger(monthText))
      case Some(month) =>
        match ParseInt(dayText)
        case None => Err(NotAnInteger(dayText))
        case Some(day) => MakeDate(year, month, day)
  }

  /** When all three texts are runs of digits within `int()`'s limit, the result is whatever `datetime` makes of their values. */
  lemma DateOfDigitTexts(yearText: string, monthText: string, dayText: string)
    requires 0 < |yearText| <= INT_MAX_STR_DIGITS && AllDigits(yearText)
    requires 0 < |monthText| <= INT_MAX_STR_DIGITS && AllDigits(monthText)
    requires 0 < |dayText| <= INT_MAX_STR_DIGITS && AllDigits(dayText)
    ensures DateOfTexts(yearText, monthText, dayText) == MakeDate(DigitsValue(yearText), DigitsValue(monthText), DigitsValue(dayText))
  {
    ParseIntOfDigits(yearText);
    ParseIntOfDigits(monthText);
    ParseIntOfDigits(dayText);
  }

  /**
   `EOVSASpectrogram.swavesfile_to_date`: the date in the third '_'-separated
   field of the file's base name.
   */
  function SwavesFileToDate(filename: string): (r: Result<Date>)
    ensures |Split(BaseName(filename), '_')| < 3 <==> r == Err(MissingField)
    ensures r.Ok? ==> IsValidDate(r.value.year, r.value.month, r.value.day)
  {
    var fields := Split(BaseName(filename), '_');
    if |fields| < 3 then Err(MissingField) else DateOfField(fields[2])
  }

  /** Only the base name matters: any directory in front gives the same result. */
  lemma SwavesFileToDateIgnoresDirectory(dir: string, filename: string)
    ensures SwavesFileToDate(dir + "/" + filename) == SwavesFileToDate(filename)
  {
    BaseNameIgnoresDirectory(dir, filename);
  }

  /** The third '_' field of a name built from '_'-free fields is the date field. */
  lemma {:induction false} SwavesFileToDateOfFields(fields: seq<string>)
    requires |fields| >= 3
    requires forall i :: 0 <= i < |fields| ==> '_' !in fields[i] && '/' !in fields[i]
    ensures SwavesFileToDate(Join(fields, '_')) == DateOfField(fields[2])
  {
    NoSlashInJoin(fields);
    BaseNameOfPlainName(Join(fields, '_'));
    SplitJoin(fields, '_');
  }

  /** The same for a name of exactly three fields, written out. */
  lemma SwavesFileToDateOfThreeFields(first: string, second: string, third: string)
    requires '_' !in first && '/' !in first
    requires '_' !in second && '/' !in second
    requires '_' !in third && '/' !in third
    ensures SwavesFileToDate(first + "_" + second + "_" + third) == DateOfField(third)
  {
    var fields := [first, second, third];
    assert Join(fields, '_') == first + "_" + second + "_" + third by {
      assert fields[1..] == [second, third] && fields[1..][1..] == [third];
      assert Join(fields[1..], '_') == second + "_" + third;
    }
    SwavesFileToDateOfFields(fields);
  }

  /** A base name with fewer than three '_' fields has no date field. */
  lemma {:induction false} SwavesFileToDateOfFewFields(fields: seq<string>)
    requires 0 < |fields| < 3
    requires forall i :: 0 <= i < |fields| ==> '_' !in fields[i] && '/' !in fields[i]
    ensures SwavesFileToDate(Join(fields, '_')) == Err(MissingField)
  {
    NoSlashInJoin(fields);
    BaseNameOfPlainName(Join(fields, '_'));
    SplitJoin(fields, '_');
  }

  lemma {:induction false} NoSlashInJoin(fields: seq<string>)
    requires |fields| > 0
    requires forall i :: 0 <= i < |fields| ==> '_' !in fields[i] && '/' !in fields[i]
    ensures '/' !in Join(fields, '_')
    decreases |fields|
  {
    if |fields| > 1 {
      NoSlashInJoin(fields[1..]);
    }
  }

  /** Appending a digit shifts the value one decimal place. */
  lemma DigitsValueAppend(s: string, c: char)
    requires IsDigit(c)
    ensures DigitsValue(s + [c]) == 10 * DigitsValue(s) + DigitOf(c)
  {
    assert (s + [c])[..|s|] == s;
  }

  /** The value of four decimal digits, most significant first. */
  lemma FourDigitsValue(s: string)
    requires |s| == 4 && AllDigits(s)
    ensures DigitsValue(s) == 1000 * DigitOf(s[0]) + 100 * DigitOf(s[1]) + 10 * DigitOf(s[2]) + DigitOf(s[3])
  {
    assert DigitsValue([]) == 0;
    DigitsValueAppend([], s[0]);
    assert [] + [s[0]] == [s[0]];
    DigitsValueAppend([s[0]], s[1]);
    assert [s[0]] + [s[1]] == [s[0], s[1]];
    DigitsValueAppend([s[0], s[1]], s[2]);
    assert [s[0], s[1]] + [s[2]] == [s[0], s[1], s[2]];
    DigitsValueAppend([s[0], s[1], s[2]], s[3]);
    assert [s[0], s[1], s[2]] + [s[3]] == s;
  }

  /** The value of two decimal digits, most significant first. */
  lemma TwoDigitsValue(s: string)
    requires |s| == 2 && AllDigits(s)
    ensures DigitsValue(s) == 10 * DigitOf(s[0]) + DigitOf(s[1])
  {
    assert DigitsValue([]) == 0;
    DigitsValueAppend([], s[0]);
    assert [] + [s[0]] == [s[0]];
    DigitsValueAppend([s[0]], s[1]);
    assert [s[0]] + [s[1]] == s;
  }

  /** The year text `field[0:4]` of an eight-digit field denotes YYYY. */
  lemma YearOfEightDigits(field: string)
    requires |field| == 8 && AllDigits(field)
    ensures DigitsValue(Slice(field, 0, 4)) == 1000 * DigitOf(field[0]) + 100 * DigitOf(field[1]) + 10 * DigitOf(field[2]) + DigitOf(field[3])
  {
    var text := Slice(field, 0, 4);
    assert AllDigits(text) && text[0] == field[0] && text[1] == field[1] && text[2] == field[2] && text[3] == field[3];
    FourDigitsValue(text);
  }

  /** The month text `field[4:6]` of an eight-digit field denotes MM. */
  lemma MonthOfEightDigits(field: string)
    requires |field| == 8 && AllDigits(field)
    ensures DigitsValue(Slice(field, 4, 6)) == 10 * DigitOf(field[4]) + DigitOf(field[5])
  {
    var text := Slice(field, 4, 6);
    assert AllDigits(text) && text[0] == field[4] && text[1] == field[5];
    TwoDigitsValue(text);
  }

  /** The day text `field[6:]` of an eight-digit field denotes DD. */
  lemma DayOfEightDigits(field: string)
    requires |field| == 8 && AllDigits(field)
    ensures DigitsValue(SliceFrom(field, 6)) == 10 * DigitOf(field[6]) + DigitOf(field[7])
  {
    var text := SliceFrom(field, 6);
    assert |text| == 2 && AllDigits(text) && text[0] == field[6] && text[1] == field[7];
    TwoDigitsValue(text);
  }

  /**
   An eight-digit field `YYYYMMDD` is read as `datetime(YYYY, MM, DD)`: a date
   when it is a real one, datetime's ValueError otherwise. The three lemmas
   above give the decimal value of each part.
   */
  lemma DateOfEightDigits(field: string)
    requires |field| == 8 && AllDigits(field)
    ensures DateOfField(field) == MakeDate(DigitsValue(Slice(field, 0, 4)), DigitsValue(Slice(field, 4, 6)), DigitsValue(SliceFrom(field, 6)))
  {
    var yearText, monthText, dayText := Slice(field, 0, 4), Slice(field, 4, 6), SliceFrom(field, 6);
    assert AllDigits(yearText) && yearText[0] == field[0];
    assert AllDigits(monthText) && monthText[0] == field[4];
    assert AllDigits(dayText) && dayText[0] == field[6];
    DateOfDigitTexts(yearText, monthText, dayText);
  }

  /** The date field of the script's file name keeps the extension, and `int("26.fts")` fails. */
  lemma DateOfFieldWithExtension(field: string)
    requires field == "20200626.fts"
    ensures DateOfField(field) == Err(NotAnInteger("26.fts"))
  {
    var yearText, monthText, dayText := Slice(field, 0, 4), Slice(field, 4, 6), SliceFrom(field, 6);
    assert yearText == field[..4] && monthText == field[4..6] && dayText == field[6..];
    assert AllDigits(yearText) && AllDigits(monthText);
    ParseIntOfDigits(yearText);
    ParseIntOfDigits(monthText);
    assert dayText[2] == '.';
    ParseIntOfStrayChar(dayText, 2);
  }

  /**
   A character that is not white space, a digit, an underscore or a sign,
   anywhere in a date field, makes one of the three `int()` calls raise
   ValueError: the one whose slice holds the character, or an earlier one.
   */
  lemma DateOfFieldOfStrayChar(field: string, i: nat)
    requires i < |field|
    requires !IsSpace(field[i]) && !IsDigit(field[i]) && field[i] !in "_-+"
    ensures var r := DateOfField(field);
            || r == Err(NotAnInteger(Slice(field, 0, 4)))
            || r == Err(NotAnInteger(Slice(field, 4, 6)))
            || r == Err(NotAnInteger(SliceFrom(field, 6)))
  {
    var yearText, monthText, dayText := Slice(field, 0, 4), Slice(field, 4, 6), SliceFrom(field, 6);
    if i < 4 {
      assert yearText[i] == field[i];
      ParseIntOfStrayChar(yearText, i);
    } else if i < 6 {
      assert monthText[i - 4] == field[i];
      ParseIntOfStrayChar(monthText, i - 4);
    } else {
      assert dayText[i - 6] == field[i];
      ParseIntOfStrayChar(dayText, i - 6);
    }
  }

  /**
   In any directory, a name whose third '_' field holds such a character makes
   `swavesfile_to_date` raise ValueError on one of its `int()` calls.
   */
  lemma SwavesFileToDateOfStrayChar(dir: string, fields: seq<string>, i: nat)
    requires |fields| >= 3
    requires forall k :: 0 <= k < |fields| ==> '_' !in fields[k] && '/' !in fields[k]
    requires i < |fields[2]|
    requires !IsSpace(fields[2][i]) && !IsDigit(fields[2][i]) && fields[2][i] !in "-+"
    ensures var r := SwavesFileToDate(dir + "/" + Join(fields, '_'));
            r.Err? && r.error.NotAnInteger?
  {
    SwavesFileToDateIgnoresDirectory(dir, Join(fields, '_'));
    SwavesFileToDateOfFields(fields);
    assert fields[2][i] != '_';
    DateOfFieldOfStrayChar(fields[2], i);
  }

  /**
   A digit field whose day part `field[6:]` has more digits than `int()` converts
   fails on that part with ValueError, before `datetime` sees the number.
   */
  lemma DateOfFieldWithLongDay(field: string)
    requires |field| > 6 + INT_MAX_STR_DIGITS && AllDigits(field)
    ensures DateOfField(field) == Err(NotAnInteger(field[6..]))
  {
    var yearText, monthText, dayText := Slice(field, 0, 4), Slice(field, 4, 6), SliceFrom(field, 6);
    assert AllDigits(yearText) && AllDigits(monthText) && AllDigits(dayText);
    ParseIntOfDigits(yearText);
    ParseIntOfDigits(monthText);
    ParseIntOfTooManyDigits(dayText);
    assert dayText == field[6..];
  }

  /**
   In any directory, a name whose third '_' field is eight digits `YYYYMMDD`
   gives `datetime(YYYY, MM, DD)`, or the error `datetime` raises for it.
   */
  lemma SwavesFileToDateOfEightDigits(dir: string, fields: seq<string>)
    requires |fields| >= 3
    requires forall i :: 0 <= i < |fields| ==> '_' !in fields[i] && '/' !in fields[i]
    requires |fields[2]| == 8 && AllDigits(fields[2])
    ensures var f := fields[2];
            SwavesFileToDate(dir + "/" + Join(fields, '_')) == MakeDate(
              1000 * DigitOf(f[0]) + 100 * DigitOf(f[1]) + 10 * DigitOf(f[2]) + DigitOf(f[3]),
              10 * DigitOf(f[4]) + DigitOf(f[5]),
              10 * DigitOf(f[6]) + DigitOf(f[7]))
  {
    var f := fields[2];
    SwavesFileToDateOfDigitField(dir, fields);
    YearOfEightDigits(f);
    MonthOfEightDigits(f);
    DayOfEightDigits(f);
  }

  /** The same, with the three parts given by the values of their digit texts. */
  lemma SwavesFileToDateOfDigitField(dir: string, fields: seq<string>)
    requires |fields| >= 3
    requires forall i :: 0 <= i < |fields| ==> '_' !in fields[i] && '/' !in fields[i]
    requires |fields[2]| == 8 && AllDigits(fields[2])
    ensures SwavesFileToDate(dir + "/" + Join(fields, '_'))
            == MakeDate(DigitsValue(Slice(fields[2], 0, 4)), DigitsValue(Slice(fields[2], 4, 6)), DigitsValue(SliceFrom(fields[2], 6)))
  {
    SwavesFileToDateIgnoresDirectory(dir, Join(fields, '_'));
    SwavesFileToDateOfFields(fields);
    DateOfEightDigits(fields[2]);
  }

  /**
   `swavesfile_to_date` rejects the file name the module's script opens,
   `EOVSA_TPall_20200626.fts`, in any directory: its date field keeps the
   extension, so `int("26.fts")` fails. The script itself never calls
   `swavesfile_to_date`.
   */
  lemma ScriptFileNameIsRejected(dir: string)
    ensures SwavesFileToDate(dir + "/" + "EOVSA_TPall_20200626.fts") == Err(NotAnInteger("26.fts"))
  {
    SwavesFileToDateIgnoresDirectory(dir, "EOVSA_TPall_20200626.fts");
    ScriptBaseNameIsRejected("EOVSA_TPall_20200626.fts");
  }

  /** The same name with no directory, split into its three '_' fields. */
  lemma ScriptBaseNameIsRejected(name: string)
    requires name == "EOVSA_TPall_20200626.fts"
    ensures SwavesFileToDate(name) == Err(NotAnInteger("26.fts"))
  {
    assert "EOVSA" + "_" + "TPall" + "_" + "20200626.fts" == name;
    SwavesFileToDateOfThreeFields("EOVSA", "TPall", "20200626.fts");
    DateOfFieldWithExtension("20200626.fts");
  }

  /** A name whose third field is exactly `YYYYMMDD` is read as that date, in any directory. */
  lemma ExampleFileName(dir: string)
    ensures SwavesFileToDate(dir + "/" + "EOVSA_TPall_20200626") == Ok(Date(2020, 6, 26))
  {
    SwavesFileToDateIgnoresDirectory(dir, "EOVSA_TPall_20200626");
    ExampleBaseName("EOVSA_TPall_20200626");
  }

  /** The same name with no directory, split into its three '_' fields. */
  lemma ExampleBaseName(name: string)
    requires name == "EOVSA_TPall_20200626"
    ensures SwavesFileToDate(name) == Ok(Date(2020, 6, 26))
  {
    assert "EOVSA" + "_" + "TPall" + "_" + "20200626" == name;
    SwavesFileToDateOfThreeFields("EOVSA", "TPall", "20200626");
    ExampleDateField("20200626");
  }

  lemma ExampleDateField(field: string)
    requires field == "20200626"
    ensures DateOfField(field) == Ok(Date(2020, 6, 26))
  {
    assert |field| == 8 && AllDigits(field);
    DateOfEightDigits(field);
    YearOfEightDigits(field);
    MonthOfEightDigits(field);
    DayOfEightDigits(field);
  }

  /**
   The file separator '\x1c' is not white space to `int()`, although
   `str.strip()` would drop it, so a date field holding it is rejected:
   `int("\x1c6")` fails.
   */
  lemma SeparatorInDateIsRejected(dir: string)
    ensures SwavesFileToDate(dir + "/" + "EOVSA_TPall_2020\U{1C}626") == Err(NotAnInteger("\U{1C}6"))
  {
    SwavesFileToDateIgnoresDirectory(dir, "EOVSA_TPall_2020\U{1C}626");
    SeparatorBaseNameIsRejected("EOVSA_TPall_2020\U{1C}626");
  }

  /** The same name with no directory, split into its three '_' fields. */
  lemma SeparatorBaseNameIsRejected(name: string)
    requires name == "EOVSA_TPall_2020\U{1C}626"
    ensures SwavesFileToDate(name) == Err(NotAnInteger("\U{1C}6"))
  {
    assert "EOVSA" + "_" + "TPall" + "_" + "2020\U{1C}626" == name;
    SwavesFileToDateOfThreeFields("EOVSA", "TPall", "2020\U{1C}626");
    DateOfFieldWithSeparator("2020\U{1C}626");
  }

  lemma DateOfFieldWithSeparator(field: string)
    requires field == "2020\U{1C}626"
    ensures DateOfField(field) == Err(NotAnInteger("\U{1C}6"))
  {
    var yearText, monthText := Slice(field, 0, 4), Slice(field, 4, 6);
    assert yearText == field[..4] && monthText == field[4..6];
    assert AllDigits(yearText);
    ParseIntOfDigits(yearText);
    assert monthText == "\U{1C}6";
    ParseIntOfStrayChar(monthText, 0);
  }

  // ===========================================================================
  // The axes `read` derives from the time, frequency and data tables
  // ===========================================================================

  const MS_PER_SECOND := 1000
  const SECONDS_PER_DAY := 86_400
  const MS_PER_DAY := 86_400_000

  /** One row of the time table: the `mjd` and `time` (milliseconds of day) columns. */
  datatype Sample = Sample(mjd: int, ms: int)

  /** An instant: a Modified Julian Day and the milliseconds since its midnight. */
  datatype Timestamp = Timestamp(day: int, ms: int)

  /** Milliseconds since midnight of MJD 0. */
  function Instant(day: int, ms: int): int {
    day * MS_PER_DAY + ms
  }

  /** A timestamp whose milliseconds lie within its day, as `datetime` holds one. */
  predicate IsNormal(t: Timestamp) {
    0 <= t.ms < MS_PER_DAY
  }

  /** `a <= b` on timestamps: earlier day, or the same day and no later in it. */
  predicate NotAfter(a: Timestamp, b: Timestamp) {
    a.day < b.day || (a.day == b.day && a.ms <= b.ms)
  }

  /**
   The instant of one sample, with the milliseconds carried into the day where
   they exceed it; `ToDatetime` adds the year range `.datetime` enforces.
   */
  function ToTimestamp(s: Sample): (t: Timestamp)
    ensures IsNormal(t)
    ensures Instant(t.day, t.ms) == Instant(s.mjd, s.ms)
  {
    Timestamp(s.mjd + s.ms / MS_PER_DAY, s.ms % MS_PER_DAY)
  }

  /** On normal timestamps the calendar order is the order of instants. */
  lemma NotAfterIsInstantOrder(a: Timestamp, b: Timestamp)
    requires IsNormal(a) && IsNormal(b)
    ensures NotAfter(a, b) <==> Instant(a.day, a.ms) <= Instant(b.day, b.ms)
  {
    if a.day < b.day {
      assert Instant(a.day, a.ms) < (a.day + 1) * MS_PER_DAY <= Instant(b.day, b.ms);
    } else if a.day > b.day {
      assert Instant(b.day, b.ms) < (b.day + 1) * MS_PER_DAY <= Instant(a.day, a.ms);
    }
  }

  /** A sample already within its day is kept as it is. */
  lemma ToTimestampOfNormalSample(s: Sample)
    requires 0 <= s.ms < MS_PER_DAY
    ensures ToTimestamp(s) == Timestamp(s.mjd, s.ms)
  {
    var t := ToTimestamp(s);
    NotAfterIsInstantOrder(t, Timestamp(s.mjd, s.ms));
    NotAfterIsInstantOrder(Timestamp(s.mjd, s.ms), t);
  }

  /**
   The days `datetime` can hold, as Modified Julian Days: 1 January of year 1
   and 31 December of year 9999 (`DatetimeRangeEnds`).
   */
  const MIN_DATETIME_MJD := -678_575
  const MAX_DATETIME_MJD := 2_973_483

  /** The day number of 17 November 1858, MJD 0, counting 1 January of year 1 as day 1. */
  const ORDINAL_OF_MJD_ZERO := 678_576

  /** Days from 1 January of year 1 to 1 January of `year`, in the proleptic Gregorian calendar. */
  function DaysBeforeYear(year: int): int
    requires year >= MIN_YEAR
  {
    var y := year - 1;
    365 * y + y / 4 - y / 100 + y / 400
  }

  /** Days from 1 January to the first of each month in a common year; the thirteenth entry is the whole year. */
  const DAYS_BEFORE_MONTH: seq<int> := [0, 31, 59, 90, 120, 151, 181, 212, 243, 273, 304, 334, 365]

  /**
   Days from 1 January of `year` to the first of `month`, and to the next
   1 January for month 13: the common-year table, plus the leap day once it has passed.
   */
  function DaysBeforeMonth(year: int, month: int): (days: int)
    requires 1 <= month <= 13
  {
    DAYS_BEFORE_MONTH[month - 1] + (if month > 2 && IsLeapYear(year) then 1 else 0)
  }

  /** The Modified Julian Day a date falls on. */
  function MjdOfDate(d: Date): int
    requires IsValidDate(d.year, d.month, d.day)
  {
    DaysBeforeYear(d.year) + DaysBeforeMonth(d.year, d.month) + d.day - ORDINAL_OF_MJD_ZERO
  }

  /** The table agrees with the month lengths: each month adds its own days. */
  lemma DaysBeforeMonthStep(year: int, month: int)
    requires 1 <= month <= 12
    ensures DaysBeforeMonth(year, month + 1) == DaysBeforeMonth(year, month) + DaysInMonth(year, month)
  {
  }

  /** One year on, the day count grows by the days of that year: 366 in a leap year, 365 otherwise. */
  lemma DaysBeforeNextYear(year: int)
    requires year >= MIN_YEAR
    ensures DaysBeforeYear(year + 1) == DaysBeforeYear(year) + DaysBeforeMonth(year, 13)
    ensures DaysBeforeMonth(year, 13) == if IsLeapYear(year) then 366 else 365
  {
    var y := year - 1;
    assert (y + 1) / 4 == y / 4 + (if year % 4 == 0 then 1 else 0);
    assert (y + 1) / 100 == y / 100 + (if year % 100 == 0 then 1 else 0);
    assert (y + 1) / 400 == y / 400 + (if year % 400 == 0 then 1 else 0);
  }

  lemma {:induction false} DaysBeforeYearMonotone(a: int, b: int)
    requires MIN_YEAR <= a <= b
    ensures DaysBeforeYear(a) <= DaysBeforeYear(b)
    decreases b - a
  {
    if a < b {
      DaysBeforeNextYear(a);
      DaysBeforeYearMonotone(a + 1, b);
    }
  }

  /** Every date `datetime` accepts falls on a day inside its range. */
  lemma DatesAreInDatetimeRange(d: Date)
    requires IsValidDate(d.year, d.month, d.day)
    ensures MIN_DATETIME_MJD <= MjdOfDate(d) <= MAX_DATETIME_MJD
  {
    DaysBeforeYearMonotone(MIN_YEAR, d.year);
    DaysBeforeMonthStep(d.year, d.month);
    assert DaysBeforeMonth(d.year, d.month + 1) <= DaysBeforeMonth(d.year, 13);
    DaysBeforeNextYear(d.year);
    DaysBeforeYearMonotone(d.year + 1, MAX_YEAR + 1);
    assert DaysBeforeYear(MAX_YEAR + 1) == MAX_DATETIME_MJD + ORDINAL_OF_MJD_ZERO;
  }

  /** The ends of the range are the first and last dates `datetime` accepts; MJD 0 is 17 November 1858. */
  lemma DatetimeRangeEnds()
    ensures MjdOfDate(Date(MIN_YEAR, 1, 1)) == MIN_DATETIME_MJD
    ensures MjdOfDate(Date(MAX_YEAR, 12, 31)) == MAX_DATETIME_MJD
    ensures MjdOfDate(Date(1858, 11, 17)) == 0
    ensures MjdOfDate(Date(2020, 6, 26)) == 59026
  {
  }

  /** An instant `datetime` can hold: its day lies in years 1 to 9999. */
  predicate InDatetimeRange(t: Timestamp) {
    MIN_DATETIME_MJD <= t.day <= MAX_DATETIME_MJD
  }

  /**
   `Time(mjd + sec / 86400., format='mjd').datetime` for one sample: the
   sample's instant, or ValueError when its day lies outside years 1 to 9999.
   */
  function ToDatetime(s: Sample): (r: Result<Timestamp>)
    ensures r.Ok? <==> InDatetimeRange(ToTimestamp(s))
    ensures r.Ok? ==> IsNormal(r.value) && Instant(r.value.day, r.value.ms) == Instant(s.mjd, s.ms)
    ensures r.Err? ==> r.error == TimeOutOfRange
  {
    var t := ToTimestamp(s);
    if InDatetimeRange(t) then Ok(t) else Err(TimeOutOfRange)
  }

  /** A sample on any day of a date `datetime` accepts is converted. */
  lemma DatedSampleIsConverted(s: Sample, d: Date)
    requires IsValidDate(d.year, d.month, d.day) && ToTimestamp(s).day == MjdOfDate(d)
    ensures ToDatetime(s).Ok?
  {
    DatesAreInDatetimeRange(d);
  }

  /**
   `(start - get_day(start)).seconds`: the whole seconds from midnight of the
   start's day to the start.
   */
  function DayOffset(start: Timestamp): (seconds: int)
    requires IsNormal(start)
    ensures 0 <= seconds < SECONDS_PER_DAY
    ensures seconds * MS_PER_SECOND <= start.ms < (seconds + 1) * MS_PER_SECOND
  {
    start.ms / MS_PER_SECOND
  }

  /** A start at 00:05:00 lies 300 seconds into its day. */
  lemma DayOffsetFiveMinutes(day: int)
    ensures DayOffset(Timestamp(day, 5 * 60 * MS_PER_SECOND)) == 300
  {
  }

  /** `ms - origin` for every sample of the table, in order. */
  function Offsets(table: seq<Sample>, origin: int): (axis: seq<int>)
    ensures |axis| == |table|
    ensures forall i :: 0 <= i < |table| ==> axis[i] == table[i].ms - origin
  {
    if table == [] then [] else [table[0].ms - origin] + Offsets(table[1..], origin)
  }

  /**
   `sec - sec[0]` in milliseconds: each sample's milliseconds of day minus the
   first sample's. The day column is not used.
   */
  function TimeAxis(table: seq<Sample>): (axis: seq<int>)
    requires |table| > 0
    ensures |axis| == |table| && axis[0] == 0
    ensures forall i :: 0 <= i < |table| ==> axis[i] == table[i].ms - table[0].ms
  {
    Offsets(table, table[0].ms)
  }

  predicate NonDecreasing(xs: seq<int>) {
    forall i :: 0 < i < |xs| ==> xs[i - 1] <= xs[i]
  }

  /** The milliseconds-of-day column never goes down. */
  predicate MsNonDecreasing(table: seq<Sample>) {
    forall i :: 0 < i < |table| ==> table[i - 1].ms <= table[i].ms
  }

  /** The samples denote instants that never go back in time. */
  predicate Chronological(table: seq<Sample>) {
    forall i :: 0 < i < |table| ==> Instant(table[i - 1].mjd, table[i - 1].ms) <= Instant(table[i].mjd, table[i].ms)
  }

  /** Samples ordered by (mjd, time), each within its day, are chronological. */
  lemma SampleOrderIsChronological(table: seq<Sample>)
    requires forall i :: 0 <= i < |table| ==> 0 <= table[i].ms < MS_PER_DAY
    requires forall i :: 0 < i < |table| ==> NotAfter(Timestamp(table[i - 1].mjd, table[i - 1].ms), Timestamp(table[i].mjd, table[i].ms))
    ensures Chronological(table)
  {
    forall i | 0 < i < |table|
      ensures Instant(table[i - 1].mjd, table[i - 1].ms) <= Instant(table[i].mjd, table[i].ms)
    {
      NotAfterIsInstantOrder(Timestamp(table[i - 1].mjd, table[i - 1].ms), Timestamp(table[i].mjd, table[i].ms));
    }
  }

  lemma {:induction false} FirstMsIsLeast(table: seq<Sample>, i: nat)
    requires MsNonDecreasing(table)
    requires i < |table|
    ensures table[0].ms <= table[i].ms
  {
    if i > 0 {
      FirstMsIsLeast(table, i - 1);
    }
  }

  lemma {:induction false} FirstInstantIsLeast(table: seq<Sample>, i: nat)
    requires Chronological(table)
    requires i < |table|
    ensures Instant(table[0].mjd, table[0].ms) <= Instant(table[i].mjd, table[i].ms)
  {
    if i > 0 {
      FirstInstantIsLeast(table, i - 1);
    }
  }

  /**
   When the milliseconds of day never go down (one day of samples), the time
   axis starts at 0, never goes down and is never negative.
   */
  lemma {:induction false} TimeAxisIsMonotone(table: seq<Sample>)
    requires |table| > 0 && MsNonDecreasing(table)
    ensures NonDecreasing(TimeAxis(table))
    ensures forall i :: 0 <= i < |table| ==> TimeAxis(table)[i] >= 0
  {
    forall i | 0 <= i < |table| ensures TimeAxis(table)[i] >= 0 {
      FirstMsIsLeast(table, i);
    }
  }

  /** For chronological samples, the first one is no later than the last. */
  lemma {:induction false} StartNotAfterEnd(table: seq<Sample>)
    requires |table| > 0 && Chronological(table)
    ensures NotAfter(ToTimestamp(table[0]), ToTimestamp(table[|table| - 1]))
  {
    FirstInstantIsLeast(table, |table| - 1);
    NotAfterIsInstantOrder(ToTimestamp(table[0]), ToTimestamp(table[|table| - 1]));
  }

  /**
   The time axis ignores the day column. For two samples on consecutive days,
   each within its day, the second comes later, and its offset is its distance
   from the first minus one whole day; so the offset is negative exactly when
   the two lie less than a day apart.
   */
  lemma ConsecutiveDaysOffset(first: Sample, second: Sample)
    requires 0 <= first.ms < MS_PER_DAY && 0 <= second.ms < MS_PER_DAY
    requires second.mjd == first.mjd + 1
    ensures Chronological([first, second])
    ensures TimeAxis([first, second])[1]
            == Instant(second.mjd, second.ms) - Instant(first.mjd, first.ms) - MS_PER_DAY
    ensures TimeAxis([first, second])[1] < 0
            <==> Instant(second.mjd, second.ms) - Instant(first.mjd, first.ms) < MS_PER_DAY
  {
  }

  /**
   A run that crosses midnight: one second before and one second after
   midnight, the sample after midnight gets a negative offset although it is
   later.
   */
  lemma MidnightCrossingGoesNegative()
    ensures var table := [Sample(59026, MS_PER_DAY - 1000), Sample(59027, 1000)];
            Chronological(table) && TimeAxis(table) == [0, 2000 - MS_PER_DAY]
  {
  }

  // ===========================================================================
  // The spectrogram object
  // ===========================================================================

  /** The fields of an `EOVSASpectrogram`. */
  datatype Spectrogram = Spectrogram(
    data: seq<seq<real>>,        // rows indexed by frequency, columns by time
    timeAxis: seq<int>,          // milliseconds since the first sample
    freqAxis: seq<real>,
    start: Timestamp,
    end: Timestamp,
    tInit: int,                  // seconds from midnight to start
    tDelt: real,
    tLabel: string,
    fLabel: string,
    content: string,
    instruments: set<string>)

  const T_DELT: real := 1.0
  const T_LABEL := "Time [UT]"
  const F_LABEL := "Frequency [GHz]"
  const INSTRUMENT := "EOVSA"

  /** `EOVSASpectrogram.__init__`: keeps every argument and tags the instrument. */
  function NewSpectrogram(data: seq<seq<real>>, timeAxis: seq<int>, freqAxis: seq<real>,
                          start: Timestamp, end: Timestamp, tInit: int, tDelt: real,
                          tLabel: string, fLabel: string, content: string): (s: Spectrogram)
    ensures s.instruments == {INSTRUMENT}
    ensures s.data == data && s.timeAxis == timeAxis && s.freqAxis == freqAxis
    ensures s.start == start && s.end == end && s.tInit == tInit && s.tDelt == tDelt
    ensures s.tLabel == tLabel && s.fLabel == fLabel && s.content == content
  {
    Spectrogram(data, timeAxis, freqAxis, start, end, tInit, tDelt, tLabel, fLabel, content, {INSTRUMENT})
  }

  /**
   A time table `read` can convert: not empty, and its first and last samples
   lie in years 1 to 9999.
   */
  predicate Readable(table: seq<Sample>) {
    && table != []
    && InDatetimeRange(ToTimestamp(table[0]))
    && InDatetimeRange(ToTimestamp(table[|table| - 1]))
  }

  /**
   The steps of `EOVSASpectrogram.read` after the file is opened: `data` is the
   primary array (rows by frequency), `sfreq` the frequency column and `table`
   the time table. `content` is the value the name has when the constructor
   call reaches it, `None` when nothing assigned it.
   */
  function ReadIn(data: seq<seq<real>>, sfreq: seq<real>, table: seq<Sample>, content: Option<string>): Result<Spectrogram> {
    if table == [] then Err(EmptyTimeTable)
    else
      match ToDatetime(table[0])
      case Err(e) => Err(e)
      case Ok(start) =>
        match ToDatetime(table[|table| - 1])
        case Err(e) => Err(e)
        case Ok(end) =>
          var timeAxis := TimeAxis(table);
          var tInit := DayOffset(start);
          var freqAxis := Reverse(sfreq);
          var rows := Reverse(data);
          match content
          case None => Err(UndefinedName("content"))
          case Some(c) => Ok(NewSpectrogram(rows, timeAxis, freqAxis, start, end, tInit, T_DELT, T_LABEL, F_LABEL, c))
  }

  /** `read` with `content` assigned: the corrected reader. */
  function Read(data: seq<seq<real>>, sfreq: seq<real>, table: seq<Sample>, content: string): (r: Result<Spectrogram>)
    ensures r.Ok? <==> Readable(table)
    ensures table == [] ==> r == Err(EmptyTimeTable)
    ensures table != [] && !Readable(table) ==> r == Err(TimeOutOfRange)
    ensures r.Ok? ==>
      var s := r.value;
      // elapsed-time axis
      && |s.timeAxis| == |table| && s.timeAxis[0] == 0
      && (forall i :: 0 <= i < |table| ==> s.timeAxis[i] == table[i].ms - table[0].ms)
      // start and end: the instants of the first and last samples
      && IsNormal(s.start) && Instant(s.start.day, s.start.ms) == Instant(table[0].mjd, table[0].ms)
      && IsNormal(s.end) && Instant(s.end.day, s.end.ms) == Instant(table[|table| - 1].mjd, table[|table| - 1].ms)
      // whole seconds of the start's day
      && 0 <= s.tInit < SECONDS_PER_DAY
      && s.tInit * MS_PER_SECOND <= s.start.ms < (s.tInit + 1) * MS_PER_SECOND
      // frequency axis and data rows, reversed together
      && |s.freqAxis| == |sfreq| && (forall i :: 0 <= i < |sfreq| ==> s.freqAxis[i] == sfreq[|sfreq| - 1 - i])
      && |s.data| == |data| && (forall i :: 0 <= i < |data| ==> s.data[i] == data[|data| - 1 - i])
      // fixed fields
      && s.tDelt == 1.0 && s.tLabel == "Time [UT]" && s.fLabel == "Frequency [GHz]"
      && s.content == content && s.instruments == {"EOVSA"}
  {
    ReadIn(data, sfreq, table, Some(content))
  }

  /**
   `read` exactly as written: the assignment of `content` is commented out, so
   the name is unbound when the constructor call reaches it, and every call that
   gets past the conversions of the start and the end raises NameError.
   */
  function ReadAsWritten(data: seq<seq<real>>, sfreq: seq<real>, table: seq<Sample>): (r: Result<Spectrogram>)
    ensures r.Err?
    ensures table == [] ==> r.error == EmptyTimeTable
    ensures table != [] && !Readable(table) ==> r.error == TimeOutOfRange
    ensures Readable(table) ==> r.error == UndefinedName("content")
  {
    ReadIn(data, sfreq, table, None)
  }

  /**
   The two readers differ exactly where the corrected one succeeds: there the
   as-written one raises NameError; everywhere else both raise the same error.
   */
  lemma ReadAsWrittenNeverSucceeds(data: seq<seq<real>>, sfreq: seq<real>, table: seq<Sample>, content: string)
    ensures Read(data, sfreq, table, content).Ok? ==> ReadAsWritten(data, sfreq, table) == Err(UndefinedName("content"))
    ensures Read(data, sfreq, table, content).Err? ==> ReadAsWritten(data, sfreq, table) == Read(data, sfreq, table, content)
  {
  }

  /** The shape invariants of a spectrogram: one frequency per row, one time per column. */
  predicate Aligned(s: Spectrogram) {
    && |s.freqAxis| == |s.data|
    && forall i :: 0 <= i < |s.data| ==> |s.data[i]| == |s.timeAxis|
  }

  /** The inputs have the shape of a spectrogram: one frequency per row, one sample per column. */
  predicate InputsAligned(data: seq<seq<real>>, sfreq: seq<real>, table: seq<Sample>) {
    && |sfreq| == |data|
    && forall i :: 0 <= i < |data| ==> |data[i]| == |table|
  }

  /** `read` produces an aligned spectrogram exactly when its inputs are aligned; it checks nothing itself. */
  lemma {:induction false} ReadAligned(data: seq<seq<real>>, sfreq: seq<real>, table: seq<Sample>, content: string)
    requires Readable(table)
    ensures Aligned(Read(data, sfreq, table, content).value) <==> InputsAligned(data, sfreq, table)
  {
    var s := Read(data, sfreq, table, content).value;
    if Aligned(s) {
      forall i | 0 <= i < |data| ensures |data[i]| == |table| {
        assert data[i] == s.data[|data| - 1 - i];
      }
    }
    if InputsAligned(data, sfreq, table) {
      forall i | 0 <= i < |s.data| ensures |s.data[i]| == |s.timeAxis| {
        assert s.data[i] == data[|data| - 1 - i];
      }
    }
  }

  /**
   Time ordering carries over: chronological samples give start <= end, and
   milliseconds that never go down give a non-decreasing, non-negative axis.
   */
  lemma ReadOrdered(data: seq<seq<real>>, sfreq: seq<real>, table: seq<Sample>, content: string)
    requires Readable(table)
    ensures Chronological(table) ==> NotAfter(Read(data, sfreq, table, content).value.start, Read(data, sfreq, table, content).value.end)
    ensures MsNonDecreasing(table) ==> NonDecreasing(Read(data, sfreq, table, content).value.timeAxis)
    ensures MsNonDecreasing(table) ==> forall i :: 0 <= i < |table| ==> Read(data, sfreq, table, content).value.timeAxis[i] >= 0
  {
    if Chronological(table) {
      StartNotAfterEnd(table);
    }
    if MsNonDecreasing(table) {
      TimeAxisIsMonotone(table);
    }
  }

  /** Each frequency paired with its data row, in order. */
  function Pairs(freq: seq<real>, data: seq<seq<real>>): (p: seq<(real, seq<real>)>)
    requires |freq| == |data|
    ensures |p| == |freq|
    ensures forall i :: 0 <= i < |p| ==> p[i] == (freq[i], data[i])
  {
    seq(|freq|, i requires 0 <= i < |freq| => (freq[i], data[i]))
  }

  /**
   Reversing the frequency axis and the rows together keeps every (frequency,
   row) pair: the pairs of the result are the input's pairs in reverse order,
   hence the same multiset of pairs.
   */
  lemma ReadKeepsPairs(data: seq<seq<real>>, sfreq: seq<real>, table: seq<Sample>, content: string)
    requires Readable(table) && |sfreq| == |data|
    ensures var s := Read(data, sfreq, table, content).value;
            Pairs(s.freqAxis, s.data) == Reverse(Pairs(sfreq, data))
            && multiset(Pairs(s.freqAxis, s.data)) == multiset(Pairs(sfreq, data))
  {
    ReverseMultiset(Pairs(sfreq, data));
  }

  /** Reversing the result's axis and rows once more gives back the file's order. */
  lemma ReadReversalUndone(data: seq<seq<real>>, sfreq: seq<real>, table: seq<Sample>, content: string)
    requires Readable(table)
    ensures Reverse(Read(data, sfreq, table, content).value.freqAxis) == sfreq
    ensures Reverse(Read(data, sfreq, table, content).value.data) == data
  {
    ReverseReverse(sfreq);
    ReverseReverse(data);
  }

  /** The reversal is unconditional, so it is not idempotent: applied twice it undoes itself. */
  lemma ReversalIsNotIdempotent()
    ensures Reverse(Reverse([14.0, 18.0])) != Reverse([14.0, 18.0])
  {
    ReverseReverse([14.0, 18.0]);
    assert Reverse([14.0, 18.0])[0] == 18.0;
  }

  /**
   Five channels listed 18 down to 14 GHz and ten samples one second apart from
   00:00:10: the axis becomes 14 up to 18, the rows follow, the time axis steps
   by 1000 ms and the start lies 10 seconds into its day.
   */
  lemma FiveChannelsTenSeconds(rows: seq<seq<real>>, day: int, content: string)
    requires |rows| == 5 && MIN_DATETIME_MJD <= day <= MAX_DATETIME_MJD
    ensures var table := seq(10, i requires 0 <= i < 10 => Sample(day, 10_000 + 1000 * i));
            var r := Read(rows, [18.0, 17.0, 16.0, 15.0, 14.0], table, content);
            && r.Ok?
            && r.value.freqAxis == [14.0, 15.0, 16.0, 17.0, 18.0]
            && r.value.data == [rows[4], rows[3], rows[2], rows[1], rows[0]]
            && r.value.timeAxis == [0, 1000, 2000, 3000, 4000, 5000, 6000, 7000, 8000, 9000]
            && r.value.start == Timestamp(day, 10_000)
            && r.value.tInit == 10
  {
    var table := seq(10, i requires 0 <= i < 10 => Sample(day, 10_000 + 1000 * i));
    ToTimestampOfNormalSample(table[0]);
  }
}
