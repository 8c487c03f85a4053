/** The two date formats VTOP's forms take, and the day number read back from one. A text is
  * its UTF-8 bytes, one character a byte, so lengths are byte lengths. */
module DateText {
  import opened Options
  import opened Text
  import opened Calendar

  const U32_MAX := 0xFFFF_FFFF
  const I64_MAX := 0x7FFF_FFFF_FFFF_FFFF
  const MONTHS := ["Jan", "Feb", "Mar", "Apr", "May", "Jun", "Jul", "Aug", "Sep", "Oct", "Nov", "Dec"]

  datatype Parsed = Ok(text: string) | Invalid

  function Position(names: seq<string>, name: string): (at: Option<nat>)
    ensures at.Some? ==> at.value < |names| && names[at.value] == name && name !in names[..at.value]
    ensures at.None? ==> name !in names
  {
    if names == [] then None
    else if names[0] == name then Some(0)
    else match Position(names[1..], name)
      case Some(i) => Some(i + 1)
      case None => None
  }

  /** The numbers of a `DD/MM/YYYY` text, before the calendar check. */
  function BiometricFields(raw: string): Option<Date> {
    var parts := Split(raw, c => c == '/');
    if |parts| != 3 || |parts[0]| != 2 || |parts[1]| != 2 || |parts[2]| != 4 then None
    else
      match (ParseUnsigned(parts[0], U32_MAX), ParseUnsigned(parts[1], U32_MAX), ParseUnsigned(parts[2], U32_MAX))
      case (Some(day), Some(month), Some(year)) => Some(Date(year, month, day))
      case _ => None
  }

  function BiometricParse(raw: string): Parsed {
    match BiometricFields(raw)
    case Some(date) => if Real(date) then Ok(raw) else Invalid
    case None => Invalid
  }

  function OutingParse(raw: string): Parsed {
    var parts := Split(raw, c => c == '-');
    if |parts| != 3 then Invalid
    else
      match Position(MONTHS, parts[1])
      case None => Invalid
      case Some(index) =>
        if BiometricParse(parts[0] + "/" + Padded(index + 1, 2) + "/" + parts[2]).Ok? then Ok(raw) else Invalid
  }

  /** `day_number` as written: a part that does not read falls back to a default. */
  function OutingDayNumber(text: string): int {
    var parts := Split(text, c => c == '-');
    var day := match ParseSigned(parts[0], I64_MAX) case Some(d) => d case None => 1;
    var month := if |parts| < 2 then 1
      else match Position(MONTHS, parts[1]) case Some(index) => index + 1 case None => 1;
    var year := if |parts| < 3 then 1970
      else match ParseSigned(parts[2], I64_MAX) case Some(y) => y case None => 1970;
    DayNumber(Date(year, month, day))
  }

  /** `today_ddmmyyyy` for a number of whole days since the epoch. */
  function Today(days: nat): string
  {
    CivilAfterEpoch(days);
    var date := CivilFromDays(days);
    Padded(date.day, 2) + "/" + Padded(date.month, 2) + "/" + Padded(date.year, 4)
  }

  lemma CivilAfterEpoch(days: nat)
    ensures Real(CivilFromDays(days)) && 1970 <= CivilFromDays(days).year && 1 <= CivilFromDays(days).month <= 12
  {
    KnownFirstDays();
    YearBefore(days, 1970);
    DaysToDateAndBack(days);
  }

  // ---- the outing date ----

  /** The date an outing text names when every part reads: no default anywhere. */
  function OutingReading(text: string): Option<Date> {
    var parts := Split(text, c => c == '-');
    if |parts| != 3 then None
    else
      match (ParseSigned(parts[0], I64_MAX), Position(MONTHS, parts[1]), ParseSigned(parts[2], I64_MAX))
      case (Some(day), Some(index), Some(year)) => Some(Date(year, index + 1, day))
      case _ => None
  }

  /** The text of a number holds no slash. */
  lemma NumberHasNoSlash(s: string)
    ensures ParseUnsigned(s, U32_MAX).Some? ==> '/' !in s
    ensures ParseSigned(s, I64_MAX).Some? ==> '/' !in s
  {
  }

  /** Short texts without a minus read the same as `u32` and as `i64`. */
  lemma SameShortNumber(s: string)
    requires |s| <= 4 && '-' !in s
    ensures ParseUnsigned(s, U32_MAX).Some? <==> ParseSigned(s, I64_MAX).Some?
    ensures ParseUnsigned(s, U32_MAX).Some? ==>
              ParseUnsigned(s, U32_MAX).value == ParseSigned(s, I64_MAX).value < 10_000
  {
    var digits := if |s| > 1 && s[0] == '+' then s[1..] else s;
    if AllDigits(digits) {
      ValueBelowPower(digits);
      assert Power10(4) == 10_000 && Power10(3) == 1_000 && Power10(2) == 100;
    }
  }

  /** The text the outing parser hands to the calendar check, split again. */
  lemma SlashText(day: string, month: string, year: string)
    requires '/' !in month
    ensures var parts := Split(day + "/" + month + "/" + year, c => c == '/');
            && (|parts| == 3 <==> '/' !in day && '/' !in year)
            && (|parts| == 3 ==> parts == [day, month, year])
  {
    SlashCount(day, month, year);
    if '/' !in day && '/' !in year {
      SplitOfJoin([day, month, year], '/');
      JoinOfThree(day, month, year);
    }
  }

  lemma JoinOfThree(a: string, b: string, c: string)
    ensures Join([a, b, c], "/") == a + "/" + b + "/" + c
  {
    assert Join([b, c], "/") == b + "/" + c by {
      assert [b, c][1..] == [c];
    }
    assert Join([a, b, c], "/") == a + "/" + Join([b, c], "/") by {
      assert [a, b, c][1..] == [b, c];
    }
    assert a + "/" + (b + "/" + c) == a + "/" + b + "/" + c;
  }

  lemma SlashCount(a: string, b: string, c: string)
    ensures |Split(a + "/" + b + "/" + c, x => x == '/')| == Count(a, '/') + Count(b, '/') + Count(c, '/') + 3
  {
    SplitCount(a + "/" + b + "/" + c, '/');
    CountAround(a + "/" + b, c);
    CountAround(a, b);
  }

  lemma CountAround(a: string, b: string)
    ensures Count(a + "/" + b, '/') == Count(a, '/') + 1 + Count(b, '/')
  {
    CountJoined(a + "/", b, '/');
    CountJoined(a, "/", '/');
    assert Count("/", '/') == 1;
  }

  function Count(s: string, c: char): (n: nat)
    ensures n == 0 <==> c !in s
  {
    if s == [] then 0 else (if s[0] == c then 1 else 0) + Count(s[1..], c)
  }

  lemma {:induction false} CountJoined(a: string, b: string, c: char)
    ensures Count(a + b, c) == Count(a, c) + Count(b, c)
  {
    if a == [] {
      assert a + b == b;
    } else {
      CountJoined(a[1..], b, c);
      assert (a + b)[1..] == a[1..] + b;
    }
  }

  lemma {:induction false} SplitCount(s: string, sep: char)
    ensures |Split(s, c => c == sep)| == Count(s, sep) + 1
  {
    if s != [] {
      SplitCount(s[1..], sep);
    }
  }

  lemma TwoDigitMonth(month: nat)
    requires month < 100
    ensures |Padded(month, 2)| == 2 && ParseUnsigned(Padded(month, 2), U32_MAX) == Some(month)
    ensures '/' !in Padded(month, 2)
  {
    assert Power10(2) == 100;
    PaddedLength(month, 2);
    ValueOfPadded(month, 2);
  }

  /** What the calendar check says of the text the outing parser makes. */
  lemma CheckOfParts(day: string, month: nat, year: string)
    requires 1 <= month <= 12
    ensures BiometricParse(day + "/" + Padded(month, 2) + "/" + year).Ok? <==>
              && |day| == 2 && |year| == 4
              && ParseUnsigned(day, U32_MAX).Some? && ParseUnsigned(year, U32_MAX).Some?
              && Real(Date(ParseUnsigned(year, U32_MAX).value, month, ParseUnsigned(day, U32_MAX).value))
  {
    TwoDigitMonth(month);
    SlashText(day, Padded(month, 2), year);
    NumberHasNoSlash(day);
    NumberHasNoSlash(year);
  }

  /** Of the parts of a text with a month, the check made and the numbers read back agree. */
  lemma PartsAgree(day: string, month: nat, year: string)
    requires '-' !in day && '-' !in year && 1 <= month <= 12
    ensures BiometricParse(day + "/" + Padded(month, 2) + "/" + year).Ok? <==>
              && ParseSigned(day, I64_MAX).Some? && ParseSigned(year, I64_MAX).Some? && |day| == 2 && |year| == 4
              && Real(Date(ParseSigned(year, I64_MAX).value, month, ParseSigned(day, I64_MAX).value))
    ensures |year| == 4 && ParseSigned(year, I64_MAX).Some? ==> 0 <= ParseSigned(year, I64_MAX).value < 10_000
  {
    CheckOfParts(day, month, year);
    if |year| == 4 {
      SameShortNumber(year);
      if |day| == 2 {
        SameShortNumber(day);
      }
    }
  }

  lemma KnownMonth(raw: string, index: nat)
    requires var parts := Split(raw, c => c == '-');
             |parts| == 3 && Position(MONTHS, parts[1]) == Some(index)
    ensures var parts := Split(raw, c => c == '-');
            OutingParse(raw).Ok? <==>
              OutingReading(raw).Some? && |parts[0]| == 2 && |parts[2]| == 4 && Real(OutingReading(raw).value)
    ensures OutingParse(raw).Ok? ==> OutingParse(raw).text == raw && 0 <= OutingReading(raw).value.year < 10_000
  {
    var parts := Split(raw, c => c == '-');
    PiecesHaveNoSeparator(raw, c => c == '-');
    assert parts[0] in parts && parts[2] in parts;
    PartsAgree(parts[0], index + 1, parts[2]);
  }

  /** The outing parser accepts exactly the texts whose parts all read as numbers of a real
    * date, in two and four bytes. */
  lemma OutingParseAccepts(raw: string)
    ensures var parts := Split(raw, c => c == '-');
            OutingParse(raw).Ok? <==>
              OutingReading(raw).Some? && |parts[0]| == 2 && |parts[2]| == 4 && Real(OutingReading(raw).value)
    ensures OutingParse(raw).Ok? ==> OutingParse(raw).text == raw && 0 <= OutingReading(raw).value.year < 10_000
  {
    var parts := Split(raw, c => c == '-');
    if |parts| == 3 {
      var index := Position(MONTHS, parts[1]);
      if index.Some? {
        KnownMonth(raw, index.value);
      }
    }
  }

  /** The day number of a parsed outing date is its date's number: no default is reached. */
  lemma ParsedDayNumber(raw: string)
    requires OutingParse(raw).Ok?
    ensures OutingReading(raw).Some? && Real(OutingReading(raw).value)
    ensures OutingDayNumber(raw) == DayNumber(OutingReading(raw).value)
    ensures CivilFromDays(OutingDayNumber(raw)) == OutingReading(raw).value
  {
    OutingParseAccepts(raw);
    DateToDaysAndBack(OutingReading(raw).value);
  }

  // ---- today's date ----

  const YEAR_10000 := 2_932_897

  lemma YearHasFourDigits(days: nat)
    ensures CivilFromDays(days).year < 10_000 <==> days < YEAR_10000
  {
    KnownFirstDays();
    YearBefore(days, 10_000);
  }

  lemma FieldsOfPieces(day: string, month: string, year: string)
    requires |day| == 2 && |month| == 2 && '/' !in day && '/' !in month && '/' !in year
    requires ParseUnsigned(day, U32_MAX).Some? && ParseUnsigned(month, U32_MAX).Some?
    ensures var fields := BiometricFields(day + "/" + month + "/" + year);
            && (fields.Some? <==> |year| == 4 && ParseUnsigned(year, U32_MAX).Some?)
            && (fields.Some? ==>
                  fields.value == Date(ParseUnsigned(year, U32_MAX).value, ParseUnsigned(month, U32_MAX).value,
                                       ParseUnsigned(day, U32_MAX).value))
  {
    SlashText(day, month, year);
  }

  lemma YearText(year: nat)
    ensures '/' !in Padded(year, 4)
    ensures |Padded(year, 4)| == 4 <==> year < 10_000
    ensures year < 10_000 ==> ParseUnsigned(Padded(year, 4), U32_MAX) == Some(year)
  {
    assert Power10(4) == 10_000;
    PaddedLength(year, 4);
    ValueOfPadded(year, 4);
  }

  /** A date's own text reads back as that date while its year has four digits. */
  lemma PrintedDateReads(date: Date)
    requires Real(date) && 0 <= date.year
    ensures var text := Padded(date.day, 2) + "/" + Padded(date.month, 2) + "/" + Padded(date.year, 4);
            && (BiometricParse(text).Ok? <==> date.year < 10_000)
            && (date.year < 10_000 ==> BiometricFields(text) == Some(date))
  {
    TwoDigitMonth(date.month);
    TwoDigitMonth(date.day);
    YearText(date.year);
    FieldsOfPieces(Padded(date.day, 2), Padded(date.month, 2), Padded(date.year, 4));
  }

  /** Today's text is a date the parser takes, and names that day, until the year 10000. */
  lemma TodayParses(days: nat)
    ensures BiometricParse(Today(days)).Ok? <==> days < YEAR_10000
    ensures days < YEAR_10000 ==>
              BiometricFields(Today(days)).Some? && DayNumber(BiometricFields(Today(days)).value) == days
  {
    CivilAfterEpoch(days);
    YearHasFourDigits(days);
    DaysToDateAndBack(days);
    PrintedDateReads(CivilFromDays(days));
  }
}
