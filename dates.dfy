/**
  Calendar dates and instants as the scraper uses them: `parse_date` (which tries
  `datetime.strptime` with "%d/%m/%Y" and then "%d %B %Y"), the proleptic Gregorian
  calendar that rejects impossible dates, ordinal day numbers, and "now minus n days".
 */
module Dates {
  import opened Wrappers
  import opened Text

  /** A calendar day. `strptime` returns it as a datetime at midnight. */
  datatype Date = Date(day: int, month: int, year: int)

  /** Python's `datetime.MINYEAR` and `datetime.MAXYEAR`. */
  const MinYear := 1
  const MaxYear := 9999

  predicate IsLeapYear(y: int)
  {
    y % 4 == 0 && (y % 100 != 0 || y % 400 == 0)
  }

  function YearLength(y: int): int
  {
    if IsLeapYear(y) then 366 else 365
  }

  function DaysInMonth(m: int, y: int): (n: int)
    requires 1 <= m <= 12
    ensures 28 <= n <= 31
    ensures n == 29 <==> m == 2 && IsLeapYear(y)
  {
    if m == 2 then (if IsLeapYear(y) then 29 else 28)
    else if m == 4 || m == 6 || m == 9 || m == 11 then 30
    else 31
  }

  /** The dates a `datetime` can hold. */
  predicate ValidDate(d: Date)
  {
    && MinYear <= d.year <= MaxYear
    && 1 <= d.month <= 12
    && 1 <= d.day <= DaysInMonth(d.month, d.year)
  }

  /** Calendar order: by year, then month, then day. */
  predicate DateLt(a: Date, b: Date)
  {
    || a.year < b.year
    || (a.year == b.year && a.month < b.month)
    || (a.year == b.year && a.month == b.month && a.day < b.day)
  }

  predicate DateLe(a: Date, b: Date)
  {
    a == b || DateLt(a, b)
  }

  // ---------------------------------------------------------------------------
  // Ordinal day numbers
  // ---------------------------------------------------------------------------

  /** Days in the years before year `y`, counting from year 1. */
  function DaysBeforeYear(y: int): nat
    requires y >= 1
    decreases y
  {
    if y == 1 then 0 else DaysBeforeYear(y - 1) + YearLength(y - 1)
  }

  /** Days in the months of year `y` before month `m`; `m == 13` gives the whole year. */
  function DaysBeforeMonth(m: int, y: int): nat
    requires 1 <= m <= 13
    decreases m
  {
    if m == 1 then 0 else DaysBeforeMonth(m - 1, y) + DaysInMonth(m - 1, y)
  }

  /** Python's `date.toordinal()`: 1 January of year 1 is day 1. */
  function DayNumber(d: Date): int
    requires ValidDate(d)
  {
    DaysBeforeYear(d.year) + DaysBeforeMonth(d.month, d.year) + d.day
  }

  /** The twelve months add up to the length of the year. */
  lemma WholeYear(y: int)
    ensures DaysBeforeMonth(13, y) == YearLength(y)
  {
    assert DaysBeforeMonth(2, y) == 31;
    assert DaysBeforeMonth(3, y) == 31 + DaysInMonth(2, y);
    assert DaysBeforeMonth(4, y) == 62 + DaysInMonth(2, y);
    assert DaysBeforeMonth(5, y) == 92 + DaysInMonth(2, y);
    assert DaysBeforeMonth(6, y) == 123 + DaysInMonth(2, y);
    assert DaysBeforeMonth(7, y) == 153 + DaysInMonth(2, y);
    assert DaysBeforeMonth(8, y) == 184 + DaysInMonth(2, y);
    assert DaysBeforeMonth(9, y) == 215 + DaysInMonth(2, y);
    assert DaysBeforeMonth(10, y) == 245 + DaysInMonth(2, y);
    assert DaysBeforeMonth(11, y) == 276 + DaysInMonth(2, y);
    assert DaysBeforeMonth(12, y) == 306 + DaysInMonth(2, y);
  }

  /** A later month starts after every day of an earlier one. */
  lemma {:induction false} MonthsIncrease(m1: int, m2: int, y: int)
    requires 1 <= m1 < m2 <= 13
    ensures DaysBeforeMonth(m1, y) + DaysInMonth(m1, y) <= DaysBeforeMonth(m2, y)
    decreases m2
  {
    if m2 > m1 + 1 {
      MonthsIncrease(m1, m2 - 1, y);
    }
  }

  /** A later year starts after every day of an earlier one. */
  lemma {:induction false} YearsIncrease(y1: int, y2: int)
    requires 1 <= y1 < y2
    ensures DaysBeforeYear(y1) + YearLength(y1) <= DaysBeforeYear(y2)
    decreases y2
  {
    if y2 > y1 + 1 {
      YearsIncrease(y1, y2 - 1);
    }
  }

  /** Every day of year `d.year` lies within that year's span of day numbers. */
  lemma DayWithinYear(d: Date)
    requires ValidDate(d)
    ensures DaysBeforeMonth(d.month, d.year) + d.day <= YearLength(d.year)
  {
    WholeYear(d.year);
    if d.month < 12 {
      MonthsIncrease(d.month, 13, d.year);
    }
  }

  lemma EarlierDateSmallerNumber(a: Date, b: Date)
    requires ValidDate(a) && ValidDate(b) && DateLt(a, b)
    ensures DayNumber(a) < DayNumber(b)
  {
    if a.year < b.year {
      DayWithinYear(a);
      YearsIncrease(a.year, b.year);
    } else if a.month < b.month {
      MonthsIncrease(a.month, b.month, a.year);
    }
  }

  /** Calendar order and day-number order agree, so day numbers identify dates. */
  lemma DayNumberOrder(a: Date, b: Date)
    requires ValidDate(a) && ValidDate(b)
    ensures DateLt(a, b) <==> DayNumber(a) < DayNumber(b)
    ensures DateLe(a, b) <==> DayNumber(a) <= DayNumber(b)
    ensures a == b <==> DayNumber(a) == DayNumber(b)
  {
    if DateLt(a, b) {
      EarlierDateSmallerNumber(a, b);
    } else if DateLt(b, a) {
      EarlierDateSmallerNumber(b, a);
    }
  }

  /** The day before `d`, as `d - timedelta(days=1)`; there is none before day 1. */
  function PrevDay(d: Date): (r: Date)
    requires ValidDate(d) && DayNumber(d) > 1
    ensures ValidDate(r) && DayNumber(r) == DayNumber(d) - 1
  {
    if d.day > 1 then
      EarlierInMonth(d);
      Date(d.day - 1, d.month, d.year)
    else if d.month > 1 then
      EndOfPreviousMonth(d);
      Date(DaysInMonth(d.month - 1, d.year), d.month - 1, d.year)
    else
      AfterFirstYear(d);
      EndOfPreviousYear(d.year);
      Date(31, 12, d.year - 1)
  }

  /** Day 1 is 1 January of the first year, so any later 1 January is in a later year. */
  lemma AfterFirstYear(d: Date)
    requires ValidDate(d) && DayNumber(d) > 1 && d.day == 1 && d.month == 1
    ensures d.year > MinYear && DayNumber(d) == DaysBeforeYear(d.year) + 1
  {
    assert DaysBeforeMonth(1, d.year) == 0;
    assert DaysBeforeYear(MinYear) == 0;
  }

  lemma EarlierInMonth(d: Date)
    requires ValidDate(d) && d.day > 1
    ensures var e := Date(d.day - 1, d.month, d.year);
      ValidDate(e) && DayNumber(e) == DayNumber(d) - 1
  {
  }

  /** The last day of the previous month is the day before the 1st of a month. */
  lemma EndOfPreviousMonth(d: Date)
    requires ValidDate(d) && d.day == 1 && d.month > 1
    ensures var e := Date(DaysInMonth(d.month - 1, d.year), d.month - 1, d.year);
      ValidDate(e) && DayNumber(e) == DayNumber(d) - 1
  {
    var m, y := d.month, d.year;
    var n := DaysInMonth(m - 1, y);
    assert DaysBeforeMonth(m, y) == DaysBeforeMonth(m - 1, y) + n;
    assert ValidDate(Date(n, m - 1, y));
  }

  /** 31 December of the previous year is the day before 1 January, which exists for
      every year after the first. */
  lemma EndOfPreviousYear(y: int)
    requires MinYear < y <= MaxYear
    ensures ValidDate(Date(31, 12, y - 1))
    ensures DayNumber(Date(31, 12, y - 1)) == DaysBeforeYear(y)
  {
    WholeYear(y - 1);
    assert DaysInMonth(12, y - 1) == 31;
  }

  /** `d - timedelta(days=n)`. Python raises OverflowError below year 1, hence the requires. */
  function MinusDays(d: Date, n: nat): (r: Date)
    requires ValidDate(d) && DayNumber(d) > n
    ensures ValidDate(r) && DayNumber(r) == DayNumber(d) - n
    decreases n
  {
    if n == 0 then d else MinusDays(PrevDay(d), n - 1)
  }

  // ---------------------------------------------------------------------------
  // Instants
  // ---------------------------------------------------------------------------

  const MicrosPerDay := 86_400_000_000

  /** A UTC instant: a date and the microseconds elapsed since its midnight. Its ISO-8601
      text (`isoformat()`) orders exactly as `DateTimeLe` does. */
  datatype DateTime = DateTime(date: Date, micros: int)

  predicate ValidDateTime(t: DateTime)
  {
    ValidDate(t.date) && 0 <= t.micros < MicrosPerDay
  }

  predicate DateTimeLe(a: DateTime, b: DateTime)
  {
    DateLt(a.date, b.date) || (a.date == b.date && a.micros <= b.micros)
  }

  /** `t - timedelta(days=n)`: same time of day, `n` calendar days earlier. */
  function MinusDaysAt(t: DateTime, n: nat): (r: DateTime)
    requires ValidDateTime(t) && DayNumber(t.date) > n
    ensures ValidDateTime(r) && r.micros == t.micros
    ensures DayNumber(r.date) == DayNumber(t.date) - n
  {
    DateTime(MinusDays(t.date, n), t.micros)
  }

  /** An instant is never later than itself after any backward shift. */
  lemma MinusDaysAtNotLater(t: DateTime, n: nat)
    requires ValidDateTime(t) && DayNumber(t.date) > n
    ensures DateTimeLe(MinusDaysAt(t, n), t)
  {
    DayNumberOrder(MinusDaysAt(t, n).date, t.date);
  }

  // ---------------------------------------------------------------------------
  // parse_date
  // ---------------------------------------------------------------------------

  predicate AllDigits(t: string)
  {
    forall k :: 0 <= k < |t| ==> IsDigit(t[k])
  }

  /** `%d` of `strptime`, the whole token: `3[01]|[12]\d|0[1-9]|[1-9]`. */
  predicate DayToken(t: string)
  {
    || (|t| == 1 && '1' <= t[0] <= '9')
    || (|t| == 2 && t[0] == '3' && (t[1] == '0' || t[1] == '1'))
    || (|t| == 2 && (t[0] == '1' || t[0] == '2') && IsDigit(t[1]))
    || (|t| == 2 && t[0] == '0' && '1' <= t[1] <= '9')
  }

  /** `%m` of `strptime`, the whole token: `1[0-2]|0[1-9]|[1-9]`. */
  predicate MonthToken(t: string)
  {
    || (|t| == 1 && '1' <= t[0] <= '9')
    || (|t| == 2 && t[0] == '1' && '0' <= t[1] <= '2')
    || (|t| == 2 && t[0] == '0' && '1' <= t[1] <= '9')
  }

  /** `%Y` of `strptime`: exactly four digits. */
  predicate YearToken(t: string)
  {
    |t| == 4 && AllDigits(t)
  }

  /** The number a one- or two-digit token spells. */
  function SmallValue(t: string): (v: nat)
    requires 1 <= |t| <= 2 && AllDigits(t)
    ensures v < 100
  {
    if |t| == 1 then DigitValue(t[0]) else 10 * DigitValue(t[0]) + DigitValue(t[1])
  }

  function YearValue(t: string): (v: nat)
    requires YearToken(t)
    ensures v <= 9999
  {
    ((DigitValue(t[0]) * 10 + DigitValue(t[1])) * 10 + DigitValue(t[2])) * 10 + DigitValue(t[3])
  }

  lemma DayTokenRange(t: string)
    requires DayToken(t)
    ensures AllDigits(t) && 1 <= SmallValue(t) <= 31
  {
  }

  lemma MonthTokenRange(t: string)
    requires MonthToken(t)
    ensures AllDigits(t) && 1 <= SmallValue(t) <= 12
  {
  }

  /** Full English month names, as `%d %B %Y` and `strftime("%B")` spell them. */
  const MonthNames: seq<string> := ["January", "February", "March", "April", "May", "June", "July",
    "August", "September", "October", "November", "December"]

  /** The same names lower-cased: `strptime` compares the lower-cased token against these. */
  const LowerMonthNames: seq<string> := ["january", "february", "march", "april", "may", "june", "july",
    "august", "september", "october", "november", "december"]

  /** The first index from `k` on whose lower-cased month name is `lower`. */
  function MonthSearch(lower: string, k: nat): (r: Option<nat>)
    requires k <= 12
    ensures r.Some? ==> k <= r.value < 12 && lower == LowerMonthNames[r.value]
    ensures r.None? ==> forall i :: k <= i < 12 ==> lower != LowerMonthNames[i]
    decreases 12 - k
  {
    if k == 12 then None
    else if lower == LowerMonthNames[k] then Some(k)
    else MonthSearch(lower, k + 1)
  }

  /** `%B` of `strptime`: a full month name in any letter case, and the month's number.
      Folding only ASCII letters is exact here: no other character folds onto a letter of
      an English month name and back. */
  function MonthOfName(t: string): (r: Option<int>)
    ensures r.Some? ==> 1 <= r.value <= 12 && LowerAscii(t) == LowerMonthNames[r.value - 1]
    ensures r.None? ==> forall i :: 0 <= i < 12 ==> LowerAscii(t) != LowerMonthNames[i]
  {
    match MonthSearch(LowerAscii(t), 0)
    case None => None
    case Some(i) => Some(i + 1)
  }

  /** The date `(d, m, y)` if the calendar has it; `datetime` raises ValueError otherwise. */
  function MakeDate(d: int, m: int, y: int): (r: Option<Date>)
    ensures r.Some? <==> ValidDate(Date(d, m, y))
    ensures r.Some? ==> r.value == Date(d, m, y)
  {
    if ValidDate(Date(d, m, y)) then Some(Date(d, m, y)) else None
  }

  /** `strptime(s, "%d/%m/%Y")`. */
  function ParseSlashForm(s: string): (r: Option<Date>)
    ensures r.Some? ==> ValidDate(r.value)
  {
    var parts := Split(s, "/");
    if |parts| == 3 && DayToken(parts[0]) && MonthToken(parts[1]) && YearToken(parts[2]) then
      MakeDate(SmallValue(parts[0]), SmallValue(parts[1]), YearValue(parts[2]))
    else None
  }

  /** The position of the first whitespace character of `s`. */
  function FirstSpace(s: string): (r: Option<nat>)
    ensures r.Some? ==> r.value < |s| && IsSpace(s[r.value]) && NoSpace(s[..r.value])
    ensures r.None? ==> NoSpace(s)
  {
    if s == [] then None
    else if IsSpace(s[0]) then Some(0)
    else match FirstSpace(s[1..])
      case None => None
      case Some(i) =>
        assert s[..i + 1] == [s[0]] + s[1..][..i];
        Some(i + 1)
  }

  /** The date three name-form tokens spell, if each has its field's shape. */
  function NameFormTokens(dayTok: string, monthTok: string, yearTok: string): (r: Option<Date>)
    ensures r.Some? ==> ValidDate(r.value)
  {
    if DayToken(dayTok) && YearToken(yearTok) then
      DayTokenRange(dayTok);
      match MonthOfName(monthTok)
      case None => None
      case Some(m) => MakeDate(SmallValue(dayTok), m, YearValue(yearTok))
    else None
  }

  /** `strptime(s, "%d %B %Y")`, whose blanks match `\s+`: a day token up to the first
      whitespace, a month name up to the next, then exactly four digits. */
  function ParseNameForm(s: string): (r: Option<Date>)
    ensures r.Some? ==> ValidDate(r.value)
  {
    match FirstSpace(s)
    case None => None
    case Some(i) =>
      var rest := TrimStart(s[i..]);
      match FirstSpace(rest)
      case None => None
      case Some(j) =>
        NameFormTokens(s[..i], rest[..j], TrimStart(rest[j..]))
  }

  /** `parse_date`: strip the text, then try "%d/%m/%Y" and then "%d %B %Y"; a text in
      neither format, or naming a day the calendar lacks, gives None. */
  function ParseDate(text: string): (r: Option<Date>)
    ensures r.Some? ==> ValidDate(r.value)
  {
    var s := Strip(text);
    var slash := ParseSlashForm(s);
    if slash.Some? then slash else ParseNameForm(s)
  }

  /** Day, month and year tokens of "%d/%m/%Y" that name the valid date `d`. */
  predicate SlashFields(dd: string, mm: string, yy: string, d: Date)
  {
    && DayToken(dd) && MonthToken(mm) && YearToken(yy)
    && d == Date(SmallValue(dd), SmallValue(mm), YearValue(yy))
    && ValidDate(d)
  }

  /** The texts "%d/%m/%Y" accepts: a day token, a slash, a month token, a slash and a
      four-digit year, naming a day the calendar has. */
  ghost predicate SlashSpelling(s: string, d: Date)
  {
    exists dd, mm, yy :: s == dd + "/" + mm + "/" + yy && SlashFields(dd, mm, yy, d)
  }

  /** Day, month-name and year tokens of "%d %B %Y" that name the valid date `d`; the
      month name may be in any letter case. */
  predicate NameFields(dd: string, name: string, yy: string, d: Date)
  {
    && DayToken(dd) && MonthOfName(name) == Some(d.month) && YearToken(yy)
    && d.day == SmallValue(dd) && d.year == YearValue(yy)
    && ValidDate(d)
  }

  /** The texts "%d %B %Y" accepts: the three tokens with a run of whitespace between
      each two, naming a day the calendar has. */
  ghost predicate NameSpelling(s: string, d: Date)
  {
    exists dd, w1, name, w2, yy ::
      s == dd + w1 + name + w2 + yy && SpaceRun(w1) && SpaceRun(w2) && NameFields(dd, name, yy, d)
  }

  // ---------------------------------------------------------------------------
  // Formatting, and what parse_date makes of formatted dates
  // ---------------------------------------------------------------------------

  /** Two zero-padded digits, as `strftime` writes `%d` and `%m`. */
  function Pad2(n: int): (t: string)
    requires 0 <= n < 100
    ensures |t| == 2 && AllDigits(t) && SmallValue(t) == n
  {
    [DigitChar(n / 10), DigitChar(n % 10)]
  }

  /** Four zero-padded digits, as `%Y`. */
  function Pad4(n: int): (t: string)
    requires 0 <= n <= 9999
    ensures YearToken(t) && YearValue(t) == n
  {
    var q1 := n / 10;
    var q2 := q1 / 10;
    var q3 := q2 / 10;
    assert n == 10 * q1 + n % 10 && q1 == 10 * q2 + q1 % 10 && q2 == 10 * q3 + q2 % 10;
    [DigitChar(q3), DigitChar(q2 % 10), DigitChar(q1 % 10), DigitChar(n % 10)]
  }

  /** `strftime("%d/%m/%Y")`, also defined for impossible day-month-year triples. */
  function FormatSlash(d: Date): string
    requires 1 <= d.day <= 31 && 1 <= d.month <= 12 && 0 <= d.year <= 9999
  {
    Pad2(d.day) + "/" + Pad2(d.month) + "/" + Pad4(d.year)
  }

  /** `strftime("%d %B %Y")`. */
  function FormatLong(d: Date): string
    requires ValidDate(d)
  {
    Pad2(d.day) + " " + MonthNames[d.month - 1] + " " + Pad4(d.year)
  }

  lemma Pad2Tokens(n: int)
    requires 1 <= n <= 31
    ensures DayToken(Pad2(n))
    ensures n <= 12 ==> MonthToken(Pad2(n))
  {
  }

  lemma StripUnchanged(s: string)
    requires s == [] || (!IsSpace(s[0]) && !IsSpace(s[|s| - 1]))
    ensures Strip(s) == s
  {
  }

  /** Leading whitespace in front of a non-blank start is all `lstrip` removes. */
  lemma TrimStartBlank(c: char, r: string)
    requires IsSpace(c) && r != [] && !IsSpace(r[0])
    ensures TrimStart([c] + r) == r
  {
    assert ([c] + r)[1..] == r;
  }

  lemma FirstSpaceAt(a: string, b: string)
    requires NoSpace(a) && b != [] && IsSpace(b[0])
    ensures FirstSpace(a + b) == Some(|a|)
  {
    assert (a + b)[|a|] == b[0];
    assert forall k :: 0 <= k < |a| ==> (a + b)[k] == a[k];
  }

  lemma NoSpaceConcat(a: string, b: string)
    requires NoSpace(a) && NoSpace(b)
    ensures NoSpace(a + b)
  {
    assert forall k :: 0 <= k < |a + b| ==> (a + b)[k] == if k < |a| then a[k] else b[k - |a|];
  }

  lemma DigitsNoSpace(t: string)
    requires AllDigits(t)
    ensures NoSpace(t) && forall k :: 0 <= k < |t| ==> t[k] != '/'
  {
  }

  lemma MonthNameFacts(i: nat)
    requires i < 12
    ensures LowerAscii(MonthNames[i]) == LowerMonthNames[i]
    ensures MonthNames[i] != [] && NoSpace(MonthNames[i])
    ensures forall k :: 0 <= k < |MonthNames[i]| ==> MonthNames[i][k] != '/'
  {
    MonthNameLower(i);
    MonthNameLetters(i);
  }

  lemma MonthNameLower(i: nat)
    requires i < 12
    ensures LowerAscii(MonthNames[i]) == LowerMonthNames[i]
  {
  }

  /** Month names are made of ASCII letters only. */
  lemma MonthNameLetters(i: nat)
    requires i < 12
    ensures MonthNames[i] != []
    ensures forall k :: 0 <= k < |MonthNames[i]| ==>
      ('A' <= MonthNames[i][k] <= 'Z') || ('a' <= MonthNames[i][k] <= 'z')
  {
  }

  lemma LowerMonthNamesDistinct(i: nat, j: nat)
    requires i < 12 && j < 12 && i != j
    ensures LowerMonthNames[i] != LowerMonthNames[j]
  {
  }

  /** Every month's name, in the case `strftime` writes it, is recognised as that month. */
  lemma MonthOfNameRoundTrip(m: int)
    requires 1 <= m <= 12
    ensures MonthOfName(MonthNames[m - 1]) == Some(m)
  {
    MonthNameFacts(m - 1);
    var r := MonthSearch(LowerMonthNames[m - 1], 0);
    if r.Some? && r.value != m - 1 {
      LowerMonthNamesDistinct(r.value, m - 1);
    }
  }

  /** On text without surrounding whitespace, `parse_date` is the two attempts in order. */
  lemma ParseDateStripped(s: string)
    requires s == [] || (!IsSpace(s[0]) && !IsSpace(s[|s| - 1]))
    ensures ParseDate(s) == if ParseSlashForm(s).Some? then ParseSlashForm(s) else ParseNameForm(s)
  {
    StripUnchanged(s);
  }

  lemma SlashFormTokens(dd: string, mm: string, yy: string)
    requires DayToken(dd) && MonthToken(mm) && YearToken(yy)
    ensures ParseSlashForm(dd + "/" + mm + "/" + yy)
         == MakeDate(SmallValue(dd), SmallValue(mm), YearValue(yy))
  {
    DayTokenRange(dd);
    MonthTokenRange(mm);
    DigitsNoSpace(dd);
    DigitsNoSpace(mm);
    DigitsNoSpace(yy);
    assert dd + "/" + mm + "/" + yy == dd + "/" + (mm + "/" + yy);
    SplitCons(dd, "/", mm + "/" + yy);
    SplitCons(mm, "/", yy);
    SplitNone(yy, "/");
  }

  lemma SlashFormWithoutSlash(s: string)
    requires forall k :: 0 <= k < |s| ==> s[k] != '/'
    ensures ParseSlashForm(s) == None
  {
    SplitNone(s, "/");
  }

  lemma NameFormWithoutSpace(s: string)
    requires NoSpace(s)
    ensures ParseNameForm(s) == None
  {
  }

  /** `lstrip` removes a whole whitespace run in front of a non-blank start. */
  lemma {:induction false} TrimStartRun(w: string, b: string)
    requires SpaceRun(w) && b != [] && !IsSpace(b[0])
    ensures TrimStart(w + b) == b
  {
    if |w| == 1 {
      TrimStartBlank(w[0], b);
    } else {
      assert (w + b)[1..] == w[1..] + b;
      TrimStartRun(w[1..], b);
    }
  }

  /** One whitespace step of the name form: the token before the first blank, and the
      text after that blank run. */
  lemma NameFormStep(a: string, w: string, b: string)
    requires NoSpace(a) && SpaceRun(w) && b != [] && !IsSpace(b[0])
    ensures FirstSpace(a + w + b) == Some(|a|)
    ensures (a + w + b)[..|a|] == a
    ensures TrimStart((a + w + b)[|a|..]) == b
  {
    var s := a + w + b;
    assert s == a + (w + b);
    FirstSpaceAt(a, w + b);
    assert s[|a|..] == w + b;
    TrimStartRun(w, b);
  }

  lemma NameFormUnfold(s: string, i: nat, rest: string, j: nat)
    requires FirstSpace(s) == Some(i) && TrimStart(s[i..]) == rest && FirstSpace(rest) == Some(j)
    ensures ParseNameForm(s) == NameFormTokens(s[..i], rest[..j], TrimStart(rest[j..]))
  {
  }

  lemma NameFormParts(dd: string, w1: string, name: string, w2: string, yy: string)
    requires NoSpace(dd) && SpaceRun(w1) && SpaceRun(w2)
    requires name != [] && NoSpace(name) && yy != [] && NoSpace(yy)
    ensures ParseNameForm(dd + w1 + name + w2 + yy) == NameFormTokens(dd, name, yy)
  {
    var rest := name + w2 + yy;
    var s := dd + w1 + name + w2 + yy;
    assert s == dd + w1 + rest;
    assert FirstSpace(s) == Some(|dd|) && s[..|dd|] == dd && TrimStart(s[|dd|..]) == rest by {
      NameFormStep(dd, w1, rest);
    }
    assert FirstSpace(rest) == Some(|name|) && rest[..|name|] == name && TrimStart(rest[|name|..]) == yy by {
      NameFormStep(name, w2, yy);
    }
    NameFormUnfold(s, |dd|, rest, |name|);
  }

  /** Round trip through "%d/%m/%Y": a formatted valid date parses back to itself, and a
      formatted impossible date (31/02, 29/02 in a common year, year 0) parses to None. */
  lemma ParseFormatSlash(d: Date)
    requires 1 <= d.day <= 31 && 1 <= d.month <= 12 && 0 <= d.year <= 9999
    ensures ParseDate(FormatSlash(d)) == (if ValidDate(d) then Some(d) else None)
  {
    var dd, mm, yy := Pad2(d.day), Pad2(d.month), Pad4(d.year);
    var s := FormatSlash(d);
    Pad2Tokens(d.day);
    Pad2Tokens(d.month);
    SlashFormTokens(dd, mm, yy);
    DigitsNoSpace(dd);
    DigitsNoSpace(mm);
    DigitsNoSpace(yy);
    ParseDateStripped(s);
    NoSpaceConcat(dd, "/");
    NoSpaceConcat(dd + "/", mm);
    NoSpaceConcat(dd + "/" + mm, "/");
    NoSpaceConcat(dd + "/" + mm + "/", yy);
    NameFormWithoutSpace(s);
  }

  /** Round trip through "%d %B %Y": a valid date written with its month's name parses
      back to itself, so both accepted formats denote the same day. */
  lemma ParseFormatLong(d: Date)
    requires ValidDate(d)
    ensures ParseDate(FormatLong(d)) == Some(d)
  {
    var dd, name, yy := Pad2(d.day), MonthNames[d.month - 1], Pad4(d.year);
    Pad2Tokens(d.day);
    DayTokenRange(dd);
    MonthOfNameRoundTrip(d.month);
    LongFormName(dd, name, yy, d);
    LongFormSlash(dd, name, yy);
    LongFormEdges(dd, name, yy);
    ParseDateStripped(dd + " " + name + " " + yy);
  }

  lemma LongFormName(dd: string, name: string, yy: string, d: Date)
    requires NameFields(dd, name, yy, d)
    ensures ParseNameForm(dd + " " + name + " " + yy) == Some(d)
  {
    assert SpaceRun(" ");
    NameSpellingParses(dd, " ", name, " ", yy, d);
  }

  lemma LongFormSlash(dd: string, name: string, yy: string)
    requires AllDigits(dd) && MonthOfName(name).Some? && AllDigits(yy)
    ensures ParseSlashForm(dd + " " + name + " " + yy) == None
  {
    assert SpaceRun(" ");
    NameSpellingSlashFree(dd, " ", name, " ", yy);
  }

  lemma LongFormEdges(dd: string, name: string, yy: string)
    requires |dd| == 2 && AllDigits(dd) && YearToken(yy)
    ensures var s := dd + " " + name + " " + yy;
      s != [] && !IsSpace(s[0]) && !IsSpace(s[|s| - 1])
  {
    var s := dd + " " + name + " " + yy;
    assert s[0] == dd[0] && s[|s| - 1] == yy[3];
  }

  /** Surrounding whitespace never changes what `parse_date` returns. */
  lemma ParseDateIgnoresPadding(text: string)
    ensures ParseDate(text) == ParseDate(Strip(text))
  {
    var s := Strip(text);
    StripUnchanged(s);
    assert Strip(s) == s;
  }

  // ---------------------------------------------------------------------------
  // Which texts parse_date accepts
  // ---------------------------------------------------------------------------

  predicate NoSlash(s: string)
  {
    forall k :: 0 <= k < |s| ==> s[k] != '/'
  }

  lemma NoSlashConcat(a: string, b: string)
    requires NoSlash(a) && NoSlash(b)
    ensures NoSlash(a + b)
  {
    assert forall k :: 0 <= k < |a + b| ==> (a + b)[k] == if k < |a| then a[k] else b[k - |a|];
  }

  lemma LowerMonthNameLetters(i: nat)
    requires i < 12
    ensures forall k :: 0 <= k < |LowerMonthNames[i]| ==> 'a' <= LowerMonthNames[i][k] <= 'z'
  {
  }

  /** A token `%B` accepts is a non-empty run of letters: no whitespace, no slash. */
  lemma MonthTokenShape(name: string)
    requires MonthOfName(name).Some?
    ensures name != [] && NoSpace(name) && NoSlash(name)
  {
    var i := MonthOfName(name).value - 1;
    LowerMonthNameLetters(i);
    forall k | 0 <= k < |name|
      ensures !IsSpace(name[k]) && name[k] != '/'
    {
      assert LowerAscii(name)[k] == LowerChar(name[k]);
    }
  }

  lemma ConcatAssoc(a: string, b: string, c: string)
    ensures a + (b + c) == a + b + c
  {
  }

  /** The whitespace at position `i` of `s` begins a non-empty run that `lstrip` of
      `s[i..]` removes. */
  lemma SpaceRunAt(s: string, i: nat, rest: string) returns (w: string)
    requires i < |s| && IsSpace(s[i]) && rest == TrimStart(s[i..])
    ensures s == s[..i] + w + rest && SpaceRun(w)
  {
    w := LeadingRun(s[i..]);
    assert s == s[..i] + s[i..];
    ConcatAssoc(s[..i], w, rest);
  }

  /** The run of whitespace `lstrip` removes from a text that starts with whitespace. */
  lemma LeadingRun(t: string) returns (w: string)
    requires t != [] && IsSpace(t[0])
    ensures t == w + TrimStart(t) && SpaceRun(w)
  {
    var rest := TrimStart(t);
    var n := |t| - |rest|;
    assert rest != [] ==> rest[0] == t[n];
    w := t[..n];
  }

  /** What "%d/%m/%Y" found when it accepted a text: three slash-separated tokens. */
  lemma SlashFormAccepted(s: string) returns (dd: string, mm: string, yy: string)
    requires ParseSlashForm(s).Some?
    ensures s == dd + "/" + mm + "/" + yy && SlashFields(dd, mm, yy, ParseSlashForm(s).value)
  {
    var parts := Split(s, "/");
    JoinThree(parts, "/");
    dd, mm, yy := parts[0], parts[1], parts[2];
  }

  lemma JoinThree(parts: seq<string>, sep: string)
    requires |parts| == 3
    ensures Join(parts, sep) == parts[0] + sep + parts[1] + sep + parts[2]
  {
    assert parts[1..][1..] == [parts[2]];
    assert Join(parts[1..], sep) == parts[1] + sep + parts[2];
    ConcatAssoc(parts[0] + sep, parts[1] + sep, parts[2]);
    ConcatAssoc(parts[0] + sep, parts[1], sep);
  }

  /** "%d/%m/%Y" accepts exactly the slash spellings. */
  lemma SlashFormSpellings(s: string, d: Date)
    ensures ParseSlashForm(s) == Some(d) <==> SlashSpelling(s, d)
  {
    if ParseSlashForm(s) == Some(d) {
      var dd, mm, yy := SlashFormAccepted(s);
      assert SlashFields(dd, mm, yy, d);
    }
    if SlashSpelling(s, d) {
      var dd, mm, yy :| s == dd + "/" + mm + "/" + yy && SlashFields(dd, mm, yy, d);
      SlashFormTokens(dd, mm, yy);
    }
  }

  /** What "%d %B %Y" found when it accepted a text: three tokens between two
      whitespace runs. */
  lemma NameFormAccepted(s: string) returns (dd: string, w1: string, name: string, w2: string, yy: string)
    requires ParseNameForm(s).Some?
    ensures s == dd + w1 + name + w2 + yy && SpaceRun(w1) && SpaceRun(w2)
    ensures NameFields(dd, name, yy, ParseNameForm(s).value)
  {
    var i := FirstSpace(s).value;
    var rest := TrimStart(s[i..]);
    var j := FirstSpace(rest).value;
    yy := TrimStart(rest[j..]);
    dd, name := s[..i], rest[..j];
    w1 := SpaceRunAt(s, i, rest);
    w2 := SpaceRunAt(rest, j, yy);
    assert s == dd + w1 + (name + w2 + yy);
    ConcatAssoc(dd + w1, name + w2, yy);
    ConcatAssoc(dd + w1, name, w2);
    NameFormUnfold(s, i, rest, j);
    NameFormTokensFields(dd, name, yy);
  }

  lemma NameFormTokensFields(dd: string, name: string, yy: string)
    requires NameFormTokens(dd, name, yy).Some?
    ensures NameFields(dd, name, yy, NameFormTokens(dd, name, yy).value)
  {
  }

  /** "%d %B %Y" accepts exactly the name spellings. */
  lemma NameFormSpellings(s: string, d: Date)
    ensures ParseNameForm(s) == Some(d) <==> NameSpelling(s, d)
  {
    if ParseNameForm(s) == Some(d) {
      var dd, w1, name, w2, yy := NameFormAccepted(s);
      assert NameFields(dd, name, yy, d);
    }
    if NameSpelling(s, d) {
      var dd, w1, name, w2, yy :|
        s == dd + w1 + name + w2 + yy && SpaceRun(w1) && SpaceRun(w2) && NameFields(dd, name, yy, d);
      NameSpellingParses(dd, w1, name, w2, yy, d);
    }
  }

  lemma NameSpellingParses(dd: string, w1: string, name: string, w2: string, yy: string, d: Date)
    requires SpaceRun(w1) && SpaceRun(w2) && NameFields(dd, name, yy, d)
    ensures ParseNameForm(dd + w1 + name + w2 + yy) == Some(d)
  {
    assert NameFormTokens(dd, name, yy) == Some(d);
    DayTokenRange(dd);
    DigitsNoSpace(dd);
    DigitsNoSpace(yy);
    MonthTokenShape(name);
    NameFormParts(dd, w1, name, w2, yy);
  }

  lemma NameSpellingSlashFree(dd: string, w1: string, name: string, w2: string, yy: string)
    requires AllDigits(dd) && SpaceRun(w1) && MonthOfName(name).Some?
    requires SpaceRun(w2) && AllDigits(yy)
    ensures ParseSlashForm(dd + w1 + name + w2 + yy) == None
  {
    DigitsNoSpace(dd);
    DigitsNoSpace(yy);
    MonthTokenShape(name);
    assert NoSlash(w1) && NoSlash(w2);
    NoSlashConcat(dd, w1);
    NoSlashConcat(dd + w1, name);
    NoSlashConcat(dd + w1 + name, w2);
    NoSlashConcat(dd + w1 + name + w2, yy);
    SlashFormWithoutSlash(dd + w1 + name + w2 + yy);
  }

  /** A name spelling has no slash, so "%d/%m/%Y" never accepts it. */
  lemma NameSpellingNoSlash(s: string, d: Date)
    requires NameSpelling(s, d)
    ensures ParseSlashForm(s) == None
  {
    var dd, w1, name, w2, yy :|
      s == dd + w1 + name + w2 + yy && SpaceRun(w1) && SpaceRun(w2) && NameFields(dd, name, yy, d);
    DayTokenRange(dd);
    NameSpellingSlashFree(dd, w1, name, w2, yy);
  }

  /** `parse_date` gives a date exactly when the stripped text spells it in one of the
      two formats: "%d/%m/%Y", or "%d %B %Y" with any whitespace runs between fields and
      the month name in any letter case. */
  lemma ParseDateSpellings(text: string, d: Date)
    ensures ParseDate(text) == Some(d) <==> SlashSpelling(Strip(text), d) || NameSpelling(Strip(text), d)
  {
    var s := Strip(text);
    SlashFormSpellings(s, d);
    NameFormSpellings(s, d);
    if NameSpelling(s, d) {
      NameSpellingNoSlash(s, d);
    }
  }
}
