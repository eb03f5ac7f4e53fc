/**
 * lounasvahti/utils.py: Finnish (DD.MM.YYYY) and ISO (YYYY-MM-DD) date
 * strings, Finnish weekday names, the workdays of this and next week, and
 * comment sanitising. `date.today()` is replaced by a `today` parameter and
 * `html.unescape` by an `unescape` parameter.
 */
module Utils {
  import opened Wrappers
  import opened Text
  import opened Calendar

  /** The exceptions these functions raise. */
  datatype Error = ValueError(message: string) | OverflowError

  const FINNISH_DATE_ERROR := "Invalid date format. Expected format: DD.MM.YYYY"
  const ISO_DATE_ERROR := "Invalid date format. Expected format: YYYY-MM-DD"

  /** Finnish weekday names, Monday first, as `date.weekday()` numbers them. */
  const WEEKDAYS: seq<string> := ["maanantai", "tiistai", "keskiviikko", "torstai", "perjantai", "lauantai", "sunnuntai"]

  // ---------------------------------------------------------------------
  // Formatting: strftime("%Y-%m-%d"), date.isoformat() and DD.MM.YYYY
  // ---------------------------------------------------------------------

  /** `%02d`. */
  function Pad2(n: int): (t: string)
    requires 0 <= n < 100
    ensures |t| == 2 && IsAsciiDigit(t[0]) && IsAsciiDigit(t[1])
  {
    [DigitChar(n / 10), DigitChar(n % 10)]
  }

  /** `%04d`. */
  function Pad4(n: int): (t: string)
    requires 0 <= n < 10000
    ensures |t| == 4 && forall k :: 0 <= k < 4 ==> IsAsciiDigit(t[k])
  {
    Pad2(n / 100) + Pad2(n % 100)
  }

  /** `d.strftime("%Y-%m-%d")`, the same string as `d.isoformat()`. */
  function IsoFormat(d: Date): (s: string)
    requires Valid(d)
    ensures |s| == 10 && s[4] == '-' && s[7] == '-'
  {
    Pad4(d.year) + "-" + Pad2(d.month) + "-" + Pad2(d.day)
  }

  /** `d.strftime("%d.%m.%Y")`. */
  function FinnishFormat(d: Date): (s: string)
    requires Valid(d)
    ensures |s| == 10 && s[2] == '.' && s[5] == '.'
  {
    Pad2(d.day) + "." + Pad2(d.month) + "." + Pad4(d.year)
  }

  // ---------------------------------------------------------------------
  // Parsing: datetime.strptime with "%d.%m.%Y" and "%Y-%m-%d"
  // ---------------------------------------------------------------------

  /** The text `%d` accepts: CPython's `3[01]|[12]\d|0[1-9]|[1-9]| [1-9]`. */
  function DayField(t: string): Option<int> {
    if |t| == 1 && '1' <= t[0] <= '9' then Some(DigitValue(t[0]))
    else if |t| == 2 && t[0] == ' ' && '1' <= t[1] <= '9' then Some(DigitValue(t[1]))
    else if |t| == 2 && IsAsciiDigit(t[0]) && IsAsciiDigit(t[1])
            && 1 <= 10 * DigitValue(t[0]) + DigitValue(t[1]) <= 31
    then Some(10 * DigitValue(t[0]) + DigitValue(t[1]))
    else None
  }

  /** The text `%m` accepts: CPython's `1[0-2]|0[1-9]|[1-9]`. */
  function MonthField(t: string): Option<int> {
    if |t| == 1 && '1' <= t[0] <= '9' then Some(DigitValue(t[0]))
    else if |t| == 2 && IsAsciiDigit(t[0]) && IsAsciiDigit(t[1])
            && 1 <= 10 * DigitValue(t[0]) + DigitValue(t[1]) <= 12
    then Some(10 * DigitValue(t[0]) + DigitValue(t[1]))
    else None
  }

  /** The text `%Y` accepts: CPython's `\d\d\d\d`. */
  function YearField(t: string): Option<int> {
    if |t| == 4 && IsAsciiDigit(t[0]) && IsAsciiDigit(t[1]) && IsAsciiDigit(t[2]) && IsAsciiDigit(t[3])
    then Some(1000 * DigitValue(t[0]) + 100 * DigitValue(t[1]) + 10 * DigitValue(t[2]) + DigitValue(t[3]))
    else None
  }

  /**
   * The three texts around the first two occurrences of `sep`. None of the
   * field patterns above matches a separator, so this is where strptime's
   * regular expression has to split the input.
   */
  function SplitThree(s: string, sep: char): Option<(string, string, string)> {
    match IndexOf(s, sep)
    case None => None
    case Some(i) =>
      match IndexOf(s[i + 1..], sep)
      case None => None
      case Some(k) => Some((s[..i], s[i + 1..i + 1 + k], s[i + 2 + k..]))
  }

  /** The date the three parsed fields name, when `datetime` accepts it. */
  function MakeDate(year: Option<int>, month: Option<int>, day: Option<int>): (r: Option<Date>)
    ensures r.Some? ==> Valid(r.value)
  {
    if year.Some? && month.Some? && day.Some? && Valid(Date(year.value, month.value, day.value))
    then Some(Date(year.value, month.value, day.value))
    else None
  }

  /** `datetime.strptime(s, "%d.%m.%Y")`, with `None` for a ValueError. */
  function ParseFinnish(s: string): (r: Option<Date>)
    ensures r.Some? ==> Valid(r.value)
  {
    match SplitThree(s, '.')
    case None => None
    case Some((d, m, y)) => MakeDate(YearField(y), MonthField(m), DayField(d))
  }

  /** `datetime.strptime(s, "%Y-%m-%d")`, with `None` for a ValueError. */
  function ParseIso(s: string): (r: Option<Date>)
    ensures r.Some? ==> Valid(r.value)
  {
    match SplitThree(s, '-')
    case None => None
    case Some((y, m, d)) => MakeDate(YearField(y), MonthField(m), DayField(d))
  }

  /** `finnish_date_to_iso`. */
  function FinnishDateToIso(s: string): (r: Result<string, Error>)
    ensures r.Err? ==> r.error == ValueError(FINNISH_DATE_ERROR)
    ensures r.Ok? ==> |r.value| == 10 && r.value[4] == '-' && r.value[7] == '-'
  {
    match ParseFinnish(s)
    case Some(d) => Ok(IsoFormat(d))
    case None => Err(ValueError(FINNISH_DATE_ERROR))
  }

  /** `get_weekday_in_finnish`. */
  function WeekdayInFinnish(iso: string): (r: Result<string, Error>)
    ensures r.Err? ==> r.error == ValueError(ISO_DATE_ERROR)
    ensures r.Ok? ==> r.value in WEEKDAYS
  {
    match ParseIso(iso)
    case Some(d) => Ok(WEEKDAYS[Weekday(d)])
    case None => Err(ValueError(ISO_DATE_ERROR))
  }

  // ---------------------------------------------------------------------
  // The accepted spellings, stated independently of the parser
  // ---------------------------------------------------------------------

  /** The ways `%d` may write day `d`: two digits, or for 1 to 9 one digit or a space and a digit. */
  function DaySpellings(d: int): set<string>
    requires 1 <= d <= 31
  {
    {Pad2(d)} + (if d <= 9 then {[DigitChar(d)], [' ', DigitChar(d)]} else {})
  }

  /** The ways `%m` may write month `m`: two digits, or for 1 to 9 one digit. */
  function MonthSpellings(m: int): set<string>
    requires 1 <= m <= 12
  {
    {Pad2(m)} + (if m <= 9 then {[DigitChar(m)]} else {})
  }

  /** `s` writes date `d` as day, dot, month, dot, four-digit year. */
  ghost predicate SpellsFinnish(s: string, d: Date)
    requires Valid(d)
  {
    exists a, b :: a in DaySpellings(d.day) && b in MonthSpellings(d.month) && s == a + "." + b + "." + Pad4(d.year)
  }

  /** `s` writes date `d` as four-digit year, dash, month, dash, day. */
  ghost predicate SpellsIso(s: string, d: Date)
    requires Valid(d)
  {
    exists b, a :: b in MonthSpellings(d.month) && a in DaySpellings(d.day) && s == Pad4(d.year) + "-" + b + "-" + a
  }

  lemma DigitRoundTrip(c: char)
    requires IsAsciiDigit(c)
    ensures DigitChar(DigitValue(c)) == c
  {
  }

  lemma TwoDigits(t: string)
    requires |t| == 2 && IsAsciiDigit(t[0]) && IsAsciiDigit(t[1])
    ensures var v := 10 * DigitValue(t[0]) + DigitValue(t[1]); 0 <= v < 100 && Pad2(v) == t
  {
    var a, b := DigitValue(t[0]), DigitValue(t[1]);
    assert (10 * a + b) / 10 == a && (10 * a + b) % 10 == b;
    DigitRoundTrip(t[0]);
    DigitRoundTrip(t[1]);
  }

  lemma Pad2Digits(n: int)
    requires 0 <= n < 100
    ensures 10 * DigitValue(Pad2(n)[0]) + DigitValue(Pad2(n)[1]) == n
  {
  }

  lemma DayFieldSpellings(t: string)
    ensures DayField(t).Some? ==> 1 <= DayField(t).value <= 31 && t in DaySpellings(DayField(t).value)
    ensures forall d :: 1 <= d <= 31 && t in DaySpellings(d) ==> DayField(t) == Some(d)
  {
    if |t| == 1 && IsAsciiDigit(t[0]) {
      DigitRoundTrip(t[0]);
      assert t == [t[0]];
    }
    if |t| == 2 && t[0] == ' ' && IsAsciiDigit(t[1]) {
      DigitRoundTrip(t[1]);
      assert t == [' ', t[1]];
    }
    if |t| == 2 && IsAsciiDigit(t[0]) && IsAsciiDigit(t[1]) { TwoDigits(t); }
    forall d | 1 <= d <= 31 && t == Pad2(d) ensures DayField(t) == Some(d) {
      Pad2Digits(d);
    }
  }

  lemma MonthFieldSpellings(t: string)
    ensures MonthField(t).Some? ==> 1 <= MonthField(t).value <= 12 && t in MonthSpellings(MonthField(t).value)
    ensures forall m :: 1 <= m <= 12 && t in MonthSpellings(m) ==> MonthField(t) == Some(m)
  {
    if |t| == 1 && IsAsciiDigit(t[0]) {
      DigitRoundTrip(t[0]);
      assert t == [t[0]];
    }
    if |t| == 2 && IsAsciiDigit(t[0]) && IsAsciiDigit(t[1]) { TwoDigits(t); }
    forall m | 1 <= m <= 12 && t == Pad2(m) ensures MonthField(t) == Some(m) {
      Pad2Digits(m);
    }
  }

  lemma YearFieldSpelling(t: string)
    ensures YearField(t).Some? ==> 0 <= YearField(t).value < 10000 && t == Pad4(YearField(t).value)
  {
    if YearField(t).Some? {
      var hi, lo := t[..2], t[2..];
      TwoDigits(hi);
      TwoDigits(lo);
      var h := 10 * DigitValue(hi[0]) + DigitValue(hi[1]);
      var l := 10 * DigitValue(lo[0]) + DigitValue(lo[1]);
      var v := YearField(t).value;
      assert v == 100 * h + l;
      assert v / 100 == h && v % 100 == l;
      assert t == hi + lo;
    }
  }

  lemma Pad4Year(y: int)
    requires 0 <= y < 10000
    ensures YearField(Pad4(y)) == Some(y)
  {
    Pad2Digits(y / 100);
    Pad2Digits(y % 100);
  }

  lemma SpellingsHaveNoSeparator(d: int, m: int, a: string, b: string)
    requires 1 <= d <= 31 && 1 <= m <= 12
    ensures a in DaySpellings(d) ==> '.' !in a && '-' !in a
    ensures b in MonthSpellings(m) ==> '.' !in b && '-' !in b
  {
  }

  /** Splitting a string built from three separator-free parts gives the parts back. */
  lemma {:induction false} SplitThreeOf(a: string, b: string, c: string, sep: char)
    requires sep !in a && sep !in b
    ensures SplitThree(a + [sep] + b + [sep] + c, sep) == Some((a, b, c))
  {
    var s := a + [sep] + b + [sep] + c;
    var t := b + [sep] + c;
    Pieces(a, b, c, sep);
    IndexOfAt(s, sep, |a|);
    IndexOfAt(t, sep, |b|);
  }

  /** Where the parts of `a + [sep] + b + [sep] + c` sit. */
  lemma Pieces(a: string, b: string, c: string, sep: char)
    ensures var s, t := a + [sep] + b + [sep] + c, b + [sep] + c;
      && s[..|a|] == a && s[|a|] == sep && s[|a| + 1..] == t
      && t[..|b|] == b && t[|b|] == sep
      && s[|a| + 1..|a| + 1 + |b|] == b && s[|a| + 2 + |b|..] == c
  {
    var s, t := a + [sep] + b + [sep] + c, b + [sep] + c;
    assert s == a + ([sep] + t) by {
      assert [sep] + t == [sep] + b + [sep] + c;
    }
    assert t == b + ([sep] + c);
  }

  lemma IndexOfAt(s: string, c: char, i: nat)
    requires i < |s| && s[i] == c && c !in s[..i]
    ensures IndexOf(s, c) == Some(i)
  {
  }

  /** Whatever strptime splits off has to be separator-free. */
  lemma SplitThreeParts(s: string, sep: char)
    requires SplitThree(s, sep).Some?
    ensures var (a, b, c) := SplitThree(s, sep).value; sep !in a && sep !in b && s == a + [sep] + b + [sep] + c
  {
    var i := IndexOf(s, sep).value;
    var t := s[i + 1..];
    var k := IndexOf(t, sep).value;
    assert s[i + 1..i + 1 + k] == t[..k] && s[i + 2 + k..] == t[k + 1..];
    assert SplitThree(s, sep).value == (s[..i], t[..k], t[k + 1..]);
    Rejoin(s, i, k, sep);
  }

  lemma Rejoin(s: string, i: nat, k: nat, sep: char)
    requires i < |s| && s[i] == sep
    requires k < |s[i + 1..]| && s[i + 1..][k] == sep
    ensures s == s[..i] + [sep] + s[i + 1..][..k] + [sep] + s[i + 1..][k + 1..]
  {
    var t := s[i + 1..];
    assert s[i..] == [sep] + t;
    assert t == t[..k] + [sep] + t[k + 1..];
    assert s == s[..i] + s[i..];
  }

  /** `"%d.%m.%Y"` accepts exactly the spellings of valid dates. */
  lemma ParseFinnishExact(s: string, d: Date)
    requires Valid(d)
    ensures ParseFinnish(s) == Some(d) <==> SpellsFinnish(s, d)
  {
    if ParseFinnish(s) == Some(d) {
      ParseFinnishSpells(s, d);
    }
    if SpellsFinnish(s, d) {
      SpellingParsesFinnish(s, d);
    }
  }

  lemma ParseFinnishSpells(s: string, d: Date)
    requires Valid(d) && ParseFinnish(s) == Some(d)
    ensures SpellsFinnish(s, d)
  {
    SplitThreeParts(s, '.');
    var (a, b, c) := SplitThree(s, '.').value;
    DayFieldSpellings(a);
    MonthFieldSpellings(b);
    YearFieldSpelling(c);
    assert s == a + "." + b + "." + Pad4(d.year);
  }

  lemma SpellingParsesFinnish(s: string, d: Date)
    requires Valid(d) && SpellsFinnish(s, d)
    ensures ParseFinnish(s) == Some(d)
  {
    var a, b :| a in DaySpellings(d.day) && b in MonthSpellings(d.month) && s == a + "." + b + "." + Pad4(d.year);
    assert s == a + ['.'] + b + ['.'] + Pad4(d.year);
    SpellingsHaveNoSeparator(d.day, d.month, a, b);
    SplitThreeOf(a, b, Pad4(d.year), '.');
    DayFieldSpellings(a);
    MonthFieldSpellings(b);
    Pad4Year(d.year);
  }

  /** `"%Y-%m-%d"` accepts exactly the spellings of valid dates. */
  lemma ParseIsoExact(s: string, d: Date)
    requires Valid(d)
    ensures ParseIso(s) == Some(d) <==> SpellsIso(s, d)
  {
    if ParseIso(s) == Some(d) {
      ParseIsoSpells(s, d);
    }
    if SpellsIso(s, d) {
      SpellingParsesIso(s, d);
    }
  }

  lemma ParseIsoSpells(s: string, d: Date)
    requires Valid(d) && ParseIso(s) == Some(d)
    ensures SpellsIso(s, d)
  {
    SplitThreeParts(s, '-');
    var (c, b, a) := SplitThree(s, '-').value;
    DayFieldSpellings(a);
    MonthFieldSpellings(b);
    YearFieldSpelling(c);
    assert s == Pad4(d.year) + "-" + b + "-" + a;
  }

  lemma SpellingParsesIso(s: string, d: Date)
    requires Valid(d) && SpellsIso(s, d)
    ensures ParseIso(s) == Some(d)
  {
    var b, a :| b in MonthSpellings(d.month) && a in DaySpellings(d.day) && s == Pad4(d.year) + "-" + b + "-" + a;
    assert s == Pad4(d.year) + ['-'] + b + ['-'] + a;
    SpellingsHaveNoSeparator(d.day, d.month, a, b);
    SplitThreeOf(Pad4(d.year), b, a, '-');
    DayFieldSpellings(a);
    MonthFieldSpellings(b);
    Pad4Year(d.year);
  }

  /** `strptime(d.isoformat(), "%Y-%m-%d") == d`. */
  lemma IsoRoundTrip(d: Date)
    requires Valid(d)
    ensures ParseIso(IsoFormat(d)) == Some(d)
  {
    assert Pad2(d.month) in MonthSpellings(d.month);
    assert Pad2(d.day) in DaySpellings(d.day);
    assert SpellsIso(IsoFormat(d), d);
    ParseIsoExact(IsoFormat(d), d);
  }

  /**
   * `finnish_date_to_iso` returns the zero-padded ISO form of the date `s`
   * spells when `s` is a day, a dot, a month, a dot and a four-digit year
   * naming a real date, and raises ValueError for every other string.
   */
  lemma FinnishDateToIsoExact(s: string)
    ensures match FinnishDateToIso(s)
      case Ok(iso) => exists d :: Valid(d) && SpellsFinnish(s, d) && iso == IsoFormat(d)
      case Err(e) => forall d :: Valid(d) ==> !SpellsFinnish(s, d)
  {
    match ParseFinnish(s)
    case Some(d) =>
      ParseFinnishExact(s, d);
    case None =>
      forall d | Valid(d) ensures !SpellsFinnish(s, d) {
        ParseFinnishExact(s, d);
      }
  }

  /** The zero-padded DD.MM.YYYY form of every date is accepted. */
  lemma FinnishFormatAccepted(d: Date)
    requires Valid(d)
    ensures FinnishDateToIso(FinnishFormat(d)) == Ok(IsoFormat(d))
  {
    assert Pad2(d.month) in MonthSpellings(d.month);
    assert Pad2(d.day) in DaySpellings(d.day);
    assert SpellsFinnish(FinnishFormat(d), d);
    ParseFinnishExact(FinnishFormat(d), d);
  }

  /** Reads an ISO date string back as DD.MM.YYYY. */
  function IsoToFinnish(iso: string): (s: string)
    requires |iso| == 10
    ensures |s| == 10
  {
    iso[8..10] + "." + iso[5..7] + "." + iso[..4]
  }

  /** Written with two-digit day and month and a four-digit year. */
  predicate ZeroPadded(s: string) {
    |s| == 10 && forall k :: 0 <= k < 10 && k != 2 && k != 5 ==> IsAsciiDigit(s[k])
  }

  /** The ISO string of a converted date parses back to the date the input names. */
  lemma FinnishDateToIsoParses(s: string)
    ensures FinnishDateToIso(s).Ok? ==> ParseIso(FinnishDateToIso(s).value) == ParseFinnish(s)
  {
    if ParseFinnish(s).Some? {
      IsoRoundTrip(ParseFinnish(s).value);
    }
  }

  /** The only zero-padded spelling of a date is its DD.MM.YYYY form. */
  lemma PaddedSpelling(s: string, d: Date)
    requires Valid(d) && ZeroPadded(s) && SpellsFinnish(s, d)
    ensures s == FinnishFormat(d)
  {
    var a, b :| a in DaySpellings(d.day) && b in MonthSpellings(d.month) && s == a + "." + b + "." + Pad4(d.year);
    assert |a| + |b| == 4;
    assert |a| == 2 && |b| == 2;
    assert a[0] == s[0];
    assert a == Pad2(d.day);
    assert b == Pad2(d.month);
  }

  lemma IsoToFinnishFormat(d: Date)
    requires Valid(d)
    ensures IsoToFinnish(IsoFormat(d)) == FinnishFormat(d)
  {
    var iso := IsoFormat(d);
    assert iso[8..10] == Pad2(d.day);
    assert iso[5..7] == Pad2(d.month);
    assert iso[..4] == Pad4(d.year);
  }

  /** For zero-padded input, reading the ISO result back gives the input. */
  lemma FinnishIsoRoundTrip(s: string)
    requires ZeroPadded(s) && FinnishDateToIso(s).Ok?
    ensures IsoToFinnish(FinnishDateToIso(s).value) == s
  {
    var d := ParseFinnish(s).value;
    ParseFinnishExact(s, d);
    PaddedSpelling(s, d);
    IsoToFinnishFormat(d);
  }

  /** Malformed inputs raise ValueError. */
  lemma RejectsDashes()
    ensures FinnishDateToIso("31-12-2024").Err?
  {
    assert '.' !in "31-12-2024";
  }

  lemma RejectsYearFirst()
    ensures FinnishDateToIso("2024.12.31").Err?
  {
    SplitThreeOf("2024", "12", "31", '.');
    assert "2024.12.31" == "2024" + ['.'] + "12" + ['.'] + "31";
  }

  lemma RejectsEmpty()
    ensures FinnishDateToIso("").Err?
  {
  }

  lemma RejectsThirtiethOfFebruary()
    ensures FinnishDateToIso("30.02.2025").Err?
  {
    assert "30.02.2025" == "30" + ['.'] + "02" + ['.'] + "2025";
    assert DayField("30") == Some(30) && MonthField("02") == Some(2) && YearField("2025") == Some(2025);
    RejectsFields("30", "02", "2025");
  }

  /** Three dot-separated fields that name no valid date raise ValueError. */
  lemma RejectsFields(a: string, b: string, c: string)
    requires '.' !in a && '.' !in b
    requires MakeDate(YearField(c), MonthField(b), DayField(a)).None?
    ensures FinnishDateToIso(a + ['.'] + b + ['.'] + c).Err?
  {
    SplitThreeOf(a, b, c, '.');
  }

  // ---------------------------------------------------------------------
  // Weeks
  // ---------------------------------------------------------------------

  /** Going back to Monday never passes 0001-01-01 (a Monday), and the Friday after never passes 9999-12-31 (a Friday). */
  lemma WeekStartsInRange(o: int)
    requires 1 <= o <= MAX_ORDINAL
    ensures (o + 6) % 7 < o
    ensures o - (o + 6) % 7 + 4 <= MAX_ORDINAL
  {
    if o > MAX_ORDINAL - 4 {
      assert o == MAX_ORDINAL - 3 || o == MAX_ORDINAL - 2 || o == MAX_ORDINAL - 1 || o == MAX_ORDINAL;
    }
  }

  /** The last Monday on or before 9999-12-31 is 9999-12-27. */
  lemma LastMonday(m: int, w: int)
    requires w == (m + 6) % 7 && w == 0 && m <= MAX_ORDINAL
    ensures m + 4 <= MAX_ORDINAL
  {
  }

  /** `today - timedelta(days=today.weekday())`: the Monday of this week. */
  function ThisMonday(today: Date): (monday: Date)
    requires Valid(today)
    ensures Valid(monday) && Weekday(monday) == 0
    ensures Ordinal(monday) == Ordinal(today) - Weekday(today)
    ensures Ordinal(monday) + 4 <= MAX_ORDINAL
  {
    OrdinalRange(today);
    var w := Weekday(today);
    WeekStartsInRange(Ordinal(today));
    WeekdayBefore(today, w);
    SubDays(today, w)
  }

  /** `today + timedelta(days=7 - today.weekday())`: the Monday of next week, or OverflowError past 9999-12-31. */
  function NextMonday(today: Date): (r: Result<Date, Error>)
    requires Valid(today)
    ensures r.Err? <==> Ordinal(today) + 7 - Weekday(today) > MAX_ORDINAL
    ensures r.Err? ==> r.error == OverflowError
    ensures r.Ok? ==> Valid(r.value) && Weekday(r.value) == 0
    ensures r.Ok? ==> Ordinal(today) + 1 <= Ordinal(r.value) <= Ordinal(today) + 7
    ensures r.Ok? ==> Ordinal(r.value) + 4 <= MAX_ORDINAL
  {
    var n := 7 - Weekday(today);
    if Ordinal(today) + n > MAX_ORDINAL then Err(OverflowError)
    else
      NextWeekStart(today, n);
      Ok(AddDays(today, n))
  }

  /** Moving `7 - weekday` days lands on a Monday that still has its working week before 9999-12-31. */
  lemma NextWeekStart(today: Date, n: nat)
    requires Valid(today) && n == 7 - Weekday(today) && Ordinal(today) + n <= MAX_ORDINAL
    ensures Weekday(AddDays(today, n)) == 0 && Ordinal(AddDays(today, n)) + 4 <= MAX_ORDINAL
  {
    MondayAfter(today, AddDays(today, n), n);
  }

  lemma MondayAfter(today: Date, monday: Date, n: nat)
    requires Valid(today) && Valid(monday) && n == 7 - Weekday(today)
    requires Ordinal(monday) == Ordinal(today) + n <= MAX_ORDINAL
    ensures Weekday(monday) == 0 && Ordinal(monday) + 4 <= MAX_ORDINAL
  {
    WeekShift(Ordinal(today), Ordinal(monday), Weekday(today), Weekday(monday), n);
    LastMonday(Ordinal(monday), Weekday(monday));
  }

  /** The five dates from `monday` on, in ISO form. */
  function WorkdaysFrom(monday: Date): (days: seq<string>)
    requires Valid(monday) && Ordinal(monday) + 4 <= MAX_ORDINAL
    ensures |days| == 5
  {
    seq(5, i requires 0 <= i < 5 => IsoFormat(AddDays(monday, i)))
  }

  /** `get_this_week_workdays`. */
  function ThisWeekWorkdays(today: Date): (days: seq<string>)
    requires Valid(today)
    ensures |days| == 5
  {
    WorkdaysFrom(ThisMonday(today))
  }

  /** `get_next_week_workdays`. */
  function NextWeekWorkdays(today: Date): (r: Result<seq<string>, Error>)
    requires Valid(today)
    ensures r.Ok? ==> |r.value| == 5
  {
    match NextMonday(today)
    case Ok(monday) => Ok(WorkdaysFrom(monday))
    case Err(e) => Err(e)
  }

  /** `get_monday_and_friday`. */
  function MondayAndFriday(today: Date, thisWeek: bool): (r: Result<(string, string), Error>)
    requires Valid(today)
    ensures r.Err? <==> !thisWeek && Ordinal(today) + 7 - Weekday(today) > MAX_ORDINAL
    ensures r.Err? ==> r.error == OverflowError
  {
    var monday := if thisWeek then Ok(ThisMonday(today)) else NextMonday(today);
    match monday
    case Ok(m) => Ok((IsoFormat(m), IsoFormat(AddDays(m, 4))))
    case Err(e) => Err(e)
  }

  /** `today_is`. */
  predicate TodayIs(today: Date, day: string)
    requires Valid(today)
  {
    WeekdayInFinnish(IsoFormat(today)) == Ok(day)
  }

  /** `get_today`: today in ISO form. */
  function GetToday(today: Date): (s: string)
    requires Valid(today)
    ensures ParseIso(s) == Some(today)
    ensures WeekdayInFinnish(s) == Ok(WEEKDAYS[Weekday(today)])
  {
    IsoRoundTrip(today);
    IsoFormat(today)
  }

  /** `get_tomorrow`: the day after today in ISO form; past 9999-12-31 the addition raises OverflowError. */
  function GetTomorrow(today: Date): (r: Result<string, Error>)
    requires Valid(today)
    ensures r.Err? <==> Ordinal(today) == MAX_ORDINAL
    ensures r.Err? ==> r.error == OverflowError
  {
    OrdinalRange(today);
    if Ordinal(today) < MAX_ORDINAL then Ok(IsoFormat(NextDay(today))) else Err(OverflowError)
  }

  /** `get_today` reads back as today; `get_tomorrow` as the day after, named by the next weekday. */
  lemma TodayAndTomorrow(today: Date)
    requires Valid(today)
    ensures ParseIso(GetToday(today)) == Some(today)
    ensures GetTomorrow(today).Ok? ==>
      && ParseIso(GetTomorrow(today).value).Some?
      && Ordinal(ParseIso(GetTomorrow(today).value).value) == Ordinal(today) + 1
      && WeekdayInFinnish(GetTomorrow(today).value) == Ok(WEEKDAYS[(Weekday(today) + 1) % 7])
  {
    IsoRoundTrip(today);
    if Ordinal(today) < MAX_ORDINAL {
      var t := NextDay(today);
      assert GetTomorrow(today) == Ok(IsoFormat(t));
      DayAfter(today, t);
    }
  }

  /** The ISO form of the day after `today` reads back as that day and is named by the next weekday. */
  lemma DayAfter(today: Date, t: Date)
    requires Valid(today) && Valid(t) && Ordinal(t) == Ordinal(today) + 1
    ensures ParseIso(IsoFormat(t)) == Some(t)
    ensures WeekdayInFinnish(IsoFormat(t)) == Ok(WEEKDAYS[(Weekday(today) + 1) % 7])
  {
    IsoRoundTrip(t);
    WeekShift(Ordinal(today), Ordinal(t), Weekday(today), Weekday(t), 1);
  }

  lemma {:induction false} WorkdayAt(monday: Date, i: nat)
    requires Valid(monday) && Weekday(monday) == 0 && Ordinal(monday) + 4 <= MAX_ORDINAL && i < 5
    ensures ParseIso(WorkdaysFrom(monday)[i]) == Some(AddDays(monday, i))
    ensures WeekdayInFinnish(WorkdaysFrom(monday)[i]) == Ok(WEEKDAYS[i])
  {
    var d := AddDays(monday, i);
    var s := WorkdaysFrom(monday)[i];
    assert s == IsoFormat(d);
    IsoRoundTrip(d);
    assert ParseIso(s) == Some(d);
    WeekdayAfter(monday, i);
    SmallRemainder(Weekday(monday) + i);
  }

  lemma SmallRemainder(n: int)
    requires 0 <= n < 7
    ensures n % 7 == n
  {
  }

  /** The five strings from a Monday are consecutive dates named maanantai to perjantai. */
  lemma {:induction false} WorkdaysFromMonday(monday: Date)
    requires Valid(monday) && Weekday(monday) == 0 && Ordinal(monday) + 4 <= MAX_ORDINAL
    ensures forall i :: 0 <= i < 5 ==>
      && ParseIso(WorkdaysFrom(monday)[i]).Some?
      && Ordinal(ParseIso(WorkdaysFrom(monday)[i]).value) == Ordinal(monday) + i
      && WeekdayInFinnish(WorkdaysFrom(monday)[i]) == Ok(WEEKDAYS[i])
  {
    forall i | 0 <= i < 5
      ensures ParseIso(WorkdaysFrom(monday)[i]).Some?
      ensures Ordinal(ParseIso(WorkdaysFrom(monday)[i]).value) == Ordinal(monday) + i
      ensures WeekdayInFinnish(WorkdaysFrom(monday)[i]) == Ok(WEEKDAYS[i])
    {
      WorkdayAt(monday, i);
    }
  }

  /**
   * `get_this_week_workdays` gives five consecutive dates whose first is a
   * Monday 0 to 6 days on or before today, maanantai to perjantai.
   */
  lemma ThisWeekWorkdaysSpec(today: Date)
    requires Valid(today)
    ensures forall i :: 0 <= i < 5 ==>
      && ParseIso(ThisWeekWorkdays(today)[i]).Some?
      && Ordinal(ParseIso(ThisWeekWorkdays(today)[i]).value) == Ordinal(today) - Weekday(today) + i
      && WeekdayInFinnish(ThisWeekWorkdays(today)[i]) == Ok(WEEKDAYS[i])
  {
    var monday := ThisMonday(today);
    assert ThisWeekWorkdays(today) == WorkdaysFrom(monday);
    WorkdaysFromMonday(monday);
  }

  /**
   * `get_next_week_workdays` gives five consecutive dates whose first is a
   * Monday 1 to 7 days strictly after today, maanantai to perjantai.
   */
  lemma NextWeekWorkdaysSpec(today: Date)
    requires Valid(today)
    ensures NextWeekWorkdays(today).Ok? ==> forall i :: 0 <= i < 5 ==>
      && ParseIso(NextWeekWorkdays(today).value[i]).Some?
      && Ordinal(ParseIso(NextWeekWorkdays(today).value[i]).value) == Ordinal(today) + 7 - Weekday(today) + i
      && WeekdayInFinnish(NextWeekWorkdays(today).value[i]) == Ok(WEEKDAYS[i])
    ensures NextWeekWorkdays(today).Err? <==> Ordinal(today) + 7 - Weekday(today) > MAX_ORDINAL
  {
    if NextMonday(today).Ok? {
      WeekdayAfter(today, 7 - Weekday(today));
      WorkdaysFromMonday(NextMonday(today).value);
    }
  }

  /** `get_monday_and_friday` gives the first and last of the matching workdays. */
  lemma MondayAndFridayEnds(today: Date)
    requires Valid(today)
    ensures MondayAndFriday(today, true) == Ok((ThisWeekWorkdays(today)[0], ThisWeekWorkdays(today)[4]))
    ensures MondayAndFriday(today, false).Ok? == NextWeekWorkdays(today).Ok?
    ensures NextWeekWorkdays(today).Ok? ==>
      MondayAndFriday(today, false) == Ok((NextWeekWorkdays(today).value[0], NextWeekWorkdays(today).value[4]))
  {
  }

  /** `get_weekday_in_finnish` names the weekday of every ISO date and rejects everything else. */
  lemma WeekdayInFinnishExact(iso: string)
    ensures match WeekdayInFinnish(iso)
      case Ok(name) => exists d :: Valid(d) && SpellsIso(iso, d) && name == WEEKDAYS[Weekday(d)]
      case Err(e) => forall d :: Valid(d) ==> !SpellsIso(iso, d)
  {
    match ParseIso(iso)
    case Some(d) =>
      ParseIsoExact(iso, d);
    case None =>
      forall d | Valid(d) ensures !SpellsIso(iso, d) {
        ParseIsoExact(iso, d);
      }
  }

  /** `today_is(day)` holds for exactly one of the seven names: today's. */
  lemma TodayIsExact(today: Date, day: string)
    requires Valid(today)
    ensures TodayIs(today, day) <==> day == WEEKDAYS[Weekday(today)]
  {
    IsoRoundTrip(today);
  }

  lemma AnchorMonday()
    ensures Valid(Date(2025, 1, 6)) && Weekday(Date(2025, 1, 6)) == 0
  {
    DaysBeforeYearFormula(2025);
  }

  /** 0001-01-01 was a Monday and 2025-01-06 is one too. */
  lemma WeekdayAnchors()
    ensures Weekday(Date(1, 1, 1)) == 0
    ensures WeekdayInFinnish("2025-01-06") == Ok("maanantai")
  {
    assert "2025-01-06" == IsoFormat(Date(2025, 1, 6));
    AnchorMonday();
    IsoRoundTrip(Date(2025, 1, 6));
  }

  // ---------------------------------------------------------------------
  // sanitize_comment
  // ---------------------------------------------------------------------

  /** `s[i..j+1]` matches `<[^>]+>`. */
  predicate TagAt(s: string, i: int, j: int) {
    0 <= i && i + 2 <= j < |s| && s[i] == '<' && s[j] == '>' && '>' !in s[i + 1..j]
  }

  /** `re.search(r"<[^>]+>", s)` finds a match. */
  ghost predicate HasTag(s: string) {
    exists i, j :: TagAt(s, i, j)
  }

  /** `re.sub(r"<[^>]+>", "", s)`: leftmost matches are removed, scanning on after each. */
  function StripTags(s: string): (r: string)
    ensures |r| <= |s|
    decreases |s|
  {
    if s == [] then []
    else if s[0] == '<' then
      match IndexOf(s, '>')
      case Some(q) =>
        if q >= 2 then StripTags(s[q + 1..]) else [s[0]] + StripTags(s[1..])
      case None => [s[0]] + StripTags(s[1..])
    else [s[0]] + StripTags(s[1..])
  }

  /** `sanitize_comment`: `None` and "" give ""; otherwise tags out, entities unescaped, whitespace stripped. */
  function SanitizeComment(comment: Option<string>, unescape: string -> string): (r: string)
    ensures comment == None || comment == Some("") ==> r == ""
    ensures Stripped(r)
  {
    if comment.None? || comment.value == [] then ""
    else
      StripSpec(unescape(StripTags(comment.value)));
      Strip(unescape(StripTags(comment.value)))
  }

  /** Every `<` either is followed at once by `>` or has no `>` anywhere after it. */
  predicate NoOpenTag(r: string) {
    forall i :: 0 <= i < |r| && r[i] == '<' ==> (i + 1 < |r| && r[i + 1] == '>') || '>' !in r[i + 1..]
  }

  lemma {:induction false} StripTagsKeepsNoBracket(s: string)
    requires '>' !in s
    ensures '>' !in StripTags(s)
    decreases |s|
  {
    if s != [] {
      assert '>' !in s[1..];
      StripTagsKeepsNoBracket(s[1..]);
    }
  }

  lemma {:induction false} StripTagsNoOpenTag(s: string)
    ensures NoOpenTag(StripTags(s))
    decreases |s|
  {
    if s == [] {
    } else if s[0] == '<' && IndexOf(s, '>').Some? && IndexOf(s, '>').value >= 2 {
      StripTagsNoOpenTag(s[IndexOf(s, '>').value + 1..]);
    } else {
      var t := StripTags(s[1..]);
      StripTagsNoOpenTag(s[1..]);
      var r := [s[0]] + t;
      assert StripTags(s) == r;
      if s[0] == '<' {
        match IndexOf(s, '>')
        case None =>
          assert '>' !in s[1..];
          StripTagsKeepsNoBracket(s[1..]);
          assert r[1..] == t;
        case Some(q) =>
          assert q == 1;
          assert s[1..][0] == '>';
          assert t != [] && t[0] == '>' by {
            assert StripTags(s[1..]) == [s[1]] + StripTags(s[2..]);
          }
      }
      forall i | 0 <= i < |r| && r[i] == '<'
        ensures (i + 1 < |r| && r[i + 1] == '>') || '>' !in r[i + 1..]
      {
        if i > 0 {
          assert r[i] == t[i - 1];
          assert r[i + 1..] == t[i..];
        } else {
          assert r[1..] == t;
        }
      }
    }
  }

  lemma SliceHas(s: string, a: int, b: int, k: int)
    ensures 0 <= a <= k < b <= |s| ==> s[k] in s[a..b]
  {
    if 0 <= a <= k < b <= |s| {
      assert s[a..b][k - a] == s[k];
    }
  }

  /** A string with no open tag has no tag at `i`, `j`: the `>` closing it would be found sooner or not at all. */
  lemma NoTagAt(r: string, i: int, j: int)
    requires NoOpenTag(r)
    ensures !TagAt(r, i, j)
  {
    if 0 <= i && i + 2 <= j < |r| && r[i] == '<' && r[j] == '>' {
      SliceHas(r, i + 1, j, i + 1);
      SliceHas(r, i + 1, |r|, j);
      assert '>' in r[i + 1..j];
    }
  }

  /** The tag-removal step leaves no substring matching `<[^>]+>`. */
  lemma StripTagsLeavesNoTag(s: string)
    ensures !HasTag(StripTags(s))
  {
    var r := StripTags(s);
    StripTagsNoOpenTag(s);
    forall i, j ensures !TagAt(r, i, j) {
      NoTagAt(r, i, j);
    }
  }

  /** A tag in `s[1..]` is a tag of `s`, one place further on. */
  lemma TagShift(s: string, i: int, j: int)
    requires s != []
    ensures TagAt(s[1..], i, j) ==> TagAt(s, i + 1, j + 1)
  {
    if TagAt(s[1..], i, j) {
      assert s[1..][i + 1..j] == s[i + 2..j + 1];
    }
  }

  /** A comment with no tag in it passes the tag-removal step unchanged. */
  lemma {:induction false} StripTagsWithoutTag(s: string)
    requires !HasTag(s)
    ensures StripTags(s) == s
    decreases |s|
  {
    if s != [] {
      if s[0] == '<' && IndexOf(s, '>').Some? && IndexOf(s, '>').value >= 2 {
        var q := IndexOf(s, '>').value;
        assert s[1..q] == s[..q][1..];
        assert TagAt(s, 0, q);
      }
      forall i, j ensures !TagAt(s[1..], i, j) {
        TagShift(s, i, j);
      }
      StripTagsWithoutTag(s[1..]);
    }
  }
}
