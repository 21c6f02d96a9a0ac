/**
  XMLTV timestamps (`YYYYMMDDHHMMSS` followed by an optional zone offset) and the
  way the program turns them into naive datetimes.

  `parse_xmltv_time` hands the first 14 characters to `datetime.strptime` with the
  format `%Y%m%d%H%M%S`. Python implements that call with a regular expression, one
  group per directive, each group an alternation tried in order:

      %Y  \d\d\d\d
      %m  1[0-2] | 0[1-9] | [1-9]
      %d  3[01] | [12]\d | 0[1-9] | [1-9] | ' '[1-9]
      %H  2[0-3] | [0-1]\d | \d
      %M  [0-5]\d | \d
      %S  6[0-1] | [0-5]\d | \d

  The expression is matched at the start of the text without an end anchor, so the
  regex engine keeps the first combination of alternatives (in priority order) that
  matches all six groups, backtracking only when a later group cannot match at all.
  If that match stops before the end of the text the call fails ("unconverted data
  remains"); otherwise the groups are read as integers and given to the `datetime`
  constructor, which rejects impossible dates and the seconds 60 and 61 the
  expression lets through.
*/
module XmltvTime {
  import opened Wrappers
  import opened Chars

  /** A naive datetime as `datetime.strptime` builds it (microseconds are zero). */
  datatype DateTime = DateTime(year: int, month: int, day: int, hour: int, minute: int, second: int)

  predicate IsLeapYear(y: int) {
    y % 4 == 0 && (y % 100 != 0 || y % 400 == 0)
  }

  function DaysInMonth(y: int, m: int): (n: int)
    requires 1 <= m <= 12
    ensures 28 <= n <= 31
  {
    if m == 2 then (if IsLeapYear(y) then 29 else 28)
    else if m == 4 || m == 6 || m == 9 || m == 11 then 30
    else 31
  }

  /** The values the `datetime` constructor accepts. */
  predicate Valid(dt: DateTime) {
    && 1 <= dt.year <= 9999
    && 1 <= dt.month <= 12
    && 1 <= dt.day <= DaysInMonth(dt.year, dt.month)
    && 0 <= dt.hour <= 23
    && 0 <= dt.minute <= 59
    && 0 <= dt.second <= 59
  }

  /** Days in the years before `y` of the proleptic Gregorian calendar. */
  function DaysBeforeYear(y: int): int
    requires y >= 1
  {
    var p := y - 1;
    p * 365 + p / 4 - p / 100 + p / 400
  }

  function DaysBeforeMonth(y: int, m: int): (n: int)
    requires 1 <= m <= 12
    ensures 0 <= n <= 31 * (m - 1)
    decreases m
  {
    if m == 1 then 0 else DaysBeforeMonth(y, m - 1) + DaysInMonth(y, m - 1)
  }

  /** Python's `date.toordinal()`: 0001-01-01 is day 1. */
  function Ordinal(dt: DateTime): int
    requires Valid(dt)
  {
    DaysBeforeYear(dt.year) + DaysBeforeMonth(dt.year, dt.month) + dt.day
  }

  const MicrosPerSecond: int := 1_000_000
  const MicrosPerDay: int := 86_400_000_000

  /**
    A datetime as microseconds since 0001-01-01 00:00:00. The program compares
    parsed timestamps with `datetime.now()`, which carries microseconds, so the
    model compares on this scale.
  */
  function ToMicros(dt: DateTime): int
    requires Valid(dt)
  {
    ((Ordinal(dt) - 1) * 86400 + dt.hour * 3600 + dt.minute * 60 + dt.second) * MicrosPerSecond
  }

  // ---------------------------------------------------------------------------
  // The strptime regular expression
  // ---------------------------------------------------------------------------

  datatype Directive = Year | Month | Day | Hour | Minute | Second

  /** `%Y%m%d%H%M%S` */
  const XmltvFormat: seq<Directive> := [Year, Month, Day, Hour, Minute, Second]

  /** `s[i]` exists and lies in `lo..hi`. */
  predicate CharIn(s: string, i: int, lo: char, hi: char) {
    0 <= i < |s| && lo <= s[i] <= hi
  }

  /** The alternative of length `n` when its character test `b` holds. */
  function When(b: bool, n: nat): (r: seq<nat>)
    ensures forall a :: a in r ==> a == n && b
    ensures b ==> r == [n]
  {
    if b then [n] else []
  }

  function YearAlternatives(s: string, i: nat): (alts: seq<nat>)
    ensures forall a :: a in alts ==> 0 < a && i + a <= |s|
  {
    When(CharIn(s, i, '0', '9') && CharIn(s, i + 1, '0', '9')
         && CharIn(s, i + 2, '0', '9') && CharIn(s, i + 3, '0', '9'), 4)
  }

  function MonthAlternatives(s: string, i: nat): (alts: seq<nat>)
    ensures forall a :: a in alts ==> 0 < a && i + a <= |s|
  {
    When(CharIn(s, i, '1', '1') && CharIn(s, i + 1, '0', '2'), 2)
    + When(CharIn(s, i, '0', '0') && CharIn(s, i + 1, '1', '9'), 2)
    + When(CharIn(s, i, '1', '9'), 1)
  }

  function DayAlternatives(s: string, i: nat): (alts: seq<nat>)
    ensures forall a :: a in alts ==> 0 < a && i + a <= |s|
  {
    When(CharIn(s, i, '3', '3') && CharIn(s, i + 1, '0', '1'), 2)
    + When(CharIn(s, i, '1', '2') && CharIn(s, i + 1, '0', '9'), 2)
    + When(CharIn(s, i, '0', '0') && CharIn(s, i + 1, '1', '9'), 2)
    + When(CharIn(s, i, '1', '9'), 1)
    + When(CharIn(s, i, ' ', ' ') && CharIn(s, i + 1, '1', '9'), 2)
  }

  function HourAlternatives(s: string, i: nat): (alts: seq<nat>)
    ensures forall a :: a in alts ==> 0 < a && i + a <= |s|
  {
    When(CharIn(s, i, '2', '2') && CharIn(s, i + 1, '0', '3'), 2)
    + When(CharIn(s, i, '0', '1') && CharIn(s, i + 1, '0', '9'), 2)
    + When(CharIn(s, i, '0', '9'), 1)
  }

  function MinuteAlternatives(s: string, i: nat): (alts: seq<nat>)
    ensures forall a :: a in alts ==> 0 < a && i + a <= |s|
  {
    When(CharIn(s, i, '0', '5') && CharIn(s, i + 1, '0', '9'), 2)
    + When(CharIn(s, i, '0', '9'), 1)
  }

  function SecondAlternatives(s: string, i: nat): (alts: seq<nat>)
    ensures forall a :: a in alts ==> 0 < a && i + a <= |s|
  {
    When(CharIn(s, i, '6', '6') && CharIn(s, i + 1, '0', '1'), 2)
    + When(CharIn(s, i, '0', '5') && CharIn(s, i + 1, '0', '9'), 2)
    + When(CharIn(s, i, '0', '9'), 1)
  }

  /**
    The lengths of the alternatives of directive `d` that match at position `i`,
    in the order the regex engine tries them.
  */
  function Alternatives(d: Directive, s: string, i: nat): (alts: seq<nat>)
    ensures forall a :: a in alts ==> 0 < a && i + a <= |s|
  {
    match d
    case Year => YearAlternatives(s, i)
    case Month => MonthAlternatives(s, i)
    case Day => DayAlternatives(s, i)
    case Hour => HourAlternatives(s, i)
    case Minute => MinuteAlternatives(s, i)
    case Second => SecondAlternatives(s, i)
  }

  /** The texts of the matched groups and the position where the match ended. */
  datatype Match = Match(groups: seq<string>, end: nat)

  /** Matches the directives `ds` at position `i`, leftmost alternative first. */
  function MatchFrom(ds: seq<Directive>, s: string, i: nat): (r: Option<Match>)
    requires i <= |s|
    ensures r.Some? ==> |r.value.groups| == |ds| && i <= r.value.end <= |s|
    decreases |ds|, 1, 0
  {
    if |ds| == 0 then Some(Match([], i))
    else FirstThatMatches(ds, s, i, Alternatives(ds[0], s, i))
  }

  /** Tries the remaining alternatives `alts` of `ds[0]` in order. */
  function FirstThatMatches(ds: seq<Directive>, s: string, i: nat, alts: seq<nat>): (r: Option<Match>)
    requires |ds| > 0 && i <= |s|
    requires forall a :: a in alts ==> i + a <= |s|
    ensures r.Some? ==> |r.value.groups| == |ds| && i <= r.value.end <= |s|
    decreases |ds|, 0, |alts|
  {
    if |alts| == 0 then None
    else
      assert alts[0] in alts;
      assert forall a :: a in alts[1..] ==> a in alts;
      match MatchFrom(ds[1..], s, i + alts[0])
      case Some(rest) => Some(Match([s[i..i + alts[0]]] + rest.groups, rest.end))
      case None => FirstThatMatches(ds, s, i, alts[1..])
  }

  /** `int(text)` for a group: its decimal digits (a day group may start with a space). */
  function DecimalValue(t: string): nat
    decreases |t|
  {
    if |t| == 0 then 0
    else
      var last := t[|t| - 1];
      var rest := DecimalValue(t[..|t| - 1]);
      if IsAsciiDigit(last) then rest * 10 + ((last as int) - ('0' as int)) else rest
  }

  /** `datetime.strptime(s, '%Y%m%d%H%M%S')`, `None` where Python raises `ValueError`. */
  function Strptime(s: string): (r: Option<DateTime>)
    ensures r.Some? ==> Valid(r.value)
  {
    match MatchFrom(XmltvFormat, s, 0)
    case None => None
    case Some(m) =>
      if m.end != |s| then None
      else
        var g := m.groups;
        var dt := DateTime(DecimalValue(g[0]), DecimalValue(g[1]), DecimalValue(g[2]),
                           DecimalValue(g[3]), DecimalValue(g[4]), DecimalValue(g[5]));
        if Valid(dt) then Some(dt) else None
  }

  /** `time_str[:14]` */
  function DatePart(s: string): (r: string)
    ensures |r| <= 14
  {
    if |s| <= 14 then s else s[..14]
  }

  /**
    `parse_xmltv_time`: `None` for a missing or empty attribute and for any text
    `strptime` rejects; otherwise the parsed time on the microsecond scale.
  */
  function ParseXmltvTime(t: Option<string>): (r: Option<int>)
    ensures (t.None? || t.value == "") ==> r.None?
    ensures r.Some? ==> exists dt :: Strptime(DatePart(t.value)) == Some(dt) && r.value == ToMicros(dt)
    ensures t.Some? && t.value != "" && Strptime(DatePart(t.value)).Some? ==>
              r == Some(ToMicros(Strptime(DatePart(t.value)).value))
    ensures t.Some? && Strptime(DatePart(t.value)).None? ==> r.None?
  {
    match t
    case None => None
    case Some(s) =>
      if s == "" then None
      else
        match Strptime(DatePart(s))
        case None => None
        case Some(dt) => Some(ToMicros(dt))
  }

  // ---------------------------------------------------------------------------
  // Canonical timestamps
  // ---------------------------------------------------------------------------

  function Digit(n: int): (c: char)
    requires 0 <= n < 10
    ensures IsAsciiDigit(c) && (c as int) - ('0' as int) == n
  {
    ('0' as int + n) as char
  }

  function Pad2(n: int): (s: string)
    requires 0 <= n < 100
    ensures |s| == 2
  {
    [Digit(n / 10), Digit(n % 10)]
  }

  function Pad4(n: int): (s: string)
    requires 0 <= n < 10000
    ensures |s| == 4
  {
    Pad2(n / 100) + Pad2(n % 100)
  }

  /**
    The field values whose two-digit (four for the year) forms the regex takes on
    its first try: it does not check the length of the month or the leap second.
  */
  predicate InPatternRange(dt: DateTime) {
    && 0 <= dt.year <= 9999
    && 1 <= dt.month <= 12
    && 1 <= dt.day <= 31
    && 0 <= dt.hour <= 23
    && 0 <= dt.minute <= 59
    && 0 <= dt.second <= 61
  }

  /** The zero-padded `YYYYMMDDHHMMSS` text of a datetime, as XMLTV writes it. */
  function Format(dt: DateTime): (s: string)
    requires InPatternRange(dt)
    ensures |s| == 14
  {
    Pad4(dt.year) + Pad2(dt.month) + Pad2(dt.day) + Pad2(dt.hour) + Pad2(dt.minute) + Pad2(dt.second)
  }

  /** Strict chronological order of broken-down datetimes (field by field). */
  predicate Before(a: DateTime, b: DateTime) {
    || a.year < b.year
    || (a.year == b.year && a.month < b.month)
    || (a.year == b.year && a.month == b.month && a.day < b.day)
    || (a.year == b.year && a.month == b.month && a.day == b.day && a.hour < b.hour)
    || (a.year == b.year && a.month == b.month && a.day == b.day && a.hour == b.hour
        && a.minute < b.minute)
    || (a.year == b.year && a.month == b.month && a.day == b.day && a.hour == b.hour
        && a.minute == b.minute && a.second < b.second)
  }

  // ---------------------------------------------------------------------------
  // Facts about parsing
  // ---------------------------------------------------------------------------

  /** Only the first 14 characters of a timestamp take part in parsing. */
  lemma ParseReadsOnlyDatePart(s: string, t: string)
    requires DatePart(s) == DatePart(t)
    ensures ParseXmltvTime(Some(s)) == ParseXmltvTime(Some(t))
  {
  }

  /** Whatever follows the 14 date characters (the zone offset, say) is ignored. */
  lemma {:induction false} ParseIgnoresSuffix(s: string, suffix: string)
    requires |s| == 14
    ensures ParseXmltvTime(Some(s + suffix)) == ParseXmltvTime(Some(s))
  {
    assert DatePart(s + suffix) == (s + suffix)[..14] == s;
  }

  /** Once a group fits at `i`, matching from `i` takes it and returns the rest's match. */
  lemma {:induction false} MatchTakesFirstAlternative(ds: seq<Directive>, s: string, i: nat, n: nat, rest: Match)
    requires |ds| > 0 && i + n <= |s|
    requires |Alternatives(ds[0], s, i)| > 0 && Alternatives(ds[0], s, i)[0] == n
    requires MatchFrom(ds[1..], s, i + n) == Some(rest)
    ensures MatchFrom(ds, s, i) == Some(Match([s[i..i + n]] + rest.groups, rest.end))
  {
    var alts := Alternatives(ds[0], s, i);
    MatchFromUnfold(ds, s, i);
    FirstAlternativeFits(ds, s, i, alts, n, rest);
  }

  lemma MatchFromUnfold(ds: seq<Directive>, s: string, i: nat)
    requires |ds| > 0 && i <= |s|
    ensures MatchFrom(ds, s, i) == FirstThatMatches(ds, s, i, Alternatives(ds[0], s, i))
  {
  }

  lemma FirstAlternativeFits(ds: seq<Directive>, s: string, i: nat, alts: seq<nat>, n: nat, rest: Match)
    requires |ds| > 0 && i + n <= |s| && |alts| > 0 && alts[0] == n
    requires forall a :: a in alts ==> i + a <= |s|
    requires MatchFrom(ds[1..], s, i + n) == Some(rest)
    ensures FirstThatMatches(ds, s, i, alts) == Some(Match([s[i..i + n]] + rest.groups, rest.end))
  {
    assert alts[0] in alts;
  }

  lemma {:induction false} Pad2Value(n: int)
    requires 0 <= n < 100
    ensures DecimalValue(Pad2(n)) == n
  {
    var t := Pad2(n);
    assert t[..1] == [Digit(n / 10)];
    assert DecimalValue(t[..1][..0]) == 0;
    assert DecimalValue(t[..1]) == n / 10;
  }

  lemma {:induction false} Pad4Value(n: int)
    requires 0 <= n < 10000
    ensures DecimalValue(Pad4(n)) == n
  {
    var hi, lo := n / 100, n % 100;
    var t := Pad4(n);
    assert t == [Digit(hi / 10), Digit(hi % 10), Digit(lo / 10), Digit(lo % 10)];
    assert t[..3][..2][..1][..0] == [];
    assert DecimalValue(t[..3][..2][..1]) == hi / 10;
    assert DecimalValue(t[..3][..2]) == hi;
    assert DecimalValue(t[..3]) == hi * 10 + lo / 10;
    assert DecimalValue(t) == (hi * 10 + lo / 10) * 10 + lo % 10;
  }

  /** A canonical `YYYYMMDDHHMMSS` text is matched group by group, two digits each after the year. */
  lemma {:induction false} MatchCanonical(dt: DateTime)
    requires InPatternRange(dt)
    ensures MatchFrom(XmltvFormat, Format(dt), 0)
            == Some(Match([Pad4(dt.year), Pad2(dt.month), Pad2(dt.day),
                           Pad2(dt.hour), Pad2(dt.minute), Pad2(dt.second)], 14))
  {
    var s := Format(dt);
    assert s[0..4] == Pad4(dt.year);
    assert s[4..6] == Pad2(dt.month);
    assert s[6..8] == Pad2(dt.day);
    assert s[8..10] == Pad2(dt.hour);
    assert s[10..12] == Pad2(dt.minute);
    assert s[12..14] == Pad2(dt.second);
    MatchDigitFields(dt, s);
  }

  /** The fields of a datetime held, zero-padded, in the 14 characters of `s`. */
  predicate HoldsFields(dt: DateTime, s: string)
    requires InPatternRange(dt)
  {
    && |s| == 14
    && s[0..4] == Pad4(dt.year) && s[4..6] == Pad2(dt.month) && s[6..8] == Pad2(dt.day)
    && s[8..10] == Pad2(dt.hour) && s[10..12] == Pad2(dt.minute) && s[12..14] == Pad2(dt.second)
  }

  lemma {:induction false} MatchDigitFields(dt: DateTime, s: string)
    requires InPatternRange(dt) && HoldsFields(dt, s)
    ensures MatchFrom(XmltvFormat, s, 0)
            == Some(Match([Pad4(dt.year), Pad2(dt.month), Pad2(dt.day),
                           Pad2(dt.hour), Pad2(dt.minute), Pad2(dt.second)], 14))
  {
    var ds := XmltvFormat;
    MatchDigitTime(dt, s);
    var m3 := Match([Pad2(dt.hour), Pad2(dt.minute), Pad2(dt.second)], 14);

    TwoDigitAlternative(Day, s, 6, dt.day);
    MatchTakesFirstAlternative(ds[1..][1..], s, 6, 2, m3);
    var m2 := Match([Pad2(dt.day), Pad2(dt.hour), Pad2(dt.minute), Pad2(dt.second)], 14);
    assert [s[6..8]] + m3.groups == m2.groups;

    TwoDigitAlternative(Month, s, 4, dt.month);
    MatchTakesFirstAlternative(ds[1..], s, 4, 2, m2);
    var m1 := Match([Pad2(dt.month), Pad2(dt.day), Pad2(dt.hour), Pad2(dt.minute), Pad2(dt.second)], 14);
    assert [s[4..6]] + m2.groups == m1.groups;

    YearAlternative(s, dt.year);
    MatchTakesFirstAlternative(ds, s, 0, 4, m1);
    assert [s[0..4]] + m1.groups == [Pad4(dt.year), Pad2(dt.month), Pad2(dt.day),
                                     Pad2(dt.hour), Pad2(dt.minute), Pad2(dt.second)];
  }

  /** The hour, minute and second directives read the last six digits. */
  lemma {:induction false} MatchDigitTime(dt: DateTime, s: string)
    requires InPatternRange(dt) && HoldsFields(dt, s)
    ensures MatchFrom(XmltvFormat[1..][1..][1..], s, 8)
            == Some(Match([Pad2(dt.hour), Pad2(dt.minute), Pad2(dt.second)], 14))
  {
    var ds := XmltvFormat;
    assert ds[1..][1..][1..][1..][1..][1..] == [];
    var m6 := Match([], 14);
    assert MatchFrom(ds[1..][1..][1..][1..][1..][1..], s, 14) == Some(m6);

    TwoDigitAlternative(Second, s, 12, dt.second);
    MatchTakesFirstAlternative(ds[1..][1..][1..][1..][1..], s, 12, 2, m6);
    var m5 := Match([Pad2(dt.second)], 14);
    assert [s[12..14]] + m6.groups == m5.groups;

    TwoDigitAlternative(Minute, s, 10, dt.minute);
    MatchTakesFirstAlternative(ds[1..][1..][1..][1..], s, 10, 2, m5);
    var m4 := Match([Pad2(dt.minute), Pad2(dt.second)], 14);
    assert [s[10..12]] + m5.groups == m4.groups;

    TwoDigitAlternative(Hour, s, 8, dt.hour);
    MatchTakesFirstAlternative(ds[1..][1..][1..], s, 8, 2, m4);
    var m3 := Match([Pad2(dt.hour), Pad2(dt.minute), Pad2(dt.second)], 14);
    assert [s[8..10]] + m4.groups == m3.groups;
  }

  /** The range of values each two-digit directive accepts on its first, two-character alternative. */
  predicate TwoDigitRange(d: Directive, v: int) {
    match d
    case Year => false
    case Month => 1 <= v <= 12
    case Day => 1 <= v <= 31
    case Hour => 0 <= v <= 23
    case Minute => 0 <= v <= 59
    case Second => 0 <= v <= 61
  }

  /** A zero-padded value in range is taken whole by the first alternative that fits. */
  lemma TwoDigitAlternative(d: Directive, s: string, i: nat, v: int)
    requires TwoDigitRange(d, v) && i + 2 <= |s| && s[i..i + 2] == Pad2(v)
    ensures |Alternatives(d, s, i)| > 0 && Alternatives(d, s, i)[0] == 2
  {
    assert s[i] == s[i..i + 2][0] == Digit(v / 10);
    assert s[i + 1] == s[i..i + 2][1] == Digit(v % 10);
  }

  lemma YearAlternative(s: string, v: int)
    requires 0 <= v <= 9999 && 4 <= |s| && s[0..4] == Pad4(v)
    ensures |Alternatives(Year, s, 0)| > 0 && Alternatives(Year, s, 0)[0] == 4
  {
    assert s[0] == s[0..4][0];
    assert s[1] == s[0..4][1];
    assert s[2] == s[0..4][2];
    assert s[3] == s[0..4][3];
  }

  /**
    Round trip: `strptime` reads back every valid datetime written in canonical
    form, and rejects exactly the canonical texts that name no datetime (a 30th of
    February, year 0000, second 60 or 61).
  */
  lemma {:induction false} StrptimeFormat(dt: DateTime)
    requires InPatternRange(dt)
    ensures Strptime(Format(dt)) == if Valid(dt) then Some(dt) else None
  {
    MatchCanonical(dt);
    Pad4Value(dt.year);
    Pad2Value(dt.month);
    Pad2Value(dt.day);
    Pad2Value(dt.hour);
    Pad2Value(dt.minute);
    Pad2Value(dt.second);
  }

  /** Canonical texts that name no datetime: a 29th of February outside a leap year, a leap second, year 0000. */
  lemma RejectsNonexistentDates()
    ensures Strptime("20230229000000") == None
    ensures Strptime("20240101000060") == None
    ensures Strptime("00000101000000") == None
  {
    var feb29 := DateTime(2023, 2, 29, 0, 0, 0);
    assert Format(feb29) == "20230229000000";
    StrptimeFormat(feb29);
    var leapSecond := DateTime(2024, 1, 1, 0, 0, 60);
    assert Format(leapSecond) == "20240101000060";
    StrptimeFormat(leapSecond);
    var yearZero := DateTime(0, 1, 1, 0, 0, 0);
    assert Format(yearZero) == "00000101000000";
    StrptimeFormat(yearZero);
  }

  /** A programme timestamp `YYYYMMDDHHMMSS +ZZZZ` parses to its datetime, zone ignored. */
  lemma {:induction false} ParseCanonical(dt: DateTime, zone: string)
    requires Valid(dt)
    ensures ParseXmltvTime(Some(Format(dt) + zone)) == Some(ToMicros(dt))
  {
    ParseIgnoresSuffix(Format(dt), zone);
    StrptimeFormat(dt);
    assert Format(dt) != "";
  }

  // ---------------------------------------------------------------------------
  // The microsecond scale respects chronological order
  // ---------------------------------------------------------------------------

  function DaysInYear(y: int): int {
    if IsLeapYear(y) then 366 else 365
  }

  lemma {:induction false} DaysBeforeNextYear(y: int)
    requires y >= 1
    ensures DaysBeforeYear(y + 1) == DaysBeforeYear(y) + DaysInYear(y)
  {
    var p := y - 1;
    DivStep4(p);
    DivStep100(p);
    DivStep400(p);
  }

  /** Counting multiples of 4, 100 and 400: one more is passed exactly when `p + 1` is one. */
  lemma DivStep4(p: nat)
    ensures (p + 1) / 4 == p / 4 + (if (p + 1) % 4 == 0 then 1 else 0)
  {}

  lemma DivStep100(p: nat)
    ensures (p + 1) / 100 == p / 100 + (if (p + 1) % 100 == 0 then 1 else 0)
  {}

  lemma DivStep400(p: nat)
    ensures (p + 1) / 400 == p / 400 + (if (p + 1) % 400 == 0 then 1 else 0)
  {}

  lemma {:induction false} YearsAccumulate(y1: int, y2: int)
    requires 1 <= y1 < y2
    ensures DaysBeforeYear(y1) + DaysInYear(y1) <= DaysBeforeYear(y2)
    decreases y2 - y1
  {
    DaysBeforeNextYear(y1);
    if y1 + 1 < y2 {
      YearsAccumulate(y1 + 1, y2);
    }
  }

  lemma {:induction false} MonthsAccumulate(y: int, m1: int, m2: int)
    requires 1 <= m1 < m2 <= 12
    ensures DaysBeforeMonth(y, m1) + DaysInMonth(y, m1) <= DaysBeforeMonth(y, m2)
    decreases m2 - m1
  {
    if m1 + 1 < m2 {
      MonthsAccumulate(y, m1 + 1, m2);
    }
  }

  lemma DaysBeforeDecember(y: int)
    ensures DaysBeforeMonth(y, 12) + 31 == DaysInYear(y)
  {
    assert DaysBeforeMonth(y, 3) == 31 + DaysInMonth(y, 2);
    assert DaysBeforeMonth(y, 7) == DaysBeforeMonth(y, 3) + 122;
    assert DaysBeforeMonth(y, 12) == DaysBeforeMonth(y, 7) + 153;
  }

  /** The day of the year of a valid date stays within its year. */
  lemma {:induction false} DayWithinYear(dt: DateTime)
    requires Valid(dt)
    ensures DaysBeforeMonth(dt.year, dt.month) + dt.day <= DaysInYear(dt.year)
  {
    DaysBeforeDecember(dt.year);
    if dt.month < 12 {
      MonthsAccumulate(dt.year, dt.month, 12);
    }
  }

  predicate DateBefore(a: DateTime, b: DateTime) {
    || a.year < b.year
    || (a.year == b.year && a.month < b.month)
    || (a.year == b.year && a.month == b.month && a.day < b.day)
  }

  lemma {:induction false} OrdinalOrder(a: DateTime, b: DateTime)
    requires Valid(a) && Valid(b) && DateBefore(a, b)
    ensures Ordinal(a) < Ordinal(b)
  {
    if a.year < b.year {
      DayWithinYear(a);
      YearsAccumulate(a.year, b.year);
    } else if a.month < b.month {
      MonthsAccumulate(a.year, a.month, b.month);
    }
  }

  function SecondOfDay(dt: DateTime): int {
    dt.hour * 3600 + dt.minute * 60 + dt.second
  }

  lemma {:induction false} StrictlyEarlier(a: DateTime, b: DateTime)
    requires Valid(a) && Valid(b) && Before(a, b)
    ensures ToMicros(a) < ToMicros(b)
  {
    assert 0 <= SecondOfDay(a) < 86400 && 0 <= SecondOfDay(b) < 86400;
    if DateBefore(a, b) {
      OrdinalOrder(a, b);
      assert (Ordinal(a) - 1) * 86400 + SecondOfDay(a) < (Ordinal(b) - 1) * 86400 + SecondOfDay(b);
    } else {
      assert Ordinal(a) == Ordinal(b);
      assert SecondOfDay(a) < SecondOfDay(b);
    }
  }

  /**
    Comparing parsed times on the microsecond scale is comparing the datetimes in
    calendar order, field by field; so `>` and `<` against a cutoff mean "later"
    and "earlier".
  */
  lemma {:induction false} ToMicrosOrder(a: DateTime, b: DateTime)
    requires Valid(a) && Valid(b)
    ensures Before(a, b) <==> ToMicros(a) < ToMicros(b)
    ensures a == b <==> ToMicros(a) == ToMicros(b)
  {
    if Before(a, b) {
      StrictlyEarlier(a, b);
    } else if Before(b, a) {
      StrictlyEarlier(b, a);
    } else {
      assert a == b;
    }
  }
}
