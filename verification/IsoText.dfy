/** The text form of UTC instants: the ISO form with microseconds left out when they are zero. */
module IsoText {
  import opened Options
  import opened TextOrder

  // ---------------------------------------------------------------- fixed-width decimals

  function Power10(w: nat): nat {
    if w == 0 then 1 else 10 * Power10(w - 1)
  }

  function Digit(n: nat): char
    requires n < 10
  {
    ('0' as int + n) as char
  }

  function Digits(n: nat, w: nat): (text: string)
    ensures |text| == w
  {
    if w == 0 then "" else Digits(n / 10, w - 1) + [Digit(n % 10)]
  }

  predicate IsDigit(c: char) {
    '0' <= c <= '9'
  }

  function Value(text: string): nat
    requires forall i :: 0 <= i < |text| ==> IsDigit(text[i])
  {
    if text == "" then 0
    else
      assert IsDigit(text[|text| - 1]);
      10 * Value(text[..|text| - 1]) + (text[|text| - 1] as int - '0' as int)
  }

  lemma {:induction false} DigitsReadBack(n: nat, w: nat)
    requires n < Power10(w)
    ensures forall i :: 0 <= i < w ==> IsDigit(Digits(n, w)[i])
    ensures Value(Digits(n, w)) == n
  {
    if w > 0 {
      DigitsReadBack(n / 10, w - 1);
      assert Digits(n, w)[..w - 1] == Digits(n / 10, w - 1);
    }
  }

  /** Zero-padded decimals of one width sort as the numbers do. */
  lemma {:induction false} DigitsSort(n: nat, m: nat, w: nat)
    requires n < Power10(w) && m < Power10(w)
    ensures Less(Digits(n, w), Digits(m, w)) <==> n < m
    ensures Digits(n, w) == Digits(m, w) <==> n == m
  {
    DigitsReadBack(n, w);
    DigitsReadBack(m, w);
    if w > 0 {
      DigitsSort(n / 10, m / 10, w - 1);
      LessByParts(Digits(n / 10, w - 1), Digits(m / 10, w - 1), [Digit(n % 10)], [Digit(m % 10)]);
    }
  }

  // ---------------------------------------------------------------- instants

  datatype Instant = Instant(year: nat, month: nat, day: nat, hour: nat, minute: nat, second: nat, micro: nat)

  predicate LeapYear(y: nat) {
    y % 4 == 0 && (y % 100 != 0 || y % 400 == 0)
  }

  function DaysIn(y: nat, m: nat): nat {
    if m == 2 then (if LeapYear(y) then 29 else 28) else if m in {4, 6, 9, 11} then 30 else 31
  }

  predicate Valid(t: Instant) {
    && 1 <= t.year <= 9999 && 1 <= t.month <= 12 && 1 <= t.day <= DaysIn(t.year, t.month)
    && t.hour < 24 && t.minute < 60 && t.second < 60 && t.micro < 1_000_000
  }

  function DaysBeforeYear(y: nat): int
    requires y >= 1
  {
    365 * (y - 1) + (y - 1) / 4 - (y - 1) / 100 + (y - 1) / 400
  }

  function DaysBeforeMonth(y: nat, m: nat): nat
    requires m >= 1
  {
    if m == 1 then 0 else DaysBeforeMonth(y, m - 1) + DaysIn(y, m - 1)
  }

  function DayNumber(t: Instant): int
    requires Valid(t)
  {
    DaysBeforeYear(t.year) + DaysBeforeMonth(t.year, t.month) + t.day
  }

  /** Microseconds since the start of the calendar. */
  function Micros(t: Instant): int
    requires Valid(t)
  {
    (((DayNumber(t) * 24 + t.hour) * 60 + t.minute) * 60 + t.second) * 1_000_000 + t.micro
  }

  function Fraction(micro: nat): string {
    (if micro == 0 then "" else "." + Digits(micro, 6)) + "+00:00"
  }

  function Clock(t: Instant): string {
    Digits(t.hour, 2) + (":" + (Digits(t.minute, 2) + (":" + (Digits(t.second, 2) + Fraction(t.micro)))))
  }

  function Text(t: Instant): string {
    Digits(t.year, 4) + ("-" + (Digits(t.month, 2) + ("-" + (Digits(t.day, 2) + ("T" + Clock(t))))))
  }

  // ---------------------------------------------------------------- text order is time order

  lemma {:induction false} MonthsAddUp(y: nat, m: nat, later: nat)
    requires 1 <= m < later <= 13
    ensures DaysBeforeMonth(y, m) + DaysIn(y, m) <= DaysBeforeMonth(y, later)
  {
    if later > m + 1 {
      MonthsAddUp(y, m, later - 1);
    }
  }

  lemma MonthsOfYear(y: nat)
    ensures DaysBeforeMonth(y, 13) == if LeapYear(y) then 366 else 365
  {
    assert DaysBeforeMonth(y, 2) == 31;
    assert DaysBeforeMonth(y, 4) == 62 + DaysIn(y, 2);
    assert DaysBeforeMonth(y, 6) == DaysBeforeMonth(y, 4) + 61;
    assert DaysBeforeMonth(y, 8) == DaysBeforeMonth(y, 6) + 61;
    assert DaysBeforeMonth(y, 10) == DaysBeforeMonth(y, 8) + 61;
    assert DaysBeforeMonth(y, 12) == DaysBeforeMonth(y, 10) + 61;
  }

  lemma MultiplesUpTo(y: nat, d: nat)
    requires y >= 1 && d in {4, 100, 400}
    ensures y / d == (y - 1) / d + if y % d == 0 then 1 else 0
  {
  }

  lemma CenturiesAreMultiples(y: nat)
    ensures y % 100 == 0 ==> y % 4 == 0
    ensures y % 400 == 0 ==> y % 100 == 0
  {
    if y % 100 == 0 {
      assert y == 4 * (25 * (y / 100));
    }
    if y % 400 == 0 {
      assert y == 100 * (4 * (y / 400));
    }
  }

  lemma LeapDays(y: nat)
    requires y >= 1
    ensures y / 4 - y / 100 + y / 400 == (y - 1) / 4 - (y - 1) / 100 + (y - 1) / 400 + if LeapYear(y) then 1 else 0
  {
    MultiplesUpTo(y, 4);
    MultiplesUpTo(y, 100);
    MultiplesUpTo(y, 400);
    CenturiesAreMultiples(y);
  }

  lemma YearLength(y: nat)
    requires y >= 1
    ensures DaysBeforeYear(y + 1) == DaysBeforeYear(y) + DaysBeforeMonth(y, 13)
  {
    MonthsOfYear(y);
    LeapDays(y);
  }

  lemma {:induction false} YearsAddUp(y: nat, later: nat)
    requires 1 <= y < later
    ensures DaysBeforeYear(y) + DaysBeforeMonth(y, 13) <= DaysBeforeYear(later)
    decreases later
  {
    YearLength(y);
    if later > y + 1 {
      YearsAddUp(y, later - 1);
      YearLength(later - 1);
      MonthsOfYear(later - 1);
    }
  }

  predicate EarlierDate(a: Instant, b: Instant) {
    a.year < b.year || (a.year == b.year && (a.month < b.month || (a.month == b.month && a.day < b.day)))
  }

  /** Earlier dates have smaller day numbers, across months, leap years and centuries. */
  lemma EarlierDateSmaller(a: Instant, b: Instant)
    requires Valid(a) && Valid(b) && EarlierDate(a, b)
    ensures DayNumber(a) < DayNumber(b)
  {
    if a.year < b.year {
      MonthsAddUp(a.year, a.month, 13);
      YearsAddUp(a.year, b.year);
    } else if a.month < b.month {
      MonthsAddUp(a.year, a.month, b.month);
    }
  }

  function SecondOfDay(t: Instant): nat {
    (t.hour * 60 + t.minute) * 60 + t.second
  }

  /** Time order, field by field. */
  predicate Earlier(a: Instant, b: Instant) {
    || EarlierDate(a, b)
    || (!EarlierDate(b, a)
        && (a.hour < b.hour || (a.hour == b.hour
            && (a.minute < b.minute || (a.minute == b.minute
                && (a.second < b.second || (a.second == b.second && a.micro < b.micro)))))))
  }

  lemma EarlierIsSmaller(a: Instant, b: Instant)
    requires Valid(a) && Valid(b) && Earlier(a, b)
    ensures Micros(a) < Micros(b)
  {
    assert Micros(a) == (DayNumber(a) * 86400 + SecondOfDay(a)) * 1_000_000 + a.micro;
    assert Micros(b) == (DayNumber(b) * 86400 + SecondOfDay(b)) * 1_000_000 + b.micro;
    assert SecondOfDay(a) < 86400 && SecondOfDay(b) < 86400;
    if EarlierDate(a, b) {
      EarlierDateSmaller(a, b);
    }
  }

  lemma EarlierExactly(a: Instant, b: Instant)
    requires Valid(a) && Valid(b)
    ensures Earlier(a, b) <==> Micros(a) < Micros(b)
    ensures a == b <==> Micros(a) == Micros(b)
  {
    if Earlier(a, b) {
      EarlierIsSmaller(a, b);
    } else if Earlier(b, a) {
      EarlierIsSmaller(b, a);
    }
  }

  /** One field, its separator and the rest. */
  lemma FieldSorts(n: nat, m: nat, w: nat, separator: string, a: string, b: string)
    requires n < Power10(w) && m < Power10(w)
    ensures Less(Digits(n, w) + (separator + a), Digits(m, w) + (separator + b)) <==> n < m || (n == m && Less(a, b))
  {
    DigitsSort(n, m, w);
    LessByParts(Digits(n, w), Digits(m, w), separator + a, separator + b);
    LessByParts(separator, separator, a, b);
    LessTrichotomy(separator, separator);
  }

  /** A missing fraction sorts before every present one, because '+' sorts before '.'. */
  lemma FractionSorts(n: nat, m: nat)
    requires n < 1_000_000 && m < 1_000_000
    ensures Less(Fraction(n), Fraction(m)) <==> n < m
  {
    assert Power10(6) == 1_000_000 by {
      assert Power10(2) == 100 && Power10(4) == 10_000;
    }
    var zone := "+00:00";
    LessTrichotomy(zone, zone);
    if n != 0 && m != 0 {
      DigitsSort(n, m, 6);
      LessByParts("." + Digits(n, 6), "." + Digits(m, 6), zone, zone);
      LessByParts(".", ".", Digits(n, 6), Digits(m, 6));
      LessTrichotomy(".", ".");
    } else {
      assert Fraction(0) == zone;
      assert n != 0 ==> Fraction(n)[0] == '.';
      assert m != 0 ==> Fraction(m)[0] == '.';
    }
  }

  lemma ClockSorts(a: Instant, b: Instant)
    requires Valid(a) && Valid(b)
    ensures Less(Clock(a), Clock(b)) <==>
            (a.hour < b.hour || (a.hour == b.hour
             && (a.minute < b.minute || (a.minute == b.minute
                 && (a.second < b.second || (a.second == b.second && a.micro < b.micro))))))
  {
    assert Power10(2) == 100;
    FractionSorts(a.micro, b.micro);
    DigitsSort(a.second, b.second, 2);
    LessByParts(Digits(a.second, 2), Digits(b.second, 2), Fraction(a.micro), Fraction(b.micro));
    var secondsA, secondsB := Digits(a.second, 2) + Fraction(a.micro), Digits(b.second, 2) + Fraction(b.micro);
    FieldSorts(a.minute, b.minute, 2, ":", secondsA, secondsB);
    FieldSorts(a.hour, b.hour, 2, ":", Digits(a.minute, 2) + (":" + secondsA), Digits(b.minute, 2) + (":" + secondsB));
  }

  /** Comparing the stored texts compares the instants, for all instants. */
  lemma TextOrderIsTimeOrder(a: Instant, b: Instant)
    requires Valid(a) && Valid(b)
    ensures Less(Text(a), Text(b)) <==> Micros(a) < Micros(b)
    ensures Text(a) == Text(b) <==> Micros(a) == Micros(b)
  {
    assert Power10(2) == 100 && Power10(4) == 10_000;
    ClockSorts(a, b);
    var dayA, dayB := Digits(a.day, 2) + ("T" + Clock(a)), Digits(b.day, 2) + ("T" + Clock(b));
    FieldSorts(a.day, b.day, 2, "T", Clock(a), Clock(b));
    FieldSorts(a.month, b.month, 2, "-", dayA, dayB);
    FieldSorts(a.year, b.year, 4, "-", Digits(a.month, 2) + ("-" + dayA), Digits(b.month, 2) + ("-" + dayB));
    EarlierExactly(a, b);
    if Text(a) == Text(b) {
      ReadBack(a);
      ReadBack(b);
    }
  }

  // ---------------------------------------------------------------- reading the text back

  function TakeDigits(text: string, w: nat): Option<(nat, string)> {
    if |text| >= w && (forall i :: 0 <= i < w ==> IsDigit(text[..w][i])) then Some((Value(text[..w]), text[w..]))
    else None
  }

  function TakeText(text: string, expected: string): Option<string> {
    if expected <= text then Some(text[|expected|..]) else None
  }

  /** One separator, then a number of fixed width. */
  function TakeField(text: string, separator: string, w: nat): Option<(nat, string)> {
    match TakeText(text, separator)
    case None => None
    case Some(rest) => TakeDigits(rest, w)
  }

  function ParseFraction(text: string): Option<nat> {
    if text == "+00:00" then Some(0)
    else match TakeField(text, ".", 6)
         case Some((micro, rest)) => if rest == "+00:00" then Some(micro) else None
         case None => None
  }

  function ParseClock(text: string): Option<(nat, nat, nat, nat)> {
    match TakeField(text, "T", 2)
    case None => None
    case Some((hour, r1)) =>
      match TakeField(r1, ":", 2)
      case None => None
      case Some((minute, r2)) =>
        match TakeField(r2, ":", 2)
        case None => None
        case Some((second, r3)) =>
          match ParseFraction(r3)
          case None => None
          case Some(micro) => Some((hour, minute, second, micro))
  }

  /** Reads the texts this program writes; anything else is not an instant. */
  function Parse(text: string): Option<Instant> {
    match TakeDigits(text, 4)
    case None => None
    case Some((year, r1)) =>
      match TakeField(r1, "-", 2)
      case None => None
      case Some((month, r2)) =>
        match TakeField(r2, "-", 2)
        case None => None
        case Some((day, r3)) =>
          match ParseClock(r3)
          case None => None
          case Some((hour, minute, second, micro)) =>
            var t := Instant(year, month, day, hour, minute, second, micro);
            if Valid(t) then Some(t) else None
  }

  lemma DigitsTaken(n: nat, w: nat, rest: string)
    requires n < Power10(w)
    ensures TakeDigits(Digits(n, w) + rest, w) == Some((n, rest))
  {
    DigitsReadBack(n, w);
    assert (Digits(n, w) + rest)[..w] == Digits(n, w);
    assert (Digits(n, w) + rest)[w..] == rest;
  }

  lemma FieldTaken(separator: string, n: nat, w: nat, rest: string)
    requires n < Power10(w)
    ensures TakeField(separator + (Digits(n, w) + rest), separator, w) == Some((n, rest))
  {
    assert (separator + (Digits(n, w) + rest))[|separator|..] == Digits(n, w) + rest;
    DigitsTaken(n, w, rest);
  }

  lemma FractionReadBack(micro: nat)
    requires micro < 1_000_000
    ensures ParseFraction(Fraction(micro)) == Some(micro)
  {
    if micro != 0 {
      assert Power10(6) == 1_000_000 by {
        assert Power10(2) == 100 && Power10(4) == 10_000;
      }
      assert Fraction(micro) == "." + (Digits(micro, 6) + "+00:00");
      FieldTaken(".", micro, 6, "+00:00");
      assert Fraction(micro)[0] == '.';
    }
  }

  lemma ClockReadBack(t: Instant)
    requires Valid(t)
    ensures ParseClock("T" + Clock(t)) == Some((t.hour, t.minute, t.second, t.micro))
  {
    assert Power10(2) == 100;
    var seconds := Digits(t.second, 2) + Fraction(t.micro);
    FieldTaken("T", t.hour, 2, ":" + (Digits(t.minute, 2) + (":" + seconds)));
    FieldTaken(":", t.minute, 2, ":" + seconds);
    FieldTaken(":", t.second, 2, Fraction(t.micro));
    FractionReadBack(t.micro);
  }

  /** Parsing the stored text returns the instant. */
  lemma ReadBack(t: Instant)
    requires Valid(t)
    ensures Parse(Text(t)) == Some(t)
  {
    assert Power10(2) == 100 && Power10(4) == 10_000;
    var day := Digits(t.day, 2) + ("T" + Clock(t));
    DigitsTaken(t.year, 4, "-" + (Digits(t.month, 2) + ("-" + day)));
    FieldTaken("-", t.month, 2, "-" + day);
    FieldTaken("-", t.day, 2, "T" + Clock(t));
    ClockReadBack(t);
  }

  // ---------------------------------------------------------------- the column type

  datatype Dialect = Sqlite | Postgresql

  /** A timestamp column holds text on SQLite and an instant on PostgreSQL. */
  datatype Stored = AsText(text: string) | AsInstant(instant: Instant)

  function ReplaceZ(text: string): string {
    if text == "" then "" else (if text[0] == 'Z' then "+00:00" else [text[0]]) + ReplaceZ(text[1..])
  }

  function BindParam(dialect: Dialect, text: string): Option<Stored> {
    if dialect == Sqlite then Some(AsText(text))
    else match Parse(ReplaceZ(text))
         case Some(t) => Some(AsInstant(t))
         case None => None
  }

  function ResultValue(stored: Stored): string {
    match stored
    case AsText(text) => text
    case AsInstant(t) => Text(t)
  }

  predicate StoredBefore(a: Stored, b: Stored)
    requires a.AsText? <==> b.AsText?
    requires (a.AsInstant? ==> Valid(a.instant)) && (b.AsInstant? ==> Valid(b.instant))
  {
    if a.AsText? then Less(a.text, b.text) else Micros(a.instant) < Micros(b.instant)
  }

  lemma {:induction false} NothingToReplace(text: string)
    requires 'Z' !in text
    ensures ReplaceZ(text) == text
  {
    if text != "" {
      NothingToReplace(text[1..]);
      assert text == [text[0]] + text[1..];
    }
  }

  lemma {:induction false} DigitsHaveNoZ(n: nat, w: nat)
    ensures 'Z' !in Digits(n, w)
  {
    if w > 0 {
      DigitsHaveNoZ(n / 10, w - 1);
    }
  }

  /** One field, its separator and the rest. */
  lemma FieldHasNoZ(n: nat, w: nat, separator: string, rest: string)
    requires 'Z' !in separator && 'Z' !in rest
    ensures 'Z' !in Digits(n, w) + (separator + rest)
  {
    DigitsHaveNoZ(n, w);
  }

  lemma ClockHasNoZ(t: Instant)
    ensures 'Z' !in Clock(t)
  {
    DigitsHaveNoZ(t.micro, 6);
    assert "" + Fraction(t.micro) == Fraction(t.micro);
    FieldHasNoZ(t.second, 2, "", Fraction(t.micro));
    FieldHasNoZ(t.minute, 2, ":", Digits(t.second, 2) + Fraction(t.micro));
    FieldHasNoZ(t.hour, 2, ":", Digits(t.minute, 2) + (":" + (Digits(t.second, 2) + Fraction(t.micro))));
  }

  lemma TextHasNoZ(t: Instant)
    ensures 'Z' !in Text(t)
  {
    ClockHasNoZ(t);
    FieldHasNoZ(t.day, 2, "T", Clock(t));
    FieldHasNoZ(t.month, 2, "-", Digits(t.day, 2) + ("T" + Clock(t)));
    FieldHasNoZ(t.year, 4, "-", Digits(t.month, 2) + ("-" + (Digits(t.day, 2) + ("T" + Clock(t)))));
  }

  /** Both databases give back the text that was stored and compare stored values as the clock does. */
  lemma ColumnsAgree(dialect: Dialect, a: Instant, b: Instant)
    requires Valid(a) && Valid(b)
    ensures BindParam(dialect, Text(a)).Some? && BindParam(dialect, Text(b)).Some?
    ensures ResultValue(BindParam(dialect, Text(a)).value) == Text(a)
    ensures StoredBefore(BindParam(dialect, Text(a)).value, BindParam(dialect, Text(b)).value)
            <==> Micros(a) < Micros(b)
  {
    TextHasNoZ(a);
    TextHasNoZ(b);
    NothingToReplace(Text(a));
    NothingToReplace(Text(b));
    ReadBack(a);
    ReadBack(b);
    TextOrderIsTimeOrder(a, b);
  }
}
