/**
 * The `title` of an `abbr` element holding a timestamp, read with the chrono
 * format `%d %B %Y @ %H:%M UTC` (for example "05 March 2023 @ 14:30 UTC").
 * The model accepts the canonical rendering only: two-digit day, hour and
 * minute, four-digit year and the full English month name.
 */
module DateTitles {
  import opened Results
  import opened Numbers

  /** A UTC date and time to the minute (`DateTime<Utc>` with zero seconds). */
  datatype DateTime = DateTime(year: int, month: int, day: int, hour: int, minute: int)

  /** `DateTime::<Utc>::default()`: the Unix epoch. */
  const UnixEpoch := DateTime(1970, 1, 1, 0, 0)

  /** The English name of month `m`, as `%B` writes it. */
  function MonthName(m: int): string
    requires 1 <= m <= 12
  {
    match m
    case 1 => "January"
    case 2 => "February"
    case 3 => "March"
    case 4 => "April"
    case 5 => "May"
    case 6 => "June"
    case 7 => "July"
    case 8 => "August"
    case 9 => "September"
    case 10 => "October"
    case 11 => "November"
    case 12 => "December"
  }

  predicate IsLeapYear(y: int)
  {
    y % 4 == 0 && (y % 100 != 0 || y % 400 == 0)
  }

  function DaysInMonth(y: int, m: int): int
    requires 1 <= m <= 12
  {
    if m == 2 then (if IsLeapYear(y) then 29 else 28)
    else if m in {4, 6, 9, 11} then 30
    else 31
  }

  /** A calendar date that exists, at a time of day, with a four-digit year. */
  predicate IsValid(dt: DateTime)
  {
    0 <= dt.year <= 9999 && 1 <= dt.month <= 12 && 1 <= dt.day <= DaysInMonth(dt.year, dt.month)
    && 0 <= dt.hour <= 23 && 0 <= dt.minute <= 59
  }

  /** Two decimal digits, with a leading zero. */
  function Two(n: nat): (s: string)
    requires n < 100
    ensures |s| == 2 && AllDigits(s)
  {
    [DigitChar(n / 10), DigitChar(n % 10)]
  }

  /** Four decimal digits, with leading zeros. */
  function Four(n: nat): (s: string)
    requires n < 10000
    ensures |s| == 4 && AllDigits(s)
  {
    Two(n / 100) + Two(n % 100)
  }

  /** The part of a title after the month name. */
  function YearAndTime(year: nat, hour: nat, minute: nat): string
    requires year < 10000 && hour < 100 && minute < 100
  {
    Four(year) + " @ " + Two(hour) + ":" + Two(minute) + " UTC"
  }

  /** The title itch.io writes for a timestamp. */
  function FormatDateTitle(dt: DateTime): (s: string)
    requires IsValid(dt)
  {
    Two(dt.day) + " " + MonthName(dt.month) + " " + YearAndTime(dt.year, dt.hour, dt.minute)
  }

  /** The first month from `m` on whose name and a space begin `s`, or 0 when there is none. */
  function FindMonth(s: string, m: int): (r: int)
    requires 1 <= m
    ensures r == 0 || (m <= r <= 12 && MonthName(r) + " " <= s)
    decreases 13 - m
  {
    if m > 12 then 0
    else if MonthName(m) + " " <= s then m
    else FindMonth(s, m + 1)
  }

  /** The part after the month name: four-digit year, " @ ", hour, ":", minute, " UTC". */
  function ParseYearAndTime(t: string): Option<(int, int, int)>
  {
    if |t| != 16 || t[4..7] != " @ " || t[9] != ':' || t[12..] != " UTC"
       || !AllDigits(t[..4]) || !AllDigits(t[7..9]) || !AllDigits(t[10..12]) then None
    else Some((DigitsValue(t[..4]), DigitsValue(t[7..9]), DigitsValue(t[10..12])))
  }

  /**
   * `NaiveDateTime::parse_from_str(title, "%d %B %Y @ %H:%M UTC")`, for
   * canonical titles: every title that is read is valid and is exactly the
   * rendering of the date it is read as.
   */
  function ParseDateTitle(s: string): (r: Option<DateTime>)
    ensures r.Some? ==> IsValid(r.value) && FormatDateTitle(r.value) == s
  {
    if |s| < 3 || s[2] != ' ' || !AllDigits(s[..2]) then None
    else
      var rest := s[3..];
      var m := FindMonth(rest, 1);
      if m == 0 then None
      else match ParseYearAndTime(rest[|MonthName(m)| + 1..])
        case None => None
        case Some((year, hour, minute)) =>
          var dt := DateTime(year, m, DigitsValue(s[..2]), hour, minute);
          if IsValid(dt) then
            ParsedYearAndTimeIsCanonical(rest[|MonthName(m)| + 1..]);
            TwoOfDigits(s[..2]);
            CanonicalPieces(s, s[..2], MonthName(m), rest[|MonthName(m)| + 1..]);
            Some(dt)
          else None
  }

  // ---------------------------------------------------------------------------
  // Parsing and formatting are inverse to each other.

  /** The value of a two-character digit string. */
  lemma DigitsValueOfTwo(s: string)
    requires |s| == 2 && AllDigits(s)
    ensures DigitsValue(s) == DigitValue(s[0]) * 10 + DigitValue(s[1])
  {
    assert s[..1] == [s[0]] && s[..1][..0] == [];
    assert DigitsValue(s[..1]) == DigitValue(s[0]);
  }

  lemma TwoValue(n: nat)
    requires n < 100
    ensures DigitsValue(Two(n)) == n
  {
    DigitsValueOfTwo(Two(n));
    assert (n / 10) * 10 + n % 10 == n;
  }

  lemma TwoOfDigits(s: string)
    requires |s| == 2 && AllDigits(s)
    ensures DigitsValue(s) < 100 && Two(DigitsValue(s)) == s
  {
    DigitsValueOfTwo(s);
    var v, h, l := DigitsValue(s), DigitValue(s[0]), DigitValue(s[1]);
    assert v / 10 == h && v % 10 == l;
    assert DigitChar(h) == s[0] && DigitChar(l) == s[1];
  }

  lemma DigitsValueAppend(a: string, b: string)
    requires AllDigits(a) && AllDigits(b) && |b| == 2
    ensures AllDigits(a + b) && DigitsValue(a + b) == DigitsValue(a) * 100 + DigitsValue(b)
  {
    var ab := a + b;
    var a0 := a + [b[0]];
    assert ab[..|ab| - 1] == a0 && ab[|ab| - 1] == b[1];
    assert a0[..|a0| - 1] == a && a0[|a0| - 1] == b[0];
    assert DigitsValue(ab) == DigitsValue(a0) * 10 + DigitValue(b[1]);
    assert DigitsValue(a0) == DigitsValue(a) * 10 + DigitValue(b[0]);
    DigitsValueOfTwo(b);
  }

  lemma FourValue(n: nat)
    requires n < 10000
    ensures DigitsValue(Four(n)) == n
  {
    DigitsValueAppend(Two(n / 100), Two(n % 100));
    TwoValue(n / 100);
    TwoValue(n % 100);
  }

  lemma FourOfDigits(s: string)
    requires |s| == 4 && AllDigits(s)
    ensures DigitsValue(s) < 10000 && Four(DigitsValue(s)) == s
  {
    var high, low := s[..2], s[2..];
    assert s == high + low;
    DigitsValueAppend(high, low);
    TwoOfDigits(high);
    TwoOfDigits(low);
    SplitHundreds(DigitsValue(high), DigitsValue(low));
  }

  /** The hundreds and the rest of `hundreds * 100 + rest`. */
  lemma SplitHundreds(hundreds: nat, rest: nat)
    requires hundreds < 100 && rest < 100
    ensures (hundreds * 100 + rest) / 100 == hundreds && (hundreds * 100 + rest) % 100 == rest
    ensures hundreds * 100 + rest < 10000
  {
  }

  /** In a space-free word followed by a space, the first space is right after the word. */
  lemma FirstSpace(x: string, tail: string, k: int)
    requires ' ' !in x && 0 <= k <= |x|
    ensures (x + " " + tail)[k] == ' ' <==> k == |x|
  {
    if k < |x| {
      assert (x + " " + tail)[k] == x[k] && x[k] in x;
    }
  }

  /** A month name, followed by a space, is a prefix of no other month's name followed by a space. */
  lemma MonthPrefixUnique(i: int, j: int, tail: string)
    requires 1 <= i <= 12 && 1 <= j <= 12
    requires MonthName(i) + " " <= MonthName(j) + " " + tail
    ensures i == j
  {
    var a, b := MonthName(i), MonthName(j);
    MonthNameHasNoSpace(i);
    MonthNameHasNoSpace(j);
    var target := b + " " + tail;
    var k := if |a| < |b| then |a| else |b|;
    assert (a + " ")[k] == target[k];
    FirstSpace(a, "", k);
    assert a + " " + "" == a + " ";
    FirstSpace(b, tail, k);
    assert |a| == |b|;
    assert a == (a + " ")[..|a|] == target[..|b|] == b;
    MonthNamesDistinct(i, j);
  }

  lemma MonthNameHasNoSpace(m: int)
    requires 1 <= m <= 12
    ensures ' ' !in MonthName(m)
  {
  }

  lemma MonthNamesDistinct(i: int, j: int)
    requires 1 <= i <= 12 && 1 <= j <= 12 && MonthName(i) == MonthName(j)
    ensures i == j
  {
  }

  lemma {:induction false} FindMonthOfName(m: int, tail: string, from: int)
    requires 1 <= from <= m <= 12
    ensures FindMonth(MonthName(m) + " " + tail, from) == m
    decreases m - from
  {
    var s := MonthName(m) + " " + tail;
    assert MonthName(m) + " " <= s;
    if from < m {
      if MonthName(from) + " " <= s {
        MonthPrefixUnique(from, m, tail);
      }
      FindMonthOfName(m, tail, from + 1);
    }
  }

  lemma ParseFormattedYearAndTime(year: nat, hour: nat, minute: nat)
    requires year < 10000 && hour < 100 && minute < 100
    ensures ParseYearAndTime(YearAndTime(year, hour, minute)) == Some((year, hour, minute))
  {
    var t := Four(year) + " @ " + Two(hour) + ":" + Two(minute) + " UTC";
    assert t[..4] == Four(year) && t[4..7] == " @ " && t[7..9] == Two(hour);
    assert t[9] == ':' && t[10..12] == Two(minute) && t[12..] == " UTC";
    FourValue(year);
    TwoValue(hour);
    TwoValue(minute);
  }

  lemma ParsedYearAndTimeIsCanonical(t: string)
    requires ParseYearAndTime(t).Some?
    ensures var (year, hour, minute) := ParseYearAndTime(t).value;
            year < 10000 && hour < 100 && minute < 100
            && t == YearAndTime(year, hour, minute)
  {
    FourOfDigits(t[..4]);
    TwoOfDigits(t[7..9]);
    TwoOfDigits(t[10..12]);
    assert t == t[..4] + " @ " + t[7..9] + ":" + t[10..12] + " UTC";
  }

  /** Every valid timestamp is read back from its title. */
  lemma ParseFormattedTitle(dt: DateTime)
    requires IsValid(dt)
    ensures ParseDateTitle(FormatDateTitle(dt)) == Some(dt)
  {
    var s := FormatDateTitle(dt);
    var name := MonthName(dt.month);
    var t := YearAndTime(dt.year, dt.hour, dt.minute);
    assert s == Two(dt.day) + " " + (name + " " + t);
    assert s[..2] == Two(dt.day) && s[2] == ' ';
    var rest := s[3..];
    assert rest == name + " " + t;
    FindMonthOfName(dt.month, t, 1);
    assert rest[|name| + 1..] == t;
    ParseFormattedYearAndTime(dt.year, dt.hour, dt.minute);
    TwoValue(dt.day);
  }

  lemma CanonicalPieces(s: string, day: string, name: string, t: string)
    requires |s| >= 3 && day == s[..2] && s[2] == ' '
    requires name + " " <= s[3..] && t == s[3..][|name| + 1..]
    ensures s == day + " " + name + " " + t
  {
    assert s[3..] == name + " " + t;
  }
}
