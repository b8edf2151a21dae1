/**
 * vagas.py, the `date_posted` field: `datetime.fromisoformat(value)` and
 * `strftime("%d/%m/%Y")`, for the ISO forms a search API sends.
 */
module IsoDate {
  import opened Results
  import opened Text

  datatype Date = Date(year: nat, month: nat, day: nat)

  predicate LeapYear(y: nat) {
    y % 4 == 0 && (y % 100 != 0 || y % 400 == 0)
  }

  function DaysInMonth(year: nat, month: nat): nat {
    if month == 2 then (if LeapYear(year) then 29 else 28)
    else if month == 4 || month == 6 || month == 9 || month == 11 then 30
    else 31
  }

  /** A date Python's `datetime` accepts: years 1 to 9999 and a real day of the month. */
  predicate ValidDate(d: Date) {
    1 <= d.year <= 9999 && 1 <= d.month <= 12 && 1 <= d.day <= DaysInMonth(d.year, d.month)
  }

  /** The number spelled by the `width` characters at `i`, if they are all digits. */
  function NumberAt(s: string, i: nat, width: nat): Option<nat>
    requires i + width <= |s|
  {
    if AllDigits(s[i..i + width]) then Some(DigitsValue(s[i..i + width])) else None
  }

  /** Two digits at `i` spelling a number below `bound`. */
  predicate TwoDigitsBelow(t: string, i: nat, bound: nat)
    requires i + 2 <= |t|
  {
    NumberAt(t, i, 2).Some? && NumberAt(t, i, 2).value < bound
  }

  /** A time of day `HH`, `HH:MM` or `HH:MM:SS`. */
  predicate ValidClock(t: string) {
    && (|t| == 2 || |t| == 5 || |t| == 8)
    && TwoDigitsBelow(t, 0, 24)
    && (|t| >= 5 ==> t[2] == ':' && TwoDigitsBelow(t, 3, 60))
    && (|t| == 8 ==> t[5] == ':' && TwoDigitsBelow(t, 6, 60))
  }

  /**
   * `datetime.fromisoformat` for `YYYY-MM-DD`, optionally followed by any
   * one separator character and a time of day; None stands for ValueError.
   */
  function ParseIso(s: string): (r: Option<Date>)
    ensures r.Some? ==> ValidDate(r.value)
  {
    if |s| < 10 || s[4] != '-' || s[7] != '-' then None
    else if |s| != 10 && !(|s| > 11 && ValidClock(s[11..])) then None
    else
      match (NumberAt(s, 0, 4), NumberAt(s, 5, 2), NumberAt(s, 8, 2))
      case (Some(y), Some(m), Some(d)) => if ValidDate(Date(y, m, d)) then Some(Date(y, m, d)) else None
      case _ => None
  }

  /** The `YYYY-MM-DD` text of a date. */
  function IsoText(d: Date): (r: string)
    requires ValidDate(d)
    ensures |r| == 10
  {
    ZeroPad(d.year, 4) + "-" + ZeroPad(d.month, 2) + "-" + ZeroPad(d.day, 2)
  }

  /** `strftime("%d/%m/%Y")`. */
  function DayMonthYear(d: Date): (r: string)
    requires ValidDate(d)
    ensures |r| == 10 && r[2] == '/' && r[5] == '/'
  {
    ZeroPad(d.day, 2) + "/" + ZeroPad(d.month, 2) + "/" + ZeroPad(d.year, 4)
  }

  /** A run of digits is the zero-padded text of its own value. */
  lemma {:induction false} ZeroPadOfDigits(t: string)
    requires AllDigits(t)
    ensures DigitsValue(t) < Pow10(|t|)
    ensures ZeroPad(DigitsValue(t), |t|) == t
  {
    if t != [] {
      var init := t[..|t| - 1];
      ZeroPadOfDigits(init);
      var high, digit := DigitsValue(init), t[|t| - 1] as int - '0' as int;
      assert IsDigit(t[|t| - 1]) && 0 <= digit < 10;
      assert DigitsValue(t) == 10 * high + digit;
      assert Pow10(|t|) == 10 * Pow10(|init|);
      assert DigitsValue(t) / 10 == high && DigitsValue(t) % 10 == digit;
      assert DigitChar(digit) == t[|t| - 1];
      assert t == init + [t[|t| - 1]];
    }
  }

  /** Parsing the ISO text of a valid date gives the date back. */
  lemma ParseIsoText(d: Date)
    requires ValidDate(d)
    ensures ParseIso(IsoText(d)) == Some(d)
  {
    var s := IsoText(d);
    assert s[0..4] == ZeroPad(d.year, 4);
    assert s[5..7] == ZeroPad(d.month, 2);
    assert s[8..10] == ZeroPad(d.day, 2);
  }

  /** A parsed date is the one its first ten characters spell. */
  lemma ParsedDatePrefix(s: string)
    requires ParseIso(s).Some?
    ensures IsoText(ParseIso(s).value) == s[..10]
  {
    var d := ParseIso(s).value;
    ZeroPadOfDigits(s[0..4]);
    ZeroPadOfDigits(s[5..7]);
    ZeroPadOfDigits(s[8..10]);
    assert s[..10] == s[0..4] + "-" + s[5..7] + "-" + s[8..10];
  }

  /** A time of day after any separator does not change the parsed date. */
  lemma ParseIsoWithClock(d: Date, sep: char, clock: string)
    requires ValidDate(d) && ValidClock(clock)
    ensures ParseIso(IsoText(d) + [sep] + clock) == Some(d)
  {
    var s := IsoText(d) + [sep] + clock;
    assert s[..10] == IsoText(d);
    assert s[11..] == clock;
    assert s[0..4] == ZeroPad(d.year, 4);
    assert s[5..7] == ZeroPad(d.month, 2);
    assert s[8..10] == ZeroPad(d.day, 2);
  }

  /** Text that parses as a date starts and ends with a digit. */
  lemma ParsedTextEnds(s: string)
    requires ParseIso(s).Some?
    ensures IsDigit(s[0]) && IsDigit(s[|s| - 1])
  {
    assert AllDigits(s[0..4]) && s[0..4][0] == s[0];
    if |s| == 10 {
      assert AllDigits(s[8..10]) && s[8..10][1] == s[9];
    } else {
      var t := s[11..];
      var k := |t| - 2;
      assert TwoDigitsBelow(t, k, 60) || TwoDigitsBelow(t, k, 24);
      assert AllDigits(t[k..k + 2]) && t[k..k + 2][1] == t[|t| - 1] == s[|s| - 1];
    }
  }

  /** The padded numbers of 1 March 2024. */
  lemma ExamplePaddings()
    ensures ZeroPad(2024, 4) == "2024"
    ensures ZeroPad(3, 2) == "03" && ZeroPad(1, 2) == "01"
  {
    assert ZeroPad(202, 3) == "202";
  }

  /** The two texts of 1 March 2024. */
  lemma ExampleDateTexts()
    ensures IsoText(Date(2024, 3, 1)) == "2024-03-01"
    ensures DayMonthYear(Date(2024, 3, 1)) == "01/03/2024"
  {
    ExamplePaddings();
  }
}
