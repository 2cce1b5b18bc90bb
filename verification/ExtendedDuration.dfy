/**
 Durations with a day or week unit (cmd/qivitals-cli/cmd/parsing_utils.go): they are rewritten to
 hours with 64-bit arithmetic and handed to the standard parser, which is a parameter here.
 */
module ExtendedDuration {
  import opened Wrappers
  import opened Strings

  const MAX_INT64: int := 0x7FFF_FFFF_FFFF_FFFF
  const NANOS_PER_HOUR: int := 3_600_000_000_000

  /** The hours that fit a duration, which is a 64-bit number of nanoseconds. */
  const MAX_HOURS: int := 2_562_047

  /** Two's-complement wrap-around of a 64-bit product. */
  function Wrap64(x: int): (r: int)
    ensures -MAX_INT64 - 1 <= r <= MAX_INT64
    ensures -MAX_INT64 - 1 <= x <= MAX_INT64 ==> r == x
  {
    (x + MAX_INT64 + 1) % 0x1_0000_0000_0000_0000 - MAX_INT64 - 1
  }

  /** strconv.Atoi on digits with its error ignored: too large a number becomes the largest one. */
  function ClampedValue(digits: string): (n: nat)
    requires AllDigits(digits)
    ensures n <= MAX_INT64
  {
    if DigitsValue(digits) <= MAX_INT64 then DigitsValue(digits) else MAX_INT64
  }

  function PrintInt(n: int): string {
    if n < 0 then "-" + Digits(-n) else Digits(n)
  }

  function HoursPerUnit(unit: char): int {
    if unit == 'w' then 168 else 24
  }

  /** The text handed to the standard parser. */
  function ToHours(s: string): string {
    if |s| >= 2 && AllDigits(s[..|s| - 1]) && (s[|s| - 1] == 'w' || s[|s| - 1] == 'd')
    then PrintInt(Wrap64(ClampedValue(s[..|s| - 1]) * HoursPerUnit(s[|s| - 1]))) + "h"
    else s
  }

  type DurationParser = string -> Option<int>

  /** ParseExtendedDuration; the result is in nanoseconds. */
  function ParseExtended(s: string, std: DurationParser): Option<int> {
    std(ToHours(s))
  }

  /** What time.ParseDuration does with a whole number of hours. */
  ghost predicate ParsesHours(std: DurationParser) {
    forall n: nat ::
      var fits, nanos := n <= 2_562_047, n * 3_600_000_000_000;
      && std(Digits(n) + "h") == (if fits then Some(nanos) else None)
      && std("-" + Digits(n) + "h") == if fits then Some(-nanos) else None
  }

  lemma PrintedHours(h: int, std: DurationParser)
    requires ParsesHours(std)
    ensures std(PrintInt(h) + "h") == if -MAX_HOURS <= h <= MAX_HOURS then Some(h * NANOS_PER_HOUR) else None
  {
    hide Digits;
    assert std(Digits(if h < 0 then -h else h) + "h").Some? <==> -MAX_HOURS <= h <= MAX_HOURS;
  }

  lemma UnitText(digits: string, unit: char)
    requires digits != "" && AllDigits(digits) && (unit == 'w' || unit == 'd')
    ensures ToHours(digits + [unit]) == PrintInt(Wrap64(ClampedValue(digits) * HoursPerUnit(unit))) + "h"
  {
    var s := digits + [unit];
    assert s[..|s| - 1] == digits;
  }

  /** A day is 24 and a week 168 hours. */
  function NanosPerUnit(unit: char): int {
    if unit == 'w' then 604_800_000_000_000 else 86_400_000_000_000
  }

  /** A count of days or weeks denotes that many of them exactly up to the longest; beyond, never. */
  lemma ExactIffShort(digits: string, unit: char, std: DurationParser)
    requires ParsesHours(std)
    requires digits != "" && AllDigits(digits) && (unit == 'w' || unit == 'd')
    ensures var n := DigitsValue(digits);
            ParseExtended(digits + [unit], std) == Some(n * NanosPerUnit(unit)) <==>
            n <= if unit == 'w' then 15_250 else 106_751
  {
    hide ToHours, PrintInt, DigitsValue, ParsesHours;
    UnitText(digits, unit);
    PrintedHours(Wrap64(ClampedValue(digits) * HoursPerUnit(unit)), std);
  }

  /** A count that fits means the same as its plain form in hours. */
  lemma AgreesWithHours(digits: string, unit: char, std: DurationParser)
    requires ParsesHours(std)
    requires digits != "" && AllDigits(digits) && (unit == 'w' || unit == 'd')
    requires DigitsValue(digits) <= if unit == 'w' then 15_250 else 106_751
    ensures ParseExtended(digits + [unit], std) ==
            ParseExtended(Digits(DigitsValue(digits) * if unit == 'w' then 168 else 24) + "h", std)
  {
    hide ToHours, DigitsValue, Wrap64, Digits;
    UnitText(digits, unit);
    PlainHours(PrintInt(DigitsValue(digits) * HoursPerUnit(unit)) + "h");
  }

  lemma PlainHours(s: string)
    requires s != "" && s[|s| - 1] == 'h'
    ensures ToHours(s) == s
  {
  }

  /** A count too large for 64 bits is not refused: it means minus one day or minus one week. */
  lemma HugeCountIsMinusOne(digits: string, unit: char, std: DurationParser)
    requires ParsesHours(std)
    requires digits != "" && AllDigits(digits) && (unit == 'w' || unit == 'd')
    requires DigitsValue(digits) >= MAX_INT64
    ensures ParseExtended(digits + [unit], std) == Some(-NanosPerUnit(unit))
  {
    hide ToHours, PrintInt, DigitsValue, ParsesHours;
    PrintedHours(-HoursPerUnit(unit), std);
    UnitText(digits, unit);
    assert ClampedValue(digits) == MAX_INT64;
    assert Wrap64(MAX_INT64 * HoursPerUnit(unit)) == -HoursPerUnit(unit) by {
      WrapOf(MAX_INT64 * HoursPerUnit(unit), HoursPerUnit(unit) / 2, -HoursPerUnit(unit));
    }
  }

  lemma WrapOf(x: int, turns: int, r: int)
    requires x == turns * 0x1_0000_0000_0000_0000 + r
    requires -MAX_INT64 - 1 <= r <= MAX_INT64
    ensures Wrap64(x) == r
  {
  }

  /** A count within 64 bits whose hours are not can mean a short positive time. */
  lemma LargeCountCanBeEightHours(std: DurationParser)
    requires ParsesHours(std)
    ensures var n := 768_614_336_404_564_651;
            n <= MAX_INT64 && ParseExtended(Digits(n) + "d", std) == Some(28_800_000_000_000)
  {
    hide ToHours, PrintInt, DigitsValue, Digits, ParsesHours;
    PrintedHours(8, std);
    var n := 768_614_336_404_564_651;
    DigitsRoundTrip(n);
    UnitText(Digits(n), 'd');
    WrapOf(n * 24, 1, 8);
  }
}
