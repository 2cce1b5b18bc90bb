/**
 The duration fields of the sensor page (internal/web/templates/pages/sensor-details.html): the
 printer that fills them and the parser that reads them back, down to the characters.
 */
module Durations {
  import opened Wrappers
  import opened Strings

  /** A number and its unit letter. */
  type Part = (nat, char)

  predicate IsUnit(c: char) {
    c in {'s', 'm', 'h', 'd'}
  }

  function UnitSeconds(unit: char): nat {
    match unit
    case 'd' => 86400
    case 'h' => 3600
    case 'm' => 60
    case 's' => 1
    case _ => 0
  }

  function Total(parts: seq<Part>): nat {
    if parts == [] then 0 else parts[0].0 * UnitSeconds(parts[0].1) + Total(parts[1..])
  }

  /** White space of JavaScript's trim and of \s. */
  predicate IsSpace(c: char) {
    var code := c as int;
    || 0x9 <= code <= 0xD || code in {0x20, 0xA0, 0x1680, 0x2028, 0x2029, 0x202F, 0x205F, 0x3000, 0xFEFF}
    || 0x2000 <= code <= 0x200A
  }

  predicate AllSpace(s: string) {
    forall i :: 0 <= i < |s| ==> IsSpace(s[i])
  }

  // ---- the pattern ---------------------------------------------------------------------

  /** The pattern matches s[i..j], the number being s[i..d]. */
  predicate IsMatch(s: string, i: int, d: int, j: int) {
    0 <= i < d < j <= |s| && AllDigits(s[i..d]) && AllSpace(s[d..j - 1]) && IsUnit(s[j - 1])
  }

  function DigitRun(s: string): (k: nat)
    ensures k <= |s| && AllDigits(s[..k])
    ensures k < |s| ==> !IsDigit(s[k])
  {
    if s == "" || !IsDigit(s[0]) then 0 else
      var k := DigitRun(s[1..]);
      assert s[..1 + k] == [s[0]] + s[1..][..k];
      1 + k
  }

  function SpaceRun(s: string): (k: nat)
    ensures k <= |s| && AllSpace(s[..k])
    ensures k < |s| ==> !IsSpace(s[k])
  {
    if s == "" || !IsSpace(s[0]) then 0 else
      var k := SpaceRun(s[1..]);
      assert s[..1 + k] == [s[0]] + s[1..][..k];
      1 + k
  }

  /** Where the number and the match end, if the pattern matches at the start of `s`. */
  function MatchAt(s: string): Option<(nat, nat)> {
    var d := DigitRun(s);
    var j := d + SpaceRun(s[d..]);
    if 0 < d && j < |s| && IsUnit(s[j]) then Some((d, j + 1)) else None
  }

  lemma CharacterKinds(c: char)
    ensures IsDigit(c) ==> !IsSpace(c) && !IsUnit(c)
    ensures IsUnit(c) ==> !IsSpace(c)
  {
  }

  lemma DigitRunIs(s: string, k: nat)
    requires k <= |s| && AllDigits(s[..k]) && (k < |s| ==> !IsDigit(s[k]))
    ensures DigitRun(s) == k
  {
    var run := DigitRun(s);
    assert forall i | 0 <= i < k :: s[..k][i] == s[i];
    assert forall i | 0 <= i < run :: s[..run][i] == s[i];
  }

  lemma SpaceRunIs(s: string, k: nat)
    requires k <= |s| && AllSpace(s[..k]) && (k < |s| ==> !IsSpace(s[k]))
    ensures SpaceRun(s) == k
  {
    var run := SpaceRun(s);
    assert forall i | 0 <= i < k :: s[..k][i] == s[i];
    assert forall i | 0 <= i < run :: s[..run][i] == s[i];
  }

  /** However a matcher backtracks, the greedy match is the only one at a given start. */
  lemma MatchIsForced(s: string, d: int, j: int)
    ensures IsMatch(s, 0, d, j) <==> d >= 0 && j >= 0 && MatchAt(s) == Some((d, j))
  {
    if IsMatch(s, 0, d, j) {
      assert s[..d] == s[0..d] && s[d..][..j - 1 - d] == s[d..j - 1];
      assert !IsDigit(s[d]) by {
        if d < j - 1 {
          assert s[d] == s[d..j - 1][0];
        }
        CharacterKinds(s[d]);
      }
      CharacterKinds(s[j - 1]);
      DigitRunIs(s, d);
      SpaceRunIs(s[d..], j - 1 - d);
    }
    if d >= 0 && j >= 0 && MatchAt(s) == Some((d, j)) {
      assert s[0..d] == s[..d] && s[d..j - 1] == s[d..][..j - 1 - d];
    }
  }

  lemma MatchShift(s: string, i: nat, d: int, j: int)
    requires i <= |s|
    ensures IsMatch(s, i, d, j) <==> IsMatch(s[i..], 0, d - i, j - i)
  {
    if i < d < j <= |s| {
      assert s[i..][0..d - i] == s[i..d];
      assert s[i..][d - i..j - i - 1] == s[d..j - 1];
      assert s[i..][j - i - 1] == s[j - 1];
    }
  }

  /** Matches that start at `i` are those that start what follows. */
  lemma MatchHere(s: string, i: nat, d: int, j: int)
    requires i <= |s|
    ensures IsMatch(s, i, d, j) <==> d >= i && j >= i && MatchAt(s[i..]) == Some((d - i, j - i))
  {
    MatchShift(s, i, d, j);
    MatchIsForced(s[i..], d - i, j - i);
  }

  // ---- parsing -------------------------------------------------------------------------

  /** The numbers and units that a left-to-right search of the pattern finds. */
  function Scan(s: string): seq<Part>
    decreases |s|
  {
    if s == "" then [] else
      match MatchAt(s)
      case Some((d, j)) => [(DigitsValue(s[..d]), s[j - 1])] + Scan(s[j..])
      case None => Scan(s[1..])
  }

  function TrimLeft(s: string): string {
    s[SpaceRun(s)..]
  }

  function TrimRight(s: string): string
    decreases |s|
  {
    if s != "" && IsSpace(s[|s| - 1]) then TrimRight(s[..|s| - 1]) else s
  }

  function Trim(s: string): string {
    TrimRight(TrimLeft(s))
  }

  /** The seconds a text stands for; None is the empty value of an unusable text. */
  function ParseHuman(text: string): Option<nat> {
    var trimmed := Trim(text);
    if trimmed != "" && AllDigits(trimmed) then Some(DigitsValue(trimmed))
    else
      var found := Scan(ToLower(text));
      if found == [] then None else Some(Total(found))
  }

  /** `found` is the leftmost match that starts at or after a position, if there is one. */
  ghost predicate IsNext(s: string, from: nat, found: Option<(nat, nat, nat)>) {
    match found
    case None => forall i, d, j | from <= i :: !IsMatch(s, i, d, j)
    case Some((start, digitsEnd, end)) =>
      && from <= start && IsMatch(s, start, digitsEnd, end)
      && forall i, d, j | from <= i < start :: !IsMatch(s, i, d, j)
  }

  /** exec of a global pattern: the next match from `lastIndex` on. */
  method Exec(s: string, lastIndex: nat) returns (found: Option<(nat, nat, nat)>)
    requires lastIndex <= |s|
    ensures IsNext(s, lastIndex, found)
  {
    hide MatchAt;
    for start := lastIndex to |s|
      invariant forall i, d, j | lastIndex <= i < start :: !IsMatch(s, i, d, j)
    {
      var here := MatchAt(s[start..]);
      forall d, j
        ensures IsMatch(s, start, d, j) <==> d >= start && j >= start && here == Some((d - start, j - start))
      {
        MatchHere(s, start, d, j);
      }
      if here.Some? {
        return Some((start, start + here.value.0, start + here.value.1));
      }
    }
    found := None;
  }

  /** The search skips whatever no match starts in. */
  lemma {:induction false} ScanSkips(s: string, i: int, next: int)
    requires 0 <= i <= next <= |s|
    requires forall k, d, j | i <= k < next :: !IsMatch(s, k, d, j)
    ensures Scan(s[i..]) == Scan(s[next..])
    decreases next - i
  {
    hide MatchAt, IsMatch, DigitsValue;
    if i < next {
      forall d, j
        ensures MatchAt(s[i..]) == Some((d, j)) ==> IsMatch(s, i, i + d, i + j)
      {
        MatchHere(s, i, i + d, i + j);
      }
      assert s[i..][1..] == s[i + 1..];
      ScanSkips(s, i + 1, next);
    }
  }

  lemma ScanHits(s: string, i: nat, d: nat, j: nat)
    requires IsMatch(s, i, d, j)
    ensures Scan(s[i..]) == [(DigitsValue(s[i..d]), s[j - 1])] + Scan(s[j..])
  {
    hide MatchAt, DigitsValue;
    MatchHere(s, i, d, j);
    assert s[i..][..d - i] == s[i..d] && s[i..][j - i..] == s[j..];
  }

  /** parseHumanToSeconds. */
  method ParseHumanToSeconds(timeStr: string) returns (r: Option<nat>)
    ensures r == ParseHuman(timeStr)
  {
    hide MatchAt, DigitsValue, Trim, UnitSeconds, AllSpace;
    var trimmed := Trim(timeStr);
    if trimmed != "" && AllDigits(trimmed) {
      return Some(DigitsValue(trimmed));
    }
    var lower := ToLower(timeStr);
    var seconds, foundMatch, lastIndex := 0, false, 0;
    assert lower[0..] == lower;
    var found := Exec(lower, lastIndex);
    while found.Some?
      invariant lastIndex <= |lower| && IsNext(lower, lastIndex, found)
      invariant seconds + Total(Scan(lower[lastIndex..])) == Total(Scan(lower))
      invariant if foundMatch then Scan(lower) != [] else lastIndex == 0
      decreases |lower| - lastIndex
    {
      var (start, digitsEnd, end) := found.value;
      ScanSkips(lower, lastIndex, start);
      ScanHits(lower, start, digitsEnd, end);
      seconds := seconds + DigitsValue(lower[start..digitsEnd]) * UnitSeconds(lower[end - 1]);
      foundMatch, lastIndex := true, end;
      found := Exec(lower, lastIndex);
    }
    ScanSkips(lower, lastIndex, |lower|);
    r := if foundMatch then Some(seconds) else None;
  }

  /** A text is unusable exactly when it is no number and no match starts anywhere in it. */
  lemma UnusableIff(text: string)
    ensures ParseHuman(text).None? <==>
            && !(Trim(text) != "" && AllDigits(Trim(text)))
            && forall i, d, j :: !IsMatch(ToLower(text), i, d, j)
  {
    var s := ToLower(text);
    assert s[0..] == s;
    if i, d, j :| IsMatch(s, i, d, j) {
      ScanFinds(s, 0, i, d, j);
    } else {
      ScanSkips(s, 0, |s|);
    }
  }

  lemma {:induction false} ScanFinds(s: string, from: nat, i: nat, d: nat, j: nat)
    requires from <= i && IsMatch(s, i, d, j)
    ensures Scan(s[from..]) != []
    decreases i - from
  {
    if from == i {
      ScanHits(s, i, d, j);
    } else if MatchAt(s[from..]).None? {
      assert s[from..][1..] == s[from + 1..];
      ScanFinds(s, from + 1, i, d, j);
    }
  }

  // ---- printing ------------------------------------------------------------------------

  function Counted(count: nat, unit: char): seq<Part> {
    if count > 0 then [(count, unit)] else []
  }

  /** Days, hours, minutes and seconds of `n`, without those that are zero. */
  function Parts(n: nat): seq<Part> {
    Counted(n / 86400, 'd') + Counted(n % 86400 / 3600, 'h') + Counted(n % 3600 / 60, 'm') + Counted(n % 60, 's')
  }

  function Render(part: Part): string {
    Digits(part.0) + [part.1]
  }

  function RenderAll(parts: seq<Part>): seq<string> {
    seq(|parts|, i requires 0 <= i < |parts| => Render(parts[i]))
  }

  function PrintParts(parts: seq<Part>): string {
    Join(RenderAll(parts), ' ')
  }

  function PrintHuman(n: nat): string {
    if n == 0 then "0s" else PrintParts(Parts(n))
  }

  /** secondsToHuman on whole seconds. */
  method SecondsToHuman(seconds: nat) returns (r: string)
    ensures r == PrintHuman(seconds)
  {
    hide Digits, Join;
    if seconds == 0 {
      return "0s";
    }
    var d := seconds / 86400;
    var h := seconds % 86400 / 3600;
    var m := seconds % 3600 / 60;
    var s := seconds % 60;
    var parts: seq<string> := [];
    if d > 0 { parts := parts + [Digits(d) + "d"]; }
    if h > 0 { parts := parts + [Digits(h) + "h"]; }
    if m > 0 { parts := parts + [Digits(m) + "m"]; }
    if s > 0 { parts := parts + [Digits(s) + "s"]; }
    assert parts == RenderAll(Parts(seconds));
    r := Join(parts, ' ');
  }

  /** The printed counts are those of a clock, largest unit first, and add up to the number printed. */
  lemma PartsOfClock(n: nat)
    ensures Total(Parts(n)) == n
    ensures n > 0 ==> Parts(n) != []
    ensures forall i | 0 <= i < |Parts(n)| ::
              var (count, unit) := Parts(n)[i];
              count > 0 && IsUnit(unit) && (unit == 'h' ==> count < 24) && (unit == 'm' || unit == 's' ==> count < 60)
    ensures forall i, j | 0 <= i < j < |Parts(n)| :: UnitSeconds(Parts(n)[i].1) > UnitSeconds(Parts(n)[j].1)
  {
    TotalOfParts(n);
  }

  lemma Remainders(n: nat)
    ensures n % 86400 % 3600 == n % 3600 && n % 3600 % 60 == n % 60
  {
    RemainderOfMultiple(n, n % 86400, 24 * (n / 86400), 3600);
    RemainderOfMultiple(n, n % 3600, 60 * (n / 3600), 60);
  }

  /** Taking away a multiple of `b` leaves the remainder by `b`. */
  lemma RemainderOfMultiple(n: nat, rest: nat, k: nat, b: nat)
    requires b > 0 && n == k * b + rest
    ensures rest % b == n % b
  {
    var q := rest / b;
    assert n == (k + q) * b + rest % b;
    RemainderIs(n, b, k + q, rest % b);
  }

  lemma RemainderIs(n: nat, b: int, q: nat, r: nat)
    requires b > 0 && n == q * b + r && r < b
    ensures n % b == r
  {
    var d := n / b - q;
    assert n == (n / b) * b + n % b;
    assert d * b == r - n % b;
    assert d <= -1 ==> d * b <= -b;
    assert d >= 1 ==> d * b >= b;
  }

  lemma TotalOfParts(n: nat)
    ensures Total(Parts(n)) == n
  {
    hide Total;
    var d, h := Counted(n / 86400, 'd'), Counted(n % 86400 / 3600, 'h');
    var m, s := Counted(n % 3600 / 60, 'm'), Counted(n % 60, 's');
    TotalConcat(d + h + m, s);
    TotalConcat(d + h, m);
    TotalConcat(d, h);
    TotalOfCounted(n / 86400, 'd');
    TotalOfCounted(n % 86400 / 3600, 'h');
    TotalOfCounted(n % 3600 / 60, 'm');
    TotalOfCounted(n % 60, 's');
    ClockSum(n);
  }

  lemma ClockSum(n: nat)
    ensures n == n / 86400 * 86400 + n % 86400 / 3600 * 3600 + n % 3600 / 60 * 60 + n % 60
  {
    Remainders(n);
    var day, hour := n % 86400, n % 3600;
    assert n == n / 86400 * 86400 + day;
    assert day == day / 3600 * 3600 + day % 3600;
    assert hour == hour / 60 * 60 + hour % 60;
  }

  lemma TotalOfCounted(count: nat, unit: char)
    ensures Total(Counted(count, unit)) == count * UnitSeconds(unit)
  {
    assert count > 0 ==> Counted(count, unit)[1..] == [];
  }

  lemma {:induction false} TotalConcat(a: seq<Part>, b: seq<Part>)
    ensures Total(a + b) == Total(a) + Total(b)
  {
    if a == [] {
      assert a + b == b;
    } else {
      TotalConcat(a[1..], b);
      assert (a + b)[1..] == a[1..] + b;
    }
  }

  // ---- round trip ----------------------------------------------------------------------

  /** Reading a printed list of counted units gives the list back, whatever the counts and units. */
  lemma {:induction false} ScanPrinted(parts: seq<Part>)
    requires forall i | 0 <= i < |parts| :: IsUnit(parts[i].1)
    ensures Scan(PrintParts(parts)) == parts
    decreases |parts|
  {
    hide Scan, Digits, DigitsValue;
    ScanNothing();
    if parts != [] {
      var first, rest := Render(parts[0]), PrintParts(parts[1..]);
      assert RenderAll(parts)[1..] == RenderAll(parts[1..]);
      var s := PrintParts(parts);
      ScanPrinted(parts[1..]);
      if |parts| == 1 {
        assert s == first + "";
        ScanFirst(parts[0], "");
      } else {
        assert s == first + ([' '] + rest);
        ScanFirst(parts[0], [' '] + rest);
        ScanSpace(rest);
      }
    }
  }

  lemma ScanNothing()
    ensures Scan("") == []
  {
  }

  lemma ScanSpace(rest: string)
    ensures Scan([' '] + rest) == Scan(rest)
  {
    assert ([' '] + rest)[1..] == rest;
  }

  lemma ScanFirst(part: Part, rest: string)
    requires IsUnit(part.1)
    ensures Scan(Render(part) + rest) == [part] + Scan(rest)
  {
    var digits := Digits(part.0);
    var s := Render(part) + rest;
    DigitsRoundTrip(part.0);
    assert s[0..|digits|] == digits && s[|digits|..|digits|] == "" && s[|digits|] == part.1;
    assert IsMatch(s, 0, |digits|, |digits| + 1);
    ScanHits(s, 0, |digits|, |digits| + 1);
    assert s[0..] == s && s[|digits| + 1..] == rest;
  }

  predicate IsPrintedChar(c: char) {
    IsDigit(c) || IsUnit(c) || c == ' '
  }

  lemma {:induction false} PrintedChars(parts: seq<Part>)
    requires forall i | 0 <= i < |parts| :: IsUnit(parts[i].1)
    ensures forall i | 0 <= i < |PrintParts(parts)| :: IsPrintedChar(PrintParts(parts)[i])
    ensures parts != [] ==> PrintParts(parts) != "" && IsUnit(PrintParts(parts)[|PrintParts(parts)| - 1])
    decreases |parts|
  {
    if parts != [] {
      assert RenderAll(parts)[1..] == RenderAll(parts[1..]);
      PrintedChars(parts[1..]);
    }
  }

  lemma SpaceRunStops(s: string, i: nat)
    requires i < |s| && !IsSpace(s[i])
    ensures SpaceRun(s) <= i
  {
    var k := SpaceRun(s);
    assert forall x | 0 <= x < k :: s[..k][x] == s[x];
  }

  /** A text that ends in a unit is no plain number, trimmed or not. */
  lemma UnitEndIsNoNumber(s: string)
    requires s != "" && IsUnit(s[|s| - 1])
    ensures !AllDigits(Trim(s))
  {
    var left := TrimLeft(s);
    SpaceRunStops(s, |s| - 1);
    assert left[|left| - 1] == s[|s| - 1];
    assert !IsSpace(left[|left| - 1]);
  }

  /** Any printed list of counted units reads back as its total. */
  lemma PrintedListReadsBack(parts: seq<Part>)
    requires parts != [] && forall i | 0 <= i < |parts| :: IsUnit(parts[i].1)
    ensures ParseHuman(PrintParts(parts)) == Some(Total(parts))
  {
    hide PrintParts, Scan, Trim, DigitsValue;
    var s := PrintParts(parts);
    PrintedChars(parts);
    UnitEndIsNoNumber(s);
    assert ToLower(s) == s by {
      assert forall i | 0 <= i < |s| :: LowerChar(s[i]) == s[i];
    }
    ScanPrinted(parts);
  }

  /** Every number of seconds survives being printed and parsed. */
  lemma DurationRoundTrip(n: nat)
    ensures ParseHuman(PrintHuman(n)) == Some(n)
  {
    if n == 0 {
      var zero: seq<Part> := [(0, 's')];
      assert PrintParts(zero) == "0s" by {
        assert Digits(0) == "0";
        assert RenderAll(zero) == [Digits(0) + ['s']];
      }
      PrintedListReadsBack(zero);
    } else {
      PartsOfClock(n);
      PrintedListReadsBack(Parts(n));
    }
  }

  /** A plain number is taken as seconds, so an untouched numeric field also keeps its value. */
  lemma PlainNumberIsSeconds(n: nat)
    ensures ParseHuman(Digits(n)) == Some(n)
  {
    var s := Digits(n);
    assert SpaceRun(s) == 0 && s[0..] == s;
    assert Trim(s) == s;
    DigitsRoundTrip(n);
  }
}
