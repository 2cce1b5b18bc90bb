/**
 The few string functions of the Go and JavaScript libraries that the modelled code relies on:
 splitting at a separator, prefixes, containment and decimal numbers.
 */
module Strings {
  import opened Wrappers

  /** Position of the first `c` in `s`, or |s| when there is none. */
  function IndexOf(s: string, c: char): (i: nat)
    ensures i <= |s|
    ensures c !in s[..i]
    ensures i < |s| ==> s[i] == c
  {
    if s == "" || s[0] == c then 0 else
      var j := IndexOf(s[1..], c);
      assert s[..1 + j] == [s[0]] + s[1..][..j];
      1 + j
  }

  /** strings.Split for a one-character separator. */
  function Split(s: string, sep: char): (parts: seq<string>)
    ensures 1 <= |parts|
    decreases |s|
  {
    var i := IndexOf(s, sep);
    if i == |s| then [s] else [s[..i]] + Split(s[i + 1..], sep)
  }

  /** strings.SplitN for a one-character separator and a positive limit. */
  function SplitN(s: string, sep: char, n: nat): (parts: seq<string>)
    requires n >= 1
    ensures 1 <= |parts| <= n
    decreases n
  {
    var i := IndexOf(s, sep);
    if n == 1 || i == |s| then [s] else [s[..i]] + SplitN(s[i + 1..], sep, n - 1)
  }

  /** strings.Join for a one-character separator. */
  function Join(parts: seq<string>, sep: char): string {
    if parts == [] then ""
    else if |parts| == 1 then parts[0]
    else parts[0] + [sep] + Join(parts[1..], sep)
  }

  /** strings.Cut for a one-character separator: None when the separator is absent. */
  function Cut(s: string, sep: char): Option<(string, string)> {
    var i := IndexOf(s, sep);
    if i == |s| then None else Some((s[..i], s[i + 1..]))
  }

  predicate HasPrefix(s: string, prefix: string) {
    |prefix| <= |s| && s[..|prefix|] == prefix
  }

  function TrimPrefix(s: string, prefix: string): string {
    if HasPrefix(s, prefix) then s[|prefix|..] else s
  }

  predicate OccursAt(s: string, sub: string, i: int) {
    0 <= i <= |s| - |sub| && s[i..i + |sub|] == sub
  }

  /** strings.Contains: some window of `s` equals `sub`. */
  predicate Contains(s: string, sub: string) {
    exists i | 0 <= i <= |s| :: OccursAt(s, sub, i)
  }

  function LowerChar(c: char): char {
    if 'A' <= c <= 'Z' then (c as int + 32) as char else c
  }

  /** Lower-casing; letters outside ASCII stay as they are. */
  function ToLower(s: string): (t: string)
    ensures |t| == |s|
    ensures forall i :: 0 <= i < |t| ==> t[i] == LowerChar(s[i])
  {
    seq(|s|, i requires 0 <= i < |s| => LowerChar(s[i]))
  }

  predicate IsLetter(c: char) {
    'A' <= c <= 'Z' || 'a' <= c <= 'z'
  }

  /** The same character, or one letter in its two cases. */
  predicate SameLetter(a: char, b: char) {
    a == b || (IsLetter(a) && IsLetter(b) && (a as int == b as int + 32 || b as int == a as int + 32))
  }

  /** `sub` stands at `i` in `s`, letter by letter and whatever their cases. */
  predicate ReadsAt(s: string, sub: string, i: nat) {
    i + |sub| <= |s| && forall j | 0 <= j < |sub| :: SameLetter(s[i + j], sub[j])
  }

  // ---- letters --------------------------------------------------------------------------

  /** Lower-casing makes two characters equal exactly when they are one letter, and leaves no capital. */
  lemma LowerCharIff(a: char, b: char)
    ensures LowerChar(a) == LowerChar(b) <==> SameLetter(a, b)
    ensures !('A' <= LowerChar(a) <= 'Z')
  {
  }

  /** Containment of lower-cased text is containment that ignores case. */
  lemma ContainsIgnoresCase(s: string, sub: string)
    ensures Contains(ToLower(s), ToLower(sub)) <==> exists i: nat | i <= |s| :: ReadsAt(s, sub, i)
  {
    var t, u := ToLower(s), ToLower(sub);
    forall i: nat | i <= |s|
      ensures OccursAt(t, u, i) <==> ReadsAt(s, sub, i)
    {
      if i + |sub| <= |s| {
        forall j | 0 <= j < |sub|
          ensures t[i..i + |u|][j] == u[j] <==> SameLetter(s[i + j], sub[j])
        {
          LowerCharIff(s[i + j], sub[j]);
        }
      }
    }
  }

  // ---- splitting -----------------------------------------------------------------------

  /** A first part without separator, followed by one, is what a split finds first. */
  lemma IndexOfAt(a: string, sep: char, rest: string)
    requires sep !in a
    ensures IndexOf(a + [sep] + rest, sep) == |a|
  {
    var s := a + [sep] + rest;
    assert s[|a|] == sep && s[..|a|] == a;
    assert forall j :: |a| < j <= |s| ==> s[|a|] in s[..j];
  }

  /** Rejoining what SplitN produced gives the string back. */
  lemma {:induction false} SplitNJoin(s: string, sep: char, n: nat)
    requires n >= 1
    ensures Join(SplitN(s, sep, n), sep) == s
    decreases n
  {
    var i := IndexOf(s, sep);
    if n > 1 && i < |s| {
      SplitNJoin(s[i + 1..], sep, n - 1);
      assert SplitN(s, sep, n)[1..] == SplitN(s[i + 1..], sep, n - 1);
      assert s == s[..i] + [sep] + s[i + 1..];
    }
  }

  /** Every part but the n-th is free of the separator. */
  lemma {:induction false} SplitNParts(s: string, sep: char, n: nat, k: nat)
    requires n >= 1
    requires k < |SplitN(s, sep, n)|
    requires k < n - 1
    ensures sep !in SplitN(s, sep, n)[k]
    decreases n
  {
    var i := IndexOf(s, sep);
    if i == |s| {
      assert s[..i] == s;
    } else if k > 0 {
      SplitNParts(s[i + 1..], sep, n - 1, k - 1);
    }
  }

  lemma SplitNFirst(first: string, sep: char, rest: string, n: nat)
    requires sep !in first && n >= 2
    ensures SplitN(first + [sep] + rest, sep, n) == [first] + SplitN(rest, sep, n - 1)
  {
    IndexOfAt(first, sep, rest);
    var s := first + [sep] + rest;
    assert s[..|first|] == first && s[|first| + 1..] == rest;
  }

  /** SplitN undoes Join when no part before the n-th holds a separator. */
  lemma {:induction false} JoinSplitN(parts: seq<string>, sep: char, n: nat)
    requires 1 <= |parts| <= n
    requires forall k :: 0 <= k < |parts| && k < n - 1 ==> sep !in parts[k]
    ensures SplitN(Join(parts, sep), sep, n) == parts
    decreases n
  {
    if |parts| == 1 {
      assert forall j :: 0 <= j < |parts[0]| ==> parts[0][j] in parts[0];
    } else {
      SplitNFirst(parts[0], sep, Join(parts[1..], sep), n);
      JoinSplitN(parts[1..], sep, n - 1);
    }
  }

  /** Split undoes Join when no part holds the separator. */
  lemma {:induction false} JoinSplit(parts: seq<string>, sep: char)
    requires 1 <= |parts|
    requires forall k :: 0 <= k < |parts| ==> sep !in parts[k]
    ensures Split(Join(parts, sep), sep) == parts
  {
    if |parts| == 1 {
      assert forall j :: 0 <= j < |parts[0]| ==> parts[0][j] in parts[0];
    } else {
      var rest := Join(parts[1..], sep);
      IndexOfAt(parts[0], sep, rest);
      var s := parts[0] + [sep] + rest;
      assert s[..|parts[0]|] == parts[0];
      assert s[|parts[0]| + 1..] == rest;
      JoinSplit(parts[1..], sep);
    }
  }

  // ---- decimal numbers -----------------------------------------------------------------

  predicate IsDigit(c: char) {
    '0' <= c <= '9'
  }

  predicate AllDigits(s: string) {
    forall i :: 0 <= i < |s| ==> IsDigit(s[i])
  }

  function DigitValue(c: char): (d: nat)
    requires IsDigit(c)
    ensures d < 10
  {
    c as int - '0' as int
  }

  function DigitChar(d: nat): (c: char)
    requires d < 10
    ensures IsDigit(c) && DigitValue(c) == d
  {
    ('0' as int + d) as char
  }

  /** Decimal form of a natural number, as strconv.Itoa and template literals print it. */
  function Digits(n: nat): (s: string)
    ensures |s| >= 1 && AllDigits(s)
    ensures |s| > 1 ==> s[0] != '0'
  {
    if n < 10 then [DigitChar(n)] else Digits(n / 10) + [DigitChar(n % 10)]
  }

  /** Value of a string of decimal digits. */
  function DigitsValue(s: string): nat
    requires AllDigits(s)
  {
    if s == "" then 0 else 10 * DigitsValue(s[..|s| - 1]) + DigitValue(s[|s| - 1])
  }

  lemma {:induction false} DigitsRoundTrip(n: nat)
    ensures DigitsValue(Digits(n)) == n
  {
    if n >= 10 {
      DigitsRoundTrip(n / 10);
      var s := Digits(n);
      assert s[..|s| - 1] == Digits(n / 10);
    } else {
      assert Digits(n)[..0] == "";
    }
  }

  /** A digit string without a leading zero is the decimal form of its value. */
  lemma {:induction false} DigitsCanonical(s: string)
    requires |s| >= 1 && AllDigits(s)
    requires |s| > 1 ==> s[0] != '0'
    ensures Digits(DigitsValue(s)) == s
    decreases |s|
  {
    var init, last := s[..|s| - 1], s[|s| - 1];
    if |s| > 1 {
      DigitsCanonical(init);
      DigitsPositive(init);
      assert DigitsValue(s) / 10 == DigitsValue(init);
      assert s == init + [last];
    } else {
      assert DigitsValue(s) == DigitValue(last);
    }
  }

  lemma {:induction false} DigitsPositive(s: string)
    requires |s| >= 1 && AllDigits(s) && s[0] != '0'
    ensures DigitsValue(s) > 0
    decreases |s|
  {
    if |s| > 1 {
      DigitsPositive(s[..|s| - 1]);
    } else {
      assert s[..0] == "";
    }
  }
}
