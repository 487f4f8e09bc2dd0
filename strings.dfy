/** String helpers with the semantics the source relies on: ASCII case
    mapping, whitespace trimming, substring search, JavaScript's
    `String.prototype.split` with a literal separator, `Array.join`, and
    decimal rendering of naturals. */
module Strings {
  import opened Common

  /** ASCII whitespace (space, tab, line feed, vertical tab, form feed,
      carriage return). */
  predicate IsSpace(c: char) {
    c == ' ' || c == '\t' || c == '\n' || c == '\U{000B}' || c == '\U{000C}' || c == '\r'
  }

  function LowerChar(c: char): char {
    if 'A' <= c <= 'Z' then (c as int + 32) as char else c
  }

  function UpperChar(c: char): char {
    if 'a' <= c <= 'z' then (c as int - 32) as char else c
  }

  /** `str.lower()` / `toLowerCase()` on ASCII letters. */
  function Lower(s: string): (r: string)
    ensures |r| == |s|
    ensures forall i :: 0 <= i < |s| ==> r[i] == LowerChar(s[i])
  {
    seq(|s|, i requires 0 <= i < |s| => LowerChar(s[i]))
  }

  /** Lower-casing twice is lower-casing once. */
  lemma LowerIdempotent(s: string)
    ensures Lower(Lower(s)) == Lower(s)
  {
  }

  /** `toUpperCase()` on ASCII letters. */
  function Upper(s: string): (r: string)
    ensures |r| == |s|
    ensures forall i :: 0 <= i < |s| ==> r[i] == UpperChar(s[i])
  {
    seq(|s|, i requires 0 <= i < |s| => UpperChar(s[i]))
  }

  function TrimStart(s: string): (r: string)
    ensures |r| <= |s|
    ensures r == [] || !IsSpace(r[0])
  {
    if s != [] && IsSpace(s[0]) then TrimStart(s[1..]) else s
  }

  function TrimEnd(s: string): (r: string)
    ensures |r| <= |s|
    ensures r == [] || !IsSpace(r[|r| - 1])
  {
    if s != [] && IsSpace(s[|s| - 1]) then TrimEnd(s[..|s| - 1]) else s
  }

  /** `trim()` / `strip()`: removes leading and trailing whitespace. */
  function Trim(s: string): (r: string)
    ensures |r| <= |s|
    ensures r == [] || (!IsSpace(r[0]) && !IsSpace(r[|r| - 1]))
  {
    TrimEndDropsSpaces(TrimStart(s));
    TrimEnd(TrimStart(s))
  }

  /** `TrimStart` removes exactly a run of leading whitespace. */
  lemma {:induction false} TrimStartDropsSpaces(s: string)
    ensures var r := TrimStart(s); r == s[|s| - |r|..] && forall i :: 0 <= i < |s| - |r| ==> IsSpace(s[i])
  {
    if s != [] && IsSpace(s[0]) {
      TrimStartDropsSpaces(s[1..]);
    }
  }

  /** `TrimEnd` removes exactly a run of trailing whitespace. */
  lemma {:induction false} TrimEndDropsSpaces(s: string)
    ensures var r := TrimEnd(s); r == s[..|r|] && forall i :: |r| <= i < |s| ==> IsSpace(s[i])
  {
    if s != [] && IsSpace(s[|s| - 1]) {
      TrimEndDropsSpaces(s[..|s| - 1]);
    }
  }

  /** `sub` occurs in `s` at position `i`. */
  predicate OccursAt(s: string, sub: string, i: nat) {
    i + |sub| <= |s| && s[i..i + |sub|] == sub
  }

  /** `sub in s` / `s.includes(sub)`. */
  predicate Contains(s: string, sub: string) {
    exists i: nat :: i + |sub| <= |s| && OccursAt(s, sub, i)
  }

  /** Case-insensitive containment, as Django's `__icontains` and the
      frontend's `toLowerCase().includes(...)`. */
  predicate ContainsIgnoringCase(s: string, sub: string) {
    Contains(Lower(s), Lower(sub))
  }

  /** The position of the first occurrence of `sep` in `s`. */
  function IndexOf(s: string, sep: string): (r: Option<nat>)
    requires |sep| > 0
    ensures r.Some? ==> OccursAt(s, sep, r.value)
    ensures r.Some? ==> forall j: nat :: j < r.value ==> !OccursAt(s, sep, j)
    ensures r.None? ==> forall j: nat :: !OccursAt(s, sep, j)
    decreases |s|
  {
    if |s| < |sep| then None
    else if s[..|sep|] == sep then Some(0)
    else
      match IndexOf(s[1..], sep)
      case None =>
        forall j: nat | 0 < j ensures !OccursAt(s, sep, j) {
          OccursShift(s, sep, j);
        }
        None
      case Some(k) =>
        OccursShift(s, sep, k + 1);
        forall j: nat | 0 < j <= k ensures !OccursAt(s, sep, j) {
          OccursShift(s, sep, j);
        }
        Some(k + 1)
  }

  /** An occurrence past the first character is one in the rest. */
  lemma OccursShift(s: string, sep: string, j: nat)
    requires 0 < j && s != []
    ensures OccursAt(s, sep, j) <==> OccursAt(s[1..], sep, j - 1)
  {
    if j + |sep| <= |s| {
      assert s[1..][j - 1..j - 1 + |sep|] == s[j..j + |sep|];
    }
  }

  /** JavaScript's `s.split(sep)` for a non-empty literal separator: the
      pieces between successive non-overlapping occurrences, scanning from
      the left. There is always at least one piece. */
  function Split(s: string, sep: string): (parts: seq<string>)
    requires |sep| > 0
    ensures |parts| >= 1
    decreases |s|
  {
    match IndexOf(s, sep)
    case None => [s]
    case Some(i) => [s[..i]] + Split(s[i + |sep|..], sep)
  }

  /** JavaScript's `parts.join(sep)`. */
  function Join(parts: seq<string>, sep: string): string {
    if parts == [] then ""
    else if |parts| == 1 then parts[0]
    else parts[0] + sep + Join(parts[1..], sep)
  }

  /** Splitting and joining again with the same separator gives back the
      original string. */
  lemma {:induction false} JoinSplit(s: string, sep: string)
    requires |sep| > 0
    ensures Join(Split(s, sep), sep) == s
    decreases |s|
  {
    match IndexOf(s, sep)
    case None =>
    case Some(i) =>
      var rest := s[i + |sep|..];
      var tail := Split(rest, sep);
      JoinSplit(rest, sep);
      var parts := [s[..i]] + tail;
      assert Split(s, sep) == parts;
      assert |parts| > 1 && parts[0] == s[..i] && parts[1..] == tail;
      assert Join(parts, sep) == s[..i] + sep + Join(tail, sep);
      assert s == s[..i] + s[i..i + |sep|] + rest;
  }

  /** The first piece of a split is the text before the first occurrence of
      the separator (or the whole string), and the remaining pieces,
      re-joined, are the text after it (or nothing). */
  lemma SplitHeadAndTail(s: string, sep: string)
    requires |sep| > 0
    ensures IndexOf(s, sep).None? ==> Split(s, sep) == [s]
    ensures IndexOf(s, sep).Some? ==>
      var i := IndexOf(s, sep).value;
      |Split(s, sep)| >= 2 && Split(s, sep)[0] == s[..i] &&
      Join(Split(s, sep)[1..], sep) == s[i + |sep|..]
  {
    match IndexOf(s, sep)
    case None =>
    case Some(i) =>
      JoinSplit(s[i + |sep|..], sep);
      assert Split(s, sep)[1..] == Split(s[i + |sep|..], sep);
  }

  function DigitChar(d: nat): char
    requires d < 10
  {
    ('0' as int + d) as char
  }

  predicate IsDigit(c: char) {
    '0' <= c <= '9'
  }

  function DigitValue(c: char): nat
    requires IsDigit(c)
  {
    c as int - '0' as int
  }

  /** Decimal rendering of a natural number, without leading zeros. */
  function NatToString(n: nat): (r: string)
    ensures |r| >= 1
    ensures forall i :: 0 <= i < |r| ==> IsDigit(r[i])
  {
    if n < 10 then [DigitChar(n)] else NatToString(n / 10) + [DigitChar(n % 10)]
  }

  /** Reads back a string of decimal digits. */
  function ParseDigits(s: string): nat
    requires forall i :: 0 <= i < |s| ==> IsDigit(s[i])
  {
    if s == [] then 0 else ParseDigits(s[..|s| - 1]) * 10 + DigitValue(s[|s| - 1])
  }

  /** Reading back a rendered natural gives the natural. */
  lemma {:induction false} ParseNatToString(n: nat)
    ensures ParseDigits(NatToString(n)) == n
  {
    if n >= 10 {
      ParseNatToString(n / 10);
      var s := NatToString(n);
      assert s[..|s| - 1] == NatToString(n / 10);
    }
  }

  /** `n` rendered in decimal, left-padded with '0' to at least `width`
      characters (`String(n).padStart(width, '0')`). */
  function ZeroPad(n: nat, width: nat): (r: string)
    ensures |r| >= width
    ensures forall i :: 0 <= i < |r| ==> IsDigit(r[i])
  {
    var s := NatToString(n);
    if |s| >= width then s else seq(width - |s|, _ => '0') + s
  }

  function Pow10(k: nat): nat {
    if k == 0 then 1 else 10 * Pow10(k - 1)
  }

  /** A natural below 10^k renders in at most k digits. */
  lemma {:induction false} NatToStringLength(n: nat, k: nat)
    requires k >= 1 && n < Pow10(k)
    ensures |NatToString(n)| <= k
  {
    if n >= 10 {
      assert Pow10(1) == 10;
      NatToStringLength(n / 10, k - 1);
    }
  }

  /** Reading digits back distributes over concatenation. */
  lemma {:induction false} ParseDigitsAppend(a: string, b: string)
    requires forall i :: 0 <= i < |a| ==> IsDigit(a[i])
    requires forall i :: 0 <= i < |b| ==> IsDigit(b[i])
    ensures ParseDigits(a + b) == ParseDigits(a) * Pow10(|b|) + ParseDigits(b)
    decreases |b|
  {
    if b == [] {
      assert a + b == a;
    } else {
      var b' := b[..|b| - 1];
      var c := b[|b| - 1];
      ParseDigitsAppend(a, b');
      assert (a + b)[..|a + b| - 1] == a + b';
      assert (a + b)[|a + b| - 1] == c;
      var x, p, y := ParseDigits(a), Pow10(|b'|), ParseDigits(b');
      assert Pow10(|b|) == 10 * p;
      assert ParseDigits(b) == y * 10 + DigitValue(c);
      ShiftDigit(x, p, y, DigitValue(c));
    }
  }

  /** Appending a digit to the lower part shifts the whole number by one
      place. */
  lemma ShiftDigit(x: int, p: int, y: int, d: int)
    ensures (x * p + y) * 10 + d == x * (10 * p) + (y * 10 + d)
  {
    assert x * (10 * p) == (x * p) * 10;
  }

  /** Leading zeros read as nothing. */
  lemma {:induction false} ParseZeros(k: nat)
    ensures ParseDigits(seq(k, _ => '0')) == 0
  {
    if k > 0 {
      ParseZeros(k - 1);
      assert seq(k, _ => '0')[..k - 1] == seq(k - 1, _ => '0');
    }
  }

  /** A zero-padded natural reads back as itself and, when it fits, has
      exactly the padded width. */
  lemma ZeroPadRoundTrip(n: nat, width: nat)
    ensures ParseDigits(ZeroPad(n, width)) == n
    ensures width >= 1 && n < Pow10(width) ==> |ZeroPad(n, width)| == width
  {
    var s := NatToString(n);
    ParseNatToString(n);
    if |s| < width {
      var z := seq(width - |s|, _ => '0');
      ParseZeros(width - |s|);
      ParseDigitsAppend(z, s);
    }
    if width >= 1 && n < Pow10(width) {
      NatToStringLength(n, width);
    }
  }
}
