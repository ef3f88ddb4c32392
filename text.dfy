/** String operations of the JavaScript runtime that the application relies on:
    trim, length in UTF-16 code units, the username character class, `split`,
    number-to-string conversion, `join` and the SQL ILIKE match. */
module Text {

  /** The code points String.prototype.trim removes (WhiteSpace and LineTerminator). */
  predicate IsJsWhitespace(c: char) {
    var n := c as int;
    n == 0x9 || n == 0xA || n == 0xB || n == 0xC || n == 0xD || n == 0x20 || n == 0xA0
    || n == 0x1680 || (0x2000 <= n <= 0x200A) || n == 0x2028 || n == 0x2029
    || n == 0x202F || n == 0x205F || n == 0x3000 || n == 0xFEFF
  }

  /** Neither end of `s` is whitespace. */
  predicate IsTrimmed(s: string) {
    s == [] || (!IsJsWhitespace(s[0]) && !IsJsWhitespace(s[|s| - 1]))
  }

  function TrimStart(s: string): (r: string)
    ensures |r| <= |s| && r == s[|s| - |r|..]
    ensures forall i :: 0 <= i < |s| - |r| ==> IsJsWhitespace(s[i])
    ensures r != [] ==> !IsJsWhitespace(r[0])
  {
    if s != [] && IsJsWhitespace(s[0]) then TrimStart(s[1..]) else s
  }

  function TrimEnd(s: string): (r: string)
    ensures |r| <= |s| && r == s[..|r|]
    ensures forall i :: |r| <= i < |s| ==> IsJsWhitespace(s[i])
    ensures r != [] ==> !IsJsWhitespace(r[|r| - 1])
  {
    if s != [] && IsJsWhitespace(s[|s| - 1]) then TrimEnd(s[..|s| - 1]) else s
  }

  /** String.prototype.trim: the longest infix of `s` without whitespace at either end. */
  function Trim(s: string): (r: string)
    ensures IsTrimmed(r) && |r| <= |s|
    ensures r == [] <==> forall i :: 0 <= i < |s| ==> IsJsWhitespace(s[i])
    ensures exists i, j ::
      && 0 <= i <= j <= |s| && r == s[i..j]
      && AllWhitespace(s[..i]) && AllWhitespace(s[j..])
  {
    var t := TrimStart(s);
    var r := TrimEnd(t);
    RemovedEndsAreWhitespace(s, t, r);
    r
  }

  /** Every character of `s` is whitespace. */
  predicate AllWhitespace(s: string) {
    forall k :: 0 <= k < |s| ==> IsJsWhitespace(s[k])
  }

  /** Dropping a whitespace prefix of `s` to get `t`, then a whitespace suffix of `t` to get
      `r`, keeps the infix of `s` that `r` is and removes only whitespace around it. */
  lemma RemovedEndsAreWhitespace(s: string, t: string, r: string)
    requires |t| <= |s| && t == s[|s| - |t|..]
    requires forall k :: 0 <= k < |s| - |t| ==> IsJsWhitespace(s[k])
    requires t != [] ==> !IsJsWhitespace(t[0])
    requires |r| <= |t| && r == t[..|r|]
    requires forall k :: |r| <= k < |t| ==> IsJsWhitespace(t[k])
    requires r != [] ==> !IsJsWhitespace(r[|r| - 1])
    ensures IsTrimmed(r) && |r| <= |s|
    ensures r == [] <==> forall i :: 0 <= i < |s| ==> IsJsWhitespace(s[i])
    ensures var i := |s| - |t|;
      && r == s[i..i + |r|] && AllWhitespace(s[..i]) && AllWhitespace(s[i + |r|..])
  {
    assert r != [] ==> r[0] == t[0];
    assert r == [] ==> t == [];
    var i := |s| - |t|;
    SlicesOfDrop(s, i, |r|);
    assert AllWhitespace(t[|r|..]) by {
      forall k | 0 <= k < |t| - |r| ensures IsJsWhitespace(t[|r|..][k]) {
        assert t[|r|..][k] == t[|r| + k];
      }
    }
  }

  lemma SlicesOfDrop<T>(s: seq<T>, i: nat, n: nat)
    requires i + n <= |s|
    ensures s[i..][..n] == s[i..i + n] && s[i..][n..] == s[i + n..]
  {
  }

  /** A string without whitespace at its ends is its own trim. */
  lemma TrimmedIsFixpoint(s: string)
    requires IsTrimmed(s)
    ensures Trim(s) == s
  {
  }

  /** Trimming twice is trimming once. */
  lemma TrimIdempotent(s: string)
    ensures Trim(Trim(s)) == Trim(s)
  {
    TrimmedIsFixpoint(Trim(s));
  }

  /** JavaScript's `.length`: code points outside the Basic Multilingual Plane count twice. */
  function Utf16Length(s: string): (n: nat)
    ensures |s| <= n <= 2 * |s|
    ensures (forall i :: 0 <= i < |s| ==> (s[i] as int) < 0x10000) ==> n == |s|
  {
    if s == [] then 0 else (if (s[0] as int) < 0x10000 then 1 else 2) + Utf16Length(s[1..])
  }

  /** One character of the class `[a-zA-Z0-9_]`. */
  predicate IsWordChar(c: char) {
    ('a' <= c <= 'z') || ('A' <= c <= 'Z') || ('0' <= c <= '9') || c == '_'
  }

  /** The regular expression `/^[a-zA-Z0-9_]+$/` (no flags, so `$` is the end of input). */
  predicate MatchesWordPattern(s: string) {
    |s| > 0 && forall i :: 0 <= i < |s| ==> IsWordChar(s[i])
  }

  /** A string matching the username pattern has nothing for trim to remove. */
  lemma WordPatternIsTrimmed(s: string)
    requires MatchesWordPattern(s)
    ensures Trim(s) == s
  {
    assert !IsJsWhitespace(s[0]) && !IsJsWhitespace(s[|s| - 1]);
    TrimmedIsFixpoint(s);
  }

  /** ASCII lower-casing, the case folding ILIKE applies to the username alphabet. */
  function AsciiLower(c: char): (r: char)
    ensures ('A' <= c <= 'Z') ==> 'a' <= r <= 'z'
    ensures !('A' <= c <= 'Z') ==> r == c
  {
    if 'A' <= c <= 'Z' then (c as int + 32) as char else c
  }

  /** `value ILIKE pattern` for a pattern without `%` and `\`: equal length, and
      every position is `_` in the pattern or equal up to case. */
  predicate ILike(value: string, pattern: string) {
    |value| == |pattern| &&
    forall i :: 0 <= i < |pattern| ==> pattern[i] == '_' || AsciiLower(value[i]) == AsciiLower(pattern[i])
  }

  /** ILIKE ignores case: a name matches every re-capitalisation of itself. */
  lemma ILikeIgnoresCase(value: string, pattern: string)
    requires |value| == |pattern|
    requires forall i :: 0 <= i < |value| ==> AsciiLower(value[i]) == AsciiLower(pattern[i])
    ensures ILike(value, pattern)
  {
  }

  predicate EndsWithChar(s: string, c: char) {
    |s| > 0 && s[|s| - 1] == c
  }

  /** `s.includes(c, from)`: `c` occurs at some index at or after `from`. */
  predicate ContainsFrom(s: string, c: char, from: nat) {
    exists i :: from <= i < |s| && s[i] == c
  }

  /** `s.split(c)[0]`: everything before the first `c`, or all of `s` when there is none. */
  function BeforeFirst(s: string, c: char): (r: string)
    ensures |r| <= |s| && r == s[..|r|] && c !in r
    ensures |r| < |s| ==> s[|r|] == c
  {
    if s == [] || s[0] == c then [] else [s[0]] + BeforeFirst(s[1..], c)
  }

  /** `s.split(c).pop()`: everything after the last `c`, or all of `s` when there is none. */
  function AfterLast(s: string, c: char): (r: string)
    ensures |r| <= |s| && r == s[|s| - |r|..] && c !in r
    ensures |r| < |s| ==> s[|s| - |r| - 1] == c
  {
    if s == [] || s[|s| - 1] == c then [] else AfterLast(s[..|s| - 1], c) + [s[|s| - 1]]
  }

  /** Splitting at the first `c` of `a + [c] + b`, where `a` has none, gives `a`. */
  lemma {:induction false} BeforeFirstOf(a: string, c: char, b: string)
    requires c !in a
    ensures BeforeFirst(a + [c] + b, c) == a
  {
    if a != [] {
      assert (a + [c] + b)[1..] == a[1..] + [c] + b;
      BeforeFirstOf(a[1..], c, b);
    }
  }

  /** Splitting at the last `c` of `a + [c] + b`, where `b` has none, gives `b`. */
  lemma {:induction false} AfterLastOf(a: string, c: char, b: string)
    requires c !in b
    ensures AfterLast(a + [c] + b, c) == b
  {
    if b != [] {
      var s := a + [c] + b;
      assert s[..|s| - 1] == a + [c] + b[..|b| - 1];
      AfterLastOf(a, c, b[..|b| - 1]);
    }
  }

  /** A string without `c` is its own `split(c).pop()`. */
  lemma {:induction false} AfterLastWhole(s: string, c: char)
    requires c !in s
    ensures AfterLast(s, c) == s
  {
    if s != [] {
      AfterLastWhole(s[..|s| - 1], c);
    }
  }

  /** One space on each side of a trimmed, non-empty string is what trim removes. */
  lemma TrimSpaces(s: string)
    requires s != [] && IsTrimmed(s)
    ensures Trim([' '] + s + [' ']) == s
  {
    var padded := [' '] + s + [' '];
    assert padded[1..] == s + [' '];
    assert TrimStart(padded) == TrimStart(s + [' ']);
    assert TrimStart(s + [' ']) == s + [' '];
    assert (s + [' '])[..|s|] == s;
    assert TrimEnd(s + [' ']) == TrimEnd(s);
  }

  /** `s.substring(0, n)` for n >= 0. */
  function Prefix(s: string, n: nat): (r: string)
    ensures |r| == if n <= |s| then n else |s|
    ensures r == s[..|r|]
  {
    if n <= |s| then s[..n] else s
  }

  /** `arr.join(sep)`. */
  function Join(parts: seq<string>, sep: string): string {
    if |parts| == 0 then ""
    else if |parts| == 1 then parts[0]
    else parts[0] + sep + Join(parts[1..], sep)
  }

  function DigitChar(d: nat): (c: char)
    requires d < 10
    ensures '0' <= c <= '9'
  {
    ('0' as int + d) as char
  }

  predicate IsDigits(s: string) {
    forall i :: 0 <= i < |s| ==> '0' <= s[i] <= '9'
  }

  /** Decimal rendering of a natural number, as JavaScript's `${n}` prints an integer. */
  function NatToString(n: nat): (r: string)
    ensures |r| > 0 && IsDigits(r)
    ensures |r| > 1 ==> r[0] != '0'
    decreases n
  {
    if n < 10 then [DigitChar(n)] else NatToString(n / 10) + [DigitChar(n % 10)]
  }

  /** Decimal rendering of an integer: a leading '-' for negative values. */
  function IntToString(i: int): string {
    if i < 0 then "-" + NatToString(-i) else NatToString(i)
  }

  function ParseDigits(s: string): nat
    requires IsDigits(s)
  {
    if s == [] then 0 else ParseDigits(s[..|s| - 1]) * 10 + (s[|s| - 1] as int - '0' as int)
  }

  /** The inverse of IntToString on its range. */
  function ParseInt(s: string): int
    requires |s| > 0 && (s[0] == '-' ==> IsDigits(s[1..])) && (s[0] != '-' ==> IsDigits(s))
  {
    if s[0] == '-' then -(ParseDigits(s[1..]) as int) else ParseDigits(s)
  }

  lemma {:induction false} ParseNatToString(n: nat)
    ensures ParseDigits(NatToString(n)) == n
    decreases n
  {
    if n >= 10 {
      var s := NatToString(n / 10);
      var t := s + [DigitChar(n % 10)];
      assert t[..|t| - 1] == s;
      ParseNatToString(n / 10);
    }
  }

  /** Printing an integer loses nothing: it can be parsed back. */
  lemma IntToStringRoundTrip(i: int)
    ensures var s := IntToString(i);
      |s| > 0 && (s[0] == '-' ==> IsDigits(s[1..])) && (s[0] != '-' ==> IsDigits(s))
      && ParseInt(s) == i
  {
    if i < 0 {
      ParseNatToString(-i);
      assert IntToString(i)[1..] == NatToString(-i);
    } else {
      ParseNatToString(i);
    }
  }

  /** Distinct integers print differently. */
  lemma IntToStringInjective(i: int, j: int)
    requires IntToString(i) == IntToString(j)
    ensures i == j
  {
    IntToStringRoundTrip(i);
    IntToStringRoundTrip(j);
  }
}
