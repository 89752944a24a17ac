/**
 * The JavaScript string built-ins the core relies on, over Dafny strings
 * (sequences of Unicode scalar values): `trim`, global and first-occurrence
 * `replace`, `toLowerCase` on ASCII letters, `String(n)` for a natural number
 * and `padStart`.
 */
module JsText {

  /** The characters of JavaScript's `\s` class, which are also the ones `trim` strips
      (WhiteSpace and LineTerminator of ECMA-262). */
  predicate IsWhitespace(c: char) {
    var x := c as int;
    x == 0x09 || x == 0x0A || x == 0x0B || x == 0x0C || x == 0x0D || x == 0x20 ||
    x == 0xA0 || x == 0x1680 || (0x2000 <= x <= 0x200A) || x == 0x2028 || x == 0x2029 ||
    x == 0x202F || x == 0x205F || x == 0x3000 || x == 0xFEFF
  }

  predicate NoWhitespace(s: string) {
    forall i :: 0 <= i < |s| ==> !IsWhitespace(s[i])
  }

  /** `s.trimStart()`: the suffix left after dropping leading whitespace. */
  function TrimStart(s: string): (r: string)
    ensures |r| <= |s| && r == s[|s| - |r|..]
    ensures r == [] || !IsWhitespace(r[0])
    ensures forall i :: 0 <= i < |s| - |r| ==> IsWhitespace(s[i])
  {
    if |s| > 0 && IsWhitespace(s[0]) then TrimStart(s[1..]) else s
  }

  /** `s.trimEnd()`: the prefix left after dropping trailing whitespace. */
  function TrimEnd(s: string): (r: string)
    ensures |r| <= |s| && r == s[..|r|]
    ensures r == [] || !IsWhitespace(r[|r| - 1])
    ensures forall i :: |r| <= i < |s| ==> IsWhitespace(s[i])
  {
    if |s| > 0 && IsWhitespace(s[|s| - 1]) then TrimEnd(s[..|s| - 1]) else s
  }

  /** `s.trim()`: a contiguous piece of `s` that neither starts nor ends with whitespace
      and is all of `s` when `s` has no whitespace at all. */
  function Trim(s: string): (r: string)
    ensures |r| <= |s|
    ensures r == [] || (!IsWhitespace(r[0]) && !IsWhitespace(r[|r| - 1]))
    ensures NoWhitespace(s) ==> r == s
    ensures exists a, b :: (0 <= a <= b <= |s| && r == s[a..b]
      && (forall i :: 0 <= i < a ==> IsWhitespace(s[i]))
      && (forall i :: b <= i < |s| ==> IsWhitespace(s[i])))
  {
    TrimsCutSlice(s);
    TrimEnd(TrimStart(s))
  }

  /** Trimming both ends keeps the slice between the stripped leading and trailing runs. */
  lemma TrimsCutSlice(s: string)
    ensures exists a, b :: (0 <= a <= b <= |s| && TrimEnd(TrimStart(s)) == s[a..b]
      && (forall i :: 0 <= i < a ==> IsWhitespace(s[i]))
      && (forall i :: b <= i < |s| ==> IsWhitespace(s[i])))
  {
    var t := TrimStart(s);
    var a := |s| - |t|;
    var r := TrimEnd(t);
    var b := a + |r|;
    PrefixOfSuffix(s, a, |r|);
    TrailingRun(s, a, |r|);
  }

  /** A whitespace run at the end of a suffix of `s` is one at the end of `s`. */
  lemma TrailingRun(s: string, a: nat, n: nat)
    requires a + n <= |s|
    requires forall j :: n <= j < |s| - a ==> IsWhitespace(s[a..][j])
    ensures forall i :: a + n <= i < |s| ==> IsWhitespace(s[i])
  {
    forall i | a + n <= i < |s| ensures IsWhitespace(s[i]) {
      assert s[i] == s[a..][i - a];
    }
  }

  lemma PrefixOfSuffix(s: string, a: nat, n: nat)
    requires a + n <= |s|
    ensures s[a..][..n] == s[a..a + n]
  {
  }

  /** `s.replace(/pattern/g, replacement)`: every leftmost, non-overlapping occurrence replaced. */
  function ReplaceAll(s: string, pattern: string, replacement: string): string
    requires |pattern| > 0
    decreases |s|
  {
    if |s| == 0 then []
    else if |pattern| <= |s| && s[..|pattern|] == pattern then
      replacement + ReplaceAll(s[|pattern|..], pattern, replacement)
    else [s[0]] + ReplaceAll(s[1..], pattern, replacement)
  }

  /** A prefix in which the pattern's first character never occurs passes through unchanged. */
  lemma {:induction false} ReplaceAllSkips(a: string, b: string, pattern: string, replacement: string)
    requires |pattern| > 0 && pattern[0] !in a
    ensures ReplaceAll(a + b, pattern, replacement) == a + ReplaceAll(b, pattern, replacement)
  {
    if |a| > 0 {
      assert (a + b)[0] == a[0] && (a + b)[1..] == a[1..] + b;
      if |pattern| <= |a + b| {
        assert (a + b)[..|pattern|][0] == a[0];
      }
      ReplaceAllSkips(a[1..], b, pattern, replacement);
    } else {
      assert a + b == b;
    }
  }

  /** `s.replace(pattern, replacement)` with a string pattern: only the first occurrence. */
  function ReplaceFirst(s: string, pattern: string, replacement: string): string
    requires |pattern| > 0
    decreases |s|
  {
    if |s| < |pattern| then s
    else if s[..|pattern|] == pattern then replacement + s[|pattern|..]
    else [s[0]] + ReplaceFirst(s[1..], pattern, replacement)
  }

  /** A leading occurrence is the one `replace` removes. */
  lemma ReplaceFirstAtStart(pattern: string, rest: string, replacement: string)
    requires |pattern| > 0
    ensures ReplaceFirst(pattern + rest, pattern, replacement) == replacement + rest
  {
    assert (pattern + rest)[..|pattern|] == pattern;
    assert (pattern + rest)[|pattern|..] == rest;
  }

  predicate OccursAt(s: string, pattern: string, i: nat) {
    i + |pattern| <= |s| && s[i..i + |pattern|] == pattern
  }

  /** Whether `pattern` occurs anywhere in `s`. */
  ghost predicate Occurs(s: string, pattern: string) {
    exists i: nat :: OccursAt(s, pattern, i)
  }

  /** Without an occurrence, `replace` returns its input. */
  lemma {:induction false} ReplaceFirstWithoutMatch(s: string, pattern: string, replacement: string)
    requires |pattern| > 0 && !Occurs(s, pattern)
    ensures ReplaceFirst(s, pattern, replacement) == s
    decreases |s|
  {
    if |s| >= |pattern| {
      assert !OccursAt(s, pattern, 0);
      assert s[0..|pattern|] == s[..|pattern|];
      forall i: nat | OccursAt(s[1..], pattern, i) ensures false {
        assert s[i + 1..i + 1 + |pattern|] == s[1..][i..i + |pattern|];
        assert OccursAt(s, pattern, i + 1);
      }
      ReplaceFirstWithoutMatch(s[1..], pattern, replacement);
      assert s == [s[0]] + s[1..];
    }
  }

  /** `s.toLowerCase()` restricted to the ASCII letters. */
  function ToLowerAscii(s: string): (r: string)
    ensures |r| == |s|
    ensures forall i :: 0 <= i < |s| ==> !('A' <= r[i] <= 'Z')
    ensures forall i :: 0 <= i < |s| && !('A' <= s[i] <= 'Z') ==> r[i] == s[i]
  {
    if s == [] then [] else [LowerChar(s[0])] + ToLowerAscii(s[1..])
  }

  function LowerChar(c: char): char {
    if 'A' <= c <= 'Z' then (c as int + 32) as char else c
  }

  predicate IsDigit(c: char) { '0' <= c <= '9' }

  predicate AllDigits(s: string) { forall i :: 0 <= i < |s| ==> IsDigit(s[i]) }

  function DigitChar(d: nat): (c: char)
    requires d < 10
    ensures IsDigit(c) && c as int - '0' as int == d
  {
    ('0' as int + d) as char
  }

  /** `String(n)` for a natural number: its shortest decimal numeral. */
  function Decimal(n: nat): (r: string)
    ensures |r| >= 1 && AllDigits(r)
    ensures n > 0 ==> r[0] != '0'
    ensures |r| == 1 <==> n < 10
  {
    if n < 10 then [DigitChar(n)] else Decimal(n / 10) + [DigitChar(n % 10)]
  }

  /** The number a string of decimal digits denotes (leading zeros allowed). */
  function DecimalValue(s: string): nat
    requires AllDigits(s)
  {
    if s == [] then 0 else DecimalValue(s[..|s| - 1]) * 10 + (s[|s| - 1] as int - '0' as int)
  }

  lemma {:induction false} DecimalRoundTrip(n: nat)
    ensures DecimalValue(Decimal(n)) == n
  {
    if n >= 10 {
      var r := Decimal(n);
      assert r[..|r| - 1] == Decimal(n / 10);
      DecimalRoundTrip(n / 10);
    }
  }

  /** Zeros in front of a numeral do not change its value. */
  lemma {:induction false} LeadingZeros(z: nat, s: string)
    requires AllDigits(s)
    ensures AllDigits(seq(z, _ => '0') + s)
    ensures DecimalValue(seq(z, _ => '0') + s) == DecimalValue(s)
  {
    var zs: string := seq(z, _ => '0');
    if s == [] {
      assert zs + s == zs;
      ZerosValue(z);
    } else {
      var t := zs + s;
      assert t[..|t| - 1] == zs + s[..|s| - 1];
      LeadingZeros(z, s[..|s| - 1]);
    }
  }

  lemma {:induction false} ZerosValue(z: nat)
    ensures DecimalValue(seq(z, _ => '0')) == 0
  {
    if z > 0 {
      var zs: string := seq(z, _ => '0');
      assert zs[..z - 1] == seq(z - 1, _ => '0');
      ZerosValue(z - 1);
    }
  }

  /** `s.padStart(len, fill)` with a one-character fill. */
  function PadStart(s: string, len: nat, fill: char): (r: string)
    ensures |r| == if |s| >= len then |s| else len
    ensures r[|r| - |s|..] == s
    ensures forall i :: 0 <= i < |r| - |s| ==> r[i] == fill
  {
    if |s| >= len then s else seq(len - |s|, _ => fill) + s
  }

  /** `String(n).padStart(2, "0")`, the two-digit field of the countdown displays. */
  function TwoDigits(n: nat): string {
    PadStart(Decimal(n), 2, '0')
  }

  /** A padded field reads back as the number it shows, and is exactly two characters
      below 100. */
  lemma TwoDigitsValue(n: nat)
    ensures AllDigits(TwoDigits(n)) && DecimalValue(TwoDigits(n)) == n
    ensures n < 100 <==> |TwoDigits(n)| == 2
  {
    var d := Decimal(n);
    DecimalRoundTrip(n);
    if |d| < 2 {
      LeadingZeros(2 - |d|, d);
    }
    if n >= 10 {
      assert Decimal(n / 10) == d[..|d| - 1];
      if n < 100 {
        assert |Decimal(n / 10)| == 1;
      } else {
        assert |Decimal(n / 10)| >= 2;
      }
    }
  }
}
