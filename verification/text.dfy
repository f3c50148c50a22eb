/**
 * String helpers the views and formatters rely on: decimal rendering of
 * integers (Swift string interpolation and `%02d`), splitting at a separator,
 * ASCII case folding and substring search, and trimming.
 */
module Text {
  import opened Wrappers

  predicate IsDigit(c: char) {
    '0' <= c <= '9'
  }

  /** Every character is a decimal digit (the empty string included). */
  predicate AllDigits(s: string) {
    forall i :: 0 <= i < |s| ==> IsDigit(s[i])
  }

  /** A non-empty run of decimal digits. */
  predicate IsNumeral(s: string) {
    |s| > 0 && AllDigits(s)
  }

  function DigitChar(d: nat): (c: char)
    requires d < 10
    ensures IsDigit(c)
  {
    (('0' as int) + d) as char
  }

  function DigitValue(c: char): (d: nat)
    requires IsDigit(c)
    ensures d < 10
  {
    (c as int) - ('0' as int)
  }

  /** Decimal rendering of a natural number, as `"\(n)"` produces it. */
  function NatToString(n: nat): (s: string)
    ensures IsNumeral(s)
    ensures |s| == 1 <==> n < 10
  {
    if n < 10 then [DigitChar(n)] else NatToString(n / 10) + [DigitChar(n % 10)]
  }

  /** The value of a run of decimal digits (the empty run reads as 0). */
  function StringToNat(s: string): nat
    requires AllDigits(s)
  {
    if |s| == 0 then 0 else 10 * StringToNat(s[..|s| - 1]) + DigitValue(s[|s| - 1])
  }

  /** Reading back a rendered number gives the number. */
  lemma {:induction false} NatToStringRoundTrip(n: nat)
    ensures StringToNat(NatToString(n)) == n
  {
    if n >= 10 {
      var s := NatToString(n);
      assert s[..|s| - 1] == NatToString(n / 10);
      NatToStringRoundTrip(n / 10);
    }
  }

  /** Distinct numbers render differently. */
  lemma NatToStringInjective(a: nat, b: nat)
    requires NatToString(a) == NatToString(b)
    ensures a == b
  {
    NatToStringRoundTrip(a);
    NatToStringRoundTrip(b);
  }

  /** A leading zero does not change the value of a run of digits. */
  lemma {:induction false} LeadingZero(s: string)
    requires AllDigits(s)
    ensures AllDigits("0" + s) && StringToNat("0" + s) == StringToNat(s)
  {
    if |s| > 0 {
      var t := "0" + s;
      assert t[..|t| - 1] == "0" + s[..|s| - 1];
      LeadingZero(s[..|s| - 1]);
    }
  }

  /** `String(format: "%02d", n)` for a non-negative `n`: at least two digits, zero-padded. */
  function Pad2(n: nat): (s: string)
    ensures IsNumeral(s) && |s| >= 2
    ensures StringToNat(s) == n
  {
    NatToStringRoundTrip(n);
    if n < 10 then
      LeadingZero(NatToString(n));
      "0" + NatToString(n)
    else
      NatToString(n)
  }

  /** Decimal rendering of any integer, with a leading minus sign when negative. */
  function IntToString(i: int): (s: string)
    ensures |s| > 0 && '/' !in s && ':' !in s
  {
    if i < 0 then "-" + NatToString(-i) else NatToString(i)
  }

  /** Reads back what `IntToString` writes; `None` when the text is not an integer. */
  function ParseInt(s: string): Option<int> {
    if |s| > 0 && s[0] == '-' then
      (if IsNumeral(s[1..]) then Some(0 - StringToNat(s[1..])) else None)
    else if IsNumeral(s) then Some(StringToNat(s))
    else None
  }

  lemma IntToStringRoundTrip(i: int)
    ensures ParseInt(IntToString(i)) == Some(i)
  {
    if i < 0 {
      NegativeRoundTrip(i);
    } else {
      NatToStringRoundTrip(i);
      assert IsDigit(NatToString(i)[0]);
    }
  }

  /** A negative number reads back through its sign and its magnitude. */
  lemma NegativeRoundTrip(i: int)
    requires i < 0
    ensures ParseInt(IntToString(i)) == Some(i)
  {
    var s := IntToString(i);
    assert s[0] == '-' && s[1..] == NatToString(-i);
    NatToStringRoundTrip(-i);
    assert 0 - StringToNat(s[1..]) == i;
  }

  /**
   * Splits `s` at the first occurrence of `sep`: the text before it (which
   * holds no `sep`) and the text after it, or `None` when `sep` does not occur.
   */
  function SplitFirst(s: string, sep: char): (r: Option<(string, string)>)
    ensures r.None? <==> sep !in s
    ensures r.Some? ==> s == r.value.0 + [sep] + r.value.1 && sep !in r.value.0
  {
    if |s| == 0 then None
    else if s[0] == sep then Some(([], s[1..]))
    else
      match SplitFirst(s[1..], sep)
      case None => None
      case Some(p) =>
        assert s == [s[0]] + s[1..];
        Some(([s[0]] + p.0, p.1))
  }

  /** Splitting text built around a separator recovers the two parts. */
  lemma {:induction false} SplitFirstOf(x: string, sep: char, y: string)
    requires sep !in x
    ensures SplitFirst(x + [sep] + y, sep) == Some((x, y))
  {
    var s := x + [sep] + y;
    if |x| == 0 {
      assert s[1..] == y;
    } else {
      assert s[1..] == x[1..] + [sep] + y;
      SplitFirstOf(x[1..], sep, y);
      assert [s[0]] + x[1..] == x;
    }
  }

  /** ASCII upper case letters to lower case; other characters unchanged. */
  function LowerChar(c: char): char {
    if 'A' <= c <= 'Z' then ((c as int) + 32) as char else c
  }

  function Lower(s: string): (r: string)
    ensures |r| == |s|
  {
    seq(|s|, i requires 0 <= i < |s| => LowerChar(s[i]))
  }

  /** `needle` occurs in `hay` starting at index `i`. */
  predicate OccursAt(hay: string, needle: string, i: int) {
    0 <= i <= |hay| - |needle| && hay[i..i + |needle|] == needle
  }

  /** `needle` occurs as a contiguous part of `hay` (the empty needle always does). */
  predicate Contains(hay: string, needle: string) {
    exists i :: 0 <= i <= |hay| && OccursAt(hay, needle, i)
  }

  /** Swift's `localizedCaseInsensitiveContains`, with case folding restricted to ASCII. */
  predicate ContainsIgnoringCase(hay: string, needle: string) {
    Contains(Lower(hay), Lower(needle))
  }

  /** Every character of a contained needle occurs in the hay. */
  lemma ContainsChars(hay: string, needle: string, j: int)
    requires Contains(hay, needle) && 0 <= j < |needle|
    ensures needle[j] in hay
  {
    var i :| 0 <= i <= |hay| && OccursAt(hay, needle, i);
    assert hay[i..i + |needle|][j] == needle[j];
  }

  /** Drops leading and trailing spaces (`trimmingCharacters(in: .whitespaces)`, spaces only). */
  function TrimSpaces(s: string): (r: string)
    ensures |r| <= |s|
    ensures |r| > 0 ==> r[0] != ' ' && r[|r| - 1] != ' '
    ensures (forall i :: 0 <= i < |s| ==> s[i] == ' ') <==> r == ""
    decreases |s|
  {
    if |s| == 0 then s
    else if s[0] == ' ' then TrimSpaces(s[1..])
    else if s[|s| - 1] == ' ' then TrimSpaces(s[..|s| - 1])
    else s
  }

  /** `"\(n) word"` with an `s` appended unless `n` is 1. */
  function CountNoun(n: nat, word: string): string {
    NatToString(n) + " " + word + (if n == 1 then "" else "s")
  }
}
