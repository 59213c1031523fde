/**
 * Operations on strings (`seq<char>`, one char per Unicode scalar value) that
 * the timeline needs: Python's ordering of `str` values, literal substring
 * containment, and zero-padded decimal fields with their parser.
 */
module Text {

  /** Python's `a < b` on `str`: lexicographic by code point; a proper prefix is smaller. */
  predicate StrLess(a: string, b: string)
  {
    if |a| == 0 then |b| > 0
    else if |b| == 0 then false
    else if a[0] != b[0] then a[0] < b[0]
    else StrLess(a[1..], b[1..])
  }

  lemma {:induction false} StrLessIrreflexive(a: string)
    ensures !StrLess(a, a)
  {
    if |a| > 0 {
      StrLessIrreflexive(a[1..]);
    }
  }

  lemma {:induction false} StrLessAsymmetric(a: string, b: string)
    requires StrLess(a, b)
    ensures !StrLess(b, a)
  {
    if |a| > 0 && |b| > 0 && a[0] == b[0] {
      StrLessAsymmetric(a[1..], b[1..]);
    }
  }

  lemma {:induction false} StrLessTransitive(a: string, b: string, c: string)
    requires StrLess(a, b) && StrLess(b, c)
    ensures StrLess(a, c)
  {
    if |a| > 0 && |b| > 0 && |c| > 0 && a[0] == b[0] && b[0] == c[0] {
      StrLessTransitive(a[1..], b[1..], c[1..]);
    }
  }

  /** Two different strings are always ordered one way or the other. */
  lemma {:induction false} StrLessConnected(a: string, b: string)
    requires a != b
    ensures StrLess(a, b) || StrLess(b, a)
  {
    if |a| > 0 && |b| > 0 && a[0] == b[0] {
      assert a == [a[0]] + a[1..] && b == [b[0]] + b[1..];
      StrLessConnected(a[1..], b[1..]);
    }
  }

  predicate IsPrefix(p: string, s: string)
  {
    |p| <= |s| && s[..|p|] == p
  }

  /**
   * Literal substring test: does `needle` occur somewhere in `hay`?
   * (pandas `Series.str.contains` with a pattern free of regex metacharacters.)
   */
  predicate Contains(hay: string, needle: string)
    decreases |hay|
  {
    IsPrefix(needle, hay) || (|hay| > 0 && Contains(hay[1..], needle))
  }

  /** `needle` occurs in `hay` starting at offset `i`. */
  predicate OccursAt(hay: string, needle: string, i: int)
  {
    0 <= i <= |hay| - |needle| && hay[i..i + |needle|] == needle
  }

  /** `Contains` means: `needle` sits at some offset of `hay`. */
  lemma {:induction false} ContainsAt(hay: string, needle: string)
    ensures Contains(hay, needle) <==> exists i :: OccursAt(hay, needle, i)
    decreases |hay|
  {
    if IsPrefix(needle, hay) {
      assert OccursAt(hay, needle, 0);
    } else if |hay| > 0 {
      ContainsAt(hay[1..], needle);
      if Contains(hay[1..], needle) {
        var i :| OccursAt(hay[1..], needle, i);
        assert hay[i + 1..i + 1 + |needle|] == hay[1..][i..i + |needle|];
        assert OccursAt(hay, needle, i + 1);
      }
      if exists i :: OccursAt(hay, needle, i) {
        var i :| OccursAt(hay, needle, i);
        assert i != 0;
        assert hay[1..][i - 1..i - 1 + |needle|] == hay[i..i + |needle|];
        assert OccursAt(hay[1..], needle, i - 1);
      }
    }
  }

  function Pow10(w: nat): (p: nat)
    ensures p >= 1
  {
    if w == 0 then 1 else 10 * Pow10(w - 1)
  }

  predicate IsDigit(c: char)
  {
    '0' <= c <= '9'
  }

  /** The value 0..9 of a decimal digit character. */
  function DigitValue(c: char): (d: nat)
    requires IsDigit(c)
    ensures d < 10
  {
    c as int - '0' as int
  }

  function DigitChar(d: nat): (c: char)
    requires d < 10
    ensures IsDigit(c) && DigitValue(c) == d
  {
    ('0' as int + d) as char
  }

  /** `n` written in exactly `w` decimal digits, with leading zeros (strftime's `%m`, `%d`). */
  function Digits(n: nat, w: nat): (s: string)
    requires n < Pow10(w)
    ensures |s| == w
    ensures forall i :: 0 <= i < |s| ==> IsDigit(s[i])
  {
    if w == 0 then [] else Digits(n / 10, w - 1) + [DigitChar(n % 10)]
  }

  /** The number a string of decimal digits denotes. */
  function DigitsValue(s: string): (n: nat)
    requires forall i :: 0 <= i < |s| ==> IsDigit(s[i])
    ensures n < Pow10(|s|)
  {
    if s == [] then 0
    else
      var high := DigitsValue(s[..|s| - 1]);
      assert high * 10 <= (Pow10(|s| - 1) - 1) * 10;
      high * 10 + DigitValue(s[|s| - 1])
  }

  /** Reading back a zero-padded field gives the number that was written. */
  lemma {:induction false} DigitsRoundTrip(n: nat, w: nat)
    requires n < Pow10(w)
    ensures DigitsValue(Digits(n, w)) == n
  {
    if w > 0 {
      var s := Digits(n, w);
      assert s[..|s| - 1] == Digits(n / 10, w - 1);
      DigitsRoundTrip(n / 10, w - 1);
    }
  }
}
