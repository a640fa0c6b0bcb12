/**
 * Decimal text of non-negative integers, as `Number.prototype.toString()` writes
 * them, `String.prototype.padStart`, and the reader that undoes them.
 */
module Decimal {

  predicate IsDigit(c: char) {
    '0' <= c <= '9'
  }

  /** A non-empty run of decimal digits. */
  predicate IsDigits(s: string) {
    |s| > 0 && forall i :: 0 <= i < |s| ==> IsDigit(s[i])
  }

  function DigitChar(d: nat): (c: char)
    requires d < 10
    ensures IsDigit(c) && c as int - '0' as int == d
  {
    ('0' as int + d) as char
  }

  function DigitValue(c: char): (d: nat)
    requires IsDigit(c)
    ensures d < 10 && DigitChar(d) == c
  {
    c as int - '0' as int
  }

  /** The shortest decimal text of `n`: no leading zero unless `n` is 0. */
  function NatToString(n: nat): (s: string)
    ensures IsDigits(s)
    ensures (|s| == 1) == (n < 10)
    ensures s[0] == '0' ==> n == 0
    decreases n
  {
    if n < 10 then [DigitChar(n)] else NatToString(n / 10) + [DigitChar(n % 10)]
  }

  /** The value of a run of decimal digits (leading zeros allowed). */
  function ParseNat(s: string): (n: nat)
    requires IsDigits(s)
    decreases |s|
  {
    if |s| == 1 then DigitValue(s[0])
    else 10 * ParseNat(s[..|s| - 1]) + DigitValue(s[|s| - 1])
  }

  lemma {:induction false} ParseNatToString(n: nat)
    ensures ParseNat(NatToString(n)) == n
    decreases n
  {
    if n >= 10 {
      var s := NatToString(n);
      ParseNatToString(n / 10);
      assert s[..|s| - 1] == NatToString(n / 10);
      assert s[|s| - 1] == DigitChar(n % 10);
    }
  }

  /** Distinct numbers print differently. */
  lemma NatToStringInjective(a: nat, b: nat)
    ensures NatToString(a) == NatToString(b) ==> a == b
  {
    ParseNatToString(a);
    ParseNatToString(b);
  }

  /** A canonical digit run (no leading zero) is reprinted exactly. */
  lemma {:induction false} NatToStringParse(s: string)
    requires IsDigits(s) && (s[0] == '0' ==> |s| == 1)
    ensures NatToString(ParseNat(s)) == s
    decreases |s|
  {
    if |s| > 1 {
      var p := s[..|s| - 1];
      NatToStringParse(p);
      ParseNatAtLeast(p);
      assert ParseNat(s) / 10 == ParseNat(p);
      assert ParseNat(s) % 10 == DigitValue(s[|s| - 1]);
      assert s == p + [s[|s| - 1]];
    }
  }

  /** A digit run that starts with a non-zero digit is worth at least 1. */
  lemma {:induction false} ParseNatAtLeast(s: string)
    requires IsDigits(s) && s[0] != '0'
    ensures ParseNat(s) >= 1
    decreases |s|
  {
    if |s| > 1 {
      ParseNatAtLeast(s[..|s| - 1]);
    }
  }

  /** `k` copies of `c`. */
  function Repeat(c: char, k: nat): (r: string)
    ensures |r| == k && forall i :: 0 <= i < k ==> r[i] == c
  {
    seq(k, _ => c)
  }

  /** `s.padStart(width, fill)`: `s` preceded by as many `fill` as it lacks to reach `width`. */
  function PadStart(s: string, width: nat, fill: char): (r: string)
    ensures |r| == if |s| >= width then |s| else width
    ensures r[|r| - |s|..] == s
    ensures forall i :: 0 <= i < |r| - |s| ==> r[i] == fill
  {
    Repeat(fill, if |s| >= width then 0 else width - |s|) + s
  }

  /** Leading zeros do not change the value that is read back. */
  lemma {:induction false} ParseNatLeadingZeros(k: nat, s: string)
    requires IsDigits(s)
    ensures IsDigits(Repeat('0', k) + s) && ParseNat(Repeat('0', k) + s) == ParseNat(s)
    decreases |s|, k
  {
    var t := Repeat('0', k) + s;
    if |s| > 1 {
      var p := s[..|s| - 1];
      ParseNatLeadingZeros(k, p);
      assert t[..|t| - 1] == Repeat('0', k) + p;
    } else if k > 0 {
      ParseNatLeadingZeros(k - 1, s);
      assert t[..|t| - 1] == Repeat('0', k);
      assert Repeat('0', k - 1) + s == t[1..];
      ParseNatZeros(k);
    }
  }

  lemma {:induction false} ParseNatZeros(k: nat)
    requires k > 0
    ensures IsDigits(Repeat('0', k)) && ParseNat(Repeat('0', k)) == 0
    decreases k
  {
    if k > 1 {
      assert Repeat('0', k)[..k - 1] == Repeat('0', k - 1);
      ParseNatZeros(k - 1);
    }
  }

  /** Zero padding does not change the value that is read back. */
  lemma ParseNatPadded(s: string, width: nat)
    requires IsDigits(s)
    ensures IsDigits(PadStart(s, width, '0'))
    ensures ParseNat(PadStart(s, width, '0')) == ParseNat(s)
  {
    ParseNatLeadingZeros(if |s| >= width then 0 else width - |s|, s);
  }
}
