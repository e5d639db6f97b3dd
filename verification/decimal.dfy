/** Decimal digits as JavaScript prints integers in template strings and as
    `Number.parseInt(digits, 10)` reads them back. */
module Decimal {

  predicate IsDigit(c: char) {
    '0' <= c <= '9'
  }

  predicate AllDigits(s: string) {
    forall i :: 0 <= i < |s| ==> IsDigit(s[i])
  }

  function DigitChar(d: nat): (c: char)
    requires d < 10
    ensures IsDigit(c)
  {
    ('0' as int + d) as char
  }

  function DigitValue(c: char): (d: nat)
    requires IsDigit(c)
    ensures d < 10
  {
    (c as int) - ('0' as int)
  }

  /** `${n}` for a non-negative integer: no sign, no leading zeros. */
  function NatToString(n: nat): (s: string)
    ensures |s| > 0 && AllDigits(s)
    decreases n
  {
    if n < 10 then [DigitChar(n)] else NatToString(n / 10) + [DigitChar(n % 10)]
  }

  /** `${i}` for any integer: a minus sign for negative values. */
  function IntToString(i: int): (s: string)
    ensures |s| > 0
  {
    if i < 0 then "-" + NatToString(-i) else NatToString(i)
  }

  /** A printed integer holds only digits and a leading minus sign. */
  lemma IntToStringChars(i: int)
    ensures i >= 0 ==> IntToString(i) == NatToString(i)
    ensures i < 0 ==> IntToString(i)[0] == '-'
    ensures forall k :: 0 <= k < |IntToString(i)| ==> IsDigit(IntToString(i)[k]) || IntToString(i)[k] == '-'
  {
  }

  /** The value of the first `k` digits of `ds`, most significant first. */
  function ParsePrefix(ds: string, k: nat): nat
    requires k <= |ds| && AllDigits(ds)
  {
    if k == 0 then 0 else 10 * ParsePrefix(ds, k - 1) + DigitValue(ds[k - 1])
  }

  /** `Number.parseInt(ds, 10)` on a run of decimal digits. */
  function ParseDigits(ds: string): nat
    requires AllDigits(ds)
  {
    ParsePrefix(ds, |ds|)
  }

  /** A prefix's value depends on the prefix alone. */
  lemma {:induction false} ParsePrefixAgree(a: string, b: string, k: nat)
    requires k <= |a| && k <= |b| && AllDigits(a) && AllDigits(b)
    requires forall j :: 0 <= j < k ==> a[j] == b[j]
    ensures ParsePrefix(a, k) == ParsePrefix(b, k)
  {
    if k > 0 {
      ParsePrefixAgree(a, b, k - 1);
    }
  }

  /** Reading back a printed non-negative integer gives the integer. */
  lemma {:induction false} ParseNatToString(n: nat)
    ensures ParseDigits(NatToString(n)) == n
    decreases n
  {
    if n >= 10 {
      var s := NatToString(n);
      var t := NatToString(n / 10);
      assert s == t + [DigitChar(n % 10)];
      ParsePrefixAgree(s, t, |t|);
      ParseNatToString(n / 10);
      assert s[|t|] == DigitChar(n % 10);
      assert ParseDigits(s) == 10 * ParsePrefix(s, |t|) + DigitValue(s[|t|]);
    } else {
      assert ParseDigits(NatToString(n)) == ParsePrefix(NatToString(n), 0) * 10 + DigitValue(DigitChar(n));
    }
  }

  /** The greedy `\d*` run starting at position `i`. */
  function DigitRun(s: string, i: nat): (r: string)
    requires i <= |s|
    ensures AllDigits(r)
    decreases |s| - i
  {
    if i < |s| && IsDigit(s[i]) then [s[i]] + DigitRun(s, i + 1) else []
  }

  /** A run of digits ending the string, or followed by a non-digit, is
      taken whole. */
  lemma {:induction false} DigitRunOf(s: string, i: nat, e: nat)
    requires i <= e <= |s|
    requires forall k :: i <= k < e ==> IsDigit(s[k])
    requires e == |s| || !IsDigit(s[e])
    ensures DigitRun(s, i) == s[i..e]
    decreases e - i
  {
    if i < e {
      DigitRunOf(s, i + 1, e);
      assert s[i..e] == [s[i]] + s[i + 1..e];
    }
  }
}
