/** Decimal digit strings: fixed-width zero-padded numerals (the `%Y%m%d`
    stamps) and Python's `str(int)` (how an age is printed into a subject). */
module Numerals {
  import opened Text

  predicate IsDigit(c: char) {
    '0' <= c <= '9'
  }

  predicate AllDigits(s: string) {
    forall i :: 0 <= i < |s| ==> IsDigit(s[i])
  }

  function DigitChar(n: nat): char
    requires n < 10
  {
    ('0' as int + n) as char
  }

  function DigitValue(c: char): nat
    requires IsDigit(c)
  {
    c as int - '0' as int
  }

  function Pow10(k: nat): nat {
    if k == 0 then 1 else 10 * Pow10(k - 1)
  }

  /** The value of a string of decimal digits, most significant first. */
  function ValueOf(s: string): (n: nat)
    requires AllDigits(s)
    ensures n < Pow10(|s|)
  {
    if |s| == 0 then 0 else 10 * ValueOf(s[..|s| - 1]) + DigitValue(s[|s| - 1])
  }

  /** `n` written with exactly `k` digits, zero-padded on the left. */
  function Pad(n: nat, k: nat): (r: string)
    requires n < Pow10(k)
    ensures |r| == k && AllDigits(r)
  {
    if k == 0 then "" else Pad(n / 10, k - 1) + [DigitChar(n % 10)]
  }

  /** Reading a padded numeral back gives the number. */
  lemma {:induction false} ValueOfPad(n: nat, k: nat)
    requires n < Pow10(k)
    ensures ValueOf(Pad(n, k)) == n
    decreases k
  {
    if k > 0 {
      var s := Pad(n, k);
      assert s[..|s| - 1] == Pad(n / 10, k - 1);
      ValueOfPad(n / 10, k - 1);
    }
  }

  /** Padding the value of a digit string to its own width gives the string. */
  lemma {:induction false} PadValueOf(s: string)
    requires AllDigits(s)
    ensures Pad(ValueOf(s), |s|) == s
    decreases |s|
  {
    if |s| > 0 {
      var init := s[..|s| - 1];
      var n := ValueOf(s);
      assert n / 10 == ValueOf(init) && n % 10 == DigitValue(s[|s| - 1]);
      PadValueOf(init);
      assert s == init + [s[|s| - 1]];
    }
  }

  lemma PadInjective(a: nat, b: nat, k: nat)
    requires a < Pow10(k) && b < Pow10(k)
    ensures Pad(a, k) == Pad(b, k) <==> a == b
  {
    ValueOfPad(a, k);
    ValueOfPad(b, k);
  }

  /** For numerals of one width, string order is numeric order. */
  lemma {:induction false} PadLess(a: nat, b: nat, k: nat)
    requires a < Pow10(k) && b < Pow10(k)
    ensures Less(Pad(a, k), Pad(b, k)) <==> a < b
    decreases k
  {
    if k == 0 {
      assert Pad(a, k) == [] == Pad(b, k);
    } else {
      PadLess(a / 10, b / 10, k - 1);
      PadInjective(a / 10, b / 10, k - 1);
      LessSnoc(Pad(a / 10, k - 1), Pad(b / 10, k - 1), DigitChar(a % 10), DigitChar(b % 10));
      assert a < b <==> a / 10 < b / 10 || (a / 10 == b / 10 && a % 10 < b % 10);
    }
  }

  /** The decimal digits of `n` without leading zeros. */
  function Digits(n: nat): (r: string)
    ensures |r| >= 1 && AllDigits(r)
    ensures ValueOf(r) == n
    ensures r[0] == '0' ==> n == 0
    ensures |r| > 1 ==> r[0] != '0'
    decreases n
  {
    if n < 10 then [DigitChar(n)]
    else
      var r := Digits(n / 10) + [DigitChar(n % 10)];
      assert r[..|r| - 1] == Digits(n / 10);
      r
  }

  /** Python's `str(i)` for an `int`. */
  function IntToString(i: int): string {
    if i < 0 then "-" + Digits(-i) else Digits(i)
  }

  /** `str(i)` is a minus sign exactly for a negative number, then the
      digits of its magnitude without leading zeros. */
  lemma IntToStringFacts(i: int)
    ensures |IntToString(i)| >= 1 && (IntToString(i)[0] == '-' <==> i < 0)
    ensures i < 0 ==> |IntToString(i)| >= 2 && AllDigits(IntToString(i)[1..]) && ValueOf(IntToString(i)[1..]) == -i
    ensures i >= 0 ==> AllDigits(IntToString(i)) && ValueOf(IntToString(i)) == i
    ensures i >= 0 && |IntToString(i)| > 1 ==> IntToString(i)[0] != '0'
  {
    if i < 0 {
      assert IntToString(i)[1..] == Digits(-i);
    }
  }
}
