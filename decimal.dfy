/** Python's `'{:04}'.format(n)` for a non-negative integer: its decimal digits,
    zero-padded on the left to at least four characters. */
module Decimal {

  predicate IsDigit(c: char)
  {
    '0' <= c <= '9'
  }

  predicate AllDigits(s: string)
  {
    forall j | 0 <= j < |s| :: IsDigit(s[j])
  }

  function DigitChar(d: nat): (c: char)
    requires d < 10
    ensures IsDigit(c)
  {
    ('0' as int + d) as char
  }

  function DigitValue(c: char): nat
    requires IsDigit(c)
  {
    c as int - '0' as int
  }

  /** The decimal digits of `n`, most significant first, without leading zeros. */
  function Digits(n: nat): (s: string)
    ensures 1 <= |s| && AllDigits(s)
  {
    if n < 10 then [DigitChar(n)] else Digits(n / 10) + [DigitChar(n % 10)]
  }

  /** `k` zero digits. */
  function Zeros(k: nat): (s: string)
    ensures |s| == k && AllDigits(s)
  {
    if k == 0 then [] else Zeros(k - 1) + ['0']
  }

  /** `'{:04}'.format(n)`: at least four characters, all digits; exactly four below
      10000. */
  function Format04(n: nat): (s: string)
    ensures AllDigits(s)
    ensures |s| == if |Digits(n)| < 4 then 4 else |Digits(n)|
  {
    var d := Digits(n);
    if |d| < 4 then Zeros(4 - |d|) + d else d
  }

  /** The number a string of digits denotes. */
  function Value(s: string): nat
    requires AllDigits(s)
  {
    if s == [] then 0 else Value(s[..|s| - 1]) * 10 + DigitValue(s[|s| - 1])
  }

  /** Reading the digits of `n` gives `n` back. */
  lemma {:induction false} ValueDigits(n: nat)
    ensures Value(Digits(n)) == n
  {
    if n >= 10 {
      ValueDigits(n / 10);
      var s := Digits(n);
      assert s[..|s| - 1] == Digits(n / 10);
    }
  }

  /** Leading zeros do not change the number. */
  lemma {:induction false} ValueLeadingZeros(k: nat, s: string)
    requires AllDigits(s)
    ensures Value(Zeros(k) + s) == Value(s)
  {
    if s == [] {
      ZerosValue(k);
      assert Zeros(k) + s == Zeros(k);
    } else {
      var p := s[..|s| - 1];
      ValueLeadingZeros(k, p);
      assert (Zeros(k) + s)[..|Zeros(k) + s| - 1] == Zeros(k) + p;
    }
  }

  lemma {:induction false} ZerosValue(k: nat)
    ensures Value(Zeros(k)) == 0
  {
    if k > 0 {
      ZerosValue(k - 1);
      assert Zeros(k)[..k - 1] == Zeros(k - 1);
    }
  }

  /** The padded form still denotes `n`. */
  lemma Format04Value(n: nat)
    ensures Value(Format04(n)) == n
  {
    ValueDigits(n);
    var d := Digits(n);
    if |d| < 4 {
      ValueLeadingZeros(4 - |d|, d);
    }
  }

  /** Different numbers are formatted differently. */
  lemma Format04Injective(a: nat, b: nat)
    ensures Format04(a) == Format04(b) <==> a == b
  {
    Format04Value(a);
    Format04Value(b);
  }

  /** A prefix followed by the padded number, as `'user_{:04}'` makes it. */
  function Label(prefix: string, n: nat): (s: string)
    ensures |s| >= |prefix| + 4 && s[..|prefix|] == prefix
  {
    prefix + Format04(n)
  }

  /** Labels with the same prefix are equal exactly for equal numbers. */
  lemma LabelInjective(prefix: string, a: nat, b: nat)
    ensures Label(prefix, a) == Label(prefix, b) <==> a == b
  {
    Format04Injective(a, b);
    assert Label(prefix, a)[|prefix|..] == Format04(a);
    assert Label(prefix, b)[|prefix|..] == Format04(b);
  }
}
