/** Numbers as digits, in base eight and in base ten. */
module Digits {
  import opened Text

  function DigitChar(d: nat): char
    requires d < 10
  {
    ((d + 48) as char)
  }

  function DigitValue(c: char): nat
    requires IsDigit(c)
  {
    (c as int) - 48
  }

  predicate Base(b: nat) {
    b == 8 || b == 10
  }

  /** The shortest way to write `n`: no leading zero but zero itself. */
  function Print(n: nat, b: nat): (s: string)
    requires Base(b)
    ensures |s| >= 1 && AllDigits(s)
  {
    if n < b then [DigitChar(n)] else Print(n / b, b) + [DigitChar(n % b)]
  }

  predicate DigitsOf(s: string, b: nat)
    requires Base(b)
  {
    forall i | 0 <= i < |s| :: '0' <= s[i] && s[i] < DigitBound(b)
  }

  function DigitBound(b: nat): char
    requires Base(b)
  {
    if b == 8 then '8' else ':'
  }

  function Value(s: string, b: nat): nat
    requires Base(b) && AllDigits(s)
  {
    if s == "" then 0 else Value(s[..|s| - 1], b) * b + DigitValue(s[|s| - 1])
  }

  function Pow(b: nat, k: nat): (p: nat)
    requires b >= 1
    ensures p >= 1
  {
    if k == 0 then 1 else b * Pow(b, k - 1)
  }

  function Zeros(k: nat): (s: string)
    ensures |s| == k && AllDigits(s)
    ensures forall i | 0 <= i < k :: s[i] == '0'
  {
    if k == 0 then "" else "0" + Zeros(k - 1)
  }

  /** padStart(width, "0") */
  function Padded(n: nat, b: nat, width: nat): (s: string)
    requires Base(b)
    ensures AllDigits(s) && |s| >= 1
  {
    var digits := Print(n, b);
    if |digits| < width then Zeros(width - |digits|) + digits else digits
  }

  lemma {:induction false} ValueOfPrint(n: nat, b: nat)
    requires Base(b)
    ensures Value(Print(n, b), b) == n && DigitsOf(Print(n, b), b)
  {
    if n < b {
      assert Print(n, b)[..0] == "";
    } else {
      ValueOfPrint(n / b, b);
      var head := Print(n / b, b);
      assert Print(n, b)[..|Print(n, b)| - 1] == head;
      if b == 8 { assert n == n / 8 * 8 + n % 8; } else { assert n == n / 10 * 10 + n % 10; }
    }
  }

  lemma {:induction false} ValueOfZerosThen(k: nat, s: string, b: nat)
    requires Base(b) && AllDigits(s)
    ensures Value(Zeros(k) + s, b) == Value(s, b)
  {
    if s == "" {
      assert Zeros(k) + s == Zeros(k);
      if k > 0 {
        assert Zeros(k)[..k - 1] == Zeros(k - 1) + "" by {
          assert forall i | 0 <= i < k - 1 :: Zeros(k)[i] == '0' && Zeros(k - 1)[i] == '0';
        }
        ValueOfZerosThen(k - 1, "", b);
      }
    } else {
      var all := Zeros(k) + s;
      assert all[..|all| - 1] == Zeros(k) + s[..|s| - 1];
      ValueOfZerosThen(k, s[..|s| - 1], b);
    }
  }

  /** A padded number reads back as itself. */
  lemma ValueOfPadded(n: nat, b: nat, width: nat)
    requires Base(b)
    ensures Value(Padded(n, b, width), b) == n
    ensures DigitsOf(Padded(n, b, width), b)
  {
    ValueOfPrint(n, b);
    if |Print(n, b)| < width {
      PaddedReads(width - |Print(n, b)|, Print(n, b), b);
    }
  }

  lemma PaddedReads(k: nat, digits: string, b: nat)
    requires Base(b) && AllDigits(digits) && DigitsOf(digits, b)
    ensures Value(Zeros(k) + digits, b) == Value(digits, b) && DigitsOf(Zeros(k) + digits, b)
  {
    ValueOfZerosThen(k, digits, b);
    PaddedDigits(k, digits, b);
  }

  lemma PaddedDigits(k: nat, digits: string, b: nat)
    requires Base(b) && DigitsOf(digits, b)
    ensures DigitsOf(Zeros(k) + digits, b)
  {
    forall i | 0 <= i < |Zeros(k) + digits|
      ensures '0' <= (Zeros(k) + digits)[i] && (Zeros(k) + digits)[i] < DigitBound(b)
    {
      if i >= k { assert (Zeros(k) + digits)[i] == digits[i - k]; }
    }
  }

  /** A number takes at most `k` digits exactly when it is less than the base to the `k`. */
  lemma {:induction false} LengthOfPrint(n: nat, b: nat, k: nat)
    requires Base(b) && k >= 1
    ensures |Print(n, b)| <= k <==> n < Pow(b, k)
  {
    assert Pow(b, 1) == b * Pow(b, 0) == b;
    if k == 1 {
    } else if n < b {
      LengthOfPrint(n, b, k - 1);
    } else {
      LengthOfPrint(n / b, b, k - 1);
      if b == 8 {
        assert n / 8 < Pow(8, k - 1) <==> n < 8 * Pow(8, k - 1);
      } else {
        assert n / 10 < Pow(10, k - 1) <==> n < 10 * Pow(10, k - 1);
      }
    }
  }

  lemma {:induction false} ValueBelow(s: string, b: nat)
    requires Base(b) && DigitsOf(s, b) && AllDigits(s)
    ensures Value(s, b) < Pow(b, |s|)
  {
    if s != "" {
      ValueBelow(s[..|s| - 1], b);
      if b == 8 { assert Pow(8, |s|) == 8 * Pow(8, |s| - 1); } else { assert Pow(10, |s|) == 10 * Pow(10, |s| - 1); }
    }
  }

  lemma LengthOfPadded(n: nat, b: nat, width: nat)
    requires Base(b) && width >= 1 && n < Pow(b, width)
    ensures |Padded(n, b, width)| == width
  {
    LengthOfPrint(n, b, width);
  }

  lemma {:induction false} PrintMonotone(m: nat, n: nat, b: nat)
    requires Base(b) && m <= n
    ensures |Print(m, b)| <= |Print(n, b)|
  {
    if n >= b && m >= b {
      if b == 8 { assert m / 8 <= n / 8; } else { assert m / 10 <= n / 10; }
      PrintMonotone(m / b, n / b, b);
    }
  }

  /** The shortest writing has no leading zero. */
  lemma {:induction false} NoLeadingZero(n: nat, b: nat)
    requires Base(b)
    ensures Print(n, b)[0] == '0' <==> n == 0
  {
    if n >= b {
      NoLeadingZero(n / b, b);
    }
  }
}
