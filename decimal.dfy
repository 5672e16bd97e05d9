/** Decimal text of whole numbers, as Python's `str(int)` writes it and `int(...)` reads digits back. */
module Decimal {
  function Pow10(k: nat): (r: nat)
    ensures r >= 1
  {
    if k == 0 then 1 else 10 * Pow10(k - 1)
  }

  predicate IsDigit(c: char) { '0' <= c <= '9' }

  predicate AllDigits(s: string) { forall i :: 0 <= i < |s| ==> IsDigit(s[i]) }

  function DigitChar(d: nat): (c: char)
    requires d < 10
    ensures IsDigit(c)
  {
    ('0' as int + d) as char
  }

  function CharValue(c: char): nat
    requires IsDigit(c)
  {
    (c as int - '0' as int) as nat
  }

  /** The shortest decimal text of `n`: no leading zero, "0" for zero. */
  function NatToDigits(n: nat): string {
    if n < 10 then [DigitChar(n)] else NatToDigits(n / 10) + [DigitChar(n % 10)]
  }

  /** The value of a text made of decimal digits (leading zeros allowed). */
  function DigitsValue(s: string): nat
    requires AllDigits(s)
  {
    if s == [] then 0 else DigitsValue(s[..|s| - 1]) * 10 + CharValue(s[|s| - 1])
  }

  /** `str(i)` for an integer. */
  function IntToString(i: int): string {
    if i < 0 then "-" + NatToDigits(-i) else NatToDigits(i)
  }

  function Zeros(k: nat): (z: string)
    ensures |z| == k && AllDigits(z)
  {
    if k == 0 then "" else "0" + Zeros(k - 1)
  }

  /** Left-pads `s` with zeros to width `w`. */
  function PadLeft(s: string, w: nat): (r: string)
    ensures |r| == if |s| < w then w else |s|
  {
    if |s| < w then Zeros(w - |s|) + s else s
  }

  lemma {:induction false} DigitsRoundTrip(n: nat)
    ensures AllDigits(NatToDigits(n)) && |NatToDigits(n)| >= 1
    ensures DigitsValue(NatToDigits(n)) == n
  {
    if n >= 10 {
      DigitsRoundTrip(n / 10);
      var s := NatToDigits(n);
      assert s[..|s| - 1] == NatToDigits(n / 10);
    }
  }

  lemma {:induction false} DigitsLength(n: nat, w: nat)
    requires w >= 1 && n < Pow10(w)
    ensures |NatToDigits(n)| <= w
  {
    if n >= 10 {
      DigitsLength(n / 10, w - 1);
    }
  }

  lemma {:induction false} ZerosValue(k: nat)
    ensures DigitsValue(Zeros(k)) == 0
  {
    if k > 0 {
      var z := Zeros(k);
      assert z[..k - 1] == Zeros(k - 1) by {
        if k > 1 {
          ZerosTail(k);
        }
      }
      ZerosValue(k - 1);
    }
  }

  lemma ZerosTail(k: nat)
    requires k >= 1
    ensures Zeros(k)[..k - 1] == Zeros(k - 1)
  {
    assert forall i :: 0 <= i < k ==> Zeros(k)[i] == '0' by {
      ZerosAllZero(k);
    }
    ZerosAllZero(k - 1);
  }

  lemma {:induction false} ZerosAllZero(k: nat)
    ensures forall i :: 0 <= i < k ==> Zeros(k)[i] == '0'
  {
    if k > 0 { ZerosAllZero(k - 1); }
  }

  /** Leading zeros do not change the value of a digit text. */
  lemma {:induction false} PadLeftValue(s: string, w: nat)
    requires AllDigits(s)
    ensures AllDigits(PadLeft(s, w))
    ensures DigitsValue(PadLeft(s, w)) == DigitsValue(s)
  {
    if |s| < w {
      ZerosValue(w - |s|);
      LeadingZerosValue(Zeros(w - |s|), s);
    }
  }

  lemma {:induction false} LeadingZerosValue(z: string, s: string)
    requires AllDigits(z) && DigitsValue(z) == 0 && AllDigits(s)
    ensures AllDigits(z + s) && DigitsValue(z + s) == DigitsValue(s)
  {
    if s != [] {
      var t := z + s;
      assert t[..|t| - 1] == z + s[..|s| - 1];
      LeadingZerosValue(z, s[..|s| - 1]);
    } else {
      assert z + s == z;
    }
  }

  /** The digits of `a` followed by those of `b` denote `a`'s value shifted left by `|b|` places plus `b`'s. */
  lemma {:induction false} DigitsConcat(a: string, b: string)
    requires AllDigits(a) && AllDigits(b) && AllDigits(a + b)
    ensures DigitsValue(a + b) == DigitsValue(a) * Pow10(|b|) + DigitsValue(b)
  {
    if b != [] {
      var bi := b[..|b| - 1];
      assert (a + b)[..|a + b| - 1] == a + bi && (a + b)[|a + b| - 1] == b[|b| - 1];
      DigitsConcat(a, bi);
      var x, p, y, c := DigitsValue(a), Pow10(|bi|), DigitsValue(bi), CharValue(b[|b| - 1]);
      assert DigitsValue(a + b) == (x * p + y) * 10 + c;
      assert DigitsValue(b) == y * 10 + c && Pow10(|b|) == 10 * p;
      ShiftOneMore(x, p, y, c);
    } else {
      assert a + b == a;
    }
  }

  lemma ShiftOneMore(x: int, p: int, y: int, c: int)
    ensures (x * p + y) * 10 + c == x * (10 * p) + (y * 10 + c)
  {
  }

  /** Distinct integers have distinct texts. */
  lemma IntToStringInjective(a: int, b: int)
    requires IntToString(a) == IntToString(b)
    ensures a == b
  {
    DigitsRoundTrip(if a < 0 then -a else a);
    DigitsRoundTrip(if b < 0 then -b else b);
    SignOfText(a);
    SignOfText(b);
    if a < 0 && b < 0 {
      assert NatToDigits(-a) == IntToString(a)[1..];
      assert NatToDigits(-b) == IntToString(b)[1..];
    }
  }

  lemma SignOfText(i: int)
    ensures |IntToString(i)| >= 1
    ensures IntToString(i)[0] == '-' <==> i < 0
  {
    DigitsRoundTrip(if i < 0 then -i else i);
    if i >= 0 {
      assert IsDigit(NatToDigits(i)[0]);
    }
  }
}
