/**
 * The text form of a score in the store. The writer stores `str(rps)` and the
 * readers parse it back with `float(...)`. Scores are exact reals here, so the
 * text is a fixed-point decimal with `FractionDigits` digits after the point
 * (the fraction is truncated), and parsing accepts an optional sign, digits and
 * an optional point followed by digits.
 */
module ScoreText {
  import opened Wrappers
  import opened Decimal

  const FractionDigits: nat := 10

  function Scale(): (s: nat)
    ensures s >= 1
  {
    Pow10(FractionDigits)
  }

  /** `|x|` in units of the last stored digit, the fraction beyond them cut off. */
  function Magnitude(x: real): nat {
    ((if x < 0.0 then -x else x) * Scale() as real).Floor
  }

  /** The value `n` units of the last stored digit stand for. */
  function Unscaled(n: nat): real {
    n as real / Scale() as real
  }

  /** `v` with the sign of `x`. */
  function Signed(x: real, v: real): real {
    if x < 0.0 then -v else v
  }

  /** `x` with its fraction cut after `FractionDigits` digits (towards zero). */
  function Truncated(x: real): real {
    Signed(x, Unscaled(Magnitude(x)))
  }

  /** The fixed-point text of `n / Scale()`. */
  function FixedText(n: nat): string {
    NatToDigits(n / Scale()) + "." + PadLeft(NatToDigits(n % Scale()), FractionDigits)
  }

  /** "-" for a negative score, nothing otherwise. */
  function SignText(x: real): string {
    if x < 0.0 then "-" else ""
  }

  /** `str(x)` */
  function Encode(x: real): string {
    SignText(x) + FixedText(Magnitude(x))
  }

  /** Position of the first '.' in `s`, `|s|` when there is none. */
  function DotIndex(s: string): (k: nat)
    ensures k <= |s|
  {
    if s == [] then 0 else if s[0] == '.' then 0 else 1 + DotIndex(s[1..])
  }

  /** `m / 10^w`, dividing by ten `w` times. */
  function Shifted(m: nat, w: nat): real {
    if w == 0 then m as real else Shifted(m, w - 1) / 10.0
  }

  /** The value of an integer part and a fraction part written around a point: all the digits read as one number, shifted by the fraction's width. */
  function PointValue(ip: string, fp: string): Option<real> {
    if |ip| + |fp| > 0 && AllDigits(ip + fp) then Some(Shifted(DigitsValue(ip + fp), |fp|)) else None
  }

  function ParseUnsigned(s: string): Option<real> {
    var k := DotIndex(s);
    PointValue(s[..k], if k < |s| then s[k + 1..] else "")
  }

  /** `float(s)`; `None` where Python raises `ValueError`. */
  function Decode(s: string): Option<real> {
    var signed := |s| > 0 && (s[0] == '-' || s[0] == '+');
    match ParseUnsigned(if signed then s[1..] else s)
    case Some(v) => Some(if signed && s[0] == '-' then -v else v)
    case None => None
  }

  /** Shifting by `w` places is dividing by `10^w`. */
  lemma {:induction false} ShiftedQuotient(m: nat, w: nat)
    ensures Shifted(m, w) == m as real / Pow10(w) as real
  {
    if w > 0 {
      ShiftedQuotient(m, w - 1);
      var p := Pow10(w - 1) as real;
      assert Pow10(w) as real == 10.0 * p;
      assert (m as real / p) / 10.0 == m as real / (10.0 * p);
    }
  }

  /** Parsing `ds + "." + fs` reads the digits of both parts as one number and shifts it by the fraction's width. */
  lemma ParsePointed(ds: string, fs: string)
    requires AllDigits(ds) && AllDigits(fs) && |ds| >= 1
    ensures AllDigits(ds + fs)
    ensures ParseUnsigned(ds + "." + fs) == Some(Shifted(DigitsValue(ds + fs), |fs|))
  {
    var t := ds + "." + fs;
    assert t[|ds|] == '.';
    forall i | 0 <= i < |ds| ensures t[i] != '.' {
      assert t[i] == ds[i];
    }
    DotIndexAt(t, |ds|);
    assert t[..|ds|] == ds;
    assert t[|ds| + 1..] == fs;
    assert AllDigits(ds + fs) by {
      forall i | 0 <= i < |ds + fs| ensures IsDigit((ds + fs)[i]) {
        if i >= |ds| {
          assert (ds + fs)[i] == fs[i - |ds|];
        }
      }
    }
  }

  lemma FixedTextRoundTrip(n: nat)
    ensures |FixedText(n)| >= 1 && IsDigit(FixedText(n)[0])
    ensures ParseUnsigned(FixedText(n)) == Some(Unscaled(n))
  {
    var sc := Scale();
    var q, r := n / sc, n % sc;
    var ds, fs := NatToDigits(q), PadLeft(NatToDigits(r), FractionDigits);
    assert FixedText(n) == ds + "." + fs;
    DigitsRoundTrip(q);
    PaddedFraction(r, FractionDigits);
    ParsePointed(ds, fs);
    DigitsConcat(ds, fs);
    DivMod(n, sc);
    assert DigitsValue(ds + fs) == n;
    ShiftedQuotient(n, FractionDigits);
    assert (ds + "." + fs)[0] == ds[0];
  }

  lemma PaddedFraction(r: nat, w: nat)
    requires w >= 1 && r < Pow10(w)
    ensures AllDigits(PadLeft(NatToDigits(r), w))
    ensures |PadLeft(NatToDigits(r), w)| == w
    ensures DigitsValue(PadLeft(NatToDigits(r), w)) == r
  {
    DigitsRoundTrip(r);
    DigitsLength(r, w);
    PadLeftValue(NatToDigits(r), w);
  }

  lemma DivMod(n: nat, s: nat)
    requires s >= 1
    ensures (n / s) * s + n % s == n
  {
  }

  lemma {:induction false} DotIndexAt(s: string, k: nat)
    requires k < |s| && s[k] == '.'
    requires forall i :: 0 <= i < k ==> s[i] != '.'
    ensures DotIndex(s) == k
  {
    if k > 0 {
      DotIndexAt(s[1..], k - 1);
    }
  }

  /** Reading back a written score gives it truncated to `FractionDigits` digits. */
  lemma RoundTrip(x: real)
    ensures Decode(Encode(x)) == Some(Truncated(x))
  {
    SignedRoundTrip(x, Magnitude(x));
  }

  /** The signed fixed-point text of `n` parses back to `n / Scale()` with that sign. */
  lemma SignedRoundTrip(x: real, n: nat)
    ensures Decode(SignText(x) + FixedText(n)) == Some(Signed(x, Unscaled(n)))
  {
    FixedTextRoundTrip(n);
    SignedText(x, FixedText(n), Unscaled(n));
  }

  /** An optional leading minus negates what the digits after it parse to. */
  lemma SignedText(x: real, t: string, v: real)
    requires |t| >= 1 && IsDigit(t[0]) && ParseUnsigned(t) == Some(v)
    ensures Decode(SignText(x) + t) == Some(Signed(x, v))
  {
    if x < 0.0 {
      assert SignText(x) + t == "-" + t;
      DecodeMinus(t, v);
    } else {
      assert SignText(x) + t == t;
      DecodePlain(t, v);
    }
  }

  lemma DecodeMinus(t: string, v: real)
    requires ParseUnsigned(t) == Some(v)
    ensures Decode("-" + t) == Some(-v)
  {
    assert ("-" + t)[1..] == t;
  }

  lemma DecodePlain(t: string, v: real)
    requires |t| >= 1 && IsDigit(t[0]) && ParseUnsigned(t) == Some(v)
    ensures Decode(t) == Some(v)
  {
  }

  /** The truncation error is below one unit of the last stored digit. */
  lemma TruncatedClose(x: real)
    ensures x >= 0.0 ==> 0.0 <= Truncated(x) <= x
    ensures x < 0.0 ==> x <= Truncated(x) <= 0.0
    ensures -1.0 / Scale() as real < Truncated(x) - x < 1.0 / Scale() as real
  {
    var s := Scale() as real;
    var a := if x < 0.0 then -x else x;
    var f := (a * s).Floor as real;
    assert f <= a * s < f + 1.0;
    assert f / s <= a < (f + 1.0) / s;
    assert 0.0 <= f;
  }

  /** Scores holding at most `FractionDigits` fraction digits come back exactly. */
  lemma ExactWhenRepresentable(m: nat)
    ensures Truncated(m as real / Scale() as real) == m as real / Scale() as real
  {
    var s := Scale() as real;
    assert (m as real / s) * s == m as real;
  }
}
