/** Printing a base-unit amount at a token's decimals (packages/backend/src/polymarket/bridge-quote.ts:39-44). */
module TokenAmount {
  import opened Text

  /** `s.padStart(width, '0')`. */
  function PadStart(s: string, width: nat): string {
    if |s| >= width then s else Zeros(width - |s|) + s
  }

  /** `s.replace(/0+$/, '')`. */
  function StripZeros(s: string): string {
    if s != "" && s[|s| - 1] == '0' then StripZeros(s[..|s| - 1]) else s
  }

  /** The fraction digits of a remainder, without trailing zeros. */
  function Fraction(rest: nat, decimals: nat): string { StripZeros(PadStart(Decimal(rest), decimals)) }

  function Render(whole: nat, frac: string): string {
    if frac != "" then Decimal(whole) + "." + frac else Decimal(whole)
  }

  lemma Division(n: nat, p: nat)
    requires p >= 1
    ensures 0 <= n / p && 0 <= n % p < p && n == n / p * p + n % p
  {
  }

  function WholePart(n: nat, decimals: nat): nat {
    Division(n, Pow10(decimals));
    n / Pow10(decimals)
  }

  function Remainder(n: nat, decimals: nat): nat {
    Division(n, Pow10(decimals));
    n % Pow10(decimals)
  }

  lemma Parts(n: nat, decimals: nat)
    ensures Remainder(n, decimals) < Pow10(decimals)
    ensures n == WholePart(n, decimals) * Pow10(decimals) + Remainder(n, decimals)
  {
    Division(n, Pow10(decimals));
  }

  function FormatTokenAmount(baseUnits: nat, decimals: nat): string {
    Render(WholePart(baseUnits, decimals), Fraction(Remainder(baseUnits, decimals), decimals))
  }

  // ---- an independent reader ----------------------------------------------------------------------

  /** The position of the first point, or the length of the text. */
  function PointAt(s: string): (n: nat)
    ensures n <= |s| && (n < |s| ==> s[n] == '.')
  {
    if s == "" || s[0] == '.' then 0 else 1 + PointAt(s[1..])
  }

  lemma NumeralOfConcatIsDigits(a: string, b: string)
    requires AllDigits(a) && AllDigits(b)
    ensures AllDigits(a + b)
  {
  }

  /** Reads `digits` or `digits.digits` at the given scale; None if it is neither or too precise. */
  function ParseTokenAmount(text: string, decimals: nat): Option<nat> {
    var n := PointAt(text);
    var whole, frac := text[..n], if n < |text| then text[n + 1..] else "";
    if !AllDigits(whole) || !AllDigits(frac) || whole == "" || |frac| > decimals then None
    else
      NumeralOfConcatIsDigits(frac, Zeros(decimals - |frac|));
      Some(NumeralValue(whole) * Pow10(decimals) + NumeralValue(frac + Zeros(decimals - |frac|)))
  }

  lemma {:induction false} StripThenPad(s: string)
    ensures |StripZeros(s)| <= |s|
    ensures StripZeros(s) + Zeros(|s| - |StripZeros(s)|) == s
    ensures StripZeros(s) != "" ==> StripZeros(s)[|StripZeros(s)| - 1] != '0'
  {
    if s != "" && s[|s| - 1] == '0' {
      var front := s[..|s| - 1];
      StripThenPad(front);
      var k := |front| - |StripZeros(front)|;
      assert Zeros(k + 1) == Zeros(k) + "0";
      assert s == front + "0";
    }
  }

  lemma PaddedFraction(r: nat, decimals: nat)
    requires r < Pow10(decimals) && decimals >= 1
    ensures var p := PadStart(Decimal(r), decimals);
            |p| == decimals && AllDigits(p) && NumeralValue(p) == r
  {
    var d := Decimal(r);
    DecimalLength(r, decimals);
    var k := decimals - |d|;
    NumeralOfConcat(Zeros(k), d);
    NumeralOfZeros(k);
    assert NumeralValue(Zeros(k)) * Pow10(|d|) == 0;
  }

  lemma NoDecimals()
    ensures Pow10(0) == 1 && Fraction(0, 0) == ""
  {
  }

  lemma NumeralPositive(f: string)
    requires AllDigits(f) && f != "" && f[|f| - 1] != '0'
    ensures NumeralValue(f) >= 1
  {
  }

  lemma TimesPositive(a: nat, b: nat)
    requires a >= 1 && b >= 1
    ensures a * b >= 1
  {
  }

  /** A numeral whose last non-zero digit is followed by zeros is not zero. */
  lemma LastDigitCounts(f: string, k: nat)
    requires AllDigits(f) && f != "" && f[|f| - 1] != '0'
    ensures AllDigits(f + Zeros(k)) && NumeralValue(f + Zeros(k)) >= 1
  {
    NumeralPositive(f);
    NumeralOfConcat(f, Zeros(k));
    NumeralOfZeros(k);
    TimesPositive(NumeralValue(f), Pow10(k));
  }

  /** Stripping trailing zeros keeps the value at the scale, and empties exactly the zero numeral. */
  lemma StrippedDenotes(p: string)
    requires AllDigits(p)
    ensures var f := StripZeros(p);
            && |f| <= |p| && AllDigits(f) && AllDigits(f + Zeros(|p| - |f|))
            && NumeralValue(f + Zeros(|p| - |f|)) == NumeralValue(p)
            && (f != "" ==> f[|f| - 1] != '0')
            && (f == "" <==> NumeralValue(p) == 0)
  {
    StripThenPad(p);
    var f := StripZeros(p);
    var k := |p| - |f|;
    assert f + Zeros(k) == p;
    assert forall i :: 0 <= i < |f| ==> f[i] == p[i];
    if f == "" {
      assert p == Zeros(k);
      NumeralOfZeros(k);
    } else {
      LastDigitCounts(f, k);
    }
  }

  /** The printed fraction, padded back to the scale, denotes the remainder. */
  lemma FractionDenotes(r: nat, decimals: nat)
    requires r < Pow10(decimals)
    ensures var f := Fraction(r, decimals);
            && |f| <= decimals && AllDigits(f) && AllDigits(f + Zeros(decimals - |f|))
            && NumeralValue(f + Zeros(decimals - |f|)) == r
            && (f != "" ==> f[|f| - 1] != '0')
            && (f == "" <==> r == 0)
  {
    if decimals == 0 {
      NoDecimals();
    } else {
      PaddedFraction(r, decimals);
      StrippedDenotes(PadStart(Decimal(r), decimals));
    }
  }

  lemma {:induction false} PointAfterDigits(w: string, rest: string)
    requires AllDigits(w) && (rest == "" || rest[0] == '.')
    ensures PointAt(w + rest) == |w|
  {
    if w == "" {
      assert w + rest == rest;
    } else {
      assert (w + rest)[0] == w[0] && (w + rest)[1..] == w[1..] + rest;
      PointAfterDigits(w[1..], rest);
    }
  }

  lemma RenderParses(whole: nat, f: string, decimals: nat)
    requires |f| <= decimals && AllDigits(f)
    ensures AllDigits(f + Zeros(decimals - |f|))
    ensures var r := ParseTokenAmount(Render(whole, f), decimals);
            r.Some? && r.value == whole * Pow10(decimals) + NumeralValue(f + Zeros(decimals - |f|))
  {
    NumeralOfConcatIsDigits(f, Zeros(decimals - |f|));
    var w := Decimal(whole);
    var tail := if f != "" then "." + f else "";
    var text := Render(whole, f);
    assert text == w + tail;
    PointAfterDigits(w, tail);
    assert text[..|w|] == w;
    assert f != "" ==> text[|w| + 1..] == f;
  }

  lemma {:induction false} PartsParse(n: nat, decimals: nat, q: nat, r: nat, f: string)
    requires |f| <= decimals && AllDigits(f) && AllDigits(f + Zeros(decimals - |f|))
    requires NumeralValue(f + Zeros(decimals - |f|)) == r && n == q * Pow10(decimals) + r
    ensures ParseTokenAmount(Render(q, f), decimals) == Some(n)
  {
    RenderParses(q, f, decimals);
  }

  /** Main result. For every amount and every number of decimals, reading the printed text at that scale
      gives the amount back. */
  lemma FormatRoundTrips(n: nat, decimals: nat)
    ensures ParseTokenAmount(FormatTokenAmount(n, decimals), decimals) == Some(n)
  {
    var q, r := WholePart(n, decimals), Remainder(n, decimals);
    Parts(n, decimals);
    FractionDenotes(r, decimals);
    PartsParse(n, decimals, q, r, Fraction(r, decimals));
  }

  lemma RenderIsCanonical(whole: nat, f: string)
    requires AllDigits(f) && (f != "" ==> f[|f| - 1] != '0')
    ensures var text := Render(whole, f);
            && ('.' in text <==> f != "")
            && (f != "" ==> text[|text| - 1] != '0' && text[|text| - 1] != '.')
  {
  }

  /** The printed fraction never ends in 0, and there is a point exactly when the amount is not whole. */
  lemma FormatIsCanonical(n: nat, decimals: nat)
    ensures var text := FormatTokenAmount(n, decimals);
            && ('.' in text <==> Remainder(n, decimals) != 0)
            && ('.' in text ==> text[|text| - 1] != '0' && text[|text| - 1] != '.')
  {
    Parts(n, decimals);
    var r := Remainder(n, decimals);
    FractionDenotes(r, decimals);
    RenderIsCanonical(WholePart(n, decimals), Fraction(r, decimals));
  }
}
