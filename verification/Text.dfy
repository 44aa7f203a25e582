/** Strings, decimal numerals and separators: the text layer shared by the idempotency key,
    the transfer key, the token-amount printer and the log pipes. */
module Text {

  datatype Option<+T> = None | Some(value: T)

  // ---- decimal numerals -------------------------------------------------------------

  predicate IsDigit(c: char) { '0' <= c <= '9' }

  predicate AllDigits(s: string) { forall i :: 0 <= i < |s| ==> IsDigit(s[i]) }

  function DigitValue(c: char): (v: nat)
    requires IsDigit(c)
  {
    c as int - '0' as int
  }

  function DigitChar(d: nat): (c: char)
    requires d < 10
    ensures c == "0123456789"[d] && IsDigit(c) && DigitValue(c) == d
  {
    ('0' as int + d) as char
  }

  /** `BigInt.prototype.toString` on a non-negative integer. */
  function Decimal(n: nat): (s: string)
    ensures |s| >= 1 && AllDigits(s)
    ensures NumeralValue(s) == n
    ensures |s| > 1 ==> s[0] != '0'
  {
    if n < 10 then [DigitChar(n)]
    else
      var front := Decimal(n / 10);
      var s := front + [DigitChar(n % 10)];
      assert s[..|s| - 1] == front;
      s
  }

  /** The number a run of digits denotes; the empty run denotes zero. */
  function NumeralValue(s: string): (v: nat)
    requires AllDigits(s)
  {
    if s == "" then 0 else 10 * NumeralValue(s[..|s| - 1]) + DigitValue(s[|s| - 1])
  }

  function Pow10(k: nat): (p: nat)
    ensures p >= 1
  {
    if k == 0 then 1 else 10 * Pow10(k - 1)
  }

  function Zeros(k: nat): (s: string)
    ensures |s| == k && AllDigits(s)
    ensures forall i :: 0 <= i < k ==> s[i] == '0'
  {
    seq(k, _ => '0')
  }

  lemma TimesTen(v: nat, p: nat)
    ensures 10 * (v * p) == v * (10 * p)
  {
  }

  lemma {:induction false} NumeralOfConcat(a: string, b: string)
    requires AllDigits(a) && AllDigits(b)
    ensures AllDigits(a + b)
    ensures NumeralValue(a + b) == NumeralValue(a) * Pow10(|b|) + NumeralValue(b)
  {
    if b == "" {
      assert a + b == a;
    } else {
      var front := b[..|b| - 1];
      var last := DigitValue(b[|b| - 1]);
      NumeralOfConcat(a, front);
      assert (a + b)[..|a + b| - 1] == a + front;
      calc {
        NumeralValue(a + b);
        10 * NumeralValue(a + front) + last;
        10 * (NumeralValue(a) * Pow10(|front|) + NumeralValue(front)) + last;
        { TimesTen(NumeralValue(a), Pow10(|front|)); }
        NumeralValue(a) * Pow10(|b|) + NumeralValue(b);
      }
    }
  }

  lemma {:induction false} NumeralOfZeros(k: nat)
    ensures NumeralValue(Zeros(k)) == 0
  {
    if k > 0 {
      NumeralOfZeros(k - 1);
      assert Zeros(k)[..k - 1] == Zeros(k - 1);
    }
  }

  /** The printed form of a number below ten to the k has at most k digits (k at least one). */
  lemma {:induction false} DecimalLength(n: nat, k: nat)
    requires n < Pow10(k) && k >= 1
    ensures |Decimal(n)| <= k
  {
    if n >= 10 {
      assert Pow10(k) == 10 * Pow10(k - 1);
      assert k == 1 ==> Pow10(k) == 10;
      DecimalLength(n / 10, k - 1);
    }
  }

  // ---- lower case -------------------------------------------------------------------

  function LowerChar(c: char): char {
    if 'A' <= c <= 'Z' then (c as int + 32) as char else c
  }

  /** `String.prototype.toLowerCase` on the ASCII text of addresses and hashes. */
  function Lower(s: string): (r: string)
    ensures |r| == |s|
  {
    seq(|s|, i requires 0 <= i < |s| => LowerChar(s[i]))
  }

  predicate IsUpper(c: char) { 'A' <= c <= 'Z' }

  /** The same letter, or the same other character. */
  predicate SameLetter(c: char, d: char) {
    c == d || (IsUpper(c) && d as int == c as int + 32) || (IsUpper(d) && c as int == d as int + 32)
  }

  predicate SameUpToCase(a: string, b: string) {
    |a| == |b| && forall i :: 0 <= i < |a| ==> SameLetter(a[i], b[i])
  }

  lemma LowerExactly(s: string)
    ensures SameUpToCase(Lower(s), s) && forall i :: 0 <= i < |s| ==> !IsUpper(Lower(s)[i])
  {
  }

  lemma LowerSame(a: string, b: string)
    ensures Lower(a) == Lower(b) <==> SameUpToCase(a, b)
  {
    if Lower(a) == Lower(b) {
      forall i | 0 <= i < |a| ensures SameLetter(a[i], b[i]) {
        assert Lower(a)[i] == Lower(b)[i];
      }
    }
    if SameUpToCase(a, b) {
      forall i | 0 <= i < |a| ensures Lower(a)[i] == Lower(b)[i] {
        assert SameLetter(a[i], b[i]);
      }
    }
  }

  // ---- colon-separated fields ---------------------------------------------------------

  predicate ColonFree(s: string) { ':' !in s }

  lemma LowerColonFree(s: string)
    requires ColonFree(s)
    ensures ColonFree(Lower(s))
  {
  }

  lemma DigitsColonFree(s: string)
    requires AllDigits(s)
    ensures ColonFree(s)
  {
  }

  /** A colon ends a colon-free field, so the first field and the rest are both determined. */
  lemma FirstField(a: string, restA: string, b: string, restB: string)
    requires ColonFree(a) && ColonFree(b)
    requires a + ":" + restA == b + ":" + restB
    ensures a == b && restA == restB
  {
    var s := a + ":" + restA;
    assert s == b + ":" + restB;
    assert forall i :: 0 <= i < |a| ==> s[i] == a[i] && a[i] in a;
    assert forall i :: 0 <= i < |b| ==> s[i] == b[i] && b[i] in b;
    assert s[|a|] == ':' && s[|b|] == ':';
    assert s[..|a|] == a && s[..|b|] == b;
    assert s[|a| + 1..] == restA && s[|b| + 1..] == restB;
  }
}
