/** Fee estimates: the cushion and the stroop-to-XLM printer. */
module Fees {
  import opened Prelude

  const BASE_FEE_STROOPS: nat := 100

  // An XLM is 10_000_000 stroops and the cushion is 20 per cent; both appear as literals below.

  // ---------------------------------------------------------------- decimal numerals

  function Digit(d: nat): char
    requires d < 10
  {
    ('0' as int + d) as char
  }

  predicate IsDigit(c: char) { '0' <= c <= '9' }

  predicate AllDigits(s: string) { forall i :: 0 <= i < |s| ==> IsDigit(s[i]) }

  function DigitValue(c: char): nat { if IsDigit(c) then c as int - '0' as int else 0 }

  /** BigInt's `toString`. */
  function Numeral(n: nat): string { if n < 10 then [Digit(n)] else Numeral(n / 10) + [Digit(n % 10)] }

  /** What a digit string denotes. */
  function Value(s: string): nat { if s == [] then 0 else 10 * Value(s[..|s| - 1]) + DigitValue(s[|s| - 1]) }

  function Zeros(k: nat): string { seq(k, _ => '0') }

  function PadStart(s: string): string { if |s| >= 7 then s else Zeros(7 - |s|) + s }

  /** `replace(/0+$/, '')`. */
  function StripZeros(s: string): string { if s != [] && s[|s| - 1] == '0' then StripZeros(s[..|s| - 1]) else s }

  function Fraction(frac: nat): string {
    var s := StripZeros(PadStart(Numeral(frac)));
    if s == "" then "0" else s
  }

  function Print(whole: nat, frac: nat): string { Numeral(whole) + "." + Fraction(frac) }

  function ToXlm(stroops: nat): string { Print(stroops / 10_000_000, stroops % 10_000_000) }

  // ---------------------------------------------------------------- reading an amount back

  /** The position of the decimal point, or the length if there is none. */
  function Point(s: string): nat { if s == "" || s[0] == '.' then 0 else 1 + Point(s[1..]) }

  /** The amount of stroops a decimal XLM string denotes: fraction digits count from the left. */
  function FractionValue(s: string): nat { Value((s + Zeros(7))[..7]) }

  /** Whole XLM and fractional stroops of a decimal string. */
  function Read(s: string): (nat, nat) {
    var p := Point(s);
    if p >= |s| then (Value(s), 0) else (Value(s[..p]), FractionValue(s[p + 1..]))
  }

  function FromXlm(s: string): nat { Read(s).0 * 10_000_000 + Read(s).1 }

  /** No leading zeros before the point, one to seven digits after it, no trailing zeros except ".0". */
  predicate Canonical(s: string) {
    var p := Point(s);
    && p < |s|
    && CanonicalWhole(s[..p]) && CanonicalFraction(s[p + 1..])
  }

  predicate CanonicalWhole(s: string) { AllDigits(s) && s != "" && (s[0] == '0' ==> |s| == 1) }

  predicate CanonicalFraction(s: string) { AllDigits(s) && 1 <= |s| <= 7 && (s[|s| - 1] == '0' ==> s == "0") }

  // ---------------------------------------------------------------- numerals are read back

  lemma {:induction false} NumeralRoundTrip(n: nat)
    ensures Value(Numeral(n)) == n && CanonicalWhole(Numeral(n)) && (n > 0 ==> Numeral(n)[0] != '0')
  {
    if n >= 10 {
      NumeralRoundTrip(n / 10);
      var s := Numeral(n / 10);
      assert (s + [Digit(n % 10)])[..|s|] == s;
    }
  }

  lemma {:induction false} ValuePositive(s: string)
    requires CanonicalWhole(s) && s[0] != '0'
    ensures Value(s) > 0
  {
    if |s| > 1 {
      ValuePositive(s[..|s| - 1]);
    } else {
      assert s[..0] == [];
    }
  }

  lemma {:induction false} ValueRoundTrip(s: string)
    requires CanonicalWhole(s)
    ensures Numeral(Value(s)) == s
  {
    var init, last := s[..|s| - 1], s[|s| - 1];
    assert Digit(DigitValue(last)) == last;
    if init == [] {
      assert s == [last];
    } else {
      ValueRoundTrip(init);
      ValuePositive(init);
      NumeralSnoc(Value(init), DigitValue(last));
      assert s == init + [last];
    }
  }

  lemma NumeralSnoc(n: nat, d: nat)
    requires n > 0 && d < 10
    ensures Numeral(10 * n + d) == Numeral(n) + [Digit(d)]
  {
    assert (10 * n + d) / 10 == n && (10 * n + d) % 10 == d;
  }

  lemma {:induction false} NumeralLength(n: nat, k: nat, bound: nat)
    requires n < bound && bound == Power10(k) && k > 0
    ensures |Numeral(n)| <= k
  {
    if n >= 10 {
      NumeralLength(n / 10, k - 1, Power10(k - 1));
    }
  }

  function Power10(k: nat): nat { if k == 0 then 1 else 10 * Power10(k - 1) }

  lemma SevenDigits()
    ensures Power10(7) == 10_000_000
  {
    assert Power10(3) == 1000 && Power10(7) == 10_000 * Power10(3);
  }

  lemma {:induction false} LeadingZeros(k: nat, s: string)
    ensures Value(Zeros(k) + s) == Value(s)
  {
    var t := Zeros(k) + s;
    if s != [] {
      assert t[..|t| - 1] == Zeros(k) + s[..|s| - 1];
      LeadingZeros(k, s[..|s| - 1]);
    } else if k > 0 {
      assert t[..k - 1] == Zeros(k - 1) + s;
      LeadingZeros(k - 1, s);
    }
  }

  /** Among digit strings of one length, the value determines the string. */
  lemma {:induction false} ValueInjective(s: string, t: string)
    requires AllDigits(s) && AllDigits(t) && |s| == |t| && Value(s) == Value(t)
    ensures s == t
  {
    if s != [] {
      var s', t' := s[..|s| - 1], t[..|t| - 1];
      assert DigitValue(s[|s| - 1]) == DigitValue(t[|t| - 1]) && Value(s') == Value(t');
      ValueInjective(s', t');
      assert s == s' + [s[|s| - 1]] && t == t' + [t[|t| - 1]];
    }
  }

  lemma {:induction false} StripIsPrefix(s: string)
    ensures var t := StripZeros(s);
      |t| <= |s| && s == t + Zeros(|s| - |t|) && (t != "" ==> t[|t| - 1] != '0')
  {
    if s != [] && s[|s| - 1] == '0' {
      StripIsPrefix(s[..|s| - 1]);
      assert s == s[..|s| - 1] + ['0'];
    }
  }

  lemma PaddedNumeral(frac: nat)
    requires frac < 10_000_000
    ensures var p := PadStart(Numeral(frac)); |p| == 7 && AllDigits(p) && Value(p) == frac
  {
    hide Numeral, Value, Power10;
    var s := Numeral(frac);
    NumeralRoundTrip(frac);
    SevenDigits();
    NumeralLength(frac, 7, 10_000_000);
    LeadingZeros(7 - |s|, s);
  }

  /** Trailing zeros carry no value: seven digits stripped of them, or a lone zero, read the same. */
  lemma StrippedReads(padded: string)
    requires |padded| == 7 && AllDigits(padded)
    ensures var t := StripZeros(padded);
      var s := if t == "" then "0" else t;
      FractionValue(s) == Value(padded) && CanonicalFraction(s)
  {
    hide Value;
    StripIsPrefix(padded);
    var t := StripZeros(padded);
    var s := if t == "" then "0" else t;
    assert (s + Zeros(7))[..7] == padded;
    assert t == padded[..|t|];
  }

  lemma FractionRoundTrip(frac: nat)
    requires frac < 10_000_000
    ensures FractionValue(Fraction(frac)) == frac && CanonicalFraction(Fraction(frac))
  {
    PaddedNumeral(frac);
    StrippedReads(PadStart(Numeral(frac)));
  }

  lemma {:induction false} PointAfter(whole: string, rest: string)
    requires AllDigits(whole)
    ensures Point(whole + "." + rest) == |whole|
  {
    var s := whole + "." + rest;
    if whole != [] {
      assert s[1..] == whole[1..] + "." + rest;
      PointAfter(whole[1..], rest);
    }
  }

  lemma PrintRead(whole: nat, frac: nat)
    requires frac < 10_000_000
    ensures Read(Print(whole, frac)) == (whole, frac) && Canonical(Print(whole, frac))
  {
    var w, f, s := Numeral(whole), Fraction(frac), Print(whole, frac);
    NumeralRoundTrip(whole);
    FractionRoundTrip(frac);
    PointAfter(w, f);
    assert s[..|w|] == w && s[|w| + 1..] == f;
  }

  /** Printing loses nothing: parsing `toXlm(n)` gives `n` back. */
  lemma XlmRoundTrip(n: nat)
    ensures FromXlm(ToXlm(n)) == n
  {
    PrintRead(n / 10_000_000, n % 10_000_000);
  }

  /** And the output is in canonical form. */
  lemma XlmIsCanonical(n: nat)
    ensures Canonical(ToXlm(n))
  {
    PrintRead(n / 10_000_000, n % 10_000_000);
  }

  lemma {:induction false} PointSplits(s: string)
    requires Point(s) < |s|
    ensures s[Point(s)] == '.'
  {
    if s[0] != '.' {
      PointSplits(s[1..]);
    }
  }

  lemma {:induction false} ValueBelow(s: string)
    ensures Value(s) < Power10(|s|)
  {
    if s != [] {
      ValueBelow(s[..|s| - 1]);
    }
  }

  lemma FractionUnique(s: string)
    requires CanonicalFraction(s)
    ensures FractionValue(s) < 10_000_000 && Fraction(FractionValue(s)) == s
  {
    var padded := s + Zeros(7 - |s|);
    assert (s + Zeros(7))[..7] == padded;
    ValueBelow(padded);
    SevenDigits();
    PaddedNumeral(FractionValue(s));
    ValueInjective(PadStart(Numeral(FractionValue(s))), padded);
    if s == "0" {
      assert padded == "" + Zeros(7);
      StripPadding("", 7);
    } else {
      StripPadding(s, 7 - |s|);
    }
  }

  lemma {:induction false} StripPadding(s: string, k: nat)
    requires s != "" ==> s[|s| - 1] != '0'
    ensures StripZeros(s + Zeros(k)) == s
  {
    if k == 0 {
      assert s + Zeros(k) == s;
    } else {
      assert (s + Zeros(k))[..|s| + k - 1] == s + Zeros(k - 1);
      StripPadding(s, k - 1);
    }
  }

  lemma ReadPrint(s: string)
    requires Canonical(s)
    ensures Read(s).1 < 10_000_000 && Print(Read(s).0, Read(s).1) == s
  {
    hide FractionValue, Fraction, CanonicalWhole, CanonicalFraction;
    var p := Point(s);
    PointSplits(s);
    ValueRoundTrip(s[..p]);
    FractionUnique(s[p + 1..]);
    assert s == s[..p] + "." + s[p + 1..];
  }

  lemma SplitAmount(whole: nat, frac: nat)
    requires frac < 10_000_000
    ensures (whole * 10_000_000 + frac) / 10_000_000 == whole && (whole * 10_000_000 + frac) % 10_000_000 == frac
  {
  }

  /** It is the only canonical way to write the amount: every canonical string is some `toXlm(n)`. */
  lemma XlmIsUnique(s: string)
    requires Canonical(s)
    ensures ToXlm(FromXlm(s)) == s
  {
    hide Print, Read, Canonical;
    ReadPrint(s);
    SplitAmount(Read(s).0, Read(s).1);
  }

  // ---------------------------------------------------------------- the estimate

  function Cushioned(resourceFee: nat): nat { resourceFee + resourceFee * 20 / 100 }

  datatype FeeEstimate = FeeEstimate(base: string, resource: string, total: string, cushionPct: nat)

  function Estimate(resourceFee: nat): FeeEstimate {
    FeeEstimate(ToXlm(BASE_FEE_STROOPS), ToXlm(Cushioned(resourceFee)),
      ToXlm(BASE_FEE_STROOPS + Cushioned(resourceFee)), 20)
  }

  lemma CushionIsAFifth(f: nat)
    ensures 5 * Cushioned(f) <= 6 * f < 5 * Cushioned(f) + 5
  {
    var q := f * 20 / 100;
    assert 100 * q <= 20 * f < 100 * q + 100;
  }

  lemma CushionMonotone(f: nat, g: nat)
    requires f <= g
    ensures Cushioned(f) <= Cushioned(g)
  {
    var p, q := f * 20 / 100, g * 20 / 100;
    assert 100 * p <= 20 * f && 20 * g < 100 * q + 100;
  }

  /** The base fee is 100 stroops, the parts add up, and the stated percentage is put on top, rounded down: a fifth. */
  lemma EstimateAddsUp(resourceFee: nat)
    ensures var e := Estimate(resourceFee);
      && FromXlm(e.base) == 100 && FromXlm(e.base) + FromXlm(e.resource) == FromXlm(e.total)
      && e.cushionPct == 20
      && 100 * FromXlm(e.resource) <= (100 + e.cushionPct) * resourceFee < 100 * FromXlm(e.resource) + 100
      && 5 * FromXlm(e.resource) <= 6 * resourceFee < 5 * FromXlm(e.resource) + 5
  {
    hide FromXlm, ToXlm;
    XlmRoundTrip(BASE_FEE_STROOPS);
    XlmRoundTrip(Cushioned(resourceFee));
    XlmRoundTrip(BASE_FEE_STROOPS + Cushioned(resourceFee));
    CushionIsAFifth(resourceFee);
  }

  lemma EstimateMonotone(f: nat, g: nat)
    requires f <= g
    ensures FromXlm(Estimate(f).total) <= FromXlm(Estimate(g).total)
  {
    XlmRoundTrip(BASE_FEE_STROOPS + Cushioned(f));
    XlmRoundTrip(BASE_FEE_STROOPS + Cushioned(g));
    CushionMonotone(f, g);
  }
}
