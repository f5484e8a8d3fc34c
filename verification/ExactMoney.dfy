/** The price of gaming time: decimal text to integer cents, times minutes, and back to decimal text. */
module ExactMoney {
  import opened Options
  import opened Numerals

  const LARGEST_TOTAL := 99999999999999
  const FEWEST_MINUTES := 30
  const MOST_MINUTES := 5256000

  predicate IsDigit(c: char) {
    '0' <= c <= '9'
  }

  predicate Digits(s: string) {
    forall i :: 0 <= i < |s| ==> IsDigit(s[i])
  }

  // ---------- reading a price ----------

  function DigitRun(s: string): (n: nat)
    ensures n <= |s|
  {
    if s == "" || !IsDigit(s[0]) then 0 else DigitRun(s[1..]) + 1
  }

  lemma {:induction false} DigitRunIsDigits(s: string)
    ensures Digits(s[..DigitRun(s)])
  {
    if s != "" && IsDigit(s[0]) {
      DigitRunIsDigits(s[1..]);
      assert s[..DigitRun(s)] == [s[0]] + s[1..][..DigitRun(s[1..])];
    }
  }

  function PadEnd(s: string): string {
    if |s| == 0 then "00" else if |s| == 1 then s + "0" else s
  }

  /** The regular expression's captures, and the cents computed from them. */
  function Cents(text: string): Option<int> {
    var n := DigitRun(text);
    CentsFrom(text[..n], text[n..])
  }

  function CentsFrom(whole: string, rest: string): Option<int> {
    if whole == "" then None
    else if rest == "" then Some(Value(whole) * 100 + Value(PadEnd("")))
    else if rest[0] == '.' && 2 <= |rest| <= 3 && Digits(rest[1..]) then Some(Value(whole) * 100 + Value(PadEnd(rest[1..])))
    else None
  }

  /** The grammar: digits, and optionally a point with one or two more. `fraction` is empty without a point. */
  ghost predicate Reads(text: string, whole: string, fraction: string) {
    whole != "" && Digits(whole) && Digits(fraction) && |fraction| <= 2 &&
    text == if fraction == "" then whole else whole + "." + fraction
  }

  lemma {:induction false} DigitRunOf(whole: string, rest: string)
    requires Digits(whole) && (rest == "" || !IsDigit(rest[0]))
    ensures DigitRun(whole + rest) == |whole|
  {
    if whole == "" {
      assert whole + rest == rest;
    } else {
      assert (whole + rest)[1..] == whole[1..] + rest;
      DigitRunOf(whole[1..], rest);
    }
  }

  /** Padding a fraction to two digits turns it into hundredths. */
  lemma PadEndScales(f: string)
    requires |f| <= 2
    ensures Value(PadEnd(f)) == Value(f) * Power(2 - |f|)
  {
    if |f| == 0 {
      assert "00"[..1] == "0" && "0"[..0] == "" && Value("0") == 0;
    } else if |f| == 1 {
      assert (f + "0")[..1] == f && Power(1) == 10 * Power(0) == 10;
    } else {
      assert Power(0) == 1;
    }
  }

  lemma CentsSplit(whole: string, rest: string)
    requires Digits(whole) && (rest == "" || !IsDigit(rest[0]))
    ensures Cents(whole + rest) == CentsFrom(whole, rest)
  {
    DigitRunOf(whole, rest);
    assert (whole + rest)[..|whole|] == whole && (whole + rest)[|whole|..] == rest;
  }

  lemma PointAndFraction(whole: string, fraction: string)
    ensures ("." + fraction)[1..] == fraction && whole + "." + fraction == whole + ("." + fraction)
  {
  }

  lemma PointValue(whole: string, rest: string, fraction: string)
    requires whole != "" && Digits(fraction) && 1 <= |fraction| <= 2
    requires rest != "" && rest[0] == '.' && rest[1..] == fraction
    ensures CentsFrom(whole, rest) == Some(Value(whole) * 100 + Value(PadEnd(fraction)))
  {
  }

  lemma CentsWithPoint(whole: string, fraction: string)
    requires whole != "" && Digits(whole) && Digits(fraction) && 1 <= |fraction| <= 2
    ensures Cents(whole + ("." + fraction)) == Some(Value(whole) * 100 + Value(PadEnd(fraction)))
  {
    PointAndFraction(whole, fraction);
    PointValue(whole, "." + fraction, fraction);
    CentsSplit(whole, "." + fraction);
  }

  lemma CentsOf(text: string, whole: string, fraction: string)
    requires Reads(text, whole, fraction)
    ensures Cents(text) == Some(Value(whole) * 100 + Value(PadEnd(fraction)))
  {
    if fraction == "" {
      CentsSplit(whole, "");
      assert whole + "" == whole;
    } else {
      PointAndFraction(whole, fraction);
      CentsWithPoint(whole, fraction);
    }
  }

  /** A price in the grammar is read as exactly a hundred times its decimal value. */
  lemma CentsAreExact(text: string, whole: string, fraction: string)
    requires Reads(text, whole, fraction)
    ensures Cents(text) == Some(Value(whole) * 100 + Value(fraction) * Power(2 - |fraction|))
  {
    CentsOf(text, whole, fraction);
    Hundredths(Cents(text), whole, fraction);
  }

  lemma Hundredths(cents: Option<int>, whole: string, f: string)
    requires |f| <= 2 && cents == Some(Value(whole) * 100 + Value(PadEnd(f)))
    ensures cents == Some(Value(whole) * 100 + Value(f) * Power(2 - |f|))
  {
    PadEndScales(f);
  }

  /** Nothing outside the grammar is read. */
  lemma ReadOnlyGrammar(text: string) returns (whole: string, fraction: string)
    requires Cents(text).Some?
    ensures Reads(text, whole, fraction)
  {
    var n := DigitRun(text);
    DigitRunIsDigits(text);
    whole, fraction := text[..n], if n == |text| then "" else text[n + 1..];
    assert n < |text| ==> text == text[..n] + [text[n]] + text[n + 1..];
  }

  // ---------- the amount ----------

  function Total(price: Option<string>, minutes: Option<int>): int {
    var cents := if price.Some? && Cents(price.value).Some? then Cents(price.value).value else 0;
    if minutes.Some? && FEWEST_MINUTES <= minutes.value <= MOST_MINUTES then cents * minutes.value else 0
  }

  function PadStart(s: string): string {
    if |s| == 0 then "00" else if |s| == 1 then "0" + s else s
  }

  function Print(total: nat): string {
    Decimal(total / 100) + "." + PadStart(Decimal(total % 100))
  }

  /** `minutes` is None for a number that is not a safe integer; the price is None until it is loaded. */
  function Amount(price: Option<string>, minutes: Option<int>): Option<string> {
    var total := Total(price, minutes);
    if 0 < total <= LARGEST_TOTAL then Some(Print(total)) else None
  }

  lemma TwoDigits(r: nat)
    requires r < 100
    ensures Digits(PadStart(Decimal(r))) && |PadStart(Decimal(r))| == 2 && Value(PadStart(Decimal(r))) == r
  {
    ValueOfDecimal(r);
    var s := PadStart(Decimal(r));
    if r < 10 {
      assert s == "0" + Decimal(r) && s[..1] == "0" && s[..1][..0] == "";
    } else {
      assert Decimal(r / 10) == [Digit(r / 10)];
      assert Decimal(r) == [Digit(r / 10)] + [Digit(r % 10)];
    }
  }

  /** A printed amount has two decimals and reads back as itself. */
  lemma PrintReadsBack(total: nat)
    ensures var w, f := Decimal(total / 100), PadStart(Decimal(total % 100));
            Reads(Print(total), w, f) && |f| == 2 && (|w| > 1 ==> w[0] != '0')
    ensures Cents(Print(total)) == Some(total)
  {
    var w, f := Decimal(total / 100), PadStart(Decimal(total % 100));
    ValueOfDecimal(total / 100);
    TwoDigits(total % 100);
    CentsOf(Print(total), w, f);
    if total >= 100 { NoLeadingZero(total / 100); }
  }

  lemma TwelveDigits()
    ensures Power(12) == 1000000000000
  {
    assert Power(4) == 10000;
    assert Power(8) == 10000 * Power(4);
    assert Power(12) == 10000 * Power(8);
  }

  /** Exact money: an amount appears exactly when the price is in the grammar, the minutes are in range and the product is
      positive and within the bound; then it reads back, in the price grammar, as exactly cents times minutes. */
  lemma AmountIsExact(price: Option<string>, minutes: Option<int>)
    ensures Amount(price, minutes).Some? <==>
              price.Some? && minutes.Some? && 30 <= minutes.value <= 5256000 && Cents(price.value).Some? &&
              0 < Cents(price.value).value * minutes.value <= 99999999999999
    ensures Amount(price, minutes).Some? ==>
              Cents(Amount(price, minutes).value) == Some(Cents(price.value).value * minutes.value) &&
              exists w, f :: Reads(Amount(price, minutes).value, w, f) && |f| == 2 && 1 <= |w| <= 12 && (|w| > 1 ==> w[0] != '0')
  {
    var total := Total(price, minutes);
    if 0 < total <= LARGEST_TOTAL {
      PrintReadsBack(total);
      TwelveDigits();
      DecimalLength(total / 100, 12);
    }
  }
}
