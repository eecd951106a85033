/** Printing wei amounts: integer strings as truncated decimals with grouped thousands, and a reader
    that takes the text back to the number it denotes. */
module Amount {
  import opened Prelude

  // ----- Digits -----

  predicate IsDigit(c: char) { '0' <= c <= '9' }

  predicate AllDigits(s: string) { forall i | 0 <= i < |s| :: IsDigit(s[i]) }

  function Digit(n: nat): char
    requires n < 10
  {
    '0' + n as char
  }

  function Pow10(n: nat): (p: nat)
    ensures p > 0
  {
    if n == 0 then 1 else 10 * Pow10(n - 1)
  }

  /** x * 10^n. */
  function Scaled(x: nat, n: nat): nat {
    if n == 0 then x else 10 * Scaled(x, n - 1)
  }

  /** The number x followed by the digits of s. */
  function Append(x: nat, s: string): nat
    requires AllDigits(s)
  {
    if s == "" then x else 10 * Append(x, s[..|s| - 1]) + (s[|s| - 1] - '0') as nat
  }

  /** BigInt of a digit string. */
  function Digits(s: string): nat
    requires AllDigits(s)
  {
    Append(0, s)
  }

  function ToString(n: nat): (s: string)
    ensures s != "" && AllDigits(s)
  {
    if n < 10 then [Digit(n)] else ToString(n / 10) + [Digit(n % 10)]
  }

  function Zeros(n: nat): (s: string)
    ensures |s| == n && AllDigits(s)
  {
    seq(n, _ => '0')
  }

  function PadStart(s: string, width: nat): string {
    if |s| < width then Zeros(width - |s|) + s else s
  }

  function StripZeros(s: string): (r: string)
    ensures r <= s
  {
    if s != "" && s[|s| - 1] == '0' then StripZeros(s[..|s| - 1]) else s
  }

  /** en-US grouping. */
  function Grouped(s: string): string {
    if |s| <= 3 then s else Grouped(s[..|s| - 3]) + "," + s[|s| - 3..]
  }

  // ----- The printer -----

  /** An optional sign and at least one digit. */
  predicate IsInteger(raw: string) {
    if raw != "" && raw[0] == '-' then |raw| > 1 && AllDigits(raw[1..]) else raw != "" && AllDigits(raw)
  }

  predicate IsNegative(raw: string) { raw != "" && raw[0] == '-' }

  function Magnitude(raw: string): nat
    requires IsInteger(raw)
  {
    Digits(if IsNegative(raw) then raw[1..] else raw)
  }

  function FractionText(scaled: nat, precision: nat): string {
    StripZeros(PadStart(ToString(scaled), precision))
  }

  function Printed(negative: bool, wholeText: string, fractionText: string, suffix: string): string {
    var formatted := if fractionText != "" then wholeText + "." + fractionText else wholeText;
    (if negative then "-" else "") + formatted + " " + suffix
  }

  function FormatUnit(rawValue: Option<string>, basePower: nat, precision: nat, suffix: string): string
    requires basePower > 0
  {
    if rawValue.None? || rawValue.value == "" then "0 " + suffix
    else if !IsInteger(rawValue.value) then rawValue.value
    else
      var value := Magnitude(rawValue.value);
      var whole := value / basePower;
      var fraction := value % basePower;
      var scaled := Scaled(fraction, precision) / basePower;
      Printed(IsNegative(rawValue.value), Grouped(ToString(whole)), FractionText(scaled, precision), suffix)
  }

  function FormatWeiToEth(rawValue: Option<string>, precision: nat := 4): string {
    FormatUnit(rawValue, Pow10(18), precision, "ETH")
  }

  function FormatWeiToGwei(rawValue: Option<string>, precision: nat := 2): string {
    FormatUnit(rawValue, Pow10(9), precision, "gwei")
  }

  // ----- The reader -----

  /** units / 10^places; dotted once the decimal point has been read. */
  datatype Reading = Reading(units: nat, places: nat, dotted: bool)

  /** The reading after the digits of s. */
  function Shifted(r: Reading, s: string): Reading
    requires AllDigits(s)
  {
    Reading(Append(r.units, s), if r.dotted then r.places + |s| else r.places, r.dotted)
  }

  /** Reads on from r to the end or the first space, skipping group separators. */
  function Scan(text: string, r: Reading): Option<Reading> {
    if text == "" || text[0] == ' ' then Some(r)
    else if text[0] == ',' then Scan(text[1..], r)
    else if text[0] == '.' && !r.dotted then Scan(text[1..], r.(dotted := true))
    else if IsDigit(text[0]) then Scan(text[1..], Shifted(r, [text[0]]))
    else None
  }

  /** The number a text starts with: units / 10^places, with a sign. */
  datatype Decimal = Decimal(negative: bool, units: nat, places: nat)

  function Read(text: string): Option<Decimal> {
    match Scan(if IsNegative(text) then text[1..] else text, Reading(0, 0, false))
    case None => None
    case Some(r) => Some(Decimal(IsNegative(text), r.units, r.places))
  }

  // ----- Scaling -----

  lemma {:induction false} ScaledIsProduct(x: nat, n: nat)
    ensures Scaled(x, n) == x * Pow10(n)
  {
    if n > 0 { ScaledIsProduct(x, n - 1); }
  }

  lemma {:induction false} ScaledAgain(x: nat, m: nat, n: nat)
    ensures Scaled(Scaled(x, m), n) == Scaled(x, m + n)
  {
    if n > 0 { ScaledAgain(x, m, n - 1); }
  }

  lemma {:induction false} ScaledSum(x: nat, y: nat, n: nat)
    ensures Scaled(x + y, n) == Scaled(x, n) + Scaled(y, n)
  {
    if n > 0 { ScaledSum(x, y, n - 1); }
  }

  lemma {:induction false} ScaledInjective(x: nat, y: nat, n: nat)
    ensures Scaled(x, n) == Scaled(y, n) <==> x == y
  {
    if n > 0 { ScaledInjective(x, y, n - 1); }
  }

  lemma {:induction false} ScaledMultiple(w: nat, b: nat, n: nat)
    ensures Scaled(w * b, n) == Scaled(w, n) * b
  {
    if n > 0 { ScaledMultiple(w, b, n - 1); }
  }

  // ----- Digit strings -----

  lemma {:induction false} AppendMeans(x: nat, s: string)
    requires AllDigits(s)
    ensures Append(x, s) == Scaled(x, |s|) + Digits(s)
  {
    if s != "" { AppendMeans(x, s[..|s| - 1]); }
  }

  lemma {:induction false} AppendConcat(x: nat, a: string, b: string)
    requires AllDigits(a) && AllDigits(b)
    ensures AllDigits(a + b) && Append(x, a + b) == Append(Append(x, a), b)
  {
    if b == "" {
      assert a + b == a;
    } else {
      AppendConcat(x, a, b[..|b| - 1]);
      assert (a + b)[..|a + b| - 1] == a + b[..|b| - 1];
    }
  }

  lemma {:induction false} DigitsOfToString(n: nat)
    ensures Digits(ToString(n)) == n
  {
    var s := ToString(n);
    if n < 10 {
      assert Append(0, s[..|s| - 1]) == 0;
    } else {
      DigitsOfToString(n / 10);
      assert s[..|s| - 1] == ToString(n / 10);
    }
  }

  lemma {:induction false} LengthOfToString(n: nat, width: nat)
    requires n < Pow10(width)
    ensures |ToString(n)| <= Max(width, 1)
  {
    if n >= 10 { LengthOfToString(n / 10, width - 1); }
  }

  lemma {:induction false} DigitsOfZeros(n: nat)
    ensures Digits(Zeros(n)) == 0
  {
    if n > 0 {
      assert Zeros(n)[..n - 1] == Zeros(n - 1);
      DigitsOfZeros(n - 1);
    }
  }

  lemma DigitsPadded(s: string, width: nat)
    requires AllDigits(s)
    ensures AllDigits(PadStart(s, width)) && Digits(PadStart(s, width)) == Digits(s)
  {
    if |s| < width {
      AppendConcat(0, Zeros(width - |s|), s);
      DigitsOfZeros(width - |s|);
    }
  }

  lemma {:induction false} DigitsStripped(s: string)
    requires AllDigits(s)
    ensures AllDigits(StripZeros(s)) && Scaled(Digits(StripZeros(s)), |s| - |StripZeros(s)|) == Digits(s)
    ensures StripZeros(s) != "" ==> StripZeros(s)[|StripZeros(s)| - 1] != '0'
  {
    if s != "" && s[|s| - 1] == '0' {
      DigitsStripped(s[..|s| - 1]);
    }
  }

  /** Counted from the right, the separators stand at every fourth place and nowhere else. */
  lemma {:induction false} GroupedShape(s: string, i: nat)
    requires AllDigits(s) && i < |Grouped(s)|
    ensures Grouped(s)[i] == ',' <==> (|Grouped(s)| - i) % 4 == 0
  {
    if |s| > 3 {
      var head := Grouped(s[..|s| - 3]);
      assert |Grouped(s)| == |head| + 4;
      if i < |head| { GroupedShape(s[..|s| - 3], i); }
    }
  }

  lemma {:induction false} GroupedStart(s: string)
    requires AllDigits(s) && s != ""
    ensures Grouped(s) != "" && Grouped(s)[0] != '-'
  {
    if |s| > 3 { GroupedStart(s[..|s| - 3]); }
  }

  // ----- Reading what is printed -----

  lemma {:induction false} ScanDigits(s: string, rest: string, r: Reading)
    requires AllDigits(s)
    ensures Scan(s + rest, r) == Scan(rest, Shifted(r, s))
    decreases |s|
  {
    if s == "" {
      assert s + rest == rest;
    } else {
      var c, tail := [s[0]], s[1..];
      assert s == c + tail;
      assert (s + rest)[1..] == tail + rest;
      ScanDigits(tail, rest, Shifted(r, c));
      AppendConcat(r.units, c, tail);
    }
  }

  lemma {:induction false} ScanGrouped(s: string, rest: string, r: Reading)
    requires AllDigits(s)
    ensures Scan(Grouped(s) + rest, r) == Scan(rest, Shifted(r, s))
  {
    if |s| <= 3 {
      ScanDigits(s, rest, r);
    } else {
      var head, tail := s[..|s| - 3], s[|s| - 3..];
      ScanGrouped(head, "," + (tail + rest), r);
      assert Grouped(s) + rest == Grouped(head) + ("," + (tail + rest));
      ScanComma(tail + rest, Shifted(r, head));
      ScanDigits(tail, rest, Shifted(r, head));
      AppendConcat(r.units, head, tail);
      assert head + tail == s;
    }
  }

  lemma ScanComma(rest: string, r: Reading)
    ensures Scan("," + rest, r) == Scan(rest, r)
  {
    assert ("," + rest)[1..] == rest;
  }

  /** What follows the whole part: a point and digits if there are any, then the suffix. */
  function Ending(fraction: string, suffix: string): string {
    if fraction != "" then "." + (fraction + (" " + suffix)) else " " + suffix
  }

  lemma ScanEnding(fraction: string, suffix: string, r: Reading)
    requires AllDigits(fraction) && !r.dotted
    ensures Scan(Ending(fraction, suffix), r) ==
      Some(if fraction != "" then Shifted(r.(dotted := true), fraction) else r)
  {
    var tail := fraction + (" " + suffix);
    assert ("." + tail)[1..] == tail;
    ScanDigits(fraction, " " + suffix, r.(dotted := true));
  }

  lemma PrintedShape(negative: bool, wholeText: string, fraction: string, suffix: string)
    ensures Printed(negative, wholeText, fraction, suffix) ==
      (if negative then "-" else "") + (wholeText + Ending(fraction, suffix))
  {
  }

  lemma ReadSigned(negative: bool, body: string)
    requires body != "" && body[0] != '-'
    ensures Read((if negative then "-" else "") + body) ==
      match Scan(body, Reading(0, 0, false))
      case None => None
      case Some(r) => Some(Decimal(negative, r.units, r.places))
  {
    var text := (if negative then "-" else "") + body;
    assert IsNegative(text) == negative;
    assert (if negative then text[1..] else text) == body;
  }

  lemma ScanNumber(digits: string, fraction: string, suffix: string)
    requires AllDigits(digits) && AllDigits(fraction)
    ensures Scan(Grouped(digits) + Ending(fraction, suffix), Reading(0, 0, false)) ==
      Some(Reading(Append(Digits(digits), fraction), |fraction|, fraction != ""))
  {
    ScanGrouped(digits, Ending(fraction, suffix), Reading(0, 0, false));
    ScanEnding(fraction, suffix, Reading(Digits(digits), 0, false));
  }

  /** What the reader makes of a printed number. */
  lemma ReadPrinted(negative: bool, digits: string, fraction: string, suffix: string)
    requires digits != "" && AllDigits(digits) && AllDigits(fraction)
    ensures Read(Printed(negative, Grouped(digits), fraction, suffix)) ==
      Some(Decimal(negative, Append(Digits(digits), fraction), |fraction|))
  {
    PrintedShape(negative, Grouped(digits), fraction, suffix);
    GroupedStart(digits);
    ScanNumber(digits, fraction, suffix);
    ReadSigned(negative, Grouped(digits) + Ending(fraction, suffix));
  }

  // ----- Division -----

  lemma Monotone(x: int, y: int, f: nat)
    requires x <= y
    ensures x * f <= y * f
  {
  }

  lemma QuotientUnique(n: nat, d: nat, q: nat, r: nat)
    requires 0 <= r < d && n == q * d + r
    ensures n / d == q
  {
    var p := n / d;
    assert n == p * d + n % d;
    if p < q { Monotone(p + 1, q, d); }
    if q < p { Monotone(q + 1, p, d); }
  }

  lemma Euclid(y: nat, d: nat)
    requires d > 0
    ensures y == (y / d) * d + y % d && 0 <= y % d < d
  {
  }

  lemma AddQuotient(x: nat, k: nat, y: nat, d: nat, q: nat, r: nat)
    requires r < d && x == k * d + y && y == q * d + r
    ensures x / d == k + q
  {
    assert (k + q) * d == k * d + q * d;
    QuotientUnique(x, d, k + q, r);
  }

  lemma AddMultiple(x: nat, k: nat, y: nat, d: nat)
    requires d > 0 && x == k * d + y
    ensures x / d == k + y / d
  {
    Euclid(y, d);
    AddQuotient(x, k, y, d, y / d, y % d);
  }

  /** Splitting off the whole part first truncates nothing more. */
  lemma SplitDivision(value: nat, basePower: nat, n: nat)
    requires basePower > 0
    ensures Scaled(value, n) / basePower == Scaled(value / basePower, n) + Scaled(value % basePower, n) / basePower
  {
    Euclid(value, basePower);
    ScaledSum(value / basePower * basePower, value % basePower, n);
    ScaledMultiple(value / basePower, basePower, n);
    AddMultiple(Scaled(value, n), Scaled(value / basePower, n), Scaled(value % basePower, n), basePower);
  }

  lemma QuotientBelow(x: nat, d: nat, bound: nat)
    requires d > 0 && x < bound * d
    ensures x / d < bound
  {
    Euclid(x, d);
    if x / d >= bound { Monotone(bound, x / d, d); }
  }

  lemma {:induction false} ScaledBelow(fraction: nat, basePower: nat, n: nat)
    requires fraction < basePower
    ensures Scaled(fraction, n) < Pow10(n) * basePower
  {
    if n > 0 {
      ScaledBelow(fraction, basePower, n - 1);
      assert 10 * (Pow10(n - 1) * basePower) == Pow10(n) * basePower;
    }
  }

  // ----- What is printed -----

  lemma Padded(scaled: nat, precision: nat)
    requires scaled < Pow10(precision)
    ensures var s := PadStart(ToString(scaled), precision);
      AllDigits(s) && Digits(s) == scaled && |s| == Max(precision, 1)
  {
    DigitsOfToString(scaled);
    LengthOfToString(scaled, precision);
    DigitsPadded(ToString(scaled), precision);
  }

  /** The printed fraction denotes scaled / 10^precision. */
  lemma FractionMeans(scaled: nat, precision: nat)
    requires scaled < Pow10(precision)
    ensures var f := FractionText(scaled, precision);
      AllDigits(f) && |f| <= precision && Scaled(Digits(f), precision - |f|) == scaled
  {
    Padded(scaled, precision);
    DigitsStripped(PadStart(ToString(scaled), precision));
    if precision == 0 { NoFraction(); }
  }

  lemma NoFraction()
    ensures FractionText(0, 0) == ""
  {
    assert ToString(0) == "0" && PadStart("0", 0) == "0";
    assert StripZeros("0") == StripZeros("");
  }

  /** d is v / basePower truncated at `precision` places: d.units * 10^(precision - d.places) is
      floor(v * 10^precision / basePower). */
  ghost predicate Truncates(d: Decimal, v: nat, basePower: nat, precision: nat)
    requires basePower > 0
  {
    d.places <= precision && Scaled(d.units, precision - d.places) == Scaled(v, precision) / basePower
  }

  /** The whole part and the printed fraction together denote the truncated amount. */
  lemma PartsMean(negative: bool, whole: nat, fraction: string, scaled: nat, v: nat, basePower: nat, precision: nat)
    requires basePower > 0 && AllDigits(fraction) && |fraction| <= precision
    requires Scaled(Digits(fraction), precision - |fraction|) == scaled
    requires Scaled(v, precision) / basePower == Scaled(whole, precision) + scaled
    ensures Truncates(Decimal(negative, Append(whole, fraction), |fraction|), v, basePower, precision)
  {
    AppendMeans(whole, fraction);
    ScaledSum(Scaled(whole, |fraction|), Digits(fraction), precision - |fraction|);
    ScaledAgain(whole, |fraction|, precision - |fraction|);
  }

  lemma ScaledFits(v: nat, basePower: nat, precision: nat)
    requires basePower > 0
    ensures Scaled(v % basePower, precision) / basePower < Pow10(precision)
  {
    ScaledBelow(v % basePower, basePower, precision);
    QuotientBelow(Scaled(v % basePower, precision), basePower, Pow10(precision));
  }

  lemma PartsTruncate(negative: bool, v: nat, basePower: nat, precision: nat, whole: nat, scaled: nat)
    requires basePower > 0
    requires whole == v / basePower && scaled == Scaled(v % basePower, precision) / basePower
    ensures var f := FractionText(scaled, precision);
      AllDigits(f) && Truncates(Decimal(negative, Append(whole, f), |f|), v, basePower, precision)
  {
    ScaledFits(v, basePower, precision);
    FractionMeans(scaled, precision);
    SplitDivision(v, basePower, precision);
    PartsMean(negative, whole, FractionText(scaled, precision), scaled, v, basePower, precision);
  }

  /** Printed amounts are exact truncations: read back, the text of any integer v is the sign of v
      with floor(|v| * 10^precision / base) / 10^precision. */
  lemma PrintsTruncation(raw: string, basePower: nat, precision: nat, suffix: string) returns (d: Decimal)
    requires basePower > 0 && IsInteger(raw)
    ensures Read(FormatUnit(Some(raw), basePower, precision, suffix)) == Some(d)
    ensures d.negative == IsNegative(raw) && Truncates(d, Magnitude(raw), basePower, precision)
  {
    var value := Magnitude(raw);
    var whole, scaled := value / basePower, Scaled(value % basePower, precision) / basePower;
    PartsTruncate(IsNegative(raw), value, basePower, precision, whole, scaled);
    var text := FractionText(scaled, precision);
    ReadPrinted(IsNegative(raw), ToString(whole), text, suffix);
    DigitsOfToString(whole);
    d := Decimal(IsNegative(raw), Append(whole, text), |text|);
  }

  lemma FloorBounds(x: nat, d: nat, q: nat)
    requires d > 0 && q == x / d
    ensures q * d <= x < q * d + d && (q * d == x <==> x % d == 0)
  {
  }

  /** A truncation never exceeds the amount and falls short of it by less than 10^-precision; it is
      the amount itself if and only if the base divides |v| * 10^precision. */
  lemma TruncationError(d: Decimal, v: nat, basePower: nat, precision: nat)
    requires basePower > 0 && Truncates(d, v, basePower, precision)
    ensures var printed, exact := Scaled(d.units, precision - d.places) * basePower, Scaled(v, precision);
      && printed <= exact < printed + basePower
      && (printed == exact <==> exact % basePower == 0)
  {
    FloorBounds(Scaled(v, precision), basePower, Scaled(d.units, precision - d.places));
  }

  /** A truncation is lossless once the precision reaches the unit's decimals:
      d.units / 10^d.places == v / 10^decimals. */
  lemma LosslessAtFullPrecision(d: Decimal, v: nat, decimals: nat, precision: nat)
    requires decimals <= precision && Truncates(d, v, Pow10(decimals), precision)
    ensures Scaled(d.units, decimals) == Scaled(v, d.places)
  {
    var rest := Scaled(v, precision - decimals);
    ScaledAgain(v, precision - decimals, decimals);
    ScaledIsProduct(rest, decimals);
    QuotientUnique(Scaled(v, precision), Pow10(decimals), rest, 0);
    assert Scaled(d.units, precision - d.places) == rest;
    SameRatio(d.units, d.places, v, decimals, precision);
  }

  lemma SameRatio(u: nat, places: nat, v: nat, decimals: nat, precision: nat)
    requires places <= precision && decimals <= precision
    requires Scaled(u, precision - places) == Scaled(v, precision - decimals)
    ensures Scaled(u, decimals) == Scaled(v, places)
  {
    ScaledAgain(u, precision - places, places + decimals);
    ScaledAgain(v, precision - decimals, places + decimals);
    ScaledAgain(u, decimals, precision);
    ScaledAgain(v, places, precision);
    ScaledInjective(Scaled(u, decimals), Scaled(v, places), precision);
  }

  // ----- The other texts -----

  /** Decimal digits, at least one. */
  predicate IsNumeral(s: string) { s != "" && forall i | 0 <= i < |s| :: s[i] in "0123456789" }

  lemma NumeralExactly(s: string)
    ensures IsNumeral(s) <==> s != "" && AllDigits(s)
  {
    assert forall c: char :: c in "0123456789" <==> IsDigit(c);
  }

  /** What is read as an integer: a numeral, or a minus sign and a numeral. */
  lemma IntegerExactly(raw: string)
    ensures IsInteger(raw) <==> IsNumeral(raw) || (raw != "" && raw[0] == '-' && IsNumeral(raw[1..]))
  {
    NumeralExactly(raw);
    if raw != "" {
      NumeralExactly(raw[1..]);
      if raw[0] == '-' { assert !IsDigit(raw[0]); }
    }
  }

  ghost predicate EndsWith(text: string, suffix: string) {
    |text| >= |suffix| && text[|text| - |suffix|..] == suffix
  }

  lemma EndsPrinted(negative: bool, wholeText: string, fraction: string, unit: string)
    ensures EndsWith(Printed(negative, wholeText, fraction, unit), " " + unit)
  {
    var number := (if negative then "-" else "") + if fraction != "" then wholeText + "." + fraction else wholeText;
    assert Printed(negative, wholeText, fraction, unit) == number + (" " + unit);
  }

  lemma PrintsNumber(raw: string, basePower: nat, precision: nat, unit: string)
    returns (whole: nat, scaled: nat)
    requires basePower > 0 && IsInteger(raw)
    ensures scaled < Pow10(precision)
    ensures FormatUnit(Some(raw), basePower, precision, unit) ==
      Printed(IsNegative(raw), Grouped(ToString(whole)), FractionText(scaled, precision), unit)
  {
    var value := Magnitude(raw);
    whole, scaled := value / basePower, Scaled(value % basePower, precision) / basePower;
    ScaledFits(value, basePower, precision);
    FractionMeans(scaled, precision);
  }

  /** The text of an amount ends with its unit; no amount is zero of it, and what is not an integer is shown as
      it is. */
  lemma OtherTexts(raw: string, basePower: nat, precision: nat, unit: string)
    requires basePower > 0
    ensures FormatUnit(None, basePower, precision, unit) == "0 " + unit
    ensures var text := FormatUnit(Some(raw), basePower, precision, unit);
      if IsNumeral(raw) || (raw != "" && raw[0] == '-' && IsNumeral(raw[1..])) then EndsWith(text, " " + unit)
      else if raw != "" then text == raw
      else text == "0 " + unit
  {
    IntegerExactly(raw);
    if IsInteger(raw) {
      var whole, scaled := PrintsNumber(raw, basePower, precision, unit);
      EndsPrinted(IsNegative(raw), Grouped(ToString(whole)), FractionText(scaled, precision), unit);
    }
  }

  lemma {:induction false} NoLeadingZero(n: nat)
    ensures ToString(n) == "0" || ToString(n)[0] != '0'
  {
    if n >= 10 {
      NoLeadingZero(n / 10);
      NotZero(n / 10);
    }
  }

  lemma NotZero(n: nat)
    requires n > 0
    ensures ToString(n) != "0"
  {
    DigitsOfToString(n);
    assert Append(0, "") == 0;
    assert "0"[..0] == "";
  }

  lemma FractionShape(scaled: nat, precision: nat)
    requires scaled < Pow10(precision)
    ensures var f := FractionText(scaled, precision);
      f == "" || (IsNumeral(f) && f[|f| - 1] != '0' && |f| <= precision)
  {
    FractionMeans(scaled, precision);
    Padded(scaled, precision);
    DigitsStripped(PadStart(ToString(scaled), precision));
    NumeralExactly(FractionText(scaled, precision));
  }

  lemma WholeShape(n: nat)
    ensures IsNumeral(ToString(n)) && (ToString(n) == "0" || ToString(n)[0] != '0')
  {
    NoLeadingZero(n);
    NumeralExactly(ToString(n));
  }

  /** What follows the whole part: a point and the fraction if there is one, then a space and the unit. */
  function Tail(fraction: string, unit: string): string {
    (if fraction == "" then "" else "." + fraction) + " " + unit
  }

  /** The text of an integer: its sign, the whole part in groups of three without leading zeros, then a point
      and digits that do not end in a zero if there are any, a space and the unit. */
  lemma TextShape(raw: string, basePower: nat, precision: nat, unit: string)
    returns (whole: string, fraction: string)
    requires basePower > 0 && IsInteger(raw)
    ensures FormatUnit(Some(raw), basePower, precision, unit) ==
      (if raw[0] == '-' then "-" else "") + (Grouped(whole) + Tail(fraction, unit))
    ensures IsNumeral(whole) && (whole == "0" || whole[0] != '0')
    ensures fraction == "" || (IsNumeral(fraction) && fraction[|fraction| - 1] != '0' && |fraction| <= precision)
  {
    var w, scaled := PrintsNumber(raw, basePower, precision, unit);
    whole, fraction := ToString(w), FractionText(scaled, precision);
    WholeShape(w);
    FractionShape(scaled, precision);
    PrintedShape(IsNegative(raw), Grouped(whole), fraction, unit);
    TailIsEnding(fraction, unit);
  }

  lemma TailIsEnding(fraction: string, unit: string)
    ensures Tail(fraction, unit) == Ending(fraction, unit)
  {
    assert "." + fraction + " " + unit == "." + (fraction + (" " + unit));
  }

  /** Wei is printed in ETH, four places of 18 decimals unless others are asked for, or in gwei, two of nine. */
  lemma UnitsExactly(rawValue: Option<string>, precision: nat)
    ensures FormatWeiToEth(rawValue, precision) == FormatUnit(rawValue, 1_000_000_000_000_000_000, precision, "ETH")
    ensures FormatWeiToEth(rawValue) == FormatUnit(rawValue, 1_000_000_000_000_000_000, 4, "ETH")
    ensures FormatWeiToGwei(rawValue, precision) == FormatUnit(rawValue, 1_000_000_000, precision, "gwei")
    ensures FormatWeiToGwei(rawValue) == FormatUnit(rawValue, 1_000_000_000, 2, "gwei")
  {
    Units();
  }

  /** The decimals of the units. */
  lemma Units()
    ensures Pow10(18) == 1_000_000_000_000_000_000 && Pow10(9) == 1_000_000_000
  {
    assert Pow10(3) == 1000 && Pow10(6) == 1_000_000 && Pow10(9) == 1_000_000_000;
    assert Pow10(12) == 1_000_000_000_000 && Pow10(15) == 1_000_000_000_000_000;
  }

  /** At that precision two amounts print alike if and only if sign and magnitude agree. */
  lemma PrintsDistinctly(a: string, b: string, decimals: nat, precision: nat, suffix: string)
    requires IsInteger(a) && IsInteger(b) && decimals <= precision
    ensures FormatUnit(Some(a), Pow10(decimals), precision, suffix) ==
      FormatUnit(Some(b), Pow10(decimals), precision, suffix)
      <==> IsNegative(a) == IsNegative(b) && Magnitude(a) == Magnitude(b)
  {
    var c := PrintsTruncation(a, Pow10(decimals), precision, suffix);
    var d := PrintsTruncation(b, Pow10(decimals), precision, suffix);
    LosslessAtFullPrecision(c, Magnitude(a), decimals, precision);
    LosslessAtFullPrecision(d, Magnitude(b), decimals, precision);
    if c == d { ScaledInjective(Magnitude(a), Magnitude(b), c.places); }
  }

  /** Wei printed as ETH or gwei: the truncation at the given precision, exact from 18 and 9 places on. */
  lemma WeiAmounts(raw: string, precision: nat) returns (eth: Decimal, gwei: Decimal)
    requires IsInteger(raw)
    ensures Read(FormatWeiToEth(Some(raw), precision)) == Some(eth)
    ensures Truncates(eth, Magnitude(raw), Pow10(18), precision) && eth.negative == IsNegative(raw)
    ensures precision >= 18 ==> Scaled(eth.units, 18) == Scaled(Magnitude(raw), eth.places)
    ensures Read(FormatWeiToGwei(Some(raw), precision)) == Some(gwei)
    ensures Truncates(gwei, Magnitude(raw), Pow10(9), precision) && gwei.negative == IsNegative(raw)
    ensures precision >= 9 ==> Scaled(gwei.units, 9) == Scaled(Magnitude(raw), gwei.places)
  {
    eth := PrintsTruncation(raw, Pow10(18), precision, "ETH");
    if precision >= 18 { LosslessAtFullPrecision(eth, Magnitude(raw), 18, precision); }
    gwei := PrintsTruncation(raw, Pow10(9), precision, "gwei");
    if precision >= 9 { LosslessAtFullPrecision(gwei, Magnitude(raw), 9, precision); }
  }
}
