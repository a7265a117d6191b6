/** Decimal text and 64-bit integers: prices in ticks, quantities in micro-units, and plain numbers. */
module Decimal {
  import opened Wrappers

  const INT64_MAX := 0x7FFF_FFFF_FFFF_FFFF
  const INT64_MIN := -0x8000_0000_0000_0000

  predicate IsDigit(c: char) {
    '0' <= c <= '9'
  }

  type digit = c: char | IsDigit(c) witness '0'

  function DigitValue(c: digit): (d: nat)
    ensures d < 10
  {
    c as int - '0' as int
  }

  function DigitChar(d: nat): (c: digit)
    requires d < 10
    ensures DigitValue(c) == d
  {
    ('0' as int + d) as char
  }

  /** The number a string of digits stands for. */
  function Value(ds: seq<digit>): nat {
    if ds == [] then 0 else 10 * Value(ds[..|ds| - 1]) + DigitValue(ds[|ds| - 1])
  }

  function Pow10(n: nat): (p: nat)
    ensures p > 0
  {
    if n == 0 then 1 else 10 * Pow10(n - 1)
  }

  /** The shortest decimal text of n. */
  function Print(n: nat): (ds: seq<digit>)
    ensures ds != [] && Value(ds) == n
  {
    if n < 10 then
      var ds := [DigitChar(n)];
      assert ds[..0] == [];
      ds
    else
      var ds := Print(n / 10) + [DigitChar(n % 10)];
      assert ds[..|ds| - 1] == Print(n / 10);
      ds
  }

  function PrintInt(n: int): string {
    if n < 0 then "-" + Print(-n) else Print(n)
  }

  lemma {:induction false} ValueAppend(a: seq<digit>, b: seq<digit>)
    ensures Value(a + b) == Value(a) * Pow10(|b|) + Value(b)
  {
    if b == [] {
      assert a + b == a;
    } else {
      var n := |b| - 1;
      assert (a + b)[..|a| + n] == a + b[..n];
      ValueAppend(a, b[..n]);
      assert (a + b)[|a| + n] == b[n];
      var p := Pow10(n);
      TimesTen(Value(a), p);
      assert Value(a + b) == 10 * (Value(a) * p + Value(b[..n])) + DigitValue(b[n]);
    }
  }

  lemma TimesTen(a: nat, p: nat)
    ensures 10 * (a * p) == a * (10 * p)
  {
  }

  lemma ProductIsNatural(a: nat, p: nat)
    ensures a * p >= 0 && (p > 0 ==> a * p >= a)
  {
  }

  lemma {:induction false} ValueBound(ds: seq<digit>)
    ensures Value(ds) < Pow10(|ds|)
  {
    if ds != [] { ValueBound(ds[..|ds| - 1]); }
  }

  /** The accumulators of the scanning loops. */
  datatype Scan = Scan(whole: nat, fractional: nat, fractionalDigits: nat, afterPoint: bool)

  /** One character of the loop; None is signed overflow. */
  function Accumulate(acc: Scan, c: digit, limit: nat): Option<Scan> {
    if !acc.afterPoint then
      var whole := acc.whole * 10 + DigitValue(c);
      if whole > INT64_MAX then None else Some(acc.(whole := whole))
    else if acc.fractionalDigits < limit then
      Some(acc.(fractional := acc.fractional * 10 + DigitValue(c), fractionalDigits := acc.fractionalDigits + 1))
    else Some(acc)
  }

  /** The loop over the text: it stops at the first character that is neither a point nor a digit. */
  function ScanText(s: string, limit: nat, acc: Scan): Option<Scan> {
    if s == [] then Some(acc)
    else if s[0] == '.' then ScanText(s[1..], limit, acc.(afterPoint := true))
    else if !IsDigit(s[0]) then Some(acc)
    else
      var next := Accumulate(acc, s[0], limit);
      if next == None then None else ScanText(s[1..], limit, next.value)
  }

  const START := Scan(0, 0, 0, false)

  /** The fraction padded with zeros to at least `places` digits. */
  function Padded(fractional: nat, digits: nat, places: nat): nat
    decreases places - digits
  {
    if digits < places then Padded(fractional * 10, digits + 1, places) else fractional
  }

  /** sign * (whole * 10^places + fraction), where every intermediate result fits 64 bits. */
  function Combine(negative: bool, acc: Option<Scan>, places: nat): Option<int> {
    if acc == None then None
    else
      var scaled := Scaled(acc.value.whole, places);
      var total := scaled + Padded(acc.value.fractional, acc.value.fractionalDigits, places);
      if scaled > INT64_MAX || total > INT64_MAX then None else Some(Signed(negative, total))
  }

  function Parse(value: string, limit: nat, places: nat): Option<int> {
    var negative := value != [] && value[0] == '-';
    Combine(negative, ScanText(if negative then value[1..] else value, limit, START), places)
  }

  /** parse_price_to_ticks at its default scale of 100; None is signed overflow. */
  function ParsePrice(value: string): Option<int> {
    Parse(value, 9, 2)
  }

  function ParseQuantity(value: string): Option<int> {
    Parse(value, 6, 6)
  }

  method ScanLoop(text: string, limit: nat) returns (acc: Option<Scan>)
    ensures acc == ScanText(text, limit, START)
  {
    var s := START;
    var i := 0;
    assert text[0..] == text;
    while i < |text|
      invariant 0 <= i <= |text|
      invariant ScanText(text, limit, START) == ScanText(text[i..], limit, s)
    {
      var c := text[i];
      assert text[i..][1..] == text[i + 1..];
      i := i + 1;
      if c == '.' {
        s := s.(afterPoint := true);
        continue;
      }
      if !IsDigit(c) { return Some(s); }
      if !s.afterPoint {
        var whole := s.whole * 10 + DigitValue(c);
        if whole > INT64_MAX { return None; }
        s := s.(whole := whole);
      } else if s.fractionalDigits < limit {
        s := s.(fractional := s.fractional * 10 + DigitValue(c), fractionalDigits := s.fractionalDigits + 1);
      }
    }
    return Some(s);
  }

  method ParseNumber(value: string, limit: nat, places: nat) returns (result: Option<int>)
    ensures result == Parse(value, limit, places)
  {
    var negative, text := false, value;
    if value != [] && value[0] == '-' {
      negative := true;
      text := value[1..];
    }
    var acc := ScanLoop(text, limit);
    if acc == None { return None; }
    var fractional, digits := acc.value.fractional, acc.value.fractionalDigits;
    while digits < places
      invariant Padded(fractional, digits, places)
        == Padded(acc.value.fractional, acc.value.fractionalDigits, places)
      decreases places - digits
    {
      fractional := fractional * 10;
      digits := digits + 1;
    }
    var scaled := Scaled(acc.value.whole, places);
    if scaled > INT64_MAX || scaled + fractional > INT64_MAX { return None; }
    return Some(if negative then -(scaled + fractional) else scaled + fractional);
  }

  method ParsePriceToTicks(value: string) returns (result: Option<int>)
    ensures result == ParsePrice(value)
  {
    result := ParseNumber(value, 9, 2);
  }

  method ParseQuantityToUnits(value: string) returns (result: Option<int>)
    ensures result == ParseQuantity(value)
  {
    result := ParseNumber(value, 6, 6);
  }

  /** The text of a decimal number: optional minus, digits, and optionally a point and more digits. */
  function DecimalText(negative: bool, whole: seq<digit>, fraction: Option<seq<digit>>): string {
    (if negative then "-" else "") + whole + (if fraction == None then "" else "." + fraction.value)
  }

  function FractionDigits(fraction: Option<seq<digit>>): seq<digit> {
    if fraction == None then [] else fraction.value
  }

  /** n times 10^digits. */
  function Scaled(n: nat, digits: nat): nat {
    ProductIsNatural(n, Pow10(digits));
    n * Pow10(digits)
  }

  function Signed(negative: bool, magnitude: int): int {
    if negative then -magnitude else magnitude
  }

  function Divide(n: nat, d: nat): nat
    requires d > 0
  {
    n / d
  }

  /** The number whole.fraction times 10^places, rounded toward zero. */
  function Truncated(whole: seq<digit>, fraction: seq<digit>, places: nat): nat {
    Divide(Scaled(Value(whole + fraction), places), Pow10(|fraction|))
  }

  lemma {:induction false} ScanWhole(whole: seq<digit>, done: seq<digit>, rest: string, limit: nat)
    requires rest == [] || rest[0] == '.'
    requires Value(done) <= INT64_MAX
    ensures ScanText(whole + rest, limit, Scan(Value(done), 0, 0, false))
      == if Value(done + whole) > INT64_MAX then None else ScanText(rest, limit, Scan(Value(done + whole), 0, 0, false))
    decreases |whole|
  {
    if whole == [] {
      assert whole + rest == rest && done + whole == done;
    } else {
      var next := done + [whole[0]];
      assert next[..|done|] == done;
      assert (whole + rest)[1..] == whole[1..] + rest;
      assert next + whole[1..] == done + whole;
      if Value(next) <= INT64_MAX {
        ScanWhole(whole[1..], next, rest, limit);
      } else {
        ValueAppend(next, whole[1..]);
        ProductIsNatural(Value(next), Pow10(|whole| - 1));
      }
    }
  }

  lemma {:induction false} ScanFraction(fraction: seq<digit>, done: seq<digit>, whole: nat, limit: nat)
    ensures var all := done + fraction;
      ScanText(fraction, limit, Scan(whole, Value(done[..Min(|done|, limit)]), Min(|done|, limit), true))
      == Some(Scan(whole, Value(all[..Min(|all|, limit)]), Min(|all|, limit), true))
    decreases |fraction|
  {
    if fraction == [] {
      assert done + fraction == done;
    } else {
      var next := done + [fraction[0]];
      assert next + fraction[1..] == done + fraction;
      ScanFraction(fraction[1..], next, whole, limit);
      if |done| < limit {
        assert next[..|next|] == next && done[..|done|] == done && next[..|done|] == done;
      } else {
        assert next[..limit] == done[..limit];
      }
    }
  }

  lemma {:induction false} PaddedIsScaled(fractional: nat, digits: nat, places: nat)
    ensures Padded(fractional, digits, places)
      == if digits < places then fractional * Pow10(places - digits) else fractional
    decreases places - digits
  {
    if digits < places {
      PaddedIsScaled(fractional * 10, digits + 1, places);
      assert fractional * 10 * Pow10(places - digits - 1) == fractional * (10 * Pow10(places - digits - 1));
    }
  }

  /** The magnitude the parsers compute: at most `limit` fractional digits, padded to `places`. */
  function Magnitude(whole: seq<digit>, fraction: seq<digit>, limit: nat, places: nat): nat {
    var k := Min(|fraction|, limit);
    Scaled(Value(whole), places) + Padded(Value(fraction[..k]), k, places)
  }

  lemma ScanDecimal(whole: seq<digit>, fraction: Option<seq<digit>>, limit: nat)
    ensures var f := FractionDigits(fraction); var k := Min(|f|, limit);
      ScanText(whole + (if fraction == None then "" else "." + fraction.value), limit, START)
      == if Value(whole) > INT64_MAX then None else Some(Scan(Value(whole), Value(f[..k]), k, fraction.Some?))
  {
    hide Value, Accumulate;
    var rest := if fraction == None then "" else "." + fraction.value;
    assert [] + whole == whole;
    EmptyIsZero();
    ScanWhole(whole, [], rest, limit);
    if fraction.Some? {
      assert rest[1..] == fraction.value && [] + fraction.value == fraction.value;
      ScanFraction(fraction.value, [], Value(whole), limit);
    }
  }

  lemma EmptyIsZero()
    ensures Value([]) == 0
    ensures forall ds: seq<digit> :: Value(ds[..0]) == 0
  {
  }

  /** What parsing does with every decimal text: overflow exactly when the magnitude exceeds 64 bits. */
  lemma ParseDecimal(negative: bool, whole: seq<digit>, fraction: Option<seq<digit>>, limit: nat, places: nat)
    ensures var m := Magnitude(whole, FractionDigits(fraction), limit, places);
      Parse(DecimalText(negative, whole, fraction), limit, places)
      == if m > INT64_MAX then None else Some(Signed(negative, m))
  {
    var body := whole + (if fraction == None then "" else "." + fraction.value);
    var text := DecimalText(negative, whole, fraction);
    if negative {
      assert text == "-" + body && text[1..] == body;
    } else {
      assert text == body;
    }
    ScanDecimal(whole, fraction, limit);
    ProductIsNatural(Value(whole), Pow10(places));
  }

  lemma {:induction false} Pow10Add(a: nat, b: nat)
    ensures Pow10(a + b) == Pow10(a) * Pow10(b)
  {
    if b > 0 {
      Pow10Add(a, b - 1);
      TimesTen(Pow10(a), Pow10(b - 1));
      assert Pow10(a + b) == 10 * Pow10(a + (b - 1));
    }
  }

  lemma ProductGrows(a: int, b: int, d: nat)
    requires a < b
    ensures a * d + d <= b * d
  {
    assert (b - a - 1) * d >= 0;
    assert b * d == (b - a - 1) * d + (a * d + d);
  }

  lemma QuotientIsUnique(n: nat, d: nat, q: nat, r: nat)
    requires d > 0 && r < d && n == q * d + r
    ensures n / d == q
  {
    var k := n / d;
    assert n == k * d + n % d;
    if k < q {
      ProductGrows(k, q, d);
    } else if q < k {
      ProductGrows(q, k, d);
    }
  }

  /** Dividing (x * q + r) * p by p * q drops the remainder r. */
  lemma DividesOut(x: nat, q: nat, r: nat, p: nat)
    requires r < q && p > 0
    ensures (x * q + r) * p >= 0 && p * q > 0
    ensures (x * q + r) * p / (p * q) == x
  {
    ProductIsNatural(p, q);
    ProductIsNatural(r, p);
    ProductIsNatural(x, p * q);
    calc {
      (x * q + r) * p;
      (x * q) * p + r * p;
      { assert (x * q) * p == x * (q * p) == x * (p * q); }
      x * (p * q) + r * p;
    }
    assert r * p < p * q by {
      ProductGrows(r, q, p);
      assert q * p == p * q;
    }
    QuotientIsUnique((x * q + r) * p, p * q, x, r * p);
  }

  /** Reading at most `places` fractional digits and padding is exactly truncation of the scaled value. */
  lemma MagnitudeIsTruncated(whole: seq<digit>, fraction: seq<digit>, places: nat)
    ensures Magnitude(whole, fraction, places, places) == Truncated(whole, fraction, places)
  {
    hide Value, Pow10;
    var k := Min(|fraction|, places);
    var head, tail := fraction[..k], fraction[k..];
    PaddedIsScaled(Value(head), k, places);
    ValueAppend(whole, head);
    if |fraction| <= places {
      assert head == fraction;
      ShortFraction(whole, fraction, places);
    } else {
      assert whole + fraction == (whole + head) + tail;
      ValueAppend(whole + head, tail);
      ValueBound(tail);
      Pow10Add(places, |tail|);
      DividesOut(Value(whole + head), Pow10(|tail|), Value(tail), Pow10(places));
    }
  }

  lemma Regroup(w: nat, f: nat, rest: nat, v: nat)
    ensures w * (f * rest) + v * rest == (w * f + v) * rest
    ensures (w * f + v) * (f * rest) == (w * f + v) * rest * f
  {
    assert w * (f * rest) == (w * f) * rest;
    var n := w * f + v;
    assert n * (f * rest) == n * rest * f;
  }

  lemma ShortFraction(whole: seq<digit>, fraction: seq<digit>, places: nat)
    requires |fraction| <= places
    ensures Scaled(Value(whole), places) + Scaled(Value(fraction), places - |fraction|)
      == Truncated(whole, fraction, places)
  {
    hide Value, Pow10;
    var f, rest := Pow10(|fraction|), Pow10(places - |fraction|);
    Pow10Add(|fraction|, places - |fraction|);
    ValueAppend(whole, fraction);
    var w, v := Value(whole), Value(fraction);
    ProductIsNatural(w * f + v, rest);
    Regroup(w, f, rest, v);
    DividesOut((w * f + v) * rest, 1, 0, f);
  }

  /** Quantities: for every decimal of any length, the parsed value is the number times 10^6 rounded toward
      zero, sign included, and overflow occurs exactly when that does not fit 64 bits. */
  lemma QuantityIsTruncation(negative: bool, whole: seq<digit>, fraction: Option<seq<digit>>)
    ensures var m := Truncated(whole, FractionDigits(fraction), 6);
      ParseQuantity(DecimalText(negative, whole, fraction)) == if m > INT64_MAX then None else Some(Signed(negative, m))
  {
    ParseDecimal(negative, whole, fraction, 6, 6);
    MagnitudeIsTruncated(whole, FractionDigits(fraction), 6);
  }

  lemma FixedOnlyAtZero(v: nat, p: nat, r: nat)
    requires p >= 2
    ensures v * p + r == v <==> v * p + r == 0
  {
    ProductGrows(1, p, v);
    assert p * v == v * p;
  }

  lemma LongerIsLarger(ds: seq<digit>, k: nat)
    requires k < |ds|
    ensures Value(ds) == Value(ds[..k]) <==> Value(ds) == 0
  {
    var rest := |ds| - k;
    assert Pow10(rest) == 10 * Pow10(rest - 1);
    assert ds == ds[..k] + ds[k..];
    ValueAppend(ds[..k], ds[k..]);
    hide Value, Pow10;
    FixedOnlyAtZero(Value(ds[..k]), Pow10(rest), Value(ds[k..]));
  }

  /** Prices: parsing is exact truncation to ticks if and only if that fits 64 bits and there are at most two
      fractional digits or the first nine are all zero. Longer fractions are added unscaled. */
  lemma PriceIsTruncationExactly(negative: bool, whole: seq<digit>, fraction: Option<seq<digit>>)
    ensures var f := FractionDigits(fraction);
      ParsePrice(DecimalText(negative, whole, fraction)) == Some(Signed(negative, Truncated(whole, f, 2)))
      <==> Truncated(whole, f, 2) <= INT64_MAX && (|f| <= 2 || Value(f[..Min(|f|, 9)]) == 0)
  {
    hide Value, Pow10;
    var f := FractionDigits(fraction);
    var k := Min(|f|, 9);
    ParseDecimal(negative, whole, fraction, 9, 2);
    MagnitudeIsTruncated(whole, f, 2);
    PaddedIsScaled(Value(f[..k]), k, 2);
    if |f| > 2 {
      assert f[..k][..2] == f[..2];
      PaddedIsScaled(Value(f[..2]), 2, 2);
      LongerIsLarger(f[..k], 2);
    }
  }

  /** The sign of both results is the same, so parsing an in-range price with at most two fractional digits
      gives its exact value in ticks. */
  lemma ShortPricesAreExact(negative: bool, whole: seq<digit>, fraction: Option<seq<digit>>)
    requires |FractionDigits(fraction)| <= 2
    ensures var m := Truncated(whole, FractionDigits(fraction), 2);
      ParsePrice(DecimalText(negative, whole, fraction)) == if m > INT64_MAX then None else Some(Signed(negative, m))
  {
    var f := FractionDigits(fraction);
    ParseDecimal(negative, whole, fraction, 9, 2);
    MagnitudeIsTruncated(whole, f, 2);
  }

  /** C++ integer division and remainder: rounding toward zero. */
  function Quotient(a: int, b: int): int
    requires b > 0
  {
    if a >= 0 then a / b else -((-a) / b)
  }

  function Remainder(a: int, b: int): int
    requires b > 0
  {
    a - Quotient(a, b) * b
  }

  function Abs(n: int): nat {
    if n < 0 then -n else n
  }

  lemma OneDigit(c: digit)
    ensures Value([c]) == DigitValue(c) && Pow10(1) == 10
  {
    assert [c][..0] == [];
  }

  /** At least two digits, filled with a zero. */
  function TwoDigits(n: nat): (ds: seq<digit>)
    requires n < 100
    ensures |ds| == 2 && Value(ds) == n
  {
    var ds := [DigitChar(n / 10)] + [DigitChar(n % 10)];
    ValueAppend([DigitChar(n / 10)], [DigitChar(n % 10)]);
    OneDigit(DigitChar(n / 10));
    OneDigit(DigitChar(n % 10));
    ds
  }

  function TicksToPriceString(ticks: int): string {
    PrintInt(Quotient(ticks, 100)) + "." + TwoDigits(Abs(Remainder(ticks, 100)))
  }

  /** The printed text is a decimal with two fractional digits; its sign is lost between -99 and -1. */
  lemma PrintedTicks(ticks: int)
    ensures var negative, whole, cents :=
        Quotient(ticks, 100) < 0, Print(Abs(Quotient(ticks, 100))), TwoDigits(Abs(Remainder(ticks, 100)));
      && TicksToPriceString(ticks) == DecimalText(negative, whole, Some(cents))
      && Truncated(whole, cents, 2) == Abs(ticks)
      && (negative <==> ticks <= -100)
  {
    var q, r := Abs(Quotient(ticks, 100)), Abs(Remainder(ticks, 100));
    var whole, cents := Print(q), TwoDigits(r);
    assert q * 100 + r == Abs(ticks);
    ValueAppend(whole, cents);
    hide Value, Print;
    assert Pow10(2) == 100;
    DividesOut(q * 100 + r, 1, 0, 100);
    assert PrintInt(Quotient(ticks, 100)) + "." + cents
      == (if Quotient(ticks, 100) < 0 then "-" else "") + whole + ("." + cents);
  }

  /** Price round trip: over all 64-bit tick values, printing and parsing gives the value back exactly when
      it is neither the minimum nor between -99 and -1. */
  lemma PriceRoundTripExactly(ticks: int)
    requires INT64_MIN <= ticks <= INT64_MAX
    ensures ParsePrice(TicksToPriceString(ticks)) == Some(ticks) <==> ticks != INT64_MIN && !(-99 <= ticks <= -1)
  {
    PrintedTicks(ticks);
    var negative, whole, cents :=
      Quotient(ticks, 100) < 0, Print(Abs(Quotient(ticks, 100))), TwoDigits(Abs(Remainder(ticks, 100)));
    ShortPricesAreExact(negative, whole, Some(cents));
    hide Truncated, ParsePrice, TicksToPriceString, Print, TwoDigits;
  }
}
