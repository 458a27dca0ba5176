/** Fixed-point prices as text: the parser, the printer, and the decimal numbers they stand for. */
module PriceText {

  /** Machine integers: every operation on them is proved not to overflow. */
  newtype int64 = x: int | -0x8000_0000_0000_0000 <= x < 0x8000_0000_0000_0000

  const INT64_MIN: int64 := -0x8000_0000_0000_0000
  const INT64_MAX: int := 0x7fff_ffff_ffff_ffff

  predicate IsDigit(c: char) {
    '0' <= c <= '9'
  }

  predicate AllDigits(s: string) {
    s == [] || (IsDigit(s[|s| - 1]) && AllDigits(s[..|s| - 1]))
  }

  lemma {:induction false} EveryDigit(s: string)
    ensures AllDigits(s) <==> forall i | 0 <= i < |s| :: IsDigit(s[i])
  {
    if s != [] {
      EveryDigit(s[..|s| - 1]);
      assert forall i | 0 <= i < |s| - 1 :: s[..|s| - 1][i] == s[i];
    }
  }

  lemma DigitsJoin(a: string, b: string)
    requires AllDigits(a) && AllDigits(b)
    ensures AllDigits(a + b)
  {
    EveryDigit(a);
    EveryDigit(b);
    EveryDigit(a + b);
  }

  lemma DigitsSplit(s: string, k: nat)
    requires k <= |s| && AllDigits(s)
    ensures AllDigits(s[..k]) && AllDigits(s[k..])
  {
    EveryDigit(s);
    EveryDigit(s[..k]);
    EveryDigit(s[k..]);
  }

  function DigitValue(c: char): nat
    requires IsDigit(c)
  {
    c as int - '0' as int
  }

  /** A whole number as a number of billionths: times SCALE. */
  function Scaled(n: nat): nat {
    1_000_000_000 * n
  }

  /** v * 10^k: v with k zeros written behind it. */
  function Shifted(v: nat, k: nat): nat {
    if k == 0 then v else 10 * Shifted(v, k - 1)
  }

  function Min(a: nat, b: nat): nat {
    if a < b then a else b
  }

  /** The number written by the digits of s; other characters are ignored. */
  function Value(s: string): nat {
    if s == [] then 0 else
      var c := s[|s| - 1];
      if IsDigit(c) then 10 * Value(s[..|s| - 1]) + DigitValue(c) else Value(s[..|s| - 1])
  }

  /** The digits of s. */
  function Digits(s: string): string {
    if s == [] then [] else
      Digits(s[..|s| - 1]) + if IsDigit(s[|s| - 1]) then [s[|s| - 1]] else []
  }

  /** The index of the first decimal point, or |s|. */
  function FindDot(s: string): (i: nat)
    ensures i <= |s| && (i < |s| ==> s[i] == '.') && '.' !in s[..i]
  {
    if s == [] then 0 else if s[0] == '.' then 0 else
      var i := 1 + FindDot(s[1..]);
      assert s[..i] == [s[0]] + s[1..][..i - 1];
      i
  }

  /** The digits of a fraction that count: the first nine. */
  function Kept(s: string): string {
    Digits(s)[..Min(9, |Digits(s)|)]
  }

  /** The first nine of some digits, as a number of billionths. */
  function FirstNine(digits: string): nat {
    var k := Min(9, |digits|);
    Shifted(Value(digits[..k]), 9 - k)
  }

  /** A fraction as a number of billionths. */
  function Billionths(fraction: string): nat {
    FirstNine(Digits(fraction))
  }

  function Magnitude(s: string): nat {
    var dot := FindDot(s);
    Scaled(Value(s[..dot])) + if dot < |s| then Billionths(s[dot + 1..]) else 0
  }

  function Unsigned(s: string): string {
    if s != [] && s[0] == '-' then s[1..] else s
  }

  /** What from_string computes. */
  function Parse(s: string): int {
    if s != [] && s[0] == '-' then -(Magnitude(s[1..]) as int) else Magnitude(s)
  }

  /** The caller's side of the parser: the number fits. */
  predicate Fits(s: string) {
    Magnitude(Unsigned(s)) <= INT64_MAX
  }

  // ---------------------------------------------------------------- the parser

  lemma {:induction false} ValuePrefix(s: string, i: nat)
    requires i <= |s|
    ensures Value(s[..i]) <= Value(s)
  {
    if i < |s| {
      ValuePrefix(s[..|s| - 1], i);
      assert s[..|s| - 1][..i] == s[..i];
    } else {
      assert s[..i] == s;
    }
  }

  lemma {:induction false} ValueBound(s: string)
    ensures Value(s) < Shifted(1, |Digits(s)|) && |Digits(s)| <= |s|
  {
    if s != [] {
      ValueBound(s[..|s| - 1]);
    }
  }

  lemma {:induction false} DigitsPrefix(s: string, i: nat)
    requires i <= |s|
    ensures Digits(s[..i]) <= Digits(s)
  {
    if i < |s| {
      DigitsPrefix(s[..|s| - 1], i);
      assert s[..|s| - 1][..i] == s[..i];
    } else {
      assert s[..i] == s;
    }
  }

  lemma {:induction false} OnlyDigits(s: string)
    ensures AllDigits(Digits(s))
  {
    if s != [] {
      var kept, c := Digits(s[..|s| - 1]), s[|s| - 1];
      OnlyDigits(s[..|s| - 1]);
      if IsDigit(c) {
        assert Digits(s) == kept + [c] && Digits(s)[..|kept|] == kept;
      } else {
        assert Digits(s) == kept;
      }
    }
  }

  lemma {:induction false} DigitsKept(s: string)
    requires AllDigits(s)
    ensures Digits(s) == s
  {
    if s != [] {
      DigitsKept(s[..|s| - 1]);
      assert s == s[..|s| - 1] + [s[|s| - 1]];
    }
  }

  method ParseInteger(s: string) returns (v: int64)
    requires Value(s) <= INT64_MAX
    ensures v as int == Value(s)
  {
    v := 0;
    for i := 0 to |s|
      invariant v as int == Value(s[..i])
    {
      assert s[..i + 1][..i] == s[..i];
      ValuePrefix(s, i + 1);
      if '0' <= s[i] <= '9' {
        v := v * 10 + (s[i] as int - '0' as int) as int64;
      }
    }
    assert s[..|s|] == s;
  }

  method ParseFraction(s: string) returns (v: int64, places: int64)
    ensures v as int == Value(Kept(s)) && places as int == |Kept(s)| <= 9
    ensures Value(Kept(s)) < Shifted(1, |Kept(s)|)
  {
    v, places := 0, 0;
    KeptBound(s[..0]);
    for i := 0 to |s|
      invariant v as int == Value(Kept(s[..i])) && places as int == |Kept(s[..i])| <= 9
      invariant v as int < Shifted(1, places as int)
    {
      KeptStep(s, i);
      KeptBound(s[..i + 1]);
      NinePlaces(v as int, places as int, 0);
      if '0' <= s[i] <= '9' && places < 9 {
        v := v * 10 + (s[i] as int - '0' as int) as int64;
        places := places + 1;
      }
    }
    assert s[..|s|] == s;
  }

  lemma KeptStep(s: string, i: nat)
    requires i < |s|
    ensures Kept(s[..i + 1]) ==
      if IsDigit(s[i]) && |Kept(s[..i])| < 9 then Kept(s[..i]) + [s[i]] else Kept(s[..i])
  {
    assert s[..i + 1][..i] == s[..i];
  }

  lemma KeptBound(s: string)
    ensures |Kept(s)| <= 9 && Value(Kept(s)) < Shifted(1, |Kept(s)|)
  {
    OnlyDigits(s);
    DigitsSplit(Digits(s), |Kept(s)|);
    DigitsKept(Kept(s));
    ValueBound(Kept(s));
  }

  lemma {:induction false} ShiftSum(a: nat, b: nat, k: nat)
    ensures Shifted(a + b, k) == Shifted(a, k) + Shifted(b, k)
  {
    if k > 0 {
      ShiftSum(a, b, k - 1);
    }
  }

  lemma ShiftMonotone(a: nat, b: nat, k: nat)
    requires a <= b
    ensures Shifted(a, k) <= Shifted(b, k)
  {
    ShiftSum(a, b - a, k);
  }

  lemma {:induction false} ShiftShift(a: nat, j: nat, k: nat)
    ensures Shifted(Shifted(a, j), k) == Shifted(a, j + k)
  {
    if k > 0 {
      ShiftShift(a, j, k - 1);
    }
  }

  lemma {:induction false} ShiftScale(a: nat, k: nat)
    ensures Shifted(Scaled(a), k) == Scaled(Shifted(a, k))
  {
    if k > 0 {
      ShiftScale(a, k - 1);
    }
  }

  lemma ShiftNine(a: nat)
    ensures Shifted(a, 9) == Scaled(a)
  {
    assert Shifted(a, 1) == 10 * a;
    assert Shifted(a, 2) == 100 * a;
    assert Shifted(a, 4) == 10_000 * a;
    assert Shifted(a, 6) == 1_000_000 * a;
    assert Shifted(a, 8) == 100_000_000 * a;
  }

  /** A number of k <= 9 digits stays below 10^9 when it is padded to nine places. */
  lemma NinePlaces(f: nat, k: nat, j: nat)
    requires k + j <= 9 && f < Shifted(1, k)
    ensures Shifted(f, j) < Shifted(1, k + j) <= 1_000_000_000
  {
    ShiftMonotone(f + 1, Shifted(1, k), j);
    ShiftSum(f, 1, j);
    ShiftShift(1, k, j);
    ShiftShift(1, k + j, 9 - (k + j));
    ShiftNine(1);
    ShiftGrows(1, j);
    ShiftGrows(Shifted(1, k + j), 9 - (k + j));
  }

  lemma {:induction false} ShiftGrows(a: nat, k: nat)
    ensures a <= Shifted(a, k)
  {
    if k > 0 {
      ShiftGrows(a, k - 1);
    }
  }

  lemma MagnitudeSum(s: string)
    ensures var dot := FindDot(s);
      && Scaled(Value(s[..dot])) <= Magnitude(s)
      && Magnitude(s) == Scaled(Value(s[..dot]))
        + if dot < |s| then Shifted(Value(Kept(s[dot + 1..])), 9 - |Kept(s[dot + 1..])|) else 0
  {
  }

  lemma NoDigits()
    ensures Value("") == 0
  {
  }

  lemma KeptOfNothing()
    ensures |Kept("")| == 0 && Value(Kept("")) == 0 && Shifted(0, 9) == 0
  {
    ShiftNine(0);
  }

  method FromString(s: string) returns (price: int64)
    requires Fits(s)
    ensures price as int == Parse(s)
  {
    hide Value, Kept, Magnitude, Shifted, FindDot;
    KeptOfNothing();
    if s == "" {
      MagnitudeSum(s);
      assert s[..FindDot(s)] == "";
      NoDigits();
      return 0;
    }
    var str := s;
    var negative := false;
    if str[0] == '-' {
      negative := true;
      str := str[1..];
    }
    var dot := FindDot(str);
    var hasDecimal := dot < |str|;
    MagnitudeSum(str);
    var integerPart := ParseInteger(str[..dot]);
    var fractionalPart, decimalPlaces := 0, 0;
    if hasDecimal && dot + 1 < |str| {
      fractionalPart, decimalPlaces := ParseFraction(str[dot + 1..]);
    }
    assert hasDecimal && dot + 1 == |str| ==> str[dot + 1..] == "";
    assert Magnitude(str) == Scaled(integerPart as int) + Shifted(fractionalPart as int, 9 - decimalPlaces as int);
    var finalValue := integerPart * 1_000_000_000;
    if decimalPlaces > 0 {
      fractionalPart := PadFraction(fractionalPart, decimalPlaces);
      finalValue := finalValue + fractionalPart;
    }
    if negative {
      finalValue := -finalValue;
    }
    return finalValue;
  }

  method PadFraction(fraction: int64, places: int64) returns (padded: int64)
    requires 0 <= places <= 9 && 0 <= fraction as int < Shifted(1, places as int)
    ensures padded as int == Shifted(fraction as int, 9 - places as int)
  {
    padded := fraction;
    var i := places;
    while i < 9
      invariant places <= i <= 9
      invariant padded as int == Shifted(fraction as int, i as int - places as int)
    {
      NinePlaces(fraction as int, places as int, i as int - places as int);
      padded := padded * 10;
      i := i + 1;
    }
  }

  // ---------------------------------------------------------------- the printer

  function DigitChar(d: nat): (c: char)
    requires d < 10
    ensures IsDigit(c) && DigitValue(c) == d
  {
    '0' + d as char
  }

  /** The decimal digits of n, none for zero. */
  function DigitsOf(n: nat): string {
    if n == 0 then "" else DigitsOf(n / 10) + [DigitChar(n % 10)]
  }

  function Decimal(n: nat): string {
    if n == 0 then "0" else DigitsOf(n)
  }

  function Zeros(k: nat): string {
    seq(k, _ => '0')
  }

  /** With leading zeros up to nine digits. */
  function Pad9(s: string): string {
    if |s| < 9 then Zeros(9 - |s|) + s else s
  }

  function TrimZeros(s: string): string {
    if s != [] && s[|s| - 1] == '0' then TrimZeros(s[..|s| - 1]) else s
  }

  function PrintMagnitude(m: nat): string {
    var fraction := m % 1_000_000_000;
    Decimal(m / 1_000_000_000) + if fraction > 0 then "." + TrimZeros(Pad9(DigitsOf(fraction))) else ""
  }

  /** What to_string returns. */
  function Print(v: int): string {
    if v == 0 then "0" else if v < 0 then "-" + PrintMagnitude(-v) else PrintMagnitude(v)
  }

  lemma NextDigit(rest: nat, result: string)
    requires rest > 0
    ensures DigitsOf(rest / 10) + ([DigitChar(rest % 10)] + result) == DigitsOf(rest) + result
  {
  }

  lemma NoDigitsOfZero()
    ensures DigitsOf(0) == ""
  {
  }

  method Int64ToString(value: int64) returns (result: string)
    requires value != INT64_MIN
    ensures result == if value < 0 then "-" + Decimal(-(value as int)) else Decimal(value as int)
  {
    if value == 0 {
      return "0";
    }
    hide DigitsOf;
    NoDigitsOfZero();
    var negative := value < 0;
    var rest := if negative then -value else value;
    ghost var m := rest as int;
    result := "";
    assert DigitsOf(m) + result == DigitsOf(m);
    while rest > 0
      invariant 0 <= rest && DigitsOf(rest as int) + result == DigitsOf(m)
    {
      NextDigit(rest as int, result);
      result := [DigitChar((rest % 10) as int)] + result;
      rest := rest / 10;
    }
    if negative {
      result := "-" + result;
    }
  }

  lemma PrintParts(v: int)
    ensures var m: nat := if v < 0 then -v else v;
      var body := Decimal(m / 1_000_000_000)
        + if m % 1_000_000_000 > 0 then "." + TrimZeros(Pad9(DigitsOf(m % 1_000_000_000))) else "";
      Print(v) == if v < 0 then "-" + body else body
  {
  }

  lemma NothingPrinted()
    ensures Print(0) == "0"
  {
  }

  method ToString(value: int64) returns (result: string)
    requires value != INT64_MIN
    ensures result == Print(value as int)
  {
    hide Print, PrintMagnitude, Pad9, TrimZeros, DigitsOf;
    PrintParts(value as int);
    if value == 0 {
      NothingPrinted();
      return "0";
    }
    var negative := value < 0;
    var absValue := if negative then -value else value;
    var integerPart := absValue / 1_000_000_000;
    var fractionalPart := absValue % 1_000_000_000;
    result := "";
    if negative {
      result := result + "-";
    }
    ghost var sign := result;
    var text := Int64ToString(integerPart);
    result := result + text;
    if fractionalPart > 0 {
      result := result + ".";
      var fraction := Int64ToString(fractionalPart);
      fraction := PadAndTrim(fraction);
      assert ((sign + text) + ".") + fraction == sign + (text + ("." + fraction));
      result := result + fraction;
    }
  }

  method PadAndTrim(digits: string) returns (fraction: string)
    ensures fraction == TrimZeros(Pad9(digits))
  {
    hide Zeros, Pad9, TrimZeros;
    fraction := digits;
    ghost var k := 0;
    NoZeros(digits);
    while |fraction| < 9
      invariant fraction == Zeros(k) + digits && |fraction| == k + |digits|
      invariant k > 0 ==> |fraction| <= 9
    {
      OneMoreZero(k, digits);
      fraction := "0" + fraction;
      k := k + 1;
    }
    PaddedIs(digits, k);
    while fraction != "" && fraction[|fraction| - 1] == '0'
      invariant TrimZeros(fraction) == TrimZeros(Pad9(digits))
      decreases |fraction|
    {
      TrimStep(fraction);
      fraction := fraction[..|fraction| - 1];
    }
    TrimStep(fraction);
  }

  lemma NoZeros(digits: string)
    ensures Zeros(0) + digits == digits
  {
  }

  lemma OneMoreZero(k: nat, digits: string)
    ensures "0" + (Zeros(k) + digits) == Zeros(k + 1) + digits
  {
  }

  lemma PaddedIs(digits: string, k: nat)
    requires k + |digits| >= 9 && (k > 0 ==> k + |digits| <= 9)
    ensures Zeros(k) + digits == Pad9(digits)
  {
  }

  lemma TrimStep(s: string)
    ensures TrimZeros(s) == if s != "" && s[|s| - 1] == '0' then TrimZeros(s[..|s| - 1]) else s
  {
  }

  // ---------------------------------------------------------------- round trip

  lemma {:induction false} ValueDigitsOf(n: nat)
    ensures Value(DigitsOf(n)) == n && AllDigits(DigitsOf(n))
  {
    if n > 0 {
      ValueDigitsOf(n / 10);
      var s := DigitsOf(n);
      assert s[..|s| - 1] == DigitsOf(n / 10);
    }
  }

  lemma {:induction false} ValueConcat(a: string, b: string)
    requires AllDigits(b)
    ensures Value(a + b) == Shifted(Value(a), |b|) + Value(b)
  {
    if b == [] {
      assert a + b == a;
    } else {
      ValueConcat(a, b[..|b| - 1]);
      assert (a + b)[..|a + b| - 1] == a + b[..|b| - 1];
    }
  }

  lemma {:induction false} ZerosValue(k: nat)
    ensures Value(Zeros(k)) == 0
  {
    if k > 0 {
      ZerosValue(k - 1);
      assert Zeros(k)[..k - 1] == Zeros(k - 1);
    }
  }

  lemma {:induction false} DigitsOfLength(n: nat, k: nat)
    requires n < Shifted(1, k)
    ensures |DigitsOf(n)| <= k
  {
    if n > 0 {
      DigitsOfLength(n / 10, k - 1);
    }
  }

  lemma {:induction false} TrimZerosValue(s: string)
    requires AllDigits(s) && |s| <= 9
    ensures AllDigits(TrimZeros(s)) && |TrimZeros(s)| <= |s|
    ensures Shifted(Value(TrimZeros(s)), 9 - |TrimZeros(s)|) == Shifted(Value(s), 9 - |s|)
  {
    if s != [] && s[|s| - 1] == '0' {
      var t := s[..|s| - 1];
      TrimZerosValue(t);
      assert Value(s) == 10 * Value(t) && TrimZeros(s) == TrimZeros(t);
      ShiftShift(Value(t), 1, 9 - |s|);
      assert Shifted(Value(t), 1) == 10 * Value(t);
    }
  }

  lemma Pad9Value(fraction: nat)
    requires fraction < 1_000_000_000
    ensures var padded := Pad9(DigitsOf(fraction));
      AllDigits(padded) && |padded| == 9 && Value(padded) == fraction
  {
    hide Shifted, Value, AllDigits, DigitsOf;
    var digits := DigitsOf(fraction);
    ShiftNine(1);
    DigitsOfLength(fraction, 9);
    ValueDigitsOf(fraction);
    var zeros := Zeros(9 - |digits|);
    ZerosValue(9 - |digits|);
    ValueConcat(zeros, digits);
    ShiftSum(0, 0, |digits|);
    EveryDigit(zeros);
    DigitsJoin(zeros, digits);
    assert Pad9(digits) == zeros + digits;
  }

  lemma FractionRoundTrip(fraction: nat)
    requires fraction < 1_000_000_000
    ensures Billionths(TrimZeros(Pad9(DigitsOf(fraction)))) == fraction
  {
    Pad9Value(fraction);
    var padded := Pad9(DigitsOf(fraction));
    TrimZerosValue(padded);
    var trimmed := TrimZeros(padded);
    DigitsKept(trimmed);
    assert trimmed[..|trimmed|] == trimmed;
  }

  lemma {:induction false} NoDotInDigits(a: string, rest: string)
    requires AllDigits(a) && (rest == "" || rest[0] == '.')
    ensures FindDot(a + rest) == |a|
  {
    if a == [] {
      assert a + rest == rest;
    } else {
      EveryDigit(a);
      DigitsSplit(a, 1);
      NoDotInDigits(a[1..], rest);
      assert (a + rest)[1..] == a[1..] + rest;
    }
  }

  lemma MagnitudeParts(a: string, fraction: string, point: bool)
    requires AllDigits(a) && (!point ==> fraction == "")
    ensures Magnitude(a + (if point then "." + fraction else "")) == Scaled(Value(a)) + Billionths(fraction)
  {
    var rest := if point then "." + fraction else "";
    var s := a + rest;
    NoDotInDigits(a, rest);
    assert s[..|a|] == a;
    if point {
      assert s[|a| + 1..] == fraction;
    }
  }

  lemma MagnitudeRoundTrip(m: nat)
    requires m > 0
    ensures Magnitude(PrintMagnitude(m)) == m && PrintMagnitude(m) != [] && PrintMagnitude(m)[0] != '-'
  {
    var whole, fraction := m / 1_000_000_000, m % 1_000_000_000;
    ValueDigitsOf(whole);
    assert Value("0") == 0 by { assert "0"[..0] == ""; }
    assert Value(Decimal(whole)) == whole && AllDigits(Decimal(whole)) && Decimal(whole) != [];
    FractionRoundTrip(fraction);
    EveryDigit(Decimal(whole));
    var text := if fraction > 0 then TrimZeros(Pad9(DigitsOf(fraction))) else "";
    MagnitudeParts(Decimal(whole), text, fraction > 0);
  }

  /** from_string reads back what to_string wrote, for every raw value but the least one. */
  lemma RoundTrip(v: int64)
    requires v != INT64_MIN
    ensures Fits(Print(v as int)) && Parse(Print(v as int)) == v as int
  {
    if v == 0 {
      assert FindDot("0") == 1 && "0"[..1] == "0" && "0"[..0] == "";
    } else {
      var m := if v < 0 then -(v as int) else v as int;
      MagnitudeRoundTrip(m);
      if v < 0 {
        assert Print(v as int)[1..] == PrintMagnitude(m);
      }
    }
  }

  /** Distinct prices print differently. */
  lemma PrintInjective(v: int64, w: int64)
    requires v != INT64_MIN && w != INT64_MIN && Print(v as int) == Print(w as int)
    ensures v == w
  {
    RoundTrip(v);
    RoundTrip(w);
  }

  // ---------------------------------------------------------------- decimal numbers

  /** A decimal number as written: sign, integer digits, and after an optional point any number of digits. */
  datatype Number = Number(negative: bool, integer: string, point: bool, fraction: string)

  ghost predicate WellFormed(d: Number) {
    AllDigits(d.integer) && AllDigits(d.fraction) && (!d.point ==> d.fraction == "")
  }

  function Body(d: Number): string {
    d.integer + if d.point then "." + d.fraction else ""
  }

  function Text(d: Number): string {
    if d.negative then "-" + Body(d) else Body(d)
  }

  /** The number is Numerator / 10^|fraction|, signed. */
  function Numerator(d: Number): nat {
    Value(d.integer + d.fraction)
  }

  /** The magnitude in billionths that the parser gives a number. */
  function InBillionths(d: Number): nat {
    Scaled(Value(d.integer)) + FirstNine(d.fraction)
  }

  lemma BodyMagnitude(d: Number)
    requires WellFormed(d)
    ensures Magnitude(Body(d)) == InBillionths(d)
  {
    MagnitudeParts(d.integer, d.fraction, d.point);
    DigitsKept(d.fraction);
  }

  lemma BodyUnsigned(d: Number)
    requires AllDigits(d.integer)
    ensures Body(d) != [] ==> Body(d)[0] != '-'
  {
    EveryDigit(d.integer);
    if d.integer != [] {
      assert Body(d)[0] == d.integer[0];
    }
  }

  lemma TextMagnitude(d: Number)
    requires WellFormed(d)
    ensures Parse(Text(d)) == if d.negative then -(InBillionths(d) as int) else InBillionths(d)
    ensures Magnitude(Unsigned(Text(d))) == InBillionths(d)
  {
    hide Magnitude, InBillionths, AllDigits, Body;
    BodyMagnitude(d);
    BodyUnsigned(d);
    assert d.negative ==> Text(d)[1..] == Body(d);
  }

  lemma ShortFraction(fraction: string)
    requires |fraction| <= 9
    ensures Shifted(FirstNine(fraction), |fraction|) == Scaled(Value(fraction))
  {
    assert fraction[..|fraction|] == fraction;
    ShiftShift(Value(fraction), 9 - |fraction|, |fraction|);
    ShiftNine(Value(fraction));
  }

  /** Cutting off all but the first nine digits. */
  lemma LongFraction(fraction: string)
    requires AllDigits(fraction) && |fraction| > 9
    ensures var h := FirstNine(fraction);
      Shifted(h, |fraction|) <= Scaled(Value(fraction)) < Shifted(h + 1, |fraction|)
  {
    var k, head, cut := |fraction| - 9, fraction[..9], fraction[9..];
    CutValue(fraction);
    var h := Value(head);
    ShiftSum(h, 1, k);
    ShiftShift(h, k, 9);
    ShiftShift(h + 1, k, 9);
    ShiftNine(Shifted(h, k));
    ShiftNine(Shifted(h + 1, k));
  }

  lemma CutValue(fraction: string)
    requires AllDigits(fraction) && |fraction| > 9
    ensures Value(fraction) == Shifted(Value(fraction[..9]), |fraction| - 9) + Value(fraction[9..])
    ensures Value(fraction[9..]) < Shifted(1, |fraction| - 9)
  {
    DigitsSplit(fraction, 9);
    DigitsKept(fraction[9..]);
    ValueConcat(fraction[..9], fraction[9..]);
    ValueBound(fraction[9..]);
    assert fraction == fraction[..9] + fraction[9..];
  }

  lemma FractionTruncates(fraction: string)
    requires AllDigits(fraction)
    ensures var b := FirstNine(fraction);
      Shifted(b, |fraction|) <= Scaled(Value(fraction)) < Shifted(b + 1, |fraction|)
  {
    if |fraction| <= 9 {
      ShortFraction(fraction);
      ShiftSum(FirstNine(fraction), 1, |fraction|);
      ShiftGrows(1, |fraction|);
    } else {
      LongFraction(fraction);
    }
  }

  lemma AddWhole(i: nat, b: nat, f: nat, k: nat)
    requires Shifted(b, k) <= Scaled(f) < Shifted(b + 1, k)
    ensures Shifted(Scaled(i) + b, k) <= Scaled(Shifted(i, k) + f) < Shifted(Scaled(i) + b + 1, k)
  {
    ShiftScale(i, k);
    ShiftSum(Scaled(i), b, k);
    ShiftSum(Scaled(i), b + 1, k);
  }

  lemma MagnitudeTruncates(d: Number)
    requires AllDigits(d.fraction)
    ensures var m := InBillionths(d);
      Shifted(m, |d.fraction|) <= Scaled(Numerator(d)) < Shifted(m + 1, |d.fraction|)
  {
    hide Shifted, Value, AllDigits, FirstNine, Scaled;
    ValueConcat(d.integer, d.fraction);
    FractionTruncates(d.fraction);
    AddWhole(Value(d.integer), FirstNine(d.fraction), Value(d.fraction), |d.fraction|);
  }

  /** The parsed magnitude m is the written number times 10^9 cut off toward zero: m <= number * 10^9 < m + 1,
      whatever the number of fractional digits and leading zeros. */
  lemma ParseTruncates(d: Number)
    requires WellFormed(d)
    ensures var m := InBillionths(d);
      && Parse(Text(d)) == (if d.negative then -(m as int) else m)
      && Shifted(m, |d.fraction|) <= Scaled(Numerator(d)) < Shifted(m + 1, |d.fraction|)
  {
    TextMagnitude(d);
    MagnitudeTruncates(d);
  }

  lemma {:induction false} DigitsCount(s: string)
    ensures Value(Digits(s)) == Value(s)
  {
    if s != [] {
      var kept, c := Digits(s[..|s| - 1]), s[|s| - 1];
      DigitsCount(s[..|s| - 1]);
      if IsDigit(c) {
        assert Digits(s) == kept + [c] && Digits(s)[..|kept|] == kept;
      } else {
        assert Digits(s) == kept;
      }
    }
  }

  /** Any text, however malformed, reads as the number made of a leading minus sign, the digits before the first point, and
      the digits after it; every other character is passed over. */
  lemma JunkIsIgnored(s: string) returns (d: Number)
    ensures WellFormed(d) && Parse(Text(d)) == Parse(s)
    ensures var body := Unsigned(s);
      var dot := FindDot(body);
      && d.negative == (s != "" && s[0] == '-')
      && d.integer == Digits(body[..dot])
      && d.point == (dot < |body|)
      && d.fraction == if dot < |body| then Digits(body[dot + 1..]) else ""
  {
    hide Value, Digits, FirstNine, AllDigits, FindDot, Text, Scaled;
    var body := Unsigned(s);
    var dot := FindDot(body);
    var fraction := if dot < |body| then body[dot + 1..] else "";
    NothingAfterThePoint();
    NothingKept();
    OnlyDigits(body[..dot]);
    OnlyDigits(fraction);
    DigitsCount(body[..dot]);
    d := Number(s != "" && s[0] == '-', Digits(body[..dot]), dot < |body|, Digits(fraction));
    TextMagnitude(d);
  }

  lemma NothingKept()
    ensures Digits("") == ""
  {
  }

  /** From m1 <= n1 S / 10^k1, n2 S / 10^k2 < m2 + 1 and n1 / 10^k1 <= n2 / 10^k2, in whole numbers. */
  lemma FloorMonotone(m1: nat, n1: nat, k1: nat, m2: nat, n2: nat, k2: nat)
    requires Shifted(m1, k1) <= Scaled(n1) && Scaled(n2) < Shifted(m2 + 1, k2)
    requires Shifted(n1, k2) <= Shifted(n2, k1)
    ensures m1 <= m2
  {
    calc {
      Shifted(m1, k1 + k2);
    == { ShiftShift(m1, k1, k2); }
      Shifted(Shifted(m1, k1), k2);
    <= { ShiftMonotone(Shifted(m1, k1), Scaled(n1), k2); }
      Shifted(Scaled(n1), k2);
    == { ShiftScale(n1, k2); }
      Scaled(Shifted(n1, k2));
    <=
      Scaled(Shifted(n2, k1));
    == { ShiftScale(n2, k1); }
      Shifted(Scaled(n2), k1);
    <  { ShiftMonotone(Scaled(n2) + 1, Shifted(m2 + 1, k2), k1); ShiftSum(Scaled(n2), 1, k1); ShiftGrows(1, k1); }
      Shifted(Shifted(m2 + 1, k2), k1);
    == { ShiftShift(m2 + 1, k2, k1); }
      Shifted(m2 + 1, k1 + k2);
    }
    if m2 + 1 <= m1 {
      ShiftMonotone(m2 + 1, m1, k1 + k2);
    }
  }

  /** The order of two written numbers, compared over a common denominator. */
  ghost predicate AtMost(d: Number, e: Number) {
    var n, n' := Shifted(Numerator(d), |e.fraction|), Shifted(Numerator(e), |d.fraction|);
    (if d.negative then -(n as int) else n) <= (if e.negative then -(n' as int) else n')
  }

  /** A larger number is never parsed to a smaller price. */
  lemma ParseMonotone(d: Number, e: Number)
    requires WellFormed(d) && WellFormed(e) && AtMost(d, e)
    ensures Parse(Text(d)) <= Parse(Text(e))
  {
    TextMagnitude(d);
    TextMagnitude(e);
    MagnitudeOrder(d, e);
  }

  lemma MagnitudeOrder(d: Number, e: Number)
    requires AllDigits(d.fraction) && AllDigits(e.fraction) && AtMost(d, e)
    ensures var m, m' := InBillionths(d) as int, InBillionths(e) as int;
      (if d.negative then -m else m) <= (if e.negative then -m' else m')
  {
    MagnitudeTruncates(d);
    MagnitudeTruncates(e);
    var m, n, k := InBillionths(d), Numerator(d), |d.fraction|;
    var m', n', k' := InBillionths(e), Numerator(e), |e.fraction|;
    if !d.negative && !e.negative {
      FloorMonotone(m, n, k, m', n', k');
    } else if d.negative && e.negative {
      FloorMonotone(m', n', k', m, n, k);
    } else if !d.negative {
      ShiftGrows(n, k');
      ShiftGrows(n', k);
      ShiftGrows(m, k);
      ShiftGrows(m', k');
    }
  }

  // ---------------------------------------------------------------- the printed form

  /** The number with the fewest characters that any reader expects: no superfluous zero on either side of the point, no
      point without digits, no sign on zero. */
  ghost predicate Canonical(d: Number) {
    && WellFormed(d)
    && d.integer != "" && (d.integer[0] == '0' ==> d.integer == "0")
    && (d.point ==> 1 <= |d.fraction| <= 9 && d.fraction[|d.fraction| - 1] != '0')
    && (d.negative ==> Numerator(d) > 0)
  }

  lemma {:induction false} NoLeadingZero(n: nat)
    requires n > 0
    ensures DigitsOf(n) != "" && DigitsOf(n)[0] != '0'
  {
    if n >= 10 {
      NoLeadingZero(n / 10);
    } else {
      assert DigitValue(DigitChar(n)) == n;
    }
  }

  lemma {:induction false} NoTrailingZero(s: string)
    ensures TrimZeros(s) != "" ==> TrimZeros(s)[|TrimZeros(s)| - 1] != '0'
  {
    if s != "" && s[|s| - 1] == '0' {
      NoTrailingZero(s[..|s| - 1]);
    }
  }

  /** The fraction digits that are printed: some, nine at most, the last of them not zero. */
  lemma PrintedFraction(fraction: nat)
    requires 0 < fraction < 1_000_000_000
    ensures var text := TrimZeros(Pad9(DigitsOf(fraction)));
      && AllDigits(text) && 1 <= |text| <= 9 && text[|text| - 1] != '0' && FirstNine(text) == fraction
  {
    hide Pad9, DigitsOf, TrimZeros;
    FractionRoundTrip(fraction);
    Pad9Value(fraction);
    TrimZerosValue(Pad9(DigitsOf(fraction)));
    NoTrailingZero(Pad9(DigitsOf(fraction)));
    var text := TrimZeros(Pad9(DigitsOf(fraction)));
    DigitsKept(text);
    assert text == "" ==> FirstNine(text) == 0 by {
      ShiftNine(0);
    }
  }

  lemma PrintedWhole(whole: nat)
    ensures var text := Decimal(whole);
      AllDigits(text) && text != "" && (text[0] == '0' ==> text == "0") && Value(text) == whole
  {
    ValueDigitsOf(whole);
    if whole > 0 {
      NoLeadingZero(whole);
    } else {
      assert "0"[..0] == "";
    }
  }

  /** Every price prints as a canonical number, which has a point exactly when the price is not whole. */
  lemma PrintIsCanonical(v: int64) returns (d: Number)
    requires v != INT64_MIN
    ensures Canonical(d) && Text(d) == Print(v as int)
    ensures d.negative <==> v < 0
    ensures d.point <==> v as int % 1_000_000_000 != 0
    ensures Scaled(Value(d.integer)) + FirstNine(d.fraction) == if v < 0 then -(v as int) else v as int
  {
    hide DigitsOf, Decimal, Pad9, TrimZeros, Value, AllDigits, FirstNine;
    var m: nat := if v < 0 then -(v as int) else v as int;
    var whole, fraction := m / 1_000_000_000, m % 1_000_000_000;
    PrintedWhole(whole);
    NothingAfterThePoint();
    var text := "";
    if fraction > 0 {
      PrintedFraction(fraction);
      text := TrimZeros(Pad9(DigitsOf(fraction)));
    }
    d := Number(v < 0, Decimal(whole), fraction > 0, text);
    PrintParts(v as int);
    if v < 0 {
      NumeratorPositive(d);
    }
  }

  lemma NothingAfterThePoint()
    ensures AllDigits("") && FirstNine("") == 0
  {
    ShiftNine(0);
  }

  /** A number that counts as positive billionths is not zero. */
  lemma NumeratorPositive(d: Number)
    requires AllDigits(d.fraction) && InBillionths(d) > 0
    ensures Numerator(d) > 0
  {
    hide Shifted;
    MagnitudeTruncates(d);
    ShiftGrows(InBillionths(d), |d.fraction|);
  }

  lemma {:induction false} ShiftInjective(a: nat, b: nat, k: nat)
    requires Shifted(a, k) == Shifted(b, k)
    ensures a == b
  {
    if k > 0 {
      ShiftInjective(a, b, k - 1);
    }
  }

  lemma LastDigit(a: string)
    requires AllDigits(a) && a != "" && a[|a| - 1] != '0'
    ensures Value(a) % 10 != 0
  {
    TensAndUnits(Value(a[..|a| - 1]), DigitValue(a[|a| - 1]));
  }

  lemma TensAndUnits(tens: nat, units: nat)
    requires units < 10
    ensures (10 * tens + units) % 10 == units && (10 * tens + units) / 10 == tens
  {
  }

  lemma ShiftedEnds(v: nat, k: nat)
    requires k > 0
    ensures Shifted(v, k) % 10 == 0
  {
  }

  lemma FirstNineShort(s: string)
    requires |s| <= 9
    ensures FirstNine(s) == Shifted(Value(s), 9 - |s|)
  {
    assert s[..|s|] == s;
  }

  /** Of two fractions of the same size the one without a zero at its end is not longer. */
  lemma NoZeroIsShorter(a: string, b: string)
    requires AllDigits(a) && AllDigits(b) && 1 <= |a| <= 9
    requires a[|a| - 1] != '0' && FirstNine(a) == FirstNine(b)
    ensures |a| <= |b|
  {
    hide Shifted, Value, FirstNine, AllDigits;
    if |b| < |a| {
      var d := |a| - |b|;
      FirstNineShort(a);
      FirstNineShort(b);
      ShiftShift(Value(b), d, 9 - |a|);
      ShiftInjective(Value(a), Shifted(Value(b), d), 9 - |a|);
      LastDigit(a);
      ShiftedEnds(Value(b), d);
    }
  }

  lemma NineDigitsBelowOne(fraction: string)
    requires AllDigits(fraction)
    ensures FirstNine(fraction) < 1_000_000_000
  {
    hide Value, Shifted, Digits, AllDigits;
    var k := Min(9, |fraction|);
    DigitsSplit(fraction, k);
    DigitsKept(fraction[..k]);
    ValueBound(fraction[..k]);
    NinePlaces(Value(fraction[..k]), k, 9 - k);
  }

  /** The printed text is a shortest one: no decimal number with a digit before the point that reads as the same price has
      fewer characters. */
  lemma PrintIsShortest(v: int64, e: Number)
    requires v != INT64_MIN && WellFormed(e) && e.integer != "" && Parse(Text(e)) == v as int
    ensures |Print(v as int)| <= |Text(e)|
  {
    hide Print, FirstNine, Value, AllDigits, Parse, Scaled, Text, Numerator;
    var d := PrintIsCanonical(v);
    TextMagnitude(e);
    NineDigitsBelowOne(d.fraction);
    NineDigitsBelowOne(e.fraction);
    TextLength(d);
    TextLength(e);
    SplitIsUnique(Value(d.integer), FirstNine(d.fraction), Value(e.integer), FirstNine(e.fraction));
    CanonicalWhole(d.integer, e.integer);
    if d.point {
      NoZeroIsShorter(d.fraction, e.fraction);
    }
  }

  lemma TextLength(d: Number)
    ensures |Text(d)| == (if d.negative then 1 else 0) + |d.integer| + (if d.point then 1 + |d.fraction| else 0)
  {
  }

  lemma SplitIsUnique(w: nat, f: nat, w': nat, f': nat)
    requires f < 1_000_000_000 && f' < 1_000_000_000
    ensures Scaled(w) + f == Scaled(w') + f' ==> w == w' && f == f'
  {
  }

  lemma CanonicalWhole(a: string, b: string)
    requires AllDigits(a) && AllDigits(b) && a != "" && b != "" && (a[0] == '0' ==> a == "0") && Value(a) == Value(b)
    ensures |a| <= |b|
  {
    if a[0] != '0' {
      LeadingDigit(a);
      ValueBound(b);
      DigitsKept(b);
      DigitsOfLength(Value(b), |b|);
    }
  }

  /** A numeral without a leading zero is as long as the digits of its value. */
  lemma {:induction false} LeadingDigit(a: string)
    requires AllDigits(a) && a != "" && a[0] != '0'
    ensures |DigitsOf(Value(a))| == |a| && Value(a) > 0
  {
    var head, last := a[..|a| - 1], a[|a| - 1];
    TensAndUnits(Value(head), DigitValue(last));
    if head == "" {
      assert Value(head) == 0 && DigitsOf(0) == "";
      assert Value(a) / 10 == 0;
    } else {
      LeadingDigit(head);
      assert Value(a) / 10 == Value(head);
    }
  }
}
