// Exact comparison of JSON numbers (internal/eventdata/number.go), proved against
// the rational number each numeral of section 6 of RFC 8259 denotes.
module JsonNumbers {
  import opened Common
  import opened Text
  import opened Ordering

  datatype Exponent = NoExponent | Exponent(marker: char, sign: string, digits: string)

  // The parts of `-?(0|[1-9][0-9]*)(\.[0-9]+)?([eE][+-]?[0-9]+)?`; an absent fraction is "".
  datatype Numeral = Numeral(negative: bool, whole: string, fraction: string, exponent: Exponent)

  predicate ValidWhole(w: string) {
    w != "" && AllDigits(w) && (w[0] == '0' ==> w == "0")
  }

  predicate ValidExponent(e: Exponent) {
    e.Exponent? ==>
      && (e.marker == 'e' || e.marker == 'E')
      && (e.sign == "" || e.sign == "+" || e.sign == "-")
      && e.digits != "" && AllDigits(e.digits)
  }

  predicate ValidNumeral(n: Numeral) {
    ValidWhole(n.whole) && AllDigits(n.fraction) && ValidExponent(n.exponent)
  }

  function PrintFraction(f: string): string {
    if f == "" then "" else "." + f
  }

  function PrintExponent(e: Exponent): string {
    match e
    case NoExponent => ""
    case Exponent(marker, sign, digits) => [marker] + sign + digits
  }

  function PrintTail(fraction: string, exponent: Exponent): string {
    PrintFraction(fraction) + PrintExponent(exponent)
  }

  function PrintNumeral(n: Numeral): string {
    (if n.negative then "-" else "") + (n.whole + PrintTail(n.fraction, n.exponent))
  }

  // ---- The rational a numeral denotes ----

  // x times ten to the power e.
  function Shift(x: real, e: int): real
    decreases if e < 0 then -e else e
  {
    if e == 0 then x
    else if e > 0 then 10.0 * Shift(x, e - 1)
    else Shift(x, e + 1) / 10.0
  }

  function ExponentValue(e: Exponent): int
    requires ValidExponent(e)
  {
    match e
    case NoExponent => 0
    case Exponent(_, sign, digits) => if sign == "-" then -(Number(digits) as int) else Number(digits) as int
  }

  function Magnitude(n: Numeral): real
    requires ValidNumeral(n)
  {
    Shift(Number(n.whole) as real + Shift(Number(n.fraction) as real, -|n.fraction|), ExponentValue(n.exponent))
  }

  function Value(n: Numeral): real
    requires ValidNumeral(n)
  {
    if n.negative then -Magnitude(n) else Magnitude(n)
  }

  function Sign(x: real): int {
    if x < 0.0 then -1 else if x > 0.0 then 1 else 0
  }

  // ---- The recogniser: matches exactly the printed valid numerals ----

  function ParseExponent(s: string): (e: Option<Exponent>)
    ensures e.Some? ==> ValidExponent(e.value) && PrintExponent(e.value) == s
  {
    if s == "" then Some(NoExponent)
    else if s[0] != 'e' && s[0] != 'E' then None
    else
      var sign := if |s| > 1 && (s[1] == '+' || s[1] == '-') then [s[1]] else "";
      var digits := s[1 + |sign|..];
      if digits != "" && AllDigits(digits) then
        assert s == [s[0]] + sign + digits;
        Some(Exponent(s[0], sign, digits))
      else None
  }

  // Takes an optional fraction off the front.
  function CutFraction(s: string): (r: Option<(string, string)>)
    ensures r.Some? ==> AllDigits(r.value.0) && PrintFraction(r.value.0) + r.value.1 == s
  {
    if s == "" || s[0] != '.' then Some(("", s))
    else
      var k := DigitRun(s[1..]);
      SplitAt(s[1..], k);
      if k == 0 then None else Some((s[1..][..k], s[1..][k..]))
  }

  // What follows the whole part: an optional fraction, then an optional exponent.
  function ParseTail(s: string): (t: Option<(string, Exponent)>)
    ensures t.Some? ==>
      AllDigits(t.value.0) && ValidExponent(t.value.1) && PrintTail(t.value.0, t.value.1) == s
  {
    var cut := CutFraction(s);
    if cut.None? then None
    else
      var exponent := ParseExponent(cut.value.1);
      if exponent.None? then None else Some((cut.value.0, exponent.value))
  }

  function ParseUnsigned(negative: bool, body: string): (n: Option<Numeral>)
    ensures n.Some? ==> ValidNumeral(n.value) && n.value.negative == negative
    ensures n.Some? ==> n.value.whole + PrintTail(n.value.fraction, n.value.exponent) == body
  {
    var k := DigitRun(body);
    var tail := ParseTail(body[k..]);
    if !ValidWhole(body[..k]) || tail.None? then None
    else
      SplitAt(body, k);
      Some(Numeral(negative, body[..k], tail.value.0, tail.value.1))
  }

  // MatchString together with the parts it matched.
  function ParseNumeral(s: string): (n: Option<Numeral>)
    ensures n.Some? ==> ValidNumeral(n.value) && PrintNumeral(n.value) == s
  {
    if s != "" && s[0] == '-' then
      ParseUnsigned(true, s[1..])
    else
      ParseUnsigned(false, s)
  }

  lemma ExponentLayout(marker: char, sign: string, digits: string)
    requires |sign| <= 1 && digits != ""
    ensures var s := [marker] + sign + digits;
      && |s| == 1 + |sign| + |digits| && s[0] == marker
      && s[1 + |sign|..] == digits
      && s[1] == if sign == "" then digits[0] else sign[0]
  {
  }

  lemma ParsePrintedExponent(e: Exponent)
    requires ValidExponent(e)
    ensures ParseExponent(PrintExponent(e)) == Some(e)
  {
    if e.Exponent? {
      ExponentLayout(e.marker, e.sign, e.digits);
      assert IsDigit(e.digits[0]);
      assert e.sign == "" || e.sign == [e.sign[0]];
    }
  }

  lemma CutPrintedFraction(fraction: string, rest: string)
    requires AllDigits(fraction) && (rest == "" || (!IsDigit(rest[0]) && rest[0] != '.'))
    ensures CutFraction(PrintFraction(fraction) + rest) == Some((fraction, rest))
  {
    var s := PrintFraction(fraction) + rest;
    if fraction != "" {
      assert s[1..] == fraction + rest;
      DigitRunOf(fraction, rest);
      assert (fraction + rest)[..|fraction|] == fraction && (fraction + rest)[|fraction|..] == rest;
    } else {
      assert s == rest;
    }
  }

  lemma ParsePrintedTail(fraction: string, exponent: Exponent)
    requires AllDigits(fraction) && ValidExponent(exponent)
    ensures ParseTail(PrintTail(fraction, exponent)) == Some((fraction, exponent))
  {
    hide CutFraction, ParseExponent;
    CutPrintedFraction(fraction, PrintExponent(exponent));
    ParsePrintedExponent(exponent);
  }

  // Every numeral of the grammar is recognised, with the parts it was printed from.
  lemma {:induction false} ParsePrinted(n: Numeral)
    requires ValidNumeral(n)
    ensures ParseNumeral(PrintNumeral(n)) == Some(n)
  {
    var s, body := PrintNumeral(n), n.whole + PrintTail(n.fraction, n.exponent);
    hide PrintTail, ParseUnsigned;
    assert n.negative ==> s[1..] == body;
    assert !n.negative ==> s == body && s[0] == n.whole[0];
    ParsePrintedUnsigned(n);
  }

  lemma ParsePrintedUnsigned(n: Numeral)
    requires ValidNumeral(n)
    ensures ParseUnsigned(n.negative, n.whole + PrintTail(n.fraction, n.exponent)) == Some(n)
  {
    hide PrintTail, ParseTail;
    var tail := PrintTail(n.fraction, n.exponent);
    var body := n.whole + tail;
    assert tail == "" || !IsDigit(tail[0]) by {
      TailStartsApart(n);
    }
    DigitRunOf(n.whole, tail);
    assert body[..|n.whole|] == n.whole && body[|n.whole|..] == tail;
    ParsePrintedTail(n.fraction, n.exponent);
  }

  lemma TailStartsApart(n: Numeral)
    requires ValidNumeral(n)
    ensures var tail := PrintTail(n.fraction, n.exponent); tail == "" || !IsDigit(tail[0])
  {
  }

  // ---- Laws of shifting the decimal point ----

  lemma ShiftStep(x: real, e: int)
    ensures Shift(x, e + 1) == 10.0 * Shift(x, e)
  {
  }

  lemma {:induction false} ShiftShift(x: real, a: int, b: int)
    ensures Shift(Shift(x, a), b) == Shift(x, a + b)
    decreases if b < 0 then -b else b
  {
    if b > 0 {
      ShiftShift(x, a, b - 1);
      ShiftStep(x, a + b - 1);
    } else if b < 0 {
      ShiftShift(x, a, b + 1);
      ShiftStep(x, a + b);
    }
  }

  lemma {:induction false} ShiftAdd(x: real, y: real, e: int)
    ensures Shift(x + y, e) == Shift(x, e) + Shift(y, e)
    decreases if e < 0 then -e else e
  {
    if e > 0 {
      ShiftAdd(x, y, e - 1);
    } else if e < 0 {
      ShiftAdd(x, y, e + 1);
    }
  }

  lemma {:induction false} ShiftMonotone(x: real, y: real, e: int)
    requires x < y
    ensures Shift(x, e) < Shift(y, e)
    decreases if e < 0 then -e else e
  {
    if e > 0 {
      ShiftMonotone(x, y, e - 1);
    } else if e < 0 {
      ShiftMonotone(x, y, e + 1);
    }
  }

  lemma {:induction false} ShiftZero(e: int)
    ensures Shift(0.0, e) == 0.0
    decreases if e < 0 then -e else e
  {
    if e > 0 {
      ShiftZero(e - 1);
    } else if e < 0 {
      ShiftZero(e + 1);
    }
  }

  lemma {:induction false} UnitMonotone(a: int, b: int)
    requires a <= b
    ensures Shift(1.0, a) <= Shift(1.0, b)
    decreases b - a
  {
    if a < b {
      ShiftStep(1.0, b - 1);
      ShiftZero(b - 1);
      ShiftMonotone(0.0, 1.0, b - 1);
      UnitMonotone(a, b - 1);
    }
  }

  // ---- decimalParts: 0.d1d2d3... times a power of ten ----

  function At(d: string, i: nat): char {
    if i < |d| then d[i] else '0'
  }

  // The first `n` digits of `d`, padded on the right with zeros.
  function Padded(d: string, n: nat): nat
    requires AllDigits(d)
  {
    if n == 0 then 0 else 10 * Padded(d, n - 1) + Digit(At(d, n - 1))
  }

  // `digits` read as 0.d1d2d3... scaled by 10^magnitude.
  function Scaled(digits: string, magnitude: int): real
    requires AllDigits(digits)
  {
    Shift(Number(digits) as real, magnitude - |digits|)
  }

  lemma {:induction false} PaddedPrefix(d: string, n: nat)
    requires AllDigits(d) && n <= |d|
    ensures Padded(d, n) == Number(d[..n])
  {
    if n > 0 {
      PaddedPrefix(d, n - 1);
      assert d[..n][..n - 1] == d[..n - 1];
    }
  }

  lemma {:induction false} PaddedScaled(d: string, n: nat, magnitude: int)
    requires AllDigits(d) && n >= |d|
    ensures Shift(Padded(d, n) as real, magnitude - n) == Scaled(d, magnitude)
  {
    if n == |d| {
      PaddedPrefix(d, n);
      assert d[..n] == d;
    } else {
      PaddedScaled(d, n - 1, magnitude);
      var x := Padded(d, n - 1) as real;
      assert Padded(d, n) as real == Shift(x, 1);
      ShiftShift(x, 1, magnitude - n);
    }
  }

  lemma {:induction false} PaddedBounds(d: string, n: nat)
    requires AllDigits(d) && d != "" && d[0] != '0' && n > 0
    ensures Shift(1.0, n - 1) <= Padded(d, n) as real <= Shift(1.0, n) - 1.0
  {
    if n > 1 {
      PaddedBounds(d, n - 1);
      assert 10 * Padded(d, n - 1) <= Padded(d, n) <= 10 * Padded(d, n - 1) + 9;
    } else {
      assert Padded(d, 1) == 10 * Padded(d, 0) + Digit(d[0]);
    }
  }

  // The leading digit fixes the decade, so different magnitudes decide the order.
  lemma ScaledBounds(d: string, magnitude: int)
    requires AllDigits(d) && d != "" && d[0] != '0'
    ensures Shift(1.0, magnitude - 1) <= Scaled(d, magnitude) < Shift(1.0, magnitude)
  {
    var n := |d|;
    var x := Padded(d, n) as real;
    PaddedBounds(d, n);
    PaddedScaled(d, n, magnitude);
    ShiftShift(1.0, n - 1, magnitude - n);
    ShiftShift(1.0, n, magnitude - n);
    ShiftMonotone(x, Shift(1.0, n), magnitude - n);
    if Shift(1.0, n - 1) < x {
      ShiftMonotone(Shift(1.0, n - 1), x, magnitude - n);
    }
  }

  // The first differing digit decides however many digits follow.
  lemma {:induction false} PaddedDecided(a: string, b: string, i: nat, n: nat)
    requires AllDigits(a) && AllDigits(b) && i < n
    requires Padded(a, i) == Padded(b, i) && At(a, i) < At(b, i)
    ensures Padded(a, n) < Padded(b, n)
  {
    if n > i + 1 {
      PaddedDecided(a, b, i, n - 1);
    }
  }

  // Splicing the fraction onto the whole part moves the decimal point.
  lemma {:induction false} NumberAppend(a: string, b: string)
    requires AllDigits(a) && AllDigits(b)
    ensures Number(a + b) as real == Shift(Number(a) as real, |b|) + Number(b) as real
  {
    if b == "" {
      assert a + b == a;
    } else {
      var init := b[..|b| - 1];
      NumberAppend(a, init);
      assert (a + b)[..|a + b| - 1] == a + init;
    }
  }

  lemma MagnitudeOfSplice(n: Numeral)
    requires ValidNumeral(n)
    ensures AllDigits(n.whole + n.fraction)
    ensures Magnitude(n)
         == Shift(Number(n.whole + n.fraction) as real, ExponentValue(n.exponent) - |n.fraction|)
  {
    var f, e := |n.fraction|, ExponentValue(n.exponent);
    var w, m := Number(n.whole) as real, Number(n.fraction) as real;
    NumberAppend(n.whole, n.fraction);
    ShiftAdd(Shift(w, f), m, -f);
    ShiftShift(w, f, -f);
    ShiftShift(Shift(w, f) + m, -f, e);
  }

  // Dropping leading zeros keeps the number.
  lemma {:induction false} NumberTrim(s: string)
    requires s != "" && AllDigits(s) && s[0] == '0'
    ensures Number(s) == Number(s[1..])
  {
    if |s| == 1 {
      assert s[..0] == "";
    } else {
      assert s[..|s| - 1][0] == '0';
      NumberTrim(s[..|s| - 1]);
      assert s[..|s| - 1][1..] == s[1..][..|s[1..]| - 1];
    }
  }

  // The first of the characters looked for, or -1.
  ghost predicate MarkedAt(s: string, chars: set<char>, index: int) {
    && -1 <= index < |s|
    && (index >= 0 ==> s[index] in chars)
    && (forall j :: 0 <= j < (if index < 0 then |s| else index) ==> s[j] !in chars)
  }

  // strings.IndexAny and strings.IndexByte: the first occurrence, or -1.
  method IndexAny(s: string, chars: set<char>) returns (index: int)
    ensures MarkedAt(s, chars, index)
  {
    index := 0;
    while index < |s|
      invariant 0 <= index <= |s|
      invariant forall j :: 0 <= j < index ==> s[j] !in chars
    {
      if s[index] in chars {
        return;
      }
      index := index + 1;
    }
    index := -1;
  }

  // strings.TrimLeft(s, "0").
  method TrimZeros(s: string) returns (digits: string)
    requires AllDigits(s)
    ensures AllDigits(digits) && Number(digits) == Number(s)
    ensures digits != "" ==> digits[0] != '0'
  {
    digits := s;
    while digits != "" && digits[0] == '0'
      invariant AllDigits(digits) && Number(digits) == Number(s)
      decreases |digits|
    {
      NumberTrim(digits);
      digits := digits[1..];
    }
  }

  // big.Int.SetString in base 10, on the text after an exponent marker.
  function SetString(text: string): int
    requires text != "" && AllDigits(if IsDigit(text[0]) then text else text[1..])
  {
    if text[0] == '-' then -(Number(text[1..]) as int)
    else if text[0] == '+' then Number(text[1..])
    else if IsDigit(text[0]) then Number(text)
    else 0
  }

  // A mark behind a text without any is found there.
  lemma MarkBehind(before: string, rest: string, chars: set<char>, index: int)
    requires forall j :: 0 <= j < |before| ==> before[j] !in chars
    requires (rest != "" ==> rest[0] in chars) && MarkedAt(before + rest, chars, index)
    ensures index == if rest == "" then -1 else |before|
  {
    var s := before + rest;
    assert forall j :: 0 <= j < |before| ==> s[j] == before[j];
    assert rest != "" ==> s[|before|] == rest[0];
  }

  lemma CutAt(before: string, rest: string)
    ensures (before + rest)[..|before|] == before
    ensures rest != "" ==> (before + rest)[|before| + 1..] == rest[1..]
  {
  }

  lemma DigitsHaveNoMark(s: string)
    requires AllDigits(s)
    ensures forall j :: 0 <= j < |s| ==> s[j] !in {'e', 'E'} && s[j] !in {'.'}
  {
  }

  lemma MantissaHasNoMark(whole: string, fraction: string)
    requires AllDigits(whole) && AllDigits(fraction)
    ensures forall j :: 0 <= j < |whole + PrintFraction(fraction)| ==> (whole + PrintFraction(fraction))[j] !in {'e', 'E'}
  {
    DigitsHaveNoMark(whole);
    DigitsHaveNoMark(fraction);
    hide AllDigits;
  }

  lemma PrintTailLast(whole: string, fraction: string, exponent: Exponent)
    ensures whole + PrintTail(fraction, exponent) == (whole + PrintFraction(fraction)) + PrintExponent(exponent)
  {
    hide PrintFraction, PrintExponent;
  }

  lemma PrintedExponent(e: Exponent)
    requires ValidExponent(e)
    ensures if e.NoExponent? then PrintExponent(e) == ""
            else PrintExponent(e) != "" && PrintExponent(e)[0] in {'e', 'E'} && PrintExponent(e)[1..] == e.sign + e.digits
  {
    if e.Exponent? {
      Associative([e.marker], e.sign, e.digits);
    }
  }

  // The first exponent mark separates the mantissa from the signed digits.
  lemma MarkCutsExponent(n: Numeral, body: string, index: int)
    requires ValidNumeral(n) && body == n.whole + PrintTail(n.fraction, n.exponent) && MarkedAt(body, {'e', 'E'}, index)
    ensures -1 <= index < |body| && (index < 0 <==> n.exponent.NoExponent?)
    ensures index < 0 ==> body == n.whole + PrintFraction(n.fraction)
    ensures index >= 0 ==> body[..index] == n.whole + PrintFraction(n.fraction) && body[index + 1..] == n.exponent.sign + n.exponent.digits
  {
    hide PrintFraction, PrintTail, PrintExponent, AllDigits, MarkedAt, ValidExponent;
    PrintTailLast(n.whole, n.fraction, n.exponent);
    MantissaHasNoMark(n.whole, n.fraction);
    PrintedExponent(n.exponent);
    MarkBehind(n.whole + PrintFraction(n.fraction), PrintExponent(n.exponent), {'e', 'E'}, index);
    CutAt(n.whole + PrintFraction(n.fraction), PrintExponent(n.exponent));
  }

  lemma SetStringOfExponent(e: Exponent)
    requires ValidExponent(e) && e.Exponent?
    ensures e.sign + e.digits != ""
    ensures var text := e.sign + e.digits; AllDigits(if IsDigit(text[0]) then text else text[1..])
    ensures SetString(e.sign + e.digits) == ExponentValue(e)
  {
    var text := e.sign + e.digits;
    if e.sign == "" {
      assert text == e.digits;
    } else {
      assert text[1..] == e.digits;
    }
  }

  // Cuts the exponent off; what is left is the whole part and the fraction.
  method CutExponent(body: string, ghost n: Numeral) returns (mantissa: string, magnitude: int)
    requires ValidNumeral(n) && body == n.whole + PrintTail(n.fraction, n.exponent)
    ensures mantissa == n.whole + PrintFraction(n.fraction)
    ensures magnitude == ExponentValue(n.exponent)
  {
    hide PrintFraction, PrintTail, PrintExponent, AllDigits, SetString, MarkedAt;
    mantissa, magnitude := body, 0;
    var i := IndexAny(body, {'e', 'E'});
    MarkCutsExponent(n, body, i);
    if i >= 0 {
      SetStringOfExponent(n.exponent);
      magnitude := SetString(body[i + 1..]);
      mantissa := body[..i];
    }
  }

  // Splices the fraction onto the whole part.
  method SpliceFraction(mantissa: string, ghost n: Numeral) returns (s: string, fractional: int)
    requires ValidNumeral(n) && mantissa == n.whole + PrintFraction(n.fraction)
    ensures s == n.whole + n.fraction && fractional == |n.fraction|
  {
    DigitsHaveNoMark(n.whole);
    hide AllDigits;
    CutAt(n.whole, PrintFraction(n.fraction));
    s, fractional := mantissa, 0;
    var i := IndexAny(mantissa, {'.'});
    MarkBehind(n.whole, PrintFraction(n.fraction), {'.'}, i);
    if i >= 0 {
      fractional := |mantissa| - i - 1;
      s := mantissa[..i] + mantissa[i + 1..];
    }
  }

  // The digits of a numeral without leading zeros, and the exponent that puts the
  // decimal point in front of them.
  method NumeralParts(body: string, ghost n: Numeral) returns (digits: string, magnitude: int)
    requires ValidNumeral(n) && body == n.whole + PrintTail(n.fraction, n.exponent)
    ensures AllDigits(digits) && (digits != "" ==> digits[0] != '0')
    ensures Magnitude(n) == if digits == "" then 0.0 else Scaled(digits, magnitude)
  {
    hide Magnitude, Shift, Number, PrintTail, PrintFraction, ExponentValue;
    var s, fractional;
    s, magnitude := CutExponent(body, n);
    s, fractional := SpliceFraction(s, n);
    MagnitudeOfSplice(n);
    digits := TrimZeros(s);
    if digits == "" {
      NumberZero(digits);
      ShiftZero(magnitude - fractional);
    } else {
      magnitude := magnitude + (|digits| - fractional);
    }
  }

  // ok exactly on the numerals of the grammar; then the digits have no leading zero and,
  // scaled by the magnitude, are the absolute value. Zero has no digits and no sign.
  method DecimalParts(text: string)
    returns (digits: string, magnitude: int, negative: bool, ok: bool)
    ensures ok <==> ParseNumeral(text).Some?
    ensures ok ==> AllDigits(digits) && (digits != "" ==> digits[0] != '0')
    ensures ok && digits == "" ==> !negative && Value(ParseNumeral(text).value) == 0.0
    ensures ok && digits != "" ==>
      Value(ParseNumeral(text).value) == (if negative then -Scaled(digits, magnitude) else Scaled(digits, magnitude))
  {
    var parsed := ParseNumeral(text);
    if parsed.None? {
      return "", 0, false, false;
    }
    negative := text[0] == '-';
    SignOfPrinted(parsed.value, text);
    digits, magnitude := NumeralParts(if negative then text[1..] else text, parsed.value);
    if digits == "" {
      negative := false;
    }
    ok := true;
  }

  lemma SignOfPrinted(n: Numeral, text: string)
    requires ValidNumeral(n) && text == PrintNumeral(n)
    ensures text != "" && (n.negative <==> text[0] == '-')
    ensures (if n.negative then text[1..] else text) == n.whole + PrintTail(n.fraction, n.exponent)
  {
    assert !n.negative ==> text[0] == n.whole[0];
  }

  function Compare(a: string, b: string): Option<int> {
    var x, y := ParseNumeral(a), ParseNumeral(b);
    if x.Some? && y.Some? then Some(Sign(Value(x.value) - Value(y.value))) else None
  }

  // Both numbers non-zero and of one decade: the first differing digit decides.
  method CompareDigits(ad: string, bd: string, ghost magnitude: int) returns (cmp: int)
    requires AllDigits(ad) && AllDigits(bd)
    ensures cmp == Sign(Scaled(ad, magnitude) - Scaled(bd, magnitude))
  {
    cmp := 0;
    var i := 0;
    ghost var n := if |ad| < |bd| then |bd| else |ad|;
    PaddedScaled(ad, n, magnitude);
    PaddedScaled(bd, n, magnitude);
    while i < |ad| || i < |bd|
      invariant 0 <= i <= n
      invariant Padded(ad, i) == Padded(bd, i)
      decreases n - i
    {
      var ac := if i < |ad| then ad[i] else '0';
      var bc := if i < |bd| then bd[i] else '0';
      if ac < bc {
        PaddedDecided(ad, bd, i, n);
        ShiftMonotone(Padded(ad, n) as real, Padded(bd, n) as real, magnitude - n);
        return -1;
      }
      if ac > bc {
        PaddedDecided(bd, ad, i, n);
        ShiftMonotone(Padded(bd, n) as real, Padded(ad, n) as real, magnitude - n);
        return 1;
      }
      i := i + 1;
    }
  }

  // The sign of the difference of the two rationals, for every pair of numerals;
  // anything else is incomparable.
  method CompareJSONNumbers(a: string, b: string) returns (cmp: int, ok: bool)
    ensures ok == Compare(a, b).Some?
    ensures ok ==> cmp == Compare(a, b).value
    ensures !ok ==> cmp == 0
  {
    var ad, ae, an, aok := DecimalParts(a);
    if !aok {
      return 0, false;
    }
    var bd, be, bn, bok := DecimalParts(b);
    if !bok {
      return 0, false;
    }
    if ad != "" {
      ScaledPositive(ad, ae);
    }
    if bd != "" {
      ScaledPositive(bd, be);
    }
    if an != bn {
      return if an then -1 else 1, true;
    }
    cmp := 0;
    if ad == "" && bd == "" {
    } else if ad == "" {
      cmp := -1;
    } else if bd == "" {
      cmp := 1;
    } else if ae != be {
      cmp := if ae < be then -1 else 1;
      DecadesDecide(ad, ae, bd, be);
    } else {
      cmp := CompareDigits(ad, bd, ae);
    }
    if an {
      cmp := -cmp;
    }
    ok := true;
  }

  lemma ScaledPositive(d: string, magnitude: int)
    requires AllDigits(d) && d != "" && d[0] != '0'
    ensures Scaled(d, magnitude) > 0.0
  {
    ScaledBounds(d, magnitude);
    ShiftZero(magnitude - 1);
    ShiftMonotone(0.0, 1.0, magnitude - 1);
  }

  lemma DecadesDecide(ad: string, ae: int, bd: string, be: int)
    requires AllDigits(ad) && ad != "" && ad[0] != '0'
    requires AllDigits(bd) && bd != "" && bd[0] != '0'
    requires ae != be
    ensures ae < be <==> Scaled(ad, ae) < Scaled(bd, be)
    ensures ae > be <==> Scaled(ad, ae) > Scaled(bd, be)
  {
    ScaledBounds(ad, ae);
    ScaledBounds(bd, be);
    if ae < be {
      UnitMonotone(ae, be - 1);
    } else {
      UnitMonotone(be, ae - 1);
    }
  }

  // A string that is a numeral of the grammar, printed.
  ghost predicate Written(s: string, n: Numeral) {
    ValidNumeral(n) && PrintNumeral(n) == s
  }

  // Numbers compare as what is written says; a string that is no number compares with nothing.
  lemma {:induction false} WrittenOrder(a: string, b: string)
    ensures Compare(a, b) == Some(-1) <==> exists m, n :: Written(a, m) && Written(b, n) && Value(m) < Value(n)
    ensures Compare(a, b) == Some(0) <==> exists m, n :: Written(a, m) && Written(b, n) && Value(m) == Value(n)
    ensures Compare(a, b) == Some(1) <==> exists m, n :: Written(a, m) && Written(b, n) && Value(m) > Value(n)
    ensures Compare(a, b).Some? ==> Compare(a, b).value in {-1, 0, 1}
  {
    hide ParseNumeral, PrintNumeral, Value;
    if Compare(a, b).Some? {
      assert Written(a, ParseNumeral(a).value) && Written(b, ParseNumeral(b).value);
    }
    forall m, n | Written(a, m) && Written(b, n) ensures Compare(a, b) == Some(Sign(Value(m) - Value(n))) {
      ComparePrinted(m, n);
    }
  }

  // Every pair of numerals of the grammar is comparable, whatever the digit counts and exponents.
  lemma {:induction false} ComparePrinted(x: Numeral, y: Numeral)
    requires ValidNumeral(x) && ValidNumeral(y)
    ensures Compare(PrintNumeral(x), PrintNumeral(y)) == Some(Sign(Value(x) - Value(y)))
  {
    hide ParseNumeral, PrintNumeral, Value;
    ParsePrinted(x);
    ParsePrinted(y);
  }

  lemma {:induction false} ShiftBack(x: real, e: nat)
    ensures Shift(Shift(x, -(e as int)), e) == x
    decreases e
  {
    if e > 0 {
      ShiftBack(x, e - 1);
      ShiftInside(Shift(x, -(e as int)), e);
    }
  }

  // A shift by one more, taken first.
  lemma {:induction false} ShiftInside(x: real, e: nat)
    requires e > 0
    ensures Shift(x, e) == Shift(10.0 * x, e - 1)
  {
    if e > 1 {
      ShiftInside(x, e - 1);
    }
  }

  lemma {:induction false} ShiftNegated(x: real, e: nat)
    ensures Shift(-x, e) == -Shift(x, e)
  {
    if e > 0 {
      ShiftNegated(x, e - 1);
    }
  }

  function Plain(n: Numeral): Numeral {
    Numeral(n.negative, n.whole, n.fraction, NoExponent)
  }

  // What a numeral denotes, as it is written: a minus sign negates, an exponent of k is k factors
  // of ten, one of -k that many divisions, digits after the point count as so many divisions of
  // all the digits, and a whole number alone is that number.
  lemma {:induction false} DenotesWhatIsWritten(n: Numeral, k: nat)
    requires ValidNumeral(n)
    ensures n.negative ==> Value(n) == -Value(n.(negative := false))
    ensures n.exponent.Exponent? && n.exponent.sign != "-" ==> Value(n) == Shift(Value(Plain(n)), Number(n.exponent.digits))
    ensures n.exponent.Exponent? && n.exponent.sign == "-" ==> Shift(Value(n), Number(n.exponent.digits)) == Value(Plain(n))
    ensures AllDigits(n.whole + n.fraction)
    ensures !n.negative ==> Value(Plain(n)) == Shift(Number(n.whole + n.fraction) as real, -|n.fraction|)
    ensures ValidWhole(Decimal(k)) && Value(Numeral(false, Decimal(k), "", NoExponent)) == k as real
  {
    MagnitudeOfSplice(Plain(n));
    hide Number, Decimal, AllDigits, Shift;
    if n.exponent.Exponent? {
      ExponentDenotes(n);
    }
    WholeOf(k);
  }

  lemma ExponentDenotes(n: Numeral)
    requires ValidNumeral(n) && n.exponent.Exponent?
    ensures n.exponent.sign != "-" ==> Value(n) == Shift(Value(Plain(n)), Number(n.exponent.digits))
    ensures n.exponent.sign == "-" ==> Shift(Value(n), Number(n.exponent.digits)) == Value(Plain(n))
  {
    hide Number, AllDigits;
    var m, e := Magnitude(Plain(n)), Number(n.exponent.digits);
    assert Magnitude(n) == Shift(m, ExponentValue(n.exponent)) by {
      assert Shift(m, 0) == m;
    }
    hide Shift;
    ShiftNegated(m, e);
    ShiftNegated(Shift(m, -(e as int)), e);
    ShiftBack(m, e);
  }

  lemma WholeOf(k: nat)
    ensures ValidWhole(Decimal(k)) && Magnitude(Numeral(false, Decimal(k), "", NoExponent)) == k as real
  {
    hide Decimal;
    var s := Decimal(k);
    assert Number("") == 0;
  }

  // On numerals the comparison is a total preorder whose ties are the equal rationals.
  lemma {:induction false} CompareIsTotalPreorder(a: string, b: string, c: string)
    requires Compare(a, b).Some? && Compare(b, c).Some?
    ensures Compare(b, a) == Some(-Compare(a, b).value)
    ensures Compare(a, b).value == 0 <==> Value(ParseNumeral(a).value) == Value(ParseNumeral(b).value)
    ensures Compare(a, c).Some?
    ensures Compare(a, b).value <= 0 && Compare(b, c).value <= 0 ==> Compare(a, c).value <= 0
  {
  }
}
