/** Decimal numbers as text: printing at a scale, parsing at a scale, and what becomes of a number
  that is printed at one scale and parsed at another. */
module DecimalText {
  import opened Values
  import opened Strings
  import D = Decimal256

  // ---------------------------------------------------------------- strings of digits

  predicate IsDigit(c: char) {
    '0' <= c <= '9'
  }

  predicate AllDigits(s: string) {
    forall i :: 0 <= i < |s| ==> IsDigit(s[i])
  }

  function DigitValue(c: char): nat
    requires IsDigit(c)
  {
    c as int - '0' as int
  }

  function DigitChar(d: nat): (c: char)
    requires d < 10
    ensures IsDigit(c) && DigitValue(c) == d
  {
    (d + '0' as int) as char
  }

  /** `to_string` of a non-negative number: as many characters as the digit count says. */
  function ToDigits(n: nat): (s: string)
    ensures AllDigits(s) && |s| == D.DigitCount(n)
  {
    if n < 10 then [DigitChar(n)] else ToDigits(n / 10) + [DigitChar(n % 10)]
  }

  function FromDigits(s: string): nat
    requires AllDigits(s)
  {
    if s == [] then 0 else 10 * FromDigits(s[..|s| - 1]) + DigitValue(s[|s| - 1])
  }

  lemma {:induction false} DigitsRoundTrip(n: nat)
    ensures FromDigits(ToDigits(n)) == n
  {
    if n < 10 {
      assert FromDigits([]) == 0;
      assert ToDigits(n)[..0] == [];
    } else {
      DigitsRoundTrip(n / 10);
      assert ToDigits(n)[..|ToDigits(n)| - 1] == ToDigits(n / 10);
    }
  }

  /** Left padding with zeros to a width, as the format string `{:0>width$}` does. */
  function PadZeros(s: string, width: nat): (p: string)
    ensures AllDigits(s) ==> AllDigits(p)
    ensures |p| == if |s| < width then width else |s|
  {
    if |s| < width then seq(width - |s|, i => '0') + s else s
  }

  lemma {:induction false} PaddingKeepsNumber(k: nat, s: string)
    requires AllDigits(s)
    ensures AllDigits(seq(k, i => '0') + s) && FromDigits(seq(k, i => '0') + s) == FromDigits(s)
    decreases |s| + k
  {
    var p := seq(k, i => '0') + s;
    if s != [] {
      PaddingKeepsNumber(k, s[..|s| - 1]);
      assert p[..|p| - 1] == seq(k, i => '0') + s[..|s| - 1];
    } else if k > 0 {
      PaddingKeepsNumber(k - 1, s);
      assert p[..|p| - 1] == seq(k - 1, i => '0') + s;
    }
  }

  // ---------------------------------------------------------------- printing

  function Pow10(e: nat): nat {
    D.Pow(10, e)
  }

  function DivNat(a: nat, b: nat): nat
    requires b > 0
  {
    a / b
  }

  function Times(a: int, b: nat): (p: int)
    ensures p == a * b && (a >= 0 ==> p >= 0)
  {
    a * b
  }

  /** The number before the decimal point of the printed form. */
  function PrintedInteger(v: int, scale: int): nat {
    if scale > 0 then D.PowPositive(10, scale); DivNat(D.Abs(v), Pow10(scale))
    else Times(D.Abs(v), Pow10(-scale))
  }

  /** The number after it. */
  function PrintedFraction(v: int, scale: int): nat {
    if scale > 0 then D.PowPositive(10, scale); D.Abs(v) % Pow10(scale) else 0
  }

  /** The text that both printers give where their arithmetic does not overflow. */
  function Format(v: int, scale: int): string {
    if scale == 0 then Sign(v) + ToDigits(D.Abs(v))
    else if scale > 0 then
      Sign(v) + ToDigits(PrintedInteger(v, scale)) + "." + PadZeros(ToDigits(PrintedFraction(v, scale)), scale)
    else Sign(v) + ToDigits(PrintedInteger(v, scale))
  }

  function Sign(v: int): string {
    if v < 0 then "-" else ""
  }

  /** `format_decimal256`: only the scale that cannot be negated is out. */
  function Format256(v: int, scale: i8): Outcome<string> {
    if scale == -128 then Panic else Ok(Format(v, scale))
  }

  /** `format_decimal128` panics where |v|, the power of ten or the product leaves i128. */
  function Format128(v: i128, scale: i8): Outcome<string> {
    if scale == 0 then Ok(Format(v, scale))
    else if v == I128_MIN then Panic
    else if scale > 0 then (if Pow10(scale) > I128_MAX then Panic else Ok(Format(v, scale)))
    else
      var e: int := -(scale as int);
      if e == 128 || Pow10(e) > I128_MAX || PrintedInteger(v, scale) > I128_MAX then Panic
      else Ok(Format(v, scale))
  }

  /** The fractional digits never need more room than the scale gives: the printer's padding
      `scale - digits` does not go below zero. */
  lemma NoPaddingUnderflow(n: nat, scale: nat)
    requires scale > 0
    ensures Pow10(scale) > 0 && |ToDigits(n % Pow10(scale))| <= scale
  {
    D.PowPositive(10, scale);
    D.DigitCountBound(n % Pow10(scale), scale);
  }

  // ---------------------------------------------------------------- parsing

  function TrimStart(s: string, c: char): string {
    if s != [] && s[0] == c then TrimStart(s[1..], c) else s
  }

  /** `str::parse` for a big integer: an optional sign and at least one digit. */
  function ParseInt(s: string): Outcome<int> {
    var digits := if s != [] && (s[0] == '-' || s[0] == '+') then s[1..] else s;
    if digits == [] || !AllDigits(digits) then Err(ConversionError)
    else Ok(Negated(s[0] == '-', FromDigits(digits)))
  }

  /** The cast of a length to i8 wraps. */
  function AsI8(n: nat): (i: i8)
    ensures n < 0x80 ==> i == n
  {
    (n + 0x80) % 0x100 - 0x80
  }

  /** Rust's integer division truncates toward zero. */
  function TruncDiv(a: int, b: nat): (q: int)
    requires b > 0
    ensures a >= 0 ==> q >= 0
  {
    if a < 0 then var m: int := DivNat(-a, b); -m
    else DivNat(a, b)
  }

  datatype Pieces = Pieces(negative: bool, integer: string, fraction: string)

  /** Sign, integer part and fraction of a text without exponent; two dots are an error. */
  function Dissect(text: string): Outcome<Pieces> {
    var parts := SplitAt(TrimStart(TrimStart(text, '-'), '+'), '.');
    if |parts| > 2 then Err(ConversionError)
    else
      Ok(Pieces(text != [] && text[0] == '-',
                if parts[0] == [] then "0" else parts[0],
                if |parts| == 2 then parts[1] else []))
  }

  function Negated(negative: bool, x: int): int {
    if negative then -x else x
  }

  /** `parse_decimal256` after normalisation of the text. */
  function Parse256(text: string, scale: i8): Outcome<int> {
    var p :- Dissect(text);
    Assemble256(p, scale)
  }

  function Assemble256(p: Pieces, scale: i8): Outcome<int> {
    var current := AsI8(|p.fraction|);
    if scale < 0 then Err(ConversionError)
    else
      var integer :- ParseInt(p.integer);
      var fraction :- if p.fraction == [] then Ok(0) else ParseInt(p.fraction);
      if current < 0 then Panic  // the exponent becomes enormous
      else Ok(Negated(p.negative, integer * Pow10(scale) + FractionPart(fraction, current, scale)))
  }

  /** The contribution of the digits after the point: padded to the scale, or cut off. */
  function FractionPart(fraction: int, current: nat, scale: nat): (part: int)
    ensures fraction >= 0 ==> part >= 0
  {
    D.PowPositive(10, current);
    if current <= scale then Times(fraction, DivNat(Pow10(scale), Pow10(current)))
    else
      D.PowPositive(10, current - scale);
      TruncDiv(fraction, Pow10(current - scale))
  }

  function Checked(x: int): Outcome<int> {
    if I128_MIN <= x <= I128_MAX then Ok(x) else Panic
  }

  /** `i128::from_str`: out of range is an error. */
  function ParseI128(s: string): Outcome<int> {
    var x :- ParseInt(s);
    if I128_MIN <= x <= I128_MAX then Ok(x) else Err(ConversionError)
  }

  /** `parse_decimal128` after normalisation of the text; every product and sum is checked. */
  function Parse128(text: string, scale: i8): Outcome<int> {
    var p :- Dissect(text);
    Assemble128(p, scale)
  }

  function Assemble128(p: Pieces, scale: i8): Outcome<int> {
    var current := AsI8(|p.fraction|);
    if scale < 0 then Err(ConversionError)
    else
      var integer :- ParseI128(p.integer);
      var fraction :- if p.fraction == [] then Ok(0) else ParseI128(p.fraction);
      Scale128(p.negative, integer, fraction, current, scale)
  }

  function Scale128(negative: bool, integer: int, fraction: int, current: i8, scale: i8): Outcome<int>
    requires scale >= 0
  {
    var scaleFactor :- Checked(Pow10(scale));
    if current < 0 then Panic
    else
      var currentFactor :- Checked(Pow10(current));
      Combine128(negative, Times(integer, scaleFactor), FractionPart(fraction, current, scale))
  }

  /** Both products, their sum and its negation have to stay in range. */
  function Combine128(negative: bool, whole: int, part: int): Outcome<int> {
    var w :- Checked(whole);
    var f :- Checked(part);
    var sum :- Checked(w + f);
    Checked(Negated(negative, sum))
  }

  // ---------------------------------------------------------------- dissecting printed text

  /** A printed number comes apart into its sign, its integer digits and its fraction digits. */
  lemma DissectPrinted(v: int, integer: string, fraction: string, dotted: bool)
    requires AllDigits(integer) && integer != [] && AllDigits(fraction) && (!dotted ==> fraction == [])
    ensures Dissect(Sign(v) + Dotted(integer, fraction, dotted)) == Ok(Pieces(v < 0, integer, fraction))
  {
    var body := Dotted(integer, fraction, dotted);
    assert body[0] == integer[0];
    TrimSign(v, body);
    if dotted {
      assert body == integer + ['.'] + fraction;
      SplitOnce(integer, '.', fraction);
    } else {
      SplitPlain(integer, '.');
    }
  }

  function Dotted(integer: string, fraction: string, dotted: bool): string {
    if dotted then integer + "." + fraction else integer
  }

  lemma TrimSign(v: int, body: string)
    requires body != [] && IsDigit(body[0])
    ensures var text := Sign(v) + body;
            TrimStart(TrimStart(text, '-'), '+') == body && (text != [] && text[0] == '-' <==> v < 0)
  {
    var text := Sign(v) + body;
    assert TrimStart(body, '-') == body && TrimStart(body, '+') == body;
    if v < 0 {
      assert text[1..] == body;
    } else {
      assert text == body;
    }
  }

  lemma ParseDigits(n: nat)
    ensures ParseInt(ToDigits(n)) == Ok(n)
  {
    DigitsRoundTrip(n);
  }

  lemma ParsePadded(n: nat, width: nat)
    ensures ParseInt(PadZeros(ToDigits(n), width)) == Ok(n)
  {
    var s := ToDigits(n);
    DigitsRoundTrip(n);
    if |s| < width { PaddingKeepsNumber(width - |s|, s); }
  }

  // ---------------------------------------------------------------- rescaling

  /** The number that v at scale s denotes, at scale t: exact upwards, truncated downwards. */
  function Rescaled(v: int, s: i8, t: i8): int {
    if t >= s then v * Pow10(t - s)
    else
      D.PowPositive(10, s - t);
      TruncDiv(v, Pow10(s - t))
  }

  /** The printed form for given numbers before and after the point. */
  function Assembled(v: int, integer: nat, fraction: nat, scale: int): string {
    Sign(v) + Dotted(ToDigits(integer), FractionDigits(fraction, scale), scale > 0)
  }

  function FractionDigits(fraction: nat, scale: int): (s: string)
    ensures AllDigits(s)
  {
    if scale > 0 then PadZeros(ToDigits(fraction), scale) else []
  }

  lemma FormatAssembled(v: int, s: int)
    ensures Format(v, s) == Assembled(v, PrintedInteger(v, s), PrintedFraction(v, s), s)
  {
    if s > 0 {
      var i, f := ToDigits(PrintedInteger(v, s)), FractionDigits(PrintedFraction(v, s), s);
      assert Sign(v) + i + "." + f == Sign(v) + (i + "." + f);
    } else if s == 0 {
      assert Pow10(0) == 1;
      assert PrintedInteger(v, s) == D.Abs(v);
    }
  }

  lemma DissectFormat(v: int, s: int)
    ensures Dissect(Format(v, s)) ==
            Ok(Pieces(v < 0, ToDigits(PrintedInteger(v, s)), FractionDigits(PrintedFraction(v, s), s)))
    ensures |FractionDigits(PrintedFraction(v, s), s)| == if s > 0 then s else 0
  {
    FormatAssembled(v, s);
    DissectPrinted(v, ToDigits(PrintedInteger(v, s)), FractionDigits(PrintedFraction(v, s), s), s > 0);
    if s > 0 { NoPaddingUnderflow(D.Abs(v), s); }
  }

  lemma Quotient(q: nat, d: nat, r: nat)
    requires r < d
    ensures (q * d + r) / d == q
  {
    var n := q * d + r;
    assert n == (n / d) * d + n % d;
    Squeeze(n / d, q, d, n % d, r);
  }

  lemma Squeeze(p: nat, q: nat, d: nat, x: nat, r: nat)
    requires x < d && r < d && p * d + x == q * d + r
    ensures p == q
  {
    if p < q {
      MulStep(p, q, d);
    } else if q < p {
      MulStep(q, p, d);
    }
  }

  lemma MulStep(p: nat, q: nat, d: nat)
    requires p < q
    ensures p * d + d <= q * d
  {
    var k: nat := q - p - 1;
    NonNegative(k, d);
    calc {
      q * d;
      (p + 1 + k) * d;
      p * d + d + k * d;
    }
  }

  lemma NonNegative(k: nat, d: nat)
    ensures k * d >= 0
  {
  }

  lemma Decompose(n: nat, d: nat)
    requires d > 0
    ensures n == (n / d) * d + n % d
  {
  }

  lemma DivideAcross(a: nat, d: nat, f: nat)
    requires d > 0
    ensures (a * d + f) / d == a + f / d
  {
    var q, r := f / d, f % d;
    Decompose(f, d);
    assert (a + q) * d == a * d + q * d;
    Quotient(a + q, d, r);
  }

  lemma PadProduct(q: nat, d: nat, k: nat, r: nat)
    requires d > 0
    ensures q * (k * d) + r * ((k * d) / d) == (q * d + r) * k
  {
    Quotient(k, d, 0);
    assert q * (k * d) == (q * d) * k;
    assert (q * d + r) * k == (q * d) * k + r * k;
  }

  lemma CutProduct(q: nat, k: nat, e: nat, r: nat)
    requires e > 0
    ensures q * k + r / e == (q * (k * e) + r) / e
  {
    DivideAcross(q * k, e, r);
    assert q * (k * e) == (q * k) * e;
  }

  /** Magnitude arithmetic of parsing, when the target scale is at least the printed one. */
  lemma PadArithmetic(n: nat, s: nat, t: nat)
    requires s <= t
    ensures Pow10(s) > 0
    ensures (n / Pow10(s)) * Pow10(t) + (n % Pow10(s)) * (Pow10(t) / Pow10(s)) == n * Pow10(t - s)
  {
    D.PowPositive(10, s);
    D.PowAdd(10, t - s, s);
    Decompose(n, Pow10(s));
    PadProduct(n / Pow10(s), Pow10(s), Pow10(t - s), n % Pow10(s));
  }

  /** And when it is smaller. */
  lemma CutArithmetic(n: nat, s: nat, t: nat)
    requires t < s
    ensures Pow10(s) > 0 && Pow10(s - t) > 0
    ensures (n / Pow10(s)) * Pow10(t) + (n % Pow10(s)) / Pow10(s - t) == n / Pow10(s - t)
  {
    D.PowPositive(10, s);
    D.PowPositive(10, s - t);
    D.PowAdd(10, t, s - t);
    Decompose(n, Pow10(s));
    CutProduct(n / Pow10(s), Pow10(t), Pow10(s - t), n % Pow10(s));
  }

  /** The factor of the printed fraction digits. */
  function Printed10(s: i8): (p: nat)
    ensures p > 0
  {
    D.PowPositive(10, if s > 0 then s else 0);
    Pow10(if s > 0 then s else 0)
  }

  /** The magnitude that the parser computes from the printed pieces. */
  lemma PrintedMagnitude(v: int, s: i8, t: i8)
    requires t >= 0
    ensures s <= t ==>
              PrintedInteger(v, s) * Pow10(t) + PrintedFraction(v, s) * (Pow10(t) / Printed10(s))
              == D.Abs(v) * Pow10(t - s)
    ensures s > t ==> Pow10(s - t) > 0
    ensures s > t ==>
              PrintedInteger(v, s) * Pow10(t) + PrintedFraction(v, s) / Pow10(s - t) == D.Abs(v) / Pow10(s - t)
  {
    if s > 0 {
      if s <= t { PadArithmetic(D.Abs(v), s, t); } else { CutArithmetic(D.Abs(v), s, t); }
    } else {
      WholeArithmetic(D.Abs(v), -(s as int), t);
    }
  }

  lemma WholeArithmetic(n: nat, e: nat, t: nat)
    ensures (n * Pow10(e)) * Pow10(t) == n * Pow10(e + t)
  {
    D.PowAdd(10, e, t);
    assert (n * Pow10(e)) * Pow10(t) == n * (Pow10(e) * Pow10(t));
  }

  lemma SignedResult(v: int, k: nat)
    ensures Negated(v < 0, D.Abs(v) * k) == v * k
    ensures k > 0 ==> Negated(v < 0, D.Abs(v) / k) == TruncDiv(v, k)
  {
    if v < 0 { assert -((-v) * k) == v * k; }
  }

  /** The magnitude of the parsed number, computed from the printed numbers as the parser does. */
  function Magnitude(integer: nat, fraction: nat, s: i8, t: i8): nat
    requires t >= 0
  {
    Times(integer, Pow10(t)) + FractionPart(fraction, if s > 0 then s else 0, t)
  }

  lemma MagnitudeRescales(v: int, s: i8, t: i8)
    requires t >= 0
    ensures var m := Magnitude(PrintedInteger(v, s), PrintedFraction(v, s), s, t);
            Negated(v < 0, m) == Rescaled(v, s, t) && D.Abs(Rescaled(v, s, t)) == m
  {
    PrintedMagnitude(v, s, t);
    if s <= t { SignedResult(v, Pow10(t - s)); } else { SignedResult(v, Pow10(s - t)); }
  }

  /** Main result: parsing at scale t what was printed at scale s rescales the number, for every
      number and every scale that can be printed, negative ones included. */
  lemma ParsePrinted256(v: int, s: i8, t: i8)
    requires t >= 0 && Format256(v, s).Ok?
    ensures Parse256(Format256(v, s).value, t) == Ok(Rescaled(v, s, t))
  {
    DissectFormat(v, s);
    var p := Dissect(Format(v, s)).value;
    ParsePieces(v, s, p);
    Magnitude256(p, PrintedInteger(v, s), PrintedFraction(v, s), s, t);
    MagnitudeRescales(v, s, t);
  }

  lemma ParsePieces(v: int, s: i8, p: Pieces)
    requires p.integer == ToDigits(PrintedInteger(v, s))
    requires p.fraction == FractionDigits(PrintedFraction(v, s), s)
    ensures ParseInt(p.integer) == Ok(PrintedInteger(v, s))
    ensures (if p.fraction == [] then Ok(0) else ParseInt(p.fraction)) == Ok(PrintedFraction(v, s))
  {
    ParseDigits(PrintedInteger(v, s));
    if s > 0 { ParsePadded(PrintedFraction(v, s), s); }
  }

  /** What the parser computes from pieces with known numbers. */
  lemma Magnitude256(p: Pieces, integer: nat, fraction: nat, s: i8, t: i8)
    requires t >= 0 && |p.fraction| == (if s > 0 then s else 0)
    requires ParseInt(p.integer) == Ok(integer)
    requires (if p.fraction == [] then Ok(0) else ParseInt(p.fraction)) == Ok(fraction)
    ensures Assemble256(p, t) == Ok(Negated(p.negative, Magnitude(integer, fraction, s, t)))
  {
  }

  /** Printing and parsing at the same scale is the identity. */
  lemma SameScale256(v: int, s: i8)
    requires s >= 0
    ensures Parse256(Format256(v, s).value, s) == Ok(v)
  {
    ParsePrinted256(v, s, s);
    assert Pow10(0) == 1;
  }

  // ---------------------------------------------------------------- the 128-bit versions

  lemma Pow38Fits(e: nat)
    ensures Pow10(e) <= I128_MAX <==> e <= 38
  {
    D.PowAdd(10, 4, 4);
    D.PowAdd(10, 8, 8);
    D.PowAdd(10, 16, 3);
    D.PowAdd(10, 19, 19);
    assert Pow10(38) == 100_000_000_000_000_000_000_000_000_000_000_000_000;
    assert Pow10(39) == 10 * Pow10(38);
    if e <= 38 { D.PowMonotone(10, e, 38); } else { D.PowMonotone(10, 39, e); }
  }

  /** Which 128-bit numbers can be printed without an overflow: all at scale 0, and otherwise all but the
      least one at scales from -38 to 38 whose digits, with the zeros of a negative scale, fit. */
  lemma PrintsIff(v: i128, s: i8)
    ensures Format128(v, s) ==
            if s == 0 || (v != I128_MIN && -38 <= s <= 38 && PrintedInteger(v, s) <= I128_MAX)
            then Ok(Format(v, s)) else Panic
    ensures s < 0 ==> PrintedInteger(v, s) == D.Abs(v) * Pow10(-(s as int))
  {
    Pow38Fits(if s < 0 then -(s as int) else s);
    if s > 0 && v != I128_MIN {
      D.PowPositive(10, s);
      QuotientBounded(D.Abs(v), Pow10(s));
    }
  }

  lemma QuotientBounded(n: nat, d: nat)
    requires d > 0
    ensures n / d <= n && n % d <= n
  {
    Decompose(n, d);
    AtLeast(n / d, d);
  }

  lemma AtLeast(q: nat, d: nat)
    requires d > 0
    ensures q * d >= q
  {
    assert q * (d - 1) >= 0;
  }

  lemma PiecesBounded(v: i128, s: i8)
    requires v != I128_MIN && Format128(v, s).Ok?
    ensures PrintedInteger(v, s) <= I128_MAX && PrintedFraction(v, s) <= I128_MAX
  {
    if s > 0 {
      D.PowPositive(10, s);
      QuotientBounded(D.Abs(v), Pow10(s));
    }
  }

  /** What the checked parser computes from pieces with known numbers in range. */
  lemma Magnitude128(p: Pieces, integer: nat, fraction: nat, s: i8, t: i8)
    requires t >= 0 && |p.fraction| == (if s > 0 then s else 0)
    requires Pow10(t) <= I128_MAX && Printed10(s) <= I128_MAX
    requires ParseInt(p.integer) == Ok(integer) && integer <= I128_MAX
    requires (if p.fraction == [] then Ok(0) else ParseInt(p.fraction)) == Ok(fraction) && fraction <= I128_MAX
    ensures var m := Magnitude(integer, fraction, s, t);
            Assemble128(p, t) == if m <= I128_MAX then Ok(Negated(p.negative, m)) else Panic
  {
    assert ParseI128(p.integer) == Ok(integer);
    assert (if p.fraction == [] then Ok(0) else ParseI128(p.fraction)) == Ok(fraction);
    ScaleNat(p.negative, integer, fraction, s, t);
  }

  lemma ScaleNat(negative: bool, integer: nat, fraction: nat, s: i8, t: i8)
    requires t >= 0 && Pow10(t) <= I128_MAX && Printed10(s) <= I128_MAX
    ensures var m := Magnitude(integer, fraction, s, t);
            Scale128(negative, integer, fraction, if s > 0 then s else 0, t) ==
            if m <= I128_MAX then Ok(Negated(negative, m)) else Panic
  {
    CombineNat(negative, Times(integer, Pow10(t)), FractionPart(fraction, if s > 0 then s else 0, t));
  }

  lemma CombineNat(negative: bool, whole: nat, part: nat)
    ensures Combine128(negative, whole, part) ==
            if whole + part <= I128_MAX then Ok(Negated(negative, whole + part)) else Panic
  {
  }

  lemma LargeScalePanics(p: Pieces, integer: nat, fraction: nat, t: i8)
    requires t >= 0 && Pow10(t) > I128_MAX
    requires ParseInt(p.integer) == Ok(integer) && integer <= I128_MAX
    requires (if p.fraction == [] then Ok(0) else ParseInt(p.fraction)) == Ok(fraction) && fraction <= I128_MAX
    ensures Assemble128(p, t) == Panic
  {
    assert ParseI128(p.integer) == Ok(integer);
    assert (if p.fraction == [] then Ok(0) else ParseI128(p.fraction)) == Ok(fraction);
  }

  /** Main result for 128 bits: a printed number other than the least one, parsed at any scale,
      gives the rescaled number exactly when its magnitude and the scale's factor fit, and panics
      when one of them does not. This is a build with overflow checks; without them the products
      wrap instead, and some texts are parsed at scales above 38, "0" to zero for one. */
  lemma ParsePrinted128(v: i128, s: i8, t: i8)
    requires v != I128_MIN && Format128(v, s).Ok? && t >= 0
    ensures Format128(v, s).value == Format(v, s)
    ensures Parse128(Format(v, s), t) ==
            if t <= 38 && D.Abs(Rescaled(v, s, t)) <= I128_MAX then Ok(Rescaled(v, s, t)) else Panic
  {
    DissectFormat(v, s);
    var p := Dissect(Format(v, s)).value;
    ParsePieces(v, s, p);
    PiecesBounded(v, s);
    Pow38Fits(t);
    if t <= 38 {
      assert Printed10(s) <= I128_MAX;
      Magnitude128(p, PrintedInteger(v, s), PrintedFraction(v, s), s, t);
      MagnitudeRescales(v, s, t);
    } else {
      LargeScalePanics(p, PrintedInteger(v, s), PrintedFraction(v, s), t);
    }
  }

  /** The least number is printed at scale 0 only, and its text is refused at every scale: the
      parser reads the magnitude before it looks at the sign, and 2^127 is out of range. */
  lemma LeastRefused(s: i8, t: i8)
    requires t >= 0
    ensures Format128(I128_MIN, s).Ok? <==> s == 0
    ensures Parse128(Format(I128_MIN, 0), t) == Err(ConversionError)
  {
    DissectFormat(I128_MIN, 0);
    WholeMagnitude();
    ParseDigits(PrintedInteger(I128_MIN, 0));
    MagnitudeRefused(Dissect(Format(I128_MIN, 0)).value, PrintedInteger(I128_MIN, 0), t);
  }

  lemma MagnitudeRefused(p: Pieces, n: int, t: i8)
    requires t >= 0 && ParseInt(p.integer) == Ok(n) && n > I128_MAX
    ensures Assemble128(p, t) == Err(ConversionError)
  {
  }

  lemma WholeMagnitude()
    ensures PrintedInteger(I128_MIN, 0) == -I128_MIN > I128_MAX
  {
    assert Pow10(0) == 1;
  }

  /** For every number that can be printed at scale s, the least one included: parsing its text at
      scale t gives the rescaled number exactly when the number is not the least one, and the
      factor of the scale and the result's magnitude fit, in a build with overflow checks. */
  lemma Reparsed128Iff(v: i128, s: i8, t: i8)
    requires Format128(v, s).Ok? && t >= 0
    ensures Parse128(Format128(v, s).value, t) == Ok(Rescaled(v, s, t))
            <==> v != I128_MIN && t <= 38 && D.Abs(Rescaled(v, s, t)) <= I128_MAX
  {
    if v == I128_MIN { LeastRefused(s, t); } else { ParsePrinted128(v, s, t); }
  }

  // ---------------------------------------------------------------- what any text is parsed as

  lemma {:induction false} DigitsSplit(a: string, b: string)
    requires AllDigits(a) && AllDigits(b)
    ensures AllDigits(a + b) && FromDigits(a + b) == FromDigits(a) * Pow10(|b|) + FromDigits(b)
    decreases |b|
  {
    if b == [] {
      assert a + b == a;
      assert Pow10(0) == 1;
    } else {
      var n := |b| - 1;
      DigitsSplit(a, b[..n]);
      assert (a + b)[..|a + b| - 1] == a + b[..n];
      assert Pow10(|b|) == 10 * Pow10(n);
      TenTimes(FromDigits(a), Pow10(n));
    }
  }

  lemma TenTimes(x: nat, p: nat)
    ensures 10 * (x * p) == x * (10 * p)
  {
  }

  lemma {:induction false} DigitsBound(s: string)
    requires AllDigits(s)
    ensures FromDigits(s) < Pow10(|s|)
  {
    if s == [] {
      assert Pow10(0) == 1;
    } else {
      DigitsBound(s[..|s| - 1]);
      assert Pow10(|s|) == 10 * Pow10(|s| - 1);
    }
  }

  /** Any number of minus signs, then any number of plus signs. */
  function Signs(minuses: nat, pluses: nat): string {
    seq(minuses, _ => '-') + seq(pluses, _ => '+')
  }

  lemma {:induction false} TrimAll(k: nat, c: char, body: string)
    requires body == [] || body[0] != c
    ensures TrimStart(seq(k, _ => c) + body, c) == body
  {
    var s := seq(k, _ => c) + body;
    if k > 0 {
      assert s[1..] == seq(k - 1, _ => c) + body;
      TrimAll(k - 1, c, body);
    } else {
      assert s == body;
    }
  }

  /** A text of signs, digits and an optional fraction comes apart as written; an empty integer part
      counts as zero. */
  lemma DissectText(minuses: nat, pluses: nat, integer: string, fraction: string, dotted: bool)
    requires AllDigits(integer) && AllDigits(fraction) && (!dotted ==> fraction == [])
    ensures Dissect(Signs(minuses, pluses) + Dotted(integer, fraction, dotted)) ==
            Ok(TextAsPieces(minuses, integer, fraction))
  {
    var body := Dotted(integer, fraction, dotted);
    var text, plus := Signs(minuses, pluses) + body, seq(pluses, _ => '+') + body;
    assert text == seq(minuses, _ => '-') + plus;
    TrimAll(minuses, '-', plus);
    TrimAll(pluses, '+', body);
    assert text != [] && text[0] == '-' <==> minuses > 0;
    if dotted {
      assert body == integer + ['.'] + fraction;
      SplitOnce(integer, '.', fraction);
    } else {
      SplitPlain(integer, '.');
    }
  }

  lemma PlainInt(s: string)
    requires AllDigits(s) && s != []
    ensures ParseInt(s) == Ok(FromDigits(s))
  {
  }

  /** The pieces of such a text have the numbers that their digits denote. */
  lemma TextPieces(integer: string, fraction: string)
    requires AllDigits(integer) && AllDigits(fraction)
    ensures ParseInt(if integer == [] then "0" else integer) == Ok(FromDigits(integer))
    ensures (if fraction == [] then Ok(0) else ParseInt(fraction)) == Ok(FromDigits(fraction))
  {
    if integer == [] {
      assert "0"[..0] == [];
      PlainInt("0");
    } else {
      PlainInt(integer);
    }
    if fraction != [] { PlainInt(fraction); }
  }

  /** The number that the text denotes, at the scale of its fraction. */
  function Denoted(minuses: nat, integer: string, fraction: string): int
    requires AllDigits(integer) && AllDigits(fraction)
  {
    Negated(minuses > 0, FromDigits(integer + fraction))
  }

  lemma DenotedParts(minuses: nat, integer: string, fraction: string, s: i8, t: i8)
    requires AllDigits(integer) && AllDigits(fraction) && |fraction| == s as int && t >= 0
    ensures var v := Denoted(minuses, integer, fraction);
            var m := Magnitude(FromDigits(integer), FromDigits(fraction), s, t);
            Negated(minuses > 0, m) == Rescaled(v, s, t) && D.Abs(Rescaled(v, s, t)) == m
  {
    var v := Denoted(minuses, integer, fraction);
    DigitsSplit(integer, fraction);
    DigitsBound(fraction);
    SplitNumber(v, FromDigits(integer), FromDigits(fraction), s);
    MagnitudeRescales(v, s, t);
    SignKept(minuses > 0, FromDigits(integer + fraction),
             Magnitude(FromDigits(integer), FromDigits(fraction), s, t), s, t);
  }

  /** The sign of the text is the sign of the number, unless the number is zero. */
  lemma SignKept(negative: bool, n: nat, m: nat, s: i8, t: i8)
    requires var v := Negated(negative, n);
             Negated(v < 0, m) == Rescaled(v, s, t) && D.Abs(Rescaled(v, s, t)) == m
    ensures Negated(negative, m) == Rescaled(Negated(negative, n), s, t)
  {
    if n == 0 { ZeroRescaled(s, t); }
  }

  lemma ZeroRescaled(s: i8, t: i8)
    ensures Rescaled(0, s, t) == 0
  {
    if t < s {
      D.PowPositive(10, s - t);
      SignedResult(0, Pow10(s - t));
    }
  }

  lemma SplitNumber(v: int, integer: nat, fraction: nat, s: i8)
    requires s >= 0 && fraction < Pow10(s) && D.Abs(v) == integer * Pow10(s) + fraction
    ensures PrintedInteger(v, s) == integer && PrintedFraction(v, s) == fraction
  {
    if s > 0 {
      D.PowPositive(10, s);
      Quotient(integer, Pow10(s), fraction);
      Decompose(D.Abs(v), Pow10(s));
    } else {
      assert Pow10(0) == 1;
    }
  }

  /** Main result on parsing: every text of signs, digits and an optional fraction, ".5", "+5", "5."
      and the empty text included, is parsed at a scale t of at least 0 as the number that its digits
      denote, rescaled with truncation toward zero, if its fraction has fewer than 128 digits. The
      count of the digits is cast to 8 bits, so from 128 digits on it is negative, and from 256 on it
      starts again at zero. A negative scale is an error. */
  lemma ParseText256(minuses: nat, pluses: nat, integer: string, fraction: string, dotted: bool, t: i8)
    requires AllDigits(integer) && AllDigits(fraction) && (!dotted ==> fraction == [])
    ensures var r := Parse256(Signs(minuses, pluses) + Dotted(integer, fraction, dotted), t);
            if t < 0 then r == Err(ConversionError)
            else if |fraction| < 128 then r == Ok(Rescaled(Denoted(minuses, integer, fraction), |fraction|, t))
            else if |fraction| % 256 >= 128 then r == Panic
            else r == Ok(Negated(minuses > 0,
                         Magnitude(FromDigits(integer), FromDigits(fraction), |fraction| % 256, t)))
  {
    DissectText(minuses, pluses, integer, fraction, dotted);
    var text, p := Signs(minuses, pluses) + Dotted(integer, fraction, dotted), TextAsPieces(minuses, integer, fraction);
    ParseOfPieces(text, p, t);
    if t < 0 {
      NegativeScale(p, t);
    } else if |fraction| < 128 {
      ShortFraction(minuses, integer, fraction, t);
    } else {
      LongFraction(minuses, integer, fraction, t);
    }
  }

  lemma ParseOfPieces(text: string, p: Pieces, t: i8)
    requires Dissect(text) == Ok(p)
    ensures Parse256(text, t) == Assemble256(p, t)
  {
  }

  lemma NegativeScale(p: Pieces, t: i8)
    requires t < 0
    ensures Assemble256(p, t) == Err(ConversionError)
  {
  }

  lemma LongFraction(minuses: nat, integer: string, fraction: string, t: i8)
    requires AllDigits(integer) && AllDigits(fraction) && t >= 0
    ensures var r, n := Assemble256(TextAsPieces(minuses, integer, fraction), t), |fraction| % 256;
            if n >= 128 then r == Panic
            else r == Ok(Negated(minuses > 0, Magnitude(FromDigits(integer), FromDigits(fraction), n, t)))
  {
    TextPieces(integer, fraction);
    CastDigits(|fraction|);
    WrappedFraction(TextAsPieces(minuses, integer, fraction), FromDigits(integer), FromDigits(fraction), t);
  }

  function TextAsPieces(minuses: nat, integer: string, fraction: string): Pieces {
    Pieces(minuses > 0, if integer == [] then "0" else integer, fraction)
  }

  lemma ShortFraction(minuses: nat, integer: string, fraction: string, t: i8)
    requires AllDigits(integer) && AllDigits(fraction) && |fraction| < 128 && t >= 0
    ensures Assemble256(TextAsPieces(minuses, integer, fraction), t)
            == Ok(Rescaled(Denoted(minuses, integer, fraction), |fraction|, t))
  {
    TextPieces(integer, fraction);
    DenotedParts(minuses, integer, fraction, |fraction|, t);
    Magnitude256(TextAsPieces(minuses, integer, fraction), FromDigits(integer), FromDigits(fraction), |fraction|, t);
  }

  lemma WrappedFraction(p: Pieces, integer: nat, fraction: nat, t: i8)
    requires t >= 0 && ParseInt(p.integer) == Ok(integer)
    requires (if p.fraction == [] then Ok(0) else ParseInt(p.fraction)) == Ok(fraction)
    ensures var current := AsI8(|p.fraction|);
            Assemble256(p, t) ==
            if current < 0 then Panic
            else Ok(Negated(p.negative, Magnitude(integer, fraction, current, t)))
  {
  }

  lemma CastDigits(n: nat)
    ensures AsI8(n) == if n % 256 >= 128 then n % 256 - 256 else n % 256
  {
  }

  /** The same for 128 bits, with overflow checks: parts that do not fit are an error, scales above 38
      and results that do not fit are an overflow. */
  lemma ParseText128(minuses: nat, pluses: nat, integer: string, fraction: string, dotted: bool, t: i8)
    requires AllDigits(integer) && AllDigits(fraction) && (!dotted ==> fraction == []) && |fraction| < 128
    ensures var r := Parse128(Signs(minuses, pluses) + Dotted(integer, fraction, dotted), t);
            var result := Rescaled(Denoted(minuses, integer, fraction), |fraction|, t);
            if t < 0 || FromDigits(integer) > I128_MAX || FromDigits(fraction) > I128_MAX
            then r == Err(ConversionError)
            else r == if t <= 38 && |fraction| <= 38 && D.Abs(result) <= I128_MAX then Ok(result) else Panic
  {
    DissectText(minuses, pluses, integer, fraction, dotted);
    TextPieces(integer, fraction);
    var p := TextAsPieces(minuses, integer, fraction);
    if t >= 0 { PiecesParsed128(p, FromDigits(integer), FromDigits(fraction), |fraction|, t); }
    if t >= 0 { DenotedParts(minuses, integer, fraction, |fraction|, t); }
  }

  lemma PiecesParsed128(p: Pieces, integer: nat, fraction: nat, s: i8, t: i8)
    requires t >= 0 && s >= 0 && |p.fraction| == s as int
    requires ParseInt(p.integer) == Ok(integer)
    requires (if p.fraction == [] then Ok(0) else ParseInt(p.fraction)) == Ok(fraction)
    ensures var m := Magnitude(integer, fraction, s, t);
            Assemble128(p, t) ==
            if integer > I128_MAX || fraction > I128_MAX then Err(ConversionError)
            else if t <= 38 && s <= 38 && m <= I128_MAX then Ok(Negated(p.negative, m))
            else Panic
  {
    Pow38Fits(t);
    Pow38Fits(s);
    if integer > I128_MAX {
      MagnitudeRefused(p, integer, t);
    } else if fraction > I128_MAX {
      FractionRefused(p, integer, fraction, t);
    } else if t > 38 {
      LargeScalePanics(p, integer, fraction, t);
    } else if s > 38 {
      LongFractionPanics(p, integer, fraction, s, t);
    } else {
      Magnitude128(p, integer, fraction, s, t);
    }
  }

  lemma FractionRefused(p: Pieces, integer: nat, fraction: nat, t: i8)
    requires t >= 0 && ParseInt(p.integer) == Ok(integer) && integer <= I128_MAX
    requires p.fraction != [] && ParseInt(p.fraction) == Ok(fraction) && fraction > I128_MAX
    ensures Assemble128(p, t) == Err(ConversionError)
  {
    assert ParseI128(p.integer) == Ok(integer);
  }

  lemma LongFractionPanics(p: Pieces, integer: nat, fraction: nat, s: i8, t: i8)
    requires t >= 0 && s > 0 && |p.fraction| == s as int && Pow10(s) > I128_MAX
    requires ParseInt(p.integer) == Ok(integer) && integer <= I128_MAX
    requires ParseInt(p.fraction) == Ok(fraction) && fraction <= I128_MAX
    ensures Assemble128(p, t) == Panic
  {
    assert ParseI128(p.integer) == Ok(integer);
    assert ParseI128(p.fraction) == Ok(fraction);
  }

  /** A sign that is left over after the trimming belongs to the integer part only: "+-5.5" at scale 1
      is parsed as minus 50 plus 5. */
  lemma InnerSign()
    ensures Parse256("+-5.5", 1) == Ok(-45)
  {
    assert TrimStart("+-5.5", '-') == "+-5.5";
    assert "+-5.5"[1..] == "-5.5";
    assert TrimStart("+-5.5", '+') == TrimStart("-5.5", '+') == "-5.5";
    assert "-5.5" == "-5" + ['.'] + "5";
    SplitOnce("-5", '.', "5");
    assert "-5"[1..] == "5" && "5"[..0] == [];
    assert FromDigits("5") == 5;
    assert ParseInt("-5") == Ok(-5) && ParseInt("5") == Ok(5);
    assert Pow10(0) == 1;
    assert Pow10(1) == 10;
  }

  /** Main result on printing: an optional minus, the digits of the integer part without a leading
      zero of their own, and for a positive scale a dot and exactly as many digits as the scale. */
  lemma PrintedForm(v: int, s: int)
    ensures var integer, fraction := ToDigits(PrintedInteger(v, s)), FractionDigits(PrintedFraction(v, s), s);
            && Format(v, s) == (if v < 0 then "-" else "") + integer + (if s > 0 then "." + fraction else "")
            && |fraction| == (if s > 0 then s else 0)
            && AllDigits(integer) && integer != [] && (|integer| > 1 ==> integer[0] != '0')
  {
    var integer, fraction := ToDigits(PrintedInteger(v, s)), FractionDigits(PrintedFraction(v, s), s);
    NoLeadingZero(PrintedInteger(v, s));
    FormatAssembled(v, s);
    DissectFormat(v, s);
  }

  /** And all printed digits together denote the number, times a power of ten for a negative scale. */
  lemma PrintedDigits(v: int, s: int)
    ensures var integer, fraction := ToDigits(PrintedInteger(v, s)), FractionDigits(PrintedFraction(v, s), s);
            FromDigits(integer + fraction) == D.Abs(v) * Pow10(if s < 0 then -s else 0)
  {
    var integer, fraction := ToDigits(PrintedInteger(v, s)), FractionDigits(PrintedFraction(v, s), s);
    DissectFormat(v, s);
    DigitsRoundTrip(PrintedInteger(v, s));
    DigitsSplit(integer, fraction);
    PaddedNumber(PrintedFraction(v, s), if s > 0 then s else 0);
    if s > 0 { PrintedParts(D.Abs(v), s); }
    assert Pow10(0) == 1;
    assert FromDigits([]) == 0;
  }

  lemma PrintedParts(n: nat, s: nat)
    ensures Pow10(s) > 0 && DivNat(n, Pow10(s)) * Pow10(s) + n % Pow10(s) == n
  {
    D.PowPositive(10, s);
    Decompose(n, Pow10(s));
  }

  lemma PaddedNumber(n: nat, width: nat)
    ensures FromDigits(PadZeros(ToDigits(n), width)) == n
  {
    var s := ToDigits(n);
    DigitsRoundTrip(n);
    if |s| < width { PaddingKeepsNumber(width - |s|, s); }
  }

  lemma {:induction false} NoLeadingZero(n: nat)
    ensures ToDigits(n) != [] && (n > 0 ==> ToDigits(n)[0] != '0') && (|ToDigits(n)| > 1 ==> n > 0)
  {
    if n >= 10 { NoLeadingZero(n / 10); }
  }
}
