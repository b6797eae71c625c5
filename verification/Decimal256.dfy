/** Decimal columns: digit counting and the 32-byte two's complement form of Decimal256. */
module Decimal256 {
  import opened Values

  // ---------------------------------------------------------------- powers and digit counts

  function Pow(b: nat, e: nat): nat {
    if e == 0 then 1 else b * Pow(b, e - 1)
  }

  /** Number of decimal digits in the printed form of `n`. */
  function DigitCount(n: nat): (d: nat)
    ensures d >= 1
  {
    if n < 10 then 1 else 1 + DigitCount(n / 10)
  }

  /** The precision check admits exactly the numbers below the next power of ten. */
  lemma {:induction false} DigitCountBound(n: nat, k: nat)
    requires k >= 1
    ensures DigitCount(n) <= k <==> n < Pow(10, k)
    decreases k
  {
    if k == 1 {
      assert Pow(10, 0) == 1;
      assert Pow(10, 1) == 10;
    } else if n >= 10 {
      DigitCountBound(n / 10, k - 1);
      assert n / 10 < Pow(10, k - 1) <==> n < 10 * Pow(10, k - 1);
    } else {
      PowPositive(10, k - 1);
    }
  }

  lemma {:induction false} PowPositive(b: nat, e: nat)
    requires b >= 1
    ensures Pow(b, e) >= 1
  {
    if e > 0 { PowPositive(b, e - 1); }
  }

  lemma {:induction false} PowMonotone(b: nat, e: nat, f: nat)
    requires b >= 1 && e <= f
    ensures Pow(b, e) <= Pow(b, f)
    decreases f
  {
    if e < f {
      PowMonotone(b, e, f - 1);
      TimesAtLeast(b, Pow(b, f - 1));
    }
  }

  lemma TimesAtLeast(b: nat, x: nat)
    requires b >= 1
    ensures b * x >= x
  {
    assert (b - 1) * x >= 0;
  }

  lemma {:induction false} PowAdd(b: nat, e: nat, f: nat)
    ensures Pow(b, e + f) == Pow(b, e) * Pow(b, f)
    decreases e
  {
    if e > 0 {
      PowAdd(b, e - 1, f);
      calc {
        Pow(b, e + f);
        b * Pow(b, e - 1 + f);
        b * (Pow(b, e - 1) * Pow(b, f));
        (b * Pow(b, e - 1)) * Pow(b, f);
      }
    }
  }

  // ---------------------------------------------------------------- little-endian bytes

  /** The number that a little-endian byte string denotes. */
  function FromBytesLe(bytes: seq<byte>): nat {
    if bytes == [] then 0 else bytes[0] + 0x100 * FromBytesLe(bytes[1..])
  }

  /** `BigInt::to_bytes_le`: the shortest byte string, one zero byte for zero. */
  function ToBytesLe(n: nat): (bytes: seq<byte>)
    ensures FromBytesLe(bytes) == n
    ensures |bytes| >= 1
  {
    if n < 0x100 then
      assert FromBytesLe([n]) == n + 0x100 * FromBytesLe([]);
      [n]
    else
      var rest := ToBytesLe(n / 0x100);
      assert ([n % 0x100] + rest)[1..] == rest;
      [n % 0x100] + rest
  }

  lemma {:induction false} FromBytesBound(bytes: seq<byte>)
    ensures FromBytesLe(bytes) < Pow(0x100, |bytes|)
  {
    if bytes != [] { FromBytesBound(bytes[1..]); }
  }

  /** Byte length of the shortest form, as a bound on the number. */
  lemma {:induction false} ToBytesLength(n: nat, k: nat)
    requires k >= 1
    ensures |ToBytesLe(n)| <= k <==> n < Pow(0x100, k)
    decreases k
  {
    if k == 1 {
      assert Pow(0x100, 0) == 1;
      assert Pow(0x100, 1) == 0x100;
    } else if n >= 0x100 {
      ToBytesLength(n / 0x100, k - 1);
      assert n / 0x100 < Pow(0x100, k - 1) <==> n < 0x100 * Pow(0x100, k - 1);
    } else {
      PowPositive(0x100, k - 1);
    }
  }

  function Zeros(n: nat): (z: seq<byte>)
    ensures |z| == n
  {
    seq(n, i => 0)
  }

  lemma {:induction false} PaddingKeepsValue(bytes: seq<byte>, n: nat)
    ensures FromBytesLe(bytes + Zeros(n)) == FromBytesLe(bytes)
    decreases |bytes| + n
  {
    if bytes != [] {
      assert (bytes + Zeros(n))[1..] == bytes[1..] + Zeros(n);
      PaddingKeepsValue(bytes[1..], n);
    } else if n > 0 {
      assert (bytes + Zeros(n))[1..] == bytes + Zeros(n - 1);
      PaddingKeepsValue(bytes, n - 1);
    }
  }

  lemma PaddedValue(bytes: seq<byte>, padded: seq<byte>)
    requires |bytes| <= |padded|
    requires forall i :: 0 <= i < |padded| ==> padded[i] == if i < |bytes| then bytes[i] else 0
    ensures FromBytesLe(padded) == FromBytesLe(bytes)
  {
    assert padded == bytes + Zeros(|padded| - |bytes|);
    PaddingKeepsValue(bytes, |padded| - |bytes|);
  }

  /** Byte-wise complement (`!b` on a u8 is 255 - b). */
  function Invert(bytes: seq<byte>): (r: seq<byte>)
    ensures |r| == |bytes|
  {
    seq(|bytes|, i requires 0 <= i < |bytes| => 0xFF - bytes[i])
  }

  lemma {:induction false} InvertValue(bytes: seq<byte>)
    ensures FromBytesLe(Invert(bytes)) == Pow(0x100, |bytes|) - 1 - FromBytesLe(bytes)
  {
    if bytes != [] {
      assert Invert(bytes)[1..] == Invert(bytes[1..]);
      InvertValue(bytes[1..]);
    }
  }

  lemma {:induction false} FromBytesAppend(a: seq<byte>, b: seq<byte>)
    ensures FromBytesLe(a + b) == FromBytesLe(a) + Pow(0x100, |a|) * FromBytesLe(b)
  {
    if a == [] {
      assert a + b == b;
    } else {
      assert (a + b)[1..] == a[1..] + b;
      FromBytesAppend(a[1..], b);
      Shift(FromBytesLe(a[1..]), Pow(0x100, |a| - 1), FromBytesLe(b));
    }
  }

  lemma Shift(low: nat, p: nat, high: nat)
    ensures 0x100 * (low + p * high) == 0x100 * low + (0x100 * p) * high
  {
  }

  /** A byte string of known length is determined by its value. */
  lemma {:induction false} BytesInjective(a: seq<byte>, b: seq<byte>)
    requires |a| == |b| && FromBytesLe(a) == FromBytesLe(b)
    ensures a == b
  {
    if a != [] {
      assert a[0] == FromBytesLe(a) % 0x100;
      assert b[0] == FromBytesLe(b) % 0x100;
      BytesInjective(a[1..], b[1..]);
      assert a == [a[0]] + a[1..] && b == [b[0]] + b[1..];
    }
  }

  // ---------------------------------------------------------------- two's complement

  function Abs(v: int): nat {
    if v < 0 then -v else v
  }

  /** The little-endian form of `n`, zero-padded to 32 bytes. */
  function Wide(n: nat): (bytes: seq<byte>)
    requires n < Pow(0x100, 32)
    ensures |bytes| == 32 && FromBytesLe(bytes) == n
  {
    ToBytesLength(n, 32);
    var short := ToBytesLe(n);
    PaddingKeepsValue(short, 32 - |short|);
    short + Zeros(32 - |short|)
  }

  /** The 32-byte pattern that denotes `v` modulo 2^256; an error exactly when the magnitude
      of `v` does not fit in 32 bytes. */
  function Decimal256Bytes(v: int): (r: Outcome<seq<byte>>)
    ensures r.Ok? ==> |r.value| == 32
  {
    if Abs(v) >= Pow(0x100, 32) then Err(ConversionError)
    else Ok(Wide(if v < 0 then Pow(0x100, 32) + v else v))
  }

  /** The reader's decoding: invert and negate when the sign bit is set. */
  function Decimal256Value(bytes: seq<byte>): int
    requires |bytes| == 32
  {
    if bytes[31] >= 0x80 then -(FromBytesLe(Invert(bytes)) + 1) else FromBytesLe(bytes)
  }

  /** Two's complement negation of a little-endian buffer in place: invert every byte, then
      add one with the carry running upwards until it dies out. */
  method NegateInPlace(bytes: array<byte>)
    requires FromBytesLe(bytes[..]) > 0
    modifies bytes
    ensures FromBytesLe(bytes[..]) == Pow(0x100, bytes.Length) - FromBytesLe(old(bytes[..]))
  {
    InvertValue(bytes[..]);
    InvertInPlace(bytes);
    AddOneInPlace(bytes);
  }

  method InvertInPlace(bytes: array<byte>)
    modifies bytes
    ensures bytes[..] == Invert(old(bytes[..]))
  {
    for i := 0 to bytes.Length
      invariant forall k :: 0 <= k < i ==> bytes[k] == 0xFF - old(bytes[k])
      invariant forall k :: i <= k < bytes.Length ==> bytes[k] == old(bytes[k])
    {
      bytes[i] := 0xFF - bytes[i];
    }
  }

  method AddOneInPlace(bytes: array<byte>)
    requires FromBytesLe(bytes[..]) + 1 < Pow(0x100, bytes.Length)
    modifies bytes
    ensures FromBytesLe(bytes[..]) == FromBytesLe(old(bytes[..])) + 1
  {
    ghost var before := bytes[..];
    var carry, i := true, 0;
    assert FromBytesLe(bytes[..0]) == 0 == FromBytesLe(before[..0]);
    while i < bytes.Length && carry
      invariant 0 <= i <= bytes.Length
      invariant bytes[i..] == before[i..]
      invariant CarryInvariant(bytes[..i], before[..i], carry)
    {
      ghost var low := bytes[..i];
      var b := bytes[i];
      assert b == bytes[i..][0] == before[i];
      CarryStep(low, before[..i], b);
      carry := b == 0xFF;
      bytes[i] := if b == 0xFF then 0 else b + 1;
      assert bytes[..i + 1] == low + [bytes[i]];
      assert before[..i + 1] == before[..i] + [b];
      assert bytes[i + 1..] == before[i..][1..];
      i := i + 1;
    }
    CarryDone(bytes[..i], before[..i], before[i..], carry);
    assert bytes[..] == bytes[..i] + before[i..];
    assert before == before[..i] + before[i..];
    FromBytesBound(bytes[..]);
  }

  /** The processed prefix, with its pending carry, is the prefix before plus one. */
  ghost predicate CarryInvariant(done: seq<byte>, before: seq<byte>, carry: bool) {
    && |done| == |before|
    && FromBytesLe(done) + (if carry then Pow(0x100, |done|) else 0) == FromBytesLe(before) + 1
  }

  lemma CarryStep(done: seq<byte>, before: seq<byte>, b: byte)
    requires CarryInvariant(done, before, true)
    ensures CarryInvariant(done + [if b == 0xFF then 0 else b + 1], before + [b], b == 0xFF)
  {
    var next: byte := if b == 0xFF then 0 else b + 1;
    FromBytesAppend(done, [next]);
    FromBytesAppend(before, [b]);
    SingleByte(b);
    SingleByte(next);
    assert Pow(0x100, |done| + 1) == 0x100 * Pow(0x100, |done|);
    CarryArithmetic(Pow(0x100, |done|), b);
  }

  lemma CarryArithmetic(p: nat, b: byte)
    ensures b == 0xFF ==> p * b + p == 0x100 * p
    ensures b != 0xFF ==> p * (b + 1) == p * b + p
    ensures p * 0 == 0
  {
  }

  lemma CarryDone(done: seq<byte>, before: seq<byte>, rest: seq<byte>, carry: bool)
    requires CarryInvariant(done, before, carry)
    requires rest != [] ==> !carry
    ensures FromBytesLe(done + rest) + (if carry then Pow(0x100, |done|) else 0) == FromBytesLe(before + rest) + 1
  {
    FromBytesAppend(done, rest);
    FromBytesAppend(before, rest);
  }

  lemma SingleByte(b: byte)
    ensures FromBytesLe([b]) == b
  {
    assert FromBytesLe([b]) == b + 0x100 * FromBytesLe([]);
  }

  /** `decimal256_from_bigint`: magnitude bytes, zero padding, in-place negation. */
  method Decimal256FromBigInt(v: int) returns (r: Outcome<seq<byte>>)
    ensures r == Decimal256Bytes(v)
  {
    var magnitude := ToBytesLe(Abs(v));
    ToBytesLength(Abs(v), 32);
    if |magnitude| > 32 {
      return Err(ConversionError);
    }
    var bytes := new byte[32](i => if 0 <= i < |magnitude| then magnitude[i] else 0);
    PaddedValue(magnitude, bytes[..]);
    if v < 0 {
      NegateInPlace(bytes);
    }
    PatternUnique(v, bytes[..]);
    return Ok(bytes[..]);
  }

  lemma PatternUnique(v: int, bytes: seq<byte>)
    requires |bytes| == 32 && Abs(v) < Pow(0x100, |bytes|)
    requires FromBytesLe(bytes) == if v < 0 then Pow(0x100, |bytes|) + v else v
    ensures Decimal256Bytes(v) == Ok(bytes)
  {
    BytesInjective(bytes, Decimal256Bytes(v).value);
  }

  /** The top bit of the last byte splits the patterns at half their range. */
  lemma TopBitSplits(bytes: seq<byte>)
    requires bytes != []
    ensures var p := Pow(0x100, |bytes| - 1);
            && FromBytesLe(bytes) < 0x100 * p
            && (bytes[|bytes| - 1] >= 0x80 <==> FromBytesLe(bytes) >= 0x80 * p)
  {
    var k := |bytes| - 1;
    var low, p, top := bytes[..k], Pow(0x100, k), bytes[k];
    assert bytes == low + [top];
    FromBytesAppend(low, [top]);
    FromBytesBound(low);
    SingleByte(top);
    Scale(p, top);
  }

  lemma Scale(p: nat, top: byte)
    ensures p * top <= 0xFF * p
    ensures if top >= 0x80 then p * top >= 0x80 * p else p * top <= 0x7F * p
  {
    if top >= 0x80 {
      assert p * (top - 0x80) >= 0;
    } else {
      assert p * (0x7F - top) >= 0;
    }
    assert p * (0xFF - top) >= 0;
  }

  /** Decoding reads the pattern as a signed 256-bit number. */
  lemma DecodeSigned(bytes: seq<byte>)
    requires |bytes| == 32
    ensures var n, p := FromBytesLe(bytes), Pow(0x100, |bytes| - 1);
            Decimal256Value(bytes) == if n < 0x80 * p then n else n - 0x100 * p
  {
    TopBitSplits(bytes);
    InvertValue(bytes);
    assert Pow(0x100, |bytes|) == 0x100 * Pow(0x100, |bytes| - 1);
  }

  /** Main result: encoding succeeds on every magnitude below 2^256, and decoding then gives
      the number back exactly when it lies in the signed 256-bit range. */
  lemma RoundTrip(v: int)
    ensures Decimal256Bytes(v).Ok? <==> Abs(v) < Pow(0x100, 32)
    ensures Decimal256Bytes(v).Ok? ==>
              (Decimal256Value(Decimal256Bytes(v).value) == v
               <==> -0x80 * Pow(0x100, 31) <= v < 0x80 * Pow(0x100, 31))
  {
    if Decimal256Bytes(v).Ok? {
      DecodeSigned(Decimal256Bytes(v).value);
      assert Pow(0x100, 32) == 0x100 * Pow(0x100, 31);
    }
  }

  /** Every number that passes a precision check of at most 76 digits survives the trip. */
  lemma AdmittedRoundTrip(v: int, precision: u8)
    requires precision <= 76 && DigitCount(Abs(v)) <= precision
    ensures Decimal256Bytes(v).Ok?
    ensures Decimal256Value(Decimal256Bytes(v).value) == v
  {
    DigitCountBound(Abs(v), precision);
    PowMonotone(10, precision, 76);
    SeventySixDigitsFit();
    RoundTrip(v);
  }

  lemma SeventySixDigitsFit()
    ensures Pow(10, 76) < 0x80 * Pow(0x100, 31) < Pow(0x100, 32)
  {
    TenToThe76();
    BytesToThe31();
    PowAdd(0x100, 1, 31);
    assert Pow(0x100, 1) == 0x100;
  }

  lemma TenToThe76()
    ensures Pow(10, 76) == 10000000000000000000000000000000000000000000000000000000000000000000000000000
  {
    TenToThe19();
    PowAdd(10, 19, 19);
    PowAdd(10, 38, 38);
  }

  lemma TenToThe19()
    ensures Pow(10, 19) == 10_000_000_000_000_000_000
  {
    PowAdd(10, 8, 8);
    PowAdd(10, 16, 3);
    assert Pow(10, 8) == 100_000_000;
    assert Pow(10, 3) == 1000;
  }

  lemma BytesToThe31()
    ensures Pow(0x100, 31) == 0x100000000000000000000000000000000000000000000000000000000000000
  {
    PowAdd(0x100, 8, 8);
    PowAdd(0x100, 16, 8);
    PowAdd(0x100, 24, 7);
    assert Pow(0x100, 8) == 0x1_0000_0000_0000_0000;
    assert Pow(0x100, 7) == 0x100_0000_0000_0000;
  }
}
