/** Scalar columns: which leaves each Arrow type stores, how they are stored, and what the
  reader makes of the stored cell. */
module Leaves {
  import opened Values
  import opened Arrow
  import opened Schema
  import D = Decimal256

  /** What makes a builder fail before it has seen a value. */
  function BuilderFor(t: LeafType): Outcome<()> {
    match t
    case TFloat16 => Err(ConversionError)
    case TTime32(unit) => if unit == Millisecond then Ok(()) else Err(ConversionError)
    case TTime64(unit) => if unit == Microsecond || unit == Nanosecond then Ok(()) else Err(ConversionError)
    case TDecimal128(p, s) => if 1 <= p <= 38 && s <= 38 && (s > 0 ==> s <= p) then Ok(()) else Err(ArrowError)
    case TDecimal256(p, s) => if 1 <= p <= 76 && s <= 76 && (s > 0 ==> s <= p) then Ok(()) else Err(ArrowError)
    case TFixedSizeBinary(n) => if n >= 0 then Ok(()) else Panic
    case _ => Ok(())
  }

  /** Scale agreement and the digit limit, shared by the validator and the builders. */
  predicate DecimalFits(v: int, valueScale: i8, precision: u8, scale: i8) {
    valueScale == scale && D.DigitCount(D.Abs(v)) <= precision
  }

  /** Storing one leaf in a column of type `t`, with the builders' upcasts. */
  function Encode(l: Leaf, t: LeafType): Outcome<Cell> {
    match (t, l)
    case (TBoolean, Boolean(b)) => Ok(BoolCell(b))
    case (TInt8, Int8(i)) => Ok(IntCell(i))
    case (TInt16, Int16(i)) => Ok(IntCell(i))
    case (TInt16, Int8(i)) => Ok(IntCell(i))
    case (TInt32, Int32(i)) => Ok(IntCell(i))
    case (TInt32, Int16(i)) => Ok(IntCell(i))
    case (TInt32, Int8(i)) => Ok(IntCell(i))
    case (TInt64, Int64(i)) => Ok(IntCell(i))
    case (TInt64, Int32(i)) => Ok(IntCell(i))
    case (TInt64, Int16(i)) => Ok(IntCell(i))
    case (TInt64, Int8(i)) => Ok(IntCell(i))
    case (TUInt8, UInt8(i)) => Ok(IntCell(i))
    case (TUInt16, UInt16(i)) => Ok(IntCell(i))
    case (TUInt16, UInt8(i)) => Ok(IntCell(i))
    case (TUInt32, UInt32(i)) => Ok(IntCell(i))
    case (TUInt32, UInt16(i)) => Ok(IntCell(i))
    case (TUInt32, UInt8(i)) => Ok(IntCell(i))
    case (TUInt64, UInt64(i)) => Ok(IntCell(i))
    case (TUInt64, UInt32(i)) => Ok(IntCell(i))
    case (TUInt64, UInt16(i)) => Ok(IntCell(i))
    case (TUInt64, UInt8(i)) => Ok(IntCell(i))
    case (TFloat32, Float32(f)) => Ok(FloatCell(f))
    case (TFloat32, Float16(f)) => Ok(FloatCell(f))
    case (TFloat64, Float64(f)) => Ok(FloatCell(f))
    case (TFloat64, Float32(f)) => Ok(FloatCell(f))
    case (TFloat64, Float16(f)) => Ok(FloatCell(f))
    case (TUtf8, Str(s)) => Ok(StrCell(s))
    case (TBinary, Bytes(b)) => Ok(BytesCell(b))
    case (TFixedSizeBinary(n), Bytes(b)) => if |b| == n then Ok(BytesCell(b)) else Err(ConversionError)
    case (TDate32, Date32(d)) => Ok(IntCell(d))
    case (TDate64, Date64(d)) => Ok(IntCell(d))
    case (TTime32(unit), TimeMillis(x)) => if unit == Millisecond then Ok(IntCell(x)) else Err(ConversionError)
    case (TTime64(unit), TimeMicros(x)) => if unit == Microsecond then Ok(IntCell(x)) else Err(ConversionError)
    case (TTime64(unit), TimeNanos(x)) => if unit == Nanosecond then Ok(IntCell(x)) else Err(ConversionError)
    case (TTimestamp(unit, _), Timestamp(u, x, _)) => if unit == u then Ok(IntCell(x)) else Err(ConversionError)
    case (TDecimal128(p, s), Decimal128(v, vs)) =>
      if DecimalFits(v, vs, p, s) then Ok(IntCell(v)) else Err(ConversionError)
    case (TDecimal256(p, s), Decimal256(v, vs)) =>
      if !DecimalFits(v, vs, p, s) then Err(ConversionError)
      else
        var bytes :- D.Decimal256Bytes(v);
        Ok(BytesCell(bytes))
    case _ => Err(ConversionError)
  }

  predicate Signed(x: int, half: int) {
    -half <= x < half
  }

  predicate Unsigned(x: int, size: int) {
    0 <= x < size
  }

  /** Reading one non-null cell of a column of type `t`; `uuid` says whether the Parquet logical
      type or the Arrow extension marks the column as a UUID. */
  function Decode(c: Cell, t: LeafType, uuid: bool): Outcome<Leaf> {
    match (t, c)
    case (TBoolean, BoolCell(b)) => Ok(Boolean(b))
    case (TInt8, IntCell(i)) => if Signed(i, 0x80) then Ok(Int8(i)) else Panic
    case (TInt16, IntCell(i)) => if Signed(i, 0x8000) then Ok(Int16(i)) else Panic
    case (TInt32, IntCell(i)) => if Signed(i, 0x8000_0000) then Ok(Int32(i)) else Panic
    case (TInt64, IntCell(i)) => if Signed(i, 0x8000_0000_0000_0000) then Ok(Int64(i)) else Panic
    case (TUInt8, IntCell(i)) => if Unsigned(i, 0x100) then Ok(UInt8(i)) else Panic
    case (TUInt16, IntCell(i)) => if Unsigned(i, 0x1_0000) then Ok(UInt16(i)) else Panic
    case (TUInt32, IntCell(i)) => if Unsigned(i, 0x1_0000_0000) then Ok(UInt32(i)) else Panic
    case (TUInt64, IntCell(i)) => if Unsigned(i, 0x1_0000_0000_0000_0000) then Ok(UInt64(i)) else Panic
    case (TFloat16, FloatCell(f)) => Ok(Float16(f))
    case (TFloat32, FloatCell(f)) => Ok(Float32(f))
    case (TFloat64, FloatCell(f)) => Ok(Float64(f))
    case (TUtf8, StrCell(s)) => Ok(Str(s))
    case (TBinary, BytesCell(b)) => Ok(Bytes(b))
    case (TFixedSizeBinary(_), BytesCell(b)) =>
      if !uuid then Ok(Bytes(b)) else if |b| == 16 then Ok(Uuid(b)) else Err(ConversionError)
    case (TDate32, IntCell(d)) => if Signed(d, 0x8000_0000) then Ok(Date32(d)) else Panic
    case (TDate64, IntCell(d)) => if Signed(d, 0x8000_0000_0000_0000) then Ok(Date64(d)) else Panic
    case (TTime32(unit), IntCell(x)) =>
      if unit != Millisecond then Err(ConversionError) else if Signed(x, 0x8000_0000) then Ok(TimeMillis(x)) else Panic
    case (TTime64(unit), IntCell(x)) =>
      if !Signed(x, 0x8000_0000_0000_0000) then Panic
      else if unit == Microsecond then Ok(TimeMicros(x))
      else if unit == Nanosecond then Ok(TimeNanos(x))
      else Err(ConversionError)
    case (TTimestamp(unit, tz), IntCell(x)) =>
      if Signed(x, 0x8000_0000_0000_0000) then Ok(Timestamp(unit, x, tz)) else Panic
    case (TDecimal128(_, s), IntCell(v)) => if I128_MIN <= v <= I128_MAX then Ok(Decimal128(v, s)) else Panic
    case (TDecimal256(_, s), BytesCell(b)) => if |b| == 32 then Ok(Decimal256(D.Decimal256Value(b), s)) else Panic
    case _ => Err(ConversionError)
  }

  /** The leaf that a column of type `t` gives back for a leaf it accepts: integers and floats
      take the column's width, timestamps its timezone, 16-byte UUID columns give UUIDs. */
  function Coerce(l: Leaf, t: LeafType, uuid: bool): Leaf {
    match (t, l)
    case (TInt16, Int8(i)) => Int16(i)
    case (TInt32, Int8(i)) => Int32(i)
    case (TInt32, Int16(i)) => Int32(i)
    case (TInt64, Int8(i)) => Int64(i)
    case (TInt64, Int16(i)) => Int64(i)
    case (TInt64, Int32(i)) => Int64(i)
    case (TUInt16, UInt8(i)) => UInt16(i)
    case (TUInt32, UInt8(i)) => UInt32(i)
    case (TUInt32, UInt16(i)) => UInt32(i)
    case (TUInt64, UInt8(i)) => UInt64(i)
    case (TUInt64, UInt16(i)) => UInt64(i)
    case (TUInt64, UInt32(i)) => UInt64(i)
    case (TFloat32, Float16(f)) => Float32(f)
    case (TFloat64, Float16(f)) => Float64(f)
    case (TFloat64, Float32(f)) => Float64(f)
    case (TTimestamp(_, tz), Timestamp(u, x, _)) => Timestamp(u, x, tz)
    case (TFixedSizeBinary(_), Bytes(b)) => if uuid then Uuid(b) else l
    case _ => l
  }

  /** `validate_value_against_field` on a leaf: exact variants, any time or timestamp unit. */
  predicate AcceptsLeaf(l: Leaf, t: LeafType) {
    match (l, t)
    case (Boolean(_), TBoolean) => true
    case (Int8(_), TInt8) => true
    case (Int16(_), TInt16) => true
    case (Int32(_), TInt32) => true
    case (Int64(_), TInt64) => true
    case (UInt8(_), TUInt8) => true
    case (UInt16(_), TUInt16) => true
    case (UInt32(_), TUInt32) => true
    case (UInt64(_), TUInt64) => true
    case (Float16(_), TFloat16) => true
    case (Float32(_), TFloat32) => true
    case (Float64(_), TFloat64) => true
    case (Str(_), TUtf8) => true
    case (Bytes(_), TBinary) => true
    case (Bytes(b), TFixedSizeBinary(n)) => |b| == n
    case (Date32(_), TDate32) => true
    case (Date64(_), TDate64) => true
    case (TimeMillis(_), TTime32(_)) => true
    case (TimeMicros(_), TTime64(_)) => true
    case (TimeNanos(_), TTime64(_)) => true
    case (Timestamp(_, _, _), TTimestamp(_, _)) => true
    case (Decimal128(v, vs), TDecimal128(p, s)) => DecimalFits(v, vs, p, s)
    case (Decimal256(v, vs), TDecimal256(p, s)) => DecimalFits(v, vs, p, s)
    case _ => false
  }

  /** The unit of a time or timestamp leaf is the column's unit. */
  predicate LeafUnitAgrees(l: Leaf, t: LeafType) {
    match (l, t)
    case (TimeMicros(_), TTime64(unit)) => unit == Microsecond
    case (TimeNanos(_), TTime64(unit)) => unit == Nanosecond
    case (Timestamp(u, _, _), TTimestamp(unit, _)) => u == unit
    case _ => true
  }

  /** A cell written by a builder reads back as the coerced leaf. */
  lemma EncodeDecode(l: Leaf, t: LeafType, uuid: bool)
    requires BuilderFor(t).Ok?
    requires Encode(l, t).Ok?
    requires uuid && t.TFixedSizeBinary? ==> t.size == 16
    ensures Decode(Encode(l, t).value, t, uuid) == Ok(Coerce(l, t, uuid))
  {
    match t
    case TDecimal256(p, s) => D.AdmittedRoundTrip(l.v256, p);
    case _ =>
  }

  /** Columns of a validated schema store an accepted leaf exactly when its unit agrees. */
  lemma AcceptedEncodes(l: Leaf, t: LeafType, uuid: bool)
    requires FieldLeafOk(t, uuid)
    requires AcceptsLeaf(l, t)
    ensures BuilderFor(t).Ok?
    ensures LeafUnitAgrees(l, t) ==> Encode(l, t).Ok?
    ensures !LeafUnitAgrees(l, t) ==> Encode(l, t).Err?
  {
    match t
    case TDecimal256(p, s) => D.AdmittedRoundTrip(l.v256, p);
    case _ =>
  }

  /** Only 16-byte columns heed a UUID mark, from whichever side it comes. */
  lemma MarkedCoerce(l: Leaf, t: LeafType, uuid: bool, marked: bool)
    requires uuid ==> t == TFixedSizeBinary(16)
    requires marked && t.TFixedSizeBinary? ==> t.size == 16
    ensures Coerce(l, t, uuid || (marked && t == TFixedSizeBinary(16))) == Coerce(l, t, marked || uuid)
  {
  }

  /** Coercion is the identity on leaves whose variant, unit and timezone are the column's. */
  lemma CoerceIdempotent(l: Leaf, t: LeafType, uuid: bool)
    ensures Coerce(Coerce(l, t, uuid), t, uuid) == Coerce(l, t, uuid)
  {
  }
}
