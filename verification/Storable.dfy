/** What can be stored at all, accepted by the validator or not: scalars that fit their column, texts
  and byte strings of less than 2^31 bytes in all, and no null where none may be. */
module Storable {
  import opened Values
  import opened Arrow
  import opened Conversion
  import opened RoundTrip
  import opened Soundness
  import Conformance
  import L = Leaves
  import D = Decimal256

  // ---------------------------------------------------------------- scalars

  /** Bits of a signed or unsigned integer scalar and of an integer column; 0 for others. */
  function SignedBits(l: Leaf): nat {
    match l
    case Int8(_) => 8
    case Int16(_) => 16
    case Int32(_) => 32
    case Int64(_) => 64
    case _ => 0
  }

  function UnsignedBits(l: Leaf): nat {
    match l
    case UInt8(_) => 8
    case UInt16(_) => 16
    case UInt32(_) => 32
    case UInt64(_) => 64
    case _ => 0
  }

  /** A scalar goes into a column of its own kind that is at least as wide: integers of one signedness
      and floats are widened, everything else is stored as it is. */
  ghost predicate FitsColumn(l: Leaf, t: LeafType) {
    match t
    case TBoolean => l.Boolean?
    case TInt8 => 0 < SignedBits(l) <= 8
    case TInt16 => 0 < SignedBits(l) <= 16
    case TInt32 => 0 < SignedBits(l) <= 32
    case TInt64 => 0 < SignedBits(l) <= 64
    case TUInt8 => 0 < UnsignedBits(l) <= 8
    case TUInt16 => 0 < UnsignedBits(l) <= 16
    case TUInt32 => 0 < UnsignedBits(l) <= 32
    case TUInt64 => 0 < UnsignedBits(l) <= 64
    case TFloat16 => false
    case TFloat32 => l.Float16? || l.Float32?
    case TFloat64 => l.Float16? || l.Float32? || l.Float64?
    case TUtf8 => l.Str?
    case TBinary => l.Bytes?
    case TFixedSizeBinary(n) => l.Bytes? && |l.bytes| == n
    case TDate32 => l.Date32?
    case TDate64 => l.Date64?
    case TTime32(_) => l.TimeMillis?
    case TTime64(unit) => (unit == Microsecond && l.TimeMicros?) || (unit == Nanosecond && l.TimeNanos?)
    case TTimestamp(unit, _) => l.Timestamp? && l.unit == unit
    case TDecimal128(p, s) => l.Decimal128? && Conformance.DecimalConforms(l.v128, l.s128, p, s)
    case TDecimal256(p, s) => l.Decimal256? && Conformance.DecimalConforms(l.v256, l.s256, p, s)
  }

  /** A builder takes exactly the scalars that fit its column and refuses the others with an error. */
  lemma StoredIffFits(l: Leaf, t: LeafType)
    requires L.BuilderFor(t).Ok?
    ensures L.Encode(l, t).Ok? <==> FitsColumn(l, t)
    ensures !FitsColumn(l, t) ==> L.Encode(l, t) == Err(ConversionError)
  {
    if t.TDecimal128? {
      SmallDecimalStored(l, t);
    } else if t.TDecimal256? {
      LargeDecimalStored(l, t);
    } else {
      SimpleStored(l, t);
    }
  }

  lemma SmallDecimalStored(l: Leaf, t: LeafType)
    requires L.BuilderFor(t).Ok? && t.TDecimal128?
    ensures L.Encode(l, t).Ok? <==> FitsColumn(l, t)
    ensures !FitsColumn(l, t) ==> L.Encode(l, t) == Err(ConversionError)
  {
    if l.Decimal128? { Conformance.DigitsConform(l.v128, l.s128, t.p128, t.s128); }
  }

  lemma LargeDecimalStored(l: Leaf, t: LeafType)
    requires L.BuilderFor(t).Ok? && t.TDecimal256?
    ensures L.Encode(l, t).Ok? <==> FitsColumn(l, t)
    ensures !FitsColumn(l, t) ==> L.Encode(l, t) == Err(ConversionError)
  {
    if l.Decimal256? {
      Conformance.DigitsConform(l.v256, l.s256, t.p256, t.s256);
      if L.DecimalFits(l.v256, l.s256, t.p256, t.s256) { D.AdmittedRoundTrip(l.v256, t.p256); }
    }
  }

  lemma SimpleStored(l: Leaf, t: LeafType)
    requires L.BuilderFor(t).Ok? && !t.TDecimal128? && !t.TDecimal256?
    ensures L.Encode(l, t).Ok? <==> FitsColumn(l, t)
    ensures !FitsColumn(l, t) ==> L.Encode(l, t) == Err(ConversionError)
  {
  }

  // ---------------------------------------------------------------- texts and byte strings

  /** The encoding of one character in UTF-8 (section 3 of RFC 3629). */
  function Utf8(c: char): seq<byte> {
    var n := c as int;
    if n < 0x80 then [n]
    else if n < 0x800 then [0xC0 + n / 0x40, 0x80 + n % 0x40]
    else if n < 0x1_0000 then [0xE0 + n / 0x1000, 0x80 + n / 0x40 % 0x40, 0x80 + n % 0x40]
    else [0xF0 + n / 0x4_0000, 0x80 + n / 0x1000 % 0x40, 0x80 + n / 0x40 % 0x40, 0x80 + n % 0x40]
  }

  function Encoded(s: string): seq<byte> {
    if s == [] then [] else Encoded(s[..|s| - 1]) + Utf8(s[|s| - 1])
  }

  /** The length that the builders count is that of the encoded text. */
  lemma {:induction false} EncodedLength(s: string)
    ensures Utf8Length(s) == |Encoded(s)|
  {
    if s != [] { EncodedLength(s[..|s| - 1]); }
  }

  /** All bytes of a column of texts or byte strings. */
  function ColumnBytes(values: seq<Value>): seq<byte> {
    if values == [] then []
    else
      var n := |values| - 1;
      ColumnBytes(values[..n]) +
      match values[n]
      case Leaf(Str(s)) => Encoded(s)
      case Leaf(Bytes(b)) => b
      case _ => []
  }

  lemma {:induction false} BytesCounted(values: seq<Value>)
    ensures TotalBytes(values) == |ColumnBytes(values)|
  {
    if values != [] {
      var n := |values| - 1;
      BytesCounted(values[..n]);
      if values[n].Leaf? && values[n].leaf.Str? { EncodedLength(values[n].leaf.s); }
    }
  }

  /** A column of texts is built exactly when they have less than 2^31 bytes together, and so is a
      column of byte strings; otherwise the builder panics. */
  lemma BytesBuildIff(values: seq<Value>, f: Field)
    requires f.dataType == Primitive(TUtf8) || f.dataType == Primitive(TBinary)
    requires forall v :: v in values ==>
               v == Null || (v.Leaf? && if f.dataType.leaf == TUtf8 then v.leaf.Str? else v.leaf.Bytes?)
    ensures if |ColumnBytes(values)| < 2_147_483_648 then Build(values, f).Ok? else Build(values, f) == Panic
  {
    var t := f.dataType.leaf;
    BytesCounted(values);
    forall i | 0 <= i < |values|
      ensures ValueStored(values[i], f, t) && UnitsAgree(values[i], f)
    {
      assert values[i] in values;
    }
    BuildBytes(values, t);
  }

  // ---------------------------------------------------------------- values of another kind

  /** A value that is neither null nor of the kind that a nested column holds makes the column a
      conversion error, whatever else is wrong with it, and so do malformed entries of a map field. */
  lemma WrongKind(values: seq<Value>, f: Field, i: nat)
    requires i < |values| && values[i] != Null
    ensures f.dataType.ListOf? && !values[i].List? ==> Build(values, f) == Err(ConversionError)
    ensures f.dataType.MapOf? && !values[i].Map? ==> Build(values, f) == Err(ConversionError)
    ensures f.dataType.StructOf? && !values[i].Record? ==> Build(values, f) == Err(ConversionError)
    ensures f.dataType.MapOf?
            && !(f.dataType.entries.dataType.StructOf? && |f.dataType.entries.dataType.fields| == 2) ==>
              Build(values, f) == Err(ConversionError)
  {
  }

  /** In a scalar column the first value that does not fit decides, if none before it is too long. */
  lemma WrongScalar(values: seq<Value>, f: Field, i: nat)
    requires f.dataType.Primitive? && L.BuilderFor(f.dataType.leaf).Ok? && i < |values| && values[i] != Null
    requires !(values[i].Leaf? && FitsColumn(values[i].leaf, f.dataType.leaf))
    requires forall k :: 0 <= k < i ==> EncodeSlot(values, f.dataType.leaf, k).Ok?
    ensures Build(values, f) == Err(ConversionError)
  {
    var t := f.dataType.leaf;
    if values[i].Leaf? { StoredIffFits(values[i].leaf, t); }
    var rs := EncodeAll(values, t);
    assert rs[i] == EncodeSlot(values, t, i) == Err(ConversionError);
    CollectFailure(rs, i);
  }

  // ---------------------------------------------------------------- nulls

  /** No null in a required list item, map key or map value, and none in a required field of a struct
      except under a null struct, at every depth. */
  ghost predicate NoBareNulls(values: seq<Value>, f: Field)
    decreases f
  {
    match f.dataType
    case Primitive(_) => true
    case ListOf(item) => Filled(FlatMap(values, ItemsOf), item) && NoBareNulls(FlatMap(values, ItemsOf), item)
    case MapOf(entries) =>
      entries.dataType.StructOf? && |entries.dataType.fields| == 2 ==>
        var kv := entries.dataType.fields;
        && Filled(FlatMap(values, KeysOf), kv[0]) && NoBareNulls(FlatMap(values, KeysOf), kv[0])
        && Filled(FlatMap(values, ValuesOf), kv[1]) && NoBareNulls(FlatMap(values, ValuesOf), kv[1])
    case StructOf(fields) =>
      forall j :: 0 <= j < |fields| ==>
        var column := Column(values, fields[j].name);
        && (forall i :: 0 <= i < |values| && column[i] == Null ==> fields[j].nullable || values[i] == Null)
        && NoBareNulls(column, fields[j])
  }

  ghost predicate Filled(values: seq<Value>, f: Field) {
    f.nullable || forall i :: 0 <= i < |values| ==> values[i] != Null
  }

  /** Main result on nulls: whatever values are built, none is null where its field is required. */
  lemma {:induction false} BuiltIsFilled(values: seq<Value>, f: Field)
    requires Build(values, f).Ok?
    ensures NoBareNulls(values, f)
    decreases f
  {
    match f.dataType
    case Primitive(_) =>
    case ListOf(item) =>
      ListShape(values, f);
      ListBuiltOk(values, f);
      ChildFilled(FlatMap(values, ItemsOf), item, Build(values, f).value.child);
      BuiltIsFilled(FlatMap(values, ItemsOf), item);
    case MapOf(entries) =>
      var kv, child := entries.dataType.fields, Build(values, f).value.child;
      MapShape(values, f);
      MapBuiltOk(values, f);
      PairsFilled(FlatMap(values, KeysOf), FlatMap(values, ValuesOf), kv, child);
      BuiltIsFilled(FlatMap(values, KeysOf), kv[0]);
      BuiltIsFilled(FlatMap(values, ValuesOf), kv[1]);
    case StructOf(fields) =>
      StructShape(values, f);
      StructBuiltOk(values, f);
      var a := Build(values, f).value;
      forall j | 0 <= j < |fields|
        ensures NoBareNulls(Column(values, fields[j].name), fields[j])
        ensures a.children[j].valid == Validity(Column(values, fields[j].name))
      {
        BuildShape(Column(values, fields[j].name), fields[j]);
        BuiltIsFilled(Column(values, fields[j].name), fields[j]);
      }
      FieldsFilled(values, fields, a);
  }

  lemma ChildFilled(values: seq<Value>, f: Field, child: Array)
    requires Build(values, f) == Ok(child) && (f.nullable || !HasNulls(child))
    ensures Filled(values, f)
  {
    BuildShape(values, f);
    if !f.nullable {
      forall i | 0 <= i < |values|
        ensures values[i] != Null
      {
        assert !IsNull(child, i);
      }
    }
  }

  lemma PairsFilled(ks: seq<Value>, vs: seq<Value>, kv: seq<Field>, child: Array)
    requires |kv| == 2 && child.StructArray? && child.fields == kv && |child.children| == 2
    requires !HasNulls(child) && StructOk(child.fields, child.valid, child.children)
    requires Build(ks, kv[0]) == Ok(child.children[0]) && Build(vs, kv[1]) == Ok(child.children[1])
    ensures Filled(ks, kv[0]) && Filled(vs, kv[1])
  {
    forall j | 0 <= j < 2
      ensures kv[j].nullable || !HasNulls(child.children[j])
    {
      if !kv[j].nullable && HasNulls(child.children[j]) {
        var i :| 0 <= i < Len(child.children[j]) && IsNull(child.children[j], i);
        assert IsNull(child, i);
      }
    }
    ChildFilled(ks, kv[0], child.children[0]);
    ChildFilled(vs, kv[1], child.children[1]);
  }

  lemma FieldsFilled(values: seq<Value>, fields: seq<Field>, a: Array)
    requires a.StructArray? && a.fields == fields && a.valid == Validity(values)
    requires StructOk(a.fields, a.valid, a.children)
    requires forall j :: 0 <= j < |fields| ==> a.children[j].valid == Validity(Column(values, fields[j].name))
    ensures forall j, i :: 0 <= j < |fields| && 0 <= i < |values| && Column(values, fields[j].name)[i] == Null ==>
              fields[j].nullable || values[i] == Null
  {
    forall j, i | 0 <= j < |fields| && 0 <= i < |values| && Column(values, fields[j].name)[i] == Null
      ensures fields[j].nullable || values[i] == Null
    {
      assert IsNull(a.children[j], i);
    }
  }
}
