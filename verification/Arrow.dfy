/** Arrow data types, fields and arrays, after the Arrow Columnar Format (sections
  "Variable-size List Layout", "Struct Layout", "Validity bitmaps"), and the constructors
  that the crate calls. A constructor panics when its precondition does not hold. */
module Arrow {
  import opened Values

  datatype LeafType =
    | TBoolean
    | TInt8 | TInt16 | TInt32 | TInt64
    | TUInt8 | TUInt16 | TUInt32 | TUInt64
    | TFloat16 | TFloat32 | TFloat64
    | TUtf8 | TBinary | TFixedSizeBinary(size: i32)
    | TDate32 | TDate64
    | TTime32(unit32: TimeUnit) | TTime64(unit64: TimeUnit)
    | TTimestamp(unit: TimeUnit, tz: Option<string>)
    | TDecimal128(p128: u8, s128: i8) | TDecimal256(p256: u8, s256: i8)

  datatype DataType =
    | Primitive(leaf: LeafType)
    | ListOf(item: Field)
    | MapOf(entries: Field)
    | StructOf(fields: seq<Field>)

  /** `uuid` stands for the arrow.uuid extension type. */
  datatype Field = Field(name: string, dataType: DataType, nullable: bool, uuid: bool)

  /** One slot of a primitive array's value buffer. */
  datatype Cell =
    | BoolCell(b: bool)
    | IntCell(i: int)
    | FloatCell(f: Float)
    | StrCell(s: string)
    | BytesCell(bytes: seq<byte>)

  /** Every array has one validity bit per slot. The struct inside a map array has no null
      buffer, which is the same as a buffer of ones. */
  datatype Array =
    | PrimitiveArray(leaf: LeafType, valid: seq<bool>, cells: seq<Cell>)
    | ListArray(item: Field, valid: seq<bool>, offsets: seq<int>, child: Array)
    | MapArray(entries: Field, valid: seq<bool>, offsets: seq<int>, child: Array)
    | StructArray(fields: seq<Field>, valid: seq<bool>, children: seq<Array>)

  function Len(a: Array): nat {
    |a.valid|
  }

  predicate IsNull(a: Array, i: nat)
    requires i < Len(a)
  {
    !a.valid[i]
  }

  predicate HasNulls(a: Array) {
    exists i :: 0 <= i < Len(a) && IsNull(a, i)
  }

  function TypeOf(a: Array): DataType {
    match a
    case PrimitiveArray(t, _, _) => Primitive(t)
    case ListArray(item, _, _, _) => ListOf(item)
    case MapArray(entries, _, _, _) => MapOf(entries)
    case StructArray(fields, _, _) => StructOf(fields)
  }

  // ---------------------------------------------------------------- constructors

  /** `OffsetBuffer::new`: offsets start at or above zero and never decrease. */
  predicate OffsetsOk(offsets: seq<int>) {
    && offsets != []
    && offsets[0] >= 0
    && forall i :: 0 < i < |offsets| ==> offsets[i - 1] <= offsets[i]
  }

  predicate ListOk(item: Field, valid: seq<bool>, offsets: seq<int>, child: Array) {
    && OffsetsOk(offsets)
    && |valid| == |offsets| - 1
    && offsets[|offsets| - 1] <= Len(child)
    && TypeOf(child) == item.dataType
    && (item.nullable || !HasNulls(child))
  }

  function NewListArray(item: Field, valid: seq<bool>, offsets: seq<int>, child: Array): Outcome<Array> {
    if ListOk(item, valid, offsets, child) then Ok(ListArray(item, valid, offsets, child)) else Panic
  }

  predicate MapOk(entries: Field, valid: seq<bool>, offsets: seq<int>, child: Array) {
    && OffsetsOk(offsets)
    && |valid| == |offsets| - 1
    && offsets[|offsets| - 1] <= Len(child)
    && !HasNulls(child)
    && TypeOf(child) == entries.dataType
    && child.StructArray? && |child.children| == 2
  }

  function NewMapArray(entries: Field, valid: seq<bool>, offsets: seq<int>, child: Array): Outcome<Array> {
    if MapOk(entries, valid, offsets, child) then Ok(MapArray(entries, valid, offsets, child)) else Panic
  }

  /** A null under a non-nullable child must be hidden by a null of the parent. */
  predicate Masked(valid: seq<bool>, child: Array)
    requires Len(child) == |valid|
  {
    forall i :: 0 <= i < |valid| && IsNull(child, i) ==> !valid[i]
  }

  predicate StructOk(fields: seq<Field>, valid: seq<bool>, children: seq<Array>) {
    && |fields| == |children|
    && forall j :: 0 <= j < |fields| ==>
         && TypeOf(children[j]) == fields[j].dataType
         && Len(children[j]) == |valid|
         && (fields[j].nullable || Masked(valid, children[j]))
  }

  function NewStructArray(fields: seq<Field>, valid: seq<bool>, children: seq<Array>): Outcome<Array> {
    if StructOk(fields, valid, children) then Ok(StructArray(fields, valid, children)) else Panic
  }

  /** Constructor preconditions at every level of an array. */
  ghost predicate WellFormed(a: Array) {
    match a
    case PrimitiveArray(_, valid, cells) => |valid| == |cells|
    case ListArray(item, valid, offsets, child) => ListOk(item, valid, offsets, child) && WellFormed(child)
    case MapArray(entries, valid, offsets, child) => MapOk(entries, valid, offsets, child) && WellFormed(child)
    case StructArray(fields, valid, children) =>
      && StructOk(fields, valid, children)
      && forall j :: 0 <= j < |children| ==> WellFormed(children[j])
  }

  /** A batch without columns still has a row count: the reader makes such batches for empty
      projections. */
  datatype RecordBatch = RecordBatch(fields: seq<Field>, columns: seq<Array>, numRows: nat)

  predicate BatchOk(fields: seq<Field>, columns: seq<Array>) {
    && |fields| == |columns| > 0
    && forall j :: 0 <= j < |columns| ==>
         && Len(columns[j]) == Len(columns[0])
         && TypeOf(columns[j]) == fields[j].dataType
         && (fields[j].nullable || !HasNulls(columns[j]))
  }

  /** `RecordBatch::try_new`: as many columns as fields and at least one, equal lengths, matching
      types, and no null in a required column. A violation is an error, not a panic. */
  function NewRecordBatch(fields: seq<Field>, columns: seq<Array>): Outcome<RecordBatch> {
    if BatchOk(fields, columns) then Ok(RecordBatch(fields, columns, Len(columns[0]))) else Err(ArrowError)
  }
}
