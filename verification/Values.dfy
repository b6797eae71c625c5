/** The value model: what a caller hands to the writer and gets back from the reader.

  A `Value` is a tree. Leaves carry the machine-width payload of the scalar variants;
  lists, maps and records nest. Strings and byte strings are immutable payloads. */
module Values {

  type byte = x: int | 0 <= x < 0x100
  type i8 = x: int | -0x80 <= x < 0x80
  type u8 = x: int | 0 <= x < 0x100
  type i16 = x: int | -0x8000 <= x < 0x8000
  type u16 = x: int | 0 <= x < 0x1_0000
  type i32 = x: int | -0x8000_0000 <= x < 0x8000_0000
  type u32 = x: int | 0 <= x < 0x1_0000_0000
  type i64 = x: int | -0x8000_0000_0000_0000 <= x < 0x8000_0000_0000_0000
  type u64 = x: int | 0 <= x < 0x1_0000_0000_0000_0000
  type i128 = x: int | I128_MIN <= x <= I128_MAX

  const I128_MAX: int := 0x7fff_ffff_ffff_ffff_ffff_ffff_ffff_ffff
  const I128_MIN: int := -0x8000_0000_0000_0000_0000_0000_0000_0000

  function Min(a: nat, b: nat): nat {
    if a <= b then a else b
  }

  function Max(a: nat, b: nat): nat {
    if a >= b then a else b
  }

  lemma {:induction false} SubsetOfSameSize<T>(a: set<T>, b: set<T>)
    requires a <= b && |a| == |b|
    ensures a == b
  {
    if a != {} {
      var x :| x in a;
      SubsetOfSameSize(a - {x}, b - {x});
    }
  }

  datatype Option<+T> = None | Some(value: T)

  /** The error classes that the crate distinguishes; messages are not modelled. */
  datatype Error = SchemaError | ConversionError | ArrowError | IoError

  /** What a fallible operation does: return a value, return an error, or panic. */
  datatype Outcome<+T> = Ok(value: T) | Err(error: Error) | Panic {
    predicate IsFailure() {
      !Ok?
    }

    function PropagateFailure<U>(): Outcome<U>
      requires IsFailure()
    {
      if Err? then Err(error) else Panic
    }

    function Extract(): T
      requires !IsFailure()
    {
      value
    }
  }

  /** `collect::<Result<Vec<_>>>`: all values, or the first failure. */
  function Collect<T>(rs: seq<Outcome<T>>): (r: Outcome<seq<T>>)
    ensures r.Ok? <==> forall i :: 0 <= i < |rs| ==> rs[i].Ok?
    ensures r.Ok? ==> |r.value| == |rs| && forall i :: 0 <= i < |rs| ==> rs[i] == Ok(r.value[i])
  {
    if rs == [] then Ok([])
    else
      var x :- rs[0];
      var rest :- Collect(rs[1..]);
      Ok([x] + rest)
  }

  lemma {:induction false} CollectValues<T>(rs: seq<Outcome<T>>, vs: seq<T>)
    requires |rs| == |vs| && forall i :: 0 <= i < |rs| ==> rs[i] == Ok(vs[i])
    ensures Collect(rs) == Ok(vs)
  {
    assert Collect(rs).value == vs;
  }

  lemma {:induction false} CollectFailure<T>(rs: seq<Outcome<T>>, i: nat)
    requires i < |rs| && !rs[i].Ok? && forall k :: 0 <= k < i ==> rs[k].Ok?
    ensures Collect(rs) == rs[i].PropagateFailure<seq<T>>()
  {
    if i > 0 { CollectFailure(rs[1..], i - 1); }
  }

  /** An IEEE number as `OrderedFloat` sees it, NaN payloads aside. */
  datatype Float = NaN | Infinity(negative: bool) | Zero(negative: bool) | Finite(r: real)

  datatype TimeUnit = Second | Millisecond | Microsecond | Nanosecond

  /** The scalar variants. The four timestamp variants are one constructor indexed by unit. */
  datatype Leaf =
    | Boolean(b: bool)
    | Int8(i8: i8) | Int16(i16: i16) | Int32(i32: i32) | Int64(i64: i64)
    | UInt8(u8: u8) | UInt16(u16: u16) | UInt32(u32: u32) | UInt64(u64: u64)
    | Float16(f16: Float) | Float32(f32: Float) | Float64(f64: Float)
    | Str(s: string)
    | Bytes(bytes: seq<byte>)
    | Uuid(uuid: seq<byte>)
    | Date32(days: i32) | Date64(millis: i64)
    | Decimal128(v128: i128, s128: i8)
    | Decimal256(v256: int, s256: i8)
    | Timestamp(unit: TimeUnit, t: i64, tz: Option<string>)
    | TimeMillis(tms: i32) | TimeMicros(tus: i64) | TimeNanos(tns: i64)

  /** A record is an insertion-ordered list of entries, as in an `IndexMap`. */
  type RecordEntries = seq<(string, Value)>

  datatype Value =
    | Null
    | Leaf(leaf: Leaf)
    | List(items: seq<Value>)
    | Map(entries: seq<(Value, Value)>)
    | Record(fields: RecordEntries)

  /** One value per column. */
  type Row = seq<Value>

  /** Record lookup: the entry for `name`, if there is one. */
  function Lookup(r: RecordEntries, name: string): (v: Option<Value>)
    ensures v.None? <==> forall k :: 0 <= k < |r| ==> r[k].0 != name
    ensures v.Some? ==> exists k :: 0 <= k < |r| && r[k] == (name, v.value)
  {
    if r == [] then None
    else if r[0].0 == name then
      assert r[0] == (name, r[0].1);
      Some(r[0].1)
    else
      var rest := Lookup(r[1..], name);
      assert forall k :: 0 < k < |r| ==> r[k] == r[1..][k - 1];
      assert forall k :: 0 <= k < |r| - 1 ==> r[1..][k] == r[k + 1];
      rest
  }

  function LookupOrNull(r: RecordEntries, name: string): Value {
    match Lookup(r, name)
    case Some(v) => v
    case None => Null
  }
}
