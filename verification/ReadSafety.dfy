/** Reading arrays of any origin: a well-formed array never makes the reader panic, and every scalar
  that it gives has the type of its column and the content of its cell. */
module ReadSafety {
  import opened Values
  import opened Arrow
  import opened Conversion
  import opened RoundTrip
  import L = Leaves
  import D = Decimal256

  // ---------------------------------------------------------------- scalars

  /** A cell that a value buffer of this type can hold. */
  predicate CellFits(c: Cell, t: LeafType) {
    match t
    case TBoolean => c.BoolCell?
    case TInt8 => c.IntCell? && -0x80 <= c.i < 0x80
    case TInt16 => c.IntCell? && -0x8000 <= c.i < 0x8000
    case TInt32 => c.IntCell? && -0x8000_0000 <= c.i < 0x8000_0000
    case TInt64 => c.IntCell? && -0x8000_0000_0000_0000 <= c.i < 0x8000_0000_0000_0000
    case TUInt8 => c.IntCell? && 0 <= c.i < 0x100
    case TUInt16 => c.IntCell? && 0 <= c.i < 0x1_0000
    case TUInt32 => c.IntCell? && 0 <= c.i < 0x1_0000_0000
    case TUInt64 => c.IntCell? && 0 <= c.i < 0x1_0000_0000_0000_0000
    case TFloat16 => c.FloatCell?
    case TFloat32 => c.FloatCell?
    case TFloat64 => c.FloatCell?
    case TUtf8 => c.StrCell?
    case TBinary => c.BytesCell?
    case TFixedSizeBinary(n) => c.BytesCell? && |c.bytes| == n
    case TDate32 => c.IntCell? && -0x8000_0000 <= c.i < 0x8000_0000
    case TTime32(_) => c.IntCell? && -0x8000_0000 <= c.i < 0x8000_0000
    case TDate64 => c.IntCell? && -0x8000_0000_0000_0000 <= c.i < 0x8000_0000_0000_0000
    case TTime64(_) => c.IntCell? && -0x8000_0000_0000_0000 <= c.i < 0x8000_0000_0000_0000
    case TTimestamp(_, _) => c.IntCell? && -0x8000_0000_0000_0000 <= c.i < 0x8000_0000_0000_0000
    case TDecimal128(_, _) => c.IntCell? && I128_MIN <= c.i <= I128_MAX
    case TDecimal256(_, _) => c.BytesCell? && |c.bytes| == 32
  }

  /** The scalar has the variant of the column's type, and its unit, timezone or scale. */
  predicate OfType(l: Leaf, t: LeafType, uuid: bool) {
    match t
    case TBoolean => l.Boolean?
    case TInt8 => l.Int8?
    case TInt16 => l.Int16?
    case TInt32 => l.Int32?
    case TInt64 => l.Int64?
    case TUInt8 => l.UInt8?
    case TUInt16 => l.UInt16?
    case TUInt32 => l.UInt32?
    case TUInt64 => l.UInt64?
    case TFloat16 => l.Float16?
    case TFloat32 => l.Float32?
    case TFloat64 => l.Float64?
    case TUtf8 => l.Str?
    case TBinary => l.Bytes?
    case TFixedSizeBinary(_) => if uuid then l.Uuid? else l.Bytes?
    case TDate32 => l.Date32?
    case TDate64 => l.Date64?
    case TTime32(unit) => l.TimeMillis? && unit == Millisecond
    case TTime64(unit) => (l.TimeMicros? && unit == Microsecond) || (l.TimeNanos? && unit == Nanosecond)
    case TTimestamp(unit, tz) => l.Timestamp? && l.unit == unit && l.tz == tz
    case TDecimal128(_, s) => l.Decimal128? && l.s128 == s
    case TDecimal256(_, s) => l.Decimal256? && l.s256 == s
  }

  /** The scalar has the content of the cell. */
  predicate Holds(l: Leaf, c: Cell) {
    match l
    case Boolean(b) => c == BoolCell(b)
    case Int8(i) => c == IntCell(i)
    case Int16(i) => c == IntCell(i)
    case Int32(i) => c == IntCell(i)
    case Int64(i) => c == IntCell(i)
    case UInt8(i) => c == IntCell(i)
    case UInt16(i) => c == IntCell(i)
    case UInt32(i) => c == IntCell(i)
    case UInt64(i) => c == IntCell(i)
    case Float16(f) => c == FloatCell(f)
    case Float32(f) => c == FloatCell(f)
    case Float64(f) => c == FloatCell(f)
    case Str(s) => c == StrCell(s)
    case Bytes(b) => c == BytesCell(b)
    case Uuid(b) => c == BytesCell(b)
    case Date32(d) => c == IntCell(d)
    case Date64(d) => c == IntCell(d)
    case Decimal128(v, _) => c == IntCell(v)
    case Decimal256(v, _) => c.BytesCell? && |c.bytes| == 32 && v == D.Decimal256Value(c.bytes)
    case Timestamp(_, x, _) => c == IntCell(x)
    case TimeMillis(x) => c == IntCell(x)
    case TimeMicros(x) => c == IntCell(x)
    case TimeNanos(x) => c == IntCell(x)
  }

  /** Time units that no value has, and UUIDs that are not 16 bytes long. */
  predicate Unreadable(t: LeafType, uuid: bool) {
    || (t.TTime32? && t.unit32 != Millisecond)
    || (t.TTime64? && t.unit64 != Microsecond && t.unit64 != Nanosecond)
    || (t.TFixedSizeBinary? && uuid && t.size != 16)
  }

  /** Decoding a cell that fits its column is an error exactly for what cannot be read, and otherwise
      gives the scalar of the column's type with the cell's content. */
  lemma DecodeExact(c: Cell, t: LeafType, uuid: bool)
    requires CellFits(c, t)
    ensures var r := L.Decode(c, t, uuid);
            if Unreadable(t, uuid) then r == Err(ConversionError)
            else r.Ok? && OfType(r.value, t, uuid) && Holds(r.value, c)
  {
  }

  // ---------------------------------------------------------------- arrays

  ghost predicate CellsFit(a: Array) {
    match a
    case PrimitiveArray(t, valid, cells) =>
      |valid| == |cells| && forall i :: 0 <= i < |cells| && valid[i] ==> CellFits(cells[i], t)
    case ListArray(_, _, _, child) => CellsFit(child)
    case MapArray(_, _, _, child) => CellsFit(child)
    case StructArray(_, _, children) => forall j :: 0 <= j < |children| ==> CellsFit(children[j])
  }

  lemma {:induction false} CollectNoPanic<T>(rs: seq<Outcome<T>>)
    requires forall i :: 0 <= i < |rs| ==> rs[i] != Panic
    ensures Collect(rs) != Panic
  {
    if rs != [] { CollectNoPanic(rs[1..]); }
  }

  /** What is read from a slot: null exactly where the array is, a list or map of as many parts as the
      slot spans, or a scalar with the content of the cell. */
  ghost predicate Mirrors(v: Value, f: Field, p: ParquetType, a: Array, i: nat)
    requires i < Len(a)
  {
    (v == Null <==> IsNull(a, i)) &&
    (!IsNull(a, i) ==>
      match a
      case PrimitiveArray(t, _, cells) =>
        i < |cells| && v.Leaf? && OfType(v.leaf, t, MarksUuid(p) || f.uuid) && Holds(v.leaf, cells[i])
      case ListArray(_, _, offsets, _) => i + 1 < |offsets| && v.List? && |v.items| == offsets[i + 1] - offsets[i]
      case MapArray(_, _, offsets, _) => i + 1 < |offsets| && v.Map? && |v.entries| == offsets[i + 1] - offsets[i]
      case StructArray(_, _, _) => v.Record?)
  }

  /** Main result: whatever Arrow field and Parquet node a well-formed array is read with, the reader
      does not panic, and what it gives mirrors the slot. */
  lemma {:induction false} ReadSafe(f: Field, p: ParquetType, a: Array, i: nat)
    requires WellFormed(a) && CellsFit(a) && i < Len(a)
    ensures Read(f, p, a, i) != Panic
    ensures Read(f, p, a, i).Ok? ==> Mirrors(Read(f, p, a, i).value, f, p, a, i)
    decreases a, 1
  {
    if !IsNull(a, i) {
      match a
      case PrimitiveArray(t, _, cells) => DecodeExact(cells[i], t, MarksUuid(p) || f.uuid);
      case ListArray(_, _, _, _) => ReadListSafe(f, p, a, i);
      case MapArray(_, _, _, _) => ReadMapSafe(f, p, a, i);
      case StructArray(_, _, _) => ReadStructSafe(f, p, a, i);
    }
  }

  lemma {:induction false} ReadListSafe(f: Field, p: ParquetType, a: Array, i: nat)
    requires WellFormed(a) && CellsFit(a) && i < Len(a) && !IsNull(a, i) && a.ListArray?
    ensures Read(f, p, a, i) != Panic
    ensures Read(f, p, a, i).Ok? ==> Mirrors(Read(f, p, a, i).value, f, p, a, i)
    decreases a, 0
  {
    var start, n := a.offsets[i], a.offsets[i + 1] - a.offsets[i];
    RangeInside(a.offsets, i);
    var element := ElementType(p);
    if element.Ok? {
      var rs := ReadRange(a.item, element.value, a.child, start, n);
      forall k | 0 <= k < n
        ensures rs[k] != Panic
      {
        ReadSafe(a.item, element.value, a.child, start + k);
      }
      CollectNoPanic(rs);
    }
  }

  lemma {:induction false} RangeInside(offsets: seq<int>, i: nat)
    requires OffsetsOk(offsets) && i + 1 < |offsets|
    ensures 0 <= offsets[i] <= offsets[i + 1] <= offsets[|offsets| - 1]
  {
    OffsetsGrow(offsets, 0, i);
    OffsetsGrow(offsets, i + 1, |offsets| - 1);
  }

  lemma {:induction false} OffsetsGrow(offsets: seq<int>, i: nat, k: nat)
    requires OffsetsOk(offsets) && i <= k < |offsets|
    ensures offsets[i] <= offsets[k]
    decreases k
  {
    if i < k { OffsetsGrow(offsets, i, k - 1); }
  }

  lemma {:induction false} ReadMapSafe(f: Field, p: ParquetType, a: Array, i: nat)
    requires WellFormed(a) && CellsFit(a) && i < Len(a) && !IsNull(a, i) && a.MapArray?
    ensures Read(f, p, a, i) != Panic
    ensures Read(f, p, a, i).Ok? ==> Mirrors(Read(f, p, a, i).value, f, p, a, i)
    decreases a, 0
  {
    var start, n, child := a.offsets[i], a.offsets[i + 1] - a.offsets[i], a.child;
    RangeInside(a.offsets, i);
    var types := KeyValueTypes(p);
    if types.Ok? {
      var rs := ReadEntries(child.fields, types.value, child.children, start, n);
      forall k | 0 <= k < n
        ensures rs[k] != Panic
      {
        assert Len(child.children[0]) == Len(child.children[1]) == Len(child);
        ReadSafe(child.fields[0], types.value.0, child.children[0], start + k);
        ReadSafe(child.fields[1], types.value.1, child.children[1], start + k);
        assert rs[k] == Pair(Read(child.fields[0], types.value.0, child.children[0], start + k),
                             Read(child.fields[1], types.value.1, child.children[1], start + k));
      }
      CollectNoPanic(rs);
    }
  }

  lemma {:induction false} ReadStructSafe(f: Field, p: ParquetType, a: Array, i: nat)
    requires WellFormed(a) && CellsFit(a) && i < Len(a) && !IsNull(a, i) && a.StructArray?
    ensures Read(f, p, a, i) != Panic
    ensures Read(f, p, a, i).Ok? ==> Mirrors(Read(f, p, a, i).value, f, p, a, i)
    decreases a, 0
  {
    if p.GroupType? {
      forall j | 0 <= j < |a.fields|
        ensures FindByName(p.fields, a.fields[j].name).Some? ==>
                  Read(a.fields[j], FindByName(p.fields, a.fields[j].name).value, a.children[j], i) != Panic
      {
        var q := FindByName(p.fields, a.fields[j].name);
        if q.Some? { ReadSafe(a.fields[j], q.value, a.children[j], i); }
      }
      CollectNoPanic(ReadFields(a.fields, p.fields, a.children, i));
    }
  }

  // ---------------------------------------------------------------- layouts of other writers

  /** The layout of a list does not matter: with the standard three levels, with a repeated node that is
      itself the scalar element, or with the element's node in place of the list's, the same is read. */
  lemma ListLayouts(f: Field, element: ParquetType, name: string, repeated: string, a: Array, i: nat)
    requires a.ListArray? && element.PrimitiveType?
    ensures var p := GroupType(name, [GroupType(repeated, [element])]);
            && Read(f, GroupType(name, [element]), a, i) == Read(f, p, a, i)
            && Read(f, element, a, i) == Read(f, p, a, i)
  {
    var p := GroupType(name, [GroupType(repeated, [element])]);
    assert ElementType(p) == ElementType(GroupType(name, [element])) == ElementType(element) == Ok(element);
  }

  /** The nodes of a map's key and value are the first two of the group in its group; further nodes and
      further groups do not matter. */
  lemma MapLayouts(f: Field, name: string, group: string, nodes: seq<ParquetType>, more: seq<ParquetType>, a: Array,
                   i: nat)
    requires a.MapArray? && |nodes| >= 2
    ensures Read(f, GroupType(name, [GroupType(group, nodes)] + more), a, i)
            == Read(f, GroupType(name, [GroupType(group, nodes[..2])]), a, i)
  {
    assert KeyValueTypes(GroupType(name, [GroupType(group, nodes)] + more))
           == KeyValueTypes(GroupType(name, [GroupType(group, nodes[..2])])) == Ok((nodes[0], nodes[1]));
  }

  /** A list without an element node, a map without two nodes in a group of its group, a struct whose
      node is not a group or lacks one of its fields: errors, for every slot that is not null. */
  lemma BadLayouts(f: Field, p: ParquetType, a: Array, i: nat)
    requires WellFormed(a) && i < Len(a) && !IsNull(a, i)
    ensures a.ListArray? && p.GroupType? && (p.fields == [] || (p.fields[0].GroupType? && p.fields[0].fields == [])) ==>
              Read(f, p, a, i) == Err(ConversionError)
    ensures a.MapArray? && !(p.GroupType? && p.fields != [] && p.fields[0].GroupType? && |p.fields[0].fields| >= 2) ==>
              Read(f, p, a, i) == Err(ConversionError)
    ensures a.StructArray? && !p.GroupType? ==> Read(f, p, a, i) == Err(ConversionError)
    ensures a.StructArray? && p.GroupType?
            && (exists j :: 0 <= j < |a.fields| && FindByName(p.fields, a.fields[j].name).None?) ==>
              !Read(f, p, a, i).Ok?
  {
    if a.ListArray? || a.MapArray? { RangeInside(a.offsets, i); }
    if a.StructArray? && p.GroupType? {
      if j :| 0 <= j < |a.fields| && FindByName(p.fields, a.fields[j].name).None? {
        assert !ReadFields(a.fields, p.fields, a.children, i)[j].Ok?;
      }
    }
  }

  predicate DistinctNames(r: RecordEntries) {
    forall i, k :: 0 <= i < k < |r| ==> r[i].0 != r[k].0
  }

  /** No later field has the name of field j. */
  predicate LastOfName(fields: seq<Field>, j: nat)
    requires j < |fields|
  {
    forall m :: j < m < |fields| ==> fields[m].name != fields[j].name
  }

  /** A record that was read has every field's name once, with the value of the last field of that
      name, as when inserting into an IndexMap. */
  lemma {:induction false} InsertedEntries(fields: seq<Field>, vs: seq<Value>)
    requires |fields| == |vs|
    ensures var r := InsertAll(fields, vs);
            && DistinctNames(r)
            && (forall j :: 0 <= j < |fields| && LastOfName(fields, j) ==> (fields[j].name, vs[j]) in r)
            && (forall k :: 0 <= k < |r| ==>
                  exists j :: 0 <= j < |fields| && LastOfName(fields, j) && r[k] == (fields[j].name, vs[j]))
  {
    if fields != [] {
      var n := |fields| - 1;
      var before, r := InsertAll(fields[..n], vs[..n]), InsertAll(fields, vs);
      InsertedEntries(fields[..n], vs[..n]);
      InsertedOne(before, fields[n].name, vs[n]);
      forall j | 0 <= j < |fields| && LastOfName(fields, j)
        ensures (fields[j].name, vs[j]) in r
      {
        EntryKept(fields, vs, n, j);
      }
      forall k | 0 <= k < |r|
        ensures exists j :: 0 <= j < |fields| && LastOfName(fields, j) && r[k] == (fields[j].name, vs[j])
      {
        EntrySource(fields, vs, n, k);
      }
    }
  }

  lemma EntryKept(fields: seq<Field>, vs: seq<Value>, n: nat, j: nat)
    requires |fields| == |vs| == n + 1 && j <= n && LastOfName(fields, j)
    requires var before := InsertAll(fields[..n], vs[..n]);
             && DistinctNames(before)
             && (j < n && LastOfName(fields[..n], j) ==> (fields[j].name, vs[j]) in before)
    ensures (fields[j].name, vs[j]) in InsertAll(fields, vs)
  {
    var before, r := InsertAll(fields[..n], vs[..n]), InsertAll(fields, vs);
    InsertedOne(before, fields[n].name, vs[n]);
    if j < n {
      assert LastOfName(fields[..n], j);
      var k :| 0 <= k < |before| && before[k] == (fields[j].name, vs[j]);
      assert r[k] == before[k];
    }
  }

  lemma EntrySource(fields: seq<Field>, vs: seq<Value>, n: nat, k: nat)
    requires |fields| == |vs| == n + 1 && k < |InsertAll(fields, vs)|
    requires var before := InsertAll(fields[..n], vs[..n]);
             && DistinctNames(before)
             && (forall m :: 0 <= m < |before| ==>
                   exists j :: 0 <= j < n && LastOfName(fields[..n], j) && before[m] == (fields[j].name, vs[j]))
    ensures exists j ::
              0 <= j < |fields| && LastOfName(fields, j) && InsertAll(fields, vs)[k] == (fields[j].name, vs[j])
  {
    var before, r := InsertAll(fields[..n], vs[..n]), InsertAll(fields, vs);
    InsertedOne(before, fields[n].name, vs[n]);
    if r[k] == (fields[n].name, vs[n]) {
      assert LastOfName(fields, n);
    } else {
      var j :| 0 <= j < n && LastOfName(fields[..n], j) && before[k] == (fields[j].name, vs[j]);
      LastStays(fields, n, j);
    }
  }

  lemma LastStays(fields: seq<Field>, n: nat, j: nat)
    requires |fields| == n + 1 && j < n && LastOfName(fields[..n], j) && fields[j].name != fields[n].name
    ensures LastOfName(fields, j)
  {
    assert forall m :: j < m < n ==> fields[..n][m] == fields[m];
  }

  /** The place of a name among the entries, or behind them. */
  function Position(r: RecordEntries, name: string): (k: nat)
    ensures k <= |r| && (k < |r| ==> r[k].0 == name) && forall m :: 0 <= m < k ==> r[m].0 != name
  {
    if r == [] || r[0].0 == name then 0 else 1 + Position(r[1..], name)
  }

  /** One insertion replaces the entry of that name where it is, or goes to the end. */
  lemma {:induction false} InsertExact(r: RecordEntries, name: string, v: Value)
    ensures var k := Position(r, name);
            Insert(r, name, v) == if k < |r| then r[k := (name, v)] else r + [(name, v)]
  {
    if r != [] && r[0].0 != name {
      var k := Position(r[1..], name);
      InsertExact(r[1..], name, v);
      if k < |r| - 1 { ReplacedBehind(r, k, (name, v)); } else { AppendedBehind(r, (name, v)); }
    }
  }

  lemma ReplacedBehind(r: RecordEntries, k: nat, e: (string, Value))
    requires k + 1 < |r|
    ensures [r[0]] + r[1..][k := e] == r[k + 1 := e]
  {
  }

  lemma AppendedBehind(r: RecordEntries, e: (string, Value))
    requires r != []
    ensures [r[0]] + (r[1..] + [e]) == r + [e]
  {
  }

  lemma InsertedOne(r: RecordEntries, name: string, v: Value)
    requires DistinctNames(r)
    ensures var s := Insert(r, name, v);
            && |r| <= |s| <= |r| + 1 && DistinctNames(s) && (name, v) in s
            && (forall k :: 0 <= k < |s| ==> s[k] == (name, v) || (k < |r| && s[k] == r[k] && r[k].0 != name))
            && (forall k :: 0 <= k < |r| && r[k].0 != name ==> s[k] == r[k])
  {
    var k, s := Position(r, name), Insert(r, name, v);
    InsertExact(r, name, v);
    assert s[k] == (name, v);
    if k < |r| { DistinctReplaced(r, k, v); } else { DistinctAppended(r, name, v); }
  }

  lemma DistinctReplaced(r: RecordEntries, k: nat, v: Value)
    requires DistinctNames(r) && k < |r|
    ensures DistinctNames(r[k := (r[k].0, v)])
    ensures forall i :: 0 <= i < |r| && i != k ==> r[i].0 != r[k].0
  {
  }

  lemma DistinctAppended(r: RecordEntries, name: string, v: Value)
    requires DistinctNames(r) && forall m :: 0 <= m < |r| ==> r[m].0 != name
    ensures DistinctNames(r + [(name, v)])
  {
  }
}
