/** Main results on nested conversion: what is built from a column of values reads back as the
  normal forms of those values, at any nesting depth, and the validator admits exactly the
  columns for which building cannot fail, units aside. */
module RoundTrip {
  import opened Values
  import opened Arrow
  import opened Schema
  import opened Conversion
  import L = Leaves

  // ---------------------------------------------------------------- specification

  /** The value that a column of field `f` gives back for `v`: leaves are coerced to the column
      type, records have exactly the field's entries in schema order, missing ones null. */
  function Normal(v: Value, f: Field): Value
    decreases f, v
  {
    match (v, f.dataType)
    case (Leaf(l), Primitive(t)) => Leaf(L.Coerce(l, t, f.uuid))
    case (List(items), ListOf(item)) =>
      Value.List(seq(|items|, k requires 0 <= k < |items| => Normal(items[k], item)))
    case (Map(es), MapOf(entries)) =>
      if entries.dataType.StructOf? && |entries.dataType.fields| == 2 then
        var kv := entries.dataType.fields;
        Value.Map(seq(|es|, k requires 0 <= k < |es| => (Normal(es[k].0, kv[0]), Normal(es[k].1, kv[1]))))
      else v
    case (Record(r), StructOf(fields)) =>
      Record(seq(|fields|, j requires 0 <= j < |fields| =>
        (fields[j].name, Normal(LookupOrNull(r, fields[j].name), fields[j]))))
    case _ => v
  }

  /** `validate_value_against_field`; a failure is always a schema error. */
  predicate Accepts(v: Value, f: Field)
    decreases f, v
  {
    match (v, f.dataType)
    case (Null, _) => f.nullable
    case (Leaf(l), Primitive(t)) => L.AcceptsLeaf(l, t)
    case (List(items), ListOf(item)) => forall k :: 0 <= k < |items| ==> Accepts(items[k], item)
    case (Map(es), MapOf(entries)) =>
      entries.dataType.StructOf? && |entries.dataType.fields| >= 2 ==>
        forall k :: 0 <= k < |es| ==>
          Accepts(es[k].0, entries.dataType.fields[0]) && Accepts(es[k].1, entries.dataType.fields[1])
    case (Record(r), StructOf(fields)) =>
      forall j :: 0 <= j < |fields| ==>
        var x := Lookup(r, fields[j].name);
        if x.Some? then Accepts(x.value, fields[j]) else fields[j].nullable
    case _ => false
  }

  /** Every time and timestamp leaf under a schema field has that field's unit. */
  predicate UnitsAgree(v: Value, f: Field)
    decreases f, v
  {
    match (v, f.dataType)
    case (Leaf(l), Primitive(t)) => L.LeafUnitAgrees(l, t)
    case (List(items), ListOf(item)) => forall k :: 0 <= k < |items| ==> UnitsAgree(items[k], item)
    case (Map(es), MapOf(entries)) =>
      entries.dataType.StructOf? && |entries.dataType.fields| >= 2 ==>
        forall k :: 0 <= k < |es| ==>
          UnitsAgree(es[k].0, entries.dataType.fields[0]) && UnitsAgree(es[k].1, entries.dataType.fields[1])
    case (Record(r), StructOf(fields)) =>
      forall j :: 0 <= j < |fields| ==> UnitsAgree(LookupOrNull(r, fields[j].name), fields[j])
    case _ => true
  }

  /** No 32-bit offset is exceeded: every flattened child column has fewer than 2^31 items, and the
      values of every string or binary column have fewer than 2^31 bytes in all. */
  predicate Fits(values: seq<Value>, f: Field)
    decreases f
  {
    match f.dataType
    case Primitive(t) => BytesFit(values, t)
    case ListOf(item) =>
      |FlatMap(values, ItemsOf)| < 0x8000_0000 && Fits(FlatMap(values, ItemsOf), item)
    case MapOf(entries) =>
      entries.dataType.StructOf? && |entries.dataType.fields| == 2 ==>
        && |FlatMap(values, KeysOf)| < 0x8000_0000
        && Fits(FlatMap(values, KeysOf), entries.dataType.fields[0])
        && Fits(FlatMap(values, ValuesOf), entries.dataType.fields[1])
    case StructOf(fields) =>
      forall j :: 0 <= j < |fields| ==> Fits(Column(values, fields[j].name), fields[j])
  }

  /** The node carries the UUID logical type. */
  predicate MarksUuid(p: ParquetType) {
    p.PrimitiveType? && p.uuid
  }

  /** The Parquet schema node `p` leads the reader to the right places for the Arrow field `f`, and
      the UUID type annotates byte strings of length 16 only (LogicalTypes.md, section "UUID").
      Lists may have the three-level layout or a repeated primitive element. */
  predicate Describes(p: ParquetType, f: Field)
    decreases f
  {
    match f.dataType
    case Primitive(t) => MarksUuid(p) && t.TFixedSizeBinary? ==> t.size == 16
    case ListOf(item) => ElementType(p).Ok? && Describes(ElementType(p).value, item)
    case MapOf(entries) =>
      && KeyValueTypes(p).Ok?
      && (entries.dataType.StructOf? && |entries.dataType.fields| == 2 ==>
            && Describes(KeyValueTypes(p).value.0, entries.dataType.fields[0])
            && Describes(KeyValueTypes(p).value.1, entries.dataType.fields[1]))
    case StructOf(fields) =>
      && p.GroupType?
      && forall j :: 0 <= j < |fields| ==>
           var q := FindByName(p.fields, fields[j].name);
           q.Some? && Describes(q.value, fields[j])
  }

  /** The field as the reader takes it: a column of 16-byte strings holds UUIDs when its Arrow field
      carries the extension or its Parquet node the logical type, at every depth. */
  function Marked(f: Field, p: ParquetType): (g: Field)
    ensures g.name == f.name && g.nullable == f.nullable
    decreases f
  {
    match f.dataType
    case Primitive(t) => f.(uuid := f.uuid || (MarksUuid(p) && t == TFixedSizeBinary(16)))
    case ListOf(item) =>
      if ElementType(p).Ok? then f.(dataType := ListOf(Marked(item, ElementType(p).value))) else f
    case MapOf(entries) =>
      if KeyValueTypes(p).Ok? && entries.dataType.StructOf? && |entries.dataType.fields| == 2 then
        var kv, types := entries.dataType.fields, KeyValueTypes(p).value;
        f.(dataType := MapOf(entries.(dataType := StructOf([Marked(kv[0], types.0), Marked(kv[1], types.1)]))))
      else f
    case StructOf(fields) =>
      if p.GroupType? then f.(dataType := StructOf(MarkedFields(fields, p.fields))) else f
  }

  function MarkedFields(fields: seq<Field>, ps: seq<ParquetType>): (gs: seq<Field>)
    ensures |gs| == |fields| && forall j :: 0 <= j < |fields| ==> gs[j].name == fields[j].name
    decreases fields
  {
    seq(|fields|, j requires 0 <= j < |fields| =>
      match FindByName(ps, fields[j].name)
      case None => fields[j]
      case Some(q) => Marked(fields[j], q))
  }

  // ---------------------------------------------------------------- flattening facts

  lemma {:induction false} FlatMapSlice(values: seq<Value>, parts: Value -> seq<Value>, i: nat)
    requires i < |values|
    ensures var start, all := |FlatMap(values[..i], parts)|, FlatMap(values, parts);
            && start + |parts(values[i])| == |FlatMap(values[..i + 1], parts)| <= |all|
            && all[start..start + |parts(values[i])|] == parts(values[i])
    decreases |values|
  {
    var n := |values| - 1;
    assert values == values[..n] + [values[n]];
    assert values[..i + 1] == values[..i] + [values[i]];
    FlatMapAppend(values[..i], values[i], parts);
    if i < n {
      FlatMapSlice(values[..n], parts, i);
      assert values[..n][..i] == values[..i] && values[..n][..i + 1] == values[..i + 1];
    } else {
      assert values[..n + 1] == values;
    }
  }

  /** Without wrapping, slot i of the offsets delimits the parts of value i. */
  lemma OffsetAt(values: seq<Value>, parts: Value -> seq<Value>, i: nat)
    requires |FlatMap(values, parts)| < 0x8000_0000 && i < |values|
    ensures var start, end := Offsets(values, parts)[i], Offsets(values, parts)[i + 1];
            && 0 <= start == |FlatMap(values[..i], parts)|
            && end == start + |parts(values[i])| <= |FlatMap(values, parts)|
            && FlatMap(values, parts)[start..end] == parts(values[i])
  {
    FlatMapSlice(values, parts, i);
  }

  lemma OffsetsMonotone(values: seq<Value>, parts: Value -> seq<Value>)
    requires |FlatMap(values, parts)| < 0x8000_0000
    ensures OffsetsOk(Offsets(values, parts))
    ensures Offsets(values, parts)[|values|] == |FlatMap(values, parts)|
  {
    assert values[..|values|] == values;
    var offsets := Offsets(values, parts);
    forall i | 0 < i < |offsets|
      ensures offsets[i - 1] <= offsets[i]
    {
      OffsetAt(values, parts, i - 1);
    }
  }

  lemma {:induction false} KeysValuesAligned(values: seq<Value>)
    ensures |FlatMap(values, KeysOf)| == |FlatMap(values, ValuesOf)|
  {
    if values != [] { KeysValuesAligned(values[..|values| - 1]); }
  }

  // ---------------------------------------------------------------- reading what was built

  /** Every builder records the validity of its input and has the field's type. */
  lemma BuildShape(values: seq<Value>, f: Field)
    requires Build(values, f).Ok?
    ensures var a := Build(values, f).value;
            a.valid == Validity(values) && TypeOf(a) == f.dataType && Len(a) == |values|
  {
  }

  /** Main result: whenever building succeeds and no offset wraps, every slot reads back as the
      normal form of the value that was put there. */
  lemma {:induction false} ReadBuilt(values: seq<Value>, f: Field, p: ParquetType, i: nat)
    requires FieldOk(f) && Describes(p, f) && Fits(values, f)
    requires Build(values, f).Ok? && i < |values|
    ensures Read(f, p, Build(values, f).value, i) == Ok(Normal(values[i], Marked(f, p)))
    decreases f, 1
  {
    BuildShape(values, f);
    if values[i] != Null {
      match f.dataType
      case Primitive(t) => ReadPrimitive(values, f, p, i);
      case ListOf(item) => ReadList(values, f, p, i);
      case MapOf(entries) => ReadMap(values, f, p, i);
      case StructOf(fields) => ReadStruct(values, f, p, i);
    }
  }

  lemma ReadPrimitive(values: seq<Value>, f: Field, p: ParquetType, i: nat)
    requires FieldOk(f) && Describes(p, f) && f.dataType.Primitive?
    requires Build(values, f).Ok? && i < |values| && values[i] != Null
    ensures Read(f, p, Build(values, f).value, i) == Ok(Normal(values[i], Marked(f, p)))
    decreases f, 0
  {
    var a := Build(values, f).value;
    CellStored(values, f.dataType.leaf, i, a);
    CellReads(f, p, values[i].leaf, a.cells[i]);
    ReadCell(f, p, a, i, values[i].leaf);
  }

  lemma CellReads(f: Field, p: ParquetType, l: Leaf, cell: Cell)
    requires FieldOk(f) && Describes(p, f) && f.dataType.Primitive?
    requires L.BuilderFor(f.dataType.leaf).Ok? && L.Encode(l, f.dataType.leaf) == Ok(cell)
    ensures L.Decode(cell, f.dataType.leaf, MarksUuid(p) || f.uuid)
            == Ok(L.Coerce(l, f.dataType.leaf, Marked(f, p).uuid))
  {
    L.EncodeDecode(l, f.dataType.leaf, MarksUuid(p) || f.uuid);
    L.MarkedCoerce(l, f.dataType.leaf, f.uuid, MarksUuid(p));
  }

  lemma CellStored(values: seq<Value>, t: LeafType, i: nat, a: Array)
    requires BuildPrimitive(values, t) == Ok(a) && i < |values| && values[i] != Null
    ensures L.BuilderFor(t).Ok? && a.PrimitiveArray? && a.leaf == t && |a.valid| == |a.cells| == |values| && a.valid[i]
    ensures values[i].Leaf? && L.Encode(values[i].leaf, t) == Ok(a.cells[i])
  {
    assert EncodeSlot(values, t, i) == EncodeAll(values, t)[i] == Ok(a.cells[i]);
  }

  lemma ReadCell(f: Field, p: ParquetType, a: Array, i: nat, l: Leaf)
    requires f.dataType.Primitive? && a.PrimitiveArray? && i < Len(a) && !IsNull(a, i) && i < |a.cells|
    requires var uuid := Marked(f, p).uuid;
             L.Decode(a.cells[i], a.leaf, MarksUuid(p) || f.uuid) == Ok(L.Coerce(l, f.dataType.leaf, uuid))
    ensures Read(f, p, a, i) == Ok(Normal(Leaf(l), Marked(f, p)))
  {
  }

  /** A byte string of fixed length is a UUID exactly when the Parquet node or the Arrow field says so,
      and then it must have 16 bytes, whichever of the two it is. */
  lemma UuidSlot(f: Field, p: ParquetType, a: Array, i: nat)
    requires a.PrimitiveArray? && a.leaf.TFixedSizeBinary? && i < Len(a) && !IsNull(a, i)
    requires i < |a.cells| && a.cells[i].BytesCell?
    ensures var b, marked := a.cells[i].bytes, (p.PrimitiveType? && p.uuid) || f.uuid;
            && (Read(f, p, a, i) == Ok(Leaf(Uuid(b))) <==> marked && |b| == 16)
            && (Read(f, p, a, i) == Ok(Leaf(Bytes(b))) <==> !marked)
            && (Read(f, p, a, i) == Err(ConversionError) <==> marked && |b| != 16)
  {
  }

  lemma {:induction false} ReadList(values: seq<Value>, f: Field, p: ParquetType, i: nat)
    requires FieldOk(f) && Describes(p, f) && Fits(values, f) && f.dataType.ListOf?
    requires Build(values, f).Ok? && i < |values| && values[i] != Null
    ensures Read(f, p, Build(values, f).value, i) == Ok(Normal(values[i], Marked(f, p)))
    decreases f, 0
  {
    var a, all := Build(values, f).value, FlatMap(values, ItemsOf);
    ListShape(values, f);
    ListGuided(values, f, p);
    OffsetAt(values, ItemsOf, i);
    assert all[a.offsets[i]..a.offsets[i + 1]] == values[i].items;
    var ns := ListSlot(all, f.dataType.item, ElementType(p).value, a.child, a.offsets[i], a.offsets[i + 1]);
    ReadListSlot(f, p, a, i, ns);
    MarkedList(values[i], f, p, ns);
  }

  lemma ListGuided(values: seq<Value>, f: Field, p: ParquetType)
    requires FieldOk(f) && Describes(p, f) && Fits(values, f) && f.dataType.ListOf?
    ensures FieldOk(f.dataType.item) && ElementType(p).Ok? && Describes(ElementType(p).value, f.dataType.item)
    ensures var all := FlatMap(values, ItemsOf); |all| < 0x8000_0000 && Fits(all, f.dataType.item)
  {
  }

  /** The reads of a range of the child are the normal forms of the items in that range. */
  lemma {:induction false} ListSlot(all: seq<Value>, item: Field, element: ParquetType, child: Array, start: nat,
                                    end: nat)
    returns (ns: seq<Value>)
    requires FieldOk(item) && Describes(element, item) && Fits(all, item)
    requires Build(all, item) == Ok(child) && start <= end <= |all|
    ensures ns == Normals(all[start..end], Marked(item, element))
    ensures Collect(ReadRange(item, element, child, start, end - start)) == Ok(ns)
    decreases item, 3
  {
    ReadSlice(all, item, element, child, start, end);
    ns := Normals(all[start..end], Marked(item, element));
    CollectValues(ReadRange(item, element, child, start, end - start), ns);
  }

  lemma ReadListSlot(f: Field, p: ParquetType, a: Array, i: nat, items: seq<Value>)
    requires a.ListArray? && i < Len(a) && !IsNull(a, i) && i + 1 < |a.offsets|
    requires 0 <= a.offsets[i] <= a.offsets[i + 1] && ElementType(p).Ok?
    requires var start, n := a.offsets[i], a.offsets[i + 1] - a.offsets[i];
             Collect(ReadRange(a.item, ElementType(p).value, a.child, start, n)) == Ok(items)
    ensures Read(f, p, a, i) == Ok(Value.List(items))
  {
  }

  lemma ListShape(values: seq<Value>, f: Field)
    requires f.dataType.ListOf? && Build(values, f).Ok?
    ensures AllLists(values)
    ensures var a := Build(values, f).value;
            && a.ListArray? && a.item == f.dataType.item
            && a.valid == Validity(values) && a.offsets == Offsets(values, ItemsOf)
            && Build(FlatMap(values, ItemsOf), f.dataType.item) == Ok(a.child)
  {
  }

  lemma NormalList(v: Value, f: Field, ns: seq<Value>)
    requires v.List? && f.dataType.ListOf? && ns == Normals(v.items, f.dataType.item)
    ensures Normal(v, f) == Value.List(ns)
  {
  }

  lemma MarkedList(v: Value, f: Field, p: ParquetType, ns: seq<Value>)
    requires v.List? && f.dataType.ListOf? && ElementType(p).Ok?
    requires ns == Normals(v.items, Marked(f.dataType.item, ElementType(p).value))
    ensures Normal(v, Marked(f, p)) == Value.List(ns)
  {
    NormalList(v, Marked(f, p), ns);
  }

  /** The reads of a child slice give the normal forms of the flattened items in that slice. */
  lemma {:induction false} ReadSlice(all: seq<Value>, item: Field, p: ParquetType, child: Array, start: nat, end: nat)
    requires FieldOk(item) && Describes(p, item) && Fits(all, item)
    requires Build(all, item) == Ok(child) && start <= end <= |all|
    ensures var slots, ns := ReadRange(item, p, child, start, end - start), Normals(all[start..end], Marked(item, p));
            |ns| == end - start && forall k :: 0 <= k < |slots| ==> slots[k] == Ok(ns[k])
    decreases item, 2
  {
    forall i | start <= i < end
      ensures Read(item, p, child, i) == Ok(Normal(all[i], Marked(item, p)))
    {
      ReadBuilt(all, item, p, i);
    }
    SliceReads(all, item, p, child, start, end);
  }

  lemma SliceReads(all: seq<Value>, item: Field, p: ParquetType, child: Array, start: nat, end: nat)
    requires start <= end <= |all|
    requires forall i :: start <= i < end ==> Read(item, p, child, i) == Ok(Normal(all[i], Marked(item, p)))
    ensures var slots, ns := ReadRange(item, p, child, start, end - start), Normals(all[start..end], Marked(item, p));
            |ns| == end - start && forall k :: 0 <= k < |slots| ==> slots[k] == Ok(ns[k])
  {
  }

  function Normals(values: seq<Value>, f: Field): (ns: seq<Value>)
    ensures |ns| == |values|
    ensures forall k :: 0 <= k < |values| ==> ns[k] == Normal(values[k], f)
  {
    seq(|values|, k requires 0 <= k < |values| => Normal(values[k], f))
  }

  lemma {:induction false} ReadMap(values: seq<Value>, f: Field, p: ParquetType, i: nat)
    requires FieldOk(f) && Describes(p, f) && Fits(values, f) && f.dataType.MapOf?
    requires Build(values, f).Ok? && i < |values| && values[i] != Null
    ensures Read(f, p, Build(values, f).value, i) == Ok(Normal(values[i], Marked(f, p)))
    decreases f, 0
  {
    var kv, a := f.dataType.entries.dataType.fields, Build(values, f).value;
    MapShape(values, f);
    OffsetAt(values, KeysOf, i);
    EntriesAligned(values, i);
    var start, end := a.offsets[i], a.offsets[i + 1];
    var nks, nvs := MapSlot(FlatMap(values, KeysOf), FlatMap(values, ValuesOf), kv, KeyValueTypes(p).value,
                            a.child.children, start, end);
    ReadMapSlot(f, p, a, i, Zip(nks, nvs));
    MarkedMap(values[i], f, p, nks, nvs);
  }

  /** Keys and values are flattened in step, so one offset serves both. */
  lemma EntriesAligned(values: seq<Value>, i: nat)
    requires |FlatMap(values, KeysOf)| < 0x8000_0000 && i < |values|
    ensures |FlatMap(values, KeysOf)| == |FlatMap(values, ValuesOf)|
    ensures var start, end := Offsets(values, KeysOf)[i], Offsets(values, KeysOf)[i + 1];
            && 0 <= start <= end <= |FlatMap(values, ValuesOf)|
            && FlatMap(values, ValuesOf)[start..end] == ValuesOf(values[i])
  {
    KeysValuesAligned(values);
    KeysValuesAligned(values[..i]);
    OffsetAt(values, KeysOf, i);
    FlatMapSlice(values, ValuesOf, i);
  }

  lemma {:induction false} MapSlot(ks: seq<Value>, vs: seq<Value>, kv: seq<Field>, types: (ParquetType, ParquetType),
                                   children: seq<Array>, start: nat, end: nat)
    returns (nks: seq<Value>, nvs: seq<Value>)
    requires |kv| == |children| == 2 && |ks| == |vs| && start <= end <= |ks|
    requires FieldOk(kv[0]) && Describes(types.0, kv[0]) && Fits(ks, kv[0]) && Build(ks, kv[0]) == Ok(children[0])
    requires FieldOk(kv[1]) && Describes(types.1, kv[1]) && Fits(vs, kv[1]) && Build(vs, kv[1]) == Ok(children[1])
    ensures nks == Normals(ks[start..end], Marked(kv[0], types.0))
    ensures nvs == Normals(vs[start..end], Marked(kv[1], types.1))
    ensures Collect(ReadEntries(kv, types, children, start, end - start)) == Ok(Zip(nks, nvs))
    decreases kv, 3
  {
    ReadSlice(ks, kv[0], types.0, children[0], start, end);
    ReadSlice(vs, kv[1], types.1, children[1], start, end);
    nks, nvs := Normals(ks[start..end], Marked(kv[0], types.0)), Normals(vs[start..end], Marked(kv[1], types.1));
    ZipReads(kv, types, children, start, end - start, nks, nvs);
  }

  lemma ReadMapSlot(f: Field, p: ParquetType, a: Array, i: nat, entries: seq<(Value, Value)>)
    requires a.MapArray? && i < Len(a) && !IsNull(a, i) && i + 1 < |a.offsets| && 0 <= a.offsets[i] <= a.offsets[i + 1]
    requires a.child.StructArray? && |a.child.children| == |a.child.fields| == 2 && KeyValueTypes(p).Ok?
    requires Collect(ReadEntries(a.child.fields, KeyValueTypes(p).value, a.child.children, a.offsets[i],
                                 a.offsets[i + 1] - a.offsets[i])) == Ok(entries)
    ensures Read(f, p, a, i) == Ok(Value.Map(entries))
  {
  }

  lemma MapShape(values: seq<Value>, f: Field)
    requires f.dataType.MapOf? && Build(values, f).Ok?
    ensures AllMaps(values)
    ensures var a, entries := Build(values, f).value, f.dataType.entries;
            && entries.dataType.StructOf? && |entries.dataType.fields| == 2
            && a.MapArray? && a.valid == Validity(values) && a.offsets == Offsets(values, KeysOf)
            && a.child.StructArray? && a.child.fields == entries.dataType.fields && |a.child.children| == 2
            && Build(FlatMap(values, KeysOf), entries.dataType.fields[0]) == Ok(a.child.children[0])
            && Build(FlatMap(values, ValuesOf), entries.dataType.fields[1]) == Ok(a.child.children[1])
  {
  }

  lemma ZipReads(kv: seq<Field>, types: (ParquetType, ParquetType), children: seq<Array>, start: nat, n: nat,
                 ks: seq<Value>, vs: seq<Value>)
    requires |kv| == |children| == 2 && |ks| == |vs| == n
    requires forall k :: 0 <= k < n ==> ReadRange(kv[0], types.0, children[0], start, n)[k] == Ok(ks[k])
    requires forall k :: 0 <= k < n ==> ReadRange(kv[1], types.1, children[1], start, n)[k] == Ok(vs[k])
    ensures Collect(ReadEntries(kv, types, children, start, n)) == Ok(Zip(ks, vs))
  {
    var slots := ReadEntries(kv, types, children, start, n);
    forall k | 0 <= k < n
      ensures slots[k] == Ok((ks[k], vs[k]))
    {
      var rk, rv := Read(kv[0], types.0, children[0], start + k), Read(kv[1], types.1, children[1], start + k);
      assert rk == ReadRange(kv[0], types.0, children[0], start, n)[k];
      assert rv == ReadRange(kv[1], types.1, children[1], start, n)[k];
      assert slots[k] == Pair(rk, rv);
    }
    CollectValues(slots, Zip(ks, vs));
  }

  function Zip(ks: seq<Value>, vs: seq<Value>): (ps: seq<(Value, Value)>)
    requires |ks| == |vs|
    ensures |ps| == |ks|
  {
    seq(|ks|, k requires 0 <= k < |ks| => (ks[k], vs[k]))
  }

  lemma NormalMap(v: Value, f: Field, nks: seq<Value>, nvs: seq<Value>)
    requires v.Map? && f.dataType.MapOf? && f.dataType.entries.dataType.StructOf?
    requires |f.dataType.entries.dataType.fields| == 2
    requires nks == Normals(KeysOf(v), f.dataType.entries.dataType.fields[0])
    requires nvs == Normals(ValuesOf(v), f.dataType.entries.dataType.fields[1])
    ensures Normal(v, f) == Value.Map(Zip(nks, nvs))
  {
  }

  lemma MarkedMap(v: Value, f: Field, p: ParquetType, nks: seq<Value>, nvs: seq<Value>)
    requires v.Map? && f.dataType.MapOf? && f.dataType.entries.dataType.StructOf?
    requires |f.dataType.entries.dataType.fields| == 2 && KeyValueTypes(p).Ok?
    requires nks == Normals(KeysOf(v), Marked(f.dataType.entries.dataType.fields[0], KeyValueTypes(p).value.0))
    requires nvs == Normals(ValuesOf(v), Marked(f.dataType.entries.dataType.fields[1], KeyValueTypes(p).value.1))
    ensures Normal(v, Marked(f, p)) == Value.Map(Zip(nks, nvs))
  {
    NormalMap(v, Marked(f, p), nks, nvs);
  }

  lemma {:induction false} ReadStruct(values: seq<Value>, f: Field, p: ParquetType, i: nat)
    requires FieldOk(f) && Describes(p, f) && Fits(values, f) && f.dataType.StructOf?
    requires Build(values, f).Ok? && i < |values| && values[i] != Null
    ensures Read(f, p, Build(values, f).value, i) == Ok(Normal(values[i], Marked(f, p)))
    decreases f, 0
  {
    var fields, a := f.dataType.fields, Build(values, f).value;
    var gs := MarkedFields(fields, p.fields);
    StructShape(values, f);
    forall j | 0 <= j < |fields|
      ensures FindByName(p.fields, fields[j].name).Some?
      ensures Read(fields[j], FindByName(p.fields, fields[j].name).value, a.children[j], i)
              == Ok(Normal(FieldOrNull(values[i], fields[j].name), gs[j]))
    {
      ReadBuilt(Column(values, fields[j].name), fields[j], FindByName(p.fields, fields[j].name).value, i);
    }
    var vs := NormalFields(values[i], gs);
    FieldReads(fields, p.fields, a.children, i, values[i]);
    ReadStructSlot(f, p, a, i, vs);
    InsertDistinct(fields, vs);
    RecordSlot(values[i], f, p, vs);
  }

  lemma RecordSlot(v: Value, f: Field, p: ParquetType, vs: seq<Value>)
    requires v.Record? && f.dataType.StructOf? && p.GroupType?
    requires var fields := f.dataType.fields;
             && vs == NormalFields(v, MarkedFields(fields, p.fields))
             && InsertAll(fields, vs) == seq(|fields|, j requires 0 <= j < |fields| => (fields[j].name, vs[j]))
    ensures Normal(v, Marked(f, p)) == Record(InsertAll(f.dataType.fields, vs))
  {
    NormalRecord(v, Marked(f, p), vs);
    assert Normal(v, Marked(f, p)).fields == InsertAll(f.dataType.fields, vs);
  }

  lemma StructShape(values: seq<Value>, f: Field)
    requires f.dataType.StructOf? && Build(values, f).Ok?
    ensures AllRecords(values)
    ensures var a, fields := Build(values, f).value, f.dataType.fields;
            && a.StructArray? && a.valid == Validity(values) && a.fields == fields && |a.children| == |fields|
            && forall j :: 0 <= j < |fields| ==> Build(Column(values, fields[j].name), fields[j]) == Ok(a.children[j])
  {
    var fields, rs := f.dataType.fields, BuildColumns(values, f.dataType.fields);
    assert forall j :: 0 <= j < |rs| ==> rs[j] == Build(Column(values, fields[j].name), fields[j]);
  }

  lemma FieldReads(fields: seq<Field>, ps: seq<ParquetType>, children: seq<Array>, i: nat, v: Value)
    requires |fields| == |children|
    requires forall j :: 0 <= j < |fields| ==>
               && FindByName(ps, fields[j].name).Some?
               && Read(fields[j], FindByName(ps, fields[j].name).value, children[j], i)
                  == Ok(Normal(FieldOrNull(v, fields[j].name), MarkedFields(fields, ps)[j]))
    ensures Collect(ReadFields(fields, ps, children, i)) == Ok(NormalFields(v, MarkedFields(fields, ps)))
  {
    CollectValues(ReadFields(fields, ps, children, i), NormalFields(v, MarkedFields(fields, ps)));
  }

  lemma ReadStructSlot(f: Field, p: ParquetType, a: Array, i: nat, vs: seq<Value>)
    requires a.StructArray? && i < Len(a) && !IsNull(a, i) && p.GroupType? && |a.fields| == |a.children|
    requires Collect(ReadFields(a.fields, p.fields, a.children, i)) == Ok(vs)
    ensures Read(f, p, a, i) == Ok(Record(InsertAll(a.fields, vs)))
  {
  }

  function NormalFields(v: Value, fields: seq<Field>): (vs: seq<Value>)
    ensures |vs| == |fields|
  {
    seq(|fields|, j requires 0 <= j < |fields| => Normal(FieldOrNull(v, fields[j].name), fields[j]))
  }

  lemma NormalRecord(v: Value, f: Field, vs: seq<Value>)
    requires v.Record? && f.dataType.StructOf? && vs == NormalFields(v, f.dataType.fields)
    ensures Normal(v, f) ==
            Record(seq(|vs|, j requires 0 <= j < |vs| => (f.dataType.fields[j].name, vs[j])))
  {
  }

  lemma {:induction false} InsertDistinct(fields: seq<Field>, vs: seq<Value>)
    requires |fields| == |vs| && UniqueFieldNames(fields)
    ensures InsertAll(fields, vs) == seq(|fields|, j requires 0 <= j < |fields| => (fields[j].name, vs[j]))
  {
    if fields != [] {
      var n := |fields| - 1;
      InsertDistinct(fields[..n], vs[..n]);
      InsertNew(InsertAll(fields[..n], vs[..n]), fields[n].name, vs[n]);
    }
  }

  lemma {:induction false} InsertNew(r: RecordEntries, name: string, v: Value)
    requires forall k :: 0 <= k < |r| ==> r[k].0 != name
    ensures Insert(r, name, v) == r + [(name, v)]
  {
    if r != [] {
      InsertNew(r[1..], name, v);
      assert r == [r[0]] + r[1..];
    }
  }
}
