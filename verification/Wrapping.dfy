/** The converse of the round trip: a column whose slots all read back has no wrapped offset at any
  level. So the bound on flattened children is exact, not merely sufficient. */
module Wrapping {
  import opened Values
  import opened Arrow
  import opened Schema
  import opened Conversion
  import opened RoundTrip
  import opened Soundness

  ghost predicate SlotsRead(values: seq<Value>, f: Field, p: ParquetType, a: Array) {
    forall i :: 0 <= i < |values| ==> Read(f, p, a, i) == Ok(Normal(values[i], Marked(f, p)))
  }

  /** The column is built, and every slot reads back as the normal form of its value. */
  ghost predicate ReadsBack(values: seq<Value>, f: Field, p: ParquetType) {
    Build(values, f).Ok? && SlotsRead(values, f, p, Build(values, f).value)
  }

  // ---------------------------------------------------------------- offsets that count correctly

  /** Every slot is as long as its value has parts. */
  ghost predicate SlotsCount(values: seq<Value>, parts: Value -> seq<Value>) {
    forall i :: 0 <= i < |values| ==> SlotLength(values, parts, i) == |parts(values[i])|
  }

  function SlotLength(values: seq<Value>, parts: Value -> seq<Value>, i: nat): int
    requires i < |values|
  {
    Offsets(values, parts)[i + 1] - Offsets(values, parts)[i]
  }

  lemma FlatMapStep(values: seq<Value>, parts: Value -> seq<Value>, i: nat)
    requires i < |values|
    ensures |FlatMap(values[..i + 1], parts)| == |FlatMap(values[..i], parts)| + |parts(values[i])|
  {
    assert values[..i + 1] == values[..i] + [values[i]];
    FlatMapAppend(values[..i], values[i], parts);
  }

  /** Correct lengths leave no room for a wrap: each offset is the true count. */
  lemma {:induction false} OffsetExact(values: seq<Value>, parts: Value -> seq<Value>, i: nat)
    requires SlotsCount(values, parts) && i <= |values|
    ensures Offsets(values, parts)[i] == |FlatMap(values[..i], parts)|
  {
    if i > 0 {
      OffsetExact(values, parts, i - 1);
      FlatMapStep(values, parts, i - 1);
      assert SlotLength(values, parts, i - 1) == |parts(values[i - 1])|;
    }
  }

  lemma CountsFit(values: seq<Value>, parts: Value -> seq<Value>)
    requires SlotsCount(values, parts)
    ensures |FlatMap(values, parts)| < 0x8000_0000
  {
    OffsetExact(values, parts, |values|);
    assert values[..|values|] == values;
    CastExact(|FlatMap(values, parts)|);
  }

  lemma CastExact(n: nat)
    ensures AsI32(n) == n <==> n < 0x8000_0000
  {
  }

  /** A value without parts has an empty slot, wrapped or not. */
  lemma EmptySlotLength(values: seq<Value>, parts: Value -> seq<Value>, i: nat)
    requires i < |values| && parts(values[i]) == []
    ensures SlotLength(values, parts, i) == 0
  {
    FlatMapStep(values, parts, i);
  }

  /** Every flattened part belongs to one value. */
  lemma {:induction false} PartOf(values: seq<Value>, parts: Value -> seq<Value>, j: nat) returns (i: nat, k: nat)
    requires j < |FlatMap(values, parts)|
    ensures i < |values| && k < |parts(values[i])| && j == |FlatMap(values[..i], parts)| + k
    ensures FlatMap(values, parts)[j] == parts(values[i])[k]
    decreases |values|
  {
    var n := |values| - 1;
    if j < |FlatMap(values[..n], parts)| {
      i, k := PartOf(values[..n], parts, j);
      assert values[..n][..i] == values[..i];
    } else {
      i, k := n, j - |FlatMap(values[..n], parts)|;
    }
  }

  /** Reading from `start` on gives these values. */
  ghost predicate RangeGives(vs: seq<Value>, f: Field, p: ParquetType, child: Array, start: nat) {
    forall k :: 0 <= k < |vs| ==> Read(f, p, child, start + k) == Ok(vs[k])
  }

  /** Reading from `start` on gives the normal forms of the items. */
  ghost predicate RangeReads(items: seq<Value>, f: Field, p: ParquetType, child: Array, start: nat) {
    RangeGives(Normals(items, Marked(f, p)), f, p, child, start)
  }

  ghost predicate PartsRead(values: seq<Value>, parts: Value -> seq<Value>, f: Field, p: ParquetType, child: Array) {
    forall i :: 0 <= i < |values| ==> RangeReads(parts(values[i]), f, p, child, |FlatMap(values[..i], parts)|)
  }

  lemma AllPartsRead(values: seq<Value>, parts: Value -> seq<Value>, f: Field, p: ParquetType, child: Array)
    requires PartsRead(values, parts, f, p, child)
    ensures SlotsRead(FlatMap(values, parts), f, p, child)
  {
    forall j | 0 <= j < |FlatMap(values, parts)|
      ensures Read(f, p, child, j) == Ok(Normal(FlatMap(values, parts)[j], Marked(f, p)))
    {
      var i, k := PartOf(values, parts, j);
      RangeSlot(parts(values[i]), f, p, child, |FlatMap(values[..i], parts)|, k, j);
    }
  }

  lemma RangeSlot(items: seq<Value>, f: Field, p: ParquetType, child: Array, start: nat, k: nat, j: nat)
    requires RangeReads(items, f, p, child, start) && k < |items| && j == start + k
    ensures Read(f, p, child, j) == Ok(Normal(items[k], Marked(f, p)))
  {
    assert Normals(items, Marked(f, p))[k] == Normal(items[k], Marked(f, p));
  }

  // ---------------------------------------------------------------- what a slot tells

  /** A list slot that reads back is as long as the list, and its range of the child reads back. */
  lemma ListSlotTells(f: Field, p: ParquetType, a: Array, i: nat, items: seq<Value>)
    requires f.dataType.ListOf? && a.ListArray? && i < Len(a) && !IsNull(a, i) && ElementType(p).Ok?
    requires a.item == f.dataType.item && Read(f, p, a, i) == Ok(Normal(Value.List(items), Marked(f, p)))
    ensures i + 1 < |a.offsets| && 0 <= a.offsets[i] && a.offsets[i + 1] - a.offsets[i] == |items|
    ensures RangeReads(items, a.item, ElementType(p).value, a.child, a.offsets[i])
  {
    var ns := Normals(items, Marked(a.item, ElementType(p).value));
    MarkedList(Value.List(items), f, p, ns);
    ListReadTells(f, p, a, i, ns);
    ItemsTell(a.item, ElementType(p).value, a.child, a.offsets[i], ns);
  }

  lemma ListReadTells(f: Field, p: ParquetType, a: Array, i: nat, items: seq<Value>)
    requires a.ListArray? && i < Len(a) && !IsNull(a, i) && ElementType(p).Ok?
    requires Read(f, p, a, i) == Ok(Value.List(items))
    ensures i + 1 < |a.offsets| && 0 <= a.offsets[i] && a.offsets[i + 1] - a.offsets[i] == |items|
    ensures Collect(ReadRange(a.item, ElementType(p).value, a.child, a.offsets[i], |items|)) == Ok(items)
  {
  }

  lemma ItemsTell(item: Field, p: ParquetType, child: Array, start: nat, ns: seq<Value>)
    requires Collect(ReadRange(item, p, child, start, |ns|)) == Ok(ns)
    ensures RangeGives(ns, item, p, child, start)
  {
    var rs := ReadRange(item, p, child, start, |ns|);
    forall k | 0 <= k < |ns|
      ensures Read(item, p, child, start + k) == Ok(ns[k])
    {
      assert rs[k] == Ok(ns[k]);
    }
  }

  lemma MapSlotTells(f: Field, p: ParquetType, a: Array, i: nat, es: seq<(Value, Value)>)
    requires f.dataType.MapOf? && f.dataType.entries.dataType.StructOf? && |f.dataType.entries.dataType.fields| == 2
    requires a.MapArray? && i < Len(a) && !IsNull(a, i) && KeyValueTypes(p).Ok?
    requires a.child.StructArray? && |a.child.children| == 2 && a.child.fields == f.dataType.entries.dataType.fields
    requires Read(f, p, a, i) == Ok(Normal(Value.Map(es), Marked(f, p)))
    ensures i + 1 < |a.offsets| && 0 <= a.offsets[i] && a.offsets[i + 1] - a.offsets[i] == |es|
    ensures var v, kv, types := Value.Map(es), a.child.fields, KeyValueTypes(p).value;
            && RangeReads(KeysOf(v), kv[0], types.0, a.child.children[0], a.offsets[i])
            && RangeReads(ValuesOf(v), kv[1], types.1, a.child.children[1], a.offsets[i])
  {
    var kv, v, types := a.child.fields, Value.Map(es), KeyValueTypes(p).value;
    var nks, nvs := Normals(KeysOf(v), Marked(kv[0], types.0)), Normals(ValuesOf(v), Marked(kv[1], types.1));
    MarkedMap(v, f, p, nks, nvs);
    MapReadTells(f, p, a, i, Zip(nks, nvs));
    EntriesTell(kv, types, a.child.children, a.offsets[i], nks, nvs);
  }

  lemma MapReadTells(f: Field, p: ParquetType, a: Array, i: nat, entries: seq<(Value, Value)>)
    requires a.MapArray? && i < Len(a) && !IsNull(a, i) && KeyValueTypes(p).Ok?
    requires a.child.StructArray? && |a.child.children| == |a.child.fields| == 2
    requires Read(f, p, a, i) == Ok(Value.Map(entries))
    ensures i + 1 < |a.offsets| && 0 <= a.offsets[i] && a.offsets[i + 1] - a.offsets[i] == |entries|
    ensures Collect(ReadEntries(a.child.fields, KeyValueTypes(p).value, a.child.children, a.offsets[i], |entries|))
            == Ok(entries)
  {
  }

  lemma EntriesTell(kv: seq<Field>, types: (ParquetType, ParquetType), children: seq<Array>, start: nat,
                    ks: seq<Value>, vs: seq<Value>)
    requires |kv| == |children| == 2 && |ks| == |vs|
    requires Collect(ReadEntries(kv, types, children, start, |ks|)) == Ok(Zip(ks, vs))
    ensures RangeGives(ks, kv[0], types.0, children[0], start)
    ensures RangeGives(vs, kv[1], types.1, children[1], start)
  {
    var rs := ReadEntries(kv, types, children, start, |ks|);
    forall k | 0 <= k < |ks|
      ensures Read(kv[0], types.0, children[0], start + k) == Ok(ks[k])
      ensures Read(kv[1], types.1, children[1], start + k) == Ok(vs[k])
    {
      var rk, rv := Read(kv[0], types.0, children[0], start + k), Read(kv[1], types.1, children[1], start + k);
      assert Pair(rk, rv) == rs[k];
      PairTells(rk, rv, ks[k], vs[k]);
    }
  }

  lemma PairTells(rk: Outcome<Value>, rv: Outcome<Value>, k: Value, v: Value)
    requires Pair(rk, rv) == Ok((k, v))
    ensures rk == Ok(k) && rv == Ok(v)
  {
  }

  lemma StructSlotTells(f: Field, p: ParquetType, a: Array, i: nat, v: Value, j: nat)
    requires f.dataType.StructOf? && a.StructArray? && i < Len(a) && !IsNull(a, i) && p.GroupType? && v.Record?
    requires a.fields == f.dataType.fields && |a.fields| == |a.children| && UniqueFieldNames(a.fields) && j < |a.fields|
    requires FindByName(p.fields, a.fields[j].name).Some? && Read(f, p, a, i) == Ok(Normal(v, Marked(f, p)))
    ensures Read(a.fields[j], FindByName(p.fields, a.fields[j].name).value, a.children[j], i)
            == Ok(Normal(FieldOrNull(v, a.fields[j].name), MarkedFields(a.fields, p.fields)[j]))
  {
    var rs, ns := ReadFields(a.fields, p.fields, a.children, i), NormalFields(v, MarkedFields(a.fields, p.fields));
    NormalRecord(v, Marked(f, p), ns);
    assert Collect(rs).Ok?;
    var vs := Collect(rs).value;
    InsertDistinct(a.fields, vs);
    var read, expected := InsertAll(a.fields, vs), Normal(v, Marked(f, p)).fields;
    assert read == expected;
    assert vs[j] == read[j].1 == expected[j].1 == ns[j];
    assert rs[j] == Ok(vs[j]);
  }

  // ---------------------------------------------------------------- the converse

  /** Main lemma: a column that reads back fits, at every level. */
  lemma {:induction false} FitsIfReadsBack(values: seq<Value>, f: Field, p: ParquetType)
    requires FieldOk(f) && Describes(p, f) && ReadsBack(values, f, p)
    ensures Fits(values, f)
    decreases f, 1
  {
    match f.dataType
    case Primitive(t) => BuiltBytesFit(values, t);
    case ListOf(item) => ListFits(values, f, p);
    case MapOf(entries) => MapFits(values, f, p);
    case StructOf(fields) => StructFits(values, f, p);
  }

  /** Byte offsets do not wrap: a string or binary column that is built fits. */
  lemma BuiltBytesFit(values: seq<Value>, t: LeafType)
    requires BuildPrimitive(values, t).Ok?
    ensures BytesFit(values, t)
  {
    if values != [] {
      var n := |values| - 1;
      assert EncodeAll(values, t)[n] == EncodeSlot(values, t, n);
      assert values[..n + 1] == values;
    }
  }

  lemma {:induction false} ListFits(values: seq<Value>, f: Field, p: ParquetType)
    requires FieldOk(f) && Describes(p, f) && ReadsBack(values, f, p) && f.dataType.ListOf?
    ensures Fits(values, f)
    decreases f, 0
  {
    var a, all, item := Build(values, f).value, FlatMap(values, ItemsOf), f.dataType.item;
    ListShape(values, f);
    forall i | 0 <= i < |values|
      ensures SlotLength(values, ItemsOf, i) == |ItemsOf(values[i])|
    {
      if values[i] == Null { EmptySlotLength(values, ItemsOf, i); } else { ListSlotTells(f, p, a, i, values[i].items); }
    }
    CountsFit(values, ItemsOf);
    forall i | 0 <= i < |values|
      ensures RangeReads(ItemsOf(values[i]), item, ElementType(p).value, a.child, |FlatMap(values[..i], ItemsOf)|)
    {
      OffsetExact(values, ItemsOf, i);
      if values[i] != Null { ListSlotTells(f, p, a, i, values[i].items); }
    }
    AllPartsRead(values, ItemsOf, item, ElementType(p).value, a.child);
    FitsIfReadsBack(all, item, ElementType(p).value);
  }

  lemma {:induction false} MapFits(values: seq<Value>, f: Field, p: ParquetType)
    requires FieldOk(f) && Describes(p, f) && ReadsBack(values, f, p) && f.dataType.MapOf?
    ensures Fits(values, f)
    decreases f, 0
  {
    var a, kv, types := Build(values, f).value, f.dataType.entries.dataType.fields, KeyValueTypes(p).value;
    MapShape(values, f);
    forall i | 0 <= i < |values|
      ensures SlotLength(values, KeysOf, i) == |KeysOf(values[i])|
    {
      if values[i] == Null { EmptySlotLength(values, KeysOf, i); } else { MapSlotTells(f, p, a, i, values[i].entries); }
    }
    CountsFit(values, KeysOf);
    forall i | 0 <= i < |values|
      ensures RangeReads(KeysOf(values[i]), kv[0], types.0, a.child.children[0], |FlatMap(values[..i], KeysOf)|)
      ensures RangeReads(ValuesOf(values[i]), kv[1], types.1, a.child.children[1], |FlatMap(values[..i], ValuesOf)|)
    {
      OffsetExact(values, KeysOf, i);
      KeysValuesAligned(values[..i]);
      if values[i] != Null { MapSlotTells(f, p, a, i, values[i].entries); }
    }
    AllPartsRead(values, KeysOf, kv[0], types.0, a.child.children[0]);
    AllPartsRead(values, ValuesOf, kv[1], types.1, a.child.children[1]);
    FitsIfReadsBack(FlatMap(values, KeysOf), kv[0], types.0);
    FitsIfReadsBack(FlatMap(values, ValuesOf), kv[1], types.1);
  }

  lemma {:induction false} StructFits(values: seq<Value>, f: Field, p: ParquetType)
    requires FieldOk(f) && Describes(p, f) && ReadsBack(values, f, p) && f.dataType.StructOf?
    ensures Fits(values, f)
    decreases f, 0
  {
    var a, fields := Build(values, f).value, f.dataType.fields;
    StructShape(values, f);
    forall j | 0 <= j < |fields|
      ensures Fits(Column(values, fields[j].name), fields[j])
    {
      var column, q := Column(values, fields[j].name), FindByName(p.fields, fields[j].name).value;
      BuildShape(column, fields[j]);
      forall i | 0 <= i < |column|
        ensures Read(fields[j], q, a.children[j], i) == Ok(Normal(column[i], Marked(fields[j], q)))
      {
        if column[i] == Null {
          NullReads(fields[j], q, a.children[j], i);
        } else {
          StructSlotTells(f, p, a, i, values[i], j);
        }
      }
      FitsIfReadsBack(column, fields[j], q);
    }
  }

  lemma NullReads(f: Field, p: ParquetType, a: Array, i: nat)
    requires i < Len(a) && IsNull(a, i)
    ensures Read(f, p, a, i) == Ok(Normal(Null, Marked(f, p)))
  {
  }

  // ---------------------------------------------------------------- exact conditions

  /** Main result on wrapping: of the columns that can be built, those whose every slot reads back
      are exactly those that exceed no 32-bit offset at any level. */
  lemma BuiltReadsBackIff(values: seq<Value>, f: Field, p: ParquetType)
    requires FieldOk(f) && Describes(p, f) && Build(values, f).Ok?
    ensures ReadsBack(values, f, p) <==> Fits(values, f)
  {
    if Fits(values, f) {
      forall i | 0 <= i < |values|
        ensures Read(f, p, Build(values, f).value, i) == Ok(Normal(values[i], Marked(f, p)))
      {
        ReadBuilt(values, f, p, i);
      }
    }
    if ReadsBack(values, f, p) { FitsIfReadsBack(values, f, p); }
  }

  /** Main result on columns: for every validated schema node that maps to Arrow, a column that the
      validator accepts is stored and reads back exactly when all units agree and no 32-bit offset is
      exceeded. */
  lemma RoundTripIff(node: SchemaNode, values: seq<Value>, p: ParquetType)
    requires ValidNode(node) && ToArrowField(node).Ok?
    requires var f := ToArrowField(node).value; AcceptsAll(values, f) && Describes(p, f)
    ensures var f := ToArrowField(node).value;
            ReadsBack(values, f, p) <==> AllAgree(values, f) && Fits(values, f)
  {
    ValidNodeMaps(node);
    AcceptedReadsBackIff(values, ToArrowField(node).value, p);
  }

  lemma AcceptedReadsBackIff(values: seq<Value>, f: Field, p: ParquetType)
    requires FieldOk(f) && Describes(p, f) && AcceptsOrNull(values, f)
    ensures ReadsBack(values, f, p) <==> AllAgree(values, f) && Fits(values, f)
  {
    BuildAccepted(values, f);
    if Fits(values, f) { FitsBuildable(values, f); }
    if Build(values, f).Ok? { BuiltReadsBackIff(values, f, p); }
  }
}
