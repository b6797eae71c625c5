/** What becomes of values that are read and written again, which Parquet schema a field has,
  and what happens when an offset wraps. */
module Reread {
  import opened Values
  import opened Arrow
  import opened Schema
  import opened Conversion
  import opened RoundTrip
  import opened Soundness
  import L = Leaves

  // ---------------------------------------------------------------- the canonical Parquet schema

  /** The three-level list and map layouts of LogicalTypes.md, section "Nested Types". */
  function ParquetTypeOf(f: Field): (p: ParquetType)
    ensures p.name == f.name
    decreases f
  {
    match f.dataType
    case Primitive(_) => PrimitiveType(f.name, f.uuid)
    case ListOf(item) => GroupType(f.name, [GroupType("list", [ParquetTypeOf(item)])])
    case MapOf(entries) =>
      var kv := if entries.dataType.StructOf? then ParquetTypesOf(entries.dataType.fields) else [];
      GroupType(f.name, [GroupType("key_value", kv)])
    case StructOf(fields) => GroupType(f.name, ParquetTypesOf(fields))
  }

  function ParquetTypesOf(fields: seq<Field>): (ps: seq<ParquetType>)
    ensures |ps| == |fields|
    ensures forall j :: 0 <= j < |fields| ==> ps[j] == ParquetTypeOf(fields[j])
    decreases fields
  {
    if fields == [] then [] else [ParquetTypeOf(fields[0])] + ParquetTypesOf(fields[1..])
  }

  lemma {:induction false} FindUnique(fields: seq<Field>, j: nat)
    requires j < |fields| && UniqueFieldNames(fields)
    ensures FindByName(ParquetTypesOf(fields), fields[j].name) == Some(ParquetTypeOf(fields[j]))
  {
    if j > 0 { FindUnique(fields[1..], j - 1); }
  }

  /** The layout that writers are told to produce leads the reader to the right places, and marks as
      UUIDs what the Arrow fields do. */
  lemma {:induction false} CanonicalDescribes(f: Field)
    requires FieldOk(f)
    ensures Describes(ParquetTypeOf(f), f)
    ensures Marked(f, ParquetTypeOf(f)) == f
    decreases f
  {
    match f.dataType
    case Primitive(_) =>
    case ListOf(item) => CanonicalDescribes(item);
    case MapOf(entries) =>
      CanonicalDescribes(entries.dataType.fields[0]);
      CanonicalDescribes(entries.dataType.fields[1]);
    case StructOf(fields) =>
      forall j | 0 <= j < |fields|
        ensures FindByName(ParquetTypesOf(fields), fields[j].name) == Some(ParquetTypeOf(fields[j]))
        ensures Describes(ParquetTypeOf(fields[j]), fields[j])
        ensures Marked(fields[j], ParquetTypeOf(fields[j])) == fields[j]
      {
        FindUnique(fields, j);
        CanonicalDescribes(fields[j]);
      }
      assert MarkedFields(fields, ParquetTypesOf(fields)) == fields;
  }

  // ---------------------------------------------------------------- normal forms

  lemma {:induction false} NormalLookup(r: RecordEntries, fields: seq<Field>, j: nat)
    requires j < |fields| == |r| && UniqueFieldNames(fields)
    requires forall k :: 0 <= k < |fields| ==> r[k].0 == fields[k].name
    ensures Lookup(r, fields[j].name) == Some(r[j].1)
  {
    assert r[j] == (fields[j].name, r[j].1);
  }

  /** Normalising is idempotent: a value that was read is its own normal form. */
  lemma {:induction false} NormalIdempotent(v: Value, f: Field)
    requires FieldOk(f)
    ensures Normal(Normal(v, f), f) == Normal(v, f)
    decreases f
  {
    match (v, f.dataType)
    case (Leaf(l), Primitive(t)) => L.CoerceIdempotent(l, t, f.uuid);
    case (List(items), ListOf(item)) =>
      forall k | 0 <= k < |items|
        ensures Normal(Normal(items[k], item), item) == Normal(items[k], item)
      {
        NormalIdempotent(items[k], item);
      }
      assert Normal(Normal(v, f), f).items == Normal(v, f).items;
    case (Map(es), MapOf(entries)) =>
      var kv := entries.dataType.fields;
      forall k | 0 <= k < |es|
        ensures Normal(Normal(es[k].0, kv[0]), kv[0]) == Normal(es[k].0, kv[0])
        ensures Normal(Normal(es[k].1, kv[1]), kv[1]) == Normal(es[k].1, kv[1])
      {
        NormalIdempotent(es[k].0, kv[0]);
        NormalIdempotent(es[k].1, kv[1]);
      }
      assert Normal(Normal(v, f), f).entries == Normal(v, f).entries;
    case (Record(r), StructOf(fields)) =>
      var n := Normal(v, f).fields;
      forall j | 0 <= j < |fields|
        ensures Normal(LookupOrNull(n, fields[j].name), fields[j]) == n[j].1
      {
        NormalLookup(n, fields, j);
        NormalIdempotent(LookupOrNull(r, fields[j].name), fields[j]);
      }
      assert Normal(Record(n), f).fields == n;
    case _ =>
  }

  /** A byte string sits under a field that carries the UUID mark. */
  predicate HoldsUuid(v: Value, f: Field)
    decreases f, v
  {
    match (v, f.dataType)
    case (Leaf(l), Primitive(t)) => f.uuid
    case (List(items), ListOf(item)) => exists k :: 0 <= k < |items| && HoldsUuid(items[k], item)
    case (Map(es), MapOf(entries)) =>
      && entries.dataType.StructOf? && |entries.dataType.fields| == 2
      && exists k :: 0 <= k < |es| && (HoldsUuid(es[k].0, entries.dataType.fields[0]) ||
                                       HoldsUuid(es[k].1, entries.dataType.fields[1]))
    case (Record(r), StructOf(fields)) =>
      exists j :: 0 <= j < |fields| && HoldsUuid(LookupOrNull(r, fields[j].name), fields[j])
    case _ => false
  }

  /** What was read passes the validator again exactly when it holds no UUID: UUID columns take
      byte strings and give back UUID values, which the validator rejects. */
  lemma {:induction false} ReadBackAccepted(v: Value, f: Field)
    requires FieldOk(f) && Accepts(v, f)
    ensures Accepts(Normal(v, f), f) <==> !HoldsUuid(v, f)
    decreases f
  {
    match (v, f.dataType)
    case (Leaf(l), Primitive(t)) => LeafReadBack(l, t, f.uuid);
    case (List(items), ListOf(item)) =>
      forall k | 0 <= k < |items|
        ensures Accepts(Normal(items[k], item), item) <==> !HoldsUuid(items[k], item)
      {
        ReadBackAccepted(items[k], item);
      }
      ListReadBack(v, f);
    case (Map(es), MapOf(entries)) =>
      var kv := entries.dataType.fields;
      forall k | 0 <= k < |es|
        ensures Accepts(Normal(es[k].0, kv[0]), kv[0]) <==> !HoldsUuid(es[k].0, kv[0])
        ensures Accepts(Normal(es[k].1, kv[1]), kv[1]) <==> !HoldsUuid(es[k].1, kv[1])
      {
        ReadBackAccepted(es[k].0, kv[0]);
        ReadBackAccepted(es[k].1, kv[1]);
      }
      MapReadBack(v, f);
    case (Record(r), StructOf(fields)) =>
      forall j | 0 <= j < |fields|
        ensures var x := LookupOrNull(r, fields[j].name);
                Accepts(Normal(x, fields[j]), fields[j]) <==> !HoldsUuid(x, fields[j])
      {
        EntryReadBack(v, f, j);
      }
      RecordReadBack(v, f);
    case _ =>
  }

  /** The marks of the Parquet schema matter to the reader only: the validator ignores them. */
  lemma {:induction false} MarkedAccepts(v: Value, f: Field, p: ParquetType)
    requires FieldOk(f)
    ensures FieldOk(Marked(f, p))
    ensures Accepts(v, Marked(f, p)) <==> Accepts(v, f)
    decreases f, 1
  {
    match f.dataType
    case Primitive(t) =>
    case ListOf(item) =>
      if ElementType(p).Ok? { MarkedListAccepts(v, f, p); }
    case MapOf(entries) =>
      if KeyValueTypes(p).Ok? { MarkedMapAccepts(v, f, p); }
    case StructOf(fields) =>
      if p.GroupType? { MarkedRecordAccepts(v, f, p); }
  }

  lemma {:induction false} MarkedListAccepts(v: Value, f: Field, p: ParquetType)
    requires FieldOk(f) && f.dataType.ListOf? && ElementType(p).Ok?
    ensures FieldOk(Marked(f, p))
    ensures Accepts(v, Marked(f, p)) <==> Accepts(v, f)
    decreases f, 0
  {
    var item, q := f.dataType.item, ElementType(p).value;
    MarkedAccepts(Null, item, q);
    if v.List? {
      forall k | 0 <= k < |v.items|
        ensures Accepts(v.items[k], Marked(item, q)) <==> Accepts(v.items[k], item)
      {
        MarkedAccepts(v.items[k], item, q);
      }
    }
  }

  lemma {:induction false} MarkedRecordAccepts(v: Value, f: Field, p: ParquetType)
    requires FieldOk(f) && f.dataType.StructOf? && p.GroupType?
    ensures FieldOk(Marked(f, p))
    ensures Accepts(v, Marked(f, p)) <==> Accepts(v, f)
    decreases f, 0
  {
    var fields, gs := f.dataType.fields, MarkedFields(f.dataType.fields, p.fields);
    forall j | 0 <= j < |fields|
      ensures FieldOk(gs[j]) && (FieldAccepts(v, gs[j]) <==> FieldAccepts(v, fields[j]))
    {
      var q := FindByName(p.fields, fields[j].name);
      if q.Some? { MarkedAccepts(FieldOrNull(v, fields[j].name), fields[j], q.value); }
    }
    RecordAccepted(v, f);
    RecordAccepted(v, Marked(f, p));
  }

  /** What the validator asks of a record for one field. */
  predicate FieldAccepts(v: Value, f: Field) {
    Accepts(FieldOrNull(v, f.name), f)
  }

  /** A missing entry counts as a null. */
  lemma RecordAccepted(v: Value, f: Field)
    requires f.dataType.StructOf?
    ensures v.Record? ==>
              (Accepts(v, f) <==> forall j :: 0 <= j < |f.dataType.fields| ==> FieldAccepts(v, f.dataType.fields[j]))
    ensures !v.Record? ==> (Accepts(v, f) <==> v == Null && f.nullable)
  {
  }

  lemma {:induction false} MarkedMapAccepts(v: Value, f: Field, p: ParquetType)
    requires FieldOk(f) && f.dataType.MapOf? && KeyValueTypes(p).Ok?
    ensures FieldOk(Marked(f, p))
    ensures Accepts(v, Marked(f, p)) <==> Accepts(v, f)
    decreases f, 0
  {
    var kv, types := f.dataType.entries.dataType.fields, KeyValueTypes(p).value;
    MarkedAccepts(Null, kv[0], types.0);
    MarkedAccepts(Null, kv[1], types.1);
    if v.Map? {
      forall k | 0 <= k < |v.entries|
        ensures Accepts(v.entries[k].0, Marked(kv[0], types.0)) <==> Accepts(v.entries[k].0, kv[0])
        ensures Accepts(v.entries[k].1, Marked(kv[1], types.1)) <==> Accepts(v.entries[k].1, kv[1])
      {
        MarkedAccepts(v.entries[k].0, kv[0], types.0);
        MarkedAccepts(v.entries[k].1, kv[1], types.1);
      }
    }
  }

  /** What a reader got from any file is accepted for that file's own Arrow fields exactly when it
      holds no UUID, whichever of the two schemas marks it. */
  lemma ForeignReadBack(v: Value, f: Field, p: ParquetType)
    requires FieldOk(f) && Accepts(v, f)
    ensures Accepts(Normal(v, Marked(f, p)), f) <==> !HoldsUuid(v, Marked(f, p))
  {
    MarkedAccepts(v, f, p);
    MarkedAccepts(Normal(v, Marked(f, p)), f, p);
    ReadBackAccepted(v, Marked(f, p));
  }

  lemma ListReadBack(v: Value, f: Field)
    requires v.List? && f.dataType.ListOf?
    requires var item := f.dataType.item;
             forall k :: 0 <= k < |v.items| ==>
               (Accepts(Normal(v.items[k], item), item) <==> !HoldsUuid(v.items[k], item))
    ensures Accepts(Normal(v, f), f) <==> !HoldsUuid(v, f)
  {
    NormalList(v, f, Normals(v.items, f.dataType.item));
  }

  lemma MapReadBack(v: Value, f: Field)
    requires v.Map? && f.dataType.MapOf? && f.dataType.entries.dataType.StructOf?
    requires |f.dataType.entries.dataType.fields| == 2
    requires var kv := f.dataType.entries.dataType.fields;
             forall k :: 0 <= k < |v.entries| ==>
               && (Accepts(Normal(v.entries[k].0, kv[0]), kv[0]) <==> !HoldsUuid(v.entries[k].0, kv[0]))
               && (Accepts(Normal(v.entries[k].1, kv[1]), kv[1]) <==> !HoldsUuid(v.entries[k].1, kv[1]))
    ensures Accepts(Normal(v, f), f) <==> !HoldsUuid(v, f)
  {
    var kv, es, ns := f.dataType.entries.dataType.fields, v.entries, Normal(v, f).entries;
    assert forall k :: 0 <= k < |es| ==> ns[k] == (Normal(es[k].0, kv[0]), Normal(es[k].1, kv[1]));
    assert Accepts(Normal(v, f), f) <==>
           forall k :: 0 <= k < |es| ==> Accepts(ns[k].0, kv[0]) && Accepts(ns[k].1, kv[1]);
  }

  lemma RecordReadBack(v: Value, f: Field)
    requires v.Record? && f.dataType.StructOf? && UniqueFieldNames(f.dataType.fields)
    requires forall j :: 0 <= j < |f.dataType.fields| ==>
               var g := f.dataType.fields[j];
               var x := LookupOrNull(v.fields, g.name);
               Accepts(Normal(x, g), g) <==> !HoldsUuid(x, g)
    ensures Accepts(Normal(v, f), f) <==> !HoldsUuid(v, f)
  {
    var fields, n := f.dataType.fields, Normal(v, f).fields;
    forall j | 0 <= j < |fields|
      ensures Lookup(n, fields[j].name) == Some(Normal(LookupOrNull(v.fields, fields[j].name), fields[j]))
    {
      NormalLookup(n, fields, j);
    }
  }

  lemma {:induction false} EntryReadBack(v: Value, f: Field, j: nat)
    requires FieldOk(f) && Accepts(v, f) && v.Record? && f.dataType.StructOf? && j < |f.dataType.fields|
    ensures var g := f.dataType.fields[j];
            Accepts(Normal(LookupOrNull(v.fields, g.name), g), g) <==> !HoldsUuid(LookupOrNull(v.fields, g.name), g)
    decreases f, 0
  {
    var g := f.dataType.fields[j];
    RecordEntry(v, f, j);
    var x := LookupOrNull(v.fields, g.name);
    if x != Null { ReadBackAccepted(x, g); }
  }

  lemma LeafReadBack(l: Leaf, t: LeafType, uuid: bool)
    requires FieldLeafOk(t, uuid) && L.AcceptsLeaf(l, t)
    ensures L.AcceptsLeaf(L.Coerce(l, t, uuid), t) <==> !uuid
  {
  }

  // ---------------------------------------------------------------- where the hypotheses bite

  /** The validator takes a nanosecond time for a microsecond column; building then fails. */
  lemma UnitMismatchFails()
    ensures var f, v := Field("t", Primitive(TTime64(Microsecond)), true, false), Leaf(TimeNanos(1));
            FieldOk(f) && Accepts(v, f) && Build([v], f) == Err(ConversionError)
  {
    var f, v := Field("t", Primitive(TTime64(Microsecond)), true, false), Leaf(TimeNanos(1));
    assert !UnitsAgree(v, f);
    assert v in [v];
    BuildAccepted([v], f);
  }

  /** 2^32 items: the offset wraps to zero, building succeeds, and the list reads back empty. */
  lemma WrappedOffsetLosesItems()
    ensures var item := Field("item", Primitive(TBoolean), true, false);
            var f, v := Field("l", ListOf(item), true, false), Value.List(seq(0x1_0000_0000, _ => Null));
            && Accepts(v, f) && Build([v], f).Ok?
            && Read(f, ParquetTypeOf(f), Build([v], f).value, 0) == Ok(Value.List([]))
  {
    var items := seq(0x1_0000_0000, _ => Null);
    BuildNulls(items);
    WrappedList(items);
  }

  lemma BuildNulls(items: seq<Value>)
    requires forall k :: 0 <= k < |items| ==> items[k] == Null
    ensures var r := Build(items, Field("item", Primitive(TBoolean), true, false));
            r.Ok? && Len(r.value) == |items| && TypeOf(r.value) == Primitive(TBoolean)
  {
    var cells := seq(|items|, i requires 0 <= i < |items| => BoolCell(false));
    CollectValues(EncodeAll(items, TBoolean), cells);
  }

  lemma WrappedList(items: seq<Value>)
    requires |items| % 0x1_0000_0000 == 0
    requires forall k :: 0 <= k < |items| ==> items[k] == Null
    requires Build(items, Field("item", Primitive(TBoolean), true, false)).Ok?
    ensures var item := Field("item", Primitive(TBoolean), true, false);
            var f, v := Field("l", ListOf(item), true, false), Value.List(items);
            && Build([v], f).Ok?
            && Read(f, ParquetTypeOf(f), Build([v], f).value, 0) == Ok(Value.List([]))
  {
    var item := Field("item", Primitive(TBoolean), true, false);
    var f, v := Field("l", ListOf(item), true, false), Value.List(items);
    var child := Build(items, item).value;
    BuildShape(items, item);
    WrappedOffsets(items);
    WholeTurns(|items|);
    WrappedBuild(v, f, item, child);
    EmptySlot(f, ParquetTypeOf(f), ListArray(item, Validity([v]), [0, 0], child));
  }

  lemma WrappedBuild(v: Value, f: Field, item: Field, child: Array)
    requires v.List? && f.dataType == ListOf(item) && item.nullable && TypeOf(child) == item.dataType
    requires FlatMap([v], ItemsOf) == v.items && Build(v.items, item) == Ok(child)
    requires Offsets([v], ItemsOf) == [0, 0]
    ensures Build([v], f) == Ok(ListArray(item, Validity([v]), [0, 0], child))
  {
    assert AllLists([v]);
    assert ListOk(item, Validity([v]), [0, 0], child);
  }

  lemma WrappedOffsets(items: seq<Value>)
    ensures var v := Value.List(items); FlatMap([v], ItemsOf) == items && Offsets([v], ItemsOf) == [0, AsI32(|items|)]
  {
    var v := Value.List(items);
    FlatMapAppend([], v, ItemsOf);
    OffsetsAppend([], v, ItemsOf);
    assert [] + [v] == [v] && [] + items == items;
    assert Offsets([], ItemsOf) == [0];
  }

  /** From 2^31 to 2^32 - 1 items: the offset is negative, and building panics. */
  lemma NegativeOffsetPanics(items: seq<Value>)
    requires 0x8000_0000 <= |items| < 0x1_0000_0000 && forall k :: 0 <= k < |items| ==> items[k] == Null
    ensures var item := Field("item", Primitive(TBoolean), true, false);
            var f, v := Field("l", ListOf(item), true, false), Value.List(items);
            Accepts(v, f) && UnitsAgree(v, f) && Build([v], f) == Panic
  {
    var item := Field("item", Primitive(TBoolean), true, false);
    var f, v := Field("l", ListOf(item), true, false), Value.List(items);
    WrappedOffsets(items);
    var offsets := Offsets([v], ItemsOf);
    assert AsI32(|items|) < 0;
    assert offsets[1 - 1] > offsets[1];
    assert !Buildable([v], f);
    BuildAccepted([v], f);
  }

  /** One accepted text of 2^31 bytes: the byte offset leaves 32 bits, and building panics. */
  lemma LongTextPanics()
    ensures var f, v := Field("s", Primitive(TUtf8), true, false), Leaf(Str(seq(0x8000_0000, _ => 'a')));
            Accepts(v, f) && UnitsAgree(v, f) && Build([v], f) == Panic
  {
    var text := seq(0x8000_0000, _ => 'a');
    AsciiLength(text);
    LargePayloadPanics(text);
  }

  lemma LargePayloadPanics(s: string)
    requires Utf8Length(s) >= 0x8000_0000
    ensures var f, v := Field("s", Primitive(TUtf8), true, false), Leaf(Str(s));
            Accepts(v, f) && UnitsAgree(v, f) && Build([v], f) == Panic
  {
    var f, v := Field("s", Primitive(TUtf8), true, false), Leaf(Str(s));
    assert [v][..0] == [];
    assert TotalBytes([v]) == TotalBytes([]) + PayloadBytes(v);
    assert !Buildable([v], f);
    BuildAccepted([v], f);
  }

  lemma {:induction false} AsciiLength(s: string)
    requires forall i :: 0 <= i < |s| ==> s[i] as int < 0x80
    ensures Utf8Length(s) == |s|
  {
    if s != [] { AsciiLength(s[..|s| - 1]); }
  }

  lemma WholeTurns(n: nat)
    requires n % 0x1_0000_0000 == 0
    ensures AsI32(n) == 0
  {
  }

  lemma EmptySlot(f: Field, p: ParquetType, a: Array)
    requires a.ListArray? && a.valid == [true] && a.offsets == [0, 0] && ElementType(p).Ok?
    ensures Read(f, p, a, 0) == Ok(Value.List([]))
  {
    assert ReadRange(a.item, ElementType(p).value, a.child, 0, 0) == [];
  }
}
