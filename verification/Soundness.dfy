/** Main results on the validator: for a field of a validated schema, building a column of
  accepted values succeeds exactly when every time unit agrees and the 32-bit offsets can be
  built; then every nested constructor precondition holds. */
module Soundness {
  import opened Values
  import opened Arrow
  import opened Schema
  import opened Conversion
  import opened RoundTrip
  import L = Leaves

  /** Accepted, or null under a null parent. */
  predicate AcceptsOrNull(values: seq<Value>, f: Field) {
    forall v :: v in values ==> v == Null || Accepts(v, f)
  }

  predicate AcceptsAll(values: seq<Value>, f: Field) {
    forall v :: v in values ==> Accepts(v, f)
  }

  predicate AllAgree(values: seq<Value>, f: Field) {
    forall v :: v in values ==> UnitsAgree(v, f)
  }

  // ---------------------------------------------------------------- children of a column

  lemma {:induction false} FlatMapMember(values: seq<Value>, parts: Value -> seq<Value>, x: Value)
    ensures x in FlatMap(values, parts) <==> exists v :: v in values && x in parts(v)
  {
    if values != [] {
      var n := |values| - 1;
      FlatMapMember(values[..n], parts, x);
      assert values == values[..n] + [values[n]];
    }
  }

  lemma ListChildren(values: seq<Value>, f: Field)
    requires f.dataType.ListOf? && AcceptsOrNull(values, f)
    ensures AllLists(values)
    ensures AcceptsAll(FlatMap(values, ItemsOf), f.dataType.item)
    ensures AllAgree(values, f) <==> AllAgree(FlatMap(values, ItemsOf), f.dataType.item)
  {
    var all, item := FlatMap(values, ItemsOf), f.dataType.item;
    assert forall i :: 0 <= i < |values| ==> values[i] in values;
    forall x | x in all
      ensures Accepts(x, item) && (AllAgree(values, f) ==> UnitsAgree(x, item))
    {
      FlatMapMember(values, ItemsOf, x);
    }
    if AllAgree(all, item) {
      forall v, k | v in values && v.List? && 0 <= k < |v.items|
        ensures UnitsAgree(v.items[k], item)
      {
        assert v.items[k] in ItemsOf(v);
        FlatMapMember(values, ItemsOf, v.items[k]);
      }
    }
  }

  lemma MapChildren(values: seq<Value>, f: Field)
    requires f.dataType.MapOf? && FieldOk(f) && AcceptsOrNull(values, f)
    ensures AllMaps(values)
    ensures var kv := f.dataType.entries.dataType.fields;
            && AcceptsAll(FlatMap(values, KeysOf), kv[0])
            && AcceptsAll(FlatMap(values, ValuesOf), kv[1])
            && (AllAgree(values, f) <==>
                  AllAgree(FlatMap(values, KeysOf), kv[0]) && AllAgree(FlatMap(values, ValuesOf), kv[1]))
  {
    var kv := f.dataType.entries.dataType.fields;
    var ks, vs := FlatMap(values, KeysOf), FlatMap(values, ValuesOf);
    assert forall i :: 0 <= i < |values| ==> values[i] in values;
    forall x | x in ks
      ensures Accepts(x, kv[0]) && (AllAgree(values, f) ==> UnitsAgree(x, kv[0]))
    {
      FlatMapMember(values, KeysOf, x);
    }
    forall x | x in vs
      ensures Accepts(x, kv[1]) && (AllAgree(values, f) ==> UnitsAgree(x, kv[1]))
    {
      FlatMapMember(values, ValuesOf, x);
    }
    if AllAgree(ks, kv[0]) && AllAgree(vs, kv[1]) {
      forall v, k | v in values && v.Map? && 0 <= k < |v.entries|
        ensures UnitsAgree(v.entries[k].0, kv[0]) && UnitsAgree(v.entries[k].1, kv[1])
      {
        assert KeysOf(v)[k] in KeysOf(v) && ValuesOf(v)[k] in ValuesOf(v);
        FlatMapMember(values, KeysOf, v.entries[k].0);
        FlatMapMember(values, ValuesOf, v.entries[k].1);
      }
    }
  }

  lemma RecordEntry(v: Value, f: Field, j: nat)
    requires f.dataType.StructOf? && j < |f.dataType.fields| && v != Null && Accepts(v, f)
    ensures var x := FieldOrNull(v, f.dataType.fields[j].name);
            && (x == Null || Accepts(x, f.dataType.fields[j]))
            && (!f.dataType.fields[j].nullable ==> x != Null)
            && (UnitsAgree(v, f) ==> UnitsAgree(x, f.dataType.fields[j]))
  {
  }

  lemma StructChildren(values: seq<Value>, f: Field)
    requires f.dataType.StructOf? && AcceptsOrNull(values, f)
    ensures AllRecords(values)
    ensures forall j :: 0 <= j < |f.dataType.fields| ==>
              AcceptsOrNull(Column(values, f.dataType.fields[j].name), f.dataType.fields[j])
    ensures forall j, i :: 0 <= j < |f.dataType.fields| && 0 <= i < |values| && !f.dataType.fields[j].nullable ==>
              Column(values, f.dataType.fields[j].name)[i] == Null ==> values[i] == Null
    ensures AllAgree(values, f) <==>
            forall j :: 0 <= j < |f.dataType.fields| ==>
              AllAgree(Column(values, f.dataType.fields[j].name), f.dataType.fields[j])
  {
    var fields := f.dataType.fields;
    assert forall i :: 0 <= i < |values| ==> values[i] in values;
    forall j, i | 0 <= j < |fields| && 0 <= i < |values|
      ensures var x := Column(values, fields[j].name)[i];
              && (x == Null || Accepts(x, fields[j]))
              && (!fields[j].nullable && x == Null ==> values[i] == Null)
              && (UnitsAgree(values[i], f) ==> UnitsAgree(x, fields[j]))
    {
      if values[i] != Null { RecordEntry(values[i], f, j); }
    }
    if forall j :: 0 <= j < |fields| ==> AllAgree(Column(values, fields[j].name), fields[j]) {
      forall i | 0 <= i < |values|
        ensures UnitsAgree(values[i], f)
      {
        forall j | 0 <= j < |fields|
          ensures UnitsAgree(FieldOrNull(values[i], fields[j].name), fields[j])
        {
          assert Column(values, fields[j].name)[i] in Column(values, fields[j].name);
        }
      }
    }
  }

  // ---------------------------------------------------------------- offsets that can be built

  /** The 32-bit offsets, wrapped or not, satisfy the builders at every level: those of lists and
      maps do not decrease, and no string or binary column has 2^31 bytes. */
  predicate Buildable(values: seq<Value>, f: Field)
    decreases f
  {
    match f.dataType
    case Primitive(t) => BytesFit(values, t)
    case ListOf(item) => OffsetsOk(Offsets(values, ItemsOf)) && Buildable(FlatMap(values, ItemsOf), item)
    case MapOf(entries) =>
      entries.dataType.StructOf? && |entries.dataType.fields| == 2 ==>
        && OffsetsOk(Offsets(values, KeysOf))
        && Buildable(FlatMap(values, KeysOf), entries.dataType.fields[0])
        && Buildable(FlatMap(values, ValuesOf), entries.dataType.fields[1])
    case StructOf(fields) =>
      forall j :: 0 <= j < |fields| ==> Buildable(Column(values, fields[j].name), fields[j])
  }

  /** Offsets that do not wrap can be built. */
  lemma {:induction false} FitsBuildable(values: seq<Value>, f: Field)
    requires Fits(values, f)
    ensures Buildable(values, f)
    decreases f
  {
    match f.dataType
    case Primitive(t) =>
    case ListOf(item) =>
      OffsetsMonotone(values, ItemsOf);
      FitsBuildable(FlatMap(values, ItemsOf), item);
    case MapOf(entries) =>
      if entries.dataType.StructOf? && |entries.dataType.fields| == 2 {
        OffsetsMonotone(values, KeysOf);
        FitsBuildable(FlatMap(values, KeysOf), entries.dataType.fields[0]);
        FitsBuildable(FlatMap(values, ValuesOf), entries.dataType.fields[1]);
      }
    case StructOf(fields) =>
      forall j | 0 <= j < |fields|
        ensures Buildable(Column(values, fields[j].name), fields[j])
      {
        FitsBuildable(Column(values, fields[j].name), fields[j]);
      }
  }

  /** A wrapped offset is never larger than the count it stands for. */
  lemma LastOffset(values: seq<Value>, parts: Value -> seq<Value>)
    ensures Offsets(values, parts)[|values|] <= |FlatMap(values, parts)|
  {
    assert values[..|values|] == values;
    CastLowers(|FlatMap(values, parts)|);
  }

  lemma CastLowers(n: nat)
    ensures AsI32(n) <= n
  {
  }

  // ---------------------------------------------------------------- building accepted columns

  /** What building gives in terms of units and offsets. When both are wrong, which of the two
      failures comes first depends on the order of the values. */
  ghost predicate Decided(values: seq<Value>, f: Field) {
    && (AllAgree(values, f) && Buildable(values, f) ==> Build(values, f).Ok?)
    && (AllAgree(values, f) && !Buildable(values, f) ==> Build(values, f) == Panic)
    && (!AllAgree(values, f) && Buildable(values, f) ==> Build(values, f) == Err(ConversionError))
    && (!AllAgree(values, f) ==> !Build(values, f).Ok?)
  }

  /** Main result on the validator: an accepted column of a validated schema builds exactly when all
      units agree and the offsets can be built. A disagreeing unit alone is a conversion error,
      offsets that cannot be built alone are a panic. */
  lemma {:induction false} BuildAccepted(values: seq<Value>, f: Field)
    requires FieldOk(f) && AcceptsOrNull(values, f)
    ensures Decided(values, f)
    decreases f, 1
  {
    match f.dataType
    case Primitive(t) => BuildAcceptedLeaves(values, f);
    case ListOf(item) => BuildAcceptedLists(values, f);
    case MapOf(entries) => BuildAcceptedMaps(values, f);
    case StructOf(fields) => BuildAcceptedRecords(values, f);
  }

  lemma BuildAcceptedLeaves(values: seq<Value>, f: Field)
    requires FieldOk(f) && f.dataType.Primitive? && AcceptsOrNull(values, f)
    ensures Decided(values, f)
  {
    var t := f.dataType.leaf;
    assert L.BuilderFor(t).Ok?;
    forall i | 0 <= i < |values|
      ensures ValueStored(values[i], f, t)
      ensures HasByteOffsets(t) ==> UnitsAgree(values[i], f)
    {
      assert values[i] in values;
      if values[i] != Null { LeafAccepted(values[i].leaf, t, f.uuid); }
    }
    if HasByteOffsets(t) { BuildBytes(values, t); } else { BuildCells(values, f, t); }
  }

  predicate ValueStored(v: Value, f: Field, t: LeafType) {
    if UnitsAgree(v, f) then EncodeValue(v, t).Ok? else EncodeValue(v, t) == Err(ConversionError)
  }

  /** Any other scalar column builds exactly when its units agree, and is an error otherwise. */
  lemma BuildCells(values: seq<Value>, f: Field, t: LeafType)
    requires !HasByteOffsets(t) && L.BuilderFor(t).Ok? && forall i :: 0 <= i < |values| ==> ValueStored(values[i], f, t)
    ensures if AllAgree(values, f) then BuildPrimitive(values, t).Ok?
            else BuildPrimitive(values, t) == Err(ConversionError)
  {
    var rs := EncodeAll(values, t);
    forall i | 0 <= i < |values|
      ensures rs[i] == EncodeValue(values[i], t) && ValueStored(values[i], f, t)
    {
    }
    if !AllAgree(values, f) {
      var v :| v in values && !UnitsAgree(v, f);
      var i :| 0 <= i < |values| && values[i] == v;
      FirstFailure(rs, i);
    }
  }

  /** A string or binary column whose values can all be stored builds exactly when its bytes fit, and
      panics otherwise. */
  lemma BuildBytes(values: seq<Value>, t: LeafType)
    requires HasByteOffsets(t) && forall i :: 0 <= i < |values| ==> EncodeValue(values[i], t).Ok?
    ensures if BytesFit(values, t) then BuildPrimitive(values, t).Ok? else BuildPrimitive(values, t) == Panic
  {
    var rs := EncodeAll(values, t);
    if BytesFit(values, t) {
      forall i | 0 <= i < |values|
        ensures rs[i].Ok?
      {
        TotalBytesGrow(values, i + 1);
      }
    } else {
      var n := |values| - 1;
      assert values[..n + 1] == values;
      assert rs[n] == EncodeSlot(values, t, n) == Panic;
      FirstFailure(rs, n);
    }
  }

  lemma LeafAccepted(l: Leaf, t: LeafType, uuid: bool)
    requires FieldLeafOk(t, uuid) && L.AcceptsLeaf(l, t)
    ensures if L.LeafUnitAgrees(l, t) then L.Encode(l, t).Ok? else L.Encode(l, t) == Err(ConversionError)
  {
    L.AcceptedEncodes(l, t, uuid);
  }

  /** If some result fails and all failures are alike, so does the collection. */
  lemma FirstFailure<T(!new)>(rs: seq<Outcome<T>>, i: nat)
    requires i < |rs| && !rs[i].Ok?
    requires forall k :: 0 <= k < |rs| && !rs[k].Ok? ==> rs[k] == rs[i]
    ensures Collect(rs) == rs[i].PropagateFailure<seq<T>>()
    decreases i
  {
    if exists k :: 0 <= k < i && !rs[k].Ok? {
      var k :| 0 <= k < i && !rs[k].Ok?;
      FirstFailure(rs, k);
    } else {
      CollectFailure(rs, i);
    }
  }

  lemma {:induction false} BuildAcceptedLists(values: seq<Value>, f: Field)
    requires FieldOk(f) && f.dataType.ListOf? && AcceptsOrNull(values, f)
    ensures Decided(values, f)
    decreases f, 0
  {
    var all, item := FlatMap(values, ItemsOf), f.dataType.item;
    ListChildren(values, f);
    BuildAccepted(all, item);
    if Build(all, item).Ok? {
      var child := Build(all, item).value;
      BuildShape(all, item);
      RequiredHasNoNulls(all, item, child);
      LastOffset(values, ItemsOf);
      ListFromChild(values, f, child);
    }
  }

  /** When the items are built, the list array is built exactly when its offsets can be. */
  lemma ListFromChild(values: seq<Value>, f: Field, child: Array)
    requires f.dataType.ListOf? && AllLists(values)
    requires Build(FlatMap(values, ItemsOf), f.dataType.item) == Ok(child) && TypeOf(child) == f.dataType.item.dataType
    requires f.dataType.item.nullable || !HasNulls(child)
    requires Offsets(values, ItemsOf)[|values|] <= Len(child)
    ensures if OffsetsOk(Offsets(values, ItemsOf)) then Build(values, f).Ok? else Build(values, f) == Panic
  {
  }

  lemma RequiredHasNoNulls(values: seq<Value>, f: Field, a: Array)
    requires AcceptsAll(values, f) && a.valid == Validity(values)
    ensures f.nullable || !HasNulls(a)
  {
    if !f.nullable {
      forall i | 0 <= i < Len(a)
        ensures !IsNull(a, i)
      {
        assert values[i] in values;
      }
    }
  }

  lemma {:induction false} BuildAcceptedMaps(values: seq<Value>, f: Field)
    requires FieldOk(f) && f.dataType.MapOf? && AcceptsOrNull(values, f)
    ensures Decided(values, f)
    decreases f, 0
  {
    var kv := f.dataType.entries.dataType.fields;
    var ks, vs := FlatMap(values, KeysOf), FlatMap(values, ValuesOf);
    MapChildren(values, f);
    BuildAccepted(ks, kv[0]);
    BuildAccepted(vs, kv[1]);
    if Build(ks, kv[0]).Ok? && Build(vs, kv[1]).Ok? {
      BuildShape(ks, kv[0]);
      BuildShape(vs, kv[1]);
      RequiredHasNoNulls(ks, kv[0], Build(ks, kv[0]).value);
      RequiredHasNoNulls(vs, kv[1], Build(vs, kv[1]).value);
      KeysValuesAligned(values);
      LastOffset(values, KeysOf);
      MapFromParts(values, f, Build(ks, kv[0]).value, Build(vs, kv[1]).value);
    } else {
      MapFails(values, f);
    }
  }

  /** When keys and values are built and no required one is null, the map array is built exactly
      when its offsets can be. */
  lemma MapFromParts(values: seq<Value>, f: Field, ka: Array, va: Array)
    requires f.dataType.MapOf? && f.dataType.entries.dataType.StructOf? && AllMaps(values)
    requires var kv := f.dataType.entries.dataType.fields;
             && |kv| == 2 && (kv[1].nullable || !HasNulls(va)) && !HasNulls(ka)
             && Build(FlatMap(values, KeysOf), kv[0]) == Ok(ka) && TypeOf(ka) == kv[0].dataType
             && Build(FlatMap(values, ValuesOf), kv[1]) == Ok(va) && TypeOf(va) == kv[1].dataType
    requires Offsets(values, KeysOf)[|values|] <= Len(ka) == Len(va)
    ensures if OffsetsOk(Offsets(values, KeysOf)) then Build(values, f).Ok? else Build(values, f) == Panic
  {
    PairsBuilt(f.dataType.entries.dataType.fields, ka, va);
  }

  lemma PairsBuilt(kv: seq<Field>, ka: Array, va: Array)
    requires |kv| == 2 && Len(ka) == Len(va) && !HasNulls(ka) && (kv[1].nullable || !HasNulls(va))
    requires TypeOf(ka) == kv[0].dataType && TypeOf(va) == kv[1].dataType
    ensures NewStructArray(kv, Ones(Len(ka)), [ka, va]) == Ok(StructArray(kv, Ones(Len(ka)), [ka, va]))
    ensures !HasNulls(StructArray(kv, Ones(Len(ka)), [ka, va]))
  {
    forall i | 0 <= i < Len(ka)
      ensures !IsNull(ka, i) && (kv[1].nullable || !IsNull(va, i))
    {
      if IsNull(ka, i) { assert HasNulls(ka); }
      if IsNull(va, i) { assert HasNulls(va); }
    }
  }

  /** The first of keys and values that fails decides how the map fails. */
  lemma MapFails(values: seq<Value>, f: Field)
    requires f.dataType.MapOf? && f.dataType.entries.dataType.StructOf? && AllMaps(values)
    requires |f.dataType.entries.dataType.fields| == 2
    ensures var kv := f.dataType.entries.dataType.fields;
            var keys, vals := Build(FlatMap(values, KeysOf), kv[0]), Build(FlatMap(values, ValuesOf), kv[1]);
            && (!keys.Ok? ==> Build(values, f) == keys)
            && (keys.Ok? && !vals.Ok? ==> Build(values, f) == vals)
  {
  }

  lemma {:induction false} BuildAcceptedRecords(values: seq<Value>, f: Field)
    requires FieldOk(f) && f.dataType.StructOf? && AcceptsOrNull(values, f)
    ensures Decided(values, f)
    decreases f, 0
  {
    var fields := f.dataType.fields;
    StructChildren(values, f);
    forall j | 0 <= j < |fields|
      ensures Decided(Column(values, fields[j].name), fields[j])
    {
      BuildAccepted(Column(values, fields[j].name), fields[j]);
    }
    if j :| 0 <= j < |fields| && !Build(Column(values, fields[j].name), fields[j]).Ok? {
      StructFails(values, f, j);
    } else {
      StructFromColumns(values, f);
    }
  }

  ghost predicate ColumnsDecided(values: seq<Value>, fields: seq<Field>) {
    forall j :: 0 <= j < |fields| ==> Decided(Column(values, fields[j].name), fields[j])
  }

  /** How a struct fails when a column does: as the column when all failures are alike. */
  lemma StructFails(values: seq<Value>, f: Field, j: nat)
    requires f.dataType.StructOf? && AllRecords(values) && j < |f.dataType.fields|
    requires var fields := f.dataType.fields;
             ColumnsDecided(values, fields) && !Build(Column(values, fields[j].name), fields[j]).Ok?
    requires AllAgree(values, f) <==>
             forall k :: 0 <= k < |f.dataType.fields| ==>
               AllAgree(Column(values, f.dataType.fields[k].name), f.dataType.fields[k])
    ensures Decided(values, f)
  {
    var fields := f.dataType.fields;
    var rs := BuildColumns(values, fields);
    assert rs[j] == Build(Column(values, fields[j].name), fields[j]);
    if AllAgree(values, f) || Buildable(values, f) {
      forall k | 0 <= k < |rs| && !rs[k].Ok?
        ensures rs[k] == rs[j]
      {
        assert Decided(Column(values, fields[k].name), fields[k]);
      }
      FirstFailure(rs, j);
    }
  }

  ghost predicate ColumnFine(values: seq<Value>, column: seq<Value>, f: Field) {
    && Build(column, f).Ok? && |column| == |values|
    && (!f.nullable ==> forall i :: 0 <= i < |values| && column[i] == Null ==> values[i] == Null)
  }

  /** When all columns are built, so is the struct array. */
  lemma StructFromColumns(values: seq<Value>, f: Field)
    requires f.dataType.StructOf? && AllRecords(values)
    requires forall j :: 0 <= j < |f.dataType.fields| ==>
               ColumnFine(values, Column(values, f.dataType.fields[j].name), f.dataType.fields[j])
    ensures Build(values, f).Ok?
  {
    var fields, rs := f.dataType.fields, BuildColumns(values, f.dataType.fields);
    assert forall j :: 0 <= j < |fields| ==> rs[j] == Build(Column(values, fields[j].name), fields[j]);
    StructOfColumns(values, fields, Collect(rs).value);
  }

  lemma StructOfColumns(values: seq<Value>, fields: seq<Field>, children: seq<Array>)
    requires |fields| == |children|
    requires forall j :: 0 <= j < |fields| ==>
               && ColumnFine(values, Column(values, fields[j].name), fields[j])
               && Build(Column(values, fields[j].name), fields[j]) == Ok(children[j])
    ensures StructOk(fields, Validity(values), children)
  {
    forall j | 0 <= j < |fields|
      ensures TypeOf(children[j]) == fields[j].dataType && Len(children[j]) == |values|
      ensures fields[j].nullable || Masked(Validity(values), children[j])
    {
      ColumnMasked(values, Column(values, fields[j].name), fields[j], children[j]);
    }
  }

  lemma ColumnMasked(values: seq<Value>, column: seq<Value>, f: Field, child: Array)
    requires ColumnFine(values, column, f) && Build(column, f) == Ok(child)
    ensures TypeOf(child) == f.dataType && Len(child) == |values|
    ensures f.nullable || Masked(Validity(values), child)
  {
    BuildShape(column, f);
  }

  /** A disagreeing unit anywhere in an accepted column keeps it from ever being built. */
  lemma MismatchNeverBuilds(values: seq<Value>, f: Field)
    requires FieldOk(f) && AcceptsOrNull(values, f) && !AllAgree(values, f)
    ensures !Build(values, f).Ok?
  {
    BuildAccepted(values, f);
  }

  /** A built array satisfies the constructor preconditions at every level. */
  lemma {:induction false} BuildWellFormed(values: seq<Value>, f: Field)
    requires Build(values, f).Ok?
    ensures WellFormed(Build(values, f).value)
    decreases f
  {
    match f.dataType
    case Primitive(t) =>
    case ListOf(item) =>
      ListShape(values, f);
      ListBuiltOk(values, f);
      BuildWellFormed(FlatMap(values, ItemsOf), item);
    case MapOf(entries) =>
      MapShape(values, f);
      MapBuiltOk(values, f);
      BuildWellFormed(FlatMap(values, KeysOf), entries.dataType.fields[0]);
      BuildWellFormed(FlatMap(values, ValuesOf), entries.dataType.fields[1]);
      PairsWellFormed(Build(values, f).value.child);
    case StructOf(fields) =>
      StructShape(values, f);
      StructBuiltOk(values, f);
      forall j | 0 <= j < |fields|
        ensures WellFormed(Build(values, f).value.children[j])
      {
        BuildWellFormed(Column(values, fields[j].name), fields[j]);
      }
  }

  lemma ListBuiltOk(values: seq<Value>, f: Field)
    requires f.dataType.ListOf? && Build(values, f).Ok?
    ensures var a := Build(values, f).value; a.ListArray? && ListOk(a.item, a.valid, a.offsets, a.child)
  {
  }

  lemma MapBuiltOk(values: seq<Value>, f: Field)
    requires f.dataType.MapOf? && Build(values, f).Ok?
    ensures var a := Build(values, f).value;
            && a.MapArray? && MapOk(a.entries, a.valid, a.offsets, a.child)
            && StructOk(a.child.fields, a.child.valid, a.child.children)
  {
  }

  lemma StructBuiltOk(values: seq<Value>, f: Field)
    requires f.dataType.StructOf? && Build(values, f).Ok?
    ensures var a := Build(values, f).value; a.StructArray? && StructOk(a.fields, a.valid, a.children)
  {
  }

  lemma PairsWellFormed(a: Array)
    requires a.StructArray? && StructOk(a.fields, a.valid, a.children) && |a.children| == 2
    requires WellFormed(a.children[0]) && WellFormed(a.children[1])
    ensures WellFormed(a)
  {
  }

  // ---------------------------------------------------------------- end to end, over schemas

  /** For every validated schema node that maps to Arrow and every accepted column: conversion
      succeeds exactly when the units agree and the offsets can be built, and then the array is
      well-formed and, if no offset wrapped, each slot reads back in normal form. */
  lemma NestedRoundTrip(node: SchemaNode, values: seq<Value>, p: ParquetType)
    requires ValidNode(node) && ToArrowField(node).Ok?
    requires var f := ToArrowField(node).value; AcceptsAll(values, f) && Describes(p, f)
    ensures var f := ToArrowField(node).value;
            && Decided(values, f)
            && (Build(values, f).Ok? ==>
                  WellFormed(Build(values, f).value) && Len(Build(values, f).value) == |values|)
            && (AllAgree(values, f) && Fits(values, f) ==>
                  && Build(values, f).Ok?
                  && forall i :: 0 <= i < |values| ==>
                       Read(f, p, Build(values, f).value, i) == Ok(Normal(values[i], Marked(f, p))))
  {
    var f := ToArrowField(node).value;
    ValidNodeMaps(node);
    BuildAccepted(values, f);
    if Build(values, f).Ok? {
      BuildShape(values, f);
      BuildWellFormed(values, f);
    }
    if AllAgree(values, f) && Fits(values, f) {
      FitsBuildable(values, f);
      forall i | 0 <= i < |values|
        ensures Read(f, p, Build(values, f).value, i) == Ok(Normal(values[i], Marked(f, p)))
      {
        ReadBuilt(values, f, p, i);
      }
    }
  }
}
