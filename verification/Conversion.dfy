/** Conversion between lists of values and Arrow arrays.

  `Build` says which array a list of values becomes; the `Build...Array` methods compute it with
  the loops of the source. `Read` rebuilds one value from an array slot, guided by the Arrow field
  and by the Parquet schema node (see LogicalTypes.md, section "Nested Types"). */
module Conversion {
  import opened Values
  import opened Arrow
  import L = Leaves

  // ---------------------------------------------------------------- flattening

  /** Validity bits of a column. */
  function Validity(values: seq<Value>): (valid: seq<bool>)
    ensures |valid| == |values|
    ensures forall i :: 0 <= i < |values| ==> (valid[i] <==> values[i] != Null)
  {
    seq(|values|, i requires 0 <= i < |values| => values[i] != Null)
  }

  function ItemsOf(v: Value): seq<Value> {
    if v.List? then v.items else []
  }

  function KeysOf(v: Value): (ks: seq<Value>)
    ensures v.Map? ==> |ks| == |v.entries|
  {
    if v.Map? then seq(|v.entries|, i requires 0 <= i < |v.entries| => v.entries[i].0) else []
  }

  function ValuesOf(v: Value): (vs: seq<Value>)
    ensures |vs| == |KeysOf(v)|
  {
    if v.Map? then seq(|v.entries|, i requires 0 <= i < |v.entries| => v.entries[i].1) else []
  }

  /** The parts of all values, in order: all items of a list column, all keys of a map column. */
  function FlatMap(values: seq<Value>, parts: Value -> seq<Value>): seq<Value> {
    if values == [] then [] else FlatMap(values[..|values| - 1], parts) + parts(values[|values| - 1])
  }

  /** The cast `usize as i32`: it wraps. */
  function AsI32(n: nat): (i: int)
    ensures n < 0x8000_0000 ==> i == n
  {
    (n + 0x8000_0000) % 0x1_0000_0000 - 0x8000_0000
  }

  /** Cumulative part counts, one more than there are values. */
  function Offsets(values: seq<Value>, parts: Value -> seq<Value>): (offsets: seq<int>)
    ensures |offsets| == |values| + 1
  {
    seq(|values| + 1, i requires 0 <= i <= |values| => AsI32(|FlatMap(values[..i], parts)|))
  }

  /** What a struct column hands to the child column `name` for one row. */
  function FieldOrNull(v: Value, name: string): Value {
    if v.Record? then LookupOrNull(v.fields, name) else Null
  }

  function Column(values: seq<Value>, name: string): (column: seq<Value>)
    ensures |column| == |values|
  {
    seq(|values|, i requires 0 <= i < |values| => FieldOrNull(values[i], name))
  }

  // ---------------------------------------------------------------- building arrays

  function EncodeValue(v: Value, t: LeafType): Outcome<Cell> {
    match v
    case Null => Ok(BoolCell(false))  // append_null stores a default under a cleared bit
    case Leaf(l) => L.Encode(l, t)
    case _ => Err(ConversionError)
  }

  function CharBytes(c: char): nat {
    if c as int < 0x80 then 1 else if c as int < 0x800 then 2 else if c as int < 0x1_0000 then 3 else 4
  }

  /** Length of a text in UTF-8. */
  function Utf8Length(s: string): nat {
    if s == [] then 0 else Utf8Length(s[..|s| - 1]) + CharBytes(s[|s| - 1])
  }

  /** What a string or binary builder appends to its byte buffer for one value. */
  function PayloadBytes(v: Value): nat {
    match v
    case Leaf(Str(s)) => Utf8Length(s)
    case Leaf(Bytes(b)) => |b|
    case _ => 0
  }

  function TotalBytes(values: seq<Value>): nat {
    if values == [] then 0 else TotalBytes(values[..|values| - 1]) + PayloadBytes(values[|values| - 1])
  }

  /** String and binary columns index one byte buffer with 32-bit offsets. */
  predicate HasByteOffsets(t: LeafType) {
    t == TUtf8 || t == TBinary
  }

  /** The byte offsets of such a column are in range. */
  predicate BytesFit(values: seq<Value>, t: LeafType) {
    HasByteOffsets(t) ==> TotalBytes(values) < 0x8000_0000
  }

  /** Appending value i: the builder panics when its next byte offset leaves 32 bits. */
  function EncodeSlot(values: seq<Value>, t: LeafType, i: nat): Outcome<Cell>
    requires i < |values|
  {
    var cell :- EncodeValue(values[i], t);
    if BytesFit(values[..i + 1], t) then Ok(cell) else Panic
  }

  /** One result per value, in order; the first failure wins. */
  function EncodeAll(values: seq<Value>, t: LeafType): (rs: seq<Outcome<Cell>>)
    ensures |rs| == |values|
  {
    seq(|values|, i requires 0 <= i < |values| => EncodeSlot(values, t, i))
  }

  function BuildPrimitive(values: seq<Value>, t: LeafType): Outcome<Array> {
    var _ :- L.BuilderFor(t);
    var cells :- Collect(EncodeAll(values, t));
    Ok(PrimitiveArray(t, Validity(values), cells))
  }

  function Build(values: seq<Value>, f: Field): Outcome<Array>
    decreases f
  {
    match f.dataType
    case Primitive(t) => BuildPrimitive(values, t)
    case ListOf(item) =>
      if !AllLists(values) then Err(ConversionError)
      else
        var child :- Build(FlatMap(values, ItemsOf), item);
        NewListArray(item, Validity(values), Offsets(values, ItemsOf), child)
    case MapOf(entries) =>
      if !(entries.dataType.StructOf? && |entries.dataType.fields| == 2) then Err(ConversionError)
      else if !AllMaps(values) then Err(ConversionError)
      else
        var keys :- Build(FlatMap(values, KeysOf), entries.dataType.fields[0]);
        var vals :- Build(FlatMap(values, ValuesOf), entries.dataType.fields[1]);
        var pairs :- NewStructArray(entries.dataType.fields, Ones(Len(keys)), [keys, vals]);
        NewMapArray(entries, Validity(values), Offsets(values, KeysOf), pairs)
    case StructOf(fields) =>
      if !AllRecords(values) then Err(ConversionError)
      else
        var children :- Collect(BuildColumns(values, fields));
        NewStructArray(fields, Validity(values), children)
  }

  function BuildColumns(values: seq<Value>, fields: seq<Field>): (rs: seq<Outcome<Array>>)
    ensures |rs| == |fields|
    decreases fields
  {
    seq(|fields|, j requires 0 <= j < |fields| => Build(Column(values, fields[j].name), fields[j]))
  }

  function Ones(n: nat): (valid: seq<bool>)
    ensures |valid| == n
  {
    seq(n, i => true)
  }

  predicate AllLists(values: seq<Value>) {
    forall i :: 0 <= i < |values| ==> values[i] == Null || values[i].List?
  }

  predicate AllMaps(values: seq<Value>) {
    forall i :: 0 <= i < |values| ==> values[i] == Null || values[i].Map?
  }

  predicate AllRecords(values: seq<Value>) {
    forall i :: 0 <= i < |values| ==> values[i] == Null || values[i].Record?
  }

  // ---------------------------------------------------------------- the builders as loops

  /** `parquet_value_refs_to_arrow_array`. */
  method BuildArray(values: seq<Value>, f: Field) returns (r: Outcome<Array>)
    ensures r == Build(values, f)
    decreases f, 1
  {
    match f.dataType
    case Primitive(t) => r := BuildPrimitiveArray(values, t);
    case ListOf(item) => r := BuildListArray(values, f, item);
    case MapOf(entries) => r := BuildMapArray(values, f, entries);
    case StructOf(fields) => r := BuildStructArray(values, f, fields);
  }

  /** The loop that all scalar builders share. String and binary builders keep their values in one
      byte buffer, whose length is the next offset. */
  method BuildPrimitiveArray(values: seq<Value>, t: LeafType) returns (r: Outcome<Array>)
    ensures r == BuildPrimitive(values, t)
  {
    var _ :- L.BuilderFor(t);
    ghost var results := EncodeAll(values, t);
    var valid: seq<bool>, cells: seq<Cell> := [], [];
    var bytes: nat := 0;
    for i := 0 to |values|
      invariant valid == Validity(values[..i]) && bytes == TotalBytes(values[..i])
      invariant |cells| == i && forall k :: 0 <= k < i ==> results[k] == Ok(cells[k])
    {
      ValidityStep(values, i);
      var appended, total := AppendValue(values, i, t, bytes);
      if !results[i].Ok? { CollectFailure(results, i); }
      var cell :- appended;
      bytes, valid, cells := total, valid + [values[i] != Null], cells + [cell];
    }
    assert values[..|values|] == values;
    CollectValues(results, cells);
    return Ok(PrimitiveArray(t, valid, cells));
  }

  /** What `append_value` and `append_null` do for value i, given the bytes appended so far. */
  method AppendValue(values: seq<Value>, i: nat, t: LeafType, bytes: nat) returns (r: Outcome<Cell>, total: nat)
    requires i < |values| && bytes == TotalBytes(values[..i])
    ensures r == EncodeSlot(values, t, i) && total == TotalBytes(values[..i + 1])
  {
    TotalBytesStep(values, i);
    total := bytes + PayloadBytes(values[i]);
    r := EncodeValue(values[i], t);
    if r.Ok? && HasByteOffsets(t) && total >= 0x8000_0000 {
      r := Panic;
    }
  }

  lemma ValidityStep(values: seq<Value>, i: nat)
    requires i < |values|
    ensures Validity(values[..i + 1]) == Validity(values[..i]) + [values[i] != Null]
  {
  }

  lemma TotalBytesStep(values: seq<Value>, i: nat)
    requires i < |values|
    ensures TotalBytes(values[..i + 1]) == TotalBytes(values[..i]) + PayloadBytes(values[i])
  {
    assert values[..i + 1][..i] == values[..i];
  }

  /** A prefix has no more bytes than the column. */
  lemma {:induction false} TotalBytesGrow(values: seq<Value>, i: nat)
    requires i <= |values|
    ensures TotalBytes(values[..i]) <= TotalBytes(values)
    decreases |values| - i
  {
    if i < |values| {
      TotalBytesStep(values, i);
      TotalBytesGrow(values, i + 1);
    } else {
      assert values[..i] == values;
    }
  }

  method BuildListArray(values: seq<Value>, f: Field, item: Field) returns (r: Outcome<Array>)
    requires f.dataType == ListOf(item)
    ensures r == Build(values, f)
    decreases f, 0
  {
    var flat :- FlattenLists(values);
    var (allItems, offsets, valid) := flat;
    var child := BuildArray(allItems, item);
    var itemArray :- child;
    return NewListArray(item, valid, offsets, itemArray);
  }

  /** The loop of `build_list_array`. */
  method FlattenLists(values: seq<Value>) returns (r: Outcome<(seq<Value>, seq<int>, seq<bool>)>)
    ensures r == if AllLists(values) then Ok((FlatMap(values, ItemsOf), Offsets(values, ItemsOf), Validity(values)))
                 else Err(ConversionError)
  {
    var allItems: seq<Value>, offsets: seq<int>, valid: seq<bool> := [], [0], [];
    for i := 0 to |values|
      invariant AllLists(values[..i])
      invariant Flattened(values[..i], ItemsOf, allItems, offsets) && valid == Validity(values[..i])
    {
      assert values[..i + 1] == values[..i] + [values[i]];
      FlattenStep(values[..i], values[i], ItemsOf, allItems, offsets);
      match values[i] {
        case List(items) =>
          allItems := allItems + items;
          valid := valid + [true];
        case Null =>
          valid := valid + [false];
        case _ =>
          return Err(ConversionError);
      }
      offsets := offsets + [AsI32(|allItems|)];
    }
    assert values[..|values|] == values;
    return Ok((allItems, offsets, valid));
  }

  ghost predicate Flattened(values: seq<Value>, parts: Value -> seq<Value>, all: seq<Value>, offsets: seq<int>) {
    all == FlatMap(values, parts) && offsets == Offsets(values, parts)
  }

  lemma FlattenStep(before: seq<Value>, v: Value, parts: Value -> seq<Value>, all: seq<Value>, offsets: seq<int>)
    requires Flattened(before, parts, all, offsets)
    ensures var all' := all + parts(v); Flattened(before + [v], parts, all', offsets + [AsI32(|all'|)])
    ensures parts(v) == [] ==> Flattened(before + [v], parts, all, offsets + [AsI32(|all|)])
  {
    FlatMapAppend(before, v, parts);
    OffsetsAppend(before, v, parts);
    if parts(v) == [] {
      assert all + parts(v) == all;
    }
  }

  lemma FlatMapAppend(before: seq<Value>, v: Value, parts: Value -> seq<Value>)
    ensures FlatMap(before + [v], parts) == FlatMap(before, parts) + parts(v)
  {
    assert (before + [v])[..|before|] == before;
  }

  lemma OffsetsAppend(before: seq<Value>, v: Value, parts: Value -> seq<Value>)
    ensures Offsets(before + [v], parts) == Offsets(before, parts) + [AsI32(|FlatMap(before + [v], parts)|)]
  {
    var after := before + [v];
    assert after[..|after|] == after;
    forall i | 0 <= i <= |before|
      ensures Offsets(after, parts)[i] == Offsets(before, parts)[i]
    {
      assert after[..i] == before[..i];
    }
  }

  method BuildMapArray(values: seq<Value>, f: Field, entries: Field) returns (r: Outcome<Array>)
    requires f.dataType == MapOf(entries)
    ensures r == Build(values, f)
    decreases f, 0
  {
    if !(entries.dataType.StructOf? && |entries.dataType.fields| == 2) {
      return Err(ConversionError);
    }
    var kv := entries.dataType.fields;
    var flat :- FlattenMaps(values);
    var (allKeys, allValues, offsets, valid) := flat;
    var keys := BuildArray(allKeys, kv[0]);
    var keyArray :- keys;
    var vals := BuildArray(allValues, kv[1]);
    var valueArray :- vals;
    var structArray :- NewStructArray(kv, Ones(Len(keyArray)), [keyArray, valueArray]);
    return NewMapArray(entries, valid, offsets, structArray);
  }

  /** The loop of `build_map_array`. */
  method FlattenMaps(values: seq<Value>) returns (r: Outcome<(seq<Value>, seq<Value>, seq<int>, seq<bool>)>)
    ensures r == if AllMaps(values)
                 then Ok((FlatMap(values, KeysOf), FlatMap(values, ValuesOf),
                          Offsets(values, KeysOf), Validity(values)))
                 else Err(ConversionError)
  {
    var allKeys: seq<Value>, allValues: seq<Value>, offsets: seq<int>, valid: seq<bool> := [], [], [0], [];
    for i := 0 to |values|
      invariant AllMaps(values[..i]) && valid == Validity(values[..i])
      invariant MapsFlattened(values[..i], allKeys, allValues, offsets)
    {
      assert values[..i + 1] == values[..i] + [values[i]];
      if values[i] != Null && !values[i].Map? {
        return Err(ConversionError);
      }
      allKeys, allValues, offsets := AppendMap(values[..i], values[i], allKeys, allValues, offsets);
      valid := valid + [values[i] != Null];
    }
    assert values[..|values|] == values;
    return Ok((allKeys, allValues, offsets, valid));
  }

  ghost predicate MapsFlattened(values: seq<Value>, ks: seq<Value>, vs: seq<Value>, offsets: seq<int>) {
    Flattened(values, KeysOf, ks, offsets) && vs == FlatMap(values, ValuesOf)
  }

  /** One turn of that loop for a map or a null. */
  method AppendMap(ghost before: seq<Value>, v: Value, ks: seq<Value>, vs: seq<Value>, offsets: seq<int>)
    returns (allKeys: seq<Value>, allValues: seq<Value>, allOffsets: seq<int>)
    requires (v == Null || v.Map?) && MapsFlattened(before, ks, vs, offsets)
    ensures MapsFlattened(before + [v], allKeys, allValues, allOffsets)
  {
    FlattenStep(before, v, KeysOf, ks, offsets);
    FlatMapAppend(before, v, ValuesOf);
    allKeys, allValues := ks, vs;
    if v.Map? {
      allKeys, allValues := AppendEntries(ks, vs, v);
    } else {
      assert vs + [] == vs;
    }
    allOffsets := offsets + [AsI32(|allKeys|)];
  }

  method AppendEntries(ks: seq<Value>, vs: seq<Value>, v: Value)
    returns (allKeys: seq<Value>, allValues: seq<Value>)
    requires v.Map?
    ensures allKeys == ks + KeysOf(v)
    ensures allValues == vs + ValuesOf(v)
  {
    allKeys, allValues := ks, vs;
    for j := 0 to |v.entries|
      invariant allKeys == ks + KeysOf(v)[..j]
      invariant allValues == vs + ValuesOf(v)[..j]
    {
      allKeys := allKeys + [v.entries[j].0];
      allValues := allValues + [v.entries[j].1];
    }
  }

  method BuildStructArray(values: seq<Value>, f: Field, fields: seq<Field>) returns (r: Outcome<Array>)
    requires f.dataType == StructOf(fields)
    ensures r == Build(values, f)
    decreases f, 0
  {
    var flat :- SplitRecords(values, fields);
    var (columns, valid) := flat;
    ghost var results := BuildColumns(values, fields);
    var fieldArrays: seq<Array> := [];
    for j := 0 to |fields|
      invariant |fieldArrays| == j && forall k :: 0 <= k < j ==> results[k] == Ok(fieldArrays[k])
    {
      if !results[j].Ok? { CollectFailure(results, j); }
      var built := BuildArray(columns[j], fields[j]);
      var fieldArray :- built;
      fieldArrays := fieldArrays + [fieldArray];
    }
    CollectValues(results, fieldArrays);
    return NewStructArray(fields, valid, fieldArrays);
  }

  /** The loop of `build_struct_array` over the rows. */
  method SplitRecords(values: seq<Value>, fields: seq<Field>) returns (r: Outcome<(seq<seq<Value>>, seq<bool>)>)
    ensures r.Ok? <==> AllRecords(values)
    ensures !r.Ok? ==> r == Err(ConversionError)
    ensures r.Ok? ==>
              && r.value.1 == Validity(values)
              && |r.value.0| == |fields|
              && forall j :: 0 <= j < |fields| ==> r.value.0[j] == Column(values, fields[j].name)
  {
    var valid: seq<bool> := [];
    var columns: seq<seq<Value>> := seq(|fields|, j => []);
    for i := 0 to |values|
      invariant AllRecords(values[..i])
      invariant valid == Validity(values[..i])
      invariant |columns| == |fields|
      invariant forall j :: 0 <= j < |fields| ==> columns[j] == Column(values[..i], fields[j].name)
    {
      match values[i] {
        case Record(_) => valid := valid + [true];
        case Null => valid := valid + [false];
        case _ => return Err(ConversionError);
      }
      ghost var before := columns;
      for j := 0 to |fields|
        invariant |columns| == |fields|
        invariant forall k :: 0 <= k < j ==> columns[k] == Column(values[..i + 1], fields[k].name)
        invariant forall k :: j <= k < |fields| ==> columns[k] == before[k]
      {
        columns := columns[j := columns[j] + [FieldOrNull(values[i], fields[j].name)]];
        assert columns[j] == Column(values[..i + 1], fields[j].name);
      }
    }
    assert values[..|values|] == values;
    return Ok((columns, valid));
  }

  // ---------------------------------------------------------------- reading values

  /** A node of the Parquet schema tree, as far as the reader consults it. */
  datatype ParquetType =
    | PrimitiveType(name: string, uuid: bool)
    | GroupType(name: string, fields: seq<ParquetType>)

  /** The element node of a list: the child of the repeated group, the repeated node itself when
      it is not a group, or the node at hand when that is not a group. */
  function ElementType(p: ParquetType): Outcome<ParquetType> {
    if p.PrimitiveType? then Ok(p)
    else if p.fields == [] then Err(ConversionError)
    else if p.fields[0].PrimitiveType? then Ok(p.fields[0])
    else if p.fields[0].fields == [] then Err(ConversionError)
    else Ok(p.fields[0].fields[0])
  }

  /** Key and value nodes of a map, by position in the key_value group. */
  function KeyValueTypes(p: ParquetType): Outcome<(ParquetType, ParquetType)> {
    if p.PrimitiveType? || p.fields == [] || p.fields[0].PrimitiveType? || |p.fields[0].fields| < 2
    then Err(ConversionError)
    else Ok((p.fields[0].fields[0], p.fields[0].fields[1]))
  }

  function FindByName(ps: seq<ParquetType>, name: string): Option<ParquetType> {
    if ps == [] then None else if ps[0].name == name then Some(ps[0]) else FindByName(ps[1..], name)
  }

  /** `arrow_to_parquet_value`. A slice of a child array is read through its start offset. */
  function Read(f: Field, p: ParquetType, a: Array, i: nat): Outcome<Value>
    decreases a, 0
  {
    if i >= Len(a) then Panic
    else if IsNull(a, i) then Ok(Null)
    else
      match a
      case PrimitiveArray(t, _, cells) =>
        if i >= |cells| then Panic
        else
          var l :- L.Decode(cells[i], t, (p.PrimitiveType? && p.uuid) || f.uuid);
          Ok(Leaf(l))
      case ListArray(item, _, offsets, child) =>
        if i + 1 >= |offsets| || !(0 <= offsets[i] <= offsets[i + 1]) then Panic
        else
          var element :- ElementType(p);
          var items :- Collect(ReadRange(item, element, child, offsets[i], offsets[i + 1] - offsets[i]));
          Ok(Value.List(items))
      case MapArray(_, _, offsets, child) =>
        if i + 1 >= |offsets| || !(0 <= offsets[i] <= offsets[i + 1]) then Panic
        else if !(child.StructArray? && |child.children| == 2 && |child.fields| == 2) then Panic
        else
          var kv :- KeyValueTypes(p);
          var n := offsets[i + 1] - offsets[i];
          var entries :- Collect(ReadEntries(child.fields, kv, child.children, offsets[i], n));
          Ok(Value.Map(entries))
      case StructArray(fields, _, children) =>
        if p.PrimitiveType? then Err(ConversionError)
        else if |fields| != |children| then Panic
        else
          var vs :- Collect(ReadFields(fields, p.fields, children, i));
          Ok(Record(InsertAll(fields, vs)))
  }

  function ReadRange(item: Field, p: ParquetType, child: Array, start: nat, n: nat): (rs: seq<Outcome<Value>>)
    ensures |rs| == n
    decreases child, 1
  {
    seq(n, k requires 0 <= k < n => Read(item, p, child, start + k))
  }

  function ReadEntries(fields: seq<Field>, kv: (ParquetType, ParquetType), children: seq<Array>, start: nat, n: nat)
    : (rs: seq<Outcome<(Value, Value)>>)
    requires |fields| == |children| == 2
    ensures |rs| == n
    decreases children, 1
  {
    seq(n, k requires 0 <= k < n => Pair(Read(fields[0], kv.0, children[0], start + k),
                                         Read(fields[1], kv.1, children[1], start + k)))
  }

  function Pair(k: Outcome<Value>, v: Outcome<Value>): Outcome<(Value, Value)> {
    var key :- k;
    var value :- v;
    Ok((key, value))
  }

  /** Struct children in array order, each with the Parquet node of the same name. */
  function ReadFields(fields: seq<Field>, ps: seq<ParquetType>, children: seq<Array>, i: nat): (rs: seq<Outcome<Value>>)
    requires |fields| == |children|
    ensures |rs| == |fields|
    decreases children, 1
  {
    seq(|fields|, j requires 0 <= j < |fields| =>
      match FindByName(ps, fields[j].name)
      case None => Err(ConversionError)
      case Some(p) => Read(fields[j], p, children[j], i))
  }

  /** The entries in array order; `IndexMap::insert` replaces the value of a name seen before. */
  function InsertAll(fields: seq<Field>, vs: seq<Value>): RecordEntries
    requires |fields| == |vs|
  {
    if fields == [] then []
    else
      var n := |fields| - 1;
      Insert(InsertAll(fields[..n], vs[..n]), fields[n].name, vs[n])
  }

  function Insert(r: RecordEntries, name: string, v: Value): RecordEntries {
    if r == [] then [(name, v)]
    else if r[0].0 == name then [(name, v)] + r[1..]
    else [r[0]] + Insert(r[1..], name, v)
  }
}
