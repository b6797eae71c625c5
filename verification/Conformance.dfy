/** What a schema means for values, said without Arrow fields: which values a schema node takes,
  which of them can be stored, and what they read back as. The mapping to Arrow, the validator and
  the conversion together do exactly this. */
module Conformance {
  import opened Values
  import opened Arrow
  import opened Schema
  import opened Conversion
  import opened RoundTrip
  import opened Soundness
  import opened Wrapping
  import opened Reread
  import D = Decimal256
  import L = Leaves

  // ---------------------------------------------------------------- what a schema means

  /** A scaled number of at most `precision` digits. */
  ghost predicate DecimalConforms(v: int, valueScale: i8, precision: u8, scale: i8) {
    var limit: int := D.Pow(10, precision);
    valueScale == scale && -limit < v < limit
  }

  /** The scalars that a primitive type takes: its own variant only, in any time unit. */
  ghost predicate LeafConforms(l: Leaf, t: PrimitiveType) {
    match t
    case PBoolean => l.Boolean?
    case PInt8 => l.Int8?
    case PInt16 => l.Int16?
    case PInt32 => l.Int32?
    case PInt64 => l.Int64?
    case PUInt8 => l.UInt8?
    case PUInt16 => l.UInt16?
    case PUInt32 => l.UInt32?
    case PUInt64 => l.UInt64?
    case PFloat32 => l.Float32?
    case PFloat64 => l.Float64?
    case PString => l.Str?
    case PBinary => l.Bytes?
    case PFixedLenByteArray(n) => l.Bytes? && |l.bytes| == n
    case PDate32 => l.Date32?
    case PDate64 => l.Date64?
    case PTimeMillis => l.TimeMillis?
    case PTimeMicros => l.TimeMicros? || l.TimeNanos?
    case PTimeNanos => l.TimeMicros? || l.TimeNanos?
    case PTimestamp(_, _) => l.Timestamp?
    case PDecimal128(p, s) => l.Decimal128? && DecimalConforms(l.v128, l.s128, p, s)
    case PDecimal256(p, s) => l.Decimal256? && DecimalConforms(l.v256, l.s256, p, s)
  }

  /** The values that a schema node takes: null where the node allows it, lists of items, maps of
      keys and values, and records in which every field of the schema conforms, a missing entry
      counting as null and entries of other names not counting at all. */
  ghost predicate Conforms(v: Value, node: SchemaNode)
    decreases node, v
  {
    match (v, node)
    case (Null, _) => node.nullable
    case (Leaf(l), PrimitiveNode(_, _, t, _)) => LeafConforms(l, t)
    case (List(items), ListNode(_, _, item)) => forall k :: 0 <= k < |items| ==> Conforms(items[k], item)
    case (Map(es), MapNode(_, _, key, value)) =>
      forall k :: 0 <= k < |es| ==> Conforms(es[k].0, key) && Conforms(es[k].1, value)
    case (Record(r), StructNode(_, _, fields)) =>
      forall j :: 0 <= j < |fields| ==> Conforms(LookupOrNull(r, fields[j].name), fields[j])
    case _ => false
  }

  predicate LeafUnit(l: Leaf, t: PrimitiveType) {
    match t
    case PTimeMicros => l.TimeMicros?
    case PTimeNanos => l.TimeNanos?
    case PTimestamp(unit, _) => l.Timestamp? && l.unit == unit
    case _ => true
  }

  /** Every time and timestamp has the unit of its node. */
  predicate InUnits(v: Value, node: SchemaNode)
    decreases node, v
  {
    match (v, node)
    case (Leaf(l), PrimitiveNode(_, _, t, _)) => LeafUnit(l, t)
    case (List(items), ListNode(_, _, item)) => forall k :: 0 <= k < |items| ==> InUnits(items[k], item)
    case (Map(es), MapNode(_, _, key, value)) =>
      forall k :: 0 <= k < |es| ==> InUnits(es[k].0, key) && InUnits(es[k].1, value)
    case (Record(r), StructNode(_, _, fields)) =>
      forall j :: 0 <= j < |fields| ==> InUnits(LookupOrNull(r, fields[j].name), fields[j])
    case _ => true
  }

  /** The stored scalar: a timestamp is in UTC if its node has any timezone and in none otherwise,
      a byte string is a UUID if it is marked as one, and everything else is as it was. */
  function StoredLeaf(l: Leaf, t: PrimitiveType, uuid: bool): Leaf {
    if t.PTimestamp? && l.Timestamp? then l.(tz := if t.tz.Some? then Some("UTC") else None)
    else if uuid && l.Bytes? then Uuid(l.bytes)
    else l
  }

  /** What a value reads back as. Items of lists and keys and values of maps lose the UUID mark
      (`keepsUuid` is false for them); the fields of a struct inside them have it again. */
  function Stored(v: Value, node: SchemaNode, keepsUuid: bool): Value
    decreases node, v
  {
    match (v, node)
    case (Leaf(l), PrimitiveNode(_, _, t, format)) => Leaf(StoredLeaf(l, t, keepsUuid && format == Some("uuid")))
    case (List(items), ListNode(_, _, item)) =>
      Value.List(seq(|items|, k requires 0 <= k < |items| => Stored(items[k], item, false)))
    case (Map(es), MapNode(_, _, key, value)) =>
      Value.Map(seq(|es|, k requires 0 <= k < |es| => (Stored(es[k].0, key, false), Stored(es[k].1, value, false))))
    case (Record(r), StructNode(_, _, fields)) =>
      Record(seq(|fields|, j requires 0 <= j < |fields| =>
        (fields[j].name, Stored(LookupOrNull(r, fields[j].name), fields[j], true))))
    case _ => v
  }

  // ---------------------------------------------------------------- what the mapping does

  /** `g` is the field of `node`, or the field that a list or map makes of it. */
  predicate Represents(g: Field, node: SchemaNode, keepsUuid: bool) {
    && ToArrowField(node).Ok? && g.dataType == ToArrowField(node).value.dataType && g.nullable == node.nullable
    && (node.PrimitiveNode? ==> g.uuid == (keepsUuid && node.format == Some("uuid")))
  }

  lemma MappedItself(node: SchemaNode)
    requires ValidNode(node) && ToArrowField(node).Ok?
    ensures Represents(ToArrowField(node).value, node, true)
  {
    ValidNodeMaps(node);
  }

  lemma {:induction false} FieldsMapped(nodes: seq<SchemaNode>, j: nat)
    requires ToArrowFields(nodes).Ok? && j < |nodes|
    ensures |ToArrowFields(nodes).value| == |nodes|
    ensures ToArrowField(nodes[j]) == Ok(ToArrowFields(nodes).value[j])
  {
    if j > 0 {
      FieldsMapped(nodes[1..], j - 1);
    } else if |nodes| > 1 {
      FieldsMapped(nodes[1..], 0);
    }
  }

  /** The parts of a mapped node represent the parts of the node. */
  lemma PartsRepresented(g: Field, node: SchemaNode, keepsUuid: bool)
    requires ValidNode(node) && Represents(g, node, keepsUuid)
    ensures node.PrimitiveNode? ==> g.dataType == Primitive(PrimitiveTypeToArrow(node.primitiveType))
    ensures node.ListNode? ==> g.dataType.ListOf? && Represents(g.dataType.item, node.item, false)
    ensures node.MapNode? ==>
              && g.dataType.MapOf? && g.dataType.entries.dataType.StructOf? && |g.dataType.entries.dataType.fields| == 2
              && Represents(g.dataType.entries.dataType.fields[0], node.key, false)
              && Represents(g.dataType.entries.dataType.fields[1], node.value, false)
    ensures node.StructNode? ==>
              && g.dataType.StructOf? && |g.dataType.fields| == |node.fields|
              && forall j :: 0 <= j < |node.fields| ==>
                   g.dataType.fields[j].name == node.fields[j].name
                   && Represents(g.dataType.fields[j], node.fields[j], true)
  {
    match node
    case PrimitiveNode(_, _, t, format) =>
    case ListNode(_, _, item) => ValidNodeMaps(item);
    case MapNode(_, _, key, value) =>
      ValidNodeMaps(key);
      ValidNodeMaps(value);
    case StructNode(_, _, fields) =>
      ValidNodesMap(fields);
      forall j | 0 <= j < |fields|
        ensures Represents(g.dataType.fields[j], fields[j], true)
      {
        FieldsMapped(fields, j);
        MappedItself(fields[j]);
      }
  }

  /** The names in a mapped field: the node's own, "item" for the element of a list, "entries" for the
      pairs of a map, and the names of key, value and struct fields as they are. */
  lemma MappedNames(node: SchemaNode)
    requires ValidNode(node) && ToArrowField(node).Ok?
    ensures var f := ToArrowField(node).value;
            && f.name == node.name
            && (node.ListNode? ==> f.dataType.ListOf? && f.dataType.item.name == "item")
            && (node.MapNode? ==>
                  && f.dataType.MapOf? && f.dataType.entries.name == "entries"
                  && f.dataType.entries.dataType.StructOf? && |f.dataType.entries.dataType.fields| == 2
                  && f.dataType.entries.dataType.fields[0].name == node.key.name
                  && f.dataType.entries.dataType.fields[1].name == node.value.name)
            && (node.StructNode? ==>
                  && f.dataType.StructOf? && |f.dataType.fields| == |node.fields|
                  && forall j :: 0 <= j < |node.fields| ==> f.dataType.fields[j].name == node.fields[j].name)
  {
    ValidNodeMaps(node);
    match node
    case PrimitiveNode(_, _, _, _) =>
    case ListNode(_, _, item) => ValidNodeMaps(item);
    case MapNode(_, _, key, value) =>
      ValidNodeMaps(key);
      ValidNodeMaps(value);
    case StructNode(_, _, fields) => ValidNodesMap(fields);
  }

  // ---------------------------------------------------------------- scalars

  lemma DigitsConform(v: int, valueScale: i8, precision: u8, scale: i8)
    requires precision >= 1
    ensures L.DecimalFits(v, valueScale, precision, scale) <==> DecimalConforms(v, valueScale, precision, scale)
  {
    D.DigitCountBound(D.Abs(v), precision);
  }

  lemma LeafMeaning(l: Leaf, t: PrimitiveType, format: Option<string>, uuid: bool)
    requires ValidPrimitive(t, format) && (uuid ==> PrimitiveTypeToArrow(t) == TFixedSizeBinary(16))
    ensures var a := PrimitiveTypeToArrow(t);
            && (L.AcceptsLeaf(l, a) <==> LeafConforms(l, t))
            && (LeafConforms(l, t) ==> (L.LeafUnitAgrees(l, a) <==> LeafUnit(l, t)))
            && (LeafConforms(l, t) ==> L.Coerce(l, a, uuid) == StoredLeaf(l, t, uuid))
  {
    LeafAcceptance(l, t, format);
    if LeafConforms(l, t) {
      LeafUnits(l, t);
      LeafStored(l, t, uuid);
    }
  }

  lemma LeafAcceptance(l: Leaf, t: PrimitiveType, format: Option<string>)
    requires ValidPrimitive(t, format)
    ensures L.AcceptsLeaf(l, PrimitiveTypeToArrow(t)) <==> LeafConforms(l, t)
  {
    match t
    case PDecimal128(p, s) => if l.Decimal128? { DigitsConform(l.v128, l.s128, p, s); }
    case PDecimal256(p, s) => if l.Decimal256? { DigitsConform(l.v256, l.s256, p, s); }
    case _ => if IsNumber(t) { NumberAcceptance(l, t); } else { OtherAcceptance(l, t); }
  }

  predicate IsNumber(t: PrimitiveType) {
    t.PInt8? || t.PInt16? || t.PInt32? || t.PInt64? || t.PUInt8? || t.PUInt16? || t.PUInt32? || t.PUInt64?
    || t.PFloat32? || t.PFloat64?
  }

  lemma NumberAcceptance(l: Leaf, t: PrimitiveType)
    requires IsNumber(t)
    ensures L.AcceptsLeaf(l, PrimitiveTypeToArrow(t)) <==> LeafConforms(l, t)
  {
  }

  lemma OtherAcceptance(l: Leaf, t: PrimitiveType)
    requires !IsNumber(t) && !t.PDecimal128? && !t.PDecimal256?
    ensures L.AcceptsLeaf(l, PrimitiveTypeToArrow(t)) <==> LeafConforms(l, t)
  {
  }

  lemma LeafUnits(l: Leaf, t: PrimitiveType)
    requires LeafConforms(l, t)
    ensures L.LeafUnitAgrees(l, PrimitiveTypeToArrow(t)) <==> LeafUnit(l, t)
  {
  }

  lemma LeafStored(l: Leaf, t: PrimitiveType, uuid: bool)
    requires LeafConforms(l, t) && (uuid ==> PrimitiveTypeToArrow(t) == TFixedSizeBinary(16))
    ensures L.Coerce(l, PrimitiveTypeToArrow(t), uuid) == StoredLeaf(l, t, uuid)
  {
  }

  // ---------------------------------------------------------------- main result on acceptance

  /** Main result: of a validated schema that maps to Arrow, the validator accepts exactly the values
      that conform; their units agree with the Arrow fields exactly when they have the units of their
      nodes, and their normal forms are what the schema says they are stored as. */
  lemma {:induction false} SchemaMeaning(v: Value, node: SchemaNode, g: Field, keepsUuid: bool)
    requires ValidNode(node) && Represents(g, node, keepsUuid)
    ensures Accepts(v, g) <==> Conforms(v, node)
    ensures Conforms(v, node) ==> (UnitsAgree(v, g) <==> InUnits(v, node))
    ensures Conforms(v, node) ==> Normal(v, g) == Stored(v, node, keepsUuid)
    decreases node, 1
  {
    PartsRepresented(g, node, keepsUuid);
    match node
    case PrimitiveNode(_, _, t, format) =>
      if v.Leaf? { LeafMeaning(v.leaf, t, format, g.uuid); }
    case ListNode(_, _, item) => if v.List? { ListMeaning(v, node, g, keepsUuid); }
    case MapNode(_, _, key, value) => if v.Map? { MapMeaning(v, node, g, keepsUuid); }
    case StructNode(_, _, fields) => if v.Record? { RecordMeaning(v, node, g, keepsUuid); }
  }

  lemma {:induction false} ListMeaning(v: Value, node: SchemaNode, g: Field, keepsUuid: bool)
    requires ValidNode(node) && Represents(g, node, keepsUuid) && v.List? && node.ListNode?
    ensures Accepts(v, g) <==> Conforms(v, node)
    ensures Conforms(v, node) ==> (UnitsAgree(v, g) <==> InUnits(v, node))
    ensures Conforms(v, node) ==> Normal(v, g) == Stored(v, node, keepsUuid)
    decreases node, 0
  {
    PartsRepresented(g, node, keepsUuid);
    forall k | 0 <= k < |v.items|
      ensures Meant(v.items[k], node.item, g.dataType.item, false)
    {
      SchemaMeaning(v.items[k], node.item, g.dataType.item, false);
    }
    if Conforms(v, node) {
      assert Normal(v, g).items == Stored(v, node, keepsUuid).items;
    }
  }

  ghost predicate Meant(v: Value, node: SchemaNode, g: Field, keepsUuid: bool) {
    && (Accepts(v, g) <==> Conforms(v, node))
    && (Conforms(v, node) ==> (UnitsAgree(v, g) <==> InUnits(v, node)))
    && (Conforms(v, node) ==> Normal(v, g) == Stored(v, node, keepsUuid))
  }

  lemma {:induction false} MapMeaning(v: Value, node: SchemaNode, g: Field, keepsUuid: bool)
    requires ValidNode(node) && Represents(g, node, keepsUuid) && v.Map? && node.MapNode?
    ensures Accepts(v, g) <==> Conforms(v, node)
    ensures Conforms(v, node) ==> (UnitsAgree(v, g) <==> InUnits(v, node))
    ensures Conforms(v, node) ==> Normal(v, g) == Stored(v, node, keepsUuid)
    decreases node, 0
  {
    PartsRepresented(g, node, keepsUuid);
    var kv := g.dataType.entries.dataType.fields;
    forall k | 0 <= k < |v.entries|
      ensures Meant(v.entries[k].0, node.key, kv[0], false) && Meant(v.entries[k].1, node.value, kv[1], false)
    {
      SchemaMeaning(v.entries[k].0, node.key, kv[0], false);
      SchemaMeaning(v.entries[k].1, node.value, kv[1], false);
    }
    if Conforms(v, node) {
      assert Normal(v, g).entries == Stored(v, node, keepsUuid).entries;
    }
  }

  lemma {:induction false} RecordMeaning(v: Value, node: SchemaNode, g: Field, keepsUuid: bool)
    requires ValidNode(node) && Represents(g, node, keepsUuid) && v.Record? && node.StructNode?
    ensures Accepts(v, g) <==> Conforms(v, node)
    ensures Conforms(v, node) ==> (UnitsAgree(v, g) <==> InUnits(v, node))
    ensures Conforms(v, node) ==> Normal(v, g) == Stored(v, node, keepsUuid)
    decreases node, 0
  {
    PartsRepresented(g, node, keepsUuid);
    var fields := node.fields;
    forall j | 0 <= j < |fields|
      ensures Meant(LookupOrNull(v.fields, fields[j].name), fields[j], g.dataType.fields[j], true)
    {
      SchemaMeaning(LookupOrNull(v.fields, fields[j].name), fields[j], g.dataType.fields[j], true);
    }
    RecordAccepted(v, g);
    assert forall j :: 0 <= j < |fields| ==>
             FieldOrNull(v, g.dataType.fields[j].name) == LookupOrNull(v.fields, fields[j].name);
    if Conforms(v, node) {
      assert Normal(v, g).fields == Stored(v, node, keepsUuid).fields;
    }
  }

  // ---------------------------------------------------------------- main result on columns

  /** The round trip in terms of the schema alone: a column of conforming values is stored, and reads
      back slot by slot as what the schema says, exactly when all of them have the units of their
      nodes and no 32-bit offset is exceeded. */
  lemma SchemaRoundTrip(node: SchemaNode, values: seq<Value>)
    requires ValidNode(node) && ToArrowField(node).Ok?
    requires forall v :: v in values ==> Conforms(v, node)
    ensures var f := ToArrowField(node).value;
            (&& Build(values, f).Ok?
             && forall i :: 0 <= i < |values| ==>
                  Read(f, ParquetTypeOf(f), Build(values, f).value, i) == Ok(Stored(values[i], node, true)))
            <==> (forall v :: v in values ==> InUnits(v, node)) && Fits(values, f)
  {
    var f := ToArrowField(node).value;
    ValidNodeMaps(node);
    CanonicalDescribes(f);
    ColumnMeaning(node, values, f);
    RoundTripIff(node, values, ParquetTypeOf(f));
  }

  lemma ColumnMeaning(node: SchemaNode, values: seq<Value>, f: Field)
    requires ValidNode(node) && ToArrowField(node) == Ok(f)
    requires forall v :: v in values ==> Conforms(v, node)
    ensures AcceptsAll(values, f)
    ensures AllAgree(values, f) <==> forall v :: v in values ==> InUnits(v, node)
    ensures forall i :: 0 <= i < |values| ==> Normal(values[i], f) == Stored(values[i], node, true)
  {
    MappedItself(node);
    forall v | v in values
      ensures Meant(v, node, f, true)
    {
      SchemaMeaning(v, node, f, true);
    }
    assert forall i :: 0 <= i < |values| ==> values[i] in values;
  }
}
