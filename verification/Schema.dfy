/** Schema trees, their validation, and the mapping to Arrow fields. */
module Schema {
  import opened Values
  import opened Arrow

  datatype PrimitiveType =
    | PInt8 | PInt16 | PInt32 | PInt64
    | PUInt8 | PUInt16 | PUInt32 | PUInt64
    | PFloat32 | PFloat64
    | PDecimal128(p128: u8, s128: i8) | PDecimal256(p256: u8, s256: i8)
    | PBoolean | PString | PBinary
    | PDate32 | PDate64
    | PTimestamp(unit: TimeUnit, tz: Option<string>)
    | PTimeMillis | PTimeMicros | PTimeNanos
    | PFixedLenByteArray(len: i32)

  datatype SchemaNode =
    | StructNode(name: string, nullable: bool, fields: seq<SchemaNode>)
    | ListNode(name: string, nullable: bool, item: SchemaNode)
    | MapNode(name: string, nullable: bool, key: SchemaNode, value: SchemaNode)
    | PrimitiveNode(name: string, nullable: bool, primitiveType: PrimitiveType, format: Option<string>)

  // ---------------------------------------------------------------- validation

  /** `validate_unique_field_names`: a scan with a set of the names already seen. */
  method ValidateUniqueFieldNames(fields: seq<SchemaNode>) returns (r: Outcome<()>)
    ensures r == if UniqueNames(fields) then Ok(()) else Err(SchemaError)
  {
    var names: set<string> := {};
    for i := 0 to |fields|
      invariant forall s :: s in names <==> exists k :: 0 <= k < i && fields[k].name == s
      invariant forall j, k :: 0 <= j < k < i ==> fields[j].name != fields[k].name
    {
      if fields[i].name in names {
        return Err(SchemaError);
      }
      names := names + {fields[i].name};
    }
    return Ok(());
  }

  predicate UniqueNames(fields: seq<SchemaNode>) {
    forall j, k :: 0 <= j < k < |fields| ==> fields[j].name != fields[k].name
  }

  predicate ValidDecimal(precision: u8, scale: i8, maxPrecision: u8) {
    1 <= precision <= maxPrecision && 0 <= scale <= precision
  }

  predicate ValidPrimitive(t: PrimitiveType, format: Option<string>) {
    match t
    case PDecimal128(p, s) => ValidDecimal(p, s, 38)  // the format is not looked at here
    case PDecimal256(p, s) => ValidDecimal(p, s, 76)
    case PFixedLenByteArray(n) => n > 0 && (format == Some("uuid") ==> n == 16)
    case _ => format != Some("uuid")
  }

  /** `validate_schema_node`. Every failure is the same error class, so a predicate suffices. */
  predicate ValidNode(node: SchemaNode) {
    match node
    case StructNode(_, _, fields) =>
      && fields != []
      && UniqueNames(fields)
      && forall i :: 0 <= i < |fields| ==> ValidNode(fields[i])
    case ListNode(_, _, item) => ValidNode(item)
    case MapNode(_, _, key, value) => !key.nullable && ValidNode(key) && ValidNode(value)
    case PrimitiveNode(_, _, t, format) => ValidPrimitive(t, format)
  }

  /** `validate_root`. */
  predicate ValidRoot(root: SchemaNode) {
    root.StructNode? && ValidNode(root)
  }

  // ---------------------------------------------------------------- mapping to Arrow

  function PrimitiveTypeToArrow(t: PrimitiveType): LeafType {
    match t
    case PBoolean => TBoolean
    case PInt8 => TInt8
    case PInt16 => TInt16
    case PInt32 => TInt32
    case PInt64 => TInt64
    case PUInt8 => TUInt8
    case PUInt16 => TUInt16
    case PUInt32 => TUInt32
    case PUInt64 => TUInt64
    case PFloat32 => TFloat32
    case PFloat64 => TFloat64
    case PString => TUtf8
    case PBinary => TBinary
    case PDate32 => TDate32
    case PDate64 => TDate64
    case PTimeMillis => TTime32(Millisecond)
    case PTimeMicros => TTime64(Microsecond)
    case PTimeNanos => TTime64(Nanosecond)
    case PTimestamp(unit, tz) => TTimestamp(unit, if tz.Some? then Some("UTC") else None)
    case PDecimal128(p, s) => TDecimal128(p, s)
    case PDecimal256(p, s) => TDecimal256(p, s)
    case PFixedLenByteArray(n) => TFixedSizeBinary(n)
  }

  /** `Field::with_extension_type(Uuid)` panics unless the storage type is 16 bytes wide. */
  function WithUuid(f: Field): Outcome<Field> {
    if f.dataType == Primitive(TFixedSizeBinary(16)) then Ok(f.(uuid := true)) else Panic
  }

  /** `schema_node_to_arrow_field`. The element field of a list and the key and value fields of
      a map are rebuilt from name, type and nullability, which drops the uuid extension. */
  function ToArrowField(node: SchemaNode): Outcome<Field> {
    match node
    case PrimitiveNode(name, nullable, t, format) =>
      var f := Field(name, Primitive(PrimitiveTypeToArrow(t)), nullable, false);
      if format == Some("uuid") then WithUuid(f) else Ok(f)
    case ListNode(name, nullable, item) =>
      var f :- ToArrowField(item);
      Ok(Field(name, ListOf(Field("item", f.dataType, f.nullable, false)), nullable, false))
    case MapNode(name, nullable, key, value) =>
      var k :- ToArrowField(key);
      var v :- ToArrowField(value);
      var kv := [Field(k.name, k.dataType, false, false), Field(v.name, v.dataType, v.nullable, false)];
      Ok(Field(name, MapOf(Field("entries", StructOf(kv), false, false)), nullable, false))
    case StructNode(name, nullable, fields) =>
      var fs :- ToArrowFields(fields);
      Ok(Field(name, StructOf(fs), nullable, false))
  }

  function ToArrowFields(nodes: seq<SchemaNode>): Outcome<seq<Field>> {
    if nodes == [] then Ok([])
    else
      var f :- ToArrowField(nodes[0]);
      var fs :- ToArrowFields(nodes[1..]);
      Ok([f] + fs)
  }

  // ---------------------------------------------------------------- what a mapped field is like

  predicate FieldLeafOk(t: LeafType, uuid: bool) {
    && (uuid ==> t == TFixedSizeBinary(16))
    && match t
       case TFloat16 => false
       case TTime32(unit) => unit == Millisecond
       case TTime64(unit) => unit == Microsecond || unit == Nanosecond
       case TDecimal128(p, s) => ValidDecimal(p, s, 38)
       case TDecimal256(p, s) => ValidDecimal(p, s, 76)
       case TFixedSizeBinary(n) => n > 0
       case _ => true
  }

  predicate UniqueFieldNames(fields: seq<Field>) {
    forall j, k :: 0 <= j < k < |fields| ==> fields[j].name != fields[k].name
  }

  /** The Arrow fields that a validated schema can produce. */
  predicate FieldOk(f: Field) {
    match f.dataType
    case Primitive(t) => FieldLeafOk(t, f.uuid)
    case ListOf(item) => FieldOk(item)
    case MapOf(entries) =>
      && !entries.nullable
      && entries.dataType.StructOf? && |entries.dataType.fields| == 2
      && !entries.dataType.fields[0].nullable
      && FieldOk(entries.dataType.fields[0])
      && FieldOk(entries.dataType.fields[1])
    case StructOf(fields) =>
      && fields != []
      && UniqueFieldNames(fields)
      && forall j :: 0 <= j < |fields| ==> FieldOk(fields[j])
  }

  /** FieldOk looks at the uuid flag of leaves only, where dropping it is harmless. */
  lemma RebuiltFieldOk(f: Field, name: string, nullable: bool)
    requires FieldOk(f)
    ensures FieldOk(Field(name, f.dataType, nullable, false))
  {
  }

  /** Validation checks a decimal's precision and scale but never looks at its format. */
  predicate HasUuidDecimal(node: SchemaNode) {
    match node
    case PrimitiveNode(_, _, t, format) => (t.PDecimal128? || t.PDecimal256?) && format == Some("uuid")
    case ListNode(_, _, item) => HasUuidDecimal(item)
    case MapNode(_, _, key, value) => HasUuidDecimal(key) || HasUuidDecimal(value)
    case StructNode(_, _, fields) => exists i :: 0 <= i < |fields| && HasUuidDecimal(fields[i])
  }

  /** A validated schema maps to Arrow exactly when no decimal in it carries the uuid format;
      otherwise the mapping panics. What it maps to satisfies FieldOk. */
  lemma {:induction false} ValidNodeMaps(node: SchemaNode)
    requires ValidNode(node)
    ensures ToArrowField(node).Ok? <==> !HasUuidDecimal(node)
    ensures HasUuidDecimal(node) ==> ToArrowField(node).Panic?
    ensures ToArrowField(node).Ok? ==>
              var f := ToArrowField(node).value;
              FieldOk(f) && f.name == node.name && f.nullable == node.nullable
  {
    match node
    case PrimitiveNode(_, _, t, format) =>
    case ListNode(_, _, item) =>
      ValidNodeMaps(item);
      if ToArrowField(item).Ok? {
        RebuiltFieldOk(ToArrowField(item).value, "item", item.nullable);
      }
    case MapNode(_, _, key, value) =>
      ValidNodeMaps(key);
      ValidNodeMaps(value);
      if ToArrowField(key).Ok? && ToArrowField(value).Ok? {
        RebuiltFieldOk(ToArrowField(key).value, key.name, false);
        RebuiltFieldOk(ToArrowField(value).value, value.name, value.nullable);
      }
    case StructNode(_, _, fields) =>
      ValidNodesMap(fields);
  }

  lemma {:induction false} ValidNodesMap(nodes: seq<SchemaNode>)
    requires forall i :: 0 <= i < |nodes| ==> ValidNode(nodes[i])
    ensures ToArrowFields(nodes).Ok? <==> forall i :: 0 <= i < |nodes| ==> !HasUuidDecimal(nodes[i])
    ensures !ToArrowFields(nodes).Ok? ==> ToArrowFields(nodes).Panic?
    ensures ToArrowFields(nodes).Ok? ==>
              var fs := ToArrowFields(nodes).value;
              && |fs| == |nodes|
              && forall i :: 0 <= i < |nodes| ==>
                   FieldOk(fs[i]) && fs[i].name == nodes[i].name && fs[i].nullable == nodes[i].nullable
  {
    if nodes != [] {
      ValidNodeMaps(nodes[0]);
      ValidNodesMap(nodes[1..]);
      assert forall i :: 0 < i < |nodes| ==> nodes[i] == nodes[1..][i - 1];
      assert forall i :: 0 <= i < |nodes| - 1 ==> nodes[1..][i] == nodes[i + 1];
    }
  }

  /** No map's key may be null. */
  predicate KeysRequired(node: SchemaNode) {
    match node
    case PrimitiveNode(_, _, _, _) => true
    case ListNode(_, _, item) => KeysRequired(item)
    case MapNode(_, _, key, value) => !key.nullable && KeysRequired(key) && KeysRequired(value)
    case StructNode(_, _, fields) => forall i :: 0 <= i < |fields| ==> KeysRequired(fields[i])
  }

  /** The field has the node's name, and a UUID mark on 16 bytes only. */
  predicate Named(f: Field, node: SchemaNode) {
    f.name == node.name && (f.uuid ==> f.dataType == Primitive(TFixedSizeBinary(16)))
  }

  /** Validation refuses nothing else: apart from uuid decimals, the validated schemas are exactly those
      that map to well-shaped Arrow fields and have no nullable keys, which the mapping would hide. */
  lemma {:induction false} ValidIff(node: SchemaNode)
    requires !HasUuidDecimal(node)
    ensures ValidNode(node) <==>
            ToArrowField(node).Ok? && FieldOk(ToArrowField(node).value) && KeysRequired(node)
    ensures ToArrowField(node).Ok? ==> Named(ToArrowField(node).value, node)
    decreases node, 1
  {
    match node
    case PrimitiveNode(_, _, t, format) =>
    case ListNode(_, _, item) =>
      ValidIff(item);
      var mapped := ToArrowField(item);
      if mapped.Ok? { RebuiltFieldIff(mapped.value, "item", mapped.value.nullable); }
    case MapNode(_, _, key, value) => ValidMapIff(node);
    case StructNode(_, _, fields) => ValidAllIff(fields);
  }

  lemma {:induction false} ValidMapIff(node: SchemaNode)
    requires node.MapNode? && !HasUuidDecimal(node)
    ensures ValidNode(node) <==>
            ToArrowField(node).Ok? && FieldOk(ToArrowField(node).value) && KeysRequired(node)
    ensures ToArrowField(node).Ok? ==> Named(ToArrowField(node).value, node)
    decreases node, 0
  {
    ValidIff(node.key);
    ValidIff(node.value);
    if ToArrowField(node).Ok? {
      var k, v := ToArrowField(node.key).value, ToArrowField(node.value).value;
      RebuiltFieldIff(k, k.name, false);
      RebuiltFieldIff(v, v.name, v.nullable);
    }
  }

  lemma {:induction false} ValidAllIff(nodes: seq<SchemaNode>)
    requires forall i :: 0 <= i < |nodes| ==> !HasUuidDecimal(nodes[i])
    ensures (forall i :: 0 <= i < |nodes| ==> ValidNode(nodes[i])) <==>
            && ToArrowFields(nodes).Ok?
            && forall i :: 0 <= i < |nodes| ==>
                 |ToArrowFields(nodes).value| == |nodes|
                 && FieldOk(ToArrowFields(nodes).value[i]) && KeysRequired(nodes[i])
    ensures ToArrowFields(nodes).Ok? ==>
              && |ToArrowFields(nodes).value| == |nodes|
              && forall i :: 0 <= i < |nodes| ==> ToArrowFields(nodes).value[i].name == nodes[i].name
    decreases nodes, 0
  {
    if nodes != [] {
      var rest := nodes[1..];
      ValidIff(nodes[0]);
      ValidAllIff(rest);
      assert nodes == [nodes[0]] + rest;
      assert forall i :: 0 <= i < |rest| ==> rest[i] == nodes[i + 1];
      assert forall i :: 1 <= i < |nodes| ==> nodes[i] == rest[i - 1];
    }
  }

  lemma RebuiltFieldIff(f: Field, name: string, nullable: bool)
    requires f.uuid ==> f.dataType == Primitive(TFixedSizeBinary(16))
    ensures FieldOk(Field(name, f.dataType, nullable, false)) <==> FieldOk(f)
  {
  }

  /** The smallest schema that passes validation and then panics. */
  lemma UuidDecimalPanics()
    ensures var node := StructNode("root", false, [PrimitiveNode("d", false, PDecimal128(5, 2), Some("uuid"))]);
            ValidRoot(node) && ToArrowField(node).Panic?
  {
    var node := StructNode("root", false, [PrimitiveNode("d", false, PDecimal128(5, 2), Some("uuid"))]);
    assert ValidNode(node.fields[0]);
    assert HasUuidDecimal(node.fields[0]);
    ValidNodeMaps(node);
  }
}
