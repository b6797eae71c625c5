/** Field counting, dotted paths and lookup by path in a schema tree. */
module SchemaPaths {
  import opened Values
  import opened Schema
  import opened Strings

  function CountFields(node: SchemaNode): (n: nat)
    ensures n >= 1
    decreases node
  {
    match node
    case StructNode(_, _, fields) => 1 + CountAll(fields)
    case ListNode(_, _, item) => 1 + CountFields(item)
    case MapNode(_, _, key, value) => 1 + CountFields(key) + CountFields(value)
    case PrimitiveNode(_, _, _, _) => 1
  }

  function CountAll(nodes: seq<SchemaNode>): nat
    decreases nodes
  {
    if nodes == [] then 0 else CountFields(nodes[0]) + CountAll(nodes[1..])
  }

  /** The path of a node below the path `prefix`. */
  function PathBelow(prefix: string, name: string): string {
    if prefix == [] then name else prefix + "." + name
  }

  /** `collect_field_paths` as a value. */
  function Paths(node: SchemaNode, prefix: string): seq<string>
    decreases node
  {
    var current := PathBelow(prefix, node.name);
    match node
    case StructNode(_, _, fields) => [current] + PathsAll(fields, current)
    case ListNode(_, _, item) => [current] + Paths(item, current)
    case MapNode(_, _, key, value) => [current] + Paths(key, current) + Paths(value, current)
    case PrimitiveNode(_, _, _, _) => [current]
  }

  function PathsAll(nodes: seq<SchemaNode>, prefix: string): seq<string>
    decreases nodes
  {
    if nodes == [] then [] else Paths(nodes[0], prefix) + PathsAll(nodes[1..], prefix)
  }

  /** The accumulator that collects the paths. */
  class PathList {
    var paths: seq<string>

    constructor ()
      ensures paths == []
    {
      paths := [];
    }

    method Push(path: string)
      modifies this
      ensures paths == old(paths) + [path]
    {
      paths := paths + [path];
    }
  }

  method CollectFieldPaths(node: SchemaNode, prefix: string, out: PathList)
    modifies out
    ensures out.paths == old(out.paths) + Paths(node, prefix)
    decreases node, 1
  {
    var current := PathBelow(prefix, node.name);
    ghost var start := out.paths;
    out.Push(current);
    match node
    case StructNode(_, _, fields) =>
      CollectFields(fields, current, out);
      Regroup(start, current, PathsAll(fields, current), []);
    case ListNode(_, _, item) =>
      CollectFieldPaths(item, current, out);
      Regroup(start, current, Paths(item, current), []);
    case MapNode(_, _, key, value) =>
      CollectFieldPaths(key, current, out);
      CollectFieldPaths(value, current, out);
      Regroup(start, current, Paths(key, current), Paths(value, current));
    case PrimitiveNode(_, _, _, _) =>
  }

  lemma Regroup(start: seq<string>, current: string, a: seq<string>, b: seq<string>)
    ensures start + [current] + a == start + ([current] + a)
    ensures start + [current] + a + b == start + ([current] + a + b)
  {
  }

  /** The loop over the fields of a struct. */
  method CollectFields(fields: seq<SchemaNode>, prefix: string, out: PathList)
    modifies out
    ensures out.paths == old(out.paths) + PathsAll(fields, prefix)
    decreases fields, 0
  {
    ghost var start := out.paths;
    assert fields[0..] == fields;
    for k := 0 to |fields|
      invariant out.paths + PathsAll(fields[k..], prefix) == start + PathsAll(fields, prefix)
    {
      ghost var before := out.paths;
      CollectFieldPaths(fields[k], prefix, out);
      PathsStep(fields, prefix, k, before, out.paths);
    }
    assert PathsAll(fields[|fields|..], prefix) == [];
  }

  lemma PathsStep(fields: seq<SchemaNode>, prefix: string, k: nat, before: seq<string>, after: seq<string>)
    requires k < |fields| && after == before + Paths(fields[k], prefix)
    ensures after + PathsAll(fields[k + 1..], prefix) == before + PathsAll(fields[k..], prefix)
  {
    assert fields[k..][1..] == fields[k + 1..];
  }

  // ---------------------------------------------------------------- lookup

  function FindField(fields: seq<SchemaNode>, name: string): (f: Option<SchemaNode>)
    ensures f.Some? ==> f.value in fields
  {
    if fields == [] then None else if fields[0].name == name then Some(fields[0]) else FindField(fields[1..], name)
  }

  /** `get_field_by_path_parts`. */
  function GetByParts(node: SchemaNode, parts: seq<string>): Option<SchemaNode>
    decreases |parts|
  {
    if parts == [] then Some(node)
    else
      var child := Child(node, parts[0]);
      if child.Some? then GetByParts(child.value, parts[1..]) else None
  }

  /** The child that one path segment selects; the generic segment names come before real ones. */
  function Child(node: SchemaNode, first: string): Option<SchemaNode> {
    match node
    case StructNode(_, _, fields) => FindField(fields, first)
    case ListNode(_, _, item) => if first == "item" || first == item.name then Some(item) else None
    case MapNode(_, _, key, value) =>
      if first == "key" || first == key.name then Some(key)
      else if first == "value" || first == value.name then Some(value)
      else None
    case PrimitiveNode(_, _, _, _) => None
  }

  predicate HasChildNamed(node: SchemaNode, name: string) {
    node.StructNode? && exists k :: 0 <= k < |node.fields| && node.fields[k].name == name
  }

  /** `get_field_by_path`: a leading segment equal to the root's name is dropped, unless the root
      has a child of that name. */
  function GetByPath(root: SchemaNode, path: string): Option<SchemaNode> {
    if path == [] then None
    else
      var parts := SplitAt(path, '.');
      if parts[0] == root.name && !HasChildNamed(root, root.name) then GetByParts(root, parts[1..])
      else GetByParts(root, parts)
  }

  // ---------------------------------------------------------------- what any path finds

  /** A segment selects a child: the first field of that name in a struct; the item of a list under
      "item" or its own name; the key of a map under "key" or its own name, and the value under "value"
      or its own name unless that segment already means the key. */
  ghost predicate Selects(node: SchemaNode, segment: string, child: SchemaNode) {
    || (node.StructNode? && FirstOf(node.fields, segment, child))
    || (node.ListNode? && child == node.item && (segment == "item" || segment == node.item.name))
    || (node.MapNode? && child == node.key && (segment == "key" || segment == node.key.name))
    || (node.MapNode? && child == node.value && (segment == "value" || segment == node.value.name)
        && segment != "key" && segment != node.key.name)
  }

  /** `child` is the first of the fields that has the name. */
  ghost predicate FirstOf(fields: seq<SchemaNode>, name: string, child: SchemaNode) {
    child.name == name
    && exists k :: 0 <= k < |fields| && fields[k] == child && forall m :: 0 <= m < k ==> fields[m].name != name
  }

  lemma {:induction false} FindFieldFirst(fields: seq<SchemaNode>, name: string, child: SchemaNode)
    ensures FindField(fields, name) == Some(child) <==> FirstOf(fields, name, child)
  {
    if fields != [] {
      if fields[0].name == name {
        assert FirstOf(fields, name, fields[0]);
      } else {
        FindFieldFirst(fields[1..], name, child);
        FirstOfTail(fields, name, child);
      }
    }
  }

  lemma FirstOfTail(fields: seq<SchemaNode>, name: string, child: SchemaNode)
    requires fields != [] && fields[0].name != name
    ensures FirstOf(fields, name, child) <==> FirstOf(fields[1..], name, child)
  {
    var rest := fields[1..];
    if FirstOf(fields, name, child) {
      var k :| 0 <= k < |fields| && fields[k] == child && forall m :: 0 <= m < k ==> fields[m].name != name;
      assert rest[k - 1] == child && forall m :: 0 <= m < k - 1 ==> rest[m] == fields[m + 1];
    }
    if FirstOf(rest, name, child) {
      var k :| 0 <= k < |rest| && rest[k] == child && forall m :: 0 <= m < k ==> rest[m].name != name;
      assert fields[k + 1] == child && forall m :: 1 <= m < k + 1 ==> fields[m] == rest[m - 1];
    }
  }

  lemma ChildIffSelected(node: SchemaNode, segment: string, child: SchemaNode)
    ensures Child(node, segment) == Some(child) <==> Selects(node, segment, child)
  {
    if node.StructNode? { FindFieldFirst(node.fields, segment, child); }
  }

  /** Nodes that follow one another along the segments of a path. */
  ghost predicate Trail(nodes: seq<SchemaNode>, parts: seq<string>) {
    |nodes| == |parts| + 1 && forall i :: 0 <= i < |parts| ==> Selects(nodes[i], parts[i], nodes[i + 1])
  }

  /** Main result on lookup: a list of segments finds a node exactly when a trail of selected children
      leads there; otherwise it finds nothing. */
  lemma {:induction false} FindsIff(node: SchemaNode, parts: seq<string>, target: SchemaNode)
    ensures GetByParts(node, parts) == Some(target) <==>
            exists nodes :: Trail(nodes, parts) && nodes[0] == node && nodes[|parts|] == target
    decreases |parts|
  {
    if parts == [] {
      if node == target { assert Trail([node], parts); }
    } else {
      var child := Child(node, parts[0]);
      if child.Some? {
        ChildIffSelected(node, parts[0], child.value);
        FindsIff(child.value, parts[1..], target);
      }
      if GetByParts(node, parts) == Some(target) {
        var rest :| Trail(rest, parts[1..]) && rest[0] == child.value && rest[|parts| - 1] == target;
        TrailGrows(node, rest, parts);
      }
      if nodes :| Trail(nodes, parts) && nodes[0] == node && nodes[|parts|] == target {
        ChildIffSelected(node, parts[0], nodes[1]);
        TrailTail(nodes, parts);
      }
    }
  }

  lemma TrailGrows(node: SchemaNode, rest: seq<SchemaNode>, parts: seq<string>)
    requires parts != [] && Trail(rest, parts[1..]) && Selects(node, parts[0], rest[0])
    ensures Trail([node] + rest, parts)
  {
    var nodes := [node] + rest;
    forall i | 0 <= i < |parts|
      ensures Selects(nodes[i], parts[i], nodes[i + 1])
    {
      if i > 0 { assert Selects(rest[i - 1], parts[1..][i - 1], rest[i]); }
    }
  }

  lemma TrailTail(nodes: seq<SchemaNode>, parts: seq<string>)
    requires parts != [] && Trail(nodes, parts)
    ensures Trail(nodes[1..], parts[1..])
  {
    forall i | 0 <= i < |parts| - 1
      ensures Selects(nodes[1..][i], parts[1..][i], nodes[1..][i + 1])
    {
      assert Selects(nodes[i + 1], parts[i + 1], nodes[i + 2]);
    }
  }

  /** The segments that lead down from the root: a leading root name is dropped unless a child of the
      root has it. */
  predicate DropsFirst(root: SchemaNode, first: string) {
    first == root.name
    && !(root.StructNode? && exists k :: 0 <= k < |root.fields| && root.fields[k].name == root.name)
  }

  /** Main result on paths: a text of dot-free segments, and by Strings.JoinSplit that is every text,
      finds a node exactly when it is not empty and a trail along its segments leads there from the
      root, after a leading root name that no child of the root has. */
  lemma PathFindsIff(root: SchemaNode, parts: seq<string>, target: SchemaNode)
    requires parts != [] && DotFree(parts)
    ensures GetByPath(root, Join(parts)) == Some(target) <==>
            && Join(parts) != []
            && var segments := if DropsFirst(root, parts[0]) then parts[1..] else parts;
               exists nodes :: Trail(nodes, segments) && nodes[0] == root && nodes[|segments|] == target
  {
    SplitJoin(parts);
    FindsIff(root, if DropsFirst(root, parts[0]) then parts[1..] else parts, target);
  }

  // ---------------------------------------------------------------- nodes with their paths

  /** A node of the tree and its path as a list of names. */
  datatype Entry = Entry(parts: seq<string>, node: SchemaNode)

  /** All nodes in preorder with their paths below `prefix`. */
  function Entries(node: SchemaNode, prefix: seq<string>): (es: seq<Entry>)
    ensures es != [] && es[0] == Entry(prefix + [node.name], node)
    decreases node
  {
    var current := prefix + [node.name];
    [Entry(current, node)] + Below(node, current)
  }

  /** The entries of the children. */
  function Below(node: SchemaNode, current: seq<string>): seq<Entry>
    decreases node, 0
  {
    match node
    case StructNode(_, _, fields) => EntriesAll(fields, current)
    case ListNode(_, _, item) => Entries(item, current)
    case MapNode(_, _, key, value) => Entries(key, current) + Entries(value, current)
    case PrimitiveNode(_, _, _, _) => []
  }

  function EntriesAll(nodes: seq<SchemaNode>, prefix: seq<string>): seq<Entry>
    decreases nodes
  {
    if nodes == [] then [] else Entries(nodes[0], prefix) + EntriesAll(nodes[1..], prefix)
  }

  function Joined(es: seq<Entry>): (paths: seq<string>)
    ensures |paths| == |es|
  {
    seq(|es|, i requires 0 <= i < |es| => Join(es[i].parts))
  }

  /** There are as many entries as counted fields. */
  lemma {:induction false} EntriesCounted(node: SchemaNode, prefix: seq<string>)
    ensures |Entries(node, prefix)| == CountFields(node)
    decreases node
  {
    var current := prefix + [node.name];
    match node
    case StructNode(_, _, fields) => EntriesAllCounted(fields, current);
    case ListNode(_, _, item) => EntriesCounted(item, current);
    case MapNode(_, _, key, value) =>
      EntriesCounted(key, current);
      EntriesCounted(value, current);
    case PrimitiveNode(_, _, _, _) =>
  }

  lemma {:induction false} EntriesAllCounted(nodes: seq<SchemaNode>, prefix: seq<string>)
    ensures |EntriesAll(nodes, prefix)| == CountAll(nodes)
    decreases nodes
  {
    if nodes != [] {
      EntriesCounted(nodes[0], prefix);
      EntriesAllCounted(nodes[1..], prefix);
    }
  }

  /** The collected paths are the joined name lists of the nodes in preorder. */
  lemma {:induction false} PathsJoined(node: SchemaNode, prefix: seq<string>)
    requires if prefix == [] then node.name != [] else Join(prefix) != []
    ensures Paths(node, Join(prefix)) == Joined(Entries(node, prefix))
    decreases CountFields(node), 0, 0
  {
    var current := prefix + [node.name];
    JoinBelow(prefix, node.name);
    ChildrenCounted(node);
    PathsOfChildren(node, Join(prefix));
    BelowIsChildren(node, current);
    PathsAllJoined(Children(node), current);
    JoinedCons(Entry(current, node), EntriesAll(Children(node), current));
  }

  lemma PathsOfChildren(node: SchemaNode, prefix: string)
    ensures var current := PathBelow(prefix, node.name);
            Paths(node, prefix) == [current] + PathsAll(Children(node), current)
  {
    var current := PathBelow(prefix, node.name);
    match node
    case ListNode(_, _, item) =>
      assert [item][1..] == [];
    case MapNode(_, _, key, value) =>
      assert [key, value][1..] == [value] && [value][1..] == [];
      assert PathsAll([value], current) == Paths(value, current) + [];
    case _ =>
  }

  lemma JoinBelow(prefix: seq<string>, name: string)
    requires if prefix == [] then name != [] else Join(prefix) != []
    ensures Join(prefix + [name]) == PathBelow(Join(prefix), name) != []
  {
    assert (prefix + [name])[..|prefix|] == prefix;
  }

  lemma JoinedCons(e: Entry, es: seq<Entry>)
    ensures Joined([e] + es) == [Join(e.parts)] + Joined(es)
  {
  }

  lemma JoinedConcat(a: seq<Entry>, b: seq<Entry>)
    ensures Joined(a + b) == Joined(a) + Joined(b)
  {
  }

  lemma {:induction false} PathsAllJoined(nodes: seq<SchemaNode>, prefix: seq<string>)
    requires prefix != [] && Join(prefix) != []
    ensures PathsAll(nodes, Join(prefix)) == Joined(EntriesAll(nodes, prefix))
    decreases CountAll(nodes), 1, |nodes|
  {
    if nodes != [] {
      PathsJoined(nodes[0], prefix);
      PathsAllJoined(nodes[1..], prefix);
      JoinedConcat(Entries(nodes[0], prefix), EntriesAll(nodes[1..], prefix));
    }
  }

  // ---------------------------------------------------------------- shape of the entries

  predicate AllNamesDotFree(node: SchemaNode)
    decreases node
  {
    '.' !in node.name &&
    match node
    case StructNode(_, _, fields) => forall k :: 0 <= k < |fields| ==> AllNamesDotFree(fields[k])
    case ListNode(_, _, item) => AllNamesDotFree(item)
    case MapNode(_, _, key, value) => AllNamesDotFree(key) && AllNamesDotFree(value)
    case PrimitiveNode(_, _, _, _) => true
  }

  /** No map's value node answers to a segment that selects the key. */
  predicate NoMapClash(node: SchemaNode)
    decreases node
  {
    match node
    case StructNode(_, _, fields) => forall k :: 0 <= k < |fields| ==> NoMapClash(fields[k])
    case ListNode(_, _, item) => NoMapClash(item)
    case MapNode(_, _, key, value) =>
      value.name != "key" && value.name != key.name && NoMapClash(key) && NoMapClash(value)
    case PrimitiveNode(_, _, _, _) => true
  }

  predicate NoLocalClash(node: SchemaNode) {
    node.MapNode? ==> node.value.name != "key" && node.value.name != node.key.name
  }

  /** The children in order. */
  function Children(node: SchemaNode): (cs: seq<SchemaNode>)
    ensures forall k :: 0 <= k < |cs| ==> cs[k] < node
  {
    match node
    case StructNode(_, _, fields) => fields
    case ListNode(_, _, item) => [item]
    case MapNode(_, _, key, value) => [key, value]
    case PrimitiveNode(_, _, _, _) => []
  }

  lemma ChildrenCounted(node: SchemaNode)
    ensures CountFields(node) == 1 + CountAll(Children(node))
  {
    match node
    case ListNode(_, _, item) => assert [item][1..] == [];
    case MapNode(_, _, key, value) =>
      assert [key, value][1..] == [value] && [value][1..] == [];
      assert CountAll([value]) == CountFields(value);
    case _ =>
  }

  lemma BelowIsChildren(node: SchemaNode, current: seq<string>)
    ensures Below(node, current) == EntriesAll(Children(node), current)
  {
    match node
    case StructNode(_, _, _) =>
    case ListNode(_, _, item) =>
      assert [item][1..] == [];
    case MapNode(_, _, key, value) =>
      assert [key, value][1..] == [value] && [value][1..] == [];
      assert EntriesAll([value], current) == Entries(value, current) + [];
    case PrimitiveNode(_, _, _, _) =>
  }

  lemma {:induction false} EntriesAllMember(nodes: seq<SchemaNode>, prefix: seq<string>, e: Entry)
    ensures e in EntriesAll(nodes, prefix) <==> exists k :: 0 <= k < |nodes| && e in Entries(nodes[k], prefix)
    decreases nodes
  {
    if nodes != [] {
      EntriesAllMember(nodes[1..], prefix, e);
      assert nodes == [nodes[0]] + nodes[1..];
      if exists k :: 0 <= k < |nodes| && e in Entries(nodes[k], prefix) {
        var k :| 0 <= k < |nodes| && e in Entries(nodes[k], prefix);
        if k > 0 { assert nodes[1..][k - 1] == nodes[k]; }
      }
    }
  }

  /** Every path below a node starts with the path of that node. */
  lemma {:induction false} EntriesExtend(node: SchemaNode, prefix: seq<string>, e: Entry)
    requires e in Entries(node, prefix)
    ensures prefix + [node.name] <= e.parts
    ensures AllNamesDotFree(node) && DotFree(prefix) ==> DotFree(e.parts)
    decreases node
  {
    var current := prefix + [node.name];
    if e != Entry(current, node) {
      BelowIsChildren(node, current);
      EntriesAllMember(Children(node), current, e);
      var k :| 0 <= k < |Children(node)| && e in Entries(Children(node)[k], current);
      EntriesExtend(Children(node)[k], current, e);
    }
  }

  // ---------------------------------------------------------------- lookups that succeed

  lemma {:induction false} FindFieldUnique(fields: seq<SchemaNode>, k: nat)
    requires k < |fields| && UniqueNames(fields)
    ensures FindField(fields, fields[k].name) == Some(fields[k])
  {
    if k > 0 { FindFieldUnique(fields[1..], k - 1); }
  }

  /** A child is found under its own name. */
  lemma ChildFound(node: SchemaNode, k: nat)
    requires ValidNode(node) && NoLocalClash(node) && k < |Children(node)|
    ensures Child(node, Children(node)[k].name) == Some(Children(node)[k])
  {
    if node.StructNode? { FindFieldUnique(node.fields, k); }
  }

  /** The names below a node's own lead from that node to the entry's node. */
  lemma {:induction false} LookupBelow(node: SchemaNode, prefix: seq<string>, e: Entry)
    requires ValidNode(node) && NoMapClash(node) && e in Entries(node, prefix)
    ensures |e.parts| > |prefix| && GetByParts(node, e.parts[|prefix| + 1..]) == Some(e.node)
    decreases node
  {
    var current := prefix + [node.name];
    EntriesExtend(node, prefix, e);
    if e == Entry(current, node) {
      assert e.parts[|prefix| + 1..] == [];
    } else {
      BelowIsChildren(node, current);
      EntriesAllMember(Children(node), current, e);
      var k :| 0 <= k < |Children(node)| && e in Entries(Children(node)[k], current);
      var child := Children(node)[k];
      ChildFound(node, k);
      LookupBelow(child, current, e);
      EntriesExtend(child, current, e);
      var rest := e.parts[|prefix| + 1..];
      assert rest[0] == child.name;
      assert rest[1..] == e.parts[|current| + 1..];
    }
  }

  // ---------------------------------------------------------------- distinct paths

  predicate DistinctParts(es: seq<Entry>) {
    forall i, k :: 0 <= i < k < |es| ==> es[i].parts != es[k].parts
  }

  lemma DistinctConcat(a: seq<Entry>, b: seq<Entry>)
    requires DistinctParts(a) && DistinctParts(b)
    requires forall x, y :: x in a && y in b ==> x.parts != y.parts
    ensures DistinctParts(a + b)
  {
    forall i, k | 0 <= i < k < |a + b|
      ensures (a + b)[i].parts != (a + b)[k].parts
    {
      if i < |a| <= k {
        assert a[i] in a && b[k - |a|] in b;
      }
    }
  }

  lemma {:induction false} EntriesDistinct(node: SchemaNode, prefix: seq<string>)
    requires ValidNode(node) && NoMapClash(node)
    ensures DistinctParts(Entries(node, prefix))
    decreases CountFields(node), 0, 0
  {
    var current := prefix + [node.name];
    BelowIsChildren(node, current);
    ChildrenCounted(node);
    assert forall k :: 0 <= k < |Children(node)| ==> ValidNode(Children(node)[k]) && NoMapClash(Children(node)[k]);
    EntriesAllDistinct(Children(node), current);
    forall y | y in Below(node, current)
      ensures y.parts != current
    {
      EntriesAllMember(Children(node), current, y);
      var k :| 0 <= k < |Children(node)| && y in Entries(Children(node)[k], current);
      EntriesExtend(Children(node)[k], current, y);
    }
    DistinctConcat([Entry(current, node)], Below(node, current));
  }

  lemma {:induction false} EntriesAllDistinct(nodes: seq<SchemaNode>, prefix: seq<string>)
    requires UniqueNames(nodes)
    requires forall k :: 0 <= k < |nodes| ==> ValidNode(nodes[k]) && NoMapClash(nodes[k])
    ensures DistinctParts(EntriesAll(nodes, prefix))
    decreases CountAll(nodes), 1, |nodes|
  {
    if nodes != [] {
      EntriesDistinct(nodes[0], prefix);
      EntriesAllDistinct(nodes[1..], prefix);
      forall x, y | x in Entries(nodes[0], prefix) && y in EntriesAll(nodes[1..], prefix)
        ensures x.parts != y.parts
      {
        EntriesAllMember(nodes[1..], prefix, y);
        var k :| 0 <= k < |nodes| - 1 && y in Entries(nodes[1..][k], prefix);
        EntriesExtend(nodes[0], prefix, x);
        EntriesExtend(nodes[k + 1], prefix, y);
        assert x.parts[|prefix|] == nodes[0].name && y.parts[|prefix|] == nodes[k + 1].name;
      }
      DistinctConcat(Entries(nodes[0], prefix), EntriesAll(nodes[1..], prefix));
    }
  }

  // ---------------------------------------------------------------- main result

  /** In terms of name lists: they are pairwise distinct, and each leads to its own node. */
  ghost predicate PartsWork(root: SchemaNode) {
    var es := Entries(root, []);
    && DistinctParts(es)
    && forall i :: 0 <= i < |es| ==> GetByPath(root, Join(es[i].parts)) == Some(es[i].node)
  }

  /** The leading root name is dropped from every path when no child of the root has it. */
  lemma LookupFromRoot(root: SchemaNode, e: Entry)
    requires root.name != [] && AllNamesDotFree(root) && e in Entries(root, [])
    ensures e.parts != []
    ensures GetByPath(root, Join(e.parts)) ==
            if HasChildNamed(root, root.name) then GetByParts(root, e.parts) else GetByParts(root, e.parts[1..])
  {
    EntriesExtend(root, [], e);
    SplitJoin(e.parts);
    assert e.parts[0] == ([] + [root.name])[0];
    assert SplitAt([], '.')[0] == [];
  }

  lemma DistinctParts2(a: seq<Entry>, b: seq<Entry>)
    requires DistinctParts(a + b)
    ensures DistinctParts(a) && DistinctParts(b)
  {
    forall i, k | 0 <= i < k < |a|
      ensures a[i].parts != a[k].parts
    {
      assert (a + b)[i] == a[i] && (a + b)[k] == a[k];
    }
    forall i, k | 0 <= i < k < |b|
      ensures b[i].parts != b[k].parts
    {
      assert (a + b)[|a| + i] == b[i] && (a + b)[|a| + k] == b[k];
    }
  }

  lemma {:induction false} DistinctChild(nodes: seq<SchemaNode>, prefix: seq<string>, k: nat)
    requires k < |nodes| && DistinctParts(EntriesAll(nodes, prefix))
    ensures DistinctParts(Entries(nodes[k], prefix))
    decreases nodes
  {
    DistinctParts2(Entries(nodes[0], prefix), EntriesAll(nodes[1..], prefix));
    if k > 0 { DistinctChild(nodes[1..], prefix, k - 1); }
  }

  /** All entries of a subtree are found from its root. */
  ghost predicate AllFound(node: SchemaNode, prefix: seq<string>) {
    forall e :: e in Entries(node, prefix) ==>
      |e.parts| > |prefix| && GetByParts(node, e.parts[|prefix| + 1..]) == Some(e.node)
  }

  lemma WorkingMapHasNoLocalClash(node: SchemaNode, prefix: seq<string>)
    requires DistinctParts(Entries(node, prefix)) && AllFound(node, prefix)
    ensures NoLocalClash(node)
  {
    if node.MapNode? {
      var current, es := prefix + [node.name], Entries(node, prefix);
      var ks, vs := Entries(node.key, current), Entries(node.value, current);
      assert Below(node, current) == ks + vs by {
        match node
        case MapNode(_, _, key, value) =>
        case _ =>
      }
      assert es == [Entry(current, node)] + (ks + vs);
      assert es[1] == ks[0] && es[1 + |ks|] == vs[0];
      assert es[1 + |ks|] in es;
      assert vs[0].parts[|prefix| + 1..] == [node.value.name];
      assert [node.value.name][1..] == [];
      assert ["key"][1..] == [] && Child(node, "key") == Some(node.key);
      assert GetByParts(node, ["key"]) == Some(node.key);
    }
  }

  lemma {:induction false} WorkingTreeHasNoClash(node: SchemaNode, prefix: seq<string>)
    requires ValidNode(node) && DistinctParts(Entries(node, prefix)) && AllFound(node, prefix)
    ensures NoMapClash(node)
    decreases node
  {
    var current, cs := prefix + [node.name], Children(node);
    WorkingMapHasNoLocalClash(node, prefix);
    BelowIsChildren(node, current);
    DistinctParts2([Entry(current, node)], Below(node, current));
    forall k | 0 <= k < |cs|
      ensures NoMapClash(cs[k])
    {
      DistinctChild(cs, current, k);
      ChildFound(node, k);
      forall e | e in Entries(cs[k], current)
        ensures |e.parts| > |current| && GetByParts(cs[k], e.parts[|current| + 1..]) == Some(e.node)
      {
        EntriesAllMember(cs, current, e);
        EntriesExtend(cs[k], current, e);
        var rest := e.parts[|prefix| + 1..];
        assert rest[0] == cs[k].name && rest[1..] == e.parts[|current| + 1..];
      }
      WorkingTreeHasNoClash(cs[k], current);
    }
    assert node.ListNode? ==> cs[0] == node.item;
    assert node.MapNode? ==> cs[0] == node.key && cs[1] == node.value;
  }

  lemma {:induction false} FindFieldExists(fields: seq<SchemaNode>, name: string)
    requires exists k :: 0 <= k < |fields| && fields[k].name == name
    ensures FindField(fields, name).Some?
  {
    if fields[0].name != name {
      var k :| 0 <= k < |fields| && fields[k].name == name;
      assert fields[1..][k - 1].name == name;
      FindFieldExists(fields[1..], name);
    }
  }

  /** A child with the root's name takes the root's own path away from it. */
  lemma RootNameTaken(root: SchemaNode)
    requires root.name != [] && AllNamesDotFree(root) && HasChildNamed(root, root.name)
    ensures !PartsWork(root)
  {
    var e := Entries(root, [])[0];
    assert e in Entries(root, []);
    LookupFromRoot(root, e);
    assert e.parts == [root.name] && [root.name][1..] == [];
    FindFieldExists(root.fields, root.name);
    var child := FindField(root.fields, root.name).value;
    assert GetByParts(root, e.parts) == Some(child);
    var k :| 0 <= k < |root.fields| && root.fields[k] == child;
    assert child != root;
  }

  lemma PartsWorkIff(root: SchemaNode)
    requires ValidRoot(root) && root.name != [] && AllNamesDotFree(root)
    ensures PartsWork(root) <==> !HasChildNamed(root, root.name) && NoMapClash(root)
  {
    var es := Entries(root, []);
    if HasChildNamed(root, root.name) {
      RootNameTaken(root);
    } else {
      forall e | e in es
        ensures e.parts != [] && GetByPath(root, Join(e.parts)) == GetByParts(root, e.parts[1..])
      {
        LookupFromRoot(root, e);
      }
      if NoMapClash(root) {
        EntriesDistinct(root, []);
        forall e | e in es
          ensures GetByParts(root, e.parts[1..]) == Some(e.node)
        {
          LookupBelow(root, [], e);
        }
      }
      if PartsWork(root) {
        WorkingTreeHasNoClash(root, []);
      }
    }
  }

  /** `all_field_paths` lists `field_count` paths, those of the nodes in preorder. */
  lemma AllFieldPaths(root: SchemaNode)
    requires root.name != []
    ensures Paths(root, []) == Joined(Entries(root, []))
    ensures |Paths(root, [])| == CountFields(root)
  {
    PathsJoined(root, []);
    EntriesCounted(root, []);
  }

  /** Name lists without dots are distinct exactly when the joined paths are. */
  lemma JoinedDistinct(es: seq<Entry>)
    requires forall e :: e in es ==> e.parts != [] && DotFree(e.parts)
    ensures DistinctParts(es) <==> forall i, k :: 0 <= i < k < |es| ==> Joined(es)[i] != Joined(es)[k]
  {
    if DistinctParts(es) {
      forall i, k | 0 <= i < k < |es|
        ensures Joined(es)[i] != Joined(es)[k]
      {
        assert es[i] in es && es[k] in es;
        SplitJoin(es[i].parts);
        SplitJoin(es[k].parts);
      }
    } else {
      var i, k :| 0 <= i < k < |es| && es[i].parts == es[k].parts;
      assert Joined(es)[i] == Joined(es)[k];
    }
  }

  /** The listed paths are pairwise distinct, and looking up the i-th gives the i-th node. */
  ghost predicate PathsWork(root: SchemaNode) {
    var paths, es := Paths(root, []), Entries(root, []);
    && |paths| == |es|
    && (forall i, k :: 0 <= i < k < |paths| ==> paths[i] != paths[k])
    && (forall i :: 0 <= i < |paths| ==> GetByPath(root, paths[i]) == Some(es[i].node))
  }

  /** An empty root name leaves the root without a path: its listed path is empty, and looking up
      the empty path gives nothing. */
  lemma EmptyNameFails(root: SchemaNode)
    requires root.name == []
    ensures !PathsWork(root)
  {
    assert Paths(root, [])[0] == [];
    assert GetByPath(root, []) == None;
  }

  /** Main result: for validated schemas with dot-free names, paths work exactly when the root has a
      name, no child of the root has the root's name, and no map's value is named like its key or
      "key". */
  lemma PathsWorkIff(root: SchemaNode)
    requires ValidRoot(root) && AllNamesDotFree(root)
    ensures PathsWork(root) <==> root.name != [] && !HasChildNamed(root, root.name) && NoMapClash(root)
  {
    if root.name == [] { EmptyNameFails(root); } else { NamedPathsWorkIff(root); }
  }

  lemma NamedPathsWorkIff(root: SchemaNode)
    requires ValidRoot(root) && root.name != [] && AllNamesDotFree(root)
    ensures PathsWork(root) <==> !HasChildNamed(root, root.name) && NoMapClash(root)
  {
    var es := Entries(root, []);
    AllFieldPaths(root);
    PartsWorkIff(root);
    forall e | e in es
      ensures e.parts != [] && DotFree(e.parts)
    {
      EntriesExtend(root, [], e);
    }
    JoinedDistinct(es);
  }
}
