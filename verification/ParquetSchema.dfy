/**
 The schema of a Parquet file. A type tree becomes a flat list of elements in preorder with child
 counts, and a tree of columns that point into the list and know their definition and repetition
 levels. The writers are created from both.
 */
module ParquetSchema {
  import opened Basics

  datatype Type =
    | Leaf(kind: string)
    | Struct(fields: seq<Field>)
    | List(child: Type)
    | Map(key: Type, value: Type)

  datatype Field = Field(name: string, fieldType: Type)

  datatype Repetition = Required | Optional | Repeated

  /** An entry of the flat list; leaves have no child count. */
  datatype Element = Element(name: string, repetition: Repetition, numChildren: Option<nat>)

  datatype Column = Column(name: string, columnType: Type, maxDefine: nat, maxRepeat: nat, schemaIndex: nat,
                           children: seq<Column>)

  /** An element with the elements below it. */
  datatype Node = Node(name: string, repetition: Repetition, leaf: bool, children: seq<Node>)

  function NullType(canHaveNulls: bool): Repetition {
    if canHaveNulls then Optional else Required
  }

  // ---------------------------------------------------------------- the tree that is meant

  /** The elements of a type: lists and maps have a repeated group between themselves and what they hold. */
  function TreeOf(t: Type, name: string, canHaveNulls: bool): Node
    decreases t, 0
  {
    var rep := NullType(canHaveNulls);
    match t
    case Leaf(_) => Node(name, rep, true, [])
    case Struct(fields) => Node(name, rep, false, FieldTrees(fields))
    case List(child) => Node(name, rep, false, [Node("list", Repeated, false, [TreeOf(child, "element", true)])])
    case Map(key, value) =>
      Node(name, rep, false, [Node("key_value", Repeated, false,
        [TreeOf(key, "key", false), TreeOf(value, "value", true)])])
  }

  function FieldTrees(fields: seq<Field>): seq<Node>
    decreases fields
  {
    if fields == [] then [] else [TreeOf(fields[0].fieldType, fields[0].name, true)] + FieldTrees(fields[1..])
  }

  function ElementOf(node: Node): Element {
    Element(node.name, node.repetition, if node.leaf then None else Some(|node.children|))
  }

  function Flatten(node: Node): (r: seq<Element>)
    ensures r != [] && r[0] == ElementOf(node)
    decreases node, 1
  {
    [ElementOf(node)] + FlattenAll(node.children)
  }

  function FlattenAll(nodes: seq<Node>): seq<Element>
    decreases nodes, 0
  {
    if nodes == [] then [] else Flatten(nodes[0]) + FlattenAll(nodes[1..])
  }

  // ---------------------------------------------------------------- rebuilding the tree

  /** Takes one tree off the front of a list; none if the list is too short. */
  function Rebuild(elements: seq<Element>): (r: Option<(Node, seq<Element>)>)
    ensures r.Some? ==> |r.value.1| < |elements|
    decreases |elements|, 0, 0
  {
    if elements == [] then None
    else
      var e := elements[0];
      if e.numChildren.None? then Some((Node(e.name, e.repetition, true, []), elements[1..]))
      else
        match RebuildAll(elements[1..], e.numChildren.value)
        case None => None
        case Some((children, rest)) => Some((Node(e.name, e.repetition, false, children), rest))
  }

  function RebuildAll(elements: seq<Element>, n: nat): (r: Option<(seq<Node>, seq<Element>)>)
    ensures r.Some? ==> |r.value.1| <= |elements|
    decreases |elements|, 1, n
  {
    if n == 0 then Some(([], elements))
    else
      match Rebuild(elements)
      case None => None
      case Some((first, rest)) =>
        match RebuildAll(rest, n - 1)
        case None => None
        case Some((later, end)) => Some(([first] + later, end))
  }

  predicate LeavesAreBare(node: Node) {
    (node.leaf ==> node.children == []) && forall c :: 0 <= c < |node.children| ==> LeavesAreBare(node.children[c])
  }

  /** The flat list with its child counts determines the tree. */
  lemma {:induction false} FlattenRebuilds(node: Node, rest: seq<Element>)
    requires LeavesAreBare(node)
    ensures Rebuild(Flatten(node) + rest) == Some((node, rest))
    decreases node, 1
  {
    hide RebuildAll, FlattenAll;
    assert Flatten(node) + rest == [ElementOf(node)] + (FlattenAll(node.children) + rest);
    assert (Flatten(node) + rest)[1..] == FlattenAll(node.children) + rest;
    if node.leaf {
      NoElements();
      assert (Flatten(node) + rest)[1..] == rest;
    } else {
      FlattenRebuildsAll(node.children, rest);
    }
  }

  lemma NoElements()
    ensures FlattenAll([]) == []
  {
  }

  lemma {:induction false} FlattenRebuildsAll(nodes: seq<Node>, rest: seq<Element>)
    requires forall c :: 0 <= c < |nodes| ==> LeavesAreBare(nodes[c])
    ensures RebuildAll(FlattenAll(nodes) + rest, |nodes|) == Some((nodes, rest))
    decreases nodes, 0
  {
    hide Rebuild, Flatten, LeavesAreBare;
    if nodes == [] {
      assert FlattenAll(nodes) + rest == rest;
    } else {
      var later := FlattenAll(nodes[1..]) + rest;
      assert FlattenAll(nodes) + rest == Flatten(nodes[0]) + later;
      FlattenRebuilds(nodes[0], later);
      FlattenRebuildsAll(nodes[1..], rest);
      assert [nodes[0]] + nodes[1..] == nodes;
    }
  }

  lemma {:induction false} TreesAreBare(t: Type, name: string, canHaveNulls: bool)
    ensures LeavesAreBare(TreeOf(t, name, canHaveNulls))
    decreases t, 0
  {
    match t
    case Leaf(_) =>
    case Struct(fields) => FieldTreesAreBare(fields);
    case List(child) => TreesAreBare(child, "element", true);
    case Map(key, value) =>
      TreesAreBare(key, "key", false);
      TreesAreBare(value, "value", true);
  }

  lemma {:induction false} FieldTreesAreBare(fields: seq<Field>)
    ensures forall c :: 0 <= c < |FieldTrees(fields)| ==> LeavesAreBare(FieldTrees(fields)[c])
    decreases fields
  {
    hide TreeOf, LeavesAreBare;
    if fields != [] {
      TreesAreBare(fields[0].fieldType, fields[0].name, true);
      FieldTreesAreBare(fields[1..]);
    }
  }

  // ---------------------------------------------------------------- columns and their levels

  function OwnDefine(node: Node): nat { if node.repetition == Required then 0 else 1 }

  function OwnRepeat(node: Node): nat { if node.repetition == Repeated then 1 else 0 }

  /** The nodes of the columns directly below a column: the repeated group of a list or map is no column. */
  function ColumnNodes(t: Type, node: Node): seq<Node> {
    if (t.List? || t.Map?) && |node.children| == 1 then node.children[0].children else node.children
  }

  /** Where a column's columns begin in the flat list, seen from its own element. */
  function ChildOffset(t: Type): nat { if t.List? || t.Map? then 2 else 1 }

  /**
   A column describes a node that stands at an index of the list, below elements of which some are
   optional or repeated: its levels count those and its own element, and so do its columns below.
   */
  ghost predicate Describes(column: Column, node: Node, index: nat, defineAbove: nat, repeatAbove: nat)
    decreases column, 1
  {
    && column.name == node.name && column.schemaIndex == index
    && column.maxDefine == defineAbove + OwnDefine(node)
    && column.maxRepeat == repeatAbove + OwnRepeat(node)
    && var group :=
         if (column.columnType.List? || column.columnType.Map?) && |node.children| == 1 then Some(node.children[0])
         else None;
       && (column.columnType.List? || column.columnType.Map? ==> group.Some? && group.value.repetition == Repeated)
       && DescribeAll(column.children, ColumnNodes(column.columnType, node), index + ChildOffset(column.columnType),
                      column.maxDefine + (if group.Some? then OwnDefine(group.value) else 0),
                      column.maxRepeat + (if group.Some? then OwnRepeat(group.value) else 0))
  }

  ghost predicate DescribeAll(columns: seq<Column>, nodes: seq<Node>, index: nat, defineAbove: nat, repeatAbove: nat)
    decreases columns, 0
  {
    && |columns| == |nodes|
    && (columns != [] ==>
          && Describes(columns[0], nodes[0], index, defineAbove, repeatAbove)
          && DescribeAll(columns[1..], nodes[1..], index + |Flatten(nodes[0])|, defineAbove, repeatAbove))
  }

  lemma {:induction false} FlattenAppend(a: seq<Node>, b: seq<Node>)
    ensures FlattenAll(a + b) == FlattenAll(a) + FlattenAll(b)
    decreases |a|
  {
    hide Flatten;
    if a == [] {
      assert a + b == b;
    } else {
      assert (a + b)[1..] == a[1..] + b && (a + b)[0] == a[0];
      FlattenAppend(a[1..], b);
    }
  }

  lemma {:induction false} DescribeNext(columns: seq<Column>, nodes: seq<Node>, index: nat, d: nat, r: nat,
                                        column: Column, node: Node)
    requires DescribeAll(columns, nodes, index, d, r)
    requires Describes(column, node, index + |FlattenAll(nodes)|, d, r)
    ensures DescribeAll(columns + [column], nodes + [node], index, d, r)
    decreases |columns|
  {
    hide Describes, Flatten;
    if columns == [] {
      assert columns + [column] == [column] && nodes + [node] == [node];
    } else {
      assert (columns + [column])[1..] == columns[1..] + [column] && (nodes + [node])[1..] == nodes[1..] + [node];
      DescribeNext(columns[1..], nodes[1..], index + |Flatten(nodes[0])|, d, r, column, node);
    }
  }

  lemma {:induction false} FieldTreeAt(fields: seq<Field>, i: nat)
    requires i < |fields|
    ensures |FieldTrees(fields)| == |fields|
    ensures FieldTrees(fields)[i] == TreeOf(fields[i].fieldType, fields[i].name, true)
    decreases fields
  {
    hide TreeOf;
    FieldTreeCount(fields);
    if i > 0 {
      FieldTreeAt(fields[1..], i - 1);
    }
  }

  lemma {:induction false} FieldTreeCount(fields: seq<Field>)
    ensures |FieldTrees(fields)| == |fields|
    decreases fields
  {
    hide TreeOf;
    if fields != [] {
      FieldTreeCount(fields[1..]);
    }
  }

  lemma OneNode(node: Node)
    ensures FlattenAll([node]) == Flatten(node)
  {
    hide Flatten;
    assert [node][1..] == [];
    NoElements();
  }

  lemma TwoNodes(a: Node, b: Node)
    ensures FlattenAll([a, b]) == Flatten(a) + Flatten(b)
  {
    hide Flatten, FlattenAll;
    FlattenAppend([a], [b]);
    OneNode(a);
    OneNode(b);
    assert [a, b] == [a] + [b];
  }

  /** The elements of a list or map: two of its own and those of what it holds. */
  lemma GroupElements(node: Node, group: Node)
    requires node.children == [group] && !node.leaf && !group.leaf
    ensures Flatten(node) ==
      [Element(node.name, node.repetition, Some(1))]
        + ([Element(group.name, group.repetition, Some(|group.children|))] + FlattenAll(group.children))
  {
    hide FlattenAll;
    OneNode(group);
  }

  // ---------------------------------------------------------------- building both

  class SchemaBuilder {
    var schemas: seq<Element>

    constructor ()
      ensures schemas == []
    {
      schemas := [];
    }

    /**
     Appends the elements of a type and returns its column. The caller passes a definition level
     that already counts the type itself as optional.
     */
    method FillParquetSchema(t: Type, name: string, maxRepeat: nat, maxDefine: nat, canHaveNulls: bool)
      returns (column: Column)
      requires maxDefine >= 1
      modifies this
      ensures schemas == old(schemas) + Flatten(TreeOf(t, name, canHaveNulls))
      ensures column.columnType == t
      ensures Describes(column, TreeOf(t, name, canHaveNulls), |old(schemas)|, maxDefine - 1, maxRepeat)
      decreases t, 1
    {
      hide Flatten, FlattenAll, TreeOf, FieldTrees, Describes, DescribeAll;
      var nullType := if canHaveNulls then Optional else Required;
      var define: nat := if !canHaveNulls then maxDefine - 1 else maxDefine;
      var schemaIdx := |schemas|;
      ghost var before := schemas;
      match t {
        case Struct(fields) =>
          schemas := schemas + [Element(name, nullType, Some(|fields|))];
          var children := FillFields(fields, maxRepeat, define);
          column := Column(name, t, define, maxRepeat, schemaIdx, children);
          StructDone(column, fields, canHaveNulls);
          Regroup(before, [Element(name, nullType, Some(|fields|))], FlattenAll(FieldTrees(fields)));
        case List(child) =>
          schemas := schemas + [Element(name, nullType, Some(1))];
          schemas := schemas + [Element("list", Repeated, Some(1))];
          var element := FillParquetSchema(child, "element", maxRepeat + 1, define + 2, true);
          column := Column(name, t, define, maxRepeat, schemaIdx, [element]);
          ListDone(column, child, canHaveNulls);
          RegroupTwo(before, [Element(name, nullType, Some(1))], [Element("list", Repeated, Some(1))],
            Flatten(TreeOf(child, "element", true)));
        case Map(key, value) =>
          schemas := schemas + [Element(name, nullType, Some(1))];
          schemas := schemas + [Element("key_value", Repeated, Some(2))];
          ghost var open := schemas;
          var keyColumn := FillParquetSchema(key, "key", maxRepeat + 1, define + 2, false);
          var valueColumn := FillParquetSchema(value, "value", maxRepeat + 1, define + 2, true);
          column := Column(name, t, define, maxRepeat, schemaIdx, [keyColumn, valueColumn]);
          MapDone(column, key, value, canHaveNulls);
          Regroup(open, Flatten(TreeOf(key, "key", false)), Flatten(TreeOf(value, "value", true)));
          RegroupTwo(before, [Element(name, nullType, Some(1))], [Element("key_value", Repeated, Some(2))],
                     Flatten(TreeOf(key, "key", false)) + Flatten(TreeOf(value, "value", true)));
        case Leaf(_) =>
          schemas := schemas + [Element(name, nullType, None)];
          column := Column(name, t, define, maxRepeat, schemaIdx, []);
          LeafDone(column, canHaveNulls);
      }
    }

    method FillFields(fields: seq<Field>, maxRepeat: nat, define: nat) returns (children: seq<Column>)
      modifies this
      ensures schemas == old(schemas) + FlattenAll(FieldTrees(fields))
      ensures DescribeAll(children, FieldTrees(fields), |old(schemas)|, define, maxRepeat)
      decreases fields, 0
    {
      hide Flatten, FlattenAll, TreeOf, FieldTrees, Describes, DescribeAll;
      ghost var trees := FieldTrees(fields);
      FieldTreeCount(fields);
      children := [];
      NoColumns(trees[..0], |schemas|, define, maxRepeat);
      for i := 0 to |fields|
        invariant schemas == old(schemas) + FlattenAll(trees[..i])
        invariant DescribeAll(children, trees[..i], |old(schemas)|, define, maxRepeat)
      {
        FieldTreeAt(fields, i);
        assert trees[..i + 1] == trees[..i] + [trees[i]];
        FlattenAppend(trees[..i], [trees[i]]);
        OneNode(trees[i]);
        ghost var start := schemas;
        var child := FillParquetSchema(fields[i].fieldType, fields[i].name, maxRepeat, define + 1, true);
        DescribeNext(children, trees[..i], |old(schemas)|, define, maxRepeat, child, trees[i]);
        Regroup(old(schemas), FlattenAll(trees[..i]), Flatten(trees[i]));
        children := children + [child];
      }
      assert trees[..|fields|] == trees;
    }
  }

  lemma RegroupTwo<E>(a: seq<E>, b: seq<E>, c: seq<E>, d: seq<E>)
    ensures a + b + c + d == a + (b + (c + d))
  {
  }

  lemma NoColumns(none: seq<Node>, index: nat, d: nat, r: nat)
    requires none == []
    ensures DescribeAll([], none, index, d, r) && FlattenAll(none) == []
  {
  }

  lemma LeafDone(column: Column, canHaveNulls: bool)
    requires column.columnType.Leaf? && column.children == [] && column.maxDefine >= (if canHaveNulls then 1 else 0)
    ensures
      var tree := TreeOf(column.columnType, column.name, canHaveNulls);
      && Describes(column, tree, column.schemaIndex, column.maxDefine - (if canHaveNulls then 1 else 0),
        column.maxRepeat)
      && Flatten(tree) == [Element(column.name, NullType(canHaveNulls), None)]
  {
    NoElements();
  }

  lemma StructDone(column: Column, fields: seq<Field>, canHaveNulls: bool)
    requires column.columnType == Struct(fields) && column.maxDefine >= (if canHaveNulls then 1 else 0)
    requires DescribeAll(column.children, FieldTrees(fields), column.schemaIndex + 1, column.maxDefine,
      column.maxRepeat)
    ensures
      var tree := TreeOf(column.columnType, column.name, canHaveNulls);
      && Describes(column, tree, column.schemaIndex, column.maxDefine - (if canHaveNulls then 1 else 0),
        column.maxRepeat)
      && Flatten(tree) == [Element(column.name, NullType(canHaveNulls), Some(|fields|))]
        + FlattenAll(FieldTrees(fields))
  {
    hide FlattenAll, DescribeAll, FieldTrees;
    FieldTreeCount(fields);
  }

  /** A column of a list or map describes its node if the columns below describe what the repeated group holds. */
  lemma GroupDescribes(column: Column, node: Node, group: Node)
    requires column.columnType.List? || column.columnType.Map?
    requires node.children == [group] && group.repetition == Repeated && node.name == column.name
    requires node.repetition != Repeated
    requires column.maxDefine >= OwnDefine(node)
    requires DescribeAll(column.children, group.children, column.schemaIndex + 2, column.maxDefine + 1,
      column.maxRepeat + 1)
    ensures Describes(column, node, column.schemaIndex, column.maxDefine - OwnDefine(node), column.maxRepeat)
  {
    hide DescribeAll;
  }

  lemma ListDone(column: Column, child: Type, canHaveNulls: bool)
    requires column.columnType == List(child) && column.maxDefine >= (if canHaveNulls then 1 else 0)
    requires |column.children| == 1
    requires Describes(column.children[0], TreeOf(child, "element", true), column.schemaIndex + 2, column.maxDefine + 1,
      column.maxRepeat + 1)
    ensures
      var tree := TreeOf(column.columnType, column.name, canHaveNulls);
      && Describes(column, tree, column.schemaIndex, column.maxDefine - (if canHaveNulls then 1 else 0),
        column.maxRepeat)
      && Flatten(tree) == [Element(column.name, NullType(canHaveNulls), Some(1))]
                          + ([Element("list", Repeated, Some(1))] + Flatten(TreeOf(child, "element", true)))
  {
    hide FlattenAll, DescribeAll, Flatten, Describes;
    var node := TreeOf(child, "element", true);
    var tree := TreeOf(column.columnType, column.name, canHaveNulls);
    OneColumn(column.children, [node], column.schemaIndex + 2, column.maxDefine + 1, column.maxRepeat + 1);
    GroupDescribes(column, tree, tree.children[0]);
    GroupElements(tree, tree.children[0]);
    OneNode(node);
  }

  lemma OneColumn(columns: seq<Column>, nodes: seq<Node>, index: nat, d: nat, r: nat)
    requires |columns| == |nodes| == 1 && Describes(columns[0], nodes[0], index, d, r)
    ensures DescribeAll(columns, nodes, index, d, r)
  {
    hide Describes, Flatten;
  }

  lemma MapDone(column: Column, key: Type, value: Type, canHaveNulls: bool)
    requires column.columnType == Map(key, value) && column.maxDefine >= (if canHaveNulls then 1 else 0)
    requires |column.children| == 2
    requires Describes(column.children[0], TreeOf(key, "key", false), column.schemaIndex + 2, column.maxDefine + 1,
      column.maxRepeat + 1)
    requires Describes(column.children[1], TreeOf(value, "value", true),
      column.schemaIndex + 2 + |Flatten(TreeOf(key, "key", false))|,
                       column.maxDefine + 1, column.maxRepeat + 1)
    ensures
      var tree := TreeOf(column.columnType, column.name, canHaveNulls);
      && Describes(column, tree, column.schemaIndex, column.maxDefine - (if canHaveNulls then 1 else 0),
        column.maxRepeat)
      && Flatten(tree) == [Element(column.name, NullType(canHaveNulls), Some(1))]
                          + ([Element("key_value", Repeated, Some(2))]
                            + (Flatten(TreeOf(key, "key", false)) + Flatten(TreeOf(value, "value", true))))
  {
    hide FlattenAll, DescribeAll, Flatten, Describes;
    var k, v := TreeOf(key, "key", false), TreeOf(value, "value", true);
    EntryColumns(column.children, k, v, column.schemaIndex + 2, column.maxDefine + 1, column.maxRepeat + 1);
    var tree := TreeOf(column.columnType, column.name, canHaveNulls);
    GroupDescribes(column, tree, tree.children[0]);
    GroupElements(tree, tree.children[0]);
    TwoNodes(k, v);
  }

  lemma EntryColumns(columns: seq<Column>, k: Node, v: Node, index: nat, d: nat, r: nat)
    requires |columns| == 2 && Describes(columns[0], k, index, d, r)
    requires Describes(columns[1], v, index + |Flatten(k)|, d, r)
    ensures DescribeAll(columns, [k, v], index, d, r)
  {
    hide FlattenAll, DescribeAll, Flatten, Describes;
    OneColumn([columns[0]], [k], index, d, r);
    OneNode(k);
    DescribeNext([columns[0]], [k], index, d, r, columns[1], v);
    assert columns == [columns[0]] + [columns[1]] && [k] + [v] == [k, v];
  }

  // ---------------------------------------------------------------- levels count the path

  /** The column at the end of a path of child numbers. */
  function ColumnAt(column: Column, path: seq<nat>): Option<Column>
    decreases |path|
  {
    if path == [] then Some(column)
    else if path[0] < |column.children| then ColumnAt(column.children[path[0]], path[1..])
    else None
  }

  /** The nodes from a column's node to the one at the end of a path, repeated groups among them. */
  function NodesOn(column: Column, node: Node, path: seq<nat>): seq<Node>
    decreases |path|
  {
    if path == [] then [node]
    else
      var nodes := ColumnNodes(column.columnType, node);
      [node] + Group(column, node)
      + if path[0] < |column.children| && path[0] < |nodes|
        then NodesOn(column.children[path[0]], nodes[path[0]], path[1..])
        else []
  }

  function CountDefine(nodes: seq<Node>): nat {
    if nodes == [] then 0 else OwnDefine(nodes[0]) + CountDefine(nodes[1..])
  }

  function CountRepeat(nodes: seq<Node>): nat {
    if nodes == [] then 0 else OwnRepeat(nodes[0]) + CountRepeat(nodes[1..])
  }

  lemma {:induction false} CountAppend(a: seq<Node>, b: seq<Node>)
    ensures CountDefine(a + b) == CountDefine(a) + CountDefine(b)
    ensures CountRepeat(a + b) == CountRepeat(a) + CountRepeat(b)
  {
    hide OwnDefine, OwnRepeat;
    if a == [] {
      assert a + b == b;
    } else {
      assert (a + b)[1..] == a[1..] + b && (a + b)[0] == a[0];
      CountAppend(a[1..], b);
    }
  }

  /** A column among others describes its node, which stands behind the elements of the earlier ones. */
  lemma {:induction false} DescribedAt(columns: seq<Column>, nodes: seq<Node>, index: nat, d: nat, r: nat, i: nat)
    requires DescribeAll(columns, nodes, index, d, r) && i < |columns|
    ensures |columns| == |nodes| && Describes(columns[i], nodes[i], index + |FlattenAll(nodes[..i])|, d, r)
    ensures FlattenAll(nodes) == FlattenAll(nodes[..i]) + (Flatten(nodes[i]) + FlattenAll(nodes[i + 1..]))
    decreases |columns|
  {
    hide Describes, Flatten;
    if i == 0 {
      assert nodes[..0] == [];
    } else {
      DescribedAt(columns[1..], nodes[1..], index + |Flatten(nodes[0])|, d, r, i - 1);
      assert nodes[..i][1..] == nodes[1..][..i - 1] && nodes[1..][i..] == nodes[i + 1..];
      Regroup(Flatten(nodes[0]), FlattenAll(nodes[1..][..i - 1]), Flatten(nodes[i]) + FlattenAll(nodes[i + 1..]));
    }
  }

  /** Where the elements of the columns below a column are in its own list. */
  lemma ChildElements(column: Column, node: Node, index: nat, d: nat, r: nat)
    requires Describes(column, node, index, d, r)
    ensures
      var offset := ChildOffset(column.columnType);
      |Flatten(node)| >= offset && Flatten(node)[offset..] == FlattenAll(ColumnNodes(column.columnType, node))
  {
    hide FlattenAll, DescribeAll;
    if column.columnType.List? || column.columnType.Map? {
      var group := node.children[0];
      assert node.children == [group];
      OneNode(group);
      assert Flatten(node) == [ElementOf(node)] + ([ElementOf(group)] + FlattenAll(group.children));
    }
  }

  lemma MiddleAt<E>(a: seq<E>, b: seq<E>, c: seq<E>, i: nat)
    requires i < |b|
    ensures |a| + i < |a + (b + c)| && (a + (b + c))[|a| + i] == b[i]
  {
  }

  /** The repeated group of a list or map, if there is one. */
  function Group(column: Column, node: Node): seq<Node> {
    if (column.columnType.List? || column.columnType.Map?) && |node.children| == 1 then [node.children[0]] else []
  }

  /** What a column describes, its columns below describe with the levels of its own element and its group. */
  lemma DescribedBelow(column: Column, node: Node, index: nat, d: nat, r: nat, i: nat)
    requires Describes(column, node, index, d, r) && i < |column.children|
    ensures
      var nodes := ColumnNodes(column.columnType, node);
      var start := index + ChildOffset(column.columnType);
      && |nodes| == |column.children|
      && Describes(column.children[i], nodes[i], start + |FlattenAll(nodes[..i])|,
                   d + CountDefine([node] + Group(column, node)), r + CountRepeat([node] + Group(column, node)))
  {
    hide Flatten, FlattenAll, DescribeAll;
    var nodes, start := ColumnNodes(column.columnType, node), index + ChildOffset(column.columnType);
    OwnCounts(node, Group(column, node));
    var d', r' := d + CountDefine([node] + Group(column, node)), r + CountRepeat([node] + Group(column, node));
    DescribedAt(column.children, nodes, start, d', r', i);
  }

  lemma ElementBelow(column: Column, node: Node, index: nat, d: nat, r: nat, i: nat, k: nat)
    requires Describes(column, node, index, d, r) && i < |column.children|
    requires |ColumnNodes(column.columnType, node)| == |column.children|
    requires k < |Flatten(ColumnNodes(column.columnType, node)[i])|
    ensures
      var nodes := ColumnNodes(column.columnType, node);
      var at := ChildOffset(column.columnType) + |FlattenAll(nodes[..i])| + k;
      at < |Flatten(node)| && Flatten(node)[at] == Flatten(nodes[i])[k]
  {
    hide Flatten, FlattenAll, Describes;
    var nodes, offset := ColumnNodes(column.columnType, node), ChildOffset(column.columnType);
    SplitAt(nodes, i);
    ChildElements(column, node, index, d, r);
    MiddleAt(FlattenAll(nodes[..i]), Flatten(nodes[i]), FlattenAll(nodes[i + 1..]), k);
    BehindOffset(Flatten(node), offset, |FlattenAll(nodes[..i])| + k);
  }

  lemma {:induction false} SplitAt(nodes: seq<Node>, i: nat)
    requires i < |nodes|
    ensures FlattenAll(nodes) == FlattenAll(nodes[..i]) + (Flatten(nodes[i]) + FlattenAll(nodes[i + 1..]))
  {
    hide Flatten, FlattenAll;
    assert nodes == nodes[..i] + ([nodes[i]] + nodes[i + 1..]);
    FlattenAppend(nodes[..i], [nodes[i]] + nodes[i + 1..]);
    FlattenAppend([nodes[i]], nodes[i + 1..]);
    OneNode(nodes[i]);
  }

  /**
   Every column, however deep, has as definition level the number of optional and repeated elements
   on its path and as repetition level that of the repeated ones, and points to its own element.
   */
  lemma {:induction false} LevelsCountThePath(column: Column, node: Node, index: nat, d: nat, r: nat, path: seq<nat>)
    requires Describes(column, node, index, d, r) && ColumnAt(column, path).Some?
    ensures
      var c, nodes := ColumnAt(column, path).value, NodesOn(column, node, path);
      && nodes != []
      && c.maxDefine == d + CountDefine(nodes) && c.maxRepeat == r + CountRepeat(nodes)
      && index <= c.schemaIndex < index + |Flatten(node)|
      && Flatten(node)[c.schemaIndex - index] == ElementOf(nodes[|nodes| - 1])
    decreases |path|
  {
    hide Flatten, FlattenAll, DescribeAll, Describes, ElementOf, ColumnNodes, Group, CountDefine, CountRepeat;
    if path == [] {
      PathIsDone(column, node, index, d, r);
    } else {
      var i := path[0];
      DescribedBelow(column, node, index, d, r, i);
      var nodes := ColumnNodes(column.columnType, node);
      var at := ChildOffset(column.columnType) + |FlattenAll(nodes[..i])|;
      var front := [node] + Group(column, node);
      LevelsCountThePath(column.children[i], nodes[i], index + at, d + CountDefine(front), r + CountRepeat(front),
        path[1..]);
      var below := NodesOn(column.children[i], nodes[i], path[1..]);
      PathGoesOn(column, node, path, below);
      CountAppend(front, below);
      ElementBelow(column, node, index, d, r, i, ColumnAt(column, path).value.schemaIndex - index - at);
    }
  }

  lemma PathIsDone(column: Column, node: Node, index: nat, d: nat, r: nat)
    requires Describes(column, node, index, d, r)
    ensures column.maxDefine == d + CountDefine([node]) && column.maxRepeat == r + CountRepeat([node])
    ensures column.schemaIndex == index && Flatten(node)[0] == ElementOf(node)
  {
    hide FlattenAll;
    assert [node][1..] == [];
  }

  lemma PathGoesOn(column: Column, node: Node, path: seq<nat>, below: seq<Node>)
    requires path != [] && path[0] < |column.children| && |ColumnNodes(column.columnType, node)| == |column.children|
    requires below == NodesOn(column.children[path[0]], ColumnNodes(column.columnType, node)[path[0]], path[1..])
    ensures NodesOn(column, node, path) == [node] + Group(column, node) + below
  {
  }

  lemma BehindOffset<E>(s: seq<E>, offset: nat, i: nat)
    requires offset + i < |s|
    ensures s[offset..][i] == s[offset + i]
  {
  }

  lemma OwnCounts(node: Node, group: seq<Node>)
    requires |group| <= 1
    ensures CountDefine([node] + group) == OwnDefine(node) + if group == [] then 0 else OwnDefine(group[0])
    ensures CountRepeat([node] + group) == OwnRepeat(node) + if group == [] then 0 else OwnRepeat(group[0])
  {
    assert ([node] + group)[1..] == group;
    if group != [] {
      assert group[1..] == [];
    }
  }

  // ---------------------------------------------------------------- the elements and the levels of each kind of type

  /** The elements of a type, one by one: three for a list, a group with two for a map, of which the key is required. */
  lemma SchemaWritten(t: Type, name: string, canHaveNulls: bool)
    ensures
      var rep, list := if canHaveNulls then Optional else Required, Flatten(TreeOf(t, name, canHaveNulls));
      match t
      case Leaf(_) => list == [Element(name, rep, None)]
      case Struct(fields) => list == [Element(name, rep, Some(|fields|))] + FlattenAll(FieldTrees(fields))
      case List(child) =>
        list == [Element(name, rep, Some(1)), Element("list", Repeated, Some(1))]
          + Flatten(TreeOf(child, "element", true))
      case Map(key, value) =>
        list == [Element(name, rep, Some(1)), Element("key_value", Repeated, Some(2))]
          + (Flatten(TreeOf(key, "key", false)) + Flatten(TreeOf(value, "value", true)))
  {
    hide Flatten, FlattenAll;
    match t
    case Leaf(_) => FlattenIs(TreeOf(t, name, canHaveNulls));
    case Struct(fields) =>
      FlattenIs(TreeOf(t, name, canHaveNulls));
      FieldTreeCount(fields);
    case List(child) =>
      var group := Node("list", Repeated, false, [TreeOf(child, "element", true)]);
      FlattenIs(TreeOf(t, name, canHaveNulls));
      FlattenIs(group);
      OneNode(group);
      OneNode(TreeOf(child, "element", true));
    case Map(key, value) =>
      var k, v := TreeOf(key, "key", false), TreeOf(value, "value", true);
      var group := Node("key_value", Repeated, false, [k, v]);
      FlattenIs(TreeOf(t, name, canHaveNulls));
      FlattenIs(group);
      OneNode(group);
      assert [k, v] == [k] + [v];
      FlattenAppend([k], [v]);
      OneNode(k);
      OneNode(v);
  }

  lemma FlattenIs(node: Node)
    ensures Flatten(node) == [ElementOf(node)] + FlattenAll(node.children)
    ensures FlattenAll([]) == []
  {
  }

  lemma FieldsWritten(fields: seq<Field>)
    ensures fields == [] ==> FlattenAll(FieldTrees(fields)) == []
    ensures fields != [] ==>
      FlattenAll(FieldTrees(fields)) ==
        Flatten(TreeOf(fields[0].fieldType, fields[0].name, true)) + FlattenAll(FieldTrees(fields[1..]))
  {
    hide Flatten, TreeOf;
    if fields != [] {
      var trees := FieldTrees(fields);
      assert trees[0] == TreeOf(fields[0].fieldType, fields[0].name, true) && trees[1..] == FieldTrees(fields[1..]);
    }
  }

  /** The levels of the columns of a type, from those of the columns above. */
  lemma LevelsWritten(column: Column, t: Type, name: string, canHaveNulls: bool, index: nat, d: nat, r: nat)
    requires Describes(column, TreeOf(t, name, canHaveNulls), index, d, r) && column.columnType == t
    ensures column.maxDefine == d + (if canHaveNulls then 1 else 0) && column.maxRepeat == r
    ensures column.schemaIndex == index && column.name == name
    ensures match t
      case Leaf(_) => column.children == []
      case Struct(fields) =>
        && |column.children| == |fields|
        && forall i :: 0 <= i < |fields| ==>
             && column.children[i].name == fields[i].name
             && column.children[i].maxDefine == column.maxDefine + 1 && column.children[i].maxRepeat == r
      case List(_) =>
        && |column.children| == 1 && column.children[0].name == "element" && column.children[0].schemaIndex == index + 2
        && column.children[0].maxDefine == column.maxDefine + 2 && column.children[0].maxRepeat == r + 1
      case Map(_, _) =>
        && |column.children| == 2 && column.children[0].name == "key" && column.children[1].name == "value"
        && column.children[0].schemaIndex == index + 2
        && column.children[0].maxDefine == column.maxDefine + 1 && column.children[0].maxRepeat == r + 1
        && column.children[1].maxDefine == column.maxDefine + 2 && column.children[1].maxRepeat == r + 1
  {
    hide Flatten, FlattenAll, Describes, DescribeAll, TreeOf;
    RootLevels(column, t, name, canHaveNulls, index, d, r);
    match t
    case Leaf(_) =>
    case Struct(fields) => StructLevels(column, fields, name, canHaveNulls, index, d, r);
    case List(child) => ListLevels(column, child, name, canHaveNulls, index, d, r);
    case Map(key, value) => MapLevels(column, key, value, name, canHaveNulls, index, d, r);
  }

  lemma RootLevels(column: Column, t: Type, name: string, canHaveNulls: bool, index: nat, d: nat, r: nat)
    requires Describes(column, TreeOf(t, name, canHaveNulls), index, d, r) && column.columnType == t
    ensures column.maxDefine == d + (if canHaveNulls then 1 else 0) && column.maxRepeat == r
    ensures column.schemaIndex == index && column.name == name && (t.Leaf? ==> column.children == [])
  {
    hide Describes;
    OwnLevels(column, TreeOf(t, name, canHaveNulls), index, d, r);
    ColumnCount(column, TreeOf(t, name, canHaveNulls), index, d, r);
  }

  lemma StructLevels(column: Column, fields: seq<Field>, name: string, canHaveNulls: bool, index: nat, d: nat, r: nat)
    requires Describes(column, TreeOf(Struct(fields), name, canHaveNulls), index, d, r)
    requires column.columnType == Struct(fields)
    ensures |column.children| == |fields|
    ensures forall i :: 0 <= i < |fields| ==>
      && column.children[i].name == fields[i].name
      && column.children[i].maxDefine == column.maxDefine + 1 && column.children[i].maxRepeat == r
  {
    hide Describes;
    var node := TreeOf(Struct(fields), name, canHaveNulls);
    OwnLevels(column, node, index, d, r);
    ColumnCount(column, node, index, d, r);
    FieldTreeCount(fields);
    forall i | 0 <= i < |fields|
      ensures column.children[i].name == fields[i].name
      ensures column.children[i].maxDefine == column.maxDefine + 1 && column.children[i].maxRepeat == r
    {
      FieldTreeAt(fields, i);
      LevelsBelow(column, node, index, d, r, i);
    }
  }

  lemma ListLevels(column: Column, child: Type, name: string, canHaveNulls: bool, index: nat, d: nat, r: nat)
    requires Describes(column, TreeOf(List(child), name, canHaveNulls), index, d, r) && column.columnType == List(child)
    ensures |column.children| == 1
    ensures column.children[0].name == "element" && column.children[0].schemaIndex == index + 2
    ensures column.children[0].maxDefine == column.maxDefine + 2 && column.children[0].maxRepeat == r + 1
  {
    hide Describes, FlattenAll;
    var node := TreeOf(List(child), name, canHaveNulls);
    OwnLevels(column, node, index, d, r);
    ColumnCount(column, node, index, d, r);
    LevelsBelow(column, node, index, d, r, 0);
    NoElements();
    assert ColumnNodes(column.columnType, node)[..0] == [];
  }

  lemma MapLevels(column: Column, key: Type, value: Type, name: string, canHaveNulls: bool, index: nat, d: nat, r: nat)
    requires Describes(column, TreeOf(Map(key, value), name, canHaveNulls), index, d, r)
    requires column.columnType == Map(key, value)
    ensures |column.children| == 2
    ensures column.children[0].name == "key" && column.children[1].name == "value"
    ensures column.children[0].schemaIndex == index + 2
    ensures column.children[0].maxDefine == column.maxDefine + 1 && column.children[0].maxRepeat == r + 1
    ensures column.children[1].maxDefine == column.maxDefine + 2 && column.children[1].maxRepeat == r + 1
  {
    hide Describes, FlattenAll;
    var node := TreeOf(Map(key, value), name, canHaveNulls);
    OwnLevels(column, node, index, d, r);
    ColumnCount(column, node, index, d, r);
    LevelsBelow(column, node, index, d, r, 0);
    LevelsBelow(column, node, index, d, r, 1);
    NoElements();
    assert ColumnNodes(column.columnType, node)[..0] == [];
  }

  /** The levels of a column below: its own element, and the group above it. */
  lemma LevelsBelow(column: Column, node: Node, index: nat, d: nat, r: nat, i: nat)
    requires Describes(column, node, index, d, r) && i < |column.children|
    ensures
      var nodes, group := ColumnNodes(column.columnType, node), Group(column, node);
      && i < |nodes| && column.children[i].name == nodes[i].name
      && column.children[i].maxDefine ==
           column.maxDefine + (if group == [] then 0 else OwnDefine(group[0])) + OwnDefine(nodes[i])
      && column.children[i].maxRepeat ==
           column.maxRepeat + (if group == [] then 0 else OwnRepeat(group[0])) + OwnRepeat(nodes[i])
      && column.children[i].schemaIndex == index + ChildOffset(column.columnType) + |FlattenAll(nodes[..i])|
  {
    hide Describes, FlattenAll, OwnDefine, OwnRepeat, ColumnNodes;
    var nodes, group := ColumnNodes(column.columnType, node), Group(column, node);
    OwnLevels(column, node, index, d, r);
    DescribedBelow(column, node, index, d, r, i);
    OwnCounts(node, group);
    OwnLevels(column.children[i], nodes[i], index + ChildOffset(column.columnType) + |FlattenAll(nodes[..i])|,
              d + CountDefine([node] + group), r + CountRepeat([node] + group));
  }

  lemma OwnLevels(column: Column, node: Node, index: nat, d: nat, r: nat)
    requires Describes(column, node, index, d, r)
    ensures column.name == node.name && column.schemaIndex == index
    ensures column.maxDefine == d + OwnDefine(node) && column.maxRepeat == r + OwnRepeat(node)
  {
  }

  lemma ColumnCount(column: Column, node: Node, index: nat, d: nat, r: nat)
    requires Describes(column, node, index, d, r)
    ensures |column.children| == |ColumnNodes(column.columnType, node)|
  {
  }

  // ---------------------------------------------------------------- the writers

  /** A writer of a column and whether it accepts nulls. A map is written as a list of structs. */
  datatype Writer = Writer(canHaveNulls: bool, children: seq<Writer>)

  predicate PointsInto(column: Column, n: nat) {
    column.schemaIndex < n && forall c :: 0 <= c < |column.children| ==> PointsInto(column.children[c], n)
  }

  /** Reads the nullability of each column from the element that it points to. */
  function CreateWriter(schemas: seq<Element>, column: Column): Writer
    requires PointsInto(column, |schemas|)
    decreases column
  {
    var canHaveNulls := schemas[column.schemaIndex].repetition == Optional;
    var children := seq(|column.children|,
      c requires 0 <= c < |column.children| => CreateWriter(schemas, column.children[c]));
    Writer(canHaveNulls, if column.columnType.Map? then [Writer(canHaveNulls, children)] else children)
  }

  /** The writer that the tree means. */
  ghost predicate WriterFor(w: Writer, column: Column, node: Node)
    decreases column
  {
    && w.canHaveNulls == (node.repetition == Optional)
    && var nodes := ColumnNodes(column.columnType, node);
       var children := if column.columnType.Map? && |w.children| == 1 then w.children[0].children else w.children;
       && (column.columnType.Map? ==> |w.children| == 1 && w.children[0].canHaveNulls == w.canHaveNulls)
       && |children| == |column.children| == |nodes|
       && forall c :: 0 <= c < |children| ==> WriterFor(children[c], column.children[c], nodes[c])
  }

  /** The nullability read again from the flat list is the one the element was built with, for every column below. */
  lemma {:induction false} NullabilityReadAgain(schemas: seq<Element>, column: Column, node: Node, index: nat, d: nat,
                                                r: nat)
    requires Describes(column, node, index, d, r)
    requires index + |Flatten(node)| <= |schemas| && schemas[index..index + |Flatten(node)|] == Flatten(node)
    ensures PointsInto(column, |schemas|) && WriterFor(CreateWriter(schemas, column), column, node)
    decreases column
  {
    hide Flatten, FlattenAll, DescribeAll;
    var nodes, start := ColumnNodes(column.columnType, node), index + ChildOffset(column.columnType);
    var group := if column.columnType.List? || column.columnType.Map? then [node.children[0]] else [];
    var d', r' := d + CountDefine([node] + group), r + CountRepeat([node] + group);
    OwnCounts(node, group);
    FirstElement(schemas, index, node);
    SameCount(column.children, nodes, start, d', r');
    ChildElements(column, node, index, d, r);
    forall c | 0 <= c < |column.children|
      ensures PointsInto(column.children[c], |schemas|)
      ensures WriterFor(CreateWriter(schemas, column.children[c]), column.children[c], nodes[c])
    {
      DescribedAt(column.children, nodes, start, d', r', c);
      SubList(schemas, index, Flatten(node), ChildOffset(column.columnType), FlattenAll(nodes[..c]), Flatten(nodes[c]),
        FlattenAll(nodes[c + 1..]));
      NullabilityReadAgain(schemas, column.children[c], nodes[c], start + |FlattenAll(nodes[..c])|, d', r');
    }
  }

  lemma FirstElement(schemas: seq<Element>, index: nat, node: Node)
    requires index + |Flatten(node)| <= |schemas| && schemas[index..index + |Flatten(node)|] == Flatten(node)
    ensures index < |schemas| && schemas[index].repetition == node.repetition
  {
    assert schemas[index..index + |Flatten(node)|][0] == schemas[index];
  }

  lemma SameCount(columns: seq<Column>, nodes: seq<Node>, index: nat, d: nat, r: nat)
    requires DescribeAll(columns, nodes, index, d, r)
    ensures |columns| == |nodes|
  {
  }

  lemma SubList<E>(s: seq<E>, index: nat, list: seq<E>, offset: nat, a: seq<E>, b: seq<E>, c: seq<E>)
    requires index + |list| <= |s| && s[index..index + |list|] == list
    requires offset <= |list| && list[offset..] == a + (b + c)
    ensures
      var start := index + offset + |a|;
      start + |b| <= |s| && s[start..start + |b|] == b
  {
    var start := index + offset + |a|;
    forall i | 0 <= i < |b| ensures s[start + i] == b[i] {
      assert list[offset..][|a| + i] == b[i];
      assert s[index..index + |list|][offset + |a| + i] == list[offset + |a| + i];
    }
  }

  // ---------------------------------------------------------------- definition levels of rows

  const DEFINE_VALID: nat := 65535

  /** The number of rows of the vector that belong to the entries from one place to another; empty entries have none. */
  function RowsBetween(isEmpty: seq<bool>, from: nat, to: nat): nat
    requires from <= to && (isEmpty != [] ==> to <= |isEmpty|)
  {
    if from == to then 0 else RowsBetween(isEmpty, from, to - 1) + if isEmpty != [] && isEmpty[to - 1] then 0 else 1
  }

  /** How many of the entries from one place to another inherit a null, and how many are null themselves. */
  function Inherited(parent: seq<nat>, from: nat, to: nat): nat
    requires from <= to <= |parent|
  {
    if from == to then 0 else Inherited(parent, from, to - 1) + if parent[to - 1] != DEFINE_VALID then 1 else 0
  }

  function NullRows(parent: seq<nat>, isEmpty: seq<bool>, validity: seq<bool>, from: nat, to: nat): nat
    requires from <= to <= |parent| && (isEmpty == [] || |isEmpty| == |parent|)
  {
    if from == to then 0
    else
      NullRows(parent, isEmpty, validity, from, to - 1)
      + if IsNull(parent, isEmpty, validity, from, to - 1) then 1 else 0
  }

  /** The level of an entry of the parent, when the entries from a place on take the rows of a vector. */
  function LevelAt(parent: seq<nat>, isEmpty: seq<bool>, validity: seq<bool>, from: nat, c: nat, defineValue: nat,
                   nullValue: nat): nat
    requires from <= c < |parent| && (isEmpty == [] || |isEmpty| == |parent|)
  {
    if parent[c] != DEFINE_VALID then parent[c]
    else if IsNull(parent, isEmpty, validity, from, c) then nullValue else defineValue
  }

  predicate IsNull(parent: seq<nat>, isEmpty: seq<bool>, validity: seq<bool>, from: nat, c: nat)
    requires from <= c < |parent| && (isEmpty == [] || |isEmpty| == |parent|)
  {
    parent[c] == DEFINE_VALID && RowsBetween(isEmpty, from, c) < |validity| && !validity[RowsBetween(isEmpty, from, c)]
  }

  class ColumnWriterState {
    var definitionLevels: seq<nat>
    var nullCount: nat
    var parentNullCount: nat

    constructor ()
      ensures definitionLevels == [] && nullCount == parentNullCount == 0
    {
      definitionLevels, nullCount, parentNullCount := [], 0, 0;
    }

    /**
     Adds a level for each entry of the parent that has none yet. An entry that is null above keeps
     that level; any other takes its row of the vector, which empty entries do not use up.
     */
    method HandleDefineLevels(parent: seq<nat>, isEmpty: seq<bool>, validity: seq<bool>, defineValue: nat,
                              nullValue: nat, canHaveNulls: bool)
      returns (ok: bool)
      requires |definitionLevels| <= |parent| && (isEmpty == [] || |isEmpty| == |parent|)
      requires forall c :: |definitionLevels| <= c < |parent| && parent[c] == DEFINE_VALID ==>
        RowsBetween(isEmpty, |definitionLevels|, c) < |validity|
      modifies this
      ensures old(|definitionLevels|) <= |definitionLevels| <= |parent| && (ok ==> |definitionLevels| == |parent|)
      ensures definitionLevels[..old(|definitionLevels|)] == old(definitionLevels)
      ensures forall c :: old(|definitionLevels|) <= c < |definitionLevels| && parent[c] != DEFINE_VALID ==>
        definitionLevels[c] == parent[c]
      ensures forall c :: old(|definitionLevels|) <= c < |definitionLevels| && parent[c] == DEFINE_VALID ==>
        definitionLevels[c] ==
          if validity[RowsBetween(isEmpty, old(|definitionLevels|), c)] then defineValue else nullValue
      ensures parentNullCount == old(parentNullCount) + Inherited(parent, old(|definitionLevels|), |definitionLevels|)
      ensures nullCount == old(nullCount)
        + NullRows(parent, isEmpty, validity, old(|definitionLevels|), |definitionLevels|)
      ensures ok <==>
        || canHaveNulls
        || forall c :: old(|definitionLevels|) <= c < |parent| && parent[c] == DEFINE_VALID ==>
             validity[RowsBetween(isEmpty, old(|definitionLevels|), c)]
    {
      hide RowsBetween, NullRows, Inherited;
      ok := true;
      var vectorIndex: nat := 0;
      ghost var start := |definitionLevels|;
      NoEntries(parent, isEmpty, validity, start);
      while |definitionLevels| < |parent|
        invariant start <= |definitionLevels| <= |parent|
        invariant vectorIndex == RowsBetween(isEmpty, start, |definitionLevels|)
        invariant definitionLevels[..start] == old(definitionLevels)
        invariant forall c :: start <= c < |definitionLevels| ==>
          definitionLevels[c] == LevelAt(parent, isEmpty, validity, start, c, defineValue, nullValue)
        invariant parentNullCount == old(parentNullCount) + Inherited(parent, start, |definitionLevels|)
        invariant nullCount == old(nullCount) + NullRows(parent, isEmpty, validity, start, |definitionLevels|)
        invariant canHaveNulls || forall c :: start <= c < |definitionLevels| ==>
          !IsNull(parent, isEmpty, validity, start, c)
        decreases |parent| - |definitionLevels|
      {
        var currentIndex := |definitionLevels|;
        NextEntry(parent, isEmpty, validity, start, currentIndex);
        if parent[currentIndex] != DEFINE_VALID {
          definitionLevels := definitionLevels + [parent[currentIndex]];
          parentNullCount := parentNullCount + 1;
        } else if validity[vectorIndex] {
          definitionLevels := definitionLevels + [defineValue];
        } else {
          if !canHaveNulls {
            return false;
          }
          nullCount := nullCount + 1;
          definitionLevels := definitionLevels + [nullValue];
        }
        if isEmpty == [] || !isEmpty[currentIndex] {
          vectorIndex := vectorIndex + 1;
        }
      }
    }

    /** The levels of a column without a parent come from its own rows only. */
    method HandleRootDefineLevels(validity: seq<bool>, defineValue: nat, nullValue: nat, canHaveNulls: bool)
      returns (ok: bool)
      modifies this`definitionLevels, this`nullCount
      ensures |definitionLevels| == old(|definitionLevels|) + |validity|
      ensures definitionLevels[..old(|definitionLevels|)] == old(definitionLevels)
      ensures forall i :: 0 <= i < |validity| ==>
        definitionLevels[old(|definitionLevels|) + i] == if validity[i] then defineValue else nullValue
      ensures nullCount == old(nullCount) + Nulls(validity) && parentNullCount == old(parentNullCount)
      ensures ok <==> canHaveNulls || nullCount == 0
    {
      hide Nulls;
      ghost var start := |definitionLevels|;
      AllValidHasNoNulls(validity);
      if forall i :: 0 <= i < |validity| ==> validity[i] {
        definitionLevels := definitionLevels + seq(|validity|, i => defineValue);
        assert definitionLevels[..start] == old(definitionLevels);
      } else {
        NextNull(validity);
        for i := 0 to |validity|
          invariant |definitionLevels| == start + i && definitionLevels[..start] == old(definitionLevels)
          invariant forall k :: 0 <= k < i ==>
            definitionLevels[start + k] == if validity[k] then defineValue else nullValue
          invariant nullCount == old(nullCount) + Nulls(validity[..i])
        {
          definitionLevels := definitionLevels + [if validity[i] then defineValue else nullValue];
          if !validity[i] {
            nullCount := nullCount + 1;
          }
        }
        assert validity[..|validity|] == validity;
      }
      ok := canHaveNulls || nullCount == 0;
    }
  }

  function Nulls(validity: seq<bool>): nat {
    if validity == [] then 0 else Nulls(validity[..|validity| - 1]) + if validity[|validity| - 1] then 0 else 1
  }

  lemma {:induction false} AllValidHasNoNulls(validity: seq<bool>)
    ensures (forall i :: 0 <= i < |validity| ==> validity[i]) <==> Nulls(validity) == 0
  {
    if validity != [] {
      AllValidHasNoNulls(validity[..|validity| - 1]);
    }
  }

  lemma NextNull(validity: seq<bool>)
    ensures Nulls(validity[..0]) == 0
    ensures forall i :: 0 <= i < |validity| ==>
      Nulls(validity[..i + 1]) == Nulls(validity[..i]) + if validity[i] then 0 else 1
  {
    forall i | 0 <= i < |validity|
      ensures Nulls(validity[..i + 1]) == Nulls(validity[..i]) + if validity[i] then 0 else 1
    {
      assert validity[..i + 1][..i] == validity[..i];
    }
  }

  lemma NoEntries(parent: seq<nat>, isEmpty: seq<bool>, validity: seq<bool>, from: nat)
    requires from <= |parent| && (isEmpty == [] || |isEmpty| == |parent|)
    ensures RowsBetween(isEmpty, from, from) == Inherited(parent, from, from) ==
      NullRows(parent, isEmpty, validity, from, from) == 0
  {
  }

  lemma NextEntry(parent: seq<nat>, isEmpty: seq<bool>, validity: seq<bool>, from: nat, c: nat)
    requires from <= c < |parent| && (isEmpty == [] || |isEmpty| == |parent|)
    ensures RowsBetween(isEmpty, from, c + 1) == RowsBetween(isEmpty, from, c)
      + if isEmpty != [] && isEmpty[c] then 0 else 1
    ensures Inherited(parent, from, c + 1) == Inherited(parent, from, c) + if parent[c] != DEFINE_VALID then 1 else 0
    ensures NullRows(parent, isEmpty, validity, from, c + 1)
            == NullRows(parent, isEmpty, validity, from, c)
              + if IsNull(parent, isEmpty, validity, from, c) then 1 else 0
  {
  }

  // The counts, as the numbers of the entries that they count.

  /** The row of an entry is the number of entries in front of it that are not empty. */
  lemma {:induction false} RowsAre(isEmpty: seq<bool>, from: nat, until: nat)
    requires from <= until && (isEmpty != [] ==> until <= |isEmpty|)
    ensures RowsBetween(isEmpty, from, until) ==
      |set c: nat | from <= c < until && (isEmpty == [] || (c < |isEmpty| && !isEmpty[c]))|
    decreases until - from
  {
    var entries := set c: nat | from <= c < until && (isEmpty == [] || (c < |isEmpty| && !isEmpty[c]));
    if from < until {
      RowsAre(isEmpty, from, until - 1);
      var before := set c: nat | from <= c < until - 1 && (isEmpty == [] || (c < |isEmpty| && !isEmpty[c]));
      assert entries == if isEmpty == [] || !isEmpty[until - 1] then before + {until - 1} else before;
    } else {
      assert entries == {};
    }
  }

  lemma {:induction false} InheritedAre(parent: seq<nat>, from: nat, until: nat)
    requires from <= until <= |parent|
    ensures Inherited(parent, from, until) == |set c: nat | from <= c < until && parent[c] != 65535|
    decreases until - from
  {
    var entries := set c: nat | from <= c < until && parent[c] != 65535;
    if from < until {
      InheritedAre(parent, from, until - 1);
      var before := set c: nat | from <= c < until - 1 && parent[c] != 65535;
      assert entries == if parent[until - 1] != 65535 then before + {until - 1} else before;
    } else {
      assert entries == {};
    }
  }

  lemma {:induction false} NullsAre(validity: seq<bool>)
    ensures Nulls(validity) == |set i: nat | 0 <= i < |validity| && !validity[i]|
  {
    var nulls := set i: nat | 0 <= i < |validity| && !validity[i];
    if validity != [] {
      var n := |validity| - 1;
      NullsAre(validity[..n]);
      var before := set i: nat | 0 <= i < |validity[..n]| && !validity[..n][i];
      assert nulls == if validity[n] then before else before + {n};
    } else {
      assert nulls == {};
    }
  }

  /** The entries whose parent is valid and whose row is not. */
  function NullEntries(parent: seq<nat>, isEmpty: seq<bool>, validity: seq<bool>, from: nat, until: nat): set<nat>
    requires from <= until <= |parent| && (isEmpty == [] || |isEmpty| == |parent|)
    requires forall c :: from <= c < until && parent[c] == 65535 ==> RowsBetween(isEmpty, from, c) < |validity|
  {
    set c: nat | from <= c < until && parent[c] == 65535 && !validity[RowsBetween(isEmpty, from, c)]
  }

  lemma {:induction false} NullRowsAre(parent: seq<nat>, isEmpty: seq<bool>, validity: seq<bool>, from: nat, until: nat)
    requires from <= until <= |parent| && (isEmpty == [] || |isEmpty| == |parent|)
    requires forall c :: from <= c < until && parent[c] == 65535 ==> RowsBetween(isEmpty, from, c) < |validity|
    ensures NullRows(parent, isEmpty, validity, from, until) == |NullEntries(parent, isEmpty, validity, from, until)|
    decreases until - from
  {
    hide RowsBetween, IsNull, NullEntries;
    NextNullEntry(parent, isEmpty, validity, from, until);
    if from < until {
      NullRowsAre(parent, isEmpty, validity, from, until - 1);
    }
  }

  lemma NextNullEntry(parent: seq<nat>, isEmpty: seq<bool>, validity: seq<bool>, from: nat, until: nat)
    requires from <= until <= |parent| && (isEmpty == [] || |isEmpty| == |parent|)
    requires forall c :: from <= c < until && parent[c] == 65535 ==> RowsBetween(isEmpty, from, c) < |validity|
    ensures from == until ==> NullEntries(parent, isEmpty, validity, from, until) == {}
    ensures from < until ==>
      var before := NullEntries(parent, isEmpty, validity, from, until - 1);
      && until - 1 !in before
      && NullEntries(parent, isEmpty, validity, from, until) ==
         if IsNull(parent, isEmpty, validity, from, until - 1) then before + {until - 1} else before
  {
    hide RowsBetween;
  }

  /**
   With valid parents and no empty entries the rows are those of a column without a parent: the same
   rows are null, and nothing is inherited.
   */
  lemma {:induction false} LikeRoot(parent: seq<nat>, validity: seq<bool>, from: nat, until: nat)
    requires from <= until <= |parent| && until - from <= |validity|
    requires forall c :: from <= c < until ==> parent[c] == 65535
    ensures RowsBetween([], from, until) == until - from && Inherited(parent, from, until) == 0
    ensures NullRows(parent, [], validity, from, until) == Nulls(validity[..until - from])
    decreases until - from
  {
    if from < until {
      LikeRoot(parent, validity, from, until - 1);
      assert validity[..until - from][..until - from - 1] == validity[..until - 1 - from];
    }
  }
}
