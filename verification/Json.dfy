/** JSON values as trees, and their descendants level by level. */
module Json {
  import opened Basics

  datatype Json = Scalar(text: string) | Arr(elements: seq<Json>) | Obj(fields: seq<Field>)

  datatype Field = Field(key: string, value: Json)

  function Children(v: Json): (r: seq<Json>)
  {
    match v
    case Scalar(_) => []
    case Arr(elements) => elements
    case Obj(fields) => seq(|fields|, i requires 0 <= i < |fields| => fields[i].value)
  }

  /** The value of the first field with a key. */
  function Lookup(fields: seq<Field>, key: string): Option<Json> {
    if fields == [] then None
    else if fields[0].key == key then Some(fields[0].value)
    else Lookup(fields[1..], key)
  }

  function At(elements: seq<Json>, index: nat): Option<Json> {
    if index < |elements| then Some(elements[index]) else None
  }

  // ---------------------------------------------------------------- size

  function Size(v: Json): (n: nat)
    ensures n > 0
  {
    match v
    case Scalar(_) => 1
    case Arr(elements) => 1 + SizeAll(elements)
    case Obj(fields) => 1 + SizeFields(fields)
  }

  function SizeAll(vs: seq<Json>): nat {
    if vs == [] then 0 else Size(vs[0]) + SizeAll(vs[1..])
  }

  function SizeFields(fields: seq<Field>): nat {
    if fields == [] then 0 else Size(fields[0].value) + SizeFields(fields[1..])
  }

  lemma {:induction false} SizeOfFields(fields: seq<Field>)
    ensures SizeFields(fields) == SizeAll(Children(Obj(fields)))
  {
    if fields != [] {
      SizeOfFields(fields[1..]);
      assert Children(Obj(fields))[1..] == Children(Obj(fields[1..]));
    }
  }

  lemma SizeOfChildren(v: Json)
    ensures Size(v) == 1 + SizeAll(Children(v))
  {
    match v
    case Obj(fields) => SizeOfFields(fields);
    case _ =>
  }

  lemma {:induction false} SizeAppend(a: seq<Json>, b: seq<Json>)
    ensures SizeAll(a + b) == SizeAll(a) + SizeAll(b)
  {
    hide Size;
    if a == [] {
      assert a + b == b;
    } else {
      assert (a + b)[1..] == a[1..] + b && (a + b)[0] == a[0];
      SizeAppend(a[1..], b);
    }
  }

  // ---------------------------------------------------------------- descendants

  function ChildrenOf(vs: seq<Json>): seq<Json> {
    if vs == [] then [] else Children(vs[0]) + ChildrenOf(vs[1..])
  }

  lemma {:induction false} ChildrenShrink(vs: seq<Json>)
    ensures SizeAll(ChildrenOf(vs)) + |vs| == SizeAll(vs)
  {
    hide Size;
    if vs != [] {
      ChildrenShrink(vs[1..]);
      SizeAppend(Children(vs[0]), ChildrenOf(vs[1..]));
      SizeOfChildren(vs[0]);
    }
  }

  /** Values and everything below them: first the values, then all their children, and so on. */
  function LevelOrder(vs: seq<Json>): seq<Json>
    decreases SizeAll(vs)
  {
    if vs == [] then []
    else
      ChildrenShrink(vs);
      vs + LevelOrder(ChildrenOf(vs))
  }

  /** What a queue delivers to which every value that leaves it adds its children. */
  function Queue(q: seq<Json>): seq<Json>
    decreases SizeAll(q)
  {
    if q == [] then []
    else
      QueueShrinks(q);
      [q[0]] + Queue(q[1..] + Children(q[0]))
  }

  lemma QueueShrinks(q: seq<Json>)
    requires q != []
    ensures SizeAll(q[1..] + Children(q[0])) + 1 == SizeAll(q)
  {
    SizeAppend(q[1..], Children(q[0]));
    SizeOfChildren(q[0]);
  }

  /** The values at the front of a queue leave it first, and leave their children behind. */
  lemma {:induction false} QueueFront(front: seq<Json>, back: seq<Json>)
    ensures Queue(front + back) == front + Queue(back + ChildrenOf(front))
    decreases |front|
  {
    hide Children, SizeAll;
    if front == [] {
      assert front + back == back && back + [] == back;
    } else {
      var q := front + back;
      assert q[0] == front[0] && q[1..] == front[1..] + back;
      var back' := back + Children(front[0]);
      Regroup(front[1..], back, Children(front[0]));
      QueueFront(front[1..], back');
      Regroup(back, Children(front[0]), ChildrenOf(front[1..]));
      Regroup([front[0]], front[1..], Queue(back + ChildrenOf(front)));
    }
  }

  lemma {:induction false} QueueIsLevelOrder(vs: seq<Json>)
    ensures Queue(vs) == LevelOrder(vs)
    decreases SizeAll(vs)
  {
    hide Queue, Children, SizeAll;
    if vs == [] {
      QueueEmpty();
    } else {
      ChildrenShrink(vs);
      QueueFront(vs, []);
      assert vs + [] == vs && [] + ChildrenOf(vs) == ChildrenOf(vs);
      QueueIsLevelOrder(ChildrenOf(vs));
    }
  }

  lemma QueueEmpty()
    ensures Queue([]) == []
  {
  }

  /** A value and everything below it, in document order. */
  function Descendants(v: Json): seq<Json> {
    [v] + match v
          case Scalar(_) => []
          case Arr(elements) => DescendantsOf(elements)
          case Obj(fields) => DescendantsOfFields(fields)
  }

  function DescendantsOf(vs: seq<Json>): seq<Json> {
    if vs == [] then [] else Descendants(vs[0]) + DescendantsOf(vs[1..])
  }

  function DescendantsOfFields(fields: seq<Field>): seq<Json> {
    if fields == [] then [] else Descendants(fields[0].value) + DescendantsOfFields(fields[1..])
  }

  lemma {:induction false} FieldDescendants(fields: seq<Field>)
    ensures DescendantsOfFields(fields) == DescendantsOf(Children(Obj(fields)))
  {
    hide Descendants;
    if fields != [] {
      FieldDescendants(fields[1..]);
      assert Children(Obj(fields))[1..] == Children(Obj(fields[1..]));
    }
  }

  lemma ChildDescendants(v: Json)
    ensures Descendants(v) == [v] + DescendantsOf(Children(v))
  {
    match v
    case Obj(fields) => FieldDescendants(fields);
    case _ =>
  }

  lemma {:induction false} DescendantsAppend(a: seq<Json>, b: seq<Json>)
    ensures DescendantsOf(a + b) == DescendantsOf(a) + DescendantsOf(b)
  {
    hide Descendants;
    if a == [] {
      assert a + b == b;
    } else {
      assert (a + b)[1..] == a[1..] + b && (a + b)[0] == a[0];
      DescendantsAppend(a[1..], b);
    }
  }

  /** The queue delivers every descendant, and each as often as it occurs in the tree. */
  lemma {:induction false} QueueVisitsAll(q: seq<Json>)
    ensures multiset(Queue(q)) == multiset(DescendantsOf(q))
    decreases SizeAll(q)
  {
    hide Descendants, Children, SizeAll;
    if q != [] {
      QueueShrinks(q);
      QueueVisitsAll(q[1..] + Children(q[0]));
      DescendantsAppend(q[1..], Children(q[0]));
      ChildDescendants(q[0]);
    }
  }

  lemma LevelOrderVisitsAll(v: Json)
    ensures multiset(LevelOrder([v])) == multiset(Descendants(v))
    ensures |LevelOrder([v])| == |Descendants(v)| > 0 && LevelOrder([v])[0] == v
  {
    hide Queue, Descendants;
    QueueIsLevelOrder([v]);
    QueueVisitsAll([v]);
    assert DescendantsOf([v]) == Descendants(v) + DescendantsOf([]) == Descendants(v);
    assert |multiset(LevelOrder([v]))| == |LevelOrder([v])|;
  }

  lemma {:induction false} ChildrenOfAppend(a: seq<Json>, b: seq<Json>)
    ensures ChildrenOf(a + b) == ChildrenOf(a) + ChildrenOf(b)
  {
    hide Children;
    if a == [] {
      assert a + b == b;
    } else {
      assert (a + b)[1..] == a[1..] + b && (a + b)[0] == a[0];
      ChildrenOfAppend(a[1..], b);
    }
  }

  /** The worklist is what it starts with, and then the children of its members, one member after another. */
  lemma {:induction false} WorklistIsClosed(vs: seq<Json>)
    ensures LevelOrder(vs) == vs + ChildrenOf(LevelOrder(vs))
    decreases SizeAll(vs)
  {
    hide Children, SizeAll;
    if vs != [] {
      ChildrenShrink(vs);
      var later := LevelOrder(ChildrenOf(vs));
      WorklistIsClosed(ChildrenOf(vs));
      ChildrenOfAppend(vs, later);
    }
  }
}
