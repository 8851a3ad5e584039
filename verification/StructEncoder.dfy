/**
 Encoding a column of a data chunk as a tree of descriptors. Nested structs are walked with an
 explicit stack whose entries remember where in the stack their parent is; the result is compared
 with a recursive encoding.
 */
module StructEncoder {
  import opened Basics

  /** A column; the values are what its data buffer holds. */
  datatype Vector =
    | Leaf(typeName: string, physicalType: string, supported: bool, validity: seq<bool>, values: seq<int>)
    | Struct(typeName: string, physicalType: string, validity: seq<bool>, entries: seq<Entry>)

  datatype Entry = Entry(name: string, vector: Vector)

  /** A descriptor object, with the properties that have been set. A slot of children may still be empty. */
  datatype Desc = Desc(name: Option<string>, sqlType: Option<string>, physicalType: Option<string>,
                       validity: Option<seq<bool>>, data: Option<seq<int>>, children: Option<seq<Option<Desc>>>)

  datatype Flags = Flags(withTypes: bool, withData: bool)

  const NO_DESC: Desc := Desc(None, None, None, None, None, None)

  /** What a visit sets on a descriptor before it looks at the kind of the vector. */
  function Common(flags: Flags, v: Vector, desc: Desc): Desc {
    desc.(sqlType := if flags.withTypes then Some(v.typeName) else desc.sqlType,
          physicalType := if flags.withTypes then Some(v.physicalType) else desc.physicalType,
          validity := if flags.withData then Some(v.validity) else desc.validity)
  }

  function Named(name: string): Desc {
    NO_DESC.(name := Some(name))
  }

  // ---------------------------------------------------------------- the recursive encoding

  /** The recursive encoding into a fresh descriptor; no descriptor if a type is not supported. */
  function Encode(flags: Flags, v: Vector, desc: Desc): Option<Desc>
    decreases v, 0
  {
    match v
    case Leaf(_, _, supported, _, values) =>
      if !supported then None
      else Some(Common(flags, v, desc).(data := if flags.withData then Some(values) else desc.data))
    case Struct(_, _, _, entries) =>
      match EncodeEntries(flags, entries)
      case None => None
      case Some(children) => Some(Common(flags, v, desc).(children := Some(children)))
  }

  /** The children of a struct, the last entry first. */
  function EncodeEntries(flags: Flags, entries: seq<Entry>): (r: Option<seq<Option<Desc>>>)
    ensures r.Some? ==> |r.value| == |entries|
    decreases entries
  {
    if entries == [] then Some([])
    else
      match (EncodeEntries(flags, entries[1..]), Encode(flags, entries[0].vector, Named(entries[0].name)))
      case (Some(later), Some(first)) => Some(later + [Some(first)])
      case _ => None
  }

  /** The children of a struct are the encodings of its entries in mirrored order, all of them. */
  lemma {:induction false} Mirrored(flags: Flags, entries: seq<Entry>, i: nat)
    requires i < |entries| && EncodeEntries(flags, entries).Some?
    ensures
      var entry := entries[|entries| - 1 - i];
      EncodeEntries(flags, entries).value[i] == Encode(flags, entry.vector, Named(entry.name)) != None
    decreases |entries|
  {
    hide Encode;
    if i < |entries| - 1 {
      Mirrored(flags, entries[1..], i);
    }
  }

  /** A property that is set if a flag asks for it. */
  function Given<T>(flag: bool, value: T): Option<T> {
    if flag then Some(value) else None
  }

  /**
   The properties of a descriptor: its name is kept, types and contents are there as the flags say, a
   leaf has values and no children, a struct the descriptors of its entries, in reverse, and no values.
   */
  lemma EncodedIs(flags: Flags, v: Vector, name: Option<string>)
    requires Encode(flags, v, NO_DESC.(name := name)).Some?
    ensures
      var d := Encode(flags, v, NO_DESC.(name := name)).value;
      && d.name == name && d.validity == Given(flags.withData, v.validity)
      && d.sqlType == Given(flags.withTypes, v.typeName) && d.physicalType == Given(flags.withTypes, v.physicalType)
      && (v.Leaf? ==> v.supported && d.data == Given(flags.withData, v.values) && d.children == None)
      && (v.Struct? ==> d.data == None && d.children.Some? && |d.children.value| == |v.entries|)
      && (v.Struct? ==> forall i :: 0 <= i < |v.entries| ==> IsChild(flags, v.entries, i, d.children.value[i]))
  {
    hide EncodeEntries, IsChild;
    if v.Struct? {
      EntriesEncoded(flags, v.entries);
    }
  }

  /** The descriptor of the i-th entry from the back. */
  predicate IsChild(flags: Flags, entries: seq<Entry>, i: nat, child: Option<Desc>)
    requires i < |entries|
  {
    var entry := entries[|entries| - 1 - i];
    child.Some? && child == Encode(flags, entry.vector, NO_DESC.(name := Some(entry.name)))
  }

  lemma EntriesEncoded(flags: Flags, entries: seq<Entry>)
    ensures EncodeEntries(flags, entries).Some? ==>
      forall i :: 0 <= i < |entries| ==> IsChild(flags, entries, i, EncodeEntries(flags, entries).value[i])
  {
    hide Encode, EncodeEntries;
    if EncodeEntries(flags, entries).Some? {
      var children := EncodeEntries(flags, entries).value;
      forall i | 0 <= i < |entries| ensures IsChild(flags, entries, i, children[i]) {
        Mirrored(flags, entries, i);
      }
    }
  }

  predicate Supported(v: Vector) {
    match v
    case Leaf(_, _, supported, _, _) => supported
    case Struct(_, _, _, entries) => forall e :: 0 <= e < |entries| ==> Supported(entries[e].vector)
  }

  /** The encoding fails exactly if there is an unsupported type somewhere. */
  lemma {:induction false} EncodeFails(flags: Flags, v: Vector, desc: Desc)
    ensures Encode(flags, v, desc).Some? <==> Supported(v)
    decreases v, 0
  {
    match v
    case Struct(_, _, _, entries) => EntriesFail(flags, entries);
    case _ =>
  }

  lemma {:induction false} EntriesFail(flags: Flags, entries: seq<Entry>)
    ensures EncodeEntries(flags, entries).Some? <==> forall e :: 0 <= e < |entries| ==> Supported(entries[e].vector)
    decreases entries
  {
    hide Encode, Supported;
    if entries != [] {
      EncodeFails(flags, entries[0].vector, Named(entries[0].name));
      EntriesFail(flags, entries[1..]);
      forall e | 0 <= e < |entries|
        ensures Supported(entries[e].vector) <==>
          if e == 0 then Supported(entries[0].vector) else Supported(entries[1..][e - 1].vector)
      {
      }
    }
  }

  // ---------------------------------------------------------------- the stack

  datatype Node = Node(visited: bool, vec: Vector, desc: Desc, parentIdx: nat, idxInParent: nat)

  function SetChild(desc: Desc, i: nat, child: Desc): Desc
    requires desc.children.Some? && i < |desc.children.value|
  {
    desc.(children := Some(desc.children.value[i := Some(child)]))
  }

  /** The slot of a node in its parent exists. */
  predicate HasSlot(stack: seq<Node>, j: nat)
    requires j < |stack|
  {
    && stack[j].parentIdx < j
    && var parent := stack[stack[j].parentIdx];
       parent.visited && parent.desc.children.Some? && stack[j].idxInParent < |parent.desc.children.value|
  }

  /** The slot of a node is empty and is meant for this node. */
  predicate SlotIsMine(stack: seq<Node>, j: nat)
    requires j < |stack|
  {
    && HasSlot(stack, j)
    && var parent := stack[stack[j].parentIdx];
       var i := stack[j].idxInParent;
       && parent.desc.children.value[i] == None
       && parent.vec.Struct? && i < |parent.vec.entries|
       && parent.vec.entries[|parent.vec.entries| - 1 - i].vector == stack[j].vec
  }

  predicate WellFormed(stack: seq<Node>) {
    && |stack| > 0
    && (forall j :: 0 < j < |stack| ==> SlotIsMine(stack, j))
    && (forall i, j :: 0 < i < j < |stack| && stack[i].parentIdx == stack[j].parentIdx ==>
         stack[i].idxInParent < stack[j].idxInParent)
  }

  function NodeValue(flags: Flags, node: Node): Option<Desc> {
    if node.visited then Some(node.desc) else Encode(flags, node.vec, node.desc)
  }

  /** The stack without its last node, whose descriptor is in its slot. */
  function Deliver(stack: seq<Node>, child: Desc): (r: seq<Node>)
    requires |stack| > 1 && HasSlot(stack, |stack| - 1)
    ensures |r| == |stack| - 1
  {
    var last := stack[|stack| - 1];
    var parent := stack[last.parentIdx];
    stack[..|stack| - 1][last.parentIdx := parent.(desc := SetChild(parent.desc, last.idxInParent, child))]
  }

  predicate Slots(stack: seq<Node>) {
    |stack| > 0 && forall j :: 0 < j < |stack| ==> HasSlot(stack, j)
  }

  lemma DeliverKeepsSlots(stack: seq<Node>, child: Desc)
    requires |stack| > 1 && Slots(stack)
    ensures Slots(Deliver(stack, child))
  {
    forall j | 0 < j < |stack| - 1 ensures HasSlot(Deliver(stack, child), j) {
      assert HasSlot(stack, j);
    }
  }

  /** The descriptor that comes out when every node that is left is encoded recursively. */
  function Finish(flags: Flags, stack: seq<Node>): Option<Desc>
    requires Slots(stack)
    decreases |stack|
  {
    var last := stack[|stack| - 1];
    match NodeValue(flags, last)
    case None => None
    case Some(desc) =>
      if |stack| == 1 then Some(desc)
      else
        DeliverKeepsSlots(stack, desc);
        Finish(flags, Deliver(stack, desc))
  }

  /** Nothing but the value of the last node matters for the result. */
  lemma SameLast(flags: Flags, base: seq<Node>, a: Node, b: Node)
    requires Slots(base + [a]) && NodeValue(flags, a) == NodeValue(flags, b)
    requires a.parentIdx == b.parentIdx && a.idxInParent == b.idxInParent
    ensures Slots(base + [b]) && Finish(flags, base + [a]) == Finish(flags, base + [b])
  {
    hide NodeValue;
    var s, t := base + [a], base + [b];
    forall j | 0 < j < |t| ensures HasSlot(t, j) {
      assert HasSlot(s, j);
    }
    assert s[..|s| - 1] == base == t[..|t| - 1];
    if |s| > 1 {
      assert HasSlot(s, |base|) && HasSlot(t, |base|);
      assert s[a.parentIdx] == base[a.parentIdx] == t[b.parentIdx];
    }
  }

  /** The node of a struct that has just been visited, its slots empty. */
  function Opened(flags: Flags, node: Node): Node
    requires node.vec.Struct?
  {
    var slots := seq(|node.vec.entries|, i => None);
    node.(visited := true, desc := Common(flags, node.vec, node.desc).(children := Some(slots)))
  }

  /** The first k children of a struct as nodes; the last entry comes first. */
  function Kids(entries: seq<Entry>, parent: nat, k: nat): (kids: seq<Node>)
    requires k <= |entries|
    ensures |kids| == k
  {
    if k == 0 then []
    else
      var entry := entries[|entries| - k];
      Kids(entries, parent, k - 1) + [Node(false, entry.vector, Named(entry.name), parent, k - 1)]
  }

  lemma {:induction false} KidAt(entries: seq<Entry>, parent: nat, k: nat, i: nat)
    requires i < k <= |entries|
    ensures
      var entry := entries[|entries| - 1 - i];
      Kids(entries, parent, k)[i] == Node(false, entry.vector, Named(entry.name), parent, i)
    decreases k
  {
    if i < k - 1 {
      KidAt(entries, parent, k - 1, i);
    }
  }

  lemma KidsHaveSlots(base: seq<Node>, p: Node, k: nat)
    requires Slots(base + [p]) && p.visited && p.vec.Struct? && k <= |p.vec.entries|
    requires p.desc.children.Some? && |p.desc.children.value| == |p.vec.entries|
    ensures Slots(base + [p] + Kids(p.vec.entries, |base|, k))
  {
    var s, t := base + [p], base + [p] + Kids(p.vec.entries, |base|, k);
    forall j | 0 < j < |t| ensures HasSlot(t, j) {
      if j < |s| {
        assert HasSlot(s, j);
      } else {
        KidAt(p.vec.entries, |base|, k, j - |s|);
      }
    }
  }

  /** A visited struct whose first slots are filled. */
  function Filled(p: Node, done: seq<Option<Desc>>): Node
    requires p.desc.children.Some? && |done| <= |p.desc.children.value|
  {
    p.(desc := p.desc.(children := Some(done + p.desc.children.value[|done|..])))
  }

  predicate OpenStruct(p: Node) {
    p.visited && p.vec.Struct? && p.desc.children.Some? && |p.desc.children.value| == |p.vec.entries|
  }

  function WithKids(base: seq<Node>, p: Node, k: nat): seq<Node>
    requires OpenStruct(p) && k <= |p.vec.entries|
  {
    base + [p] + Kids(p.vec.entries, |base|, k)
  }

  /** Finishing the first k children of a visited struct fills its first k slots with their encodings. */
  lemma {:induction false} FinishKids(flags: Flags, base: seq<Node>, p: Node, k: nat)
    requires Slots(base + [p]) && OpenStruct(p) && k <= |p.vec.entries|
    ensures Slots(WithKids(base, p, k))
    ensures match EncodeEntries(flags, p.vec.entries[|p.vec.entries| - k..])
            case None => Finish(flags, WithKids(base, p, k)) == None
            case Some(done) =>
              Slots(base + [Filled(p, done)])
                && Finish(flags, WithKids(base, p, k)) == Finish(flags, base + [Filled(p, done)])
    decreases k
  {
    hide Encode, EncodeEntries, Finish, Slots, HasSlot, Filled;
    KidsHaveSlots(base, p, k);
    var entries := p.vec.entries;
    if k == 0 {
      NoKids(flags, base, p);
    } else {
      var entry := entries[|entries| - k];
      LastEntry(flags, entries, k);
      LastKid(base, p, k);
      match Encode(flags, entry.vector, Named(entry.name))
      case None =>
        KidFails(flags, base, p, k);
      case Some(desc) =>
        var p' := p.(desc := SetChild(p.desc, k - 1, desc));
        DeliverKid(base, p, k, desc);
        SlotsOfParent(base, p, p');
        FinishLastKid(flags, base, p, k, desc);
        FinishKids(flags, base, p', k - 1);
        match EncodeEntries(flags, entries[|entries| - (k - 1)..])
        case None =>
        case Some(done) => FilledSlots(p, done, desc);
    }
  }

  lemma KidFails(flags: Flags, base: seq<Node>, p: Node, k: nat)
    requires OpenStruct(p) && 0 < k <= |p.vec.entries| && Slots(WithKids(base, p, k))
    requires var entry := p.vec.entries[|p.vec.entries| - k]; Encode(flags, entry.vector, Named(entry.name)) == None
    ensures Finish(flags, WithKids(base, p, k)) == None
  {
    hide Encode, HasSlot;
    LastKid(base, p, k);
  }

  lemma FinishLastKid(flags: Flags, base: seq<Node>, p: Node, k: nat, desc: Desc)
    requires OpenStruct(p) && 0 < k <= |p.vec.entries|
    requires Slots(WithKids(base, p, k))
    requires var entry := p.vec.entries[|p.vec.entries| - k];
      Encode(flags, entry.vector, Named(entry.name)) == Some(desc)
    requires Slots(base + [p])
    ensures Slots(WithKids(base, p.(desc := SetChild(p.desc, k - 1, desc)), k - 1))
    ensures Finish(flags, WithKids(base, p, k)) ==
      Finish(flags, WithKids(base, p.(desc := SetChild(p.desc, k - 1, desc)), k - 1))
  {
    hide Encode, HasSlot;
    DeliverKid(base, p, k, desc);
    LastKid(base, p, k);
    DeliverKeepsSlots(WithKids(base, p, k), desc);
  }

  lemma NoKids(flags: Flags, base: seq<Node>, p: Node)
    requires OpenStruct(p)
    ensures EncodeEntries(flags, []) == Some([])
    ensures WithKids(base, p, 0) == base + [p] && Filled(p, []) == p && p.vec.entries[|p.vec.entries|..] == []
  {
    var slots := p.desc.children.value;
    assert [] + slots[0..] == slots;
  }

  lemma SlotsOfParent(base: seq<Node>, p: Node, p': Node)
    requires Slots(base + [p]) && p'.parentIdx == p.parentIdx && p'.idxInParent == p.idxInParent
    ensures Slots(base + [p'])
  {
    forall j | 0 < j < |base| + 1 ensures HasSlot(base + [p'], j) {
      assert HasSlot(base + [p], j);
    }
  }

  lemma LastEntry(flags: Flags, entries: seq<Entry>, k: nat)
    requires 0 < k <= |entries|
    ensures
      var entry := entries[|entries| - k];
      EncodeEntries(flags, entries[|entries| - k..]) ==
      match (EncodeEntries(flags, entries[|entries| - (k - 1)..]), Encode(flags, entry.vector, Named(entry.name)))
      case (Some(later), Some(first)) => Some(later + [Some(first)])
      case _ => None
  {
    hide Encode;
    assert entries[|entries| - k..][1..] == entries[|entries| - (k - 1)..];
  }

  lemma LastKid(base: seq<Node>, p: Node, k: nat)
    requires p.vec.Struct? && 0 < k <= |p.vec.entries|
    ensures
      var s := base + [p] + Kids(p.vec.entries, |base|, k);
      var entry := p.vec.entries[|p.vec.entries| - k];
      && |s| > 1 && s[|s| - 1] == Node(false, entry.vector, Named(entry.name), |base|, k - 1)
  {
  }

  lemma DeliverKid(base: seq<Node>, p: Node, k: nat, child: Desc)
    requires Slots(base + [p]) && p.visited && p.vec.Struct? && 0 < k <= |p.vec.entries|
    requires p.desc.children.Some? && |p.desc.children.value| == |p.vec.entries|
    ensures
      var s := base + [p] + Kids(p.vec.entries, |base|, k);
      && |s| > 1 && HasSlot(s, |s| - 1)
      && Deliver(s, child) == base + [p.(desc := SetChild(p.desc, k - 1, child))] + Kids(p.vec.entries, |base|, k - 1)
  {
  }

  lemma FilledSlots(p: Node, done: seq<Option<Desc>>, desc: Desc)
    requires OpenStruct(p) && |done| < |p.vec.entries|
    ensures Filled(p.(desc := SetChild(p.desc, |done|, desc)), done) == Filled(p, done + [Some(desc)])
  {
    var slots := p.desc.children.value;
    assert done + slots[|done| := Some(desc)][|done|..] == done + [Some(desc)] + slots[|done| + 1..];
  }

  /** Visiting a struct does not change what comes out. */
  lemma VisitStruct(flags: Flags, base: seq<Node>, node: Node)
    requires Slots(base + [node]) && node.vec.Struct? && !node.visited
    ensures
      var s := WithKids(base, Opened(flags, node), |node.vec.entries|);
      Slots(s) && Finish(flags, s) == Finish(flags, base + [node])
  {
    hide Slots, HasSlot, Finish;
    var entries, p := node.vec.entries, Opened(flags, node);
    SlotsOfParent(base, node, p);
    FinishKids(flags, base, p, |entries|);
    assert entries[|entries| - |entries|..] == entries;
    match EncodeEntries(flags, entries)
    case None =>
      FinishNothing(flags, base, node);
    case Some(done) =>
      assert done + p.desc.children.value[|done|..] == done;
      SameLast(flags, base, node, Filled(p, done));
  }

  lemma FinishNothing(flags: Flags, base: seq<Node>, node: Node)
    requires Slots(base + [node]) && NodeValue(flags, node) == None
    ensures Finish(flags, base + [node]) == None
  {
  }

  lemma WellFormedHasSlots(stack: seq<Node>)
    requires WellFormed(stack)
    ensures Slots(stack)
  {
    forall j | 0 < j < |stack| ensures HasSlot(stack, j) {
      assert SlotIsMine(stack, j);
    }
  }

  lemma DeliverKeepsWellFormed(stack: seq<Node>, child: Desc)
    requires WellFormed(stack) && |stack| > 1
    ensures SlotIsMine(stack, |stack| - 1) && WellFormed(Deliver(stack, child))
  {
    var n := |stack| - 1;
    assert SlotIsMine(stack, n);
    var r := Deliver(stack, child);
    forall j | 0 < j < n ensures SlotIsMine(r, j) {
      assert SlotIsMine(stack, j);
    }
  }

  lemma OpenKeepsWellFormed(flags: Flags, base: seq<Node>, node: Node)
    requires WellFormed(base + [node]) && node.vec.Struct?
    ensures WellFormed(WithKids(base, Opened(flags, node), |node.vec.entries|))
  {
    var s, p, entries := base + [node], Opened(flags, node), node.vec.entries;
    var t := WithKids(base, p, |entries|);
    forall j | 0 < j < |t|
      ensures SlotIsMine(t, j)
      ensures j > |base| ==> t[j].parentIdx == |base| && t[j].idxInParent == j - |base| - 1
      ensures j <= |base| ==> t[j].parentIdx == s[j].parentIdx < |base| && t[j].idxInParent == s[j].idxInParent
    {
      if j <= |base| {
        assert SlotIsMine(s, j);
      } else {
        KidAt(entries, |base|, |entries|, j - |base| - 1);
      }
    }
  }

  lemma SetLast(base: seq<Node>, node: Node, visited: Node)
    requires WellFormed(base + [node])
    requires visited.vec == node.vec && visited.parentIdx == node.parentIdx && visited.idxInParent == node.idxInParent
    ensures WellFormed(base + [visited])
  {
    var s, t := base + [node], base + [visited];
    forall j | 0 < j < |t|
      ensures SlotIsMine(t, j) && t[j].parentIdx == s[j].parentIdx && t[j].idxInParent == s[j].idxInParent
    {
      assert SlotIsMine(s, j);
    }
  }

  // ---------------------------------------------------------------- why the loop ends

  function Size(v: Vector): (n: nat)
    ensures n > 0
    decreases v, 0
  {
    match v
    case Leaf(_, _, _, _, _) => 1
    case Struct(_, _, _, entries) => 1 + EntrySizes(entries)
  }

  function EntrySizes(entries: seq<Entry>): nat
    decreases entries
  {
    if entries == [] then 0 else Size(entries[0].vector) + EntrySizes(entries[1..])
  }

  function NodeWork(node: Node): nat {
    if node.visited then 1 else 2 * Size(node.vec)
  }

  /** The number of rounds that a stack still takes. */
  function Work(stack: seq<Node>): nat {
    if stack == [] then 0 else Work(stack[..|stack| - 1]) + NodeWork(stack[|stack| - 1])
  }

  lemma WorkPush(base: seq<Node>, node: Node)
    ensures Work(base + [node]) == Work(base) + NodeWork(node)
  {
    assert (base + [node])[..|base|] == base;
  }

  lemma {:induction false} KidsWork(base: seq<Node>, p: Node, k: nat)
    requires OpenStruct(p) && k <= |p.vec.entries|
    ensures Work(WithKids(base, p, k)) == Work(base) + 1 + 2 * EntrySizes(p.vec.entries[|p.vec.entries| - k..])
    decreases k
  {
    hide Size, Work;
    var entries := p.vec.entries;
    if k == 0 {
      WorkPush(base, p);
      assert WithKids(base, p, 0) == base + [p];
    } else {
      KidsWork(base, p, k - 1);
      var entry := entries[|entries| - k];
      var kid := Node(false, entry.vector, Named(entry.name), |base|, k - 1);
      assert WithKids(base, p, k) == WithKids(base, p, k - 1) + [kid];
      WorkPush(WithKids(base, p, k - 1), kid);
      assert entries[|entries| - k..][1..] == entries[|entries| - (k - 1)..];
    }
  }

  lemma {:induction false} DeliverWork(stack: seq<Node>, child: Desc)
    requires |stack| > 1 && HasSlot(stack, |stack| - 1) && stack[|stack| - 1].visited
    ensures Work(Deliver(stack, child)) < Work(stack)
  {
    hide NodeWork;
    var last := stack[|stack| - 1];
    SameWork(stack[..|stack| - 1], Deliver(stack, child));
    assert NodeWork(last) == 1 by {
      VisitedWork(last);
    }
  }

  lemma VisitedWork(node: Node)
    requires node.visited
    ensures NodeWork(node) == 1
  {
  }

  lemma {:induction false} SameWork(a: seq<Node>, b: seq<Node>)
    requires |a| == |b| && forall j :: 0 <= j < |a| ==> a[j].visited == b[j].visited && a[j].vec == b[j].vec
    ensures Work(a) == Work(b)
    decreases |a|
  {
    hide Size;
    if a != [] {
      SameWork(a[..|a| - 1], b[..|a| - 1]);
    }
  }

  // ---------------------------------------------------------------- the loop

  /**
   Encodes a column with an explicit stack. The result is the recursive encoding, or none if an
   unsupported type ends the walk.
   */
  method EncodeColumn(flags: Flags, column: Vector) returns (r: Option<Desc>)
    ensures r == Encode(flags, column, NO_DESC)
  {
    hide Finish, Encode, WellFormed, Slots, Work, HasSlot, SlotIsMine, WithKids;
    var pending := [Node(false, column, NO_DESC, 0, 0)];
    Start(flags, pending[0]);
    while true
      invariant WellFormed(pending) && Slots(pending) && |pending| > 0
      invariant Finish(flags, pending) == Encode(flags, column, NO_DESC)
      decreases Work(pending)
    {
      var current := |pending| - 1;
      var back := pending[current];
      ghost var base := pending[..current];
      assert pending == base + [back];
      if back.visited {
        FinishVisited(flags, pending);
        if |pending| == 1 {
          return Some(back.desc);
        }
        DeliverKeepsWellFormed(pending, back.desc);
        DeliverWork(pending, back.desc);
        WellFormedHasSlots(Deliver(pending, back.desc));
        var parent := pending[back.parentIdx];
        parent := parent.(desc := SetChild(parent.desc, back.idxInParent, back.desc));
        pending := pending[..current][back.parentIdx := parent];
        continue;
      }
      match back.vec {
        case Leaf(_, _, supported, _, values) =>
          if !supported {
            Unsupported(flags, base, back);
            return None;
          }
          var desc := Common(flags, back.vec, back.desc);
          if flags.withData {
            desc := desc.(data := Some(values));
          }
          VisitLeaf(flags, base, back);
          pending := pending[current := back.(visited := true, desc := desc)];
          WellFormedHasSlots(pending);
        case Struct(_, _, _, entries) =>
          VisitStruct(flags, base, back);
          OpenKeepsWellFormed(flags, base, back);
          OpenWork(flags, base, back);
          var slots := seq(|entries|, i => None);
          var desc := Common(flags, back.vec, back.desc).(children := Some(slots));
          pending := pending[current := back.(visited := true, desc := desc)];
          assert pending == base + [Opened(flags, back)];
          pending := PushChildren(pending, entries, current, Opened(flags, back));
          WellFormedHasSlots(pending);
      }
    }
  }

  method PushChildren(stack: seq<Node>, entries: seq<Entry>, current: nat, ghost p: Node) returns (pending: seq<Node>)
    requires current + 1 == |stack| && stack[current] == p && OpenStruct(p) && p.vec.entries == entries
    ensures pending == WithKids(stack[..current], p, |entries|)
  {
    pending := stack;
    assert stack == stack[..current] + [p] + [];
    for i := 0 to |entries|
      invariant pending == stack[..current] + [p] + Kids(entries, current, i)
    {
      var c := |entries| - 1 - i;
      pending := pending + [Node(false, entries[c].vector, Named(entries[c].name), current, i)];
    }
  }

  lemma Start(flags: Flags, node: Node)
    ensures WellFormed([node]) && Slots([node]) && Finish(flags, [node]) == NodeValue(flags, node)
  {
  }

  lemma FinishVisited(flags: Flags, stack: seq<Node>)
    requires WellFormed(stack) && Slots(stack) && stack[|stack| - 1].visited
    ensures |stack| == 1 ==> Finish(flags, stack) == Some(stack[0].desc)
    ensures |stack| > 1 ==>
      && HasSlot(stack, |stack| - 1) && Slots(Deliver(stack, stack[|stack| - 1].desc))
      && Finish(flags, stack) == Finish(flags, Deliver(stack, stack[|stack| - 1].desc))
  {
    if |stack| > 1 {
      DeliverKeepsSlots(stack, stack[|stack| - 1].desc);
    }
  }

  lemma Unsupported(flags: Flags, base: seq<Node>, node: Node)
    requires Slots(base + [node]) && !node.visited && node.vec.Leaf? && !node.vec.supported
    ensures Finish(flags, base + [node]) == None
  {
    FinishNothing(flags, base, node);
  }

  lemma VisitLeaf(flags: Flags, base: seq<Node>, node: Node)
    requires WellFormed(base + [node]) && Slots(base + [node]) && !node.visited && node.vec.Leaf? && node.vec.supported
    ensures
      var data := if flags.withData then Some(node.vec.values) else node.desc.data;
      var desc := Common(flags, node.vec, node.desc).(data := data);
      var visited := node.(visited := true, desc := desc);
      && (base + [node])[|base| := visited] == base + [visited]
      && WellFormed(base + [visited]) && Slots(base + [visited])
      && Finish(flags, base + [visited]) == Finish(flags, base + [node])
      && Work(base + [visited]) < Work(base + [node])
  {
    hide WellFormed, Slots, Finish, Work;
    var data := if flags.withData then Some(node.vec.values) else node.desc.data;
    var desc := Common(flags, node.vec, node.desc).(data := data);
    var visited := node.(visited := true, desc := desc);
    SameLast(flags, base, node, visited);
    SetLast(base, node, visited);
    WorkPush(base, node);
    WorkPush(base, visited);
  }

  lemma OpenWork(flags: Flags, base: seq<Node>, node: Node)
    requires node.vec.Struct? && !node.visited
    ensures Work(WithKids(base, Opened(flags, node), |node.vec.entries|)) < Work(base + [node])
  {
    hide Work;
    var entries := node.vec.entries;
    KidsWork(base, Opened(flags, node), |entries|);
    assert entries[|entries| - |entries|..] == entries;
    WorkPush(base, node);
  }
}
