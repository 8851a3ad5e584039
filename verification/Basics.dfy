/** What several components use. */
module Basics {

  datatype Option<T> = None | Some(value: T)

  function Min(a: nat, b: nat): nat {
    if a < b then a else b
  }

  lemma Regroup<E>(a: seq<E>, b: seq<E>, c: seq<E>)
    ensures a + b + c == a + (b + c)
  {
  }

  function Concat<E>(parts: seq<seq<E>>): seq<E> {
    if parts == [] then [] else parts[0] + Concat(parts[1..])
  }

  lemma {:induction false} ConcatAppend<E>(a: seq<seq<E>>, b: seq<seq<E>>)
    ensures Concat(a + b) == Concat(a) + Concat(b)
  {
    if a == [] {
      assert a + b == b;
    } else {
      assert (a + b)[0] == a[0] && (a + b)[1..] == a[1..] + b;
      ConcatAppend(a[1..], b);
      Regroup(a[0], Concat(a[1..]), Concat(b));
    }
  }

  lemma ConcatOne<E>(part: seq<E>)
    ensures Concat([part]) == part
  {
    assert [part][1..] == [];
  }

  lemma ConcatPush<E>(parts: seq<seq<E>>, part: seq<E>)
    ensures Concat(parts + [part]) == Concat(parts) + part
  {
    hide Concat;
    ConcatAppend(parts, [part]);
    ConcatOne(part);
  }

  /** The last part stands at the end. */
  lemma ConcatLast<E>(parts: seq<seq<E>>)
    requires parts != []
    ensures Concat(parts) == Concat(parts[..|parts| - 1]) + parts[|parts| - 1]
  {
    hide Concat;
    ConcatPush(parts[..|parts| - 1], parts[|parts| - 1]);
    assert parts == parts[..|parts| - 1] + [parts[|parts| - 1]];
  }
}
