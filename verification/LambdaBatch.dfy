/**
 list_filter and list_transform. The elements of all lists of a chunk are packed, row after row,
 into batches of a fixed size for the lambda expression; a batch may end in the middle of a list
 and may cover many lists. The filter finds the rows again by a cursor that survives from one
 batch to the next.
 */
module LambdaBatch {
  import opened Basics

  datatype ListEntry = ListEntry(offset: nat, length: nat)

  /** A list column: rows select an entry, which is NULL or a stretch of the child vector. */
  datatype ListColumn<T> = ListColumn(sel: seq<nat>, entries: seq<ListEntry>, validity: seq<bool>, child: seq<T>) {

    predicate WellFormed() {
      && |validity| == |entries|
      && (forall r :: 0 <= r < |sel| ==> sel[r] < |entries|)
      && (forall e :: 0 <= e < |entries| && validity[e] ==> entries[e].offset + entries[e].length <= |child|)
    }

    predicate RowIsValid(row: nat)
      requires WellFormed() && row < |sel|
    {
      validity[sel[row]]
    }

    function Entry(row: nat): (entry: ListEntry)
      requires WellFormed() && row < |sel|
      ensures RowIsValid(row) ==> entry.offset + entry.length <= |child|
    {
      entries[sel[row]]
    }

    /** The list of a row; a NULL has no elements. */
    function Row(row: nat): seq<T>
      requires WellFormed() && row < |sel|
    {
      if RowIsValid(row) then child[Entry(row).offset..Entry(row).offset + Entry(row).length] else []
    }
  }

  /** One element on its way through the lambda: its row, its index in the list, its value. */
  datatype Element<T> = Element(row: nat, idx: nat, value: T)

  function RowElements<T>(column: ListColumn<T>, row: nat): seq<Element<T>>
    requires column.WellFormed() && row < |column.sel|
  {
    var list := column.Row(row);
    seq(|list|, i requires 0 <= i < |list| => Element(row, i, list[i]))
  }

  /** The elements of the first n rows in the order in which they are packed. */
  function Stream<T>(column: ListColumn<T>, n: nat): seq<Element<T>>
    requires column.WellFormed() && n <= |column.sel|
  {
    if n == 0 then [] else Stream(column, n - 1) + RowElements(column, n - 1)
  }

  /** The lambda of list_filter on a row, a 1-based index and a value; NULL does not keep. */
  type Predicate<!T> = (nat, nat, T) -> Option<bool>

  predicate Keeps<T>(f: Predicate<T>, e: Element<T>) {
    f(e.row, e.idx + 1, e.value) == Some(true)
  }

  function KeptOne<T>(f: Predicate<T>, e: Element<T>): seq<T> {
    if Keeps(f, e) then [e.value] else []
  }

  /** The specification of list_filter: the kept elements, in order. */
  function Kept<T>(f: Predicate<T>, elements: seq<Element<T>>): seq<T> {
    if elements == [] then [] else KeptOne(f, elements[0]) + Kept(f, elements[1..])
  }

  lemma {:induction false} KeptAppend<T>(f: Predicate<T>, a: seq<Element<T>>, b: seq<Element<T>>)
    ensures Kept(f, a + b) == Kept(f, a) + Kept(f, b)
  {
    hide KeptOne;
    if a == [] {
      assert a + b == b;
    } else {
      Rest(a, b);
      KeptAppend(f, a[1..], b);
      Regroup(KeptOne(f, a[0]), Kept(f, a[1..]), Kept(f, b));
    }
  }

  lemma Rest<E>(a: seq<E>, b: seq<E>)
    requires a != []
    ensures a + b != [] && (a + b)[0] == a[0] && (a + b)[1..] == a[1..] + b
  {
  }

  lemma KeptPush<T>(f: Predicate<T>, a: seq<Element<T>>, e: Element<T>)
    ensures Kept(f, a + [e]) == Kept(f, a) + if Keeps(f, e) then [e.value] else []
  {
    hide Keeps;
    KeptAppend(f, a, [e]);
    assert [e][1..] == [];
  }

  function Length<T>(column: ListColumn<T>, row: nat): nat
    requires column.WellFormed() && row < |column.sel|
  {
    |column.Row(row)|
  }

  /** The elements before a position, which is a row and an index in its list. */
  function Before<T>(column: ListColumn<T>, row: nat, k: nat): seq<Element<T>>
    requires column.WellFormed() && row <= |column.sel|
    requires if row == |column.sel| then k == 0 else k <= Length(column, row)
  {
    Stream(column, row) + if row == |column.sel| then [] else RowElements(column, row)[..k]
  }

  lemma {:induction false} StreamPrefix<T>(column: ListColumn<T>, m: nat, n: nat)
    requires column.WellFormed() && m <= n <= |column.sel|
    ensures Stream(column, m) <= Stream(column, n)
    decreases n - m
  {
    hide RowElements;
    if m < n {
      StreamPrefix(column, m, n - 1);
    }
  }

  /** Stepping over a list that is done: the position at its end is the start of the next row. */
  lemma RowDone<T>(column: ListColumn<T>, row: nat)
    requires column.WellFormed() && row < |column.sel|
    ensures Before(column, row, Length(column, row)) == Before(column, row + 1, 0) == Stream(column, row + 1)
    ensures Before(column, row, 0) == Stream(column, row)
  {
    var elements := RowElements(column, row);
    assert elements[..|elements|] == elements && elements[..0] == [];
    assert row + 1 < |column.sel| ==> RowElements(column, row + 1)[..0] == [];
  }

  lemma ElementStep<T>(column: ListColumn<T>, row: nat, k: nat)
    requires column.WellFormed() && row < |column.sel| && k < Length(column, row)
    ensures Before(column, row, k + 1) == Before(column, row, k) + [Element(row, k, column.Row(row)[k])]
    ensures RowElements(column, row)[..k + 1] == RowElements(column, row)[..k] + [Element(row, k, column.Row(row)[k])]
  {
    var elements := RowElements(column, row);
    assert elements[..k + 1] == elements[..k] + [elements[k]];
  }

  /** The element that follows a position among the elements of the first n rows. */
  lemma NextElement<T>(column: ListColumn<T>, n: nat, row: nat, k: nat, e: Element<T>)
    requires column.WellFormed() && row < n <= |column.sel| && k < Length(column, row)
    requires Before(column, row, k) + [e] <= Stream(column, n)
    ensures e == Element(row, k, column.Row(row)[k])
  {
    hide Before, Stream;
    ElementInStream(column, row, k);
    StreamPrefix(column, row + 1, n);
    var mine := Before(column, row, k) + [Element(row, k, column.Row(row)[k])];
    PrefixOfPrefix(mine, Stream(column, row + 1), Stream(column, n));
    SamePosition(Before(column, row, k), e, Element(row, k, column.Row(row)[k]), Stream(column, n));
  }

  lemma SamePosition<E>(before: seq<E>, x: E, y: E, all: seq<E>)
    requires before + [x] <= all && before + [y] <= all
    ensures x == y
  {
    assert all[|before|] == (before + [x])[|before|] == (before + [y])[|before|];
  }

  lemma PrefixOfPrefix<E>(a: seq<E>, b: seq<E>, c: seq<E>)
    requires a <= b && b <= c
    ensures a <= c
  {
  }

  lemma ElementInStream<T>(column: ListColumn<T>, row: nat, k: nat)
    requires column.WellFormed() && row < |column.sel| && k < Length(column, row)
    ensures Before(column, row, k) + [Element(row, k, column.Row(row)[k])] <= Stream(column, row + 1)
  {
    ElementStep(column, row, k);
  }

  /** Nothing follows the last position. */
  lemma NothingFollows<T>(column: ListColumn<T>, n: nat, e: Element<T>)
    requires column.WellFormed() && n <= |column.sel|
    ensures !(Before(column, n, 0) + [e] <= Stream(column, n))
  {
    RowStart(column, n);
  }

  lemma RowStart<T>(column: ListColumn<T>, row: nat)
    requires column.WellFormed() && row <= |column.sel|
    ensures Before(column, row, 0) == Stream(column, row)
  {
    if row < |column.sel| {
      RowDone(column, row);
    }
  }

  /** The entry that a row must get in the result. */
  function FilteredEntry<T>(column: ListColumn<T>, f: Predicate<T>, row: nat): ListEntry
    requires column.WellFormed() && row < |column.sel|
  {
    ListEntry(|Kept(f, Stream(column, row))|, |Kept(f, RowElements(column, row))|)
  }

  /** The lengths of the rows packed so far are known; the cursor does not stand behind a list. */
  ghost predicate Cursor<T>(column: ListColumn<T>, f: Predicate<T>, entryLengths: seq<nat>, rowIdx: nat,
                            srcLength: nat) {
    && column.WellFormed()
    && rowIdx <= |entryLengths| <= |column.sel|
    && (forall r :: 0 <= r < |entryLengths| ==> entryLengths[r] == Length(column, r))
    && (srcLength == 0 || (rowIdx < |entryLengths| && srcLength < entryLengths[rowIdx]))
  }

  /** Rows before the cursor have their final entries; offset and length count what has been kept. */
  ghost predicate Progress<T>(column: ListColumn<T>, f: Predicate<T>, rowIdx: nat, srcLength: nat,
                              offset: nat, length: nat, entries: seq<ListEntry>)
    requires column.WellFormed() && rowIdx <= |column.sel|
    requires if rowIdx == |column.sel| then srcLength == 0 else srcLength <= Length(column, rowIdx)
  {
    && |entries| == |column.sel|
    && offset == |Kept(f, Stream(column, rowIdx))|
    && length == (if rowIdx == |column.sel| then 0 else |Kept(f, RowElements(column, rowIdx)[..srcLength])|)
    && (forall r :: 0 <= r < rowIdx ==> entries[r] == FilteredEntry(column, f, r))
  }

  lemma SkipEmpty<T>(column: ListColumn<T>, f: Predicate<T>, rowIdx: nat, offset: nat, length: nat,
                     entries: seq<ListEntry>)
    requires column.WellFormed() && rowIdx < |column.sel| && Length(column, rowIdx) == 0
    requires Progress(column, f, rowIdx, 0, offset, length, entries)
    ensures Progress(column, f, rowIdx + 1, 0, offset, 0, entries[rowIdx := ListEntry(offset, 0)])
    ensures |entries| == |column.sel| && length == 0
    ensures Before(column, rowIdx + 1, 0) == Before(column, rowIdx, 0)
  {
    FinishRow(column, f, rowIdx, offset, length, entries);
    RowDone(column, rowIdx);
  }

  /** The row under the cursor is done: it gets its entry and the cursor moves to the next row. */
  lemma FinishRow<T>(column: ListColumn<T>, f: Predicate<T>, rowIdx: nat, offset: nat, length: nat,
                     entries: seq<ListEntry>)
    requires column.WellFormed() && rowIdx < |column.sel|
    requires Progress(column, f, rowIdx, Length(column, rowIdx), offset, length, entries)
    ensures Progress(column, f, rowIdx + 1, 0, offset + length, 0, entries[rowIdx := ListEntry(offset, length)])
    ensures |entries| == |column.sel|
    ensures Length(column, rowIdx) == 0 ==> length == 0
  {
    var elements := RowElements(column, rowIdx);
    assert elements[..|elements|] == elements;
    KeptAppend(f, Stream(column, rowIdx), elements);
    if rowIdx + 1 < |column.sel| {
      assert RowElements(column, rowIdx + 1)[..0] == [];
    }
  }

  /** One more element of the row under the cursor has been looked at. */
  lemma ElementTaken<T>(column: ListColumn<T>, f: Predicate<T>, rowIdx: nat, srcLength: nat, offset: nat, length: nat,
                        entries: seq<ListEntry>)
    requires column.WellFormed() && rowIdx < |column.sel| && srcLength < Length(column, rowIdx)
    requires Progress(column, f, rowIdx, srcLength, offset, length, entries)
    ensures
      var e := Element(rowIdx, srcLength, column.Row(rowIdx)[srcLength]);
      && Before(column, rowIdx, srcLength + 1) == Before(column, rowIdx, srcLength) + [e]
      && Progress(column, f, rowIdx, srcLength + 1, offset, if Keeps(f, e) then length + 1 else length, entries)
  {
    hide Keeps, Kept;
    ElementStep(column, rowIdx, srcLength);
    KeptPush(f, RowElements(column, rowIdx)[..srcLength], Element(rowIdx, srcLength, column.Row(rowIdx)[srcLength]));
  }

  class ListResult<T> {
    var entries: seq<ListEntry>
    var validity: seq<bool>
    var child: seq<T>

    constructor (rows: nat)
      ensures |entries| == |validity| == rows && child == []
      ensures forall r :: 0 <= r < rows ==> validity[r]
    {
      entries, validity, child := seq(rows, i => ListEntry(0, 0)), seq(rows, i => true), [];
    }
  }

  /** What list_filter remembers from one batch to the next. */
  class ListFilterInfo<T> {
    var entryLengths: seq<nat>
    var length: nat
    var offset: nat
    var rowIdx: nat
    var srcLength: nat
    const result: ListResult<T>

    constructor (result: ListResult<T>)
      ensures this.result == result
      ensures entryLengths == [] && length == offset == rowIdx == srcLength == 0
    {
      this.result := result;
      entryLengths, length, offset, rowIdx, srcLength := [], 0, 0, 0, 0;
    }

    ghost predicate Valid(column: ListColumn<T>, f: Predicate<T>)
      reads this, result`entries
    {
      && Cursor(column, f, entryLengths, rowIdx, srcLength)
      && Progress(column, f, rowIdx, srcLength, offset, length, result.entries)
    }

    /** Lists without elements get their entries as soon as the cursor reaches them. */
    method SetEmptyEntries(ghost column: ListColumn<T>, ghost f: Predicate<T>)
      requires Valid(column, f)
      modifies this`rowIdx, result`entries
      ensures Valid(column, f)
      ensures rowIdx < |entryLengths| ==> srcLength < entryLengths[rowIdx]
      ensures Before(column, rowIdx, srcLength) == old(Before(column, rowIdx, srcLength))
    {
      hide Kept, Stream, RowElements, Length, Before, Progress, ListColumn.WellFormed;
      while rowIdx < |entryLengths| && entryLengths[rowIdx] == 0
        invariant Valid(column, f)
        invariant Before(column, rowIdx, srcLength) == old(Before(column, rowIdx, srcLength))
        decreases |entryLengths| - rowIdx
      {
        SkipEmpty(column, f, rowIdx, offset, length, result.entries);
        result.entries := result.entries[rowIdx := ListEntry(offset, 0)];
        rowIdx := rowIdx + 1;
      }
    }

    /** Moves the cursor over one element; behind the last element of its list, the row is finished. */
    method TakeElement(keep: bool, ghost column: ListColumn<T>, ghost f: Predicate<T>, ghost e: Element<T>)
      requires Valid(column, f) && rowIdx < |entryLengths| && srcLength < entryLengths[rowIdx]
      requires e == Element(rowIdx, srcLength, column.Row(rowIdx)[srcLength]) && keep == Keeps(f, e)
      modifies this`rowIdx, this`srcLength, this`offset, this`length, result`entries
      ensures Valid(column, f)
      ensures Before(column, rowIdx, srcLength) == old(Before(column, rowIdx, srcLength)) + [e]
    {
      hide Kept, Keeps, Stream, RowElements, Before, Progress, ListColumn.WellFormed;
      ElementTaken(column, f, rowIdx, srcLength, offset, length, result.entries);
      if keep {
        length := length + 1;
      }
      srcLength := srcLength + 1;
      if entryLengths[rowIdx] == srcLength {
        RowDone(column, rowIdx);
        FinishRow(column, f, rowIdx, offset, length, result.entries);
        result.entries := result.entries[rowIdx := ListEntry(offset, length)];
        offset := offset + length;
        rowIdx := rowIdx + 1;
        length := 0;
        srcLength := 0;
      }
    }

    /** Filters one batch: advances the cursor over its elements and appends those that are kept. */
    method AppendResult(lambdaVector: seq<Option<bool>>, input: seq<T>,
                        ghost column: ListColumn<T>, ghost f: Predicate<T>, ghost batch: seq<Element<T>>)
      requires Valid(column, f) && result.child == Kept(f, Before(column, rowIdx, srcLength))
      requires IsOutput(f, batch, lambdaVector, input)
      requires Before(column, rowIdx, srcLength) + batch <= Stream(column, |entryLengths|)
      modifies this`rowIdx, this`srcLength, this`offset, this`length, result`entries, result`child
      ensures Valid(column, f) && result.child == Kept(f, Before(column, rowIdx, srcLength))
      ensures Before(column, rowIdx, srcLength) == old(Before(column, rowIdx, srcLength)) + batch
      ensures rowIdx < |entryLengths| ==> srcLength < entryLengths[rowIdx]
    {
      hide Kept, Keeps, Stream, RowElements, Length, Before, Progress, ListColumn.WellFormed;
      ghost var start := Before(column, rowIdx, srcLength);
      var sel: seq<nat> := [];
      assert start == start + batch[..0];
      NoneKept(f, batch[..0]);
      for i := 0 to |lambdaVector|
        invariant Valid(column, f) && result.child == old(result.child)
        invariant Before(column, rowIdx, srcLength) == start + batch[..i]
        invariant forall s :: 0 <= s < |sel| ==> sel[s] < |input|
        invariant Slice(input, sel) == Kept(f, batch[..i])
      {
        SetEmptyEntries(column, f);
        ExtendPrefix(start, batch, i, Stream(column, |entryLengths|));
        ghost var e := batch[i];
        AtElement(column, |entryLengths|, rowIdx, srcLength, e);
        KeptPush(f, batch[..i], e);
        if lambdaVector[i] == Some(true) {
          SlicePush(input, sel, i);
          sel := sel + [i];
        }
        TakeElement(lambdaVector[i] == Some(true), column, f, e);
      }
      assert batch[..|lambdaVector|] == batch;
      SetEmptyEntries(column, f);
      KeptAppend(f, start, batch);
      result.child := result.child + Slice(input, sel);
    }
  }

  /** A selection vector applied to a vector. */
  function Slice<E>(values: seq<E>, sel: seq<nat>): seq<E>
    requires forall s :: 0 <= s < |sel| ==> sel[s] < |values|
  {
    seq(|sel|, s requires 0 <= s < |sel| => values[sel[s]])
  }

  lemma SlicePush<E>(values: seq<E>, sel: seq<nat>, i: nat)
    requires forall s :: 0 <= s < |sel| ==> sel[s] < |values|
    requires i < |values|
    ensures Slice(values, sel + [i]) == Slice(values, sel) + [values[i]]
  {
  }

  /** What the lambda gives for a batch, and the values it was given. */
  ghost predicate IsOutput<T>(f: Predicate<T>, batch: seq<Element<T>>, lambdaVector: seq<Option<bool>>, input: seq<T>) {
    && |lambdaVector| == |input| == |batch|
    && (forall i :: 0 <= i < |batch| ==> input[i] == batch[i].value)
    && (forall i :: 0 <= i < |batch| ==> (lambdaVector[i] == Some(true) <==> Keeps(f, batch[i])))
  }

  lemma NoneKept<T>(f: Predicate<T>, none: seq<Element<T>>)
    requires none == []
    ensures Kept(f, none) == []
  {
  }

  lemma ExtendPrefix<E>(start: seq<E>, batch: seq<E>, i: nat, all: seq<E>)
    requires start + batch <= all && i < |batch|
    ensures start + batch[..i] + [batch[i]] == start + batch[..i + 1] <= all
    ensures batch[..i + 1] == batch[..i] + [batch[i]]
  {
    assert (start + batch)[..|start| + i + 1] == start + batch[..i + 1];
  }

  /** When the lists without elements have been passed, the cursor stands at the next element. */
  lemma AtElement<T>(column: ListColumn<T>, n: nat, row: nat, k: nat, e: Element<T>)
    requires column.WellFormed() && row <= n <= |column.sel|
    requires if row == n then k == 0 else k < Length(column, row)
    requires Before(column, row, k) + [e] <= Stream(column, n)
    ensures row < n && e == Element(row, k, column.Row(row)[k])
  {
    hide Before, Stream;
    if row < n {
      NextElement(column, n, row, k, e);
    } else {
      NothingFollows(column, n, e);
    }
  }

  /** The batch under construction: selections into the child vector and the other columns, and the indexes. */
  class LambdaExecuteInfo<T> {
    var childSel: seq<nat>
    var rowSel: seq<nat>
    var indexVector: seq<nat>
    var elemCnt: nat
    const size: nat

    constructor (size: nat)
      requires size > 0
      ensures this.size == size && forall column: ListColumn<T> :: Packed(column, [])
    {
      this.size := size;
      childSel, rowSel, indexVector, elemCnt := seq(size, i => 0), seq(size, i => 0), seq(size, i => 0), 0;
    }

    ghost predicate Packed(column: ListColumn<T>, batch: seq<Element<T>>)
      reads this
    {
      && |childSel| == |rowSel| == |indexVector| == size > 0
      && elemCnt == |batch| <= size
      && (forall i :: 0 <= i < elemCnt ==>
            childSel[i] < |column.child| && indexVector[i] == batch[i].idx + 1
            && rowSel[i] == batch[i].row && column.child[childSel[i]] == batch[i].value)
    }

    method Push(offset: nat, row: nat, idx: nat, ghost column: ListColumn<T>, ghost batch: seq<Element<T>>)
      requires Packed(column, batch) && elemCnt < size && offset + idx < |column.child|
      modifies this`childSel, this`rowSel, this`indexVector, this`elemCnt
      ensures Packed(column, batch + [Element(row, idx, column.child[offset + idx])])
    {
      childSel := childSel[elemCnt := offset + idx];
      rowSel := rowSel[elemCnt := row];
      indexVector := indexVector[elemCnt := idx + 1];
      elemCnt := elemCnt + 1;
    }

    /** Runs the lambda on the batch; also returns the values it was given. */
    method ExecuteExpression<U>(f: (nat, nat, T) -> U, column: ListColumn<T>, ghost batch: seq<Element<T>>)
      returns (lambdaVector: seq<U>, input: seq<T>)
      requires Packed(column, batch)
      ensures |lambdaVector| == |input| == |batch|
      ensures forall i :: 0 <= i < |batch| ==>
        lambdaVector[i] == f(batch[i].row, batch[i].idx + 1, batch[i].value) && input[i] == batch[i].value
    {
      input := Slice(column.child, childSel[..elemCnt]);
      lambdaVector := seq(elemCnt, i requires 0 <= i < |input| && i < |rowSel| && i < |indexVector| reads this =>
                                     f(rowSel[i], indexVector[i], input[i]));
    }
  }

  /**
   Between two steps: of the elements packed so far, those before the cursor are filtered, the rest is
   in the batch.
   */
  ghost predicate Filtering<T>(info: ListFilterInfo<T>, exec: LambdaExecuteInfo<T>, column: ListColumn<T>,
                               f: Predicate<T>,
                               batch: seq<Element<T>>, packed: seq<Element<T>>)
    reads info, info.result`entries, info.result`child, exec
  {
    && info.Valid(column, f)
    && info.result.child == Kept(f, Before(column, info.rowIdx, info.srcLength))
    && exec.Packed(column, batch)
    && Before(column, info.rowIdx, info.srcLength) + batch == packed
  }

  /** The cursor does not stand in front of an empty list. */
  ghost predicate EmptiesDone<T>(info: ListFilterInfo<T>)
    reads info
  {
    info.rowIdx < |info.entryLengths| ==> info.srcLength < info.entryLengths[info.rowIdx]
  }

  /** One round through the lambda and the filter; the batch is empty afterwards. */
  method FilterBatch<T>(info: ListFilterInfo<T>, exec: LambdaExecuteInfo<T>, column: ListColumn<T>, f: Predicate<T>,
                        ghost batch: seq<Element<T>>, ghost packed: seq<Element<T>>)
    requires Filtering(info, exec, column, f, batch, packed)
    requires packed <= Stream(column, |info.entryLengths|)
    modifies info`rowIdx, info`srcLength, info`offset, info`length, info.result`entries, info.result`child, exec`elemCnt
    ensures Filtering(info, exec, column, f, [], packed) && exec.elemCnt == 0 && EmptiesDone(info)
  {
    hide Kept, Stream, RowElements, Before, Progress, ListColumn.WellFormed;
    var lambdaVector, input := exec.ExecuteExpression(f, column, batch);
    info.AppendResult(lambdaVector, input, column, f, batch);
    exec.elemCnt := 0;
  }

  /** The list of the next row starts where the previous one ended. */
  method SetResultEntry<T>(info: ListFilterInfo<T>, exec: LambdaExecuteInfo<T>, column: ListColumn<T>, f: Predicate<T>,
                           length: nat, ghost batch: seq<Element<T>>)
    requires column.WellFormed() && |info.entryLengths| < |column.sel|
    requires Filtering(info, exec, column, f, batch, Stream(column, |info.entryLengths|))
    requires length == Length(column, |info.entryLengths|)
    modifies info`entryLengths
    ensures info.entryLengths == old(info.entryLengths) + [length]
    ensures Filtering(info, exec, column, f, batch, Before(column, |old(info.entryLengths)|, 0))
  {
    hide Kept, Stream, RowElements, Before, Progress, ListColumn.WellFormed, Length;
    RowDone(column, |info.entryLengths|);
    info.entryLengths := info.entryLengths + [length];
  }

  method PushEmptyList<T>(info: ListFilterInfo<T>, exec: LambdaExecuteInfo<T>, column: ListColumn<T>, f: Predicate<T>,
                          ghost batch: seq<Element<T>>)
    requires column.WellFormed() && |info.entryLengths| < |column.sel|
    requires Filtering(info, exec, column, f, batch, Stream(column, |info.entryLengths|))
    requires Length(column, |info.entryLengths|) == 0
    modifies info`entryLengths
    ensures info.entryLengths == old(info.entryLengths) + [0]
    ensures Filtering(info, exec, column, f, batch, Stream(column, |info.entryLengths|))
  {
    hide Kept, Stream, RowElements, Before, Progress, ListColumn.WellFormed, Length;
    RowDone(column, |info.entryLengths|);
    info.entryLengths := info.entryLengths + [0];
  }

  /** A position lies within the elements of the rows up to its own. */
  lemma BeforeInStream<T>(column: ListColumn<T>, row: nat, k: nat)
    requires column.WellFormed() && row < |column.sel| && k <= Length(column, row)
    ensures Before(column, row, k) <= Stream(column, row + 1)
  {
  }

  /** When everything has been passed and no empty list is left, the cursor is behind the last row. */
  lemma AtEnd<T>(column: ListColumn<T>, row: nat, k: nat)
    requires column.WellFormed() && row <= |column.sel|
    requires if row == |column.sel| then k == 0 else k < Length(column, row)
    requires Before(column, row, k) == Stream(column, |column.sel|)
    ensures row == |column.sel|
  {
    hide Before, Stream;
    if row < |column.sel| {
      ElementInStream(column, row, k);
      StreamPrefix(column, row + 1, |column.sel|);
    }
  }

  lemma Assoc<E>(a: seq<E>, b: seq<E>, x: E)
    ensures a + b + [x] == a + (b + [x])
  {
  }

  lemma Start<T>(info: ListFilterInfo<T>, exec: LambdaExecuteInfo<T>, column: ListColumn<T>, f: Predicate<T>)
    requires column.WellFormed() && info.entryLengths == []
    requires info.length == info.offset == info.rowIdx == info.srcLength == 0
    requires |info.result.entries| == |column.sel| && info.result.child == []
    requires exec.Packed(column, [])
    ensures Filtering(info, exec, column, f, [], Stream(column, 0))
  {
    RowStart(column, 0);
    if 0 < |column.sel| {
      assert RowElements(column, 0)[..0] == [];
    }
  }

  lemma Finish<T>(info: ListFilterInfo<T>, exec: LambdaExecuteInfo<T>, column: ListColumn<T>, f: Predicate<T>)
    requires column.WellFormed() && |info.entryLengths| == |column.sel|
    requires Filtering(info, exec, column, f, [], Stream(column, |column.sel|)) && EmptiesDone(info)
    ensures |info.result.entries| == |column.sel|
    ensures forall r :: 0 <= r < |column.sel| ==> info.result.entries[r] == FilteredEntry(column, f, r)
    ensures info.result.child == Kept(f, Stream(column, |column.sel|))
  {
    hide Kept, Stream, RowElements, Before, ListColumn.WellFormed, FilteredEntry, Length;
    assert Before(column, info.rowIdx, info.srcLength) + [] == Before(column, info.rowIdx, info.srcLength);
    AtEnd(column, info.rowIdx, info.srcLength);
  }

  /** Packs the elements of one list, running the lambda whenever the batch is full. */
  method PackList<T>(info: ListFilterInfo<T>, exec: LambdaExecuteInfo<T>, column: ListColumn<T>, f: Predicate<T>,
                     row: nat, ghost before: seq<Element<T>>) returns (ghost batch: seq<Element<T>>)
    requires column.WellFormed() && |info.entryLengths| == row + 1 <= |column.sel| && column.RowIsValid(row)
    requires exec.size > 0
    requires Filtering(info, exec, column, f, before, Before(column, row, 0))
    modifies info`rowIdx, info`srcLength, info`offset, info`length, info.result`entries, info.result`child
    modifies exec`childSel, exec`rowSel, exec`indexVector, exec`elemCnt
    ensures Filtering(info, exec, column, f, batch, Stream(column, row + 1))
  {
    hide Stream, RowElements, Before, Filtering, ListColumn.WellFormed, ListFilterInfo.Valid;
    batch := before;
    var entry := column.Entry(row);
    for idx := 0 to entry.length
      invariant Filtering(info, exec, column, f, batch, Before(column, row, idx))
    {
      BeforeInStream(column, row, idx);
      if exec.elemCnt == exec.size {
        FilterBatch(info, exec, column, f, batch, Before(column, row, idx));
        batch := [];
      }
      ElementStep(column, row, idx);
      batch := PushElement(info, exec, column, f, entry.offset, row, idx, batch, Before(column, row, idx));
    }
    RowDone(column, row);
  }

  method PushElement<T>(info: ListFilterInfo<T>, exec: LambdaExecuteInfo<T>, column: ListColumn<T>, f: Predicate<T>,
                        offset: nat, row: nat, idx: nat, ghost before: seq<Element<T>>, ghost packed: seq<Element<T>>)
    returns (ghost batch: seq<Element<T>>)
    requires Filtering(info, exec, column, f, before, packed) && exec.elemCnt != exec.size
    requires offset + idx < |column.child|
    modifies exec`childSel, exec`rowSel, exec`indexVector, exec`elemCnt
    ensures Filtering(info, exec, column, f, batch, packed + [Element(row, idx, column.child[offset + idx])])
  {
    hide Stream, RowElements, Before, Progress, ListColumn.WellFormed;
    ghost var e := Element(row, idx, column.child[offset + idx]);
    Assoc(Before(column, info.rowIdx, info.srcLength), before, e);
    exec.Push(offset, row, idx, column, before);
    batch := before + [e];
  }

  /** The kept values stand at increasing places of the list: those where the lambda, counting from one, holds. */
  ghost predicate IsFilter<T>(f: Predicate<T>, row: nat, list: seq<T>, kept: seq<T>) {
    exists at: seq<nat> :: KeptAt(f, row, list, kept, at)
  }

  ghost predicate KeptAt<T>(f: Predicate<T>, row: nat, list: seq<T>, kept: seq<T>, at: seq<nat>) {
    && |at| == |kept| && (forall i, j :: 0 <= i < j < |at| ==> at[i] < at[j])
    && (forall k :: 0 <= k < |at| ==> at[k] < |list| && kept[k] == list[at[k]])
    && (forall i :: 0 <= i < |list| ==> (i in at <==> f(row, i + 1, list[i]) == Some(true)))
  }

  lemma {:induction false} KeptIsFilter<T>(column: ListColumn<T>, f: Predicate<T>, row: nat, n: nat)
    returns (at: seq<nat>)
    requires column.WellFormed() && row < |column.sel| && n <= Length(column, row)
    ensures KeptAt(f, row, column.Row(row)[..n], Kept(f, RowElements(column, row)[..n]), at)
    decreases n
  {
    hide Kept, ListColumn.WellFormed;
    var list, elements := column.Row(row), RowElements(column, row);
    if n == 0 {
      at := [];
      NoneKept(f, elements[..0]);
    } else {
      at := KeptIsFilter(column, f, row, n - 1);
      ElementStep(column, row, n - 1);
      var e := elements[n - 1];
      KeptPush(f, elements[..n - 1], e);
      KeptNext(f, row, list, n - 1, Kept(f, elements[..n - 1]), at);
      if Keeps(f, e) {
        at := at + [n - 1];
      }
    }
  }

  lemma KeptNext<T>(f: Predicate<T>, row: nat, list: seq<T>, n: nat, kept: seq<T>, at: seq<nat>)
    requires n < |list| && KeptAt(f, row, list[..n], kept, at)
    ensures if f(row, n + 1, list[n]) == Some(true) then KeptAt(f, row, list[..n + 1], kept + [list[n]], at + [n])
            else KeptAt(f, row, list[..n + 1], kept, at)
  {
    var next := list[..n + 1];
    assert forall i :: 0 <= i < n ==> next[i] == list[..n][i];
    assert next[n] == list[n];
    assert forall i :: i in at + [n] <==> i in at || i == n;
  }

  /** The entry of a row that is not NULL selects the filter of its stretch of the child vector. */
  ghost predicate RowFiltered<T>(column: ListColumn<T>, f: Predicate<T>, row: nat, entry: ListEntry, child: seq<T>)
    requires column.WellFormed() && row < |column.sel|
  {
    var e := column.entries[column.sel[row]];
    column.validity[column.sel[row]] ==>
      && entry.offset + entry.length <= |child|
      && IsFilter(f, row, column.child[e.offset..e.offset + e.length], child[entry.offset..entry.offset + entry.length])
  }

  lemma RowIsFiltered<T>(column: ListColumn<T>, f: Predicate<T>, row: nat)
    requires column.WellFormed() && row < |column.sel|
    ensures RowFiltered(column, f, row, FilteredEntry(column, f, row), Kept(f, Stream(column, |column.sel|)))
  {
    hide Kept, Stream, KeptAt;
    FilteredRow(column, f, row);
    if column.RowIsValid(row) {
      var list, elements := column.Row(row), RowElements(column, row);
      var at := KeptIsFilter(column, f, row, |list|);
      assert list[..|list|] == list && elements[..|list|] == elements;
    }
  }

  /** Packing into batches and rebuilding from them gives every row its filtered list. */
  method ListFilter<T>(column: ListColumn<T>, f: Predicate<T>, size: nat) returns (result: ListResult<T>)
    requires column.WellFormed() && size > 0
    ensures |result.entries| == |result.validity| == |column.sel|
    ensures forall r :: 0 <= r < |column.sel| ==>
      && result.validity[r] == column.validity[column.sel[r]]
      && RowFiltered(column, f, r, result.entries[r], result.child)
      && result.entries[r] == FilteredEntry(column, f, r)
    ensures result.child == Kept(f, Stream(column, |column.sel|))
  {
    hide Kept, Stream, RowElements, Before, Filtering, FilteredEntry, LambdaExecuteInfo.Packed, ListColumn.WellFormed;
    hide RowFiltered;
    result := new ListResult<T>(|column.sel|);
    var info := new ListFilterInfo<T>(result);
    var exec := new LambdaExecuteInfo<T>(size);
    ghost var batch: seq<Element<T>> := [];
    Start(info, exec, column, f);
    for row := 0 to |column.sel|
      invariant |info.entryLengths| == row
      invariant Filtering(info, exec, column, f, batch, Stream(column, row))
      invariant |result.validity| == |column.sel|
      invariant forall r :: 0 <= r < |column.sel| ==> result.validity[r] == (r < row ==> column.RowIsValid(r))
    {
      var entry := column.Entry(row);
      if !column.RowIsValid(row) {
        result.validity := result.validity[row := false];
        PushEmptyList(info, exec, column, f, batch);
      } else {
        SetResultEntry(info, exec, column, f, entry.length, batch);
        batch := PackList(info, exec, column, f, row, batch);
      }
    }
    FilterBatch(info, exec, column, f, batch, Stream(column, |column.sel|));
    Finish(info, exec, column, f);
    RowsAreFiltered(column, f);
  }

  lemma RowsAreFiltered<T>(column: ListColumn<T>, f: Predicate<T>)
    requires column.WellFormed()
    ensures forall r :: 0 <= r < |column.sel| ==>
      && (column.RowIsValid(r) <==> column.validity[column.sel[r]])
      && RowFiltered(column, f, r, FilteredEntry(column, f, r), Kept(f, Stream(column, |column.sel|)))
  {
    hide RowFiltered, FilteredEntry, Kept, Stream;
    forall r | 0 <= r < |column.sel|
      ensures column.RowIsValid(r) <==> column.validity[column.sel[r]]
      ensures RowFiltered(column, f, r, FilteredEntry(column, f, r), Kept(f, Stream(column, |column.sel|)))
    {
      RowIsFiltered(column, f, r);
    }
  }

  /** The elements of a row stand between those of the earlier and those of the later rows. */
  lemma StreamParts<T>(column: ListColumn<T>, row: nat) returns (later: seq<Element<T>>)
    requires column.WellFormed() && row < |column.sel|
    ensures Stream(column, |column.sel|) == Stream(column, row) + (RowElements(column, row) + later)
  {
    hide RowElements;
    StreamPrefix(column, row + 1, |column.sel|);
    later := Stream(column, |column.sel|)[|Stream(column, row + 1)|..];
  }

  lemma Piece<E>(a: seq<E>, b: seq<E>, c: seq<E>)
    ensures (a + (b + c))[|a|..|a| + |b|] == b
  {
  }

  /** A result entry selects the kept elements of its own row. */
  lemma FilteredRow<T>(column: ListColumn<T>, f: Predicate<T>, row: nat)
    requires column.WellFormed() && row < |column.sel|
    ensures
      var child, entry := Kept(f, Stream(column, |column.sel|)), FilteredEntry(column, f, row);
      && entry.offset + entry.length <= |child|
      && child[entry.offset..entry.offset + entry.length] == Kept(f, RowElements(column, row))
  {
    hide Keeps, Kept, Stream, RowElements;
    var later := StreamParts(column, row);
    KeptAppend(f, Stream(column, row), RowElements(column, row) + later);
    KeptAppend(f, RowElements(column, row), later);
    Piece(Kept(f, Stream(column, row)), Kept(f, RowElements(column, row)), Kept(f, later));
  }

  /** The result entries tile the child vector: no gap, no overlap, nothing left over. */
  lemma FilteredTiles<T>(column: ListColumn<T>, f: Predicate<T>)
    requires column.WellFormed()
    ensures |column.sel| > 0 ==> FilteredEntry(column, f, 0).offset == 0
    ensures forall r :: 0 < r < |column.sel| ==>
      FilteredEntry(column, f, r).offset ==
        FilteredEntry(column, f, r - 1).offset + FilteredEntry(column, f, r - 1).length
    ensures |column.sel| > 0 ==>
      var last := FilteredEntry(column, f, |column.sel| - 1);
      last.offset + last.length == |Kept(f, Stream(column, |column.sel|))|
  {
    hide Keeps, RowElements;
    forall r | 0 < r <= |column.sel|
      ensures |Kept(f, Stream(column, r))| == |Kept(f, Stream(column, r - 1))| + |Kept(f, RowElements(column, r - 1))|
    {
      KeptAppend(f, Stream(column, r - 1), RowElements(column, r - 1));
    }
  }

  /** The specification of list_transform. */
  function Mapped<T, U>(g: (nat, nat, T) -> U, elements: seq<Element<T>>): seq<U> {
    seq(|elements|, i requires 0 <= i < |elements| => g(elements[i].row, elements[i].idx + 1, elements[i].value))
  }

  function TransformedEntry<T>(column: ListColumn<T>, row: nat): ListEntry
    requires column.WellFormed() && row < |column.sel|
  {
    ListEntry(|Stream(column, row)|, Length(column, row))
  }

  /** A result entry of list_transform selects the images of its row, called with the indexes 1 to n. */
  lemma TransformedRow<T, U>(column: ListColumn<T>, g: (nat, nat, T) -> U, row: nat)
    requires column.WellFormed() && row < |column.sel|
    ensures
      var list, child, entry := column.Row(row), Mapped(g, Stream(column, |column.sel|)), TransformedEntry(column, row);
      && entry.length == |list| && entry.offset + entry.length <= |child|
      && child[entry.offset..entry.offset + entry.length] ==
        seq(|list|, i requires 0 <= i < |list| => g(row, i + 1, list[i]))
  {
    var later := StreamParts(column, row);
    MappedPiece(g, Stream(column, row), RowElements(column, row), later);
    MappedRow(column, g, row);
  }

  lemma MappedPiece<T, U>(g: (nat, nat, T) -> U, a: seq<Element<T>>, b: seq<Element<T>>, c: seq<Element<T>>)
    ensures |Mapped(g, a + (b + c))| == |a| + |b| + |c|
    ensures Mapped(g, a + (b + c))[|a|..|a| + |b|] == Mapped(g, b)
  {
    var all := a + (b + c);
    assert forall i :: 0 <= i < |b| ==> all[|a| + i] == b[i];
  }

  lemma MappedRow<T, U>(column: ListColumn<T>, g: (nat, nat, T) -> U, row: nat)
    requires column.WellFormed() && row < |column.sel|
    ensures
      var list := column.Row(row);
      Mapped(g, RowElements(column, row)) == seq(|list|, i requires 0 <= i < |list| => g(row, i + 1, list[i]))
  {
  }

  /** Between two steps: the result holds the images of all elements packed so far but those in the batch. */
  ghost predicate Transforming<T, U>(result: ListResult<U>, exec: LambdaExecuteInfo<T>, column: ListColumn<T>,
                                     g: (nat, nat, T) -> U,
                                     batch: seq<Element<T>>, packed: seq<Element<T>>)
    reads result`child, exec
  {
    exec.Packed(column, batch) && result.child + Mapped(g, batch) == Mapped(g, packed)
  }

  method TransformBatch<T, U>(result: ListResult<U>, exec: LambdaExecuteInfo<T>, column: ListColumn<T>,
                              g: (nat, nat, T) -> U,
                              ghost batch: seq<Element<T>>, ghost packed: seq<Element<T>>)
    requires Transforming(result, exec, column, g, batch, packed)
    modifies result`child, exec`elemCnt
    ensures Transforming(result, exec, column, g, [], packed) && exec.elemCnt == 0 && result.child == Mapped(g, packed)
  {
    var lambdaVector, _ := exec.ExecuteExpression(g, column, batch);
    assert lambdaVector == Mapped(g, batch);
    result.child := result.child + lambdaVector;
    exec.elemCnt := 0;
    assert result.child + [] == result.child;
  }

  lemma AppendMapped<T, U>(g: (nat, nat, T) -> U, a: seq<Element<T>>, b: seq<Element<T>>)
    ensures Mapped(g, a + b) == Mapped(g, a) + Mapped(g, b)
  {
  }

  /** Packs the elements of one list, running the lambda whenever the batch is full. */
  method TransformList<T, U>(result: ListResult<U>, exec: LambdaExecuteInfo<T>, column: ListColumn<T>,
                             g: (nat, nat, T) -> U,
                             row: nat, ghost before: seq<Element<T>>) returns (ghost batch: seq<Element<T>>)
    requires column.WellFormed() && row < |column.sel| && column.RowIsValid(row)
    requires exec.size > 0
    requires Transforming(result, exec, column, g, before, Stream(column, row))
    modifies result`child, exec`childSel, exec`rowSel, exec`indexVector, exec`elemCnt
    ensures Transforming(result, exec, column, g, batch, Stream(column, row + 1))
  {
    hide Stream, RowElements, Before, ListColumn.WellFormed, Transforming, Mapped;
    batch := before;
    var entry := column.Entry(row);
    RowDone(column, row);
    for idx := 0 to entry.length
      invariant Transforming(result, exec, column, g, batch, Before(column, row, idx))
    {
      if exec.elemCnt == exec.size {
        TransformBatch(result, exec, column, g, batch, Before(column, row, idx));
        batch := [];
      }
      ElementStep(column, row, idx);
      batch := PushTransformed(result, exec, column, g, entry.offset, row, idx, batch, Before(column, row, idx));
    }
  }

  method PushTransformed<T, U>(result: ListResult<U>, exec: LambdaExecuteInfo<T>, column: ListColumn<T>,
                               g: (nat, nat, T) -> U,
                               offset: nat, row: nat, idx: nat, ghost before: seq<Element<T>>,
                                 ghost packed: seq<Element<T>>)
    returns (ghost batch: seq<Element<T>>)
    requires Transforming(result, exec, column, g, before, packed) && exec.elemCnt != exec.size
    requires offset + idx < |column.child|
    modifies exec`childSel, exec`rowSel, exec`indexVector, exec`elemCnt
    ensures Transforming(result, exec, column, g, batch, packed + [Element(row, idx, column.child[offset + idx])])
  {
    hide Mapped;
    ghost var e := Element(row, idx, column.child[offset + idx]);
    PushTransforming(g, result.child, before, e, packed);
    exec.Push(offset, row, idx, column, before);
    batch := before + [e];
  }

  lemma PushTransforming<T, U>(g: (nat, nat, T) -> U, child: seq<U>, batch: seq<Element<T>>, e: Element<T>,
                               packed: seq<Element<T>>)
    requires child + Mapped(g, batch) == Mapped(g, packed)
    ensures child + Mapped(g, batch + [e]) == Mapped(g, packed + [e])
  {
    hide Mapped;
    AppendMapped(g, batch, [e]);
    AppendMapped(g, packed, [e]);
  }

  /** list_transform: every row that is not NULL gets the images of its elements. */
  method ListTransform<T, U>(column: ListColumn<T>, g: (nat, nat, T) -> U, size: nat) returns (result: ListResult<U>)
    requires column.WellFormed() && size > 0
    ensures |result.entries| == |result.validity| == |column.sel|
    ensures forall r :: 0 <= r < |column.sel| ==>
      && result.validity[r] == column.validity[column.sel[r]]
      && RowTransformed(column, g, r, result.entries[r], result.child)
      && (column.RowIsValid(r) ==> result.entries[r] == TransformedEntry(column, r))
    ensures result.child == Mapped(g, Stream(column, |column.sel|))
  {
    hide RowElements, Before, Transforming, LambdaExecuteInfo.Packed, ListColumn.WellFormed, Mapped, RowTransformed;
    result := new ListResult<U>(|column.sel|);
    var exec := new LambdaExecuteInfo<T>(size);
    ghost var batch: seq<Element<T>> := [];
    NothingTransformed(result, exec, column, g);
    var offset := 0;
    for row := 0 to |column.sel|
      invariant Transforming(result, exec, column, g, batch, Stream(column, row))
      invariant offset == |Stream(column, row)|
      invariant |result.entries| == |result.validity| == |column.sel|
      invariant forall r :: 0 <= r < |column.sel| ==> result.validity[r] == (r < row ==> column.RowIsValid(r))
      invariant forall r :: 0 <= r < row && column.RowIsValid(r) ==> result.entries[r] == TransformedEntry(column, r)
    {
      StreamLength(column, row);
      var entry := column.Entry(row);
      if !column.RowIsValid(row) {
        result.validity := result.validity[row := false];
      } else {
        result.entries := result.entries[row := ListEntry(offset, entry.length)];
        offset := offset + entry.length;
        batch := TransformList(result, exec, column, g, row, batch);
      }
    }
    TransformBatch(result, exec, column, g, batch, Stream(column, |column.sel|));
    RowsAreTransformed(column, g);
  }

  /** The entry of a row that is not NULL selects the images of its stretch of the child vector. */
  ghost predicate RowTransformed<T, U>(column: ListColumn<T>, g: (nat, nat, T) -> U, row: nat,
                                       entry: ListEntry, child: seq<U>)
    requires column.WellFormed() && row < |column.sel|
  {
    var e := column.entries[column.sel[row]];
    column.validity[column.sel[row]] ==>
      && entry.length == e.length && entry.offset + entry.length <= |child|
      && var list, images := column.child[e.offset..e.offset + e.length], child[entry.offset..entry.offset + e.length];
         forall i :: 0 <= i < |list| ==> images[i] == g(row, i + 1, list[i])
  }

  lemma RowsAreTransformed<T, U>(column: ListColumn<T>, g: (nat, nat, T) -> U)
    requires column.WellFormed()
    ensures forall r :: 0 <= r < |column.sel| ==>
      && (column.RowIsValid(r) <==> column.validity[column.sel[r]])
      && (column.RowIsValid(r) ==>
            RowTransformed(column, g, r, TransformedEntry(column, r), Mapped(g, Stream(column, |column.sel|))))
      && (!column.RowIsValid(r) ==>
            forall entry :: RowTransformed(column, g, r, entry, Mapped(g, Stream(column, |column.sel|))))
  {
    hide TransformedEntry, Mapped, Stream;
    forall r | 0 <= r < |column.sel| && column.RowIsValid(r)
      ensures RowTransformed(column, g, r, TransformedEntry(column, r), Mapped(g, Stream(column, |column.sel|)))
    {
      RowIsTransformed(column, g, r);
    }
  }

  lemma RowIsTransformed<T, U>(column: ListColumn<T>, g: (nat, nat, T) -> U, row: nat)
    requires column.WellFormed() && row < |column.sel| && column.RowIsValid(row)
    ensures RowTransformed(column, g, row, TransformedEntry(column, row), Mapped(g, Stream(column, |column.sel|)))
  {
    hide TransformedEntry, Mapped, Stream;
    TransformedRow(column, g, row);
  }

  lemma NothingTransformed<T, U>(result: ListResult<U>, exec: LambdaExecuteInfo<T>, column: ListColumn<T>,
                                 g: (nat, nat, T) -> U)
    requires column.WellFormed() && exec.Packed(column, []) && result.child == []
    ensures Transforming(result, exec, column, g, [], Stream(column, 0))
  {
  }

  lemma StreamLength<T>(column: ListColumn<T>, row: nat)
    requires column.WellFormed() && row < |column.sel|
    ensures |Stream(column, row + 1)| == |Stream(column, row)| + Length(column, row)
    ensures Length(column, row) == if column.RowIsValid(row) then column.Entry(row).length else 0
    ensures Length(column, row) == 0 ==> Stream(column, row + 1) == Stream(column, row)
  {
  }
}
