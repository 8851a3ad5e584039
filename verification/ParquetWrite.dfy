/**
 Writing a Parquet file with several threads. Each thread buffers rows and writes a row group when
 its buffer is large enough; what is left at the end is merged through one shared buffer. The row
 group is prepared and written outside the lock of the shared buffer, so that other threads take
 their steps between the decision to flush and the write.
 */
module ParquetWrite {
  import opened Basics

  /** The row limit of a row group and the largest chunk that arrives at once. */
  datatype Config = Config(rowGroupSize: nat, vectorSize: nat)

  /** Rows that go to the file with the next write. An empty buffer is not written. */
  function Flushed<R>(rows: seq<R>): Option<seq<R>> {
    if rows == [] then None else Some(rows)
  }

  function Held<R>(o: Option<seq<R>>): seq<R> {
    match o case None => [] case Some(rows) => rows
  }

  // ---------------------------------------------------------------- the three operations

  /** The shared state: the combine buffer and the row groups of the file. */
  class ParquetWriteGlobalState<R> {
    var combineBuffer: Option<seq<R>>
    var rowGroups: seq<seq<R>>

    constructor ()
      ensures combineBuffer == None && rowGroups == []
    {
      combineBuffer, rowGroups := None, [];
    }

    /** Writes a row group that has been prepared. */
    method FlushRowGroup(rows: seq<R>)
      modifies this`rowGroups
      ensures rowGroups == old(rowGroups) + [rows]
    {
      rowGroups := rowGroups + [rows];
    }

    /** Under the lock: merges a small buffer into the shared one; gives back what is to be flushed. */
    method CombineBuffer(config: Config, buffer: seq<R>, bytes: bool) returns (owned: Option<seq<R>>)
      modifies this`combineBuffer
      ensures (combineBuffer, owned) == Merge(config, old(combineBuffer), buffer, bytes)
      ensures Held(owned) + Held(combineBuffer) == Held(old(combineBuffer)) + buffer
      ensures combineBuffer.None? <==>
        old(combineBuffer).Some? && (|old(combineBuffer).value| + |buffer| >= config.rowGroupSize / 2 || bytes)
      ensures owned.Some? ==> combineBuffer.None? && owned.value != []
    {
      owned := None;
      if combineBuffer.Some? {
        combineBuffer := Some(combineBuffer.value + buffer);
        if |combineBuffer.value| >= config.rowGroupSize / 2 || bytes {
          owned := Flushed(combineBuffer.value);
          combineBuffer := None;
        }
        return;
      }
      combineBuffer := Some(buffer);
    }

    method Finalize()
      modifies this
      ensures combineBuffer == None && rowGroups == old(rowGroups) + Groups(Flushed(Held(old(combineBuffer))))
      ensures rowGroups == if Held(old(combineBuffer)) == [] then old(rowGroups)
                           else old(rowGroups) + [old(combineBuffer).value]
    {
      if combineBuffer.Some? {
        if combineBuffer.value != [] {
          FlushRowGroup(combineBuffer.value);
        }
        combineBuffer := None;
      }
    }
  }

  function Groups<R>(o: Option<seq<R>>): seq<seq<R>> {
    match o case None => [] case Some(rows) => [rows]
  }

  function Merge<R>(config: Config, shared: Option<seq<R>>, buffer: seq<R>,
                    bytes: bool): (Option<seq<R>>, Option<seq<R>>) {
    match shared
    case None => (Some(buffer), None)
    case Some(rows) =>
      if |rows + buffer| >= config.rowGroupSize / 2 || bytes then (None, Flushed(rows + buffer))
      else (Some(rows + buffer), None)
  }

  /** The buffer of a thread, and the row group it has prepared but not yet written. */
  class ParquetWriteLocalState<R> {
    var buffer: seq<R>
    var prepared: Option<seq<R>>

    constructor ()
      ensures buffer == [] && prepared == None
    {
      buffer, prepared := [], None;
    }

    method Sink(config: Config, input: seq<R>, bytes: bool)
      requires prepared == None
      modifies this
      ensures (buffer, prepared) == Append(config, old(buffer), input, bytes)
      ensures Held(prepared) + buffer == old(buffer) + input
      ensures prepared.Some? <==>
        old(buffer) + input != [] && (|old(buffer)| + |input| >= config.rowGroupSize || bytes)
      ensures prepared.Some? ==> buffer == []
    {
      buffer := buffer + input;
      if |buffer| >= config.rowGroupSize || bytes {
        prepared := Flushed(buffer);
        buffer := [];
      }
    }

    method Combine(global: ParquetWriteGlobalState<R>, config: Config, bytes: bool, sharedBytes: bool)
      requires prepared == None
      modifies this, global`combineBuffer
      ensures buffer == []
      ensures (global.combineBuffer, prepared) ==
        Leave(config, old(global.combineBuffer), old(buffer), bytes, sharedBytes)
      ensures |old(buffer)| >= config.rowGroupSize / 2 || bytes ==>
        global.combineBuffer == old(global.combineBuffer) && Held(prepared) == old(buffer)
      ensures |old(buffer)| < config.rowGroupSize / 2 && !bytes ==>
        && Held(prepared) + Held(global.combineBuffer) == Held(old(global.combineBuffer)) + old(buffer)
        && (global.combineBuffer.None? <==>
              && old(global.combineBuffer).Some?
              && (|old(global.combineBuffer).value| + |old(buffer)| >= config.rowGroupSize / 2 || sharedBytes))
        && (prepared.Some? ==> global.combineBuffer.None?)
    {
      if |buffer| >= config.rowGroupSize / 2 || bytes {
        prepared := Flushed(buffer);
        buffer := [];
        return;
      }
      prepared := global.CombineBuffer(config, buffer, sharedBytes);
      buffer := [];
    }

    /** The second half of a flush. */
    method Write(global: ParquetWriteGlobalState<R>)
      requires prepared.Some?
      modifies this`prepared, global`rowGroups
      ensures prepared == None && global.rowGroups == old(global.rowGroups) + [old(prepared).value]
    {
      global.FlushRowGroup(prepared.value);
      prepared := None;
    }
  }

  function Append<R>(config: Config, buffer: seq<R>, input: seq<R>, bytes: bool): (seq<R>, Option<seq<R>>) {
    if |buffer + input| >= config.rowGroupSize || bytes then ([], Flushed(buffer + input)) else (buffer + input, None)
  }

  function Leave<R>(config: Config, shared: Option<seq<R>>, buffer: seq<R>, bytes: bool,
                    sharedBytes: bool): (Option<seq<R>>, Option<seq<R>>) {
    if |buffer| >= config.rowGroupSize / 2 || bytes then (shared, Flushed(buffer))
    else Merge(config, shared, buffer, sharedBytes)
  }

  // ---------------------------------------------------------------- threads

  /** A thread: the chunks it will still get, its buffers, and whether it has handed over the rest. */
  datatype Thread<R> = Thread(input: seq<seq<R>>, buffer: seq<R>, prepared: Option<seq<R>>, combined: bool)

  /** The state of all threads and the file; tail counts the row groups that Finalize has written. */
  datatype State<R> = State(threads: seq<Thread<R>>, combineBuffer: Option<seq<R>>, rowGroups: seq<seq<R>>,
                            finalized: bool, tail: nat)

  /** A flag says whether the byte limit was met when it was looked at. */
  datatype Action =
    | Sink(t: nat, bytes: bool)
    | Write(t: nat)
    | Combine(t: nat, bytes: bool, sharedBytes: bool)
    | Finalize

  predicate Enabled<R>(s: State<R>, a: Action) {
    && !s.finalized
    && match a
       case Sink(t, _) => t < |s.threads| && s.threads[t].prepared.None? && s.threads[t].input != []
       case Write(t) => t < |s.threads| && s.threads[t].prepared.Some?
       case Combine(t, _, _) =>
         t < |s.threads| && s.threads[t].prepared.None? && s.threads[t].input == [] && !s.threads[t].combined
       case Finalize => forall t :: 0 <= t < |s.threads| ==> s.threads[t].combined && s.threads[t].prepared.None?
  }

  function Step<R>(config: Config, s: State<R>, a: Action): State<R>
    requires Enabled(s, a)
  {
    match a
    case Sink(t, bytes) =>
      var thread := s.threads[t];
      var (buffer, prepared) := Append(config, thread.buffer, thread.input[0], bytes);
      s.(threads := s.threads[t := thread.(input := thread.input[1..], buffer := buffer, prepared := prepared)])
    case Write(t) =>
      var thread := s.threads[t];
      s.(threads := s.threads[t := thread.(prepared := None)], rowGroups := s.rowGroups + [thread.prepared.value])
    case Combine(t, bytes, sharedBytes) =>
      var thread := s.threads[t];
      var (shared, prepared) := Leave(config, s.combineBuffer, thread.buffer, bytes, sharedBytes);
      s.(threads := s.threads[t := thread.(buffer := [], prepared := prepared, combined := true)],
        combineBuffer := shared)
    case Finalize =>
      s.(combineBuffer := None, rowGroups := s.rowGroups + Groups(Flushed(Held(s.combineBuffer))), finalized := true,
        tail := |Groups(Flushed(Held(s.combineBuffer)))|)
  }

  function Initial<R>(inputs: seq<seq<seq<R>>>): State<R> {
    State(seq(|inputs|, t requires 0 <= t < |inputs| => Thread(inputs[t], [], None, false)), None, [], false, 0)
  }

  predicate Possible<R>(config: Config, s: State<R>, actions: seq<Action>)
    decreases |actions|
  {
    actions != [] ==> Enabled(s, actions[0]) && Possible(config, Step(config, s, actions[0]), actions[1..])
  }

  function Run<R>(config: Config, s: State<R>, actions: seq<Action>): State<R>
    requires Possible(config, s, actions)
    decreases |actions|
  {
    if actions == [] then s else Run(config, Step(config, s, actions[0]), actions[1..])
  }

  // ---------------------------------------------------------------- every row exactly once

  function ThreadRows<R(==)>(thread: Thread<R>): multiset<R> {
    multiset(Concat(thread.input)) + multiset(thread.buffer) + multiset(Held(thread.prepared))
  }

  function AllThreadRows<R(==)>(threads: seq<Thread<R>>): multiset<R> {
    if threads == [] then multiset{} else AllThreadRows(threads[..|threads| - 1]) + ThreadRows(threads[|threads| - 1])
  }

  /** All rows, wherever they are. */
  function Rows<R(==)>(s: State<R>): multiset<R> {
    AllThreadRows(s.threads) + multiset(Held(s.combineBuffer)) + multiset(Concat(s.rowGroups))
  }

  lemma Exchange<R>(a: multiset<R>, b: multiset<R>, c: multiset<R>, d: multiset<R>, more: multiset<R>)
    requires a + b == c + d
    ensures a + more + b == c + more + d
  {
    assert a + more + b == (a + b) + more;
    assert c + more + d == (c + d) + more;
  }

  lemma Move<R>(after: multiset<R>, before: multiset<R>, same: multiset<R>, moved: multiset<R>)
    requires after + (same + moved) == before + same
    ensures after + moved == before
  {
    forall e ensures (after + moved)[e] == before[e] {
      assert (after + (same + moved))[e] == (before + same)[e];
    }
  }

  lemma Trade<R>(after: multiset<R>, before: multiset<R>, h': multiset<R>, h: multiset<R>, same: multiset<R>,
                 buffer: multiset<R>, prepared: multiset<R>)
    requires after + (same + buffer) == before + (same + prepared)
    requires h' + prepared == h + buffer
    ensures after + h' == before + h
  {
    forall e ensures (after + h')[e] == (before + h)[e] {
      assert (after + (same + buffer))[e] == (before + (same + prepared))[e];
      assert (h' + prepared)[e] == (h + buffer)[e];
    }
  }

  lemma {:induction false} SetThread<R>(threads: seq<Thread<R>>, t: nat, thread: Thread<R>)
    requires t < |threads|
    ensures AllThreadRows(threads[t := thread]) + ThreadRows(threads[t]) == AllThreadRows(threads) + ThreadRows(thread)
  {
    hide ThreadRows;
    var init := threads[..|threads| - 1];
    if t == |threads| - 1 {
      assert threads[t := thread][..|threads| - 1] == init;
    } else {
      SetThread(init, t, thread);
      var changed := threads[t := thread];
      assert changed[..|threads| - 1] == init[t := thread] && changed[|threads| - 1] == threads[|threads| - 1];
      Exchange(AllThreadRows(init[t := thread]), ThreadRows(threads[t]), AllThreadRows(init), ThreadRows(thread),
        ThreadRows(threads[|threads| - 1]));
    }
  }

  lemma PushGroup<R>(groups: seq<seq<R>>, group: seq<R>)
    ensures multiset(Concat(groups + [group])) == multiset(Concat(groups)) + multiset(group)
  {
    hide Concat;
    ConcatPush(groups, group);
  }

  lemma LeaveKeepsRows<R>(config: Config, shared: Option<seq<R>>, buffer: seq<R>, bytes: bool, sharedBytes: bool)
    ensures
      var (after, prepared) := Leave(config, shared, buffer, bytes, sharedBytes);
      multiset(Held(after)) + multiset(Held(prepared)) == multiset(Held(shared)) + multiset(buffer)
  {
  }

  lemma AppendKeepsRows<R>(config: Config, buffer: seq<R>, input: seq<R>, bytes: bool)
    ensures
      var (after, prepared) := Append(config, buffer, input, bytes);
      multiset(after) + multiset(Held(prepared)) == multiset(buffer) + multiset(input)
  {
  }

  lemma SinkKeepsThreadRows<R>(config: Config, s: State<R>, t: nat, bytes: bool)
    requires Enabled(s, Sink(t, bytes))
    ensures ThreadRows(Step(config, s, Sink(t, bytes)).threads[t]) == ThreadRows(s.threads[t])
  {
    hide Append;
    var thread, after := s.threads[t], Step(config, s, Sink(t, bytes)).threads[t];
    AppendKeepsRows(config, thread.buffer, thread.input[0], bytes);
    assert multiset(Concat(thread.input)) == multiset(thread.input[0]) + multiset(Concat(thread.input[1..]));
    assert multiset(after.buffer) + multiset(Held(after.prepared)) ==
      multiset(thread.buffer) + multiset(thread.input[0]);
    assert ThreadRows(after) == multiset(Concat(thread.input[1..]))
      + (multiset(after.buffer) + multiset(Held(after.prepared)));
  }

  lemma CombineKeepsRows<R>(config: Config, s: State<R>, t: nat, bytes: bool, sharedBytes: bool)
    requires Enabled(s, Combine(t, bytes, sharedBytes))
    ensures
      var after := Step(config, s, Combine(t, bytes, sharedBytes));
      AllThreadRows(after.threads) + multiset(Held(after.combineBuffer)) ==
        AllThreadRows(s.threads) + multiset(Held(s.combineBuffer))
  {
    hide AllThreadRows, Concat, Leave;
    var after := Step(config, s, Combine(t, bytes, sharedBytes));
    var was, now := s.threads[t], after.threads[t];
    LeaveKeepsRows(config, s.combineBuffer, was.buffer, bytes, sharedBytes);
    SetThread(s.threads, t, now);
    var same := multiset(Concat(was.input));
    assert ThreadRows(was) == same + multiset(was.buffer);
    assert ThreadRows(now) == same + multiset(Held(now.prepared));
    Trade(AllThreadRows(after.threads), AllThreadRows(s.threads), multiset(Held(after.combineBuffer)),
      multiset(Held(s.combineBuffer)),
          same, multiset(was.buffer), multiset(Held(now.prepared)));
  }

  lemma WriteKeepsRows<R>(config: Config, s: State<R>, t: nat)
    requires Enabled(s, Write(t))
    ensures
      var after := Step(config, s, Write(t));
      AllThreadRows(after.threads) + multiset(Concat(after.rowGroups)) ==
        AllThreadRows(s.threads) + multiset(Concat(s.rowGroups))
  {
    hide AllThreadRows, Concat;
    var after := Step(config, s, Write(t));
    var was, group := s.threads[t], s.threads[t].prepared.value;
    SetThread(s.threads, t, after.threads[t]);
    PushGroup(s.rowGroups, group);
    Move(AllThreadRows(after.threads), AllThreadRows(s.threads), multiset(Concat(was.input)) + multiset(was.buffer),
      multiset(group));
  }

  /** No operation loses or doubles a row. */
  lemma StepKeepsRows<R>(config: Config, s: State<R>, a: Action)
    requires Enabled(s, a)
    ensures Rows(Step(config, s, a)) == Rows(s)
  {
    hide AllThreadRows, ThreadRows, Concat, Leave, Append;
    var after := Step(config, s, a);
    match a
    case Sink(t, bytes) =>
      SinkKeepsThreadRows(config, s, t, bytes);
      SetThread(s.threads, t, after.threads[t]);
      Move(AllThreadRows(after.threads), AllThreadRows(s.threads), ThreadRows(s.threads[t]), multiset{});
    case Write(t) =>
      WriteKeepsRows(config, s, t);
      Exchange(AllThreadRows(after.threads), multiset(Concat(after.rowGroups)), AllThreadRows(s.threads),
        multiset(Concat(s.rowGroups)),
               multiset(Held(s.combineBuffer)));
    case Combine(t, bytes, sharedBytes) =>
      CombineKeepsRows(config, s, t, bytes, sharedBytes);
    case Finalize =>
      if Held(s.combineBuffer) != [] {
        PushGroup(s.rowGroups, Held(s.combineBuffer));
      } else {
        assert s.rowGroups + [] == s.rowGroups;
      }
  }

  lemma {:induction false} RunKeepsRows<R>(config: Config, s: State<R>, actions: seq<Action>)
    requires Possible(config, s, actions)
    ensures Rows(Run(config, s, actions)) == Rows(s)
    decreases |actions|
  {
    hide Rows, Step, Enabled;
    if actions != [] {
      StepKeepsRows(config, s, actions[0]);
      RunKeepsRows(config, Step(config, s, actions[0]), actions[1..]);
    }
  }

  /** All rows that the threads are given. */
  function InputRows<R(==)>(inputs: seq<seq<seq<R>>>): multiset<R> {
    if inputs == [] then multiset{} else InputRows(inputs[..|inputs| - 1]) + multiset(Concat(inputs[|inputs| - 1]))
  }

  lemma {:induction false} InitialRows<R>(inputs: seq<seq<seq<R>>>)
    ensures Rows(Initial(inputs)) == InputRows(inputs)
    decreases |inputs|
  {
    hide Concat;
    NoChunks<R>();
    if inputs != [] {
      var init := inputs[..|inputs| - 1];
      InitialRows(init);
      assert Initial(inputs).threads[..|inputs| - 1] == Initial(init).threads;
    }
  }

  lemma NoChunks<R>()
    ensures Concat<R>([]) == []
  {
  }

  // ---------------------------------------------------------------- the size of row groups

  predicate SmallChunks<R>(config: Config, chunks: seq<seq<R>>) {
    forall c :: 0 <= c < |chunks| ==> |chunks[c]| <= config.vectorSize
  }

  /** What the threads know about sizes between their steps. */
  predicate ThreadInv<R>(config: Config, thread: Thread<R>) {
    && SmallChunks(config, thread.input)
    && |thread.buffer| < config.rowGroupSize
    && (thread.prepared.Some? ==> GroupFits(config, thread.prepared.value))
    && (thread.combined ==> thread.input == [] && thread.buffer == [])
  }

  predicate GroupFits<R>(config: Config, group: seq<R>) {
    0 < |group| < config.rowGroupSize + config.vectorSize
  }

  predicate Inv<R>(config: Config, s: State<R>) {
    && (forall t :: 0 <= t < |s.threads| ==> ThreadInv(config, s.threads[t]))
    && (s.combineBuffer.Some? ==> s.combineBuffer.value == [] || |s.combineBuffer.value| < config.rowGroupSize / 2)
    && (forall g :: 0 <= g < |s.rowGroups| ==> GroupFits(config, s.rowGroups[g]))
    && (s.finalized ==> s.combineBuffer == None && forall t :: 0 <= t < |s.threads| ==>
         s.threads[t].combined && s.threads[t].prepared.None?)
  }

  lemma LeaveFits<R>(config: Config, shared: Option<seq<R>>, buffer: seq<R>, bytes: bool, sharedBytes: bool)
    requires |buffer| < config.rowGroupSize && config.vectorSize > 0
    requires shared.Some? ==> shared.value == [] || |shared.value| < config.rowGroupSize / 2
    ensures
      var (after, prepared) := Leave(config, shared, buffer, bytes, sharedBytes);
      && (after.Some? ==> after.value == [] || |after.value| < config.rowGroupSize / 2)
      && (prepared.Some? ==> GroupFits(config, prepared.value))
      && (prepared.Some? && !bytes && !sharedBytes ==> |prepared.value| >= config.rowGroupSize / 2)
  {
  }

  lemma AppendFits<R>(config: Config, buffer: seq<R>, input: seq<R>, bytes: bool)
    requires |buffer| < config.rowGroupSize && |input| <= config.vectorSize && config.vectorSize > 0
    ensures
      var (after, prepared) := Append(config, buffer, input, bytes);
      && |after| < config.rowGroupSize
      && (prepared.Some? ==> GroupFits(config, prepared.value))
      && (prepared.Some? && !bytes ==> |prepared.value| >= config.rowGroupSize / 2)
  {
  }

  lemma StepKeepsInv<R>(config: Config, s: State<R>, a: Action)
    requires Inv(config, s) && Enabled(s, a) && config.rowGroupSize > 0 && config.vectorSize > 0
    ensures Inv(config, Step(config, s, a))
  {
    hide Leave, Append;
    match a
    case Sink(t, bytes) =>
      assert ThreadInv(config, s.threads[t]);
      AppendFits(config, s.threads[t].buffer, s.threads[t].input[0], bytes);
    case Combine(t, bytes, sharedBytes) =>
      assert ThreadInv(config, s.threads[t]);
      LeaveFits(config, s.combineBuffer, s.threads[t].buffer, bytes, sharedBytes);
    case Write(t) =>
      assert ThreadInv(config, s.threads[t]);
    case Finalize =>
  }

  lemma InitialInv<R>(config: Config, inputs: seq<seq<seq<R>>>)
    requires config.rowGroupSize > 0 && forall t :: 0 <= t < |inputs| ==> SmallChunks(config, inputs[t])
    ensures Inv(config, Initial(inputs))
  {
  }

  lemma {:induction false} RunKeepsInv<R>(config: Config, s: State<R>, actions: seq<Action>)
    requires Inv(config, s) && Possible(config, s, actions) && config.rowGroupSize > 0 && config.vectorSize > 0
    ensures Inv(config, Run(config, s, actions))
    decreases |actions|
  {
    hide Inv, Step, Enabled;
    if actions != [] {
      StepKeepsInv(config, s, actions[0]);
      RunKeepsInv(config, Step(config, s, actions[0]), actions[1..]);
    }
  }

  lemma {:induction false} DoneThreads<R>(threads: seq<Thread<R>>)
    requires forall t :: 0 <= t < |threads| ==>
      threads[t].input == [] && threads[t].buffer == [] && threads[t].prepared.None?
    ensures AllThreadRows(threads) == multiset{}
  {
    if threads != [] {
      DoneThreads(threads[..|threads| - 1]);
    }
  }

  /**
   Every run that is finalized has written every row it was given exactly once, in row groups that
   are not empty and smaller than the row limit plus one chunk, whatever the order of the steps.
   */
  lemma ExactlyOnce<R>(config: Config, inputs: seq<seq<seq<R>>>, actions: seq<Action>)
    requires config.rowGroupSize > 0 && config.vectorSize > 0
    requires forall t :: 0 <= t < |inputs| ==> SmallChunks(config, inputs[t])
    requires Possible(config, Initial(inputs), actions) && Run(config, Initial(inputs), actions).finalized
    ensures
      var groups := Run(config, Initial(inputs), actions).rowGroups;
      && multiset(Concat(groups)) == InputRows(inputs)
      && forall g :: 0 <= g < |groups| ==> 0 < |groups[g]| < config.rowGroupSize + config.vectorSize
  {
    hide Concat, AllThreadRows, Run, Initial, Possible;
    var end := Run(config, Initial(inputs), actions);
    InitialInv(config, inputs);
    RunKeepsInv(config, Initial(inputs), actions);
    InitialRows(inputs);
    RunKeepsRows(config, Initial(inputs), actions);
    DoneThreads(end.threads);
  }

  // ---------------------------------------------------------------- only the row limit

  predicate RowsOnly(a: Action) {
    match a
    case Sink(_, bytes) => !bytes
    case Combine(_, bytes, sharedBytes) => !bytes && !sharedBytes
    case _ => true
  }

  predicate BigEnough<R>(config: Config, group: seq<R>) {
    |group| >= config.rowGroupSize / 2
  }

  /** Row groups reach half the limit, those that are prepared as well as those that are written. */
  predicate BigInv<R>(config: Config, s: State<R>) {
    && (s.finalized || s.tail == 0) && s.tail <= 1 && s.tail <= |s.rowGroups|
    && (forall t :: 0 <= t < |s.threads| && s.threads[t].prepared.Some? ==>
         BigEnough(config, s.threads[t].prepared.value))
    && (forall g :: 0 <= g < |s.rowGroups| - s.tail ==> BigEnough(config, s.rowGroups[g]))
  }

  lemma StepKeepsBig<R>(config: Config, s: State<R>, a: Action)
    requires Inv(config, s) && BigInv(config, s) && Enabled(s, a) && RowsOnly(a)
    requires config.rowGroupSize > 0 && config.vectorSize > 0
    ensures BigInv(config, Step(config, s, a))
  {
    hide Leave, Append;
    match a
    case Sink(t, bytes) =>
      assert ThreadInv(config, s.threads[t]);
      AppendFits(config, s.threads[t].buffer, s.threads[t].input[0], bytes);
    case Combine(t, bytes, sharedBytes) =>
      assert ThreadInv(config, s.threads[t]);
      LeaveFits(config, s.combineBuffer, s.threads[t].buffer, bytes, sharedBytes);
    case Write(t) =>
    case Finalize =>
  }

  /** If the byte limit never counts, only the row group that Finalize writes, the last one, may be small. */
  lemma {:induction false} RunKeepsBig<R>(config: Config, s: State<R>, actions: seq<Action>)
    requires Inv(config, s) && BigInv(config, s) && Possible(config, s, actions)
    requires config.rowGroupSize > 0 && config.vectorSize > 0
    requires forall i :: 0 <= i < |actions| ==> RowsOnly(actions[i])
    ensures BigInv(config, Run(config, s, actions))
    decreases |actions|
  {
    hide Inv, BigInv, Step, Enabled, RowsOnly;
    if actions != [] {
      StepKeepsInv(config, s, actions[0]);
      StepKeepsBig(config, s, actions[0]);
      RunKeepsBig(config, Step(config, s, actions[0]), actions[1..]);
    }
  }

  lemma OnlyTheTailIsSmall<R>(config: Config, inputs: seq<seq<seq<R>>>, actions: seq<Action>)
    requires config.rowGroupSize > 0 && config.vectorSize > 0
    requires forall t :: 0 <= t < |inputs| ==> SmallChunks(config, inputs[t])
    requires Possible(config, Initial(inputs), actions) && forall i :: 0 <= i < |actions| ==> RowsOnly(actions[i])
    ensures
      var end := Run(config, Initial(inputs), actions);
      && end.tail <= 1 && (!end.finalized ==> end.tail == 0)
      && forall g :: 0 <= g < |end.rowGroups| - end.tail ==> BigEnough(config, end.rowGroups[g])
  {
    InitialInv(config, inputs);
    RunKeepsBig(config, Initial(inputs), actions);
  }

  // ---------------------------------------------------------------- progress

  /** While the file is not finalized some step can be taken: no thread waits for another one. */
  lemma Progress<R>(s: State<R>) returns (a: Action)
    requires !s.finalized
    ensures Enabled(s, a)
  {
    if t :| 0 <= t < |s.threads| && s.threads[t].prepared.Some? {
      a := Write(t);
    } else if t :| 0 <= t < |s.threads| && s.threads[t].input != [] {
      a := Sink(t, false);
    } else if t :| 0 <= t < |s.threads| && !s.threads[t].combined {
      a := Combine(t, false, false);
    } else {
      a := Finalize;
    }
  }

  function ThreadWork<R>(thread: Thread<R>): nat {
    2 * |thread.input| + (if thread.prepared.Some? then 1 else 0) + (if thread.combined then 0 else 2)
  }

  function AllWork<R>(threads: seq<Thread<R>>): nat {
    if threads == [] then 0 else AllWork(threads[..|threads| - 1]) + ThreadWork(threads[|threads| - 1])
  }

  lemma {:induction false} SetThreadWork<R>(threads: seq<Thread<R>>, t: nat, thread: Thread<R>)
    requires t < |threads|
    ensures AllWork(threads[t := thread]) + ThreadWork(threads[t]) == AllWork(threads) + ThreadWork(thread)
  {
    hide ThreadWork;
    var init := threads[..|threads| - 1];
    if t == |threads| - 1 {
      assert threads[t := thread][..|threads| - 1] == init;
    } else {
      SetThreadWork(init, t, thread);
      assert threads[t := thread][..|threads| - 1] == init[t := thread];
    }
  }

  function Work<R>(s: State<R>): nat {
    AllWork(s.threads) + if s.finalized then 0 else 1
  }

  /** Every step is one of finitely many. */
  lemma StepDecreases<R>(config: Config, s: State<R>, a: Action)
    requires Enabled(s, a)
    ensures Work(Step(config, s, a)) < Work(s)
  {
    hide AllWork;
    match a
    case Finalize =>
    case Sink(t, _) => SetThreadWork(s.threads, t, Step(config, s, a).threads[t]);
    case Write(t) => SetThreadWork(s.threads, t, Step(config, s, a).threads[t]);
    case Combine(t, _, _) => SetThreadWork(s.threads, t, Step(config, s, a).threads[t]);
  }

  // ---------------------------------------------------------------- the order of each thread

  /** The rows of one owner. */
  function Of<R>(own: R -> nat, t: nat, rows: seq<R>): seq<R> {
    if rows == [] then [] else OfOne(own, t, rows[0]) + Of(own, t, rows[1..])
  }

  function OfOne<R>(own: R -> nat, t: nat, row: R): seq<R> {
    if own(row) == t then [row] else []
  }

  lemma {:induction false} OfAppend<R>(own: R -> nat, t: nat, a: seq<R>, b: seq<R>)
    ensures Of(own, t, a + b) == Of(own, t, a) + Of(own, t, b)
  {
    hide OfOne;
    if a == [] {
      assert a + b == b;
    } else {
      assert (a + b)[1..] == a[1..] + b && (a + b)[0] == a[0];
      OfAppend(own, t, a[1..], b);
      Regroup(OfOne(own, t, a[0]), Of(own, t, a[1..]), Of(own, t, b));
    }
  }

  predicate AllOf<R>(own: R -> nat, t: nat, rows: seq<R>) {
    forall i :: 0 <= i < |rows| ==> own(rows[i]) == t
  }

  lemma {:induction false} OfOwn<R>(own: R -> nat, t: nat, u: nat, rows: seq<R>)
    requires AllOf(own, t, rows)
    ensures Of(own, u, rows) == if u == t then rows else []
  {
    if rows != [] {
      OfOwn(own, t, u, rows[1..]);
    }
  }

  /** Rows outside the buffers of their threads: prepared by a thread, or, behind all threads, in the shared buffer. */
  function Place<R>(s: State<R>, p: nat): seq<R>
    requires p <= |s.threads|
  {
    if p < |s.threads| then Held(s.threads[p].prepared) else Held(s.combineBuffer)
  }

  /**
   The rows of a thread, in order: those in the file, those in a single place w, and those that it still
   has. Before it has handed over its rest, that place is its own.
   */
  ghost predicate InOrder<R>(own: R -> nat, rows: seq<R>, s: State<R>, t: nat, w: nat) {
    && t < |s.threads| && w <= |s.threads|
    && (forall p :: 0 <= p <= |s.threads| && p != w ==> Of(own, t, Place(s, p)) == [])
    && var thread := s.threads[t];
       && (if thread.combined then thread.buffer == [] && thread.input == [] else w == t)
       && AllOf(own, t, thread.buffer) && (forall c :: 0 <= c < |thread.input| ==> AllOf(own, t, thread.input[c]))
       && Of(own, t, Concat(s.rowGroups)) + Of(own, t, Place(s, w)) + (thread.buffer + Concat(thread.input)) == rows
  }

  lemma SinkInOrder<R>(config: Config, own: R -> nat, rows: seq<R>, s: State<R>, t: nat, bytes: bool, u: nat, w: nat)
    requires InOrder(own, rows, s, u, w) && Enabled(s, Sink(t, bytes))
    requires AllOf(own, t, s.threads[t].buffer) && AllOf(own, t, s.threads[t].input[0])
    ensures InOrder(own, rows, Step(config, s, Sink(t, bytes)), u, w)
  {
    hide Append, InOrder, AllOf, Step;
    var thread := s.threads[t];
    var (buffer, prepared) := Append(config, thread.buffer, thread.input[0], bytes);
    AppendOwn(config, own, t, thread.buffer, thread.input[0], bytes);
    SunkIs(config, s, t, bytes);
    if u == t {
      OwnSunk(own, rows, s, Step(config, s, Sink(t, bytes)), t, w);
    } else {
      OtherSunk(own, rows, s, Step(config, s, Sink(t, bytes)), t, u, w);
    }
  }

  /** A chunk has gone to the buffer of a thread or to a row group. */
  predicate HasSunk<R(==)>(s: State<R>, s': State<R>, t: nat) {
    && t < |s.threads| == |s'.threads| && s'.rowGroups == s.rowGroups && s'.combineBuffer == s.combineBuffer
    && (forall p :: 0 <= p < |s.threads| && p != t ==> s'.threads[p] == s.threads[p])
    && var thread, after := s.threads[t], s'.threads[t];
       thread.input != [] && thread.prepared.None? && after.input == thread.input[1..]
         && after.combined == thread.combined
  }

  lemma SunkIs<R>(config: Config, s: State<R>, t: nat, bytes: bool)
    requires Enabled(s, Sink(t, bytes))
    ensures
      var s' := Step(config, s, Sink(t, bytes));
      && HasSunk(s, s', t)
      && (s'.threads[t].buffer, s'.threads[t].prepared) ==
         Append(config, s.threads[t].buffer, s.threads[t].input[0], bytes)
  {
    hide Append;
  }

  lemma OwnSunk<R>(own: R -> nat, rows: seq<R>, s: State<R>, s': State<R>, t: nat, w: nat)
    requires InOrder(own, rows, s, t, w) && HasSunk(s, s', t)
    requires AllOf(own, t, s'.threads[t].buffer) && AllOf(own, t, Held(s'.threads[t].prepared))
    requires Held(s'.threads[t].prepared) + s'.threads[t].buffer == s.threads[t].buffer + s.threads[t].input[0]
    ensures InOrder(own, rows, s', t, w)
  {
    hide Of, AllOf, Concat;
    var thread, after := s.threads[t], s'.threads[t];
    assert w == t;
    forall p | 0 <= p <= |s.threads| && p != t ensures Place(s', p) == Place(s, p) {
    }
    OfOwn(own, t, t, Held(after.prepared));
    OfNothing(own, t);
    Sunk(Of(own, t, Concat(s.rowGroups)), thread.buffer, thread.input, Held(after.prepared), after.buffer);
  }

  lemma OtherSunk<R>(own: R -> nat, rows: seq<R>, s: State<R>, s': State<R>, t: nat, u: nat, w: nat)
    requires InOrder(own, rows, s, u, w) && u != t && HasSunk(s, s', t)
    requires AllOf(own, t, Held(s'.threads[t].prepared))
    ensures InOrder(own, rows, s', u, w)
  {
    hide Of, AllOf, Concat;
    forall p | 0 <= p <= |s.threads| && p != t ensures Place(s', p) == Place(s, p) {
    }
    OfOwn(own, t, u, Held(s'.threads[t].prepared));
    OfNothing(own, u);
  }

  lemma OfNothing<R>(own: R -> nat, t: nat)
    ensures Of(own, t, []) == []
  {
  }

  lemma AppendOwn<R>(config: Config, own: R -> nat, t: nat, buffer: seq<R>, input: seq<R>, bytes: bool)
    requires AllOf(own, t, buffer) && AllOf(own, t, input)
    ensures
      var (after, prepared) := Append(config, buffer, input, bytes);
      AllOf(own, t, after) && AllOf(own, t, Held(prepared)) && Held(prepared) + after == buffer + input
  {
  }

  lemma Sunk<R>(file: seq<R>, buffer: seq<R>, input: seq<seq<R>>, prepared: seq<R>, after: seq<R>)
    requires input != [] && prepared + after == buffer + input[0]
    ensures file + prepared + (after + Concat(input[1..])) == file + [] + (buffer + Concat(input))
  {
    var rest := Concat(input[1..]);
    hide Concat;
    ConcatFirst(input);
    assert file + prepared + (after + rest) == file + (prepared + after) + rest;
    assert file + [] + (buffer + (input[0] + rest)) == file + (buffer + input[0]) + rest;
  }

  lemma ConcatFirst<R>(parts: seq<seq<R>>)
    requires parts != []
    ensures Concat(parts) == parts[0] + Concat(parts[1..])
  {
  }

  lemma WriteInOrder<R>(config: Config, own: R -> nat, rows: seq<R>, s: State<R>, t: nat, u: nat, w: nat)
    requires InOrder(own, rows, s, u, w) && Enabled(s, Write(t))
    ensures InOrder(own, rows, Step(config, s, Write(t)), u, w)
  {
    hide Of, AllOf, Concat;
    var s', group := Step(config, s, Write(t)), Held(s.threads[t].prepared);
    forall p | 0 <= p <= |s.threads| && p != t ensures Place(s', p) == Place(s, p) {
    }
    ConcatPush(s.rowGroups, group);
    OfAppend(own, u, Concat(s.rowGroups), group);
    OfNothing(own, u);
    assert Place(s, t) == group && Place(s', t) == [];
    NothingMore(Of(own, u, Concat(s.rowGroups)), Of(own, u, group));
  }

  lemma NothingMore<R>(a: seq<R>, b: seq<R>)
    ensures a + b + [] == a + b && a + [] == a
  {
  }

  lemma FinalizeInOrder<R>(config: Config, own: R -> nat, rows: seq<R>, s: State<R>, u: nat, w: nat)
    requires InOrder(own, rows, s, u, w) && Enabled(s, Finalize)
    ensures InOrder(own, rows, Step(config, s, Finalize), u, w)
  {
    hide Of, AllOf, Concat;
    var s', group := Step(config, s, Finalize), Held(s.combineBuffer);
    forall p | 0 <= p < |s.threads| ensures Place(s', p) == Place(s, p) {
    }
    OfNothing(own, u);
    assert Place(s, |s.threads|) == group && Place(s', |s.threads|) == [];
    if group != [] {
      ConcatPush(s.rowGroups, group);
      OfAppend(own, u, Concat(s.rowGroups), group);
    } else {
      assert s.rowGroups + [] == s.rowGroups;
    }
    NothingMore(Of(own, u, Concat(s.rowGroups)), Of(own, u, group));
  }

  /** A thread hands over its rest; rows that others have shared before can go with it. */
  lemma CombineInOrder<R>(config: Config, own: R -> nat, rows: seq<R>, s: State<R>, t: nat, bytes: bool,
                          sharedBytes: bool,
                          u: nat, w: nat) returns (w': nat)
    requires InOrder(own, rows, s, u, w) && Enabled(s, Combine(t, bytes, sharedBytes))
    requires AllOf(own, t, s.threads[t].buffer)
    ensures InOrder(own, rows, Step(config, s, Combine(t, bytes, sharedBytes)), u, w')
  {
    hide Leave, InOrder, AllOf, Step;
    var buffer := s.threads[t].buffer;
    var (shared, prepared) := Leave(config, s.combineBuffer, buffer, bytes, sharedBytes);
    LeaveMoves(config, s.combineBuffer, buffer, bytes, sharedBytes);
    CombinedIs(config, s, t, bytes, sharedBytes);
    if u == t {
      w' := if Held(shared) == Held(s.combineBuffer) + buffer && Held(prepared) == [] then |s.threads| else t;
      OwnCombined(own, rows, s, Step(config, s, Combine(t, bytes, sharedBytes)), t, w, w');
    } else {
      w' := if w == |s.threads| && Held(shared) == [] && Held(prepared) == Held(s.combineBuffer) + buffer then t else w;
      OtherCombined(own, rows, s, Step(config, s, Combine(t, bytes, sharedBytes)), t, u, w, w');
    }
  }

  /** What a thread leaves, whichever way it goes. */
  predicate Combined<R(==)>(s: State<R>, s': State<R>, t: nat) {
    && t < |s.threads| == |s'.threads| && s'.rowGroups == s.rowGroups
    && (forall p :: 0 <= p < |s.threads| && p != t ==> s'.threads[p] == s.threads[p])
    && s'.threads[t] == Thread([], [], s'.threads[t].prepared, true)
    && var thread := s.threads[t];
       !thread.combined && thread.input == [] && thread.prepared.None?
  }

  lemma CombinedIs<R>(config: Config, s: State<R>, t: nat, bytes: bool, sharedBytes: bool)
    requires Enabled(s, Combine(t, bytes, sharedBytes))
    ensures
      var s' := Step(config, s, Combine(t, bytes, sharedBytes));
      && Combined(s, s', t)
      && (s'.combineBuffer, s'.threads[t].prepared) ==
         Leave(config, s.combineBuffer, s.threads[t].buffer, bytes, sharedBytes)
  {
    hide Leave;
  }

  predicate Moved<R(==)>(shared: seq<R>, buffer: seq<R>, after: seq<R>, prepared: seq<R>) {
    || (after == shared && prepared == buffer)
    || (after == [] && prepared == shared + buffer)
    || (after == shared + buffer && prepared == [])
  }

  lemma OwnCombined<R>(own: R -> nat, rows: seq<R>, s: State<R>, s': State<R>, t: nat, w: nat, w': nat)
    requires InOrder(own, rows, s, t, w) && Combined(s, s', t) && AllOf(own, t, s.threads[t].buffer)
    requires Moved(Held(s.combineBuffer), s.threads[t].buffer, Held(s'.combineBuffer), Held(s'.threads[t].prepared))
    requires
      var after, prepared := Held(s'.combineBuffer), Held(s'.threads[t].prepared);
      w' == if after == Held(s.combineBuffer) + s.threads[t].buffer && prepared == [] then |s.threads| else t
    ensures InOrder(own, rows, s', t, w')
  {
    hide Of, AllOf, Concat;
    var n, buffer := |s.threads|, s.threads[t].buffer;
    OfOwn(own, t, t, buffer);
    OfNothing(own, t);
    OfAppend(own, t, Held(s.combineBuffer), buffer);
    NoInput<R>();
    NoneOf(own, t);
    forall p | 0 <= p < n && p != t ensures Place(s', p) == Place(s, p) {
    }
    assert Place(s, n) == Held(s.combineBuffer) && Place(s, t) == [];
    assert Of(own, t, Held(s.combineBuffer)) == [];
    assert Of(own, t, Place(s', w')) == buffer;
    Handed(Of(own, t, Concat(s.rowGroups)), buffer);
  }

  lemma NoneOf<R>(own: R -> nat, t: nat)
    ensures AllOf(own, t, [])
  {
  }

  lemma Handed<R>(file: seq<R>, buffer: seq<R>)
    ensures file + [] + (buffer + []) == file + buffer + ([] + [])
  {
  }

  lemma OtherCombined<R>(own: R -> nat, rows: seq<R>, s: State<R>, s': State<R>, t: nat, u: nat, w: nat, w': nat)
    requires InOrder(own, rows, s, u, w) && u != t && Combined(s, s', t) && AllOf(own, t, s.threads[t].buffer)
    requires Moved(Held(s.combineBuffer), s.threads[t].buffer, Held(s'.combineBuffer), Held(s'.threads[t].prepared))
    requires
      var after, prepared := Held(s'.combineBuffer), Held(s'.threads[t].prepared);
      w' == if w == |s.threads| && after == [] && prepared == Held(s.combineBuffer) + s.threads[t].buffer then t else w
    ensures InOrder(own, rows, s', u, w')
  {
    hide Of, AllOf, Concat, Moved;
    var n, shared := |s.threads|, Of(own, u, Held(s.combineBuffer));
    OtherRows(own, t, u, Held(s.combineBuffer), s.threads[t].buffer, Held(s'.combineBuffer),
      Held(s'.threads[t].prepared));
    OfNothing(own, u);
    forall p | 0 <= p < n && p != t ensures Place(s', p) == Place(s, p) {
    }
    assert Place(s, n) == Held(s.combineBuffer) && Place(s, t) == [];
    assert Place(s', n) == Held(s'.combineBuffer) && Place(s', t) == Held(s'.threads[t].prepared);
    assert w != n ==> shared == [];
    assert s'.threads[u] == s.threads[u];
  }

  /** To another thread the rows that a thread adds are nothing: its own go with the shared ones or stay. */
  lemma OtherRows<R>(own: R -> nat, t: nat, u: nat, shared: seq<R>, buffer: seq<R>, after: seq<R>, prepared: seq<R>)
    requires u != t && AllOf(own, t, buffer) && Moved(shared, buffer, after, prepared)
    ensures if after == [] && prepared == shared + buffer
            then Of(own, u, prepared) == Of(own, u, shared) && Of(own, u, after) == []
            else Of(own, u, prepared) == [] && Of(own, u, after) == Of(own, u, shared)
  {
    hide Of, AllOf;
    OfOwn(own, t, u, buffer);
    OfNothing(own, u);
    OfAppend(own, u, shared, buffer);
    assert Of(own, u, shared) + [] == Of(own, u, shared);
  }

  lemma NoInput<R>()
    ensures Concat<R>([]) == []
  {
  }

  /** The rows go one of three ways: alone to a row group, with the shared ones to one, or to the shared ones. */
  lemma LeaveMoves<R>(config: Config, shared: Option<seq<R>>, buffer: seq<R>, bytes: bool, sharedBytes: bool)
    ensures
      var (after, prepared) := Leave(config, shared, buffer, bytes, sharedBytes);
      Moved(Held(shared), buffer, Held(after), Held(prepared))
  {
  }

  ghost predicate SomewhereInOrder<R>(own: R -> nat, rows: seq<R>, s: State<R>, t: nat) {
    exists w: nat :: InOrder(own, rows, s, t, w)
  }

  ghost predicate AllInOrder<R>(own: R -> nat, inputs: seq<seq<seq<R>>>, s: State<R>) {
    |s.threads| == |inputs| && forall t :: 0 <= t < |inputs| ==> SomewhereInOrder(own, Concat(inputs[t]), s, t)
  }

  lemma StepInOrder<R>(config: Config, own: R -> nat, inputs: seq<seq<seq<R>>>, s: State<R>, a: Action)
    requires AllInOrder(own, inputs, s) && Enabled(s, a)
    ensures AllInOrder(own, inputs, Step(config, s, a))
  {
    hide InOrder, Concat;
    StepKeepsThreads(config, s, a);
    forall u | 0 <= u < |inputs|
      ensures SomewhereInOrder(own, Concat(inputs[u]), Step(config, s, a), u)
    {
      assert SomewhereInOrder(own, Concat(inputs[u]), s, u);
      var w: nat :| InOrder(own, Concat(inputs[u]), s, u, w);
      match a
      case Sink(t, bytes) =>
        OwnRows(own, inputs, s, t);
        SinkInOrder(config, own, Concat(inputs[u]), s, t, bytes, u, w);
      case Write(t) =>
        WriteInOrder(config, own, Concat(inputs[u]), s, t, u, w);
      case Combine(t, bytes, sharedBytes) =>
        OwnRows(own, inputs, s, t);
        var w' := CombineInOrder(config, own, Concat(inputs[u]), s, t, bytes, sharedBytes, u, w);
      case Finalize =>
        FinalizeInOrder(config, own, Concat(inputs[u]), s, u, w);
    }
  }

  lemma StepKeepsThreads<R>(config: Config, s: State<R>, a: Action)
    requires Enabled(s, a)
    ensures |Step(config, s, a).threads| == |s.threads|
  {
    hide Leave, Append;
  }

  lemma OwnRows<R>(own: R -> nat, inputs: seq<seq<seq<R>>>, s: State<R>, t: nat)
    requires AllInOrder(own, inputs, s) && t < |s.threads|
    ensures AllOf(own, t, s.threads[t].buffer)
    ensures s.threads[t].input != [] ==> AllOf(own, t, s.threads[t].input[0])
  {
    hide AllOf, Of, Concat;
    assert SomewhereInOrder(own, Concat(inputs[t]), s, t);
    var w: nat :| InOrder(own, Concat(inputs[t]), s, t, w);
  }

  lemma {:induction false} RunInOrder<R>(config: Config, own: R -> nat, inputs: seq<seq<seq<R>>>, s: State<R>,
                                         actions: seq<Action>)
    requires AllInOrder(own, inputs, s) && Possible(config, s, actions)
    ensures AllInOrder(own, inputs, Run(config, s, actions))
    decreases |actions|
  {
    hide AllInOrder, Step, Enabled;
    if actions != [] {
      StepInOrder(config, own, inputs, s, actions[0]);
      RunInOrder(config, own, inputs, Step(config, s, actions[0]), actions[1..]);
    }
  }

  /** Every row belongs to the thread that gets it. */
  predicate Owned<R>(own: R -> nat, inputs: seq<seq<seq<R>>>) {
    forall t, c :: 0 <= t < |inputs| && 0 <= c < |inputs[t]| ==> AllOf(own, t, inputs[t][c])
  }

  lemma StartsInOrder<R>(own: R -> nat, inputs: seq<seq<seq<R>>>)
    requires Owned(own, inputs)
    ensures AllInOrder(own, inputs, Initial(inputs))
  {
    hide AllOf, Of;
    var s := Initial(inputs);
    NoInput<R>();
    forall t | 0 <= t < |inputs| ensures SomewhereInOrder(own, Concat(inputs[t]), s, t) {
      OfNothing(own, t);
      NoneOf(own, t);
      assert [] + [] + ([] + Concat(inputs[t])) == Concat(inputs[t]);
      assert forall p :: 0 <= p <= |inputs| ==> Place(s, p) == [];
      assert InOrder(own, Concat(inputs[t]), s, t, t);
    }
  }

  /**
   A finalized file holds the rows of each thread in the order in which the thread got them, whatever
   other rows stand between them.
   */
  lemma RowsInOrder<R>(config: Config, own: R -> nat, inputs: seq<seq<seq<R>>>, actions: seq<Action>, t: nat)
    requires Owned(own, inputs) && t < |inputs|
    requires config.rowGroupSize > 0 && config.vectorSize > 0
    requires forall u :: 0 <= u < |inputs| ==> SmallChunks(config, inputs[u])
    requires Possible(config, Initial(inputs), actions) && Run(config, Initial(inputs), actions).finalized
    ensures Of(own, t, Concat(Run(config, Initial(inputs), actions).rowGroups)) == Concat(inputs[t])
  {
    hide Run, Initial, Possible, Concat, Of, Owned, InOrder;
    StartsInOrder(own, inputs);
    RunInOrder(config, own, inputs, Initial(inputs), actions);
    InitialInv(config, inputs);
    RunKeepsInv(config, Initial(inputs), actions);
    var end := Run(config, Initial(inputs), actions);
    assert SomewhereInOrder(own, Concat(inputs[t]), end, t);
    var w: nat :| InOrder(own, Concat(inputs[t]), end, t, w);
    EndsInOrder(config, own, Concat(inputs[t]), end, t, w);
  }

  lemma EndsInOrder<R>(config: Config, own: R -> nat, rows: seq<R>, s: State<R>, t: nat, w: nat)
    requires InOrder(own, rows, s, t, w) && Inv(config, s) && s.finalized
    ensures Of(own, t, Concat(s.rowGroups)) == rows
  {
    hide Of, AllOf, Concat;
    assert Place(s, w) == [];
    OfNothing(own, t);
    NoInput<R>();
    var file := Of(own, t, Concat(s.rowGroups));
    assert file + [] + ([] + []) == file;
  }
}
