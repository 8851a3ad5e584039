/**
 The parallel scan as a protocol of threads over a shared buffer map. Every buffer counts its
 readers: its own scanner and, unless it is the last one, the scanner of the next buffer, which
 copies the cut-off line out of it. Whoever decrements the count to zero removes the buffer.
 The steps of all threads interleave freely; each locked region and each atomic update is a step.
 */
module BufferProtocol {
  import opened Basics
  import opened TextLines
  import opened ParallelScan

  datatype Stage = Reading | Waiting | Copying | DroppingPrevious | Parsing | Releasing | Dropping | Finished

  /** A buffer index that has been given out, with the thread that scans it and what it yields. */
  datatype Buffer = Buffer(owner: nat, chunk: string, isLast: bool, stage: Stage,
                           taken: string, lines: seq<string>, removals: nat)

  /** An entry of the buffer map. */
  datatype Handle = Handle(readers: nat, data: string)

  datatype State = State(position: nat, lastRequested: bool, buffers: seq<Buffer>, bufferMap: map<nat, Handle>)

  /** A free thread asks for the next chunk, or the scanner of a buffer takes its next step. */
  datatype Step = Assign(thread: nat, requested: nat) | Advance(idx: nat)

  const INITIAL_STATE := State(0, false, [], map[])

  predicate Idle(s: State, thread: nat) {
    forall i :: 0 <= i < |s.buffers| ==> s.buffers[i].owner == thread ==> s.buffers[i].stage == Finished
  }

  predicate Enabled(s: State, threads: nat, step: Step) {
    match step
    case Assign(thread, requested) => thread < threads && Idle(s, thread) && !s.lastRequested && requested > 0
    case Advance(idx) => idx < |s.buffers| && s.buffers[idx].stage != Finished
  }

  function SetBuffer(s: State, idx: nat, buffer: Buffer): State
    requires idx < |s.buffers|
  {
    s.(buffers := s.buffers[idx := buffer])
  }

  function SetStage(s: State, idx: nat, stage: Stage): State
    requires idx < |s.buffers|
  {
    SetBuffer(s, idx, s.buffers[idx].(stage := stage))
  }

  /** The atomic decrement of a reader count. */
  function Decrement(s: State, idx: nat): State
    requires idx in s.bufferMap && s.bufferMap[idx].readers > 0
  {
    s.(bufferMap := s.bufferMap[idx := s.bufferMap[idx].(readers := s.bufferMap[idx].readers - 1)])
  }

  function RemoveBuffer(s: State, idx: nat): State
    requires idx < |s.buffers|
  {
    SetBuffer(s, idx, s.buffers[idx].(removals := s.buffers[idx].removals + 1)).(bufferMap := s.bufferMap - {idx})
  }

  /** The step finds every buffer that it uses in the map, with a count that allows the decrement. */
  predicate Safe(s: State, step: Step) {
    match step
    case Assign(_, _) => true
    case Advance(i) =>
      i < |s.buffers| &&
      match s.buffers[i].stage
      case Reading => i !in s.bufferMap
      case Waiting => i > 0
      case Copying => i > 0 && i - 1 in s.bufferMap && s.bufferMap[i - 1].readers > 0
      case DroppingPrevious => i > 0 && i - 1 in s.bufferMap && s.bufferMap[i - 1].readers == 0
      case Parsing => i in s.bufferMap
      case Releasing => i in s.bufferMap && s.bufferMap[i].readers > 0
      case Dropping => i in s.bufferMap && s.bufferMap[i].readers == 0
      case Finished => true
  }

  function Next(file: string, s: State, step: Step): State
    requires s.position <= |file| && Safe(s, step)
  {
    match step
    case Assign(thread, requested) =>
      var size := Min(requested, |file| - s.position);
      var chunk := file[s.position..s.position + size];
      State(s.position + size, size == 0,
            s.buffers + [Buffer(thread, chunk, size == 0, Reading, "", [], 0)], s.bufferMap)
    case Advance(i) =>
      var b := s.buffers[i];
      match b.stage
      case Reading =>
        SetStage(s, i, if i == 0 then Parsing else Waiting)
        .(bufferMap := s.bufferMap[i := Handle(if b.isLast then 1 else 2, b.chunk)])
      case Waiting =>
        // spin until the previous buffer is in the map
        if i - 1 in s.bufferMap then SetStage(s, i, Copying) else s
      case Copying =>
        var s' := Decrement(s, i - 1);
        SetBuffer(s', i, b.(taken := Carry(s.bufferMap[i - 1].data),
                            stage := if s'.bufferMap[i - 1].readers == 0 then DroppingPrevious else Parsing))
      case DroppingPrevious =>
        SetStage(RemoveBuffer(s, i - 1), i, Parsing)
      case Parsing =>
        SetBuffer(s, i, b.(lines := Parsed(b.taken + s.bufferMap[i].data, b.isLast), stage := Releasing))
      case Releasing =>
        var s' := Decrement(s, i);
        SetStage(s', i, if s'.bufferMap[i].readers == 0 then Dropping else Finished)
      case Dropping =>
        SetStage(RemoveBuffer(s, i), i, Finished)
      case Finished => s
  }

  // ------------------------------------------------------------------ the invariant

  /** The stages of a scanner, in their order. */
  function Rank(stage: Stage): nat {
    match stage
    case Reading => 0
    case Waiting => 1
    case Copying => 2
    case DroppingPrevious => 3
    case Parsing => 4
    case Releasing => 5
    case Dropping => 6
    case Finished => 7
  }

  predicate HasCopied(stage: Stage) {
    Rank(stage) > 2
  }

  /** Readers that have not decremented the count of a buffer yet. */
  function OwnReader(b: Buffer): nat {
    if 1 <= Rank(b.stage) <= 5 then 1 else 0
  }

  /** The stage of the next buffer's scanner; if there is none yet, it has read nothing yet. */
  function NextStage(s: State, i: nat): Stage {
    if i + 1 < |s.buffers| then s.buffers[i + 1].stage else Reading
  }

  function NextReader(b: Buffer, next: Stage): nat {
    if b.isLast || HasCopied(next) then 0 else 1
  }

  datatype Entry = Absent | Present(handle: Handle)

  function EntryOf(s: State, i: nat): Entry {
    if i in s.bufferMap then Present(s.bufferMap[i]) else Absent
  }

  /**
   The map entry of a buffer, as its own scanner and the next one left it: the count is the number
   of readers still to decrement it, and it is removed once, right after it has become zero.
   */
  predicate CountRight(b: Buffer, next: Stage, entry: Entry) {
    var readers := OwnReader(b) + NextReader(b, next);
    var dropping := b.stage == Dropping || next == DroppingPrevious;
    if b.stage == Reading then
      entry == Absent && b.removals == 0 && Rank(next) <= 1
    else if readers > 0 || dropping then
      entry == Present(Handle(readers, b.chunk)) && b.removals == 0
        && (dropping ==> readers == 0) && !(b.stage == Dropping && next == DroppingPrevious)
    else
      entry == Absent && b.removals == 1
  }

  predicate CountOk(s: State, i: nat)
    requires i < |s.buffers|
  {
    CountRight(s.buffers[i], NextStage(s, i), EntryOf(s, i))
  }

  ghost predicate DataOk(s: State, i: nat)
    requires i < |s.buffers|
  {
    var b := s.buffers[i];
    && (b.isLast <==> b.chunk == "")
    && (i == 0 ==> !(1 <= Rank(b.stage) <= 3))
    && (i == 0 ==> b.taken == "")
    && (HasCopied(b.stage) ==> b.taken == if i == 0 then "" else Carry(s.buffers[i - 1].chunk))
    && (Rank(b.stage) >= 5 ==> b.lines == Parsed(b.taken + b.chunk, b.isLast))
  }

  function Chunks(buffers: seq<Buffer>): seq<string> {
    seq(|buffers|, i requires 0 <= i < |buffers| => buffers[i].chunk)
  }

  ghost predicate Inv(file: string, s: State) {
    && s.position <= |file| && Concat(Chunks(s.buffers)) == file[..s.position]
    && (s.lastRequested <==> |s.buffers| > 0 && s.buffers[|s.buffers| - 1].isLast)
    && (s.lastRequested ==> s.position == |file|)
    && (forall i :: 0 <= i < |s.buffers| - 1 ==> !s.buffers[i].isLast)
    && (forall i :: 0 <= i < |s.buffers| ==> CountOk(s, i) && DataOk(s, i))
    && (forall i :: i in s.bufferMap ==> i < |s.buffers|)
    && (forall i, j :: 0 <= i < j < |s.buffers| && s.buffers[i].owner == s.buffers[j].owner ==>
         s.buffers[i].stage == Finished)
  }

  /** A step of a scanner changes no more than the stages and counts of its buffer and the one before. */
  ghost predicate SameFile(s: State, s': State) {
    && s'.position == s.position && s'.lastRequested == s.lastRequested && |s'.buffers| == |s.buffers|
    && (forall k :: 0 <= k < |s.buffers| ==>
      && s'.buffers[k].owner == s.buffers[k].owner
      && s'.buffers[k].chunk == s.buffers[k].chunk
      && s'.buffers[k].isLast == s.buffers[k].isLast
      && (s.buffers[k].stage == Finished ==> s'.buffers[k].stage == Finished))
  }

  lemma SameFileKeeps(file: string, s: State, s': State)
    requires Inv(file, s) && SameFile(s, s')
    requires forall k :: 0 <= k < |s'.buffers| ==> CountOk(s', k) && DataOk(s', k)
    requires forall k :: k in s'.bufferMap ==> k < |s'.buffers|
    ensures Inv(file, s')
  {
    hide CountOk, DataOk;
    assert Chunks(s'.buffers) == Chunks(s.buffers);
  }

  /** Only the counts of the scanner's buffer and of the one before can change. */
  lemma CountsElsewhere(s: State, s': State, i: nat)
    requires SameFile(s, s') && i < |s.buffers|
    requires forall k :: 0 <= k < |s.buffers| ==> CountOk(s, k)
    requires forall k :: 0 <= k < |s.buffers| && k != i && k != i - 1 ==>
      s'.buffers[k] == s.buffers[k] && EntryOf(s', k) == EntryOf(s, k)
    requires i > 0 ==> s'.buffers[i - 1].stage == s.buffers[i - 1].stage
    requires CountOk(s', i) && (i > 0 ==> CountOk(s', i - 1))
    ensures forall k :: 0 <= k < |s'.buffers| ==> CountOk(s', k)
  {
    hide CountRight, EntryOf;
    forall k | 0 <= k < |s'.buffers| && k != i && k != i - 1
      ensures CountOk(s', k)
    {
      assert CountOk(s, k) && NextStage(s', k) == NextStage(s, k);
    }
  }

  /** What the invariant says about a scanner's buffer and the one before it. */
  ghost predicate Local(s: State, i: nat) {
    && i < |s.buffers| && CountOk(s, i)
    && (i > 0 ==> CountOk(s, i - 1) && !s.buffers[i - 1].isLast)
    && (i == 0 ==> !(1 <= Rank(s.buffers[i].stage) <= 3))
  }

  lemma InvIsLocal(file: string, s: State, i: nat)
    requires Inv(file, s) && i < |s.buffers|
    ensures Local(s, i)
  {
    hide CountOk, Chunks, Concat;
    assert DataOk(s, i) && CountOk(s, i);
    assert i > 0 ==> CountOk(s, i - 1);
  }

  /** Safety: under the invariant every use of a buffer finds it in the map. */
  lemma InvIsSafe(file: string, s: State, threads: nat, step: Step)
    requires Inv(file, s) && Enabled(s, threads, step)
    ensures Safe(s, step)
  {
    hide Inv, Local;
    if step.Advance? {
      InvIsLocal(file, s, step.idx);
      LocalIsSafe(s, step.idx);
    }
  }

  lemma LocalIsSafe(s: State, i: nat)
    requires Local(s, i)
    ensures Safe(s, Advance(i))
  {
  }

  lemma ReadingKeepsCounts(file: string, s: State, i: nat)
    requires s.position <= |file| && Local(s, i) && s.buffers[i].stage == Reading && Safe(s, Advance(i))
    ensures var s' := Next(file, s, Advance(i));
      CountOk(s', i) && (i > 0 ==> CountOk(s', i - 1))
  {
    hide Parsed, Carry;
  }

  lemma WaitingKeepsCounts(file: string, s: State, i: nat)
    requires s.position <= |file| && Local(s, i) && s.buffers[i].stage == Waiting && Safe(s, Advance(i))
    ensures var s' := Next(file, s, Advance(i));
      CountOk(s', i) && (i > 0 ==> CountOk(s', i - 1))
  {
    hide Parsed, Carry;
  }

  lemma CopyingKeepsCounts(file: string, s: State, i: nat)
    requires s.position <= |file| && Local(s, i) && s.buffers[i].stage == Copying && Safe(s, Advance(i))
    ensures var s' := Next(file, s, Advance(i));
      CountOk(s', i) && (i > 0 ==> CountOk(s', i - 1))
  {
    hide Parsed, Carry;
  }

  lemma DroppingPreviousKeepsCounts(file: string, s: State, i: nat)
    requires s.position <= |file| && Local(s, i) && s.buffers[i].stage == DroppingPrevious && Safe(s, Advance(i))
    ensures var s' := Next(file, s, Advance(i));
      CountOk(s', i) && (i > 0 ==> CountOk(s', i - 1))
  {
    hide Parsed, Carry;
  }

  lemma ParsingKeepsCounts(file: string, s: State, i: nat)
    requires s.position <= |file| && Local(s, i) && s.buffers[i].stage == Parsing && Safe(s, Advance(i))
    ensures var s' := Next(file, s, Advance(i));
      CountOk(s', i) && (i > 0 ==> CountOk(s', i - 1))
  {
    hide Parsed, Carry;
  }

  lemma ReleasingKeepsCounts(file: string, s: State, i: nat)
    requires s.position <= |file| && Local(s, i) && s.buffers[i].stage == Releasing && Safe(s, Advance(i))
    ensures var s' := Next(file, s, Advance(i));
      CountOk(s', i) && (i > 0 ==> CountOk(s', i - 1))
  {
    hide Parsed, Carry;
  }

  lemma DroppingKeepsCounts(file: string, s: State, i: nat)
    requires s.position <= |file| && Local(s, i) && s.buffers[i].stage == Dropping && Safe(s, Advance(i))
    ensures var s' := Next(file, s, Advance(i));
      CountOk(s', i) && (i > 0 ==> CountOk(s', i - 1))
  {
    hide Parsed, Carry;
  }

  lemma AdvanceKeepsCounts(file: string, s: State, i: nat)
    requires s.position <= |file| && Local(s, i) && Safe(s, Advance(i))
    ensures var s' := Next(file, s, Advance(i));
      CountOk(s', i) && (i > 0 ==> CountOk(s', i - 1))
  {
    hide CountOk, Parsed, Carry;
    match s.buffers[i].stage
    case Reading => ReadingKeepsCounts(file, s, i);
    case Waiting => WaitingKeepsCounts(file, s, i);
    case Copying => CopyingKeepsCounts(file, s, i);
    case DroppingPrevious => DroppingPreviousKeepsCounts(file, s, i);
    case Parsing => ParsingKeepsCounts(file, s, i);
    case Releasing => ReleasingKeepsCounts(file, s, i);
    case Dropping => DroppingKeepsCounts(file, s, i);
    case Finished =>
  }

  /** A step changes its own buffer, and of the one before no more than the count of removals. */
  lemma AdvanceFrame(file: string, s: State, i: nat)
    requires s.position <= |file| && i < |s.buffers| && Safe(s, Advance(i))
    ensures var s' := Next(file, s, Advance(i));
      && SameFile(s, s')
      && (forall k :: 0 <= k < |s.buffers| && k != i && k != i - 1 ==> s'.buffers[k] == s.buffers[k])
      && (i > 0 ==> s'.buffers[i - 1] == s.buffers[i - 1].(removals := s'.buffers[i - 1].removals))
  {
    hide Next;
    if s.buffers[i].stage == DroppingPrevious {
      DroppingFrame(file, s, i);
    } else {
      OwnFrame(file, s, i);
    }
  }

  lemma DroppingFrame(file: string, s: State, i: nat)
    requires s.position <= |file| && i < |s.buffers| && Safe(s, Advance(i)) && s.buffers[i].stage == DroppingPrevious
    ensures var s' := Next(file, s, Advance(i));
      && SameFile(s, s')
      && (forall k :: 0 <= k < |s.buffers| && k != i && k != i - 1 ==> s'.buffers[k] == s.buffers[k])
      && (i > 0 ==> s'.buffers[i - 1] == s.buffers[i - 1].(removals := s'.buffers[i - 1].removals))
  {
    hide Parsed, Carry;
    var s', p := Next(file, s, Advance(i)), s.buffers[i - 1];
    assert s'.buffers == s.buffers[i - 1 := p.(removals := p.removals + 1)][i := s.buffers[i].(stage := Parsing)];
  }

  /** All other steps change the scanner that takes them only. */
  lemma OwnFrame(file: string, s: State, i: nat)
    requires s.position <= |file| && i < |s.buffers| && Safe(s, Advance(i)) && s.buffers[i].stage != DroppingPrevious
    ensures var s' := Next(file, s, Advance(i));
      && SameFile(s, s') && (forall k :: 0 <= k < |s.buffers| && k != i ==> s'.buffers[k] == s.buffers[k])
  {
    hide Parsed, Carry;
    var s', b := Next(file, s, Advance(i)), s.buffers[i];
    assert s'.buffers == s.buffers[i := s'.buffers[i]];
    assert s'.buffers[i].(stage := b.stage, taken := b.taken, lines := b.lines, removals := b.removals) == b;
  }

  lemma AdvanceMapFrame(file: string, s: State, i: nat)
    requires s.position <= |file| && i < |s.buffers| && Safe(s, Advance(i))
    ensures var s' := Next(file, s, Advance(i));
      && (forall k :: k != i && k != i - 1 ==> EntryOf(s', k) == EntryOf(s, k))
      && s'.bufferMap.Keys <= s.bufferMap.Keys + {i}
  {
    hide Parsed, Carry;
  }

  lemma ReadingKeepsData(file: string, s: State, i: nat)
    requires s.position <= |file| && i < |s.buffers| && Safe(s, Advance(i)) && DataOk(s, i)
    requires s.buffers[i].stage == Reading
    ensures DataOk(Next(file, s, Advance(i)), i)
  {
    hide Parsed, Carry;
  }

  lemma WaitingKeepsData(file: string, s: State, i: nat)
    requires s.position <= |file| && i < |s.buffers| && Safe(s, Advance(i)) && DataOk(s, i)
    requires s.buffers[i].stage == Waiting
    ensures DataOk(Next(file, s, Advance(i)), i)
  {
    hide Parsed, Carry;
  }

  lemma CopyingKeepsData(file: string, s: State, i: nat)
    requires s.position <= |file| && i < |s.buffers| && Safe(s, Advance(i)) && DataOk(s, i)
    requires s.buffers[i].stage == Copying
    requires s.bufferMap[i - 1].data == s.buffers[i - 1].chunk
    ensures DataOk(Next(file, s, Advance(i)), i)
  {
    hide Parsed, Carry;
  }

  lemma DroppingPreviousKeepsData(file: string, s: State, i: nat)
    requires s.position <= |file| && i < |s.buffers| && Safe(s, Advance(i)) && DataOk(s, i)
    requires s.buffers[i].stage == DroppingPrevious
    ensures DataOk(Next(file, s, Advance(i)), i)
  {
    hide Parsed, Carry;
  }

  lemma ParsingKeepsData(file: string, s: State, i: nat)
    requires s.position <= |file| && i < |s.buffers| && Safe(s, Advance(i)) && DataOk(s, i)
    requires s.buffers[i].stage == Parsing
    requires s.bufferMap[i].data == s.buffers[i].chunk
    ensures DataOk(Next(file, s, Advance(i)), i)
  {
    hide Parsed, Carry;
  }

  lemma ReleasingKeepsData(file: string, s: State, i: nat)
    requires s.position <= |file| && i < |s.buffers| && Safe(s, Advance(i)) && DataOk(s, i)
    requires s.buffers[i].stage == Releasing
    ensures DataOk(Next(file, s, Advance(i)), i)
  {
    hide Parsed, Carry;
  }

  lemma DroppingKeepsData(file: string, s: State, i: nat)
    requires s.position <= |file| && i < |s.buffers| && Safe(s, Advance(i)) && DataOk(s, i)
    requires s.buffers[i].stage == Dropping
    ensures DataOk(Next(file, s, Advance(i)), i)
  {
    hide Parsed, Carry;
  }

  lemma AdvanceKeepsData(file: string, s: State, i: nat)
    requires s.position <= |file| && i < |s.buffers| && Safe(s, Advance(i)) && DataOk(s, i)
    requires s.buffers[i].stage == Copying ==> s.bufferMap[i - 1].data == s.buffers[i - 1].chunk
    requires s.buffers[i].stage == Parsing ==> s.bufferMap[i].data == s.buffers[i].chunk
    ensures |Next(file, s, Advance(i)).buffers| == |s.buffers| && DataOk(Next(file, s, Advance(i)), i)
  {
    hide DataOk, Parsed, Carry;
    match s.buffers[i].stage
    case Reading => ReadingKeepsData(file, s, i);
    case Waiting => WaitingKeepsData(file, s, i);
    case Copying => CopyingKeepsData(file, s, i);
    case DroppingPrevious => DroppingPreviousKeepsData(file, s, i);
    case Parsing => ParsingKeepsData(file, s, i);
    case Releasing => ReleasingKeepsData(file, s, i);
    case Dropping => DroppingKeepsData(file, s, i);
    case Finished =>
  }

  /** What a scanner reads through the map is the chunk of the buffer it looks up. */
  lemma MapHoldsChunks(s: State, i: nat)
    requires Local(s, i) && Safe(s, Advance(i))
    ensures s.buffers[i].stage == Copying ==> s.bufferMap[i - 1].data == s.buffers[i - 1].chunk
    ensures s.buffers[i].stage == Parsing ==> s.bufferMap[i].data == s.buffers[i].chunk
  {
  }

  lemma DataElsewhere(s: State, s': State, i: nat)
    requires SameFile(s, s') && i < |s.buffers| && DataOk(s', i)
    requires forall k :: 0 <= k < |s.buffers| ==> DataOk(s, k)
    requires forall k :: 0 <= k < |s.buffers| && k != i ==>
      s'.buffers[k] == s.buffers[k].(removals := s'.buffers[k].removals)
    ensures forall k :: 0 <= k < |s'.buffers| ==> DataOk(s', k)
  {
    hide Parsed, Carry;
    forall k | 0 <= k < |s'.buffers| && k != i
      ensures DataOk(s', k)
    {
      assert DataOk(s, k);
    }
  }

  lemma AdvanceKeepsInv(file: string, s: State, i: nat)
    requires Inv(file, s) && i < |s.buffers| && Safe(s, Advance(i))
    ensures Inv(file, Next(file, s, Advance(i)))
  {
    hide CountOk, DataOk, Chunks, Concat;
    var s' := Next(file, s, Advance(i));
    InvIsLocal(file, s, i);
    AdvanceKeepsCounts(file, s, i);
    AdvanceFrame(file, s, i);
    AdvanceMapFrame(file, s, i);
    MapHoldsChunks(s, i);
    AdvanceKeepsData(file, s, i);
    CountsElsewhere(s, s', i);
    DataElsewhere(s, s', i);
    SameFileKeeps(file, s, s');
  }

  lemma ChunksPush(buffers: seq<Buffer>, b: Buffer)
    ensures Concat(Chunks(buffers + [b])) == Concat(Chunks(buffers)) + b.chunk
  {
    hide Concat;
    assert Chunks(buffers + [b]) == Chunks(buffers) + [b.chunk];
    ConcatPush(Chunks(buffers), b.chunk);
  }

  lemma AssignKeepsInv(file: string, s: State, threads: nat, step: Step)
    requires Inv(file, s) && step.Assign? && Enabled(s, threads, step)
    ensures Inv(file, Next(file, s, step))
  {
    hide CountOk, DataOk, Concat;
    var s' := Next(file, s, step);
    var n := |s.buffers|;
    var b := s'.buffers[n];
    ChunksPush(s.buffers, b);
    assert file[..s'.position] == file[..s.position] + b.chunk;
    forall k | 0 <= k < |s'.buffers|
      ensures CountOk(s', k) && DataOk(s', k)
    {
      if k < n {
        assert CountOk(s, k) && DataOk(s, k);
        AssignKeepsOld(file, s, step, k);
      } else {
        NewIsRight(file, s, step);
      }
    }
  }

  lemma AssignKeepsOld(file: string, s: State, step: Step, k: nat)
    requires s.position <= |file| && step.Assign? && k < |s.buffers| && CountOk(s, k) && DataOk(s, k)
    ensures var s' := Next(file, s, step); k < |s'.buffers| && CountOk(s', k) && DataOk(s', k)
  {
    hide CountRight, Parsed, Carry;
    var s' := Next(file, s, step);
    assert NextStage(s', k) == NextStage(s, k) && EntryOf(s', k) == EntryOf(s, k);
  }

  lemma NewIsRight(file: string, s: State, step: Step)
    requires s.position <= |file| && step.Assign? && step.requested > 0 && |s.buffers| !in s.bufferMap
    ensures var s' := Next(file, s, step);
      |s'.buffers| == |s.buffers| + 1 && CountOk(s', |s.buffers|) && DataOk(s', |s.buffers|)
  {
    hide Parsed, Carry;
  }

  // ------------------------------------------------------------------ runs

  /** A run: the states after each step, for any interleaving of the threads. */
  ghost predicate IsRun(file: string, threads: nat, states: seq<State>, steps: seq<Step>) {
    && |states| == |steps| + 1 && states[0] == INITIAL_STATE
    && (forall i :: 0 <= i < |steps| ==>
      && states[i].position <= |file| && Enabled(states[i], threads, steps[i]) && Safe(states[i], steps[i])
      && states[i + 1] == Next(file, states[i], steps[i]))
  }

  lemma {:induction false} RunKeepsInv(file: string, threads: nat, states: seq<State>, steps: seq<Step>, i: nat)
    requires IsRun(file, threads, states, steps) && i < |states|
    ensures Inv(file, states[i])
  {
    hide Next, Safe, Enabled;
    if i > 0 {
      RunKeepsInv(file, threads, states, steps, i - 1);
      var s, step := states[i - 1], steps[i - 1];
      StepKeepsInv(file, s, threads, step);
    } else {
      InitialInv(file);
    }
  }

  lemma InitialInv(file: string)
    ensures Inv(file, INITIAL_STATE)
  {
    assert Chunks([]) == [];
  }

  lemma StepKeepsInv(file: string, s: State, threads: nat, step: Step)
    requires Inv(file, s) && Enabled(s, threads, step)
    ensures Safe(s, step) && Inv(file, Next(file, s, step))
  {
    hide Inv, Next, Safe;
    InvIsSafe(file, s, threads, step);
    match step
    case Assign(_, _) => AssignKeepsInv(file, s, threads, step);
    case Advance(i) => AdvanceStepKeepsInv(file, s, threads, i);
  }

  lemma AdvanceStepKeepsInv(file: string, s: State, threads: nat, i: nat)
    requires Inv(file, s) && Enabled(s, threads, Advance(i)) && Safe(s, Advance(i))
    ensures Inv(file, Next(file, s, Advance(i)))
  {
    hide Inv, Next, Safe;
    AdvanceKeepsInv(file, s, i);
  }

  /**
   In every run, each buffer that a step uses is in the map; a buffer is removed at most once, and
   only after its own scanner and, if there is one, its successor's copy are done with it.
   */
  lemma RunIsSafe(file: string, threads: nat, states: seq<State>, steps: seq<Step>, at: nat, step: Step)
    requires IsRun(file, threads, states, steps) && at < |states|
    ensures Enabled(states[at], threads, step) ==> Safe(states[at], step)
    ensures forall i :: 0 <= i < |states[at].buffers| && states[at].buffers[i].removals > 0 ==>
      && states[at].buffers[i].removals == 1 && i !in states[at].bufferMap
      && states[at].buffers[i].stage == Finished
      && (states[at].buffers[i].isLast || HasCopied(NextStage(states[at], i)))
  {
    hide Next;
    RunKeepsInv(file, threads, states, steps, at);
    var s := states[at];
    if Enabled(s, threads, step) {
      InvIsSafe(file, s, threads, step);
    }
    forall i | 0 <= i < |s.buffers|
      ensures s.buffers[i].removals > 0 ==>
        s.buffers[i].removals == 1 && i !in s.bufferMap && s.buffers[i].stage == Finished
        && (s.buffers[i].isLast || HasCopied(NextStage(s, i)))
    {
      assert CountOk(s, i);
    }
  }

  // ------------------------------------------------------------------ progress

  predicate Done(s: State) {
    s.lastRequested && forall i :: 0 <= i < |s.buffers| ==> s.buffers[i].stage == Finished
  }

  function Weight(buffers: seq<Buffer>): nat {
    if buffers == [] then 0 else 7 - Rank(buffers[0].stage) + Weight(buffers[1..])
  }

  /** The work that is left: bytes to give out, and stages to go through. */
  function Measure(file: string, s: State): nat
    requires s.position <= |file|
  {
    8 * (|file| - s.position + if s.lastRequested then 0 else 1) + Weight(s.buffers)
  }

  lemma {:induction false} WeightSplit(a: seq<Buffer>, b: seq<Buffer>)
    ensures Weight(a + b) == Weight(a) + Weight(b)
  {
    if a == [] {
      assert a + b == b;
    } else {
      assert (a + b)[1..] == a[1..] + b;
      WeightSplit(a[1..], b);
    }
  }

  /** Every step that is not a turn of the spin lock brings the run closer to its end. */
  lemma StepDecreases(file: string, s: State, threads: nat, step: Step)
    requires Inv(file, s) && Enabled(s, threads, step) && Safe(s, step)
    ensures var s' := Next(file, s, step);
      s'.position <= |file| && (Measure(file, s') < Measure(file, s)
        || (s' == s && step.Advance? && s.buffers[step.idx].stage == Waiting && step.idx - 1 !in s.bufferMap))
  {
    hide Inv, Weight, Parsed, Carry;
    PositionInFile(file, s);
    var s' := Next(file, s, step);
    match step
    case Assign(_, _) =>
      WeightSplit(s.buffers, s'.buffers[|s.buffers|..]);
      assert s'.buffers == s.buffers + s'.buffers[|s.buffers|..];
      WeightOne(s'.buffers[|s.buffers|]);
      assert s'.buffers[|s.buffers|..] == [s'.buffers[|s.buffers|]];
    case Advance(i) =>
      AdvanceFrame(file, s, i);
      AdvanceRank(file, s, i);
      WeightOfStages(s.buffers, s'.buffers, i);
  }

  lemma WeightOne(b: Buffer)
    ensures Weight([b]) == 7 - Rank(b.stage)
  {
    assert [b][1..] == [];
  }

  lemma PositionInFile(file: string, s: State)
    requires Inv(file, s)
    ensures s.position <= |file|
  {
  }

  lemma AdvanceRank(file: string, s: State, i: nat)
    requires s.position <= |file| && i < |s.buffers| && Safe(s, Advance(i)) && s.buffers[i].stage != Finished
    ensures var s' := Next(file, s, Advance(i));
      |s'.buffers| == |s.buffers| && (Rank(s'.buffers[i].stage) > Rank(s.buffers[i].stage)
        || (s' == s && s.buffers[i].stage == Waiting && i - 1 !in s.bufferMap))
  {
    hide Parsed, Carry;
  }

  lemma {:induction false} WeightOfStages(a: seq<Buffer>, b: seq<Buffer>, i: nat)
    requires |a| == |b| && i < |a|
    requires forall k :: 0 <= k < |a| && k != i ==> a[k].stage == b[k].stage
    ensures Weight(b) + Rank(b[i].stage) == Weight(a) + Rank(a[i].stage)
    decreases i
  {
    hide Rank;
    if i == 0 {
      SameWeight(a[1..], b[1..]);
    } else {
      WeightOfStages(a[1..], b[1..], i - 1);
    }
  }

  lemma {:induction false} SameWeight(a: seq<Buffer>, b: seq<Buffer>)
    requires |a| == |b|
    requires forall k :: 0 <= k < |a| ==> a[k].stage == b[k].stage
    ensures Weight(a) == Weight(b)
  {
    hide Rank;
    if a != [] {
      SameWeight(a[1..], b[1..]);
    }
  }

  lemma {:induction false} FirstUnfinished(s: State, n: nat) returns (i: nat)
    requires n < |s.buffers| && s.buffers[n].stage != Finished
    ensures i <= n && s.buffers[i].stage != Finished
    ensures forall k :: 0 <= k < i ==> s.buffers[k].stage == Finished
    decreases n
  {
    if k :| 0 <= k < n && s.buffers[k].stage != Finished {
      i := FirstUnfinished(s, k);
    } else {
      i := n;
    }
  }

  /** Whoever waits for a buffer whose scanner is finished finds it in the map. */
  lemma PreviousIsThere(file: string, s: State, i: nat)
    requires Inv(file, s) && i < |s.buffers|
    requires forall k :: 0 <= k < i ==> s.buffers[k].stage == Finished
    ensures s.buffers[i].stage == Waiting ==> i > 0 && i - 1 in s.bufferMap
  {
    hide Chunks, Concat;
    assert DataOk(s, i);
    if i > 0 {
      assert CountOk(s, i - 1);
    }
  }

  /** No deadlock: until all is done, some thread has a step that brings the run closer to its end. */
  lemma NoDeadlock(file: string, s: State, threads: nat) returns (step: Step)
    requires Inv(file, s) && threads > 0 && !Done(s)
    ensures Enabled(s, threads, step) && Safe(s, step)
    ensures var s' := Next(file, s, step); s'.position <= |file| && Measure(file, s') < Measure(file, s)
  {
    hide Next, Measure, CountOk, DataOk, Chunks, Concat;
    if n :| 0 <= n < |s.buffers| && s.buffers[n].stage != Finished {
      var i := FirstUnfinished(s, n);
      step := Advance(i);
      PreviousIsThere(file, s, i);
    } else {
      step := Assign(0, 1);
    }
    InvIsSafe(file, s, threads, step);
    StepDecreases(file, s, threads, step);
  }

  // ------------------------------------------------------------------ what a run yields

  /** The lines of the buffers from some index on, in buffer order. */
  function Output(buffers: seq<Buffer>): seq<string> {
    if buffers == [] then [] else buffers[0].lines + Output(buffers[1..])
  }

  lemma {:induction false} OutputFrom(file: string, s: State, k: nat)
    requires Inv(file, s) && Done(s) && k < |s.buffers|
    ensures Output(s.buffers[k..]) == ParallelLines(Before(s, k), DataFrom(s, k))
    decreases |s.buffers| - k
  {
    hide Parsed, Concat, CountOk, Inv, Carry, DataFrom, Lines, Complete;
    BufferYields(file, s, k);
    assert s.buffers[k..][0] == s.buffers[k] && s.buffers[k..][1..] == s.buffers[k + 1..];
    DataFromStep(s, k);
    if k + 1 < |s.buffers| {
      OutputFrom(file, s, k + 1);
    } else {
      assert s.buffers[k + 1..] == [];
      NoOutput(s.buffers[k].lines);
    }
  }

  lemma NoOutput(lines: seq<string>)
    ensures lines + Output([]) == lines
  {
  }

  /** The chunk before a buffer. */
  function Before(s: State, k: nat): string
    requires k < |s.buffers|
  {
    if k == 0 then "" else s.buffers[k - 1].chunk
  }

  /** The data from a buffer on, without the last, empty chunk. */
  function DataFrom(s: State, k: nat): seq<string>
    requires k < |s.buffers|
  {
    Chunks(s.buffers)[k..|s.buffers| - 1]
  }

  lemma DataFromStep(s: State, k: nat)
    requires k < |s.buffers|
    ensures k == |s.buffers| - 1 ==> DataFrom(s, k) == []
    ensures k < |s.buffers| - 1 ==>
      DataFrom(s, k) == [s.buffers[k].chunk] + DataFrom(s, k + 1)
  {
  }

  lemma BufferYields(file: string, s: State, k: nat)
    requires Inv(file, s) && Done(s) && k < |s.buffers|
    ensures var c := Carry(Before(s, k));
      s.buffers[k].lines == if k == |s.buffers| - 1 then Lines(c) else Complete(c + s.buffers[k].chunk)
  {
    hide CountOk, Lines, Complete, Concat, Chunks;
    var b := s.buffers[k];
    assert DataOk(s, k);
    assert b.taken + "" == b.taken;
    EmptyCarry();
  }

  lemma EmptyCarry()
    ensures Carry("") == ""
  {
  }

  /** The data of a finished run: its non-empty chunks, which tile the file. */
  lemma DoneTiles(file: string, s: State)
    requires Inv(file, s) && Done(s)
    ensures |s.buffers| > 0 && NonEmpty(DataFrom(s, 0)) && Concat(DataFrom(s, 0)) == file
  {
    hide Parsed, Carry, CountOk;
    var n, data := |s.buffers|, DataFrom(s, 0);
    forall i | 0 <= i < n - 1
      ensures data[i] != ""
    {
      assert DataOk(s, i) && data[i] == s.buffers[i].chunk;
    }
    assert DataOk(s, n - 1) && s.buffers[n - 1].chunk == "";
    assert Chunks(s.buffers) == data + [""];
    ConcatAppend(data, [""]);
    assert [""][1..] == [] && Concat([""]) == "" && file[..|file|] == file;
    assert Concat(data) + "" == Concat(data);
  }

  lemma DoneRemoved(file: string, s: State)
    requires Inv(file, s) && Done(s)
    ensures s.bufferMap == map[]
    ensures forall i :: 0 <= i < |s.buffers| ==> s.buffers[i].removals == 1
  {
    hide DataOk, Concat, Chunks;
    forall i | 0 <= i < |s.buffers|
      ensures s.buffers[i].removals == 1 && i !in s.bufferMap
    {
      assert CountOk(s, i) && NextReader(s.buffers[i], NextStage(s, i)) == 0;
    }
    assert s.bufferMap.Keys == {};
  }

  /**
   A finished run of any number of threads, interleaved in any way, has removed each buffer exactly
   once and left the map empty; its buffers yield the lines of the file exactly if no chunk
   swallows text, and so whenever every chunk contains a newline.
   */
  lemma RunYieldsLines(file: string, threads: nat, states: seq<State>, steps: seq<Step>)
    requires IsRun(file, threads, states, steps) && Done(states[|steps|])
    ensures var s := states[|steps|];
      && |s.buffers| > 0 && s.bufferMap == map[]
      && (forall i :: 0 <= i < |s.buffers| ==> s.buffers[i].removals == 1)
      && Concat(DataFrom(s, 0)) == file
      && (Output(s.buffers) == Lines(file) <==> KeepsAll("", DataFrom(s, 0)))
      && ((forall i :: 0 <= i < |DataFrom(s, 0)| ==> HasNewline(DataFrom(s, 0)[i])) ==>
           Output(s.buffers) == Lines(file))
  {
    hide IsRun, Lines, Chunks, Concat, HasNewline, KeepsAll, ParallelLines, Inv, DataFrom, NonEmpty;
    RunFinal(file, threads, states, steps);
    var s := states[|steps|];
    DoneTiles(file, s);
    DoneRemoved(file, s);
    OutputFrom(file, s, 0);
    assert s.buffers[0..] == s.buffers;
    ParallelExact(DataFrom(s, 0));
    if forall i :: 0 <= i < |DataFrom(s, 0)| ==> HasNewline(DataFrom(s, 0)[i]) {
      NewlinesKeepAll("", DataFrom(s, 0));
    }
  }

  lemma RunFinal(file: string, threads: nat, states: seq<State>, steps: seq<Step>)
    requires IsRun(file, threads, states, steps)
    ensures |states| == |steps| + 1 && Inv(file, states[|steps|])
  {
    RunKeepsInv(file, threads, states, steps, |steps|);
  }

  // ------------------------------------------------------------------ lines that are too long

  /**
   The step raises an object-size error: the line to be copied has no room in front of the next data,
   or the buffer ends with a cut-off line beyond the limit.
   */
  predicate Throws(s: State, limit: nat, step: Step) {
    step.Advance? && step.idx < |s.buffers| &&
    var b := s.buffers[step.idx];
    match b.stage
    case Copying => step.idx > 0 && step.idx - 1 in s.bufferMap && CarrySize(s.bufferMap[step.idx - 1].data) > limit
    case Parsing => step.idx in s.bufferMap && |Pending(b.taken + s.bufferMap[step.idx].data)| > limit
    case _ => false
  }

  /** No chunk is larger than the limit: what is asked for is the limit, less some padding. */
  predicate RequestsWithin(steps: seq<Step>, limit: nat) {
    forall i :: 0 <= i < |steps| && steps[i].Assign? ==> steps[i].requested <= limit
  }

  ghost predicate ChunksWithin(s: State, limit: nat) {
    forall k :: 0 <= k < |s.buffers| ==> |s.buffers[k].chunk| <= limit
  }

  /** Later states hold the buffers of earlier ones with the same chunks. */
  ghost predicate Extends(s: State, s': State) {
    |s.buffers| <= |s'.buffers| && forall k :: 0 <= k < |s.buffers| ==> s'.buffers[k].chunk == s.buffers[k].chunk
  }

  lemma StepExtends(file: string, s: State, step: Step, limit: nat)
    requires s.position <= |file| && Safe(s, step)
    ensures Extends(s, Next(file, s, step))
    ensures ChunksWithin(s, limit) && (step.Assign? ==> step.requested <= limit) ==>
      ChunksWithin(Next(file, s, step), limit)
  {
    if step.Advance? {
      hide Next;
      AdvanceFrame(file, s, step.idx);
    }
  }

  lemma {:induction false} RunExtends(file: string, threads: nat, states: seq<State>, steps: seq<Step>,
                                      i: nat, j: nat, limit: nat)
    requires IsRun(file, threads, states, steps) && i <= j < |states| && RequestsWithin(steps, limit)
    ensures Extends(states[i], states[j]) && ChunksWithin(states[j], limit)
    decreases j
  {
    hide Next, Safe, Enabled;
    if j > 0 {
      RunExtends(file, threads, states, steps, if i < j then i else j - 1, j - 1, limit);
      StepExtends(file, states[j - 1], steps[j - 1], limit);
    }
  }

  /** Whether a step raises an error is decided by the chunk and the one before it. */
  lemma ThrowsExactly(file: string, s: State, limit: nat, i: nat)
    requires Inv(file, s) && ChunksWithin(s, limit) && i < |s.buffers|
    ensures Throws(s, limit, Advance(i)) <==>
      s.buffers[i].stage == Parsing && !Fits(limit, Before(s, i), s.buffers[i].chunk)
  {
    hide Carry, Pending, CarrySize, Chunks, Concat;
    var b := s.buffers[i];
    assert DataOk(s, i) && CountOk(s, i);
    EmptyCarry();
    InvIsLocal(file, s, i);
    LocalIsSafe(s, i);
    MapHoldsChunks(s, i);
    if b.stage == Copying {
      CarryFits(limit, s.buffers[i - 1].chunk);
    }
  }

  /** A buffer that has been parsed was parsed by some step. */
  lemma {:induction false} ParsedAt(file: string, threads: nat, states: seq<State>, steps: seq<Step>, n: nat, k: nat)
    returns (i: nat)
    requires IsRun(file, threads, states, steps) && n < |states|
    requires k < |states[n].buffers| && Rank(states[n].buffers[k].stage) >= 5
    ensures i < n && steps[i] == Advance(k) && k < |states[i].buffers| && states[i].buffers[k].stage == Parsing
    decreases n
  {
    hide Next, Safe, Enabled, Rank;
    assert n > 0;
    var s := states[n - 1];
    if k < |s.buffers| && Rank(s.buffers[k].stage) >= 5 {
      i := ParsedAt(file, threads, states, steps, n - 1, k);
    } else {
      i := n - 1;
      OnlyParsing(file, s, steps[i], k);
    }
  }

  lemma OnlyParsing(file: string, s: State, step: Step, k: nat)
    requires s.position <= |file| && Safe(s, step)
    requires var s' := Next(file, s, step); k < |s'.buffers| && Rank(s'.buffers[k].stage) >= 5
    ensures k < |s.buffers| && (Rank(s.buffers[k].stage) >= 5 || (step == Advance(k) && s.buffers[k].stage == Parsing))
  {
    hide Parsed, Carry;
    if step.Advance? && step.idx != k {
      AdvanceFrame(file, s, step.idx);
    }
  }

  lemma {:induction false} AllFitIs(s: State, limit: nat, k: nat)
    requires k < |s.buffers|
    ensures AllFit(limit, Before(s, k), DataFrom(s, k)) <==>
      forall j :: k <= j < |s.buffers| - 1 ==> Fits(limit, Before(s, j), s.buffers[j].chunk)
    decreases |s.buffers| - k
  {
    hide Fits;
    DataFromStep(s, k);
    if k < |s.buffers| - 1 {
      AllFitIs(s, limit, k + 1);
    }
  }

  /**
   Whether a run meets an object-size error depends on its chunks alone and not on the interleaving:
   some step raises one exactly if some chunk, with what it takes over, does not fit.
   */
  lemma RunThrowsExactly(file: string, threads: nat, states: seq<State>, steps: seq<Step>, limit: nat)
    requires IsRun(file, threads, states, steps) && Done(states[|steps|]) && RequestsWithin(steps, limit)
    ensures var s := states[|steps|];
      && |s.buffers| > 0
      && ((exists i :: 0 <= i < |steps| && Throws(states[i], limit, steps[i])) <==> !AllFit(limit, "", DataFrom(s, 0)))
  {
    hide IsRun, Throws, Fits, Inv, DataFrom, NonEmpty, Concat, Chunks, AllFit;
    RunFinal(file, threads, states, steps);
    var n, s := |steps|, states[|steps|];
    DoneTiles(file, s);
    AllFitIs(s, limit, 0);
    if i :| 0 <= i < n && Throws(states[i], limit, steps[i]) {
      ThrowIsUnfit(file, threads, states, steps, limit, i);
    }
    if j :| 0 <= j < |s.buffers| - 1 && !Fits(limit, Before(s, j), s.buffers[j].chunk) {
      var i := UnfitThrows(file, threads, states, steps, limit, j);
    }
  }

  /** What a step raises, seen from the end of the run. */
  lemma ThrowDecided(file: string, threads: nat, states: seq<State>, steps: seq<Step>, limit: nat, i: nat, j: nat)
    requires IsRun(file, threads, states, steps) && RequestsWithin(steps, limit)
    requires i < |steps| < |states| && steps[i] == Advance(j) && j < |states[i].buffers|
    ensures var s := states[|steps|];
      && j < |s.buffers| && ChunksWithin(s, limit)
      && (Throws(states[i], limit, steps[i]) <==>
            states[i].buffers[j].stage == Parsing && !Fits(limit, Before(s, j), s.buffers[j].chunk))
  {
    hide IsRun, Fits, Inv, RequestsWithin, ChunksWithin, Throws;
    RunKeepsInv(file, threads, states, steps, i);
    RunExtends(file, threads, states, steps, i, |steps|, limit);
    RunExtends(file, threads, states, steps, 0, i, limit);
    ThrowsExactly(file, states[i], limit, j);
  }

  lemma ThrowIsUnfit(file: string, threads: nat, states: seq<State>, steps: seq<Step>, limit: nat, i: nat)
    requires IsRun(file, threads, states, steps) && RequestsWithin(steps, limit)
    requires i < |steps| < |states| && Done(states[|steps|]) && Throws(states[i], limit, steps[i])
    ensures var s := states[|steps|];
      exists j :: 0 <= j < |s.buffers| - 1 && !Fits(limit, Before(s, j), s.buffers[j].chunk)
  {
    hide IsRun, Fits, Inv, RequestsWithin, Done, ChunksWithin, Throws, Before;
    ThrownAt(states[i], limit, steps[i]);
    var s, j := states[|steps|], steps[i].idx;
    ThrowDecided(file, threads, states, steps, limit, i, j);
    RunFinal(file, threads, states, steps);
    if j == |s.buffers| - 1 {
      LastFits(file, s, limit);
    }
  }

  lemma ThrownAt(s: State, limit: nat, step: Step)
    requires Throws(s, limit, step)
    ensures step.Advance? && step.idx < |s.buffers|
  {
  }

  lemma LastFits(file: string, s: State, limit: nat)
    requires Inv(file, s) && Done(s) && ChunksWithin(s, limit) && |s.buffers| > 0
    ensures Fits(limit, Before(s, |s.buffers| - 1), s.buffers[|s.buffers| - 1].chunk)
  {
    hide Fits, CountOk, Concat, Chunks;
    var n := |s.buffers| - 1;
    assert DataOk(s, n);
    CarryFits(limit, Before(s, n));
  }

  lemma UnfitThrows(file: string, threads: nat, states: seq<State>, steps: seq<Step>, limit: nat, j: nat)
    returns (i: nat)
    requires IsRun(file, threads, states, steps) && RequestsWithin(steps, limit)
    requires |steps| < |states| && Done(states[|steps|])
    requires var s := states[|steps|]; j < |s.buffers| && !Fits(limit, Before(s, j), s.buffers[j].chunk)
    ensures i < |steps| && Throws(states[i], limit, steps[i])
  {
    hide IsRun, Fits, RequestsWithin, ChunksWithin, Throws, Before;
    i := ParsedAt(file, threads, states, steps, |steps|, j);
    ThrowDecided(file, threads, states, steps, limit, i, j);
  }

  /**
   A run to the end without an error loses text exactly if all chunks fit and some chunk swallows
   text: a chunk without a newline, with what it took over, is then within the limit.
   */
  lemma SilentLossExactly(file: string, threads: nat, states: seq<State>, steps: seq<Step>, limit: nat)
    requires IsRun(file, threads, states, steps) && Done(states[|steps|]) && RequestsWithin(steps, limit)
    ensures var s := states[|steps|];
      var quiet := forall i :: 0 <= i < |steps| ==> !Throws(states[i], limit, steps[i]);
      && |s.buffers| > 0
      && (quiet && Output(s.buffers) != Lines(file) <==>
            AllFit(limit, "", DataFrom(s, 0)) && !KeepsAll("", DataFrom(s, 0)))
  {
    hide Throws, AllFit, KeepsAll, Lines, DataFrom, RequestsWithin, Done, Next, Safe, Enabled;
    RunThrowsExactly(file, threads, states, steps, limit);
    RunYieldsLines(file, threads, states, steps);
  }
}
