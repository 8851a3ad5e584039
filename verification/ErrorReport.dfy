/**
 Reporting the first error of a parallel scan. Buffers are parsed in any order; an error can only be
 thrown with its line number once all buffers before its own have been counted, and another error
 that comes earlier in the file may still turn up until then.
 */
module ErrorReport {
  import opened Basics

  datatype JsonError = JsonError(bufIndex: nat, lineInBuf: nat, msg: string)

  /** What is thrown: an error and the line number put into its message. */
  datatype Thrown = Thrown(error: JsonError, line: nat)

  const NOT_COUNTED: int := -1

  predicate Earlier(a: JsonError, b: JsonError) {
    a.bufIndex < b.bufIndex || (a.bufIndex == b.bufIndex && a.lineInBuf < b.lineInBuf)
  }

  /** The error that is kept; of two in the same line the later one stays. */
  function Record(kept: Option<JsonError>, e: JsonError): Option<JsonError> {
    if kept.Some? && Earlier(kept.value, e) then kept else Some(e)
  }

  predicate AllCounted(counts: seq<int>, n: nat)
    requires n <= |counts|
  {
    forall b :: 0 <= b < n ==> counts[b] != NOT_COUNTED
  }

  function Sum(counts: seq<int>): int {
    if counts == [] then 0 else Sum(counts[..|counts| - 1]) + counts[|counts| - 1]
  }

  lemma {:induction false} SumAtLeast(counts: seq<int>)
    requires forall b :: 0 <= b < |counts| ==> counts[b] >= 0
    ensures Sum(counts) >= 0
  {
    if counts != [] {
      SumAtLeast(counts[..|counts| - 1]);
    }
  }

  predicate GoodCounts(counts: seq<int>) {
    forall b :: 0 <= b < |counts| ==> counts[b] >= NOT_COUNTED
  }

  /** What would be thrown now. */
  function Report(counts: seq<int>, kept: Option<JsonError>): Option<Thrown>
    requires GoodCounts(counts) && (kept.Some? ==> kept.value.bufIndex < |counts|)
  {
    match kept
    case None => None
    case Some(e) =>
      if !AllCounted(counts, e.bufIndex) then None
      else
        SumAtLeast(counts[..e.bufIndex]);
        Some(Thrown(e, e.lineInBuf + Sum(counts[..e.bufIndex]) + 1))
  }

  /** The two kinds of errors, and the place that is recorded for the line of a buffer, counted from zero. */
  datatype ErrorKind = Parsing | Transforming

  function Failure(kind: ErrorKind, index: nat, line: nat, msg: string): JsonError {
    JsonError(index, if kind.Parsing? then line + 1 else line, msg)
  }

  // ---------------------------------------------------------------- the reader's part

  /** What an error changes in the scan that meets it. */
  class ScanPosition {
    var bufferOffset: nat
    var bufferSize: nat
    var scanCount: nat

    constructor (bufferOffset: nat, bufferSize: nat, scanCount: nat)
      ensures this.bufferOffset == bufferOffset && this.bufferSize == bufferSize && this.scanCount == scanCount
    {
      this.bufferOffset, this.bufferSize, this.scanCount := bufferOffset, bufferSize, scanCount;
    }
  }

  class JsonReader {
    var counts: seq<int>
    var error: Option<JsonError>
    var thrown: bool

    ghost predicate Valid()
      reads this
    {
      GoodCounts(counts) && (error.Some? ==> error.value.bufIndex < |counts|)
    }

    constructor ()
      ensures Valid() && counts == [] && error == None && !thrown
    {
      counts, error, thrown := [], None, false;
    }

    method GetBufferIndex() returns (index: nat)
      requires Valid()
      modifies this`counts
      ensures Valid() && counts == old(counts) + [NOT_COUNTED] && index == |old(counts)|
    {
      index := |counts|;
      counts := counts + [NOT_COUNTED];
    }

    method SetBufferLineOrObjectCount(index: nat, count: nat) returns (t: Option<Thrown>)
      requires Valid() && index < |counts| && counts[index] == NOT_COUNTED
      modifies this`counts, this`thrown
      ensures Valid() && counts == old(counts)[index := count]
      ensures t == Report(counts, error) && thrown == (old(thrown) || t.Some?)
    {
      counts := counts[index := count];
      t := ThrowErrorsIfPossible();
    }

    /** Unless the error can be thrown, the scan's batch is dropped and its offset is set back to zero. */
    method AddParseError(scan: ScanPosition, index: nat, lineInBuf: nat, msg: string) returns (t: Option<Thrown>)
      requires Valid() && index < |counts|
      modifies this`error, this`thrown, scan`bufferOffset, scan`scanCount
      ensures Valid() && error == Record(old(error), Failure(Parsing, index, lineInBuf, msg))
      ensures t == Report(counts, error) && thrown == (old(thrown) || t.Some?)
      ensures if t.Some? then scan.bufferOffset == old(scan.bufferOffset) && scan.scanCount == old(scan.scanCount)
              else scan.bufferOffset == 0 && scan.scanCount == 0
    {
      AddError(index, lineInBuf + 1, msg);
      t := ThrowErrorsIfPossible();
      if t.None? {
        scan.bufferOffset := 0;
        scan.scanCount := 0;
      }
    }

    /** Unless the error can be thrown, the scan's batch and the rest of its buffer are dropped. */
    method AddTransformError(scan: ScanPosition, index: nat, lineInBuf: nat, msg: string) returns (t: Option<Thrown>)
      requires Valid() && index < |counts|
      modifies this`error, this`thrown, scan`bufferOffset, scan`scanCount
      ensures Valid() && error == Record(old(error), Failure(Transforming, index, lineInBuf, msg))
      ensures t == Report(counts, error) && thrown == (old(thrown) || t.Some?)
      ensures if t.Some? then scan.bufferOffset == old(scan.bufferOffset) && scan.scanCount == old(scan.scanCount)
              else scan.bufferOffset == scan.bufferSize && scan.scanCount == 0
    {
      AddError(index, lineInBuf, msg);
      t := ThrowErrorsIfPossible();
      if t.None? {
        scan.bufferOffset := scan.bufferSize;
        scan.scanCount := 0;
      }
    }

    method AddError(index: nat, lineInBuf: nat, msg: string)
      requires Valid() && index < |counts|
      modifies this`error
      ensures Valid() && error == Record(old(error), JsonError(index, lineInBuf, msg))
      ensures old(error).Some? ==>
        var e := old(error).value;
        error == if e.bufIndex < index || (e.bufIndex == index && e.lineInBuf < lineInBuf) then old(error)
                 else Some(JsonError(index, lineInBuf, msg))
    {
      if error.Some? {
        if error.value.bufIndex < index || (error.value.bufIndex == index && error.value.lineInBuf < lineInBuf) {
          return;
        }
      }
      error := Some(JsonError(index, lineInBuf, msg));
    }

    method TryGetLineNumber(index: nat, lineInBuf: nat) returns (line: Option<int>)
      requires Valid() && index <= |counts|
      ensures line == if AllCounted(counts, index) then Some(lineInBuf + Sum(counts[..index])) else None
    {
      var sum: int := lineInBuf;
      for b := 0 to index
        invariant AllCounted(counts, b) && sum == lineInBuf + Sum(counts[..b])
      {
        if counts[b] == NOT_COUNTED {
          return None;
        }
        assert counts[..b + 1][..b] == counts[..b];
        sum := sum + counts[b];
      }
      line := Some(sum);
    }

    method ThrowErrorsIfPossible() returns (t: Option<Thrown>)
      requires Valid()
      modifies this`thrown
      ensures t == Report(counts, error) && thrown == (old(thrown) || t.Some?)
    {
      if error.None? {
        return None;
      }
      var line := TryGetLineNumber(error.value.bufIndex, error.value.lineInBuf);
      if line.None? {
        return None;
      }
      thrown := true;
      SumAtLeast(counts[..error.value.bufIndex]);
      t := Some(Thrown(error.value, line.value + 1));
    }
  }

  // ---------------------------------------------------------------- all orders of events

  datatype Event = NewBuffer | Failed(error: JsonError) | Finished(index: nat, count: nat)

  datatype State = State(counts: seq<int>, error: Option<JsonError>)

  const INITIAL_STATE: State := State([], None)

  /** A buffer records errors only before it is counted, and it is counted once. */
  predicate Allowed(s: State, e: Event) {
    match e
    case NewBuffer => true
    case Failed(error) => error.bufIndex < |s.counts| && s.counts[error.bufIndex] == NOT_COUNTED
    case Finished(index, _) => index < |s.counts| && s.counts[index] == NOT_COUNTED
  }

  /** The state after an event, as the methods leave it. */
  function Step(s: State, e: Event): State
    requires Allowed(s, e)
  {
    match e
    case NewBuffer => s.(counts := s.counts + [NOT_COUNTED])
    case Failed(error) => s.(error := Record(s.error, error))
    case Finished(index, count) => s.(counts := s.counts[index := count])
  }

  predicate Possible(s: State, events: seq<Event>)
    decreases |events|
  {
    events != [] ==> Allowed(s, events[0]) && Possible(Step(s, events[0]), events[1..])
  }

  function Run(s: State, events: seq<Event>): State
    requires Possible(s, events)
    decreases |events|
  {
    if events == [] then s else Run(Step(s, events[0]), events[1..])
  }

  /** The kept error is one of the recorded ones, and none of them comes earlier. */
  predicate Keeps(s: State, recorded: set<JsonError>) {
    && GoodCounts(s.counts)
    && (s.error.None? <==> recorded == {})
    && (s.error.Some? ==> s.error.value in recorded && s.error.value.bufIndex < |s.counts|)
    && (s.error.Some? ==> forall e :: e in recorded ==> !Earlier(e, s.error.value))
  }

  function Errors(events: seq<Event>): set<JsonError> {
    set i | 0 <= i < |events| && events[i].Failed? :: events[i].error
  }

  lemma ErrorsOf(events: seq<Event>)
    requires events != []
    ensures Errors(events) == (if events[0].Failed? then {events[0].error} else {}) + Errors(events[1..])
  {
    forall e ensures e in Errors(events) <==>
      e in (if events[0].Failed? then {events[0].error} else {}) + Errors(events[1..]) {
      if e in Errors(events) {
        var i :| 0 <= i < |events| && events[i].Failed? && events[i].error == e;
        if i > 0 {
          assert events[1..][i - 1] == events[i];
        }
      }
      if e in Errors(events[1..]) {
        var i :| 0 <= i < |events[1..]| && events[1..][i].Failed? && events[1..][i].error == e;
        assert events[i + 1] == events[1..][i];
      }
    }
  }

  lemma StepKeeps(s: State, recorded: set<JsonError>, e: Event)
    requires Keeps(s, recorded) && Allowed(s, e)
    ensures Keeps(Step(s, e), recorded + if e.Failed? then {e.error} else {})
  {
  }

  lemma {:induction false} RunKeeps(s: State, recorded: set<JsonError>, events: seq<Event>)
    requires Keeps(s, recorded) && Possible(s, events)
    ensures Keeps(Run(s, events), recorded + Errors(events))
    decreases |events|
  {
    hide Keeps, Step, Errors, Allowed;
    if events == [] {
      NoErrors();
      assert recorded + {} == recorded;
    } else {
      StepKeeps(s, recorded, events[0]);
      var more := recorded + if events[0].Failed? then {events[0].error} else {};
      RunKeeps(Step(s, events[0]), more, events[1..]);
      ErrorsOf(events);
      assert more + Errors(events[1..]) == recorded + Errors(events);
    }
  }

  lemma NoErrors()
    ensures Errors([]) == {}
  {
  }

  /** The errors of a continuation are in buffers that had not been counted. */
  lemma {:induction false} LaterErrors(s: State, n: nat, events: seq<Event>)
    requires Possible(s, events) && n <= |s.counts| && AllCounted(s.counts, n)
    ensures forall e :: e in Errors(events) ==> e.bufIndex >= n
    decreases |events|
  {
    if events != [] {
      LaterErrors(Step(s, events[0]), n, events[1..]);
      ErrorsOf(events);
    }
  }

  lemma {:induction false} RunAppend(s: State, a: seq<Event>, b: seq<Event>)
    requires Possible(s, a + b)
    ensures Possible(s, a) && Possible(Run(s, a), b)
    decreases |a|
  {
    hide Step, Allowed;
    if a == [] {
      assert a + b == b;
    } else {
      assert (a + b)[1..] == a[1..] + b && (a + b)[0] == a[0];
      RunAppend(Step(s, a[0]), a[1..], b);
    }
  }

  /**
   What is thrown after some events of any history is an error of the earliest erroring buffer of
   the whole history, the earliest of those recorded, and its line number adds all earlier counts.
   */
  lemma ThrownIsEarliest(past: seq<Event>, future: seq<Event>)
    requires Possible(INITIAL_STATE, past + future)
    ensures Possible(INITIAL_STATE, past)
    ensures
      var s := Run(INITIAL_STATE, past);
      && GoodCounts(s.counts) && (s.error.Some? ==> s.error.value.bufIndex < |s.counts|)
      && match Report(s.counts, s.error)
         case None => true
         case Some(t) =>
           && t.error in Errors(past)
           && (forall e :: e in Errors(past) ==> !Earlier(e, t.error))
           && (forall e :: e in Errors(past) && e.bufIndex == t.error.bufIndex ==> t.error.lineInBuf <= e.lineInBuf)
           && (forall e :: e in Errors(past) || e in Errors(future) ==> t.error.bufIndex <= e.bufIndex)
           && t.line == t.error.lineInBuf + Sum(s.counts[..t.error.bufIndex]) + 1
  {
    hide Errors, Sum;
    RunAppend(INITIAL_STATE, past, future);
    NoErrors();
    RunKeeps(INITIAL_STATE, {}, past);
    assert {} + Errors(past) == Errors(past);
    var s := Run(INITIAL_STATE, past);
    if s.error.Some? && AllCounted(s.counts, s.error.value.bufIndex) {
      LaterErrors(s, s.error.value.bufIndex, future);
    }
  }

  /** No error is lost: when all buffers are counted, an error has been recorded exactly if one can be thrown. */
  lemma ErrorIsThrown(events: seq<Event>)
    requires Possible(INITIAL_STATE, events)
    requires AllCounted(Run(INITIAL_STATE, events).counts, |Run(INITIAL_STATE, events).counts|)
    ensures Keeps(Run(INITIAL_STATE, events), Errors(events))
    ensures Errors(events) != {} <==> Report(Run(INITIAL_STATE, events).counts, Run(INITIAL_STATE, events).error).Some?
  {
    hide Errors;
    NoErrors();
    RunKeeps(INITIAL_STATE, {}, events);
    assert {} + Errors(events) == Errors(events);
  }

  /**
   What is reported for an error in a line, counted from zero over the whole file, when it is the
   first one recorded: a transform error gives the line counted from one, and a parse error one more.
   */
  lemma ReportedLine(s: State, kind: ErrorKind, index: nat, line: nat, msg: string)
    requires GoodCounts(s.counts) && s.error.None? && Allowed(s, Failed(Failure(kind, index, line, msg)))
    ensures
      var after := Step(s, Failed(Failure(kind, index, line, msg)));
      && after.counts == s.counts && after.error.Some? && after.error.value.bufIndex < |after.counts|
      && (Report(after.counts, after.error).Some? <==> AllCounted(s.counts, index))
      && (AllCounted(s.counts, index) ==>
            Report(after.counts, after.error).value.line == Sum(s.counts[..index]) + line
              + if kind.Parsing? then 2 else 1)
  {
    hide Sum;
  }

  lemma {:induction false} SumAppend(a: seq<int>, b: seq<int>)
    ensures Sum(a + b) == Sum(a) + Sum(b)
    ensures forall x: int :: Sum([x]) == x
    decreases |b|
  {
    if b == [] {
      assert a + b == a;
    } else {
      SumAppend(a, b[..|b| - 1]);
      assert (a + b)[..|a + b| - 1] == a + b[..|b| - 1];
    }
  }

  // What the events themselves decide, without the counts and the error in the state.

  /** The counts are those with which the buffers were finished; the others are not counted. */
  predicate CountsAre(counts: seq<int>, events: seq<Event>) {
    && (forall i :: 0 <= i < |events| && events[i].Finished? ==> events[i].index < |counts|)
    && (forall b :: 0 <= b < |counts| ==> CountIs(counts[b], events, b))
  }

  predicate CountIs(count: int, events: seq<Event>, b: nat) {
    (count == NOT_COUNTED && NotFinished(events, b)) || (count >= 0 && FinishedWith(events, b, count))
  }

  predicate NotFinished(events: seq<Event>, b: nat) {
    forall i :: 0 <= i < |events| ==> !(events[i].Finished? && events[i].index == b)
  }

  predicate FinishedWith(events: seq<Event>, b: nat, count: int) {
    exists i :: 0 <= i < |events| && events[i].Finished? && events[i].index == b && events[i].count == count
  }

  function NewBuffers(events: seq<Event>): nat {
    if events == [] then 0
    else NewBuffers(events[..|events| - 1]) + if events[|events| - 1].NewBuffer? then 1 else 0
  }

  lemma {:induction false} RunLast(s: State, events: seq<Event>, e: Event)
    requires Possible(s, events + [e])
    ensures Possible(s, events) && Allowed(Run(s, events), e)
    ensures Run(s, events + [e]) == Step(Run(s, events), e)
    decreases |events|
  {
    hide Step, Allowed;
    if events == [] {
      assert events + [e] == [e] && [e][1..] == [];
    } else {
      assert (events + [e])[1..] == events[1..] + [e] && (events + [e])[0] == events[0];
      RunLast(Step(s, events[0]), events[1..], e);
    }
  }

  /** A buffer counts exactly if it was finished, even with no lines, and then with what it was finished with. */
  lemma {:induction false} CountedIsFinished(events: seq<Event>)
    requires Possible(INITIAL_STATE, events)
    ensures |Run(INITIAL_STATE, events).counts| == NewBuffers(events)
    ensures CountsAre(Run(INITIAL_STATE, events).counts, events)
    ensures forall n :: 0 <= n <= |Run(INITIAL_STATE, events).counts| ==>
      (AllCounted(Run(INITIAL_STATE, events).counts, n) <==> forall b :: 0 <= b < n ==> !NotFinished(events, b))
    decreases |events|
  {
    hide Possible, Run;
    FinishedAreCounted(events);
    if events == [] {
      StartsEmpty();
    } else {
      var init, e := events[..|events| - 1], events[|events| - 1];
      assert events == init + [e];
      RunLast(INITIAL_STATE, init, e);
      CountedIsFinished(init);
      EventCounts(Run(INITIAL_STATE, init), init, e);
    }
  }

  lemma FinishedAreCounted(events: seq<Event>)
    ensures forall counts, n: nat :: CountsAre(counts, events) && n <= |counts| ==>
      (AllCounted(counts, n) <==> forall b :: 0 <= b < n ==> !NotFinished(events, b))
  {
    forall counts, n: nat | CountsAre(counts, events) && n <= |counts|
      ensures AllCounted(counts, n) <==> forall b :: 0 <= b < n ==> !NotFinished(events, b)
    {
      forall b | 0 <= b < n ensures counts[b] != NOT_COUNTED <==> !NotFinished(events, b) {
        assert CountIs(counts[b], events, b);
      }
    }
  }

  lemma StartsEmpty()
    ensures Possible(INITIAL_STATE, []) && Run(INITIAL_STATE, []) == INITIAL_STATE
  {
  }

  lemma EventCounts(s: State, init: seq<Event>, e: Event)
    requires Allowed(s, e) && CountsAre(s.counts, init)
    ensures CountsAre(Step(s, e).counts, init + [e])
  {
    hide CountIs;
    var events, counts := init + [e], Step(s, e).counts;
    assert forall i :: 0 <= i < |init| ==> events[i] == init[i];
    forall b | 0 <= b < |counts| ensures CountIs(counts[b], events, b) {
      CountNext(s, init, e, b);
    }
  }

  lemma CountNext(s: State, init: seq<Event>, e: Event, b: nat)
    requires Allowed(s, e) && b < |Step(s, e).counts|
    requires b < |s.counts| ==> CountIs(s.counts[b], init, b)
    requires forall i :: 0 <= i < |init| && init[i].Finished? ==> init[i].index < |s.counts|
    ensures CountIs(Step(s, e).counts[b], init + [e], b)
  {
    var events := init + [e];
    assert forall i :: 0 <= i < |init| ==> events[i] == init[i];
    assert events[|init|] == e;
    if b < |s.counts| && s.counts[b] >= 0 {
      var i :| 0 <= i < |init| && init[i].Finished? && init[i].index == b && init[i].count == s.counts[b];
      assert events[i] == init[i];
    }
  }

  /** The error that is kept is the last one recorded of those that stand first. */
  predicate LastOfFirst(events: seq<Event>, kept: Option<JsonError>) {
    match kept
    case None => forall i :: 0 <= i < |events| ==> !events[i].Failed?
    case Some(e) =>
      exists i :: 0 <= i < |events| && events[i] == Failed(e)
        && (forall j :: 0 <= j < i && events[j].Failed? ==> !Earlier(events[j].error, e))
        && (forall j :: i < j < |events| && events[j].Failed? ==> Earlier(e, events[j].error))
  }

  lemma {:induction false} KeptIsLastOfFirst(events: seq<Event>)
    requires Possible(INITIAL_STATE, events)
    ensures LastOfFirst(events, Run(INITIAL_STATE, events).error)
    decreases |events|
  {
    hide Possible, Run, LastOfFirst;
    if events == [] {
      StartsEmpty();
      NoneRecorded();
    } else {
      var init, e := events[..|events| - 1], events[|events| - 1];
      assert events == init + [e];
      RunLast(INITIAL_STATE, init, e);
      KeptIsLastOfFirst(init);
      RecordedNext(Run(INITIAL_STATE, init), init, e);
    }
  }

  lemma NoneRecorded()
    ensures LastOfFirst([], None)
  {
  }

  lemma RecordedNext(s: State, init: seq<Event>, e: Event)
    requires Allowed(s, e) && LastOfFirst(init, s.error)
    ensures LastOfFirst(init + [e], Step(s, e).error)
  {
    hide LastOfFirst;
    if e.Failed? && !(s.error.Some? && Earlier(s.error.value, e.error)) {
      NewIsKept(init, s.error, e.error);
    } else if s.error.Some? {
      OldIsKept(init, s.error.value, e);
    } else {
      StillNone(init, e);
    }
  }

  lemma StillNone(init: seq<Event>, e: Event)
    requires LastOfFirst(init, None) && !e.Failed?
    ensures LastOfFirst(init + [e], None)
  {
  }

  lemma OldIsKept(init: seq<Event>, kept: JsonError, e: Event)
    requires LastOfFirst(init, Some(kept)) && (e.Failed? ==> Earlier(kept, e.error))
    ensures LastOfFirst(init + [e], Some(kept))
  {
    hide Earlier;
    var events := init + [e];
    var i :| 0 <= i < |init| && init[i] == Failed(kept)
      && (forall j :: 0 <= j < i && init[j].Failed? ==> !Earlier(init[j].error, kept))
      && (forall j :: i < j < |init| && init[j].Failed? ==> Earlier(kept, init[j].error));
    assert events[i] == Failed(kept);
  }

  lemma NewIsKept(init: seq<Event>, kept: Option<JsonError>, e: JsonError)
    requires LastOfFirst(init, kept) && !(kept.Some? && Earlier(kept.value, e))
    ensures LastOfFirst(init + [Failed(e)], Some(e))
  {
    var events := init + [Failed(e)];
    forall j | 0 <= j < |init| && events[j].Failed? ensures !Earlier(events[j].error, e) {
      assert init[j] == events[j];
    }
    assert events[|init|] == Failed(e);
  }
}
