/**
 The scan of a file whose chunks are parsed independently. A buffer takes over the cut-off line of
 the buffer before it, but it looks back no further than that one buffer's own data. Hence the
 buffers together yield the lines of the file exactly if no chunk without a newline swallows text.
 */
module ParallelScan {
  import opened Basics
  import opened TextLines
  import opened ScanState

  /** Where the search for the previous newline stops: at the last newline, or else at the start. */
  function ObjectStart(chunk: string): (k: nat)
    ensures chunk != "" ==> k < |chunk|
  {
    if Cut(chunk) >= 2 then Cut(chunk) - 1 else 0
  }

  /** The bytes from there on: the last newline and the cut-off line, or the whole chunk. */
  function CarrySize(chunk: string): nat {
    |chunk| - ObjectStart(chunk)
  }

  /** What the next buffer takes over; a single byte is taken for the newline itself. */
  function Carry(chunk: string): string {
    if CarrySize(chunk) == 1 then "" else chunk[ObjectStart(chunk)..]
  }

  /** The lines of all buffers in buffer order; the last buffer is empty but for what it takes over. */
  function ParallelLines(previous: string, chunks: seq<string>): seq<string>
    decreases |chunks|
  {
    if chunks == [] then Lines(Carry(previous))
    else Complete(Carry(previous) + chunks[0]) + ParallelLines(chunks[0], chunks[1..])
  }

  ghost predicate NonEmpty(chunks: seq<string>) {
    forall i :: 0 <= i < |chunks| ==> chunks[i] != ""
  }

  /** A chunk without a newline must have nothing to pass on, and must not be a lone byte. */
  predicate KeepsAll(previous: string, chunks: seq<string>)
    decreases |chunks|
  {
    chunks == [] ||
    ((HasNewline(chunks[0]) || (Blank(Carry(previous)) && (|chunks[0]| == 1 ==> Blank(chunks[0]))))
      && KeepsAll(chunks[0], chunks[1..]))
  }

  lemma CarryTail(chunk: string)
    requires HasNewline(chunk)
    ensures TrimLeft(Carry(chunk)) == TrimLeft(Tail(chunk))
  {
    hide TrimLeft, IsSpace;
    var k := Cut(chunk);
    CutAt(chunk, k);
    BlankNewline();
    TrimLeftSplit("\n", Tail(chunk));
    TrimLeftSplit("\n", "");
    assert chunk[k - 1..] == "\n" + chunk[k..];
    assert "\n" + "" == "\n";
  }

  lemma CarryWhole(chunk: string)
    requires !HasNewline(chunk) && chunk != ""
    ensures Carry(chunk) == if |chunk| == 1 then "" else chunk
  {
    NoTail(chunk);
  }

  /** What is taken over holds no line that has been completed before. */
  lemma CarryCompletes(chunk: string)
    ensures Complete(Carry(chunk)) == []
  {
    hide IsSpace, Lines, HasNewline, Carry;
    CarryCut(chunk);
    var c := Carry(chunk);
    assert c[..Cut(c)] == if Cut(c) == 1 then "\n" else "";
    BlankNewline();
    BlankEmpty();
    NoLine("\n");
    NoLine("");
  }

  lemma CarryCut(chunk: string)
    ensures Cut(Carry(chunk)) <= 1
  {
    hide IsSpace;
    var k, c := ObjectStart(chunk), Carry(chunk);
    assert forall i :: 0 <= i < |c| ==> c[i] == chunk[k + i];
  }

  lemma BlankNewline()
    ensures Blank("\n")
  {
  }

  lemma NoLine(w: string)
    requires Blank(w)
    ensures Lines(w) == []
  {
    assert w + "" == w;
    LinesSkip(w, "");
    LinesNoNewline("");
  }

  lemma CompleteSame(a: string, b: string, c: string)
    requires TrimLeft(a) == TrimLeft(b) && Complete(a) == Complete(b)
    ensures Complete(a + c) == Complete(b + c)
  {
    hide TrimLeft, Complete, Lines, IsSpace;
    CompleteAppend(a, c);
    CompleteAppend(b, c);
    LinesSameStart(a, b, c[..Cut(c)]);
  }

  /** The step of one chunk: what the true cut-off line and the carried one become. */
  lemma CarryStep(t: string, previous: string, chunk: string)
    requires !HasNewline(t) && TrimLeft(Carry(previous)) == TrimLeft(t)
    requires chunk != "" && KeepsAll(previous, [chunk])
    ensures TrimLeft(Carry(chunk)) == TrimLeft(Tail(t + chunk))
  {
    hide Carry, IsSpace;
    TailAppend(t, chunk);
    if HasNewline(chunk) {
      CarryTail(chunk);
    } else {
      NoTail(t);
      CarryWhole(chunk);
      BlankTrims(Carry(previous));
      BlankTrims(t);
      TrimLeftSplit(t, chunk);
      BlankTrims(chunk);
    }
  }

  /** While nothing is swallowed, the buffers yield the lines that a single scan would. */
  lemma {:induction false} ParallelKeeps(t: string, previous: string, chunks: seq<string>)
    requires !HasNewline(t) && TrimLeft(Carry(previous)) == TrimLeft(t)
    requires NonEmpty(chunks) && KeepsAll(previous, chunks)
    ensures ParallelLines(previous, chunks) == Lines(t + Concat(chunks))
    decreases |chunks|
  {
    hide Carry, TrimLeft, Lines, Complete, Tail, Blank, IsSpace;
    if chunks == [] {
      LinesSameStart(Carry(previous), t, "");
      Plus(t);
      Plus(Carry(previous));
    } else {
      var c, rest := chunks[0], chunks[1..];
      Regroup(t, c, Concat(rest));
      LinesComplete(t + c, Concat(rest));
      CarryCompletes(previous);
      NoTail(t);
      CompleteSame(Carry(previous), t, c);
      CarryStep(t, previous, c);
      TailHasNone(t + c);
      ParallelKeeps(Tail(t + c), c, rest);
    }
  }

  lemma Plus(s: string)
    ensures s + "" == s
  {
  }

  lemma TailHasNone(s: string)
    ensures !HasNewline(Tail(s))
  {
  }

  /** The number of characters that are not whitespace. */
  function Ink(s: string): nat {
    if s == "" then 0 else (if IsSpace(s[0]) then 0 else 1) + Ink(s[1..])
  }

  function InkOf(lines: seq<string>): nat {
    if lines == [] then 0 else Ink(lines[0]) + InkOf(lines[1..])
  }

  lemma {:induction false} InkAppend(a: string, b: string)
    ensures Ink(a + b) == Ink(a) + Ink(b)
  {
    if a == "" {
      assert a + b == b;
    } else {
      InkAppend(a[1..], b);
      assert (a + b)[1..] == a[1..] + b;
    }
  }

  lemma InkOfAppend(a: seq<string>, b: seq<string>)
    ensures InkOf(a + b) == InkOf(a) + InkOf(b)
  {
    if a == [] {
      assert a + b == b;
    } else {
      assert (a + b)[1..] == a[1..] + b;
    }
  }

  lemma {:induction false} InkBlank(s: string)
    ensures Ink(s) == 0 <==> Blank(s)
  {
    hide IsSpace;
    if s != "" {
      InkBlank(s[1..]);
      assert Blank(s) <==> IsSpace(s[0]) && Blank(s[1..]) by {
        assert s == [s[0]] + s[1..];
        BlankParts("", [s[0]], s[1..]);
        assert "" + [s[0]] == [s[0]];
      }
    }
  }

  lemma InkOne(line: string)
    ensures InkOf([line]) == Ink(line) && InkOf([]) == 0
  {
    assert [line][1..] == [];
  }

  lemma CutTrim(s: string) returns (w: string, u: string)
    ensures s == w + (Trim(s) + u) && Blank(w) && Blank(u)
  {
    hide IsSpace;
    w := CutSpace(s);
    var t := TrimLeft(s);
    u := t[Trailing(t)..];
  }

  lemma InkEmit(line: string)
    ensures InkOf(Emit(line)) == Ink(line)
  {
    hide IsSpace, Ink, Trim, Blank, InkOf;
    var w, u := CutTrim(line);
    InkAppend(w, Trim(line) + u);
    InkAppend(Trim(line), u);
    InkBlank(w);
    InkBlank(u);
    InkBlank("");
    InkOne(Trim(line));
    BlankEmpty();
  }

  lemma BlankEmpty()
    ensures Blank("")
  {
  }

  /** Cutting a text into lines keeps all of its ink. */
  lemma {:induction false} InkLines(s: string)
    ensures InkOf(Lines(s)) == Ink(s)
    decreases |s|
  {
    hide IsSpace, Ink, Emit, Lines, HasNewline;
    if HasNewline(s) {
      var line, rest := CutFirstLine(s);
      LinesCons(line, rest);
      InkOfAppend(Emit(line), Lines(rest));
      InkEmit(line);
      InkLines(rest);
      Regroup(line, "\n", rest);
      InkAppend(line, "\n" + rest);
      InkAppend("\n", rest);
      InkNewline();
    } else {
      LinesNoNewline(s);
      InkEmit(s);
    }
  }

  lemma InkNewline()
    ensures Ink("\n") == 0
  {
    InkBlank("\n");
  }

  /** The ink that is swallowed: at each chunk without a newline, what it fails to pass on. */
  function Swallowed(previous: string, chunks: seq<string>): nat
    decreases |chunks|
  {
    if chunks == [] then 0 else
      (if HasNewline(chunks[0]) then 0
       else Ink(Carry(previous)) + if |chunks[0]| == 1 then Ink(chunks[0]) else 0)
      + Swallowed(chunks[0], chunks[1..])
  }

  /** Conservation: the ink of the file is handed on once or swallowed, never both, never twice. */
  lemma {:induction false} ParallelInk(previous: string, chunks: seq<string>)
    requires NonEmpty(chunks)
    ensures InkOf(ParallelLines(previous, chunks)) + Swallowed(previous, chunks)
         == Ink(Carry(previous)) + Ink(Concat(chunks))
    decreases |chunks|
  {
    hide Ink, Carry, Lines, Complete, HasNewline;
    if chunks == [] {
      InkLines(Carry(previous));
      InkBlank("");
    } else {
      var c, rest := chunks[0], chunks[1..];
      InkAppend(c, Concat(rest));
      ParallelInk(c, rest);
      InkOfAppend(Complete(Carry(previous) + c), ParallelLines(c, rest));
      InkStep(previous, c);
    }
  }

  lemma InkStep(previous: string, c: string)
    requires c != ""
    ensures HasNewline(c) ==>
      InkOf(Complete(Carry(previous) + c)) + Ink(Carry(c)) == Ink(Carry(previous)) + Ink(c)
    ensures !HasNewline(c) ==> Complete(Carry(previous) + c) == []
    ensures !HasNewline(c) ==> Ink(Carry(c)) == if |c| == 1 then 0 else Ink(c)
  {
    hide Ink, Carry, Lines, Complete, TrimLeft, Tail, IsSpace, HasNewline, InkOf;
    CompleteAppend(Carry(previous), c);
    if HasNewline(c) {
      InkLines(Carry(previous) + c[..Cut(c)]);
      InkAppend(Carry(previous), c[..Cut(c)]);
      CutWhole(c);
      InkAppend(c[..Cut(c)], Tail(c));
      CarryTail(c);
      InkTrim(Carry(c));
      InkTrim(Tail(c));
    } else {
      CarryCompletes(previous);
      CarryWhole(c);
      InkBlank("");
      BlankEmpty();
      InkOne("");
    }
  }

  lemma CutWhole(s: string)
    ensures s == s[..Cut(s)] + Tail(s)
  {
  }

  lemma InkTrim(s: string)
    ensures Ink(TrimLeft(s)) == Ink(s)
  {
    var w := CutSpace(s);
    InkAppend(w, TrimLeft(s));
    InkBlank(w);
  }

  lemma {:induction false} KeepsAllIffNothingSwallowed(previous: string, chunks: seq<string>)
    ensures KeepsAll(previous, chunks) <==> Swallowed(previous, chunks) == 0
    decreases |chunks|
  {
    hide Carry, HasNewline;
    if chunks != [] {
      InkBlank(Carry(previous));
      InkBlank(chunks[0]);
      KeepsAllIffNothingSwallowed(chunks[0], chunks[1..]);
    }
  }

  /** The parallel scan yields the lines of the file if and only if no chunk swallows text. */
  lemma ParallelExact(chunks: seq<string>)
    requires NonEmpty(chunks)
    ensures ParallelLines("", chunks) == Lines(Concat(chunks)) <==> KeepsAll("", chunks)
  {
    hide Lines, ParallelLines, Swallowed, Ink, IsSpace;
    if KeepsAll("", chunks) {
      ParallelKeeps("", "", chunks);
      assert "" + Concat(chunks) == Concat(chunks);
    }
    ParallelInk("", chunks);
    InkLines(Concat(chunks));
    KeepsAllIffNothingSwallowed("", chunks);
    InkBlank("");
  }

  // ---------------------------------------------------------------- lines that are too long

  /** The cut-off line of a buffer, with what it took over, does not exceed the maximum object size. */
  predicate Fits(limit: nat, previous: string, chunk: string) {
    |Pending(Carry(previous) + chunk)| <= limit
  }

  predicate AllFit(limit: nat, previous: string, chunks: seq<string>)
    decreases |chunks|
  {
    chunks == [] || (Fits(limit, previous, chunks[0]) && AllFit(limit, chunks[0], chunks[1..]))
  }

  /** For chunks within the limit it matters only at chunks without a newline. */
  lemma FitsExactly(limit: nat, previous: string, chunk: string)
    requires |chunk| <= limit
    ensures Fits(limit, previous, chunk) <==> HasNewline(chunk) || |TrimLeft(Carry(previous) + chunk)| <= limit
  {
    hide Carry, TrimLeft, Tail, HasNewline;
    var c := Carry(previous);
    TailAppend(c, chunk);
    if HasNewline(chunk) {
      TailFits(chunk);
    } else {
      CarryTrims(previous, chunk);
    }
  }

  lemma TailFits(s: string)
    ensures |TrimLeft(Tail(s))| <= |Tail(s)| <= |s|
  {
  }

  lemma CarryTrims(previous: string, chunk: string)
    ensures TrimLeft(Tail(Carry(previous)) + chunk) == TrimLeft(Carry(previous) + chunk)
  {
    hide Carry, TrimLeft, IsSpace;
    var c := Carry(previous);
    CarryCut(previous);
    if Cut(c) == 1 {
      CutAt(c, 1);
      BlankNewline();
      assert c + chunk == "\n" + (Tail(c) + chunk);
      TrimLeftSplit("\n", Tail(c) + chunk);
    } else {
      assert Tail(c) == c;
    }
  }

  /** Chunks within the limit are always copied, and the last, empty buffer is never too long. */
  lemma CarryFits(limit: nat, chunk: string)
    requires |chunk| <= limit
    ensures CarrySize(chunk) <= limit && Fits(limit, chunk, "")
  {
    hide TrimLeft, Tail;
    var c := Carry(chunk);
    assert c + "" == c;
    TailFits(c);
  }

  /** Without an error, what a chunk swallows and the chunk itself are together within the limit. */
  lemma LossIsBounded(limit: nat, previous: string, chunk: string)
    requires !HasNewline(chunk) && |chunk| <= limit && Fits(limit, previous, chunk)
    ensures Blank(Carry(previous)) || Ink(Carry(previous)) + |chunk| <= limit
  {
    hide Carry, TrimLeft, HasNewline, Fits, Ink;
    var c := Carry(previous);
    FitsExactly(limit, previous, chunk);
    if !Blank(c) {
      TrimmedFront(c, chunk);
      InkTrim(c);
      InkBound(TrimLeft(c));
    }
  }

  lemma TrimmedFront(a: string, b: string)
    requires !Blank(a)
    ensures |TrimLeft(a + b)| == |TrimLeft(a)| + |b|
  {
    hide IsSpace;
    BlankTrims(a);
    var k := Leading(a);
    assert forall i :: 0 <= i <= k ==> (a + b)[i] == a[i];
    LeadingIs(a + b, k);
  }

  lemma {:induction false} InkBound(s: string)
    ensures Ink(s) <= |s|
  {
    if s != "" {
      InkBound(s[1..]);
    }
  }

  /** A newline in every chunk is enough, and then both modes agree. */
  lemma {:induction false} NewlinesKeepAll(previous: string, chunks: seq<string>)
    requires forall i :: 0 <= i < |chunks| ==> HasNewline(chunks[i])
    ensures KeepsAll(previous, chunks)
    decreases |chunks|
  {
    hide Carry, HasNewline;
    if chunks != [] {
      NewlinesKeepAll(chunks[0], chunks[1..]);
    }
  }

  /** A line that spans three chunks loses its first part. */
  lemma LongLineIsCut()
    ensures ParallelLines("", ["ab", "cd", "e\n"]) != Lines(Concat(["ab", "cd", "e\n"]))
  {
    hide Lines, ParallelLines, Concat, Carry;
    var chunks := ["ab", "cd", "e\n"];
    CarryWhole("ab");
    assert !IsSpace("ab"[0]);
    NotKept("", "ab", "cd", ["e\n"]);
    assert ["ab"] + ["cd"] + ["e\n"] == chunks;
    ParallelExact(chunks);
  }

  lemma NotKept(previous: string, first: string, second: string, rest: seq<string>)
    requires !HasNewline(second) && !Blank(Carry(first))
    ensures !KeepsAll(previous, [first] + [second] + rest)
  {
    hide Carry, HasNewline, Blank;
    var chunks := [first] + [second] + rest;
    assert chunks[1..] == [second] + rest && chunks[1..][0] == second;
    assert !KeepsAll(first, chunks[1..]);
  }

  /** A buffer of the shared buffer map: its own data starts behind the room for what it takes over. */
  class BufferHandle {
    const buffer: string
    const bufferSize: nat
    const bufferStart: nat

    constructor (buffer: string, bufferSize: nat, bufferStart: nat)
      requires bufferStart < bufferSize <= |buffer|
      ensures this.buffer == buffer && this.bufferSize == bufferSize && this.bufferStart == bufferStart
    {
      this.buffer, this.bufferSize, this.bufferStart := buffer, bufferSize, bufferStart;
    }
  }

  /** Searches backwards for a newline and stops at the first byte if there is none. */
  method PreviousNewline(buffer: string, start: nat, size: nat) returns (at: nat)
    requires start < size <= |buffer|
    ensures at == start + ObjectStart(buffer[start..size]) && start <= at < size
  {
    at := size - 1;
    ghost var chunk := buffer[start..size];
    while at != start
      invariant start <= at < size
      invariant forall i :: at - start < i < |chunk| ==> chunk[i] != '\n'
    {
      assert chunk[at - start] == buffer[at];
      if buffer[at] == '\n' {
        break;
      }
      at := at - 1;
    }
    LastNewline(chunk, at - start);
  }

  lemma LastNewline(chunk: string, k: nat)
    requires k < |chunk| && (k > 0 ==> chunk[k] == '\n')
    requires forall i :: k < i < |chunk| ==> chunk[i] != '\n'
    ensures ObjectStart(chunk) == k
  {
    assert k > 0 ==> Cut(chunk) == k + 1;
  }

  /** Takes over the cut-off line of the previous buffer; it fails only if that line is too long. */
  method CopyRemainderFromPreviousBuffer(state: ScanState, previous: BufferHandle) returns (ok: bool)
    requires state.Valid() && previous.bufferStart < previous.bufferSize <= |previous.buffer|
    modifies state`buffer, state`bufferOffset
    ensures state.Valid() && |state.buffer| == old(|state.buffer|)
    ensures ok ==> state.Text() == Carry(previous.buffer[previous.bufferStart..previous.bufferSize]) + old(state.Text())
    ensures ok <==> CarrySize(previous.buffer[previous.bufferStart..previous.bufferSize]) <= old(state.bufferOffset)
  {
    hide ObjectStart, Carry, CarrySize;
    var start := PreviousNewline(previous.buffer, previous.bufferStart, previous.bufferSize);
    ghost var chunk := previous.buffer[previous.bufferStart..previous.bufferSize];
    var size, offset := previous.bufferSize - start, state.bufferOffset;
    var tail := previous.buffer[start..previous.bufferSize];
    TailOfChunk(previous.buffer, previous.bufferStart, start, previous.bufferSize);
    if size > offset {
      return false;
    }
    StoreBefore(state.buffer, offset, state.bufferSize, tail);
    state.buffer := state.buffer[..offset - size] + tail + state.buffer[offset..];
    if size != 1 {
      state.bufferOffset := offset - size;
    }
    ok := true;
  }

  lemma TailOfChunk(buffer: string, i: nat, j: nat, k: nat)
    requires i <= j < k <= |buffer| && j - i == ObjectStart(buffer[i..k])
    ensures CarrySize(buffer[i..k]) == k - j
    ensures Carry(buffer[i..k]) == if k - j == 1 then "" else buffer[j..k]
  {
    hide ObjectStart;
    assert buffer[i..k][j - i..] == buffer[j..k];
  }

  /** Bytes stored in front of a text extend it; the text itself stays as it is. */
  lemma StoreBefore(buffer: string, offset: nat, size: nat, tail: string)
    requires |tail| <= offset <= size <= |buffer|
    ensures var now := buffer[..offset - |tail|] + tail + buffer[offset..];
      |now| == |buffer| && now[offset - |tail|..size] == tail + buffer[offset..size]
      && now[offset..size] == buffer[offset..size]
  {
  }

  /** Hands on all lines of one buffer, batch by batch, unless its cut-off line is too long. */
  method ScanBuffer(state: ScanState, vectorSize: nat) returns (ok: bool, lines: seq<string>)
    requires state.Valid() && state.prevBufferRemainder == 0 && !state.entireFile && vectorSize > 0
    modifies state
    ensures ok ==> lines == Parsed(old(state.Text()), old(state.isLast))
    ensures ok <==> |Pending(old(state.Text()))| <= state.maximumObjectSize
  {
    hide Consumed, HasNewline, Parsed, Pending;
    EmptyPending();
    ghost var text, last := state.Text(), state.isLast;
    lines, ok := [], true;
    ConsumedNothing(text, last);
    EmptyText(text);
    ghost var left := text;
    while state.bufferOffset < state.bufferSize
      invariant state.Valid() && state.isLast == last && state.prevBufferRemainder == 0 && !state.entireFile
      invariant Consumed(text, lines, left, last) && SameFate(text, left, state.maximumObjectSize)
      invariant state.Text() == "" ==> |Pending(left)| <= state.maximumObjectSize
      invariant if state.Text() == "" then !HasNewline(left) && (last ==> left == "") else left == state.Text()
      decreases |Parsed(left, last)|, |state.Text()|
    {
      state.units := [];
      ghost var before := left;
      ok, left := state.ParseNextChunk(vectorSize);
      if !ok {
        return;
      }
      ConsumedThen(text, lines, before, state.units, left, last);
      ConsumedCount(before, state.units, left, last);
      lines := lines + state.units;
    }
    AllParsed(text, lines, left, last);
  }

  lemma ConsumedCount(text: string, units: seq<string>, left: string, isLast: bool)
    requires Consumed(text, units, left, isLast)
    ensures |Parsed(text, isLast)| == |units| + |Parsed(left, isLast)|
  {
    hide Parsed, Tail, TrimLeft;
  }

  lemma AllParsed(text: string, units: seq<string>, left: string, isLast: bool)
    requires Consumed(text, units, left, isLast) && !HasNewline(left) && (isLast ==> left == "")
    ensures units == Parsed(text, isLast)
  {
    hide IsSpace;
    NoTail(left);
    NoLine("");
  }
}
