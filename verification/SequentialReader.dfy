/**
 The scan of an entire file by one thread. Whatever the buffer capacity, wherever its end cuts a
 line and however the source splits its reads, the batches of lines that the scan hands on are,
 one after the other, the lines of the file.
 */
module SequentialReader {
  import opened Basics
  import opened TextLines
  import opened JsonFile
  import opened ScanState

  /** The parser may look at this many bytes beyond the data. */
  const PADDING: nat := 4

  /** Some stretch of the text without a newline is longer than the limit. */
  ghost predicate HasLongRun(text: string, limit: nat) {
    exists i, j :: 0 <= i <= j <= |text| && j - i > limit && !HasNewline(text[i..j])
  }

  /**
   Whether a scan that has cut off a line fails. Every read fills the buffer behind the cut-off line,
   or reaches the end of the file; it fails with the first buffer whose own cut-off line is too long.
   */
  predicate Fails(content: string, capacity: nat, limit: nat, remainder: string, position: nat)
    requires position <= |content| && |remainder| <= limit < capacity
    decreases |content| - position
  {
    var size := Min(capacity - |remainder|, |content| - position);
    var pending := Pending(remainder + content[position..position + size]);
    |pending| > limit || (size > 0 && Fails(content, capacity, limit, pending, position + size))
  }

  /** The same with a text in the buffer, or with a cut-off line alone. */
  predicate Fate(content: string, capacity: nat, limit: nat, buffered: bool, held: string, isLast: bool, position: nat)
    requires position <= |content| && limit < capacity && (!buffered ==> |held| <= limit)
  {
    if !buffered then Fails(content, capacity, limit, held, position)
    else |Pending(held)| > limit || (!isLast && Fails(content, capacity, limit, Pending(held), position))
  }

  /** Reading the next bytes does not change whether the scan fails. */
  lemma ReadKeepsFate(content: string, capacity: nat, limit: nat, remainder: string, position: nat, bytes: string)
    requires position <= |content| && |remainder| <= limit < capacity
    requires bytes == content[position..position + Min(capacity - |remainder|, |content| - position)]
    ensures Fate(content, capacity, limit, false, remainder, false, position) <==>
      Fate(content, capacity, limit, remainder + bytes != "", remainder + bytes, bytes == "", position + |bytes|)
  {
    hide Pending;
    if bytes == "" {
      assert remainder + bytes == remainder;
    }
  }

  /** Nor does parsing what is in the buffer. */
  lemma ParseKeepsFate(content: string, capacity: nat, limit: nat, text: string, left: string, isLast: bool,
                       position: nat)
    requires position <= |content| && limit < capacity && text != "" && (isLast ==> position == |content|)
    requires SameFate(text, left, limit) && (!isLast ==> Pending(left) == Pending(text))
    ensures left != "" ==>
      Fate(content, capacity, limit, true, left, isLast, position) ==
        Fate(content, capacity, limit, true, text, isLast, position)
    ensures |left| <= limit && Pending(left) == left && (isLast ==> left == "") ==>
      Fate(content, capacity, limit, false, left, isLast, position) ==
        Fate(content, capacity, limit, true, text, isLast, position)
  {
    hide Pending, Fails;
    EmptyPending();
    NothingFails(content, capacity, limit, isLast);
  }

  lemma NothingFails(content: string, capacity: nat, limit: nat, isLast: bool)
    requires limit < capacity
    ensures !Fails(content, capacity, limit, "", |content|)
    ensures !Fate(content, capacity, limit, false, "", isLast, |content|)
  {
    hide Pending;
    EmptyPending();
    assert "" + content[|content|..|content|] == "";
  }

  lemma FreshFate(content: string, capacity: nat, limit: nat)
    requires limit < capacity
    ensures Fate(content, capacity, limit, false, "", false, 0) == Fails(content, capacity, limit, "", 0)
  {
    hide Fails;
  }

  lemma LongIsFatal(content: string, capacity: nat, limit: nat, text: string, isLast: bool, position: nat)
    requires position <= |content| && limit < capacity && |Pending(text)| > limit
    ensures Fate(content, capacity, limit, true, text, isLast, position)
  {
    hide Pending;
  }

  lemma RegroupFile(remainder: string, bytes: string, content: string, p: nat, q: nat)
    requires p <= q <= |content| && bytes == content[p..q]
    ensures remainder + content[p..] == remainder + bytes + content[q..]
  {
    assert content[p..] == bytes + content[q..];
  }

  class SequentialReader {
    const file: JsonFileHandle
    const state: ScanState
    /** Bytes at the start of the buffer that format detection has already read, if any. */
    var autoDetectSize: nat

    ghost predicate Valid()
      reads this, file, file.source, state
    {
      && file.Valid() && state.Valid() && state.entireFile
      && state.maximumObjectSize + PADDING < |state.buffer|
      && state.prevBufferRemainder <= state.maximumObjectSize
      && (state.prevBufferRemainder > 0 ==> state.Text() == "")
      && (state.isLast || !file.isOpen || file.lastReadRequested ==>
        file.readPosition == |file.source.content|)
      && (state.isLast ==> state.prevBufferRemainder == 0)
      && autoDetectSize + PADDING <= |state.buffer|
      && (autoDetectSize > 0 ==> state.prevBufferRemainder == 0 && !state.isLast && state.Text() == "")
      && (!file.isOpen || file.lastReadRequested ==> state.isLast || Held() == "")
      && IsSuffix(Ahead(), file.source.content)
    }

    /** The bytes that have been read and not handed on: data, a cut-off line, or the detected bytes. */
    ghost function Held(): string
      requires state.Valid() && autoDetectSize <= |state.buffer|
      reads this, state
    {
      if state.Text() != "" then state.Text()
      else if state.prevBufferRemainder > 0 then state.Remainder()
      else state.buffer[..autoDetectSize]
    }

    /** What the file still has to give. */
    ghost function Ahead(): string
      requires state.Valid() && autoDetectSize <= |state.buffer|
      requires file.readPosition <= |file.source.content|
      reads this, file, file.source, state
    {
      Held() + file.source.content[file.readPosition..]
    }

    /** Whether the scan will fail from here. */
    ghost predicate Doomed()
      requires Valid()
      reads this, file, file.source, state
    {
      Fate(file.source.content, |state.buffer| - PADDING, state.maximumObjectSize,
           state.Text() != "" || autoDetectSize > 0, Held(), state.isLast, file.readPosition)
    }

    constructor (file: JsonFileHandle, maximumObjectSize: nat)
      requires file.Valid() && file.readPosition == 0 && file.isOpen && !file.lastReadRequested
      requires maximumObjectSize > PADDING
      ensures Valid() && this.file == file && fresh(state)
      ensures state.maximumObjectSize == maximumObjectSize && autoDetectSize == 0
      ensures Ahead() == file.source.content
      ensures Doomed() <==> Fails(file.source.content, 2 * maximumObjectSize - PADDING, maximumObjectSize, "", 0)
    {
      hide Fate, Fails, Concat;
      FreshFate(file.source.content, 2 * maximumObjectSize - PADDING, maximumObjectSize);
      this.file := file;
      var buffer := seq(2 * maximumObjectSize, i => '\0');
      state := new ScanState(buffer, maximumObjectSize, true);
      autoDetectSize := 0;
    }

    /** Fills the buffer: the cut-off line moves to the front, the new bytes follow. */
    method Refill(bytes: string)
      requires state.Valid() && state.prevBufferRemainder + |bytes| + PADDING <= |state.buffer|
      modifies state`buffer
      ensures |state.buffer| == |old(state.buffer)|
      ensures state.buffer[..state.prevBufferRemainder + |bytes|] == old(state.Remainder()) + bytes
    {
      var front := state.Remainder() + bytes;
      var padding := seq(PADDING, i => '\0');
      state.buffer := front + padding + state.buffer[|front| + PADDING..];
    }

    /** Reads the first bytes of the file ahead of the scan, to find out about its format. */
    method AutoDetect()
      requires Valid() && autoDetectSize == 0 && state.Text() == "" && !state.isLast
      requires state.prevBufferRemainder == 0 && file.isOpen && !file.lastReadRequested && file.readPosition == 0
      modifies this`autoDetectSize, state`buffer
      modifies file`readPosition, file`lastReadRequested, file`cachedBuffers, file`cachedSize, file.source`position
      ensures Valid() && Ahead() == old(Ahead()) && Doomed() == old(Doomed())
    {
      hide Concat, Fate, IsSuffix;
      var ok, bytes := file.Read(|state.buffer| - PADDING);
      ReadKeepsFate(file.source.content, |state.buffer| - PADDING, state.maximumObjectSize, "", 0, bytes);
      assert "" + bytes == bytes;
      if !ok || bytes == "" {
        return;
      }
      RegroupFile("", bytes, file.source.content, 0, file.readPosition);
      if file.isPipe {
        file.Reset();
      } else {
        Refill(bytes);
        autoDetectSize := |bytes|;
        assert Held() == bytes;
      }
      assert Ahead() == old(Ahead());
    }

    /** Goes on to the next buffer of data; only at the end of the file is there none. */
    method ReadNextBuffer() returns (ok: bool)
      requires Valid() && state.Text() == ""
      modifies this`autoDetectSize
      modifies state`buffer, state`bufferOffset, state`bufferSize, state`isLast, state`prevBufferRemainder
      modifies file`isOpen, file`readPosition, file`lastReadRequested, file`cachedBuffers, file`cachedSize
      modifies file.source`position
      ensures Valid() && Ahead() == old(Ahead()) && Doomed() == old(Doomed())
      ensures ok ==> state.prevBufferRemainder == 0 && autoDetectSize == 0
      ensures ok ==> state.bufferOffset == 0 && (state.bufferSize == 0 ==> state.isLast)
      ensures ok ==> Unread() < old(Unread())
      ensures !ok ==> Ahead() == "" && !Doomed()
    {
      hide Valid, Ahead, Held, Doomed, Unread, Concat;
      if autoDetectSize > 0 {
        UseAutoDetected();
        return true;
      }
      if !file.isOpen || file.lastReadRequested {
        NothingAhead();
        return false;
      }
      ReadMore();
      ok := true;
    }

    lemma NothingAhead()
      requires Valid() && state.Text() == "" && autoDetectSize == 0 && (!file.isOpen || file.lastReadRequested)
      ensures Ahead() == "" && !Doomed()
    {
      hide IsSuffix, Concat, Fate, JsonFileHandle.Valid, Doomed;
      NothingHeld();
      assert file.readPosition == |file.source.content|;
      assert file.source.content[file.readPosition..] == "";
      NotDoomed();
    }

    lemma NothingHeld()
      requires Valid() && state.Text() == "" && autoDetectSize == 0 && (!file.isOpen || file.lastReadRequested)
      ensures Held() == ""
    {
      hide IsSuffix, Concat, Fate, JsonFileHandle.Valid, Ahead;
    }

    lemma NotDoomed()
      requires Valid() && Held() == "" && state.Text() == "" && autoDetectSize == 0
      requires file.readPosition == |file.source.content|
      requires state.maximumObjectSize + PADDING < |state.buffer|
      ensures !Doomed()
    {
      hide Valid, Held, Ahead, Fate, Fails, ScanState.Valid, ScanState.Text, JsonFileHandle.Valid;
      NothingFails(file.source.content, |state.buffer| - PADDING, state.maximumObjectSize, state.isLast);
    }

    /** Reads behind the cut-off line; reading nothing makes this the last buffer. */
    method ReadMore()
      requires Valid() && state.Text() == "" && autoDetectSize == 0 && file.isOpen && !file.lastReadRequested
      modifies state`buffer, state`bufferOffset, state`bufferSize, state`isLast, state`prevBufferRemainder
      modifies file`isOpen, file`readPosition, file`lastReadRequested, file`cachedBuffers, file`cachedSize
      modifies file.source`position
      ensures Valid() && Ahead() == old(Ahead()) && Doomed() == old(Doomed())
      ensures state.prevBufferRemainder == 0 && state.bufferOffset == 0 && (state.bufferSize == 0 ==> state.isLast)
      ensures Unread() < old(Unread())
    {
      hide IsSuffix, Concat, Fate;
      ghost var remainder, start := state.Remainder(), file.readPosition;
      assert Held() == remainder;
      var _, bytes := file.Read(|state.buffer| - state.prevBufferRemainder - PADDING);
      ReadKeepsFate(file.source.content, |state.buffer| - PADDING, state.maximumObjectSize, remainder, start, bytes);
      RegroupFile(remainder, bytes, file.source.content, start, file.readPosition);
      Install(bytes);
      if state.isLast {
        file.Close();
      }
    }

    /** The bytes that have been read and the line that was cut off before them are the new buffer. */
    method Install(bytes: string)
      requires state.Valid() && state.prevBufferRemainder + |bytes| + PADDING <= |state.buffer|
      modifies state`buffer, state`bufferOffset, state`bufferSize, state`isLast, state`prevBufferRemainder
      ensures state.Valid() && |state.buffer| == |old(state.buffer)|
      ensures state.Text() == old(state.Remainder()) + bytes && state.isLast == (bytes == "")
      ensures state.bufferOffset == 0 && state.prevBufferRemainder == 0
      ensures state.bufferSize == old(state.prevBufferRemainder) + |bytes|
    {
      Refill(bytes);
      state.isLast := bytes == "";
      state.bufferOffset, state.bufferSize := 0, state.prevBufferRemainder + |bytes|;
      state.prevBufferRemainder := 0;
    }

    /** The first buffer is the one that format detection has read. */
    method UseAutoDetected()
      requires Valid() && state.Text() == "" && autoDetectSize > 0
      modifies this`autoDetectSize, state`bufferOffset, state`bufferSize, state`isLast
      ensures Valid() && Ahead() == old(Ahead()) && Doomed() == old(Doomed())
      ensures state.bufferOffset == 0 && state.bufferSize > 0 && !state.isLast && autoDetectSize == 0
      ensures Unread() < old(Unread()) && state.prevBufferRemainder == 0
    {
      hide IsSuffix, Concat, Fate;
      state.bufferOffset, state.bufferSize, state.isLast := 0, autoDetectSize, false;
      autoDetectSize := 0;
      assert state.Text() == state.buffer[..state.bufferSize];
    }

    ghost function Unread(): nat
      requires Valid()
      reads this, file, file.source, state
    {
      |file.source.content| - file.readPosition + (if file.isOpen && !file.lastReadRequested then 1 else 0)
        + autoDetectSize
    }

    /**
     Hands on the next batch of lines, none only at the end of the file. Together with the lines
     that are still ahead they are the lines that were ahead before.
     */
    method Scan(vectorSize: nat) returns (ok: bool, lines: seq<string>)
      requires Valid() && vectorSize > 0
      modifies this, state, file, file.source
      ensures ok ==> Valid() && Lines(old(Ahead())) == lines + Lines(Ahead()) && |lines| <= vectorSize
      ensures ok ==> Doomed() == old(Doomed()) && (lines == [] ==> Lines(Ahead()) == [] && !Doomed())
      ensures !ok ==> old(Doomed()) && HasLongRun(file.source.content, state.maximumObjectSize)
    {
      hide Ahead, Held, Lines, IsSuffix, Doomed;
      ghost var ahead := Ahead();
      ok, lines := true, [];
      while lines == []
        invariant Valid() && Lines(ahead) == lines + Lines(Ahead()) && |lines| <= vectorSize
        invariant Doomed() == old(Doomed())
        decreases lines == [], Unread(), |state.Text()|
      {
        ghost var unread, size := Unread(), |state.Text()|;
        while state.bufferOffset >= state.bufferSize
          invariant Valid() && Lines(ahead) == Lines(Ahead()) && Doomed() == old(Doomed())
          invariant Unread() < unread || (Unread() == unread && |state.Text()| == size)
          decreases Unread()
        {
          var more := ReadNextBuffer();
          if !more {
            NoLines();
            return;
          }
        }
        ok, lines := ParseBatch(vectorSize);
        if !ok {
          return;
        }
      }
    }

    /** Parses from the buffer, which holds some data. */
    method ParseBatch(vectorSize: nat) returns (ok: bool, lines: seq<string>)
      requires Valid() && vectorSize > 0 && state.Text() != ""
      modifies state`bufferOffset, state`prevBufferRemainder, state`prevBufferOffset, state`units
      ensures ok ==> Valid() && Lines(old(Ahead())) == lines + Lines(Ahead()) && |lines| <= vectorSize
      ensures ok && lines == [] ==> state.Text() == ""
      ensures ok ==> Doomed() == old(Doomed())
      ensures !ok ==> old(Doomed()) && HasLongRun(file.source.content, state.maximumObjectSize)
    {
      hide Lines, HasNewline, Consumed, Concat, Pending, SameFate, Fate;
      ghost var text, rest := state.Text(), file.source.content[file.readPosition..];
      state.units := [];
      ghost var left;
      ok, left := state.ParseNextChunk(vectorSize);
      lines := state.units;
      if ok {
        ConsumedLines(text, lines, left, rest, state.isLast);
        ConsumedSuffix(text, lines, left, state.isLast);
        SuffixOfSuffix(left, text, rest, file.source.content);
        assert Held() == left;
        if !state.isLast {
          KeepsPending(text, lines, left, state.isLast);
        }
        ParseKeepsFate(file.source.content, |state.buffer| - PADDING, state.maximumObjectSize, text, left, state.isLast,
          file.readPosition);
      } else {
        LongIsFatal(file.source.content, |state.buffer| - PADDING, state.maximumObjectSize, text, state.isLast,
          file.readPosition);
        LongRun(text, rest, file.source.content, state.maximumObjectSize);
      }
    }

    /** The whole scan: batch after batch until there is none, or one fails. */
    method ScanAll(vectorSize: nat) returns (ok: bool, lines: seq<string>)
      requires Valid() && vectorSize > 0 && Ahead() == file.source.content
      modifies this, state, file, file.source
      ensures ok ==> lines == Lines(file.source.content)
      ensures ok <==> !old(Doomed())
      ensures !ok ==> HasLongRun(file.source.content, state.maximumObjectSize)
    {
      hide Ahead, Held, Lines, IsSuffix, Doomed;
      lines := [];
      ghost var ahead := Ahead();
      while true
        invariant Valid() && Lines(ahead) == lines + Lines(Ahead()) && Doomed() == old(Doomed())
        decreases |Lines(Ahead())|
      {
        ghost var before := Lines(Ahead());
        var batch;
        ok, batch := Scan(vectorSize);
        if !ok || batch == [] {
          return;
        }
        Regroup(lines, batch, Lines(Ahead()));
        lines := lines + batch;
      }
    }
  }

  lemma NoLines()
    ensures Lines("") == []
  {
    LinesNoNewline("");
  }

  lemma ConsumedSuffix(text: string, units: seq<string>, left: string, isLast: bool)
    requires Consumed(text, units, left, isLast)
    ensures IsSuffix(left, text)
  {
  }

  /** The lines handed on and those of the text that is left are the lines of the text. */
  lemma ConsumedLines(text: string, units: seq<string>, left: string, rest: string, isLast: bool)
    requires Consumed(text, units, left, isLast) && (isLast ==> rest == "")
    ensures Lines(text + rest) == units + Lines(left + rest)
  {
    hide Lines, Complete, Tail, TrimLeft, IsSuffix;
    if isLast {
      assert text + "" == text && left + "" == left;
    } else {
      LinesComplete(text, rest);
      LinesComplete(left, rest);
      LinesSameStart(Tail(text), Tail(left), rest);
      Regroup(units, Complete(left), Lines(Tail(left) + rest));
    }
  }

  lemma KeepsPending(text: string, units: seq<string>, left: string, isLast: bool)
    requires Consumed(text, units, left, isLast) && !isLast
    ensures Pending(left) == Pending(text)
  {
    hide Parsed, Tail, TrimLeft;
  }

  lemma SuffixOfSuffix(left: string, text: string, rest: string, content: string)
    requires IsSuffix(left, text) && IsSuffix(text + rest, content)
    ensures IsSuffix(left + rest, content)
  {
    var k := |text| - |left|;
    assert left + rest == (text + rest)[k..];
  }

  lemma LongRun(text: string, rest: string, content: string, limit: nat)
    requires IsSuffix(text + rest, content) && |Pending(text)| > limit
    ensures HasLongRun(content, limit)
  {
    assert |Pending(text)| <= |Tail(text)|;
    var i, j := |content| - |text + rest| + Cut(text), |content| - |rest|;
    assert forall m :: 0 <= m < |text| ==> content[|content| - |text + rest| + m] == (text + rest)[m] == text[m];
    assert content[i..j] == Tail(text);
  }
}
