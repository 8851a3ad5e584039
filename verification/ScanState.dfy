/**
 The state of one scan over a buffer, shared by the sequential and the parallel reader: an offset
 that moves over the buffer line by line, and what is left over when the last line is cut off.
 */
module ScanState {
  import opened Basics
  import opened TextLines

  datatype Progress = Line | Done | TooLong

  class ScanState {
    /** The bytes of the allocated buffer; its capacity never changes. */
    var buffer: string
    const maximumObjectSize: nat
    /** The whole file goes through this one buffer; what is left over is kept for the next read. */
    const entireFile: bool
    var bufferOffset: nat
    var bufferSize: nat
    var isLast: bool
    var prevBufferRemainder: nat
    var prevBufferOffset: nat
    var units: seq<string>

    ghost predicate Valid()
      reads this
    {
      && bufferOffset <= bufferSize <= |buffer|
      && prevBufferOffset + prevBufferRemainder <= |buffer|
    }

    /** The text that is still to be parsed. */
    function Text(): string
      requires Valid()
      reads this
    {
      buffer[bufferOffset..bufferSize]
    }

    /** The partial line that is kept for the next read. */
    function Remainder(): string
      requires Valid()
      reads this
    {
      buffer[prevBufferOffset..prevBufferOffset + prevBufferRemainder]
    }

    constructor (buffer: string, maximumObjectSize: nat, entireFile: bool)
      ensures Valid() && this.buffer == buffer && this.maximumObjectSize == maximumObjectSize
      ensures this.entireFile == entireFile && units == [] && !isLast
      ensures bufferOffset == bufferSize == prevBufferOffset == prevBufferRemainder == 0
    {
      this.buffer, this.maximumObjectSize, this.entireFile := buffer, maximumObjectSize, entireFile;
      bufferOffset, bufferSize, prevBufferRemainder, prevBufferOffset := 0, 0, 0, 0;
      isLast, units := false, [];
    }

    method SkipWhitespace()
      requires Valid()
      modifies this`bufferOffset
      ensures Valid() && Text() == TrimLeft(old(Text()))
      ensures Text() == "" || !IsSpace(Text()[0])
    {
      hide TrimLeft, IsSpace;
      ghost var text, start := Text(), bufferOffset;
      while bufferOffset != bufferSize
        invariant start <= bufferOffset <= bufferSize
        invariant forall i :: start <= i < bufferOffset ==> IsSpace(buffer[i])
      {
        if !IsSpace(buffer[bufferOffset]) {
          break;
        }
        bufferOffset := bufferOffset + 1;
      }
      TrimLeftIs(text, bufferOffset - start);
    }

    /** The number of characters before the next newline, and whether there is one. */
    method NextNewline() returns (found: bool, size: nat)
      requires Valid()
      ensures found == HasNewline(Text())
      ensures size == LineLength(Text()) && (found <==> size < |Text()|)
    {
      size := 0;
      ghost var text := Text();
      while bufferOffset + size < bufferSize && buffer[bufferOffset + size] != '\n'
        invariant bufferOffset + size <= bufferSize
        invariant forall i :: 0 <= i < size ==> text[i] != '\n'
      {
        assert text[size] == buffer[bufferOffset + size];
        size := size + 1;
      }
      found := bufferOffset + size < bufferSize;
      assert found ==> text[size] == buffer[bufferOffset + size];
    }

    /** One line, without the whitespace around it. */
    method TrimWhitespace(size: nat) returns (unit: string)
      requires Valid() && size <= |Text()|
      ensures unit == Trim(Text()[..size])
    {
      hide Trim, Leading, Trailing, IsSpace;
      ghost var line := Text()[..size];
      var lo, hi := bufferOffset, bufferOffset + size;
      while lo != hi && IsSpace(buffer[lo])
        invariant bufferOffset <= lo <= hi
        invariant forall i :: 0 <= i < lo - bufferOffset ==> IsSpace(line[i])
      {
        assert line[lo - bufferOffset] == buffer[lo];
        lo := lo + 1;
      }
      ghost var k := lo - bufferOffset;
      assert k < |line| ==> line[k] == buffer[lo];
      while lo != hi && IsSpace(buffer[hi - 1])
        invariant lo <= hi <= bufferOffset + size
        invariant forall i :: hi - bufferOffset <= i < |line| ==> IsSpace(line[i])
      {
        assert line[hi - 1 - bufferOffset] == buffer[hi - 1];
        hi := hi - 1;
      }
      assert lo < hi ==> line[hi - 1 - bufferOffset] == buffer[hi - 1];
      TrimIs(line, k, hi - bufferOffset);
      unit := buffer[lo..hi];
      assert forall i :: 0 <= i < |unit| ==> unit[i] == buffer[lo + i] == line[k + i];
    }

    /**
     Hands on up to one vector of lines. What it hands on together with what it leaves is what the
     buffer held; a line that is cut off at the end of the buffer is left, and in a scan of the
     entire file it is remembered. Over all its batches a buffer fails exactly if the line that it
     does not complete exceeds the maximum object size.
     */
    method ParseNextChunk(vectorSize: nat) returns (ok: bool, ghost left: string)
      requires Valid() && units == [] && prevBufferRemainder == 0 && vectorSize > 0
      modifies this`bufferOffset, this`prevBufferRemainder, this`prevBufferOffset, this`units
      ensures Valid() && prevBufferRemainder <= maximumObjectSize
      ensures !ok ==> |Pending(old(Text()))| > maximumObjectSize
      ensures ok ==> SameFate(old(Text()), left, maximumObjectSize)
      ensures ok && Text() == "" ==> |left| <= maximumObjectSize && Pending(left) == left
      ensures ok ==> Consumed(old(Text()), units, left, isLast) && |units| <= vectorSize
      ensures ok ==> if Text() == "" then !HasNewline(left) && (isLast ==> left == "") else left == Text()
      ensures ok && units == [] ==> Text() == ""
      ensures ok && entireFile ==> left == Text() + Remainder()
      ensures prevBufferRemainder > 0 ==> Text() == "" && !isLast && entireFile
    {
      hide Consumed, HasNewline, Pending;
      ghost var all := Text();
      ConsumedNothing(all, isLast);
      EmptyPending();
      left := all;
      var progress := Line;
      while progress == Line && |units| < vectorSize
        invariant Valid() && |units| <= vectorSize
        invariant progress != TooLong ==> Consumed(all, units, left, isLast) && SameFate(all, left, maximumObjectSize)
        invariant progress == Line ==> left == Text() && prevBufferRemainder == 0
        invariant progress != Line ==> Ended(progress, all, left)
        decreases vectorSize - |units|, progress == Line
      {
        progress, left := ParseLine(all);
      }
      ok := progress != TooLong;
      if progress == Line {
        NothingRemembered();
        EmptyText(left);
      }
    }

    /** How a buffer stands once no further line can be taken from it. */
    ghost predicate Ended(progress: Progress, all: string, left: string)
      requires Valid()
      reads this
    {
      match progress
      case TooLong =>
        |Pending(all)| > maximumObjectSize && prevBufferRemainder == 0
      case _ =>
        && |left| <= maximumObjectSize && Pending(left) == left
        && Text() == "" && !HasNewline(left) && (isLast ==> left == "" && prevBufferRemainder == 0)
        && prevBufferRemainder <= maximumObjectSize
        && (if entireFile then left == Remainder() else prevBufferRemainder == 0)
    }

    lemma NothingRemembered()
      requires Valid() && prevBufferRemainder == 0
      ensures Text() + Remainder() == Text()
    {
    }

    /** Takes one line from the buffer, if it holds one. */
    method ParseLine(ghost all: string) returns (progress: Progress, ghost left: string)
      requires Valid() && prevBufferRemainder == 0 && Consumed(all, units, Text(), isLast)
      requires SameFate(all, Text(), maximumObjectSize)
      modifies this`bufferOffset, this`prevBufferRemainder, this`prevBufferOffset, this`units
      ensures Valid()
      ensures progress != TooLong ==> Consumed(all, units, left, isLast) && SameFate(all, left, maximumObjectSize)
      ensures progress == Line ==> |units| == |old(units)| + 1 && left == Text() && prevBufferRemainder == 0
      ensures progress != Line ==> units == old(units) && Ended(progress, all, left)
    {
      hide Consumed, HasNewline, Pending, LineLength, Blank, IsSpace;
      EmptyPending();
      SkipConsumes(all);
      left := Text();
      var remaining := bufferSize - bufferOffset;
      if remaining == 0 {
        NothingRemembered();
        EmptyText(left);
        return Done, left;
      }
      var found, size := NextNewline();
      LastLine(left);
      if !found {
        if remaining > maximumObjectSize {
          return TooLong, left;
        }
        if !isLast {
          Remember();
          return Done, left;
        }
      }
      AddUnit(all, size);
      SkipConsumes(all);
      left := Text();
      progress := Line;
    }

    /** The last bit of data belongs to the next buffer. */
    method Remember()
      requires Valid() && prevBufferRemainder == 0
      modifies this`bufferOffset, this`prevBufferRemainder, this`prevBufferOffset
      ensures Valid() && Text() == "" && prevBufferRemainder <= |old(Text())|
      ensures if entireFile then Remainder() == old(Text()) else prevBufferRemainder == 0
    {
      if entireFile {
        prevBufferRemainder := bufferSize - bufferOffset;
        prevBufferOffset := bufferOffset;
      }
      bufferOffset := bufferSize;
    }

    method AddUnit(ghost all: string, size: nat)
      requires Valid() && Consumed(all, units, Text(), isLast)
      requires Text() != "" && !IsSpace(Text()[0])
      requires size == LineLength(Text()) && (size < |Text()| || (isLast && size <= maximumObjectSize))
      requires SameFate(all, Text(), maximumObjectSize)
      modifies this`bufferOffset, this`units
      ensures Valid() && Consumed(all, units, Text(), isLast) && |units| == |old(units)| + 1
      ensures SameFate(all, Text(), maximumObjectSize)
    {
      hide Consumed, Trim, HasNewline, Pending, LineLength;
      ghost var text := Text();
      var unit := TrimWhitespace(size);
      bufferOffset := bufferOffset + size;
      LineConsumed(text, unit, Text(), size, isLast);
      ConsumedThen(all, units, text, [unit], Text(), isLast);
      LineKeepsFate(text, size, maximumObjectSize);
      units := units + [unit];
    }

    /** Skips whitespace, which changes neither what is parsed nor what is left over. */
    method SkipConsumes(ghost all: string)
      requires Valid() && prevBufferRemainder == 0 && Consumed(all, units, Text(), isLast)
      requires SameFate(all, Text(), maximumObjectSize)
      modifies this`bufferOffset
      ensures Valid() && Consumed(all, units, Text(), isLast) && SameFate(all, Text(), maximumObjectSize)
      ensures Text() == "" || !IsSpace(Text()[0])
    {
      hide Consumed, TrimLeft, IsSpace, Pending;
      ghost var text := Text();
      SkipPending(text);
      SkipWhitespace();
      SkipConsumed(text, isLast);
      ConsumedThen(all, units, text, [], Text(), isLast);
      assert units + [] == units;
    }
  }

  /**
   Handing on the units turns one text into another: together they have the lines of the first,
   and the second ends in the same cut-off line, up to the whitespace before it.
   */
  ghost predicate Consumed(text: string, units: seq<string>, rest: string, isLast: bool) {
    && Parsed(text, isLast) == units + Parsed(rest, isLast)
    && (!isLast ==> TrimLeft(Tail(rest)) == TrimLeft(Tail(text)))
    && |Tail(rest)| <= |Tail(text)|
    && IsSuffix(rest, text)
  }

  /** Two texts whose cut-off lines are both too long, or both not. */
  ghost predicate SameFate(a: string, b: string, limit: nat) {
    |Pending(a)| > limit <==> |Pending(b)| > limit
  }

  lemma EmptyPending()
    ensures Pending("") == ""
  {
  }

  lemma SkipPending(text: string)
    ensures Pending(TrimLeft(text)) == Pending(text)
  {
    hide Parsed, Tail, TrimLeft, IsSuffix;
    SkipConsumed(text, false);
  }

  /** A text without a newline that starts with its line is the cut-off line itself. */
  lemma LastLine(text: string)
    requires text == "" || !IsSpace(text[0])
    ensures !HasNewline(text) ==> Pending(text) == text
  {
    hide IsSpace, Cut;
    if !HasNewline(text) {
      NoTail(text);
      TrimLeftIs(text, 0);
      assert text[0..] == text;
    }
  }

  /** Taking a line keeps the cut-off line, unless it is this line and is not too long. */
  lemma LineKeepsFate(text: string, size: nat, limit: nat)
    requires text != "" && !IsSpace(text[0]) && size == LineLength(text) && (size < |text| || size <= limit)
    ensures SameFate(text, text[size..], limit)
  {
    hide IsSpace, Pending, LineLength;
    if size < |text| {
      RestKeepsPending(text, size);
    } else {
      NoNewlineAtAll(text);
      LastLine(text);
      WholeLine(text);
      EmptyPending();
    }
  }

  lemma NoNewlineAtAll(text: string)
    requires LineLength(text) == |text|
    ensures !HasNewline(text)
  {
  }

  lemma RestKeepsPending(text: string, size: nat)
    requires size < |text| && size == LineLength(text)
    ensures Pending(text[size..]) == Pending(text)
  {
    hide TrimLeft, Tail, LineLength;
    var line, rest := text[..size], text[size..];
    assert rest[0] == '\n';
    TailAppend(line, rest);
    assert line + rest == text;
  }

  lemma ConsumedNothing(text: string, isLast: bool)
    ensures Consumed(text, [], text, isLast)
  {
    hide Parsed, Tail, TrimLeft;
  }

  lemma ConsumedThen(a: string, u: seq<string>, b: string, v: seq<string>, c: string, isLast: bool)
    requires Consumed(a, u, b, isLast) && Consumed(b, v, c, isLast)
    ensures Consumed(a, u + v, c, isLast)
  {
    hide Parsed, Tail, TrimLeft;
    Regroup(u, v, Parsed(c, isLast));
  }

  lemma SkipConsumed(text: string, isLast: bool)
    ensures Consumed(text, [], TrimLeft(text), isLast)
  {
    hide Parsed, Tail, TrimLeft;
    var w := CutSpace(text);
    var rest := TrimLeft(text);
    ParsedSkip(w, rest, isLast);
    TailAppend(w, rest);
    TailWhole(rest);
  }

  lemma TailWhole(s: string)
    ensures |Tail(s)| <= |s| && (!HasNewline(s) ==> Tail(s) == s)
  {
    if !HasNewline(s) {
      NoTail(s);
    }
  }

  lemma LineConsumed(text: string, unit: string, rest: string, size: nat, isLast: bool)
    requires text != "" && !IsSpace(text[0]) && size == LineLength(text) && (size < |text| || isLast)
    requires unit == Trim(text[..size]) && rest == text[size..]
    ensures Consumed(text, [unit], rest, isLast)
  {
    hide Parsed, Tail, TrimLeft, Trim, Lines, Emit, Cut;
    AfterLine(text, rest, size, isLast);
    LineIsEmitted(text, size);
    if rest == "" {
      TailWhole(rest);
    }
  }

  lemma EmptyText(s: string)
    ensures s == "" ==> !HasNewline(s)
  {
  }

  lemma TrimLeftIs(s: string, k: nat)
    requires k <= |s| && (k < |s| ==> !IsSpace(s[k]))
    requires forall i :: 0 <= i < k ==> IsSpace(s[i])
    ensures TrimLeft(s) == s[k..]
  {
    hide IsSpace, Leading;
    LeadingIs(s, k);
  }

  lemma TrimIs(s: string, k: nat, m: nat)
    requires k <= m <= |s| && (k < |s| ==> !IsSpace(s[k])) && (k < m ==> !IsSpace(s[m - 1]))
    requires forall i :: 0 <= i < k || m <= i < |s| ==> IsSpace(s[i])
    ensures Trim(s) == s[k..m]
  {
    hide IsSpace, TrimLeft, Trailing;
    TrimLeftIs(s, k);
    TrailingIs(s[k..], m - k);
    assert s[k..][..m - k] == s[k..m];
  }

  predicate IsSuffix(s: string, text: string) {
    |s| <= |text| && text[|text| - |s|..] == s
  }

  lemma LineIsEmitted(text: string, size: nat)
    requires size <= |text| && text != "" && !IsSpace(text[0]) && size == LineLength(text)
    ensures Emit(text[..size]) == [Trim(text[..size])]
  {
    assert Leading(text[..size]) == 0;
    BlankTrims(text[..size]);
  }

  lemma WholeLine(text: string)
    ensures text[..|text|] == text && text[|text|..] == ""
  {
  }

  lemma CutLine(text: string, size: nat)
    requires size < |text| && text[size] == '\n'
    ensures text == text[..size] + "\n" + text[size + 1..] && text[size..] == "\n" + text[size + 1..]
  {
  }

  /** What is left after the first line has been handed on. */
  lemma AfterLine(text: string, rest: string, size: nat, isLast: bool)
    requires size == LineLength(text) && rest == text[size..]
    requires HasNewline(text) || isLast
    ensures Parsed(text, isLast) == Emit(text[..size]) + Parsed(rest, isLast)
    ensures Tail(rest) == Tail(text) || rest == ""
  {
    if HasNewline(text) {
      var line, more := text[..size], text[size + 1..];
      CutLine(text, size);
      hide Tail, Emit, Lines, HasNewline, Cut;
      ParsedLine(line, more, isLast);
      ParsedSkip("\n", more, isLast);
      TailAppend("\n", more);
    } else {
      AfterLastLine(text);
    }
  }

  lemma AfterLastLine(text: string)
    requires !HasNewline(text)
    ensures LineLength(text) == |text| && text[..|text|] == text && text[|text|..] == ""
    ensures Parsed(text, true) == Emit(text) + Parsed("", true)
  {
    hide Tail, Emit;
    LinesNoNewline(text);
    LinesNoNewline("");
    EmitNothing();
    WholeLine(text);
  }

  lemma EmitNothing()
    ensures Emit("") == []
  {
  }
}
