/**
 The file handle of the JSON reader. A pipe delivers its bytes once, in pieces of its own
 choosing; the handle keeps what it has read, so that after a reset the same bytes can be read
 again. A reader sees one flat text and a position in it, whatever the pipe and the cache do.
 The bytes that a read stores through its pointer are returned here as a string.
 */
module JsonFile {
  import opened Basics
  import opened TextLines

  /** The operating system's handle: a pipe or a file read from its current position. */
  class ByteSource {
    const content: string
    var position: nat

    constructor (content: string)
      ensures this.content == content && position == 0
    {
      this.content := content;
      position := 0;
    }

    /** Delivers at least one byte, and possibly fewer than asked for, until the end is reached. */
    method Read(size: nat) returns (bytes: string)
      requires position <= |content|
      modifies this`position
      ensures |bytes| <= size && position == old(position) + |bytes| <= |content|
      ensures bytes == content[old(position)..position]
      ensures bytes == "" <==> size == 0 || old(position) == |content|
    {
      var n := 0;
      if size > 0 && position < |content| {
        n :| 0 < n <= size && position + n <= |content|;
      }
      bytes := content[position..position + n];
      position := position + n;
    }
  }

  class JsonFileHandle {
    const source: ByteSource
    const isPipe: bool
    var isOpen: bool
    var readPosition: nat
    var lastReadRequested: bool
    var cachedBuffers: seq<string>
    var cachedSize: nat

    ghost predicate Valid()
      reads this, source
    {
      && readPosition <= source.position <= |source.content|
      && (isPipe ==> cachedSize == source.position && Concat(cachedBuffers) == source.content[..cachedSize])
      && (!isPipe ==> (isOpen ==> readPosition == source.position) && cachedBuffers == [] && cachedSize == 0)
    }

    constructor (source: ByteSource, isPipe: bool)
      requires source.position == 0
      ensures Valid() && readPosition == 0 && isOpen && !lastReadRequested
      ensures this.source == source && this.isPipe == isPipe
    {
      this.source := source;
      this.isPipe := isPipe;
      isOpen, readPosition, lastReadRequested, cachedBuffers, cachedSize := true, 0, false, [], 0;
    }

    method Close()
      requires Valid()
      modifies this`isOpen
      ensures Valid()
      ensures isOpen == (old(isOpen) && isPipe)
    {
      if isOpen && !isPipe {
        isOpen := false;
      }
    }

    /** Starts over: an open file is rewound, a pipe cannot be and is replayed from the cache. */
    method Reset()
      requires Valid()
      modifies this`readPosition, this`lastReadRequested, source`position
      ensures Valid() && readPosition == 0 && !lastReadRequested
    {
      readPosition := 0;
      lastReadRequested := false;
      if isOpen && !isPipe {
        source.position := 0;
      }
    }

    /**
     Reads at the current position. Whether the bytes come from the cache, from the pipe or from
     both, they are the bytes of the flat text, as many as were asked for as long as there are any.
     Asking for none counts as the end.
     */
    method Read(requested: nat) returns (ok: bool, bytes: string)
      requires Valid() && (isPipe || isOpen)
      modifies this`readPosition, this`lastReadRequested, this`cachedBuffers, this`cachedSize, source`position
      ensures Valid() && ok == !old(lastReadRequested)
      ensures |bytes| == if ok then Min(requested, |source.content| - old(readPosition)) else 0
      ensures readPosition == old(readPosition) + |bytes|
      ensures bytes == source.content[old(readPosition)..readPosition]
      ensures lastReadRequested == (bytes == "")
      ensures requested == 0 ==> lastReadRequested
    {
      hide Concat;
      ok, bytes := !lastReadRequested, "";
      if !ok {
        return;
      }
      ghost var start := readPosition;
      var size := requested;
      if cachedBuffers != [] || readPosition < cachedSize {
        bytes, size := ReadFromCache(requested);
      }
      ghost var middle := readPosition;
      var more := ReadFresh(size);
      JoinSlices(source.content, start, middle, readPosition);
      bytes := bytes + more;
      if bytes == "" {
        lastReadRequested := true;
      }
    }

    /** The part of a read that the cache does not hold. */
    method ReadFresh(requested: nat) returns (bytes: string)
      requires Valid() && (isPipe || isOpen) && (requested > 0 ==> readPosition == source.position)
      modifies this`readPosition, this`cachedBuffers, this`cachedSize, source`position
      ensures Valid() && |bytes| == Min(requested, |source.content| - old(source.position))
      ensures readPosition == old(readPosition) + |bytes| && bytes == source.content[old(readPosition)..readPosition]
    {
      hide Concat;
      bytes := ReadInternal(requested);
      if isPipe && bytes != "" {
        Cache(bytes);
      }
      readPosition := readPosition + |bytes|;
    }

    method Cache(bytes: string)
      requires cachedSize + |bytes| == source.position <= |source.content|
      requires Concat(cachedBuffers) == source.content[..cachedSize]
      requires bytes == source.content[cachedSize..source.position]
      modifies this`cachedBuffers, this`cachedSize
      ensures cachedSize == source.position && Concat(cachedBuffers) == source.content[..cachedSize]
    {
      ConcatPush(cachedBuffers, bytes);
      JoinSlices(source.content, 0, cachedSize, source.position);
      cachedBuffers := cachedBuffers + [bytes];
      cachedSize := cachedSize + |bytes|;
    }

    /** Asks the source until the request is met or the source is exhausted. */
    method ReadInternal(requested: nat) returns (bytes: string)
      requires source.position <= |source.content|
      modifies source`position
      ensures |bytes| == Min(requested, |source.content| - old(source.position))
      ensures source.position == old(source.position) + |bytes|
      ensures bytes == source.content[old(source.position)..source.position]
    {
      bytes := "";
      ghost var start := source.position;
      while |bytes| < requested
        invariant |bytes| <= requested && source.position == start + |bytes| <= |source.content|
        invariant bytes == source.content[start..source.position]
      {
        var more := source.Read(requested - |bytes|);
        if more == "" {
          break;
        }
        JoinSlices(source.content, start, start + |bytes|, source.position);
        bytes := bytes + more;
      }
    }

    /** Walks over the cached buffers and takes the parts at and after the current position. */
    method ReadFromCache(requested: nat) returns (bytes: string, size: nat)
      requires Valid() && isPipe
      modifies this`readPosition
      ensures Valid() && |bytes| + size == requested
      ensures readPosition == old(readPosition) + |bytes| && (size > 0 ==> readPosition == cachedSize)
      ensures bytes == source.content[old(readPosition)..readPosition]
    {
      bytes, size := "", requested;
      ghost var start := readPosition;
      var totalOffset := 0;
      NoPieces(cachedBuffers);
      hide Concat;
      for idx := 0 to |cachedBuffers|
        invariant |bytes| + size == requested && readPosition == start + |bytes| <= cachedSize
        invariant totalOffset == |Concat(cachedBuffers[..idx])|
        invariant size > 0 ==> totalOffset <= readPosition && readPosition in {start, totalOffset}
        invariant bytes == source.content[start..readPosition]
      {
        var cached := cachedBuffers[idx];
        PieceAt(cachedBuffers, idx);
        if size == 0 {
          break;
        }
        if readPosition < totalOffset + |cached| {
          var within := readPosition - totalOffset;
          var copySize := Min(size, |cached| - within);
          PieceInText(source.content, cachedSize, totalOffset, cached, within, copySize);
          JoinSlices(source.content, start, readPosition, readPosition + copySize);
          bytes := bytes + cached[within..within + copySize];
          size := size - copySize;
          readPosition := readPosition + copySize;
        }
        totalOffset := totalOffset + |cached|;
      }
    }
  }

  lemma JoinSlices(s: string, i: nat, j: nat, k: nat)
    requires i <= j <= k <= |s|
    ensures s[i..j] + s[j..k] == s[i..k]
    ensures i == 0 ==> s[..j] + s[j..k] == s[..k]
  {
  }

  lemma Middle(a: string, b: string, c: string)
    ensures (a + b + c)[|a|..|a| + |b|] == b
  {
  }

  lemma PieceInText(text: string, n: nat, offset: nat, piece: string, within: nat, size: nat)
    requires n <= |text| && offset + |piece| <= n && within + size <= |piece|
    requires text[..n][offset..offset + |piece|] == piece
    ensures piece[within..within + size] == text[offset + within..offset + within + size]
  {
    assert forall j :: 0 <= j < |piece| ==> piece[j] == text[..n][offset..offset + |piece|][j] == text[offset + j];
  }

  lemma NoPieces(parts: seq<string>)
    ensures Concat(parts[..0]) == "" && Concat(parts[..|parts|]) == Concat(parts)
  {
    assert parts[..|parts|] == parts;
  }

  /** The buffer at an index stands in the concatenation where the ones before it end. */
  lemma PieceAt(parts: seq<string>, idx: nat)
    requires idx < |parts|
    ensures |Concat(parts[..idx + 1])| == |Concat(parts[..idx])| + |parts[idx]| <= |Concat(parts)|
    ensures Concat(parts)[|Concat(parts[..idx])|..|Concat(parts[..idx])| + |parts[idx]|] == parts[idx]
  {
    assert parts[..idx] + [parts[idx]] == parts[..idx + 1];
    ConcatPush(parts[..idx], parts[idx]);
    assert parts[..idx + 1] + parts[idx + 1..] == parts;
    ConcatAppend(parts[..idx + 1], parts[idx + 1..]);
    Middle(Concat(parts[..idx]), parts[idx], Concat(parts[idx + 1..]));
  }
}
