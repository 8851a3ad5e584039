/**
 Reading the columns of a row group. A column is a run of pages; several readers share one file
 transport, pages are loaded only when their rows are needed, and rows to be skipped are only
 counted until the next read. Every reader must behave like a plain cursor over its column.
 */
module ColumnReader {
  import opened Basics

  // ---------------------------------------------------------------- pages and what they mean

  /**
   Definition levels and, for the rows at the maximum level, the values. Other pages hold no rows; those
   that are neither data nor dictionary pages are known as index pages.
   */
  datatype Page<V> =
    | DataPage(size: nat, plain: bool, defines: seq<nat>, data: seq<V>)
    | DictionaryPage(size: nat)
    | IndexPage(header: nat, body: nat)
  {
    /** The room that the page takes in the file. */
    function Length(): nat {
      if IndexPage? then header + body else size
    }

    /** How far the transport moves over the page: of an index page only the header is read. */
    function Stride(): nat {
      if IndexPage? then header else size
    }
  }

  function Count(defines: seq<nat>, max: nat): (c: nat)
    ensures c <= |defines|
  {
    if defines == [] then 0 else (if defines[0] == max then 1 else 0) + Count(defines[1..], max)
  }

  /** The rows that levels and values stand for. */
  function Rows<V>(defines: seq<nat>, data: seq<V>, max: nat): (rows: seq<Option<V>>)
    requires |data| == Count(defines, max)
    ensures |rows| == |defines|
  {
    if defines == [] then []
    else if defines[0] == max then [Some(data[0])] + Rows(defines[1..], data[1..], max)
    else [None] + Rows(defines[1..], data, max)
  }

  /** A row is there exactly if its level is the maximum; the values are those of such rows, in order. */
  lemma {:induction false} RowsAre<V>(defines: seq<nat>, data: seq<V>, max: nat, i: nat)
    requires |data| == Count(defines, max) && i < |defines|
    ensures Count(defines[..i], max) <= |data|
    ensures defines[i] == max ==> Count(defines[..i], max) < |data|
    ensures Rows(defines, data, max)[i] == if defines[i] == max then Some(data[Count(defines[..i], max)]) else None
    decreases i
  {
    if i > 0 {
      assert defines[..i][1..] == defines[1..][..i - 1];
      RowsAre(defines[1..], if defines[0] == max then data[1..] else data, max, i - 1);
    }
  }

  /** How many levels are the maximum. */
  lemma {:induction false} CountIs(defines: seq<nat>, max: nat)
    ensures Count(defines, max) == |set i | 0 <= i < |defines| && defines[i] == max|
    decreases |defines|
  {
    var all := set i | 0 <= i < |defines| && defines[i] == max;
    if defines == [] {
      assert all == {};
    } else {
      var n := |defines| - 1;
      CountIs(defines[..n], max);
      CountLast(defines, max);
      var before := set i | 0 <= i < |defines[..n]| && defines[..n][i] == max;
      assert all == if defines[n] == max then before + {n} else before;
    }
  }

  lemma {:induction false} CountLast(defines: seq<nat>, max: nat)
    requires defines != []
    ensures
      var n := |defines| - 1;
      Count(defines, max) == Count(defines[..n], max) + if defines[n] == max then 1 else 0
    decreases |defines|
  {
    if |defines| > 1 {
      CountLast(defines[1..], max);
      assert defines[1..][..|defines| - 2] == defines[..|defines| - 1][1..];
    }
  }

  predicate PageFits<V>(page: Page<V>, max: nat) {
    page.DataPage? ==> |page.data| == Count(page.defines, max)
  }

  predicate PagesFit<V>(pages: seq<Page<V>>, max: nat) {
    forall p :: 0 <= p < |pages| ==> PageFits(pages[p], max)
  }

  function PageRows<V>(page: Page<V>, max: nat): seq<Option<V>>
    requires PageFits(page, max)
  {
    if page.DataPage? then Rows(page.defines, page.data, max) else []
  }

  function ColumnRows<V>(pages: seq<Page<V>>, max: nat): seq<Option<V>>
    requires PagesFit(pages, max)
  {
    if pages == [] then [] else PageRows(pages[0], max) + ColumnRows(pages[1..], max)
  }

  /** The pages stand one behind the other in the file. */
  predicate Laid<V(==)>(file: map<nat, Page<V>>, location: nat, pages: seq<Page<V>>)
    decreases |pages|
  {
    pages != [] ==>
      location in file && file[location] == pages[0] && Laid(file, location + pages[0].Length(), pages[1..])
  }

  /** The pages that a reader finds one after another, if it starts at the location. */
  predicate Found<V(==)>(file: map<nat, Page<V>>, location: nat, pages: seq<Page<V>>)
    decreases |pages|
  {
    pages != [] ==>
      location in file && file[location] == pages[0] && Found(file, location + pages[0].Stride(), pages[1..])
  }

  /** The row at the front of two decoders, and the decoders behind it. */
  lemma FirstRow<V>(defines: seq<nat>, data: seq<V>, max: nat, i: nat)
    requires i < |defines| && |data| == Count(defines[i..], max)
    ensures defines[i] == max ==> data != [] && |data[1..]| == Count(defines[i + 1..], max)
    ensures defines[i] == max ==>
      Rows(defines[i..], data, max) == [Some(data[0])] + Rows(defines[i + 1..], data[1..], max)
    ensures defines[i] != max ==> |data| == Count(defines[i + 1..], max)
    ensures defines[i] != max ==> Rows(defines[i..], data, max) == [None] + Rows(defines[i + 1..], data, max)
  {
    assert defines[i..][1..] == defines[i + 1..];
  }

  // ---------------------------------------------------------------- a single reader

  /** A column chunk starts at its dictionary page, if its offset can be one. */
  function ChunkStart(dataPageOffset: nat, dictionaryPageOffset: Option<nat>): nat {
    if dictionaryPageOffset.Some? && dictionaryPageOffset.value >= 4 then dictionaryPageOffset.value else dataPageOffset
  }

  class Transport {
    var location: nat

    constructor () {
      location := 0;
    }

    method SetLocation(location: nat)
      modifies this
      ensures this.location == location
    {
      this.location := location;
    }
  }

  class ColumnReader<V(==)> {
    const file: map<nat, Page<V>>
    const trans: Transport
    const maxDefine: nat
    const directSelect: bool
    const vectorSize: nat

    var pendingSkips: nat
    var pageRowsAvailable: nat
    var groupRowsAvailable: int
    var chunkReadOffset: nat
    var plain: bool
    /** The level decoder and the value decoder of the current page. */
    var defines: seq<nat>
    var data: seq<V>
    /** The pages that have not been loaded. */
    ghost var later: seq<Page<V>>
    /** The rows that the chunk promises and that are not on its pages. */
    ghost const missing: nat

    ghost predicate Consistent()
      reads this
    {
      && vectorSize > 0
      && pageRowsAvailable == |defines| && |data| == Count(defines, maxDefine)
      && PagesFit(later, maxDefine)
    }

    /** The rows that have not been decoded, including those that are to be skipped. */
    ghost function Upcoming(): seq<Option<V>>
      reads this
      requires Consistent()
    {
      Rows(defines, data, maxDefine) + ColumnRows(later, maxDefine)
    }

    /** Between two operations: what the reader needs is in its own fields, wherever the transport stands. */
    ghost predicate Valid()
      reads this
    {
      && Consistent() && Found(file, chunkReadOffset, later)
      && groupRowsAvailable == |Upcoming()| + missing && pendingSkips <= |Upcoming()|
    }

    /** During an operation: the next page is where the transport stands. */
    ghost predicate Reading()
      reads this, trans
    {
      Consistent() && Found(file, trans.location, later)
    }

    /** What a plain cursor has in front of it. */
    ghost function Rest(): seq<Option<V>>
      reads this
      requires Valid()
    {
      Upcoming()[pendingSkips..]
    }

    constructor (file: map<nat, Page<V>>, trans: Transport, maxDefine: nat, directSelect: bool, vectorSize: nat,
                 dataPageOffset: nat, dictionaryPageOffset: Option<nat>, ghost pages: seq<Page<V>>, numValues: nat)
      requires vectorSize > 0 && PagesFit(pages, maxDefine)
      requires Found(file, ChunkStart(dataPageOffset, dictionaryPageOffset), pages)
      requires numValues >= |ColumnRows(pages, maxDefine)|
      ensures Valid() && Rest() == ColumnRows(pages, maxDefine) && missing == numValues - |Rest()|
      ensures this.trans == trans && this.vectorSize == vectorSize
      ensures chunkReadOffset ==
        if dictionaryPageOffset.Some? && dictionaryPageOffset.value >= 4 then dictionaryPageOffset.value
        else dataPageOffset
    {
      this.file, this.trans, this.maxDefine, this.directSelect, this.vectorSize :=
        file, trans, maxDefine, directSelect, vectorSize;
      pendingSkips, pageRowsAvailable, groupRowsAvailable, chunkReadOffset, plain :=
        0, 0, numValues, ChunkStart(dataPageOffset, dictionaryPageOffset), false;
      defines, data, later := [], [], pages;
      missing := numValues - |ColumnRows(pages, maxDefine)|;
    }

    /** The rows of the group that have not been read; rows that are still to be skipped are among them. */
    method GroupRowsAvailable() returns (n: int)
      requires Valid()
      ensures n == |Rest()| + pendingSkips + missing
    {
      n := groupRowsAvailable;
    }

    method Skip(numValues: nat)
      requires Valid() && numValues <= |Rest()|
      modifies this
      ensures Valid() && Rest() == old(Rest())[numValues..]
    {
      pendingSkips := pendingSkips + numValues;
    }

    /** Loads the page at the transport; only a data page brings rows. */
    method PreparePage()
      requires Reading() && pageRowsAvailable == 0 && later != []
      modifies this`pageRowsAvailable, this`defines, this`data, this`plain, this`later, trans
      ensures Reading() && later == old(later)[1..] && Upcoming() == old(Upcoming())
    {
      hide Rows, Count;
      NoRows(defines, data, maxDefine);
      var page := file[trans.location];
      trans.SetLocation(trans.location + page.Stride());
      match page {
        case DataPage(_, isPlain, levels, values) =>
          pageRowsAvailable, defines, data, plain := |levels|, levels, values, isPlain;
        case _ =>
          plain := false;
      }
      later := later[1..];
    }

    method ReadPageHeaders(maxRead: nat) returns (readNow: nat)
      requires Reading() && 0 < maxRead && (pageRowsAvailable > 0 || Upcoming() != [])
      modifies this`pageRowsAvailable, this`defines, this`data, this`plain, this`later, trans
      ensures Reading() && Upcoming() == old(Upcoming())
      ensures readNow == (if maxRead <= pageRowsAvailable && maxRead <= vectorSize then maxRead
                          else if pageRowsAvailable <= vectorSize then pageRowsAvailable else vectorSize)
      ensures 0 < readNow <= maxRead && readNow <= pageRowsAvailable && readNow <= vectorSize
    {
      hide Rows, Count, Found;
      while pageRowsAvailable == 0
        invariant Reading() && Upcoming() == old(Upcoming())
        invariant pageRowsAvailable > 0 || Upcoming() != []
        decreases |later|
      {
        if later == [] {
          NoRows(defines, data, maxDefine);
        }
        PreparePage();
      }
      var available := if maxRead <= pageRowsAvailable then maxRead else pageRowsAvailable;
      readNow := if available <= vectorSize then available else vectorSize;
    }

    /** Takes levels from the level decoder; a run of rows at the maximum level need not be written out. */
    method PrepareRead(readNow: nat, defineOut: seq<nat>, offset: nat) returns (levels: seq<nat>, allValid: bool)
      requires readNow <= |defines| && offset + readNow <= |defineOut|
      modifies this`defines
      ensures defines == old(defines)[readNow..] && |levels| == |defineOut|
      ensures allValid ==> forall k :: 0 <= k < readNow ==> old(defines)[k] == maxDefine
      ensures !allValid ==> forall k :: 0 <= k < readNow ==> levels[offset + k] == old(defines)[k]
    {
      var run: bool := *;
      allValid := run && forall k :: 0 <= k < readNow ==> defines[k] == maxDefine;
      levels := if allValid then defineOut
        else defineOut[..offset] + defines[..readNow] + defineOut[offset + readNow..];
      defines := defines[readNow..];
    }

    /** Decodes rows into the result. */
    method Plain(levels: seq<nat>, allValid: bool, readNow: nat, offset: nat, result: seq<Option<V>>,
                 ghost taken: seq<nat>)
      returns (out: seq<Option<V>>)
      requires readNow <= |taken| && |data| == Count(taken, maxDefine)
      requires offset + readNow <= |levels| && offset + readNow <= |result|
      requires forall k :: 0 <= k < readNow ==> taken[k] == if allValid then maxDefine else levels[offset + k]
      modifies this`data
      ensures |data| == Count(taken[readNow..], maxDefine)
      ensures |out| == |result| && out[..offset] == result[..offset]
      ensures out[offset..offset + readNow] + Rows(taken[readNow..], data, maxDefine) ==
        old(Rows(taken, data, maxDefine))
    {
      hide Rows, Count;
      out := result;
      assert taken[0..] == taken;
      for i := 0 to readNow
        invariant |data| == Count(taken[i..], maxDefine)
        invariant |out| == |result| && out[..offset] == result[..offset]
        invariant out[offset..offset + i] + Rows(taken[i..], data, maxDefine) == old(Rows(taken, data, maxDefine))
      {
        FirstRow(taken, data, maxDefine, i);
        ghost var before := out;
        if !allValid && levels[offset + i] != maxDefine {
          out := out[offset + i := None];
        } else {
          out := out[offset + i := Some(data[0])];
          data := data[1..];
        }
        Written(before, out, offset, i, Rows(taken[i + 1..], data, maxDefine));
      }
    }

    /** Drops the values of rows. */
    method PlainSkip(levels: seq<nat>, allValid: bool, skipNow: nat, offset: nat, ghost taken: seq<nat>)
      requires skipNow <= |taken| && |data| == Count(taken, maxDefine) && offset + skipNow <= |levels|
      requires forall k :: 0 <= k < skipNow ==> taken[k] == if allValid then maxDefine else levels[offset + k]
      modifies this`data
      ensures |data| == Count(taken[skipNow..], maxDefine)
      ensures Rows(taken[skipNow..], data, maxDefine) == old(Rows(taken, data, maxDefine))[skipNow..]
    {
      hide Rows, Count;
      assert taken[0..] == taken;
      for i := 0 to skipNow
        invariant |data| == Count(taken[i..], maxDefine)
        invariant Rows(taken[i..], data, maxDefine) == old(Rows(taken, data, maxDefine))[i..]
      {
        FirstRow(taken, data, maxDefine, i);
        if allValid || levels[offset + i] == maxDefine {
          data := data[1..];
        }
      }
    }

    method ReadData(readNow: nat, defineOut: seq<nat>, offset: nat, result: seq<Option<V>>)
      returns (levels: seq<nat>, out: seq<Option<V>>)
      requires Consistent() && readNow <= pageRowsAvailable
      requires offset + readNow <= |defineOut| && offset + readNow <= |result|
      modifies this`defines, this`data, this`pageRowsAvailable
      ensures Consistent() && |levels| == |defineOut| && |out| == |result|
      ensures out[..offset] == result[..offset]
      ensures out[offset..offset + readNow] + Upcoming() == old(Upcoming())
    {
      hide Rows, Count, ColumnRows;
      ghost var taken := defines;
      var allValid;
      levels, allValid := PrepareRead(readNow, defineOut, offset);
      out := Plain(levels, allValid, readNow, offset, result, taken);
      pageRowsAvailable := pageRowsAvailable - readNow;
      Regroup(out[offset..offset + readNow], Rows(defines, data, maxDefine), ColumnRows(later, maxDefine));
    }

    method FinishRead(readCount: nat)
      requires Reading()
      modifies this`chunkReadOffset, this`groupRowsAvailable
      ensures Consistent() && Found(file, chunkReadOffset, later)
      ensures groupRowsAvailable == old(groupRowsAvailable) - readCount && Upcoming() == old(Upcoming())
      ensures pendingSkips == 0 && groupRowsAvailable == |Upcoming()| + missing ==> Valid() && Rest() == Upcoming()
    {
      hide Rows, Count, ColumnRows, Found;
      chunkReadOffset := trans.location;
      groupRowsAvailable := groupRowsAvailable - readCount;
      assert Upcoming()[0..] == Upcoming();
    }

    /** Puts the transport where this reader left it and catches up on the rows to be skipped. */
    method BeginRead(defineOut: seq<nat>) returns (levels: seq<nat>)
      requires Valid() && |defineOut| >= vectorSize
      modifies this, trans
      ensures Reading() && pendingSkips == 0 && |levels| == |defineOut|
      ensures Upcoming() == old(Rest()) && groupRowsAvailable == |Upcoming()| + missing
    {
      hide Rows, Count, ColumnRows, Found;
      trans.SetLocation(chunkReadOffset);
      levels := ApplyPendingSkips(defineOut);
    }

    method ApplyPendingSkips(defineOut: seq<nat>) returns (levels: seq<nat>)
      requires Valid() && trans.location == chunkReadOffset && |defineOut| >= vectorSize
      modifies this, trans
      ensures Reading() && pendingSkips == 0 && |levels| == |defineOut|
      ensures Upcoming() == old(Rest()) && groupRowsAvailable == |Upcoming()| + missing
    {
      hide Rows, Count, ColumnRows, Found;
      levels := defineOut;
      if pendingSkips == 0 {
        assert Upcoming()[0..] == Upcoming();
        return;
      }
      var numValues := pendingSkips;
      pendingSkips := 0;
      var toSkip: nat := numValues;
      trans.SetLocation(chunkReadOffset);
      while toSkip > 0
        invariant Reading() && |levels| == |defineOut| && pendingSkips == 0
        invariant toSkip <= |Upcoming()| && Upcoming()[toSkip..] == old(Rest())
        invariant groupRowsAvailable == old(groupRowsAvailable)
      {
        var skipNow := ReadPageHeaders(toSkip);
        levels := SkipData(skipNow, levels);
        toSkip := toSkip - skipNow;
      }
      assert Upcoming()[0..] == Upcoming();
      FinishRead(numValues);
    }

    method SkipData(skipNow: nat, defineOut: seq<nat>) returns (levels: seq<nat>)
      requires Consistent() && skipNow <= pageRowsAvailable && skipNow <= |defineOut|
      modifies this`defines, this`data, this`pageRowsAvailable
      ensures Consistent() && |levels| == |defineOut|
      ensures skipNow <= |old(Upcoming())| && Upcoming() == old(Upcoming())[skipNow..]
    {
      hide Rows, Count, ColumnRows;
      ghost var taken := defines;
      var allValid;
      levels, allValid := PrepareRead(skipNow, defineOut, 0);
      PlainSkip(levels, allValid, skipNow, 0, taken);
      pageRowsAvailable := pageRowsAvailable - skipNow;
    }

    /** Reads as many rows as one page and one vector allow. */
    method ReadPart(toRead: nat, defineOut: seq<nat>, offset: nat, result: seq<Option<V>>, ghost whole: seq<Option<V>>)
      returns (readNow: nat, levels: seq<nat>, out: seq<Option<V>>)
      requires Reading() && 0 < toRead <= |Upcoming()|
      requires offset + toRead <= vectorSize && vectorSize <= |defineOut| && vectorSize <= |result|
      requires result[..offset] + Upcoming() == whole
      modifies this`pageRowsAvailable, this`defines, this`data, this`plain, this`later, trans
      ensures Reading() && Consistent() && 0 < readNow <= toRead && toRead - readNow <= |Upcoming()|
      ensures |levels| == |defineOut| && |out| == |result|
      ensures out[..offset + readNow] + Upcoming() == whole
    {
      hide Rows, Count, ColumnRows, Found, Upcoming, Consistent;
      readNow := ReadPageHeaders(toRead);
      levels, out := ReadData(readNow, defineOut, offset, result);
      Joined(result, out, offset, readNow, Upcoming(), whole);
    }

    /** Reads page after page until all rows are there. */
    method ReadParts(numValues: nat, defineOut: seq<nat>, result: seq<Option<V>>) returns (out: seq<Option<V>>)
      requires Reading() && Consistent()
      requires numValues <= |Upcoming()| && numValues <= vectorSize <= |defineOut| && vectorSize <= |result|
      modifies this`pageRowsAvailable, this`defines, this`data, this`plain, this`later, trans
      ensures Reading() && Consistent() && |out| == |result| && out[..numValues] + Upcoming() == old(Upcoming())
    {
      hide Rows, Count, ColumnRows, Found, Upcoming, Consistent, Reading;
      var offset: nat, toRead: nat, levels := 0, numValues, defineOut;
      out := result;
      ghost var whole := Upcoming();
      assert out[..0] + whole == whole;
      while toRead > 0
        invariant Reading() && Consistent() && |levels| == |defineOut| && |out| == |result|
        invariant offset + toRead == numValues && toRead <= |Upcoming()|
        invariant out[..offset] + Upcoming() == whole
      {
        var readNow;
        readNow, levels, out := ReadPart(toRead, levels, offset, out, whole);
        offset := offset + readNow;
        toRead := toRead - readNow;
      }
    }

    method ReadInternal(numValues: nat, defineOut: seq<nat>, result: seq<Option<V>>) returns (out: seq<Option<V>>)
      requires Reading() && Consistent() && pendingSkips == 0 && groupRowsAvailable == |Upcoming()| + missing
      requires numValues <= |Upcoming()| && numValues <= vectorSize <= |defineOut| && vectorSize <= |result|
      modifies this, trans
      ensures Valid() && pendingSkips == 0 && |out| == |result|
      ensures out[..numValues] == old(Upcoming())[..numValues] && Rest() == old(Upcoming())[numValues..]
    {
      hide Rows, Count, ColumnRows, Found, Upcoming, Consistent, Valid, Rest, Reading;
      out := ReadParts(numValues, defineOut, result);
      Parted(out[..numValues], Upcoming(), old(Upcoming()));
      FinishRead(numValues);
    }

    method Read(numValues: nat, defineOut: seq<nat>, result: seq<Option<V>>) returns (out: seq<Option<V>>)
      requires Valid() && numValues <= |Rest()| && numValues <= vectorSize <= |defineOut| && vectorSize <= |result|
      modifies this, trans
      ensures Valid() && pendingSkips == 0 && |out| == |result|
      ensures out[..numValues] == old(Rest())[..numValues] && Rest() == old(Rest())[numValues..]
    {
      hide Rows, Count, ColumnRows, Found;
      var levels := BeginRead(defineOut);
      out := ReadInternal(numValues, levels, result);
    }

    /** Decodes only the selected rows of a page, each to its own place. */
    method PlainSelect(levels: seq<nat>, allValid: bool, readNow: nat, result: seq<Option<V>>, sel: seq<nat>,
                       ghost taken: seq<nat>)
      returns (out: seq<Option<V>>)
      requires readNow <= |taken| && |data| == Count(taken, maxDefine)
      requires readNow <= |levels| && readNow <= |result| && Selects(sel, readNow)
      requires forall k :: 0 <= k < readNow ==> taken[k] == if allValid then maxDefine else levels[k]
      modifies this`data
      ensures |data| == Count(taken[readNow..], maxDefine) && |out| == |result|
      ensures Rows(taken[readNow..], data, maxDefine) == old(Rows(taken, data, maxDefine))[readNow..]
      ensures forall j :: 0 <= j < |sel| ==> out[sel[j]] == old(Rows(taken, data, maxDefine))[sel[j]]
    {
      hide Rows, Count;
      out := result;
      var currentEntry: nat := 0;
      ghost var rows := Rows(taken, data, maxDefine);
      assert taken[0..] == taken;
      for i := 0 to |sel|
        invariant currentEntry == (if i == 0 then 0 else sel[i - 1] + 1) && |out| == |result|
        invariant |data| == Count(taken[currentEntry..], maxDefine)
        invariant Rows(taken[currentEntry..], data, maxDefine) == rows[currentEntry..]
        invariant forall j :: 0 <= j < i ==> out[sel[j]] == rows[sel[j]]
      {
        var nextEntry := sel[i];
        AllBefore(sel, readNow, i);
        SkipTo(levels, allValid, nextEntry, currentEntry, taken, rows);
        FirstRow(taken, data, maxDefine, nextEntry);
        if !allValid && levels[nextEntry] != maxDefine {
          out := out[nextEntry := None];
        } else {
          out := out[nextEntry := Some(data[0])];
          data := data[1..];
        }
        currentEntry := nextEntry + 1;
      }
      if currentEntry < readNow {
        SkipTo(levels, allValid, readNow, currentEntry, taken, rows);
      }
    }

    /** Skips forward inside a page. */
    method SkipTo(levels: seq<nat>, allValid: bool, to: nat, from: nat, ghost taken: seq<nat>,
                  ghost rows: seq<Option<V>>)
      requires from <= to <= |taken| && to <= |levels| && |rows| == |taken|
      requires |data| == Count(taken[from..], maxDefine) && Rows(taken[from..], data, maxDefine) == rows[from..]
      requires forall k :: 0 <= k < to ==> taken[k] == if allValid then maxDefine else levels[k]
      modifies this`data
      ensures |data| == Count(taken[to..], maxDefine) && Rows(taken[to..], data, maxDefine) == rows[to..]
    {
      hide Rows, Count;
      assert taken[from..][to - from..] == taken[to..];
      assert rows[from..][to - from..] == rows[to..];
      PlainSkip(levels, allValid, to - from, from, taken[from..]);
    }

    method DirectSelect(numValues: nat, defineOut: seq<nat>, result: seq<Option<V>>, sel: seq<nat>)
      returns (out: seq<Option<V>>)
      requires Valid() && 0 < numValues <= |Rest()| && numValues <= vectorSize <= |defineOut| && vectorSize <= |result|
      requires Selects(sel, numValues)
      modifies this, trans
      ensures Valid() && pendingSkips == 0 && |out| == |result|
      ensures forall j :: 0 <= j < |sel| ==> out[sel[j]] == old(Rest())[sel[j]]
      ensures Rest() == old(Rest())[numValues..]
    {
      hide Rows, Count, ColumnRows, Found;
      var levels := BeginRead(defineOut);
      var readNow := ReadPageHeaders(numValues);
      if readNow == numValues && plain {
        out := SelectFromPage(numValues, levels, result, sel);
        FinishRead(numValues);
        assert Upcoming()[0..] == Upcoming();
        return;
      }
      out := ReadInternal(numValues, levels, result);
      FrontOf(out, old(Rest()), numValues, sel);
    }

    method SelectFromPage(readNow: nat, defineOut: seq<nat>, result: seq<Option<V>>, sel: seq<nat>)
      returns (out: seq<Option<V>>)
      requires Consistent() && readNow <= pageRowsAvailable && readNow <= |defineOut| && readNow <= |result|
      requires Selects(sel, readNow)
      modifies this`defines, this`data, this`pageRowsAvailable
      ensures Consistent() && |out| == |result| && readNow <= |old(Upcoming())|
      ensures Upcoming() == old(Upcoming())[readNow..]
      ensures forall j :: 0 <= j < |sel| ==> out[sel[j]] == old(Upcoming())[sel[j]]
    {
      hide Rows, Count, ColumnRows;
      ghost var taken := defines;
      var levels, allValid := PrepareRead(readNow, defineOut, 0);
      out := PlainSelect(levels, allValid, readNow, result, sel, taken);
      pageRowsAvailable := pageRowsAvailable - readNow;
    }

    method Select(numValues: nat, defineOut: seq<nat>, result: seq<Option<V>>, sel: seq<nat>)
      returns (out: seq<Option<V>>)
      requires Valid() && numValues <= |Rest()| && numValues <= vectorSize <= |defineOut| && vectorSize <= |result|
      requires Selects(sel, numValues)
      modifies this, trans
      ensures Valid() && pendingSkips == 0 && |out| == |result|
      ensures forall j :: 0 <= j < |sel| ==> out[sel[j]] == old(Rest())[sel[j]]
      ensures Rest() == old(Rest())[numValues..]
    {
      hide Rows, Count, ColumnRows, Found;
      if directSelect && |sel| < numValues {
        out := DirectSelect(numValues, defineOut, result, sel);
        return;
      }
      out := Read(numValues, defineOut, result);
      FrontOf(out, old(Rest()), numValues, sel);
    }
  }

  /** A selection of rows in increasing order. */
  predicate Selects(sel: seq<nat>, n: nat) {
    && (forall j :: 0 <= j < |sel| ==> sel[j] < n)
    && (forall i, j :: 0 <= i < j < |sel| ==> sel[i] < sel[j])
  }

  lemma AllBefore(sel: seq<nat>, n: nat, i: nat)
    requires Selects(sel, n) && i < |sel|
    ensures (if i == 0 then 0 else sel[i - 1] + 1) <= sel[i] < n
    ensures forall j :: 0 <= j < i ==> sel[j] < sel[i]
  {
  }

  lemma FrontOf<E>(out: seq<E>, rest: seq<E>, n: nat, sel: seq<nat>)
    requires n <= |out| && n <= |rest| && out[..n] == rest[..n] && Selects(sel, n)
    ensures forall j :: 0 <= j < |sel| ==> out[sel[j]] == rest[sel[j]]
  {
    forall j | 0 <= j < |sel| ensures out[sel[j]] == rest[sel[j]] {
      assert out[..n][sel[j]] == rest[..n][sel[j]];
    }
  }

  lemma Joined<E>(before: seq<E>, after: seq<E>, offset: nat, n: nat, rest: seq<E>, whole: seq<E>)
    requires offset + n <= |before| == |after| && after[..offset] == before[..offset]
    requires before[..offset] + (after[offset..offset + n] + rest) == whole
    ensures after[..offset + n] + rest == whole
  {
  }

  lemma Parted<E>(front: seq<E>, rest: seq<E>, whole: seq<E>)
    requires front + rest == whole
    ensures front == whole[..|front|] && rest == whole[|front|..]
  {
  }

  lemma NoRows<V>(defines: seq<nat>, data: seq<V>, max: nat)
    requires |data| == Count(defines, max)
    ensures defines == [] ==> Rows(defines, data, max) == []
    ensures Rows<V>([], [], max) == [] && Count([], max) == 0
  {
  }

  lemma Written<E>(before: seq<E>, after: seq<E>, offset: nat, i: nat, rest: seq<E>)
    requires offset + i < |before| == |after| && after == before[offset + i := after[offset + i]]
    ensures after[offset..offset + i + 1] + rest == before[offset..offset + i] + ([after[offset + i]] + rest)
    ensures after[..offset] == before[..offset]
  {
  }

  // ---------------------------------------------------------------- pages that are not found

  /** What a reader finds does not depend on anything but where it starts. */
  lemma {:induction false} FoundIsUnique<V>(file: map<nat, Page<V>>, location: nat, a: seq<Page<V>>, b: seq<Page<V>>)
    requires Found(file, location, a) && Found(file, location, b) && |a| <= |b|
    ensures a == b[..|a|]
    decreases |a|
  {
    if a != [] {
      FoundIsUnique(file, location + a[0].Stride(), a[1..], b[1..]);
      assert b[..|a|] == [b[0]] + b[1..][..|a| - 1];
    }
  }

  predicate HasBody<V>(page: Page<V>) {
    page.IndexPage? && page.body > 0
  }

  /** No page can be read out of the body of an index page. */
  predicate BodiesAreBare<V>(file: map<nat, Page<V>>, location: nat, pages: seq<Page<V>>)
    decreases |pages|
  {
    pages != [] ==>
      && (HasBody(pages[0]) ==> location + pages[0].Stride() !in file)
      && BodiesAreBare(file, location + pages[0].Length(), pages[1..])
  }

  /** The pages up to the first index page with a body. */
  function Reach<V>(pages: seq<Page<V>>): seq<Page<V>> {
    if pages == [] then []
    else if HasBody(pages[0]) then [pages[0]]
    else [pages[0]] + Reach(pages[1..])
  }

  /** Every index page with rows behind it has no body. */
  predicate Harmless<V>(pages: seq<Page<V>>, max: nat)
    requires PagesFit(pages, max)
  {
    forall k :: 0 <= k < |pages| && HasBody(pages[k]) ==> ColumnRows(pages[k + 1..], max) == []
  }

  lemma {:induction false} NothingBehind<V>(pages: seq<Page<V>>, max: nat, k: nat)
    requires PagesFit(pages, max) && k <= |pages| && ColumnRows(pages, max) == []
    ensures ColumnRows(pages[k..], max) == []
    decreases k
  {
    hide PageRows;
    if k > 0 {
      NothingBehind(pages[1..], max, k - 1);
      assert pages[1..][k - 1..] == pages[k..];
    }
  }

  lemma HarmlessFirst<V>(pages: seq<Page<V>>, max: nat)
    requires PagesFit(pages, max) && pages != []
    ensures Harmless(pages, max) <==>
      (HasBody(pages[0]) ==> ColumnRows(pages[1..], max) == []) && Harmless(pages[1..], max)
    ensures HasBody(pages[0]) && ColumnRows(pages[1..], max) == [] ==> Harmless(pages[1..], max)
  {
    hide ColumnRows;
    var later := pages[1..];
    if Harmless(pages, max) {
      forall k | 0 <= k < |later| && HasBody(later[k]) ensures ColumnRows(later[k + 1..], max) == [] {
        assert later[k] == pages[k + 1] && later[k + 1..] == pages[k + 2..];
      }
    }
    if Harmless(later, max) && (HasBody(pages[0]) ==> ColumnRows(later, max) == []) {
      forall k | 0 <= k < |pages| && HasBody(pages[k]) ensures ColumnRows(pages[k + 1..], max) == [] {
        if k > 0 {
          assert pages[k] == later[k - 1] && pages[k + 1..] == later[k..];
        }
      }
    }
    if ColumnRows(later, max) == [] {
      forall k | 0 < k <= |later| ensures ColumnRows(later[k..], max) == [] {
        NothingBehind(later, max, k);
      }
    }
  }

  lemma {:induction false} ReachIsFound<V>(file: map<nat, Page<V>>, location: nat, pages: seq<Page<V>>)
    requires Laid(file, location, pages)
    ensures Found(file, location, Reach(pages))
    decreases |pages|
  {
    if pages != [] && !HasBody(pages[0]) {
      ReachIsFound(file, location + pages[0].Length(), pages[1..]);
      assert Reach(pages)[1..] == Reach(pages[1..]);
    }
  }

  /** The rows up to the first index page with a body are all rows exactly if no rows follow such a page. */
  lemma {:induction false} ReachRows<V>(pages: seq<Page<V>>, max: nat)
    requires PagesFit(pages, max)
    ensures PagesFit(Reach(pages), max)
    ensures |ColumnRows(Reach(pages), max)| <= |ColumnRows(pages, max)|
    ensures Harmless(pages, max) <==> |ColumnRows(Reach(pages), max)| == |ColumnRows(pages, max)|
    ensures Harmless(pages, max) ==> ColumnRows(Reach(pages), max) == ColumnRows(pages, max)
  {
    hide PageRows, Harmless;
    if pages != [] {
      HarmlessFirst(pages, max);
      if HasBody(pages[0]) {
        assert [pages[0]][1..] == [];
      } else {
        ReachRows(pages[1..], max);
        assert Reach(pages)[1..] == Reach(pages[1..]);
      }
    } else {
      NoneIsHarmless<V>(max);
    }
  }

  lemma NoneIsHarmless<V>(max: nat)
    ensures Harmless<V>([], max)
  {
  }

  /** With an index page with a body nothing is found behind the first of them. */
  lemma {:induction false} ReachIsAll<V>(file: map<nat, Page<V>>, location: nat, pages: seq<Page<V>>,
                                         seen: seq<Page<V>>, k: nat)
    requires Laid(file, location, pages) && BodiesAreBare(file, location, pages) && Found(file, location, seen)
    requires k < |pages| && HasBody(pages[k])
    ensures |seen| <= |Reach(pages)|
    decreases |pages|
  {
    if seen != [] {
      var later := seen[1..];
      if HasBody(pages[0]) {
        assert later == [];
      } else {
        ReachIsAll(file, location + pages[0].Length(), pages[1..], later, k - 1);
      }
    }
  }

  lemma {:induction false} FewerRows<V>(pages: seq<Page<V>>, max: nat, n: nat)
    requires PagesFit(pages, max) && n <= |pages|
    ensures |ColumnRows(pages[..n], max)| <= |ColumnRows(pages, max)|
    decreases n
  {
    hide PageRows;
    if n > 0 {
      FewerRows(pages[1..], max, n - 1);
      assert pages[..n][1..] == pages[1..][..n - 1];
    }
  }

  /**
   A reader that starts at a chunk finds pages with all of its rows exactly if no index page with a
   body stands before rows, as long as no page can be read out of such a body.
   */
  lemma AllRowsFound<V>(file: map<nat, Page<V>>, location: nat, pages: seq<Page<V>>, max: nat)
    requires Laid(file, location, pages) && PagesFit(pages, max) && BodiesAreBare(file, location, pages)
    ensures Harmless(pages, max) <==>
      exists seen :: PagesFit(seen, max) && Found(file, location, seen)
        && ColumnRows(seen, max) == ColumnRows(pages, max)
  {
    hide Laid, Found, BodiesAreBare, ColumnRows, Reach;
    ReachIsFound(file, location, pages);
    ReachRows(pages, max);
    if !Harmless(pages, max) {
      var k :| 0 <= k < |pages| && HasBody(pages[k]) && ColumnRows(pages[k + 1..], max) != [];
      forall seen | PagesFit(seen, max) && Found(file, location, seen)
        ensures |ColumnRows(seen, max)| < |ColumnRows(pages, max)|
      {
        ReachIsAll(file, location, pages, seen, k);
        FoundIsUnique(file, location, seen, Reach(pages));
        FewerRows(Reach(pages), max, |seen|);
      }
    }
  }

  /** An index page of ten bytes and a body of twenty, of which a page is read before the row of the chunk. */
  lemma BodyIsRead()
    ensures
      var index, hidden, data := IndexPage(10, 20), DataPage(20, true, [0], [5]), DataPage(20, true, [0], [7]);
      var file := map[4 := index, 14 := hidden, 34 := data];
      && Laid(file, 4, [index, data]) && Found(file, 4, [index, hidden, data])
      && ColumnRows([index, data], 0) == [Some(7)] && ColumnRows([index, hidden, data], 0) == [Some(5), Some(7)]
  {
    var index, hidden, data := IndexPage(10, 20), DataPage(20, true, [0], [5]), DataPage(20, true, [0], [7]);
    assert [index, hidden, data][1..] == [hidden, data] && [hidden, data][1..] == [data]
      && [index, data][1..] == [data];
    var file := map[4 := index, 14 := hidden, 34 := data];
    OneRow(20, 5);
    OneRow(20, 7);
    assert Found(file, 34, [data]) && Laid(file, 34, [data]);
    assert Found(file, 14, [hidden, data]);
    assert ColumnRows([data], 0) == [Some(7)];
    assert ColumnRows([hidden, data], 0) == [Some(5), Some(7)];
  }

  lemma OneRow(size: nat, value: int)
    ensures PageFits(DataPage(size, true, [0], [value]), 0)
    ensures PageRows(DataPage(size, true, [0], [value]), 0) == [Some(value)]
  {
    assert [0][1..] == [] && [value][1..] == [];
  }

  // ---------------------------------------------------------------- many readers on one transport

  datatype Operation =
    | ReadRows(column: nat, n: nat)
    | SkipRows(column: nat, n: nat)
    | SelectRows(column: nat, n: nat, sel: seq<nat>)

  type Cursors<V> = seq<seq<Option<V>>>

  /** What an operation asks for is there. */
  predicate Possible<V>(cursors: Cursors<V>, op: Operation, vectorSize: nat) {
    && op.column < |cursors| && op.n <= |cursors[op.column]|
    && (op.SkipRows? || op.n <= vectorSize)
    && (op.SelectRows? ==> Selects(op.sel, op.n))
  }

  /** The rows that an operation gives on plain cursors. */
  function Output<V>(cursors: Cursors<V>, op: Operation, vectorSize: nat): seq<Option<V>>
    requires Possible(cursors, op, vectorSize)
  {
    var rows := cursors[op.column];
    match op
    case ReadRows(_, n) => rows[..n]
    case SkipRows(_, _) => []
    case SelectRows(_, _, sel) => seq(|sel|, j requires 0 <= j < |sel| => rows[sel[j]])
  }

  function Advance<V>(cursors: Cursors<V>, op: Operation, vectorSize: nat): Cursors<V>
    requires Possible(cursors, op, vectorSize)
  {
    cursors[op.column := cursors[op.column][op.n..]]
  }

  predicate AllPossible<V>(cursors: Cursors<V>, ops: seq<Operation>, vectorSize: nat)
    decreases |ops|
  {
    ops != [] ==>
      && Possible(cursors, ops[0], vectorSize)
      && AllPossible(Advance(cursors, ops[0], vectorSize), ops[1..], vectorSize)
  }

  function Outputs<V>(cursors: Cursors<V>, ops: seq<Operation>, vectorSize: nat): seq<seq<Option<V>>>
    requires AllPossible(cursors, ops, vectorSize)
    decreases |ops|
  {
    if ops == [] then []
    else [Output(cursors, ops[0], vectorSize)] + Outputs(Advance(cursors, ops[0], vectorSize), ops[1..], vectorSize)
  }

  /** How far some operations move the cursor of a column. */
  function Taken(ops: seq<Operation>, column: nat): nat {
    if ops == [] then 0
    else Taken(ops[..|ops| - 1], column) + if ops[|ops| - 1].column == column then ops[|ops| - 1].n else 0
  }

  /** What an operation gives of the rows of a column from some place on. */
  predicate OutputAt<V(==)>(op: Operation, rows: seq<Option<V>>, at: nat, out: seq<Option<V>>) {
    && at + op.n <= |rows|
    && match op
       case ReadRows(_, n) => out == rows[at..at + n]
       case SkipRows(_, _) => out == []
       case SelectRows(_, n, sel) =>
         |out| == |sel| && forall j :: 0 <= j < |sel| ==> sel[j] < n && out[j] == rows[at + sel[j]]
  }

  lemma OutputBehind<V>(op: Operation, rows: seq<Option<V>>, n: nat, at: nat, out: seq<Option<V>>)
    requires n <= |rows| && OutputAt(op, rows[n..], at, out)
    ensures OutputAt(op, rows, n + at, out)
  {
  }

  /** Each operation gives rows of its own column, from the place that the operations before it have left. */
  lemma {:induction false} OutputIs<V>(cursors: Cursors<V>, ops: seq<Operation>, vectorSize: nat, i: nat)
    requires AllPossible(cursors, ops, vectorSize) && i < |ops|
    ensures |Outputs(cursors, ops, vectorSize)| == |ops| && ops[i].column < |cursors|
    ensures OutputAt(ops[i], cursors[ops[i].column], Taken(ops[..i], ops[i].column),
      Outputs(cursors, ops, vectorSize)[i])
    decreases |ops|
  {
    hide OutputAt;
    var op, later := ops[0], Advance(cursors, ops[0], vectorSize);
    OutputsLength(later, ops[1..], vectorSize);
    if i > 0 {
      OutputIs(later, ops[1..], vectorSize, i - 1);
      TakenFirst(ops[..i], ops[i].column);
      assert ops[..i][1..] == ops[1..][..i - 1];
      if ops[i].column == op.column {
        OutputBehind(ops[i], cursors[op.column], op.n, Taken(ops[1..][..i - 1], op.column),
                     Outputs(cursors, ops, vectorSize)[i]);
      }
    } else {
      FirstOutput(cursors, op, vectorSize);
    }
  }

  lemma FirstOutput<V>(cursors: Cursors<V>, op: Operation, vectorSize: nat)
    requires Possible(cursors, op, vectorSize)
    ensures OutputAt(op, cursors[op.column], 0, Output(cursors, op, vectorSize))
  {
  }

  lemma {:induction false} OutputsLength<V>(cursors: Cursors<V>, ops: seq<Operation>, vectorSize: nat)
    requires AllPossible(cursors, ops, vectorSize)
    ensures |Outputs(cursors, ops, vectorSize)| == |ops|
    decreases |ops|
  {
    if ops != [] {
      OutputsLength(Advance(cursors, ops[0], vectorSize), ops[1..], vectorSize);
    }
  }

  lemma {:induction false} TakenFirst(ops: seq<Operation>, column: nat)
    requires ops != []
    ensures Taken(ops, column) == (if ops[0].column == column then ops[0].n else 0) + Taken(ops[1..], column)
    decreases |ops|
  {
    if |ops| > 1 {
      var n := |ops| - 1;
      TakenFirst(ops[..n], column);
      assert ops[1..][..n - 1] == ops[..n][1..];
    }
  }

  /** Different readers that share a transport and stand where the cursors stand. */
  ghost predicate Simulate<V>(readers: seq<ColumnReader<V>>, trans: Transport, vectorSize: nat, cursors: Cursors<V>)
    reads readers
  {
    && |readers| == |cursors|
    && (forall i, j :: 0 <= i < j < |readers| ==> readers[i] != readers[j])
    && (forall i :: 0 <= i < |readers| ==>
          && readers[i].trans == trans && readers[i].vectorSize == vectorSize
          && readers[i].Valid() && readers[i].Rest() == cursors[i])
  }

  method Step<V(==)>(readers: seq<ColumnReader<V>>, trans: Transport, vectorSize: nat, op: Operation,
                     ghost cursors: Cursors<V>,
                     defineOut: seq<nat>, vector: seq<Option<V>>) returns (output: seq<Option<V>>)
    requires Simulate(readers, trans, vectorSize, cursors) && Possible(cursors, op, vectorSize)
    requires vectorSize <= |defineOut| && vectorSize <= |vector|
    modifies readers, trans
    ensures Simulate(readers, trans, vectorSize, Advance(cursors, op, vectorSize))
    ensures output == Output(cursors, op, vectorSize)
  {
    hide ColumnReader.Upcoming, ColumnReader.Consistent, Found;
    var reader := readers[op.column];
    match op {
      case ReadRows(_, n) =>
        var out := reader.Read(n, defineOut, vector);
        output := out[..n];
      case SkipRows(_, n) =>
        reader.Skip(n);
        output := [];
      case SelectRows(_, n, sel) =>
        var out := reader.Select(n, defineOut, vector, sel);
        output := seq(|sel|, j requires 0 <= j < |sel| && sel[j] < |out| => out[sel[j]]);
    }
  }

  /** Whatever the order of reads, selections and skips on whatever columns, each gives what a plain cursor gives. */
  method Run<V(==)>(readers: seq<ColumnReader<V>>, trans: Transport, vectorSize: nat, ops: seq<Operation>,
                    ghost cursors: Cursors<V>,
                    defineOut: seq<nat>, vector: seq<Option<V>>) returns (outputs: seq<seq<Option<V>>>)
    requires Simulate(readers, trans, vectorSize, cursors) && AllPossible(cursors, ops, vectorSize)
    requires vectorSize <= |defineOut| && vectorSize <= |vector|
    modifies readers, trans
    ensures outputs == Outputs(cursors, ops, vectorSize)
  {
    hide Simulate, Possible, Output, Advance;
    outputs := [];
    ghost var now := cursors;
    assert ops[0..] == ops;
    for i := 0 to |ops|
      invariant Simulate(readers, trans, vectorSize, now) && AllPossible(now, ops[i..], vectorSize)
      invariant outputs + Outputs(now, ops[i..], vectorSize) == Outputs(cursors, ops, vectorSize)
    {
      assert ops[i..][1..] == ops[i + 1..];
      var output := Step(readers, trans, vectorSize, ops[i], now, defineOut, vector);
      outputs := outputs + [output];
      now := Advance(now, ops[i], vectorSize);
    }
  }
}
