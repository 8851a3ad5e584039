# DuckDB for Node.js: verified models of its hard algorithms

The Node.js package wraps DuckDB and carries the sources of its extensions. This project models
the algorithms of both that are hard to get right, and proves what they promise. Each module
follows one component; operations that change state are methods on classes or loops, proved
against a specification, and the protocols of several threads are state machines over all
interleavings. Batch sizes, buffer sizes and row group sizes are arbitrary positive parameters.

- **Reading newline-delimited JSON.** `TextLines` is the specification: the non-blank lines of a text.
  `JsonFile` reads a pipe through its cache, `ScanState` parses one buffer, `SequentialReader` carries
  cut-off lines from buffer to buffer, `ParallelScan` looks back into the previous chunk, and
  `BufferProtocol` lets any number of threads share the buffers through reader counts. The sequential
  scan gives the lines of the file or fails for one that is too long; the parallel one does so exactly
  if every chunk without a newline follows one that leaves no text over and is not a lone byte itself.
- **Other formats and errors.** `NextJson` finds the end of a value by counting brackets and splits
  arrays, over any number of buffers; `ErrorReport` decides which of many errors is thrown and with
  which line number.
- **JSON paths.** `Json` is the tree, `JsonPath` the scanner, the validation and the two evaluators;
  both are compared with one denotation of paths.
- **list_filter and list_transform.** `LambdaBatch` packs the elements of many lists into batches that
  cut across rows and rebuilds the rows with a cursor that survives from batch to batch.
- **Parquet.** `ColumnReader` skips lazily and shares one transport between columns; `ParquetWrite` is
  the protocol of writing threads; `ParquetSchema` flattens a type tree and counts levels;
  `BloomFilter` prunes row groups; `Wkb` computes bounding boxes in a flat loop.
- **The wrapper.** `StructEncoder` is the explicit-stack encoding of nested structs, `TaskQueue` the
  queue that works on one task at a time.
- **Time buckets.** `TimeBucket` is floor arithmetic built from division that truncates toward zero.

Where the specifications themselves rest on small functions, such as what counts as whitespace, which element
an index names or which bytes are a coordinate, lemmas named `...Written`, `...Is` and `...Exactly` say in
characters, bytes and numbers what these functions mean.

The code is modelled as it is. In these cases it does not do what one would expect of it. For each there
is the exact condition under which it occurs, or, for the last three, the exact condition in the cases
named there and one direction in general:

- the parallel scan loses text when a chunk without a newline follows one that leaves text over, or is
  itself a lone byte other than whitespace (`ParallelScan.ParallelExact`): a line that spans three chunks
  loses its beginning (`LongLineIsCut`), and so does a last line without a newline that crosses the last
  boundary. The code raises an object-size error instead if such a chunk, with what it takes over, exceeds
  the maximum; the loss is silent exactly if no chunk does (`BufferProtocol.SilentLossExactly`), and then
  what a chunk loses fits into what it leaves free of the maximum (`ParallelScan.LossIsBounded`);
- a well-formed array fails with an unexpected character when a buffer ends behind whitespace behind an
  object, array or string, before the comma or bracket (`NextJson.ArrayOverBuffers`, `UnexpectedExactly`,
  an instance in `SpaceAtTheEnd`);
- validation of a path reads beyond its text when the text ends in an unclosed index of 19 digits, or
  when it ends in `.*` or two dots and a star stands behind it (`JsonPath.OverrunExactly`); a quote behind
  two dots makes it ask for more memory than there can be (`FailureExactly`). With a zero behind the text
  only the index is left (`TerminatedOverrun`); a path that is not constant is scanned where it lies in
  its vector, with whatever byte follows (`src/duckdb/extension/json/include/json_common.hpp`, lines
  288-294);
- a quoted star is a wildcard and a quoted empty key is refused, at every place of every path
  (`JsonPath.QuotedKeyExactly`);
- a bucket in days can lie after the timestamp when the origin is not at a whole millisecond
  (`TimeBucket.DayBucketExactly`, an instance in `StraddlingExample`);
- the line number of a parse error is one greater than that of a transform error in the same line
  (`ErrorReport.ReportedLine`);
- of an index page only the header is passed over, so that its body is read as a page. If no page can be
  read there, the rows behind it are not found: a reader finds all rows exactly if no index page with a
  body stands before rows (`ColumnReader.AllRowsFound`). Otherwise it reads rows that are not there
  (`BodyIsRead`);
- the byte order mark of a geometry is ignored, so that the type of a big-endian one is never added and
  its body is taken for further headers (`Wkb.TypeAddedExactly`, `BigEndianHeaderIsSkipped`). A point, line
  or polygon is accounted for exactly if it is little-endian (`SimpleExactly`). A big-endian point of two
  dimensions is rejected (`PointExactly`), but other big-endian geometries can be accepted with a wrong
  box (`HiddenPointIsAccepted`). For collections only one direction holds: what is little-endian throughout
  is accounted for (`UpdateEncoded`, `MixedIsAccepted`);
- a row group can be pruned although it holds a value equal to the constant, if their hashes select
  different blocks or bits, as those of 0.0 and -0.0 do (`BloomFilter.ZeroIsExcluded`). For a filter with
  one hash that is the exact condition (`OnlyValueExcluded`); in any filter, hashes that select the same
  block and bits are never pruned (`ExclusionIsSound`).

## Model

| member | source | states |
|---|---|---|
| `JsonFile.JsonFileHandle.Read` | src/duckdb/extension/json/json_reader.cpp:111-136 | from any position, over cached and fresh bytes, a read returns exactly the next bytes of the flat stream and leaves the cache equal to the prefix that the source has delivered; a read of nothing marks the end, and a request for zero bytes does so early |
| `JsonFile.JsonFileHandle.ReadInternal` | src/duckdb/extension/json/json_reader.cpp:138-149 | short reads of the source are repeated until the request is filled or the source ends |
| `JsonFile.JsonFileHandle.ReadFromCache` | src/duckdb/extension/json/json_reader.cpp:151-175 | the cached part of the stream at the position, walking over cached buffers with an offset into the first |
| `JsonFile.JsonFileHandle.Reset` | src/duckdb/extension/json/json_reader.cpp:34-43 | after a reset the next read starts at the first byte again, although a pipe cannot go back; on a closed file only the fields are reset |
| `JsonFile.JsonFileHandle.Close` | src/duckdb/extension/json/json_reader.cpp:27-32 | closing keeps a pipe open and its cache valid |
| `JsonFile.PieceAt` | src/duckdb/extension/json/json_reader.cpp:151-175 | where a cached buffer lies in the concatenation of all cached buffers |
| `TextLines.LinesSplit` | src/duckdb/extension/json/json_reader.cpp:763-815 | lines of a text cut at a newline are the lines of the two parts |
| `TextLines.LinesSkip` | src/duckdb/extension/json/json_reader.cpp:421-427 | leading whitespace, newlines included, never changes the lines of a text |
| `TextLines.ParsedLine` | src/duckdb/extension/json/json_reader.cpp:763-815 | taking one unit up to a newline, or the rest of the last buffer, takes exactly the first line |
| `TextLines.SpaceExactly` | src/duckdb/src/include/duckdb/common/string_util.hpp:62-64 | a lone character is no line if it is a space or one of the characters 9 to 13, and otherwise a line of its own |
| `TextLines.SpacesAround` | src/duckdb/extension/json/json_reader.cpp:379-387 | such characters at either end of a text, newlines included, never change its lines |
| `TextLines.LineWritten` | src/duckdb/extension/json/json_reader.cpp:763-815 | a line is what stands between such characters, up to a newline, and the lines behind it follow |
| `TextLines.BlankLineWritten` | src/duckdb/extension/json/json_reader.cpp:421-427 | a line of such characters alone is no line |
| `ScanState.ScanState.SkipWhitespace` | src/duckdb/extension/json/json_reader.cpp:421-427 | moves to the first character that is no whitespace |
| `ScanState.ScanState.NextNewline` | src/duckdb/extension/json/json_reader.cpp:429-431 | the distance of the first newline, and whether there is one |
| `ScanState.ScanState.TrimWhitespace` | src/duckdb/extension/json/json_reader.cpp:379-387 | the unit without whitespace at either end |
| `ScanState.ScanState.ParseNextChunk` | src/duckdb/extension/json/json_reader.cpp:763-815 | the units of a batch and the text left are together the lines of the buffer; what remains at the end of the buffer is its cut-off last line; over all its batches a buffer fails exactly if that line exceeds the maximum object size |
| `ScanState.ScanState.ParseLine` | src/duckdb/extension/json/json_reader.cpp:769-814 | one round of the loop: one unit, or the cut-off line is remembered, or the batch is done |
| `ScanState.LineConsumed` | src/duckdb/extension/json/json_reader.cpp:796-813 | taking a unit keeps the lines and the cut-off tail of the text |
| `SequentialReader.SequentialReader.ReadNextBuffer` | src/duckdb/extension/json/json_reader.cpp:1063-1100 | the remembered remainder and freshly read bytes form the next buffer; nothing of the file is lost or doubled between buffers |
| `SequentialReader.SequentialReader.Refill` | src/duckdb/extension/json/json_reader.cpp:964-977 | the remainder is moved to the front and the new bytes stand behind it |
| `SequentialReader.SequentialReader.AutoDetect` | src/duckdb/extension/json/json_reader.cpp:679-715 | the bytes read for detection are kept for the first buffer, or a pipe is reset |
| `SequentialReader.SequentialReader.Scan` | src/duckdb/extension/json/json_reader.cpp:853-872 | one call yields the next non-blank lines of the file, or none at its end |
| `SequentialReader.SequentialReader.ScanAll` | src/duckdb/extension/json/json_reader.cpp:853-872 | the whole scan yields exactly the non-blank lines of the file, each once and in order, for any buffer sizes, short reads and batch sizes, or fails, exactly if some filling of the buffer behind the line cut off before it cuts off a line longer than the maximum object size |
| `SequentialReader.SequentialReader.constructor` | src/duckdb/extension/json/json_scan.cpp:56-63 | for a fresh reader that is decided by the text, the capacity and the maximum alone |
| `SequentialReader.ReadKeepsFate` | src/duckdb/extension/json/json_reader.cpp:1063-1100 | reading the next bytes changes nothing about whether the scan will fail |
| `SequentialReader.ParseKeepsFate` | src/duckdb/extension/json/json_reader.cpp:779-793 | nor does handing on lines, wherever a batch ends in the buffer |
| `SequentialReader.ConsumedLines` | src/duckdb/extension/json/json_reader.cpp:763-815 | what a buffer yields and what it leaves over, before the rest of the file, are the lines of both |
| `ParallelScan.PreviousNewline` | src/duckdb/extension/json/json_reader.cpp:433-441 | the last newline of the previous data, or the place before its first byte |
| `ParallelScan.CopyRemainderFromPreviousBuffer` | src/duckdb/extension/json/json_reader.cpp:724-761 | the cut-off tail of the previous buffer, looked for in its own data only, is placed directly before the data of the next one |
| `ParallelScan.ScanBuffer` | src/duckdb/extension/json/json_reader.cpp:763-815 | scanning one buffer to its end yields the complete lines of the copied tail and its own data, or fails, exactly if the line that it does not complete exceeds the maximum object size |
| `ParallelScan.FitsExactly` | src/duckdb/extension/json/json_reader.cpp:779-785 | for chunks within the maximum object size, a buffer is parsed without an error exactly if its chunk has a newline or its text, with what it takes over and from its first character that is no whitespace, does not exceed the maximum |
| `ParallelScan.LossIsBounded` | src/duckdb/extension/json/json_reader.cpp:738-785 | where there is no error, what a chunk swallows and the chunk itself are together within the maximum: a chunk of the maximum less the padding loses no more characters than the padding has |
| `ParallelScan.ParallelKeeps` | src/duckdb/extension/json/json_reader.cpp:724-815 | if no chunk swallows text, chunk by chunk carrying gives the lines of the concatenated chunks |
| `ParallelScan.ParallelInk` | src/duckdb/extension/json/json_reader.cpp:724-815 | conservation for every cut: the characters other than whitespace in the lines plus the swallowed ones are those of the file |
| `ParallelScan.ParallelExact` | src/duckdb/extension/json/json_reader.cpp:724-815 | the parallel lines equal the lines of the file if and only if every chunk without a newline follows one that leaves no text over and is not a lone byte other than whitespace |
| `ParallelScan.NewlinesKeepAll` | src/duckdb/extension/json/json_reader.cpp:724-761 | a newline in every chunk is enough for that, and then the two modes agree |
| `ParallelScan.LongLineIsCut` | src/duckdb/extension/json/json_reader.cpp:738-741 | a concrete file with a line over three chunks whose first part is lost |
| `ParallelScan.KeepsAllIffNothingSwallowed` | src/duckdb/extension/json/json_reader.cpp:738-741 | the condition holds exactly if the number of swallowed characters is zero |
| `BufferProtocol.AdvanceKeepsInv` | src/duckdb/extension/json/json_reader.cpp:928-962 | every step of a scanner - read, wait, copy, drop, parse, release - keeps the invariant on reader counts, map entries and carried text |
| `BufferProtocol.AssignKeepsInv` | src/duckdb/extension/json/json_reader.cpp:73-89 | handing out the next position and size keeps the invariant |
| `BufferProtocol.AdvanceKeepsCounts` | src/duckdb/extension/json/json_reader.cpp:744-754 | the count of every buffer stays the number of scanners that still need it, whichever thread moves |
| `BufferProtocol.InvIsSafe` | src/duckdb/extension/json/json_reader.cpp:254-274 | a buffer that a step looks up, decrements or removes is in the map |
| `BufferProtocol.RunKeepsInv` | src/duckdb/extension/json/json_reader.cpp:928-962 | the invariant holds in every state of every run of any number of threads |
| `BufferProtocol.RunIsSafe` | src/duckdb/extension/json/json_reader.cpp:254-274 | in every run a buffer is removed at most once, only after its own scanner and its successor have finished with it (the last one: its own scanner only), and is in the map whenever a step uses it |
| `BufferProtocol.NoDeadlock` | src/duckdb/extension/json/json_reader.cpp:728-735 | while the scan is not done some thread can take a step that decreases the measure: waiting for the previous buffer cannot deadlock |
| `BufferProtocol.StepDecreases` | src/duckdb/extension/json/json_reader.cpp:399-410 | every step but a turn of the wait for a buffer not yet in the map decreases a measure, so fair runs end |
| `BufferProtocol.RunYieldsLines` | src/duckdb/src/include/duckdb/common/multi_file/multi_file_function.hpp:397-426 | a finished run has removed each buffer exactly once, its chunks tile the file, and in buffer order it yields the lines of the file if and only if no chunk swallows text |
| `BufferProtocol.ThrowsExactly` | src/duckdb/extension/json/json_reader.cpp:738-785 | in every state, whether a step raises an object-size error is decided by the chunk of its buffer and the one before |
| `BufferProtocol.RunThrowsExactly` | src/duckdb/extension/json/json_reader.cpp:717-785 | whatever the interleaving, some step of a run raises an object-size error if and only if some chunk with what it takes over does not fit |
| `BufferProtocol.SilentLossExactly` | src/duckdb/extension/json/json_reader.cpp:717-785 | a run loses text without an error if and only if every chunk fits and some chunk swallows text |
| `NextJson.NextJSONDefault` | src/duckdb/extension/json/json_reader.cpp:443-477 | the bracket-counting loop stops where the recursive reading of brackets, strings and escapes says |
| `NextJson.NextJSON` | src/duckdb/extension/json/json_reader.cpp:479-505 | the place behind the value, or none if that is the end of the buffer |
| `NextJson.ValuePasses` | src/duckdb/extension/json/json_reader.cpp:445-474 | inside brackets the scanner passes over every value of the grammar of RFC 8259, whatever its strings contain |
| `NextJson.StringsWritten` | src/duckdb/extension/json/json_reader.cpp:455-466 | the characters of strings |
| `NextJson.ArraysWritten` | src/duckdb/extension/json/json_reader.cpp:443-477 | the characters of arrays |
| `NextJson.ObjectsWritten` | src/duckdb/extension/json/json_reader.cpp:443-477 | the characters of objects |
| `NextJson.ValueEnds` | src/duckdb/extension/json/json_reader.cpp:443-477 | for every object, array or string and every text behind it, what the scanner leaves over is exactly that text |
| `NextJson.NextValue` | src/duckdb/extension/json/json_reader.cpp:479-505 | the scanner stops exactly behind the value if at least one byte follows, and otherwise reports no end |
| `NextJson.CutOffValue` | src/duckdb/extension/json/json_reader.cpp:455-466 | a value that is cut off anywhere, in a string or behind a backslash too, has no end: it is left for the next buffer |
| `NextJson.StringEnds` | src/duckdb/extension/json/json_reader.cpp:455-466 | a string ends at its first quote that is not escaped |
| `NextJson.ParseArray` | src/duckdb/extension/json/json_reader.cpp:796-813 | the loop over the elements in a buffer, the last one or another, equals a recursive splitting, with the error for an unexpected character and the one for a cut-off element that is too long |
| `NextJson.ArrayIsSplit` | src/duckdb/extension/json/json_reader.cpp:796-813 | splitting a buffer that holds the rest of an array at the ends found gives exactly the texts of its elements, scalars included, in order |
| `NextJson.ScanArray` | src/duckdb/extension/json/json_reader.cpp:853-872 | the loop over the buffers, with what was left over in front of the new bytes |
| `NextJson.ElementCut` | src/duckdb/extension/json/json_reader.cpp:779-795 | a buffer that ends in an element has no end for it, unless whitespace behind an object, array or string has been read |
| `NextJson.BufferCut` | src/duckdb/extension/json/json_reader.cpp:763-815 | wherever a buffer ends in an array, its elements up to there are parsed and the rest is left for the next buffer, or it fails with the error that the place of the cut decides |
| `NextJson.ArrayScanned` | src/duckdb/extension/json/json_reader.cpp:763-872 | over any sequence of buffers the first cut with a fault decides the outcome, and without one all elements are parsed in order |
| `NextJson.ArrayOverBuffers` | src/duckdb/extension/json/json_reader.cpp:763-872 | a well-formed array read in any chunks gives exactly its elements if and only if no cut has a fault |
| `NextJson.UnexpectedExactly` | src/duckdb/extension/json/json_reader.cpp:798-812 | a cut makes the end of its buffer an unexpected character if and only if it lies behind at least one whitespace behind an object, array or string and before the comma or bracket that follows |
| `NextJson.TooLongExactly` | src/duckdb/extension/json/json_reader.cpp:779-785 | a cut makes the object too long if and only if more than the maximum lies between the start of an element that is cut off and the cut |
| `NextJson.SpaceAtTheEnd` | src/duckdb/extension/json/json_reader.cpp:798-812 | a concrete array that fails when a buffer ends behind a space and does not when it ends in front of it |
| `ErrorReport.JsonReader.AddError` | src/duckdb/extension/json/json_reader.cpp:319-333 | the earlier error is kept; of two in the same line the later one replaces the first |
| `ErrorReport.JsonReader.TryGetLineNumber` | src/duckdb/extension/json/json_reader.cpp:335-345 | the sum of all earlier counts and the line, or nothing as long as an earlier buffer is not counted |
| `ErrorReport.JsonReader.ThrowErrorsIfPossible` | src/duckdb/extension/json/json_reader.cpp:347-360 | throws exactly if an error is kept and all buffers before it are counted |
| `ErrorReport.JsonReader.SetBufferLineOrObjectCount` | src/duckdb/extension/json/json_reader.cpp:281-289 | records the count of a buffer and reports an error if that has become possible |
| `ErrorReport.JsonReader.AddParseError` | src/duckdb/extension/json/json_reader.cpp:291-302 | records a parse error, counted from one, and, if nothing is thrown, starts the buffer of the scan over |
| `ErrorReport.JsonReader.AddTransformError` | src/duckdb/extension/json/json_reader.cpp:304-317 | records a transform error, counted from zero, and, if nothing is thrown, skips the rest of the buffer of the scan |
| `ErrorReport.JsonReader.GetBufferIndex` | src/duckdb/extension/json/json_reader.cpp:276-279 | a new buffer starts uncounted |
| `ErrorReport.RunKeeps` | src/duckdb/extension/json/json_reader.cpp:319-333 | in every history the kept error is a recorded one and none recorded is earlier |
| `ErrorReport.KeptIsLastOfFirst` | src/duckdb/extension/json/json_reader.cpp:319-333 | in every history the kept error is the last one recorded of those that stand first in the file |
| `ErrorReport.CountedIsFinished` | src/duckdb/extension/json/json_reader.cpp:276-289 | in every history a buffer counts exactly if it was finished, even with no lines, and then with the lines that it was finished with |
| `ErrorReport.SumAppend` | src/duckdb/extension/json/json_reader.cpp:335-345 | the sum of the counts of two stretches of buffers |
| `ErrorReport.ThrownIsEarliest` | src/duckdb/extension/json/json_reader.cpp:281-360 | in every order of events the thrown error belongs to the earliest erroring buffer of the whole history, future included, is the earliest of those recorded, and its line adds exactly all earlier counts |
| `ErrorReport.ErrorIsThrown` | src/duckdb/extension/json/json_reader.cpp:347-360 | when all buffers are counted an error can be thrown exactly if one was recorded: none is lost |
| `ErrorReport.ReportedLine` | src/duckdb/extension/json/json_reader.cpp:291-358 | the first error recorded is reported as soon as all earlier buffers are counted; with lines counted from zero over the file, a transform error names its line counted from one and a parse error one more |
| `LambdaBatch.ListFilterInfo.AppendResult` | src/duckdb/extension/core_functions/lambda_functions.cpp:104-160 | one batch, wherever it cuts rows: the cursor advances over exactly its elements, the rows it passes get their final entries, and the kept values are appended in order |
| `LambdaBatch.ListFilterInfo.SetEmptyEntries` | src/duckdb/extension/core_functions/lambda_functions.cpp:119-124 | lists without elements get an empty entry at the current offset as soon as the cursor reaches them |
| `LambdaBatch.ListFilterInfo.TakeElement` | src/duckdb/extension/core_functions/lambda_functions.cpp:126-145 | one element is counted; behind the last element of its list the row gets its entry and the cursor moves on |
| `LambdaBatch.AtElement` | src/duckdb/extension/core_functions/lambda_functions.cpp:116-124 | after the empty lists the cursor stands at the row and index of the next element of the batch, never behind the last row |
| `LambdaBatch.LambdaExecuteInfo.Push` | src/duckdb/extension/core_functions/lambda_functions.cpp:339-350 | selections and index of the batch name the element, its row and its place counted from one |
| `LambdaBatch.LambdaExecuteInfo.ExecuteExpression` | src/duckdb/extension/core_functions/lambda_functions.cpp:184-220 | the lambda gets each packed element with its row and its index counted from one |
| `LambdaBatch.ListFilter` | src/duckdb/extension/core_functions/lambda_functions.cpp:275-363 | for every batch size and every mix of NULL, empty and long lists: a row is NULL exactly if its entry is; the entry of any other row selects, from the child vector of the result, the elements of its own stretch of the source for which the lambda holds, in order |
| `LambdaBatch.FilteredRow` | src/duckdb/extension/core_functions/lambda_functions.cpp:104-160 | the entry of a row selects from the child vector exactly the kept elements of that row, in order |
| `LambdaBatch.RowIsFiltered` | src/duckdb/extension/core_functions/lambda_functions.cpp:104-160 | the same said of the columns themselves: the places of the elements that are kept increase and are those at which the lambda, called with the row and the index counted from one, is true |
| `LambdaBatch.KeptIsFilter` | src/duckdb/extension/core_functions/lambda_functions.cpp:126-130 | the places of the kept elements among the first of a list |
| `LambdaBatch.FilteredTiles` | src/duckdb/extension/core_functions/lambda_functions.cpp:104-160 | the entries tile the child vector with no gap, no overlap and nothing left over |
| `LambdaBatch.KeptAppend` | src/duckdb/extension/core_functions/lambda_functions.cpp:116-146 | filtering a concatenation is concatenating what is kept, so batches may be cut anywhere |
| `LambdaBatch.PackList` | src/duckdb/extension/core_functions/lambda_functions.cpp:323-352 | one list is packed, with the lambda run whenever the batch is full |
| `LambdaBatch.ListTransform` | src/duckdb/extension/core_functions/lambda_functions.cpp:275-363 | for every batch size: a row is NULL exactly if its entry is; the entry of any other row has the length of its list and selects the images of its own stretch of the source, each called with its index counted from one |
| `LambdaBatch.TransformedRow` | src/duckdb/extension/core_functions/lambda_functions.cpp:75-80 | the entry of a row selects the images of its elements, called with the indexes 1 to n |
| `LambdaBatch.RowIsTransformed` | src/duckdb/extension/core_functions/lambda_functions.cpp:75-85 | the same said of the columns themselves |
| `LambdaBatch.TransformBatch` | src/duckdb/extension/core_functions/lambda_functions.cpp:82-85 | a batch is appended as it is |
| `LambdaBatch.FilterBatch` | src/duckdb/extension/core_functions/lambda_functions.cpp:326-336 | one round through the lambda and the filter leaves an empty batch and everything packed so far filtered |
| `LambdaBatch.SetResultEntry` | src/duckdb/extension/core_functions/lambda_functions.cpp:98-102 | the length of a list is remembered; its elements follow those packed so far |
| `LambdaBatch.PushEmptyList` | src/duckdb/extension/core_functions/lambda_functions.cpp:94-97 | a NULL row is remembered as a list without elements |
| `LambdaBatch.PushElement` | src/duckdb/extension/core_functions/lambda_functions.cpp:338-350 | one more element is packed behind the others |
| `LambdaBatch.TransformList` | src/duckdb/extension/core_functions/lambda_functions.cpp:323-352 | one list is packed, with the lambda run whenever the batch is full |
| `LambdaBatch.MappedPiece` | src/duckdb/extension/core_functions/lambda_functions.cpp:82-85 | the images of a concatenation keep the places of its parts |
| `Wkb.BinaryReader.Reserve` | src/duckdb/extension/parquet/geo_parquet.cpp:44-58 | takes the next bytes or fails without moving |
| `Wkb.BinaryReader.Read32` | src/duckdb/extension/parquet/geo_parquet.cpp:33-42 | the next four bytes as a little-endian number |
| `Wkb.GeometryStats.UpdateBoundsFromVertexArray` | src/duckdb/extension/parquet/geo_parquet.cpp:67-113 | the box after the vertices of an array, by dimension flag; arrays with another flag are ignored |
| `Wkb.GeometryStats.UpdatePoint` | src/duckdb/extension/parquet/geo_parquet.cpp:136-160 | skipping an all-NaN point changes nothing: a point extends the box as any vertex does |
| `Wkb.GeometryStats.UpdateRings` | src/duckdb/extension/parquet/geo_parquet.cpp:166-173 | the rings of a polygon, up to the first that is cut off |
| `Wkb.GeometryStats.UpdateBody` | src/duckdb/extension/parquet/geo_parquet.cpp:135-180 | one geometry body, by kind |
| `Wkb.GeometryStats.Update` | src/duckdb/extension/parquet/geo_parquet.cpp:115-182 | on arbitrary bytes the loop ends, and its box, its verdict and its types are those of the flat meaning; only the first header adds a type |
| `Wkb.GeometryScanned` | src/duckdb/extension/parquet/geo_parquet.cpp:115-182 | scanning the encoding of any geometry tree that is little-endian throughout, nested collections included, and whatever follows, extends the box by its vertices and goes on behind it |
| `Wkb.FlatScanIsRecursive` | src/duckdb/extension/parquet/geo_parquet.cpp:115-182 | the flat loop over a little-endian encoding gives the union of the box and the recursive box of the tree, and consumes the whole encoding |
| `Wkb.BoxOfVertices` | src/duckdb/extension/parquet/include/geo_parquet.hpp:141-150 | the union of the boxes of the parts is the box of all vertices |
| `Wkb.BoxIsTight` | src/duckdb/extension/parquet/include/geo_parquet.hpp:159-174 | a box holds every coordinate that is a number, and each of its bounds is one of them, in each dimension |
| `Wkb.ArrayBox` | src/duckdb/extension/parquet/geo_parquet.cpp:67-113 | walking over the bytes of an array is folding over its vertices |
| `Wkb.DecodeWritten` | src/duckdb/extension/parquet/geo_parquet.cpp:67-113 | which bytes of a vertex are x, y, z and m, for each dimension flag |
| `Wkb.PointWritten` | src/duckdb/extension/parquet/geo_parquet.cpp:136-160 | the bytes of a little-endian point of each dimension flag: each coordinate extends the range of its own dimension and no other |
| `Wkb.ByDimension` | src/duckdb/extension/parquet/geo_parquet.cpp:67-113 | extending a box by vertices is extending each of its ranges by the coordinates of that dimension |
| `Wkb.LineXYWritten` | src/duckdb/extension/parquet/geo_parquet.cpp:161-165 | the bytes of a little-endian line of any length: each range is extended by its own coordinates and the others stay as they are |
| `Wkb.LineXYZWritten` | src/duckdb/extension/parquet/geo_parquet.cpp:67-113 | the same with a third coordinate, which extends z |
| `Wkb.LineXYMWritten` | src/duckdb/extension/parquet/geo_parquet.cpp:67-113 | the same with a measure, which extends m |
| `Wkb.LineXYZMWritten` | src/duckdb/extension/parquet/geo_parquet.cpp:67-113 | the same with both |
| `Wkb.PolygonWritten` | src/duckdb/extension/parquet/geo_parquet.cpp:166-173 | the bytes of a little-endian polygon of one ring |
| `Wkb.CollectionWritten` | src/duckdb/extension/parquet/geo_parquet.cpp:174-178 | the bytes of a little-endian collection of each kind: the scan goes on with its parts |
| `Wkb.UpdateEncoded` | src/duckdb/extension/parquet/geo_parquet.cpp:115-182 | for a geometry that is little-endian throughout the update succeeds, adds the recursive box and adds exactly the top-level type |
| `Wkb.AddedType` | src/duckdb/extension/parquet/include/geo_parquet.hpp:26-33 | adding a type adds it if its kind is 1 to 7 and its dimensions are at most 3, and changes nothing else |
| `Wkb.GeometryKindSet.Add` | src/duckdb/extension/parquet/include/geo_parquet.hpp:26-33 | sets the bit of a known type |
| `Wkb.GeometryKindSet.ToList` | src/duckdb/extension/parquet/include/geo_parquet.hpp:50-61 | the list holds exactly the types that were added, in increasing order |
| `Wkb.SwappedType` | src/duckdb/extension/parquet/geo_parquet.cpp:120-128 | for every kind 1 to 7 and every dimension flag, the type word in the other byte order is of an unknown kind |
| `Wkb.TypeAddedExactly` | src/duckdb/extension/parquet/geo_parquet.cpp:120-133 | the type of a geometry is added from its header exactly if the header is little-endian |
| `Wkb.BigEndianHeaderIsSkipped` | src/duckdb/extension/parquet/geo_parquet.cpp:120-180 | the header of a big-endian geometry of any kind takes no body: its body is read as further headers |
| `Wkb.PointExactly` | src/duckdb/extension/parquet/geo_parquet.cpp:115-182 | a whole point of two dimensions without further coordinates is accepted exactly if it is little-endian; otherwise the update fails and leaves the box as it was |
| `Wkb.SimpleExactly` | src/duckdb/extension/parquet/geo_parquet.cpp:115-182 | for a point, line or polygon of any dimensions whose type is new: the scan reads all of it, adds its box and adds exactly its type if and only if it is little-endian |
| `Wkb.HiddenPointIsAccepted` | src/duckdb/extension/parquet/geo_parquet.cpp:115-182 | a big-endian point with a third coordinate that is accepted with neither type nor vertex accounted for |
| `Wkb.MixedIsAccepted` | src/duckdb/extension/parquet/geo_parquet.cpp:115-182 | a collection that is not little-endian throughout can be accepted with the right box, so for collections there is one direction only |
| `Wkb.NumberRoundTrip` | src/duckdb/extension/parquet/geo_parquet.cpp:33-42 | a 32-bit number is read back from its four bytes |
| `Wkb.GeometryStats.ReadHeader` | src/duckdb/extension/parquet/geo_parquet.cpp:120-121 | byte order mark and type, or failure if fewer than five bytes are left |
| `Wkb.GeometryStats.UpdateLine` | src/duckdb/extension/parquet/geo_parquet.cpp:161-165 | a count and as many vertices, or failure |
| `Wkb.HeaderRead` | src/duckdb/extension/parquet/geo_parquet.cpp:121-125 | the header of an encoded geometry gives its kind and its dimension flag |
| `Wkb.RingsScanned` | src/duckdb/extension/parquet/geo_parquet.cpp:166-173 | the rings of an encoded polygon are read one by one to their end |
| `Wkb.ExtendAllIsCombine` | src/duckdb/extension/parquet/include/geo_parquet.hpp:141-150 | extending a box by vertices is uniting it with the box of the vertices |
| `Json.QueueIsLevelOrder` | src/duckdb/extension/json/json_common.cpp:309-329 | the growing worklist delivers values level by level |
| `Json.QueueVisitsAll` | src/duckdb/extension/json/json_common.cpp:309-329 | and every descendant exactly as often as it occurs in the tree |
| `Json.LevelOrderVisitsAll` | src/duckdb/extension/json/json_common.cpp:309-329 | the worklist of one value is a permutation of the value and everything below it, the value first |
| `Json.WorklistIsClosed` | src/duckdb/extension/json/json_common.cpp:309-329 | the worklist is what it starts with and then the children of its members, one member after another |
| `JsonPath.ReadString` | src/duckdb/extension/json/json_common.cpp:67-105 | a quoted key without its escapes, or a plain key up to a dot or bracket |
| `JsonPath.ReadInteger` | src/duckdb/extension/json/json_common.cpp:107-132 | at most 19 digits up to a closing bracket, which is not looked for behind the 19th |
| `JsonPath.ReadKey` | src/duckdb/extension/json/json_common.cpp:134-171 | key, wildcard and recursive forms, and the number of characters read; it fails exactly if a quote stands behind two dots at the end |
| `JsonPath.ReadArrayIndex` | src/duckdb/extension/json/json_common.cpp:173-211 | index, index from the back, the empty index from the back and the wildcard; the end may lie one beyond the text |
| `JsonPath.IndexIsNoWildCard` | src/duckdb/extension/json/json_common.cpp:131-181 | no index that is read overflows 64 bits or equals the value that stands for a wildcard |
| `JsonPath.ValidatePath` | src/duckdb/extension/json/json_common.cpp:213-250 | accepts exactly the paths that have steps and calls them REGULAR exactly if none of the steps is a wildcard, for any byte behind the text; leaving the text and failing to allocate a key are outcomes of their own |
| `JsonPath.GetPath` | src/duckdb/extension/json/json_common.cpp:252-295 | on an accepted path without wildcards it stays in the text, never reaches its error branch, and returns the only match of the denotation or nothing |
| `JsonPath.GetWildcardPathInternal` | src/duckdb/extension/json/json_common.cpp:297-384 | for every value and every accepted path the evaluator appends exactly the denotational match list, in order; it stays in the text and never reaches its error branch |
| `JsonPath.DescendFrom` | src/duckdb/extension/json/json_common.cpp:305-331 | the worklist ends and hands every value of the level order on to the rest of the path, the value itself only if the path goes on |
| `JsonPath.GetWildcardPath` | src/duckdb/extension/json/json_common.cpp:386-391 | the match list of the whole path |
| `JsonPath.EvaluateBoth` | src/duckdb/extension/json/include/json_common.hpp:287-294 | on REGULAR paths the wildcard evaluator returns the one-element or empty list of the answer of the other one; it gives what the written paths below give |
| `JsonPath.RootWritten` | src/duckdb/extension/json/json_common.cpp:252-261 | the path $ gives the value itself |
| `JsonPath.IndexFromFront` | src/duckdb/extension/json/json_common.cpp:283-286 | $[k] on an array gives the element k, counted from zero, or nothing |
| `JsonPath.IndexFromBack` | src/duckdb/extension/json/json_common.cpp:283-286 | $[#-k] and $[-k] on an array give the k-th element from the back for every k from 1 to its length, and nothing for greater ones |
| `JsonPath.NoIndex` | src/duckdb/extension/json/json_common.cpp:279-282 | an index gives nothing on a value that is no array |
| `JsonPath.HashWritten` | src/duckdb/extension/json/json_common.cpp:185-190 | $[#] gives nothing on any value with less than 2^32 elements |
| `JsonPath.QuotedNameWritten` | src/duckdb/extension/json/json_common.cpp:263-275 | a name in quotes gives the value of the first field with that name, or nothing |
| `JsonPath.PlainNameWritten` | src/duckdb/extension/json/json_common.cpp:263-275 | so does a plain name |
| `JsonPath.EscapedIs` | src/duckdb/extension/json/json_common.cpp:69-95 | a quote or backslash is written with a backslash in front of it, any other character as it is |
| `JsonPath.DecimalIs` | src/duckdb/extension/json/json_common.cpp:107-132 | an index is written in decimal digits |
| `JsonPath.WildCardsWritten` | src/duckdb/extension/json/json_common.cpp:336-377 | $[*] gives all elements of an array and $.* all values of an object, in order |
| `JsonPath.RecursiveWritten` | src/duckdb/extension/json/json_common.cpp:305-331 | $..* gives a list that, with the root in front, is the root and then the children of its members, one member after another |
| `JsonPath.RecursiveNameWritten` | src/duckdb/extension/json/json_common.cpp:302-331 | $..name looks for the name in the root and in every member of that list, in order |
| `JsonPath.DenoteThen` | src/duckdb/extension/json/json_common.cpp:297-384 | a path that is continued is evaluated on each match of its first part, in order |
| `JsonPath.RefusedWritten` | src/duckdb/extension/json/json_common.cpp:213-250 | what validation refuses: any other character where a step begins, a step without anything behind its first character, and brackets around anything but an index or a star |
| `JsonPath.OpenQuoteRefused` | src/duckdb/extension/json/json_common.cpp:91-95 | a quoted name that is not closed is refused |
| `JsonPath.TrailingDescend` | src/duckdb/extension/json/json_common.cpp:326-328 | a trailing recursive wildcard gives each proper descendant exactly once |
| `JsonPath.RegularIsUnique` | src/duckdb/extension/json/json_common.cpp:252-295 | a path without wildcards has at most one match |
| `JsonPath.RecursiveKey` | src/duckdb/extension/json/json_common.cpp:305-308 | a recursive key is scanned a second time behind its first dot, as a plain key with the same name |
| `JsonPath.ElementIsPick` | src/duckdb/extension/json/json_common.cpp:283-286 | counting from the back in 64-bit arithmetic finds the element or, beyond the front, nothing |
| `JsonPath.PathRoundTrip` | src/duckdb/extension/json/json_common.cpp:213-250 | a path written for steps with names other than the empty one and the star, and indexes of at most 18 digits, is read as these steps, whatever byte stands behind it, except for a star behind a final wildcard |
| `JsonPath.OverrunExactly` | src/duckdb/extension/json/json_common.cpp:113-171 | validation reads beyond the text if and only if the text ends in an unclosed index of 19 digits, or a star stands behind it and the path with that star appended is accepted and ends in a recursive wildcard, for which the text must end in .* or in two dots |
| `JsonPath.FailureExactly` | src/duckdb/extension/json/json_common.cpp:69-70 | validation asks for an array of minus one characters, which cannot be allocated, if and only if the text ends in two dots, a quote stands behind it and a star there would complete it |
| `JsonPath.TerminatedOverrun` | src/duckdb/extension/json/json_common.cpp:113-132 | with a zero behind the text: if and only if the text ends in an unclosed index of 19 digits and the path with the index [0] in its place is accepted |
| `JsonPath.NextByteMatters` | src/duckdb/extension/json/json_common.cpp:134-171 | the byte behind the text changes what is read only if a star there would complete the path to a recursive wildcard, and then in one of three ways: a star leads out of the text, and behind two dots a quote fails and a bracket makes the path valid |
| `JsonPath.StarBehindTheText` | src/duckdb/extension/json/include/json_common.hpp:288-294 | concrete paths of which one is left when a star stands behind it and the other fails when a quote does |
| `JsonPath.NineteenDigitsOverrun` | src/duckdb/extension/json/json_common.cpp:113-132 | a concrete path for which it does |
| `JsonPath.QuotedKeyRead` | src/duckdb/extension/json/json_common.cpp:69-95 | a quoted key written for any name, at any place of any path, is read back with all its characters |
| `JsonPath.QuotedKeyExactly` | src/duckdb/extension/json/json_common.cpp:53-59 | at any place of any path, a quoted key written for a name is the key of that name if and only if the name is neither empty nor a star, a wildcard if and only if it is a star, and refused with the whole path if and only if it is empty |
| `JsonPath.EvaluateAll` | src/duckdb/extension/json/json_common.cpp:336-343 | a wildcard evaluates the rest of the path on every child in order |
| `JsonPath.BehindDescend` | src/duckdb/extension/json/json_common.cpp:302-308 | what the recursive call scans again is the rest of the path, with the key that made it recursive |
| `JsonPath.IndexOverrun` | src/duckdb/extension/json/json_common.cpp:113-132 | a single index leaves the text exactly if 19 digits stand before its end |
| `JsonPath.UnquoteEscaped` | src/duckdb/extension/json/json_common.cpp:69-95 | an escaped key is read back |
| `ColumnReader.ColumnReader.ReadPageHeaders` | src/duckdb/extension/parquet/column_reader.cpp:524-530 | loads pages, empty and dictionary pages among them, until rows are there, without changing the rows to come |
| `ColumnReader.ColumnReader.PreparePage` | src/duckdb/extension/parquet/column_reader.cpp:235-287 | loading a page moves its rows from the file to the decoders and the transport behind it, but of an index page only the header is passed over |
| `ColumnReader.ColumnReader.PrepareRead` | src/duckdb/extension/parquet/column_reader.cpp:532-556 | takes levels from the decoder; the fast path does not write them and then all rows are valid |
| `ColumnReader.ColumnReader.Plain` | src/duckdb/extension/parquet/include/column_reader.hpp:194-213 | decoded rows and what the decoders still hold are together the rows of the page |
| `ColumnReader.ColumnReader.PlainSkip` | src/duckdb/extension/parquet/include/column_reader.hpp:215-232 | skipping drops exactly the values of the skipped rows |
| `ColumnReader.ColumnReader.PlainSelect` | src/duckdb/extension/parquet/include/column_reader.hpp:234-260 | every selected row is decoded to its own place and the decoders end behind the last row |
| `ColumnReader.ColumnReader.ReadData` | src/duckdb/extension/parquet/column_reader.cpp:558-602 | rows of one page are written at the offset |
| `ColumnReader.ColumnReader.ApplyPendingSkips` | src/duckdb/extension/parquet/column_reader.cpp:717-766 | after the skips the reader is where a plain cursor over the pages it finds would be, whatever pages lie between |
| `ColumnReader.ColumnReader.BeginRead` | src/duckdb/extension/parquet/column_reader.cpp:513-522 | the reader restores its own position, wherever other readers left the transport |
| `ColumnReader.ColumnReader.FinishRead` | src/duckdb/extension/parquet/column_reader.cpp:604-609 | the position is saved and the group rows are counted down |
| `ColumnReader.ColumnReader.ReadInternal` | src/duckdb/extension/parquet/column_reader.cpp:611-627 | a read over any number of pages gives the next rows of the column and counts them down |
| `ColumnReader.ColumnReader.Read` | src/duckdb/extension/parquet/column_reader.cpp:629-632 | a read after any number of skips gives exactly the next rows of the plain cursor |
| `ColumnReader.ColumnReader.DirectSelect` | src/duckdb/extension/parquet/column_reader.cpp:643-663 | both the pushed-down selection and the fallback give the selected rows of the plain cursor |
| `ColumnReader.ColumnReader.Select` | src/duckdb/extension/parquet/column_reader.cpp:634-641 | selected rows are those of the plain cursor, which advances over all rows |
| `ColumnReader.ColumnReader.Skip` | src/duckdb/extension/parquet/column_reader.cpp:713-715 | a skip is only counted |
| `ColumnReader.ColumnReader.GroupRowsAvailable` | src/duckdb/extension/parquet/column_reader.cpp:164-166 | the group rows available are the rows not yet consumed, the skips not yet applied and the rows that the chunk promises but the reader cannot find |
| `ColumnReader.ColumnReader.constructor` | src/duckdb/extension/parquet/column_reader.cpp:187-206 | a fresh reader stands before all rows it can find from the start of the chunk, which is its dictionary page if that offset can be one |
| `ColumnReader.Step` | src/duckdb/extension/parquet/column_reader.cpp:513-715 | one operation on one of many readers of a transport gives what the plain cursor gives and leaves all other readers where they are |
| `ColumnReader.Run` | src/duckdb/extension/parquet/column_reader.cpp:513-766 | every sequence of reads, selections and deferred skips on any number of readers of one transport gives what plain cursors over the concatenated pages give, for the pages that a reader finds from its start |
| `ColumnReader.AllRowsFound` | src/duckdb/extension/parquet/column_reader.cpp:264-285 | for pages one behind the other, with no page to be read out of the body of an index page: a reader finds all rows if and only if no index page with a body stands before rows |
| `ColumnReader.FoundIsUnique` | src/duckdb/extension/parquet/column_reader.cpp:239-257 | which pages a reader finds is decided by where it starts |
| `ColumnReader.BodyIsRead` | src/duckdb/extension/parquet/column_reader.cpp:281-285 | a concrete chunk of one row before which a page is read out of the body of an index page |
| `ColumnReader.FirstRow` | src/duckdb/extension/parquet/include/column_reader.hpp:206-212 | the first row of two decoders and what they hold behind it |
| `ColumnReader.RowsAre` | src/duckdb/extension/parquet/include/column_reader.hpp:194-213 | a row is there exactly if its definition level is the maximum, and its value is the next of the page |
| `ColumnReader.CountIs` | src/duckdb/extension/parquet/include/column_reader.hpp:194-213 | the number of values of a page is that of its rows that are there |
| `ColumnReader.OutputIs` | src/duckdb/extension/parquet/column_reader.cpp:513-715 | each operation gives rows of its own column, from the place that the operations before it have left |
| `ColumnReader.ColumnReader.ReadParts` | src/duckdb/extension/parquet/column_reader.cpp:611-627 | the loop over the pages of a read |
| `ColumnReader.ColumnReader.SkipData` | src/duckdb/extension/parquet/column_reader.cpp:728-763 | rows of one page are skipped |
| `ColumnReader.ColumnReader.SelectFromPage` | src/duckdb/extension/parquet/column_reader.cpp:652-659 | the pushed-down selection of one page |
| `ParquetWrite.ParquetWriteLocalState.Sink` | src/duckdb/extension/parquet/parquet_extension.cpp:488-507 | a chunk is buffered, or the whole buffer becomes a row group exactly if a limit is reached; the rows stay in order |
| `ParquetWrite.ParquetWriteLocalState.Combine` | src/duckdb/extension/parquet/parquet_extension.cpp:509-541 | a buffer of half the limit is flushed by its thread alone, a smaller one is put behind the shared rows |
| `ParquetWrite.ParquetWriteGlobalState.CombineBuffer` | src/duckdb/extension/parquet/parquet_extension.cpp:523-540 | under the lock the shared buffer grows, or is taken over for flushing exactly if there was one and a limit is reached |
| `ParquetWrite.ParquetWriteGlobalState.Finalize` | src/duckdb/extension/parquet/parquet_extension.cpp:543-553 | the shared buffer is written if it holds rows |
| `ParquetWrite.ParquetWriteLocalState.Write` | src/duckdb/extension/parquet/parquet_writer.cpp:545-591 | the prepared row group is appended to the file |
| `ParquetWrite.StepKeepsRows` | src/duckdb/extension/parquet/parquet_extension.cpp:488-553 | no step of any thread loses or doubles a row |
| `ParquetWrite.ExactlyOnce` | src/duckdb/extension/parquet/parquet_extension.cpp:488-553 | over every interleaving, with the byte limit met whenever it likes, a finalized file holds every input row exactly once, in row groups that are not empty and smaller than the limit plus one chunk |
| `ParquetWrite.StepKeepsInv` | src/duckdb/extension/parquet/parquet_extension.cpp:497-536 | buffers stay below the limit, the shared buffer below half of it |
| `ParquetWrite.RunKeepsBig` | src/duckdb/extension/parquet/parquet_extension.cpp:497-536 | with only the row limit active every row group that a thread flushes has at least half the limit |
| `ParquetWrite.OnlyTheTailIsSmall` | src/duckdb/extension/parquet/parquet_extension.cpp:543-549 | so only the row group that Finalize writes, at most one and the last, may be smaller |
| `ParquetWrite.Progress` | src/duckdb/extension/parquet/parquet_extension.cpp:509-541 | no thread ever waits for another: until the file is finalized some step can be taken |
| `ParquetWrite.StepDecreases` | src/duckdb/extension/parquet/parquet_extension.cpp:488-553 | every run is finite |
| `ParquetWrite.StepKeepsBig` | src/duckdb/extension/parquet/parquet_extension.cpp:497-536 | no step prepares or writes a row group below half the row limit, Finalize excepted |
| `ParquetWrite.RunKeepsRows` | src/duckdb/extension/parquet/parquet_extension.cpp:488-553 | no run loses or doubles a row |
| `ParquetWrite.RowsInOrder` | src/duckdb/extension/parquet/parquet_extension.cpp:488-553 | over every interleaving, the rows of each thread stand in a finalized file in the order in which the thread got them |
| `ParquetWrite.CombineInOrder` | src/duckdb/extension/parquet/parquet_extension.cpp:509-541 | handing over the rest of a thread keeps the order of the rows of every thread |
| `ParquetWrite.StepInOrder` | src/duckdb/extension/parquet/parquet_extension.cpp:488-553 | every step keeps, for each thread, its rows in order in the file, in one place outside its buffer, and in its buffer |
| `ParquetSchema.SchemaBuilder.FillParquetSchema` | src/duckdb/extension/parquet/column_writer.cpp:247-395 | appends exactly the preorder list of the type tree and returns a column whose levels and indexes describe that tree |
| `ParquetSchema.SchemaBuilder.FillFields` | src/duckdb/extension/parquet/column_writer.cpp:286-290 | the children of a struct, in order, behind each other in the list |
| `ParquetSchema.FlattenRebuilds` | src/duckdb/extension/parquet/column_writer.cpp:267-394 | the flat list with its child counts, followed by anything, rebuilds the tree |
| `ParquetSchema.LevelsCountThePath` | src/duckdb/extension/parquet/column_writer.cpp:251-394 | every column, however deep, has as definition level the number of OPTIONAL and REPEATED elements on its path, as repetition level that of the REPEATED ones, and points to its own element |
| `ParquetSchema.NullabilityReadAgain` | src/duckdb/extension/parquet/column_writer.cpp:397-441 | the nullability that each writer reads from the flat list is the one its element was built with |
| `ParquetSchema.TreesAreBare` | src/duckdb/extension/parquet/column_writer.cpp:381-394 | leaves have no children, so the rebuilding applies to every schema |
| `ParquetSchema.SchemaWritten` | src/duckdb/extension/parquet/column_writer.cpp:267-394 | the elements of a leaf, a struct, a list and a map, one by one, with names, repetitions and child counts; the key of a map is REQUIRED and its value OPTIONAL |
| `ParquetSchema.FieldsWritten` | src/duckdb/extension/parquet/column_writer.cpp:286-290 | the elements of the fields of a struct, OPTIONAL and in order |
| `ParquetSchema.LevelsWritten` | src/duckdb/extension/parquet/column_writer.cpp:251-392 | the levels of the columns below a struct, a list and a map from those of the column above: one more for an OPTIONAL element and for a REPEATED group |
| `ParquetSchema.ColumnWriterState.HandleDefineLevels` | src/duckdb/extension/parquet/column_writer.cpp:198-226 | each new entry inherits a null from above, or else takes the value level if its row is valid and the null level if it is not, empty entries using up no row; the call fails exactly if such a row is NULL where none may be |
| `ParquetSchema.RowsAre` | src/duckdb/extension/parquet/column_writer.cpp:215-218 | the row of an entry is the number of entries in front of it that are not empty |
| `ParquetSchema.InheritedAre` | src/duckdb/extension/parquet/column_writer.cpp:202-205 | the count of inherited nulls is the number of entries whose parent is null |
| `ParquetSchema.NullRowsAre` | src/duckdb/extension/parquet/column_writer.cpp:209-213 | the count of nulls is the number of entries with a valid parent and a row that is not |
| `ParquetSchema.NullsAre` | src/duckdb/extension/parquet/column_writer.cpp:232-236 | without a parent it is the number of rows that are not valid |
| `ParquetSchema.LikeRoot` | src/duckdb/extension/parquet/column_writer.cpp:198-240 | with valid parents and no empty entries rows and counts are those of a column without a parent |
| `ParquetSchema.ColumnWriterState.HandleRootDefineLevels` | src/duckdb/extension/parquet/column_writer.cpp:228-240 | without a parent every row gets the level of its own validity, nulls are counted exactly, and the call fails exactly if there are nulls where none may be |
| `StructEncoder.EncodeColumn` | src/data_chunk.cpp:20-189 | the explicit-stack loop ends and gives the recursive encoding for every nesting of structs, or fails exactly when that does |
| `StructEncoder.Mirrored` | src/data_chunk.cpp:172-184 | the children of a struct are the encodings of its entries in reverse order, all of them present |
| `StructEncoder.EncodedIs` | src/data_chunk.cpp:43-184 | the properties of every descriptor: its name, the two types and the contents as the flags ask for them, and either values or children, in reverse order |
| `StructEncoder.EncodeFails` | src/data_chunk.cpp:186-187 | encoding fails exactly if an unsupported type occurs somewhere |
| `StructEncoder.FinishKids` | src/data_chunk.cpp:176-183 | finishing the pushed children of a struct fills its slots with their encodings |
| `StructEncoder.VisitStruct` | src/data_chunk.cpp:43-184 | visiting a struct and pushing its children does not change what comes out |
| `StructEncoder.DeliverKeepsWellFormed` | src/data_chunk.cpp:34-41 | when a descriptor is delivered its slot is still empty and its stored parent is the true parent, and both stay true of all nodes left: each slot is filled exactly once |
| `StructEncoder.OpenKeepsWellFormed` | src/data_chunk.cpp:172-184 | pushed children point to the struct that holds them, each to a slot of its own |
| `StructEncoder.DeliverWork` | src/data_chunk.cpp:34-41 | delivering a descriptor decreases the measure of the loop |
| `StructEncoder.VisitLeaf` | src/data_chunk.cpp:60-171 | a round that fills a leaf keeps what comes out and decreases the measure |
| `StructEncoder.OpenWork` | src/data_chunk.cpp:172-184 | so does a round that pushes the children of a struct |
| `StructEncoder.PushChildren` | src/data_chunk.cpp:176-183 | children are pushed from the last entry to the first |
| `TaskQueue.Database.Schedule` | src/database.cpp:127-133 | queues a task and hands the first one to the pool if it has none |
| `TaskQueue.Database.Process` | src/database.cpp:165-186 | starts at most one task |
| `TaskQueue.Database.TaskComplete` | src/database.cpp:147-163 | ends the task in flight and starts the next one |
| `TaskQueue.Database.TaskCompleteCallback` | src/database.cpp:140-145 | the callback runs after the next task has been started and may schedule any number of tasks |
| `TaskQueue.Database.TaskExecuteCallback` | src/database.cpp:135-138 | the work of the task in flight |
| `TaskQueue.RunInOrder` | src/database.cpp:127-186 | in every run, with callbacks that schedule more, work and callbacks happen in scheduling order and at most once each, work before callback, and a queue that is not empty has a task in flight |
| `TaskQueue.HistoryIs` | src/database.cpp:127-186 | the scheduled tasks are those of the calls, in order, and as many have worked and called back as there were such steps |
| `TaskQueue.WaitIsLast` | src/database.cpp:206-218 | when a task such as wait has called back, all earlier ones have worked and called back |
| `TaskQueue.ConnectionClosesFirst` | lib/duckdb.js:433-439 | closing the database closes its default connection first, whatever is scheduled before and after |
| `TaskQueue.Progress` | src/database.cpp:127-186 | as long as a scheduled task has not called back some step can be taken |
| `TaskQueue.StepDecreases` | src/database.cpp:127-186 | without new tasks every run ends |
| `TaskQueue.WorkOvertakesCallback` | src/database.cpp:140-145 | the work of a task can be done before the callback of the one before it |
| `TaskQueue.StepKeepsInv` | src/database.cpp:127-186 | every step keeps the order of the tasks called back, to be called back, with the pool and in the queue |
| `BloomFilter.ParquetBloomFilter.FilterInsert` | src/duckdb/extension/parquet/parquet_statistics.cpp:605-610 | every hash inserted so far, the new one too, is found afterwards; a filter made by insertions alone holds exactly the bits of its hashes |
| `BloomFilter.BlockIndex` | src/duckdb/extension/parquet/parquet_statistics.cpp:605-616 | for every 64-bit hash the product fits into 64 bits and the index is below the number of blocks |
| `BloomFilter.InsertKeeps` | src/duckdb/extension/parquet/include/parquet_statistics.hpp:92-108 | inserting into a block makes its check succeed and keeps all earlier ones |
| `BloomFilter.ExclusionIsSound` | src/duckdb/extension/parquet/parquet_statistics.cpp:501-529 | for every tree of filters, empty ones included: if it is excluded, no value whose hash was inserted satisfies it, provided that the constants it equals have no hash or one that selects the same block and bits |
| `BloomFilter.FoundExactly` | src/duckdb/extension/parquet/include/parquet_statistics.hpp:92-108 | a filter made by insertions finds a hash if and only if each of its eight bits is set by some inserted hash of the same block |
| `BloomFilter.OnlyValueExcluded` | src/duckdb/extension/parquet/parquet_statistics.cpp:503-509 | an equality satisfied by the only value of such a filter is excluded if and only if its constant has a hash that selects another block or another bit |
| `BloomFilter.HashesOfZeros` | src/duckdb/third_party/zstd/common/xxhash.cpp:412-494 | the hashes of the bits of 0.0 and -0.0 |
| `BloomFilter.ZeroIsExcluded` | src/duckdb/extension/parquet/parquet_statistics.cpp:461-491 | a filter of any size for a column that holds 0.0 alone excludes the equality with -0.0 |
| `BloomFilter.ExclusionNeedsConstants` | src/duckdb/extension/parquet/parquet_statistics.cpp:434-459 | a filter without equalities is excluded only through an empty disjunction |
| `BloomFilter.ConstantsExactly` | src/duckdb/extension/parquet/parquet_statistics.cpp:434-459 | a filter has constants to look for exactly if some leaf of it is an equality |
| `BloomFilter.ExclusionExactly` | src/duckdb/extension/parquet/parquet_statistics.cpp:501-529 | a filter is excluded exactly if it cannot hold while the equalities that are not found do not, whatever its other leaves are: nothing more could be excluded |
| `BloomFilter.JunctionsExcluded` | src/duckdb/extension/parquet/parquet_statistics.cpp:510-525 | a conjunction is excluded with any of its members, a disjunction only with all of them |
| `BloomFilter.BlockIndexIs` | src/duckdb/extension/parquet/parquet_statistics.cpp:605-616 | the block is that fraction of all blocks which the upper half of the hash is of 2^32 |
| `BloomFilter.MaskIs` | src/duckdb/extension/parquet/include/parquet_statistics.hpp:81-90 | each bit is given by the upper five bits of the lower half of the product with its salt |
| `TimeBucket.WidthConvertibleToMicros` | src/duckdb/extension/icu/icu-timebucket.cpp:64-78 | truncating division with its correction gives the greatest boundary not after the timestamp; no result exactly if a 64-bit difference overflows |
| `TimeBucket.GreatestBoundary` | src/duckdb/extension/icu/icu-timebucket.cpp:69-77 | a bucket is a boundary, at most the timestamp and less than one width away, and no boundary lies between |
| `TimeBucket.BucketsAreStable` | src/duckdb/extension/icu/icu-timebucket.cpp:64-78 | bucketing is idempotent and monotone |
| `TimeBucket.TruncationCorrected` | src/duckdb/extension/icu/icu-timebucket.cpp:71-75 | quotient toward zero minus the correction for negative differences is a floor |
| `TimeBucket.WidthConvertibleToDays` | src/duckdb/extension/icu/icu-timebucket.cpp:80-100 | the day form, from days truncated toward zero in the calendar, is the greatest boundary not after the timestamp exactly if timestamp and origin do not straddle; no result exactly if the days do not fit into 32 bits |
| `TimeBucket.DayBucketExactly` | src/duckdb/extension/icu/icu-timebucket.cpp:87-97 | as a property of the computed value: it is the greatest boundary not after the timestamp if and only if the timestamp and the origin do not straddle: before 1970 and the origin, whole widths apart but for the microseconds behind their milliseconds; else it is exactly one width later |
| `TimeBucket.WholeMillisecondOrigin` | src/duckdb/extension/icu/icu-timebucket.cpp:87-97 | with an origin at a whole millisecond it is right for every timestamp |
| `TimeBucket.StraddlingExample` | src/duckdb/extension/icu/icu-timebucket.cpp:87-97 | a concrete timestamp whose bucket lies after it |
| `TimeBucket.WidthConvertibleToMonths` | src/duckdb/extension/icu/icu-timebucket.cpp:102-131 | the month form, for any strictly increasing starts of months; no result exactly if a number of months does not fit into 32 bits |
| `TimeBucket.MonthBucketIsGreatest` | src/duckdb/extension/icu/icu-timebucket.cpp:119-130 | it is a boundary, counted in months from the month of the origin, and the greatest that is not after the timestamp |
| `TimeBucket.MonthBucketsAreStable` | src/duckdb/extension/icu/icu-timebucket.cpp:102-131 | it is idempotent and monotone |
| `TimeBucket.AddInterval` | src/duckdb/extension/icu/icu-dateadd.cpp:68-133 | the microseconds carried beside the calendar may stay negative; without months the sum is exact, and months are moved before the smaller units, or behind them if a part is negative |
| `TimeBucket.SplitAddsUp` | src/duckdb/extension/icu/icu-dateadd.cpp:98-108 | milliseconds, seconds, minutes and hours add up to the interval, and all but the hours fit into 32 bits |
| `TimeBucket.CarriedAddsUp` | src/duckdb/extension/icu/icu-dateadd.cpp:74-85 | the carry between milliseconds and the microseconds behind them keeps the sum |
| `TimeBucket.CarriedIs` | src/duckdb/extension/icu/icu-dateadd.cpp:74-85 | what is carried beside the calendar is below a millisecond, and negative only if both parts are and exceed one together |
| `TimeBucket.MovedIs` | src/duckdb/extension/icu/icu-dateadd.cpp:110-130 | the order of months, days and smaller units, in numbers of milliseconds |
| `TimeBucket.TruncatedIs` | src/duckdb/extension/icu/icu-timebucket.cpp:71-75 | division rounds the absolute value down and keeps the sign |
| `TimeBucket.Units` | src/duckdb/extension/icu/icu-dateadd.cpp:98-108 | the lengths of the units and the ranges of the integers |
| `TimeBucket.AddParts` | src/duckdb/extension/icu/icu-dateadd.cpp:110-130 | the parts are added from the lowest up if one of them is negative, and otherwise from the highest down; without months the order does not matter |
| `TimeBucket.Calendar.AddHours` | src/duckdb/extension/icu/icu-dateadd.cpp:47-65 | the loop adds exactly the hours, each piece within 32 bits |
| `TimeBucket.Calendar.SetTime` | src/duckdb/extension/icu/icu-datefunc.cpp:135-150 | whole milliseconds rounded down, and the microseconds behind them |
| `TimeBucket.ClassificationsAgree` | src/duckdb/extension/icu/icu-timebucket.cpp:29-62 | the two classifications of widths agree, but for the empty interval |
| `TimeBucket.ClassifiedExactly` | src/duckdb/extension/icu/icu-timebucket.cpp:29-39 | a constant width is classified exactly if one of its parts alone is not zero, and that is positive, or if it is empty |

## Left out

- Memory: buffers, vectors and chunks are sequences held in fields, not raw memory, so aliasing between buffers, alignment, zero padding behind a buffer and in-place parsing are not modelled; the 64-bit width of sizes and positions is not modelled except where a member says so.
- JSON reader: detection of the format, the byte order mark, the parsing of a unit by the JSON library, and what a buffer does after a parse error.
- ScanState.ScanState.ParseNextChunk: newline-delimited text only; `NextJson` has the other formats.
- BufferProtocol.RunYieldsLines: a run goes on past an object-size error, so that all runs can be compared; `RunThrowsExactly` says which runs end with one. The query being interrupted while a thread waits and a re-used auto-detection buffer, which the sequential scan models, are not part of the protocol.
- NextJson.ParseArray: without the limit on a batch, and from behind the opening bracket, whose check and the empty array are left out; parsing an element never fails.
- NextJson.ValueEnds: numbers and literals have no end of their own; the scanner takes them up to the next comma or bracket, which `ArrayIsSplit` covers.
- ErrorReport.ThrownIsEarliest: within the erroring buffer a later recorded error may be in an earlier line; only errors already recorded are compared there.
- JsonPath: of what lies behind the text of a path only the next byte is modelled, and nothing that is read after the text has been left; characters are single bytes; keys are compared without normalisation.
- JsonPath.PathRoundTrip: keys are written with quotes, so plain keys are covered by the scanner's own members only.
- JSON pointers, the other functions over JSON values, and the conversion of values to text.
- list_filter and list_transform: the evaluation of lambda expressions, constant vectors, list_reduce, and the additional columns of a lambda, which depend on the row only and are part of the lambda here.
- Wkb: coordinates are decoded by an arbitrary function to integers or not-a-number, so rounding and infinities are not modelled.
- Wkb.UpdateEncoded: for a collection that is not little-endian throughout it says no more than which type is added.
- ColumnReader.ColumnReader.PreparePage: pages that filters have excluded and decompression are left out.
- ColumnReader.ColumnReader.PrepareRead: repetition levels are left out.
- ColumnReader: one row group per reader, dictionary filters, and the encodings of values other than their order; a reader is never asked for more rows than it can find, where the source fails.
- ParquetWrite: the preparation of a row group, compression, and files that are rotated after a number of row groups; whether the byte limit is met is an arbitrary answer at each look.
- ParquetWrite.OnlyTheTailIsSmall: holds while only the row limit is active; with the byte limit row groups may have any size above zero.
- ParquetSchema: field identifiers, converted and logical types, geometry columns and the root element.
- StructEncoder: descriptor objects are values in the stack instead of JavaScript objects, and the typed arrays of a leaf are one sequence of integers.
- TaskQueue: the thread pool, memory bookkeeping, exceptions in callbacks and the work of the tasks themselves; a task is a number.
- BloomFilter: sizing, the header of a stored filter, the population count, and hashing of values other than single words; a filter is given an arbitrary hash function.
- BloomFilter.ExclusionIsSound: one direction under a condition on the hashes of equal constants, which is exact for a filter with a single hash only; `ExclusionExactly` has both directions for the filter as it is looked up.
- TimeBucket: time zones and calendars other than UTC, infinite timestamps, the range checks of adding an interval, and offsets; months are any strictly increasing starts at whole milliseconds.
- TimeBucket.AddInterval: months move the calendar by an arbitrary function, so ragged months are its affair.
- The binding of functions and options, N-API objects, promises and reference counting, Float16, encryption, and the statistics of Parquet columns.
