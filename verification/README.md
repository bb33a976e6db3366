# klogg's data layer

A Dafny model of the engines under klogg's log views, with proofs that each fast, stateful
implementation means what its simple counterpart says. `dafny verify dfyconfig.toml` checks all of it.

The modules follow the source files.

- **Line index.** `LineFeeds` and `LineIndex` say what the line ends of a byte string are;
  `BlockParser` finds them block by block, `Indexer` drives full and partial runs and the check for
  changes, `LinePositions` is the list with its removable last line feed, `CompressedLineStorage`
  packs it into blocks of 128 and `StreamVByte` is a concrete form of the byte coding it uses.
- **Following a file.** `OperationQueue`, `FileHolder` and `LogDataSlots` are the objects of the main
  thread; `FileFollowing` is the transition system of slots, worker, readers and file writers.
- **Lines.** `RawLines` cuts lines in two ways, `TabExpansion` expands tabs in two ways; each pair agrees.
- **Search.** `LineFilter` searches one chunk, `ParallelSearch` is the flow graph with every
  interleaving, `UpdateSearch` a search continued on a growing file, `SearchCache` the cache of
  results, `FilteredView` the marks, matches and navigation over `SortedSets`.
- **Patterns.** `BooleanExpressions` cuts quoted patterns out of an expression, `BooleanEvaluator`
  evaluates combinations by table, `PatternMatching` decides about a line.
- **Highlights.** `Highlights` paints, cuts and clamps coloured ranges.

Bytes are numbers below 256, a file is a byte sequence per snapshot, a matcher is a predicate on line
bytes, a digest tells any two byte strings apart, a bitmap is a finite set with rank and select.

## What does not hold

Some promises fail in the code. The model keeps the code as it is: for each there is an input that
shows it, and a theorem over all inputs that says exactly when the promise holds.

- A change notification can be lost: a check that waits is overtaken by the partial reindex that an
  earlier check asks for. If the file was rewritten in between, the index stays wrong with nothing
  pending (`FileFollowing.NotificationLostFromStart`). It can happen only when a waiting operation is
  overtaken (`FileFollowing.OvertakenExactly`); otherwise the index follows the file, and an overtaken
  reindex is wrong exactly if the file no longer begins with the indexed bytes
  (`FileFollowing.FollowsFile`, `FileFollowing.ReindexIsRightUnlessOvertaken`).
- A line feed of several bytes that a block edge cuts is missed (`LineFeeds.CutLineFeedMissed`), and
  only such a one (`LineFeeds.BlockwiseIsExact`).
- A continued search keeps a match of an unterminated last line that has stopped matching
  (`UpdateSearch.StaleMatch`), and errs in no other way (`UpdateSearch.UpdatesAgreeWithFullSearch`). The
  comment at `src/logdata/src/logfiltereddataworker.cpp:515-518` says the match is deleted first, but
  the set it is deleted from is never filled.
- An interrupted search can have processed the last line and lack earlier matches, and the view takes
  that number as the sign of a complete result (`ParallelSearch.InterruptedSearchLooksComplete`). It
  tells only that the last chunk was published (`ParallelSearch.ProcessedLineTells`); the combiner's
  count of processed lines tells whether all were (`ParallelSearch.CompleteExactlyByCount`).
- The result cache exceeds its bound for patterns that differ only in the three flags which the
  equality operator compares with themselves (`SearchCache.OverfullCache`, `SearchCache.EqualsMeaning`).
  Without two such searches it keeps to it in every state (`SearchCache.CacheIsBounded`); after any
  update it does exactly if the entries with the same text, case sensitivity and range fit
  (`SearchCache.WhatIsLeft`).
- Clearing the marks leaves them in the union of marks and matches (`FilteredView.ClearedMarkIsShown`)
  until it is rebuilt (`FilteredView.ViewInEveryState`, `FilteredView.UnionIsExact`).
- From an unmarked line, "previous mark" skips a mark (`FilteredView.PreviousMarkSkipsOne`,
  `FilteredView.MarkBefore`).
- An empty highlight, as from an expression that matches the empty string, wipes the column it stands
  at (`Highlights.EmptyMatchWipes`, `Highlights.EmptyMatchIsHarmless`).
- An index of no bytes never reports "unchanged" or "data added"
  (`LineIndex.EmptyIndexReportsTruncated`, `LineIndex.CheckMeaning`).

## Model

| member | source | states |
|---|---|---|
| LineFeeds.EndsMembers | src/logdata/src/logdataworker.cpp:319-369 | an offset is in the reference list exactly when a whole line feed inside the stretch ends there |
| LineFeeds.EndsIncrease | src/logdata/include/linepositionarray.h:161-163 | line ends are strictly increasing and within the stretch |
| LineFeeds.EncodingsAreValid | src/logdata/include/encodingdetector.h:32-60 | the theorems about line feeds apply to every width with the LF byte first or last |
| LineFeeds.NoOverlap | src/logdata/include/encodingdetector.h:52-60 | with the LF byte first or last two line feeds never overlap, so going on behind a match skips none |
| LineFeeds.SplitEnds | src/logdata/src/logdataworker.cpp:429-481 | the line ends of a file are those on both sides of any edge plus those the edge cuts |
| LineFeeds.RecognisedCount | src/logdata/src/logdataworker.cpp:565-607 | block-wise search never finds more line ends than there are, and fewer exactly if an edge cuts one |
| LineFeeds.BlockwiseIsExact | src/logdata/src/logdataworker.cpp:565-607 | block-wise search equals the reference if and only if no block edge cuts a line feed |
| LineFeeds.CutLineFeedMissed | src/logdata/src/logdataworker.cpp:788-800 | a UTF-16 file continued in the middle of a line feed, which is missed |
| LineFeeds.SingleByteIsCutFree | src/logdata/src/logdataworker.cpp:358-369 | one-byte line feeds are never cut |
| BlockParser.IsNotDelimiter | src/logdata/src/logdataworker.cpp:323-349 | a found byte is rejected exactly when the whole multi-byte pattern around it is not there |
| BlockParser.FindNextMultiByteDelimiter | src/logdata/src/logdataworker.cpp:319-356 | the first occurrence of the whole pattern, or none when there is none |
| BlockParser.FindNextSingleByteDelimiter | src/logdata/src/logdataworker.cpp:358-362 | the first occurrence of the byte, or none when there is none |
| BlockParser.FindNextLineFeed | src/logdata/src/logdataworker.cpp:405-427 | the first line feed from a position on, none skipped; or the end of the block |
| BlockParser.ParseDataBlock | src/logdata/src/logdataworker.cpp:429-481 | exactly the ends of all whole line feeds of the block from the carried position on, and the last end as the new position |
| Indexer.IndexingData.AddAll | src/logdata/src/logdataworker.cpp:127-146 | size, digest and line ends follow the block; an empty block changes only the list |
| Indexer.IndexingData.Clear | src/logdata/src/logdataworker.cpp:158-176 | an empty index without a digest |
| Indexer.IndexNextBlock | src/logdata/src/logdataworker.cpp:565-607 | the index after one block is that of the fed blocks, and the position tells whether the last line is terminated |
| Indexer.ReadFileInBlocks | src/logdata/src/logdataworker.cpp:510-563 | for any split into reads, the index after reading is that of the bytes read |
| Indexer.FinishIndex | src/logdata/src/logdataworker.cpp:684-748 | an unterminated last line gets one end behind the file; interrupted before the test for clearing, the index ends up empty, later it is kept |
| Indexer.DoIndex | src/logdata/src/logdataworker.cpp:609-748 | a run from any earlier index ends with the index of all bytes fed; interrupted while reading or before the test for clearing it ends empty, and so does one on a file that cannot be opened |
| Indexer.FullIndexOperation | src/logdata/src/logdataworker.cpp:750-786 | a full run forgets the old index, reports success exactly if not interrupted, and keeps its index exactly if not interrupted in time |
| Indexer.PartialIndexOperation | src/logdata/src/logdataworker.cpp:788-822 | a partial run extends the old index by the new bytes only, or leaves an empty index if interrupted in time |
| Indexer.AfterRunBytes | src/logdata/src/logdataworker.cpp:750-822 | the bytes an index stands for after any run: the file, the old bytes extended, or none |
| Indexer.GetDigest | src/logdata/src/logdataworker.cpp:866-883 | reading in chunks yields the digest of exactly the indexed length |
| Indexer.CheckFileChangesOperation | src/logdata/src/logdataworker.cpp:843-926 | the status that comparing the file with the indexed bytes must give |
| LineIndex.CheckMeaning | src/logdata/src/logdataworker.cpp:843-926 | "data added" if and only if the non-empty indexed bytes are a proper prefix of the file, "unchanged" if and only if they are the file |
| LineIndex.EmptyIndexReportsTruncated | src/logdata/src/logdataworker.cpp:849-851 | an index of no bytes reports truncation for a file that grew and for one that did not change |
| LineIndex.SingleByteIndex | src/logdata/src/logdataworker.cpp:684-692 | with one-byte line feeds the list depends on the bytes only, never on runs and reads |
| LineIndex.ReferenceIndexMeaning | src/logdata/src/logdataworker.cpp:684-692 | the list is offset + 1 of every LF and size + 1 for an unterminated last line, strictly increasing |
| LineIndex.FeedReadsBytes | src/logdata/src/logdataworker.cpp:510-563 | the reads of a run deliver exactly the stretch of the file |
| LineIndex.SeeBlock | src/logdata/src/logdataworker.cpp:429-481 | the carried position keeps telling whether the last line is terminated |
| LineIndex.FinishRun | src/logdata/src/logdataworker.cpp:684-692 | appending the last end exactly when needed completes the list |
| LinePositions.LinePositionArray.Append | src/logdata/include/linepositionarray.h:161-171 | a fake last end is replaced, a real one kept |
| LinePositions.LinePositionArray.AppendList | src/logdata/include/linepositionarray.h:202-218 | a fake last end goes, the other list follows with its flag |
| LinePositions.LinePositionArray.At | src/logdata/include/linepositionarray.h:184-189 | the end of a line, by number |
| LinePositions.LinePositionArray.Range | src/logdata/include/linepositionarray.h:191-194 | the ends of consecutive lines |
| StreamVByte.LittleEndianRoundTrip | src/logdata/src/compressedlinestorage.cpp:93-110 | one to four little-endian bytes give the word back |
| StreamVByte.EncodeBound | src/logdata/src/compressedlinestorage.cpp:93-110 | encoding never writes past the bound the buffer is resized by |
| StreamVByte.RoundTrip | src/logdata/src/compressedlinestorage.cpp:112-133 | decoding at an offset gives the encoded words back, whatever else is in the buffer |
| CompressedLineStorage.PackLayout | src/logdata/src/compressedlinestorage.cpp:93-110 | a packed block joins the buffer without touching the blocks before it, all disjoint and inside |
| CompressedLineStorage.SmallListsCanBePacked | src/logdata/src/compressedlinestorage.cpp:76-91 | the list of any file under 4 GiB meets the demand of the 32-bit offsets |
| CompressedLineStorage.LayoutDecodes | src/logdata/src/compressedlinestorage.cpp:112-133 | unpacking block b gives positions 128 b to 128 b + 127 |
| CompressedLineStorage.CompressedLinePositionStorage.Append | src/logdata/src/compressedlinestorage.cpp:76-91 | appends to the plain list, packing a full block of 128 |
| CompressedLineStorage.CompressedLinePositionStorage.CompressCurrentBlock | src/logdata/src/compressedlinestorage.cpp:93-110 | packing keeps the plain list and the layout |
| CompressedLineStorage.CompressedLinePositionStorage.AppendList | src/logdata/src/compressedlinestorage.cpp:135-141 | appends all positions in order |
| CompressedLineStorage.CompressedLinePositionStorage.At | src/logdata/src/compressedlinestorage.cpp:112-133 | element of the plain list, from a packed or the current block |
| CompressedLineStorage.CompressedLinePositionStorage.UncompressLastBlock | src/logdata/src/compressedlinestorage.cpp:143-158 | unpacking the last block keeps the plain list although it leaves a hole |
| CompressedLineStorage.CompressedLinePositionStorage.PopBack | src/logdata/src/compressedlinestorage.cpp:160-180 | drops the last position of the plain list, also across a block edge |
| CompressedLineStorage.CompressedLinePositionStorage.Range | src/logdata/src/compressedlinestorage.cpp:187-231 | exactly the slice of the plain list |
| CompressedLineStorage.CompressedLinePositionStorage.RangeFromBlocks | src/logdata/src/compressedlinestorage.cpp:205-231 | copying block by block and from the current block gives the slice |
| OperationQueue.OperationQueue.TryStartPendingOperation | src/logdata/src/logdataoperation.cpp:101-118 | the pending operation becomes the executing one and is started; nothing waits unless something executes |
| OperationQueue.OperationQueue.EnqueueOperation | src/logdata/src/logdataoperation.cpp:120-132 | replaces whatever waits, and waits only behind an executing operation |
| OperationQueue.OperationQueue.FinishOperationAndStartNext | src/logdata/src/logdataoperation.cpp:134-140 | the executing operation ends and the waiting one starts; nothing is left waiting alone |
| FileHolder.FileHolder.Open | src/logdata/src/fileholder.cpp:103-114 | the file is attached and kept open unless it is to be kept closed |
| FileHolder.FileHolder.AttachReader | src/logdata/src/fileholder.cpp:126-138 | counts the reader; a file that is kept closed is open while it has readers |
| FileHolder.FileHolder.DetachReader | src/logdata/src/fileholder.cpp:140-151 | uncounts the reader; a file that is kept closed is closed when it has none left |
| LogDataSlots.LogData.AttachFile | src/logdata/src/logdata.cpp:108-122 | opens the file and enqueues the first indexing; what executes has a reader of its own |
| LogDataSlots.LogData.Reload | src/logdata/src/logdata.cpp:145-153 | reopens the file and enqueues a full reindex; queue and readers stay consistent although the file was opened outside a reader |
| LogDataSlots.LogData.FileChangedOnDisk | src/logdata/src/logdata.cpp:155-197 | a notification that is not ignored enqueues a check; queue and readers stay consistent |
| LogDataSlots.LogData.IndexingFinished | src/logdata/src/logdata.cpp:199-223 | the change flag is cleared, the reader goes and the next operation starts with its own |
| LogDataSlots.LogData.CheckFileChangesFinished | src/logdata/src/logdata.cpp:225-259 | the follow-up of the status is enqueued before the next operation starts; queue and readers stay consistent |
| FileFollowing.StepInv | src/logdata/src/logdata.cpp:108-259 | every step keeps the whole invariant: queue and worker agree, readers are counted, no notification is forgotten, checked prefixes stay prefixes, a reindex on a changed file is accounted for |
| FileFollowing.ReachableInv | src/logdata/src/logdata.cpp:108-259 | the invariant holds in every reachable state, for any file and any sequence of steps |
| FileFollowing.QueueAndReadersInEveryState | src/logdata/src/fileholder.cpp:103-151 | over every run nothing waits unless something executes, and the reader count is base, executing operation, searches and line reads together |
| FileFollowing.NotificationsAreFollowed | src/logdata/src/logdata.cpp:155-259 | over every run each change notification is followed by the start of an operation that reads the file |
| FileFollowing.PartialReindexAfterCheckOnly | src/logdata/src/logdata.cpp:225-259 | a partial reindex starts if and only if a check result "data added" is being delivered |
| FileFollowing.OneOperationAtATime | src/logdata/src/logdataoperation.cpp:101-140 | an operation starts only when the worker is free, one per step, with the interrupt flag cleared |
| FileFollowing.LatestWins | src/logdata/src/logdataoperation.cpp:120-140 | what starts next is the follow-up of the check, else what was enqueued last |
| FileFollowing.OvertakenExactly | src/logdata/src/logdata.cpp:225-259 | a check result overtakes what waits exactly if something waits and the check asks for an operation; what waited never starts |
| FileFollowing.OvertakenStays | src/logdata/src/logdataoperation.cpp:101-140 | no other step overtakes anything, and only the next check forgets it |
| FileFollowing.ReindexIsRightUnlessOvertaken | src/logdata/src/logdata.cpp:225-259 | a partial reindex is right if and only if the file still begins with the indexed bytes, which it does unless a write is unnotified, its check waits, or that check was overtaken |
| FileFollowing.FollowsFile | src/logdata/src/logdata.cpp:199-259 | over every run from the start, at rest with every write notified: the indexed bytes are the file if the last run was not cut short and nothing was overtaken; and exactly when an overtaking reindex found the file changed, they are not |
| FileFollowing.GrowthExtendsExactly | src/logdata/src/logdata.cpp:225-259 | if the file only grew since the check, the partial reindex yields the index of the whole file |
| FileFollowing.RunLeaves | src/logdata/src/logdataworker.cpp:730-822 | an interrupted run leaves no bytes indexed unless the interruption comes too late; else the file, or the indexed bytes extended |
| FileFollowing.ReloadInterrupts | src/logdata/src/logdata.cpp:145-153 | a reload interrupts what is running, so that run cannot complete as if undisturbed, and waits behind it; when idle it starts at once |
| FileFollowing.IndexIsReference | src/logdata/src/logdataworker.cpp:609-748 | the list that the index object holds is the reference list of the bytes last read, and its size is theirs |
| FileFollowing.IndexFollowsFile | src/logdata/src/logdata.cpp:199-259 | over every run, at rest, notified, not cut short and not overtaken, the list that the index object holds is the reference list of the file |
| FileFollowing.InternalStepPossible | src/logdata/src/logdataoperation.cpp:101-140 | worker and slots are never stuck |
| FileFollowing.ComesToRest | src/logdata/src/logdataoperation.cpp:101-140 | left alone the system comes to rest within eight steps |
| FileFollowing.NotificationLost | src/logdata/src/logdata.cpp:225-259 | from any state of rest and for all contents, a run after which everything is at rest and notified but the index is not that of the file |
| FileFollowing.NotificationLostFromStart | src/logdata/src/logdata.cpp:108-259 | the same from the start: attach, append, rewrite while a check result is on its way |
| RawLines.GetLinesRaw | src/logdata/src/logdata.cpp:349-405 | the bytes and relative line ends of the lines asked for, nothing if out of bounds |
| RawLines.DecodeLines | src/logdata/src/logdata.cpp:455-507 | one entry per line: the slice between line ends up to the first unreadable line, warnings from there on |
| RawLines.BuildUtf8View | src/logdata/src/logdata.cpp:509-566 | the stretches between line feeds, without an empty last one |
| RawLines.LineShape | src/logdata/src/logdata.cpp:455-495 | a line of the index holds no LF and is followed by one unless its end is the fake one |
| RawLines.SplitIsIndexed | src/logdata/src/logdata.cpp:509-566 | splitting the raw bytes gives exactly the number of lines asked for, line j being line first + j of the index, with one padding byte at most on an unterminated last line |
| RawLines.CutIsIndexed | src/logdata/src/logdata.cpp:455-507 | cutting along the index gives the same lines without the padding byte; a line is refused exactly if it is too long |
| TabExpansion.Untabify | src/logdata/include/linetypes.h:309-324 | the in-place replacement computes the expanded line, from any start column |
| TabExpansion.GetUntabifiedLength | src/logdata/include/linetypes.h:326-341 | the counting loop computes exactly the length of the expanded line |
| TabExpansion.TabsEndOnTabStops | src/logdata/include/linetypes.h:306-324 | every tab takes one to eight columns and ends on a multiple of eight, every other character one |
| TabExpansion.DrawnCharacter | src/logdata/include/linetypes.h:309-324 | a tab is drawn as blanks, a null as one blank, any other character as itself |
| TabExpansion.ExpandIdempotent | src/logdata/include/linetypes.h:309-324 | an expanded line has no tab or null left, and expanding it again changes nothing |
| LineFilter.FilterLines | src/logdata/src/logfiltereddataworker.cpp:99-122 | exactly the matching lines of the view, numbered from the chunk's start, and the longest drawn length among them |
| LineFilter.FilterNamesTheRightLines | src/logdata/src/logfiltereddataworker.cpp:99-122 | a line number is reported exactly if that line of the index lies in the chunk and matches |
| LineFilter.SearchData.TakeCurrentResults | src/logdata/src/logfiltereddataworker.cpp:127-131 | hands out the new matches once |
| LineFilter.SearchData.AddAll | src/logdata/src/logfiltereddataworker.cpp:133-143 | unions the matches, adds their number, keeps the greatest length and line |
| ParallelSearch.ChunksDisjoint | src/logdata/src/logfiltereddataworker.cpp:427-457 | no line is in two chunks |
| ParallelSearch.ChunkOf | src/logdata/src/logfiltereddataworker.cpp:427-457 | every line before the reader is in a chunk |
| ParallelSearch.StepConserves | src/logdata/src/logfiltereddataworker.cpp:306-457 | every step keeps each chunk in exactly one place |
| ParallelSearch.GatherOne | src/logdata/src/logfiltereddataworker.cpp:372-393 | publishing a chunk adds exactly its matches, none of them twice |
| ParallelSearch.StepInv | src/logdata/src/logfiltereddataworker.cpp:306-457 | every step keeps conservation, bounds, interruption and results right |
| ParallelSearch.ReachableInv | src/logdata/src/logfiltereddataworker.cpp:274-459 | these hold in every state of every interleaving |
| ParallelSearch.BoundedInEveryState | src/logdata/src/logfiltereddataworker.cpp:308-350 | at most three blocks per thread are in flight, at most one per matcher is matched, each chunk read is in exactly one place |
| ParallelSearch.PublishedInEveryState | src/logdata/src/logfiltereddataworker.cpp:365-411 | drained and undrained matches are always exactly those of the published chunks, interrupted or not, and the counter is their number |
| ParallelSearch.CoverOne | src/logdata/src/logfiltereddataworker.cpp:372-393 | publishing a chunk covers its lines, none of them twice |
| ParallelSearch.StepMeasures | src/logdata/src/logfiltereddataworker.cpp:372-393 | every step keeps the count of processed lines and the longest matching length those of the published chunks |
| ParallelSearch.FinishedSearchIsSequential | src/logdata/src/logfiltereddataworker.cpp:274-459 | a finished uninterrupted search found the matching lines of the range and nothing else, with their number, the longest of their lengths and the last line processed |
| ParallelSearch.WorkDescends | src/logdata/src/logfiltereddataworker.cpp:427-459 | every step but waiting and draining leaves less work |
| ParallelSearch.NeverStuck | src/logdata/src/logfiltereddataworker.cpp:427-459 | an unfinished search always has a useful step, if need be after one retry |
| ParallelSearch.RunToEnd | src/logdata/src/logfiltereddataworker.cpp:427-459 | every uninterrupted run can be continued to a finished one |
| ParallelSearch.InterruptionStops | src/logdata/src/logfiltereddataworker.cpp:328-372 | after an interruption nothing more is read or searched, and nothing is published but the block already being published |
| ParallelSearch.InterruptedResultsStay | src/logdata/src/logfiltereddataworker.cpp:365-372 | then the results stay as they are, whatever steps follow |
| ParallelSearch.CompleteExactlyByCount | src/logdata/src/logfiltereddataworker.cpp:384-393 | in every state, interrupted or not, the combiner's count has reached the length of the range if and only if every chunk was published; then everything was found, before that exactly the matches outside the published chunks are missing |
| ParallelSearch.ProcessedLineTells | src/logdata/src/logfiltereddata.cpp:407-413 | the greatest processed line is the end of the range if and only if the last chunk was published |
| ParallelSearch.InterruptedSearchLooksComplete | src/logdata/src/logfiltereddata.cpp:407-413 | an interrupted run that processed the last line and lacks a match |
| UpdateSearch.FilteredIsHits | src/logdata/src/logfiltereddataworker.cpp:322-350 | what searching the lines of a block finds and measures is what the flow graph takes it to yield |
| UpdateSearch.SearchChunk | src/logdata/src/logfiltereddataworker.cpp:434-441 | reading a chunk along the stored index and searching it gives exactly the hits of its block and the longest of them |
| UpdateSearch.IndexOfGrown | src/logdata/src/logfiltereddataworker.cpp:508-521 | growing keeps the ends of terminated lines and never loses a line |
| UpdateSearch.SameLine | src/logdata/src/logfiltereddataworker.cpp:508-521 | a terminated line looks the same to the search after the file has grown |
| UpdateSearch.SearchesFind | src/logdata/src/logfiltereddataworker.cpp:490-521 | after a search and any number of updates the matches are those of the final file plus last lines that matched unterminated |
| UpdateSearch.SearchKeepsToItsRange | src/logdata/src/logfiltereddataworker.cpp:296-301 | a search, continued or not, finds only lines of the file between start and end line and claims to have processed none behind; a single search finds exactly the matching ones among them |
| UpdateSearch.UpdatesAgreeWithFullSearch | src/logdata/src/logfiltereddataworker.cpp:490-521 | nothing is missed, and the result equals one full search if and only if no such last line has stopped matching |
| UpdateSearch.StaleMatch | src/logdata/src/logfiltereddataworker.cpp:515-519 | a search that excludes a letter and an update that keep a line which now has it |
| SortedSets.SelectOfRank | src/logdata/src/logfiltereddata.cpp:260-288 | selecting by rank gives an element back |
| FilteredView.FindLogDataLine | src/logdata/src/logfiltereddata.cpp:443-458 | the visible line with as many visible lines above as the index says, the largest line number beyond the end |
| FilteredView.FindFilteredLine | src/logdata/src/logfiltereddata.cpp:474-483 | the index of the greatest visible line not below the given one in the file |
| FilteredView.IndexAndLineAreInverse | src/logdata/src/logfiltereddata.cpp:443-483 | on the visible lines both directions are inverse and keep the order |
| FilteredView.GetMarkAfter | src/logdata/src/logfiltereddata.cpp:260-270 | the least mark strictly above, none if there is none |
| FilteredView.MarkBefore | src/logdata/src/logfiltereddata.cpp:272-288 | the greatest mark strictly below if and only if the line is marked or has no mark up to it |
| FilteredView.PreviousMarkSkipsOne | src/logdata/src/logfiltereddata.cpp:272-288 | an unmarked line from which the nearest mark is skipped |
| FilteredView.LongestOf | src/logdata/src/logfiltereddata.cpp:306-319 | the length of the longest line of a set |
| FilteredView.LogFilteredData.ToggleMark | src/logdata/src/logfiltereddata.cpp:228-242 | marks an unmarked line of the file and unmarks a marked one, rebuilding union and longest length |
| FilteredView.ToggleTwice | src/logdata/src/logfiltereddata.cpp:228-242 | toggling flips the mark of a line of the file and no other, and toggling again restores the marks |
| FilteredView.LogFilteredData.AddMark | src/logdata/src/logfiltereddata.cpp:244-253 | marks a line of the file, ignores any other |
| FilteredView.LogFilteredData.DeleteMark | src/logdata/src/logfiltereddata.cpp:290-294 | unmarks any line |
| FilteredView.LogFilteredData.UpdateMaxLengthMarks | src/logdata/src/logfiltereddata.cpp:296-320 | rebuilds the union; the longest length grows with an added line and is recomputed only if a removed one is at least as long |
| FilteredView.StaysLongest | src/logdata/src/logfiltereddata.cpp:296-320 | recomputing only then keeps the longest length exact under every change |
| FilteredView.LogFilteredData.ClearMarks | src/logdata/src/logfiltereddata.cpp:322-326 | forgets the marks and leaves the union |
| FilteredView.LogFilteredData.HandleSearchProgressed | src/logdata/src/logfiltereddata.cpp:397-409 | new matches join the matches and the union |
| FilteredView.ViewInEveryState | src/logdata/src/logfiltereddata.cpp:97-320 | after any run the longest length is exact and the union is marks, matches and the marks cleared since it was rebuilt |
| FilteredView.MarksAreInFile | src/logdata/src/logfiltereddata.cpp:228-320 | over every run only lines of the file are marked, and the longest length is the greatest of their lengths |
| FilteredView.VisibleLines | src/logdata/src/logfiltereddata.cpp:460-472 | marked lines, matching lines or both are visible, as chosen |
| FilteredView.UnionIsExact | src/logdata/src/logfiltereddata.cpp:296-326 | the union is marks and matches exactly if every lingering mark is marked again or matches, and always without a clearing |
| FilteredView.ClearedMarkIsShown | src/logdata/src/logfiltereddata.cpp:322-326 | a line that was marked, with the marks cleared since, is still in the union |
| FilteredView.NothingLingers | src/logdata/src/logfiltereddata.cpp:322-326 | without a clearing of the marks nothing else is in the union |
| SearchCache.CacheSize | src/logdata/src/logfiltereddata.cpp:373-376 | the sum over the entries, in any order |
| SearchCache.Evict | src/logdata/src/logfiltereddata.cpp:380-390 | evicts in the library's order, sparing entries equal to the current one, and stops as soon as the rest fits |
| SearchCache.WhatIsLeft | src/logdata/src/logfiltereddata.cpp:378-390 | the current result survives; the rest fits the bound if and only if the entries with its text, case sensitivity and range do |
| SearchCache.EqualsMeaning | src/regex/include/regularexpressionpattern.h:80-85 | two keys are equal to the operator if and only if text, case sensitivity and both ends of the range agree |
| SearchCache.SearchResultsCache.UpdateSearchResultsCache | src/logdata/src/logfiltereddata.cpp:351-392 | unchanged if disabled, for the empty search or for too many matches; else the new result is found from then on, and the bound holds exactly if the entries with its text, case sensitivity and range fit |
| SearchCache.CachedIsLatest | src/logdata/src/logfiltereddata.cpp:110-121 | over every run a cached result is the one last accepted for its key |
| SearchCache.CacheIsBounded | src/logdata/src/logfiltereddata.cpp:351-392 | over every run the cache keeps its bound, as long as no two searches with the same text, case sensitivity and range differ in their other flags |
| SearchCache.OverfullCache | src/regex/include/regularexpressionpattern.h:80-85 | a run over two lines in which a pattern and its inversion overfill a cache of one line |
| BooleanExpressions.EscapeRestores | src/regex/src/regularexpression.cpp:83-87 | unescaping a quoted pattern loses nothing |
| BooleanExpressions.UnescapeMeaning | src/regex/src/regularexpression.cpp:83-87 | a quoted pattern loses exactly the backslashes before its quotes |
| BooleanExpressions.EscapeMeaning | src/regex/src/regularexpression.cpp:83-87 | escaping puts a backslash before every quote, and unescaping takes it away |
| BooleanExpressions.IdNamesCounter | src/regex/include/regularexpressionpattern.h:88-92 | an identifier is "p_" and its counter in decimal digits; two counters never give the same |
| BooleanExpressions.FinalCheckMeaning | src/regex/src/regularexpression.cpp:101-106 | the final check accepts exactly one or more operators, signs, blanks and identifiers, and a line feed behind them |
| BooleanExpressions.LowerMeaning | src/regex/src/regularexpression.cpp:101-101 | lower-casing moves A to Z and leaves everything else |
| BooleanExpressions.RequotedRestores | src/regex/src/regularexpression.cpp:48-97 | quoting the patterns again at their places gives the original text |
| BooleanExpressions.ReplacedScan | src/regex/src/regularexpression.cpp:89-95 | after a replacement, starting again at 0 meets the same patterns as going on behind it |
| BooleanExpressions.ReplacingRemovesQuotes | src/regex/src/regularexpression.cpp:48-97 | every replacement leaves fewer quotes, so the loop ends |
| BooleanExpressions.RightQuote | src/regex/src/regularexpression.cpp:63-81 | the next quote that is not escaped |
| BooleanExpressions.ParseBooleanExpressions | src/regex/src/regularexpression.cpp:36-109 | the rewriting loop computes what the single left-to-right pass and the checks give, errors included |
| BooleanExpressions.ParseRoundTrip | src/regex/src/regularexpression.cpp:36-109 | it succeeds exactly if patterns are quoted, no quote is left over and the rest is a combination; then expression and patterns give back the original up to the case outside the quotes |
| BooleanExpressions.ParseErrors | src/regex/src/regularexpression.cpp:40-106 | which of the three errors is reported for which text |
| BooleanExpressions.IdentifiersAreDistinct | src/regex/src/regularexpression.cpp:87-91 | with distinct counters no two patterns of an expression get the same identifier in it |
| BooleanExpressions.ExpressionTellsPatterns | src/regex/src/regularexpression.cpp:89-109 | the identifiers can be found again in the expression if and only if the text outside the quotes has no underscore and no digit right behind a pattern; then result and patterns alone give the original back up to case |
| BooleanEvaluator.BuildPatternCombination | src/regex/src/booleanevaluator.cpp:36-46 | bit i of the number is match result i, and it has no other bits |
| BooleanEvaluator.PackingIsInverse | src/regex/src/booleanevaluator.cpp:31-46 | packing and unpacking are inverse for any number of patterns |
| BooleanEvaluator.ValueOfTruth | src/regex/src/booleanevaluator.cpp:96-102 | an expression depends only on which results are non-zero |
| BooleanEvaluator.ValueMeaning | src/regex/src/booleanevaluator.cpp:96-102 | each operator is the logical one of its name |
| BooleanEvaluator.BooleanExpressionEvaluator.constructor | src/regex/src/booleanevaluator.cpp:50-80 | the table holds the value of every combination of up to four patterns |
| BooleanEvaluator.BooleanExpressionEvaluator.Evaluate | src/regex/src/booleanevaluator.cpp:82-103 | for any number of patterns, by table or not, the result is direct evaluation; false if invalid or if results are missing |
| PatternMatching.PatternMatcher.HasMatch | src/regex/src/regularexpression.cpp:160-222 | a plain matcher accepts a line in which the pattern, or the combination, is found; an inverted one accepts exactly the others |
| Highlights.LastCoveringDecides | src/ui/include/highlightedmatch.h:133-189 | painting matches in turn means that the last one covering a column decides |
| Highlights.CoversMeaning | src/ui/include/highlightedmatch.h:40-53 | a match covers as many columns as its size from its first one, an empty one none |
| Highlights.TrimAllColours | src/ui/include/highlightedmatch.h:140-182 | cutting clears the columns of the new match and no other |
| Highlights.TrimAllDisjoint | src/ui/include/highlightedmatch.h:140-182 | cutting leaves sorted, disjoint, non-empty ranges beside the new match |
| Highlights.CutOut | src/ui/include/highlightedmatch.h:140-182 | the six-case loop over the changing list computes that cutting |
| Highlights.CutNext | src/ui/include/highlightedmatch.h:146-176 | one round of the loop is right in each of its cases |
| Highlights.HighlightedMatchRanges.AddMatch | src/ui/include/highlightedmatch.h:140-189 | ranges stay sorted, disjoint and non-empty, and every column gets the colour that painting over gives |
| Highlights.HighlightedMatchRanges.AddMatches | src/ui/include/highlightedmatch.h:133-138 | the painter's algorithm for a whole list of matches |
| Highlights.EmptyMatchIsHarmless | src/ui/include/highlightedmatch.h:45-48 | an empty match changes nothing if and only if nothing is drawn at its column |
| Highlights.EmptyMatchWipes | src/ui/src/highlighterset.cpp:220-226 | an empty match that takes the colour of the column it stands at |
| Highlights.HighlightedMatchRanges.ClampTo | src/ui/include/highlightedmatch.h:107-131 | the clamping loop keeps the ranges sorted, disjoint and non-empty |
| Highlights.ClampColours | src/ui/include/highlightedmatch.h:107-131 | with bounds in order, the colours are kept inside the window and cleared outside |
| Highlights.ClampIdempotent | src/ui/include/highlightedmatch.h:107-131 | clamping again changes nothing |
| Highlights.CrossedClampIsBlank | src/ui/include/highlightedmatch.h:107-131 | with crossed bounds, which no caller passes, nothing is left if and only if no range spans both |

## Left out

- BlockParser.FindNextLineFeed: the additional columns of expanded tabs serve the longest line length only, and are left out with it.
- BlockParser.ParseDataBlock: the same; its result is the line ends and the carried position.
- Indexer.IndexingData.AddAll: the longest line length and the encoding guess are left out.
- Indexer.IndexingData.Clear: as for AddAll, and the progress percentage.
- Indexer.IndexNextBlock: encoding detection and the longest line length are left out.
- Indexer.FinishIndex: the digests of header and tail serve fast modification detection and are left out with it.
- Indexer.DoIndex: the encoding is a parameter of an index, because detecting it needs a library; the longest line length, which the source does not compute exactly, and the clearing of an index whose lines are too long are left out.
- Indexer.CheckFileChangesOperation: only the comparison of the full digest; comparing header and tail windows does not guarantee an unchanged prefix.
- Indexer.ReadFileInBlocks: one snapshot of the file per run; a file that grows while it is read is not part of this model.
- LineIndex.SingleByteIndex: for wider line feeds the end of an unterminated line is size + 1, as in the code; the exactness theorem for them is LineFeeds.BlockwiseIsExact.
- LinePositions.LinePositionArray.Range: needs a count of at least one and lines in bounds; the uncompressed storage is the plain list itself.
- CompressedLineStorage.CompressedLinePositionStorage.Append: blocks must span less than 2^32 bytes, which the 32-bit shifted positions need; moving a non-empty storage is not part of this model.
- FileFollowing.FollowsFile: one file object whose reads succeed or not as a whole; the file watcher's own bookkeeping and a worker that has been shut down are not steps.
- FileFollowing.LatestWins: a reload that waits can be replaced by a later operation, so no claim that every reload runs.
- RawLines.SplitIsIndexed: UTF-8 compatible text without a prefilter; other encodings go through a converter library.
- RawLines.BuildUtf8View: the branches that convert from other encodings or remove a prefilter, and the error path, are left out.
- RawLines.DecodeLines: one-byte line feeds; out-of-memory paths are left out.
- LineFilter.FilterLines: the regular expression engine is any predicate on the bytes of a line.
- ParallelSearch.FinishedSearchIsSequential: the index does not change during a search; progress signals are not part of the results.
- UpdateSearch.SearchesFind: all searches run to their end; `nbMatches` counts a re-searched last line twice and is not claimed across updates.
- SearchCache.CachedIsLatest: entries are told apart by the whole key, which is how the hash treats them; collisions of hash values are left out.
- BooleanExpressions.ParseBooleanExpressions: lower-casing is that of ASCII letters, the only ones the following check accepts; the expression parser behind it is an expression tree in BooleanEvaluator.
- BooleanExpressions.IdentifiersAreDistinct: the counter behind the identifiers is a parameter; it is one of 32 bits, so it repeats itself after 2^32 patterns.
- BooleanEvaluator.BooleanExpressionEvaluator.Evaluate: at least one pattern, as the parser guarantees.
- FilteredView.ViewInEveryState: line lengths are fixed during a run.
- Highlights.HighlightedMatchRanges.AddMatch: matches within the range of the column type; the saturating arithmetic at its upper end is modelled, but no claim is made about matches beyond it, nor about the column -1 of a capture group that took no part.
- Saturating line arithmetic, visibility flags and line types: easy to state from one body.
- Qt signals, threads, timers, widgets, settings, crash reporting and logging.
