/** The indexing operations of `logdataworker.cpp`, over the compressed list of line ends. */
module Indexer {
  import opened Bytes
  import opened LineFeeds
  import opened LinePositions
  import opened LineIndex
  import opened BlockParser
  import opened CompressedLineStorage

  class IndexingData {
    var linePosition: LinePositionArray
    var hashSize: nat
    var hashBuilder: seq<Byte>
    var fullDigest: Digest

    /** The blocks indexed since the last clearing. */
    ghost var feed: Feed

    ghost predicate Valid()
      reads this, linePosition, linePosition.storage
    {
      && linePosition.Valid()
      && hashSize == |feed.Bytes()| && hashBuilder == feed.Bytes() && fullDigest == IndexedDigest(feed.Bytes())
    }

    /** The object holds this feed and this list. */
    ghost predicate Holds(f: Feed, list: LinePositionList)
      reads this, linePosition, linePosition.storage
    {
      Valid() && feed == f && linePosition.View() == list
    }

    constructor ()
      ensures Holds(Nothing, NoLines) && fresh(linePosition) && fresh(linePosition.storage)
    {
      linePosition := new LinePositionArray();
      hashSize, hashBuilder, fullDigest, feed := 0, [], NoDigest, Nothing;
    }

    method AddAll(block: seq<Byte>, newLinePosition: LinePositionList)
      requires Valid() && BlockSpans(linePosition.View().AppendList(newLinePosition).ends)
      modifies this, linePosition, linePosition.storage
      ensures linePosition == old(linePosition)
      ensures Holds(Fed(old(feed), block),
                    old(linePosition.View()).AppendList(newLinePosition))
    {
      hide BlockSpans;
      linePosition.AppendList(newLinePosition);
      if block != [] {
        hashSize := hashSize + |block|;
        hashBuilder := hashBuilder + block;
        fullDigest := DigestOf(hashBuilder);
        feed := Read(feed, block);
      }
    }

    method Clear()
      modifies this
      ensures Holds(Nothing, NoLines) && fresh(linePosition) && fresh(linePosition.storage)
    {
      hashSize, hashBuilder, fullDigest, feed := 0, [], NoDigest, Nothing;
      linePosition := new LinePositionArray();
    }
  }

  /** When the interrupt flag is raised during an operation; it stays raised until the next one. */
  datatype Interrupt = Never | BeforeFinalLineFeed | BeforeClearing | AfterClearing

  /** The index is kept unless the flag was up when it was tested for the last time. */
  predicate Completes(interrupt: Interrupt) {
    interrupt == Never || interrupt == AfterClearing
  }

  /** A run that started from `before` has indexed `feed`, and seen its last line end at `pos`. */
  ghost predicate UnderWay(data: IndexingData, before: Feed, feed: Feed, pos: nat, enc: EncodingParameters)
    reads data, data.linePosition, data.linePosition.storage
  {
    data.Holds(feed, RunPositions(before, feed, enc)) && LastSeen(before, feed, enc, pos)
  }

  method IndexNextBlock(data: IndexingData, ghost before: Feed, ghost feed: Feed, blockBeginning: nat, block: seq<Byte>,
                        pos: nat, enc: EncodingParameters)
    returns (newPos: nat)
    requires enc.Valid() && UnderWay(data, before, feed, pos, enc)
    requires blockBeginning == |feed.Bytes()|
    requires BlockSpans(Recognised(Fed(feed, block), enc))
    modifies data, data.linePosition, data.linePosition.storage
    ensures data.linePosition == old(data.linePosition)
    ensures UnderWay(data, before, Fed(feed, block), newPos, enc)
  {
    hide BlockSpans, RunPositions, LastSeen, Ends;
    newPos := pos;
    if block != [] {
      var linePositions;
      PosInBlock(before, feed, enc, pos);
      linePositions, newPos := ParseDataBlock(blockBeginning, block, pos, enc);
      AddBlock(before, feed, block, enc);
      SeeBlock(before, feed, block, enc, pos, newPos);
      data.AddAll(block, LinePositionList(linePositions, false));
    }
  }

  lemma PosInBlock(before: Feed, feed: Feed, enc: EncodingParameters, pos: nat)
    requires LastSeen(before, feed, enc, pos)
    ensures |before.Bytes()| <= pos <= |feed.Bytes()|
  {
  }

  /** The read sizes of a run: all of the rest of the file, unless the reading is interrupted. */
  ghost predicate ReadSizes(start: nat, file: seq<Byte>, sizes: seq<nat>, interrupt: Interrupt) {
    if start > |file| then sizes == []
    else
      && start + Sum(sizes, |sizes|) <= |file|
      && (interrupt != BeforeFinalLineFeed ==> start + Sum(sizes, |sizes|) == |file|)
  }

  /** What an indexing run leaves indexed: nothing if the file cannot be opened or the run is cut short. */
  ghost function AfterRun(before: Feed, file: Option<seq<Byte>>, sizes: seq<nat>, interrupt: Interrupt): Feed
    requires file.Some? ==> ReadSizes(|before.Bytes()|, file.value, sizes, interrupt)
  {
    if file.Some? && Completes(interrupt) then RunFeed(before, file.value, sizes) else Nothing
  }

  /** What has been fed when the run ends. A file shorter than what is indexed adds nothing. */
  ghost function RunFeed(before: Feed, file: seq<Byte>, sizes: seq<nat>): Feed
    requires |before.Bytes()| <= |file| ==> |before.Bytes()| + Sum(sizes, |sizes|) <= |file|
  {
    if |before.Bytes()| > |file| then before
    else FeedReads(before, file, |before.Bytes()|, sizes, |sizes|)
  }

  lemma {:induction false} RecognisedPrefix(before: Feed, file: seq<Byte>, start: nat, sizes: seq<nat>, j: nat, k: nat,
                                            enc: EncodingParameters)
    requires j <= k <= |sizes| && start + Sum(sizes, k) <= |file|
    ensures Sum(sizes, j) <= Sum(sizes, k)
    ensures Recognised(FeedReads(before, file, start, sizes, j), enc)
            <= Recognised(FeedReads(before, file, start, sizes, k), enc)
  {
    hide Ends;
    SumGrows(sizes, j, k);
    if j < k {
      RecognisedPrefix(before, file, start, sizes, j, k - 1, enc);
    }
  }

  /** If the final list can be packed, so can every list on the way. */
  lemma PackableOnTheWay(before: Feed, file: seq<Byte>, start: nat, sizes: seq<nat>, k: nat, enc: EncodingParameters)
    requires k <= |sizes| && start + Sum(sizes, |sizes|) <= |file|
    requires BlockSpans(Positions(FeedReads(before, file, start, sizes, |sizes|), enc).ends)
    ensures start + Sum(sizes, k) <= |file|
    ensures BlockSpans(Recognised(FeedReads(before, file, start, sizes, k), enc))
  {
    hide Recognised, FeedReads, BlockSpans;
    RecognisedPrefix(before, file, start, sizes, k, |sizes|, enc);
    var all := Positions(FeedReads(before, file, start, sizes, |sizes|), enc).ends;
    var some := Recognised(FeedReads(before, file, start, sizes, k), enc);
    assert some <= all;
    SpansPrefix(all, |some|);
    assert all[..|some|] == some;
  }

  /** The next read hands over the bytes that follow those already fed. */
  lemma NextRead(before: Feed, file: seq<Byte>, sizes: seq<nat>, k: nat, enc: EncodingParameters, f: Feed, filePos: nat)
    requires k < |sizes| && |before.Bytes()| + Sum(sizes, |sizes|) <= |file|
    requires BlockSpans(Positions(FeedReads(before, file, |before.Bytes()|, sizes, |sizes|), enc).ends)
    requires filePos == |before.Bytes()| + Sum(sizes, k) <= |file|
    requires f == FeedReads(before, file, |before.Bytes()|, sizes, k)
    ensures filePos == |f.Bytes()|
    ensures filePos + sizes[k] == |before.Bytes()| + Sum(sizes, k + 1) <= |file|
    ensures var next := Fed(f, file[filePos..filePos + sizes[k]]);
            BlockSpans(Recognised(next, enc)) && FeedReads(before, file, |before.Bytes()|, sizes, k + 1) == next
  {
    hide *;
    SumGrows(sizes, k + 1, |sizes|);
    FeedReadsStep(before, file, |before.Bytes()|, sizes, k);
    FeedReadsBytes(before, file, |before.Bytes()|, sizes, k);
    PackableOnTheWay(before, file, |before.Bytes()|, sizes, k + 1, enc);
  }

  /** Reads the file in blocks and hands them to the parser, which works through them in order. */
  method ReadFileInBlocks(data: IndexingData, file: seq<Byte>, sizes: seq<nat>, enc: EncodingParameters, ghost before: Feed,
                          start: nat)
    returns (pos: nat)
    requires enc.Valid() && start == |before.Bytes()| && start + Sum(sizes, |sizes|) <= |file|
    requires data.Holds(before, Positions(before, enc))
    requires BlockSpans(Positions(FeedReads(before, file, start, sizes, |sizes|), enc).ends)
    modifies data, data.linePosition, data.linePosition.storage
    ensures data.linePosition == old(data.linePosition)
    ensures UnderWay(data, before, FeedReads(before, file, start, sizes, |sizes|), pos, enc)
  {
    hide *;
    StartRun(data, before, file, start, sizes, enc);
    ghost var f := before;
    pos := start;
    var filePos: nat := start;
    for k := 0 to |sizes|
      invariant data.linePosition == old(data.linePosition)
      invariant filePos == start + Sum(sizes, k) <= |file| && f == FeedReads(before, file, start, sizes, k)
      invariant UnderWay(data, before, f, pos, enc)
    {
      NextRead(before, file, sizes, k, enc, f, filePos);
      var block := file[filePos..filePos + sizes[k]];
      pos := IndexNextBlock(data, before, f, filePos, block, pos, enc);
      f := Fed(f, block);
      filePos := filePos + sizes[k];
    }
  }

  lemma StartRun(data: IndexingData, before: Feed, file: seq<Byte>, start: nat, sizes: seq<nat>, enc: EncodingParameters)
    requires start == |before.Bytes()| && start + Sum(sizes, |sizes|) <= |file| && data.Holds(before, Positions(before, enc))
    ensures Sum(sizes, 0) == 0 && start <= |file| && FeedReads(before, file, start, sizes, 0) == before
    ensures UnderWay(data, before, before, start, enc)
  {
    hide IndexingData.Holds;
  }

  /** What the test for an unterminated last line finds once the whole file was read. */
  ghost predicate WholeFileRead(before: Feed, f: Feed, enc: EncodingParameters, fileSize: nat, pos: nat) {
    var run := RunPositions(before, f, enc);
    Positions(f, enc) == if fileSize > pos then run.AppendList(LinePositionList([fileSize + 1], true)) else run
  }

  lemma AllRead(before: Feed, file: seq<Byte>, sizes: seq<nat>, enc: EncodingParameters, pos: nat)
    requires |before.Bytes()| + Sum(sizes, |sizes|) == |file|
    requires LastSeen(before, RunFeed(before, file, sizes), enc, pos)
    ensures WholeFileRead(before, RunFeed(before, file, sizes), enc, |file|, pos)
  {
    hide RunPositions, Positions, LastSeen, FeedReads;
    FeedReadsBytes(before, file, |before.Bytes()|, sizes, |sizes|);
    assert |RunFeed(before, file, sizes).Bytes()| == |file|;
    FinishRun(before, RunFeed(before, file, sizes), enc, pos);
  }

  method FinishIndex(data: IndexingData, ghost before: Feed, fileSize: nat, pos: nat, interrupt: Interrupt,
                     enc: EncodingParameters)
    requires data.Holds(data.feed, RunPositions(before, data.feed, enc))
    requires interrupt != BeforeFinalLineFeed ==> WholeFileRead(before, data.feed, enc, fileSize, pos)
    requires BlockSpans(Positions(data.feed, enc).ends) || interrupt == BeforeFinalLineFeed
    modifies data, data.linePosition, data.linePosition.storage
    ensures data.linePosition == old(data.linePosition) || (fresh(data.linePosition) && fresh(data.linePosition.storage))
    ensures if Completes(interrupt)
            then data.Holds(old(data.feed), Positions(old(data.feed), enc))
            else data.Holds(Nothing, NoLines)
    ensures interrupt == BeforeFinalLineFeed || interrupt == BeforeClearing ==> data.Holds(Nothing, NoLines)
    ensures interrupt == Never || interrupt == AfterClearing ==> data.Holds(old(data.feed), Positions(old(data.feed), enc))
  {
    hide BlockSpans, Positions, RunPositions;
    var interrupted := interrupt == BeforeFinalLineFeed;
    if !interrupted && fileSize > pos {
      data.AddAll([], LinePositionList([fileSize + 1], true));
    }
    interrupted := interrupted || interrupt == BeforeClearing;
    if interrupted {
      data.Clear();
    }
  }

  /**
   * One indexing run from `initialPosition` on. A file that cannot be opened counts as empty; an
   * interrupted run leaves nothing behind.
   */
  method DoIndex(data: IndexingData, file: Option<seq<Byte>>, initialPosition: nat, sizes: seq<nat>,
                 interrupt: Interrupt, enc: EncodingParameters)
    requires enc.Valid() && initialPosition == |data.feed.Bytes()|
    requires data.Holds(data.feed, Positions(data.feed, enc))
    requires file.Some? ==> ReadSizes(initialPosition, file.value, sizes, interrupt)
    requires file.Some? ==> BlockSpans(Positions(RunFeed(data.feed, file.value, sizes), enc).ends)
    modifies data, data.linePosition, data.linePosition.storage
    ensures data.linePosition == old(data.linePosition) || (fresh(data.linePosition) && fresh(data.linePosition.storage))
    ensures var f := AfterRun(old(data.feed), file, sizes, interrupt); data.Holds(f, Positions(f, enc))
    ensures file.None? || interrupt == BeforeFinalLineFeed || interrupt == BeforeClearing ==> data.Holds(Nothing, NoLines)
    ensures file.Some? && (interrupt == Never || interrupt == AfterClearing) ==>
              var f := RunFeed(old(data.feed), file.value, sizes); data.Holds(f, Positions(f, enc))
  {
    NothingIndexed(enc);
    hide BlockSpans, Positions, Recognised, LastSeen;
    if file.None? {
      data.Clear();
      return;
    }
    ghost var before := data.feed;
    var pos := initialPosition;
    if initialPosition <= |file.value| {
      pos := ReadFileInBlocks(data, file.value, sizes, enc, before, initialPosition);
      if interrupt != BeforeFinalLineFeed {
        AllRead(before, file.value, sizes, enc, pos);
      }
    }
    FinishIndex(data, before, |file.value|, pos, interrupt, enc);
  }

  lemma RunFeedBytes(before: Feed, file: seq<Byte>, sizes: seq<nat>)
    requires |before.Bytes()| <= |file| ==> |before.Bytes()| + Sum(sizes, |sizes|) == |file|
    ensures RunFeed(before, file, sizes).Bytes()
            == before.Bytes() + if |before.Bytes()| <= |file| then file[|before.Bytes()|..] else []
  {
    hide FeedReads;
    if |before.Bytes()| <= |file| {
      FeedReadsBytes(before, file, |before.Bytes()|, sizes, |sizes|);
    }
  }

  /** Indexes the whole file anew. */
  method FullIndexOperation(data: IndexingData, file: Option<seq<Byte>>, sizes: seq<nat>, interrupt: Interrupt,
                            enc: EncodingParameters)
    returns (result: bool)
    requires enc.Valid()
    requires file.Some? ==> ReadSizes(0, file.value, sizes, interrupt)
    requires file.Some? ==> BlockSpans(Positions(RunFeed(Nothing, file.value, sizes), enc).ends)
    modifies data
    ensures fresh(data.linePosition) && fresh(data.linePosition.storage)
    ensures result <==> interrupt == Never
    ensures var f := AfterRun(Nothing, file, sizes, interrupt); data.Holds(f, Positions(f, enc))
    ensures file.None? || interrupt == BeforeFinalLineFeed || interrupt == BeforeClearing ==> data.Holds(Nothing, NoLines)
    ensures file.Some? && (interrupt == Never || interrupt == AfterClearing) ==>
              var f := RunFeed(Nothing, file.value, sizes); data.Holds(f, Positions(f, enc))
  {
    hide BlockSpans, Recognised, FeedReads, Sum, AfterRun;
    data.Clear();
    NothingIndexed(enc);
    DoIndex(data, file, 0, sizes, interrupt, enc);
    result := interrupt == Never;
  }

  lemma NothingIndexed(enc: EncodingParameters)
    ensures Positions(Nothing, enc) == NoLines && Nothing.Bytes() == []
  {
  }

  /** Indexes what lies behind the indexed bytes. */
  method PartialIndexOperation(data: IndexingData, file: Option<seq<Byte>>, sizes: seq<nat>, interrupt: Interrupt,
                               enc: EncodingParameters)
    returns (result: bool)
    requires enc.Valid() && data.Holds(data.feed, Positions(data.feed, enc))
    requires file.Some? ==> ReadSizes(|data.feed.Bytes()|, file.value, sizes, interrupt)
    requires file.Some? ==> BlockSpans(Positions(RunFeed(data.feed, file.value, sizes), enc).ends)
    modifies data, data.linePosition, data.linePosition.storage
    ensures data.linePosition == old(data.linePosition) || (fresh(data.linePosition) && fresh(data.linePosition.storage))
    ensures result <==> interrupt == Never
    ensures var f := AfterRun(old(data.feed), file, sizes, interrupt); data.Holds(f, Positions(f, enc))
    ensures file.None? || interrupt == BeforeFinalLineFeed || interrupt == BeforeClearing ==> data.Holds(Nothing, NoLines)
    ensures file.Some? && (interrupt == Never || interrupt == AfterClearing) ==>
              var f := RunFeed(old(data.feed), file.value, sizes); data.Holds(f, Positions(f, enc))
  {
    hide BlockSpans, Recognised, FeedReads, Sum, AfterRun;
    DoIndex(data, file, data.hashSize, sizes, interrupt, enc);
    result := interrupt == Never;
  }

  /**
   * A run keeps what was indexed and adds the rest of the file; from nothing it takes in the whole
   * file. Interrupted before the index would be cleared, it leaves nothing; later it is complete.
   */
  lemma AfterRunBytes(before: Feed, file: Option<seq<Byte>>, sizes: seq<nat>, interrupt: Interrupt)
    requires file.Some? ==> ReadSizes(|before.Bytes()|, file.value, sizes, interrupt)
    ensures var indexed := before.Bytes();
            AfterRun(before, file, sizes, interrupt).Bytes()
            == if file.None? || interrupt == BeforeFinalLineFeed || interrupt == BeforeClearing then []
               else indexed + if |indexed| <= |file.value| then file.value[|indexed|..] else []
  {
    hide RunFeed;
    if file.Some? && Completes(interrupt) {
      RunFeedBytes(before, file.value, sizes);
    }
  }

  const INDEXING_BLOCK_SIZE: nat := 5 * 1024 * 1024

  /** The digest of the first `indexedSize` bytes, or of the whole file if it is shorter. */
  method GetDigest(file: seq<Byte>, indexedSize: nat) returns (digest: Digest)
    ensures digest == DigestOf(file[..Min(indexedSize, |file|)])
  {
    var fileDigest: seq<Byte> := [];
    var readSize: nat, totalSize: nat := 1, 0;
    while readSize > 0 && totalSize < indexedSize
      invariant totalSize <= |file| && totalSize <= indexedSize && fileDigest == file[..totalSize]
      invariant readSize == 0 ==> totalSize == Min(indexedSize, |file|)
      decreases readSize > 0, indexedSize - totalSize
    {
      var bytesToRead := Min(INDEXING_BLOCK_SIZE, indexedSize - totalSize);
      readSize := Min(bytesToRead, |file| - totalSize);
      fileDigest := fileDigest + file[totalSize..totalSize + readSize];
      totalSize := totalSize + readSize;
    }
    digest := DigestOf(fileDigest);
  }

  method CheckFileChangesOperation(data: IndexingData, file: Option<seq<Byte>>) returns (status: MonitoredFileStatus)
    requires data.Valid()
    ensures status == CheckStatus(data.feed.Bytes(), file)
  {
    if file.None? || |file.value| == 0 || |file.value| < data.hashSize {
      return Truncated;
    }
    var realHashDigest := GetDigest(file.value, data.hashSize);
    if realHashDigest != data.fullDigest {
      return Truncated;
    } else if |file.value| > data.hashSize {
      return DataAdded;
    } else {
      return Unchanged;
    }
  }
}
