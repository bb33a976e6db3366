/** The index that a sequence of reads must produce, and the reference index of a byte string. */
module LineIndex {
  import opened Bytes
  import opened LineFeeds
  import opened LinePositions

  /** An ideal digest: it tells any two byte strings apart. A cleared index has none. */
  datatype Digest = NoDigest | DigestOf(bytes: seq<Byte>)

  function IndexedDigest(bytes: seq<Byte>): Digest {
    if bytes == [] then NoDigest else DigestOf(bytes)
  }

  datatype MonitoredFileStatus = Unchanged | DataAdded | Truncated

  /** What comparing the file with the indexed bytes reports. */
  function CheckStatus(indexed: seq<Byte>, file: Option<seq<Byte>>): MonitoredFileStatus {
    if file.None? || |file.value| == 0 || |file.value| < |indexed| then Truncated
    else if DigestOf(file.value[..|indexed|]) != IndexedDigest(indexed) then Truncated
    else if |file.value| > |indexed| then DataAdded
    else Unchanged
  }

  /**
   * With the full digest, "data added" means that the indexed bytes are a proper prefix of the
   * file, "unchanged" that they are the file. An index of no bytes never reports either: the
   * digest of a cleared index is not that of the empty string.
   */
  lemma CheckMeaning(indexed: seq<Byte>, file: Option<seq<Byte>>)
    ensures CheckStatus(indexed, file) == DataAdded <==> indexed != [] && file.Some? && indexed < file.value
    ensures CheckStatus(indexed, file) == Unchanged <==> indexed != [] && file == Some(indexed)
  {
    if file.Some? && |indexed| <= |file.value| {
      assert indexed < file.value <==> file.value[..|indexed|] == indexed && |indexed| < |file.value|;
      assert |indexed| == |file.value| ==> file.value[..|indexed|] == file.value;
    }
  }

  /** A file that was empty when it was indexed is reported as truncated when a byte is added, and when nothing changed. */
  lemma EmptyIndexReportsTruncated()
    ensures CheckStatus([], Some([65])) == Truncated && CheckStatus([], Some([])) == Truncated
  {
    var file: seq<Byte> := [65];
    assert file[..0] == [];
  }

  /** The last line of what was read ends with a recognised line feed. */
  predicate Terminated(feed: Feed, enc: EncodingParameters) {
    var rec := Recognised(feed, enc);
    feed.Bytes() == [] || (rec != [] && rec[|rec| - 1] == |feed.Bytes()|)
  }

  /** The recognised line ends, plus a fake one behind an unterminated last line. */
  function Positions(feed: Feed, enc: EncodingParameters): LinePositionList {
    if Terminated(feed, enc) then LinePositionList(Recognised(feed, enc), false)
    else LinePositionList(Recognised(feed, enc) + [|feed.Bytes()| + 1], true)
  }

  /** Reference: offset + 1 of every LF in order, plus size + 1 for an unterminated last line. */
  function ReferenceIndex(bytes: seq<Byte>): LinePositionList {
    if bytes == [] || bytes[|bytes| - 1] == LF then LinePositionList(AllEnds(bytes, SingleByte), false)
    else LinePositionList(AllEnds(bytes, SingleByte) + [|bytes| + 1], true)
  }

  lemma {:induction false} RecognisedIncrease(feed: Feed, enc: EncodingParameters)
    requires enc.Valid()
    ensures Increasing(Recognised(feed, enc))
    ensures forall k :: 0 <= k < |Recognised(feed, enc)| ==> Recognised(feed, enc)[k] <= |feed.Bytes()|
  {
    hide Ends;
    if feed.Read? {
      RecognisedIncrease(feed.earlier, enc);
      EndsIncrease(feed.block, 0, |feed.block|, |feed.earlier.Bytes()|, enc);
    }
  }

  lemma LastEnd(s: seq<Byte>)
    requires s != []
    ensures var r := AllEnds(s, SingleByte);
            (r != [] && r[|r| - 1] == |s|) <==> s[|s| - 1] == LF
  {
    EndsIncrease(s, 0, |s| - 1, 0, SingleByte);
    assert EndsLine(s, 0, |s|, SingleByte) <==> s[|s| - 1] == LF;
  }

  /** With one-byte line feeds the index depends on the bytes only, not on how they were read. */
  lemma SingleByteIndex(feed: Feed)
    ensures Positions(feed, SingleByte) == ReferenceIndex(feed.Bytes())
  {
    hide Recognised, Ends;
    SingleByteIsCutFree(feed);
    BlockwiseIsExact(feed, SingleByte);
    if feed.Bytes() != [] {
      LastEnd(feed.Bytes());
    } else {
      EmptyHasNoEnds(SingleByte);
    }
  }

  /** `e` is in the reference index exactly when a LF lies right before it, or it is the fake end. */
  lemma ReferenceIndexMeaning(bytes: seq<Byte>, e: int)
    ensures Increasing(ReferenceIndex(bytes).ends)
    ensures e in ReferenceIndex(bytes).ends <==>
              || (0 < e <= |bytes| && bytes[e - 1] == 10)
              || (e == |bytes| + 1 && bytes != [] && bytes[|bytes| - 1] != 10)
  {
    hide Ends;
    EndsMembers(bytes, 0, |bytes|, 0, SingleByte, e);
    EndsIncrease(bytes, 0, |bytes|, 0, SingleByte);
    if 0 < e <= |bytes| {
      assert EndsLine(bytes, 0, e, SingleByte) <==> bytes[e - 1] == LF;
    }
  }

  // ---------- one indexing run ----------

  function Sum(sizes: seq<nat>, k: nat): nat
    requires k <= |sizes|
  {
    if k == 0 then 0 else Sum(sizes, k - 1) + sizes[k - 1]
  }

  lemma {:induction false} SumGrows(sizes: seq<nat>, j: nat, k: nat)
    requires j <= k <= |sizes|
    ensures Sum(sizes, j) <= Sum(sizes, k)
  {
    if j < k {
      SumGrows(sizes, j, k - 1);
    }
  }

  /** One more block; a read that returns nothing adds nothing. */
  function Fed(feed: Feed, block: seq<Byte>): Feed {
    if block == [] then feed else Read(feed, block)
  }

  /** What has been fed after `k` reads of the given sizes, starting at offset `start` of the file. */
  function FeedReads(feed: Feed, file: seq<Byte>, start: nat, sizes: seq<nat>, k: nat): Feed
    requires k <= |sizes| && start + Sum(sizes, k) <= |file|
  {
    if k == 0 then feed
    else
      var f := FeedReads(feed, file, start, sizes, k - 1);
      var p := start + Sum(sizes, k - 1);
      Fed(f, file[p..p + sizes[k - 1]])
  }

  lemma FeedReadsStep(feed: Feed, file: seq<Byte>, start: nat, sizes: seq<nat>, k: nat)
    requires k < |sizes| && start + Sum(sizes, k + 1) <= |file|
    ensures var p := start + Sum(sizes, k);
            && Sum(sizes, k + 1) == Sum(sizes, k) + sizes[k]
            && FeedReads(feed, file, start, sizes, k + 1)
               == Fed(FeedReads(feed, file, start, sizes, k), file[p..p + sizes[k]])
  {
    hide Fed;
  }

  lemma {:induction false} FeedReadsBytes(feed: Feed, file: seq<Byte>, start: nat, sizes: seq<nat>, k: nat)
    requires k <= |sizes| && start + Sum(sizes, k) <= |file|
    ensures FeedReads(feed, file, start, sizes, k).Bytes() == feed.Bytes() + file[start..start + Sum(sizes, k)]
  {
    if k > 0 {
      FeedReadsBytes(feed, file, start, sizes, k - 1);
      var p := start + Sum(sizes, k - 1);
      JoinSlices(file, start, p, p + sizes[k - 1]);
    }
  }

  /** The list while a run is under way: the fake end is gone as soon as a block was added. */
  function RunPositions(before: Feed, feed: Feed, enc: EncodingParameters): LinePositionList {
    if feed == before then Positions(before, enc) else LinePositionList(Recognised(feed, enc), false)
  }

  /** `pos` is the end of the last line that the run has seen. */
  ghost predicate LastSeen(before: Feed, feed: Feed, enc: EncodingParameters, pos: nat) {
    && |before.Bytes()| <= pos <= |feed.Bytes()|
    && (feed != before ==> (pos == |feed.Bytes()| <==> Terminated(feed, enc)))
  }

  /** Adding one parsed block extends the list by its line ends, whether or not the fake end is still there. */
  lemma AddBlock(before: Feed, feed: Feed, block: seq<Byte>, enc: EncodingParameters)
    requires block != [] && |before.Bytes()| <= |feed.Bytes()|
    ensures var found := Ends(block, 0, |block|, |feed.Bytes()|, enc);
            RunPositions(before, feed, enc).AppendList(LinePositionList(found, false))
            == RunPositions(before, Read(feed, block), enc)
            == LinePositionList(Recognised(Read(feed, block), enc), false)
  {
    hide Ends, Terminated;
    assert |Read(feed, block).Bytes()| == |feed.Bytes()| + |block| > |before.Bytes()|;
    var rec := Recognised(feed, enc);
    assert (rec + [|feed.Bytes()| + 1])[..|rec|] == rec;
    assert RunPositions(before, feed, enc).WithoutFake() == rec;
  }

  /** The end of the last line seen follows the added block. */
  lemma SeeBlock(before: Feed, feed: Feed, block: seq<Byte>, enc: EncodingParameters, pos: nat, newPos: nat)
    requires enc.Valid() && block != [] && LastSeen(before, feed, enc, pos)
    requires var found := Ends(block, 0, |block|, |feed.Bytes()|, enc);
             newPos == if found == [] then pos else found[|found| - 1]
    ensures LastSeen(before, Read(feed, block), enc, newPos)
  {
    var next := Read(feed, block);
    var rec, found := Recognised(feed, enc), Ends(block, 0, |block|, |feed.Bytes()|, enc);
    RecognisedIncrease(feed, enc);
    EndsIncrease(block, 0, |block|, |feed.Bytes()|, enc);
    LastOfBoth(rec, found, |feed.Bytes()|);
    assert |next.Bytes()| == |feed.Bytes()| + |block| && Recognised(next, enc) == rec + found;
    hide Ends, Recognised, Increasing, EndsLine;
  }

  lemma LastOfBoth(rec: seq<nat>, found: seq<nat>, size: nat)
    requires forall k :: 0 <= k < |rec| ==> rec[k] <= size
    ensures rec + found != [] && found == [] ==> (rec + found)[|rec + found| - 1] <= size
    ensures found != [] ==> (rec + found)[|rec + found| - 1] == found[|found| - 1]
  {
  }

  /** Closing an unterminated last line completes the run. */
  lemma FinishRun(before: Feed, feed: Feed, enc: EncodingParameters, pos: nat)
    requires LastSeen(before, feed, enc, pos)
    ensures pos < |feed.Bytes()| ==> feed != before
    ensures var run := RunPositions(before, feed, enc);
            Positions(feed, enc)
            == if pos < |feed.Bytes()| then run.AppendList(LinePositionList([|feed.Bytes()| + 1], true)) else run
  {
    hide Recognised;
  }
}
