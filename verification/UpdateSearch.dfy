/**
 * A search that is continued each time the file has grown (`logfiltereddataworker.cpp`): it starts
 * again at the last line it has seen, because that line may have been unterminated.
 */
module UpdateSearch {
  import opened Bytes
  import opened LineFeeds
  import opened LineIndex
  import opened LineFilter
  import opened LinePositions
  import opened ParallelSearch
  import opened RawLines

  // ---------- the lines of a growing file ----------

  function Lines(bytes: seq<Byte>): nat {
    |ReferenceIndex(bytes).ends|
  }

  /** The line feeds of a prefix are the first line feeds of the whole. */
  lemma EndsOfGrown(bytes: seq<Byte>, more: seq<Byte>)
    ensures AllEnds(bytes, SingleByte) <= AllEnds(bytes + more, SingleByte)
  {
    hide Ends, EndsLine;
    SplitEnds(bytes + more, |bytes|, |bytes + more|, SingleByte);
    EndsOfPrefix(bytes, more, 0, |bytes|, 0, SingleByte);
    var a, b := Ends(bytes + more, 0, |bytes|, 0, SingleByte), CutEnds(bytes + more, |bytes|, |bytes + more|, SingleByte);
    assert a <= a + b + Ends(bytes + more, |bytes|, |bytes + more|, 0, SingleByte);
  }

  /** Growing keeps the ends of the terminated lines, and the number of lines does not fall. */
  lemma IndexOfGrown(bytes: seq<Byte>, grown: seq<Byte>)
    requires bytes <= grown
    ensures Lines(bytes) <= Lines(grown)
    ensures forall k :: 0 <= k < Lines(bytes) && ReferenceIndex(bytes).ends[k] <= |bytes| ==>
              ReferenceIndex(grown).ends[k] == ReferenceIndex(bytes).ends[k]
  {
    var more := grown[|bytes|..];
    assert grown == bytes + more;
    EndsOfGrown(bytes, more);
    if bytes != [] {
      LastEnd(bytes);
      LastEnd(grown);
      EndsIncrease(bytes, 0, |bytes|, 0, SingleByte);
    }
    hide Ends;
  }

  /** The search sees a terminated line of the file the same way after the file has grown. */
  lemma SameLine(bytes: seq<Byte>, disk: seq<Byte>, grown: seq<Byte>, grownDisk: seq<Byte>, k: nat)
    requires bytes <= grown && k < Lines(bytes) && ReferenceIndex(bytes).ends[k] <= |bytes|
    ensures k < Lines(grown) && SearchLine(grown, grownDisk, k) == SearchLine(bytes, disk, k)
  {
    IndexOfGrown(bytes, grown);
    LineShape(bytes, k);
    if k > 0 {
      LineShape(bytes, k - 1);
    }
    hide ReferenceIndex, NextByte;
    assert StartOf(ReferenceIndex(bytes).ends, k) == StartOf(ReferenceIndex(grown).ends, k);
    var a, b := StartOf(ReferenceIndex(bytes).ends, k), ReferenceIndex(bytes).ends[k];
    assert bytes[a..b - 1] == grown[a..b - 1];
  }

  // ---------- a search and its updates ----------

  /** The file at the time of a search: its indexed bytes, all its bytes, and the line to stop at. */
  datatype Snapshot = Snapshot(bytes: seq<Byte>, disk: seq<Byte>, endLine: nat) {
    function End(): nat {
      Min(Lines(bytes), endLine)
    }

    /** The drawn length of a line, as the search sees it. */
    function Length(k: nat): nat {
      if k < Lines(bytes) then LengthOf(SearchLine(bytes, disk, k)) else 0
    }

    predicate Hit(matcher: Matcher, k: nat) {
      LineHit(matcher, bytes, disk, k)
    }
  }

  datatype Settings = Settings(matcher: Matcher, startLine: nat, nbLinesInChunk: nat, matchingThreadsCount: nat)

  function Request(c: Settings, snap: Snapshot, initialLine: nat, totals: SearchTotals, client: set<nat>): Search {
    Search((k: nat) => snap.Hit(c.matcher, k), (k: nat) => snap.Length(k), Max(initialLine, c.startLine), snap.End(),
           c.nbLinesInChunk, c.matchingThreadsCount, totals, client)
  }

  lemma LongestIsUnique(p: Search, lines: set<nat>, m: nat, n: nat)
    requires IsLongest(p, lines, m) && IsLongest(p, lines, n)
    ensures m == n
  {
  }

  /** What a block of the flow graph yields when a matcher searches it is what `FilterLines` finds in its lines. */
  lemma FilteredIsHits(c: Settings, snap: Snapshot, p: Search, chunk: Block, raw: RawLines, results: PartialSearchResults)
    requires snap.bytes <= snap.disk && chunk.number >= 1 && chunk.End() <= Lines(snap.bytes)
    requires (forall k :: p.hit(k) == snap.Hit(c.matcher, k)) && (forall k :: p.length(k) == snap.Length(k))
    requires HoldsLines(raw, ReferenceIndex(snap.bytes).ends, snap.disk, chunk.chunkStart, chunk.number)
    requires Filtered(c.matcher, View(raw), chunk.chunkStart, |View(raw)|, results.matchingLines, results.maxLength)
    ensures results.matchingLines == p.Hits(chunk) && results.maxLength == p.LongestHit(chunk, chunk.number)
  {
    hide Filtered, View, HoldsLines, SplitLines, RawBytes, ReferenceIndex, SearchLine, LengthOf, LineHit, IsLongest;
    hide Snapshot.Hit, Snapshot.Length, Search.LongestHit;
    var first := chunk.chunkStart;
    forall k: nat ensures k in results.matchingLines <==> k in p.Hits(chunk) {
      FilterNamesTheRightLines(c.matcher, snap.bytes, snap.disk, raw, first, chunk.number, results, k);
      HitIsLineHit(c, snap, k);
    }
    SplitIsIndexed(snap.bytes, snap.disk, first, chunk.number);
    LongestOfView(c, snap, p, chunk, raw, results);
    LongestOfBlock(p, chunk, chunk.number);
    assert Block(first, chunk.number) == chunk && results.matchingLines == p.Hits(chunk);
    hide *;
    LongestIsUnique(p, p.Hits(chunk), results.maxLength, p.LongestHit(chunk, chunk.number));
  }

  lemma HitIsLineHit(c: Settings, snap: Snapshot, k: nat)
    ensures snap.Hit(c.matcher, k) == LineHit(c.matcher, snap.bytes, snap.disk, k)
  {
  }

  lemma LongestOfView(c: Settings, snap: Snapshot, p: Search, chunk: Block, raw: RawLines, results: PartialSearchResults)
    requires chunk.number >= 1 && chunk.End() <= Lines(snap.bytes)
    requires forall k :: p.length(k) == snap.Length(k)
    requires HoldsLines(raw, ReferenceIndex(snap.bytes).ends, snap.disk, chunk.chunkStart, chunk.number)
    requires var split := SplitLines(RawBytes(ReferenceIndex(snap.bytes).ends, snap.disk, chunk.chunkStart, chunk.number));
             && |split| == chunk.number
             && forall j :: 0 <= j < chunk.number ==> split[j] == SearchLine(snap.bytes, snap.disk, chunk.chunkStart + j)
    requires Filtered(c.matcher, View(raw), chunk.chunkStart, |View(raw)|, results.matchingLines, results.maxLength)
    ensures IsLongest(p, results.matchingLines, results.maxLength)
  {
    hide RawBytes, SplitLines, ReferenceIndex, SearchLine, LengthOf;
    var view, first := View(raw), chunk.chunkStart;
    assert view == SplitLines(raw.buffer);
    forall k | k in results.matchingLines ensures p.length(k) <= results.maxLength {
      assert c.matcher(view[k - first]);
      assert p.length(k) == LengthOf(SearchLine(snap.bytes, snap.disk, first + (k - first)));
    }
    if results.maxLength != 0 {
      var j :| 0 <= j < |view| && c.matcher(view[j]) && LengthOf(view[j]) == results.maxLength;
      assert first + j in results.matchingLines && p.length(first + j) == results.maxLength;
    }
  }

  /** Reading a chunk along the stored index and searching it gives exactly the hits of its block. */
  method SearchChunk(c: Settings, ghost snap: Snapshot, disk: seq<Byte>, lines: LinePositionArray, chunk: Block)
    returns (results: PartialSearchResults)
    requires lines.Valid() && lines.View() == ReferenceIndex(snap.bytes)
    requires snap.bytes <= snap.disk == disk && chunk.number >= 1 && chunk.End() <= Lines(snap.bytes)
    ensures results.chunkStart == chunk.chunkStart && results.processedLines == chunk.number
    ensures forall p: Search :: (forall k :: p.hit(k) == snap.Hit(c.matcher, k)) && (forall k :: p.length(k) == snap.Length(k)) ==>
              results.matchingLines == p.Hits(chunk) && results.maxLength == p.LongestHit(chunk, chunk.number)
  {
    IndexIncreases(snap.bytes);
    var raw := GetLinesRaw(lines, disk, chunk.chunkStart, chunk.number);
    results := FilterLines(c.matcher, raw, chunk.chunkStart);
    hide Filtered, ReferenceIndex, View, Snapshot.Hit, Snapshot.Length, Search.Hits, Search.LongestHit, RawBytes;
    forall p: Search | (forall k :: p.hit(k) == snap.Hit(c.matcher, k)) && (forall k :: p.length(k) == snap.Length(k))
      ensures results.matchingLines == p.Hits(chunk) && results.maxLength == p.LongestHit(chunk, chunk.number)
    {
      FilteredIsHits(c, snap, p, chunk, raw, results);
    }
  }

  /** Where an update starts: at the last line that was processed, or at the client's position. */
  function UpdateInitialLine(lastProcessedLine: nat, initialPosition: nat): nat {
    var line := Max(lastProcessedLine, initialPosition);
    if line >= 1 then line - 1 else line
  }

  /** A full search, or an update after earlier searches; each with its run and its last state. */
  datatype Searches =
    | Full(snap: Snapshot, steps: seq<Step>, state: State)
    | Update(earlier: Searches, initialPosition: nat, snap: Snapshot, steps: seq<Step>, state: State)
  {
    function Search(c: Settings): Search {
      if Full? then Request(c, snap, 0, Cleared, {})
      else Request(c, snap, UpdateInitialLine(earlier.state.totals.nbLinesProcessed, initialPosition),
                   earlier.state.totals, earlier.state.client)
    }
  }

  /** Every search ran to its end uninterrupted, on a file that only grew in between. */
  ghost predicate Complete(c: Settings, h: Searches) {
    && c.nbLinesInChunk >= 1 && c.matchingThreadsCount >= 1
    && h.snap.bytes <= h.snap.disk
    && Reaches(h.Search(c), h.steps, h.state) && Finished(h.Search(c), h.state) && !h.state.interruptRequested
    && (h.Update? ==>
          && Complete(c, h.earlier)
          && h.earlier.snap.bytes <= h.snap.bytes && h.earlier.snap.endLine <= h.snap.endLine
          && h.initialPosition <= h.earlier.state.totals.nbLinesProcessed)
  }

  /** Line `k` was the last line of an earlier search and matched as it stood then. */
  predicate MatchedBefore(c: Settings, h: Searches, k: nat) {
    h.Update? && ((h.earlier.snap.End() == k + 1 && h.earlier.snap.Hit(c.matcher, k)) || MatchedBefore(c, h.earlier, k))
  }

  /** What one full search of the snapshot finds: the matching lines of the file in the range asked for. */
  ghost predicate FullMatch(c: Settings, snap: Snapshot, k: nat) {
    c.startLine <= k < snap.endLine && LineHit(c.matcher, snap.bytes, snap.disk, k)
  }

  ghost predicate Found(c: Settings, h: Searches) {
    && h.state.totals.nbLinesProcessed == (if c.startLine < h.snap.End() then h.snap.End() else 0)
    && forall k :: k in h.state.Matches() <==>
         c.startLine <= k < h.snap.End() && (h.snap.Hit(c.matcher, k) || MatchedBefore(c, h, k))
  }

  lemma EndGrows(h: Searches)
    requires h.Update? && h.earlier.snap.bytes <= h.snap.bytes && h.earlier.snap.endLine <= h.snap.endLine
    ensures h.earlier.snap.End() <= h.snap.End()
  {
    IndexOfGrown(h.earlier.snap.bytes, h.snap.bytes);
  }

  lemma {:induction false} MatchedBeforeIsOld(c: Settings, h: Searches, k: nat)
    requires Complete(c, h) && MatchedBefore(c, h, k)
    ensures h.Update? && k < h.earlier.snap.End()
  {
    if MatchedBefore(c, h.earlier, k) {
      MatchedBeforeIsOld(c, h.earlier, k);
      EndGrows(h.earlier);
    }
  }

  /** All lines before the last one searched were terminated, so they still match or not as before. */
  lemma OldLineHit(c: Settings, h: Searches, k: nat)
    requires h.Update? && h.earlier.snap.bytes <= h.snap.bytes && k + 1 < h.earlier.snap.End()
    ensures h.snap.Hit(c.matcher, k) == h.earlier.snap.Hit(c.matcher, k)
  {
    var was, now := h.earlier.snap, h.snap;
    LineShape(was.bytes, k);
    SameLine(was.bytes, was.disk, now.bytes, now.disk, k);
  }

  /** The lines that the last search of the history went through. */
  ghost predicate Searched(c: Settings, h: Searches, k: nat) {
    Max(if h.Full? then 0 else UpdateInitialLine(h.earlier.state.totals.nbLinesProcessed, h.initialPosition), c.startLine)
    <= k < h.snap.End()
  }

  lemma LastRun(c: Settings, h: Searches)
    requires Complete(c, h)
    ensures var before := if h.Full? then {} else h.earlier.state.Matches();
            forall k :: k in h.state.Matches() <==> k in before || (Searched(c, h, k) && h.snap.Hit(c.matcher, k))
    ensures var processed := if h.Full? then 0 else h.earlier.state.totals.nbLinesProcessed;
            h.state.totals.nbLinesProcessed
            == if h.Search(c).initialLine < h.snap.End() then Max(processed, h.snap.End()) else processed
  {
    hide Reaches, Finished, Snapshot.Hit, Snapshot.End;
    FinishedSearchFinds(h.Search(c), h.steps, h.state);
  }

  lemma {:induction false} SearchesFind(c: Settings, h: Searches)
    requires Complete(c, h)
    ensures Found(c, h)
  {
    hide Reaches, Finished, Snapshot.Hit, Snapshot.End, State.Matches;
    LastRun(c, h);
    if h.Update? {
      SearchesFind(c, h.earlier);
      EndGrows(h);
      forall k: nat ensures k in h.state.Matches() <==>
          c.startLine <= k < h.snap.End() && (h.snap.Hit(c.matcher, k) || MatchedBefore(c, h, k))
      {
        if MatchedBefore(c, h.earlier, k) {
          MatchedBeforeIsOld(c, h.earlier, k);
          EndGrows(h.earlier);
        }
        if k + 1 < h.earlier.snap.End() {
          OldLineHit(c, h, k);
        }
      }
    }
  }

  lemma FullMatchIs(c: Settings, snap: Snapshot, k: nat)
    ensures FullMatch(c, snap, k) <==> c.startLine <= k < snap.End() && snap.Hit(c.matcher, k)
  {
    hide ReferenceIndex, SearchLine;
  }

  /**
   * A search keeps to the lines that the file has and to the range asked for, also when it is
   * continued, and does not claim to have gone further; a single full search finds exactly the
   * matching lines among them.
   */
  lemma SearchKeepsToItsRange(c: Settings, h: Searches)
    requires Complete(c, h)
    ensures forall k :: k in h.state.Matches() ==>
              c.startLine <= k < h.snap.endLine && k < |ReferenceIndex(h.snap.bytes).ends|
    ensures h.Full? ==> forall k: nat :: k in h.state.Matches() <==>
              c.startLine <= k < h.snap.endLine && LineHit(c.matcher, h.snap.bytes, h.snap.disk, k)
    ensures h.state.totals.nbLinesProcessed <= h.snap.endLine
    ensures h.state.totals.nbLinesProcessed <= |ReferenceIndex(h.snap.bytes).ends|
  {
    SearchesFind(c, h);
    assert h.snap.End() <= h.snap.endLine && h.snap.End() <= |ReferenceIndex(h.snap.bytes).ends|;
    hide Snapshot.Hit, Snapshot.End, State.Matches, MatchedBefore, LineHit, ReferenceIndex;
    if h.Full? {
      forall k: nat ensures k in h.state.Matches() <==>
          c.startLine <= k < h.snap.endLine && LineHit(c.matcher, h.snap.bytes, h.snap.disk, k)
      {
        FullMatchIs(c, h.snap, k);
        assert !MatchedBefore(c, h, k) by { NeverBefore(c, h, k); }
      }
    }
  }

  lemma NeverBefore(c: Settings, h: Searches, k: nat)
    requires h.Full?
    ensures !MatchedBefore(c, h, k)
  {
  }

  /**
   * A search and any number of updates find everything that one full search of the final file
   * finds, and nothing else exactly when no last line that matched unterminated has stopped matching.
   */
  lemma UpdatesAgreeWithFullSearch(c: Settings, h: Searches)
    requires Complete(c, h)
    ensures forall k :: FullMatch(c, h.snap, k) ==> k in h.state.Matches()
    ensures (forall k :: k in h.state.Matches() ==> FullMatch(c, h.snap, k))
            <==> (forall k :: c.startLine <= k && MatchedBefore(c, h, k) ==> h.snap.Hit(c.matcher, k))
  {
    hide Snapshot.Hit, Snapshot.End, State.Matches, MatchedBefore;
    SearchesFind(c, h);
    forall k: nat ensures FullMatch(c, h.snap, k) <==> c.startLine <= k < h.snap.End() && h.snap.Hit(c.matcher, k) {
      FullMatchIs(c, h.snap, k);
    }
    forall k: nat | MatchedBefore(c, h, k) ensures k < h.snap.End() {
      MatchedBeforeIsOld(c, h, k);
      EndGrows(h);
    }
    hide FullMatch;
  }

  /** The condition is needed: a line without a 'b' that grows by one stays in the results of a search that excludes 'b'. */
  lemma StaleMatch() returns (c: Settings, h: Searches)
    ensures Complete(c, h)
    ensures 0 in h.state.Matches() && !FullMatch(c, h.snap, 0)
  {
    var a: seq<Byte>, ab: seq<Byte> := [97], [97, 98];
    c := Settings((line: seq<Byte>) => 98 !in line, 0, 1, 1);
    var first, second := Snapshot(a, a, 1), Snapshot(ab, ab, 1);
    OneLine(a);
    OneLine(ab);
    assert SearchLine(a, a, 0) == [97, 0] && SearchLine(ab, ab, 0) == [97, 98, 0];
    var steps, state := RunToEnd(Request(c, first, 0, Cleared, {}), [], Start(Request(c, first, 0, Cleared, {})));
    var full := Full(first, steps, state);
    SearchesFind(c, full);
    var request := Request(c, second, UpdateInitialLine(1, 0), state.totals, state.client);
    var steps2, state2 := RunToEnd(request, [], Start(request));
    h := Update(full, 0, second, steps2, state2);
    SearchesFind(c, h);
    assert MatchedBefore(c, h, 0);
  }

  lemma OneLine(bytes: seq<Byte>)
    requires bytes != [] && LF !in bytes
    ensures ReferenceIndex(bytes).ends == [|bytes| + 1]
  {
    var r := AllEnds(bytes, SingleByte);
    assert r != [] ==> r[0] in r;
    forall e ensures e !in r {
      EndsMembers(bytes, 0, |bytes|, 0, SingleByte, e);
      if 1 <= e <= |bytes| {
        assert bytes[e - 1] != LF;
      }
    }
  }
}
