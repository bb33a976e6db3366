/**
 * Searching one chunk of lines, and the results that a search shares with its client
 * (`logfiltereddataworker.cpp`).
 */
module LineFilter {
  import opened Bytes
  import opened LineIndex
  import opened RawLines
  import opened TabExpansion

  type Matcher = seq<Byte> -> bool

  datatype PartialSearchResults =
    PartialSearchResults(chunkStart: nat, matchingLines: set<nat>, maxLength: nat, processedLines: nat)

  /** The lines that the search takes from a chunk. */
  function View(raw: RawLines): seq<seq<Byte>> {
    if raw.endOfLines == [] then [] else SplitLines(raw.buffer)
  }

  /** Drawn length of a line. */
  function LengthOf(line: seq<Byte>): nat {
    |Expand(line, 0)|
  }

  /** What searching the first `n` lines of the view must have found. */
  ghost predicate Filtered(matcher: Matcher, view: seq<seq<Byte>>, chunkStart: nat, n: nat, matching: set<nat>, maxLength: nat)
    requires n <= |view|
  {
    && (forall k :: k in matching ==> chunkStart <= k < chunkStart + n)
    && (forall j :: 0 <= j < n ==> (matcher(view[j]) <==> chunkStart + j in matching))
    && (forall j :: 0 <= j < n && matcher(view[j]) ==> LengthOf(view[j]) <= maxLength)
    && (maxLength == 0 || exists j :: 0 <= j < n && matcher(view[j]) && LengthOf(view[j]) == maxLength)
  }

  lemma FilterNext(matcher: Matcher, view: seq<seq<Byte>>, chunkStart: nat, n: nat, matching: set<nat>, maxLength: nat)
    requires n < |view| && Filtered(matcher, view, chunkStart, n, matching, maxLength)
    ensures if matcher(view[n])
            then Filtered(matcher, view, chunkStart, n + 1, matching + {chunkStart + n}, Max(maxLength, LengthOf(view[n])))
            else Filtered(matcher, view, chunkStart, n + 1, matching, maxLength)
  {
    hide LengthOf;
    assert chunkStart + n !in matching;
  }

  method FilterLines(matcher: Matcher, rawLines: RawLines, chunkStart: nat) returns (results: PartialSearchResults)
    ensures results.chunkStart == chunkStart && results.processedLines == |rawLines.endOfLines|
    ensures Filtered(matcher, View(rawLines), chunkStart, |View(rawLines)|, results.matchingLines, results.maxLength)
  {
    var lines := BuildUtf8View(rawLines);
    var matchingLines: set<nat>, maxLength: nat := {}, 0;
    for offset := 0 to |lines|
      invariant Filtered(matcher, lines, chunkStart, offset, matchingLines, maxLength)
    {
      var line := lines[offset];
      FilterNext(matcher, lines, chunkStart, offset, matchingLines, maxLength);
      hide Filtered, LengthOf, SplitLines, View;
      if matcher(line) {
        var length := GetUntabifiedLength(line);
        LengthMeaning(line, length);
        maxLength := Bytes.Max(maxLength, length);
        matchingLines := matchingLines + {chunkStart + offset};
      }
    }
    return PartialSearchResults(chunkStart, matchingLines, maxLength, |rawLines.endOfLines|);
  }

  lemma LengthMeaning(line: seq<Byte>, length: nat)
    requires length == |Expand(line, 0)|
    ensures length == LengthOf(line)
  {
  }

  /** Line `k` of the indexed bytes matches, as the search sees it. */
  predicate LineHit(matcher: Matcher, bytes: seq<Byte>, disk: seq<Byte>, k: nat) {
    k < |ReferenceIndex(bytes).ends| && matcher(SearchLine(bytes, disk, k))
  }

  /** Searching a chunk reports a line number exactly when that line of the index lies in the chunk and matches. */
  lemma FilterNamesTheRightLines(matcher: Matcher, bytes: seq<Byte>, disk: seq<Byte>, raw: RawLines,
                                 first: nat, number: nat, results: PartialSearchResults, k: nat)
    requires bytes <= disk && number >= 1 && first + number <= |ReferenceIndex(bytes).ends|
    requires HoldsLines(raw, ReferenceIndex(bytes).ends, disk, first, number)
    requires Filtered(matcher, View(raw), first, |View(raw)|, results.matchingLines, results.maxLength)
    ensures k in results.matchingLines <==> first <= k < first + number && LineHit(matcher, bytes, disk, k)
  {
    SplitIsIndexed(bytes, disk, first, number);
    hide ReferenceIndex, RawBytes, SearchLine, SplitLines, LengthOf;
    assert View(raw) == SplitLines(raw.buffer);
    if first <= k < first + number {
      var j := k - first;
      assert View(raw)[j] == SearchLine(bytes, disk, first + j);
    }
  }

  // ---------- the shared results ----------

  datatype SearchResults = SearchResults(newMatches: set<nat>, maxLength: nat, processedLines: nat)

  datatype SearchTotals = SearchTotals(newMatches: set<nat>, maxLength: nat, nbLinesProcessed: nat, nbMatches: nat) {
    function AddAll(length: nat, matches: set<nat>, matchedLines: nat, processedLines: nat): SearchTotals {
      SearchTotals(newMatches + matches, Max(maxLength, length), Max(nbLinesProcessed, processedLines), nbMatches + matchedLines)
    }

    function WithoutNewMatches(): SearchTotals {
      this.(newMatches := {})
    }
  }

  const Cleared := SearchTotals({}, 0, 0, 0)

  class SearchData {
    var newMatches: set<nat>
    var maxLength: nat
    var nbLinesProcessed: nat
    var nbMatches: nat

    ghost function Totals(): SearchTotals
      reads this
    {
      SearchTotals(newMatches, maxLength, nbLinesProcessed, nbMatches)
    }

    constructor ()
      ensures Totals() == Cleared
    {
      newMatches, maxLength, nbLinesProcessed, nbMatches := {}, 0, 0, 0;
    }

    method TakeCurrentResults() returns (results: SearchResults)
      modifies this
      ensures results == SearchResults(old(newMatches), old(maxLength), old(nbLinesProcessed))
      ensures Totals() == old(Totals()).WithoutNewMatches()
      ensures newMatches == {} && maxLength == old(maxLength)
      ensures nbLinesProcessed == old(nbLinesProcessed) && nbMatches == old(nbMatches)
    {
      results := SearchResults(newMatches, maxLength, nbLinesProcessed);
      newMatches := {};
    }

    method AddAll(length: nat, matches: set<nat>, matchedLines: nat, processedLines: nat)
      modifies this
      ensures Totals() == old(Totals()).AddAll(length, matches, matchedLines, processedLines)
      ensures newMatches == old(newMatches) + matches && nbMatches == old(nbMatches) + matchedLines
      ensures maxLength == if length > old(maxLength) then length else old(maxLength)
      ensures nbLinesProcessed == if processedLines > old(nbLinesProcessed) then processedLines else old(nbLinesProcessed)
    {
      maxLength := Bytes.Max(maxLength, length);
      nbLinesProcessed := Bytes.Max(nbLinesProcessed, processedLines);
      nbMatches := nbMatches + matchedLines;
      newMatches := newMatches + matches;
    }

    method Clear()
      modifies this
      ensures Totals() == Cleared
      ensures newMatches == {} && maxLength == 0 && nbLinesProcessed == 0 && nbMatches == 0
    {
      newMatches, maxLength, nbLinesProcessed, nbMatches := {}, 0, 0, 0;
    }
  }
}
