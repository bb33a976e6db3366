/** The lines that the filtered view shows, and the navigation in it (`logfiltereddata.cpp`). */
module FilteredView {
  import opened Bytes
  import opened SortedSets

  /** The file as the view needs it: how many lines it has and how long each is. */
  datatype SourceLogData = SourceLogData(nbLine: nat, lengths: nat -> nat) {
    function GetLineLength(line: nat): nat {
      if line >= nbLine then 0 else lengths(line)
    }
  }

  datatype Visibility = Visibility(marks: bool, matches: bool)

  const MAX_LINE_NUMBER: nat := 0xFFFF_FFFF_FFFF_FFFF

  /** `n` is the length of the longest of the lines; 0 if there are none. */
  ghost predicate IsLongest(source: SourceLogData, lines: set<nat>, n: nat) {
    && (forall line :: line in lines ==> source.GetLineLength(line) <= n)
    && (n == 0 || exists line :: line in lines && source.GetLineLength(line) == n)
  }

  // ---------- from index to line and back ----------

  /** The greatest element that is at most `x`. */
  ghost predicate IsGreatestUpTo(s: set<nat>, x: nat, r: nat) {
    r in s && r <= x && forall y :: y in s && y <= x ==> y <= r
  }

  /** The visible line at an index. */
  function FindLogDataLine(visible: set<nat>, index: nat): (line: nat)
    ensures if index < |visible| then line in visible && Rank(visible, line) == index + 1 else line == 0xFFFF_FFFF_FFFF_FFFF
  {
    if index < |visible| then SelectIsRanked(visible, index); Select(visible, index).value
    else MAX_LINE_NUMBER
  }

  /** The index of the line, or of the nearest visible line above it in the file. */
  function FindFilteredLine(visible: set<nat>, line: nat): (index: nat)
    ensures UpTo(visible, line) == {} ==> index == 0
    ensures UpTo(visible, line) != {} ==>
              index < |visible| && IsGreatestUpTo(visible, line, FindLogDataLine(visible, index))
    ensures (exists other :: other in visible && other <= line) ==>
              var found := FindLogDataLine(visible, index);
              index < |visible| && found in visible && found <= line
              && forall other :: other in visible && other <= line ==> other <= found
  {
    var rank := Rank(visible, line);
    NearestEntry(visible, line);
    assert forall other :: other in visible && other <= line ==> other in UpTo(visible, line);
    if rank > 0 then rank - 1 else 0
  }

  lemma NearestEntry(visible: set<nat>, line: nat)
    ensures var rank := Rank(visible, line);
            if UpTo(visible, line) == {} then rank == 0
            else 1 <= rank <= |visible| && IsGreatestUpTo(visible, line, FindLogDataLine(visible, rank - 1))
  {
    var rank := Rank(visible, line);
    RankBounds(visible, line);
    if UpTo(visible, line) != {} {
      var entry := FindLogDataLine(visible, rank - 1);
      if entry > line {
        RankGrows(visible, line, entry);
      }
      forall y | y in visible && entry < y <= line ensures false {
        RankGrows(visible, entry, y);
        RankGrows(visible, y, line);
      }
    }
  }

  /** On the visible lines the two are inverse, and they keep the order. */
  lemma IndexAndLineAreInverse(visible: set<nat>, index: nat, line: nat)
    ensures index < |visible| ==> FindFilteredLine(visible, FindLogDataLine(visible, index)) == index
    ensures line in visible ==> FindLogDataLine(visible, FindFilteredLine(visible, line)) == line
    ensures index + 1 < |visible| ==> FindLogDataLine(visible, index) < FindLogDataLine(visible, index + 1)
  {
    if index < |visible| {
      RankBounds(visible, FindLogDataLine(visible, index));
    }
    if line in visible {
      SelectOfRank(visible, line);
      RankBounds(visible, line);
    }
    if index + 1 < |visible| && FindLogDataLine(visible, index) >= FindLogDataLine(visible, index + 1) {
      RankGrows(visible, FindLogDataLine(visible, index + 1), FindLogDataLine(visible, index));
    }
  }

  // ---------- from mark to mark ----------

  ghost predicate IsLeastAbove(s: set<nat>, x: nat, r: Option<nat>) {
    match r
    case None => forall y :: y in s ==> y <= x
    case Some(v) => v in s && v > x && forall y :: y in s && y > x ==> v <= y
  }

  ghost predicate IsGreatestBelow(s: set<nat>, x: nat, r: Option<nat>) {
    match r
    case None => forall y :: y in s ==> y >= x
    case Some(v) => v in s && v < x && forall y :: y in s && y < x ==> y <= v
  }

  function GetMarkAfter(marks: set<nat>, line: nat): (r: Option<nat>)
    ensures IsLeastAbove(marks, line, r)
    ensures r.None? ==> forall mark :: mark in marks ==> mark <= line
    ensures r.Some? ==> r.value in marks && r.value > line && forall mark :: mark in marks && mark > line ==> r.value <= mark
  {
    NextMark(marks, line);
    Select(marks, Rank(marks, line))
  }

  lemma NextMark(marks: set<nat>, line: nat)
    ensures IsLeastAbove(marks, line, Select(marks, Rank(marks, line)))
  {
    var rank := Rank(marks, line);
    if rank < |marks| {
      SelectIsRanked(marks, rank);
      var v := Select(marks, rank).value;
      if v <= line {
        RankGrows(marks, v, line);
      }
      forall y | y in marks && line < y < v ensures false {
        RankGrows(marks, line, y);
        RankGrows(marks, y, v);
      }
    } else {
      forall y | y in marks ensures y <= line {
        if y > line {
          RankGrows(marks, line, y);
          RankBounds(marks, y);
        }
      }
    }
  }

  function GetMarkBefore(marks: set<nat>, line: nat): Option<nat> {
    var rank := Rank(marks, line);
    if rank < 2 then None else Select(marks, rank - 2)
  }

  /**
   * From a marked line it goes to the greatest mark below. From any other line it steps over that
   * mark, so it is right only when there is none.
   */
  lemma MarkBefore(marks: set<nat>, line: nat)
    ensures line in marks ==>
              match GetMarkBefore(marks, line)
              case None => forall mark :: mark in marks ==> mark >= line
              case Some(before) =>
                before in marks && before < line && forall mark :: mark in marks && mark < line ==> mark <= before
    ensures IsGreatestBelow(marks, line, GetMarkBefore(marks, line))
            <==> line in marks || forall y :: y in marks ==> y > line
  {
    var rank := Rank(marks, line);
    RankBounds(marks, line);
    if rank >= 2 {
      SelectIsRanked(marks, rank - 2);
      SelectIsRanked(marks, rank - 1);
      var v, w := Select(marks, rank - 2).value, Select(marks, rank - 1).value;
      NearestEntry(marks, line);
      assert w <= line;
      if w <= v {
        RankGrows(marks, w, v);
      }
      forall y | y in marks && v < y < line && line in marks ensures false {
        RankGrows(marks, v, y);
        RankGrows(marks, y, line);
      }
    } else if rank == 1 {
      var w :| w in UpTo(marks, line);
      forall y | y in marks && y < line && line in marks ensures false {
        assert {y, line} <= UpTo(marks, line);
        SubsetSize({y, line}, UpTo(marks, line));
      }
    } else {
      assert UpTo(marks, line) == {};
      forall y | y in marks && y <= line ensures y in UpTo(marks, line) {
      }
    }
  }

  /** With marks on lines 2 and 5, "previous mark" goes from line 7 to line 2. */
  lemma PreviousMarkSkipsOne()
    ensures GetMarkBefore({2, 5}, 7) == Some(2) && !IsGreatestBelow({2, 5}, 7, Some(2))
  {
    var marks: set<nat> := {2, 5};
    assert UpTo(marks, 7) == marks && UpTo(marks, 2) == {2};
    SelectIsRanked(marks, 0);
    assert UpTo(marks, 5) == marks;
  }

  // ---------- marks and matches ----------

  /** The three sets of the view and the length of the longest marked line. */
  datatype ViewState = ViewState(marks: set<nat>, matchingLines: set<nat>, marksAndMatches: set<nat>, maxLengthMarks: nat)

  /** What can happen to the sets. `Drain` is a batch of new matches, `UseCached` a result from the cache. */
  datatype Change =
    | AddMark(line: nat)
    | ToggleMark(line: nat)
    | DeleteMark(line: nat)
    | ClearMarks
    | ClearSearch
    | Drain(newMatches: set<nat>)
    | UseCached(lines: set<nat>)

  /** The marks after a change. */
  function MarksAfter(source: SourceLogData, marks: set<nat>, change: Change): set<nat> {
    match change
    case AddMark(line) => if line < source.nbLine then marks + {line} else marks
    case ToggleMark(line) =>
      if line >= source.nbLine then marks else if line in marks then marks - {line} else marks + {line}
    case DeleteMark(line) => marks - {line}
    case ClearMarks => {}
    case _ => marks
  }

  /** The matches after a change. */
  function MatchesAfter(matches: set<nat>, change: Change): set<nat> {
    match change
    case ClearSearch => {}
    case Drain(newMatches) => matches + newMatches
    case UseCached(lines) => lines
    case _ => matches
  }

  /** The change brings the union up to date. */
  predicate Refreshes(source: SourceLogData, change: Change) {
    match change
    case AddMark(line) => line < source.nbLine
    case ToggleMark(line) => line < source.nbLine
    case DeleteMark(_) => true
    case ClearMarks => false
    case Drain(_) => false
    case ClearSearch => true
    case UseCached(_) => true
  }

  /** Marks that were cleared but are still shown: clearing does not bring the union up to date. */
  function Lingering(source: SourceLogData, changes: seq<Change>, k: nat): set<nat>
    requires k <= |changes|
  {
    if k == 0 then {}
    else if Refreshes(source, changes[k - 1]) then {}
    else if changes[k - 1] == ClearMarks then Lingering(source, changes, k - 1) + Marks(source, changes, k - 1)
    else Lingering(source, changes, k - 1)
  }

  function Marks(source: SourceLogData, changes: seq<Change>, k: nat): set<nat>
    requires k <= |changes|
  {
    if k == 0 then {} else MarksAfter(source, Marks(source, changes, k - 1), changes[k - 1])
  }

  /**
   * How a change acts on the three sets: a refreshing change rebuilds the union, a batch of matches
   * is added to it, anything else leaves it. The longest length grows with an added line, and is
   * worked out anew only when a removed line is at least as long.
   */
  ghost predicate Next(source: SourceLogData, s: ViewState, change: Change, t: ViewState) {
    && t.marks == MarksAfter(source, s.marks, change)
    && t.matchingLines == MatchesAfter(s.matchingLines, change)
    && t.marksAndMatches == (if Refreshes(source, change) then t.matchingLines + t.marks
                             else if change.Drain? then s.marksAndMatches + change.newMatches
                             else s.marksAndMatches)
    && match Touched(source, s.marks, change)
       case Added(line) => t.maxLengthMarks == Max(s.maxLengthMarks, source.GetLineLength(line))
       case Removed(line) =>
         if source.GetLineLength(line) >= s.maxLengthMarks then IsLongest(source, t.marks, t.maxLengthMarks)
         else t.maxLengthMarks == s.maxLengthMarks
       case Untouched => t.maxLengthMarks == if change.ClearMarks? then 0 else s.maxLengthMarks
  }

  datatype Touch = Added(line: nat) | Removed(line: nat) | Untouched

  /** The line that a change adds to the marks or removes from them. */
  function Touched(source: SourceLogData, marks: set<nat>, change: Change): Touch {
    match change
    case AddMark(line) => if line < source.nbLine then Added(line) else Untouched
    case ToggleMark(line) =>
      if line >= source.nbLine then Untouched else if line in marks then Removed(line) else Added(line)
    case DeleteMark(line) => Removed(line)
    case _ => Untouched
  }

  /** Recomputing only then is enough: the longest length stays right. */
  lemma StaysLongest(source: SourceLogData, s: ViewState, change: Change, t: ViewState)
    requires Next(source, s, change, t) && IsLongest(source, s.marks, s.maxLengthMarks)
    ensures IsLongest(source, t.marks, t.maxLengthMarks)
  {
    match Touched(source, s.marks, change)
    case Added(line) => assert line in t.marks;
    case Removed(line) =>
      if source.GetLineLength(line) < s.maxLengthMarks {
        var longest :| longest in s.marks && source.GetLineLength(longest) == s.maxLengthMarks;
        assert longest in t.marks;
      }
    case Untouched =>
  }

  /** Goes through the lines in increasing order. */
  method LongestOf(source: SourceLogData, lines: set<nat>) returns (n: nat)
    ensures IsLongest(source, lines, n)
  {
    n := 0;
    var rest := lines;
    while rest != {}
      invariant rest <= lines && IsLongest(source, lines - rest, n)
      decreases |rest|
    {
      var line := Least(rest);
      n := Bytes.Max(n, source.GetLineLength(line));
      assert lines - (rest - {line}) == (lines - rest) + {line};
      rest := rest - {line};
    }
    assert lines - rest == lines;
  }

  /** Toggling a line of the file flips its mark and no other; toggling it again restores the marks. */
  lemma ToggleTwice(source: SourceLogData, marks: set<nat>, line: nat)
    ensures var once := MarksAfter(source, marks, Change.ToggleMark(line));
            && (line < source.nbLine ==> (line in once <==> line !in marks)) && once - {line} == marks - {line}
            && MarksAfter(source, once, Change.ToggleMark(line)) == marks
  {
    assert line in marks ==> marks - {line} + {line} == marks;
  }

  class LogFilteredData {
    const source: SourceLogData
    var marks: set<nat>
    var matchingLines: set<nat>
    var marksAndMatches: set<nat>
    var maxLengthMarks: nat

    ghost function State(): ViewState
      reads this
    {
      ViewState(marks, matchingLines, marksAndMatches, maxLengthMarks)
    }

    constructor (source: SourceLogData)
      ensures this.source == source && State() == ViewState({}, {}, {}, 0)
    {
      this.source := source;
      marks, matchingLines, marksAndMatches, maxLengthMarks := {}, {}, {}, 0;
    }

    method ToggleMark(line: nat)
      modifies this
      ensures Next(source, old(State()), Change.ToggleMark(line), State())
      ensures line < source.nbLine ==> (line in marks <==> line !in old(marks)) && marksAndMatches == matchingLines + marks
      ensures marks - {line} == old(marks) - {line} && matchingLines == old(matchingLines)
      ensures line >= source.nbLine ==> State() == old(State())
    {
      if line < source.nbLine {
        if line in marks {
          marks := marks - {line};
          UpdateMaxLengthMarks(None, Some(line));
        } else {
          marks := marks + {line};
          UpdateMaxLengthMarks(Some(line), None);
        }
      }
    }

    method AddMark(line: nat)
      modifies this
      ensures Next(source, old(State()), Change.AddMark(line), State())
      ensures line < source.nbLine ==> marks == old(marks) + {line} && marksAndMatches == matchingLines + marks
      ensures line >= source.nbLine ==> State() == old(State())
      ensures matchingLines == old(matchingLines)
    {
      if line < source.nbLine {
        marks := marks + {line};
        UpdateMaxLengthMarks(Some(line), None);
      }
    }

    method DeleteMark(line: nat)
      modifies this
      ensures Next(source, old(State()), Change.DeleteMark(line), State())
      ensures marks == old(marks) - {line}
      ensures marksAndMatches == matchingLines + marks && matchingLines == old(matchingLines)
    {
      marks := marks - {line};
      UpdateMaxLengthMarks(None, Some(line));
    }

    /** Recomputes the longest length only when the removed line may have been the longest. */
    method UpdateMaxLengthMarks(addedLine: Option<nat>, removedLine: Option<nat>)
      modifies this`marksAndMatches, this`maxLengthMarks
      ensures marksAndMatches == matchingLines + marks
      ensures var grown := if addedLine.None? then old(maxLengthMarks)
                           else Max(old(maxLengthMarks), source.GetLineLength(addedLine.value));
              if removedLine.Some? && source.GetLineLength(removedLine.value) >= grown
              then IsLongest(source, marks, maxLengthMarks)
              else maxLengthMarks == grown
    {
      marksAndMatches := matchingLines + marks;
      if addedLine.Some? {
        maxLengthMarks := Bytes.Max(maxLengthMarks, source.GetLineLength(addedLine.value));
      }
      if removedLine.Some? && source.GetLineLength(removedLine.value) >= maxLengthMarks {
        maxLengthMarks := LongestOf(source, marks);
      }
    }

    /** Leaves the union as it is. */
    method ClearMarks()
      modifies this
      ensures Next(source, old(State()), Change.ClearMarks, State())
      ensures State() == ViewState({}, old(matchingLines), old(marksAndMatches), 0)
    {
      marks := {};
      maxLengthMarks := 0;
    }

    method ClearSearch()
      modifies this
      ensures Next(source, old(State()), Change.ClearSearch, State())
      ensures State() == ViewState(old(marks), {}, old(marks), old(maxLengthMarks))
    {
      matchingLines := {};
      marksAndMatches := marks;
    }

    method HandleSearchProgressed(newMatches: set<nat>)
      modifies this
      ensures Next(source, old(State()), Drain(newMatches), State())
      ensures State() == ViewState(old(marks), old(matchingLines) + newMatches, old(marksAndMatches) + newMatches, old(maxLengthMarks))
    {
      matchingLines := matchingLines + newMatches;
      marksAndMatches := marksAndMatches + newMatches;
    }

    /** The part of `runSearch` that takes a cached result. */
    method UseCachedResult(lines: set<nat>)
      modifies this
      ensures Next(source, old(State()), UseCached(lines), State())
      ensures State() == ViewState(old(marks), lines, lines + old(marks), old(maxLengthMarks))
    {
      matchingLines := lines;
      marksAndMatches := matchingLines + marks;
    }

    function CurrentResultArray(visibility: Visibility): set<nat>
      reads this
    {
      if visibility.marks && visibility.matches then marksAndMatches
      else if visibility.matches then matchingLines
      else marks
    }
  }

  // ---------- every run ----------

  /** A run of changes from the empty view. */
  ghost predicate IsRun(source: SourceLogData, changes: seq<Change>, states: seq<ViewState>) {
    && |states| == |changes| + 1 && states[0] == ViewState({}, {}, {}, 0)
    && forall k :: 0 <= k < |changes| ==> Next(source, states[k], changes[k], states[k + 1])
  }

  /**
   * After any run the longest mark length is exact, and the union is the marks, the matches and the
   * marks that were cleared since it was last rebuilt.
   */
  lemma {:induction false} ViewInEveryState(source: SourceLogData, changes: seq<Change>, states: seq<ViewState>, k: nat)
    requires IsRun(source, changes, states) && k <= |changes|
    ensures states[k].marks == Marks(source, changes, k)
    ensures IsLongest(source, states[k].marks, states[k].maxLengthMarks)
    ensures states[k].marksAndMatches == states[k].marks + states[k].matchingLines + Lingering(source, changes, k)
  {
    hide IsLongest;
    if k == 0 {
      NoneIsLongest(source);
    } else {
      ViewInEveryState(source, changes, states, k - 1);
      assert Next(source, states[k - 1], changes[k - 1], states[k]);
      StaysLongest(source, states[k - 1], changes[k - 1], states[k]);
    }
  }

  lemma NoneIsLongest(source: SourceLogData)
    ensures IsLongest(source, {}, 0)
  {
  }

  /** The view shows exactly the marks and matches, unless a cleared mark that does not match lingers. */
  lemma UnionIsExact(source: SourceLogData, changes: seq<Change>, states: seq<ViewState>, k: nat)
    requires IsRun(source, changes, states) && k <= |changes|
    ensures states[k].marksAndMatches == states[k].marks + states[k].matchingLines
            <==> Lingering(source, changes, k) <= states[k].marks + states[k].matchingLines
    ensures ClearMarks !in changes[..k] ==> Lingering(source, changes, k) == {}
  {
    ViewInEveryState(source, changes, states, k);
    NothingLingers(source, changes, k);
  }

  lemma {:induction false} NothingLingers(source: SourceLogData, changes: seq<Change>, k: nat)
    requires k <= |changes|
    ensures ClearMarks !in changes[..k] ==> Lingering(source, changes, k) == {}
  {
    if k > 0 {
      NothingLingers(source, changes, k - 1);
      assert changes[..k][k - 1] == changes[k - 1];
      assert ClearMarks !in changes[..k] ==> ClearMarks !in changes[..k - 1];
    }
  }

  /** After a line was marked and the marks were cleared, the view still shows the line. */
  lemma ClearedMarkIsShown(source: SourceLogData, line: nat, states: seq<ViewState>)
    requires line < source.nbLine && IsRun(source, [AddMark(line), ClearMarks], states)
    ensures states[2].marks == {} && states[2].matchingLines == {} && states[2].marksAndMatches == {line}
  {
    var changes := [AddMark(line), ClearMarks];
    assert Next(source, states[0], changes[0], states[1]) && Next(source, states[1], changes[1], states[2]);
  }

  /** Only lines of the file are marked, and the longest length is the greatest of their lengths in it. */
  lemma {:induction false} MarksAreInFile(source: SourceLogData, changes: seq<Change>, states: seq<ViewState>, k: nat)
    requires IsRun(source, changes, states) && k <= |changes|
    ensures forall line :: line in states[k].marks ==> line < source.nbLine && source.lengths(line) <= states[k].maxLengthMarks
    ensures states[k].maxLengthMarks == 0
            || exists line :: line in states[k].marks && source.lengths(line) == states[k].maxLengthMarks
  {
    MarkedLines(source, changes, k);
    ViewInEveryState(source, changes, states, k);
    forall line | line in states[k].marks ensures source.lengths(line) <= states[k].maxLengthMarks {
      assert source.GetLineLength(line) <= states[k].maxLengthMarks;
    }
  }

  lemma {:induction false} MarkedLines(source: SourceLogData, changes: seq<Change>, k: nat)
    requires k <= |changes|
    ensures forall line :: line in Marks(source, changes, k) ==> line < source.nbLine
  {
    if k > 0 {
      MarkedLines(source, changes, k - 1);
    }
  }

  /** Which lines are visible: the marked ones, the matching ones, or both; with neither chosen, the marked ones. */
  lemma VisibleLines(view: LogFilteredData, visibility: Visibility, line: nat)
    requires view.marksAndMatches == view.matchingLines + view.marks
    ensures line in view.CurrentResultArray(visibility)
            <==> || (visibility.marks && line in view.marks) || (visibility.matches && line in view.matchingLines)
                 || (!visibility.marks && !visibility.matches && line in view.marks)
  {
  }
}
