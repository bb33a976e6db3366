/**
 * Reading lines of a file (`logdata.cpp`): cutting the raw bytes along the index, and splitting
 * them at line feeds for the search, must give the same lines.
 */
module RawLines {
  import opened Bytes
  import opened LineFeeds
  import opened LinePositions
  import opened LineIndex

  /** A stretch of the file and the line ends in it, counted from its first byte. */
  datatype RawLines = RawLines(startLine: nat, buffer: seq<Byte>, endOfLines: seq<nat>)

  function StartOf(ends: seq<nat>, k: nat): nat
    requires k <= |ends|
  {
    if k == 0 then 0 else ends[k - 1]
  }

  /** The bytes from `from` to `from + n - 1`; what the file does not have reads as zero. */
  function ReadBytes(disk: seq<Byte>, from: nat, n: nat): (r: seq<Byte>)
    ensures |r| == n
    ensures forall i :: 0 <= i < n ==> r[i] == if from + i < |disk| then disk[from + i] else 0
  {
    seq(n, i requires 0 <= i < n => if from + i < |disk| then disk[from + i] else 0)
  }

  lemma StartsIncrease(ends: seq<nat>, j: nat, k: nat)
    requires j <= k <= |ends| && Increasing(ends)
    ensures StartOf(ends, j) <= StartOf(ends, k)
    ensures j < k && (0 < j || ends[0] > 0) ==> StartOf(ends, j) < StartOf(ends, k)
  {
  }

  /** The bytes of lines `first` to `first + number - 1`. */
  function RawBytes(ends: seq<nat>, disk: seq<Byte>, first: nat, number: nat): seq<Byte>
    requires first + number <= |ends|
  {
    var a, b := StartOf(ends, first), StartOf(ends, first + number);
    if a <= b then ReadBytes(disk, a, b - a) else []
  }

  /** The stretch holds lines `first` to `first + number - 1`. */
  ghost predicate HoldsLines(raw: RawLines, ends: seq<nat>, disk: seq<Byte>, first: nat, number: nat)
    requires first + number <= |ends|
  {
    && raw.startLine == first && raw.buffer == RawBytes(ends, disk, first, number)
    && |raw.endOfLines| == number
    && forall j :: 0 <= j < number ==> raw.endOfLines[j] == ends[first + j] - StartOf(ends, first)
  }

  /** The line ends counted from `base`. */
  function Relative(ends: seq<nat>, base: nat): (r: seq<nat>)
    requires forall j :: 0 <= j < |ends| ==> base <= ends[j]
    ensures |r| == |ends| && forall j :: 0 <= j < |ends| ==> r[j] == ends[j] - base
  {
    seq(|ends|, j requires 0 <= j < |ends| && base <= ends[j] => ends[j] - base)
  }

  lemma RangeStartsAbove(ends: seq<nat>, first: nat, list: seq<nat>)
    requires first + |list| <= |ends| && list == ends[first..first + |list|] && Increasing(ends)
    ensures forall j :: 0 <= j < |list| ==> StartOf(ends, first) <= list[j]
  {
    forall j | 0 <= j < |list| ensures StartOf(ends, first) <= list[j] {
      StartsIncrease(ends, first, first + j + 1);
    }
  }

  method GetLinesRaw(lines: LinePositionArray, disk: seq<Byte>, firstLine: nat, number: nat) returns (raw: RawLines)
    requires lines.Valid() && number >= 1 && Increasing(lines.View().ends)
    ensures if firstLine + number > |lines.View().ends| then raw == RawLines(0, [], [])
            else HoldsLines(raw, lines.View().ends, disk, firstLine, number)
  {
    hide Increasing, ReadBytes, Relative, LinePositionArray.Valid;
    ghost var ends := lines.View().ends;
    if firstLine + number > lines.Size() {
      return RawLines(0, [], []);
    }
    var firstByte := 0;
    if firstLine != 0 {
      var previousEnd := lines.At(firstLine - 1);
      firstByte := previousEnd.value;
    }
    var endOfLines := lines.Range(firstLine, number);
    var lastByte := endOfLines[number - 1];
    RangeStartsAbove(ends, firstLine, endOfLines);
    return RawLines(firstLine, ReadBytes(disk, firstByte, lastByte - firstByte), Relative(endOfLines, firstByte));
  }

  // ---------- cutting along the index ----------

  datatype DecodedLine = Text(bytes: seq<Byte>) | Warning

  /** A line this long is refused. */
  const MAX_LENGTH: nat := 0x3FFF_FFFF

  /** The bytes of line `k` without its line feed. */
  function Cut(ends: seq<nat>, buffer: seq<Byte>, k: nat): seq<Byte>
    requires k < |ends|
  {
    if StartOf(ends, k) < ends[k] <= |buffer| + 1 then buffer[StartOf(ends, k)..ends[k] - 1] else []
  }

  /** Line `k` is not too long, and the buffer has all of it. */
  predicate Readable(ends: seq<nat>, size: nat, k: nat)
    requires k < |ends|
  {
    ends[k] - StartOf(ends, k) - 1 < MAX_LENGTH && ends[k] - 1 <= size
  }

  /** The first line from `k` on that cannot be read, or the number of lines. */
  function FirstUnreadable(ends: seq<nat>, size: nat, k: nat): (n: nat)
    requires k <= |ends|
    ensures k <= n <= |ends|
    ensures forall j :: k <= j < n ==> Readable(ends, size, j)
    ensures n < |ends| ==> !Readable(ends, size, n)
    decreases |ends| - k
  {
    if k < |ends| && Readable(ends, size, k) then FirstUnreadable(ends, size, k + 1) else k
  }

  /** Lines before `n` are cut from the buffer, the others are warnings. */
  ghost predicate Decoded(raw: RawLines, lines: seq<DecodedLine>, n: nat) {
    && |lines| <= |raw.endOfLines|
    && forall k :: 0 <= k < |lines| ==>
         lines[k] == if k < n then Text(Cut(raw.endOfLines, raw.buffer, k)) else Warning
  }

  /** Cuts the buffer at the line ends, up to the first line that cannot be read. */
  method DecodeLines(raw: RawLines) returns (lines: seq<DecodedLine>)
    requires Increasing(raw.endOfLines) && (raw.endOfLines != [] ==> 0 < raw.endOfLines[0])
    ensures |lines| == |raw.endOfLines|
    ensures Decoded(raw, lines, FirstUnreadable(raw.endOfLines, |raw.buffer|, 0))
    ensures forall k :: 0 <= k < |lines| ==>
              lines[k] == if forall j :: 0 <= j <= k ==> Readable(raw.endOfLines, |raw.buffer|, j)
                          then Text(Cut(raw.endOfLines, raw.buffer, k)) else Warning
  {
    hide Increasing;
    lines := [];
    if raw.endOfLines == [] {
      return;
    }
    var lineStart, i := 0, 0;
    ghost var ends, size := raw.endOfLines, |raw.buffer|;
    while i < |raw.endOfLines|
      invariant i == |lines| <= |ends| && lineStart == StartOf(ends, i)
      invariant FirstUnreadable(ends, size, 0) == FirstUnreadable(ends, size, i)
      invariant Decoded(raw, lines, i)
    {
      var lineEnd := raw.endOfLines[i];
      StartsIncrease(ends, i, i + 1);
      var length := lineEnd - lineStart - 1;
      if length >= MAX_LENGTH || lineStart + length > |raw.buffer| {
        lines := lines + [Warning];
        break;
      }
      lines := lines + [Text(raw.buffer[lineStart..lineStart + length])];
      lineStart := lineEnd;
      i := i + 1;
    }
    while |lines| < |raw.endOfLines|
      invariant Decoded(raw, lines, FirstUnreadable(ends, size, 0))
      invariant FirstUnreadable(ends, size, 0) <= |lines| <= |ends|
    {
      lines := lines + [Warning];
    }
  }

  // ---------- splitting at line feeds ----------

  /** Reference: the stretches between line feeds; an empty one behind the last line feed is dropped. */
  function SplitLines(s: seq<Byte>): seq<seq<Byte>>
    decreases |s|
  {
    match Find(s, LF, 0)
    case None => if s == [] then [] else [s]
    case Some(p) => [s[..p]] + SplitLines(s[p + 1..])
  }

  method BuildUtf8View(raw: RawLines) returns (lines: seq<seq<Byte>>)
    ensures lines == if raw.endOfLines == [] then [] else SplitLines(raw.buffer)
  {
    lines := [];
    if raw.endOfLines == [] {
      return;
    }
    var wholeString := raw.buffer;
    var nextLineFeed := Find(wholeString, LF, 0);
    while nextLineFeed.Some?
      invariant nextLineFeed == Find(wholeString, LF, 0)
      invariant lines + SplitLines(wholeString) == SplitLines(raw.buffer)
      decreases |wholeString|
    {
      lines := lines + [wholeString[..nextLineFeed.value]];
      wholeString := wholeString[nextLineFeed.value + 1..];
      nextLineFeed := Find(wholeString, LF, 0);
    }
    if wholeString != [] {
      lines := lines + [wholeString];
    }
  }

  lemma SplitAtLineFeed(x: seq<Byte>, y: seq<Byte>)
    requires LF !in x
    ensures SplitLines(x + [LF] + y) == [x] + SplitLines(y)
  {
    var s := x + [LF] + y;
    assert s[|x|] == LF && forall i :: 0 <= i < |x| ==> s[i] == x[i];
    assert Find(s, LF, 0) == Some(|x|);
    assert s[..|x|] == x && s[|x| + 1..] == y;
  }

  lemma SplitSingle(x: seq<Byte>)
    requires LF !in x && x != []
    ensures SplitLines(x) == [x]
  {
  }

  // ---------- both agree ----------

  /** Line `k` of the indexed bytes, without its line feed. */
  function Line(bytes: seq<Byte>, k: nat): seq<Byte>
    requires k < |ReferenceIndex(bytes).ends|
  {
    Cut(ReferenceIndex(bytes).ends, bytes, k)
  }

  /** The byte that follows the indexed ones. */
  function NextByte(bytes: seq<Byte>, disk: seq<Byte>): Byte {
    if |bytes| < |disk| then disk[|bytes|] else 0
  }

  /** What the search sees of line `k`: an unterminated last line comes with the byte that follows it. */
  function SearchLine(bytes: seq<Byte>, disk: seq<Byte>, k: nat): seq<Byte>
    requires k < |ReferenceIndex(bytes).ends|
  {
    if ReferenceIndex(bytes).ends[k] <= |bytes| || NextByte(bytes, disk) == LF then Line(bytes, k)
    else Line(bytes, k) + [NextByte(bytes, disk)]
  }

  /** A line of the index holds no line feed, and one follows it unless its end is the fake one. */
  lemma LineShape(bytes: seq<Byte>, k: nat)
    requires k < |ReferenceIndex(bytes).ends|
    ensures var ends := ReferenceIndex(bytes).ends;
            && StartOf(ends, k) < ends[k] <= |bytes| + 1
            && LF !in Line(bytes, k)
            && (ends[k] <= |bytes| ==> bytes[ends[k] - 1] == LF)
            && (ends[k] == |bytes| + 1 ==> k == |ends| - 1 && Line(bytes, k) != [])
  {
    hide ReferenceIndex;
    var ends := ReferenceIndex(bytes).ends;
    ReferenceIndexMeaning(bytes, ends[k]);
    StartsIncrease(ends, k, k + 1);
    if k > 0 {
      ReferenceIndexMeaning(bytes, ends[k - 1]);
    }
    forall p | StartOf(ends, k) <= p < ends[k] - 1 ensures bytes[p] != LF {
      ReferenceIndexMeaning(bytes, p + 1);
      NothingBetween(ends, k, p + 1);
    }
    if ends[k] == |bytes| + 1 && k < |ends| - 1 {
      ReferenceIndexMeaning(bytes, ends[k + 1]);
    }
  }

  lemma NothingBetween(ends: seq<nat>, k: nat, e: int)
    requires Increasing(ends) && k < |ends| && StartOf(ends, k) < e < ends[k]
    ensures e !in ends
  {
  }

  lemma IndexIncreases(bytes: seq<Byte>)
    ensures Increasing(ReferenceIndex(bytes).ends)
    ensures ReferenceIndex(bytes).ends != [] ==> 0 < ReferenceIndex(bytes).ends[0]
  {
    var ends := ReferenceIndex(bytes).ends;
    ReferenceIndexMeaning(bytes, 0);
    if ends != [] {
      assert ends[0] in ends;
    }
    hide ReferenceIndex;
  }

  lemma JoinReads(disk: seq<Byte>, from: nat, n: nat, m: nat)
    ensures ReadBytes(disk, from, n + m) == ReadBytes(disk, from, n) + ReadBytes(disk, from + n, m)
  {
  }

  lemma ReadIsSlice(bytes: seq<Byte>, disk: seq<Byte>, from: nat, n: nat)
    requires bytes <= disk && from + n <= |bytes|
    ensures ReadBytes(disk, from, n) == bytes[from..from + n]
  {
  }

  /** The bytes of several lines are those of the first line followed by those of the others. */
  lemma RawBytesStep(ends: seq<nat>, disk: seq<Byte>, first: nat, number: nat)
    requires first + number <= |ends| && number >= 1 && Increasing(ends)
    ensures RawBytes(ends, disk, first, number) == RawBytes(ends, disk, first, 1) + RawBytes(ends, disk, first + 1, number - 1)
  {
    StartsIncrease(ends, first, first + 1);
    StartsIncrease(ends, first + 1, first + number);
    hide Increasing, ReadBytes;
    var a, m, b := StartOf(ends, first), StartOf(ends, first + 1), StartOf(ends, first + number);
    JoinReads(disk, a, m - a, b - m);
  }

  /** One line: its bytes and its line feed, or its bytes and whatever follows the indexed ones. */
  lemma RawBytesOfOne(bytes: seq<Byte>, disk: seq<Byte>, k: nat)
    requires bytes <= disk && k < |ReferenceIndex(bytes).ends|
    ensures var ends := ReferenceIndex(bytes).ends;
            RawBytes(ends, disk, k, 1)
            == Line(bytes, k) + [if ends[k] <= |bytes| then LF else NextByte(bytes, disk)]
  {
    LineShape(bytes, k);
    hide ReferenceIndex;
    var ends := ReferenceIndex(bytes).ends;
    var a, b := StartOf(ends, k), ends[k];
    JoinReads(disk, a, b - 1 - a, 1);
    ReadIsSlice(bytes, disk, a, b - 1 - a);
  }

  /**
   * Splitting the raw bytes of some lines at line feeds yields exactly as many lines as were asked
   * for, and each is the line of the index at its place.
   */
  lemma {:induction false} SplitIsIndexed(bytes: seq<Byte>, disk: seq<Byte>, first: nat, number: nat)
    requires bytes <= disk && number >= 1 && first + number <= |ReferenceIndex(bytes).ends|
    ensures var split := SplitLines(RawBytes(ReferenceIndex(bytes).ends, disk, first, number));
            |split| == number && forall j :: 0 <= j < number ==> split[j] == SearchLine(bytes, disk, first + j)
    decreases number
  {
    hide *;
    var ends := ReferenceIndex(bytes).ends;
    IndexIncreases(bytes);
    RawBytesStep(ends, disk, first, number);
    RawBytesOfOne(bytes, disk, first);
    LineShape(bytes, first);
    if number > 1 {
      SplitIsIndexed(bytes, disk, first + 1, number - 1);
    } else {
      NoRawBytes(ends, disk, first + 1);
    }
    SplitStep(bytes, disk, first, number);
  }

  lemma NoRawBytes(ends: seq<nat>, disk: seq<Byte>, first: nat)
    requires first <= |ends|
    ensures RawBytes(ends, disk, first, 0) == [] && SplitLines([]) == []
  {
  }

  lemma SplitStep(bytes: seq<Byte>, disk: seq<Byte>, first: nat, number: nat)
    requires number >= 1 && first + number <= |ReferenceIndex(bytes).ends|
    requires var ends := ReferenceIndex(bytes).ends;
             && RawBytes(ends, disk, first, number)
                == RawBytes(ends, disk, first, 1) + RawBytes(ends, disk, first + 1, number - 1)
             && RawBytes(ends, disk, first, 1)
                == Line(bytes, first) + [if ends[first] <= |bytes| then LF else NextByte(bytes, disk)]
             && (ends[first] > |bytes| ==> number == 1)
    requires LF !in Line(bytes, first)
    requires var rest := SplitLines(RawBytes(ReferenceIndex(bytes).ends, disk, first + 1, number - 1));
             |rest| == number - 1 && forall j :: 0 <= j < number - 1 ==> rest[j] == SearchLine(bytes, disk, first + 1 + j)
    requires number == 1 ==> RawBytes(ReferenceIndex(bytes).ends, disk, first + 1, 0) == []
    ensures var split := SplitLines(RawBytes(ReferenceIndex(bytes).ends, disk, first, number));
            |split| == number && forall j :: 0 <= j < number ==> split[j] == SearchLine(bytes, disk, first + j)
  {
    hide SplitLines, RawBytes, ReferenceIndex, Line, NextByte;
    var ends := ReferenceIndex(bytes).ends;
    var line, after := Line(bytes, first), RawBytes(ends, disk, first + 1, number - 1);
    if ends[first] <= |bytes| || NextByte(bytes, disk) == LF {
      SplitAtLineFeed(line, after);
      var split := [line] + SplitLines(after);
      assert forall j :: 1 <= j < number ==> split[j] == SplitLines(after)[j - 1] == SearchLine(bytes, disk, first + 1 + (j - 1));
    } else {
      var padded := line + [NextByte(bytes, disk)];
      assert padded + after == padded;
      SplitSingle(padded);
    }
  }

  lemma CutOfRead(bytes: seq<Byte>, disk: seq<Byte>, base: nat, n: nat, a: nat, b: nat)
    requires bytes <= disk && base <= a <= b <= base + n && b <= |bytes|
    ensures ReadBytes(disk, base, n)[a - base..b - base] == bytes[a..b]
  {
  }

  /**
   * Cutting the raw bytes along the index gives the same lines without the padding byte; a line
   * fails to decode exactly when it is too long.
   */
  lemma CutIsIndexed(bytes: seq<Byte>, disk: seq<Byte>, raw: RawLines, first: nat, number: nat, j: nat)
    requires bytes <= disk && j < number && first + number <= |ReferenceIndex(bytes).ends|
    requires HoldsLines(raw, ReferenceIndex(bytes).ends, disk, first, number)
    ensures Cut(raw.endOfLines, raw.buffer, j) == Line(bytes, first + j)
    ensures Readable(raw.endOfLines, |raw.buffer|, j) <==> |Line(bytes, first + j)| < 0x7FFF_FFFF / 2
  {
    IndexIncreases(bytes);
    LineShape(bytes, first + j);
    hide ReferenceIndex;
    var ends := ReferenceIndex(bytes).ends;
    StartsIncrease(ends, first, first + j);
    StartsIncrease(ends, first + j + 1, first + number);
    hide Increasing;
    var base, a, b := StartOf(ends, first), StartOf(ends, first + j), ends[first + j];
    assert StartOf(raw.endOfLines, j) == a - base && raw.endOfLines[j] == b - base;
    CutOfRead(bytes, disk, base, |raw.buffer|, a, b - 1);
    hide ReadBytes;
  }
}
