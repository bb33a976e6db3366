/**
 * What the line ends of a byte string are, independently of how the bytes are read, and what is
 * lost when a reading block edge cuts a line feed of several bytes.
 */
module LineFeeds {
  import opened Bytes

  /** A line feed is `lineFeedWidth` bytes: '\n' at `lineFeedIndex`, zeros elsewhere. */
  datatype EncodingParameters = EncodingParameters(lineFeedWidth: nat, lineFeedIndex: nat) {
    ghost predicate Valid() {
      lineFeedWidth >= 1 && (lineFeedIndex == 0 || lineFeedIndex == lineFeedWidth - 1)
    }
  }

  /** One byte, UTF-16 and UTF-32 in either byte order. */
  lemma EncodingsAreValid(width: nat)
    requires width >= 1
    ensures EncodingParameters(width, 0).Valid() && EncodingParameters(width, width - 1).Valid()
  {
  }

  const SingleByte := EncodingParameters(1, 0)

  predicate PatternAt(s: seq<Byte>, i: nat, enc: EncodingParameters, delimiter: Byte) {
    && i + enc.lineFeedWidth <= |s|
    && forall k :: i <= k < i + enc.lineFeedWidth ==> s[k] == if k == i + enc.lineFeedIndex then delimiter else NUL
  }

  predicate LineFeedAt(s: seq<Byte>, i: nat, enc: EncodingParameters) {
    PatternAt(s, i, enc, LF)
  }

  /** `e` is the end of a line feed that starts at or after `lo`. */
  predicate EndsLine(s: seq<Byte>, lo: nat, e: nat, enc: EncodingParameters) {
    lo + enc.lineFeedWidth <= e && LineFeedAt(s, e - enc.lineFeedWidth, enc)
  }

  /** The ends of all line feeds inside s[lo..hi], in order, counted from `base`. */
  function Ends(s: seq<Byte>, lo: nat, hi: nat, base: nat, enc: EncodingParameters): seq<nat>
    requires hi <= |s|
    decreases hi
  {
    if hi == 0 then []
    else Ends(s, lo, hi - 1, base, enc) + if EndsLine(s, lo, hi, enc) then [base + hi] else []
  }

  /** Reference: the ends of all line feeds of `s`. */
  function AllEnds(s: seq<Byte>, enc: EncodingParameters): seq<nat> {
    Ends(s, 0, |s|, 0, enc)
  }

  /** The list holds exactly the ends of the line feeds inside s[lo..hi]. */
  lemma {:induction false} EndsMembers(s: seq<Byte>, lo: nat, hi: nat, base: nat, enc: EncodingParameters, e: int)
    requires hi <= |s|
    ensures e in Ends(s, lo, hi, base, enc) <==> base < e <= base + hi && EndsLine(s, lo, e - base, enc)
    decreases hi
  {
    hide EndsLine;
    if hi > 0 {
      EndsMembers(s, lo, hi - 1, base, enc, e);
    }
  }

  ghost predicate Increasing(r: seq<nat>) {
    forall j, k :: 0 <= j < k < |r| ==> r[j] < r[k]
  }

  /** The list is strictly increasing and stays within the bounds. */
  lemma {:induction false} EndsIncrease(s: seq<Byte>, lo: nat, hi: nat, base: nat, enc: EncodingParameters)
    requires hi <= |s|
    ensures var r := Ends(s, lo, hi, base, enc);
            Increasing(r) && forall k :: 0 <= k < |r| ==> base + lo + enc.lineFeedWidth <= r[k] <= base + hi
    decreases hi
  {
    hide LineFeedAt;
    if hi > 0 {
      EndsIncrease(s, lo, hi - 1, base, enc);
    }
  }

  /** Later bytes do not change the line feeds of a prefix. */
  lemma {:induction false} EndsOfPrefix(s: seq<Byte>, t: seq<Byte>, lo: nat, hi: nat, base: nat, enc: EncodingParameters)
    requires hi <= |s|
    ensures Ends(s + t, lo, hi, base, enc) == Ends(s, lo, hi, base, enc)
    decreases hi
  {
    if hi > 0 {
      EndsOfPrefix(s, t, lo, hi - 1, base, enc);
      if lo + enc.lineFeedWidth <= hi {
        PatternOfPrefix(s, t, hi - enc.lineFeedWidth, enc, LF);
      }
    }
  }

  lemma NothingInShort(s: seq<Byte>, lo: nat, hi: nat, base: nat, enc: EncodingParameters)
    requires hi <= |s| && hi < lo + enc.lineFeedWidth
    ensures Ends(s, lo, hi, base, enc) == []
    decreases hi
  {
    if hi > 0 {
      NothingInShort(s, lo, hi - 1, base, enc);
    }
  }

  /** The line feeds of a block are those of the file that lie inside the block. */
  lemma {:induction false} EndsOfBlock(before: seq<Byte>, block: seq<Byte>, lo: nat, hi: nat, enc: EncodingParameters)
    requires hi <= |block| && enc.Valid()
    ensures Ends(before + block, |before| + lo, |before| + hi, 0, enc) == Ends(block, lo, hi, |before|, enc)
    decreases hi
  {
    if hi == 0 {
      NothingInShort(before + block, |before| + lo, |before|, 0, enc);
    } else {
      EndsOfBlock(before, block, lo, hi - 1, enc);
      if lo + enc.lineFeedWidth <= hi {
        ShiftPattern(before, block, hi - enc.lineFeedWidth, enc, LF);
      }
    }
  }

  lemma ShiftPattern(before: seq<Byte>, block: seq<Byte>, i: nat, enc: EncodingParameters, d: Byte)
    ensures PatternAt(before + block, |before| + i, enc, d) == PatternAt(block, i, enc, d)
  {
    var s, n := before + block, |before|;
    assert forall k :: 0 <= k < |block| ==> s[n + k] == block[k];
    if PatternAt(s, n + i, enc, d) {
      forall k | i <= k < i + enc.lineFeedWidth ensures block[k] == if k == i + enc.lineFeedIndex then d else NUL {
        assert s[n + k] == block[k];
      }
    }
  }

  lemma PatternOfPrefix(s: seq<Byte>, t: seq<Byte>, i: nat, enc: EncodingParameters, d: Byte)
    requires i + enc.lineFeedWidth <= |s|
    ensures PatternAt(s + t, i, enc, d) == PatternAt(s, i, enc, d)
  {
    assert forall k :: 0 <= k < |s| ==> (s + t)[k] == s[k];
  }

  // ---------- line feeds cut by a block edge ----------

  /** Two line feeds never overlap: one '\n' would have to be a zero byte. */
  lemma NoOverlap(s: seq<Byte>, i: nat, k: nat, enc: EncodingParameters)
    requires enc.Valid() && LineFeedAt(s, i, enc) && LineFeedAt(s, k, enc) && i < k
    ensures i + enc.lineFeedWidth <= k
  {
    var shared := s[if enc.lineFeedIndex == 0 then k else i + enc.lineFeedWidth - 1];
  }

  /** The ends in (mid, hi] of the line feeds that the edge `mid` cuts. */
  function CutEnds(s: seq<Byte>, mid: nat, hi: nat, enc: EncodingParameters): seq<nat>
    requires mid <= hi <= |s|
    decreases hi
  {
    if hi == mid then []
    else CutEnds(s, mid, hi - 1, enc)
         + if EndsLine(s, 0, hi, enc) && hi < mid + enc.lineFeedWidth then [hi] else []
  }

  lemma {:induction false} SplitEnds(s: seq<Byte>, mid: nat, hi: nat, enc: EncodingParameters)
    requires mid <= hi <= |s| && enc.Valid()
    ensures Ends(s, 0, hi, 0, enc) == Ends(s, 0, mid, 0, enc) + CutEnds(s, mid, hi, enc) + Ends(s, mid, hi, 0, enc)
    decreases hi
  {
    hide LineFeedAt;
    if hi < mid + enc.lineFeedWidth {
      NothingInShort(s, mid, hi, 0, enc);
    }
    if hi > mid {
      SplitEnds(s, mid, hi - 1, enc);
      if hi - 1 < mid + enc.lineFeedWidth {
        NothingInShort(s, mid, hi - 1, 0, enc);
      }
    }
  }

  /** Some line feed of `s` starts before the edge `mid` and ends after it. */
  ghost predicate CutAt(s: seq<Byte>, mid: nat, enc: EncodingParameters) {
    exists i: nat :: i < mid < i + enc.lineFeedWidth && LineFeedAt(s, i, enc)
  }

  lemma {:induction false} CutEndsMeaning(s: seq<Byte>, mid: nat, hi: nat, enc: EncodingParameters)
    requires mid <= hi <= |s|
    ensures CutEnds(s, mid, hi, enc) == [] <==>
            forall i: nat :: i < mid < i + enc.lineFeedWidth <= hi ==> !LineFeedAt(s, i, enc)
    decreases hi
  {
    hide LineFeedAt;
    if hi > mid {
      CutEndsMeaning(s, mid, hi - 1, enc);
      if enc.lineFeedWidth <= hi < mid + enc.lineFeedWidth {
        var i := hi - enc.lineFeedWidth;
        assert LineFeedAt(s, i, enc) ==> CutEnds(s, mid, hi, enc) != [];
      }
    }
  }

  // ---------- the blocks that were read ----------

  /** The blocks an index was built from, in reading order. */
  datatype Feed = Nothing | Read(earlier: Feed, block: seq<Byte>) {
    function Bytes(): seq<Byte> {
      if Nothing? then [] else earlier.Bytes() + block
    }
  }

  /** The line ends found when each block is searched on its own. */
  function Recognised(feed: Feed, enc: EncodingParameters): seq<nat> {
    match feed
    case Nothing => []
    case Read(earlier, block) =>
      Recognised(earlier, enc) + Ends(block, 0, |block|, |earlier.Bytes()|, enc)
  }

  /** No block edge cuts a line feed. */
  ghost predicate CutFree(feed: Feed, enc: EncodingParameters) {
    match feed
    case Nothing => true
    case Read(earlier, block) =>
      CutFree(earlier, enc) && !CutAt(feed.Bytes(), |earlier.Bytes()|, enc)
  }

  lemma AllEndsOfRead(earlier: Feed, block: seq<Byte>, enc: EncodingParameters)
    requires enc.Valid()
    ensures var s, mid := Read(earlier, block).Bytes(), |earlier.Bytes()|;
            && AllEnds(s, enc)
               == AllEnds(earlier.Bytes(), enc) + CutEnds(s, mid, |s|, enc) + Ends(block, 0, |block|, mid, enc)
            && (CutEnds(s, mid, |s|, enc) != [] <==> CutAt(s, mid, enc))
  {
    hide Ends, CutEnds, CutAt;
    AllEndsOfParts(earlier.Bytes(), block, enc);
  }

  lemma AllEndsOfParts(before: seq<Byte>, block: seq<Byte>, enc: EncodingParameters)
    requires enc.Valid()
    ensures var s, mid := before + block, |before|;
            && Ends(s, 0, |s|, 0, enc)
               == Ends(before, 0, mid, 0, enc) + CutEnds(s, mid, |s|, enc) + Ends(block, 0, |block|, mid, enc)
            && (CutEnds(s, mid, |s|, enc) != [] <==> CutAt(s, mid, enc))
  {
    hide *;
    var s, mid := before + block, |before|;
    SplitEnds(s, mid, |s|, enc);
    EndsOfPrefix(before, block, 0, mid, 0, enc);
    EndsOfBlock(before, block, 0, |block|, enc);
    CutEndsMeaning(s, mid, |s|, enc);
    NoCutBeyond(s, mid, enc);
  }

  lemma NoCutBeyond(s: seq<Byte>, mid: nat, enc: EncodingParameters)
    requires mid <= |s|
    ensures CutAt(s, mid, enc) <==>
            !forall i: nat :: i < mid < i + enc.lineFeedWidth <= |s| ==> !LineFeedAt(s, i, enc)
  {
  }

  lemma {:induction false} RecognisedCount(feed: Feed, enc: EncodingParameters)
    requires enc.Valid()
    ensures |Recognised(feed, enc)| <= |AllEnds(feed.Bytes(), enc)|
    ensures CutFree(feed, enc) ==> Recognised(feed, enc) == AllEnds(feed.Bytes(), enc)
    ensures !CutFree(feed, enc) ==> |Recognised(feed, enc)| < |AllEnds(feed.Bytes(), enc)|
  {
    hide Ends, CutEnds, CutAt;
    match feed
    case Nothing => EmptyHasNoEnds(enc);
    case Read(earlier, block) =>
      RecognisedCount(earlier, enc);
      AllEndsOfRead(earlier, block, enc);
  }

  lemma EmptyHasNoEnds(enc: EncodingParameters)
    ensures AllEnds([], enc) == []
  {
  }

  /**
   * Searching block by block finds all line ends if and only if no block edge cuts a line feed:
   * then the result does not depend on how the file was split.
   */
  lemma BlockwiseIsExact(feed: Feed, enc: EncodingParameters)
    requires enc.Valid()
    ensures Recognised(feed, enc) == AllEnds(feed.Bytes(), enc) <==> CutFree(feed, enc)
  {
    RecognisedCount(feed, enc);
  }

  /** A line feed of one byte is never cut. */
  lemma {:induction false} SingleByteIsCutFree(feed: Feed)
    ensures CutFree(feed, SingleByte)
  {
    if feed.Read? {
      SingleByteIsCutFree(feed.earlier);
    }
  }

  /**
   * A UTF-16 file that was indexed while its last line feed was half written, and continued: none
   * is recognised, although one ends at 4.
   */
  lemma CutLineFeedMissed()
    ensures var feed, utf16 := Read(Read(Nothing, [65, 0, 10]), [0, 66, 0]), EncodingParameters(2, 0);
            Recognised(feed, utf16) == [] && 4 in AllEnds(feed.Bytes(), utf16) && !CutFree(feed, utf16)
  {
    var utf16 := EncodingParameters(2, 0);
    var first: seq<Byte>, second: seq<Byte> := [65, 0, 10], [0, 66, 0];
    var feed := Read(Read(Nothing, first), second);
    BytesOfTwo(first, second);
    NoLineFeedIn(first, 0, utf16);
    NoLineFeedIn(second, 3, utf16);
    LineFeedEndsAtFour(first + second);
    hide Ends, EndsLine, AllEnds, CutFree, Feed.Bytes;
    BlockwiseIsExact(feed, utf16);
  }

  lemma BytesOfTwo(first: seq<Byte>, second: seq<Byte>)
    ensures Read(Nothing, first).Bytes() == first && Read(Read(Nothing, first), second).Bytes() == first + second
  {
  }

  lemma LineFeedEndsAtFour(s: seq<Byte>)
    requires |s| == 6 && s[2] == LF && s[3] == NUL
    ensures 4 in AllEnds(s, EncodingParameters(2, 0))
  {
    EndsMembers(s, 0, 6, 0, EncodingParameters(2, 0), 4);
    hide Ends;
  }

  lemma NoLineFeedIn(s: seq<Byte>, base: nat, enc: EncodingParameters)
    requires enc.lineFeedWidth == 2 && enc.lineFeedIndex == 0 && |s| == 3 && s[0] != LF && s[1] != LF
    ensures Ends(s, 0, 3, base, enc) == []
  {
    assert Ends(s, 0, 1, base, enc) == Ends(s, 0, 0, base, enc) == [];
    assert Ends(s, 0, 2, base, enc) == [];
  }
}
