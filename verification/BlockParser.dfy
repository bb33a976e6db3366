/** The line feed search and the block parser of `logdataworker.cpp`. */
module BlockParser {
  import opened Bytes
  import opened LineFeeds

  /** `p` is the first '\n' (or other delimiter) byte of a complete delimiter inside `data`. */
  ghost predicate FirstDelimiter(data: seq<Byte>, p: Option<nat>, enc: EncodingParameters, delimiter: Byte) {
    match p
    case None => NoDelimiter(data, |data|, enc, delimiter)
    case Some(q) =>
      && enc.lineFeedIndex <= q < |data|
      && PatternAt(data, q - enc.lineFeedIndex, enc, delimiter)
      && NoDelimiter(data, q, enc, delimiter)
  }

  /** No complete delimiter has its delimiter byte before `n`. */
  ghost predicate NoDelimiter(data: seq<Byte>, n: nat, enc: EncodingParameters, delimiter: Byte) {
    forall i: nat :: i + enc.lineFeedIndex < n ==> !PatternAt(data, i, enc, delimiter)
  }

  method IsNotDelimiter(enc: EncodingParameters, data: seq<Byte>, delimiter: Byte, checkPos: nat) returns (r: bool)
    requires enc.Valid() && checkPos < |data| && data[checkPos] == delimiter
    ensures !r <==> enc.lineFeedIndex <= checkPos && PatternAt(data, checkPos - enc.lineFeedIndex, enc, delimiter)
  {
    var isCheckForward := enc.lineFeedIndex == 0;
    if isCheckForward && checkPos + enc.lineFeedWidth > |data| {
      return true;
    } else if !isCheckForward && checkPos < enc.lineFeedWidth - 1 {
      return true;
    }
    for i := 1 to enc.lineFeedWidth
      invariant forall k :: (if isCheckForward then checkPos < k < checkPos + i else checkPos - i < k < checkPos)
                            ==> data[k] == NUL
    {
      var nextByte := if isCheckForward then data[checkPos + i] else data[checkPos - i];
      if nextByte != NUL {
        return true;
      }
    }
    ZerosAround(data, checkPos, enc, delimiter);
    return false;
  }

  lemma ZerosAround(data: seq<Byte>, checkPos: nat, enc: EncodingParameters, delimiter: Byte)
    requires enc.Valid() && checkPos < |data| && data[checkPos] == delimiter
    requires if enc.lineFeedIndex == 0 then checkPos + enc.lineFeedWidth <= |data| else enc.lineFeedWidth - 1 <= checkPos
    requires forall k :: (if enc.lineFeedIndex == 0 then checkPos < k < checkPos + enc.lineFeedWidth
                          else checkPos - enc.lineFeedWidth < k < checkPos) ==> data[k] == NUL
    ensures PatternAt(data, checkPos - enc.lineFeedIndex, enc, delimiter)
  {
  }

  method FindNextMultiByteDelimiter(enc: EncodingParameters, data: seq<Byte>, delimiter: Byte)
    returns (nextDelimiter: Option<nat>)
    requires enc.Valid()
    ensures FirstDelimiter(data, nextDelimiter, enc, delimiter)
  {
    nextDelimiter := Find(data, delimiter, 0);
    DelimiterFound(data, 0, nextDelimiter, enc, delimiter);
    if nextDelimiter.None? {
      return;
    }
    var isNotDelimiter := IsNotDelimiter(enc, data, delimiter, nextDelimiter.value);
    while nextDelimiter.Some? && isNotDelimiter
      invariant nextDelimiter.Some? ==> nextDelimiter.value < |data| && data[nextDelimiter.value] == delimiter
      invariant nextDelimiter.Some? ==>
                  (!isNotDelimiter <==> enc.lineFeedIndex <= nextDelimiter.value
                                        && PatternAt(data, nextDelimiter.value - enc.lineFeedIndex, enc, delimiter))
      invariant NoDelimiter(data, if nextDelimiter.Some? then nextDelimiter.value else |data|, enc, delimiter)
      decreases if nextDelimiter.Some? then |data| - nextDelimiter.value else 0
    {
      var start := nextDelimiter.value + 1;
      nextDelimiter := Find(data, delimiter, start);
      DelimiterFound(data, start, nextDelimiter, enc, delimiter);
      if nextDelimiter.Some? {
        isNotDelimiter := IsNotDelimiter(enc, data, delimiter, nextDelimiter.value);
      }
    }
  }

  /** Only positions of the delimiter byte can hold a delimiter. */
  lemma DelimiterFound(data: seq<Byte>, from: nat, p: Option<nat>, enc: EncodingParameters, delimiter: Byte)
    requires enc.Valid() && from <= |data| && p == Find(data, delimiter, from)
    requires NoDelimiter(data, from, enc, delimiter)
    ensures NoDelimiter(data, if p.Some? then p.value else |data|, enc, delimiter)
  {
    forall i: nat | i + enc.lineFeedIndex < (if p.Some? then p.value else |data|)
      ensures !PatternAt(data, i, enc, delimiter)
    {
      if i + enc.lineFeedIndex >= from {
        assert data[i + enc.lineFeedIndex] != delimiter;
      }
    }
  }

  method FindNextSingleByteDelimiter(enc: EncodingParameters, data: seq<Byte>, delimiter: Byte)
    returns (nextDelimiter: Option<nat>)
    requires enc == SingleByte
    ensures FirstDelimiter(data, nextDelimiter, enc, delimiter)
  {
    nextDelimiter := Find(data, delimiter, 0);
    DelimiterFound(data, 0, nextDelimiter, enc, delimiter);
  }

  /** The start of the next line feed at or after `posWithinBlock`, or the end of the block. */
  method FindNextLineFeed(block: seq<Byte>, posWithinBlock: nat, enc: EncodingParameters)
    returns (isEndOfBlock: bool, lineFeed: nat)
    requires enc.Valid() && posWithinBlock <= |block|
    ensures isEndOfBlock ==> forall i: nat :: posWithinBlock <= i ==> !LineFeedAt(block, i, enc)
    ensures !isEndOfBlock ==> posWithinBlock <= lineFeed && LineFeedAt(block, lineFeed, enc)
    ensures !isEndOfBlock ==> forall i: nat :: posWithinBlock <= i < lineFeed ==> !LineFeedAt(block, i, enc)
  {
    var blockView := block[posWithinBlock..];
    var nextLineFeed;
    if enc.lineFeedWidth == 1 {
      nextLineFeed := FindNextSingleByteDelimiter(enc, blockView, LF);
    } else {
      nextLineFeed := FindNextMultiByteDelimiter(enc, blockView, LF);
    }
    DelimiterInView(block, posWithinBlock, nextLineFeed, enc);
    isEndOfBlock := nextLineFeed.None?;
    lineFeed := if isEndOfBlock then |block| else posWithinBlock + nextLineFeed.value - enc.lineFeedIndex;
  }

  lemma DelimiterInView(block: seq<Byte>, from: nat, p: Option<nat>, enc: EncodingParameters)
    requires enc.Valid() && from <= |block| && FirstDelimiter(block[from..], p, enc, LF)
    ensures p.None? ==> forall i: nat :: from <= i ==> !LineFeedAt(block, i, enc)
    ensures p.Some? ==> enc.lineFeedIndex <= p.value && LineFeedAt(block, from + p.value - enc.lineFeedIndex, enc)
    ensures p.Some? ==> forall i: nat :: from <= i < from + p.value - enc.lineFeedIndex ==> !LineFeedAt(block, i, enc)
  {
    hide PatternAt;
    assert block == block[..from] + block[from..];
    forall i: nat | from <= i ensures LineFeedAt(block, i, enc) == PatternAt(block[from..], i - from, enc, LF) {
      ShiftPattern(block[..from], block[from..], i - from, enc, LF);
    }
    if p.None? {
      forall i: nat | from <= i ensures !LineFeedAt(block, i, enc) {
        OutsidePattern(block, i, enc);
      }
    }
  }

  lemma OutsidePattern(block: seq<Byte>, i: nat, enc: EncodingParameters)
    ensures LineFeedAt(block, i, enc) ==> i + enc.lineFeedWidth <= |block|
  {
  }

  /** Up to its end, a stretch whose first line feed starts at `i` has that one only. */
  lemma {:induction false} FirstEnd(s: seq<Byte>, lo: nat, i: nat, hi: nat, base: nat, enc: EncodingParameters)
    requires enc.Valid() && lo <= i && LineFeedAt(s, i, enc) && i + enc.lineFeedWidth <= hi <= |s|
    requires forall j: nat :: lo <= j < i ==> !LineFeedAt(s, j, enc)
    ensures var next := i + enc.lineFeedWidth;
            Ends(s, lo, hi, base, enc) == [base + next] + Ends(s, next, hi, base, enc)
    decreases hi
  {
    hide LineFeedAt;
    var next := i + enc.lineFeedWidth;
    if hi == next {
      NoEnds(s, lo, hi - 1, base, enc);
      NothingInShort(s, next, hi, base, enc);
    } else {
      FirstEnd(s, lo, i, hi - 1, base, enc);
      var k := hi - enc.lineFeedWidth;
      if LineFeedAt(s, k, enc) && i < k {
        NoOverlap(s, i, k, enc);
      }
    }
  }

  lemma {:induction false} NoEnds(s: seq<Byte>, lo: nat, hi: nat, base: nat, enc: EncodingParameters)
    requires hi <= |s|
    requires forall j: nat :: lo <= j && j + enc.lineFeedWidth <= hi ==> !LineFeedAt(s, j, enc)
    ensures Ends(s, lo, hi, base, enc) == []
    decreases hi
  {
    hide LineFeedAt;
    if hi > 0 {
      NoEnds(s, lo, hi - 1, base, enc);
    }
  }

  /**
   * Finds the line ends of one block. `pos` is the end of the last line seen so far, which can lie
   * before the block.
   */
  method ParseDataBlock(blockBeginning: nat, block: seq<Byte>, pos: nat, enc: EncodingParameters)
    returns (linePositions: seq<nat>, newPos: nat)
    requires enc.Valid()
    ensures pos > blockBeginning + |block| ==> linePositions == []
    ensures pos <= blockBeginning + |block| ==>
              linePositions == Ends(block, Max(0, pos - blockBeginning), |block|, blockBeginning, enc)
    ensures newPos == if linePositions == [] then pos else linePositions[|linePositions| - 1]
  {
    hide Ends, LineFeedAt;
    linePositions, newPos := [], pos;
    var isEndOfBlock := false;
    ghost var from := Max(0, pos - blockBeginning);
    while !isEndOfBlock
      invariant newPos == if linePositions == [] then pos else linePositions[|linePositions| - 1]
      invariant linePositions != [] ==> blockBeginning <= newPos <= blockBeginning + |block|
      invariant pos > blockBeginning + |block| ==> linePositions == []
      invariant pos <= blockBeginning + |block| ==>
                  Ends(block, from, |block|, blockBeginning, enc)
                  == if isEndOfBlock then linePositions
                     else linePositions + Ends(block, Max(0, newPos - blockBeginning), |block|, blockBeginning, enc)
      decreases !isEndOfBlock, blockBeginning + |block| - newPos
    {
      if newPos > blockBeginning + |block| {
        break;
      }
      var posWithinBlock := if newPos >= blockBeginning then newPos - blockBeginning else 0;
      isEndOfBlock := posWithinBlock == |block|;
      var lineFeed := |block|;
      if !isEndOfBlock {
        isEndOfBlock, lineFeed := FindNextLineFeed(block, posWithinBlock, enc);
      }
      if isEndOfBlock {
        NoMore(block, posWithinBlock, blockBeginning, enc);
      } else {
        OutsidePattern(block, lineFeed, enc);
        FirstEnd(block, posWithinBlock, lineFeed, |block|, blockBeginning, enc);
        var end := lineFeed + blockBeginning;
        newPos := end + enc.lineFeedWidth;
        linePositions := linePositions + [newPos];
      }
    }
  }

  lemma NoMore(block: seq<Byte>, from: nat, base: nat, enc: EncodingParameters)
    requires enc.Valid()
    requires from == |block| || forall i: nat :: from <= i ==> !LineFeedAt(block, i, enc)
    ensures Ends(block, from, |block|, base, enc) == []
  {
    NoEnds(block, from, |block|, base, enc);
  }
}
