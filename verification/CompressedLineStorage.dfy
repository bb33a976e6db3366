/**
 * The compressed list of line ends (`compressedlinestorage.cpp`). Every 128 positions are packed
 * into one StreamVByte block of a shared byte buffer; the tail of the list is kept unpacked.
 */
module CompressedLineStorage {
  import opened Bytes
  import opened StreamVByte

  datatype BlockMetadata = BlockMetadata(firstLineOffset: nat, packetStorageOffset: nat)

  /** The offsets of a block fit into 32 bits once its first position is subtracted. */
  ghost predicate InSpan(ps: seq<nat>) {
    forall i :: 0 <= i < |ps| ==> ps[0] <= ps[i] < ps[0] + 0x1_0000_0000
  }

  function Shift(ps: seq<nat>): (r: seq<Word>)
    requires InSpan(ps)
    ensures |r| == |ps|
    ensures forall i :: 0 <= i < |ps| ==> r[i] == ps[i] - ps[0]
  {
    seq(|ps|, i requires 0 <= i < |ps| => ps[i] - ps[0])
  }

  lemma ShiftSnoc(ps: seq<nat>, pos: nat)
    requires InSpan(ps + [pos])
    ensures InSpan(ps) && (ps + [pos])[0] <= pos < (ps + [pos])[0] + 0x1_0000_0000
    ensures Shift(ps + [pos]) == Shift(ps) + [pos - (ps + [pos])[0]]
  {
    var t := ps + [pos];
    forall i | 0 <= i < |ps| ensures ps[0] <= ps[i] < ps[0] + 0x1_0000_0000 {
      assert t[0] <= t[i] < t[0] + 0x1_0000_0000;
    }
    assert t[|ps|] == pos;
    forall i | 0 <= i < |t| ensures Shift(t)[i] == (Shift(ps) + [pos - t[0]])[i] {
      if i < |ps| {
        assert t[i] == ps[i] && t[0] == ps[0];
      }
    }
  }

  function Unshift(words: seq<Word>, first: nat): (r: seq<nat>)
    ensures |r| == |words|
    ensures forall i :: 0 <= i < |words| ==> r[i] == words[i] + first
  {
    seq(|words|, i requires 0 <= i < |words| => words[i] + first)
  }

  /** What the packing demands of a list: each aligned group of 128 spans less than 2^32. */
  ghost predicate BlockSpans(s: seq<nat>) {
    forall i :: 0 <= i < |s| ==> s[i / 128 * 128] <= s[i] < s[i / 128 * 128] + 0x1_0000_0000
  }

  /** Any list in order that spans less than 2^32, as that of every file under 4 GiB, can be packed. */
  lemma SmallListsCanBePacked(s: seq<nat>)
    requires forall i, j :: 0 <= i <= j < |s| ==> s[i] <= s[j]
    requires s != [] ==> s[|s| - 1] - s[0] < 0x1_0000_0000
    ensures BlockSpans(s)
  {
    forall i | 0 <= i < |s| ensures s[i / 128 * 128] <= s[i] < s[i / 128 * 128] + 0x1_0000_0000 {
      assert s[0] <= s[i / 128 * 128] <= s[i] <= s[|s| - 1];
    }
  }

  function Block(s: seq<nat>, b: nat): (ps: seq<nat>)
    requires 128 * b + 128 <= |s|
    ensures |ps| == 128
  {
    s[128 * b..128 * b + 128]
  }

  /** Block `block` of the buffer holds the positions `ps`. */
  ghost predicate Stored(packed: seq<Byte>, block: BlockMetadata, ps: seq<nat>) {
    && |ps| == 128 && InSpan(ps)
    && block.firstLineOffset == ps[0]
    && Holds(packed, block.packetStorageOffset, Encode(Shift(ps)))
  }

  ghost function BlockEnd(block: BlockMetadata, ps: seq<nat>): nat
    requires InSpan(ps)
  {
    block.packetStorageOffset + |Encode(Shift(ps))|
  }

  /** The blocks hold the list's full groups, one after the other, inside the used part of the buffer. */
  ghost predicate Layout(blocks: seq<BlockMetadata>, packed: seq<Byte>, used: nat, s: seq<nat>) {
    && used <= |packed|
    && 128 * |blocks| <= |s|
    && (forall b :: 0 <= b < |blocks| ==>
          Stored(packed, blocks[b], Block(s, b)) && BlockEnd(blocks[b], Block(s, b)) <= used)
    && (forall a, b :: 0 <= a < b < |blocks| ==>
          BlockEnd(blocks[a], Block(s, a)) <= blocks[b].packetStorageOffset)
  }

  /** Decoding a stored block yields its positions. */
  lemma StoredDecodes(packed: seq<Byte>, block: BlockMetadata, ps: seq<nat>)
    requires Stored(packed, block, ps)
    ensures var words := Decode(packed, block.packetStorageOffset, 128);
            words == Shift(ps) && Unshift(words, block.firstLineOffset) == ps
  {
    hide Encode, Decode, Holds;
    RoundTrip(Shift(ps), packed, block.packetStorageOffset);
  }

  lemma StoredKept(packed: seq<Byte>, packed': seq<Byte>, used: nat, block: BlockMetadata, ps: seq<nat>)
    requires used <= |packed| && used <= |packed'| && packed[..used] == packed'[..used]
    requires Stored(packed, block, ps) && BlockEnd(block, ps) <= used
    ensures Stored(packed', block, ps)
  {
    hide Encode, Shift;
    var at, n := block.packetStorageOffset, |Encode(Shift(ps))|;
    SliceOfPrefix(packed, used, at, at + n);
    SliceOfPrefix(packed', used, at, at + n);
  }

  /** Only the full groups of the list matter to the packed blocks. */
  lemma LayoutOf(blocks: seq<BlockMetadata>, packed: seq<Byte>, used: nat, s: seq<nat>, t: seq<nat>)
    requires Layout(blocks, packed, used, s)
    requires 128 * |blocks| <= |t| && t[..128 * |blocks|] == s[..128 * |blocks|]
    ensures Layout(blocks, packed, used, t)
  {
    hide Stored, BlockEnd;
    var n := 128 * |blocks|;
    forall b | 0 <= b < |blocks| ensures Block(s, b) == Block(t, b) {
      SliceOfPrefix(s, n, 128 * b, 128 * b + 128);
      SliceOfPrefix(t, n, 128 * b, 128 * b + 128);
    }
  }

  /** Packing one more block at the end of the used part keeps all the others. */
  lemma LayoutGrows(blocks: seq<BlockMetadata>, packed: seq<Byte>, packed': seq<Byte>, used: nat,
                    block: BlockMetadata, s: seq<nat>)
    requires Layout(blocks, packed, used, s)
    requires used <= |packed'| && packed[..used] == packed'[..used]
    requires |s| == 128 * |blocks| + 128
    requires Stored(packed', block, Block(s, |blocks|)) && block.packetStorageOffset == used
    ensures Layout(blocks + [block], packed', BlockEnd(block, Block(s, |blocks|)), s)
  {
    hide Block;
    StoredFits(packed', block, Block(s, |blocks|));
    forall b | 0 <= b < |blocks| ensures Stored(packed', blocks[b], Block(s, b)) {
      StoredKept(packed, packed', used, blocks[b], Block(s, b));
    }
    hide Stored, BlockEnd;
  }

  lemma StoredFits(packed: seq<Byte>, block: BlockMetadata, ps: seq<nat>)
    requires Stored(packed, block, ps)
    ensures block.packetStorageOffset <= BlockEnd(block, ps) <= |packed|
  {
  }

  lemma LayoutDecodes(blocks: seq<BlockMetadata>, packed: seq<Byte>, used: nat, s: seq<nat>, b: nat)
    requires Layout(blocks, packed, used, s) && b < |blocks|
    ensures 128 * b + 128 <= |s|
    ensures Unshift(Decode(packed, blocks[b].packetStorageOffset, 128), blocks[b].firstLineOffset) == Block(s, b)
  {
    hide Decode, Unshift, Shift, Stored, BlockEnd;
    StoredDecodes(packed, blocks[b], Block(s, b));
  }

  function Resize(s: seq<Byte>, n: nat): (r: seq<Byte>)
    ensures |r| == n
    ensures forall i :: 0 <= i < n && i < |s| ==> r[i] == s[i]
  {
    if n <= |s| then s[..n] else s + seq(n - |s|, _ => 0)
  }

  /** Writes `part` over the bytes from `at` on. */
  function Overwrite(s: seq<Byte>, at: nat, part: seq<Byte>): (r: seq<Byte>)
    requires at + |part| <= |s|
    ensures |r| == |s| && r[..at] == s[..at] && Holds(r, at, part)
  {
    s[..at] + part + s[at + |part|..]
  }

  /**
   * The buffer after one more block: grown to the worst case past the used part, then written to.
   * That the writing stays inside the grown buffer is the precondition of `Overwrite`.
   */
  function Pack(packed: seq<Byte>, used: nat, words: seq<Word>): (r: seq<Byte>)
    requires used <= |packed|
    ensures |r| == used + MaxCompressedBytes(|words|)
    ensures r[..used] == packed[..used] && Holds(r, used, Encode(words))
  {
    hide Encode, Holds;
    var grown := Resize(packed, used + MaxCompressedBytes(|words|));
    EncodeBound(words);
    assert grown[..used] == packed[..used];
    Overwrite(grown, used, Encode(words))
  }

  lemma PackLayout(blocks: seq<BlockMetadata>, packed: seq<Byte>, used: nat, s: seq<nat>, ps: seq<nat>)
    requires Layout(blocks, packed, used, s)
    requires |s| == 128 * |blocks| + 128 && s[128 * |blocks|..] == ps && InSpan(ps)
    ensures used <= |packed|
    ensures var words := Shift(ps);
            Layout(blocks + [BlockMetadata(ps[0], used)], Pack(packed, used, words), used + |Encode(words)|, s)
  {
    hide Encode, Holds, Shift, InSpan;
    var block := BlockMetadata(ps[0], used);
    assert Block(s, |blocks|) == ps;
    LayoutGrows(blocks, packed, Pack(packed, used, Shift(ps)), used, block, s);
  }

  lemma SpansExtend(s: seq<nat>, pos: nat)
    requires BlockSpans(s + [pos])
    ensures BlockSpans(s)
    ensures InSpan((s + [pos])[|s| / 128 * 128..])
  {
    var t := s + [pos];
    var n := |s| / 128 * 128;
    forall i | 0 <= i < |s| ensures s[i / 128 * 128] <= s[i] < s[i / 128 * 128] + 0x1_0000_0000 {
      assert t[i] == s[i];
    }
    forall k | 0 <= k < |t[n..]| ensures t[n..][0] <= t[n..][k] < t[n..][0] + 0x1_0000_0000 {
      assert (n + k) / 128 * 128 == n;
    }
  }

  lemma SpansPrefix(s: seq<nat>, n: nat)
    requires n <= |s| && BlockSpans(s)
    ensures BlockSpans(s[..n])
  {
    forall i | 0 <= i < n ensures s[..n][i / 128 * 128] <= s[..n][i] < s[..n][i / 128 * 128] + 0x1_0000_0000 {
      assert s[..n][i] == s[i] && s[..n][i / 128 * 128] == s[i / 128 * 128];
    }
  }

  lemma DropLast(s: seq<nat>, n: nat, tail: seq<nat>)
    requires n <= |s| && s[n..] == tail && tail != [] && InSpan(tail)
    ensures s[..|s| - 1][n..] == tail[..|tail| - 1] && s[..|s| - 1][..n] == s[..n]
    ensures InSpan(tail[..|tail| - 1]) && Shift(tail[..|tail| - 1]) == Shift(tail)[..|tail| - 1]
  {
    var t := tail[..|tail| - 1];
    assert tail == t + [tail[|t|]];
    ShiftSnoc(t, tail[|t|]);
  }

  /** `result` is the part of s[first..end] that lies before block `b`. */
  ghost predicate Copied(s: seq<nat>, first: nat, end: nat, b: nat, result: seq<nat>) {
    first <= end <= |s| && result == s[first..Max(first, Min(128 * b, end))]
  }

  lemma CopyPlan(s: seq<nat>, first: nat, end: nat, n: nat, tail: seq<nat>)
    requires first < end <= |s| == 128 * n + |tail| && s[128 * n..] == tail && |tail| < 128
    ensures first / 128 <= (end - 1) / 128 <= n
    ensures Copied(s, first, end, first / 128, [])
    ensures first / 128 == n ==>
              first % 128 <= (end - 1) % 128 < |tail| && tail[first % 128..(end - 1) % 128 + 1] == s[first..end]
  {
    if first / 128 == n {
      SliceOfSlice(s, 128 * n, |s|, first % 128, (end - 1) % 128 + 1);
    }
  }

  lemma CopyStep(s: seq<nat>, first: nat, end: nat, b: nat, result: seq<nat>, unpacked: seq<nat>, lo: nat, hi: nat)
    requires first < end && first / 128 <= b <= (end - 1) / 128 && Copied(s, first, end, b, result)
    requires 128 * b + 128 <= |s| && unpacked == Block(s, b)
    requires lo == if b == first / 128 then first % 128 else 0
    requires hi == if b == (end - 1) / 128 then (end - 1) % 128 + 1 else 128
    ensures lo <= hi <= |unpacked| && Copied(s, first, end, b + 1, result + unpacked[lo..hi])
  {
    SliceOfSlice(s, 128 * b, 128 * b + 128, lo, hi);
    JoinSlices(s, first, 128 * b + lo, 128 * b + hi);
  }

  lemma CopyEnd(s: seq<nat>, first: nat, end: nat, n: nat, result: seq<nat>, tail: seq<nat>)
    requires first < end <= |s| == 128 * n + |tail| && s[128 * n..] == tail && |tail| < 128 && first < 128 * n
    requires var last := (end - 1) / 128; Copied(s, first, end, if last < n then last + 1 else n, result)
    ensures if (end - 1) / 128 == n
            then (end - 1) % 128 < |tail| && result + tail[..(end - 1) % 128 + 1] == s[first..end]
            else result == s[first..end]
  {
    if (end - 1) / 128 == n {
      SliceOfSlice(s, 128 * n, |s|, 0, (end - 1) % 128 + 1);
      JoinSlices(s, first, 128 * n, end);
    }
  }

  /** Where a new position goes: behind the current block, which stays within its span. */
  lemma AppendPlan(s: seq<nat>, n: nat, current: seq<nat>, pos: nat)
    requires |s| == 128 * n + |current| && |current| < 128 && s[128 * n..] == current && BlockSpans(s + [pos])
    requires InSpan(current)
    ensures InSpan(current + [pos]) && (current + [pos])[0] <= pos < (current + [pos])[0] + 0x1_0000_0000
    ensures Shift(current + [pos]) == Shift(current) + [pos - (current + [pos])[0]]
    ensures BlockSpans(s)
    ensures InSpan([]) && Shift([]) == []
    ensures (s + [pos])[128 * n..] == current + [pos] && (s + [pos])[..128 * n] == s[..128 * n]
  {
    SpansExtend(s, pos);
    assert (s + [pos])[128 * n..] == s[128 * n..] + [pos];
    assert |s| / 128 * 128 == 128 * n;
    hide BlockSpans, Shift;
    ShiftSnoc(current, pos);
  }

  class CompressedLinePositionStorage {
    var blocks: seq<BlockMetadata>
    var packedLinesStorage: seq<Byte>
    var packedLinesStorageUsedSize: nat
    var currentLinesBlock: seq<nat>
    var currentLinesBlockShifted: seq<Word>
    var nbLines: nat
    var lastPos: nat

    /** The plain list of positions that this object stands for. */
    ghost var contents: seq<nat>

    ghost predicate Consistent()
      reads this
    {
      && |currentLinesBlock| < 128
      && InSpan(currentLinesBlock) && currentLinesBlockShifted == Shift(currentLinesBlock)
      && nbLines == |contents| == 128 * |blocks| + |currentLinesBlock|
      && contents[128 * |blocks|..] == currentLinesBlock
      && Layout(blocks, packedLinesStorage, packedLinesStorageUsedSize, contents)
    }

    ghost predicate Valid()
      reads this
    {
      && Consistent()
      && lastPos == (if contents == [] then 0 else contents[|contents| - 1])
    }

    constructor ()
      ensures Valid() && contents == []
    {
      blocks, packedLinesStorage, packedLinesStorageUsedSize := [], [], 0;
      currentLinesBlock, currentLinesBlockShifted := [], [];
      nbLines, lastPos := 0, 0;
      contents := [];
    }

    method Append(pos: nat)
      requires Valid() && BlockSpans(contents + [pos])
      modifies this
      ensures Valid() && contents == old(contents) + [pos]
    {
      hide Layout, InSpan, Shift, BlockSpans;
      ghost var whole := contents + [pos];
      AppendPlan(contents, |blocks|, currentLinesBlock, pos);
      currentLinesBlock := currentLinesBlock + [pos];
      currentLinesBlockShifted := currentLinesBlockShifted + [pos - currentLinesBlock[0]];
      LayoutOf(blocks, packedLinesStorage, packedLinesStorageUsedSize, contents, whole);
      contents := whole;
      if |currentLinesBlock| == 128 {
        CompressCurrentBlock();
      }
      lastPos := pos;
      nbLines := nbLines + 1;
    }

    method CompressCurrentBlock()
      requires |currentLinesBlock| == 128
      requires InSpan(currentLinesBlock) && currentLinesBlockShifted == Shift(currentLinesBlock)
      requires |contents| == 128 * |blocks| + 128 && contents[128 * |blocks|..] == currentLinesBlock
      requires Layout(blocks, packedLinesStorage, packedLinesStorageUsedSize, contents)
      modifies this
      ensures contents == old(contents) && nbLines == old(nbLines) && lastPos == old(lastPos)
      ensures |blocks| == |old(blocks)| + 1
      ensures currentLinesBlock == [] && currentLinesBlockShifted == []
      ensures Layout(blocks, packedLinesStorage, packedLinesStorageUsedSize, contents)
    {
      hide Encode, Pack;
      PackLayout(blocks, packedLinesStorage, packedLinesStorageUsedSize, contents, currentLinesBlock);
      hide *;
      var block := BlockMetadata(currentLinesBlock[0], packedLinesStorageUsedSize);
      packedLinesStorage := Pack(packedLinesStorage, packedLinesStorageUsedSize, currentLinesBlockShifted);
      packedLinesStorageUsedSize := packedLinesStorageUsedSize + |Encode(currentLinesBlockShifted)|;
      blocks := blocks + [block];
      currentLinesBlock, currentLinesBlockShifted := [], [];
    }

    method AppendList(positions: seq<nat>)
      requires Valid() && BlockSpans(contents + positions)
      modifies this
      ensures Valid() && contents == old(contents) + positions
    {
      hide *;
      ghost var before := contents;
      for i := 0 to |positions|
        invariant Valid() && contents == before + positions[..i]
      {
        SpansPrefix(before + positions, |before| + i + 1);
        assert (before + positions)[..|before| + i + 1] == contents + [positions[i]];
        Append(positions[i]);
      }
      assert positions[..|positions|] == positions;
    }

    function Size(): (n: nat)
      requires Valid()
      reads this
      ensures n == |contents|
    {
      nbLines
    }

    /** The position at `index`, or nothing where the original throws. */
    method At(index: nat) returns (pos: Option<nat>)
      requires Consistent()
      ensures pos == if index < |contents| then Some(contents[index]) else None
    {
      hide Encode, Decode, Holds, Shift, Unshift;
      if index >= nbLines {
        return None;
      }
      var blockIndex, indexInBlock := index / 128, index % 128;
      if blockIndex == |blocks| {
        return Some(currentLinesBlock[indexInBlock]);
      }
      var block := blocks[blockIndex];
      StoredDecodes(packedLinesStorage, block, Block(contents, blockIndex));
      var unpackedBlock := Decode(packedLinesStorage, block.packetStorageOffset, 128);
      return Some(block.firstLineOffset + unpackedBlock[indexInBlock]);
    }

    method UncompressLastBlock()
      requires Consistent() && currentLinesBlock == [] && blocks != []
      modifies this
      ensures contents == old(contents) && nbLines == old(nbLines)
      ensures blocks == old(blocks)[..|old(blocks)| - 1]
      ensures currentLinesBlock == contents[128 * |blocks|..] && |currentLinesBlock| == 128
      ensures InSpan(currentLinesBlock) && currentLinesBlockShifted == Shift(currentLinesBlock)
      ensures Layout(blocks, packedLinesStorage, packedLinesStorageUsedSize, contents)
    {
      hide Encode, Decode, Holds, Shift, Unshift;
      var block := blocks[|blocks| - 1];
      StoredDecodes(packedLinesStorage, block, Block(contents, |blocks| - 1));
      currentLinesBlockShifted := Decode(packedLinesStorage, block.packetStorageOffset, 128);
      currentLinesBlock := Unshift(currentLinesBlockShifted, block.firstLineOffset);
      assert Block(contents, |blocks| - 1) == contents[128 * (|blocks| - 1)..];
      blocks := blocks[..|blocks| - 1];
    }

    /** Removes the last position; the space of an unpacked block is not given back. */
    method PopBack()
      requires Valid()
      modifies this
      ensures Valid() && contents == if old(contents) == [] then [] else old(contents)[..|old(contents)| - 1]
    {
      hide Layout, InSpan, Shift;
      if currentLinesBlock == [] && blocks != [] {
        UncompressLastBlock();
      }
      if currentLinesBlock != [] {
        ghost var shorter := contents[..|contents| - 1];
        LayoutOf(blocks, packedLinesStorage, packedLinesStorageUsedSize, contents, shorter);
        DropLast(contents, 128 * |blocks|, currentLinesBlock);
        currentLinesBlock := currentLinesBlock[..|currentLinesBlock| - 1];
        currentLinesBlockShifted := currentLinesBlockShifted[..|currentLinesBlockShifted| - 1];
        contents := shorter;
      }
      if nbLines == 0 {
        lastPos := 0;
      } else {
        nbLines := nbLines - 1;
        if nbLines > 0 {
          var last := At(nbLines - 1);
          lastPos := last.value;
        } else {
          lastPos := 0;
        }
      }
    }

    /** The positions `firstLine` to `firstLine + count - 1`. */
    method Range(firstLine: nat, count: nat) returns (result: seq<nat>)
      requires Valid() && 1 <= count && firstLine + count <= |contents|
      ensures result == contents[firstLine..firstLine + count]
    {
      assert |contents| == 128 * |blocks| + |currentLinesBlock| && |currentLinesBlock| < 128;
      assert contents[128 * |blocks|..] == currentLinesBlock;
      hide *;
      if firstLine / 128 == |blocks| {
        CopyPlan(contents, firstLine, firstLine + count, |blocks|, currentLinesBlock);
        result := currentLinesBlock[firstLine % 128..(firstLine + count - 1) % 128 + 1];
      } else {
        result := RangeFromBlocks(blocks, packedLinesStorage, packedLinesStorageUsedSize, currentLinesBlock,
                                  contents, firstLine, count);
      }
    }

    /** The part of `Range` that starts in a packed block, unpacking each block once. */
    static method RangeFromBlocks(blocks: seq<BlockMetadata>, packed: seq<Byte>, ghost used: nat,
                                  currentLinesBlock: seq<nat>, ghost s: seq<nat>, firstLine: nat, count: nat)
      returns (result: seq<nat>)
      requires Layout(blocks, packed, used, s)
      requires |s| == 128 * |blocks| + |currentLinesBlock| && |currentLinesBlock| < 128
      requires s[128 * |blocks|..] == currentLinesBlock
      requires 1 <= count && firstLine + count <= |s| && firstLine / 128 < |blocks|
      ensures result == s[firstLine..firstLine + count]
    {
      hide *;
      CopyPlan(s, firstLine, firstLine + count, |blocks|, currentLinesBlock);
      var firstBlockIndex, indexInFirstBlock := firstLine / 128, firstLine % 128;
      var lastLine := firstLine + count - 1;
      var lastBlockIndex, indexInLastBlock := lastLine / 128, lastLine % 128;
      var lastBlockToUnpack := if lastBlockIndex < |blocks| then lastBlockIndex else |blocks| - 1;
      var blockIndex := firstBlockIndex;
      result := [];
      while blockIndex <= lastBlockToUnpack
        invariant firstBlockIndex <= blockIndex <= lastBlockToUnpack + 1
        invariant Copied(s, firstLine, firstLine + count, blockIndex, result)
      {
        var block := blocks[blockIndex];
        LayoutDecodes(blocks, packed, used, s, blockIndex);
        var unpackedBlock := Unshift(Decode(packed, block.packetStorageOffset, 128), block.firstLineOffset);
        var copyFromIndex := if blockIndex == firstBlockIndex then indexInFirstBlock else 0;
        var copyToIndex := if blockIndex == lastBlockIndex then indexInLastBlock + 1 else |unpackedBlock|;
        CopyStep(s, firstLine, firstLine + count, blockIndex, result, unpackedBlock, copyFromIndex, copyToIndex);
        result := result + unpackedBlock[copyFromIndex..copyToIndex];
        blockIndex := blockIndex + 1;
      }
      CopyEnd(s, firstLine, firstLine + count, |blocks|, result, currentLinesBlock);
      if lastBlockIndex == |blocks| {
        result := result + currentLinesBlock[..indexInLastBlock + 1];
      }
    }
  }
}
