/**
 * The list of line ends of `linepositionarray.h`. Its last entry can be a fake one that closes an
 * unterminated last line; the fake entry goes away as soon as something is appended.
 */
module LinePositions {
  import opened Bytes
  import opened CompressedLineStorage

  /** The list as a value. Over the uncompressed storage, a plain vector, it is also the implementation. */
  datatype LinePositionList = LinePositionList(ends: seq<nat>, fakeFinalLF: bool) {
    function WithoutFake(): seq<nat> {
      if fakeFinalLF && ends != [] then ends[..|ends| - 1] else ends
    }

    function Append(pos: nat): LinePositionList {
      LinePositionList(WithoutFake() + [pos], false)
    }

    function AppendList(other: LinePositionList): LinePositionList {
      LinePositionList(WithoutFake() + other.ends, other.fakeFinalLF)
    }
  }

  const NoLines := LinePositionList([], false)

  /** The list over the compressed storage. */
  class LinePositionArray {
    const storage: CompressedLinePositionStorage
    var fakeFinalLF: bool

    ghost predicate Valid()
      reads this, storage
    {
      storage.Valid()
    }

    ghost function View(): LinePositionList
      reads this, storage
    {
      LinePositionList(storage.contents, fakeFinalLF)
    }

    constructor ()
      ensures Valid() && View() == NoLines && fresh(storage)
    {
      storage := new CompressedLinePositionStorage();
      fakeFinalLF := false;
    }

    method Append(pos: nat)
      requires Valid() && BlockSpans(View().Append(pos).ends)
      modifies this, storage
      ensures Valid() && View() == old(View()).Append(pos)
      ensures View().ends == (if old(fakeFinalLF) && old(View().ends) != [] then old(View().ends)[..|old(View().ends)| - 1]
                              else old(View().ends)) + [pos]
      ensures fakeFinalLF == false
    {
      if fakeFinalLF {
        storage.PopBack();
      }
      storage.Append(pos);
      fakeFinalLF := false;
    }

    method SetFakeFinalLF(finalLF: bool)
      requires Valid()
      modifies this
      ensures Valid() && View() == LinePositionList(old(View()).ends, finalLF)
    {
      fakeFinalLF := finalLF;
    }

    method AppendList(other: LinePositionList)
      requires Valid() && BlockSpans(View().AppendList(other).ends)
      modifies this, storage
      ensures Valid() && View() == old(View()).AppendList(other)
      ensures View().ends == (if old(fakeFinalLF) && old(View().ends) != [] then old(View().ends)[..|old(View().ends)| - 1]
                              else old(View().ends)) + other.ends
      ensures fakeFinalLF == other.fakeFinalLF
    {
      if fakeFinalLF {
        storage.PopBack();
      }
      storage.AppendList(other.ends);
      fakeFinalLF := other.fakeFinalLF;
    }

    function Size(): (n: nat)
      requires Valid()
      reads this, storage
      ensures n == |View().ends|
    {
      storage.Size()
    }

    method At(i: nat) returns (pos: Option<nat>)
      requires Valid()
      ensures pos == if i < |View().ends| then Some(View().ends[i]) else None
    {
      pos := storage.At(i);
    }

    method Range(firstLine: nat, count: nat) returns (result: seq<nat>)
      requires Valid() && 1 <= count && firstLine + count <= |View().ends|
      ensures result == View().ends[firstLine..firstLine + count]
    {
      result := storage.Range(firstLine, count);
    }
  }
}
