/**
 * A concrete form of the StreamVByte codec with delta coding, as the compressed line storage uses
 * it: 32-bit differences to the previous value, two bits of length for each of them in the key
 * bytes, then one to four little-endian bytes each.
 */
module StreamVByte {
  import opened Bytes

  /** An unsigned 32-bit value. */
  type Word = w: int | 0 <= w < 0x1_0000_0000

  // ---------- differences, modulo 2^32 ----------

  function Subtract(a: Word, b: Word): Word {
    if a >= b then a - b else a - b + 0x1_0000_0000
  }

  function Add(a: Word, b: Word): Word {
    if a + b < 0x1_0000_0000 then a + b else a + b - 0x1_0000_0000
  }

  function Previous(values: seq<Word>, i: nat): Word
    requires i < |values|
  {
    if i == 0 then 0 else values[i - 1]
  }

  function Deltas(values: seq<Word>): (ds: seq<Word>)
    ensures |ds| == |values|
    ensures forall i :: 0 <= i < |ds| ==> ds[i] == Subtract(values[i], Previous(values, i))
  {
    seq(|values|, i requires 0 <= i < |values| => Subtract(values[i], Previous(values, i)))
  }

  // ---------- one value ----------

  function ByteCount(v: Word): (n: nat)
    ensures 1 <= n <= 4
  {
    if v < 0x100 then 1 else if v < 0x1_0000 then 2 else if v < 0x100_0000 then 3 else 4
  }

  function LittleEndian(v: Word): (bs: seq<Byte>)
    ensures |bs| == ByteCount(v)
  {
    if v < 0x100 then [v] else [v % 0x100] + LittleEndian(v / 0x100)
  }

  function FromLittleEndian(bs: seq<Byte>): nat {
    if bs == [] then 0 else (bs[0] as int) + 0x100 * FromLittleEndian(bs[1..])
  }

  function ToWord(bs: seq<Byte>): Word {
    FromLittleEndian(bs) % 0x1_0000_0000
  }

  lemma {:induction false} LittleEndianRoundTrip(v: Word)
    ensures FromLittleEndian(LittleEndian(v)) == ToWord(LittleEndian(v)) == v
  {
    if v >= 0x100 {
      LittleEndianRoundTrip(v / 0x100);
      assert LittleEndian(v)[1..] == LittleEndian(v / 0x100);
    }
  }

  // ---------- key bytes: four two-bit codes each ----------

  function Code(values: seq<Word>, i: nat): (c: nat)
    ensures c < 4
  {
    if i < |values| then ByteCount(values[i]) - 1 else 0
  }

  function Keys(values: seq<Word>): (keys: seq<Byte>)
    ensures |keys| == (|values| + 3) / 4
  {
    seq((|values| + 3) / 4, k requires 0 <= k =>
      Code(values, 4 * k) + 4 * Code(values, 4 * k + 1)
      + 16 * Code(values, 4 * k + 2) + 64 * Code(values, 4 * k + 3))
  }

  function CodeAt(keys: seq<Byte>, i: nat): nat
    requires i / 4 < |keys|
  {
    var key := keys[i / 4];
    match i % 4
    case 0 => key % 4
    case 1 => key / 4 % 4
    case 2 => key / 16 % 4
    case _ => key / 64 % 4
  }

  lemma KeyDigits(c0: nat, c1: nat, c2: nat, c3: nat)
    requires c0 < 4 && c1 < 4 && c2 < 4 && c3 < 4
    ensures var key := c0 + 4 * c1 + 16 * c2 + 64 * c3;
            key % 4 == c0 && key / 4 % 4 == c1 && key / 16 % 4 == c2 && key / 64 % 4 == c3
  {
  }

  lemma KeysRoundTrip(values: seq<Word>, i: nat)
    requires i < |values|
    ensures CodeAt(Keys(values), i) == ByteCount(values[i]) - 1
  {
    var k := i / 4;
    KeyDigits(Code(values, 4 * k), Code(values, 4 * k + 1), Code(values, 4 * k + 2), Code(values, 4 * k + 3));
    assert i == 4 * k + i % 4;
  }

  // ---------- data bytes ----------

  /** The bytes of the values from index `i` on. */
  function Data(values: seq<Word>, i: nat): seq<Byte>
    requires i <= |values|
    decreases |values| - i
  {
    if i == |values| then [] else LittleEndian(values[i]) + Data(values, i + 1)
  }

  /**
   * Reads values `i` to `count` from data bytes starting at `p` and undoes the differences. A read
   * beyond the buffer stops the decoding: the result is then shorter than asked for.
   */
  function Undo(keys: seq<Byte>, bytes: seq<Byte>, p: nat, i: nat, count: nat, previous: Word): seq<Word>
    requires i <= count && |keys| == (count + 3) / 4
    decreases count - i
  {
    if i == count then []
    else
      var n := CodeAt(keys, i) + 1;
      if p + n > |bytes| then []
      else
        var value := Add(ToWord(bytes[p..p + n]), previous);
        [value] + Undo(keys, bytes, p + n, i + 1, count, value)
  }

  // ---------- blocks ----------

  function Encode(values: seq<Word>): seq<Byte> {
    Keys(Deltas(values)) + Data(Deltas(values), 0)
  }

  /** Decodes `count` values from the bytes at offset `at`. */
  function Decode(bytes: seq<Byte>, at: nat, count: nat): seq<Word> {
    var n := (count + 3) / 4;
    if at + n > |bytes| then [] else Undo(bytes[at..at + n], bytes, at + n, 0, count, 0)
  }

  /** The size a buffer needs so that encoding `count` values cannot overrun it. */
  function MaxCompressedBytes(count: nat): nat {
    (count + 3) / 4 + 4 * count
  }

  lemma {:induction false} DataBound(values: seq<Word>, i: nat)
    requires i <= |values|
    ensures |Data(values, i)| <= 4 * (|values| - i)
    decreases |values| - i
  {
    hide LittleEndian;
    if i < |values| {
      DataBound(values, i + 1);
    }
  }

  lemma EncodeBound(values: seq<Word>)
    ensures |Encode(values)| <= MaxCompressedBytes(|values|)
    ensures |Encode(values)| <= (|values| + 3) / 4 + 4 * |values|
  {
    hide Data, Keys;
    DataBound(Deltas(values), 0);
  }

  ghost predicate Holds(bytes: seq<Byte>, at: nat, part: seq<Byte>) {
    at + |part| <= |bytes| && bytes[at..at + |part|] == part
  }

  lemma {:induction false} HoldsSplit(bytes: seq<Byte>, at: nat, a: seq<Byte>, b: seq<Byte>)
    requires Holds(bytes, at, a + b)
    ensures Holds(bytes, at, a) && Holds(bytes, at + |a|, b)
  {
    var whole := bytes[at..at + |a + b|];
    assert a == whole[..|a|] == bytes[at..at + |a|];
    assert b == whole[|a|..] == bytes[at + |a|..at + |a| + |b|];
  }

  lemma AddSubtract(a: Word, b: Word)
    ensures Add(Subtract(a, b), b) == a
  {
  }

  lemma UndoUnfold(keys: seq<Byte>, bytes: seq<Byte>, p: nat, i: nat, count: nat, previous: Word, part: seq<Byte>)
    requires i < count && |keys| == (count + 3) / 4
    requires |part| == CodeAt(keys, i) + 1 && Holds(bytes, p, part)
    ensures var value := Add(ToWord(part), previous);
            Undo(keys, bytes, p, i, count, previous)
            == [value] + Undo(keys, bytes, p + |part|, i + 1, count, value)
  {
    hide ToWord, Add, CodeAt;
  }

  /** One step of the decoder reads back one value. */
  lemma UndoStep(values: seq<Word>, bytes: seq<Byte>, p: nat, i: nat)
    requires i < |values| && Holds(bytes, p, LittleEndian(Deltas(values)[i]))
    ensures var keys := Keys(Deltas(values));
            Undo(keys, bytes, p, i, |values|, Previous(values, i))
            == [values[i]] + Undo(keys, bytes, p + ByteCount(Deltas(values)[i]), i + 1, |values|, values[i])
  {
    hide *;
    var d := Deltas(values)[i];
    KeysRoundTrip(Deltas(values), i);
    LittleEndianRoundTrip(d);
    AddSubtract(values[i], Previous(values, i));
    UndoUnfold(Keys(Deltas(values)), bytes, p, i, |values|, Previous(values, i), LittleEndian(d));
  }

  lemma {:induction false} UndoRoundTrip(values: seq<Word>, bytes: seq<Byte>, p: nat, i: nat)
    requires i <= |values| && Holds(bytes, p, Data(Deltas(values), i))
    ensures Undo(Keys(Deltas(values)), bytes, p, i, |values|, if i == 0 then 0 else values[i - 1])
            == values[i..]
    decreases |values| - i
  {
    hide Keys, LittleEndian, Holds, Undo, Deltas, ByteCount;
    var ds := Deltas(values);
    if i < |values| {
      HoldsSplit(bytes, p, LittleEndian(ds[i]), Data(ds, i + 1));
      UndoStep(values, bytes, p, i);
      UndoRoundTrip(values, bytes, p + ByteCount(ds[i]), i + 1);
    } else {
      UndoNothing(Keys(ds), bytes, p, i, if i == 0 then 0 else values[i - 1]);
    }
  }

  lemma UndoNothing(keys: seq<Byte>, bytes: seq<Byte>, p: nat, count: nat, previous: Word)
    requires |keys| == (count + 3) / 4
    ensures Undo(keys, bytes, p, count, count, previous) == []
  {
  }

  lemma HoldsMeans(bytes: seq<Byte>, at: nat, part: seq<Byte>)
    requires Holds(bytes, at, part)
    ensures at + |part| <= |bytes| && bytes[at..at + |part|] == part
  {
  }

  /** Decoding an encoded block gives back its values, wherever the block lies in the buffer. */
  lemma RoundTrip(values: seq<Word>, bytes: seq<Byte>, at: nat)
    requires Holds(bytes, at, Encode(values))
    ensures Decode(bytes, at, |values|) == values
  {
    hide Keys, Data, Holds, Undo;
    var ds := Deltas(values);
    HoldsSplit(bytes, at, Keys(ds), Data(ds, 0));
    HoldsMeans(bytes, at, Keys(ds));
    UndoRoundTrip(values, bytes, at + |Keys(ds)|, 0);
  }
}
