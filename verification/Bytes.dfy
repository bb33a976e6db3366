/** Bytes, optional values and the character search that the modules share. */
module Bytes {
  type Byte = b: int | 0 <= b < 256

  const NUL: Byte := 0
  const TAB: Byte := 9
  const LF: Byte := 10
  const SPACE: Byte := 32

  datatype Option<+T> = None | Some(value: T)

  function Max(a: int, b: int): int {
    if a < b then b else a
  }

  function Min(a: int, b: int): int {
    if a < b then a else b
  }

  /** No element of `s[from..hi]` is `c`. */
  predicate Avoids<T(==)>(s: seq<T>, c: T, from: nat, hi: nat)
    requires hi <= |s|
  {
    forall i :: from <= i < hi ==> s[i] != c
  }

  /** The least index at or after `from` that holds `c`, as the library's `find` returns it. */
  function Find<T(==)>(s: seq<T>, c: T, from: nat): (p: Option<nat>)
    ensures p.Some? ==> from <= p.value < |s| && s[p.value] == c && Avoids(s, c, from, p.value)
    ensures p.None? && from <= |s| ==> Avoids(s, c, from, |s|)
    decreases |s| - from
  {
    if from >= |s| then None
    else if s[from] == c then Some(from)
    else Find(s, c, from + 1)
  }

  // ---------- slices ----------

  lemma SliceOfSlice<T>(s: seq<T>, a: nat, b: nat, i: nat, j: nat)
    requires a <= b <= |s| && i <= j <= b - a
    ensures s[a..b][i..j] == s[a + i..a + j]
  {
    forall k | 0 <= k < j - i ensures s[a..b][i..j][k] == s[a + i..a + j][k] {
      assert s[a..b][i + k] == s[a + (i + k)];
    }
  }

  lemma JoinSlices<T>(s: seq<T>, a: nat, b: nat, c: nat)
    requires a <= b <= c <= |s|
    ensures s[a..b] + s[b..c] == s[a..c]
  {
    var t := s[a..c];
    assert t[..b - a] == s[a..b] && t[b - a..] == s[b..c];
  }

  lemma SliceOfPrefix<T>(s: seq<T>, n: nat, i: nat, j: nat)
    requires i <= j <= n <= |s|
    ensures s[..n][i..j] == s[i..j]
  {
  }

  lemma SliceSnoc<T>(s: seq<T>, i: nat, k: nat)
    requires i < k <= |s|
    ensures s[i..k] == s[i..k - 1] + [s[k - 1]]
  {
  }

  lemma ConcatAssociative<T>(a: seq<T>, b: seq<T>, c: seq<T>)
    ensures (a + b) + c == a + (b + c)
  {
  }
}
