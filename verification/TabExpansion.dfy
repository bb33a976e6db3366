/** Tab expansion of `linetypes.h`: the in-place `untabify` and the length it never has to build. */
module TabExpansion {
  import opened Bytes

  /** The distance from column `col` to the next tab stop; tab stops are 8 columns apart. */
  function ToTabStop(col: nat): nat {
    8 - col % 8
  }

  function Spaces(n: nat): (r: seq<Byte>)
    ensures |r| == n
  {
    seq(n, _ => SPACE)
  }

  /** What one character becomes when it is drawn at column `col`. */
  function Glyph(c: Byte, col: nat): seq<Byte> {
    if c == TAB then Spaces(ToTabStop(col))
    else if c == NUL then [SPACE]
    else [c]
  }

  /** The first `k` characters drawn from left to right, starting at column `col`. */
  function Draw(line: seq<Byte>, k: nat, col: nat): seq<Byte>
    requires k <= |line|
  {
    if k == 0 then []
    else
      var before := Draw(line, k - 1, col);
      before + Glyph(line[k - 1], col + |before|)
  }

  /** Reference meaning of tab expansion. */
  function Expand(line: seq<Byte>, col: nat): seq<Byte> {
    Draw(line, |line|, col)
  }

  lemma {:induction false} DrawPrefix(line: seq<Byte>, j: nat, k: nat, col: nat)
    requires j <= k <= |line|
    ensures Draw(line, j, col) <= Draw(line, k, col)
  {
    hide Glyph;
    if j < k {
      DrawPrefix(line, j, k - 1, col);
    }
  }

  /**
   * In the expanded line, character `k` is drawn right after the `k` characters before it. Every
   * character but a tab takes one column; a tab takes 1 to 8 and ends on a tab stop.
   */
  lemma TabsEndOnTabStops(line: seq<Byte>, k: nat, col: nat)
    requires k < |line|
    ensures Draw(line, k, col) <= Draw(line, k + 1, col) <= Expand(line, col)
    ensures var before := col + |Draw(line, k, col)|;
            var after := col + |Draw(line, k + 1, col)|;
            if line[k] == TAB
            then before < after <= before + 8 && after % 8 == 0
            else after == before + 1
  {
    DrawPrefix(line, k + 1, |line|, col);
    var before := col + |Draw(line, k, col)|;
    assert (before + ToTabStop(before)) % 8 == 0;
  }

  /** What is drawn for a character: blanks for a tab, a blank for a null, and any other character itself. */
  lemma DrawnCharacter(line: seq<Byte>, k: nat, col: nat)
    requires k < |line|
    ensures var before, after := Draw(line, k, col), Draw(line, k + 1, col);
            if line[k] == 9
            then before <= after && forall i :: |before| <= i < |after| ==> after[i] == 32
            else after == before + [if line[k] == 0 then 32 else line[k]]
  {
  }

  lemma {:induction false} DrawIsPlain(line: seq<Byte>, k: nat, col: nat)
    requires k <= |line|
    ensures TAB !in Draw(line, k, col) && NUL !in Draw(line, k, col)
    ensures k <= |Draw(line, k, col)|
  {
    if k > 0 {
      DrawIsPlain(line, k - 1, col);
    }
  }

  lemma {:induction false} DrawPlain(line: seq<Byte>, k: nat, col: nat)
    requires k <= |line| && TAB !in line && NUL !in line
    ensures Draw(line, k, col) == line[..k]
  {
    if k > 0 {
      DrawPlain(line, k - 1, col);
      assert line[k - 1] in line;
    }
  }

  /** An expanded line holds no tab and no null character, so expanding it again changes nothing. */
  lemma ExpandIdempotent(line: seq<Byte>, col: nat)
    ensures TAB !in Expand(line, col) && NUL !in Expand(line, col)
    ensures Expand(Expand(line, col), col) == Expand(line, col)
    ensures |line| <= |Expand(line, col)|
  {
    DrawIsPlain(line, |line|, col);
    DrawPlain(Expand(line, col), |Expand(line, col)|, col);
  }

  function ReplaceNulls(line: seq<Byte>): (r: seq<Byte>)
    ensures |r| == |line|
    ensures forall i :: 0 <= i < |line| ==> r[i] == if line[i] == NUL then SPACE else line[i]
  {
    seq(|line|, i requires 0 <= i < |line| => if line[i] == NUL then SPACE else line[i])
  }

  lemma DrawTab(line: seq<Byte>, t: nat, col: nat)
    requires t < |line| && line[t] == TAB
    ensures Draw(line, t + 1, col)
            == Draw(line, t, col) + Spaces(ToTabStop(col + |Draw(line, t, col)|))
  {
    hide ToTabStop, Spaces;
  }

  lemma DrawOther(line: seq<Byte>, t: nat, col: nat)
    requires t < |line| && line[t] != TAB
    ensures Draw(line, t + 1, col) == Draw(line, t, col) + [ReplaceNulls(line)[t]]
  {
    hide ToTabStop, Spaces;
  }

  /** A stretch without tabs only has its null characters replaced. */
  lemma {:induction false} DrawStretch(line: seq<Byte>, from: nat, hi: nat, col: nat)
    requires from <= hi <= |line| && Avoids(line, TAB, from, hi)
    ensures Draw(line, hi, col) == Draw(line, from, col) + ReplaceNulls(line)[from..hi]
    decreases hi
  {
    hide Draw, ReplaceNulls;
    var clean := ReplaceNulls(line);
    if from == hi {
      assert clean[from..hi] == [];
    } else {
      DrawStretch(line, from, hi - 1, col);
      DrawOther(line, hi - 1, col);
      assert clean[from..hi] == clean[from..hi - 1] + [clean[hi - 1]];
    }
  }

  lemma DrawToTab(line: seq<Byte>, from: nat, t: nat, col: nat)
    requires from <= t < |line| && Avoids(line, TAB, from, t) && line[t] == TAB
    ensures var width := |Draw(line, from, col)| + (t - from);
            Draw(line, t + 1, col)
            == Draw(line, from, col) + ReplaceNulls(line)[from..t] + Spaces(ToTabStop(col + width))
  {
    hide ToTabStop, Spaces, ReplaceNulls, Draw;
    DrawStretch(line, from, t, col);
    assert |Draw(line, t, col)| == |Draw(line, from, col)| + (t - from);
    DrawTab(line, t, col);
  }

  /**
   * The state of the rewriting loop: the text before `drawn` is the drawing of the first `k`
   * characters, the text after it still has its tabs.
   */
  ghost predicate HalfDrawn(original: seq<Byte>, col: nat, line: seq<Byte>, drawn: nat, k: nat) {
    && k <= |original| && drawn <= |line|
    && line[..drawn] == Draw(original, k, col)
    && line[drawn..] == ReplaceNulls(original)[k..]
  }

  predicate NextTab(line: seq<Byte>, from: nat, position: Option<nat>) {
    match position
    case Some(p) => from <= p < |line| && line[p] == TAB && Avoids(line, TAB, from, p)
    case None => Avoids(line, TAB, from, |line|)
  }

  lemma NextTabAgrees(original: seq<Byte>, col: nat, line: seq<Byte>, drawn: nat, k: nat, p: nat)
    requires HalfDrawn(original, col, line, drawn, k)
    requires drawn <= p <= |line| && Avoids(line, TAB, drawn, p)
    ensures k + (p - drawn) <= |original| && Avoids(original, TAB, k, k + (p - drawn))
    ensures line[drawn..p] == ReplaceNulls(original)[k..k + (p - drawn)]
    ensures p < |line| ==> ReplaceNulls(original)[k + (p - drawn)] == line[p]
  {
    var clean := ReplaceNulls(original);
    var t := k + (p - drawn);
    assert |line[drawn..]| == |clean[k..]|;
    forall i | k <= i < t ensures original[i] != TAB && clean[i] == line[drawn + (i - k)] {
      assert clean[k..][i - k] == line[drawn..][i - k];
    }
    if p < |line| {
      assert clean[k..][t - k] == line[drawn..][t - k];
    }
  }

  /** Replacing the next tab by spaces keeps the loop's state, one tab further. */
  lemma ReplaceTab(original: seq<Byte>, col: nat, line: seq<Byte>, drawn: nat, k: nat, p: nat)
    requires HalfDrawn(original, col, line, drawn, k)
    requires drawn <= p < |line| && line[p] == TAB && Avoids(line, TAB, drawn, p)
    ensures var n := ToTabStop(col + p);
            && k + (p - drawn) < |original|
            && HalfDrawn(original, col, line[..p] + Spaces(n) + line[p + 1..], p + n, k + (p - drawn) + 1)
  {
    hide ToTabStop, Draw, Spaces, ReplaceNulls;
    var t := k + (p - drawn);
    var n := ToTabStop(col + p);
    var clean := ReplaceNulls(original);
    var next := line[..p] + Spaces(n) + line[p + 1..];
    NextTabAgrees(original, col, line, drawn, k, p);
    assert next[..p + n] == Draw(original, t + 1, col) by {
      DrawToTab(original, k, t, col);
      assert next[..p + n] == line[..p] + Spaces(n);
      assert line[..p] == line[..drawn] + line[drawn..p];
    }
    assert next[p + n..] == clean[t + 1..] by {
      assert next[p + n..] == line[p + 1..] == line[drawn..][p + 1 - drawn..];
      assert clean[t + 1..] == clean[k..][t + 1 - k..];
    }
  }

  lemma StartDrawing(original: seq<Byte>, col: nat)
    ensures HalfDrawn(original, col, ReplaceNulls(original), 0, 0)
  {
  }

  lemma NothingLeftToDraw(original: seq<Byte>, col: nat, line: seq<Byte>, drawn: nat, k: nat)
    requires HalfDrawn(original, col, line, drawn, k) && NextTab(line, drawn, None)
    ensures line == Expand(original, col)
  {
    NextTabAgrees(original, col, line, drawn, k, |line|);
    DrawStretch(original, k, |original|, col);
    assert line == line[..drawn] + line[drawn..|line|];
  }

  /** The search restarted at the first of the new spaces finds the first tab after them. */
  lemma SearchAgain(line: seq<Byte>, p: nat, n: nat)
    requires p < |line|
    ensures var next := line[..p] + Spaces(n) + line[p + 1..];
            NextTab(next, p + n, Find(next, TAB, p))
  {
    var next := line[..p] + Spaces(n) + line[p + 1..];
    assert forall i :: p <= i < p + n ==> next[i] == SPACE;
  }

  /** Rewrites the line in place, one tab at a time. */
  method Untabify(original: seq<Byte>, initialPosition: nat) returns (line: seq<Byte>)
    ensures line == Expand(original, initialPosition)
  {
    hide ToTabStop, HalfDrawn;
    line := ReplaceNulls(original);
    StartDrawing(original, initialPosition);
    ghost var k: nat, drawn: nat := 0, 0;
    var position := Find(line, TAB, 0);
    while position.Some?
      invariant k <= |original|
      invariant HalfDrawn(original, initialPosition, line, drawn, k)
      invariant NextTab(line, drawn, position)
      decreases |original| - k
    {
      var p := position.value;
      ReplaceTab(original, initialPosition, line, drawn, k, p);
      var spaces := ToTabStop(initialPosition + p);
      SearchAgain(line, p, spaces);
      line := line[..p] + Spaces(spaces) + line[p + 1..];
      position := Find(line, TAB, p);
      k, drawn := k + (p - drawn) + 1, p + spaces;
    }
    NothingLeftToDraw(original, initialPosition, line, drawn, k);
  }

  /** The width of a stretch without tabs, and of the tab that ends it. */
  lemma WidthToTab(line: seq<Byte>, from: nat, t: nat)
    requires from <= t <= |line| && Avoids(line, TAB, from, t)
    ensures var width := |Draw(line, from, 0)| + (t - from);
            && |Draw(line, t, 0)| == width
            && (t < |line| && line[t] == TAB ==> |Draw(line, t + 1, 0)| == width + ToTabStop(width))
  {
    hide ToTabStop;
    DrawStretch(line, from, t, 0);
  }

  /** Adds up the extra spaces of the tabs without building the expanded line. */
  method GetUntabifiedLength(line: seq<Byte>) returns (length: nat)
    ensures length == |Expand(line, 0)|
  {
    hide ToTabStop;
    var totalSpaces := 0;
    ghost var k := 0;  // start of the current search
    var tabPosition := Find(line, TAB, 0);
    while tabPosition.Some?
      invariant k <= |line|
      invariant NextTab(line, k, tabPosition)
      invariant |Draw(line, k, 0)| == k + totalSpaces
      decreases |line| - k
    {
      var t := tabPosition.value;
      WidthToTab(line, k, t);
      totalSpaces := totalSpaces + (ToTabStop(t + totalSpaces) - 1);
      tabPosition := Find(line, TAB, t + 1);
      k := t + 1;
    }
    WidthToTab(line, k, |line|);
    length := |line| + totalSpaces;
  }
}
