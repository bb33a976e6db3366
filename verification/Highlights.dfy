/**
 * Highlighting a line (`highlightedmatch.h`): a list of coloured column ranges that is cut up in
 * place whenever a new match is painted over it.
 */
module Highlights {
  import opened Bytes

  /** Column arithmetic saturates at the greatest 32-bit value and at zero. */
  function BoundedAdd(value: nat, inc: nat): nat {
    if value + inc <= 0x7FFF_FFFF then value + inc else 0x7FFF_FFFF
  }

  function BoundedSubtract(value: nat, dec: nat): nat {
    if value >= dec then value - dec else 0
  }

  datatype Paint = Paint(foreColor: int, backColor: int)

  datatype HighlightedMatch = HighlightedMatch(startColumn: nat, size: nat, paint: Paint)
  {
    function EndColumn(): nat {
      if size > 0 then BoundedSubtract(BoundedAdd(startColumn, size), 1) else startColumn
    }

    /** The match lies within the columns that the column type can count. */
    predicate Fits() {
      startColumn + size <= 0x7FFF_FFFF
    }

    /** The columns the match occupies; an empty match occupies the one it stands at. */
    predicate Occupies(c: int) {
      startColumn <= c <= EndColumn()
    }

    predicate Covers(c: int) {
      size > 0 && Occupies(c)
    }
  }

  /** A match covers `size` columns from its first one; an empty one stands at its first and covers none. */
  lemma CoversMeaning(m: HighlightedMatch, c: int)
    requires m.startColumn + m.size <= 0x7FFF_FFFF
    ensures m.Covers(c) <==> m.startColumn <= c < m.startColumn + m.size
    ensures m.Occupies(c) <==> m.Covers(c) || (m.size == 0 && c == m.startColumn)
    ensures m.Fits()
  {
  }

  // ---------- what is drawn ----------

  /** The colour at column `c` when the first `k` ranges are drawn. */
  function Colour(ms: seq<HighlightedMatch>, k: nat, c: int): Option<Paint>
    requires k <= |ms|
  {
    if k == 0 then None
    else if ms[k - 1].Covers(c) then Some(ms[k - 1].paint)
    else Colour(ms, k - 1, c)
  }

  function ColourAt(ms: seq<HighlightedMatch>, c: int): Option<Paint> {
    Colour(ms, |ms|, c)
  }

  /** The ranges are in order and no two occupy the same column. */
  ghost predicate Disjoint(ms: seq<HighlightedMatch>) {
    && (forall i :: 0 <= i < |ms| ==> ms[i].Fits())
    && (forall i, j :: 0 <= i < j < |ms| ==> ms[i].EndColumn() < ms[j].startColumn)
  }

  ghost predicate NoneEmpty(ms: seq<HighlightedMatch>) {
    forall i :: 0 <= i < |ms| ==> ms[i].size > 0
  }

  /** Reference: painting one match over a colour. An empty match wipes the column it stands at. */
  function PaintOver(m: HighlightedMatch, c: int, below: Option<Paint>): Option<Paint> {
    if !m.Occupies(c) then below else if m.size > 0 then Some(m.paint) else None
  }

  /** Reference: painting the first `k` matches one after the other over a colour. */
  function PaintAll(strokes: seq<HighlightedMatch>, k: nat, c: int, below: Option<Paint>): Option<Paint>
    requires k <= |strokes|
  {
    if k == 0 then below else PaintOver(strokes[k - 1], c, PaintAll(strokes, k - 1, c, below))
  }

  /** Painter's algorithm: with matches that are not empty, the last one covering a column decides. */
  lemma {:induction false} LastCoveringDecides(strokes: seq<HighlightedMatch>, k: nat, c: int, below: Option<Paint>)
    requires k <= |strokes| && NoneEmpty(strokes)
    ensures PaintAll(strokes, k, c, below) == if Colour(strokes, k, c).Some? then Colour(strokes, k, c) else below
    ensures forall i :: 0 <= i < k && strokes[i].Covers(c) && (forall j :: i < j < k ==> !strokes[j].Covers(c))
              ==> PaintAll(strokes, k, c, below) == Some(strokes[i].paint)
  {
    if k > 0 {
      LastCoveringDecides(strokes, k - 1, c, below);
    }
  }

  /** An empty match changes no colour if and only if nothing is drawn at the column it stands at. */
  lemma EmptyMatchIsHarmless(ms: seq<HighlightedMatch>, m: HighlightedMatch)
    requires m.size == 0
    ensures (forall c :: PaintOver(m, c, ColourAt(ms, c)) == ColourAt(ms, c)) <==> ColourAt(ms, m.startColumn) == None
  {
    hide Colour;
    assert PaintOver(m, m.startColumn, ColourAt(ms, m.startColumn)) == None;
  }

  /** The column at which an expression that matches the empty string "matches" loses its colour. */
  lemma EmptyMatchWipes(paint: Paint, other: Paint)
    ensures var ms, m := [HighlightedMatch(2, 5, paint)], HighlightedMatch(4, 0, other);
            ColourAt(ms, 4) == Some(paint) && PaintOver(m, 4, ColourAt(ms, 4)) == None
  {
    var ms := [HighlightedMatch(2, 5, paint)];
    assert Colour(ms, 1, 4) == Some(paint);
  }

  lemma {:induction false} ColourIs(ms: seq<HighlightedMatch>, k: nat, i: nat, c: int)
    requires i < k <= |ms| && Disjoint(ms) && ms[i].Covers(c)
    ensures Colour(ms, k, c) == Some(ms[i].paint)
  {
    if i < k - 1 {
      assert ms[i].EndColumn() < ms[k - 1].startColumn;
      ColourIs(ms, k - 1, i, c);
    }
  }

  lemma {:induction false} ColourOfConcat(a: seq<HighlightedMatch>, b: seq<HighlightedMatch>, k: nat, c: int)
    requires k <= |b|
    ensures Colour(a + b, |a| + k, c) == if Colour(b, k, c).Some? then Colour(b, k, c) else ColourAt(a, c)
  {
    if k == 0 {
      ColourOfPrefix(a, b, |a|, c);
    } else {
      ColourOfConcat(a, b, k - 1, c);
    }
  }

  lemma {:induction false} ColourOfPrefix(a: seq<HighlightedMatch>, b: seq<HighlightedMatch>, k: nat, c: int)
    requires k <= |a|
    ensures Colour(a + b, k, c) == Colour(a, k, c)
  {
    if k > 0 {
      ColourOfPrefix(a, b, k - 1, c);
    }
  }

  // ---------- erasing empty ranges ----------

  /** The ranges at positions `i` to `k - 1` that are not empty. */
  function Kept(ms: seq<HighlightedMatch>, i: nat, k: nat): seq<HighlightedMatch>
    requires k <= |ms|
  {
    if k <= i then [] else Kept(ms, i, k - 1) + if ms[k - 1].size > 0 then [ms[k - 1]] else []
  }

  function Erase(ms: seq<HighlightedMatch>): seq<HighlightedMatch> {
    Kept(ms, 0, |ms|)
  }

  lemma {:induction false} KeptSplit(ms: seq<HighlightedMatch>, i: nat, j: nat, k: nat)
    requires i <= j <= k <= |ms|
    ensures Kept(ms, i, k) == Kept(ms, i, j) + Kept(ms, j, k)
  {
    if j < k {
      KeptSplit(ms, i, j, k - 1);
    }
  }

  /** Equal stretches of two lists keep the same ranges. */
  lemma {:induction false} KeptEqual(a: seq<HighlightedMatch>, b: seq<HighlightedMatch>, i: nat, j: nat, n: nat)
    requires i + n <= |a| && j + n <= |b| && forall d :: i <= d < i + n ==> a[d] == b[d - i + j]
    ensures Kept(a, i, i + n) == Kept(b, j, j + n)
    decreases n
  {
    if n > 0 {
      KeptEqual(a, b, i, j, n - 1);
      assert a[i + n - 1] == b[j + n - 1];
    }
  }

  // ---------- subtracting the new match ----------

  /** Reference: the parts of `m` left and right of the columns `lo` to `hi`. */
  function Trim(m: HighlightedMatch, lo: nat, hi: nat): seq<HighlightedMatch> {
    if m.size == 0 then []
    else
      (if m.startColumn < lo
       then [m.(size := Min(m.startColumn + m.size, lo) - m.startColumn)] else [])
      + (if hi < m.EndColumn() && m.startColumn <= m.EndColumn()
         then [HighlightedMatch(Max(m.startColumn, hi + 1), m.EndColumn() + 1 - Max(m.startColumn, hi + 1), m.paint)] else [])
  }

  function TrimAll(ms: seq<HighlightedMatch>, k: nat, lo: nat, hi: nat): seq<HighlightedMatch>
    requires k <= |ms|
  {
    if k == 0 then [] else TrimAll(ms, k - 1, lo, hi) + Trim(ms[k - 1], lo, hi)
  }

  lemma TrimAllStep(ms: seq<HighlightedMatch>, k: nat, lo: nat, hi: nat)
    requires 0 < k <= |ms|
    ensures TrimAll(ms, k, lo, hi) == TrimAll(ms, k - 1, lo, hi) + Trim(ms[k - 1], lo, hi)
  {
  }

  lemma TrimColours(m: HighlightedMatch, lo: nat, hi: nat, c: int)
    requires m.Fits() && lo <= hi
    ensures ColourAt(Trim(m, lo, hi), c) == if m.Covers(c) && !(lo <= c <= hi) then Some(m.paint) else None
  {
    var t := Trim(m, lo, hi);
    assert |t| > 0 ==> Colour(t, 1, c) == if t[0].Covers(c) then Some(t[0].paint) else Colour(t, 0, c);
    assert |t| > 1 ==> Colour(t, 2, c) == if t[1].Covers(c) then Some(t[1].paint) else Colour(t, 1, c);
  }

  /** Subtracting clears the columns `lo` to `hi` and changes no other. */
  lemma {:induction false} TrimAllColours(ms: seq<HighlightedMatch>, k: nat, lo: nat, hi: nat, c: int)
    requires k <= |ms| && Disjoint(ms) && lo <= hi
    ensures ColourAt(TrimAll(ms, k, lo, hi), c) == if lo <= c <= hi then None else Colour(ms, k, c)
  {
    hide Trim, HighlightedMatch.Covers;
    if k > 0 {
      TrimAllColours(ms, k - 1, lo, hi, c);
      TrimColours(ms[k - 1], lo, hi, c);
      ColourOfConcat(TrimAll(ms, k - 1, lo, hi), Trim(ms[k - 1], lo, hi), |Trim(ms[k - 1], lo, hi)|, c);
    }
  }

  /** The parts lie inside the range and beside the columns `lo` to `hi`. */
  ghost predicate Part(t: HighlightedMatch, m: HighlightedMatch, lo: nat, hi: nat) {
    && t.size > 0 && t.Fits() && m.startColumn <= t.startColumn && t.EndColumn() <= m.EndColumn()
    && (t.EndColumn() < lo || hi < t.startColumn)
  }

  lemma TrimParts(m: HighlightedMatch, lo: nat, hi: nat)
    requires m.Fits() && lo <= hi
    ensures forall i :: 0 <= i < |Trim(m, lo, hi)| ==> Part(Trim(m, lo, hi)[i], m, lo, hi)
    ensures Disjoint(Trim(m, lo, hi))
  {
  }

  lemma {:induction false} TrimAllDisjoint(ms: seq<HighlightedMatch>, k: nat, lo: nat, hi: nat)
    requires k <= |ms| && Disjoint(ms) && lo <= hi
    ensures var ts := TrimAll(ms, k, lo, hi);
            && Disjoint(ts) && NoneEmpty(ts)
            && (forall i :: 0 <= i < |ts| ==> k > 0 && ts[i].EndColumn() <= ms[k - 1].EndColumn())
            && (forall i :: 0 <= i < |ts| ==> ts[i].EndColumn() < lo || hi < ts[i].startColumn)
  {
    hide Trim;
    if k > 0 {
      TrimAllDisjoint(ms, k - 1, lo, hi);
      TrimParts(ms[k - 1], lo, hi);
      hide HighlightedMatch.EndColumn;
    }
  }

  // ---------- the in-place loop ----------

  lemma TrimBeside(m: HighlightedMatch, lo: nat, hi: nat)
    requires m.Fits() && lo <= hi && (m.EndColumn() < lo || hi < m.startColumn)
    ensures Trim(m, lo, hi) == if m.size > 0 then [m] else []
  {
  }

  lemma EndNotBeforeStart(m: HighlightedMatch)
    requires m.Fits()
    ensures m.startColumn <= m.EndColumn()
  {
  }

  /** Ranges right of the new match stay as they are. */
  lemma {:induction false} RightOfMatch(ms: seq<HighlightedMatch>, i: nat, k: nat, lo: nat, hi: nat)
    requires i <= k <= |ms| && lo <= hi
    requires forall j :: i <= j < k ==> ms[j].Fits() && hi < ms[j].startColumn
    ensures TrimAll(ms, k, lo, hi) == TrimAll(ms, i, lo, hi) + Kept(ms, i, k)
  {
    hide Trim, HighlightedMatch.EndColumn, HighlightedMatch.Fits;
    if i < k {
      RightOfMatch(ms, i, k - 1, lo, hi);
      TrimBeside(ms[k - 1], lo, hi);
    }
  }

  /** The loop's state: the first `i` ranges are cut, the others untouched. */
  ghost predicate Cutting(ms: seq<HighlightedMatch>, r: seq<HighlightedMatch>, i: nat, lo: nat, hi: nat) {
    && Disjoint(ms) && lo <= hi
    && i <= |ms| == |r| && (forall j :: i <= j < |ms| ==> r[j] == ms[j])
    && Kept(r, 0, i) == TrimAll(ms, i, lo, hi)
  }

  lemma Replace(ms: seq<HighlightedMatch>, r: seq<HighlightedMatch>, i: nat, lo: nat, hi: nat, x: HighlightedMatch)
    requires Cutting(ms, r, i, lo, hi) && i < |ms|
    requires Trim(ms[i], lo, hi) == if x.size > 0 then [x] else []
    ensures Cutting(ms, r[i := x], i + 1, lo, hi)
  {
    hide Trim, TrimAll, Disjoint, Kept;
    TrimAllStep(ms, i + 1, lo, hi);
    KeptReplaced(r, i, x);
  }

  lemma KeptReplaced(r: seq<HighlightedMatch>, i: nat, x: HighlightedMatch)
    requires i < |r|
    ensures Kept(r[i := x], 0, i + 1) == Kept(r, 0, i) + if x.size > 0 then [x] else []
  {
    KeptEqual(r, r[i := x], 0, 0, i);
  }

  /** `s` is `r` with range `i` replaced by `pieces`. */
  ghost predicate Spliced(r: seq<HighlightedMatch>, i: nat, pieces: seq<HighlightedMatch>, s: seq<HighlightedMatch>) {
    && i < |r| && |s| == |r| - 1 + |pieces|
    && (forall d :: 0 <= d < i ==> r[d] == s[d])
    && (forall d :: 0 <= d < |pieces| ==> pieces[d] == s[d - 0 + i])
    && (forall d :: i + 1 <= d < |r| ==> r[d] == s[d - (i + 1) + (i + |pieces|)])
  }

  lemma KeptSpliced(r: seq<HighlightedMatch>, i: nat, pieces: seq<HighlightedMatch>, s: seq<HighlightedMatch>)
    requires Spliced(r, i, pieces, s)
    ensures Erase(s) == Kept(r, 0, i) + Kept(pieces, 0, |pieces|) + Kept(r, i + 1, |r|)
  {
    hide Kept;
    var n, p := |r|, |pieces|;
    KeptEqual(r, s, 0, 0, i);
    KeptEqual(pieces, s, 0, i, p);
    KeptEqual(r, s, i + 1, i + p, n - (i + 1));
    KeptSplit(s, 0, i + p, |s|);
    KeptSplit(s, 0, i, i + p);
  }

  /** Range `i` has become `pieces`, and all later ranges lie right of the new match. */
  lemma Stop(ms: seq<HighlightedMatch>, r: seq<HighlightedMatch>, i: nat, lo: nat, hi: nat,
             pieces: seq<HighlightedMatch>, s: seq<HighlightedMatch>)
    requires Cutting(ms, r, i, lo, hi) && i < |ms| && hi <= ms[i].EndColumn()
    requires Trim(ms[i], lo, hi) == Kept(pieces, 0, |pieces|) && Spliced(r, i, pieces, s)
    ensures Erase(s) == TrimAll(ms, |ms|, lo, hi)
  {
    RestIsRight(ms, r, i, lo, hi);
    hide *;
    KeptSpliced(r, i, pieces, s);
    TrimAllStep(ms, i + 1, lo, hi);
  }

  lemma RestIsRight(ms: seq<HighlightedMatch>, r: seq<HighlightedMatch>, i: nat, lo: nat, hi: nat)
    requires Cutting(ms, r, i, lo, hi) && i < |ms| && hi <= ms[i].EndColumn()
    ensures |r| == |ms| && Kept(r, 0, i) == TrimAll(ms, i, lo, hi)
    ensures TrimAll(ms, |ms|, lo, hi) == TrimAll(ms, i + 1, lo, hi) + Kept(r, i + 1, |r|)
  {
    hide Kept, TrimAll, HighlightedMatch.EndColumn;
    RightOfMatch(ms, i + 1, |ms|, lo, hi);
    KeptEqual(ms, r, i + 1, i + 1, |ms| - (i + 1));
  }

  /** What the loop makes of a range that shares columns with the new match. */
  function CutOne(m: HighlightedMatch, lo: nat, hi: nat): seq<HighlightedMatch> {
    var oldMatchL, oldMatchR := m.startColumn, m.EndColumn();
    var left := m.(size := BoundedSubtract(lo, oldMatchL));
    var right := HighlightedMatch(BoundedAdd(hi, 1), BoundedSubtract(oldMatchR, hi), m.paint);
    if lo <= oldMatchL && hi >= oldMatchR then [m.(size := 0)]
    else if oldMatchL <= lo && oldMatchR >= hi then [left, right]
    else if oldMatchL < lo && oldMatchR < hi then [left]
    else [right]
  }

  lemma CutOneTrims(m: HighlightedMatch, lo: nat, hi: nat)
    requires m.Fits() && lo <= hi && lo <= m.EndColumn() && m.startColumn <= hi
    ensures var cut := CutOne(m, lo, hi); Kept(cut, 0, |cut|) == Trim(m, lo, hi)
  {
    KeptFew(CutOne(m, lo, hi));
  }

  lemma KeptFew(xs: seq<HighlightedMatch>)
    requires 1 <= |xs| <= 2
    ensures Kept(xs, 0, |xs|)
            == (if xs[0].size > 0 then [xs[0]] else []) + if |xs| == 2 && xs[1].size > 0 then [xs[1]] else []
  {
    assert Kept(xs, 0, 1) == Kept(xs, 0, 0) + if xs[0].size > 0 then [xs[0]] else [];
  }

  method CutOut(ms: seq<HighlightedMatch>, newMatch: HighlightedMatch) returns (r: seq<HighlightedMatch>)
    requires Disjoint(ms) && newMatch.Fits()
    ensures Erase(r) == TrimAll(ms, |ms|, newMatch.startColumn, newMatch.EndColumn())
  {
    var newMatchL, newMatchR := newMatch.startColumn, newMatch.EndColumn();
    r := ms;
    var i := 0;
    EndNotBeforeStart(newMatch);
    CutStart(ms, newMatchL, newMatchR);
    hide *;
    while i < |r|
      invariant 0 <= i <= |r| && Cutting(ms, r, i, newMatchL, newMatchR)
    {
      var m := r[i];
      CutNext(ms, r, i, newMatchL, newMatchR);
      var oldMatchL, oldMatchR := m.startColumn, m.EndColumn();
      if oldMatchR < newMatchL {
        i := i + 1;
        continue;
      } else if newMatchR < oldMatchL {
        return;
      } else if newMatchL <= oldMatchL && newMatchR >= oldMatchR {
        r := r[i := HighlightedMatch(m.startColumn, 0, m.paint)];
      } else if oldMatchL <= newMatchL && oldMatchR >= newMatchR {
        r := r[i := HighlightedMatch(m.startColumn, BoundedSubtract(newMatchL, oldMatchL), m.paint)];
        var tailMatch := HighlightedMatch(BoundedAdd(newMatchR, 1), BoundedSubtract(oldMatchR, newMatchR), m.paint);
        r := r[..i + 1] + [tailMatch] + r[i + 1..];
        return;
      } else if oldMatchL < newMatchL && oldMatchR < newMatchR {
        r := r[i := HighlightedMatch(m.startColumn, BoundedSubtract(newMatchL, oldMatchL), m.paint)];
      } else if oldMatchL <= newMatchR && oldMatchR > newMatchR {
        r := r[i := HighlightedMatch(BoundedAdd(newMatchR, 1), BoundedSubtract(oldMatchR, newMatchR), m.paint)];
        return;
      }
      i := i + 1;
    }
    CutAll(ms, r, i, newMatchL, newMatchR);
  }

  /** The new match lies inside range `i`: a second piece is inserted behind the first. */
  lemma StopInside(ms: seq<HighlightedMatch>, r: seq<HighlightedMatch>, i: nat, lo: nat, hi: nat,
                   left: HighlightedMatch, right: HighlightedMatch)
    requires Cutting(ms, r, i, lo, hi) && i < |ms| && hi <= ms[i].EndColumn() && |r| == |ms|
    requires Trim(ms[i], lo, hi) == Kept([left, right], 0, 2)
    ensures Erase(r[i := left][..i + 1] + [right] + r[i := left][i + 1..]) == TrimAll(ms, |ms|, lo, hi)
  {
    var s := r[i := left][..i + 1] + [right] + r[i := left][i + 1..];
    assert Spliced(r, i, [left, right], s);
    hide *;
    Stop(ms, r, i, lo, hi, [left, right], s);
  }

  /** One round of the loop, case by case. */
  lemma CutNext(ms: seq<HighlightedMatch>, r: seq<HighlightedMatch>, i: nat, lo: nat, hi: nat)
    requires Cutting(ms, r, i, lo, hi) && i < |r|
    ensures var m := r[i];
            var left := m.(size := BoundedSubtract(lo, m.startColumn));
            var right := HighlightedMatch(BoundedAdd(hi, 1), BoundedSubtract(m.EndColumn(), hi), m.paint);
            if m.EndColumn() < lo then Cutting(ms, r, i + 1, lo, hi)
            else if hi < m.startColumn then Erase(r) == TrimAll(ms, |ms|, lo, hi)
            else if lo <= m.startColumn && hi >= m.EndColumn() then Cutting(ms, r[i := m.(size := 0)], i + 1, lo, hi)
            else if m.startColumn <= lo && m.EndColumn() >= hi then
              Erase(r[i := left][..i + 1] + [right] + r[i := left][i + 1..]) == TrimAll(ms, |ms|, lo, hi)
            else if m.startColumn < lo && m.EndColumn() < hi then Cutting(ms, r[i := left], i + 1, lo, hi)
            else Erase(r[i := right]) == TrimAll(ms, |ms|, lo, hi)
  {
    var m := r[i];
    assert r[i := m] == r;
    EndNotBeforeStart(m);
    var left := m.(size := BoundedSubtract(lo, m.startColumn));
    var right := HighlightedMatch(BoundedAdd(hi, 1), BoundedSubtract(m.EndColumn(), hi), m.paint);
    if m.EndColumn() < lo || hi < m.startColumn {
      TrimBeside(m, lo, hi);
      KeptFew([m]);
    } else {
      CutOneTrims(m, lo, hi);
      KeptFew(CutOne(m, lo, hi));
    }
    hide Erase, Kept, Trim, TrimAll, Disjoint, BoundedAdd, BoundedSubtract, HighlightedMatch.EndColumn, Cutting;
    if m.EndColumn() < lo {
      Replace(ms, r, i, lo, hi, m);
    } else if hi < m.startColumn {
      Stop(ms, r, i, lo, hi, [m], r);
    } else if lo <= m.startColumn && hi >= m.EndColumn() {
      Replace(ms, r, i, lo, hi, m.(size := 0));
    } else if m.startColumn <= lo && m.EndColumn() >= hi {
      StopInside(ms, r, i, lo, hi, left, right);
    } else if m.startColumn < lo && m.EndColumn() < hi {
      Replace(ms, r, i, lo, hi, left);
    } else {
      Stop(ms, r, i, lo, hi, [right], r[i := right]);
    }
  }

  lemma CutStart(ms: seq<HighlightedMatch>, lo: nat, hi: nat)
    requires Disjoint(ms) && lo <= hi
    ensures Cutting(ms, ms, 0, lo, hi)
  {
  }

  lemma CutAll(ms: seq<HighlightedMatch>, r: seq<HighlightedMatch>, i: nat, lo: nat, hi: nat)
    requires Cutting(ms, r, i, lo, hi) && i == |r|
    ensures Erase(r) == TrimAll(ms, |ms|, lo, hi)
  {
  }

  // ---------- inserting the new match ----------

  /** The first position whose range starts at or after `start`, as the library's lower bound finds it. */
  function LowerBound(ms: seq<HighlightedMatch>, i: nat, start: nat): (p: nat)
    requires i <= |ms|
    ensures i <= p <= |ms|
    ensures forall j :: i <= j < p ==> ms[j].startColumn < start
    ensures p < |ms| ==> ms[p].startColumn >= start
    decreases |ms| - i
  {
    if i < |ms| && ms[i].startColumn < start then LowerBound(ms, i + 1, start) else i
  }

  function Insert(ms: seq<HighlightedMatch>, p: nat, m: HighlightedMatch): seq<HighlightedMatch>
    requires p <= |ms|
  {
    ms[..p] + ([m] + ms[p..])
  }

  /** No range of `ms` occupies a column of `m`. */
  ghost predicate Beside(ms: seq<HighlightedMatch>, m: HighlightedMatch) {
    forall i :: 0 <= i < |ms| ==> ms[i].EndColumn() < m.startColumn || m.EndColumn() < ms[i].startColumn
  }

  /** A range beside the match that starts before it lies left of it. */
  lemma LiesLeft(m: HighlightedMatch, x: HighlightedMatch)
    requires m.Fits() && (x.EndColumn() < m.startColumn || m.EndColumn() < x.startColumn) && x.startColumn < m.startColumn
    ensures x.EndColumn() < m.startColumn
  {
    EndNotBeforeStart(m);
  }

  lemma LiesRight(m: HighlightedMatch, x: HighlightedMatch)
    requires m.Fits() && x.Fits() && (x.EndColumn() < m.startColumn || m.EndColumn() < x.startColumn)
    requires x.startColumn >= m.startColumn
    ensures m.EndColumn() < x.startColumn
  {
    EndNotBeforeStart(x);
  }

  lemma StartsInOrder(ms: seq<HighlightedMatch>, i: nat, j: nat)
    requires Disjoint(ms) && i <= j < |ms|
    ensures ms[i].startColumn <= ms[j].startColumn
  {
    EndNotBeforeStart(ms[i]);
  }

  /** The insertion point separates the ranges left of the match from those right of it. */
  lemma PointSeparates(ms: seq<HighlightedMatch>, m: HighlightedMatch, i: nat)
    requires Disjoint(ms) && m.Fits() && Beside(ms, m) && i < |ms|
    ensures var p := LowerBound(ms, 0, m.startColumn);
            if i < p then ms[i].EndColumn() < m.startColumn else m.EndColumn() < ms[i].startColumn
  {
    var p := LowerBound(ms, 0, m.startColumn);
    if i < p {
      LiesLeft(m, ms[i]);
    } else {
      StartsInOrder(ms, p, i);
      LiesRight(m, ms[i]);
    }
  }

  lemma InsertDisjoint(ms: seq<HighlightedMatch>, m: HighlightedMatch)
    requires Disjoint(ms) && m.Fits() && Beside(ms, m)
    ensures Disjoint(Insert(ms, LowerBound(ms, 0, m.startColumn), m))
  {
    hide HighlightedMatch.EndColumn, HighlightedMatch.Fits, Beside, LowerBound;
    var p := LowerBound(ms, 0, m.startColumn);
    forall i | 0 <= i < |ms| ensures if i < p then ms[i].EndColumn() < m.startColumn else m.EndColumn() < ms[i].startColumn {
      PointSeparates(ms, m, i);
    }
    InsertOrdered(ms, p, m);
  }

  lemma InsertOrdered(ms: seq<HighlightedMatch>, p: nat, m: HighlightedMatch)
    requires Disjoint(ms) && m.Fits() && p <= |ms|
    requires forall i :: 0 <= i < |ms| ==>
               if i < p then ms[i].EndColumn() < m.startColumn else m.EndColumn() < ms[i].startColumn
    ensures Disjoint(Insert(ms, p, m))
  {
    hide HighlightedMatch.EndColumn, HighlightedMatch.Fits;
    var r := Insert(ms, p, m);
    assert |r| == |ms| + 1 && forall i :: 0 <= i < |r| ==> r[i] == if i < p then ms[i] else if i == p then m else ms[i - 1];
  }

  lemma InsertNoneEmpty(ms: seq<HighlightedMatch>, p: nat, m: HighlightedMatch)
    requires p <= |ms|
    ensures m in Insert(ms, p, m) && (m.size > 0 && NoneEmpty(ms) ==> NoneEmpty(Insert(ms, p, m)))
  {
    assert Insert(ms, p, m)[p] == m;
  }

  /** Where nothing else is drawn, the inserted match shows; elsewhere the colours stay. */
  lemma InsertColours(ms: seq<HighlightedMatch>, p: nat, m: HighlightedMatch, c: int)
    requires p <= |ms| && (m.Occupies(c) ==> ColourAt(ms, c) == None)
    ensures ColourAt(Insert(ms, p, m), c) == PaintOver(m, c, ColourAt(ms, c))
  {
    var a, b := ms[..p], ms[p..];
    assert ms == a + b;
    ColourOfConcat(a, b, |b|, c);
    ColourOfConcat([m], b, |b|, c);
    ColourOfConcat(a, [m] + b, |[m] + b|, c);
    assert Colour([m], 1, c) == if m.Covers(c) then Some(m.paint) else Colour([m], 0, c);
    hide HighlightedMatch.Occupies;
  }

  // ---------- clamping to the visible columns ----------

  function ClampOne(m: HighlightedMatch, first: nat, last: nat): HighlightedMatch {
    if m.EndColumn() < first || m.startColumn > last then m.(size := 0)
    else
      var m1 := if m.startColumn < first
                then HighlightedMatch(first, BoundedSubtract(m.EndColumn(), first) + 1, m.paint) else m;
      if m1.EndColumn() > last
      then HighlightedMatch(m1.startColumn, BoundedSubtract(last, m1.startColumn) + 1, m1.paint) else m1
  }

  function Clamp(ms: seq<HighlightedMatch>, k: nat, first: nat, last: nat): seq<HighlightedMatch>
    requires k <= |ms|
  {
    if k == 0 then []
    else
      var m := ClampOne(ms[k - 1], first, last);
      Clamp(ms, k - 1, first, last) + if m.size > 0 then [m] else []
  }

  /** The range reaches from the last visible column or before to the first one or behind. */
  predicate Spans(m: HighlightedMatch, first: nat, last: nat) {
    m.startColumn <= last < first <= m.EndColumn()
  }

  /** A clamped range covers its visible columns; with the bounds crossed, column `first` if it spans both. */
  lemma ClampOneMeaning(m: HighlightedMatch, first: nat, last: nat, c: int)
    requires m.Fits()
    ensures var n := ClampOne(m, first, last);
            && n.Fits() && n.paint == m.paint
            && (n.size > 0 ==> m.startColumn <= n.startColumn && n.EndColumn() <= m.EndColumn())
            && (first <= last ==> (n.Covers(c) <==> m.Covers(c) && first <= c <= last))
            && (first <= last && n.size > 0 ==> first <= n.startColumn && n.EndColumn() <= last)
            && (first > last ==> (n.size > 0 <==> Spans(m, first, last)))
  {
  }

  lemma {:induction false} ClampDisjoint(ms: seq<HighlightedMatch>, k: nat, first: nat, last: nat)
    requires k <= |ms| && Disjoint(ms)
    ensures var r := Clamp(ms, k, first, last);
            && Disjoint(r) && NoneEmpty(r)
            && forall i :: 0 <= i < |r| ==> k > 0 && r[i].EndColumn() <= ms[k - 1].EndColumn()
  {
    hide ClampOne, HighlightedMatch.Covers;
    if k > 0 {
      ClampDisjoint(ms, k - 1, first, last);
      ClampOneMeaning(ms[k - 1], first, last, 0);
      EndNotBeforeStart(ms[k - 1]);
      hide HighlightedMatch.EndColumn;
    }
  }

  /** Clamping restricts the drawing to the visible columns. */
  lemma {:induction false} ClampColours(ms: seq<HighlightedMatch>, k: nat, first: nat, last: nat, c: int)
    requires k <= |ms| && Disjoint(ms) && first <= last
    ensures ColourAt(Clamp(ms, k, first, last), c) == if first <= c <= last then Colour(ms, k, c) else None
  {
    hide ClampOne, HighlightedMatch.Covers;
    if k > 0 {
      ClampColours(ms, k - 1, first, last, c);
      var m := ClampOne(ms[k - 1], first, last);
      ClampOneMeaning(ms[k - 1], first, last, c);
      var piece := if m.size > 0 then [m] else [];
      ColourOfConcat(Clamp(ms, k - 1, first, last), piece, |piece|, c);
      ColourOfPiece(m, c);
    }
  }

  lemma ColourOfPiece(m: HighlightedMatch, c: int)
    ensures var piece := if m.size > 0 then [m] else [];
            ColourAt(piece, c) == if m.Covers(c) then Some(m.paint) else None
  {
    assert Colour([m], 1, c) == if m.Covers(c) then Some(m.paint) else Colour([m], 0, c);
  }

  ghost predicate Visible(ms: seq<HighlightedMatch>, first: nat, last: nat) {
    forall i :: 0 <= i < |ms| ==> first <= ms[i].startColumn && ms[i].EndColumn() <= last
  }

  lemma {:induction false} ClampIsVisible(ms: seq<HighlightedMatch>, k: nat, first: nat, last: nat)
    requires k <= |ms| && Disjoint(ms) && first <= last
    ensures Visible(Clamp(ms, k, first, last), first, last)
  {
    hide ClampOne, HighlightedMatch.EndColumn;
    if k > 0 {
      ClampIsVisible(ms, k - 1, first, last);
      ClampOneMeaning(ms[k - 1], first, last, 0);
    }
  }

  lemma {:induction false} ClampVisible(ms: seq<HighlightedMatch>, k: nat, first: nat, last: nat)
    requires k <= |ms| && Disjoint(ms) && NoneEmpty(ms) && Visible(ms, first, last)
    ensures Clamp(ms, k, first, last) == ms[..k]
  {
    if k > 0 {
      ClampVisible(ms, k - 1, first, last);
      EndNotBeforeStart(ms[k - 1]);
      assert ClampOne(ms[k - 1], first, last) == ms[k - 1];
      SliceSnoc(ms, 0, k);
    }
  }

  /** Clamping twice is clamping once. */
  lemma ClampIdempotent(ms: seq<HighlightedMatch>, first: nat, last: nat)
    requires Disjoint(ms) && first <= last
    ensures var once := Clamp(ms, |ms|, first, last); Clamp(once, |once|, first, last) == once
  {
    var once := Clamp(ms, |ms|, first, last);
    ClampDisjoint(ms, |ms|, first, last);
    ClampIsVisible(ms, |ms|, first, last);
    ClampVisible(once, |once|, first, last);
    assert once[..|once|] == once;
  }

  lemma {:induction false} ClampCrossed(ms: seq<HighlightedMatch>, k: nat, first: nat, last: nat)
    requires k <= |ms| && Disjoint(ms) && first > last
    ensures Clamp(ms, k, first, last) == [] <==> forall i :: 0 <= i < k ==> !Spans(ms[i], first, last)
  {
    hide ClampOne, Spans;
    if k > 0 {
      ClampCrossed(ms, k - 1, first, last);
      ClampOneMeaning(ms[k - 1], first, last, 0);
    }
  }

  /**
   * With the bounds crossed nothing is visible, and clamping draws nothing if and only if no range
   * reaches from one bound to the other; such a range leaves one column behind.
   */
  lemma CrossedClampIsBlank(ms: seq<HighlightedMatch>, first: nat, last: nat)
    requires Disjoint(ms) && first > last
    ensures (forall c :: ColourAt(Clamp(ms, |ms|, first, last), c) == None)
            <==> forall i :: 0 <= i < |ms| ==> !Spans(ms[i], first, last)
  {
    var r := Clamp(ms, |ms|, first, last);
    ClampDisjoint(ms, |ms|, first, last);
    ClampCrossed(ms, |ms|, first, last);
    if r != [] {
      EndNotBeforeStart(r[0]);
      ColourIs(r, |r|, 0, r[0].startColumn);
      assert ColourAt(r, r[0].startColumn) != None;
    }
  }

  // ---------- the class ----------

  class HighlightedMatchRanges {
    var matches: seq<HighlightedMatch>

    ghost predicate Valid()
      reads this
    {
      Disjoint(matches)
    }

    constructor ()
      ensures Valid() && matches == []
    {
      matches := [];
    }

    /** Paints a match over what is drawn so far. */
    method AddMatch(newMatch: HighlightedMatch)
      requires Valid() && newMatch.Fits()
      modifies this
      ensures Valid() && newMatch in matches && (newMatch.size > 0 ==> NoneEmpty(matches))
      ensures forall c :: ColourAt(matches, c) == PaintOver(newMatch, c, ColourAt(old(matches), c))
    {
      var cut := CutOut(matches, newMatch);
      AddMatchResult(matches, newMatch);
      hide *;
      matches := Erase(cut);
      var insertPos := LowerBound(matches, 0, newMatch.startColumn);
      matches := Insert(matches, insertPos, newMatch);
    }

    method AddMatches(patternMatches: seq<HighlightedMatch>)
      requires Valid() && forall i :: 0 <= i < |patternMatches| ==> patternMatches[i].Fits()
      modifies this
      ensures Valid() && (old(NoneEmpty(matches)) && NoneEmpty(patternMatches) ==> NoneEmpty(matches))
      ensures forall c :: ColourAt(matches, c) == PaintAll(patternMatches, |patternMatches|, c, ColourAt(old(matches), c))
    {
      hide PaintOver, ColourAt, Disjoint, HighlightedMatch.Fits;
      for i := 0 to |patternMatches|
        invariant Valid() && (old(NoneEmpty(matches)) && NoneEmpty(patternMatches) ==> NoneEmpty(matches))
        invariant forall c :: ColourAt(matches, c) == PaintAll(patternMatches, i, c, ColourAt(old(matches), c))
      {
        AddMatch(patternMatches[i]);
      }
    }

    /** Restricts the drawing to the columns `first` to `last`. */
    method ClampTo(first: nat, last: nat)
      requires Valid()
      modifies this
      ensures Valid() && NoneEmpty(matches) && matches == Clamp(old(matches), |old(matches)|, first, last)
    {
      ClampDisjoint(matches, |matches|, first, last);
      matches := ClampList(matches, first, last);
    }
  }

  /** Subtracting, erasing and inserting paints the match. */
  lemma AddMatchResult(ms: seq<HighlightedMatch>, m: HighlightedMatch)
    requires Disjoint(ms) && m.Fits()
    ensures var rest := TrimAll(ms, |ms|, m.startColumn, m.EndColumn());
            var r := Insert(rest, LowerBound(rest, 0, m.startColumn), m);
            && Disjoint(r) && m in r && (m.size > 0 ==> NoneEmpty(r))
            && forall c :: ColourAt(r, c) == PaintOver(m, c, ColourAt(ms, c))
  {
    var lo, hi := m.startColumn, m.EndColumn();
    var rest := TrimAll(ms, |ms|, lo, hi);
    EndNotBeforeStart(m);
    TrimAllDisjoint(ms, |ms|, lo, hi);
    hide TrimAll, Disjoint, NoneEmpty, Insert, ColourAt, PaintOver, HighlightedMatch.Occupies;
    var p := LowerBound(rest, 0, lo);
    InsertDisjoint(rest, m);
    InsertNoneEmpty(rest, p, m);
    var r := Insert(rest, p, m);
    forall c ensures ColourAt(r, c) == PaintOver(m, c, ColourAt(ms, c)) {
      TrimAllColours(ms, |ms|, lo, hi, c);
      PaintedOver(ms, rest, p, m, c);
    }
  }

  lemma PaintedOver(ms: seq<HighlightedMatch>, rest: seq<HighlightedMatch>, p: nat, m: HighlightedMatch, c: int)
    requires p <= |rest|
    requires ColourAt(rest, c) == if m.startColumn <= c <= m.EndColumn() then None else Colour(ms, |ms|, c)
    ensures ColourAt(Insert(rest, p, m), c) == PaintOver(m, c, ColourAt(ms, c))
  {
    InsertColours(rest, p, m, c);
    hide Insert, Colour;
  }

  /** Clamps every range in place, then erases those that are empty. */
  method ClampList(ms: seq<HighlightedMatch>, first: nat, last: nat) returns (r: seq<HighlightedMatch>)
    ensures r == Clamp(ms, |ms|, first, last)
  {
    r := ms;
    hide BoundedSubtract, BoundedAdd;
    for i := 0 to |ms|
      invariant |r| == |ms| && forall j :: i <= j < |ms| ==> r[j] == ms[j]
      invariant Kept(r, 0, i) == Clamp(ms, i, first, last)
    {
      var m := r[i];
      ClampNext(ms, r, i, first, last);
      if m.EndColumn() < first || m.startColumn > last {
        r := r[i := HighlightedMatch(m.startColumn, 0, m.paint)];
        continue;
      }
      if m.startColumn < first {
        m := HighlightedMatch(first, BoundedSubtract(m.EndColumn(), first) + 1, m.paint);
      }
      if m.EndColumn() > last {
        m := HighlightedMatch(m.startColumn, BoundedSubtract(last, m.startColumn) + 1, m.paint);
      }
      r := r[i := m];
    }
    r := Erase(r);
  }

  lemma ClampNext(ms: seq<HighlightedMatch>, r: seq<HighlightedMatch>, i: nat, first: nat, last: nat)
    requires i < |ms| == |r| && r[i] == ms[i] && Kept(r, 0, i) == Clamp(ms, i, first, last)
    ensures Kept(r[i := ClampOne(ms[i], first, last)], 0, i + 1) == Clamp(ms, i + 1, first, last)
  {
    hide ClampOne;
    KeptEqual(r, r[i := ClampOne(ms[i], first, last)], 0, 0, i);
  }
}
