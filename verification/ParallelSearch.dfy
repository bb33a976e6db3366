/**
 * The search as a flow graph (`logfiltereddataworker.cpp`): a reader bounded by a limiter, an
 * unordered queue, several matchers, another unordered queue and one combiner, while the client
 * drains the shared results and may interrupt the search. Every interleaving is a sequence of steps.
 */
module ParallelSearch {
  import opened Bytes
  import opened LineFilter

  /** A chunk of lines on its way through the graph. */
  datatype Block = Block(chunkStart: nat, number: nat) {
    function End(): nat {
      chunkStart + number
    }

    predicate Has(k: int) {
      chunkStart <= k < End()
    }
  }

  /** What a search is asked to do, and what the shared results and the client held before. */
  datatype Search = Search(hit: nat -> bool, length: nat -> nat, initialLine: nat, endLine: nat, nbLinesInChunk: nat,
                           matchingThreadsCount: nat, totals: SearchTotals, client: set<nat>) {
    ghost predicate Valid() {
      nbLinesInChunk >= 1 && matchingThreadsCount >= 1
    }

    function Hits(block: Block): (h: set<nat>)
      ensures forall k :: k in h <==> block.Has(k) && hit(k)
    {
      set k: nat | block.chunkStart <= k < block.End() && hit(k)
    }

    /** The length of the longest matching line among the first `n` of a block. */
    function LongestHit(block: Block, n: nat): nat {
      if n == 0 then 0
      else
        var k := block.chunkStart + n - 1;
        Max(LongestHit(block, n - 1), if hit(k) then length(k) else 0)
    }

    function Limit(): nat {
      matchingThreadsCount * 3
    }

    /** The chunk that the reader reads at `chunkStart`. */
    function ChunkAt(chunkStart: nat): Block
      requires chunkStart <= endLine
    {
      Block(chunkStart, Min(nbLinesInChunk, endLine - chunkStart))
    }
  }

  /** The reading loop: it has a block that the limiter has not seen yet, or has just refused. */
  datatype Reader = Reading | Putting(block: Block) | Refused(block: Block)

  /** The combiner: it publishes the results of a block, or passes it on because of an interruption. */
  datatype Combiner = Waiting | Combining(block: Block, searched: bool, publish: bool)

  /**
   * Blocks are told apart by where they start; `published` and `discarded` have left the graph. The
   * combiner keeps `maxLength` and `totalProcessedLines` to itself.
   */
  datatype State = State(
    chunkStart: nat, reader: Reader, inFlight: nat,
    queued: set<Block>, searching: set<Block>, skipping: set<Block>, searched: set<Block>, skipped: set<Block>,
    combiner: Combiner, maxLength: nat, totalProcessedLines: nat, published: set<Block>, discarded: set<Block>,
    interruptRequested: bool, totals: SearchTotals, client: set<nat>)
  {
    /** The number of places where a block is. */
    function Places(b: Block): nat {
      (if reader.Reading? || reader.block != b then 0 else 1) + (if combiner.Waiting? || combiner.block != b then 0 else 1)
      + (if b in queued then 1 else 0) + (if b in searching then 1 else 0) + (if b in skipping then 1 else 0)
      + (if b in searched then 1 else 0) + (if b in skipped then 1 else 0)
      + (if b in published then 1 else 0) + (if b in discarded then 1 else 0)
    }

    /** The number of blocks that the limiter has let in and not seen again. */
    function InGraph(): nat {
      Queued(this) + AtMatchers(this) + Matched(this) + AtCombiner(this)
    }

    /** What the client has or is about to take. */
    function Matches(): set<nat> {
      client + totals.newMatches
    }
  }

  function Queued(s: State): nat { |s.queued| }

  function AtMatchers(s: State): nat { |s.searching| + |s.skipping| }

  function Matched(s: State): nat { |s.searched| + |s.skipped| }

  function AtCombiner(s: State): nat { if s.combiner.Waiting? then 0 else 1 }

  datatype Step =
    | ReadChunk
    | Put
    | Refuse
    | Retry
    | GiveUp
    | StartMatching(block: Block)
    | FinishMatching(block: Block)
    | StartCombining(block: Block)
    | FinishCombining
    | TakeCurrentResults
    | Interrupt

  function Start(p: Search): State {
    State(p.initialLine, Reading, 0, {}, {}, {}, {}, {}, Waiting, 0, 0, {}, {}, false, p.totals, p.client)
  }

  predicate Enabled(p: Search, s: State, step: Step) {
    match step
    case ReadChunk => s.reader.Reading? && s.chunkStart < p.endLine && !s.interruptRequested
    case Put => s.reader.Putting? && s.inFlight < p.Limit()
    case Refuse => s.reader.Putting? && s.inFlight >= p.Limit()
    case Retry => s.reader.Refused? && !s.interruptRequested
    case GiveUp => s.reader.Refused? && s.interruptRequested
    case StartMatching(b) => b in s.queued && AtMatchers(s) < p.matchingThreadsCount
    case FinishMatching(b) => b in s.searching || b in s.skipping
    case StartCombining(b) => s.combiner.Waiting? && (b in s.searched || b in s.skipped)
    case FinishCombining => s.combiner.Combining?
    case TakeCurrentResults => true
    case Interrupt => !s.interruptRequested
  }

  function Apply(p: Search, s: State, step: Step): State
    requires Enabled(p, s, step)
  {
    match step
    case ReadChunk =>
      s.(reader := Putting(p.ChunkAt(s.chunkStart)), chunkStart := s.chunkStart + p.nbLinesInChunk)
    case Put => s.(reader := Reading, inFlight := s.inFlight + 1, queued := s.queued + {s.reader.block})
    case Refuse => s.(reader := Refused(s.reader.block))
    case Retry => s.(reader := Putting(s.reader.block))
    case GiveUp => s.(reader := Reading, discarded := s.discarded + {s.reader.block})
    case StartMatching(b) =>
      var t := s.(queued := s.queued - {b});
      if s.interruptRequested then t.(skipping := s.skipping + {b})
      else t.(searching := s.searching + {b})
    case FinishMatching(b) =>
      if b in s.searching then s.(searching := s.searching - {b}, searched := s.searched + {b})
      else s.(skipping := s.skipping - {b}, skipped := s.skipped + {b})
    case StartCombining(b) =>
      if b in s.searched then
        s.(searched := s.searched - {b}, combiner := Combining(b, true, !s.interruptRequested))
      else
        s.(skipped := s.skipped - {b}, combiner := Combining(b, false, !s.interruptRequested))
    case FinishCombining =>
      var c := s.combiner;
      var t := s.(combiner := Waiting, inFlight := if s.inFlight > 0 then s.inFlight - 1 else 0);
      if c.publish then
        var matches := if c.searched then p.Hits(c.block) else {};
        var longest := Max(s.maxLength, if c.searched then p.LongestHit(c.block, c.block.number) else 0);
        t.(totals := s.totals.AddAll(longest, matches, |matches|, c.block.End()), maxLength := longest,
           totalProcessedLines := s.totalProcessedLines + c.block.number, published := s.published + {c.block})
      else t.(discarded := s.discarded + {c.block})
    case TakeCurrentResults =>
      s.(client := s.client + s.totals.newMatches, totals := s.totals.WithoutNewMatches())
    case Interrupt => s.(interruptRequested := true)
  }

  // ---------- the chunks of the range ----------

  /** `next` is where the reader stands after some number of whole chunks. */
  ghost predicate Aligned(p: Search, next: nat)
    decreases next
  {
    next == p.initialLine
    || (p.nbLinesInChunk >= 1 && p.initialLine + p.nbLinesInChunk <= next && Aligned(p, next - p.nbLinesInChunk))
  }

  /** A chunk that is read before the reader stands at `next`. */
  ghost predicate IsChunk(p: Search, next: nat, b: Block) {
    && Aligned(p, b.chunkStart) && b.chunkStart < next && b.chunkStart < p.endLine
    && b == p.ChunkAt(b.chunkStart)
  }

  lemma {:induction false} AlignedGap(p: Search, a: nat, b: nat)
    requires Aligned(p, a) && Aligned(p, b) && a < b
    ensures p.initialLine <= a && p.nbLinesInChunk >= 1 && a + p.nbLinesInChunk <= b
    decreases b
  {
    var last := b - p.nbLinesInChunk;
    if a < last {
      AlignedGap(p, a, last);
    } else if last < a {
      AlignedGap(p, last, a);
    }
  }

  /** No line is in two chunks. */
  lemma ChunksDisjoint(p: Search, next: nat, b: Block, c: Block, k: int)
    requires IsChunk(p, next, b) && IsChunk(p, next, c) && b.Has(k) && c.Has(k)
    ensures b == c
  {
    if b.chunkStart < c.chunkStart {
      AlignedGap(p, b.chunkStart, c.chunkStart);
    } else if c.chunkStart < b.chunkStart {
      AlignedGap(p, c.chunkStart, b.chunkStart);
    }
  }

  /** Some block of the set has line `k`. */
  ghost predicate InSome(blocks: set<Block>, k: int) {
    exists b :: b in blocks && b.Has(k)
  }

  /** No line before the reader is left out. */
  lemma {:induction false} ChunkOf(p: Search, next: nat, k: nat) returns (b: Block)
    requires Aligned(p, next) && p.initialLine <= k < next && k < p.endLine
    ensures IsChunk(p, next, b) && b.Has(k)
    decreases next
  {
    var last := next - p.nbLinesInChunk;
    if k < last {
      b := ChunkOf(p, last, k);
    } else {
      b := p.ChunkAt(last);
    }
  }

  // ---------- the invariant ----------

  /** The matching lines of the given blocks. */
  ghost function Gathered(p: Search, blocks: set<Block>): (g: set<nat>)
    ensures forall k :: k in g <==> 0 <= k < p.endLine && p.hit(k) && InSome(blocks, k)
  {
    set k: nat | k < p.endLine && p.hit(k) && InSome(blocks, k)
  }

  /** Nothing is lost or doubled: every chunk that was read is in exactly one place. */
  ghost predicate Conserved(p: Search, s: State) {
    && Aligned(p, s.chunkStart)
    && forall b :: s.Places(b) == if IsChunk(p, s.chunkStart, b) then 1 else 0
  }

  /** The limiter counts the blocks in the graph and keeps to its limit; each matcher has one block. */
  ghost predicate Bounded(p: Search, s: State) {
    s.inFlight == s.InGraph() <= p.Limit() && AtMatchers(s) <= p.matchingThreadsCount
  }

  /** Blocks are skipped or discarded only after an interruption, and no skipped block is published. */
  ghost predicate Interrupted(s: State) {
    && (s.combiner.Combining? && s.combiner.publish ==> s.combiner.searched)
    && (s.interruptRequested
        || (s.skipping == {} && s.skipped == {} && s.discarded == {}
            && (s.combiner.Combining? ==> s.combiner.searched && s.combiner.publish)))
  }

  /** The results are those of the published blocks. */
  ghost predicate Published(p: Search, s: State) {
    var gathered := Gathered(p, s.published);
    && s.Matches() == p.client + p.totals.newMatches + gathered
    && s.totals.nbMatches == p.totals.nbMatches + |gathered|
    && s.totals.nbLinesProcessed >= p.totals.nbLinesProcessed
    && (forall b :: b in s.published ==> b.End() <= s.totals.nbLinesProcessed)
    && (s.totals.nbLinesProcessed == p.totals.nbLinesProcessed
        || exists b :: b in s.published && b.End() == s.totals.nbLinesProcessed)
  }

  /** `n` is the length of the longest of the lines; 0 if there are none. */
  ghost predicate IsLongest(p: Search, lines: set<nat>, n: nat) {
    (forall k :: k in lines ==> p.length(k) <= n) && (n == 0 || exists k :: k in lines && p.length(k) == n)
  }

  /** The lines of the given blocks. */
  ghost function Covered(p: Search, blocks: set<Block>): (c: set<nat>)
    ensures forall k :: k in c <==> p.initialLine <= k < p.endLine && InSome(blocks, k)
  {
    set k: nat | p.initialLine <= k < p.endLine && InSome(blocks, k)
  }

  /** The combiner has counted the lines of the published blocks and measured their matches. */
  ghost predicate Measured(p: Search, s: State) {
    && s.totalProcessedLines == |Covered(p, s.published)|
    && IsLongest(p, Gathered(p, s.published), s.maxLength)
    && s.totals.maxLength == Max(p.totals.maxLength, s.maxLength)
  }

  ghost predicate Inv(p: Search, s: State) {
    Conserved(p, s) && Bounded(p, s) && Interrupted(s) && Published(p, s) && Measured(p, s)
  }

  lemma InitInv(p: Search)
    ensures Inv(p, Start(p))
  {
    assert Gathered(p, {}) == {} && Covered(p, {}) == {};
  }

  /** Every step but reading moves a block from one place to another. */
  lemma StepMoves(p: Search, s: State, step: Step, b: Block)
    requires Enabled(p, s, step) && forall c :: s.Places(c) <= 1
    requires step == ReadChunk ==> s.Places(p.ChunkAt(s.chunkStart)) == 0
    ensures Apply(p, s, step).Places(b) == s.Places(b) + if step == ReadChunk && b == p.ChunkAt(s.chunkStart) then 1 else 0
  {
    hide Search.Hits, Search.ChunkAt, Search.Limit, SearchTotals.AddAll;
  }

  lemma StepConserves(p: Search, s: State, step: Step)
    requires p.Valid() && Conserved(p, s) && Enabled(p, s, step)
    ensures Conserved(p, Apply(p, s, step))
  {
    var t := Apply(p, s, step);
    assert step == ReadChunk ==> t.chunkStart == s.chunkStart + p.nbLinesInChunk && s.chunkStart < p.endLine;
    assert step != ReadChunk ==> t.chunkStart == s.chunkStart;
    StartAboveInitial(p, s.chunkStart);
    forall b: Block ensures t.Places(b) == if IsChunk(p, t.chunkStart, b) then 1 else 0 {
      StepMoves(p, s, step, b);
      if step == ReadChunk && IsChunk(p, t.chunkStart, b) && s.chunkStart < b.chunkStart {
        AlignedGap(p, s.chunkStart, b.chunkStart);
      }
      hide State.Places, Apply;
    }
  }

  lemma StartAboveInitial(p: Search, next: nat)
    requires Aligned(p, next)
    ensures p.initialLine <= next
  {
  }

  lemma Grows<T>(s: set<T>, x: T)
    requires x !in s
    ensures |s + {x}| == |s| + 1
  {
  }

  lemma Shrinks<T>(s: set<T>, x: T)
    requires x in s
    ensures |s - {x}| == |s| - 1
  {
  }

  lemma NotTwice(s: State, b: Block)
    requires s.Places(b) <= 1
    ensures !s.reader.Reading? && s.reader.block == b ==> b !in s.queued
    ensures b in s.queued ==> b !in s.searching && b !in s.skipping
    ensures b in s.searching || b in s.skipping ==> b !in s.searched && b !in s.skipped
  {
  }

  lemma StepQueued(p: Search, s: State, step: Step)
    requires Enabled(p, s, step) && forall c :: s.Places(c) <= 1
    ensures Queued(Apply(p, s, step))
            == Queued(s) + (if step.Put? then 1 else 0) - (if step.StartMatching? then 1 else 0)
  {
    hide Search.Hits, Search.ChunkAt, Search.Limit, SearchTotals.AddAll, State.Places, AtMatchers;
    if step.Put? {
      NotTwice(s, s.reader.block);
      Grows(s.queued, s.reader.block);
    } else if step.StartMatching? {
      Shrinks(s.queued, step.block);
    }
  }

  lemma StepAtMatchers(p: Search, s: State, step: Step)
    requires Enabled(p, s, step) && forall c :: s.Places(c) <= 1
    ensures AtMatchers(Apply(p, s, step))
            == AtMatchers(s) + (if step.StartMatching? then 1 else 0) - (if step.FinishMatching? then 1 else 0)
  {
    hide Search.Hits, Search.ChunkAt, Search.Limit, SearchTotals.AddAll, State.Places;
    if step.StartMatching? {
      NotTwice(s, step.block);
      if s.interruptRequested { Grows(s.skipping, step.block); } else { Grows(s.searching, step.block); }
    } else if step.FinishMatching? {
      if step.block in s.searching { Shrinks(s.searching, step.block); } else { Shrinks(s.skipping, step.block); }
    }
  }

  lemma StepMatched(p: Search, s: State, step: Step)
    requires Enabled(p, s, step) && forall c :: s.Places(c) <= 1
    ensures Matched(Apply(p, s, step))
            == Matched(s) + (if step.FinishMatching? then 1 else 0) - (if step.StartCombining? then 1 else 0)
  {
    hide Search.Hits, Search.ChunkAt, Search.Limit, SearchTotals.AddAll, State.Places, AtMatchers;
    if step.FinishMatching? {
      NotTwice(s, step.block);
      if step.block in s.searching { Grows(s.searched, step.block); } else { Grows(s.skipped, step.block); }
    } else if step.StartCombining? {
      if step.block in s.searched { Shrinks(s.searched, step.block); } else { Shrinks(s.skipped, step.block); }
    }
  }

  /** How a step changes the number of blocks in each part of the graph. */
  lemma StepSizes(p: Search, s: State, step: Step)
    requires Enabled(p, s, step) && forall c :: s.Places(c) <= 1
    ensures var t := Apply(p, s, step);
            && Queued(t) == Queued(s) + (if step.Put? then 1 else 0) - (if step.StartMatching? then 1 else 0)
            && AtMatchers(t) == AtMatchers(s) + (if step.StartMatching? then 1 else 0) - (if step.FinishMatching? then 1 else 0)
            && Matched(t) == Matched(s) + (if step.FinishMatching? then 1 else 0) - (if step.StartCombining? then 1 else 0)
            && AtCombiner(t) == AtCombiner(s) + (if step.StartCombining? then 1 else 0) - (if step.FinishCombining? then 1 else 0)
  {
    hide Queued, AtMatchers, Matched, State.Places;
    StepQueued(p, s, step);
    StepAtMatchers(p, s, step);
    StepMatched(p, s, step);
  }

  /** How a step changes what the reading loop and the limiter see. */
  lemma StepControl(p: Search, s: State, step: Step)
    requires Enabled(p, s, step)
    ensures var t := Apply(p, s, step);
            && t.inFlight == s.inFlight + (if step.Put? then 1 else 0) - (if step.FinishCombining? && s.inFlight > 0 then 1 else 0)
            && t.chunkStart == s.chunkStart + (if step.ReadChunk? then p.nbLinesInChunk else 0)
            && (step.ReadChunk? ==> s.chunkStart < p.endLine)
            && t.reader.Reading? == (if step.ReadChunk? then false else step.Put? || step.GiveUp? || s.reader.Reading?)
            && (step.ReadChunk? ==> s.reader.Reading?)
            && (step.Put? || step.Refuse? || step.GiveUp? || step.Retry? ==> !s.reader.Reading?)
            && t.interruptRequested == (step.Interrupt? || s.interruptRequested)
            && (step.Interrupt? ==> !s.interruptRequested)
            && (step.Put? ==> s.inFlight < p.Limit()) && (step.StartMatching? ==> AtMatchers(s) < p.matchingThreadsCount)
  {
    hide Search.Hits, Search.ChunkAt, Search.Limit, SearchTotals.AddAll, AtMatchers;
  }

  lemma StepBounded(p: Search, s: State, step: Step)
    requires p.Valid() && Bounded(p, s) && Enabled(p, s, step)
    requires forall c :: s.Places(c) <= 1
    ensures Bounded(p, Apply(p, s, step))
  {
    hide Apply, Enabled, State.Places, Search.Limit, Queued, AtMatchers, Matched, AtCombiner;
    StepSizes(p, s, step);
    StepControl(p, s, step);
  }

  lemma StepInterrupted(p: Search, s: State, step: Step)
    requires Interrupted(s) && Enabled(p, s, step)
    ensures Interrupted(Apply(p, s, step))
  {
  }

  /** Publishing one more chunk adds exactly its matching lines, none of which was there. */
  lemma GatherOne(p: Search, next: nat, published: set<Block>, b: Block)
    requires b !in published && IsChunk(p, next, b) && forall c :: c in published ==> IsChunk(p, next, c)
    ensures Gathered(p, published + {b}) == Gathered(p, published) + p.Hits(b)
    ensures |Gathered(p, published + {b})| == |Gathered(p, published)| + |p.Hits(b)|
  {
    var before, hits, after := Gathered(p, published), p.Hits(b), Gathered(p, published + {b});
    assert b in published + {b};
    forall k ensures k in after <==> k in before || k in hits {
      if k in before {
        var c :| c in published && c.Has(k);
        assert c in published + {b};
      }
    }
    forall k | k in before && k in hits ensures false {
      var c :| c in published && c.Has(k);
      ChunksDisjoint(p, next, b, c, k);
    }
    hide *;
    assert after == before + hits;
    assert before !! hits;
  }

  lemma StepPublishes(p: Search, s: State, step: Step)
    requires Conserved(p, s) && Interrupted(s) && Published(p, s) && Enabled(p, s, step)
    ensures Published(p, Apply(p, s, step))
  {
    if step == FinishCombining && s.combiner.publish {
      var b := s.combiner.block;
      assert s.Places(b) == 1;
      forall c | c in s.published ensures IsChunk(p, s.chunkStart, c) {
        assert s.Places(c) > 0;
      }
      GatherOne(p, s.chunkStart, s.published, b);
      PublishOne(p, s, b);
    }
  }

  lemma PublishOne(p: Search, s: State, b: Block)
    requires Published(p, s) && Enabled(p, s, FinishCombining) && s.combiner == Combining(b, true, true)
    requires Gathered(p, s.published + {b}) == Gathered(p, s.published) + p.Hits(b)
    requires |Gathered(p, s.published + {b})| == |Gathered(p, s.published)| + |p.Hits(b)|
    ensures Published(p, Apply(p, s, FinishCombining))
  {
    hide Gathered, Search.Hits;
    var t := Apply(p, s, FinishCombining);
    assert t.published == s.published + {b};
    assert b in t.published;
  }

  function Interval(a: nat, b: nat): (r: set<nat>)
    ensures forall k :: k in r <==> a <= k < b
    decreases b
  {
    if a < b then Interval(a, b - 1) + {b - 1} else {}
  }

  lemma {:induction false} IntervalSize(a: nat, b: nat)
    ensures |Interval(a, b)| == if a <= b then b - a else 0
    decreases b
  {
    if a < b {
      IntervalSize(a, b - 1);
    }
  }

  lemma ChunkBounds(p: Search, next: nat, b: Block)
    requires p.Valid() && IsChunk(p, next, b)
    ensures p.initialLine <= b.chunkStart < b.End() <= p.endLine
  {
    StartAboveInitial(p, b.chunkStart);
  }

  /** Publishing one more chunk covers its lines, none of which was covered. */
  lemma CoverOne(p: Search, next: nat, published: set<Block>, b: Block)
    requires p.Valid() && b !in published && IsChunk(p, next, b) && forall c :: c in published ==> IsChunk(p, next, c)
    ensures |Covered(p, published + {b})| == |Covered(p, published)| + b.number
  {
    ChunkBounds(p, next, b);
    var before, lines, after := Covered(p, published), Interval(b.chunkStart, b.End()), Covered(p, published + {b});
    assert b in published + {b};
    forall k ensures k in after <==> k in before || k in lines {
      if k in before {
        var c :| c in published && c.Has(k);
        assert c in published + {b};
      }
    }
    forall k | k in before && k in lines ensures false {
      var c :| c in published && c.Has(k);
      ChunksDisjoint(p, next, b, c, k);
    }
    IntervalSize(b.chunkStart, b.End());
    hide *;
    assert after == before + lines;
    assert before !! lines;
  }

  lemma {:induction false} LongestOfBlock(p: Search, b: Block, n: nat)
    ensures IsLongest(p, p.Hits(Block(b.chunkStart, n)), p.LongestHit(b, n))
  {
    if n > 0 {
      LongestOfBlock(p, b, n - 1);
      var before, after := p.Hits(Block(b.chunkStart, n - 1)), p.Hits(Block(b.chunkStart, n));
      var last := b.chunkStart + n - 1;
      assert after == before + if p.hit(last) then {last} else {};
      LongestOfBoth(p, before, if p.hit(last) then {last} else {}, p.LongestHit(b, n - 1), if p.hit(last) then p.length(last) else 0);
    }
  }

  lemma LongestOfBoth(p: Search, a: set<nat>, b: set<nat>, m: nat, n: nat)
    requires IsLongest(p, a, m) && IsLongest(p, b, n)
    ensures IsLongest(p, a + b, Max(m, n))
  {
    if k :| k in a && p.length(k) == m { assert k in a + b; }
    if k :| k in b && p.length(k) == n { assert k in a + b; }
  }

  lemma StepMeasures(p: Search, s: State, step: Step)
    requires p.Valid() && Conserved(p, s) && Interrupted(s) && Measured(p, s) && Enabled(p, s, step)
    ensures Measured(p, Apply(p, s, step))
  {
    if step == FinishCombining && s.combiner.publish {
      var b := s.combiner.block;
      assert s.Places(b) == 1;
      forall c | c in s.published ensures IsChunk(p, s.chunkStart, c) {
        assert s.Places(c) > 0;
      }
      GatherOne(p, s.chunkStart, s.published, b);
      CoverOne(p, s.chunkStart, s.published, b);
      LongestOfBlock(p, b, b.number);
      assert Block(b.chunkStart, b.number) == b;
      MeasureOne(p, s, b);
    } else {
      hide IsLongest, State.Places, IsChunk, Search.Hits, Search.LongestHit;
    }
  }

  lemma MeasureOne(p: Search, s: State, b: Block)
    requires Measured(p, s) && Enabled(p, s, FinishCombining) && s.combiner == Combining(b, true, true)
    requires Gathered(p, s.published + {b}) == Gathered(p, s.published) + p.Hits(b)
    requires |Covered(p, s.published + {b})| == |Covered(p, s.published)| + b.number
    requires IsLongest(p, p.Hits(b), p.LongestHit(b, b.number))
    ensures Measured(p, Apply(p, s, FinishCombining))
  {
    LongestOfBoth(p, Gathered(p, s.published), p.Hits(b), s.maxLength, p.LongestHit(b, b.number));
    hide Gathered, Covered, IsLongest, Search.Hits, Search.LongestHit;
    assert Apply(p, s, FinishCombining).published == s.published + {b};
  }

  lemma StepInv(p: Search, s: State, step: Step)
    requires p.Valid() && Inv(p, s) && Enabled(p, s, step)
    ensures Inv(p, Apply(p, s, step))
  {
    hide Apply, Bounded, Interrupted, Published, Measured, Enabled;
    StepConserves(p, s, step);
    StepBounded(p, s, step);
    StepInterrupted(p, s, step);
    StepPublishes(p, s, step);
    StepMeasures(p, s, step);
  }

  // ---------- runs ----------

  /** The states that some sequence of steps leads to. */
  ghost predicate Reaches(p: Search, steps: seq<Step>, s: State) {
    if steps == [] then s == Start(p)
    else
      var last := |steps| - 1;
      exists r :: Reaches(p, steps[..last], r) && Enabled(p, r, steps[last]) && s == Apply(p, r, steps[last])
  }

  lemma {:induction false} ReachableInv(p: Search, steps: seq<Step>, s: State)
    requires p.Valid() && Reaches(p, steps, s)
    ensures Inv(p, s)
  {
    hide Inv, Apply, Enabled;
    if steps == [] {
      InitInv(p);
    } else {
      var last := |steps| - 1;
      var r :| Reaches(p, steps[..last], r) && Enabled(p, r, steps[last]) && s == Apply(p, r, steps[last]);
      ReachableInv(p, steps[..last], r);
      StepInv(p, r, steps[last]);
    }
  }

  /** In every reachable state: the limits hold, and every published block was really searched. */
  lemma BoundedInEveryState(p: Search, steps: seq<Step>, s: State)
    requires p.Valid() && Reaches(p, steps, s)
    ensures s.inFlight == s.InGraph() <= p.matchingThreadsCount * 3
    ensures |s.searching| + |s.skipping| <= p.matchingThreadsCount
    ensures forall b :: IsChunk(p, s.chunkStart, b) <==> s.Places(b) == 1
    ensures forall b :: !IsChunk(p, s.chunkStart, b) <==> s.Places(b) == 0
  {
    ReachableInv(p, steps, s);
    hide State.Places, IsChunk, State.InGraph;
  }

  /**
   * In every reachable state, interrupted or not, the client has, or can take, exactly the
   * matching lines of the published chunks, and the counter counts them.
   */
  lemma PublishedInEveryState(p: Search, steps: seq<Step>, s: State, k: nat)
    requires p.Valid() && Reaches(p, steps, s)
    ensures k in s.Matches() <==> k in p.client + p.totals.newMatches || (p.hit(k) && InSome(s.published, k))
    ensures s.totals.nbMatches == p.totals.nbMatches + |Gathered(p, s.published)|
    ensures !s.interruptRequested ==> s.skipping == {} && s.skipped == {} && s.discarded == {}
  {
    ReachableInv(p, steps, s);
    if InSome(s.published, k) {
      var b :| b in s.published && b.Has(k);
      assert s.Places(b) == 1;
    }
  }

  /** The reading loop has ended and the graph is idle. */
  predicate Finished(p: Search, s: State) {
    s.reader.Reading? && (s.chunkStart >= p.endLine || s.interruptRequested) && s.inFlight == 0
  }

  /** The matching lines of the whole range: what a plain filter over the lines gives. */
  function SequentialMatches(p: Search): (r: set<nat>)
    ensures forall k :: k in r <==> p.initialLine <= k < p.endLine && p.hit(k)
  {
    set k: nat | p.initialLine <= k < p.endLine && p.hit(k)
  }

  /** An uninterrupted search that has finished found what a sequential filter finds. */
  lemma FinishedSearchIsSequential(p: Search, steps: seq<Step>, s: State)
    requires p.Valid() && Reaches(p, steps, s) && Finished(p, s) && !s.interruptRequested
    ensures s.Matches() == p.client + p.totals.newMatches + SequentialMatches(p)
    ensures s.totals.nbMatches == p.totals.nbMatches + |SequentialMatches(p)|
    ensures s.totals.nbLinesProcessed
            == if p.initialLine < p.endLine then Max(p.totals.nbLinesProcessed, p.endLine) else p.totals.nbLinesProcessed
    ensures IsLongest(p, SequentialMatches(p), s.maxLength) && s.totals.maxLength == Max(p.totals.maxLength, s.maxLength)
    ensures forall k: nat :: p.initialLine <= k < p.endLine && p.hit(k) ==> p.length(k) <= s.maxLength
    ensures s.maxLength == 0 || exists k: nat :: p.initialLine <= k < p.endLine && p.hit(k) && p.length(k) == s.maxLength
  {
    ReachableInv(p, steps, s);
    AllPublished(p, s);
    forall k: nat ensures p.initialLine <= k < p.endLine <==> InSome(s.published, k) {
      if p.initialLine <= k < p.endLine {
        var b := ChunkOf(p, s.chunkStart, k);
        assert b in s.published;
      }
      if InSome(s.published, k) {
        var b :| b in s.published && b.Has(k);
        StartAboveInitial(p, b.chunkStart);
      }
    }
    assert Gathered(p, s.published) == SequentialMatches(p);
    if p.initialLine < p.endLine {
      var b := ChunkOf(p, s.chunkStart, p.endLine - 1);
      assert b in s.published && b.End() == p.endLine;
    }
  }

  /** The same, line by line. */
  lemma FinishedSearchFinds(p: Search, steps: seq<Step>, s: State)
    requires p.Valid() && Reaches(p, steps, s) && Finished(p, s) && !s.interruptRequested
    ensures forall k :: k in s.Matches() <==>
              k in p.client || k in p.totals.newMatches || (p.initialLine <= k < p.endLine && p.hit(k))
    ensures s.totals.nbLinesProcessed
            == if p.initialLine < p.endLine then Max(p.totals.nbLinesProcessed, p.endLine) else p.totals.nbLinesProcessed
  {
    hide Reaches, Finished, State.Matches, IsLongest;
    FinishedSearchIsSequential(p, steps, s);
  }

  lemma AllPublished(p: Search, s: State)
    requires Inv(p, s) && Finished(p, s) && !s.interruptRequested
    ensures forall b :: b in s.published <==> IsChunk(p, s.chunkStart, b)
  {
    forall b: Block ensures b in s.published <==> IsChunk(p, s.chunkStart, b) {
      assert s.Places(b) == if IsChunk(p, s.chunkStart, b) then 1 else 0;
      hide IsChunk;
    }
  }

  // ---------- the search comes to an end ----------

  /** The client's drains and the reader's waiting do not count as work. */
  predicate Idle(step: Step) {
    step.TakeCurrentResults? || step.Refuse? || step.Retry?
  }

  /** The work left to do. */
  function Work(p: Search, s: State): nat {
    6 * Max(0, p.endLine - s.chunkStart) + (if s.reader.Reading? then 0 else 5)
    + 4 * Queued(s) + 3 * AtMatchers(s) + 2 * Matched(s) + AtCombiner(s) + (if s.interruptRequested then 0 else 1)
  }

  lemma WorkDescends(p: Search, s: State, step: Step)
    requires p.Valid() && Inv(p, s) && Enabled(p, s, step)
    ensures if Idle(step) then Work(p, Apply(p, s, step)) == Work(p, s) else Work(p, Apply(p, s, step)) < Work(p, s)
  {
    hide Published, Interrupted, IsChunk, State.Places, Bounded, Aligned;
    PlacesOnce(p, s);
    hide Apply, Enabled, Queued, AtMatchers, Matched, AtCombiner, Inv, Conserved;
    StepSizes(p, s, step);
    StepControl(p, s, step);
  }

  lemma PlacesOnce(p: Search, s: State)
    requires Conserved(p, s)
    ensures forall b :: s.Places(b) <= 1
  {
    hide State.Places, IsChunk;
  }

  /**
   * A search that has not finished is never stuck: the reader, a matcher or the combiner can do
   * some work, if need be after the reader has tried again.
   */
  lemma NeverStuck(p: Search, s: State) returns (step: Step)
    requires p.Valid() && Inv(p, s) && !Finished(p, s)
    ensures Enabled(p, s, step) && step != Interrupt
    ensures !Idle(step) || (step == Retry && Enabled(p, Apply(p, s, step), Put))
  {
    hide Published, Interrupted, Conserved;
    if s.combiner.Combining? {
      step := FinishCombining;
    } else if b :| b in s.searched {
      step := StartCombining(b);
    } else if b :| b in s.skipped {
      step := StartCombining(b);
    } else if b :| b in s.searching {
      step := FinishMatching(b);
    } else if b :| b in s.skipping {
      step := FinishMatching(b);
    } else if b :| b in s.queued {
      step := StartMatching(b);
    } else if s.reader.Putting? {
      step := Put;
    } else if s.reader.Refused? {
      step := if s.interruptRequested then GiveUp else Retry;
    } else {
      step := ReadChunk;
    }
  }

  lemma OneMore(p: Search, steps: seq<Step>, s: State, step: Step)
    requires Reaches(p, steps, s) && Enabled(p, s, step)
    ensures Reaches(p, steps + [step], Apply(p, s, step))
  {
    var all := steps + [step];
    assert all[..|all| - 1] == steps;
  }

  /** Every uninterrupted run can be continued until the search has finished. */
  lemma {:induction false} RunToEnd(p: Search, steps: seq<Step>, s: State) returns (all: seq<Step>, t: State)
    requires p.Valid() && Reaches(p, steps, s) && !s.interruptRequested
    ensures Reaches(p, all, t) && Finished(p, t) && !t.interruptRequested
    decreases Work(p, s)
  {
    hide Reaches, Apply, Enabled, Finished, Work, Inv;
    if Finished(p, s) {
      return steps, s;
    }
    ReachableInv(p, steps, s);
    var step := NeverStuck(p, s);
    var next, nextSteps := Apply(p, s, step), steps + [step];
    OneMore(p, steps, s, step);
    StepControl(p, s, step);
    WorkDescends(p, s, step);
    if Idle(step) {
      StepInv(p, s, step);
      OneMore(p, nextSteps, next, Put);
      StepControl(p, next, Put);
      WorkDescends(p, next, Put);
      nextSteps, next := nextSteps + [Put], Apply(p, next, Put);
    }
    all, t := RunToEnd(p, nextSteps, next);
  }

  lemma Take(p: Search, steps: seq<Step>, s: State, step: Step) returns (all: seq<Step>, t: State)
    requires Reaches(p, steps, s) && Enabled(p, s, step)
    ensures Reaches(p, all, t) && t == Apply(p, s, step)
  {
    OneMore(p, steps, s, step);
    all, t := steps + [step], Apply(p, s, step);
  }

  // ---------- interrupting ----------

  /** After an interruption nothing more is read or searched, and nothing but the block being published gets published. */
  lemma InterruptionStops(p: Search, s: State, step: Step)
    requires Enabled(p, s, step) && s.interruptRequested
    ensures var t := Apply(p, s, step);
            && t.interruptRequested && t.chunkStart == s.chunkStart && t.searching <= s.searching
            && t.published <= s.published + (if s.combiner.Combining? && s.combiner.publish then {s.combiner.block} else {})
            && (t.combiner.Combining? && t.combiner.publish ==> t.combiner == s.combiner)
  {
    hide Search.Hits, Search.LongestHit, Search.ChunkAt, Search.Limit, SearchTotals.AddAll;
  }

  /** So once the combiner is through with that block, the results stay as they are, whatever steps follow. */
  lemma {:induction false} InterruptedResultsStay(p: Search, s: State, steps: seq<Step>, t: State)
    requires s.interruptRequested && !(s.combiner.Combining? && s.combiner.publish) && Leads(p, s, steps, t)
    ensures t.published == s.published && t.interruptRequested && !(t.combiner.Combining? && t.combiner.publish)
    ensures t.Matches() == s.Matches()
    decreases |steps|
  {
    if steps != [] {
      var next := Apply(p, s, steps[0]);
      InterruptedStepKeeps(p, s, steps[0]);
      hide Apply, Enabled, State.Matches;
      InterruptedResultsStay(p, next, steps[1..], t);
    }
  }

  lemma InterruptedStepKeeps(p: Search, s: State, step: Step)
    requires s.interruptRequested && !(s.combiner.Combining? && s.combiner.publish) && Enabled(p, s, step)
    ensures var t := Apply(p, s, step);
            && t.published == s.published && t.Matches() == s.Matches()
            && t.interruptRequested && !(t.combiner.Combining? && t.combiner.publish)
  {
    hide Search.Hits, Search.LongestHit, Search.ChunkAt, Search.Limit, SearchTotals.AddAll, AtMatchers;
  }

  /** The steps lead from one state to another. */
  ghost predicate Leads(p: Search, s: State, steps: seq<Step>, t: State)
    decreases |steps|
  {
    if steps == [] then s == t else Enabled(p, s, steps[0]) && Leads(p, Apply(p, s, steps[0]), steps[1..], t)
  }

  // ---------- how a complete search can be told ----------

  /** The chunk of the range that holds a line. */
  lemma {:induction false} ChunkHolding(p: Search, at: nat, k: nat) returns (b: Block)
    requires p.Valid() && Aligned(p, at) && at <= k < p.endLine
    ensures IsChunk(p, p.endLine, b) && b.Has(k)
    decreases k - at
  {
    if k < at + p.nbLinesInChunk {
      b := p.ChunkAt(at);
    } else {
      StartAboveInitial(p, at);
      assert at + p.nbLinesInChunk - p.nbLinesInChunk == at;
      b := ChunkHolding(p, at + p.nbLinesInChunk, k);
    }
  }

  /** All lines of the range are covered exactly if all its chunks are published. */
  lemma CoversAll(p: Search, s: State)
    requires p.Valid() && Conserved(p, s)
    ensures (forall k :: p.initialLine <= k < p.endLine ==> InSome(s.published, k))
            <==> (forall b :: IsChunk(p, p.endLine, b) ==> b in s.published)
  {
    if forall b :: IsChunk(p, p.endLine, b) ==> b in s.published {
      forall k | p.initialLine <= k < p.endLine ensures InSome(s.published, k) {
        var b := ChunkHolding(p, p.initialLine, k);
      }
    }
    if forall k :: p.initialLine <= k < p.endLine ==> InSome(s.published, k) {
      forall b | IsChunk(p, p.endLine, b) ensures b in s.published {
        ChunkBounds(p, p.endLine, b);
        assert InSome(s.published, b.chunkStart);
        var c :| c in s.published && c.Has(b.chunkStart);
        assert s.Places(c) > 0;
        ChunksDisjoint(p, p.endLine, b, c, b.chunkStart);
      }
    }
  }

  lemma CountTells(p: Search, s: State)
    requires Measured(p, s)
    ensures s.totalProcessedLines == Max(0, p.endLine - p.initialLine)
            <==> (forall k :: p.initialLine <= k < p.endLine ==> InSome(s.published, k))
  {
    var covered, range := Covered(p, s.published), Interval(p.initialLine, p.endLine);
    IntervalSize(p.initialLine, p.endLine);
    assert covered <= range;
    assert range == covered + (range - covered);
    if |covered| == |range| {
      assert range - covered == {};
      forall k | p.initialLine <= k < p.endLine ensures InSome(s.published, k) {
        assert k in range;
      }
    }
    if forall k :: p.initialLine <= k < p.endLine ==> InSome(s.published, k) {
      assert covered == range;
    }
  }

  /**
   * What tells a complete search, interrupted or not: the combiner's count of processed lines has
   * reached the length of the range if and only if every chunk was published. Then everything was
   * found; until then what is missing is exactly the matching lines outside the published chunks.
   */
  lemma CompleteExactlyByCount(p: Search, steps: seq<Step>, s: State)
    requires p.Valid() && Reaches(p, steps, s)
    ensures s.totalProcessedLines == Max(0, p.endLine - p.initialLine)
            <==> (forall b :: IsChunk(p, p.endLine, b) ==> b in s.published)
    ensures s.totalProcessedLines == Max(0, p.endLine - p.initialLine) ==>
              && s.Matches() == p.client + p.totals.newMatches + SequentialMatches(p)
              && s.totals.nbMatches == p.totals.nbMatches + |SequentialMatches(p)|
    ensures forall k :: k in SequentialMatches(p) && k !in p.client + p.totals.newMatches ==>
              (k !in s.Matches() <==> !InSome(s.published, k))
  {
    ReachableInv(p, steps, s);
    CoversAll(p, s);
    CountTells(p, s);
    PublishedInRange(p, s);
    hide Conserved, Bounded, Interrupted, Measured, IsChunk, InSome;
    if forall k :: p.initialLine <= k < p.endLine ==> InSome(s.published, k) {
      GatheredIsSequential(p, s.published);
    }
    MissingLines(p, s);
  }

  lemma GatheredIsSequential(p: Search, published: set<Block>)
    requires forall k :: p.initialLine <= k < p.endLine ==> InSome(published, k)
    requires forall k :: InSome(published, k) ==> p.initialLine <= k < p.endLine
    ensures Gathered(p, published) == SequentialMatches(p)
  {
    hide InSome;
  }

  lemma PublishedInRange(p: Search, s: State)
    requires p.Valid() && Conserved(p, s)
    ensures forall k :: InSome(s.published, k) ==> p.initialLine <= k < p.endLine
  {
    forall k | InSome(s.published, k) ensures p.initialLine <= k < p.endLine {
      var b :| b in s.published && b.Has(k);
      assert s.Places(b) > 0;
      ChunkBounds(p, s.chunkStart, b);
    }
  }

  lemma MissingLines(p: Search, s: State)
    requires Published(p, s)
    ensures forall k :: k in SequentialMatches(p) && k !in p.client + p.totals.newMatches ==>
              (k !in s.Matches() <==> !InSome(s.published, k))
  {
    hide InSome;
  }

  /**
   * What the view takes for the sign of a complete search, the greatest line processed, tells no
   * more than that the last chunk was published.
   */
  lemma ProcessedLineTells(p: Search, steps: seq<Step>, s: State)
    requires p.Valid() && Reaches(p, steps, s) && p.totals.nbLinesProcessed < p.endLine
    ensures s.totals.nbLinesProcessed == p.endLine <==> exists b :: b in s.published && b.End() == p.endLine
  {
    ReachableInv(p, steps, s);
    forall b | b in s.published ensures b.End() <= p.endLine {
      assert s.Places(b) > 0;
      ChunkBounds(p, s.chunkStart, b);
    }
    hide Conserved, Bounded, Interrupted, Measured, IsChunk, State.Places, State.Matches;
  }

  const TwoLines := Search((k: nat) => true, (k: nat) => 1, 0, 2, 1, 1, Cleared, {})

  lemma BothLinesQueued() returns (steps: seq<Step>, s: State)
    ensures Reaches(TwoLines, steps, s)
    ensures s == Start(TwoLines).(chunkStart := 2, inFlight := 2, queued := {Block(0, 1), Block(1, 1)})
  {
    var p := TwoLines;
    steps, s := [], Start(p);
    hide Reaches;
    steps, s := Take(p, steps, s, ReadChunk);
    steps, s := Take(p, steps, s, Put);
    steps, s := Take(p, steps, s, ReadChunk);
    steps, s := Take(p, steps, s, Put);
  }

  lemma SecondBlockFirst() returns (steps: seq<Step>, s: State)
    ensures Reaches(TwoLines, steps, s)
    ensures s.reader == Reading && s.chunkStart == 2 && s.inFlight == 1 && s.queued == {Block(0, 1)} && s.combiner == Waiting
    ensures s.searching == {} && s.skipping == {} && s.searched == {} && s.skipped == {} && !s.interruptRequested
    ensures s.totals.nbLinesProcessed == 2 && 0 !in s.Matches()
  {
    var p, second := TwoLines, Block(1, 1);
    steps, s := BothLinesQueued();
    hide Reaches, Search.LongestHit;
    steps, s := Take(p, steps, s, StartMatching(second));
    steps, s := Take(p, steps, s, FinishMatching(second));
    steps, s := Take(p, steps, s, StartCombining(second));
    steps, s := Take(p, steps, s, FinishCombining);
  }

  /**
   * The number of processed lines does not tell whether a search is complete: blocks may be
   * combined out of order, so an interrupted search can have reached the last line and still lack
   * an earlier match. The view puts such a result in its cache.
   */
  lemma InterruptedSearchLooksComplete() returns (p: Search, steps: seq<Step>, s: State)
    ensures p.Valid() && Reaches(p, steps, s) && Finished(p, s)
    ensures s.totals.nbLinesProcessed == p.endLine && s.Matches() != SequentialMatches(p)
  {
    var first := Block(0, 1);
    p := TwoLines;
    steps, s := SecondBlockFirst();
    hide Reaches;
    steps, s := Take(p, steps, s, Interrupt);
    steps, s := Take(p, steps, s, StartMatching(first));
    steps, s := Take(p, steps, s, FinishMatching(first));
    steps, s := Take(p, steps, s, StartCombining(first));
    steps, s := Take(p, steps, s, FinishCombining);
    assert 0 in SequentialMatches(p);
  }
}
