/** The bounded cache of search results (`logfiltereddata.cpp`). */
module SearchCache {
  import opened Bytes

  datatype RegularExpressionPattern = RegularExpressionPattern(
    pattern: string, isCaseSensitive: bool, isExclude: bool, isBoolean: bool, isPlainText: bool)
  {
    /** The equality operator: it compares three of the flags with themselves. */
    predicate Equals(other: RegularExpressionPattern) {
      && pattern == other.pattern && isCaseSensitive == other.isCaseSensitive
      && isExclude == isExclude && isBoolean == isBoolean && isPlainText == isPlainText
    }
  }

  datatype SearchCacheKey = SearchCacheKey(regExp: RegularExpressionPattern, startLine: nat, endLine: nat) {
    predicate Equals(other: SearchCacheKey) {
      regExp.Equals(other.regExp) && startLine == other.startLine && endLine == other.endLine
    }
  }

  const NoKey := SearchCacheKey(RegularExpressionPattern("", true, false, false, false), 0, 0)

  datatype CachedSearchResult = CachedSearchResult(matchingLines: set<nat>, maxLength: nat)

  /** All the flags go into the hash, so entries are told apart by the whole key. */
  type Entries = map<SearchCacheKey, CachedSearchResult>

  // ---------- the size of the cache ----------

  ghost function Size(entries: Entries): nat
    decreases |entries|
  {
    if entries == map[] then 0
    else
      var key :| key in entries;
      |entries[key].matchingLines| + Size(entries - {key})
  }

  /** Any entry can be taken out first. */
  lemma {:induction false} SizeWithout(entries: Entries, key: SearchCacheKey)
    requires key in entries
    ensures Size(entries) == |entries[key].matchingLines| + Size(entries - {key})
    decreases |entries|
  {
    var first :| first in entries && Size(entries) == |entries[first].matchingLines| + Size(entries - {first});
    if first != key {
      SizeWithout(entries - {first}, key);
      SizeWithout(entries - {key}, first);
      assert entries - {first} - {key} == entries - {key} - {first};
    }
  }

  lemma {:induction false} SizeOfPart(part: Entries, entries: Entries)
    requires forall key :: key in part ==> key in entries && entries[key] == part[key]
    ensures Size(part) <= Size(entries)
    decreases |entries|
  {
    if key :| key in entries {
      SizeWithout(entries, key);
      if key in part {
        SizeWithout(part, key);
      }
      SizeOfPart(part - {key}, entries - {key});
      assert key !in part ==> part - {key} == part;
    } else {
      assert part == map[];
    }
  }

  /** An order in which the library goes through the entries. */
  ghost predicate IsOrder(entries: Entries, order: seq<SearchCacheKey>) {
    && (forall i :: 0 <= i < |order| ==> order[i] in entries)
    && (forall key :: key in entries ==> key in order)
    && (forall i, j :: 0 <= i < j < |order| ==> order[i] != order[j])
  }

  ghost function Unseen(entries: Entries, order: seq<SearchCacheKey>, i: nat): Entries
    requires i <= |order|
  {
    map key | key in entries && (forall j :: 0 <= j < i ==> order[j] != key) :: entries[key]
  }

  lemma UnseenNext(entries: Entries, order: seq<SearchCacheKey>, i: nat)
    requires IsOrder(entries, order) && i < |order|
    ensures var left := Unseen(entries, order, i);
            && order[i] in left && left[order[i]] == entries[order[i]]
            && Unseen(entries, order, i + 1) == left - {order[i]}
  {
  }

  lemma UnseenEnds(entries: Entries, order: seq<SearchCacheKey>)
    requires IsOrder(entries, order)
    ensures Unseen(entries, order, 0) == entries && Size(Unseen(entries, order, |order|)) == 0
  {
    assert Unseen(entries, order, |order|) == map[];
  }

  method CacheSize(entries: Entries, order: seq<SearchCacheKey>) returns (size: nat)
    requires IsOrder(entries, order)
    ensures size == Size(entries)
  {
    UnseenEnds(entries, order);
    size := 0;
    for i := 0 to |order|
      invariant size + Size(Unseen(entries, order, i)) == Size(entries)
    {
      UnseenNext(entries, order, i);
      SizeWithout(Unseen(entries, order, i), order[i]);
      hide Unseen, Size;
      size := size + |entries[order[i]].matchingLines|;
    }
  }

  // ---------- eviction ----------

  /** The loop takes the entry for the current one, or has not come to it after `n` entries. */
  predicate Stays(order: seq<SearchCacheKey>, current: SearchCacheKey, n: nat, key: SearchCacheKey)
    requires n <= |order|
  {
    key.Equals(current) || forall j :: 0 <= j < n ==> order[j] != key
  }

  /** The entries after the loop has gone past `n` of them. */
  ghost function Left(entries: Entries, order: seq<SearchCacheKey>, current: SearchCacheKey, n: nat): Entries
    requires n <= |order|
  {
    map key | key in entries && Stays(order, current, n, key) :: entries[key]
  }

  /** The loop stopped as soon as the cache was small enough, or at the end. */
  ghost predicate StopsAt(entries: Entries, order: seq<SearchCacheKey>, current: SearchCacheKey, maxCacheLines: nat, n: nat) {
    && n <= |order|
    && (n < |order| ==> Size(Left(entries, order, current, n)) <= maxCacheLines)
    && (forall m :: 0 <= m < n ==> Size(Left(entries, order, current, m)) > maxCacheLines)
  }

  method Evict(entries: Entries, order: seq<SearchCacheKey>, current: SearchCacheKey, maxCacheLines: nat)
    returns (rest: Entries)
    requires IsOrder(entries, order)
    ensures exists n :: StopsAt(entries, order, current, maxCacheLines, n) && rest == Left(entries, order, current, n)
  {
    LeftAtStart(entries, order, current);
    hide *;
    rest := entries;
    var cacheSize := CacheSize(entries, order);
    var i := 0;
    while i < |order| && cacheSize > maxCacheLines
      invariant i <= |order| && cacheSize == Size(rest)
      invariant rest == Left(entries, order, current, i)
      invariant forall m :: 0 <= m < i ==> Size(Left(entries, order, current, m)) > maxCacheLines
    {
      LeftNext(entries, order, current, i);
      if !order[i].Equals(current) {
        SizeWithout(rest, order[i]);
        cacheSize := cacheSize - |rest[order[i]].matchingLines|;
        rest := rest - {order[i]};
      }
      i := i + 1;
    }
    Stopped(entries, order, current, maxCacheLines, i);
  }

  lemma LeftAtStart(entries: Entries, order: seq<SearchCacheKey>, current: SearchCacheKey)
    ensures Left(entries, order, current, 0) == entries
  {
  }

  lemma Stopped(entries: Entries, order: seq<SearchCacheKey>, current: SearchCacheKey, maxCacheLines: nat, n: nat)
    requires n <= |order| && (n < |order| ==> Size(Left(entries, order, current, n)) <= maxCacheLines)
    requires forall m :: 0 <= m < n ==> Size(Left(entries, order, current, m)) > maxCacheLines
    ensures StopsAt(entries, order, current, maxCacheLines, n)
  {
  }

  lemma LeftNext(entries: Entries, order: seq<SearchCacheKey>, current: SearchCacheKey, i: nat)
    requires IsOrder(entries, order) && i < |order|
    ensures order[i] in Left(entries, order, current, i)
    ensures Left(entries, order, current, i + 1)
            == if order[i].Equals(current) then Left(entries, order, current, i)
               else Left(entries, order, current, i) - {order[i]}
  {
    hide SearchCacheKey.Equals;
  }

  /** The entries that are never evicted: those for the same text, case sensitivity and range. */
  ghost function Spared(entries: Entries, current: SearchCacheKey): Entries {
    map key | key in entries && SameSearch(key, current) :: entries[key]
  }

  /** Text, case sensitivity and range agree; nothing is said about the three other flags. */
  predicate SameSearch(a: SearchCacheKey, b: SearchCacheKey) {
    && a.regExp.pattern == b.regExp.pattern && a.regExp.isCaseSensitive == b.regExp.isCaseSensitive
    && a.startLine == b.startLine && a.endLine == b.endLine
  }

  /** What the equality operator compares. */
  lemma EqualsMeaning(a: SearchCacheKey, b: SearchCacheKey)
    ensures a.Equals(b)
            <==> a.regExp.pattern == b.regExp.pattern && a.regExp.isCaseSensitive == b.regExp.isCaseSensitive
                 && a.startLine == b.startLine && a.endLine == b.endLine
    ensures a.Equals(NoKey)
            <==> a.regExp.pattern == "" && a.regExp.isCaseSensitive && a.startLine == 0 && a.endLine == 0
  {
  }

  /**
   * What is left keeps its value and includes the current entry. It fits the bound exactly when the
   * spared entries alone do, and nothing goes if everything fitted.
   */
  lemma WhatIsLeft(entries: Entries, order: seq<SearchCacheKey>, current: SearchCacheKey, maxCacheLines: nat, n: nat)
    requires IsOrder(entries, order) && StopsAt(entries, order, current, maxCacheLines, n)
    ensures var rest := Left(entries, order, current, n);
            && (forall key :: key in rest ==> key in entries && rest[key] == entries[key])
            && (current in entries ==> current in rest)
            && (Size(rest) <= maxCacheLines <==> Size(Spared(entries, current)) <= maxCacheLines)
            && (Size(entries) <= maxCacheLines ==> rest == entries)
  {
    var rest, spared := Left(entries, order, current, n), Spared(entries, current);
    LeftAtStart(entries, order, current);
    SizeOfPart(spared, rest);
    if n == |order| {
      forall key | key in rest ensures key in spared {
      }
      assert rest == spared;
    }
  }

  // ---------- the cache of the view ----------

  /** An empty case-sensitive pattern over no range stands for no search. */
  predicate Refused(key: SearchCacheKey) {
    key.regExp.pattern == "" && key.regExp.isCaseSensitive && key.startLine == 0 && key.endLine == 0
  }

  /** The cache after a finished search with the given key and result. */
  ghost predicate Updated(enabled: bool, entries: Entries, current: SearchCacheKey, result: CachedSearchResult,
                          maxCacheLines: nat, rest: Entries)
  {
    if !enabled || Refused(current) || |result.matchingLines| > maxCacheLines then rest == entries
    else
      var inserted := entries[current := result];
      && current in rest && rest[current] == result
      && (forall key :: key in rest ==> key in inserted && rest[key] == inserted[key])
      && (Size(rest) <= maxCacheLines <==> Size(Spared(inserted, current)) <= maxCacheLines)
      && (Size(inserted) <= maxCacheLines ==> rest == inserted)
  }

  lemma LeftIsUpdated(entries: Entries, current: SearchCacheKey, result: CachedSearchResult, maxCacheLines: nat,
                      order: seq<SearchCacheKey>, n: nat)
    requires var inserted := entries[current := result];
             IsOrder(inserted, order) && StopsAt(inserted, order, current, maxCacheLines, n)
    requires !Refused(current) && |result.matchingLines| <= maxCacheLines
    ensures Updated(true, entries, current, result, maxCacheLines, Left(entries[current := result], order, current, n))
  {
    hide Left, StopsAt, IsOrder, Size, Spared, SearchCacheKey.Equals;
    WhatIsLeft(entries[current := result], order, current, maxCacheLines, n);
  }

  class SearchResultsCache {
    var entries: Entries

    constructor ()
      ensures entries == map[]
    {
      entries := map[];
    }

    /** `order` is the order in which the library goes through the entries. */
    method UpdateSearchResultsCache(useSearchResultsCache: bool, current: SearchCacheKey, result: CachedSearchResult,
                                    maxCacheLines: nat, order: seq<SearchCacheKey>)
      requires IsOrder(entries[current := result], order)
      modifies this
      ensures Updated(useSearchResultsCache, old(entries), current, result, maxCacheLines, entries)
      ensures useSearchResultsCache && |result.matchingLines| <= maxCacheLines
              && (current.regExp.pattern != "" || !current.regExp.isCaseSensitive || current.startLine != 0 || current.endLine != 0) ==>
                Lookup(true, current) == Some(result)
      ensures !useSearchResultsCache || |result.matchingLines| > maxCacheLines
              || (current.regExp.pattern == "" && current.regExp.isCaseSensitive && current.startLine == 0 && current.endLine == 0) ==>
                entries == old(entries)
      ensures forall key :: key != current && key in entries ==> key in old(entries) && entries[key] == old(entries)[key]
    {
      if !useSearchResultsCache || current.Equals(NoKey) || |result.matchingLines| > maxCacheLines {
        return;
      }
      entries := entries[current := result];
      ghost var inserted := entries;
      entries := Evict(entries, order, current, maxCacheLines);
      ghost var n :| StopsAt(inserted, order, current, maxCacheLines, n) && entries == Left(inserted, order, current, n);
      LeftIsUpdated(old(entries), current, result, maxCacheLines, order, n);
      hide *;
    }

    /** What `runSearch` takes from the cache. */
    function Lookup(useSearchResultsCache: bool, current: SearchCacheKey): Option<CachedSearchResult>
      reads this
    {
      if useSearchResultsCache && current in entries then Some(entries[current]) else None
    }

    method Clear()
      modifies this
      ensures entries == map[]
    {
      entries := map[];
    }
  }

  // ---------- every run ----------

  /** A search that was finished and offered to the cache, or a clearing. */
  datatype CacheStep = Finish(enabled: bool, current: SearchCacheKey, result: CachedSearchResult) | Clear

  ghost predicate IsRun(maxCacheLines: nat, steps: seq<CacheStep>, states: seq<Entries>) {
    && |states| == |steps| + 1 && states[0] == map[]
    && forall k :: 0 <= k < |steps| ==>
         if steps[k].Clear? then states[k + 1] == map[]
         else Updated(steps[k].enabled, states[k], steps[k].current, steps[k].result, maxCacheLines, states[k + 1])
  }

  /** No two searches differ only in whether they exclude, combine or take the pattern as plain text. */
  ghost predicate ToldApart(steps: seq<CacheStep>, k: nat)
    requires k <= |steps|
  {
    forall i, j :: 0 <= i < k && 0 <= j < k && steps[i].Finish? && steps[j].Finish? ==>
      var a, b := steps[i].current, steps[j].current;
      (a.regExp.pattern == b.regExp.pattern && a.regExp.isCaseSensitive == b.regExp.isCaseSensitive
       && a.startLine == b.startLine && a.endLine == b.endLine) ==> a == b
  }

  /** The result that was last accepted for a key. */
  function Latest(maxCacheLines: nat, steps: seq<CacheStep>, k: nat, key: SearchCacheKey): Option<CachedSearchResult>
    requires k <= |steps|
  {
    if k == 0 then None
    else
      match steps[k - 1]
      case Clear => None
      case Finish(enabled, current, result) =>
        if enabled && current == key && !Refused(current) && |result.matchingLines| <= maxCacheLines then Some(result)
        else Latest(maxCacheLines, steps, k - 1, key)
  }

  /** What the cache holds for a key is always the result last accepted for it. */
  lemma {:induction false} CachedIsLatest(maxCacheLines: nat, steps: seq<CacheStep>, states: seq<Entries>, k: nat, key: SearchCacheKey)
    requires IsRun(maxCacheLines, steps, states) && k <= |steps| && key in states[k]
    ensures Latest(maxCacheLines, steps, k, key) == Some(states[k][key])
    ensures exists i :: 0 <= i < k && steps[i].Finish? && steps[i].current == key
  {
    hide Spared, Size, SearchCacheKey.Equals;
    if k > 0 && steps[k - 1].Finish? {
      var entries, current := states[k - 1], steps[k - 1].current;
      assert Updated(steps[k - 1].enabled, entries, current, steps[k - 1].result, maxCacheLines, states[k]);
      if key in entries {
        CachedIsLatest(maxCacheLines, steps, states, k - 1, key);
      }
    }
  }

  lemma SizeOfOne(key: SearchCacheKey, result: CachedSearchResult)
    ensures Size(map[key := result]) == |result.matchingLines|
  {
    SizeWithout(map[key := result], key);
    assert map[key := result] - {key} == map[];
  }

  /** Unless two searches differ only in those flags, the cache keeps to its bound in every state. */
  lemma {:induction false} CacheIsBounded(maxCacheLines: nat, steps: seq<CacheStep>, states: seq<Entries>, k: nat)
    requires IsRun(maxCacheLines, steps, states) && k <= |steps| && ToldApart(steps, k)
    ensures Size(states[k]) <= maxCacheLines
  {
    hide SearchCacheKey.Equals;
    if k > 0 && steps[k - 1].Finish? {
      CacheIsBounded(maxCacheLines, steps, states, k - 1);
      var entries, current, result := states[k - 1], steps[k - 1].current, steps[k - 1].result;
      assert Updated(steps[k - 1].enabled, entries, current, result, maxCacheLines, states[k]);
      var inserted := entries[current := result];
      forall key | key in Spared(inserted, current) ensures key == current {
        if key in entries {
          CachedIsLatest(maxCacheLines, steps, states, k - 1, key);
        }
      }
      EqualsItself(current);
      assert Spared(inserted, current) == map[current := result];
      SizeOfOne(current, result);
    }
  }

  lemma EqualsItself(key: SearchCacheKey)
    ensures key.Equals(key)
  {
  }

  /**
   * It does not tell a search from its inversion: over two lines of which each matches one, two
   * results that fit a bound of one line end up in the cache together.
   */
  lemma OverfullCache(word: string) returns (steps: seq<CacheStep>, states: seq<Entries>)
    requires word != ""
    ensures steps == [
              Finish(true, SearchCacheKey(RegularExpressionPattern(word, true, false, false, false), 0, 2), CachedSearchResult({0}, 4)),
              Finish(true, SearchCacheKey(RegularExpressionPattern(word, true, true, false, false), 0, 2), CachedSearchResult({1}, 4))]
    ensures IsRun(1, steps, states) && Size(states[2]) == 2
  {
    var plain := SearchCacheKey(RegularExpressionPattern(word, true, false, false, false), 0, 2);
    var inverse := SearchCacheKey(RegularExpressionPattern(word, true, true, false, false), 0, 2);
    var first, second := CachedSearchResult({0}, 4), CachedSearchResult({1}, 4);
    var one, both := map[plain := first], map[plain := first][inverse := second];
    steps, states := [Finish(true, plain, first), Finish(true, inverse, second)], [map[], one, both];
    SizeOfOne(plain, first);
    SizeWithout(both, inverse);
    assert both - {inverse} == one;
    assert Spared(one, plain) == one && Spared(both, inverse) == both;
    assert Updated(true, map[], plain, first, 1, one) && Updated(true, one, inverse, second, 1, both);
    hide Updated, Size;
  }
}
