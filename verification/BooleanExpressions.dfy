/**
 * Cutting the quoted patterns out of a boolean expression (`regularexpression.cpp`): a loop that
 * rewrites the text and starts again at its beginning computes what one pass from left to right does.
 */
module BooleanExpressions {
  import opened Bytes

  const QUOTE := '"'
  const BACKSLASH := '\\'

  /** A quote at `i` that no backslash precedes. */
  predicate Unescaped(s: string, i: nat)
    requires i < |s|
  {
    s[i] == QUOTE && !(i > 0 && s[i - 1] == BACKSLASH)
  }

  /** The first unescaped quote at or after `from`. */
  function NextQuote(s: string, from: nat): (p: Option<nat>)
    ensures p.Some? ==> from <= p.value < |s| && Unescaped(s, p.value)
    decreases |s| - from
  {
    if from >= |s| then None
    else if Unescaped(s, from) then Some(from)
    else NextQuote(s, from + 1)
  }

  // ---------- identifiers ----------

  function Digit(n: nat): char
    requires n < 10
  {
    "0123456789"[n]
  }

  function Decimal(n: nat): (s: string)
    ensures s != "" && forall i :: 0 <= i < |s| ==> '0' <= s[i] <= '9'
  {
    if n < 10 then [Digit(n)] else Decimal(n / 10) + [Digit(n % 10)]
  }

  /** The identifier that a counter value gives. */
  function IdOf(counter: nat): (s: string)
    ensures |s| >= 3 && s[|s| - 1] != BACKSLASH && forall i :: 0 <= i < |s| ==> s[i] != QUOTE
  {
    "p_" + Decimal(counter)
  }

  function DigitValue(c: char): nat {
    if '0' <= c <= '9' then c as int - '0' as int else 0
  }

  /** The number that decimal digits stand for. */
  function ValueOf(s: string): nat {
    if s == "" then 0 else 10 * ValueOf(s[..|s| - 1]) + DigitValue(s[|s| - 1])
  }

  lemma DigitIsValue(n: nat)
    requires n < 10
    ensures DigitValue(Digit(n)) == n
  {
  }

  /** Reading a written number gives it back, and it has no leading zero. */
  lemma {:induction false} DecimalRoundTrip(n: nat)
    ensures ValueOf(Decimal(n)) == n && (n > 0 ==> Decimal(n)[0] != '0')
  {
    DigitIsValue(n % 10);
    if n < 10 {
      assert [Digit(n)][..0] == "";
    } else {
      DecimalRoundTrip(n / 10);
      assert Decimal(n)[..|Decimal(n)| - 1] == Decimal(n / 10);
    }
  }

  /** An identifier is "p_" and the counter in decimal digits; two counters never give the same. */
  lemma IdNamesCounter(a: nat, b: nat)
    ensures IdOf(a)[..2] == "p_" && ValueOf(IdOf(a)[2..]) == a
    ensures IdOf(a) == IdOf(b) ==> a == b
  {
    DecimalRoundTrip(a);
    DecimalRoundTrip(b);
    assert IdOf(a)[2..] == Decimal(a) && IdOf(b)[2..] == Decimal(b);
  }

  // ---------- one pass from left to right ----------

  /** The text in front of a quoted pattern, the pattern as it is written, and what follows. */
  datatype Scanned = End(text: string) | Cut(text: string, raw: string, rest: Scanned)

  /** Reference: the single pass. */
  function Scan(s: string): Scanned
    decreases |s|
  {
    match NextQuote(s, 0)
    case None => End(s)
    case Some(left) =>
      match NextQuote(s, left + 1)
      case None => End(s)
      case Some(right) => Cut(s[..left], s[left + 1..right], Scan(s[right + 1..]))
  }

  /** There is a quoted pattern. */
  predicate Closed(s: string) {
    NextQuote(s, 0).Some? && NextQuote(s, NextQuote(s, 0).value + 1).Some?
  }

  lemma ScanCut(s: string, left: nat, right: nat)
    requires NextQuote(s, 0) == Some(left) && NextQuote(s, left + 1) == Some(right)
    ensures Scan(s) == Cut(s[..left], s[left + 1..right], Scan(s[right + 1..]))
  {
  }

  lemma ScanEnd(s: string)
    requires !Closed(s)
    ensures Scan(s) == End(s)
  {
  }

  /** Escaped quotes lose their backslash. */
  function Unescape(s: string): string {
    if |s| >= 2 && s[0] == BACKSLASH && s[1] == QUOTE then [QUOTE] + Unescape(s[2..])
    else if s == "" then ""
    else [s[0]] + Unescape(s[1..])
  }

  function Escape(s: string): string {
    if s == "" then ""
    else (if s[0] == QUOTE then [BACKSLASH, QUOTE] else [s[0]]) + Escape(s[1..])
  }

  /** The sub-patterns, in order. */
  function Patterns(scanned: Scanned): seq<string> {
    match scanned
    case End(_) => []
    case Cut(_, raw, rest) => [Unescape(raw)] + Patterns(rest)
  }

  /** The text with each quoted pattern replaced by an identifier. */
  function Rewritten(scanned: Scanned, counters: nat -> nat, k: nat): string {
    match scanned
    case End(text) => text
    case Cut(text, _, rest) => text + IdOf(counters(k)) + Rewritten(rest, counters, k + 1)
  }

  /** The text with each pattern written as a quoted one again. */
  function Requoted(scanned: Scanned): string {
    match scanned
    case End(text) => text
    case Cut(text, raw, rest) => text + [QUOTE] + Escape(Unescape(raw)) + [QUOTE] + Requoted(rest)
  }

  /** Every quote in it is escaped. */
  predicate AllEscaped(s: string) {
    (s != "" ==> s[0] != QUOTE) && forall i :: 1 <= i < |s| && s[i] == QUOTE ==> s[i - 1] == BACKSLASH
  }

  lemma {:induction false} EscapeRestores(raw: string)
    requires AllEscaped(raw)
    ensures Escape(Unescape(raw)) == raw
    decreases |raw|
  {
    if |raw| >= 2 && raw[0] == BACKSLASH && raw[1] == QUOTE {
      assert AllEscaped(raw[2..]) by {
        assert forall i :: 0 <= i < |raw| - 2 ==> raw[2..][i] == raw[i + 2];
      }
      EscapeRestores(raw[2..]);
      var u := Unescape(raw);
      assert u[0] == QUOTE && u[1..] == Unescape(raw[2..]);
      assert raw == [BACKSLASH, QUOTE] + raw[2..];
    } else if raw != "" {
      assert AllEscaped(raw[1..]) by {
        assert forall i :: 0 <= i < |raw| - 1 ==> raw[1..][i] == raw[i + 1];
      }
      EscapeRestores(raw[1..]);
      var u := Unescape(raw);
      assert u[0] == raw[0] != QUOTE && u[1..] == Unescape(raw[1..]);
      assert raw == [raw[0]] + raw[1..];
    }
  }

  lemma {:induction false} NextQuoteIsNext(s: string, from: nat, i: nat)
    requires from <= i < |s| && (NextQuote(s, from).None? || i < NextQuote(s, from).value)
    ensures !Unescaped(s, i)
    decreases i - from
  {
    if from < i {
      NextQuoteIsNext(s, from + 1, i);
    }
  }

  /** Between the two quotes of a pattern every quote is escaped. */
  lemma RawIsEscaped(s: string, left: nat, right: nat)
    requires left < |s| && Unescaped(s, left) && NextQuote(s, left + 1) == Some(right)
    ensures AllEscaped(s[left + 1..right])
  {
    hide NextQuote;
    forall i | left < i < right ensures !Unescaped(s, i) {
      NextQuoteIsNext(s, left + 1, i);
    }
    var raw := s[left + 1..right];
    forall i | 0 <= i < |raw| ensures raw[i] == QUOTE ==> i > 0 && raw[i - 1] == BACKSLASH {
      assert !Unescaped(s, left + 1 + i);
    }
  }

  lemma Reassemble(s: string, left: nat, right: nat)
    requires left < right < |s| && s[left] == QUOTE && s[right] == QUOTE
    ensures s == s[..left] + [QUOTE] + s[left + 1..right] + [QUOTE] + s[right + 1..]
  {
  }

  /** Putting the patterns back, escaped and quoted, restores the expression. */
  lemma {:induction false} RequotedRestores(s: string)
    ensures Requoted(Scan(s)) == s
    decreases |s|
  {
    if Closed(s) {
      var left := NextQuote(s, 0).value;
      var right := NextQuote(s, left + 1).value;
      hide Unescape, Escape, NextQuote, Scan, AllEscaped;
      ScanCut(s, left, right);
      RawIsEscaped(s, left, right);
      EscapeRestores(s[left + 1..right]);
      RequotedRestores(s[right + 1..]);
      Reassemble(s, left, right);
    }
  }

  // ---------- the rewriting loop ----------

  /** Text that the pass can step over: no quote in it opens a pattern, and its end escapes nothing. */
  predicate Passed(x: string) {
    (forall i :: 0 <= i < |x| ==> !Unescaped(x, i)) && (x != "" ==> x[|x| - 1] != BACKSLASH)
  }

  function Before(x: string, scanned: Scanned): Scanned {
    match scanned
    case End(text) => End(x + text)
    case Cut(text, raw, rest) => Cut(x + text, raw, rest)
  }

  lemma {:induction false} QuotesBehind(x: string, t: string, from: nat)
    requires from <= |t| && (x != "" ==> x[|x| - 1] != BACKSLASH)
    ensures NextQuote(x + t, |x| + from)
            == match NextQuote(t, from) { case None => None case Some(p) => Some(|x| + p) }
    decreases |t| - from
  {
    if from < |t| {
      QuotesBehind(x, t, from + 1);
      var s := x + t;
      assert s[|x| + from] == t[from];
      assert |x| + from > 0 ==> s[|x| + from - 1] == if from > 0 then t[from - 1] else x[|x| - 1];
    }
  }

  lemma {:induction false} QuotesPassed(x: string, t: string, from: nat)
    requires from <= |x| && Passed(x)
    ensures NextQuote(x + t, from) == NextQuote(x + t, |x|)
    decreases |x| - from
  {
    if from < |x| {
      QuotesPassed(x, t, from + 1);
      assert !Unescaped(x, from);
      assert (x + t)[from] == x[from] && (from > 0 ==> (x + t)[from - 1] == x[from - 1]);
    }
  }

  lemma SlicesBehind(x: string, t: string, left: nat, right: nat)
    requires left < right < |t|
    ensures var s := x + t;
            && s[..|x| + left] == x + t[..left]
            && s[|x| + left + 1..|x| + right] == t[left + 1..right]
            && s[|x| + right + 1..] == t[right + 1..]
  {
  }

  lemma CutBehind(x: string, t: string, left: nat, right: nat)
    requires NextQuote(t, 0) == Some(left) && NextQuote(t, left + 1) == Some(right)
    requires NextQuote(x + t, 0) == Some(|x| + left) && NextQuote(x + t, |x| + left + 1) == Some(|x| + right)
    ensures Scan(x + t) == Before(x, Scan(t))
  {
    hide NextQuote, Scan, Unescaped;
    SlicesBehind(x, t, left, right);
    ScanCut(t, left, right);
    ScanCut(x + t, |x| + left, |x| + right);
  }

  lemma EndBehind(x: string, t: string)
    requires !Closed(t) && !Closed(x + t)
    ensures Scan(x + t) == Before(x, Scan(t))
  {
    hide NextQuote, Closed;
    ScanEnd(t);
    ScanEnd(x + t);
  }

  lemma PassedEnd(x: string)
    requires Passed(x)
    ensures x != "" ==> x[|x| - 1] != BACKSLASH
  {
  }

  /** Passed text in front only makes the first text longer. */
  lemma ScanBehind(x: string, t: string)
    requires Passed(x)
    ensures Scan(x + t) == Before(x, Scan(t))
  {
    hide NextQuote, Passed, Scan, Before, Unescaped;
    PassedEnd(x);
    QuotesPassed(x, t, 0);
    QuotesBehind(x, t, 0);
    if NextQuote(t, 0).Some? {
      QuotesBehind(x, t, NextQuote(t, 0).value + 1);
    }
    if Closed(t) {
      CutBehind(x, t, NextQuote(t, 0).value, NextQuote(t, NextQuote(t, 0).value + 1).value);
    } else {
      EndBehind(x, t);
    }
  }

  /** The text after one replacement. */
  function Replaced(s: string, left: nat, right: nat, id: string): string
    requires left < right < |s|
  {
    s[..left] + id + s[right + 1..]
  }

  lemma ReplacedScan(s: string, left: nat, right: nat, id: string)
    requires NextQuote(s, 0) == Some(left) && NextQuote(s, left + 1) == Some(right)
    requires id != "" && id[|id| - 1] != BACKSLASH && forall i :: 0 <= i < |id| ==> id[i] != QUOTE
    ensures Scan(Replaced(s, left, right, id)) == Before(s[..left] + id, Scan(s[right + 1..]))
  {
    hide Scan, NextQuote, Unescaped, Before;
    PassedPrefix(s, left, id);
    ScanBehind(s[..left] + id, s[right + 1..]);
  }

  lemma PassedPrefix(s: string, left: nat, id: string)
    requires NextQuote(s, 0) == Some(left)
    requires id != "" && id[|id| - 1] != BACKSLASH && forall i :: 0 <= i < |id| ==> id[i] != QUOTE
    ensures Passed(s[..left] + id)
  {
    var x := s[..left] + id;
    hide NextQuote;
    forall i | 0 <= i < |x| ensures !Unescaped(x, i) {
      if i < left {
        NextQuoteIsNext(s, 0, i);
        assert x[i] == s[i] && (i > 0 ==> x[i - 1] == s[i - 1]);
      } else {
        assert x[i] == id[i - left];
      }
    }
    assert x[|x| - 1] == id[|id| - 1];
  }

  lemma BeforeRewritten(x: string, scanned: Scanned, counters: nat -> nat, k: nat)
    ensures Rewritten(Before(x, scanned), counters, k) == x + Rewritten(scanned, counters, k)
    ensures Patterns(Before(x, scanned)) == Patterns(scanned)
  {
    if scanned.Cut? {
      assert x + scanned.text + IdOf(counters(k)) + Rewritten(scanned.rest, counters, k + 1)
             == x + (scanned.text + IdOf(counters(k)) + Rewritten(scanned.rest, counters, k + 1));
    }
  }

  /** What is still to be done with the text gives, after what was done, what the single pass gives. */
  ghost predicate Pending(original: string, counters: nat -> nat, pattern: string, subPatterns: seq<string>) {
    && Rewritten(Scan(pattern), counters, |subPatterns|) == Rewritten(Scan(original), counters, 0)
    && subPatterns + Patterns(Scan(pattern)) == Patterns(Scan(original))
  }

  lemma ReplaceOne(original: string, counters: nat -> nat, pattern: string, subPatterns: seq<string>, left: nat, right: nat)
    requires Pending(original, counters, pattern, subPatterns)
    requires NextQuote(pattern, 0) == Some(left) && NextQuote(pattern, left + 1) == Some(right)
    ensures Pending(original, counters, Replaced(pattern, left, right, IdOf(counters(|subPatterns|))),
                    subPatterns + [Unescape(pattern[left + 1..right])])
  {
    hide NextQuote, Unescape, Scan, Replaced, IdOf;
    var id, rest, raw := IdOf(counters(|subPatterns|)), Scan(pattern[right + 1..]), pattern[left + 1..right];
    ReplacedScan(pattern, left, right, id);
    ScanCut(pattern, left, right);
    BeforeRewritten(pattern[..left] + id, rest, counters, |subPatterns| + 1);
    ConcatAssociative(subPatterns, [Unescape(raw)], Patterns(rest));
  }

  function Quotes(s: string): nat {
    if s == "" then 0 else Quotes(s[..|s| - 1]) + if s[|s| - 1] == QUOTE then 1 else 0
  }

  lemma {:induction false} QuotesOfBoth(s: string, t: string)
    ensures Quotes(s + t) == Quotes(s) + Quotes(t)
    decreases |t|
  {
    if t == "" {
      assert s + t == s;
    } else {
      assert (s + t)[..|s + t| - 1] == s + t[..|t| - 1];
      QuotesOfBoth(s, t[..|t| - 1]);
    }
  }

  lemma {:induction false} NoQuotes(s: string)
    requires forall i :: 0 <= i < |s| ==> s[i] != QUOTE
    ensures Quotes(s) == 0
  {
    if s != "" {
      NoQuotes(s[..|s| - 1]);
    }
  }

  lemma {:induction false} FirstQuoteCounts(s: string)
    requires s != "" && s[0] == QUOTE
    ensures Quotes(s) >= 1
  {
    if |s| > 1 {
      FirstQuoteCounts(s[..|s| - 1]);
    }
  }

  lemma ReplacingRemovesQuotes(s: string, left: nat, right: nat, id: string)
    requires left < right < |s| && s[left] == QUOTE && forall i :: 0 <= i < |id| ==> id[i] != QUOTE
    ensures Quotes(Replaced(s, left, right, id)) < Quotes(s)
  {
    var a, b, c := s[..left], s[left..right + 1], s[right + 1..];
    assert b[0] == QUOTE;
    assert s == (a + b) + c;
    NoQuotes(id);
    FirstQuoteCounts(b);
    hide Quotes;
    QuotesOfBoth(a + id, c);
    QuotesOfBoth(a, id);
    QuotesOfBoth(a + b, c);
    QuotesOfBoth(a, b);
  }

  // ---------- the final check ----------

  function LowerChar(c: char): char {
    if 'A' <= c <= 'Z' then c + ' ' else c
  }

  function ToLower(s: string): (t: string)
    ensures |t| == |s| && forall i :: 0 <= i < |s| ==> t[i] == LowerChar(s[i])
  {
    seq(|s|, i requires 0 <= i < |s| => LowerChar(s[i]))
  }

  const OPERATORS: seq<string> := ["and", "nand", "or", "nor", "xor", "xnor", "not"]

  predicate IsDigit(c: char) {
    '0' <= c <= '9'
  }

  /** The text is a sequence of operators, brackets, signs, blanks and identifiers; the empty one too. */
  predicate Tokens(s: string)
    decreases |s|, 1
  {
    || s == ""
    || (s[0] in " ()!|&" && Tokens(s[1..]))
    || (exists w :: w in OPERATORS && w <= s && Tokens(s[|w|..]))
    || (|s| >= 3 && s[..2] == "p_" && IsDigit(s[2]) && DigitsThenTokens(s[3..]))
  }

  predicate DigitsThenTokens(s: string)
    decreases |s|, 2
  {
    Tokens(s) || (s != "" && IsDigit(s[0]) && DigitsThenTokens(s[1..]))
  }

  /** The whole text, or all but a last line feed, is one or more tokens. */
  predicate FinalPatternCheck(s: string) {
    || (s != "" && Tokens(s))
    || (|s| >= 2 && s[|s| - 1] == '\n' && Tokens(s[..|s| - 1]))
  }

  /** One symbol of a combination. */
  predicate IsToken(t: string) {
    || t == " " || t == "(" || t == ")" || t == "!" || t == "|" || t == "&"
    || t == "and" || t == "nand" || t == "or" || t == "nor" || t == "xor" || t == "xnor" || t == "not"
    || (|t| >= 3 && t[0] == 'p' && t[1] == '_' && forall i :: 2 <= i < |t| ==> '0' <= t[i] <= '9')
  }

  function Concat(ts: seq<string>): string {
    if ts == [] then "" else ts[0] + Concat(ts[1..])
  }

  lemma UnfoldTokens(s: string)
    ensures Tokens(s)
            <==> || s == ""
                 || (s[0] in " ()!|&" && Tokens(s[1..]))
                 || (exists w :: w in OPERATORS && w <= s && Tokens(s[|w|..]))
                 || (|s| >= 3 && s[..2] == "p_" && IsDigit(s[2]) && DigitsThenTokens(s[3..]))
  {
  }

  lemma UnfoldDigits(s: string)
    ensures DigitsThenTokens(s) <==> Tokens(s) || (s != "" && IsDigit(s[0]) && DigitsThenTokens(s[1..]))
  {
    hide Tokens;
  }

  /** The digits that follow, and the place where tokens go on. */
  lemma {:induction false} DigitsBefore(s: string) returns (m: nat)
    requires DigitsThenTokens(s)
    ensures m <= |s| && (forall i :: 0 <= i < m ==> IsDigit(s[i])) && Tokens(s[m..])
    decreases |s|
  {
    hide Tokens, DigitsThenTokens, IsDigit;
    UnfoldDigits(s);
    if Tokens(s) {
      m := 0;
      assert s[0..] == s;
    } else {
      m := DigitsBefore(s[1..]);
      assert s[1..][m..] == s[m + 1..];
      assert forall i :: 1 <= i < m + 1 ==> s[i] == s[1..][i - 1];
      m := m + 1;
    }
  }

  lemma {:induction false} Tokenised(s: string) returns (ts: seq<string>)
    requires Tokens(s)
    ensures Concat(ts) == s && forall j :: 0 <= j < |ts| ==> IsToken(ts[j])
    decreases |s|
  {
    hide Tokens, IsToken;
    if s == "" {
      ts := [];
    } else {
      var n := FirstToken(s);
      var rest := Tokenised(s[n..]);
      ts := [s[..n]] + rest;
      assert ts[1..] == rest && s == s[..n] + s[n..];
    }
  }

  lemma FirstToken(s: string) returns (n: nat)
    requires Tokens(s) && s != ""
    ensures 0 < n <= |s| && IsToken(s[..n]) && Tokens(s[n..])
  {
    UnfoldTokens(s);
    hide Tokens, DigitsThenTokens;
    if s[0] in " ()!|&" && Tokens(s[1..]) {
      n := 1;
      SignIsToken(s[0]);
      assert s[..1] == [s[0]];
    } else if w :| w in OPERATORS && w <= s && Tokens(s[|w|..]) {
      n := |w|;
      OperatorIsToken(w);
      hide IsToken;
      assert s[..n] == w;
    } else {
      var m := DigitsBefore(s[3..]);
      n := m + 3;
      assert s[3..][m..] == s[n..];
      IdIsToken(s, n);
    }
  }

  lemma SignIsToken(c: char)
    ensures c in " ()!|&" <==> c == ' ' || c == '(' || c == ')' || c == '!' || c == '|' || c == '&'
    ensures c in " ()!|&" ==> IsToken([c])
  {
    var signs := " ()!|&";
    assert signs == [' ', '(', ')', '!', '|', '&'];
  }

  lemma OperatorIsToken(w: string)
    requires w in OPERATORS
    ensures IsToken(w) && w != ""
  {
  }

  lemma IdIsToken(s: string, n: nat)
    requires 3 <= n <= |s| && s[..2] == "p_" && IsDigit(s[2])
    requires forall i :: 0 <= i < n - 3 ==> IsDigit(s[3..][i])
    ensures IsToken(s[..n])
  {
    forall i | 2 <= i < n ensures IsDigit(s[..n][i]) {
      assert i > 2 ==> s[i] == s[3..][i - 3];
    }
    assert s[0] == s[..2][0] && s[1] == s[..2][1];
  }

  lemma {:induction false} DigitsAccepted(digits: string, rest: string)
    requires Tokens(rest) && forall i :: 0 <= i < |digits| ==> IsDigit(digits[i])
    ensures DigitsThenTokens(digits + rest)
    decreases |digits|
  {
    hide Tokens, DigitsThenTokens, IsDigit;
    UnfoldDigits(digits + rest);
    if digits == "" {
      assert digits + rest == rest;
    } else {
      DigitsAccepted(digits[1..], rest);
      assert (digits + rest)[1..] == digits[1..] + rest;
    }
  }

  lemma TokenAccepted(t: string, rest: string)
    requires IsToken(t) && Tokens(rest)
    ensures Tokens(t + rest)
  {
    var s := t + rest;
    UnfoldTokens(s);
    hide Tokens, DigitsThenTokens;
    assert s[|t|..] == rest && t <= s;
    if |t| >= 3 && t[0] == 'p' && t[1] == '_' {
      IdAccepted(t, rest);
    } else if |t| == 1 {
      SignIsToken(t[0]);
      assert s[0] == t[0] && t == [t[0]];
    } else {
      assert t in OPERATORS;
    }
  }

  lemma IdAccepted(t: string, rest: string)
    requires |t| >= 3 && t[0] == 'p' && t[1] == '_' && (forall i :: 2 <= i < |t| ==> IsDigit(t[i])) && Tokens(rest)
    ensures var s := t + rest; s[..2] == "p_" && IsDigit(s[2]) && DigitsThenTokens(s[3..])
  {
    hide Tokens, DigitsThenTokens, IsDigit;
    var s := t + rest;
    assert forall i :: 0 <= i < |t| - 3 ==> t[3..][i] == t[i + 3];
    DigitsAccepted(t[3..], rest);
    assert s[3..] == t[3..] + rest;
    assert s[..2] == "p_" && s[2] == t[2];
  }

  lemma {:induction false} ConcatAccepted(ts: seq<string>)
    requires forall j :: 0 <= j < |ts| ==> IsToken(ts[j])
    ensures Tokens(Concat(ts))
  {
    if ts != [] {
      ConcatAccepted(ts[1..]);
      TokenAccepted(ts[0], Concat(ts[1..]));
    }
  }

  ghost predicate IsCombination(s: string) {
    exists ts: seq<string> :: Concat(ts) == s && forall j :: 0 <= j < |ts| ==> IsToken(ts[j])
  }

  /** The final check accepts one or more symbols, with or without a line feed at the end, and nothing else. */
  lemma FinalCheckMeaning(s: string)
    ensures FinalPatternCheck(s)
            <==> || (s != "" && IsCombination(s))
                 || (|s| >= 2 && s[|s| - 1] == '\n' && IsCombination(s[..|s| - 1]))
  {
    CombinationIsTokens(s);
    if s != "" {
      CombinationIsTokens(s[..|s| - 1]);
    }
    hide IsCombination, Tokens;
  }

  lemma CombinationIsTokens(s: string)
    ensures IsCombination(s) <==> Tokens(s)
  {
    hide Tokens, IsToken;
    if Tokens(s) {
      var ts := Tokenised(s);
    }
    if ts: seq<string> :| Concat(ts) == s && forall j :: 0 <= j < |ts| ==> IsToken(ts[j]) {
      ConcatAccepted(ts);
    }
  }

  /** Lower-casing moves the letters A to Z by 32 and leaves everything else. */
  lemma LowerMeaning(s: string, i: nat)
    requires i < |s|
    ensures if 'A' <= s[i] <= 'Z' then ToLower(s)[i] as int == s[i] as int + 32 else ToLower(s)[i] == s[i]
    ensures !('A' <= ToLower(s)[i] <= 'Z')
  {
  }

  // ---------- the parser ----------

  datatype ParseError = NotEnclosed | UnmatchedQuotes | NotACombination

  datatype ParseResult = Parsed(expression: string, subPatterns: seq<string>) | Failed(error: ParseError)

  /** The checks after the rewriting. */
  function Checked(pattern: string, subPatterns: seq<string>): ParseResult {
    if QUOTE in pattern then Failed(UnmatchedQuotes)
    else if !FinalPatternCheck(ToLower(pattern)) then Failed(NotACombination)
    else Parsed(ToLower(pattern), subPatterns)
  }

  /** Reference: what one pass and the checks give. */
  function Parse(pattern: string, counters: nat -> nat): ParseResult {
    if QUOTE !in pattern then Failed(NotEnclosed)
    else Checked(Rewritten(Scan(pattern), counters, 0), Patterns(Scan(pattern)))
  }

  lemma NothingToReplace(original: string, counters: nat -> nat, pattern: string, subPatterns: seq<string>)
    requires Pending(original, counters, pattern, subPatterns) && !Closed(pattern)
    ensures pattern == Rewritten(Scan(original), counters, 0) && subPatterns == Patterns(Scan(original))
  {
    ScanEnd(pattern);
    hide Scan;
  }

  lemma FindsNextQuote(s: string, from: nat)
    ensures match Find(s, QUOTE, from)
            case None => NextQuote(s, from).None?
            case Some(p) => if Unescaped(s, p) then NextQuote(s, from) == Some(p) else NextQuote(s, from) == NextQuote(s, p + 1)
    decreases |s| - from
  {
    if from < |s| && s[from] != QUOTE {
      FindsNextQuote(s, from + 1);
    }
  }

  method ParseBooleanExpressions(original: string, counters: nat -> nat) returns (result: ParseResult)
    ensures result == Parse(original, counters)
  {
    if QUOTE !in original {
      return Failed(NotEnclosed);
    }
    StartPending(original, counters);
    hide Pending, NextQuote, Find, Avoids, Unescape, Quotes, IdOf, Rewritten, Scan, Patterns, Checked, Replaced, Closed;
    var pattern, subPatterns := original, [];
    var currentIndex: nat := 0;
    while currentIndex < |pattern|
      invariant Pending(original, counters, pattern, subPatterns)
      invariant NextQuote(pattern, 0) == NextQuote(pattern, currentIndex)
      decreases Quotes(pattern), |pattern| - currentIndex
    {
      var leftQuote := Find(pattern, QUOTE, currentIndex);
      FindsNextQuote(pattern, currentIndex);
      NotClosed(pattern);
      if leftQuote.None? {
        break;
      }
      var left := leftQuote.value;
      currentIndex := left + 1;
      if left > 0 && pattern[left - 1] == BACKSLASH {
        continue;
      }
      var rightQuote := RightQuote(pattern, left);
      if rightQuote.None? {
        break;
      }
      var subPattern := Unescape(pattern[left + 1..rightQuote.value]);
      var id := IdOf(counters(|subPatterns|));
      ReplaceRound(original, counters, pattern, subPatterns, left, rightQuote.value);
      pattern := Replaced(pattern, left, rightQuote.value, id);
      subPatterns := subPatterns + [subPattern];
      currentIndex := 0;
    }
    NoQuoteAtEnd(pattern, currentIndex);
    NotClosed(pattern);
    NothingToReplace(original, counters, pattern, subPatterns);
    return Checked(pattern, subPatterns);
  }

  lemma NotClosed(s: string)
    ensures NextQuote(s, 0).None? ==> !Closed(s)
    ensures NextQuote(s, 0).Some? && NextQuote(s, NextQuote(s, 0).value + 1).None? ==> !Closed(s)
  {
  }

  lemma ReplaceRound(original: string, counters: nat -> nat, pattern: string, subPatterns: seq<string>, left: nat, right: nat)
    requires Pending(original, counters, pattern, subPatterns)
    requires NextQuote(pattern, 0) == Some(left) && NextQuote(pattern, left + 1) == Some(right)
    ensures var next := Replaced(pattern, left, right, IdOf(counters(|subPatterns|)));
            && Pending(original, counters, next, subPatterns + [Unescape(pattern[left + 1..right])])
            && Quotes(next) < Quotes(pattern)
  {
    hide Pending, NextQuote, Unescape, Quotes, IdOf, Replaced;
    ReplaceOne(original, counters, pattern, subPatterns, left, right);
    ReplacingRemovesQuotes(pattern, left, right, IdOf(counters(|subPatterns|)));
  }

  lemma StartPending(original: string, counters: nat -> nat)
    ensures Pending(original, counters, original, [])
  {
    hide Scan, Rewritten, Patterns;
  }

  lemma NoQuoteAtEnd(s: string, from: nat)
    ensures from >= |s| ==> NextQuote(s, from).None?
  {
  }

  /** The inner loop: the quote that closes the pattern opened at `left`. */
  method RightQuote(pattern: string, left: nat) returns (rightQuote: Option<nat>)
    requires left < |pattern|
    ensures rightQuote == NextQuote(pattern, left + 1)
  {
    hide NextQuote;
    rightQuote := None;
    var currentIndex := left + 1;
    while currentIndex < |pattern|
      invariant rightQuote.None? && left + 1 <= currentIndex
      invariant NextQuote(pattern, left + 1) == NextQuote(pattern, currentIndex)
      decreases |pattern| - currentIndex
    {
      rightQuote := Find(pattern, QUOTE, currentIndex);
      FindsNextQuote(pattern, currentIndex);
      if rightQuote.None? {
        return;
      }
      currentIndex := rightQuote.value + 1;
      if rightQuote.value > 0 && pattern[rightQuote.value - 1] == BACKSLASH {
        rightQuote := None;
        continue;
      }
      return;
    }
    NoQuoteAtEnd(pattern, currentIndex);
  }

  // ---------- what the result means ----------

  /** The texts outside the quoted patterns: one more than there are patterns. */
  function Texts(scanned: Scanned): (t: seq<string>)
    ensures |t| == |Patterns(scanned)| + 1
  {
    match scanned
    case End(text) => [text]
    case Cut(text, _, rest) => [text] + Texts(rest)
  }

  /** Texts and items in turn. */
  function Weave(texts: seq<string>, items: seq<string>): string
    requires |texts| == |items| + 1
  {
    if items == [] then texts[0] else texts[0] + items[0] + Weave(texts[1..], items[1..])
  }

  function LowerAll(texts: seq<string>): (r: seq<string>)
    ensures |r| == |texts|
  {
    if texts == [] then [] else [ToLower(texts[0])] + LowerAll(texts[1..])
  }

  /** The patterns as quoted ones. */
  function Quoted(patterns: seq<string>): (r: seq<string>)
    ensures |r| == |patterns|
  {
    if patterns == [] then [] else [[QUOTE] + Escape(patterns[0]) + [QUOTE]] + Quoted(patterns[1..])
  }

  /** The identifiers of `n` patterns. */
  function Identifiers(counters: nat -> nat, k: nat, n: nat): (r: seq<string>)
    ensures |r| == n
    decreases n
  {
    if n == 0 then [] else [IdOf(counters(k))] + Identifiers(counters, k + 1, n - 1)
  }

  lemma {:induction false} RequotedWeaves(scanned: Scanned)
    ensures Requoted(scanned) == Weave(Texts(scanned), Quoted(Patterns(scanned)))
  {
    hide Unescape, Escape;
    if scanned.Cut? {
      RequotedWeaves(scanned.rest);
      var texts, patterns := Texts(scanned), Patterns(scanned);
      assert texts[1..] == Texts(scanned.rest) && patterns[1..] == Patterns(scanned.rest);
      var quoted := Quoted(patterns);
      assert quoted[1..] == Quoted(patterns[1..]);
    }
  }

  lemma LowerOfBoth(s: string, t: string)
    ensures ToLower(s + t) == ToLower(s) + ToLower(t)
  {
  }

  lemma LowerOfId(counter: nat)
    ensures ToLower(IdOf(counter)) == IdOf(counter)
  {
    var s := Decimal(counter);
    hide Decimal;
    assert ToLower(s) == s;
    LowerOfBoth("p_", s);
  }

  lemma {:induction false} RewrittenWeaves(scanned: Scanned, counters: nat -> nat, k: nat)
    ensures ToLower(Rewritten(scanned, counters, k))
            == Weave(LowerAll(Texts(scanned)), Identifiers(counters, k, |Patterns(scanned)|))
    decreases scanned
  {
    hide IdOf, ToLower;
    if scanned.Cut? {
      var n := |Patterns(scanned)|;
      RewrittenWeaves(scanned.rest, counters, k + 1);
      LowerOfBoth(scanned.text + IdOf(counters(k)), Rewritten(scanned.rest, counters, k + 1));
      LowerOfBoth(scanned.text, IdOf(counters(k)));
      LowerOfId(counters(k));
      var texts, ids := LowerAll(Texts(scanned)), Identifiers(counters, k, n);
      assert Texts(scanned)[1..] == Texts(scanned.rest);
      assert texts[1..] == LowerAll(Texts(scanned.rest)) && ids[1..] == Identifiers(counters, k + 1, n - 1);
    }
  }

  lemma {:induction false} RewrittenQuotes(scanned: Scanned, counters: nat -> nat, k: nat)
    ensures QUOTE !in Rewritten(scanned, counters, k) <==> forall t :: t in Texts(scanned) ==> QUOTE !in t
    decreases scanned
  {
    hide IdOf;
    if scanned.Cut? {
      RewrittenQuotes(scanned.rest, counters, k + 1);
      assert forall t :: t in Texts(scanned) <==> t == scanned.text || t in Texts(scanned.rest);
    } else {
      assert forall t :: t in Texts(scanned) <==> t == scanned.text;
    }
  }

  /**
   * The parser succeeds exactly when there is a quoted pattern, no quote is left outside the
   * patterns, and what is outside, with identifiers for the patterns, is a combination. Then the
   * expression and the patterns give the original back, up to the case of the text outside the
   * quotes: both are the same texts, woven with the quoted patterns or with their identifiers.
   */
  lemma ParseRoundTrip(pattern: string, counters: nat -> nat)
    ensures var result, texts := Parse(pattern, counters), Texts(Scan(pattern));
            && pattern == Weave(texts, Quoted(Patterns(Scan(pattern))))
            && (result.Parsed? <==>
                  && QUOTE in pattern && (forall t :: t in texts ==> QUOTE !in t)
                  && FinalPatternCheck(Weave(LowerAll(texts), Identifiers(counters, 0, |texts| - 1))))
            && (result.Parsed? ==>
                  && result.subPatterns == Patterns(Scan(pattern)) && result.subPatterns != []
                  && result.expression == Weave(LowerAll(texts), Identifiers(counters, 0, |result.subPatterns|))
                  && QUOTE !in result.expression)
  {
    hide Scan, FinalPatternCheck, Weave, IdOf;
    RequotedRestores(pattern);
    RequotedWeaves(Scan(pattern));
    RewrittenWeaves(Scan(pattern), counters, 0);
    RewrittenQuotes(Scan(pattern), counters, 0);
    LowerKeepsQuotes(Rewritten(Scan(pattern), counters, 0));
    if Scan(pattern).End? && QUOTE in pattern {
      assert Requoted(Scan(pattern)) == pattern;
      assert pattern in Texts(Scan(pattern));
    }
  }

  lemma LowerKeepsQuotes(s: string)
    ensures QUOTE in ToLower(s) <==> QUOTE in s
  {
    if QUOTE in s {
      var i :| 0 <= i < |s| && s[i] == QUOTE;
      assert ToLower(s)[i] == QUOTE;
    }
  }

  lemma {:induction false} EscapeCounts(s: string)
    ensures |Escape(s)| == |s| + Quotes(s) && Quotes(Escape(s)) == Quotes(s)
    decreases |s|
  {
    if s != "" {
      EscapeCounts(s[1..]);
      assert s == [s[0]] + s[1..];
      QuotesOfBoth([s[0]], s[1..]);
      var head := if s[0] == QUOTE then [BACKSLASH, QUOTE] else [s[0]];
      QuotesOfBoth(head, Escape(s[1..]));
      assert [s[0]][..0] == "" && [BACKSLASH, QUOTE][..1] == [BACKSLASH] && [BACKSLASH][..0] == "";
      assert Quotes(head) == Quotes([s[0]]);
    }
  }

  /** Escaping writes a backslash before every quote and changes nothing else; unescaping takes it away. */
  lemma EscapeMeaning(s: string)
    ensures Unescape(Escape(s)) == s && |Escape(s)| == |s| + Quotes(s)
    ensures forall i :: 0 <= i < |Escape(s)| && Escape(s)[i] == '"' ==> i > 0 && Escape(s)[i - 1] == '\\'
  {
    EscapeCounts(s);
    UnescapeOfEscape(s);
    EscapedQuotes(s);
    hide Escape, Unescape;
  }

  lemma {:induction false} EscapedQuotes(s: string)
    ensures AllEscaped(Escape(s))
    decreases |s|
  {
    if s != "" {
      EscapedQuotes(s[1..]);
      var head, rest := if s[0] == QUOTE then [BACKSLASH, QUOTE] else [s[0]], Escape(s[1..]);
      assert Escape(s) == head + rest;
      hide Escape;
      forall i | |head| <= i < |head + rest| ensures (head + rest)[i] == rest[i - |head|] {
      }
    }
  }

  lemma {:induction false} UnescapeOfEscape(s: string)
    ensures Unescape(Escape(s)) == s
    decreases |s|
  {
    if s != "" {
      UnescapeOfEscape(s[1..]);
      EscapedQuotes(s[1..]);
      UnescapeHead(s[0], Escape(s[1..]));
      assert s == [s[0]] + s[1..];
      hide Unescape;
    }
  }

  lemma UnescapeHead(c: char, rest: string)
    requires AllEscaped(rest)
    ensures Unescape((if c == QUOTE then [BACKSLASH, QUOTE] else [c]) + rest) == [c] + Unescape(rest)
  {
    var head := if c == QUOTE then [BACKSLASH, QUOTE] else [c];
    assert (head + rest)[|head|..] == rest;
  }

  /** A quoted pattern is its text without the backslashes before its quotes: so many characters shorter. */
  lemma UnescapeMeaning(raw: string)
    requires AllEscaped(raw)
    ensures Escape(Unescape(raw)) == raw && |Unescape(raw)| == |raw| - Quotes(raw)
  {
    EscapeRestores(raw);
    EscapeCounts(Unescape(raw));
  }

  /** Which error is reported when. */
  lemma ParseErrors(pattern: string, counters: nat -> nat)
    ensures var result, texts := Parse(pattern, counters), Texts(Scan(pattern));
            && (result == Failed(NotEnclosed) <==> '"' !in pattern)
            && (result == Failed(UnmatchedQuotes) <==> '"' in pattern && exists t :: t in texts && '"' in t)
            && (result == Failed(NotACombination)
                <==> '"' in pattern && (forall t :: t in texts ==> '"' !in t)
                     && !FinalPatternCheck(Weave(LowerAll(texts), Identifiers(counters, 0, |texts| - 1))))
  {
    hide Scan, FinalPatternCheck, Weave, IdOf;
    RewrittenWeaves(Scan(pattern), counters, 0);
    RewrittenQuotes(Scan(pattern), counters, 0);
  }

  lemma {:induction false} IdentifierAt(counters: nat -> nat, k: nat, n: nat, j: nat)
    requires j < n
    ensures Identifiers(counters, k, n)[j] == IdOf(counters(k + j))
    decreases n
  {
    hide IdOf;
    if j > 0 {
      IdentifierAt(counters, k + 1, n - 1, j - 1);
    }
  }

  /** With distinct counters no two patterns of an expression get the same identifier in it. */
  lemma IdentifiersAreDistinct(pattern: string, counters: nat -> nat, i: nat, j: nat)
    requires Parse(pattern, counters).Parsed? && i < j < |Texts(Scan(pattern))| - 1 && counters(i) != counters(j)
    ensures var texts := Texts(Scan(pattern));
            var ids := Identifiers(counters, 0, |texts| - 1);
            Parse(pattern, counters).expression == Weave(LowerAll(texts), ids) && ids[i] == IdOf(counters(i)) != ids[j]
  {
    hide Scan, Weave, IdOf, FinalPatternCheck, Parse, Identifiers, LowerAll;
    ParseRoundTrip(pattern, counters);
    var n := |Texts(Scan(pattern))| - 1;
    IdentifierAt(counters, 0, n, i);
    IdentifierAt(counters, 0, n, j);
    IdNamesCounter(counters(i), counters(j));
  }

  // ---------- finding the identifiers again ----------

  /** A text taken apart: what is outside the identifiers, and the identifiers. */
  datatype Unwoven = Unwoven(texts: seq<string>, ids: seq<string>)

  function DigitsEnd(s: string, from: nat): (e: nat)
    requires from <= |s|
    ensures from <= e <= |s| && (forall i :: from <= i < e ==> IsDigit(s[i])) && (e < |s| ==> !IsDigit(s[e]))
    decreases |s| - from
  {
    if from < |s| && IsDigit(s[from]) then DigitsEnd(s, from + 1) else from
  }

  /** An identifier reaches from the letter before an underscore over all the digits behind it. */
  function Identify(s: string): (u: Unwoven)
    ensures |u.texts| == |u.ids| + 1 && u.texts[0] <= s
    decreases |s|
  {
    match Find(s, '_', 0)
    case None => Unwoven([s], [])
    case Some(i) =>
      var b, e := if i > 0 then i - 1 else 0, DigitsEnd(s, i + 1);
      var rest := Identify(s[e..]);
      Unwoven([s[..b]] + rest.texts, [s[b..e]] + rest.ids)
  }

  /** No text has an underscore, and none behind an identifier begins with a digit. */
  predicate Separable(texts: seq<string>) {
    && (forall j :: 0 <= j < |texts| ==> '_' !in texts[j])
    && (forall j :: 1 <= j < |texts| && texts[j] != "" ==> !IsDigit(texts[j][0]))
  }

  lemma {:induction false} IdentifySeparates(s: string)
    ensures Separable(Identify(s).texts)
    decreases |s|
  {
    if Find(s, '_', 0).Some? {
      var i := Find(s, '_', 0).value;
      var b, e := if i > 0 then i - 1 else 0, DigitsEnd(s, i + 1);
      IdentifySeparates(s[e..]);
      var rest := Identify(s[e..]).texts;
      assert rest[0] != "" ==> s[e..][0] == s[e] && rest[0][0] == s[e];
      assert '_' !in s[..b];
      hide Identify, Find, DigitsEnd, IsDigit;
      SeparableCons(s[..b], rest);
    } else {
      assert '_' !in s;
    }
  }

  lemma SeparableCons(t: string, rest: seq<string>)
    requires rest != [] && Separable(rest) && '_' !in t && (rest[0] != "" ==> !IsDigit(rest[0][0]))
    ensures Separable([t] + rest)
  {
  }

  lemma SeparableTail(texts: seq<string>)
    requires texts != [] && Separable(texts)
    ensures Separable(texts[1..])
  {
  }

  predicate IsIdentifier(id: string) {
    |id| >= 3 && id[0] == 'p' && id[1] == '_' && forall i :: 2 <= i < |id| ==> IsDigit(id[i])
  }

  lemma {:induction false} DigitsAll(s: string, from: nat, e: nat)
    requires from <= e <= |s| && (forall i :: from <= i < e ==> IsDigit(s[i])) && (e < |s| ==> !IsDigit(s[e]))
    ensures DigitsEnd(s, from) == e
    decreases e - from
  {
    if from < e {
      DigitsAll(s, from + 1, e);
    }
  }

  lemma {:induction false} FirstUnderscore(s: string, from: nat, i: nat)
    requires from <= i < |s| && s[i] == '_' && forall k :: from <= k < i ==> s[k] != '_'
    ensures Find(s, '_', from) == Some(i)
    decreases i - from
  {
    if from < i {
      FirstUnderscore(s, from + 1, i);
    }
  }

  /** The first identifier behind a text without underscores is found whole if no digit follows it. */
  lemma IdentifyFirst(t: string, id: string, after: string)
    requires '_' !in t && IsIdentifier(id) && (after != "" ==> !IsDigit(after[0]))
    ensures Identify(t + id + after) == Unwoven([t] + Identify(after).texts, [id] + Identify(after).ids)
  {
    var s := t + id + after;
    var i, e := |t| + 1, |t| + |id|;
    assert s[i] == '_' && forall k :: 0 <= k < |t| ==> s[k] == t[k];
    assert s[|t|] == 'p';
    FirstUnderscore(s, 0, i);
    forall k | i + 1 <= k < e ensures IsDigit(s[k]) {
      assert s[k] == id[k - |t|];
    }
    assert e < |s| ==> s[e] == after[0];
    DigitsAll(s, i + 1, e);
    assert s[..i - 1] == t && s[i - 1..e] == id && s[e..] == after;
    hide Find, DigitsEnd, IsDigit;
  }

  lemma WeaveStart(texts: seq<string>, ids: seq<string>)
    requires |texts| == |ids| + 1 && (forall j :: 0 <= j < |ids| ==> IsIdentifier(ids[j]))
    requires texts[0] != "" ==> !IsDigit(texts[0][0])
    ensures Weave(texts, ids) != "" ==> !IsDigit(Weave(texts, ids)[0])
  {
    if ids != [] && texts[0] == "" {
      assert Weave(texts, ids)[0] == ids[0][0];
    }
  }

  lemma {:induction false} IdentifyWoven(texts: seq<string>, ids: seq<string>)
    requires |texts| == |ids| + 1 && (forall j :: 0 <= j < |ids| ==> IsIdentifier(ids[j])) && Separable(texts)
    ensures Identify(Weave(texts, ids)) == Unwoven(texts, ids)
    decreases |ids|
  {
    if ids == [] {
      assert Find(texts[0], '_', 0).None?;
      assert texts == [texts[0]];
    } else {
      SeparableTail(texts);
      IdentifyWoven(texts[1..], ids[1..]);
      assert texts[1] == texts[1..][0];
      WeaveStart(texts[1..], ids[1..]);
      IdentifyFirst(texts[0], ids[0], Weave(texts[1..], ids[1..]));
      hide Identify, Separable, IsIdentifier, IsDigit;
      assert texts == [texts[0]] + texts[1..] && ids == [ids[0]] + ids[1..];
    }
  }

  lemma {:induction false} IdentifiersAre(counters: nat -> nat, k: nat, n: nat, j: nat)
    requires j < n
    ensures IsIdentifier(Identifiers(counters, k, n)[j])
    decreases n
  {
    hide IdOf;
    if j > 0 {
      IdentifiersAre(counters, k + 1, n - 1, j - 1);
    } else {
      IdIsIdentifier(counters(k));
    }
  }

  lemma IdIsIdentifier(counter: nat)
    ensures IsIdentifier(IdOf(counter))
  {
    hide Decimal;
    var digits := Decimal(counter);
    assert forall i :: 2 <= i < |digits| + 2 ==> IdOf(counter)[i] == digits[i - 2];
  }

  /**
   * The expression itself tells where its patterns were exactly if the text outside the quotes has
   * no underscore and no digit right behind a pattern; then it and the patterns alone give the
   * original back, in lower case outside the quotes.
   */
  lemma ExpressionTellsPatterns(pattern: string, counters: nat -> nat)
    requires Parse(pattern, counters).Parsed?
    ensures var result, texts := Parse(pattern, counters), LowerAll(Texts(Scan(pattern)));
            && (Identify(result.expression) == Unwoven(texts, Identifiers(counters, 0, |result.subPatterns|))
                <==> Separable(texts))
            && (Separable(texts) ==>
                  && |Identify(result.expression).texts| == |result.subPatterns| + 1
                  && Weave(Identify(result.expression).texts, Quoted(result.subPatterns))
                     == Weave(texts, Quoted(Patterns(Scan(pattern)))))
  {
    hide Scan, Weave, IdOf, FinalPatternCheck, Identify, Separable, Parse, Identifiers, IsIdentifier, LowerAll, Quoted;
    ParseRoundTrip(pattern, counters);
    var result, texts := Parse(pattern, counters), LowerAll(Texts(Scan(pattern)));
    var ids := Identifiers(counters, 0, |result.subPatterns|);
    forall j | 0 <= j < |ids| ensures IsIdentifier(ids[j]) {
      IdentifiersAre(counters, 0, |result.subPatterns|, j);
    }
    IdentifySeparates(result.expression);
    if Separable(texts) {
      IdentifyWoven(texts, ids);
    }
  }
}
