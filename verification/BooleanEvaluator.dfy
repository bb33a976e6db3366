/**
 * Evaluating a combination of sub-patterns on the match results of a line (`booleanevaluator.cpp`,
 * `regularexpression.cpp`): for up to four patterns the results of all combinations are worked out
 * beforehand.
 */
module BooleanEvaluator {
  import opened Bytes

  // ---------- packing match results into bits ----------

  function ShiftRight(num: nat, bit: nat): nat {
    if bit == 0 then num else ShiftRight(num / 2, bit - 1)
  }

  predicate IsBitSet(num: nat, bit: nat) {
    ShiftRight(num, bit) % 2 == 1
  }

  /** `num | (1 << bit)` */
  function WithBit(num: nat, bit: nat): nat {
    if bit == 0 then num / 2 * 2 + 1 else 2 * WithBit(num / 2, bit - 1) + num % 2
  }

  /** `1 << n` */
  function PowerOfTwo(n: nat): nat {
    if n == 0 then 1 else 2 * PowerOfTwo(n - 1)
  }

  lemma {:induction false} WithBitSets(num: nat, bit: nat, i: nat)
    ensures IsBitSet(WithBit(num, bit), i) <==> i == bit || IsBitSet(num, i)
    decreases bit
  {
    var w := WithBit(num, bit);
    if bit == 0 {
      assert w / 2 == num / 2;
    } else {
      assert w / 2 == WithBit(num / 2, bit - 1) && w % 2 == num % 2;
      if i > 0 {
        WithBitSets(num / 2, bit - 1, i - 1);
      }
    }
  }

  lemma {:induction false} WithBitBound(num: nat, bit: nat, n: nat)
    requires num < PowerOfTwo(n) && bit < n
    ensures WithBit(num, bit) < PowerOfTwo(n)
    decreases bit
  {
    if bit > 0 {
      WithBitBound(num / 2, bit - 1, n - 1);
    }
  }

  lemma {:induction false} ZeroHasNoBits(i: nat)
    ensures !IsBitSet(0, i)
  {
    if i > 0 {
      ZeroHasNoBits(i - 1);
    }
  }

  /** A number is its bits. */
  lemma {:induction false} SameBits(a: nat, b: nat, n: nat)
    requires a < PowerOfTwo(n) && b < PowerOfTwo(n)
    requires forall i :: 0 <= i < n ==> (IsBitSet(a, i) <==> IsBitSet(b, i))
    ensures a == b
    decreases n
  {
    if n > 0 {
      assert IsBitSet(a, 0) <==> IsBitSet(b, 0);
      forall i | 0 <= i < n - 1 ensures IsBitSet(a / 2, i) <==> IsBitSet(b / 2, i) {
        assert IsBitSet(a, i + 1) <==> IsBitSet(b, i + 1);
      }
      SameBits(a / 2, b / 2, n - 1);
    }
  }

  /** Bit `i` of the combination tells whether match result `i` is set; it has no other bits. */
  ghost predicate Packs(variables: seq<nat>, n: nat, combination: nat)
    requires n <= |variables|
  {
    && combination < PowerOfTwo(n)
    && forall i :: 0 <= i ==> (IsBitSet(combination, i) <==> i < n && variables[i] != 0)
  }

  method BuildPatternCombination(variables: seq<nat>) returns (combination: nat)
    ensures Packs(variables, |variables|, combination)
  {
    combination := 0;
    NothingPacked(variables);
    for bit := 0 to |variables|
      invariant Packs(variables, bit, combination)
    {
      PackNext(variables, bit, combination);
      if variables[bit] != 0 {
        combination := WithBit(combination, bit);
      }
    }
  }

  lemma NothingPacked(variables: seq<nat>)
    ensures Packs(variables, 0, 0)
  {
    forall i: nat ensures !IsBitSet(0, i) {
      ZeroHasNoBits(i);
    }
  }

  lemma PackNext(variables: seq<nat>, bit: nat, combination: nat)
    requires bit < |variables| && Packs(variables, bit, combination)
    ensures Packs(variables, bit + 1, if variables[bit] != 0 then WithBit(combination, bit) else combination)
  {
    assert !IsBitSet(combination, bit);
    WithBitBound(combination, bit, bit + 1);
    hide IsBitSet, WithBit;
    forall i: nat ensures IsBitSet(WithBit(combination, bit), i) <==> i == bit || IsBitSet(combination, i) {
      WithBitSets(combination, bit, i);
    }
  }

  /** The match results that a combination number stands for. */
  function Unpack(num: nat, n: nat): (variables: seq<nat>)
    ensures |variables| == n && forall i :: 0 <= i < n ==> variables[i] == if IsBitSet(num, i) then 1 else 0
  {
    seq(n, i requires 0 <= i < n => if IsBitSet(num, i) then 1 else 0)
  }

  predicate SameTruth(a: seq<nat>, b: seq<nat>) {
    |a| == |b| && forall i :: 0 <= i < |a| ==> (a[i] != 0 <==> b[i] != 0)
  }

  /** Packing and unpacking are inverse, for any number of patterns. */
  lemma PackingIsInverse(variables: seq<nat>, combination: nat, num: nat)
    ensures Packs(variables, |variables|, combination) ==> SameTruth(Unpack(combination, |variables|), variables)
    ensures num < PowerOfTwo(|variables|) && Packs(Unpack(num, |variables|), |variables|, combination) ==> combination == num
  {
    var n := |variables|;
    hide IsBitSet;
    if num < PowerOfTwo(n) && Packs(Unpack(num, n), n, combination) {
      SameBits(combination, num, n);
    }
  }

  // ---------- expressions ----------

  /** A parsed expression over the match results. */
  datatype Expr =
    | Variable(index: nat)
    | Not(operand: Expr)
    | And(left: Expr, right: Expr)
    | Nand(left: Expr, right: Expr)
    | Or(left: Expr, right: Expr)
    | Nor(left: Expr, right: Expr)
    | Xor(left: Expr, right: Expr)
    | Xnor(left: Expr, right: Expr)
  {
    predicate Over(n: nat) {
      match this
      case Variable(index) => index < n
      case Not(operand) => operand.Over(n)
      case _ => left.Over(n) && right.Over(n)
    }

    /** A variable has the value it was given, an operator 0 or 1. */
    function Value(variables: seq<nat>): nat
      requires Over(|variables|)
    {
      match this
      case Variable(index) => variables[index]
      case Not(operand) => Number(operand.Value(variables) == 0)
      case And(l, r) => Number(l.Value(variables) != 0 && r.Value(variables) != 0)
      case Nand(l, r) => Number(!(l.Value(variables) != 0 && r.Value(variables) != 0))
      case Or(l, r) => Number(l.Value(variables) != 0 || r.Value(variables) != 0)
      case Nor(l, r) => Number(!(l.Value(variables) != 0 || r.Value(variables) != 0))
      case Xor(l, r) => Number((l.Value(variables) != 0) != (r.Value(variables) != 0))
      case Xnor(l, r) => Number((l.Value(variables) != 0) == (r.Value(variables) != 0))
    }
  }

  function Number(b: bool): nat {
    if b then 1 else 0
  }

  /** The truth of an expression is that of its operator applied to the truth of its operands. */
  lemma ValueMeaning(l: Expr, r: Expr, variables: seq<nat>)
    requires l.Over(|variables|) && r.Over(|variables|)
    ensures var a, b := l.Value(variables) > 0, r.Value(variables) > 0;
            && (Not(l).Value(variables) > 0 <==> !a)
            && (And(l, r).Value(variables) > 0 <==> a && b) && (Nand(l, r).Value(variables) > 0 <==> !(a && b))
            && (Or(l, r).Value(variables) > 0 <==> a || b) && (Nor(l, r).Value(variables) > 0 <==> !(a || b))
            && (Xor(l, r).Value(variables) > 0 <==> (a && !b) || (b && !a))
            && (Xnor(l, r).Value(variables) > 0 <==> (a && b) || (!a && !b))
    ensures forall i :: 0 <= i < |variables| ==> (Variable(i).Value(variables) > 0 <==> variables[i] > 0)
  {
  }

  /** Only the truth of the match results matters. */
  lemma {:induction false} ValueOfTruth(e: Expr, a: seq<nat>, b: seq<nat>)
    requires SameTruth(a, b) && e.Over(|a|)
    ensures e.Value(a) != 0 <==> e.Value(b) != 0
  {
    match e
    case Variable(_) =>
    case Not(operand) => ValueOfTruth(operand, a, b);
    case _ =>
      ValueOfTruth(e.left, a, b);
      ValueOfTruth(e.right, a, b);
  }

  // ---------- the evaluator ----------

  const MAX_PRECOMPUTED_PATTERNS: nat := 4

  /** What the parser made of the expression text. */
  predicate Understood(parsed: Option<Expr>, n: nat) {
    parsed.Some? ==> parsed.value.Over(n)
  }

  class BooleanExpressionEvaluator {
    const parsed: Option<Expr>
    const nbVariables: nat
    const precomputedResults: array<nat>

    ghost predicate Valid()
      reads this, precomputedResults
    {
      && Understood(parsed, nbVariables) && nbVariables >= 1 && precomputedResults.Length == 16
      && (parsed.Some? && nbVariables <= MAX_PRECOMPUTED_PATTERNS ==>
            forall c :: 0 <= c < PowerOfTwo(nbVariables) && c < 16 ==>
              precomputedResults[c] == parsed.value.Value(Unpack(c, nbVariables)))
    }

    constructor (parsed: Option<Expr>, nbVariables: nat)
      requires Understood(parsed, nbVariables) && nbVariables >= 1
      ensures Valid() && this.parsed == parsed && this.nbVariables == nbVariables
    {
      this.parsed := parsed;
      this.nbVariables := nbVariables;
      var results := new nat[16];
      precomputedResults := results;
      new;
      if parsed.Some? && nbVariables <= MAX_PRECOMPUTED_PATTERNS {
        Precompute(parsed.value, nbVariables, precomputedResults);
      }
    }

    method Evaluate(variables: seq<nat>) returns (result: bool)
      requires Valid()
      ensures result == (parsed.Some? && |variables| == nbVariables && parsed.value.Value(variables) > 0)
    {
      if parsed.None? || nbVariables != |variables| {
        return false;
      }
      if |variables| <= MAX_PRECOMPUTED_PATTERNS {
        var patternCombination := BuildPatternCombination(variables);
        SixteenAtMost(|variables|);
        PackingIsInverse(variables, patternCombination, 0);
        ValueOfTruth(parsed.value, Unpack(patternCombination, nbVariables), variables);
        return precomputedResults[patternCombination] > 0;
      }
      return parsed.value.Value(variables) > 0;
    }
  }

  lemma SixteenAtMost(n: nat)
    requires n <= MAX_PRECOMPUTED_PATTERNS
    ensures PowerOfTwo(n) <= 16
  {
    assert PowerOfTwo(2) == 4;
  }

  method Precompute(expression: Expr, n: nat, results: array<nat>)
    requires expression.Over(n) && n <= MAX_PRECOMPUTED_PATTERNS && results.Length == 16
    modifies results
    ensures forall c :: 0 <= c < PowerOfTwo(n) && c < 16 ==> results[c] == expression.Value(Unpack(c, n))
  {
    SixteenAtMost(n);
    for patternCombination := 0 to PowerOfTwo(n)
      invariant forall c :: 0 <= c < patternCombination ==> results[c] == expression.Value(Unpack(c, n))
    {
      var variables := SetVariables(patternCombination, n);
      results[patternCombination] := expression.Value(variables);
    }
  }

  method SetVariables(patternCombination: nat, n: nat) returns (variables: seq<nat>)
    ensures variables == Unpack(patternCombination, n)
  {
    variables := [];
    for p := 0 to n
      invariant |variables| == p && forall i :: 0 <= i < p ==> variables[i] == if IsBitSet(patternCombination, i) then 1 else 0
    {
      variables := variables + [if IsBitSet(patternCombination, p) then 1 else 0];
    }
  }
}
