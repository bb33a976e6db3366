/** Deciding whether a line matches (`regularexpression.cpp`): single or combined, plain or inverted. */
module PatternMatching {
  import opened Bytes
  import opened BooleanEvaluator

  /** For a line, how often each sub-pattern was found in it. */
  type Engine = seq<Byte> -> seq<nat>

  /** What matching means: some sub-pattern, or the combination of them, is found; or it is not. */
  predicate Matches(line: seq<Byte>, engine: Engine, combination: Option<Expr>, isBoolean: bool, isInverse: bool) {
    var found := if isBoolean then CombinationFound(combination, engine(line)) else |engine(line)| > 0 && engine(line)[0] != 0;
    found != isInverse
  }

  /** An expression that could not be parsed is never found, nor is one that lacks match results. */
  predicate CombinationFound(combination: Option<Expr>, result: seq<nat>) {
    combination.Some? && combination.value.Over(|result|) && combination.value.Value(result) != 0
  }

  class PatternMatcher {
    const isInverse: bool
    const isBooleanCombination: bool
    const engine: Engine
    const evaluator: BooleanExpressionEvaluator?

    ghost predicate Valid()
      reads evaluator, if evaluator == null then {} else {evaluator.precomputedResults}
    {
      isBooleanCombination ==>
        evaluator != null && evaluator.Valid() && forall line :: |engine(line)| == evaluator.nbVariables
    }

    ghost function Combination(): Option<Expr> {
      if evaluator == null then None else evaluator.parsed
    }

    constructor (engine: Engine, nbSubPatterns: nat, parsed: Option<Expr>, isBooleanCombination: bool, isInverse: bool)
      requires nbSubPatterns >= 1 && forall line :: |engine(line)| == nbSubPatterns
      requires Understood(parsed, nbSubPatterns)
      ensures Valid() && this.engine == engine && this.isBooleanCombination == isBooleanCombination
      ensures this.isInverse == isInverse && (isBooleanCombination ==> Combination() == parsed)
    {
      this.isInverse := isInverse;
      this.isBooleanCombination := isBooleanCombination;
      this.engine := engine;
      if isBooleanCombination {
        evaluator := new BooleanExpressionEvaluator(parsed, nbSubPatterns);
      } else {
        evaluator := null;
      }
    }

    method HasSingleMatch(line: seq<Byte>) returns (r: bool)
      requires Valid()
      ensures r <==> Matches(line, engine, Combination(), false, false)
    {
      var result := engine(line);
      return result != [] && result[0] > 0;
    }

    method HasCombinedMatch(line: seq<Byte>) returns (r: bool)
      requires Valid() && isBooleanCombination
      ensures r <==> Matches(line, engine, Combination(), true, false)
    {
      var result := engine(line);
      if evaluator == null {
        return false;
      }
      r := evaluator.Evaluate(result);
    }

    method HasMatch(line: seq<Byte>) returns (r: bool)
      requires Valid()
      ensures r <==> Matches(line, engine, Combination(), isBooleanCombination, isInverse)
      ensures !isBooleanCombination ==> (r <==> ((engine(line) != [] && engine(line)[0] != 0) != isInverse))
      ensures isBooleanCombination && Combination().None? ==> r == isInverse
      ensures isBooleanCombination && Combination().Some? ==>
                && Combination().value.Over(|engine(line)|)
                && (r <==> ((Combination().value.Value(engine(line)) != 0) != isInverse))
    {
      if isBooleanCombination {
        r := HasCombinedMatch(line);
      } else {
        r := HasSingleMatch(line);
      }
      if isInverse {
        r := !r;
      }
    }
  }
}
