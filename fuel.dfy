/**
 * The nesting bound on segment resolution changes nothing but where the source would overflow
 * its stack: a reply that did not give up at the bound is the same under any larger bound.
 * Every parser passes an abort on unchanged, so a reply that is not `RecursionLimit` was
 * computed from sub-replies that are not either, and the proof follows the parsers'
 * own recursion, one lemma per parser.
 */
module Fuel {
  import opened Common
  import opened Lexer
  import opened Values
  import opened Ast
  import opened Criteria
  import opened Parsing
  import Layers
  import TargetingExpression

  /** A reply that gave up because a segment nests deeper than the bound allows. */
  predicate Limited<T>(r: Reply<T>) {
    r.Abort? && r.error.RecursionLimit?
  }

  /** A result that gave up because a segment nests deeper than the bound allows. */
  predicate LimitedResult<T>(r: Result<T, Error>) {
    r.Err? && r.error.RecursionLimit?
  }

  lemma {:induction false} ChainFuel(g: Grammar, env: Env, fuel: nat, s: string)
    decreases fuel, Level(g), |s|, 5, 0
    ensures Limited(Chain(g, env, fuel, s)) || Chain(g, env, fuel + 1, s) == Chain(g, env, fuel, s)
  {
    ChainOperandFuel(g, env, fuel, s);
    match ChainOperand(g, env, fuel, s)
    case Match(first, rest) => ChainRestFuel(g, env, fuel, first, rest);
    case _ =>
  }

  lemma {:induction false} ChainRestFuel(g: Grammar, env: Env, fuel: nat, acc: Expr, s: string)
    decreases fuel, Level(g), |s|, 5, 1
    ensures LimitedResult(ChainRest(g, env, fuel, acc, s)) || ChainRest(g, env, fuel + 1, acc, s) == ChainRest(g, env, fuel, acc, s)
  {
    var next := ParseOperator(g.operators, s);
    ChainRestCaseIs(g, env, fuel, acc, s);
    ChainRestCaseIs(g, env, fuel + 1, acc, s);
    ChainRestCaseFuel(g, env, fuel, acc, s, next, |s|);
  }

  /** The fold step, given the reply for the next operator. */
  function ChainRestCase(g: Grammar, env: Env, fuel: nat, acc: Expr, s: string, next: Option<(BinOp, string)>): Result<(Expr, string), Error> {
    match next
    case None => Ok((acc, s))
    case Some((op, afterOp)) =>
      match ChainOperand(g, env, fuel, afterOp)
      case NoMatch => Ok((acc, s))
      case Abort(e) => Err(e)
      case Match(operand, rest) =>
        match BuildBinary(op, acc, operand, g.parameter)
        case Err(e) => Err(e)
        case Ok(tree) => ChainRest(g, env, fuel, tree, rest)
  }

  lemma ChainRestCaseIs(g: Grammar, env: Env, fuel: nat, acc: Expr, s: string)
    ensures ChainRest(g, env, fuel, acc, s) == ChainRestCase(g, env, fuel, acc, s, ParseOperator(g.operators, s))
  {
  }

  lemma {:induction false} ChainRestCaseFuel(g: Grammar, env: Env, fuel: nat, acc: Expr, s: string, next: Option<(BinOp, string)>, bound: nat)
    requires next.Some? ==> |next.value.1| <= bound
    decreases fuel, Level(g), bound, 5, 0
    ensures LimitedResult(ChainRestCase(g, env, fuel, acc, s, next)) ||
            ChainRestCase(g, env, fuel + 1, acc, s, next) == ChainRestCase(g, env, fuel, acc, s, next)
  {
    if next.Some? {
      var (op, afterOp) := next.value;
      ChainOperandFuel(g, env, fuel, afterOp);
      var operand := ChainOperand(g, env, fuel, afterOp);
      if operand.Match? {
        var tree := BuildBinary(op, acc, operand.value, g.parameter);
        if tree.Ok? {
          ChainRestFuel(g, env, fuel, tree.value, operand.rest);
        }
      }
    }
  }

  lemma {:induction false} ChainOperandFuel(g: Grammar, env: Env, fuel: nat, s: string)
    decreases fuel, Level(g), |s|, 4, 0
    ensures Limited(ChainOperand(g, env, fuel, s)) || ChainOperand(g, env, fuel + 1, s) == ChainOperand(g, env, fuel, s)
  {
    NegationFuel(g, env, fuel, s);
    InfixFuel(g, env, fuel, s);
    ComponentFuel(g, env, fuel, s);
  }

  lemma {:induction false} NegationFuel(g: Grammar, env: Env, fuel: nat, s: string)
    decreases fuel, Level(g), |s|, 3, 0
    ensures Limited(Negation(g, env, fuel, s)) || Negation(g, env, fuel + 1, s) == Negation(g, env, fuel, s)
  {
    match NotKeyword(s)
    case None =>
    case Some(afterNot) => ComponentFuel(g, env, fuel, afterNot);
  }

  lemma {:induction false} InfixFuel(g: Grammar, env: Env, fuel: nat, s: string)
    decreases fuel, Level(g), |s|, 3, 0
    ensures Limited(Infix(g, env, fuel, s)) || Infix(g, env, fuel + 1, s) == Infix(g, env, fuel, s)
  {
    ComponentFuel(g, env, fuel, s);
    match Component(g, env, fuel, s)
    case Match(lhs, afterLhs) => InfixRestFuel(g, env, fuel, lhs, afterLhs);
    case _ =>
  }

  lemma {:induction false} InfixRestFuel(g: Grammar, env: Env, fuel: nat, lhs: Expr, s: string)
    decreases fuel, Level(g), |s|, 3, 1
    ensures Limited(InfixRest(g, env, fuel, lhs, s)) || InfixRest(g, env, fuel + 1, lhs, s) == InfixRest(g, env, fuel, lhs, s)
  {
    var name := ExtensionName(g.operatorClass, s);
    InfixRestCase(g, env, fuel, lhs, s);
    InfixRestCase(g, env, fuel + 1, lhs, s);
    InfixCaseFuel(g, env, fuel, lhs, name, |s|);
  }

  /** What follows the left component, given the reply for the operator's name. */
  function InfixCase(g: Grammar, env: Env, fuel: nat, lhs: Expr, name: Reply<Operation>): Reply<Expr> {
    match name
    case NoMatch => NoMatch
    case Abort(e) => Abort(e)
    case Match(f, afterName) =>
      match Component(g, env, fuel, afterName)
      case NoMatch => NoMatch
      case Abort(e) => Abort(e)
      case Match(rhs, rest) => BuildInfix(f, lhs, rhs, g.parameter, rest)
  }

  lemma InfixRestCase(g: Grammar, env: Env, fuel: nat, lhs: Expr, s: string)
    ensures InfixRest(g, env, fuel, lhs, s) == InfixCase(g, env, fuel, lhs, ExtensionName(g.operatorClass, s))
  {
  }

  lemma {:induction false} InfixCaseFuel(g: Grammar, env: Env, fuel: nat, lhs: Expr, name: Reply<Operation>, bound: nat)
    requires name.Match? ==> |name.rest| < bound
    decreases fuel, Level(g), bound, 3, 0
    ensures Limited(InfixCase(g, env, fuel, lhs, name)) || InfixCase(g, env, fuel + 1, lhs, name) == InfixCase(g, env, fuel, lhs, name)
  {
    if name.Match? {
      ComponentFuel(g, env, fuel, name.rest);
    }
  }

  lemma {:induction false} ComponentFuel(g: Grammar, env: Env, fuel: nat, s: string)
    decreases fuel, Level(g), |s|, 2, |g.components| + 1
    ensures Limited(Component(g, env, fuel, s)) || Component(g, env, fuel + 1, s) == Component(g, env, fuel, s)
  {
    AlternativesFuel(g, env, fuel, s, 0);
  }

  lemma {:induction false} AlternativesFuel(g: Grammar, env: Env, fuel: nat, s: string, i: nat)
    requires i <= |g.components|
    decreases fuel, Level(g), |s|, 2, |g.components| - i
    ensures Limited(Alternatives(g, env, fuel, s, i)) || Alternatives(g, env, fuel + 1, s, i) == Alternatives(g, env, fuel, s, i)
  {
    if i < |g.components| {
      AlternativeFuel(g, env, fuel, g.components[i], s);
      AlternativesFuel(g, env, fuel, s, i + 1);
    }
  }

  lemma {:induction false} AlternativeFuel(g: Grammar, env: Env, fuel: nat, alt: Alt, s: string)
    requires alt in g.components
    decreases fuel, Level(g), |s|, 1, 0
    ensures Limited(Alternative(g, env, fuel, alt, s)) || Alternative(g, env, fuel + 1, alt, s) == Alternative(g, env, fuel, alt, s)
  {
    match alt
    case AParen => ParenFuel(g, env, fuel, s);
    case AFunc => FunctionCallFuel(g, env, fuel, s);
    case ARef => ReferenceFuel(g, env, fuel, s);
    case _ =>
  }

  lemma {:induction false} ParenFuel(g: Grammar, env: Env, fuel: nat, s: string)
    decreases fuel, Level(g), |s|, 0, 1
    ensures Limited(Paren(g, env, fuel, s)) || Paren(g, env, fuel + 1, s) == Paren(g, env, fuel, s)
  {
    if s != [] && s[0] == '(' {
      ChainFuel(g, env, fuel, s[1..]);
    }
  }

  lemma {:induction false} FunctionCallFuel(g: Grammar, env: Env, fuel: nat, s: string)
    decreases fuel, Level(g), |s|, 0, 1
    ensures Limited(FunctionCall(g, env, fuel, s)) || FunctionCall(g, env, fuel + 1, s) == FunctionCall(g, env, fuel, s)
  {
    match ExtensionName(g.functionClass, s)
    case Match(f, afterName) => CallRestFuel(g, env, fuel, f, afterName);
    case _ =>
  }

  lemma {:induction false} ReferenceFuel(g: Grammar, env: Env, fuel: nat, s: string)
    requires ARef in g.components
    decreases fuel, Level(g), |s|, 0, 1
    ensures Limited(Reference(g, env, fuel, s)) || Reference(g, env, fuel + 1, s) == Reference(g, env, fuel, s)
  {
    match NameToken(s)
    case None =>
    case Some((code, rest)) => ResolveFuel(g, env, fuel, code);
  }

  lemma {:induction false} CallRestFuel(g: Grammar, env: Env, fuel: nat, f: Operation, s: string)
    decreases fuel, Level(g), |s|, 3, 0
    ensures Limited(CallRest(g, env, fuel, f, s)) || CallRest(g, env, fuel + 1, f, s) == CallRest(g, env, fuel, f, s)
  {
    if s != [] && s[0] == '(' {
      ArgumentsFuel(g, env, fuel, s[1..]);
    }
  }

  lemma {:induction false} ArgumentsFuel(g: Grammar, env: Env, fuel: nat, s: string)
    decreases fuel, Level(g), |s|, 3, 0
    ensures LimitedResult(Arguments(g, env, fuel, s)) || Arguments(g, env, fuel + 1, s) == Arguments(g, env, fuel, s)
  {
    ComponentFuel(g, env, fuel, s);
    match Component(g, env, fuel, s)
    case Match(first, rest) => MoreArgumentsFuel(g, env, fuel, [first], rest);
    case _ =>
  }

  lemma {:induction false} MoreArgumentsFuel(g: Grammar, env: Env, fuel: nat, acc: seq<Expr>, s: string)
    decreases fuel, Level(g), |s|, 3, 0
    ensures LimitedResult(MoreArguments(g, env, fuel, acc, s)) || MoreArguments(g, env, fuel + 1, acc, s) == MoreArguments(g, env, fuel, acc, s)
  {
    match CharToken(',', s)
    case None =>
    case Some(afterComma) =>
      ComponentFuel(g, env, fuel, afterComma);
      match Component(g, env, fuel, afterComma) {
        case Match(next, rest) => MoreArgumentsFuel(g, env, fuel, acc + [next], rest);
        case _ =>
      }
  }

  /**
   * Resolving a code: only a segment spends the bound, and its text read with one unit less
   * settles in the same way.
   */
  lemma {:induction false} ResolveFuel(g: Grammar, env: Env, fuel: nat, code: string)
    decreases fuel, 1, 0, 0, 0
    ensures LimitedResult(Resolve(g, env, fuel, code)) || Resolve(g, env, fuel + 1, code) == Resolve(g, env, fuel, code)
  {
    match FindCriterion(env.criteria, code)
    case Some(Segment(_, text)) =>
      if fuel > 0 {
        ChainFuel(g, env, fuel - 1, text);
      }
    case Some(Rule(ruleCode, target, clrType, criterion)) => BuildRuleFuel(env, fuel, ruleCode, target, clrType, criterion);
    case _ =>
  }

  /** A rule is parsed by its own grammar, which resolves no references: the bound plays no part. */
  lemma BuildRuleFuel(env: Env, fuel: nat, ruleCode: string, target: string, clrType: ClrType, criterion: string)
    ensures BuildRule(env, fuel + 1, ruleCode, target, clrType, criterion) == BuildRule(env, fuel, ruleCode, target, clrType, criterion)
  {
  }

  lemma {:induction false} LambdaFuel(g: Grammar, env: Env, fuel: nat, s: string)
    ensures LimitedResult(Lambda(g, env, fuel, s)) || Lambda(g, env, fuel + 1, s) == Lambda(g, env, fuel, s)
  {
    ChainFuel(g, env, fuel, s);
  }

  /**
   * A compiled expression that did not give up at the nesting bound is the same under every
   * larger bound: the bound only stands in for the source's stack overflow.
   */
  lemma {:induction false} GenerateExpressionSettles(env: Env, fuel: nat, more: nat, text: string)
    requires !LimitedResult(TargetingExpression.GenerateExpression(env, fuel, text))
    ensures TargetingExpression.GenerateExpression(env, fuel + more, text) == TargetingExpression.GenerateExpression(env, fuel, text)
    decreases more
  {
    if more > 0 {
      GenerateExpressionSettles(env, fuel, more - 1, text);
      LambdaFuel(Layers.Targeting, env, fuel + more - 1, text);
    }
  }
}
