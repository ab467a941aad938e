/**
 * The expression grammars as one family of mutually recursive parsers over a grammar
 * description. Every grammar class of the source is the same combinator skeleton:
 *
 *   BinaryOperation = ChainOperator(BinaryOperators, operand, MakeBinary)
 *   operand         = Negation | ExtensionOperator (when the grammar has one) | component
 *   Negation        = ("NOT" | "!").Token() component
 *   component       = the grammar's ordered alternatives: "(" BinaryOperation ")", a constant,
 *                     a function call, the parameter `x`, a criterion reference
 *   Lambda          = BinaryOperation.End()
 *
 * and differs only in its operator table, its alternatives, its extension classes, the type
 * of its numeric constants and its parameter. A `Reply` separates a failed alternative
 * (`NoMatch`, after which an ordered choice tries the next one) from an exception raised
 * while building a node (`Abort`, which no choice catches).
 */
module Parsing {
  import opened Common
  import opened Text
  import opened Values
  import opened Ast
  import opened Lexer
  import Registry
  import opened Criteria

  /** The alternatives a component (an `Operand` in the flattened grammar) can take. */
  datatype Alt =
    /** `Parse.Char('(')`, the binary operation, `Parse.Char(')')` */
    | AParen
    /** `Constant` */
    | AConst
    /** `ExtensionFunction`: a registered name, `(`, comma-separated components, `)` */
    | AFunc
    /** `Parameter`: the bound variable `x` */
    | AParam
    /** `TargetEvaluation`: a reference code resolved against the criteria */
    | ARef

  datatype Grammar = Grammar(
    /** `BinaryOperators`, in the order they are tried. */
    operators: seq<BinOp>,
    /** Whether the chain operand offers `ExtensionOperator`. */
    infix: bool,
    /** The component alternatives, in the order they are tried. */
    components: seq<Alt>,
    /** The methods of `TExtensionOperators` and `TExtensionFunctions`. */
    operatorClass: seq<Operation>,
    functionClass: seq<Operation>,
    /** Numeric constants are `double?` (true) or `double` (false). */
    nullableNumbers: bool,
    /** The type of the lambda parameter `x`, for a parametrized grammar. */
    parameter: Option<Ty>)

  /** A grammar a rule can be parsed with: it has a parameter that accepts null and no references. */
  predicate IsRuleGrammar(g: Grammar) {
    ARef !in g.components && g.parameter.Some? && Nullable(g.parameter.value)
  }

  type RuleGrammar = g: Grammar | IsRuleGrammar(g) witness Grammar([], false, [], [], [], true, Some(TString))

  /** What reference resolution consults: the criteria and the rule parsers by rule value type. */
  datatype Env = Env(criteria: seq<Criterion>, ruleParsers: map<Ty, RuleGrammar>)

  /** A rule parser is a grammar object of its own: it sees no criteria and no rule parsers. */
  const NoEnv := Env([], map[])

  /** A grammar that resolves references sits above the rule grammars it calls into. */
  function Level(g: Grammar): nat {
    if ARef in g.components then 1 else 0
  }

  /** Every argument parses to a well-typed tree. */
  predicate AllWellTyped(es: seq<Expr>, p: Option<Ty>) {
    forall i :: 0 <= i < |es| ==> WellTyped(es[i], p)
  }

  /** A call whose arguments are well typed and fit the method's parameters is well typed. */
  lemma CallWellTyped(f: Operation, args: seq<Expr>, p: Option<Ty>)
    ensures AllWellTyped(args, p) && ArgumentsFit(f, args) ==> WellTyped(Call(f, args), p)
  {
  }

  /**
   * `BinaryOperation`: an operand followed by any number of (operator, operand) pairs, folded
   * to the left. Reference resolution inside it may parse segment texts; `fuel` bounds how
   * deep that nesting goes.
   */
  function Chain(g: Grammar, env: Env, fuel: nat, s: string): (r: Reply<Expr>)
    decreases fuel, Level(g), |s|, 5, 0
    ensures r.Match? ==> |r.rest| < |s| && WellTyped(r.value, g.parameter)
  {
    match ChainOperand(g, env, fuel, s)
    case NoMatch => NoMatch
    case Abort(e) => Abort(e)
    case Match(first, rest) =>
      match ChainRest(g, env, fuel, first, rest)
      case Err(e) => Abort(e)
      case Ok((tree, after)) => Match(tree, after)
  }

  /**
   * `ChainOperatorRest`: `acc` is the tree so far. An operator followed by an operand extends
   * it with `MakeBinary(op, acc, operand)`; when no operator follows, or the operand after it
   * fails, the tree is returned and the input is left before the operator.
   */
  function ChainRest(g: Grammar, env: Env, fuel: nat, acc: Expr, s: string): (r: Result<(Expr, string), Error>)
    decreases fuel, Level(g), |s|, 5, 0
    ensures r.Ok? ==> |r.value.1| <= |s|
    ensures r.Ok? && WellTyped(acc, g.parameter) ==> WellTyped(r.value.0, g.parameter)
  {
    match ParseOperator(g.operators, s)
    case None => Ok((acc, s))
    case Some((op, afterOp)) =>
      match ChainOperand(g, env, fuel, afterOp)
      case NoMatch => Ok((acc, s))
      case Abort(e) => Err(e)
      case Match(operand, rest) =>
        match BuildBinary(op, acc, operand, g.parameter)
        case Err(e) => Err(e)
        case Ok(tree) => ChainRest(g, env, fuel, tree, rest)
  }

  /** `MakeBinary` with the typing fact the fold needs: well-typed operands give a well-typed node. */
  function BuildBinary(op: BinOp, lhs: Expr, rhs: Expr, p: Option<Ty>): (r: Result<Expr, Error>)
    ensures r.Ok? <==> BinaryDefined(op, TypeOf(lhs), TypeOf(rhs))
    ensures r.Ok? ==> r.value == Binary(op, lhs, rhs)
    ensures r.Ok? && WellTyped(lhs, p) && WellTyped(rhs, p) ==> WellTyped(r.value, p)
    ensures r.Err? ==> r.error == BuildError
  {
    MakeBinary(op, lhs, rhs)
  }

  /** `NegationOperation.Or(ExtensionOperator).Or(component)` */
  function ChainOperand(g: Grammar, env: Env, fuel: nat, s: string): (r: Reply<Expr>)
    decreases fuel, Level(g), |s|, 4, 0
    ensures r.Match? ==> |r.rest| < |s| && WellTyped(r.value, g.parameter)
  {
    match Negation(g, env, fuel, s)
    case Match(e, rest) => Match(e, rest)
    case Abort(e) => Abort(e)
    case NoMatch =>
      if g.infix then
        match Infix(g, env, fuel, s)
        case Match(e, rest) => Match(e, rest)
        case Abort(e) => Abort(e)
        case NoMatch => Component(g, env, fuel, s)
      else Component(g, env, fuel, s)
  }

  /** `NegationOperation`: the keyword, one component, and `Expression.Not` of it. */
  function Negation(g: Grammar, env: Env, fuel: nat, s: string): (r: Reply<Expr>)
    decreases fuel, Level(g), |s|, 3, 0
    ensures r.Match? ==> |r.rest| < |s| && WellTyped(r.value, g.parameter) && r.value.Not?
  {
    match NotKeyword(s)
    case None => NoMatch
    case Some(afterNot) =>
      match Component(g, env, fuel, afterNot)
      case NoMatch => NoMatch
      case Abort(e) => Abort(e)
      case Match(operand, rest) =>
        match MakeNot(operand)
        case Err(e) => Abort(e)
        case Ok(tree) => Match(tree, SkipWs(rest))
  }

  /**
   * `ExtensionOperatorInfo` and `ExtensionFunctionInfo`: a name token that is a key of the
   * registry built from the class, and the method it maps to. A name that is not a key fails
   * the alternative; a class with two methods of one key throws while building the registry.
   */
  function ExtensionName(extensionClass: seq<Operation>, s: string): (r: Reply<Operation>)
    ensures NameToken(s).None? ==> r == NoMatch
    ensures NameToken(s).Some? && Registry.Build(extensionClass).None? ==> r == Abort(DuplicateKey)
    ensures NameToken(s).Some? && Registry.Build(extensionClass).Some? ==>
              (r.NoMatch? <==> forall m :: m in extensionClass ==> !EqualsIgnoreCase(Name(m), NameToken(s).value.0))
    ensures r.Match? ==> r.value in extensionClass && EqualsIgnoreCase(Name(r.value), NameToken(s).value.0)
    ensures r.Match? ==> r.rest == NameToken(s).value.1 && |r.rest| < |s|
  {
    match NameToken(s)
    case None => NoMatch
    case Some((name, rest)) =>
      match Registry.Build(extensionClass)
      case None => Abort(DuplicateKey)
      case Some(table) =>
        match Registry.Lookup(table, name)
        case None =>
          forall m | m in extensionClass ensures !EqualsIgnoreCase(Name(m), name) {
            Registry.LookupIgnoresCase(extensionClass, name, m);
          }
          NoMatch
        case Some(f) =>
          Registry.LookupIgnoresCase(extensionClass, name, f);
          Match(f, rest)
  }

  /**
   * `ExtensionOperator`: a component, a registered operator name, a component;
   * `Expression.Call(method, lhs, rhs)`.
   */
  function Infix(g: Grammar, env: Env, fuel: nat, s: string): (r: Reply<Expr>)
    decreases fuel, Level(g), |s|, 3, 0
    ensures r.Match? ==> |r.rest| < |s| && WellTyped(r.value, g.parameter)
    ensures r.Match? ==> r.value.Call? && r.value.f in g.operatorClass && |r.value.args| == 2
  {
    match Component(g, env, fuel, s)
    case NoMatch => NoMatch
    case Abort(e) => Abort(e)
    case Match(lhs, afterLhs) => InfixRest(g, env, fuel, lhs, afterLhs)
  }

  /** The operator name and right-hand component of an `ExtensionOperator`. */
  function InfixRest(g: Grammar, env: Env, fuel: nat, lhs: Expr, s: string): (r: Reply<Expr>)
    decreases fuel, Level(g), |s|, 3, 0
    ensures r.Match? ==> |r.rest| < |s| && r.value.Call? && r.value.f in g.operatorClass
    ensures r.Match? ==> |r.value.args| == 2 && r.value.args[0] == lhs
    ensures r.Match? && WellTyped(lhs, g.parameter) ==> WellTyped(r.value, g.parameter)
    ensures ExtensionName(g.operatorClass, s).NoMatch? ==> r == NoMatch
  {
    match ExtensionName(g.operatorClass, s)
    case NoMatch => NoMatch
    case Abort(e) => Abort(e)
    case Match(f, afterName) =>
      match Component(g, env, fuel, afterName)
      case NoMatch => NoMatch
      case Abort(e) => Abort(e)
      case Match(rhs, rest) => BuildInfix(f, lhs, rhs, g.parameter, rest)
  }

  /** `Expression.Call(method, lhs, rhs)` for an extension operator, left before `rest`. */
  function BuildInfix(f: Operation, lhs: Expr, rhs: Expr, p: Option<Ty>, rest: string): (r: Reply<Expr>)
    ensures r.Match? <==> ArgumentsFit(f, [lhs, rhs])
    ensures r.Match? ==> r.value == Call(f, [lhs, rhs]) && r.rest == rest
    ensures r.Match? && WellTyped(lhs, p) && WellTyped(rhs, p) ==> WellTyped(r.value, p)
    ensures !r.Match? ==> r == Abort(BuildError)
  {
    match MakeCall(f, [lhs, rhs])
    case Err(e) => Abort(e)
    case Ok(tree) =>
      CallWellTyped(f, [lhs, rhs], p);
      Match(tree, rest)
  }

  /** The grammar's component: its alternatives tried in order. */
  function Component(g: Grammar, env: Env, fuel: nat, s: string): (r: Reply<Expr>)
    decreases fuel, Level(g), |s|, 2, |g.components| + 1
    ensures r.Match? ==> |r.rest| < |s| && WellTyped(r.value, g.parameter)
  {
    Alternatives(g, env, fuel, s, 0)
  }

  /** `Or` over the alternatives from index `i` on: the first that does not fail decides. */
  function Alternatives(g: Grammar, env: Env, fuel: nat, s: string, i: nat): (r: Reply<Expr>)
    requires i <= |g.components|
    decreases fuel, Level(g), |s|, 2, |g.components| - i
    ensures r.Match? ==> |r.rest| < |s| && WellTyped(r.value, g.parameter)
  {
    if i == |g.components| then NoMatch
    else
      match Alternative(g, env, fuel, g.components[i], s)
      case NoMatch => Alternatives(g, env, fuel, s, i + 1)
      case Match(e, rest) => Match(e, rest)
      case Abort(e) => Abort(e)
  }

  /** One alternative of a component. */
  function Alternative(g: Grammar, env: Env, fuel: nat, alt: Alt, s: string): (r: Reply<Expr>)
    requires alt in g.components
    decreases fuel, Level(g), |s|, 1, 0
    ensures r.Match? ==> |r.rest| < |s| && WellTyped(r.value, g.parameter)
  {
    match alt
    case AParen => Paren(g, env, fuel, s)
    case AConst => ConstantToken(g.nullableNumbers, s)
    case AFunc => FunctionCall(g, env, fuel, s)
    case AParam => Parameter(g, s)
    case ARef => Reference(g, env, fuel, s)
  }

  /** `Parse.Char('(')`, the binary operation, `Parse.Char(')')`, with no white space skipped. */
  function Paren(g: Grammar, env: Env, fuel: nat, s: string): (r: Reply<Expr>)
    decreases fuel, Level(g), |s|, 0, 1
    ensures r.Match? ==> |r.rest| < |s| && WellTyped(r.value, g.parameter)
    ensures s == [] || s[0] != '(' ==> r == NoMatch
  {
    if s != [] && s[0] == '(' then
      match Chain(g, env, fuel, s[1..])
      case NoMatch => NoMatch
      case Abort(e) => Abort(e)
      case Match(e, rest) => if rest != [] && rest[0] == ')' then Match(e, rest[1..]) else NoMatch
    else NoMatch
  }

  /** `ExtensionFunction`: a registered function name, then the rest of the call. */
  function FunctionCall(g: Grammar, env: Env, fuel: nat, s: string): (r: Reply<Expr>)
    decreases fuel, Level(g), |s|, 0, 1
    ensures r.Match? ==> |r.rest| < |s| && WellTyped(r.value, g.parameter)
    ensures r.Match? ==> r.value.Call? && r.value.f in g.functionClass
  {
    match ExtensionName(g.functionClass, s)
    case NoMatch => NoMatch
    case Abort(e) => Abort(e)
    case Match(f, afterName) => CallRest(g, env, fuel, f, afterName)
  }

  /** `Parameter`: `x`, of the grammar's parameter type; a grammar without one has no `x`. */
  function Parameter(g: Grammar, s: string): (r: Reply<Expr>)
    ensures r.Match? ==> |r.rest| < |s| && WellTyped(r.value, g.parameter)
    ensures r.Match? <==> g.parameter.Some? && ParameterToken(s).Some?
    ensures r.Match? ==> r.value == Param(g.parameter.value) && r.rest == ParameterToken(s).value
    ensures !r.Match? ==> r == NoMatch
  {
    match g.parameter
    case None => NoMatch
    case Some(t) =>
      match ParameterToken(s)
      case None => NoMatch
      case Some(rest) => Match(Param(t), rest)
  }

  /**
   * `TargetReference`: a word, resolved as it is read; a failed resolution aborts the parse
   * (the exception escapes Sprache).
   */
  function Reference(g: Grammar, env: Env, fuel: nat, s: string): (r: Reply<Expr>)
    requires ARef in g.components
    decreases fuel, Level(g), |s|, 0, 1
    ensures r.Match? ==> |r.rest| < |s| && WellTyped(r.value, g.parameter)
    ensures NameToken(s).None? ==> r == NoMatch
  {
    match NameToken(s)
    case None => NoMatch
    case Some((code, rest)) => Resolved(Resolve(g, env, fuel, code), rest)
  }

  /** The reference alternative of a component is `Reference`. */
  lemma ReferenceIsAlternative(g: Grammar, env: Env, fuel: nat, s: string)
    requires ARef in g.components
    ensures Alternative(g, env, fuel, ARef, s) == Reference(g, env, fuel, s)
  {
  }

  /** A word is resolved by its code, and the reply continues after the word. */
  lemma ReferenceResolves(g: Grammar, env: Env, fuel: nat, s: string, code: string, rest: string)
    requires ARef in g.components && NameToken(s) == Some((code, rest))
    ensures Reference(g, env, fuel, s) == Resolved(Resolve(g, env, fuel, code), rest)
  {
  }

  /** The reply a reference gives once resolved: the tree, or the failure as an abort. */
  function Resolved(res: Result<Expr, Error>, rest: string): (r: Reply<Expr>)
    ensures r.Match? <==> res.Ok?
    ensures r.Match? ==> r.value == res.value && r.rest == rest
    ensures res.Err? ==> r == Abort(res.error)
  {
    match res
    case Err(e) => Abort(e)
    case Ok(tree) => Match(tree, rest)
  }

  /**
   * The rest of an `ExtensionFunction` after its name: `Parse.Char('(')` (no whitespace before
   * it), the arguments, `Parse.Char(')').Token()`, and `Expression.Call(method, arguments)`.
   */
  function CallRest(g: Grammar, env: Env, fuel: nat, f: Operation, s: string): (r: Reply<Expr>)
    decreases fuel, Level(g), |s|, 3, 0
    ensures r.Match? ==> |r.rest| < |s| && WellTyped(r.value, g.parameter) && r.value.Call? && r.value.f == f
    ensures s == [] || s[0] != '(' ==> r == NoMatch
  {
    if s != [] && s[0] == '(' then
      match Arguments(g, env, fuel, s[1..])
      case Err(e) => Abort(e)
      case Ok((args, afterArgs)) =>
        match CharToken(')', afterArgs)
        case None => NoMatch
        case Some(rest) =>
          match MakeCall(f, args)
          case Err(e) => Abort(e)
          case Ok(tree) =>
            CallWellTyped(f, args, g.parameter);
            Match(tree, rest)
    else NoMatch
  }

  /**
   * `DelimitedBy(component, Char(',').Token()).Optional()`: the arguments of a call, which
   * may be none. A comma that is not followed by a component is left unconsumed.
   */
  function Arguments(g: Grammar, env: Env, fuel: nat, s: string): (r: Result<(seq<Expr>, string), Error>)
    decreases fuel, Level(g), |s|, 3, 0
    ensures r.Ok? ==> |r.value.1| <= |s| && AllWellTyped(r.value.0, g.parameter)
  {
    match Component(g, env, fuel, s)
    case NoMatch => Ok(([], s))
    case Abort(e) => Err(e)
    case Match(first, rest) => MoreArguments(g, env, fuel, [first], rest)
  }

  /** The `, component` pairs after the first argument, appended to `acc` in the order read. */
  function MoreArguments(g: Grammar, env: Env, fuel: nat, acc: seq<Expr>, s: string): (r: Result<(seq<Expr>, string), Error>)
    decreases fuel, Level(g), |s|, 3, 0
    ensures r.Ok? ==> |r.value.1| <= |s| && acc <= r.value.0
    ensures r.Ok? && AllWellTyped(acc, g.parameter) ==> AllWellTyped(r.value.0, g.parameter)
    ensures CharToken(',', s).None? ==> r == Ok((acc, s))
  {
    match CharToken(',', s)
    case None => Ok((acc, s))
    case Some(afterComma) =>
      match Component(g, env, fuel, afterComma)
      case NoMatch => Ok((acc, s))
      case Abort(e) => Err(e)
      case Match(next, rest) =>
        var r := MoreArguments(g, env, fuel, acc + [next], rest);
        ArgumentAppended(acc, next, g.parameter, if r.Ok? then r.value.0 else acc + [next]);
        r
  }

  /** Appending one argument keeps the arguments read so far as a prefix and keeps them typed. */
  lemma ArgumentAppended(acc: seq<Expr>, next: Expr, p: Option<Ty>, all: seq<Expr>)
    ensures acc + [next] <= all ==> acc <= all
    ensures AllWellTyped(acc, p) && WellTyped(next, p) ==> AllWellTyped(acc + [next], p)
  {
    if acc + [next] <= all {
      assert all[..|acc|] == (acc + [next])[..|acc|] == acc;
    }
  }

  /**
   * `BuildEvaluationForTargetReference`: the first criterion whose code equals `code`
   * ignoring case decides what the reference becomes.
   */
  function Resolve(g: Grammar, env: Env, fuel: nat, code: string): (r: Result<Expr, Error>)
    decreases fuel, 1, 0, 0, 0
    ensures r.Ok? ==> WellTyped(r.value, g.parameter)
  {
    match FindCriterion(env.criteria, code)
    case None => Err(TargetExpressionError(code, UnresolvedReference))
    case Some(Tag(_)) => Ok(HasTag(code))
    case Some(Segment(_, text)) =>
      if fuel == 0 then Err(RecursionLimit(code))
      else
        (match Chain(g, env, fuel - 1, text)
         case NoMatch => Err(SyntaxError)
         case Abort(e) => Err(e)
         case Match(tree, _) => Ok(tree))
    case Some(Rule(ruleCode, target, clrType, criterion)) => BuildRule(env, fuel, ruleCode, target, clrType, criterion)
    case Some(Other(_)) => Err(TargetExpressionError(code, UnsupportedCriterionType))
  }

  /**
   * `BuildRuleExpression`: `TypeAs` of the rule target to the rule's type (which must accept
   * null), the rule parser registered for that type, its lambda over the rule text (parsed by
   * that parser alone), and an invocation of that lambda on the value.
   */
  function BuildRule(env: Env, fuel: nat, ruleCode: string, target: string, clrType: ClrType, criterion: string): (r: Result<Expr, Error>)
    decreases fuel, 0, |criterion| + 1, 0, 0
    ensures r.Ok? ==> r.value.Invoke? && r.value.target == target && WellTyped(r.value, None)
  {
    if !AcceptsNull(clrType) then Err(BuildError)
    else
      match ExprType(clrType)
      case None => Err(TargetExpressionError(ruleCode, UnsupportedRuleType))
      case Some(t) =>
        if t !in env.ruleParsers then Err(TargetExpressionError(ruleCode, UnsupportedRuleType))
        else
          var ruleGrammar := env.ruleParsers[t];
          match Lambda(ruleGrammar, NoEnv, 0, criterion)
          case Err(e) => Err(e)
          case Ok(body) =>
            if ruleGrammar.parameter == Some(t) then Ok(Invoke(body, t, target)) else Err(BuildError)
  }

  /**
   * `Lambda`: the binary operation must consume the whole input (`End()`), and
   * `Expression.Lambda<Func<..., bool>>` requires a `bool` body.
   */
  function Lambda(g: Grammar, env: Env, fuel: nat, s: string): (r: Result<Expr, Error>)
    decreases fuel, Level(g), |s|, 6, 0
    ensures r.Ok? ==> TypeOf(r.value) == TBool && WellTyped(r.value, g.parameter)
  {
    match Chain(g, env, fuel, s)
    case NoMatch => Err(SyntaxError)
    case Abort(e) => Err(e)
    case Match(body, rest) =>
      if rest != [] then Err(SyntaxError)
      else if TypeOf(body) != TBool then Err(BuildError)
      else Ok(body)
  }
}
