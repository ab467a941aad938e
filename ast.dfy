/**
 * The expression trees the grammars build (`System.Linq.Expressions` in the source), with
 * the type rules the tree factories (`Expression.MakeBinary`, `Expression.Not`,
 * `Expression.Call`, `Expression.Lambda<Func<..., bool>>`) enforce when a node is built,
 * and the errors a parse can end with.
 */
module Ast {
  import opened Common
  import opened Values

  /** The binary node kinds: `AndAlso`, `OrElse`, `Equal`, `NotEqual`, and the four orderings. */
  datatype BinOp = And | Or | Eq | Ne | Le | Lt | Ge | Gt

  /** Every public static method of the operator and function classes of the rule grammars. */
  datatype Operation =
    // StringRuleExpressionGrammar.StringOperations
    | Contains | StartsWith | EndsWith | RegexMatches
    // DateTimeRuleExpressionGrammar.DateTimeFunctions
    | MonthOf | Now | DayRangeFromDate
    // ConsumerEventExpressionGrammar.ConsumerEventFunctions
    | EventsInDayRange | DaysSinceLastEvent | SumOfValueInDays
    | EventsExceedingValue | EventsLessThanValue | ForMarket

  /** The method name, which is also the registry key. */
  function Name(f: Operation): string {
    match f
    case Contains => "Contains"
    case StartsWith => "StartsWith"
    case EndsWith => "EndsWith"
    case RegexMatches => "RegexMatches"
    case MonthOf => "MonthOf"
    case Now => "Now"
    case DayRangeFromDate => "DayRangeFromDate"
    case EventsInDayRange => "EventsInDayRange"
    case DaysSinceLastEvent => "DaysSinceLastEvent"
    case SumOfValueInDays => "SumOfValueInDays"
    case EventsExceedingValue => "EventsExceedingValue"
    case EventsLessThanValue => "EventsLessThanValue"
    case ForMarket => "ForMarket"
  }

  /** The declared parameter types of the method. */
  function Params(f: Operation): seq<Ty> {
    match f
    case Contains => [TString, TString]
    case StartsWith => [TString, TString]
    case EndsWith => [TString, TString]
    case RegexMatches => [TString, TString]
    case MonthOf => [TNullDate]
    case Now => []
    case DayRangeFromDate => [TNullDate, TBool]
    case EventsInDayRange => [TEvents, TNullDouble]
    case DaysSinceLastEvent => [TEvents]
    case SumOfValueInDays => [TEvents, TNullDouble]
    case EventsExceedingValue => [TEvents, TNullDouble]
    case EventsLessThanValue => [TEvents, TNullDouble]
    case ForMarket => [TEvents, TString]
  }

  /** The declared return type of the method. */
  function Returns(f: Operation): Ty {
    match f
    case Contains => TBool
    case StartsWith => TBool
    case EndsWith => TBool
    case RegexMatches => TBool
    case MonthOf => TString
    case Now => TNullDate
    case DayRangeFromDate => TNullDouble
    case ForMarket => TEvents
    case _ => TNullDouble
  }

  datatype Expr =
    | Const(v: Value, ty: Ty)
    | Param(ty: Ty)
    | Binary(op: BinOp, left: Expr, right: Expr)
    | Not(operand: Expr)
    | Call(f: Operation, args: seq<Expr>)
    /** `evaluator.HasTag(code)` */
    | HasTag(code: string)
    /** `Invoke(ruleLambda, TypeAs(evaluator.GetRuleTarget(target), paramTy))` */
    | Invoke(body: Expr, paramTy: Ty, target: string)

  /** The `Type` of a node. */
  function TypeOf(e: Expr): Ty {
    match e
    case Const(_, t) => t
    case Param(t) => t
    case Call(f, _) => Returns(f)
    case _ => TBool
  }

  /**
   * Whether `Expression.MakeBinary` accepts operands of these types: the logical operators
   * need `bool`; equality needs two operands of one type (strings through their equality
   * operator, nullable operands lifted); the orderings need two operands of one numeric or
   * date type.
   */
  predicate BinaryDefined(op: BinOp, lt: Ty, rt: Ty) {
    match op
    case And => lt == TBool && rt == TBool
    case Or => lt == TBool && rt == TBool
    case Eq => lt == rt && lt != TEvents
    case Ne => lt == rt && lt != TEvents
    case _ => lt == rt && (lt == TDouble || lt == TNullDouble || lt == TNullDate)
  }

  /**
   * The tree is one the factories accept, with `p` the type of the lambda parameter in
   * scope (None outside a parametrized lambda).
   */
  predicate WellTyped(e: Expr, p: Option<Ty>) {
    match e
    case Const(v, t) => HasType(v, t)
    case Param(t) => p == Some(t)
    case Binary(op, l, r) => WellTyped(l, p) && WellTyped(r, p) && BinaryDefined(op, TypeOf(l), TypeOf(r))
    case Not(x) => WellTyped(x, p) && TypeOf(x) == TBool
    case Call(f, args) =>
      |args| == |Params(f)| &&
      forall i :: 0 <= i < |args| ==> WellTyped(args[i], p) && TypeOf(args[i]) == Params(f)[i]
    case HasTag(_) => true
    case Invoke(body, t, _) => Nullable(t) && WellTyped(body, Some(t)) && TypeOf(body) == TBool
  }

  datatype Reason = UnresolvedReference | UnsupportedCriterionType | UnsupportedRuleType

  /** How building an expression ends when it does not produce one. */
  datatype Error =
    /** Sprache's `ParseException`: no alternative matched, or input was left over. */
    | SyntaxError
    /** `TargetExpressionException`, carrying the reference code. */
    | TargetExpressionError(referenceCode: string, reason: Reason)
    /** An expression-tree factory rejected its operand types. */
    | BuildError
    /** `double.Parse` rejected the text the numeric pattern matched. */
    | FormatError(text: string)
    /** Segment resolution went deeper than the model's bound (the source overflows its stack). */
    | RecursionLimit(referenceCode: string)
    /** `ArgumentNullException` from a constructor given a null argument. */
    | ArgumentNull(parameter: string)
    /** `ToDictionary` met two items with the same key. */
    | DuplicateKey
    /** `int.Parse` met digits whose value does not fit in 32 bits (`OverflowException`). */
    | Overflow(text: string)

  /**
   * What a parser returns: a value and the input left after it; a failure, after which an
   * ordered choice tries its next alternative; or an exception raised while building the
   * value, which no alternative catches.
   */
  datatype Reply<+T> = Match(value: T, rest: string) | NoMatch | Abort(error: Error)

  /** `Expression.MakeBinary(op, l, r)`. */
  function MakeBinary(op: BinOp, l: Expr, r: Expr): (res: Result<Expr, Error>)
    ensures res.Ok? <==> BinaryDefined(op, TypeOf(l), TypeOf(r))
    ensures res.Ok? ==> res.value == Binary(op, l, r)
    ensures res.Err? ==> res.error == BuildError
  {
    if BinaryDefined(op, TypeOf(l), TypeOf(r)) then Ok(Binary(op, l, r)) else Err(BuildError)
  }

  /** `Expression.Not(e)`, which is logical negation on `bool`. */
  function MakeNot(e: Expr): (res: Result<Expr, Error>)
    ensures res.Ok? <==> TypeOf(e) == TBool
    ensures res.Ok? ==> res.value == Not(e)
    ensures res.Err? ==> res.error == BuildError
  {
    if TypeOf(e) == TBool then Ok(Not(e)) else Err(BuildError)
  }

  /** `Expression.Call(method, args)`: one argument per parameter, each of the parameter's type. */
  predicate ArgumentsFit(f: Operation, args: seq<Expr>) {
    |args| == |Params(f)| && forall i :: 0 <= i < |args| ==> TypeOf(args[i]) == Params(f)[i]
  }

  function MakeCall(f: Operation, args: seq<Expr>): (res: Result<Expr, Error>)
    ensures res.Ok? <==> ArgumentsFit(f, args)
    ensures res.Ok? ==> res.value == Call(f, args)
    ensures res.Err? ==> res.error == BuildError
  {
    if ArgumentsFit(f, args) then Ok(Call(f, args)) else Err(BuildError)
  }
}
