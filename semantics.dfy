/**
 * What a compiled expression computes when the delegate is invoked: the meaning of each tree
 * node, with the evaluator (`HasTag`, `GetRuleTarget`), the clock and the regular-expression
 * engine supplied by a context. The grammars only build trees; this module gives the trees
 * their meaning so that properties of parsed expressions can be stated about their values.
 */
module Semantics {
  import opened Common
  import opened Values
  import opened Ast
  import StringOps
  import DateTimeOps
  import EventOps

  /**
   * The world an expression is evaluated in: the `ITargetEvaluator` passed to the delegate,
   * the two clock readings (`DateTime.UtcNow`, `DateTime.Now`) and the matcher behind
   * `Regex.IsMatch(source)` for a pattern.
   */
  datatype Context = Context(
    hasTag: string -> bool,
    ruleTarget: string -> Value,
    utcNow: Date,
    localNow: Date,
    isMatch: (string, string) -> bool)

  /**
   * `Expression.Equal` on two values of one type: lifted for nullable operands (two nulls are
   * equal, a null and a value are not), IEEE equality on doubles, ordinal equality on strings,
   * tick equality on dates. None for operands it is not defined on.
   */
  function Equal(a: Value, b: Value): (r: Option<bool>)
    ensures forall t :: t != TEvents && HasType(a, t) && HasType(b, t) ==> r.Some?
    ensures r == Some(true) ==> (a == VNull <==> b == VNull)
  {
    match (a, b)
    case (VEvents(_), _) => None
    case (_, VEvents(_)) => None
    case (VNull, _) => Some(b == VNull)
    case (_, VNull) => Some(false)
    case (VBool(x), VBool(y)) => Some(x == y)
    case (VNum(x), VNum(y)) => Some(NumEq(x, y))
    case (VStr(x), VStr(y)) => Some(x == y)
    case (VDate(x), VDate(y)) => Some(x.instant == y.instant)
    case _ => None
  }

  /**
   * `Expression.LessThan` (or `LessThanOrEqual` when `orEqual`): lifted, so false whenever an
   * operand is null; IEEE order on doubles; tick order on dates.
   */
  function Less(a: Value, b: Value, orEqual: bool): (r: Option<bool>)
    ensures forall t :: (t == TDouble || t == TNullDouble || t == TNullDate) && HasType(a, t) && HasType(b, t) ==> r.Some?
    ensures (a.VNull? || b.VNull?) && r.Some? ==> !r.value
  {
    match (a, b)
    case (VNum(x), VNum(y)) => Some(if orEqual then NumLe(x, y) else NumLt(x, y))
    case (VDate(x), VDate(y)) => Some(if orEqual then x.instant <= y.instant else x.instant < y.instant)
    case (VNull, VNull) => Some(false)
    case (VNull, VNum(_)) => Some(false)
    case (VNum(_), VNull) => Some(false)
    case (VNull, VDate(_)) => Some(false)
    case (VDate(_), VNull) => Some(false)
    case _ => None
  }

  function Truth(answer: Option<bool>): Result<Value, Fault> {
    if answer.Some? then Ok(VBool(answer.value)) else Err(IllTyped)
  }

  /** A comparison node applied to its two operand values. */
  function Compare(op: BinOp, a: Value, b: Value): (r: Result<Value, Fault>)
    requires op != And && op != Or
  {
    match op
    case Eq => Truth(Equal(a, b))
    case Ne => (var eq := Equal(a, b); Truth(if eq.Some? then Some(!eq.value) else None))
    case Lt => Truth(Less(a, b, false))
    case Le => Truth(Less(a, b, true))
    case Gt => Truth(Less(b, a, false))
    case Ge => Truth(Less(b, a, true))
  }

  /** The values have the declared parameter types, one for one. */
  predicate ValuesFit(vals: seq<Value>, types: seq<Ty>) {
    |vals| == |types| && forall i :: 0 <= i < |vals| ==> HasType(vals[i], types[i])
  }

  function StrArg(v: Value): Option<string>
    requires HasType(v, TString)
  {
    if v.VStr? then Some(v.s) else None
  }

  function DateArg(v: Value): Option<Date>
    requires HasType(v, TNullDate)
  {
    if v.VDate? then Some(v.d) else None
  }

  function NumArg(v: Value): Option<Num>
    requires HasType(v, TNullDouble)
  {
    if v.VNum? then Some(v.n) else None
  }

  function EventsArg(v: Value): Option<seq<ConsumerEvent>>
    requires HasType(v, TEvents)
  {
    if v.VEvents? then Some(v.events) else None
  }

  /**
   * An instance method of `string` called on `source` with `arg`: a null receiver throws
   * `NullReferenceException`, a null argument `ArgumentNullException`.
   */
  function StringTest(source: Option<string>, arg: Option<string>, test: (string, string) -> bool): (r: Result<Value, Fault>)
    ensures source.None? ==> r == Err(NullReferenceException)
    ensures source.Some? && arg.None? ==> r == Err(ArgumentNullException)
    ensures r.Ok? ==> r.value == VBool(test(source.value, arg.value))
  {
    if source.None? then Err(NullReferenceException)
    else if arg.None? then Err(ArgumentNullException)
    else Ok(VBool(test(source.value, arg.value)))
  }

  function NumResult(r: Result<Num, Fault>): Result<Value, Fault> {
    if r.Ok? then Ok(VNum(r.value)) else Err(r.error)
  }

  /**
   * `Expression.Call(method, args)` invoked on argument values: the static method of the
   * operator or function class, with the context's clock and matcher.
   */
  function Apply(f: Operation, vals: seq<Value>, ctx: Context): (r: Result<Value, Fault>)
    ensures r == Err(IllTyped) <==> !ValuesFit(vals, Params(f))
    ensures r.Ok? ==> HasType(r.value, Returns(f))
  {
    if !ValuesFit(vals, Params(f)) then Err(IllTyped)
    else
      match f
      case Contains => StringTest(StrArg(vals[0]), StrArg(vals[1]), StringOps.Contains)
      case StartsWith => StringTest(StrArg(vals[0]), StrArg(vals[1]), StringOps.StartsWith)
      case EndsWith => StringTest(StrArg(vals[0]), StrArg(vals[1]), StringOps.EndsWith)
      case RegexMatches =>
        var m := StringOps.RegexMatches(StrArg(vals[0]), StrArg(vals[1]), ctx.isMatch);
        if m.Some? then Ok(VBool(m.value)) else Err(ArgumentNullException)
      case MonthOf =>
        var name := DateTimeOps.MonthOf(DateArg(vals[0]));
        if name.Some? then Ok(VStr(name.value)) else Err(ArgumentException)
      case Now => Ok(VDate(ctx.utcNow))
      case DayRangeFromDate =>
        Ok(VNum(DateTimeOps.DayRangeFromDate(DateArg(vals[0]), vals[1].b, ctx.localNow)))
      case EventsInDayRange =>
        NumResult(EventOps.EventsInDayRange(EventsArg(vals[0]), NumArg(vals[1]), ctx.utcNow))
      case DaysSinceLastEvent =>
        NumResult(EventOps.DaysSinceLastEvent(EventsArg(vals[0]), ctx.localNow))
      case SumOfValueInDays =>
        NumResult(EventOps.SumOfValueInDays(EventsArg(vals[0]), NumArg(vals[1]), ctx.utcNow))
      case EventsExceedingValue =>
        NumResult(EventOps.EventsExceedingValue(EventsArg(vals[0]), NumArg(vals[1])))
      case EventsLessThanValue =>
        NumResult(EventOps.EventsLessThanValue(EventsArg(vals[0]), NumArg(vals[1])))
      case ForMarket =>
        var r := EventOps.ForMarket(EventsArg(vals[0]), StrArg(vals[1]));
        if r.Ok? then Ok(VEvents(r.value)) else Err(r.error)
  }

  /**
   * The value of `e` with `x` bound to the lambda parameter. `AndAlso` and `OrElse` do not
   * evaluate their right operand once the left one decides; every other node evaluates its
   * operands left to right and stops at the first exception.
   */
  function Eval(e: Expr, x: Value, ctx: Context): (r: Result<Value, Fault>)
    decreases e
  {
    match e
    case Const(v, _) => Ok(v)
    case Param(_) => Ok(x)
    case Binary(op, l, r) =>
      (match Eval(l, x, ctx)
       case Err(fault) => Err(fault)
       case Ok(a) =>
         if op == And || op == Or then
           if !a.VBool? then Err(IllTyped)
           else if a.b == (op == Or) then Ok(a)
           else
             (match Eval(r, x, ctx)
              case Err(fault) => Err(fault)
              case Ok(b) => if b.VBool? then Ok(b) else Err(IllTyped))
         else
           (match Eval(r, x, ctx)
            case Err(fault) => Err(fault)
            case Ok(b) => Compare(op, a, b)))
    case Not(y) =>
      (match Eval(y, x, ctx)
       case Err(fault) => Err(fault)
       case Ok(a) => if a.VBool? then Ok(VBool(!a.b)) else Err(IllTyped))
    case Call(f, args) =>
      (match EvalArgs(args, x, ctx)
       case Err(fault) => Err(fault)
       case Ok(vals) => Apply(f, vals, ctx))
    case HasTag(code) => Ok(VBool(ctx.hasTag(code)))
    case Invoke(body, t, target) =>
      if !Nullable(t) then Err(IllTyped)
      else
        (match Eval(body, TypeAs(ctx.ruleTarget(target), t), ctx)
         case Err(fault) => Err(fault)
         case Ok(b) => if b.VBool? then Ok(b) else Err(IllTyped))
  }

  /** The arguments of a call, left to right, stopping at the first exception. */
  function EvalArgs(args: seq<Expr>, x: Value, ctx: Context): (r: Result<seq<Value>, Fault>)
    ensures r.Ok? ==> |r.value| == |args|
    decreases args
  {
    if args == [] then Ok([])
    else
      match Eval(args[0], x, ctx)
      case Err(fault) => Err(fault)
      case Ok(v) =>
        match EvalArgs(args[1..], x, ctx)
        case Err(fault) => Err(fault)
        case Ok(vs) => Ok([v] + vs)
  }

  /**
   * Type soundness: a tree the factories accept, evaluated with a parameter value of the
   * declared type, never meets an operand of the wrong kind, and its value has the node's type.
   */
  lemma {:induction false} EvalSound(e: Expr, p: Option<Ty>, x: Value, ctx: Context)
    requires WellTyped(e, p)
    requires p.Some? ==> HasType(x, p.value)
    ensures Eval(e, x, ctx) != Err(IllTyped)
    ensures Eval(e, x, ctx).Ok? ==> HasType(Eval(e, x, ctx).value, TypeOf(e))
    decreases e
  {
    match e
    case Const(_, _) =>
    case Param(_) =>
    case Binary(op, l, r) =>
      EvalSound(l, p, x, ctx);
      EvalSound(r, p, x, ctx);
      BinarySound(op, l, r, x, ctx);
    case Not(y) =>
      EvalSound(y, p, x, ctx);
    case Call(f, args) =>
      EvalArgsSound(args, Params(f), p, x, ctx);
    case HasTag(_) =>
    case Invoke(body, t, target) =>
      EvalSound(body, Some(t), TypeAs(ctx.ruleTarget(target), t), ctx);
  }

  /** One binary node whose operands evaluate to values of their types. */
  lemma BinarySound(op: BinOp, l: Expr, r: Expr, x: Value, ctx: Context)
    requires BinaryDefined(op, TypeOf(l), TypeOf(r))
    requires Eval(l, x, ctx) != Err(IllTyped) && Eval(r, x, ctx) != Err(IllTyped)
    requires Eval(l, x, ctx).Ok? ==> HasType(Eval(l, x, ctx).value, TypeOf(l))
    requires Eval(r, x, ctx).Ok? ==> HasType(Eval(r, x, ctx).value, TypeOf(r))
    ensures Eval(Binary(op, l, r), x, ctx) != Err(IllTyped)
    ensures Eval(Binary(op, l, r), x, ctx).Ok? ==> Eval(Binary(op, l, r), x, ctx).value.VBool?
  {
    if op != And && op != Or && Eval(l, x, ctx).Ok? && Eval(r, x, ctx).Ok? {
      CompareSound(op, Eval(l, x, ctx).value, Eval(r, x, ctx).value, TypeOf(l), TypeOf(r));
    }
  }

  /** A comparison the factories accept yields a truth value on operands of its types. */
  lemma CompareSound(op: BinOp, a: Value, b: Value, lt: Ty, rt: Ty)
    requires op != And && op != Or
    requires BinaryDefined(op, lt, rt) && HasType(a, lt) && HasType(b, rt)
    ensures Compare(op, a, b).Ok? && Compare(op, a, b).value.VBool?
  {
  }

  lemma {:induction false} EvalArgsSound(args: seq<Expr>, types: seq<Ty>, p: Option<Ty>, x: Value, ctx: Context)
    requires |args| == |types|
    requires forall i :: 0 <= i < |args| ==> WellTyped(args[i], p) && TypeOf(args[i]) == types[i]
    requires p.Some? ==> HasType(x, p.value)
    ensures EvalArgs(args, x, ctx) != Err(IllTyped)
    ensures EvalArgs(args, x, ctx).Ok? ==> ValuesFit(EvalArgs(args, x, ctx).value, types)
    decreases args
  {
    if args != [] {
      EvalSound(args[0], p, x, ctx);
      EvalArgsSound(args[1..], types[1..], p, x, ctx);
    }
  }

  /** `AndAlso` and `OrElse` with a deciding left operand ignore the right one, even a throwing one. */
  lemma ShortCircuit(l: Expr, r: Expr, r': Expr, x: Value, ctx: Context)
    requires Eval(l, x, ctx) == Ok(VBool(false)) || Eval(l, x, ctx) == Ok(VBool(true))
    ensures Eval(l, x, ctx) == Ok(VBool(false)) ==> Eval(Binary(And, l, r), x, ctx) == Eval(Binary(And, l, r'), x, ctx) == Ok(VBool(false))
    ensures Eval(l, x, ctx) == Ok(VBool(true)) ==> Eval(Binary(Or, l, r), x, ctx) == Eval(Binary(Or, l, r'), x, ctx) == Ok(VBool(true))
  {
  }

  /**
   * On well-typed operands `!=` is the negation of `==`, and `>`/`>=` are `<`/`<=` with the
   * operands swapped, whenever both operands evaluate.
   */
  lemma ComparisonDuality(l: Expr, r: Expr, p: Option<Ty>, x: Value, ctx: Context)
    requires WellTyped(Binary(Eq, l, r), p)
    requires p.Some? ==> HasType(x, p.value)
    requires Eval(l, x, ctx).Ok? && Eval(r, x, ctx).Ok?
    ensures Eval(Binary(Eq, l, r), x, ctx).Ok? && Eval(Binary(Ne, l, r), x, ctx).Ok?
    ensures Eval(Binary(Ne, l, r), x, ctx).value.b == !Eval(Binary(Eq, l, r), x, ctx).value.b
  {
    EvalSound(Binary(Eq, l, r), p, x, ctx);
    EvalSound(Binary(Ne, l, r), p, x, ctx);
  }

  /** A null operand makes every ordering false, so `<` and `>=` can both be false. */
  lemma NullOrdersNothing(l: Expr, r: Expr, x: Value, ctx: Context)
    requires Eval(l, x, ctx) == Ok(VNull)
    requires Eval(r, x, ctx).Ok? && (Eval(r, x, ctx).value.VNum? || Eval(r, x, ctx).value.VNull?)
    ensures Eval(Binary(Lt, l, r), x, ctx) == Ok(VBool(false))
    ensures Eval(Binary(Ge, l, r), x, ctx) == Ok(VBool(false))
    ensures Eval(Binary(Gt, l, r), x, ctx) == Ok(VBool(false))
    ensures Eval(Binary(Le, l, r), x, ctx) == Ok(VBool(false))
  {
    NullOrders(Lt, l, r, x, ctx);
    NullOrders(Ge, l, r, x, ctx);
    NullOrders(Gt, l, r, x, ctx);
    NullOrders(Le, l, r, x, ctx);
  }

  lemma NullOrders(op: BinOp, l: Expr, r: Expr, x: Value, ctx: Context)
    requires op == Lt || op == Ge || op == Gt || op == Le
    requires Eval(l, x, ctx) == Ok(VNull)
    requires Eval(r, x, ctx).Ok? && (Eval(r, x, ctx).value.VNum? || Eval(r, x, ctx).value.VNull?)
    ensures Eval(Binary(op, l, r), x, ctx) == Ok(VBool(false))
  {
  }
}
