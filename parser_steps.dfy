/**
 * One step of each parser at a time: what an extension operator, an extension function call,
 * its argument list, the parameter alternative and `End` read and build, stated about the
 * parsers of the Parsing module from outside them.
 */
module ParserSteps {
  import opened Common
  import opened Text
  import opened Values
  import opened Ast
  import opened Lexer
  import opened Parsing
  import opened Criteria

  // ---------------------------------------------------------------- extension operators

  /**
   * `a op b` reads the left component, the operator's name and the right component, and
   * builds the call of the operator's method on the two components in the order written.
   * Otherwise it fails as the first step that fails.
   */
  lemma InfixReads(g: Grammar, env: Env, fuel: nat, s: string)
    ensures Component(g, env, fuel, s).NoMatch? ==> Infix(g, env, fuel, s) == NoMatch
    ensures Infix(g, env, fuel, s).Match? <==>
              var c := Component(g, env, fuel, s);
              c.Match? &&
              var n := ExtensionName(g.operatorClass, c.rest);
              n.Match? &&
              var d := Component(g, env, fuel, n.rest);
              d.Match? && ArgumentsFit(n.value, [c.value, d.value])
    ensures Infix(g, env, fuel, s).Match? ==>
              var c := Component(g, env, fuel, s);
              var n := ExtensionName(g.operatorClass, c.rest);
              var d := Component(g, env, fuel, n.rest);
              Infix(g, env, fuel, s) == Match(Call(n.value, [c.value, d.value]), d.rest)
  {
    InfixStep(g, env, fuel, s);
    var c := Component(g, env, fuel, s);
    if c.Match? {
      InfixRestReads(g, env, fuel, c.value, c.rest);
    }
  }

  lemma InfixStep(g: Grammar, env: Env, fuel: nat, s: string)
    ensures Component(g, env, fuel, s).NoMatch? ==> Infix(g, env, fuel, s) == NoMatch
    ensures Component(g, env, fuel, s).Abort? ==> Infix(g, env, fuel, s) == Abort(Component(g, env, fuel, s).error)
    ensures Component(g, env, fuel, s).Match? ==>
              Infix(g, env, fuel, s) == InfixRest(g, env, fuel, Component(g, env, fuel, s).value, Component(g, env, fuel, s).rest)
  {
  }

  /** After the left component: the operator's name and the right component make the call. */
  lemma InfixRestReads(g: Grammar, env: Env, fuel: nat, lhs: Expr, s: string)
    ensures InfixRest(g, env, fuel, lhs, s).Match? <==>
              var n := ExtensionName(g.operatorClass, s);
              n.Match? &&
              var d := Component(g, env, fuel, n.rest);
              d.Match? && ArgumentsFit(n.value, [lhs, d.value])
    ensures InfixRest(g, env, fuel, lhs, s).Match? ==>
              var n := ExtensionName(g.operatorClass, s);
              var d := Component(g, env, fuel, n.rest);
              InfixRest(g, env, fuel, lhs, s) == Match(Call(n.value, [lhs, d.value]), d.rest)
  {
  }

  /** The same step forwards: the three parts, read in turn, make the call. */
  lemma InfixParses(g: Grammar, env: Env, fuel: nat, s: string, lhs: Expr, afterLhs: string, f: Operation,
                    afterName: string, rhs: Expr, rest: string)
    requires Component(g, env, fuel, s) == Match(lhs, afterLhs)
    requires ExtensionName(g.operatorClass, afterLhs) == Match(f, afterName)
    requires Component(g, env, fuel, afterName) == Match(rhs, rest)
    requires ArgumentsFit(f, [lhs, rhs])
    ensures Infix(g, env, fuel, s) == Match(Call(f, [lhs, rhs]), rest)
  {
    InfixReads(g, env, fuel, s);
  }

  // ---------------------------------------------------------------- extension functions

  /**
   * A function component (`Alternative` on `AFunc`) is a registered name followed by the rest
   * of a call; an unregistered name is no function component.
   */
  lemma FunctionCallReads(g: Grammar, env: Env, fuel: nat, s: string)
    ensures ExtensionName(g.functionClass, s).NoMatch? ==> FunctionCall(g, env, fuel, s) == NoMatch
    ensures ExtensionName(g.functionClass, s).Abort? ==> FunctionCall(g, env, fuel, s) == Abort(ExtensionName(g.functionClass, s).error)
    ensures ExtensionName(g.functionClass, s).Match? ==>
              FunctionCall(g, env, fuel, s)
              == CallRest(g, env, fuel, ExtensionName(g.functionClass, s).value, ExtensionName(g.functionClass, s).rest)
  {
  }

  /**
   * After the name, `(`, the argument list and `)` make the call of the method on the
   * arguments in the order read, provided they fit its parameters.
   */
  lemma CallReads(g: Grammar, env: Env, fuel: nat, f: Operation, s: string)
    ensures CallRest(g, env, fuel, f, s).Match? <==>
              s != [] && s[0] == '(' &&
              var a := Arguments(g, env, fuel, s[1..]);
              a.Ok? && CharToken(')', a.value.1).Some? && ArgumentsFit(f, a.value.0)
    ensures CallRest(g, env, fuel, f, s).Match? ==>
              var a := Arguments(g, env, fuel, s[1..]);
              CallRest(g, env, fuel, f, s) == Match(Call(f, a.value.0), CharToken(')', a.value.1).value)
  {
  }

  /** The argument list starts with a component, or is empty when none is there. */
  lemma ArgumentsStart(g: Grammar, env: Env, fuel: nat, s: string)
    ensures Component(g, env, fuel, s).NoMatch? ==> Arguments(g, env, fuel, s) == Ok(([], s))
    ensures Component(g, env, fuel, s).Abort? ==> Arguments(g, env, fuel, s) == Err(Component(g, env, fuel, s).error)
    ensures Component(g, env, fuel, s).Match? ==>
              Arguments(g, env, fuel, s)
              == MoreArguments(g, env, fuel, [Component(g, env, fuel, s).value], Component(g, env, fuel, s).rest)
  {
  }

  /** One `, component` pair appends its component; anything else ends the list. */
  lemma MoreArgumentsStep(g: Grammar, env: Env, fuel: nat, acc: seq<Expr>, s: string)
    ensures CharToken(',', s).None? ==> MoreArguments(g, env, fuel, acc, s) == Ok((acc, s))
    ensures CharToken(',', s).Some? ==>
              var c := Component(g, env, fuel, CharToken(',', s).value);
              (c.NoMatch? ==> MoreArguments(g, env, fuel, acc, s) == Ok((acc, s))) &&
              (c.Abort? ==> MoreArguments(g, env, fuel, acc, s) == Err(c.error)) &&
              (c.Match? ==> MoreArguments(g, env, fuel, acc, s) == MoreArguments(g, env, fuel, acc + [c.value], c.rest))
  {
  }

  /** A comma before `from`, then the component `e`, which ends where `to` starts. */
  predicate ArgumentStep(g: Grammar, env: Env, fuel: nat, from: string, e: Expr, to: string) {
    CharToken(',', from).Some? && Component(g, env, fuel, CharToken(',', from).value) == Match(e, to)
  }

  /** `, es[0], es[1] …` read from `ss[0]`, the `k`-th pair leading from `ss[k]` to `ss[k + 1]`. */
  predicate ArgumentSteps(g: Grammar, env: Env, fuel: nat, ss: seq<string>, es: seq<Expr>)
    decreases |es|
  {
    |ss| == |es| + 1 &&
    (es != [] ==> ArgumentStep(g, env, fuel, ss[0], es[0], ss[1]) && ArgumentSteps(g, env, fuel, ss[1..], es[1..]))
  }

  /** No further argument: no comma, or a comma not followed by a component. */
  predicate ArgumentsStop(g: Grammar, env: Env, fuel: nat, s: string) {
    CharToken(',', s).None? || Component(g, env, fuel, CharToken(',', s).value).NoMatch?
  }

  /** The remaining arguments are appended one by one, in the order read. */
  lemma {:induction false} MoreArgumentsFold(g: Grammar, env: Env, fuel: nat, acc: seq<Expr>, ss: seq<string>, es: seq<Expr>)
    requires ArgumentSteps(g, env, fuel, ss, es) && ArgumentsStop(g, env, fuel, ss[|es|])
    ensures MoreArguments(g, env, fuel, acc, ss[0]) == Ok((acc + es, ss[|es|]))
    decreases |es|
  {
    if es == [] {
      MoreArgumentsEnd(g, env, fuel, acc, ss[0]);
      assert acc + es == acc;
    } else {
      MoreArgumentsAppend(g, env, fuel, acc, ss[0], es[0], ss[1]);
      var tail := ss[1..];
      assert tail[0] == ss[1] && tail[|es[1..]|] == ss[|es|];
      MoreArgumentsFold(g, env, fuel, acc + [es[0]], tail, es[1..]);
      AppendHead(acc, es);
    }
  }

  lemma AppendHead<T>(acc: seq<T>, es: seq<T>)
    requires es != []
    ensures acc + [es[0]] + es[1..] == acc + es
  {
    assert [es[0]] + es[1..] == es;
  }

  lemma MoreArgumentsEnd(g: Grammar, env: Env, fuel: nat, acc: seq<Expr>, s: string)
    requires ArgumentsStop(g, env, fuel, s)
    ensures MoreArguments(g, env, fuel, acc, s) == Ok((acc, s))
  {
  }

  lemma MoreArgumentsAppend(g: Grammar, env: Env, fuel: nat, acc: seq<Expr>, s: string, next: Expr, rest: string)
    requires ArgumentStep(g, env, fuel, s, next, rest)
    ensures MoreArguments(g, env, fuel, acc, s) == MoreArguments(g, env, fuel, acc + [next], rest)
  {
  }

  /**
   * `f(a, b, …)`: a first component and the `, component` pairs after it, then `)`, make the
   * call of `f` on all of them in the order written.
   */
  lemma CallParses(g: Grammar, env: Env, fuel: nat, f: Operation, t: string, first: Expr, ss: seq<string>,
                   es: seq<Expr>, rest: string)
    requires ArgumentSteps(g, env, fuel, ss, es) && ArgumentsStop(g, env, fuel, ss[|es|])
    requires Component(g, env, fuel, t) == Match(first, ss[0])
    requires CharToken(')', ss[|es|]) == Some(rest)
    requires ArgumentsFit(f, [first] + es)
    ensures CallRest(g, env, fuel, f, ['('] + t) == Match(Call(f, [first] + es), rest)
  {
    var s := ['('] + t;
    assert s[1..] == t;
    ArgumentsStart(g, env, fuel, t);
    MoreArgumentsFold(g, env, fuel, [first], ss, es);
    CallReads(g, env, fuel, f, s);
  }

  /** `f()`: no component after `(`, then `)`, is the call of `f` on no arguments. */
  lemma EmptyCall(g: Grammar, env: Env, fuel: nat, f: Operation, t: string, rest: string)
    requires Component(g, env, fuel, t).NoMatch? && CharToken(')', t) == Some(rest)
    requires Params(f) == []
    ensures CallRest(g, env, fuel, f, ['('] + t) == Match(Call(f, []), rest)
  {
    var s := ['('] + t;
    assert s[1..] == t;
    ArgumentsStart(g, env, fuel, t);
    CallReads(g, env, fuel, f, s);
  }

  // ---------------------------------------------------------------- the parameter

  /**
   * `x` is the parameter of a parametrized grammar, of the grammar's parameter type; a
   * grammar without a parameter has no such alternative to offer.
   */
  lemma ParamAlternative(g: Grammar, rest: string)
    ensures g.parameter.Some? ==> Parameter(g, "x" + rest) == Match(Param(g.parameter.value), SkipWs(rest))
    ensures g.parameter.None? ==> Parameter(g, "x" + rest) == NoMatch
  {
    var s := "x" + rest;
    assert s[0] == 'x';
    SkipWsIdle(s);
    assert s[..1] == "x" && s[1..] == rest;
    assert ParameterToken(s) == Some(SkipWs(rest));
  }

  // ---------------------------------------------------------------- End

  /**
   * `Lambda` is the chain read to the end of the text: it succeeds exactly when the chain
   * matched all of the text with a `bool` tree, which it returns; text left over after the
   * chain is a syntax error.
   */
  lemma WholeChain(g: Grammar, env: Env, fuel: nat, s: string)
    ensures Lambda(g, env, fuel, s).Ok? <==>
              Chain(g, env, fuel, s).Match? && Chain(g, env, fuel, s).rest == [] && TypeOf(Chain(g, env, fuel, s).value) == TBool
    ensures Lambda(g, env, fuel, s).Ok? ==> Lambda(g, env, fuel, s).value == Chain(g, env, fuel, s).value
    ensures Chain(g, env, fuel, s).Match? && Chain(g, env, fuel, s).rest != [] ==> Lambda(g, env, fuel, s) == Err(SyntaxError)
    ensures Chain(g, env, fuel, s).NoMatch? ==> Lambda(g, env, fuel, s) == Err(SyntaxError)
    ensures Chain(g, env, fuel, s).Abort? ==> Lambda(g, env, fuel, s) == Err(Chain(g, env, fuel, s).error)
  {
  }

  /** A chain read to the end is the whole expression when it is a `bool` tree, a build error otherwise. */
  lemma WholeChainRead(g: Grammar, env: Env, fuel: nat, s: string, e: Expr)
    requires Chain(g, env, fuel, s) == Match(e, [])
    ensures Lambda(g, env, fuel, s) == if TypeOf(e) == TBool then Ok(e) else Err(BuildError)
  {
  }

  /** An aborted chain fails the whole expression with the same error. */
  lemma WholeChainAborts(g: Grammar, env: Env, fuel: nat, s: string, error: Error)
    requires Chain(g, env, fuel, s) == Abort(error)
    ensures Lambda(g, env, fuel, s) == Err(error)
  {
  }

  /** A segment is resolved by reading its text as a chain, with one unit of the bound spent. */
  lemma SegmentExhausted(g: Grammar, env: Env, code: string, ref: string, text: string)
    requires FindCriterion(env.criteria, code) == Some(Segment(ref, text))
    ensures Resolve(g, env, 0, code) == Err(RecursionLimit(code))
  {
  }

  /** A segment whose text aborts fails the reference with the same error. */
  lemma SegmentAborts(g: Grammar, env: Env, fuel: nat, code: string, ref: string, text: string, error: Error)
    requires FindCriterion(env.criteria, code) == Some(Segment(ref, text))
    requires fuel > 0 && Chain(g, env, fuel - 1, text) == Abort(error)
    ensures Resolve(g, env, fuel, code) == Err(error)
  {
  }

  /**
   * A segment whose text reads back as the reference itself never resolves: with no cycle
   * guard, each level spends one unit of the bound until none is left.
   */
  lemma {:induction false} SegmentLoops(g: Grammar, env: Env, fuel: nat, code: string, ref: string)
    requires FindCriterion(env.criteria, code) == Some(Segment(ref, code))
    requires forall f: nat :: ReadsBack(g, env, f, code)
    ensures Resolve(g, env, fuel, code) == Err(RecursionLimit(code))
    decreases fuel
  {
    if fuel == 0 {
      SegmentExhausted(g, env, code, ref, code);
    } else {
      SegmentLoops(g, env, fuel - 1, code, ref);
      SegmentLoopStep(g, env, fuel, code, ref);
    }
  }

  /** Reading `code` as a chain gives back the reference `code`, resolved with the same bound. */
  predicate ReadsBack(g: Grammar, env: Env, fuel: nat, code: string) {
    Chain(g, env, fuel, code) == Resolved(Resolve(g, env, fuel, code), "")
  }

  lemma SegmentLoopStep(g: Grammar, env: Env, fuel: nat, code: string, ref: string)
    requires FindCriterion(env.criteria, code) == Some(Segment(ref, code))
    requires fuel > 0 && ReadsBack(g, env, fuel - 1, code)
    requires Resolve(g, env, fuel - 1, code) == Err(RecursionLimit(code))
    ensures Resolve(g, env, fuel, code) == Err(RecursionLimit(code))
  {
    SegmentAborts(g, env, fuel, code, ref, code, RecursionLimit(code));
  }
}
