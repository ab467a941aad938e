/**
 * The grammar classes as configurations of the one parser family, and what follows from
 * their shape: the base grammar has no leaves, keywords need no word boundary, and the binary
 * operators all share one level, folded from the left.
 */
module Layers {
  import opened Common
  import opened Text
  import opened Values
  import opened Ast
  import opened Lexer
  import Registry
  import opened Parsing
  import Semantics

  /** `SimpleExpressionGrammar.BinaryOperators`: `AND`, `OR`, `==`, `!=`, tried in this order. */
  const SimpleOperators: seq<BinOp> := [And, Or, Eq, Ne]

  /** `ComparativeExpressionGrammar.BinaryOperators`: the simple ones, then `<=`, `<`, `>=`, `>`. */
  const ComparativeOperators: seq<BinOp> := SimpleOperators + [Le, Lt, Ge, Gt]

  /** `SimpleExpressionGrammar`: negation and parenthesised expressions only. */
  const Simple: Grammar := Grammar(SimpleOperators, false, [AParen], [], [], true, None)

  /** `ComparativeExpressionGrammar`: adds the orderings and constants (numbers as `double?`). */
  const Comparative: Grammar := Grammar(ComparativeOperators, false, [AParen, AConst], [], [], true, None)

  /** `ExtensibleExpressionGrammar`: adds extension operators and extension function calls. */
  function Extensible(operatorClass: seq<Operation>, functionClass: seq<Operation>): Grammar {
    Grammar(ComparativeOperators, true, [AParen, AConst, AFunc], operatorClass, functionClass, true, None)
  }

  /** `ParametizedExpressionGrammar`: adds the parameter `x` of type `t`. */
  function Parametized(t: Ty, operatorClass: seq<Operation>, functionClass: seq<Operation>): Grammar {
    Grammar(ComparativeOperators, true, [AParen, AConst, AFunc, AParam], operatorClass, functionClass, true, Some(t))
  }

  /**
   * `LogicalExpressionGrammar`: the same operators in one class, with function calls tried
   * before constants and numbers typed `double`.
   */
  function Logical(operatorClass: seq<Operation>, functionClass: seq<Operation>): Grammar {
    Grammar(ComparativeOperators, true, [AParen, AFunc, AConst], operatorClass, functionClass, false, None)
  }

  /** `TargetingExpressionGrammar`: a logical grammar whose components are parentheses and references. */
  const Targeting: Grammar :=
    Grammar(ComparativeOperators, true, [AParen, ARef], Registry.NoExtensions, Registry.NoExtensions, false, None)

  /** The four rule grammars, each parametrized by the type its rules read. */
  const NumericRule: RuleGrammar := Parametized(TNullDouble, Registry.NoExtensions, Registry.NoExtensions)
  const StringRule: RuleGrammar := Parametized(TString, Registry.StringOperations, Registry.NoExtensions)
  const DateTimeRule: RuleGrammar := Parametized(TNullDate, Registry.NoExtensions, Registry.DateTimeFunctions)
  const ConsumerEventRule: RuleGrammar := Parametized(TEvents, Registry.NoExtensions, Registry.ConsumerEventFunctions)

  // ---------------------------------------------------------------- the simple grammar

  /**
   * Every operand of the simple grammar is a parenthesised expression or a negated one, so no
   * finite text contains a first operand: no component and no chain ever matches.
   */
  lemma {:induction false} SimpleMatchesNothing(env: Env, fuel: nat, s: string)
    ensures Component(Simple, env, fuel, s) == NoMatch
    ensures Chain(Simple, env, fuel, s) == NoMatch
    decreases |s|
  {
    if s != [] && s[0] == '(' {
      SimpleMatchesNothing(env, fuel, s[1..]);
    }
    assert Alternative(Simple, env, fuel, AParen, s) == NoMatch;
    assert Alternatives(Simple, env, fuel, s, 1) == NoMatch;
    assert Component(Simple, env, fuel, s) == NoMatch;
    match NotKeyword(s)
    case None =>
      assert Negation(Simple, env, fuel, s) == NoMatch;
    case Some(after) =>
      SimpleMatchesNothing(env, fuel, after);
      assert Negation(Simple, env, fuel, s) == NoMatch;
    assert ChainOperand(Simple, env, fuel, s) == NoMatch;
  }

  /** `SimpleExpressionGrammar.GenerateExpression` rejects every text with a parse error. */
  lemma SimpleAcceptsNothing(env: Env, fuel: nat, s: string)
    ensures Lambda(Simple, env, fuel, s) == Err(SyntaxError)
  {
    SimpleMatchesNothing(env, fuel, s);
  }

  // ---------------------------------------------------------------- operator spellings

  lemma LiteralAtHead(lit: string, ignoreCase: bool, t: string)
    ensures MatchLiteral(lit, ignoreCase, lit + t) == Some(t)
  {
    assert (lit + t)[..|lit|] == lit;
    assert (lit + t)[|lit|..] == t;
  }

  lemma LiteralMissesHead(lit: string, ignoreCase: bool, s: string)
    requires lit != [] && s != [] && ToLower(s[0]) != ToLower(lit[0])
    ensures MatchLiteral(lit, ignoreCase, s) == None
  {
    if |lit| <= |s| {
      assert Fold(s[..|lit|])[0] == ToLower(s[0]);
      assert Fold(lit)[0] == ToLower(lit[0]);
      assert s[..|lit|][0] == s[0];
    }
  }

  /** An operator none of whose spellings starts with the first character of the input. */
  lemma OperatorMisses(op: BinOp, s: string)
    requires s != [] && !IsWhiteSpace(s[0])
    requires forall i :: 0 <= i < |Lexemes(op)| ==> ToLower(s[0]) != ToLower(Lexemes(op)[i].0[0])
    ensures OperatorToken(op, s) == None
  {
    SkipWsIdle(s);
    forall i | 0 <= i < |Lexemes(op)| ensures MatchLiteral(Lexemes(op)[i].0, Lexemes(op)[i].1, s).None? {
      LiteralMissesHead(Lexemes(op)[i].0, Lexemes(op)[i].1, s);
    }
    FirstLexemeFails(Lexemes(op), s);
  }

  /** An operator written in its first spelling. */
  lemma OperatorHits(op: BinOp, t: string)
    requires !IsWhiteSpace(Lexemes(op)[0].0[0])
    ensures OperatorToken(op, Lexemes(op)[0].0 + t) == Some(SkipWs(t))
  {
    var s := Lexemes(op)[0].0 + t;
    SkipWsIdle(s);
    LiteralAtHead(Lexemes(op)[0].0, Lexemes(op)[0].1, t);
  }

  lemma ParseOperatorFirst(ops: seq<BinOp>, s: string)
    requires ops != [] && OperatorToken(ops[0], s).Some?
    ensures ParseOperator(ops, s) == Some((ops[0], OperatorToken(ops[0], s).value))
  {
  }

  lemma ParseOperatorNext(ops: seq<BinOp>, s: string)
    requires ops != [] && OperatorToken(ops[0], s).None?
    ensures ParseOperator(ops, s) == ParseOperator(ops[1..], s)
  {
  }

  lemma ComparativeOrder()
    ensures ComparativeOperators == [And, Or, Eq, Ne, Le, Lt, Ge, Gt]
  {
  }

  /** `AND` followed by any text at all is read as the operator `AND`; the whitespace after it is skipped. */
  lemma AndIsPrefix(ops: seq<BinOp>, t: string)
    requires ops == ComparativeOperators
    ensures ParseOperator(ops, "AND" + t) == Some((And, SkipWs(t)))
  {
    ComparativeOrder();
    OperatorHits(And, t);
    ParseOperatorFirst(ops, "AND" + t);
  }

  /** `OR` followed by any text at all is read as the operator `OR`. */
  lemma OrIsPrefix(ops: seq<BinOp>, t: string)
    requires ops == ComparativeOperators
    ensures ParseOperator(ops, "OR" + t) == Some((Or, SkipWs(t)))
  {
    ComparativeOrder();
    var s := "OR" + t;
    assert s[0] == 'O';
    OperatorMisses(And, s);
    OperatorHits(Or, t);
    ParseOperatorNext(ops, s);
    ParseOperatorFirst(ops[1..], s);
  }

  /**
   * The keywords are matched as prefixes without a word boundary: `AND` or `OR` followed by
   * any text at all is read as that operator, and the whitespace after it is skipped.
   */
  lemma KeywordIsPrefix(op: BinOp, t: string)
    requires op == And || op == Or
    ensures ParseOperator(ComparativeOperators, OpText(op) + t) == Some((op, SkipWs(t)))
  {
    if op == And {
      AndIsPrefix(ComparativeOperators, t);
    } else {
      OrIsPrefix(ComparativeOperators, t);
    }
  }

  /**
   * So a word that merely starts with `AND` is split: after an operand, `ANDROID` is the
   * operator `AND` followed by the operand text `ROID`.
   */
  lemma AndSplitsWord(ops: seq<BinOp>, t: string)
    requires ops == ComparativeOperators && t != [] && !IsWhiteSpace(t[0])
    ensures ParseOperator(ops, "AND" + t) == Some((And, t))
  {
    AndIsPrefix(ops, t);
    SkipWsIdle(t);
  }

  // ---------------------------------------------------------------- no operator precedence

  /** The literal `true` or `false`. */
  function BoolText(b: bool): string {
    if b then "true" else "false"
  }

  function Lit(b: bool): Expr {
    Const(VBool(b), TBool)
  }

  /** A chain of bool literals joined by the logical operators. */
  predicate LogicalLinks(links: seq<(BinOp, bool)>) {
    forall i :: 0 <= i < |links| ==> links[i].0 == And || links[i].0 == Or
  }

  function OpText(op: BinOp): string {
    if op == And then "AND" else "OR"
  }

  /** ` AND false OR true ...`: each link printed after a space. */
  function Tail(links: seq<(BinOp, bool)>): string {
    if links == [] then "" else " " + (OpText(links[0].0) + (" " + (BoolText(links[0].1) + Tail(links[1..]))))
  }

  /** The left fold `MakeBinary` builds as the chain is read. */
  function FoldTree(acc: Expr, links: seq<(BinOp, bool)>): (r: Expr)
    ensures TypeOf(acc) == TBool ==> TypeOf(r) == TBool
    decreases |links|
  {
    if links == [] then acc else FoldTree(Binary(links[0].0, acc, Lit(links[0].1)), links[1..])
  }

  /** The same fold on truth values. */
  function FoldBool(acc: bool, links: seq<(BinOp, bool)>): bool
    decreases |links|
  {
    if links == [] then acc
    else FoldBool(if links[0].0 == And then acc && links[0].1 else acc || links[0].1, links[1..])
  }

  /** Grammars whose components start with parentheses then constants, and that define no operator names. */
  predicate LiteralGrammar(g: Grammar) {
    |g.components| >= 2 && g.components[0] == AParen && g.components[1] == AConst &&
    g.operatorClass == [] && g.operators == ComparativeOperators
  }

  lemma SkipOneSpace(x: string)
    requires x != [] && !IsWhiteSpace(x[0])
    ensures SkipWs(" " + x) == x
  {
    assert (" " + x)[1..] == x;
    SkipWsIdle(x);
  }

  lemma NoOperatorNames(s: string)
    ensures ExtensionName([], s) == NoMatch
  {
    assert Registry.Build([]) == Some(map[]);
  }

  /** `bool.Parse` of the bool token: `true` or `false` at the head of the input. */
  lemma LiteralToken(b: bool, t: string)
    ensures BoolToken(BoolText(b) + t) == Some((b, SkipWs(t)))
  {
    var s := BoolText(b) + t;
    SkipWsIdle(s);
    if b {
      LiteralAtHead("true", true, t);
    } else {
      LiteralMissesHead("true", true, s);
      LiteralAtHead("false", true, t);
    }
  }

  lemma ParenMisses(g: Grammar, env: Env, fuel: nat, s: string)
    requires AParen in g.components && s != [] && s[0] != '('
    ensures Alternative(g, env, fuel, AParen, s) == NoMatch
  {
  }

  lemma ConstantAlternative(g: Grammar, env: Env, fuel: nat, s: string)
    requires AConst in g.components
    ensures Alternative(g, env, fuel, AConst, s) == ConstantToken(g.nullableNumbers, s)
  {
  }

  lemma AlternativesSkip(g: Grammar, env: Env, fuel: nat, s: string, i: nat)
    requires i < |g.components| && Alternative(g, env, fuel, g.components[i], s) == NoMatch
    ensures Alternatives(g, env, fuel, s, i) == Alternatives(g, env, fuel, s, i + 1)
  {
  }

  lemma AlternativesTake(g: Grammar, env: Env, fuel: nat, s: string, i: nat)
    requires i < |g.components| && !Alternative(g, env, fuel, g.components[i], s).NoMatch?
    ensures Alternatives(g, env, fuel, s, i) == Alternative(g, env, fuel, g.components[i], s)
  {
  }

  /** The first alternative fails and the second does not: the second decides the component. */
  lemma SecondAlternativeDecides(g: Grammar, env: Env, fuel: nat, s: string)
    requires 2 <= |g.components|
    requires Alternative(g, env, fuel, g.components[0], s) == NoMatch
    requires !Alternative(g, env, fuel, g.components[1], s).NoMatch?
    ensures Component(g, env, fuel, s) == Alternative(g, env, fuel, g.components[1], s)
  {
    AlternativesSkip(g, env, fuel, s, 0);
    AlternativesTake(g, env, fuel, s, 1);
  }

  /** In a grammar whose components are parentheses then references, a word is the reference it names. */
  lemma ReferenceDecides(g: Grammar, env: Env, fuel: nat, s: string, code: string, rest: string)
    requires 2 <= |g.components| && g.components[0] == AParen && g.components[1] == ARef
    requires s != [] && s[0] != '(' && NameToken(s) == Some((code, rest))
    ensures Component(g, env, fuel, s) == Resolved(Resolve(g, env, fuel, code), rest)
  {
    ParenMisses(g, env, fuel, s);
    ReferenceIsAlternative(g, env, fuel, s);
    ReferenceResolves(g, env, fuel, s, code, rest);
    SecondAlternativeDecides(g, env, fuel, s);
  }

  lemma LiteralConstant(nullableNumbers: bool, b: bool, t: string)
    ensures ConstantToken(nullableNumbers, BoolText(b) + t) == Match(Lit(b), SkipWs(t))
  {
    LiteralToken(b, t);
  }

  /** A bool literal is a component of such a grammar. */
  lemma LiteralComponent(g: Grammar, env: Env, fuel: nat, b: bool, t: string)
    requires LiteralGrammar(g)
    ensures Component(g, env, fuel, BoolText(b) + t) == Match(Lit(b), SkipWs(t))
  {
    var s := BoolText(b) + t;
    assert s[0] == BoolText(b)[0];
    ParenMisses(g, env, fuel, s);
    AlternativesSkip(g, env, fuel, s, 0);
    LiteralConstant(g.nullableNumbers, b, t);
    ConstantAlternative(g, env, fuel, s);
    AlternativesTake(g, env, fuel, s, 1);
  }

  /** Text starting with a letter other than `n` is no `NOT` or `!` keyword. */
  lemma NoNotKeyword(s: string)
    requires s != [] && !IsWhiteSpace(s[0]) && ToLower(s[0]) != 'n' && s[0] != '!'
    ensures NotKeyword(s) == None
  {
    SkipWsIdle(s);
    LiteralMissesHead("NOT", true, s);
    LiteralMissesHead("!", false, s);
    FirstLexemeFails([("NOT", true), ("!", false)], s);
  }

  lemma NegationMisses(g: Grammar, env: Env, fuel: nat, s: string)
    requires NotKeyword(s) == None
    ensures Negation(g, env, fuel, s) == NoMatch
  {
  }

  /** Without extension operators, a component is never the left side of an infix call. */
  lemma InfixMisses(g: Grammar, env: Env, fuel: nat, s: string)
    requires g.operatorClass == [] && Component(g, env, fuel, s).Match?
    ensures Infix(g, env, fuel, s) == NoMatch
  {
    var c := Component(g, env, fuel, s);
    NoOperatorNames(c.rest);
    assert InfixRest(g, env, fuel, c.value, c.rest) == NoMatch;
  }

  lemma OperandIsComponent(g: Grammar, env: Env, fuel: nat, s: string)
    requires Negation(g, env, fuel, s) == NoMatch
    requires g.infix ==> Infix(g, env, fuel, s) == NoMatch
    ensures ChainOperand(g, env, fuel, s) == Component(g, env, fuel, s)
  {
  }

  /** A bool literal is a chain operand: it is not a negation, nor the left side of an extension operator. */
  lemma LiteralOperand(g: Grammar, env: Env, fuel: nat, b: bool, t: string)
    requires LiteralGrammar(g)
    ensures ChainOperand(g, env, fuel, BoolText(b) + t) == Match(Lit(b), SkipWs(t))
  {
    var s := BoolText(b) + t;
    assert s[0] == BoolText(b)[0];
    NoNotKeyword(s);
    NegationMisses(g, env, fuel, s);
    LiteralComponent(g, env, fuel, b, t);
    InfixMisses(g, env, fuel, s);
    OperandIsComponent(g, env, fuel, s);
  }

  /** `AND`/`OR` followed by a space and an operand is read as that operator. */
  lemma LogicalOperator(op: BinOp, x: string)
    requires op == And || op == Or
    requires x != [] && !IsWhiteSpace(x[0])
    ensures ParseOperator(ComparativeOperators, OpText(op) + (" " + x)) == Some((op, x))
  {
    KeywordIsPrefix(op, " " + x);
    SkipOneSpace(x);
  }

  /** One link of a chain: an operator, an operand, and the node built from them. */
  lemma ChainRestStep(g: Grammar, env: Env, fuel: nat, acc: Expr, s: string, op: BinOp, afterOp: string, e: Expr, rest: string)
    requires ParseOperator(g.operators, s) == Some((op, afterOp))
    requires ChainOperand(g, env, fuel, afterOp) == Match(e, rest)
    requires BinaryDefined(op, TypeOf(acc), TypeOf(e))
    ensures ChainRest(g, env, fuel, acc, s) == ChainRest(g, env, fuel, Binary(op, acc, e), rest)
  {
    assert BuildBinary(op, acc, e, g.parameter) == Ok(Binary(op, acc, e));
  }

  lemma ChainRestEnds(g: Grammar, env: Env, fuel: nat, acc: Expr)
    ensures ChainRest(g, env, fuel, acc, "") == Ok((acc, ""))
  {
    NoOperatorAtEnd(g.operators);
  }

  /** `OP b rest`, after its leading space is skipped, is read as one more node of the fold. */
  lemma ChainRestLiteralLink(g: Grammar, env: Env, fuel: nat, acc: Expr, op: BinOp, b: bool, rest: string)
    requires LiteralGrammar(g) && TypeOf(acc) == TBool && (op == And || op == Or)
    ensures ChainRest(g, env, fuel, acc, OpText(op) + (" " + (BoolText(b) + rest)))
         == ChainRest(g, env, fuel, Binary(op, acc, Lit(b)), SkipWs(rest))
  {
    var x := BoolText(b) + rest;
    assert x[0] == BoolText(b)[0];
    LogicalOperator(op, x);
    LiteralOperand(g, env, fuel, b, rest);
    assert BinaryDefined(op, TBool, TBool);
    ChainRestStep(g, env, fuel, acc, OpText(op) + (" " + x), op, x, Lit(b), SkipWs(rest));
  }

  /** The first printed link of a chain is read as one more node of the fold. */
  lemma ChainRestLink(g: Grammar, env: Env, fuel: nat, acc: Expr, links: seq<(BinOp, bool)>)
    requires LiteralGrammar(g) && LogicalLinks(links) && TypeOf(acc) == TBool && links != []
    ensures ChainRest(g, env, fuel, acc, SkipWs(Tail(links)))
         == ChainRest(g, env, fuel, Binary(links[0].0, acc, Lit(links[0].1)), SkipWs(Tail(links[1..])))
  {
    var op, b := links[0].0, links[0].1;
    var s := OpText(op) + (" " + (BoolText(b) + Tail(links[1..])));
    assert s[0] == OpText(op)[0];
    SkipOneSpace(s);
    ChainRestLiteralLink(g, env, fuel, acc, op, b, Tail(links[1..]));
  }

  lemma {:induction false} ChainRestFolds(g: Grammar, env: Env, fuel: nat, acc: Expr, links: seq<(BinOp, bool)>)
    requires LiteralGrammar(g) && LogicalLinks(links) && TypeOf(acc) == TBool
    ensures ChainRest(g, env, fuel, acc, SkipWs(Tail(links))) == Ok((FoldTree(acc, links), ""))
    decreases |links|
  {
    if links == [] {
      ChainRestEnds(g, env, fuel, acc);
    } else {
      var next := Binary(links[0].0, acc, Lit(links[0].1));
      assert LogicalLinks(links[1..]) by {
        forall i | 0 <= i < |links[1..]| ensures links[1..][i].0 == And || links[1..][i].0 == Or {
          assert links[1..][i] == links[i + 1];
        }
      }
      assert TypeOf(next) == TBool;
      assert FoldTree(acc, links) == FoldTree(next, links[1..]);
      ChainRestLink(g, env, fuel, acc, links);
      ChainRestFolds(g, env, fuel, next, links[1..]);
    }
  }

  /**
   * All binary operators share one precedence level and associate to the left: a chain of
   * literals joined by `AND` and `OR` parses to the left fold, whatever the operators.
   */
  lemma PrintedChainParses(g: Grammar, env: Env, fuel: nat, first: bool, links: seq<(BinOp, bool)>)
    requires LiteralGrammar(g) && LogicalLinks(links)
    ensures Lambda(g, env, fuel, BoolText(first) + Tail(links)) == Ok(FoldTree(Lit(first), links))
  {
    LiteralOperand(g, env, fuel, first, Tail(links));
    ChainRestFolds(g, env, fuel, Lit(first), links);
  }

  /** The left-folded tree evaluates to the left fold of the truth values. */
  lemma {:induction false} FoldTreeEvaluates(acc: Expr, a: bool, links: seq<(BinOp, bool)>, x: Value, ctx: Semantics.Context)
    requires LogicalLinks(links) && Semantics.Eval(acc, x, ctx) == Ok(VBool(a))
    ensures Semantics.Eval(FoldTree(acc, links), x, ctx) == Ok(VBool(FoldBool(a, links)))
    decreases |links|
  {
    if links != [] {
      var op, b := links[0].0, links[0].1;
      var next := if op == And then a && b else a || b;
      assert Semantics.Eval(Binary(op, acc, Lit(b)), x, ctx) == Ok(VBool(next));
      FoldTreeEvaluates(Binary(op, acc, Lit(b)), next, links[1..], x, ctx);
    }
  }

  /**
   * `true OR false AND false` in a numeric rule is `(true OR false) AND false`, which is
   * false; with `AND` binding tighter it would have been true.
   */
  lemma NoPrecedence(x: Value, ctx: Semantics.Context)
    ensures Lambda(NumericRule, NoEnv, 0, "true OR false AND false")
         == Ok(Binary(And, Binary(Or, Lit(true), Lit(false)), Lit(false)))
    ensures Semantics.Eval(Binary(And, Binary(Or, Lit(true), Lit(false)), Lit(false)), x, ctx) == Ok(VBool(false))
    ensures Semantics.Eval(Binary(Or, Lit(true), Binary(And, Lit(false), Lit(false))), x, ctx) == Ok(VBool(true))
  {
    var links := [(Or, false), (And, false)];
    PrecedenceText(links);
    PrintedChainParses(NumericRule, NoEnv, 0, true, links);
    assert FoldTree(Lit(true), links) == Binary(And, Binary(Or, Lit(true), Lit(false)), Lit(false));
  }

  lemma PrecedenceText(links: seq<(BinOp, bool)>)
    requires links == [(Or, false), (And, false)]
    ensures BoolText(true) + Tail(links) == "true OR false AND false"
  {
    var second := links[1..];
    assert Tail(second[1..]) == "";
    assert Tail(second) == " " + ("AND" + (" " + "false"));
    assert Tail(links) == " " + ("OR" + (" " + ("false" + Tail(second))));
  }
}
