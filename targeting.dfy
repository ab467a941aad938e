/**
 * `TargetingExpressionGrammar`: the top-level grammar whose operands are parenthesised
 * expressions and criterion reference codes. Construction builds the table of rule parsers
 * keyed by the type their rules read; parsing resolves each reference while it is read.
 */
module TargetingExpression {
  import opened Common
  import opened Text
  import opened Values
  import opened Ast
  import opened Lexer
  import opened Parsing
  import opened Criteria
  import Layers
  import ParserSteps

  /** `RuleParameterType` of a rule parser: the type of its parameter `x`. */
  function Key(p: RuleGrammar): Ty {
    p.parameter.value
  }

  /** No two rule parsers in the list serve the same type. */
  predicate DistinctKeys(parsers: seq<RuleGrammar>) {
    forall i, j :: 0 <= i < j < |parsers| ==> Key(parsers[i]) != Key(parsers[j])
  }

  /** Every rule parser in the table is filed under its own parameter type. */
  predicate Keyed(table: map<Ty, RuleGrammar>) {
    forall t :: t in table ==> table[t].parameter == Some(t)
  }

  /** The types the parsers serve. */
  function KeySet(parsers: seq<RuleGrammar>): set<Ty> {
    set i | 0 <= i < |parsers| :: Key(parsers[i])
  }

  /** One more parser keeps the keys distinct exactly when its key is new. */
  lemma DistinctExtend(init: seq<RuleGrammar>, last: RuleGrammar)
    ensures DistinctKeys(init + [last]) <==> DistinctKeys(init) && Key(last) !in KeySet(init)
  {
    var all := init + [last];
    if DistinctKeys(all) {
      forall i, j | 0 <= i < j < |init| ensures Key(init[i]) != Key(init[j]) {
        assert all[i] == init[i] && all[j] == init[j];
      }
      forall i | 0 <= i < |init| ensures Key(init[i]) != Key(last) {
        assert all[i] == init[i] && all[|init|] == last;
      }
    }
    if DistinctKeys(init) && Key(last) !in KeySet(init) {
      forall i, j | 0 <= i < j < |all| ensures Key(all[i]) != Key(all[j]) {
        if j == |init| {
          assert Key(init[i]) in KeySet(init);
        } else {
          assert all[i] == init[i] && all[j] == init[j];
        }
      }
    }
  }

  lemma KeySetExtend(init: seq<RuleGrammar>, last: RuleGrammar)
    ensures KeySet(init + [last]) == KeySet(init) + {Key(last)}
  {
    var all := init + [last];
    forall t | t in KeySet(all) ensures t in KeySet(init) + {Key(last)} {
      var i :| 0 <= i < |all| && Key(all[i]) == t;
      if i < |init| {
        assert all[i] == init[i];
      }
    }
    forall t | t in KeySet(init) ensures t in KeySet(all) {
      var i :| 0 <= i < |init| && Key(init[i]) == t;
      assert all[i] == init[i];
    }
    assert Key(all[|init|]) == Key(last);
  }

  /**
   * `ruleParsers.ToDictionary(p => p.RuleParameterType)`: the parsers added in order, failing
   * on the first type already present.
   */
  function ParserTable(parsers: seq<RuleGrammar>): (r: Result<map<Ty, RuleGrammar>, Error>)
    ensures r.Ok? <==> DistinctKeys(parsers)
    ensures r.Err? ==> r.error == DuplicateKey
    ensures r.Ok? ==> Keyed(r.value) && r.value.Keys == KeySet(parsers)
    ensures r.Ok? ==> forall i :: 0 <= i < |parsers| ==> Key(parsers[i]) in r.value && r.value[Key(parsers[i])] == parsers[i]
  {
    if parsers == [] then Ok(map[])
    else
      var init, last := parsers[..|parsers| - 1], parsers[|parsers| - 1];
      assert parsers == init + [last];
      DistinctExtend(init, last);
      KeySetExtend(init, last);
      var table := ParserTable(init);
      if table.Err? then table
      else if Key(last) in table.value then Err(DuplicateKey)
      else
        TableGrows(init, last, table.value);
        Ok(table.value[Key(last) := last])
  }

  /** Filing one more parser under a new key keeps every earlier entry and adds its own. */
  lemma TableGrows(init: seq<RuleGrammar>, last: RuleGrammar, table: map<Ty, RuleGrammar>)
    requires Keyed(table) && Key(last) !in table
    requires forall i :: 0 <= i < |init| ==> Key(init[i]) in table && table[Key(init[i])] == init[i]
    ensures Keyed(table[Key(last) := last])
    ensures forall i :: 0 <= i < |init + [last]| ==>
              Key((init + [last])[i]) in table[Key(last) := last] && table[Key(last) := last][Key((init + [last])[i])] == (init + [last])[i]
  {
    var all, grown := init + [last], table[Key(last) := last];
    forall i | 0 <= i < |all| ensures Key(all[i]) in grown && grown[Key(all[i])] == all[i] {
      if i < |init| {
        assert all[i] == init[i];
      }
    }
  }

  /**
   * The constructor: a null criteria list or a null parser list is rejected with
   * `ArgumentNullException` naming it; otherwise the parser table is built.
   */
  function NewGrammar(criteria: Option<seq<Criterion>>, ruleParsers: Option<seq<RuleGrammar>>): (r: Result<Env, Error>)
    ensures criteria.None? ==> r == Err(ArgumentNull("criteria"))
    ensures criteria.Some? && ruleParsers.None? ==> r == Err(ArgumentNull("ruleParsers"))
    ensures criteria.Some? && ruleParsers.Some? ==> (r.Ok? <==> DistinctKeys(ruleParsers.value))
    ensures criteria.Some? && ruleParsers.Some? && r.Err? ==> r.error == DuplicateKey
    ensures r.Ok? ==> r.value.criteria == criteria.value && Keyed(r.value.ruleParsers)
    ensures r.Ok? ==> forall i :: 0 <= i < |ruleParsers.value| ==>
              Key(ruleParsers.value[i]) in r.value.ruleParsers && r.value.ruleParsers[Key(ruleParsers.value[i])] == ruleParsers.value[i]
  {
    if criteria.None? then Err(ArgumentNull("criteria"))
    else if ruleParsers.None? then Err(ArgumentNull("ruleParsers"))
    else
      match ParserTable(ruleParsers.value)
      case Err(e) => Err(e)
      case Ok(table) => Ok(Env(criteria.value, table))
  }

  /**
   * `GenerateExpression(text)`: the whole text parsed as a predicate over the evaluator. It
   * succeeds exactly when the chain reads all of the text to a `bool` tree, and that tree is
   * the result; text left over after the chain is a syntax error.
   */
  function GenerateExpression(env: Env, fuel: nat, text: string): (r: Result<Expr, Error>)
    ensures r.Ok? ==> TypeOf(r.value) == TBool && WellTyped(r.value, None)
    ensures r.Ok? <==>
              var c := Chain(Layers.Targeting, env, fuel, text);
              c.Match? && c.rest == [] && TypeOf(c.value) == TBool
    ensures r.Ok? ==> r.value == Chain(Layers.Targeting, env, fuel, text).value
    ensures Chain(Layers.Targeting, env, fuel, text).Match? && Chain(Layers.Targeting, env, fuel, text).rest != [] ==>
              r == Err(SyntaxError)
  {
    ParserSteps.WholeChain(Layers.Targeting, env, fuel, text);
    Lambda(Layers.Targeting, env, fuel, text)
  }

  // ---------------------------------------------------------------- resolving one code

  /** The first criterion whose code matches ignoring case is the one resolution uses. */
  lemma FirstMatchIsFound(criteria: seq<Criterion>, code: string, i: int)
    requires FirstMatchAt(criteria, code, i)
    ensures FindCriterion(criteria, code) == Some(criteria[i])
  {
    FindCriterionFinds(criteria, code);
    var r := FindCriterion(criteria, code);
    assert r.Some?;
    var j :| FirstMatchAt(criteria, code, j) && criteria[j] == r.value;
  }

  /** A code no criterion matches raises the targeting exception carrying that code. */
  lemma UnresolvedCode(env: Env, fuel: nat, code: string)
    requires forall i :: 0 <= i < |env.criteria| ==> !EqualsIgnoreCase(env.criteria[i].referenceCode, code)
    ensures Resolve(Layers.Targeting, env, fuel, code) == Err(TargetExpressionError(code, UnresolvedReference))
  {
    FindCriterionFinds(env.criteria, code);
  }

  /**
   * A tag becomes `HasTag` of the code as written in the expression, which may differ in
   * letter case from the code the criterion stores.
   */
  lemma TagKeepsWrittenCode(env: Env, fuel: nat, code: string, i: int)
    requires FirstMatchAt(env.criteria, code, i) && env.criteria[i].Tag?
    ensures Resolve(Layers.Targeting, env, fuel, code) == Ok(HasTag(code))
  {
    FirstMatchIsFound(env.criteria, code, i);
  }

  /** A criterion kind the grammar does not know raises the exception carrying the code. */
  lemma OtherKindUnsupported(env: Env, fuel: nat, code: string, i: int)
    requires FirstMatchAt(env.criteria, code, i) && env.criteria[i].Other?
    ensures Resolve(Layers.Targeting, env, fuel, code) == Err(TargetExpressionError(code, UnsupportedCriterionType))
  {
    FirstMatchIsFound(env.criteria, code, i);
  }

  /**
   * A segment's text is read by the chain parser without an end anchor: whatever follows the
   * longest chain it reads is ignored, and the tree is spliced in.
   */
  lemma SegmentSplices(env: Env, fuel: nat, code: string, i: int, tree: Expr, rest: string)
    requires FirstMatchAt(env.criteria, code, i) && env.criteria[i].Segment?
    requires Chain(Layers.Targeting, env, fuel, env.criteria[i].segmentExpression) == Match(tree, rest)
    ensures Resolve(Layers.Targeting, env, fuel + 1, code) == Ok(tree)
  {
    FirstMatchIsFound(env.criteria, code, i);
  }

  /** A rule whose value type is a non-nullable value type cannot be read with `TypeAs`. */
  lemma RuleNeedsNullableType(env: Env, fuel: nat, code: string, i: int)
    requires FirstMatchAt(env.criteria, code, i) && env.criteria[i].Rule?
    requires !AcceptsNull(env.criteria[i].evaluationType)
    ensures Resolve(Layers.Targeting, env, fuel, code) == Err(BuildError)
  {
    FirstMatchIsFound(env.criteria, code, i);
  }

  /**
   * A rule whose type has no parser raises the exception carrying the rule's own stored
   * code, not the code as written.
   */
  lemma RuleWithoutParser(env: Env, fuel: nat, code: string, i: int)
    requires FirstMatchAt(env.criteria, code, i) && env.criteria[i].Rule?
    requires AcceptsNull(env.criteria[i].evaluationType)
    requires ExprType(env.criteria[i].evaluationType).None? || ExprType(env.criteria[i].evaluationType).value !in env.ruleParsers
    ensures Resolve(Layers.Targeting, env, fuel, code)
         == Err(TargetExpressionError(env.criteria[i].referenceCode, UnsupportedRuleType))
  {
    FirstMatchIsFound(env.criteria, code, i);
  }

  /**
   * A rule over a nullable value type other than `double?` and `DateTime?` (an `int?`, say)
   * passes the `TypeAs` check but has no rule parser, so it raises the unsupported-rule-type
   * exception with the rule's own code.
   */
  lemma NullableValueTypeUnsupported(env: Env, fuel: nat, code: string, i: int)
    requires FirstMatchAt(env.criteria, code, i) && env.criteria[i].Rule?
    requires env.criteria[i].evaluationType.ClrNullableOther?
    ensures Resolve(Layers.Targeting, env, fuel, code)
         == Err(TargetExpressionError(env.criteria[i].referenceCode, UnsupportedRuleType))
  {
    RuleWithoutParser(env, fuel, code, i);
  }

  /** The rule's parsed predicate, invoked on the value read for the target. */
  function RuleResult(body: Result<Expr, Error>, t: Ty, target: string): Result<Expr, Error> {
    match body
    case Ok(b) => Ok(Invoke(b, t, target))
    case Err(e) => Err(e)
  }

  /**
   * A rule with a parser for its type becomes the invocation of the parsed rule on the value
   * read for its target; a rule text that does not parse fails the whole expression.
   */
  lemma RuleIsInvoked(env: Env, fuel: nat, code: string, i: int, t: Ty)
    requires Keyed(env.ruleParsers)
    requires FirstMatchAt(env.criteria, code, i) && env.criteria[i].Rule?
    requires ExprType(env.criteria[i].evaluationType) == Some(t) && t in env.ruleParsers
    ensures Resolve(Layers.Targeting, env, fuel, code)
         == RuleResult(Lambda(env.ruleParsers[t], NoEnv, 0, env.criteria[i].evaluationCriterion), t, env.criteria[i].evaluationTarget)
  {
    FirstMatchIsFound(env.criteria, code, i);
  }

  // ---------------------------------------------------------------- reading one reference

  /** A reference code: one or more letters or digits. */
  predicate Word(code: string) {
    code != [] && forall i :: 0 <= i < |code| ==> IsLetterOrDigit(code[i])
  }

  lemma {:induction false} WordSplits(code: string, t: string)
    requires forall i :: 0 <= i < |code| ==> IsLetterOrDigit(code[i])
    requires t == [] || !IsLetterOrDigit(t[0])
    ensures LettersOrDigits(code + t) == (code, t)
    decreases |code|
  {
    if code != [] {
      assert (code + t)[1..] == code[1..] + t;
      WordSplits(code[1..], t);
      assert [code[0]] + code[1..] == code;
    } else {
      assert code + t == t;
    }
  }

  /** The reference token reads a whole word, and the whitespace after it. */
  lemma WordToken(code: string, t: string)
    requires Word(code) && (t == [] || !IsLetterOrDigit(t[0]))
    ensures NameToken(code + t) == Some((code, SkipWs(t)))
  {
    assert (code + t)[0] == code[0];
    SkipWsIdle(code + t);
    WordSplits(code, t);
  }

  lemma ReferenceAlternative(g: Grammar, env: Env, fuel: nat, s: string, code: string, rest: string)
    requires ARef in g.components && NameToken(s) == Some((code, rest))
    ensures Alternative(g, env, fuel, ARef, s) == Resolved(Resolve(g, env, fuel, code), rest)
  {
    ReferenceIsAlternative(g, env, fuel, s);
    ReferenceResolves(g, env, fuel, s, code, rest);
  }

  /** A word is a component of the targeting grammar: the reference it names. */
  lemma ReferenceComponent(env: Env, fuel: nat, code: string, t: string)
    requires Word(code) && (t == [] || !IsLetterOrDigit(t[0]))
    ensures Component(Layers.Targeting, env, fuel, code + t)
         == Resolved(Resolve(Layers.Targeting, env, fuel, code), SkipWs(t))
  {
    var g, s := Layers.Targeting, code + t;
    assert s[0] == code[0];
    WordToken(code, t);
    Layers.ReferenceDecides(g, env, fuel, s, code, SkipWs(t));
  }

  /**
   * A word that does not start with the `NOT` keyword is a chain operand: the reference it
   * names, resolved as it is read. A failed resolution aborts the whole parse.
   */
  lemma ReferenceOperand(env: Env, fuel: nat, code: string, t: string)
    requires Word(code) && (t == [] || !IsLetterOrDigit(t[0]))
    requires NotKeyword(code + t) == None
    ensures ChainOperand(Layers.Targeting, env, fuel, code + t)
         == Resolved(Resolve(Layers.Targeting, env, fuel, code), SkipWs(t))
  {
    var g, s := Layers.Targeting, code + t;
    Layers.NegationMisses(g, env, fuel, s);
    ReferenceComponent(env, fuel, code, t);
    if Component(g, env, fuel, s).Match? {
      Layers.InfixMisses(g, env, fuel, s);
      Layers.OperandIsComponent(g, env, fuel, s);
    } else {
      assert Infix(g, env, fuel, s) == Component(g, env, fuel, s);
    }
  }

  /** A chain that is a single operand read to the end. */
  lemma SingleOperandChain(g: Grammar, env: Env, fuel: nat, s: string)
    requires ChainOperand(g, env, fuel, s).Abort? || (ChainOperand(g, env, fuel, s).Match? && ChainOperand(g, env, fuel, s).rest == "")
    ensures Chain(g, env, fuel, s) == ChainOperand(g, env, fuel, s)
  {
    var first := ChainOperand(g, env, fuel, s);
    if first.Match? {
      Layers.ChainRestEnds(g, env, fuel, first.value);
    }
  }

  /** A text that is one word is a chain of one operand: the reference it names, read to the end. */
  lemma WordChain(env: Env, fuel: nat, code: string)
    requires Word(code) && NotKeyword(code) == None
    ensures Chain(Layers.Targeting, env, fuel, code) == Resolved(Resolve(Layers.Targeting, env, fuel, code), "")
  {
    assert code + "" == code;
    ReferenceOperand(env, fuel, code, "");
    SingleOperandChain(Layers.Targeting, env, fuel, code);
  }

  /** `Lambda` of a single resolved operand: the tree, which must be a `bool` predicate. */
  function WholeExpression(res: Result<Expr, Error>): Result<Expr, Error> {
    match res
    case Err(e) => Err(e)
    case Ok(tree) => if TypeOf(tree) == TBool then Ok(tree) else Err(BuildError)
  }

  /** An expression that is one word resolves that word, and nothing else. */
  lemma WordExpression(env: Env, fuel: nat, code: string)
    requires Word(code) && NotKeyword(code) == None
    ensures GenerateExpression(env, fuel, code) == WholeExpression(Resolve(Layers.Targeting, env, fuel, code))
  {
    var g := Layers.Targeting;
    var res := Resolve(g, env, fuel, code);
    WordChain(env, fuel, code);
    GenerateIsLambda(env, fuel, code);
    if res.Err? {
      ParserSteps.WholeChainAborts(g, env, fuel, code, res.error);
    } else {
      ParserSteps.WholeChainRead(g, env, fuel, code, res.value);
    }
  }

  lemma GenerateIsLambda(env: Env, fuel: nat, text: string)
    ensures GenerateExpression(env, fuel, text) == Lambda(Layers.Targeting, env, fuel, text)
  {
  }

  /**
   * There are no constants in targeting expressions: `true` or `42` is a reference code, and
   * without a criterion of that code the whole expression fails naming it.
   */
  lemma ConstantsAreReferences(env: Env, fuel: nat, code: string)
    requires code == "true" || code == "42"
    requires forall i :: 0 <= i < |env.criteria| ==> !EqualsIgnoreCase(env.criteria[i].referenceCode, code)
    ensures GenerateExpression(env, fuel, code) == Err(TargetExpressionError(code, UnresolvedReference))
  {
    assert Word(code);
    Layers.NoNotKeyword(code);
    UnresolvedCode(env, fuel, code);
    WordExpression(env, fuel, code);
  }

  /**
   * Segment resolution has no cycle guard: a segment whose text is its own code recurses until
   * the bound is exhausted, however large the bound.
   */
  lemma SelfReferenceNeverResolves(env: Env, fuel: nat, code: string, i: int)
    requires Word(code) && NotKeyword(code) == None
    requires FirstMatchAt(env.criteria, code, i) && env.criteria[i] == Segment(env.criteria[i].referenceCode, code)
    ensures Resolve(Layers.Targeting, env, fuel, code) == Err(RecursionLimit(code))
  {
    var g := Layers.Targeting;
    FirstMatchIsFound(env.criteria, code, i);
    forall f: nat ensures ParserSteps.ReadsBack(g, env, f, code) {
      WordChain(env, f, code);
    }
    ParserSteps.SegmentLoops(g, env, fuel, code, env.criteria[i].referenceCode);
  }

  /** `NOT` in any letter case, directly followed by a word, is the negation keyword. */
  lemma NotKeywordPrefix(name: string)
    requires name != [] && !IsWhiteSpace(name[0])
    ensures NotKeyword("NOT" + name) == Some(name)
  {
    var s := "NOT" + name;
    assert s[0] == 'N';
    SkipWsIdle(s);
    Layers.LiteralAtHead("NOT", true, name);
    SkipWsIdle(name);
  }

  lemma NegationOfComponent(g: Grammar, env: Env, fuel: nat, s: string, after: string, operand: Expr, rest: string)
    requires NotKeyword(s) == Some(after) && Component(g, env, fuel, after) == Match(operand, rest)
    requires TypeOf(operand) == TBool
    ensures Negation(g, env, fuel, s) == Match(Not(operand), SkipWs(rest))
  {
    assert MakeNot(operand) == Ok(Not(operand));
  }

  lemma OperandIsNegation(g: Grammar, env: Env, fuel: nat, s: string)
    requires Negation(g, env, fuel, s).Match?
    ensures ChainOperand(g, env, fuel, s) == Negation(g, env, fuel, s)
  {
  }

  /** A word naming a tag, read to the end, is the tag test. */
  lemma TagComponent(env: Env, fuel: nat, name: string, i: int)
    requires Word(name)
    requires FirstMatchAt(env.criteria, name, i) && env.criteria[i].Tag?
    ensures Component(Layers.Targeting, env, fuel, name) == Match(HasTag(name), "")
  {
    TagKeepsWrittenCode(env, fuel, name, i);
    assert name + "" == name;
    ReferenceComponent(env, fuel, name, "");
    assert SkipWs("") == "";
  }

  /** The negation keyword followed by a word naming a tag is the negated tag test. */
  lemma NegatedTag(env: Env, fuel: nat, s: string, name: string, i: int)
    requires Word(name) && NotKeyword(s) == Some(name)
    requires FirstMatchAt(env.criteria, name, i) && env.criteria[i].Tag?
    ensures Chain(Layers.Targeting, env, fuel, s) == Match(Not(HasTag(name)), "")
  {
    var g := Layers.Targeting;
    TagComponent(env, fuel, name, i);
    NegationOfComponent(g, env, fuel, s, name, HasTag(name), "");
    OperandIsNegation(g, env, fuel, s);
    SingleOperandChain(g, env, fuel, s);
  }

  /**
   * `NOT` is matched as a raw prefix: `NOTELIGIBLE` is the negation of the reference
   * `ELIGIBLE`, even when a criterion is named `NOTELIGIBLE`.
   */
  lemma NotPrefixNegates(env: Env, fuel: nat, name: string, i: int)
    requires Word(name)
    requires FirstMatchAt(env.criteria, name, i) && env.criteria[i].Tag?
    ensures GenerateExpression(env, fuel, "NOT" + name) == Ok(Not(HasTag(name)))
  {
    NotKeywordPrefix(name);
    NegatedTag(env, fuel, "NOT" + name, name, i);
    ParserSteps.WholeChain(Layers.Targeting, env, fuel, "NOT" + name);
  }
}
