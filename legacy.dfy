/**
 * The older façade `TargetExpressionParser` (Grammar/TargetExpressionParser.cs): it hands
 * every expression to the targeting grammar it is given, and still carries its own reference
 * resolution, rule dispatch by type name and the operations of its nested rule grammars.
 */
module LegacyParser {
  import opened Common
  import opened Text
  import opened Values
  import opened Ast
  import opened Lexer
  import opened Criteria
  import opened Parsing
  import StringOps
  import DateTimeOps
  import TargetingExpression
  import Layers

  /** A constructed façade: its own criteria and the grammar it delegates to. */
  datatype Parser = Parser(criteria: seq<Criterion>, grammar: Env)

  /**
   * The constructor checks the grammar first and the criteria last, so with both missing the
   * exception names the grammar.
   */
  function New(criteria: Option<seq<Criterion>>, grammar: Option<Env>): (r: Result<Parser, Error>)
    ensures grammar.None? ==> r == Err(ArgumentNull("grammar"))
    ensures grammar.Some? && criteria.None? ==> r == Err(ArgumentNull("criteria"))
    ensures r.Ok? <==> grammar.Some? && criteria.Some?
    ensures r.Ok? ==> r.value.grammar == grammar.value && r.value.criteria == criteria.value
  {
    if grammar.None? then Err(ArgumentNull("grammar"))
    else if criteria.None? then Err(ArgumentNull("criteria"))
    else Ok(Parser(criteria.value, grammar.value))
  }

  /** `GenerateExpression`: whatever the injected grammar makes of the text. */
  function GenerateExpression(p: Parser, fuel: nat, text: string): (r: Result<Expr, Error>)
    ensures r.Ok? ==> TypeOf(r.value) == TBool && WellTyped(r.value, None)
  {
    TargetingExpression.GenerateExpression(p.grammar, fuel, text)
  }

  /** The façade's own criteria play no part: two façades over one grammar agree on every text. */
  lemma OwnCriteriaUnused(p: Parser, q: Parser, fuel: nat, text: string)
    requires p.grammar == q.grammar
    ensures GenerateExpression(p, fuel, text) == GenerateExpression(q, fuel, text)
  {
  }

  /** `ValidateExpression` accepts every text. */
  function ValidateExpression(text: string): (r: bool)
    ensures r
  {
    true
  }

  // ---------------------------------------------------------------- reference resolution

  /** The kinds of rule the nested grammars serve, chosen by the name of the rule's type. */
  datatype RuleKind = Int32Rule | DoubleRule | StringRule | DateTimeRule

  /** The `switch` on `EvaluationType.Name`. */
  function RuleKindOf(typeName: string): (r: Option<RuleKind>)
    ensures r.Some? <==> typeName == "Int32" || typeName == "Double" || typeName == "String" || typeName == "DateTime"
    ensures r == Some(StringRule) <==> typeName == "String"
  {
    if typeName == "Int32" then Some(Int32Rule)
    else if typeName == "Double" then Some(DoubleRule)
    else if typeName == "String" then Some(StringRule)
    else if typeName == "DateTime" then Some(DateTimeRule)
    else None
  }

  /** What resolving a reference produces, before any nested parse is run. */
  datatype Resolution =
    /** The segment's text, for the façade's own chain parser. */
    | SegmentText(text: string)
    /** `evaluator.HasTag(code)` */
    | TagTest(code: string)
    /** The rule's criterion text for the nested grammar of its kind, applied to its target. */
    | RuleCall(kind: RuleKind, target: string, criterion: string)

  /**
   * `BuildEvaluationForTargetReference` with `BuildRuleExpression`: the first criterion whose
   * code matches ignoring case decides; a rule whose type name is not one of the four raises
   * the exception carrying the rule's stored code.
   */
  function ResolveReference(criteria: seq<Criterion>, code: string): (r: Result<Resolution, Error>)
    ensures FindCriterion(criteria, code).None? ==> r == Err(TargetExpressionError(code, UnresolvedReference))
    ensures r.Ok? && r.value.TagTest? ==> r.value.code == code
    ensures r.Ok? ==> exists i :: FirstMatchAt(criteria, code, i)
    ensures FindCriterion(criteria, code).Some? && FindCriterion(criteria, code).value.Other? ==>
              r == Err(TargetExpressionError(code, UnsupportedCriterionType))
  {
    FindCriterionFinds(criteria, code);
    match FindCriterion(criteria, code)
    case None => Err(TargetExpressionError(code, UnresolvedReference))
    case Some(Segment(_, text)) => Ok(SegmentText(text))
    case Some(Tag(_)) => Ok(TagTest(code))
    case Some(Rule(ruleCode, target, clrType, criterion)) =>
      (match RuleKindOf(TypeName(clrType))
       case None => Err(TargetExpressionError(ruleCode, UnsupportedRuleType))
       case Some(kind) => Ok(RuleCall(kind, target, criterion)))
    case Some(Other(_)) => Err(TargetExpressionError(code, UnsupportedCriterionType))
  }

  /**
   * The two resolvers disagree on rule types. The façade serves exactly the four names, so a
   * rule over `Int32`, `Double` or `DateTime` resolves there, while the targeting grammar
   * serves only types whose value can be null and refuses it.
   */
  lemma ValueTypeRulesDisagree(criteria: seq<Criterion>, env: Env, fuel: nat, code: string, i: int)
    requires FirstMatchAt(criteria, code, i) && criteria[i].Rule? && env.criteria == criteria
    requires criteria[i].evaluationType == ClrInt32 || criteria[i].evaluationType == ClrDouble
          || criteria[i].evaluationType == ClrDateTime
    ensures ResolveReference(criteria, code).Ok?
    ensures Resolve(Layers.Targeting, env, fuel, code) == Err(BuildError)
  {
    TargetingExpression.FirstMatchIsFound(criteria, code, i);
    TargetingExpression.RuleNeedsNullableType(env, fuel, code, i);
  }

  /**
   * The other half of the disagreement: the façade names `double?` and `DateTime?` as
   * `Nullable`1`, which is not one of its four names, so it refuses the very rule types the
   * targeting grammar serves.
   */
  lemma NullableRulesDisagree(criteria: seq<Criterion>, code: string, i: int)
    requires FirstMatchAt(criteria, code, i) && criteria[i].Rule?
    requires criteria[i].evaluationType == ClrNullableDouble || criteria[i].evaluationType == ClrNullableDateTime
    ensures ResolveReference(criteria, code) == Err(TargetExpressionError(criteria[i].referenceCode, UnsupportedRuleType))
  {
    TargetingExpression.FirstMatchIsFound(criteria, code, i);
  }

  /**
   * Dispatch looks at the type's name alone: any type named `String`, from whatever
   * namespace, is handed to the string grammar.
   */
  lemma DispatchByNameOnly(criteria: seq<Criterion>, code: string, i: int, isValueType: bool)
    requires FirstMatchAt(criteria, code, i) && criteria[i].Rule?
    requires criteria[i].evaluationType == ClrOther("String", isValueType)
    ensures ResolveReference(criteria, code)
         == Ok(RuleCall(StringRule, criteria[i].evaluationTarget, criteria[i].evaluationCriterion))
  {
    TargetingExpression.FirstMatchIsFound(criteria, code, i);
  }

  /** On tags, unknown codes and unknown kinds the façade resolves as the targeting grammar does. */
  lemma AgreesOnTagsAndErrors(criteria: seq<Criterion>, env: Env, fuel: nat, code: string)
    requires env.criteria == criteria
    requires FindCriterion(criteria, code).None? || FindCriterion(criteria, code).value.Tag? || FindCriterion(criteria, code).value.Other?
    ensures ResolveReference(criteria, code).Err? <==> Resolve(Layers.Targeting, env, fuel, code).Err?
    ensures ResolveReference(criteria, code).Err? ==>
              ResolveReference(criteria, code).error == Resolve(Layers.Targeting, env, fuel, code).error
    ensures ResolveReference(criteria, code).Ok? ==>
              Resolve(Layers.Targeting, env, fuel, code) == Ok(HasTag(ResolveReference(criteria, code).value.code))
  {
  }

  // ---------------------------------------------------------------- numeric constants

  const Int32Max: int := 0x7FFF_FFFF

  /** `Parse.Number.Token()` followed by `int.Parse`: digits only, no sign, no fraction. */
  function IntToken(s: string): (r: Reply<int>)
    ensures r.Match? ==> 0 <= r.value <= Int32Max && |r.rest| < |s|
    ensures r.Abort? ==> r.error.Overflow?
  {
    var (digits, rest) := Digits(SkipWs(s));
    if digits == [] then NoMatch
    else if DigitsValue(digits) > Int32Max then Abort(Overflow(digits))
    else Match(DigitsValue(digits), SkipWs(rest))
  }

  /** The decimal spelling of a natural number, without leading zeros. */
  function DecimalText(n: nat): (r: string)
    ensures r != [] && forall i :: 0 <= i < |r| ==> IsDigit(r[i])
  {
    var last := ['0' + (n % 10) as char];
    if n < 10 then last else DecimalText(n / 10) + last
  }

  lemma {:induction false} DecimalValue(n: nat)
    ensures DigitsValue(DecimalText(n)) == n
  {
    var d := DecimalText(n);
    if n >= 10 {
      DecimalValue(n / 10);
      assert d[..|d| - 1] == DecimalText(n / 10);
    }
  }

  lemma {:induction false} DigitsSplit(d: string, t: string)
    requires forall i :: 0 <= i < |d| ==> IsDigit(d[i])
    requires t == [] || !IsDigit(t[0])
    ensures Digits(d + t) == (d, t)
    decreases |d|
  {
    if d != [] {
      assert (d + t)[1..] == d[1..] + t;
      DigitsSplit(d[1..], t);
      assert [d[0]] + d[1..] == d;
    } else {
      assert d + t == t;
    }
  }

  /**
   * A number written in decimal reads back as itself when it fits in 32 bits, and raises
   * `OverflowException` when it does not.
   */
  lemma IntTokenRoundTrip(n: nat, t: string)
    requires t == [] || !IsDigit(t[0])
    ensures n <= Int32Max ==> IntToken(DecimalText(n) + t) == Match(n, SkipWs(t))
    ensures n > Int32Max ==> IntToken(DecimalText(n) + t) == Abort(Overflow(DecimalText(n)))
  {
    var s := DecimalText(n) + t;
    assert s[0] == DecimalText(n)[0];
    SkipWsIdle(s);
    DigitsSplit(DecimalText(n), t);
    DecimalValue(n);
  }

  // ---------------------------------------------------------------- operations of the nested grammars

  /** `StringOperations.Like`: substring containment. */
  function Like(source: string, part: string): (r: bool)
    ensures r <==> exists i :: StringOps.OccursAt(source, part, i)
  {
    StringOps.ContainsIffOccurs(source, part);
    StringOps.Contains(source, part)
  }

  /** `DateTimeFunctions.MonthOf` of the snapshot: a name for months 1..12; None where it throws. */
  function MonthOf(eventDate: Date): (r: Option<string>)
    ensures r.Some? <==> 1 <= eventDate.month <= 12
    ensures r == DateTimeOps.MonthOf(Some(eventDate))
  {
    DateTimeOps.MonthName(eventDate.month)
  }

  /**
   * The snapshot's `DayRangeFromDate` on a non-null date, with the current day of the year
   * read from `localNow`. It computes what the rule grammar's version computes.
   */
  method DayRangeFromDate(eventDate: Date, forwardsOnly: bool, localNow: Date) returns (r: int)
    ensures r == DateTimeOps.DayRange(eventDate.dayOfYear, localNow.dayOfYear, forwardsOnly)
    ensures DateTimeOps.DayRangeFromDate(Some(eventDate), forwardsOnly, localNow) == Finite(r as real)
  {
    var eventDay := eventDate.dayOfYear;
    var currentDay := localNow.dayOfYear;
    if forwardsOnly {
      if currentDay < eventDay {
        currentDay := currentDay + 365;
      }
      r := currentDay - eventDay;
    } else {
      if currentDay > eventDay {
        eventDay := eventDay + 365;
      }
      r := eventDay - currentDay;
    }
  }
}
