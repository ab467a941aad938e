# Targeting expressions, modelled in Dafny

This project models the expression compiler of a consumer-targeting application. A marketer
writes a targeting expression such as `NOT Churned AND (Segment1 OR HighSpend)`. The compiler
turns it into a boolean expression tree over an evaluator. Each name in the text is a
*reference code* that resolves to a criterion:

- a **tag** becomes a call to `HasTag(code)`;
- a **segment** has its stored expression text spliced in, parsed by the same grammar;
- a **rule** has its criterion text compiled by a rule grammar chosen by the rule's type
  (numeric, string, date-time or consumer events), then invoked on the value the evaluator
  returns for the rule's target.

The grammars form a chain of layers: simple → comparative → extensible → parametized, and
logical → targeting. Each layer adds operators or operand alternatives to the one below.
Here one parameterised parser family covers all of them:

- `Parsing.Grammar` records the ordered operator table, the ordered operand alternatives, the
  operator and function registries, whether numbers are nullable, and the rule parameter's type.
- `Layers` instantiates that family once per grammar class.

The parser follows the combinator library's semantics:

- alternatives are tried in order, and `Or` tries the next one whenever an alternative fails, even after it has read some input;
- `Token` skips white space on both sides;
- `ChainOperator` folds left with no precedence;
- an exception thrown while a parse result is built aborts the whole parse;
- `End` demands that all input is consumed.

Exceptions are an `Error` value. A `Reply` is `Match`, `NoMatch` or `Abort`. `System.Linq.Expressions`
type checks (`MakeBinary`, `Not`, `Call`, `Lambda<Func<bool>>`) are a small static type system
(`Ast.WellTyped`). `Semantics.Eval` gives the compiled tree its run-time meaning, and `EvalSound`
proves that well-typed trees never go wrong. Segments nest without a cycle check, so
resolution carries a bound on the nesting depth; `Fuel` proves that the bound changes nothing
but where resolution gives up.

The older façade `TargetExpressionParser` is modelled as well. It delegates to the targeting
grammar, but still has its own reference resolution, dispatch by type name, `int.Parse`
constants and rule operations. These are in `LegacyParser`.

The file `Grammar/TargetExpressionParser.cs` exists twice. The core one sits directly under
`Grammar/`; the thin one under `Grammar/Parser/` is not part of this model.

## Model

| member | source | states |
|---|---|---|
| Text.ToLower | Grammar/Grammar/ExtensibleExpressionGrammar.cs:26-27 | case folding yields no upper-case letter and keeps a character's class (letter, digit, white space) |
| Text.Fold | Grammar/Grammar/ExtensibleExpressionGrammar.cs:26-27 | the folded key has the text's length and folds every character |
| Text.SkipWs | Grammar/Grammar/LogicalExpressionGrammar.cs:27-34 | `Token` drops exactly the leading white space: the result is a suffix starting with a non-space, and everything dropped is white space |
| Text.LettersOrDigits | Grammar/Grammar/TargetingExpressionGrammar.cs:33-34 | `LetterOrDigit.AtLeastOnce` splits the text into a maximal run of letters or digits and the untouched remainder |
| Text.Digits | Grammar/TargetExpressionParser.cs:217-218 | `Parse.Number` takes the maximal run of decimal digits, and the remainder does not start with a digit |
| Text.MatchLiteral | Grammar/Grammar/LogicalExpressionGrammar.cs:27-34 | `Parse.String`/`Parse.IgnoreCase` succeed exactly when the text begins with the literal (ignoring case if asked) and leave what follows it |
| Values.NumOrder | Grammar/Grammar/NumericRuleExpressionGrammar.cs:9-10 | on doubles `<=` is `<` or `==`, both orders are total on non-NaN values, and NaN compares false with everything |
| Values.TypeAs | Grammar/Grammar/TargetingExpressionGrammar.cs:61 | `as T` keeps a value of type T and gives null for anything else |
| Ast.MakeBinary | Grammar/Grammar/LogicalExpressionGrammar.cs:80 | `Expression.MakeBinary` builds the node exactly when the operator is defined on the operand types, and otherwise throws |
| Ast.MakeNot | Grammar/Grammar/LogicalExpressionGrammar.cs:76-78 | `Expression.Not` is built only on a boolean operand, and otherwise throws |
| Ast.MakeCall | Grammar/Grammar/LogicalExpressionGrammar.cs:56-60 | `Expression.Call` is built exactly when the arguments' count and types fit the method, and otherwise throws |
| Lexer.Lexemes | Grammar/Grammar/LogicalExpressionGrammar.cs:27-34 | every operator has at least one spelling, and none is empty |
| Lexer.FirstLexeme | Grammar/Grammar/LogicalExpressionGrammar.cs:27-30 | a spelling that matches consumes input |
| Lexer.FirstLexemeFails | Grammar/Grammar/LogicalExpressionGrammar.cs:27-30 | an `Or` of spellings fails exactly when no spelling matches |
| Lexer.ParseOperator | Grammar/Grammar/LogicalExpressionGrammar.cs:36-37 | the operator table yields a listed operator whose own token matches, and consumes input |
| Lexer.ParseOperatorFails | Grammar/Grammar/LogicalExpressionGrammar.cs:36-37 | the operator table fails exactly when no operator's token matches |
| Lexer.NoOperatorAtEnd | Grammar/Grammar/LogicalExpressionGrammar.cs:36-37 | no operator is read at the end of the text |
| Lexer.NameToken | Grammar/Grammar/LogicalExpressionGrammar.cs:42 | an extension or reference name is a nonempty run of letters or digits, and reading it consumes input |
| Lexer.NumericPattern | Grammar/Grammar/LogicalExpressionGrammar.cs:64 | the pattern `-?[0-9]+(.[0-9]+)?` splits the text into a matched spelling and the rest; the spelling has digits, and its `.` is any character except a newline |
| Lexer.NumericValue | Grammar/Grammar/LogicalExpressionGrammar.cs:64-65 | `double.Parse` accepts the matched spelling exactly when its separator is one it can read (`.`, `,`, `e`, `E`) |
| Lexer.NumericToken | Grammar/Grammar/ComparativeExpressionGrammar.cs:33-34 | a number constant consumes input, and a spelling `double.Parse` rejects aborts with a format error |
| Lexer.StringLiteralRoundTrip | Grammar/Grammar/ComparativeExpressionGrammar.cs:35-41 | a string written with quotes and backslash escapes reads back as itself, and the trailing white space is skipped |
| Lexer.DecodeEscaped | Grammar/Grammar/ComparativeExpressionGrammar.cs:35-40 | the escape-aware body decoder stops at the first unescaped quote and returns the unescaped text |
| Lexer.ConstantToken | Grammar/Grammar/ComparativeExpressionGrammar.cs:43 | `Constant` (bool, then number, then string) yields a constant of its declared type; numbers are `double?` in rule grammars and `double` otherwise |
| Registry.Build | Grammar/Grammar/ExtensibleExpressionGrammar.cs:26-27 | `ToDictionary` with case-insensitive keys succeeds exactly when method names are distinct ignoring case, and files every method under its folded name |
| Registry.Lookup | Grammar/Grammar/LogicalExpressionGrammar.cs:43-44 | `ContainsKey` succeeds exactly when the folded name is a key |
| Registry.LookupIgnoresCase | Grammar/Grammar/ExtensibleExpressionGrammar.cs:28-30 | a name finds method m exactly when m is registered and its name equals the written name ignoring case |
| Registry.StringOperationsBuild | Grammar/Grammar/StringRuleExpressionGrammar.cs:29-66 | the four string operations build a registry without a duplicate-key exception |
| Registry.DateTimeFunctionsBuild | Grammar/Grammar/DateTimeRuleExpressionGrammar.cs:29-88 | the date-time functions build a registry without a duplicate-key exception |
| Registry.ConsumerEventFunctionsBuild | Grammar/Grammar/ConsumerEventExpressionGrammar.cs:20-59 | the consumer-event functions build a registry without a duplicate-key exception |
| Criteria.ExprType | Grammar/Grammar/TargetingExpressionGrammar.cs:61-63 | a rule type has an expression type only when it accepts null, and that type is nullable |
| Criteria.FindCriterion | Grammar/Grammar/TargetingExpressionGrammar.cs:44 | `FirstOrDefault` returns one of the criteria, or nothing |
| Criteria.FindCriterionFinds | Grammar/Grammar/TargetingExpressionGrammar.cs:44 | `FirstOrDefault` with a case-insensitive code finds nothing exactly when no criterion's code matches, and otherwise finds the first match |
| Parsing.CallWellTyped | Grammar/Grammar/LogicalExpressionGrammar.cs:56-60 | a call built from well-typed arguments that fit the method is well typed |
| Parsing.Chain | Grammar/Grammar/LogicalExpressionGrammar.cs:80 | a `ChainOperator` match consumes input and yields a well-typed tree |
| Parsing.ChainRest | Grammar/Grammar/LogicalExpressionGrammar.cs:80 | the left fold keeps the accumulated tree well typed and never grows the input |
| Parsing.BuildBinary | Grammar/Grammar/LogicalExpressionGrammar.cs:80 | `MakeBinary` builds `Binary(op, lhs, rhs)` exactly when the operator is defined on the operand types, and otherwise throws a build error |
| Parsing.ChainOperand | Grammar/Grammar/LogicalExpressionGrammar.cs:80 | the operand (negation, then infix extension operator, then operand) yields a well-typed tree |
| Parsing.Negation | Grammar/Grammar/LogicalExpressionGrammar.cs:76-78 | `NOT`/`!` followed by an operand yields a well-typed `Not` node |
| Parsing.ExtensionName | Grammar/Grammar/LogicalExpressionGrammar.cs:40-44 | no name token is no match; a registry with duplicate names aborts with the duplicate-key error; otherwise the reply is no match exactly when no method's name equals the word ignoring case, and a match is a registered method whose name equals the word ignoring case, with the reply continuing after the word |
| Parsing.Infix | Grammar/Grammar/LogicalExpressionGrammar.cs:45-48 | a match is a well-typed call of a registered operator on two arguments (the operands and their order are in ParserSteps.InfixReads) |
| Parsing.InfixRest | Grammar/Grammar/LogicalExpressionGrammar.cs:45-48 | after the left operand a match is a call of a registered operator on two arguments, the first being the left operand; no operator name is no match |
| Parsing.BuildInfix | Grammar/Grammar/LogicalExpressionGrammar.cs:48 | `Expression.Call(func, lhs, rhs)` is built, left before the rest, exactly when the operands fit the method, and otherwise throws a build error |
| Parsing.Component | Grammar/Grammar/LogicalExpressionGrammar.cs:82-86 | an operand alternative yields a well-typed tree |
| Parsing.Alternatives | Grammar/Grammar/LogicalExpressionGrammar.cs:82-86 | the ordered choice yields a well-typed tree |
| Parsing.Alternative | Grammar/Grammar/ParametizedExpressionGrammar.cs:25-30 | each alternative (parenthesised expression, function call, constant, parameter, reference) yields a well-typed tree that consumes input |
| Parsing.Paren | Grammar/Grammar/LogicalExpressionGrammar.cs:82-85 | a parenthesised expression consumes input and is well typed; no `(` is no match |
| Parsing.FunctionCall | Grammar/Grammar/LogicalExpressionGrammar.cs:56-60 | a function component is a well-typed call of a registered function |
| Parsing.Parameter | Grammar/Grammar/ParametizedExpressionGrammar.cs:26 | `x` is the parameter of the grammar's parameter type, and anything else is no match |
| Parsing.Reference | Grammar/Grammar/TargetingExpressionGrammar.cs:33-34 | no name token is no match; a match consumes input and is well typed |
| Parsing.ReferenceIsAlternative | Grammar/Grammar/TargetingExpressionGrammar.cs:35-38 | the reference alternative of an operand is the reference parser |
| Parsing.ReferenceResolves | Grammar/Grammar/TargetingExpressionGrammar.cs:33-34 | a word is resolved by its code, and the reply continues after the word |
| Parsing.Resolved | Grammar/Grammar/TargetingExpressionGrammar.cs:33-34 | a resolution error becomes an abort of the parse, and a tree a match |
| Parsing.CallRest | Grammar/Grammar/LogicalExpressionGrammar.cs:56-60 | after the function name a match is a well-typed call of that very function, and no `(` is no match (the arguments and their order are in ParserSteps.CallReads) |
| Parsing.Arguments | Grammar/Grammar/LogicalExpressionGrammar.cs:58 | the optional comma-separated argument list yields well-typed arguments and never grows the input |
| Parsing.MoreArguments | Grammar/Grammar/LogicalExpressionGrammar.cs:58 | the arguments read so far stay a prefix of the result and stay well typed; no comma ends the list unchanged |
| Parsing.Resolve | Grammar/Grammar/TargetingExpressionGrammar.cs:42-57 | a resolved reference is a well-typed tree |
| Parsing.BuildRule | Grammar/Grammar/TargetingExpressionGrammar.cs:59-69 | a compiled rule is an invocation of its body on the rule's own target, and is well typed with no parameter |
| Parsing.Lambda | Grammar/Grammar/LogicalExpressionGrammar.cs:88 | a compiled expression is a well-typed boolean over the grammar's parameter (`End` both ways is ParserSteps.WholeChain) |
| Layers.SimpleMatchesNothing | Grammar/Grammar/SimpleExpressionGrammar.cs:33-36 | the simple grammar's only operand is a parenthesised expression, so it matches no text at all |
| Layers.SimpleAcceptsNothing | Grammar/Grammar/SimpleExpressionGrammar.cs:38-61 | the simple grammar rejects every text with a parse error |
| Layers.ComparativeOrder | Grammar/Grammar/LogicalExpressionGrammar.cs:36-37 | the comparative operators are tried as `AND, OR, =, <>, <=, <, >=, >` |
| Layers.KeywordIsPrefix | Grammar/Grammar/LogicalExpressionGrammar.cs:27-28 | `AND` and `OR` are read as operators wherever they start the rest of the input |
| Layers.AndSplitsWord | Grammar/Grammar/LogicalExpressionGrammar.cs:27 | `AND` is matched as a prefix even inside a longer word (`ANDROID` reads as `AND ROID`) |
| Layers.LogicalOperator | Grammar/Grammar/LogicalExpressionGrammar.cs:27-28 | a printed `AND`/`OR` with a following space reads back as that operator |
| Layers.LiteralComponent | Grammar/Grammar/ComparativeExpressionGrammar.cs:28-29 | `true`/`false` read back as the boolean constant |
| Layers.ChainRestFolds | Grammar/Grammar/LogicalExpressionGrammar.cs:80 | a printed chain of `AND`/`OR` links parses to the left-nested fold of those links |
| Layers.ChainRestLiteralLink | Grammar/Grammar/LogicalExpressionGrammar.cs:80 | one printed `AND`/`OR` link with a literal extends the tree by that binary node |
| Layers.ReferenceDecides | Grammar/Grammar/TargetingExpressionGrammar.cs:35-38 | when no `(` starts the text, a name operand is its resolution |
| Layers.PrintedChainParses | Grammar/Grammar/LogicalExpressionGrammar.cs:80-88 | printing a boolean chain and parsing it gives back the left-nested tree |
| Layers.FoldTreeEvaluates | Grammar/Grammar/LogicalExpressionGrammar.cs:27-28 | the left-nested tree evaluates to the left fold of `&&`/`\|\|` |
| Layers.NoPrecedence | Grammar/Grammar/LogicalExpressionGrammar.cs:80 | `AND` does not bind tighter than `OR`: `true OR false AND false` is `(true OR false) AND false`, which is false |
| TargetingExpression.ParserTable | Grammar/Grammar/TargetingExpressionGrammar.cs:30 | `ToDictionary` by parameter type succeeds exactly when the types are distinct, and files every rule parser under its type |
| TargetingExpression.NewGrammar | Grammar/Grammar/TargetingExpressionGrammar.cs:25-31 | null criteria, then null rule parsers, throw `ArgumentNullException`; otherwise it is the rule-parser table |
| TargetingExpression.GenerateExpression | Grammar/Grammar/TargetingExpressionGrammar.cs:40 | succeeds exactly when the chain reads the whole text to a `bool` tree, which is the result, a boolean over the evaluator; text left after the chain is a syntax error |
| TargetingExpression.FirstMatchIsFound | Grammar/Grammar/TargetingExpressionGrammar.cs:44 | the first criterion whose code matches ignoring case is the one found |
| TargetingExpression.UnresolvedCode | Grammar/Grammar/TargetingExpressionGrammar.cs:46-49 | a code no criterion matches raises the targeting exception for that code |
| TargetingExpression.TagKeepsWrittenCode | Grammar/Grammar/TargetingExpressionGrammar.cs:53 | a tag becomes `HasTag` of the code as written in the expression, not the stored code |
| TargetingExpression.OtherKindUnsupported | Grammar/Grammar/TargetingExpressionGrammar.cs:55 | a criterion of any other kind raises the unsupported-type exception |
| TargetingExpression.SegmentSplices | Grammar/Grammar/TargetingExpressionGrammar.cs:52 | a segment becomes the tree its stored text parses to, and any trailing text is ignored |
| TargetingExpression.RuleNeedsNullableType | Grammar/Grammar/TargetingExpressionGrammar.cs:61 | a rule whose type is a non-nullable value type fails in `TypeAs`, before any parser is looked up |
| TargetingExpression.NullableValueTypeUnsupported | Grammar/Grammar/TargetingExpressionGrammar.cs:61-65 | a rule over a nullable value type other than `double?` and `DateTime?` (an `int?`) passes `TypeAs` but has no parser, and raises the unsupported-rule-type exception carrying the rule's stored code |
| TargetingExpression.RuleWithoutParser | Grammar/Grammar/TargetingExpressionGrammar.cs:63-65 | a rule type with no registered parser raises the exception carrying the rule's stored code |
| TargetingExpression.RuleIsInvoked | Grammar/Grammar/TargetingExpressionGrammar.cs:59-69 | a rule becomes its registered grammar's compiled criterion, invoked on the rule's target |
| TargetingExpression.ReferenceAlternative | Grammar/Grammar/TargetingExpressionGrammar.cs:33-34 | a name operand becomes whatever its reference resolves to, and a resolution error aborts the parse |
| TargetingExpression.WordExpression | Grammar/Grammar/TargetingExpressionGrammar.cs:35-40 | an expression that is a single name compiles to that name's resolution |
| TargetingExpression.WordChain | Grammar/Grammar/TargetingExpressionGrammar.cs:33-40 | a one-word text is a chain of one operand: the reference it names, read to the end |
| TargetingExpression.ConstantsAreReferences | Grammar/Grammar/TargetingExpressionGrammar.cs:35-38 | `true` or `42` with no criterion of that name are unresolved references, not constants |
| TargetingExpression.SelfReferenceNeverResolves | Grammar/Grammar/TargetingExpressionGrammar.cs:52 | a segment whose text is its own name never finishes resolving |
| ParserSteps.SegmentLoops | Grammar/Grammar/TargetingExpressionGrammar.cs:52 | a segment whose text reads back as the reference itself exhausts any bound |
| ParserSteps.SegmentAborts | Grammar/Grammar/TargetingExpressionGrammar.cs:52 | a segment whose text aborts fails the reference with the same error |
| ParserSteps.SegmentExhausted | Grammar/Grammar/TargetingExpressionGrammar.cs:52 | with no bound left a segment reports the recursion limit for its code |
| TargetingExpression.NegationOfComponent | Grammar/Grammar/LogicalExpressionGrammar.cs:76-78 | a `NOT` before a boolean operand yields the negation of that operand |
| TargetingExpression.NotPrefixNegates | Grammar/Grammar/LogicalExpressionGrammar.cs:76-78 | `NOT` written directly before a tag's name compiles to the negated tag test |
| ParserSteps.WholeChain | Grammar/Grammar/LogicalExpressionGrammar.cs:88 | `End` both ways: the result is `Ok` exactly when the chain read the whole text to a `bool` tree, which is the result; leftover text or no match is a syntax error, and an abort passes its error on |
| ParserSteps.WholeChainRead | Grammar/Grammar/LogicalExpressionGrammar.cs:88 | a chain read to the end is the expression when it is a `bool` tree, and a build error otherwise |
| ParserSteps.WholeChainAborts | Grammar/Grammar/LogicalExpressionGrammar.cs:88 | an aborted chain fails the whole expression with the same error |
| ParserSteps.InfixReads | Grammar/Grammar/LogicalExpressionGrammar.cs:45-48 | `a op b` matches exactly when the left operand, a registered operator name and the right operand are read and fit the method, and then is `Call(op, [a, b])` continuing after `b`; no left operand is no match |
| ParserSteps.InfixRestReads | Grammar/Grammar/LogicalExpressionGrammar.cs:46-48 | after the left operand, the operator name and the right operand make `Call(op, [lhs, rhs])`, and only then is there a match |
| ParserSteps.InfixParses | Grammar/Grammar/LogicalExpressionGrammar.cs:45-48 | the three parts read in turn make the call of the operator on them in the order written |
| ParserSteps.FunctionCallReads | Grammar/Grammar/LogicalExpressionGrammar.cs:52-56 | an unregistered name is no function call, a duplicate registry aborts, and a registered name continues with the rest of the call |
| ParserSteps.CallReads | Grammar/Grammar/LogicalExpressionGrammar.cs:56-60 | after the name, `(`, the arguments and `)` match exactly when the arguments fit, and then make `Call(f, arguments)` in the order read |
| ParserSteps.ArgumentsStart | Grammar/Grammar/LogicalExpressionGrammar.cs:58 | the argument list is empty when no operand follows, aborts when the operand aborts, and otherwise starts with that operand |
| ParserSteps.MoreArgumentsStep | Grammar/Grammar/LogicalExpressionGrammar.cs:58 | a `, operand` pair appends its operand; no comma, or a comma without an operand, ends the list before the comma |
| ParserSteps.MoreArgumentsFold | Grammar/Grammar/LogicalExpressionGrammar.cs:58 | a run of `, operand` pairs appends the operands in the order read |
| ParserSteps.CallParses | Grammar/Grammar/LogicalExpressionGrammar.cs:56-60 | `f(a1, …, an)` is the call of `f` on `[a1, …, an]` in order |
| ParserSteps.EmptyCall | Grammar/Grammar/LogicalExpressionGrammar.cs:56-60 | `f()` is the call of `f` on no arguments |
| ParserSteps.ParamAlternative | Grammar/Grammar/ParametizedExpressionGrammar.cs:26 | `x` reads as the parameter of the grammar's type, and is no match in a grammar without a parameter |
| LegacyParser.New | Grammar/TargetExpressionParser.cs:37-60 | a null grammar is reported before null criteria; otherwise the façade keeps both |
| LegacyParser.GenerateExpression | Grammar/TargetExpressionParser.cs:63-67 | the façade's result is the injected grammar's, a boolean tree |
| LegacyParser.OwnCriteriaUnused | Grammar/TargetExpressionParser.cs:63-67 | two façades over the same grammar agree on every text, whatever criteria they hold |
| LegacyParser.ValidateExpression | Grammar/TargetExpressionParser.cs:69-72 | every text is reported valid |
| LegacyParser.RuleKindOf | Grammar/TargetExpressionParser.cs:100-116 | rule dispatch accepts exactly the type names `Int32`, `Double`, `String` and `DateTime` |
| LegacyParser.ResolveReference | Grammar/TargetExpressionParser.cs:75-94 | an unknown code and an unsupported kind raise the targeting exception, and a tag tests the written code |
| LegacyParser.ValueTypeRulesDisagree | Grammar/TargetExpressionParser.cs:96-118 | the façade accepts `Int32`, `Double` and `DateTime` rules that the targeting grammar refuses to build |
| LegacyParser.NullableRulesDisagree | Grammar/TargetExpressionParser.cs:96-118 | the façade refuses the `double?` and `DateTime?` rules that the targeting grammar serves, since it sees only the name `Nullable`1` |
| LegacyParser.DispatchByNameOnly | Grammar/TargetExpressionParser.cs:100-116 | any type named `String`, from any namespace, goes to the string grammar |
| LegacyParser.AgreesOnTagsAndErrors | Grammar/TargetExpressionParser.cs:75-94 | on tags, unknown codes and unknown kinds the façade resolves exactly as the targeting grammar does |
| LegacyParser.IntToken | Grammar/TargetExpressionParser.cs:217-218 | an integer constant is a nonnegative 32-bit value, and digits beyond `int.MaxValue` raise an overflow |
| LegacyParser.IntTokenRoundTrip | Grammar/TargetExpressionParser.cs:266-267 | a decimal number reads back as itself when it fits in 32 bits, and overflows otherwise |
| LegacyParser.Like | Grammar/TargetExpressionParser.cs:182-185 | `Like` holds exactly when the part occurs in the source at some position |
| LegacyParser.MonthOf | Grammar/TargetExpressionParser.cs:311-328 | a month name is produced exactly for months 1..12, matching the rule grammar's version |
| LegacyParser.DayRangeFromDate | Grammar/TargetExpressionParser.cs:336-353 | the day range it computes step by step equals the rule grammar's day range |
| StringOps.ContainsIffOccurs | Grammar/Grammar/StringRuleExpressionGrammar.cs:29-32 | `Contains` holds exactly when the part occurs at some position |
| StringOps.StartsWith | Grammar/Grammar/StringRuleExpressionGrammar.cs:40-43 | the source starts with the text exactly when it is that text followed by something |
| StringOps.EndsWith | Grammar/Grammar/StringRuleExpressionGrammar.cs:51-54 | the source ends with the text exactly when it is something followed by that text |
| StringOps.AffixIsContained | Grammar/Grammar/StringRuleExpressionGrammar.cs:29-54 | a prefix or suffix is also contained |
| StringOps.RegexCache.GetOrAdd | Grammar/Grammar/StringRuleExpressionGrammar.cs:21-64 | the cache returns the pattern's regex, adds it if missing, and leaves a present entry alone |
| StringOps.RegexCache.Matches | Grammar/Grammar/StringRuleExpressionGrammar.cs:62-66 | the cached match answers as the regex engine does and caches the pattern |
| StringOps.RegexMatches | Grammar/Grammar/StringRuleExpressionGrammar.cs:62-66 | a match result exists exactly when source and pattern are non-null, and it is the engine's answer |
| StringOps.MatchesTwice | Grammar/Grammar/StringRuleExpressionGrammar.cs:62-66 | asking twice gives the same answer, and the cache holds the pattern once |
| DateTimeOps.MonthName | Grammar/Grammar/DateTimeRuleExpressionGrammar.cs:34-49 | months 1..12 have names in calendar order; any other month throws |
| DateTimeOps.MonthNamesDistinct | Grammar/Grammar/DateTimeRuleExpressionGrammar.cs:34-47 | different months have different names |
| DateTimeOps.MonthOf | Grammar/Grammar/DateTimeRuleExpressionGrammar.cs:29-50 | a null date gives the empty string, and otherwise the month's name |
| DateTimeOps.DayRangeBounds | Grammar/Grammar/DateTimeRuleExpressionGrammar.cs:67-88 | the day range is between 0 and 365, and 0 on the same day |
| DateTimeOps.DayRangeIsModular | Grammar/Grammar/DateTimeRuleExpressionGrammar.cs:76-87 | within a 365-day year, looking forwards is today minus the event day modulo 365, and looking backwards is the reverse |
| DateTimeOps.DayRangeDirectionsSum | Grammar/Grammar/DateTimeRuleExpressionGrammar.cs:76-87 | on different days the forwards and backwards ranges add up to 365 |
| DateTimeOps.DayRangeFromDate | Grammar/Grammar/DateTimeRuleExpressionGrammar.cs:67-88 | a null date gives NaN and only a null date does; otherwise it is the day range from today's local day of the year |
| EventOps.Filter | Grammar/Grammar/ConsumerEventExpressionGrammar.cs:23 | `Where` keeps exactly the events that satisfy the test and never adds any |
| EventOps.FilterAppend | Grammar/Grammar/ConsumerEventExpressionGrammar.cs:23 | filtering a concatenation filters each part in order |
| EventOps.FilterSplitCount | Grammar/Grammar/ConsumerEventExpressionGrammar.cs:44-54 | disjoint tests that cover a third split its count |
| EventOps.FilterMonotone | Grammar/Grammar/ConsumerEventExpressionGrammar.cs:23 | a weaker test keeps at least as many events |
| EventOps.SumSplit | Grammar/Grammar/ConsumerEventExpressionGrammar.cs:39-40 | the values kept and the values dropped add up to the total |
| EventOps.FilterCountsPositions | Grammar/Grammar/ConsumerEventExpressionGrammar.cs:23-24 | `Where(...).Count()` is the number of positions whose event passes the test |
| EventOps.FilterSumsPositions | Grammar/Grammar/ConsumerEventExpressionGrammar.cs:39-40 | `Where(...).Sum(e => e.Value ?? 0)` is the sum of the values at the positions whose event passes the test |
| EventOps.Cutoff | Grammar/Grammar/ConsumerEventExpressionGrammar.cs:22 | the cut-off is now minus the days (0 for null), and a non-finite day count makes `AddDays` throw |
| EventOps.EventsInDayRange | Grammar/Grammar/ConsumerEventExpressionGrammar.cs:20-25 | a bad day count throws, then a null list throws; otherwise the result is the number of positions whose event occurred after the cut-off, between 0 and the number of events |
| EventOps.EventsInDayRangeNullDays | Grammar/Grammar/ConsumerEventExpressionGrammar.cs:22 | null days count like 0 days |
| EventOps.EventsInDayRangeMonotone | Grammar/Grammar/ConsumerEventExpressionGrammar.cs:20-25 | a longer window counts at least as many events |
| EventOps.LatestInstant | Grammar/Grammar/ConsumerEventExpressionGrammar.cs:29-30 | the most recent instant bounds all events and belongs to one of them |
| EventOps.DaysSinceLastEvent | Grammar/Grammar/ConsumerEventExpressionGrammar.cs:27-34 | a null list throws, and exactly the empty list gives positive infinity |
| EventOps.DaysSinceLastEventIsMinimum | Grammar/Grammar/ConsumerEventExpressionGrammar.cs:29-33 | for a nonempty list the answer is a finite whole number, at most the days since any event and within one day of the days since some event: the days since the latest event, rounded down |
| EventOps.SumOfValueInDays | Grammar/Grammar/ConsumerEventExpressionGrammar.cs:36-42 | a bad day count throws, then a null list throws; otherwise the result is the sum of `Value ?? 0` over the positions whose event occurred after the cut-off |
| EventOps.SumOfValueInDaysBounds | Grammar/Grammar/ConsumerEventExpressionGrammar.cs:36-42 | with nonnegative values the windowed sum is between 0 and the total |
| EventOps.EventsExceedingValue | Grammar/Grammar/ConsumerEventExpressionGrammar.cs:44-48 | a null list throws; otherwise the result is the number of positions whose event has a value of at least the threshold (lifted: false on null) |
| EventOps.EventsLessThanValue | Grammar/Grammar/ConsumerEventExpressionGrammar.cs:50-54 | a null list throws; otherwise the result is the number of positions whose event has a value below the threshold (lifted: false on null) |
| EventOps.ExceedingAndLessThanSplit | Grammar/Grammar/ConsumerEventExpressionGrammar.cs:44-54 | for a finite threshold the two counts add up to the events that have a value; for a null or NaN threshold both are 0; for +∞ only the less-than count is nonzero |
| EventOps.ForMarket | Grammar/Grammar/ConsumerEventExpressionGrammar.cs:56-59 | keeps exactly the events whose market equals the given one ignoring case; a null list throws |
| EventOps.ForMarketIdempotent | Grammar/Grammar/ConsumerEventExpressionGrammar.cs:56-59 | filtering by a market twice is filtering once |
| EventOps.ForMarketAppend | Grammar/Grammar/ConsumerEventExpressionGrammar.cs:56-59 | filtering a concatenation filters each part |
| Semantics.Equal | Grammar/Grammar/LogicalExpressionGrammar.cs:29-30 | equality is defined on any two values of one non-collection type, and null equals only null |
| Semantics.Less | Grammar/Grammar/LogicalExpressionGrammar.cs:31-34 | ordering is defined on numbers and dates, and a lifted comparison with null is false |
| Semantics.StringTest | Grammar/Grammar/StringRuleExpressionGrammar.cs:29-54 | a null source throws `NullReferenceException`, a null argument throws `ArgumentNullException`, and otherwise it is the test's answer |
| Semantics.Apply | Grammar/Grammar/ExtensibleExpressionGrammar.cs:44-48 | calling an operation on arguments of its parameter types never goes wrong, and returns its declared type |
| Semantics.EvalSound | Grammar/Grammar/LogicalExpressionGrammar.cs:88 | a well-typed compiled tree evaluates without a type error to a value of its type |
| Semantics.BinarySound | Grammar/Grammar/LogicalExpressionGrammar.cs:80 | a binary node built by `MakeBinary` evaluates to a boolean |
| Semantics.CompareSound | Grammar/Grammar/LogicalExpressionGrammar.cs:29-34 | a comparison between values of the types `MakeBinary` accepted always has an answer |
| Semantics.EvalArgsSound | Grammar/Grammar/LogicalExpressionGrammar.cs:56-60 | well-typed arguments evaluate to values that fit the method's parameters |
| Semantics.ShortCircuit | Grammar/Grammar/LogicalExpressionGrammar.cs:27-28 | `AND` with a false left side and `OR` with a true left side ignore the right side |
| Semantics.ComparisonDuality | Grammar/Grammar/LogicalExpressionGrammar.cs:29-30 | `<>` is the negation of `=` |
| Semantics.NullOrdersNothing | Grammar/Grammar/LogicalExpressionGrammar.cs:31-34 | every ordering comparison with a null left side is false |
| Semantics.NullOrders | Grammar/Grammar/LogicalExpressionGrammar.cs:31-34 | an ordering comparison with a null left side is false |
| Fuel.ChainFuel | Grammar/Grammar/TargetingExpressionGrammar.cs:52 | a chain that did not give up at the nesting bound reads the same under a bound one larger |
| Fuel.ChainRestFuel | Grammar/Grammar/LogicalExpressionGrammar.cs:80 | the same for the left fold after the first operand |
| Fuel.ChainRestCaseFuel | Grammar/Grammar/LogicalExpressionGrammar.cs:80 | the same for one fold step, given the next operator |
| Fuel.ChainOperandFuel | Grammar/Grammar/LogicalExpressionGrammar.cs:80 | the same for a chain operand |
| Fuel.NegationFuel | Grammar/Grammar/LogicalExpressionGrammar.cs:76-78 | the same for a negation |
| Fuel.InfixFuel | Grammar/Grammar/LogicalExpressionGrammar.cs:45-48 | the same for an extension operator |
| Fuel.InfixRestFuel | Grammar/Grammar/LogicalExpressionGrammar.cs:46-48 | the same after an extension operator's left operand |
| Fuel.InfixCaseFuel | Grammar/Grammar/LogicalExpressionGrammar.cs:46-48 | the same for what follows an operator name |
| Fuel.ComponentFuel | Grammar/Grammar/TargetingExpressionGrammar.cs:35-38 | the same for an operand |
| Fuel.AlternativesFuel | Grammar/Grammar/TargetingExpressionGrammar.cs:35-38 | the same for the ordered choice |
| Fuel.AlternativeFuel | Grammar/Grammar/TargetingExpressionGrammar.cs:35-38 | the same for each alternative |
| Fuel.ParenFuel | Grammar/Grammar/TargetingExpressionGrammar.cs:35-38 | the same for a parenthesised expression |
| Fuel.FunctionCallFuel | Grammar/Grammar/LogicalExpressionGrammar.cs:56-60 | the same for a function call |
| Fuel.ReferenceFuel | Grammar/Grammar/TargetingExpressionGrammar.cs:33-34 | the same for a reference |
| Fuel.CallRestFuel | Grammar/Grammar/LogicalExpressionGrammar.cs:56-60 | the same for the rest of a call |
| Fuel.ArgumentsFuel | Grammar/Grammar/LogicalExpressionGrammar.cs:58 | the same for an argument list |
| Fuel.MoreArgumentsFuel | Grammar/Grammar/LogicalExpressionGrammar.cs:58 | the same for the arguments after the first |
| Fuel.ResolveFuel | Grammar/Grammar/TargetingExpressionGrammar.cs:42-57 | a resolution that did not give up at the bound is the same under a bound one larger |
| Fuel.BuildRuleFuel | Grammar/Grammar/TargetingExpressionGrammar.cs:59-69 | a rule is compiled the same under any bound |
| Fuel.LambdaFuel | Grammar/Grammar/LogicalExpressionGrammar.cs:88 | the same for a whole expression |
| Fuel.GenerateExpressionSettles | Grammar/Grammar/TargetingExpressionGrammar.cs:40 | a compiled targeting expression that did not give up at the nesting bound is the same under every larger bound |

## Left out

- Floating point: numbers are exact reals plus NaN and +∞. IEEE rounding, overflow to infinity and huge exponents are not modelled.
- Culture: `double.Parse` and `StartsWith`/`EndsWith` are culture-sensitive. The model uses ordinal comparison and the invariant culture's separators.
- Case folding, letters and digits are ASCII only: `char.IsLetterOrDigit` and case folding beyond ASCII are not modelled. White space is the full `char.IsWhiteSpace` set.
- The regular-expression engine is a parameter (`matcher`). Invalid patterns, which make `new Regex` throw, are not modelled.
- The clock (`DateTime.UtcNow`, `DateTime.Now`) is a parameter. The local and UTC clocks are two separate `Date` arguments, and time zones are not modelled.
- Null elements inside an event list, and null reference codes in criteria, are not modelled.
- Equality on event collections: .NET compares them by reference. The model refuses to build that comparison.
- Recursion depth: the source overflows the stack on a segment that refers to itself. The model uses a fuel bound and reports `RecursionLimit`. `Fuel.GenerateExpressionSettles` shows the bound changes no other result.
- Logging through `ILogger` is left out. It has no effect on results.
- The façade's own nested grammar syntax in `Grammar/TargetExpressionParser.cs` (`_lambda` and the nested `*ExpressionGrammar` classes' parsers) is left out. The façade no longer calls it, so it never runs. Its operations, reference resolution, type dispatch and `int.Parse` constants are modelled. `Expression.Convert` on the rule target and the `XOr` choice in `_term` are left out with it.
- `ConsumerEvaluator`, dependency-injection wiring, the demo program and the interfaces are not part of this model.
- `DateTime.AddDays` range limits are modelled only for non-finite day counts; finite counts outside the representable date range are not modelled.
- Exception serialization (`GetObjectData`) and exception messages are not modelled. Errors carry only their kind and reference code.
- `ConcurrentDictionary` thread safety: the regex cache is modelled single-threaded.
- `DateTimeOps.DayRangeFromDate`: follows the code, not the prose description of the function. Looking forwards it gives today minus the event day, wrapped by 365.
- `LegacyParser.ValidateExpression`: it is modelled as the source writes it, returning true for every text.
- Parsing.Infix: its own contract gives only the shape and typing of the call. The operands and their order are stated by `ParserSteps.InfixReads` and `ParserSteps.InfixParses`, so that the mutually recursive parsers' contracts stay small enough to verify quickly.
- Parsing.InfixRest: likewise; the operator and the right operand are stated by `ParserSteps.InfixRestReads`.
- Parsing.CallRest: likewise; the arguments and their order are stated by `ParserSteps.CallReads` and `ParserSteps.CallParses`.
- Parsing.Arguments: likewise; the arguments read, in order, and `()` giving none are stated by `ParserSteps.ArgumentsStart`, `ParserSteps.CallParses` and `ParserSteps.EmptyCall`.
- Parsing.MoreArguments: likewise; appending each further argument in order is stated by `ParserSteps.MoreArgumentsStep` and `ParserSteps.MoreArgumentsFold`.
