/**
 * The tokens of the expression grammars: the binary operators, the negation keyword,
 * names, the bound parameter `x`, and the bool, numeric and string literals of
 * ComparativeExpressionGrammar.
 */
module Lexer {
  import opened Common
  import opened Text
  import opened Values
  import opened Ast

  // ---------------------------------------------------------------- operators

  /** The alternatives of one operator parser, in the order `Or` tries them: (text, ignore case). */
  function Lexemes(op: BinOp): (r: seq<(string, bool)>)
    ensures r != [] && forall i :: 0 <= i < |r| ==> r[i].0 != []
  {
    match op
    case And => [("AND", true), ("&&", false)]
    case Or => [("OR", true), ("||", false)]
    case Eq => [("==", false), ("=", false)]
    case Ne => [("<>", false), ("!=", false)]
    case Le => [("<=", false)]
    case Lt => [("<", false)]
    case Ge => [(">=", false)]
    case Gt => [(">", false)]
  }

  /** The first lexeme in `lexemes` that `s` starts with; the input after it. */
  function FirstLexeme(lexemes: seq<(string, bool)>, s: string): (r: Option<string>)
    requires forall i :: 0 <= i < |lexemes| ==> lexemes[i].0 != []
    ensures r.Some? ==> |r.value| < |s|
  {
    if lexemes == [] then None
    else match MatchLiteral(lexemes[0].0, lexemes[0].1, s)
      case Some(rest) => Some(rest)
      case None => FirstLexeme(lexemes[1..], s)
  }

  /** An `Or` of spellings fails exactly when no spelling matches. */
  lemma {:induction false} FirstLexemeFails(lexemes: seq<(string, bool)>, s: string)
    requires forall i :: 0 <= i < |lexemes| ==> lexemes[i].0 != []
    ensures FirstLexeme(lexemes, s).None? <==>
              forall i :: 0 <= i < |lexemes| ==> MatchLiteral(lexemes[i].0, lexemes[i].1, s).None?
    decreases |lexemes|
  {
    if lexemes != [] {
      var tail := lexemes[1..];
      FirstLexemeFails(tail, s);
      if MatchLiteral(lexemes[0].0, lexemes[0].1, s).None? {
        forall i | 0 <= i < |lexemes| && MatchLiteral(lexemes[i].0, lexemes[i].1, s).Some?
          ensures exists j :: 0 <= j < |tail| && MatchLiteral(tail[j].0, tail[j].1, s).Some?
        {
          assert tail[i - 1] == lexemes[i];
        }
      }
    }
  }

  /** `op.Token()`: the input after the operator and the whitespace around it. */
  function OperatorToken(op: BinOp, s: string): (r: Option<string>)
    ensures r.Some? ==> |r.value| < |s|
  {
    match FirstLexeme(Lexemes(op), SkipWs(s))
    case Some(rest) => Some(SkipWs(rest))
    case None => None
  }

  /** `BinaryOperators`: the operators of the table tried in order; the first that matches wins. */
  function ParseOperator(ops: seq<BinOp>, s: string): (r: Option<(BinOp, string)>)
    ensures r.Some? ==> |r.value.1| < |s| && r.value.0 in ops
    ensures r.Some? ==> OperatorToken(r.value.0, s) == Some(r.value.1)
  {
    if ops == [] then None
    else match OperatorToken(ops[0], s)
      case Some(rest) => Some((ops[0], rest))
      case None => ParseOperator(ops[1..], s)
  }

  /** The operator table fails exactly when no operator's token matches. */
  lemma {:induction false} ParseOperatorFails(ops: seq<BinOp>, s: string)
    ensures ParseOperator(ops, s).None? <==> forall i :: 0 <= i < |ops| ==> OperatorToken(ops[i], s).None?
    decreases |ops|
  {
    if ops != [] {
      var tail := ops[1..];
      ParseOperatorFails(tail, s);
      if OperatorToken(ops[0], s).None? {
        forall i | 0 <= i < |ops| && OperatorToken(ops[i], s).Some?
          ensures exists j :: 0 <= j < |tail| && OperatorToken(tail[j], s).Some?
        {
          assert tail[i - 1] == ops[i];
        }
      }
    }
  }

  /** No operator is read at the end of the input. */
  lemma NoOperatorAtEnd(ops: seq<BinOp>)
    ensures ParseOperator(ops, "") == None
  {
    forall i | 0 <= i < |ops| ensures OperatorToken(ops[i], "").None? {
      var lexemes := Lexemes(ops[i]);
      FirstLexemeFails(lexemes, "");
    }
    ParseOperatorFails(ops, "");
  }

  // ---------------------------------------------------------------- keywords and names

  /** `Parse.IgnoreCase("NOT").Or(Parse.String("!")).Token()` */
  function NotKeyword(s: string): (r: Option<string>)
    ensures r.Some? ==> |r.value| < |s|
  {
    match FirstLexeme([("NOT", true), ("!", false)], SkipWs(s))
    case Some(rest) => Some(SkipWs(rest))
    case None => None
  }

  /** `Parse.LetterOrDigit.AtLeastOnce().Text().Token()`: a name and the input after it. */
  function NameToken(s: string): (r: Option<(string, string)>)
    ensures r.Some? ==> |r.value.1| < |s| && r.value.0 != []
    ensures r.Some? ==> forall i :: 0 <= i < |r.value.0| ==> IsLetterOrDigit(r.value.0[i])
  {
    var (name, rest) := LettersOrDigits(SkipWs(s));
    if name == [] then None else Some((name, SkipWs(rest)))
  }

  /** `Parse.String("x").Token()`: the bound parameter. */
  function ParameterToken(s: string): (r: Option<string>)
    ensures r.Some? ==> |r.value| < |s|
  {
    match MatchLiteral("x", false, SkipWs(s))
    case Some(rest) => Some(SkipWs(rest))
    case None => None
  }

  /** `Parse.Char(c).Token()` */
  function CharToken(c: char, s: string): (r: Option<string>)
    ensures r.Some? ==> |r.value| < |s|
  {
    var t := SkipWs(s);
    if t != [] && t[0] == c then Some(SkipWs(t[1..])) else None
  }

  // ---------------------------------------------------------------- bool literals

  /**
   * `Parse.IgnoreCase("true").Or(Parse.IgnoreCase("false")).Text().Token()` followed by
   * `bool.Parse`, which accepts both words in any letter case.
   */
  function BoolToken(s: string): (r: Option<(bool, string)>)
    ensures r.Some? ==> |r.value.1| < |s|
  {
    var t := SkipWs(s);
    match MatchLiteral("true", true, t)
    case Some(rest) => Some((true, SkipWs(rest)))
    case None =>
      match MatchLiteral("false", true, t)
      case Some(rest) => Some((false, SkipWs(rest)))
      case None => None
  }

  // ---------------------------------------------------------------- numeric literals

  /**
   * A match of the pattern `-?[0-9]+(.[0-9]+)?`: the sign, the leading digits and, when the
   * optional group matched, the character the unescaped `.` matched and the digits after it.
   */
  datatype NumericText = NumericText(negative: bool, whole: string, sep: Option<char>, fraction: string)

  function Spelling(n: NumericText): string {
    (if n.negative then "-" else "") + n.whole + (if n.sep.Some? then [n.sep.value] else []) + n.fraction
  }

  /**
   * The regular-expression match at the head of `s`, and what follows it. `[0-9]+` is greedy;
   * the `.` matches any character except a line feed, and the group is taken whenever a
   * digit follows that character.
   */
  function NumericPattern(s: string): (r: Option<(NumericText, string)>)
    ensures r.Some? ==> Spelling(r.value.0) + r.value.1 == s
    ensures r.Some? ==> r.value.0.whole != [] && (r.value.0.sep.Some? <==> r.value.0.fraction != [])
    ensures r.Some? ==> forall i :: 0 <= i < |r.value.0.whole| ==> IsDigit(r.value.0.whole[i])
    ensures r.Some? ==> forall i :: 0 <= i < |r.value.0.fraction| ==> IsDigit(r.value.0.fraction[i])
    ensures r.Some? && r.value.0.sep.Some? ==> r.value.0.sep.value != '\n'
  {
    var negative := s != [] && s[0] == '-';
    var body := if negative then s[1..] else s;
    var (whole, afterWhole) := Digits(body);
    if whole == [] then None
    else if |afterWhole| >= 2 && afterWhole[0] != '\n' && IsDigit(afterWhole[1]) then
      var (fraction, rest) := Digits(afterWhole[1..]);
      SpellingWithGroup(s, negative, whole, afterWhole, fraction, rest);
      Some((NumericText(negative, whole, Some(afterWhole[0]), fraction), rest))
    else
      SpellingWithoutGroup(s, negative, whole, afterWhole);
      Some((NumericText(negative, whole, None, []), afterWhole))
  }

  /** The sign, then the body: `s` is put back together from the text that follows its sign. */
  lemma SignedBody(s: string, negative: bool, body: string)
    requires negative <==> s != [] && s[0] == '-'
    requires body == if negative then s[1..] else s
    ensures (if negative then "-" else "") + body == s
  {
    if negative {
      assert ("-" + s[1..])[0] == s[0];
      assert "-" + s[1..] == s;
    }
  }

  lemma SpellingWithoutGroup(s: string, negative: bool, whole: string, rest: string)
    requires negative <==> s != [] && s[0] == '-'
    requires whole + rest == if negative then s[1..] else s
    ensures Spelling(NumericText(negative, whole, None, [])) + rest == s
  {
    var sign := if negative then "-" else "";
    SignedBody(s, negative, whole + rest);
    assert sign + whole + [] + [] + rest == sign + (whole + rest);
  }

  lemma SpellingWithGroup(s: string, negative: bool, whole: string, afterWhole: string, fraction: string, rest: string)
    requires negative <==> s != [] && s[0] == '-'
    requires whole + afterWhole == if negative then s[1..] else s
    requires afterWhole != [] && fraction + rest == afterWhole[1..]
    ensures Spelling(NumericText(negative, whole, Some(afterWhole[0]), fraction)) + rest == s
  {
    var sign := if negative then "-" else "";
    SignedBody(s, negative, whole + afterWhole);
    assert [afterWhole[0]] + afterWhole[1..] == afterWhole;
    assert sign + whole + [afterWhole[0]] + fraction + rest == sign + (whole + ([afterWhole[0]] + (fraction + rest)));
  }

  function DigitValue(c: char): nat
    requires IsDigit(c)
  {
    c as int - '0' as int
  }

  /** The value of a string of decimal digits. */
  function DigitsValue(d: string): nat
    requires forall i :: 0 <= i < |d| ==> IsDigit(d[i])
  {
    if d == [] then 0 else DigitsValue(d[..|d| - 1]) * 10 + DigitValue(d[|d| - 1])
  }

  /** `m` with `e` zeros appended: `m * 10^e`. */
  function Scale(m: nat, e: nat): (r: nat)
    ensures m > 0 ==> r >= m
  {
    if e == 0 then m else Scale(m, e - 1) * 10
  }

  /** `x` with the decimal point moved `k` places to the left: `x / 10^k`. */
  function Shift(x: real, k: nat): (r: real)
    ensures 0.0 <= x ==> 0.0 <= r <= x
  {
    if k == 0 then x else Shift(x, k - 1) / 10.0
  }

  /**
   * `double.Parse` of the matched text, with invariant-culture number formatting: `.` is the
   * decimal point, `,` a group separator that is skipped, `e`/`E` starts an exponent; any
   * other character in the wildcard position is a `FormatException`.
   */
  function NumericValue(n: NumericText): (r: Option<real>)
    requires forall i :: 0 <= i < |n.whole| ==> IsDigit(n.whole[i])
    requires forall i :: 0 <= i < |n.fraction| ==> IsDigit(n.fraction[i])
    ensures n.sep.None? ==> r.Some?
    ensures n.sep.Some? ==> (r.Some? <==> n.sep.value in ".,eE")
  {
    var magnitude: Option<real> :=
      match n.sep
      case None => Some(DigitsValue(n.whole) as real)
      case Some(c) =>
        if c == '.' then Some(DigitsValue(n.whole) as real + Shift(DigitsValue(n.fraction) as real, |n.fraction|))
        else if c == ',' then Some(DigitsValue(n.whole + n.fraction) as real)
        else if c == 'e' || c == 'E' then Some(Scale(DigitsValue(n.whole), DigitsValue(n.fraction)) as real)
        else None;
    match magnitude
    case None => None
    case Some(m) => Some(if n.negative then -m else m)
  }

  /** `Parse.Regex("-?[0-9]+(.[0-9]+)?").Token()` followed by `double.Parse`. */
  function NumericToken(s: string): (r: Reply<real>)
    ensures r.Match? ==> |r.rest| < |s|
    ensures r.Abort? ==> r.error.FormatError?
  {
    var t := SkipWs(s);
    var p := NumericPattern(t);
    if p.None? then NoMatch
    else
      var value := NumericValue(p.value.0);
      if value.None? then Abort(FormatError(Spelling(p.value.0)))
      else
        assert |Spelling(p.value.0)| > 0;
        Match(value.value, SkipWs(p.value.1))
  }

  // ---------------------------------------------------------------- string literals

  /**
   * `EscapeChar.XOr(Parse.CharExcept('"')).Many()`: decodes up to the first unescaped quote.
   * A backslash keeps the character after it, whatever it is; a backslash with nothing after
   * it ends the run. Returns the decoded text and the input from where decoding stopped.
   */
  function DecodeBody(s: string): (r: (string, string))
    ensures |r.1| <= |s|
    ensures r.1 == [] || r.1[0] == '"' || r.1 == "\\"
  {
    if s == [] then ([], [])
    else if s[0] == '"' then ([], s)
    else if s[0] == '\\' then
      if |s| >= 2 then var (d, rest) := DecodeBody(s[2..]); ([s[1]] + d, rest)
      else ([], s)
    else var (d, rest) := DecodeBody(s[1..]); ([s[0]] + d, rest)
  }

  /** `StringConstant`: an opening quote (not preceded by whitespace), the body, a closing quote token. */
  function StringToken(s: string): (r: Option<(string, string)>)
    ensures r.Some? ==> |r.value.1| < |s|
  {
    if s != [] && s[0] == '"' then
      var (decoded, rest) := DecodeBody(s[1..]);
      if rest != [] && rest[0] == '"' then Some((decoded, SkipWs(rest[1..]))) else None
    else None
  }

  /** Writes a string as a literal body: a backslash before every quote and backslash. */
  function Escape(s: string): (r: string)
    ensures |r| >= |s|
  {
    if s == [] then []
    else (if s[0] == '"' || s[0] == '\\' then ['\\', s[0]] else [s[0]]) + Escape(s[1..])
  }

  lemma {:induction false} DecodeEscaped(s: string, t: string)
    ensures DecodeBody(Escape(s) + "\"" + t) == (s, "\"" + t)
  {
    if s == [] {
      assert Escape(s) + "\"" + t == "\"" + t;
    } else {
      var head := if s[0] == '"' || s[0] == '\\' then ['\\', s[0]] else [s[0]];
      assert Escape(s) + "\"" + t == head + (Escape(s[1..]) + "\"" + t);
      DecodeEscaped(s[1..], t);
      var input := head + (Escape(s[1..]) + "\"" + t);
      if s[0] == '"' || s[0] == '\\' {
        assert input[0] == '\\' && input[1] == s[0];
        assert input[2..] == Escape(s[1..]) + "\"" + t;
      } else {
        assert input[0] == s[0];
        assert input[1..] == Escape(s[1..]) + "\"" + t;
      }
      assert [s[0]] + s[1..] == s;
    }
  }

  /** Escaping every quote and backslash and then reading the literal gives the original string back. */
  lemma StringLiteralRoundTrip(s: string, t: string)
    ensures StringToken("\"" + Escape(s) + "\"" + t) == Some((s, SkipWs(t)))
  {
    var input := "\"" + Escape(s) + "\"" + t;
    assert input[1..] == Escape(s) + "\"" + t;
    DecodeEscaped(s, t);
    assert ("\"" + t)[1..] == t;
  }

  // ---------------------------------------------------------------- constants

  /**
   * `Constant => BoolConstant.Or(NumericConstant).Or(StringConstant)`; numeric constants are
   * typed `double?` when `nullableNumbers` holds (ComparativeExpressionGrammar) and `double`
   * otherwise (LogicalExpressionGrammar).
   */
  function ConstantToken(nullableNumbers: bool, s: string): (r: Reply<Expr>)
    ensures r.Match? ==> |r.rest| < |s| && r.value.Const? && HasType(r.value.v, r.value.ty)
    ensures r.Match? && r.value.v.VNum? ==> r.value.ty == (if nullableNumbers then TNullDouble else TDouble)
    ensures r.Abort? ==> r.error.FormatError?
  {
    match BoolToken(s)
    case Some((b, rest)) => Match(Const(VBool(b), TBool), rest)
    case None =>
      match NumericToken(s)
      case Match(v, rest) => Match(Const(VNum(Finite(v)), if nullableNumbers then TNullDouble else TDouble), rest)
      case Abort(e) => Abort(e)
      case NoMatch =>
        match StringToken(s)
        case Some((str, rest)) => Match(Const(VStr(str), TString), rest)
        case None => NoMatch
  }
}
