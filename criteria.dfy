/**
 * The criteria a targeting expression refers to by reference code (Grammar/Criterion), the
 * CLR types a rule can name as its evaluation type, and the case-insensitive first-match
 * lookup of a reference code.
 */
module Criteria {
  import opened Common
  import opened Text
  import opened Values

  /** The `System.Type` a rule names as its `EvaluationType`. */
  datatype ClrType =
    | ClrBool | ClrInt32 | ClrDouble | ClrDateTime
    | ClrNullableDouble | ClrNullableDateTime
    | ClrString | ClrEvents
    /** `Nullable<T>` of any other value type `T`, named by `T`'s name; it accepts null. */
    | ClrNullableOther(underlyingName: string)
    /** Any other type, with its `Name` and whether it is a value type. */
    | ClrOther(name: string, isValueType: bool)

  /** `Type.Name`; every nullable type is named `Nullable`1`. */
  function TypeName(t: ClrType): string {
    match t
    case ClrBool => "Boolean"
    case ClrInt32 => "Int32"
    case ClrDouble => "Double"
    case ClrDateTime => "DateTime"
    case ClrNullableDouble => "Nullable`1"
    case ClrNullableDateTime => "Nullable`1"
    case ClrNullableOther(_) => "Nullable`1"
    case ClrString => "String"
    case ClrEvents => "IEnumerable`1"
    case ClrOther(name, _) => name
  }

  /** Whether `Expression.TypeAs` accepts the type: a reference type or a nullable type. */
  predicate AcceptsNull(t: ClrType) {
    match t
    case ClrBool => false
    case ClrInt32 => false
    case ClrDouble => false
    case ClrDateTime => false
    case ClrOther(_, valueType) => !valueType
    case _ => true
  }

  /** The expression type of a rule value of this CLR type, for the types the grammars know. */
  function ExprType(t: ClrType): (r: Option<Ty>)
    ensures r.Some? ==> AcceptsNull(t) && Nullable(r.value)
  {
    match t
    case ClrNullableDouble => Some(TNullDouble)
    case ClrNullableDateTime => Some(TNullDate)
    case ClrString => Some(TString)
    case ClrEvents => Some(TEvents)
    case _ => None
  }

  /** The criterion kinds (Grammar/Criterion); `Other` stands for any further `CriterionType`. */
  datatype Criterion =
    /** `Tag`, whose `CriteriaType` is `Simple`. */
    | Tag(referenceCode: string)
    | Segment(referenceCode: string, segmentExpression: string)
    | Rule(referenceCode: string, evaluationTarget: string, evaluationType: ClrType, evaluationCriterion: string)
    | Other(referenceCode: string)

  /** The criterion at index i is the first whose code equals `code` ignoring case. */
  predicate FirstMatchAt(criteria: seq<Criterion>, code: string, i: int) {
    0 <= i < |criteria| && EqualsIgnoreCase(criteria[i].referenceCode, code) &&
    forall j :: 0 <= j < i ==> !EqualsIgnoreCase(criteria[j].referenceCode, code)
  }

  /** `criteria.FirstOrDefault(c => c.ReferenceCode.Equals(code, OrdinalIgnoreCase))` */
  function FindCriterion(criteria: seq<Criterion>, code: string): (r: Option<Criterion>)
    ensures r.Some? ==> r.value in criteria
  {
    if criteria == [] then None
    else if EqualsIgnoreCase(criteria[0].referenceCode, code) then Some(criteria[0])
    else FindCriterion(criteria[1..], code)
  }

  /**
   * The search finds nothing exactly when no criterion's code matches ignoring case, and
   * otherwise finds the first criterion that matches.
   */
  lemma {:induction false} FindCriterionFinds(criteria: seq<Criterion>, code: string)
    ensures FindCriterion(criteria, code).None? <==>
              forall i :: 0 <= i < |criteria| ==> !EqualsIgnoreCase(criteria[i].referenceCode, code)
    ensures FindCriterion(criteria, code).Some? ==>
              exists i :: FirstMatchAt(criteria, code, i) && criteria[i] == FindCriterion(criteria, code).value
    decreases |criteria|
  {
    if criteria != [] && !EqualsIgnoreCase(criteria[0].referenceCode, code) {
      var tail := criteria[1..];
      FindCriterionFinds(tail, code);
      var r := FindCriterion(tail, code);
      if r.Some? {
        var i :| FirstMatchAt(tail, code, i) && tail[i] == r.value;
        forall j | 0 <= j < i + 1 ensures !EqualsIgnoreCase(criteria[j].referenceCode, code) {
          if j > 0 { assert criteria[j] == tail[j - 1]; }
        }
        assert FirstMatchAt(criteria, code, i + 1) && criteria[i + 1] == r.value;
      } else {
        forall i | 0 <= i < |criteria| ensures !EqualsIgnoreCase(criteria[i].referenceCode, code) {
          if i > 0 { assert criteria[i] == tail[i - 1]; }
        }
      }
    }
  }
}
