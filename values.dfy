/**
 * Run-time values and the static types of the expression trees the grammars build.
 *
 * A double is a finite real or one of the two IEEE sentinels the source returns on purpose
 * (`double.NaN` from `DayRangeFromDate`, `double.PositiveInfinity` from `DaysSinceLastEvent`).
 * A DateTime is an instant counted in days together with the calendar fields the source reads
 * from it (`Month`, `DayOfYear`). Every nullable kind shares the one `VNull` value.
 */
module Values {
  import opened Common

  datatype Num = Finite(r: real) | NaN | PosInf

  /** `a == b` on doubles: NaN equals nothing, not even itself. */
  predicate NumEq(a: Num, b: Num) {
    match (a, b)
    case (Finite(x), Finite(y)) => x == y
    case (PosInf, PosInf) => true
    case _ => false
  }

  /** `a < b` on doubles: false whenever NaN is involved; infinity exceeds every finite value. */
  predicate NumLt(a: Num, b: Num) {
    match (a, b)
    case (Finite(x), Finite(y)) => x < y
    case (Finite(_), PosInf) => true
    case _ => false
  }

  /** `a <= b` on doubles. */
  predicate NumLe(a: Num, b: Num) {
    match (a, b)
    case (Finite(x), Finite(y)) => x <= y
    case (Finite(_), PosInf) => true
    case (PosInf, PosInf) => true
    case _ => false
  }

  /** `<=` is `<` or `==`, and on numbers other than NaN exactly one of `<`, `==`, `>` holds. */
  lemma NumOrder(a: Num, b: Num)
    ensures NumLe(a, b) <==> NumLt(a, b) || NumEq(a, b)
    ensures !a.NaN? && !b.NaN? ==>
      (NumLt(a, b) && !NumEq(a, b) && !NumLt(b, a)) ||
      (!NumLt(a, b) && NumEq(a, b) && !NumLt(b, a)) ||
      (!NumLt(a, b) && !NumEq(a, b) && NumLt(b, a))
    ensures a.NaN? || b.NaN? ==> !NumLe(a, b) && !NumLt(a, b) && !NumEq(a, b)
  {
  }

  /**
   * The exceptions evaluation can raise, and `IllTyped` for an operand of the wrong kind
   * (which a tree the grammars build never contains).
   */
  datatype Fault =
    | IllTyped
    | NullReferenceException
    | ArgumentNullException
    | ArgumentOutOfRangeException
    | ArgumentException

  /** A `DateTime`: the instant in days and the calendar fields read from it. */
  datatype Date = Date(instant: real, month: int, dayOfYear: int)

  /** Grammar/Consumer/ConsumerEvent.cs */
  datatype EventType = AppStart | Redemption | ProductPurchase | RewardActivation | PointsSpend

  datatype ConsumerEvent = ConsumerEvent(
    whenOccurred: Date,
    eventType: EventType,
    market: Option<string>,
    category: Option<string>,
    resource: int,
    value: Option<real>)

  datatype Value =
    | VBool(b: bool)
    | VNum(n: Num)
    | VStr(s: string)
    | VDate(d: Date)
    | VEvents(events: seq<ConsumerEvent>)
    | VNull

  /**
   * The CLR types that occur in the expression trees: `bool`, `double`, `double?`,
   * `string`, `DateTime?` and `IEnumerable<ConsumerEvent>`.
   */
  datatype Ty = TBool | TDouble | TNullDouble | TString | TNullDate | TEvents

  /** Whether `null` is a value of the type (reference and nullable types). */
  predicate Nullable(t: Ty) {
    t != TBool && t != TDouble
  }

  /** The values of each type. */
  predicate HasType(v: Value, t: Ty) {
    match t
    case TBool => v.VBool?
    case TDouble => v.VNum?
    case TNullDouble => v.VNum? || v.VNull?
    case TString => v.VStr? || v.VNull?
    case TNullDate => v.VDate? || v.VNull?
    case TEvents => v.VEvents? || v.VNull?
  }

  /** `Expression.TypeAs(value, type)`: the value when it has the type, otherwise null. */
  function TypeAs(v: Value, t: Ty): (r: Value)
    requires Nullable(t)
    ensures HasType(r, t)
    ensures HasType(v, t) ==> r == v
    ensures !HasType(v, t) ==> r == VNull
  {
    if HasType(v, t) then v else VNull
  }
}
