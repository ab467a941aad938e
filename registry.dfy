/**
 * The extension registries: `GetMethods(...).ToDictionary(m => m.Name, OrdinalIgnoreCase)`
 * over an operator or function class, and the `ContainsKey`/indexer lookup the name
 * parsers perform on it.
 */
module Registry {
  import opened Common
  import opened Text
  import opened Ast

  /** The public static methods of each extension class. */
  const StringOperations: seq<Operation> := [Contains, StartsWith, EndsWith, RegexMatches]
  const DateTimeFunctions: seq<Operation> := [MonthOf, Now, DayRangeFromDate]
  const ConsumerEventFunctions: seq<Operation> :=
    [EventsInDayRange, DaysSinceLastEvent, SumOfValueInDays, EventsExceedingValue, EventsLessThanValue, ForMarket]
  /** `OperatorExtensions.None` and `FunctionExtensions.None` declare no methods. */
  const NoExtensions: seq<Operation> := []

  /** The dictionary key of a method under `StringComparer.OrdinalIgnoreCase`. */
  function Key(m: Operation): string {
    Fold(Name(m))
  }

  /** No two methods of the class have names that differ only in letter case. */
  predicate DistinctKeys(ms: seq<Operation>) {
    forall i, j :: 0 <= i < j < |ms| ==> Key(ms[i]) != Key(ms[j])
  }

  /**
   * `ToDictionary`: one entry per method, keyed by its folded name; None when two methods
   * share a key (the source throws `ArgumentException`).
   */
  function Build(ms: seq<Operation>): (r: Option<map<string, Operation>>)
    ensures r.Some? <==> DistinctKeys(ms)
    ensures r.Some? ==> forall k :: k in r.value ==> r.value[k] in ms && Key(r.value[k]) == k
    ensures r.Some? ==> forall m :: m in ms ==> Key(m) in r.value && r.value[Key(m)] == m
  {
    if ms == [] then Some(map[])
    else
      match Build(ms[1..])
      case None => None
      case Some(table) =>
        if Key(ms[0]) in table then
          assert exists j :: 0 < j < |ms| && Key(ms[j]) == Key(ms[0]) by {
            var j :| 0 <= j < |ms[1..]| && ms[1..][j] == table[Key(ms[0])];
            assert ms[j + 1] == ms[1..][j];
          }
          None
        else
          assert DistinctKeys(ms) by {
            forall i, j | 0 <= i < j < |ms| ensures Key(ms[i]) != Key(ms[j]) {
              if i == 0 {
                assert ms[j] in ms[1..];
              } else {
                assert ms[i] == ms[1..][i - 1] && ms[j] == ms[1..][j - 1];
              }
            }
          }
          Some(table[Key(ms[0]) := ms[0]])
  }

  /** `ContainsKey(name)` followed by the indexer. */
  function Lookup(table: map<string, Operation>, name: string): (r: Option<Operation>)
    ensures r.Some? <==> Fold(name) in table
  {
    if Fold(name) in table then Some(table[Fold(name)]) else None
  }

  /** A name finds exactly the method of the class whose name it equals ignoring case. */
  lemma LookupIgnoresCase(ms: seq<Operation>, name: string, m: Operation)
    requires Build(ms).Some?
    ensures Lookup(Build(ms).value, name) == Some(m) <==> m in ms && EqualsIgnoreCase(Name(m), name)
  {
    var table := Build(ms).value;
    if m in ms && EqualsIgnoreCase(Name(m), name) {
      assert Key(m) == Fold(name);
    }
  }

  /** Keys differ when their lengths or first letters do. */
  lemma KeyShape(m: Operation)
    ensures |Key(m)| == |Name(m)| > 0 && Key(m)[0] == ToLower(Name(m)[0])
  {
  }

  /** Methods whose names differ in length or in first letter have different keys. */
  lemma KeysDiffer(a: Operation, b: Operation)
    requires |Name(a)| != |Name(b)| || ToLower(Name(a)[0]) != ToLower(Name(b)[0])
    ensures Key(a) != Key(b)
  {
    KeyShape(a);
    KeyShape(b);
  }

  /** Each extension class of the rule grammars yields a registry. */
  lemma StringOperationsBuild()
    ensures Build(StringOperations).Some?
  {
    var ms := StringOperations;
    forall i, j | 0 <= i < j < |ms| ensures Key(ms[i]) != Key(ms[j]) {
      KeysDiffer(ms[i], ms[j]);
    }
    assert DistinctKeys(ms);
  }

  lemma DateTimeFunctionsBuild()
    ensures Build(DateTimeFunctions).Some?
  {
    var ms := DateTimeFunctions;
    forall i, j | 0 <= i < j < |ms| ensures Key(ms[i]) != Key(ms[j]) {
      KeysDiffer(ms[i], ms[j]);
    }
    assert DistinctKeys(ms);
  }

  lemma ConsumerEventFunctionsBuild()
    ensures Build(ConsumerEventFunctions).Some?
  {
    var ms := ConsumerEventFunctions;
    forall i, j | 0 <= i < j < |ms| ensures Key(ms[i]) != Key(ms[j]) {
      KeysDiffer(ms[i], ms[j]);
    }
    assert DistinctKeys(ms);
  }
}
