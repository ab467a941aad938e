/**
 * StringRuleExpressionGrammar.StringOperations: ordinal substring, prefix and suffix tests,
 * and the pattern cache behind `RegexMatches`. Regular-expression matching itself is a
 * parameter (`matcher`) of the model.
 */
module StringOps {
  import opened Common

  /** `source.Contains(match)`: `part` occurs contiguously in `source`. */
  function Contains(source: string, part: string): (r: bool)
    decreases |source|
  {
    if |part| > |source| then false
    else if source[..|part|] == part then true
    else Contains(source[1..], part)
  }

  predicate OccursAt(source: string, part: string, i: int) {
    0 <= i && i + |part| <= |source| && source[i..i + |part|] == part
  }

  /** `Contains` finds exactly the strings that occur at some position. */
  lemma {:induction false} ContainsIffOccurs(source: string, part: string)
    ensures Contains(source, part) <==> exists i :: OccursAt(source, part, i)
    decreases |source|
  {
    if |part| > |source| {
      assert forall i :: !OccursAt(source, part, i);
    } else if source[..|part|] == part {
      assert OccursAt(source, part, 0);
    } else {
      ContainsIffOccurs(source[1..], part);
      if exists i :: OccursAt(source[1..], part, i) {
        var i :| OccursAt(source[1..], part, i);
        assert source[1..][i..i + |part|] == source[i + 1..i + 1 + |part|];
        assert OccursAt(source, part, i + 1);
      }
      if exists i :: OccursAt(source, part, i) {
        var i :| OccursAt(source, part, i);
        assert i != 0;
        assert source[1..][i - 1..i - 1 + |part|] == source[i..i + |part|];
        assert OccursAt(source[1..], part, i - 1);
      }
    }
  }

  /** `source.StartsWith(start)`, compared ordinally. */
  function StartsWith(source: string, start: string): (r: bool)
    ensures r <==> exists rest :: source == start + rest
  {
    if |start| <= |source| && source[..|start|] == start then
      assert source == start + source[|start|..];
      true
    else false
  }

  /** `source.EndsWith(end)`, compared ordinally. */
  function EndsWith(source: string, end: string): (r: bool)
    ensures r <==> exists front :: source == front + end
  {
    if |end| <= |source| && source[|source| - |end|..] == end then
      assert source == source[..|source| - |end|] + end;
      true
    else false
  }

  /** A prefix or a suffix is also a substring. */
  lemma AffixIsContained(source: string, part: string)
    requires StartsWith(source, part) || EndsWith(source, part)
    ensures Contains(source, part)
  {
    ContainsIffOccurs(source, part);
    if StartsWith(source, part) {
      assert OccursAt(source, part, 0);
    } else {
      assert OccursAt(source, part, |source| - |part|);
    }
  }

  /** A compiled `Regex`, identified by the pattern it was built from. */
  datatype Regex = Regex(pattern: string)

  /**
   * The static `_regexMatches` dictionary: each pattern text maps to the regex compiled from
   * it. `GetOrAdd` only ever adds entries.
   */
  class RegexCache {
    var entries: map<string, Regex>

    /** Every cached regex was compiled from its own key. */
    predicate Valid()
      reads this
    {
      forall p :: p in entries ==> entries[p] == Regex(p)
    }

    constructor()
      ensures entries == map[] && Valid()
    {
      entries := map[];
    }

    /**
     * `GetOrAdd(pattern, p => new Regex(pattern))`: an entry already present is returned and
     * kept; otherwise the pattern is compiled and added. No entry is removed or replaced.
     */
    method GetOrAdd(pattern: string) returns (r: Regex)
      requires Valid()
      modifies this
      ensures Valid()
      ensures r == Regex(pattern)
      ensures pattern in old(entries) ==> entries == old(entries)
      ensures entries == old(entries)[pattern := r]
    {
      if pattern in entries {
        r := entries[pattern];
      } else {
        r := Regex(pattern);
        entries := entries[pattern := r];
      }
    }

    /**
     * `RegexMatches(source, pattern)`: a null pattern is rejected by the dictionary, a null
     * source by `IsMatch`; otherwise the cached regex decides. The answer is the one the
     * uncached definition gives.
     */
    method Matches(source: Option<string>, pattern: Option<string>, matcher: (string, string) -> bool)
      returns (r: Option<bool>)
      requires Valid()
      modifies this
      ensures Valid()
      ensures r == RegexMatches(source, pattern, matcher)
      ensures pattern.Some? ==> entries == old(entries)[pattern.value := Regex(pattern.value)]
      ensures pattern.None? ==> entries == old(entries)
    {
      if pattern.None? {
        return None;
      }
      var regex := GetOrAdd(pattern.value);
      if source.None? {
        return None;
      }
      r := Some(matcher(regex.pattern, source.value));
    }
  }

  /**
   * The value of `RegexMatches`: None when the pattern or the source is null (the source
   * throws `ArgumentNullException`), otherwise whether the pattern matches.
   */
  function RegexMatches(source: Option<string>, pattern: Option<string>, matcher: (string, string) -> bool): (r: Option<bool>)
    ensures r.Some? <==> source.Some? && pattern.Some?
    ensures r.Some? ==> r.value == matcher(pattern.value, source.value)
  {
    if pattern.None? || source.None? then None else Some(matcher(pattern.value, source.value))
  }

  /** Asking twice leaves the cache as asking once does. */
  method MatchesTwice(cache: RegexCache, source: string, pattern: string, matcher: (string, string) -> bool)
    returns (first: Option<bool>, second: Option<bool>)
    requires cache.Valid()
    modifies cache
    ensures first == second == Some(matcher(pattern, source))
    ensures cache.entries == old(cache.entries)[pattern := Regex(pattern)]
  {
    first := cache.Matches(Some(source), Some(pattern), matcher);
    var afterFirst := cache.entries;
    second := cache.Matches(Some(source), Some(pattern), matcher);
    assert cache.entries == afterFirst;
  }
}
