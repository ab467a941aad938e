/**
 * ConsumerEventExpressionGrammar.ConsumerEventFunctions: counting, summing and filtering a
 * consumer's events. Each LINQ `Where` is `Filter` with the source's predicate; the clock is a
 * parameter. A null event collection is `None` (`Where` and `OrderByDescending` throw
 * `ArgumentNullException`), a null `double?` argument is `None`.
 */
module EventOps {
  import opened Common
  import opened Text
  import opened Values

  /** `events.Where(keep)`: the events that satisfy `keep`, in their original order. */
  function Filter(events: seq<ConsumerEvent>, keep: ConsumerEvent -> bool): (r: seq<ConsumerEvent>)
    ensures |r| <= |events|
    ensures forall e :: e in r <==> e in events && keep(e)
  {
    if events == [] then []
    else (if keep(events[0]) then [events[0]] else []) + Filter(events[1..], keep)
  }

  function Negate(keep: ConsumerEvent -> bool): ConsumerEvent -> bool {
    (e: ConsumerEvent) => !keep(e)
  }

  /** Filtering distributes over concatenation, so the kept events stay in order. */
  lemma {:induction false} FilterAppend(a: seq<ConsumerEvent>, b: seq<ConsumerEvent>, keep: ConsumerEvent -> bool)
    ensures Filter(a + b, keep) == Filter(a, keep) + Filter(b, keep)
  {
    if a == [] {
      assert a + b == b;
    } else {
      assert (a + b)[1..] == a[1..] + b;
      FilterAppend(a[1..], b, keep);
    }
  }

  /** A filter that keeps everything in the sequence returns it unchanged. */
  lemma {:induction false} FilterKeepsAll(events: seq<ConsumerEvent>, keep: ConsumerEvent -> bool)
    requires forall e :: e in events ==> keep(e)
    ensures Filter(events, keep) == events
  {
    if events != [] {
      FilterKeepsAll(events[1..], keep);
    }
  }

  /** A filter that keeps nothing in the sequence returns the empty sequence. */
  lemma {:induction false} FilterKeepsNone(events: seq<ConsumerEvent>, keep: ConsumerEvent -> bool)
    requires forall e :: e in events ==> !keep(e)
    ensures Filter(events, keep) == []
  {
    if events != [] {
      FilterKeepsNone(events[1..], keep);
    }
  }

  /**
   * Two disjoint filters whose union is a third one: the counts add up. With `whole` keeping
   * everything, a filter and its negation split the events.
   */
  lemma {:induction false} FilterSplitCount(events: seq<ConsumerEvent>, p: ConsumerEvent -> bool, q: ConsumerEvent -> bool, whole: ConsumerEvent -> bool)
    requires forall e :: e in events ==> (whole(e) <==> p(e) || q(e)) && !(p(e) && q(e))
    ensures |Filter(events, p)| + |Filter(events, q)| == |Filter(events, whole)|
  {
    if events != [] {
      FilterSplitCount(events[1..], p, q, whole);
    }
  }

  /** A filter implied by another keeps no more events. */
  lemma {:induction false} FilterMonotone(events: seq<ConsumerEvent>, p: ConsumerEvent -> bool, q: ConsumerEvent -> bool)
    requires forall e :: e in events && p(e) ==> q(e)
    ensures |Filter(events, p)| <= |Filter(events, q)|
  {
    if events != [] {
      FilterMonotone(events[1..], p, q);
    }
  }

  /** `e.Value ?? 0`. */
  function ValueOrZero(e: ConsumerEvent): real {
    if e.value.Some? then e.value.value else 0.0
  }

  /** `Sum(e => e.Value ?? 0)`. */
  function SumValues(events: seq<ConsumerEvent>): real {
    if events == [] then 0.0 else ValueOrZero(events[0]) + SumValues(events[1..])
  }

  /** A filter and its negation split the sum. */
  lemma {:induction false} SumSplit(events: seq<ConsumerEvent>, keep: ConsumerEvent -> bool)
    ensures SumValues(Filter(events, keep)) + SumValues(Filter(events, Negate(keep))) == SumValues(events)
  {
    if events != [] {
      var rest := events[1..];
      SumSplit(rest, keep);
      var first := if keep(events[0]) then [events[0]] else [];
      var other := if Negate(keep)(events[0]) then [events[0]] else [];
      SumAppend(first, Filter(rest, keep));
      SumAppend(other, Filter(rest, Negate(keep)));
    }
  }

  lemma {:induction false} SumAppend(a: seq<ConsumerEvent>, b: seq<ConsumerEvent>)
    ensures SumValues(a + b) == SumValues(a) + SumValues(b)
  {
    if a == [] {
      assert a + b == b;
    } else {
      assert (a + b)[1..] == a[1..] + b;
      SumAppend(a[1..], b);
    }
  }

  /** With no negative values, the sum is not negative. */
  lemma {:induction false} SumNonNegative(events: seq<ConsumerEvent>)
    requires forall e :: e in events ==> ValueOrZero(e) >= 0.0
    ensures SumValues(events) >= 0.0
  {
    if events != [] {
      SumNonNegative(events[1..]);
    }
  }

  // ---------------------------------------------------------------- counting by position

  /** The positions of the events that satisfy `keep`: what a LINQ `Count` of the `Where` counts. */
  function Positions(events: seq<ConsumerEvent>, keep: ConsumerEvent -> bool): set<int> {
    set i | 0 <= i < |events| && keep(events[i])
  }

  /** The values of the events at positions below `n` that satisfy `keep`, added up position by position. */
  function SumAt(events: seq<ConsumerEvent>, keep: ConsumerEvent -> bool, n: nat): real
    requires n <= |events|
  {
    if n == 0 then 0.0
    else SumAt(events, keep, n - 1) + (if keep(events[n - 1]) then ValueOrZero(events[n - 1]) else 0.0)
  }

  /** Filtering one event keeps it exactly when it satisfies `keep`. */
  lemma FilterOne(x: ConsumerEvent, keep: ConsumerEvent -> bool)
    ensures Filter([x], keep) == if keep(x) then [x] else []
  {
    assert [x][1..] == [];
  }

  /** Appending an event adds its position to the positions when it satisfies `keep`. */
  lemma PositionsExtend(init: seq<ConsumerEvent>, x: ConsumerEvent, keep: ConsumerEvent -> bool)
    ensures Positions(init + [x], keep) == Positions(init, keep) + (if keep(x) then {|init|} else {})
    ensures |init| !in Positions(init, keep)
  {
    var events := init + [x];
    forall i | 0 <= i < |init|
      ensures events[i] == init[i]
    {
    }
    assert events[|init|] == x;
  }

  /** The filter keeps as many events as there are positions satisfying `keep`. */
  lemma {:induction false} FilterCountsPositions(events: seq<ConsumerEvent>, keep: ConsumerEvent -> bool)
    ensures |Filter(events, keep)| == |Positions(events, keep)|
    decreases |events|
  {
    if events == [] {
      assert Positions(events, keep) == {};
    } else {
      var init, x := events[..|events| - 1], events[|events| - 1];
      assert events == init + [x];
      FilterCountsPositions(init, keep);
      FilterAppend(init, [x], keep);
      FilterOne(x, keep);
      PositionsExtend(init, x, keep);
    }
  }

  /** Summing over a prefix looks only at the prefix. */
  lemma {:induction false} SumAtPrefix(init: seq<ConsumerEvent>, x: ConsumerEvent, keep: ConsumerEvent -> bool, n: nat)
    requires n <= |init|
    ensures SumAt(init + [x], keep, n) == SumAt(init, keep, n)
    decreases n
  {
    if n > 0 {
      assert (init + [x])[n - 1] == init[n - 1];
      SumAtPrefix(init, x, keep, n - 1);
    }
  }

  /** The sum of the filtered events is the sum over the positions satisfying `keep`. */
  lemma {:induction false} FilterSumsPositions(events: seq<ConsumerEvent>, keep: ConsumerEvent -> bool)
    ensures SumValues(Filter(events, keep)) == SumAt(events, keep, |events|)
    decreases |events|
  {
    if events != [] {
      var init, x := events[..|events| - 1], events[|events| - 1];
      assert events == init + [x];
      FilterSumsPositions(init, keep);
      FilterAppend(init, [x], keep);
      FilterOne(x, keep);
      SumAppend(Filter(init, keep), Filter([x], keep));
      assert SumValues([x]) == ValueOrZero(x) by {
        assert [x][1..] == [];
      }
      SumAtPrefix(init, x, keep, |init|);
    }
  }

  /**
   * `DateTime.UtcNow.AddDays(-days ?? 0)`: a null `days` counts as 0; `AddDays` rejects a
   * value that is not a finite number of days.
   */
  function Cutoff(days: Option<Num>, utcNow: Date): (r: Result<real, Fault>)
    ensures r.Err? <==> days.Some? && !days.value.Finite?
    ensures r.Err? ==> r.error == ArgumentOutOfRangeException
    ensures r.Ok? ==> r.value == utcNow.instant - (if days.Some? then days.value.r else 0.0)
  {
    match days
    case None => Ok(utcNow.instant)
    case Some(Finite(d)) => Ok(utcNow.instant - d)
    case Some(_) => Err(ArgumentOutOfRangeException)
  }

  /** `e => e.WhenOccurred > cutOffPoint`. */
  function OccurredAfter(cutoff: real): ConsumerEvent -> bool {
    (e: ConsumerEvent) => e.whenOccurred.instant > cutoff
  }

  /** A count returned as a `double?`. */
  function Count(events: seq<ConsumerEvent>): Num {
    Finite(|events| as real)
  }

  /**
   * `EventsInDayRange(events, days)`: the number of events after the cut-off. The cut-off is
   * computed before the collection is touched, so a bad `days` wins over a null collection.
   */
  function EventsInDayRange(events: Option<seq<ConsumerEvent>>, days: Option<Num>, utcNow: Date): (r: Result<Num, Fault>)
    ensures Cutoff(days, utcNow).Err? ==> r == Err(ArgumentOutOfRangeException)
    ensures Cutoff(days, utcNow).Ok? && events.None? ==> r == Err(ArgumentNullException)
    ensures r.Ok? <==> Cutoff(days, utcNow).Ok? && events.Some?
    ensures r.Ok? ==> r.value == Finite(|Positions(events.value, OccurredAfter(Cutoff(days, utcNow).value))| as real)
    ensures r.Ok? ==> 0.0 <= r.value.r <= |events.value| as real
  {
    match Cutoff(days, utcNow)
    case Err(fault) => Err(fault)
    case Ok(cutoff) =>
      if events.None? then Err(ArgumentNullException)
      else
        FilterCountsPositions(events.value, OccurredAfter(cutoff));
        Ok(Count(Filter(events.value, OccurredAfter(cutoff))))
  }

  /** A null day count is a window of zero days. */
  lemma EventsInDayRangeNullDays(events: Option<seq<ConsumerEvent>>, utcNow: Date)
    ensures EventsInDayRange(events, None, utcNow) == EventsInDayRange(events, Some(Finite(0.0)), utcNow)
  {
  }

  /** A longer window counts at least as many events. */
  lemma EventsInDayRangeMonotone(events: seq<ConsumerEvent>, shorter: real, longer: real, utcNow: Date)
    requires shorter <= longer
    ensures EventsInDayRange(Some(events), Some(Finite(shorter)), utcNow).Ok?
    ensures EventsInDayRange(Some(events), Some(Finite(longer)), utcNow).Ok?
    ensures EventsInDayRange(Some(events), Some(Finite(shorter)), utcNow).value.r
         <= EventsInDayRange(Some(events), Some(Finite(longer)), utcNow).value.r
  {
    FilterMonotone(events, OccurredAfter(utcNow.instant - shorter), OccurredAfter(utcNow.instant - longer));
  }

  /** The latest occurrence among the events: the key `OrderByDescending(...).First()` has. */
  function LatestInstant(events: seq<ConsumerEvent>): (r: real)
    requires events != []
    ensures forall e :: e in events ==> e.whenOccurred.instant <= r
    ensures exists e :: e in events && e.whenOccurred.instant == r
  {
    if |events| == 1 then events[0].whenOccurred.instant
    else
      var later := LatestInstant(events[1..]);
      assert forall e :: e in events ==> e == events[0] || e in events[1..];
      if events[0].whenOccurred.instant >= later then events[0].whenOccurred.instant else later
  }

  /**
   * `DaysSinceLastEvent(events)`: infinity when there are no events, otherwise the whole days
   * from the latest event to the local clock reading, rounded down.
   */
  function DaysSinceLastEvent(events: Option<seq<ConsumerEvent>>, localNow: Date): (r: Result<Num, Fault>)
    ensures events.None? <==> r == Err(ArgumentNullException)
    ensures events == Some([]) <==> r == Ok(PosInf)
  {
    match events
    case None => Err(ArgumentNullException)
    case Some(es) =>
      if es == [] then Ok(PosInf)
      else Ok(Finite((localNow.instant - LatestInstant(es)).Floor as real))
  }

  /**
   * The days since the last event are a whole number, at most the days since any event, and
   * less than one day short of the days since some event: the days since the latest event,
   * rounded down.
   */
  lemma DaysSinceLastEventIsMinimum(events: seq<ConsumerEvent>, localNow: Date)
    requires events != []
    ensures DaysSinceLastEvent(Some(events), localNow).Ok?
    ensures DaysSinceLastEvent(Some(events), localNow).value.Finite?
    ensures DaysSinceLastEvent(Some(events), localNow).value.r == DaysSinceLastEvent(Some(events), localNow).value.r.Floor as real
    ensures forall e :: e in events ==>
      DaysSinceLastEvent(Some(events), localNow).value.r <= localNow.instant - e.whenOccurred.instant
    ensures exists e :: (e in events &&
      localNow.instant - e.whenOccurred.instant < DaysSinceLastEvent(Some(events), localNow).value.r + 1.0)
  {
    var latest := LatestInstant(events);
    var e :| e in events && e.whenOccurred.instant == latest;
    assert localNow.instant - e.whenOccurred.instant < (localNow.instant - latest).Floor as real + 1.0;
  }

  /** `SumOfValueInDays(events, days)`: the sum of the values of the events after the cut-off. */
  function SumOfValueInDays(events: Option<seq<ConsumerEvent>>, days: Option<Num>, utcNow: Date): (r: Result<Num, Fault>)
    ensures Cutoff(days, utcNow).Err? ==> r == Err(ArgumentOutOfRangeException)
    ensures Cutoff(days, utcNow).Ok? && events.None? ==> r == Err(ArgumentNullException)
    ensures r.Ok? <==> Cutoff(days, utcNow).Ok? && events.Some?
    ensures r.Ok? ==> r.value == Finite(SumAt(events.value, OccurredAfter(Cutoff(days, utcNow).value), |events.value|))
  {
    match Cutoff(days, utcNow)
    case Err(fault) => Err(fault)
    case Ok(cutoff) =>
      if events.None? then Err(ArgumentNullException)
      else
        FilterSumsPositions(events.value, OccurredAfter(cutoff));
        Ok(Finite(SumValues(Filter(events.value, OccurredAfter(cutoff)))))
  }

  /** With no negative values, the sum over the window lies between 0 and the sum over all events. */
  lemma SumOfValueInDaysBounds(events: seq<ConsumerEvent>, days: real, utcNow: Date)
    requires forall e :: e in events ==> ValueOrZero(e) >= 0.0
    ensures SumOfValueInDays(Some(events), Some(Finite(days)), utcNow).Ok?
    ensures 0.0 <= SumOfValueInDays(Some(events), Some(Finite(days)), utcNow).value.r <= SumValues(events)
  {
    var keep := OccurredAfter(utcNow.instant - days);
    var kept, dropped := Filter(events, keep), Filter(events, Negate(keep));
    assert SumOfValueInDays(Some(events), Some(Finite(days)), utcNow) == Ok(Finite(SumValues(kept)));
    SumSplit(events, keep);
    SumNonNegative(kept);
    SumNonNegative(dropped);
  }

  /** `e => e.Value >= value`: lifted, so false when either side is null. */
  function AtLeast(value: Option<Num>): ConsumerEvent -> bool {
    (e: ConsumerEvent) => e.value.Some? && value.Some? && NumLe(value.value, Finite(e.value.value))
  }

  /** `e => e.Value < value`: lifted, so false when either side is null. */
  function Below(value: Option<Num>): ConsumerEvent -> bool {
    (e: ConsumerEvent) => e.value.Some? && value.Some? && NumLt(Finite(e.value.value), value.value)
  }

  function HasValue(): ConsumerEvent -> bool {
    (e: ConsumerEvent) => e.value.Some?
  }

  /** `EventsExceedingValue(events, value)`: how many events have a value of at least `value`. */
  function EventsExceedingValue(events: Option<seq<ConsumerEvent>>, value: Option<Num>): (r: Result<Num, Fault>)
    ensures events.None? <==> r == Err(ArgumentNullException)
    ensures r.Ok? ==> r.value == Finite(|Positions(events.value, AtLeast(value))| as real)
    ensures r.Ok? ==> 0.0 <= r.value.r <= |events.value| as real
  {
    if events.None? then Err(ArgumentNullException)
    else
      FilterCountsPositions(events.value, AtLeast(value));
      Ok(Count(Filter(events.value, AtLeast(value))))
  }

  /** `EventsLessThanValue(events, value)`: how many events have a value below `value`. */
  function EventsLessThanValue(events: Option<seq<ConsumerEvent>>, value: Option<Num>): (r: Result<Num, Fault>)
    ensures events.None? <==> r == Err(ArgumentNullException)
    ensures r.Ok? ==> r.value == Finite(|Positions(events.value, Below(value))| as real)
    ensures r.Ok? ==> 0.0 <= r.value.r <= |events.value| as real
  {
    if events.None? then Err(ArgumentNullException)
    else
      FilterCountsPositions(events.value, Below(value));
      Ok(Count(Filter(events.value, Below(value))))
  }

  /**
   * Against a finite threshold every event with a value is counted by exactly one of the two
   * functions; against null or NaN neither counts anything; against infinity only
   * `EventsLessThanValue` does.
   */
  lemma ExceedingAndLessThanSplit(events: seq<ConsumerEvent>, value: Option<Num>)
    ensures var exceeding := EventsExceedingValue(Some(events), value).value.r;
            var less := EventsLessThanValue(Some(events), value).value.r;
            var valued := |Filter(events, HasValue())| as real;
            (value.Some? && value.value.Finite? ==> exceeding + less == valued) &&
            (value.None? || value == Some(NaN) ==> exceeding == 0.0 && less == 0.0) &&
            (value == Some(PosInf) ==> exceeding == 0.0 && less == valued)
  {
    if value.Some? && value.value.Finite? {
      FilterSplitCount(events, AtLeast(value), Below(value), HasValue());
    } else if value.None? || value == Some(NaN) {
      FilterKeepsNone(events, AtLeast(value));
      FilterKeepsNone(events, Below(value));
    } else {
      FilterKeepsNone(events, AtLeast(value));
      FilterSplitCount(events, AtLeast(value), Below(value), HasValue());
    }
  }

  /** `string.Equals(market, e.Market, OrdinalIgnoreCase)`: two nulls are equal, one null is not. */
  predicate SameMarket(market: Option<string>, eventMarket: Option<string>) {
    match (market, eventMarket)
    case (None, None) => true
    case (Some(a), Some(b)) => EqualsIgnoreCase(a, b)
    case _ => false
  }

  function InMarket(market: Option<string>): ConsumerEvent -> bool {
    (e: ConsumerEvent) => SameMarket(market, e.market)
  }

  /** `ForMarket(events, market)`: the events of the market, in their original order. */
  function ForMarket(events: Option<seq<ConsumerEvent>>, market: Option<string>): (r: Result<seq<ConsumerEvent>, Fault>)
    ensures events.None? <==> r == Err(ArgumentNullException)
    ensures r.Ok? ==> forall e :: e in r.value <==> e in events.value && SameMarket(market, e.market)
  {
    if events.None? then Err(ArgumentNullException)
    else Ok(Filter(events.value, InMarket(market)))
  }

  /** Restricting to a market twice is restricting once. */
  lemma ForMarketIdempotent(events: seq<ConsumerEvent>, market: Option<string>)
    ensures ForMarket(Some(events), market).Ok?
    ensures ForMarket(Some(ForMarket(Some(events), market).value), market) == ForMarket(Some(events), market)
  {
    FilterKeepsAll(Filter(events, InMarket(market)), InMarket(market));
  }

  /** Restricting by market commutes with concatenating event histories. */
  lemma ForMarketAppend(a: seq<ConsumerEvent>, b: seq<ConsumerEvent>, market: Option<string>)
    ensures ForMarket(Some(a + b), market).value == ForMarket(Some(a), market).value + ForMarket(Some(b), market).value
  {
    FilterAppend(a, b, InMarket(market));
  }
}
