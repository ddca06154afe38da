/**
 What a request without `after` returns on an exchange that serves its listing: the latest candles of
 the history that its limit asks for.
 */
module LatestCandles {
  import opened Common
  import opened Bars
  import opened SortedKeys
  import opened Pagination
  import opened PaginationCoverage
  import opened Resampling
  import opened KlineWindow
  import opened CandlePipeline
  import opened RequestedWindow

  /** Where the history that a request asks for starts, in seconds. */
  function SpanStart(o: Order): int {
    Min(o.before, o.now) - o.span
  }

  /** The same request with that start as its `after`. */
  function Spanned(o: Order): Order {
    o.(after := Some(SpanStart(o)))
  }

  lemma SamePlan(o: Order, tf: int)
    requires o.after.None? && o.span >= 1
    ensures PlanOf(Spanned(o), tf) == PlanOf(o, tf)
  {
  }

  lemma {:induction false} FilterAgreeOn(bars: seq<Bar>, p: Bar -> bool, q: Bar -> bool)
    requires forall k :: k in bars ==> p(k) == q(k)
    ensures Filter(bars, p) == Filter(bars, q)
  {
    if bars != [] {
      var front, last := bars[..|bars| - 1], bars[|bars| - 1];
      assert bars == front + [last] && last in bars;
      FilterAgreeOn(front, p, q);
    }
  }

  /** A lower bound that no candle is below does not cut. */
  lemma VacuousAfter(secs: seq<Bar>, before: int, after: int)
    requires forall k :: k in secs ==> k.time >= after
    ensures Windowed(secs, Some(before), None) == Windowed(secs, Some(before), Some(after))
  {
    var sorted := SortByTime(secs);
    SortIsPermutation(secs);
    forall k | k in sorted ensures k.time >= after {
      assert k in multiset(sorted);
      assert k in multiset(secs);
    }
    FilterAgreeOn(sorted, (k: Bar) => InWindow(k, Some(before), None),
                  (k: Bar) => InWindow(k, Some(before), Some(after)));
    FilterAgree(sorted, (k: Bar) => InWindow(k, Some(before), None), (k: Bar) => InWindow(k, Some(before), None));
  }

  predicate NotBefore(bars: seq<Bar>, after: int) {
    forall i :: 0 <= i < |bars| ==> bars[i].time >= 0 && bars[i].time >= after * 1000
  }

  lemma {:induction false} MergedNotBefore(bars: seq<Bar>, n: nat, after: int)
    requires n >= 1 && NotBefore(bars, after)
    ensures NotBefore(MergeEvery(bars, n), after)
    decreases |bars|
  {
    if |bars| >= n {
      MergedNotBefore(bars[n..], n, after);
    }
  }

  lemma SecondsNotBefore(bars: seq<Bar>, after: int)
    requires NotBefore(bars, after)
    ensures forall k :: k in AllInSeconds(bars) ==> k.time >= after
  {
    SecondsOfEach(bars);
    forall k | k in AllInSeconds(bars) ensures k.time >= after {
      var i :| 0 <= i < |bars| && AllInSeconds(bars)[i] == k;
      assert bars[i].time >= after * 1000;
    }
  }

  /** From candles that do not start before `after`, dropping it leaves the last candles of the answer. */
  lemma ReturnedWithoutAfter(bars: seq<Bar>, bucket: int, limit: int, before: int, after: int)
    requires limit >= 1 && NotBefore(bars, after)
    ensures Returned(bars, bucket, limit, before, None)
         == LastOf(Returned(bars, bucket, limit, before, Some(after)), limit)
  {
    if bucket > 1 {
      MergedNotBefore(bars, bucket, after);
    }
    var merged := CryptoMerged(bars, bucket);
    assert NotBefore(merged, after);
    SecondsNotBefore(merged, after);
    VacuousAfter(AllInSeconds(merged), before, after);
  }

  // ---------------------------------------------------------------- the request

  /** Something is listed where the planned window and its last page lie. */
  ghost predicate SomethingFetched(candles: map<int, Bar>, o: Order, tf: int)
    requires Listing(candles, tf)
  {
    match PlanOf(o, tf)
    case Skip => false
    case Fetch(since, end) => !NoneIn(candles, since, Horizon(candles, tf, since, end))
  }

  lemma PlanOfSpan(candles: map<int, Bar>, o: Order, tf: int)
    requires o.after.None? && Servable(candles, tf, Spanned(o))
    ensures PlanOf(o, tf).Fetch? && PlanOf(o, tf) == PlanOf(Spanned(o), tf)
    ensures PlanOf(o, tf).since == SpanStart(o) * 1000
  {
    SamePlan(o, tf);
    PlanFits(candles, tf, Spanned(o));
    PlanCoversSpanIff(o.before, o.after, o.now, o.span, tf, o.recent);
  }

  lemma StretchNotBefore(candles: map<int, Bar>, since: int, h: int, after: int)
    requires Keyed(candles) && (forall t :: t in candles ==> t >= 0) && since >= after * 1000
    ensures NotBefore(CandlesOf(Slice(candles, since, h)), after)
    ensures CandlesOf(Slice(candles, since, h)) == [] <==> NoneIn(candles, since, h)
  {
    var fetched := CandlesOf(Slice(candles, since, h));
    SliceKeyed(candles, since, h);
    SliceIsEmpty(candles, since, h);
    assert forall i :: 0 <= i < |fetched| ==> fetched[i] in fetched;
  }

  lemma FetchedOrFallback(candles: map<int, Bar>, single: Single, o: Order, tf: int)
    requires o.after.None? && Servable(candles, tf, Spanned(o))
    ensures var plan := PlanOf(o, tf);
      var fetched := CandlesOf(Slice(candles, plan.since, Horizon(candles, tf, plan.since, plan.end)));
      && Answer(candles, single, o, tf)
         == Returned(if SomethingFetched(candles, o, tf) then fetched else FallbackOf(single, o, tf),
                     o.bucket, o.limit, o.before, None)
      && NotBefore(fetched, SpanStart(o))
  {
    var plan := PlanOf(o, tf);
    PlanOfSpan(candles, o, tf);
    Concluded(candles, tf, plan.since, plan.end);
    FetchedIsSlice(candles, tf, plan.since, plan.end);
    StretchNotBefore(candles, plan.since, Horizon(candles, tf, plan.since, plan.end), SpanStart(o));
  }

  /** When the fetch has something, the answer is the last of what the request with the start of its history
      as `after` is answered with. */
  lemma LatestOfSpan(candles: map<int, Bar>, single: Single, o: Order, tf: int)
    requires o.after.None? && o.limit >= 1 && Servable(candles, tf, Spanned(o)) && Lists(single, candles)
    requires SomethingFetched(candles, o, tf)
    ensures Answer(candles, single, o, tf) == LastOf(Answer(candles, single, Spanned(o), tf), o.limit)
  {
    var plan := PlanOf(o, tf);
    var fetched := CandlesOf(Slice(candles, plan.since, Horizon(candles, tf, plan.since, plan.end)));
    SamePlan(o, tf);
    FetchedOrFallback(candles, single, o, tf);
    AnswerIs(candles, single, Spanned(o), tf);
    ReturnedWithoutAfter(fetched, o.bucket, o.limit, o.before, SpanStart(o));
  }

  /** The latest candles listed for the request: at most `limit` of those from the start of its history. */
  function LatestWanted(candles: map<int, Bar>, o: Order): seq<Bar> {
    LastOf(AllInSeconds(CandlesOf(Slice(candles, SpanStart(o) * 1000, o.before * 1000))), o.limit)
  }

  lemma SomethingWanted(candles: map<int, Bar>, o: Order, tf: int)
    requires o.after.None? && Servable(candles, tf, Spanned(o))
    requires !NoneIn(candles, SpanStart(o) * 1000, o.before * 1000)
    ensures SomethingFetched(candles, o, tf)
  {
    var plan := PlanOf(o, tf);
    SamePlan(o, tf);
    PlanFits(candles, tf, Spanned(o));
    var t :| t in candles && SpanStart(o) * 1000 <= t < o.before * 1000;
    assert t < plan.end <= Horizon(candles, tf, plan.since, plan.end);
  }

  /** Without merging and without `after`, when a candle is listed in the history that the request asks for,
      the answer is exactly the last min(limit, n) of the n candles listed there. */
  lemma LatestRequest(candles: map<int, Bar>, single: Single, o: Order, tf: int)
    requires o.after.None? && o.limit >= 1 && o.bucket <= 1
    requires Servable(candles, tf, Spanned(o)) && Lists(single, candles)
    requires !NoneIn(candles, SpanStart(o) * 1000, o.before * 1000)
    ensures Answer(candles, single, o, tf) == LatestWanted(candles, o)
  {
    SomethingWanted(candles, o, tf);
    LatestOfSpan(candles, single, o, tf);
    UnmergedRequest(candles, single, Spanned(o), tf);
  }

  lemma NoneReturnedBefore(bars: seq<Bar>, limit: int, before: int)
    requires before != 0 && forall i :: 0 <= i < |bars| ==> bars[i].time >= 0 && bars[i].time >= before * 1000
    ensures Returned(bars, 1, limit, before, None) == []
  {
    var secs := AllInSeconds(bars);
    SecondsOfEach(bars);
    forall k | k in secs ensures !InWindow(k, Some(before), None) {
      var i :| 0 <= i < |secs| && secs[i] == k;
      assert bars[i].time >= before * 1000;
    }
    NothingInWindow(secs, before, None);
    assert Windowed(secs, Some(before), None) == [];
    assert Limited([], limit, true) == [];
  }

  lemma KeptInWindow(secs: seq<Bar>, before: int, k: Bar)
    requires k in secs && InWindow(k, Some(before), None)
    ensures Windowed(secs, Some(before), None) != []
  {
    assert k in multiset(secs);
    WindowIsExact(secs, Some(before), None, k);
  }

  lemma SomeReturnedBefore(bars: seq<Bar>, limit: int, before: int, i: nat)
    requires limit >= 1 && before != 0 && i < |bars| && 0 <= bars[i].time < before * 1000
    ensures Returned(bars, 1, limit, before, None) != []
  {
    SecondsOfEach(bars);
    KeptInWindow(AllInSeconds(bars), before, AllInSeconds(bars)[i]);
  }

  lemma BucketOfOne(bars: seq<Bar>, bucket: int, limit: int, before: int)
    requires bucket <= 1
    ensures Returned(bars, bucket, limit, before, None) == Returned(bars, 1, limit, before, None)
  {
  }

  lemma NoneBeforeIff(bars: seq<Bar>, limit: int, before: int)
    requires limit >= 1 && before != 0 && forall i :: 0 <= i < |bars| ==> bars[i].time >= 0
    ensures Returned(bars, 1, limit, before, None) == [] <==> forall k :: k in bars ==> k.time >= before * 1000
  {
    if i: nat :| i < |bars| && bars[i].time < before * 1000 {
      SomeReturnedBefore(bars, limit, before, i);
      assert bars[i] in bars;
    } else {
      NoneReturnedBefore(bars, limit, before);
    }
  }

  lemma NothingFetchedIsNothingWanted(candles: map<int, Bar>, o: Order, tf: int)
    requires o.after.None? && Servable(candles, tf, Spanned(o)) && !SomethingFetched(candles, o, tf)
    ensures LatestWanted(candles, o) == []
  {
    if !NoneIn(candles, SpanStart(o) * 1000, o.before * 1000) {
      SomethingWanted(candles, o, tf);
      assert false;
    }
    assert Slice(candles, SpanStart(o) * 1000, o.before * 1000) == map[];
    assert Ascending({}) == [];
  }

  lemma FallbackAnswerIff(candles: map<int, Bar>, single: Single, o: Order, tf: int)
    requires o.after.None? && o.limit >= 1 && o.bucket <= 1
    requires Servable(candles, tf, Spanned(o)) && Lists(single, candles) && !SomethingFetched(candles, o, tf)
    ensures Answer(candles, single, o, tf) == []
       <==> forall k :: k in FallbackOf(single, o, tf) ==> k.time >= o.before * 1000
  {
    var bars := FallbackOf(single, o, tf);
    FetchedOrFallback(candles, single, o, tf);
    forall i | 0 <= i < |bars| ensures bars[i].time >= 0 {
      assert bars[i] in bars;
      FallbackIsListed(candles, single, o, tf, bars[i]);
    }
    BucketOfOne(bars, o.bucket, o.limit, o.before);
    NoneBeforeIff(bars, o.limit, o.before);
  }

  /** Exactly when the answer is that: unless the fetch has nothing and the fallback finds an older candle. */
  lemma LatestRequestIff(candles: map<int, Bar>, single: Single, o: Order, tf: int)
    requires o.after.None? && o.limit >= 1 && o.bucket <= 1
    requires Servable(candles, tf, Spanned(o)) && Lists(single, candles)
    ensures Answer(candles, single, o, tf) == LatestWanted(candles, o)
       <==> SomethingFetched(candles, o, tf)
            || forall k :: k in FallbackOf(single, o, tf) ==> k.time >= o.before * 1000
  {
    if SomethingFetched(candles, o, tf) {
      LatestOfSpan(candles, single, o, tf);
      UnmergedRequest(candles, single, Spanned(o), tf);
    } else {
      FallbackAnswerIff(candles, single, o, tf);
      NothingFetchedIsNothingWanted(candles, o, tf);
    }
  }

  /** With merging and without `after`, when the fetch has something: the last of the merged candles of the
      planned window's whole runs, and of the one more when the request looks ahead. */
  lemma MergedLatestRequest(candles: map<int, Bar>, single: Single, o: Order, tf: int)
    requires o.after.None? && o.limit >= 1 && o.bucket > 1
    requires Servable(candles, tf, Spanned(o)) && Lists(single, candles) && SomethingFetched(candles, o, tf)
    ensures var left, later := Leftover(Planned(candles, Spanned(o), tf), o.bucket), Later(candles, Spanned(o), tf);
      Answer(candles, single, o, tf)
      == LastOf(RequestedWindow.WholeRuns(candles, Spanned(o), tf)
                + if LooksAhead(candles, Spanned(o), tf)
                  then [InSeconds(Aggregate((left + later)[..o.bucket]))] else [],
                o.limit)
  {
    LatestOfSpan(candles, single, o, tf);
    MergedRequest(candles, single, Spanned(o), tf);
  }

  // ---------------------------------------------------------------- an older candle

  const OLD: map<int, Bar> := map[0 := EARLY]
  const LAST_MINUTE := Order(1000000, None, 10, 1, 10, 60, 0, 1000000, 1000000)

  lemma LastMinuteIsServable()
    ensures Servable(OLD, 60000, Spanned(LAST_MINUTE)) && PlanOf(LAST_MINUTE, 60000) == Fetch(999940000, 1000000000)
  {
    SamePlan(LAST_MINUTE, 60000);
    assert PlanOf(LAST_MINUTE, 60000) == Fetch(999940000, 1000000000);
    ShortWindowFits(OLD, 60000, 999940000, 1000000000);
  }

  lemma OldIsTheLatest()
    ensures CandlesOf(Slice(OLD, 999940000, 999940000 + 60000 * 10)) == [] && CandlesOf(OLD) == [EARLY]
  {
    assert Slice(OLD, 999940000, 999940000 + 60000 * 10) == map[];
    assert Ascending({}) == [];
    AscendingCandles(OLD);
    forall x ensures x in CandlesOf(OLD) <==> x in [EARLY] {
      assert x in [EARLY] <==> x == EARLY;
    }
    AscendingIsDetermined(CandlesOf(OLD), [EARLY]);
  }

  lemma OldFallback()
    ensures FallbackOf(Asking(OLD, 60000), LAST_MINUTE, 60000) == [EARLY]
  {
    OldIsTheLatest();
    assert RowsOf([]) == [] && RowsOf([EARLY]) == [Row(6, EARLY)];
    assert FallbackRows(Asking(OLD, 60000), 999940000, 10) == [Row(6, EARLY)];
    assert [Row(6, EARLY)][..0] == [];
  }

  /** A request for the last minute, in which nothing is listed, is answered with a candle from long before. */
  lemma OlderCandleReturned()
    ensures Servable(OLD, 60000, Spanned(LAST_MINUTE)) && Lists(Asking(OLD, 60000), OLD)
    ensures LatestWanted(OLD, LAST_MINUTE) == []
    ensures Answer(OLD, Asking(OLD, 60000), LAST_MINUTE, 60000) != []
  {
    LastMinuteIsServable();
    AskingLists(OLD, 60000);
    OldFallback();
    LatestRequestIff(OLD, Asking(OLD, 60000), LAST_MINUTE, 60000);
    assert EARLY in FallbackOf(Asking(OLD, 60000), LAST_MINUTE, 60000);
    assert forall t :: t in OLD ==> t == 0;
    assert Slice(OLD, SpanStart(LAST_MINUTE) * 1000, LAST_MINUTE.before * 1000) == map[];
    assert Ascending({}) == [];
  }
}
