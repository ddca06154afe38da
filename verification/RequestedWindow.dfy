/**
 What a backtest request for [after, before) returns on an exchange that serves its listing, from the
 planning of the window through the pages and the fallback to the final cut, with and without merging.
 */
module RequestedWindow {
  import opened Common
  import opened Bars
  import opened SortedKeys
  import opened Pagination
  import opened PaginationCoverage
  import opened Resampling
  import opened KlineWindow
  import opened CandlePipeline

  // ---------------------------------------------------------------- nothing of the window is lost

  lemma {:induction false} FilterInSeconds(bars: seq<Bar>, p: Bar -> bool, q: Bar -> bool)
    requires forall k :: k in bars ==> p(InSeconds(k)) == q(k)
    ensures Filter(AllInSeconds(bars), p) == AllInSeconds(Filter(bars, q))
  {
    if bars != [] {
      var front, k := bars[..|bars| - 1], bars[|bars| - 1];
      assert bars == front + [k] && k in bars;
      FilterInSeconds(front, p, q);
      assert AllInSeconds(bars)[..|AllInSeconds(bars)| - 1] == AllInSeconds(front);
      if q(k) {
        assert Filter(bars, q)[..|Filter(bars, q)| - 1] == Filter(front, q);
      } else {
        assert Filter(bars, q) == Filter(front, q);
      }
    }
  }

  lemma {:induction false} SecondsOfEach(bars: seq<Bar>)
    ensures |AllInSeconds(bars)| == |bars|
    ensures forall i :: 0 <= i < |bars| ==> AllInSeconds(bars)[i] == InSeconds(bars[i])
  {
    if bars != [] {
      SecondsOfEach(bars[..|bars| - 1]);
    }
  }

  lemma {:induction false} FilterAscends(bars: seq<Bar>, p: Bar -> bool)
    requires StrictlyAscending(bars)
    ensures StrictlyAscending(Filter(bars, p))
    ensures forall k :: k in Filter(bars, p) <==> k in bars && p(k)
  {
    if bars != [] {
      var front, last := bars[..|bars| - 1], bars[|bars| - 1];
      assert bars == front + [last];
      FilterAscends(front, p);
      forall k | k in Filter(front, p) ensures k.time < last.time {
        var i :| 0 <= i < |front| && front[i] == k;
        assert bars[i] == k;
      }
    }
  }

  /** Strictly ascending candles are determined by which they are. */
  lemma {:induction false} AscendingIsDetermined(a: seq<Bar>, b: seq<Bar>)
    requires StrictlyAscending(a) && StrictlyAscending(b) && forall k :: k in a <==> k in b
    ensures a == b
  {
    assert a != [] ==> a[|a| - 1] in b;
    assert b != [] ==> b[|b| - 1] in a;
    if a != [] {
      var a', x := a[..|a| - 1], a[|a| - 1];
      var b', y := b[..|b| - 1], b[|b| - 1];
      LastIsLatest(a, y);
      LastIsLatest(b, x);
      FrontsAgree(a, b, a', b');
      AscendingIsDetermined(a', b');
      assert a == a' + [x] && b == b' + [y];
    }
  }

  lemma FrontsAgree(a: seq<Bar>, b: seq<Bar>, a': seq<Bar>, b': seq<Bar>)
    requires StrictlyAscending(a) && StrictlyAscending(b) && a != [] && b != [] && forall k :: k in a <==> k in b
    requires a[|a| - 1] == b[|b| - 1] && a' == a[..|a| - 1] && b' == b[..|b| - 1]
    ensures forall k :: k in a' <==> k in b'
  {
    forall k ensures k in a' <==> k in b' {
      LastIsLatest(a, k);
      LastIsLatest(b, k);
    }
  }

  lemma LastIsLatest(a: seq<Bar>, k: Bar)
    requires StrictlyAscending(a) && a != []
    ensures k in a ==> k == a[|a| - 1] || k.time < a[|a| - 1].time
    ensures k in a[..|a| - 1] <==> k in a && k.time < a[|a| - 1].time
  {
    if k in a && k.time < a[|a| - 1].time {
      var i :| 0 <= i < |a| && a[i] == k;
      assert a[..|a| - 1][i] == k;
    }
  }

  lemma CutIsSlice(m: map<int, Bar>, candles: map<int, Bar>, from: int, to: int, p: Bar -> bool)
    requires Keyed(m) && Keyed(candles)
    requires forall k :: p(k) <==> from <= k.time < to
    requires forall t :: from <= t < to ==> ((t in m <==> t in candles) && (t in m ==> m[t] == candles[t]))
    ensures Filter(CandlesOf(m), p) == CandlesOf(Slice(candles, from, to))
  {
    AscendingCandles(m);
    AscendingCandles(Slice(candles, from, to));
    FilterAscends(CandlesOf(m), p);
    AscendingIsDetermined(Filter(CandlesOf(m), p), CandlesOf(Slice(candles, from, to)));
  }

  lemma SecondsInWindow(t: int, after: int, before: int)
    requires t >= 0
    ensures after <= Seconds(t) < before <==> after * 1000 <= t < before * 1000
  {
  }

  lemma SecondsMonotone(x: int, y: int)
    requires x <= y
    ensures Seconds(x) <= Seconds(y)
  {
  }

  lemma SortedInSeconds(bars: seq<Bar>)
    requires StrictlyAscending(bars)
    ensures SortedByTime(AllInSeconds(bars))
  {
    var secs := AllInSeconds(bars);
    SecondsOfEach(bars);
    forall i, j | 0 <= i < j < |secs| ensures secs[i].time <= secs[j].time {
      SecondsMonotone(bars[i].time, bars[j].time);
    }
  }

  /** The candles of [after, before), in milliseconds. */
  function Cut(bars: seq<Bar>, after: int, before: int): seq<Bar> {
    Filter(bars, (k: Bar) => after * 1000 <= k.time < before * 1000)
  }

  /** Cutting to a window of seconds is cutting to the window in milliseconds. */
  lemma WindowOfAscending(bars: seq<Bar>, before: int, after: int)
    requires StrictlyAscending(bars) && before != 0 && forall k :: k in bars ==> k.time >= 0
    ensures Windowed(AllInSeconds(bars), Some(before), Some(after)) == AllInSeconds(Cut(bars, after, before))
  {
    var inSeconds := (k: Bar) => InWindow(k, Some(before), Some(after));
    var inMillis := (k: Bar) => after * 1000 <= k.time < before * 1000;
    SortedInSeconds(bars);
    SortIsPermutation(AllInSeconds(bars));
    forall k | k in bars ensures inSeconds(InSeconds(k)) == inMillis(k) {
      SecondsInWindow(k.time, after, before);
    }
    FilterInSeconds(bars, inSeconds, inMillis);
    FilterAgree(AllInSeconds(bars), inSeconds, (k: Bar) => InWindow(k, Some(before), Some(after)));
    FilterAgree(bars, inMillis, (k: Bar) => after * 1000 <= k.time < before * 1000);
  }

  // ---------------------------------------------------------------- the exchange

  predicate IsListed(r: Row, candles: map<int, Bar>) {
    r.width >= 6 && r.bar.time in candles && candles[r.bar.time] == r.bar
  }

  predicate OnlyListed(reply: Reply, candles: map<int, Bar>) {
    reply.Page? ==> forall i :: 0 <= i < |reply.rows| ==> IsListed(reply.rows[i], candles)
  }

  /** Single requests are answered with listed candles only, whichever and in whatever order, or fail. */
  ghost predicate Lists(single: Single, candles: map<int, Bar>) {
    forall since: Option<int>, n: int :: OnlyListed(single(since, n), candles)
  }

  /** The answers of an exchange that serves its listing: the n slots from a start, or the latest n candles. */
  function Asking(candles: map<int, Bar>, tf: int): Single {
    (since: Option<int>, n: int) =>
      Page(RowsOf(match since
                  case Some(from) => CandlesOf(Slice(candles, from, from + tf * n))
                  case None => LastOf(CandlesOf(candles), n)))
  }

  function RowsOf(bars: seq<Bar>): seq<Row> {
    seq(|bars|, i requires 0 <= i < |bars| => Row(6, bars[i]))
  }

  function LastOf(bars: seq<Bar>, n: int): seq<Bar> {
    bars[|bars| - Min(Max(n, 0), |bars|)..]
  }

  lemma AskingLists(candles: map<int, Bar>, tf: int)
    requires Keyed(candles)
    ensures Lists(Asking(candles, tf), candles)
  {
    AscendingCandles(candles);
    forall since: Option<int>, n: int ensures OnlyListed(Asking(candles, tf)(since, n), candles) {
      if since.Some? {
        AscendingCandles(Slice(candles, since.value, since.value + tf * n));
      }
      var rows := Asking(candles, tf)(since, n).rows;
      forall i | 0 <= i < |rows| ensures IsListed(rows[i], candles) {
        assert since.None? ==> rows[i].bar in CandlesOf(candles);
        assert since.Some? ==> rows[i].bar in CandlesOf(Slice(candles, since.value, since.value + tf * n));
      }
    }
  }

  lemma {:induction false} CompleteBarsAreRows(rows: seq<Row>, k: Bar)
    requires k in CompleteBars(rows)
    ensures exists i :: 0 <= i < |rows| && rows[i].bar == k
  {
    var front := rows[..|rows| - 1];
    if k in CompleteBars(front) {
      CompleteBarsAreRows(front, k);
      var i :| 0 <= i < |front| && front[i].bar == k;
      assert rows[i].bar == k;
    }
  }

  /** The fallback yields listed candles only. */
  lemma FallbackIsListed(candles: map<int, Bar>, single: Single, o: Order, tf: int, k: Bar)
    requires Lists(single, candles) && k in FallbackOf(single, o, tf)
    ensures k.time in candles && candles[k.time] == k
  {
    var since, n := StartOf(o.before, o.after, o.again, o.span, tf), Min(o.fetchLimit, SINGLE_FETCH_HARD_CAP);
    assert OnlyListed(single(Some(since), n), candles) && OnlyListed(single(None, n), candles);
    var rows := FallbackRows(single, since, o.fetchLimit);
    assert OnlyListed(Page(rows), candles);
    if o.bucket <= 1 {
      CompleteBarsAreRows(rows, k);
    }
    var i :| 0 <= i < |rows| && rows[i].bar == k;
    assert IsListed(rows[i], candles);
  }

  // ---------------------------------------------------------------- the request

  /** What a request is answered with when the exchange serves its listing. */
  function Answer(candles: map<int, Bar>, single: Single, o: Order, tf: int): seq<Bar>
    requires tf >= 1
  {
    Response(Serving(candles, tf), single, (b: nat) => false, o, tf)
  }

  /** The exchange still keeps the start of the request (see PlanCoversIff), and lists nothing from the
      future. */
  ghost predicate Covered(candles: map<int, Bar>, tf: int, o: Order) {
    && Listing(candles, tf) && (forall t :: t in candles ==> t >= 0)
    && o.before != 0 && o.after.Some? && o.span >= 1
    && (o.recent == 0
        || Max(0, o.now * 1000 - tf * (o.recent - 1)) <= Min(o.after.value, Min(o.before, o.now)) * 1000)
    && NoneIn(candles, Min(o.before, o.now) * 1000, o.before * 1000)
  }

  /** The batch cap does not cut the planned window short. */
  ghost predicate Fits(candles: map<int, Bar>, tf: int, o: Order) {
    Covered(candles, tf, o)
    && match PlanOf(o, tf)
       case Skip => false
       case Fetch(since, end) => BatchesNeeded(candles, tf, since, end) <= MAX_BATCHES
  }

  /** And no candle in it is isolated. */
  ghost predicate Servable(candles: map<int, Bar>, tf: int, o: Order) {
    Fits(candles, tf, o)
    && match PlanOf(o, tf)
       case Skip => false
       case Fetch(since, end) => forall c :: c in candles && since <= c < end ==> !Isolated(candles, tf, since, c)
  }

  /** The candles that are listed for the request. */
  function Wanted(candles: map<int, Bar>, o: Order): seq<Bar>
    requires o.after.Some?
  {
    AllInSeconds(CandlesOf(Slice(candles, o.after.value * 1000, o.before * 1000)))
  }

  lemma PlanFits(candles: map<int, Bar>, tf: int, o: Order)
    requires Fits(candles, tf, o)
    ensures var plan := PlanOf(o, tf);
      plan.Fetch? && plan.since <= o.after.value * 1000 && plan.end == Min(o.before, o.now) * 1000
  {
    PlanCoversIff(o.before, o.after.value, o.now, o.span, tf, o.recent);
  }

  predicate Outside(k: Bar, after: int, before: int) {
    k.time >= 0 && !(after * 1000 <= k.time < before * 1000)
  }

  lemma {:induction false} MergedOutside(bars: seq<Bar>, n: nat, after: int, before: int)
    requires n >= 1 && forall i :: 0 <= i < |bars| ==> Outside(bars[i], after, before)
    ensures forall j :: 0 <= j < |MergeEvery(bars, n)| ==> Outside(MergeEvery(bars, n)[j], after, before)
    decreases |bars|
  {
    if |bars| >= n {
      MergedOutside(bars[n..], n, after, before);
    }
  }

  /** From candles outside the window nothing is returned. */
  lemma NothingReturned(bars: seq<Bar>, bucket: int, limit: int, before: int, after: int)
    requires before != 0 && forall i :: 0 <= i < |bars| ==> Outside(bars[i], after, before)
    ensures Returned(bars, bucket, limit, before, Some(after)) == []
  {
    var merged := CryptoMerged(bars, bucket);
    if bucket > 1 {
      MergedOutside(bars, bucket, after, before);
    }
    assert forall i :: 0 <= i < |merged| ==> Outside(merged[i], after, before);
    var secs := AllInSeconds(merged);
    SecondsOfEach(merged);
    forall k | k in secs ensures !InWindow(k, Some(before), Some(after)) {
      var i :| 0 <= i < |secs| && secs[i] == k;
      SecondsInWindow(merged[i].time, after, before);
    }
    NothingInWindow(secs, before, Some(after));
  }

  lemma NothingInWindow(bars: seq<Bar>, before: int, after: Option<int>)
    requires forall k :: k in bars ==> !InWindow(k, Some(before), after)
    ensures Windowed(bars, Some(before), after) == []
  {
    var sorted, p := SortByTime(bars), (k: Bar) => InWindow(k, Some(before), after);
    SortIsPermutation(bars);
    forall i | 0 <= i < |sorted| ensures !p(sorted[i]) {
      assert sorted[i] in multiset(sorted) && sorted[i] in multiset(bars);
    }
    FilterNone(sorted, p);
    FilterAgree(sorted, p, (k: Bar) => InWindow(k, Some(before), after));
  }

  /** The fetch gives the fetched candles, or leaves it to the fallback when there are none. */
  lemma Concluded(candles: map<int, Bar>, tf: int, since: int, end: int)
    requires Listing(candles, tf)
    ensures var f := FetchAll(candles, tf, since, end);
      Conclude(f) == if CandlesOf(ByTime(f.rows)) == [] then Fallback else Candles(CandlesOf(ByTime(f.rows)))
  {
    ServingNeverFails(candles, tf, MAX_BATCHES, end, 0, since, 0);
  }

  lemma SliceIsEmpty(candles: map<int, Bar>, since: int, h: int)
    requires Keyed(candles) && (forall t :: t in candles ==> t >= 0)
    ensures CandlesOf(Slice(candles, since, h)) == [] ==> NoneIn(candles, since, h)
  {
    SliceKeyed(candles, since, h);
    forall t | t in candles && since <= t < h ensures CandlesOf(Slice(candles, since, h)) != [] {
      assert candles[t] in CandlesOf(Slice(candles, since, h));
    }
  }

  /** When the fetch has nothing, nothing is listed for the request, and the fallback finds nothing of it. */
  lemma FallbackAddsNothing(candles: map<int, Bar>, single: Single, o: Order, tf: int)
    requires Servable(candles, tf, o) && Lists(single, candles)
    requires NoneIn(candles, o.after.value * 1000, o.before * 1000)
    ensures Returned(FallbackOf(single, o, tf), o.bucket, o.limit, o.before, o.after) == []
  {
    var bars := FallbackOf(single, o, tf);
    forall i | 0 <= i < |bars| ensures Outside(bars[i], o.after.value, o.before) {
      assert bars[i] in bars;
      FallbackIsListed(candles, single, o, tf, bars[i]);
    }
    NothingReturned(bars, o.bucket, o.limit, o.before, o.after.value);
  }

  /** The answer comes from one unbroken stretch of the listing, whether or not the fallback is asked. */
  lemma AnswerIs(candles: map<int, Bar>, single: Single, o: Order, tf: int)
    requires Servable(candles, tf, o) && Lists(single, candles)
    ensures var plan := PlanOf(o, tf);
      var fetched := CandlesOf(Slice(candles, plan.since, Horizon(candles, tf, plan.since, plan.end)));
      Answer(candles, single, o, tf) == Returned(fetched, o.bucket, o.limit, o.before, o.after)
  {
    var plan := PlanOf(o, tf);
    var h := Horizon(candles, tf, plan.since, plan.end);
    PlanFits(candles, tf, o);
    Concluded(candles, tf, plan.since, plan.end);
    FetchedIsSlice(candles, tf, plan.since, plan.end);
    if CandlesOf(Slice(candles, plan.since, h)) == [] {
      SliceIsEmpty(candles, plan.since, h);
      FallbackAddsNothing(candles, single, o, tf);
      NothingReturned([], o.bucket, o.limit, o.before, o.after.value);
    }
  }

  lemma SliceKeyed(candles: map<int, Bar>, from: int, to: int)
    requires Keyed(candles) && forall t :: t in candles ==> t >= 0
    ensures Keyed(Slice(candles, from, to)) && StrictlyAscending(CandlesOf(Slice(candles, from, to)))
    ensures forall k ::
      k in CandlesOf(Slice(candles, from, to)) <==> k.time in candles && from <= k.time < to && candles[k.time] == k
    ensures forall k :: k in CandlesOf(Slice(candles, from, to)) ==> k.time >= 0
  {
    AscendingCandles(Slice(candles, from, to));
  }

  /** Cutting a stretch of the listing that goes beyond the request gives the request's candles. */
  lemma CutOfSlice(candles: map<int, Bar>, since: int, h: int, end: int, after: int, before: int)
    requires Keyed(candles) && (forall t :: t in candles ==> t >= 0)
    requires since <= after * 1000 && end <= h && NoneIn(candles, end, before * 1000)
    ensures Cut(CandlesOf(Slice(candles, since, h)), after, before)
         == CandlesOf(Slice(candles, after * 1000, before * 1000))
  {
    var m := Slice(candles, since, h);
    SliceKeyed(candles, since, h);
    forall t | after * 1000 <= t < before * 1000 ensures (t in m <==> t in candles) && (t in m ==> m[t] == candles[t]) {
    }
    CutIsSlice(m, candles, after * 1000, before * 1000, (k: Bar) => after * 1000 <= k.time < before * 1000);
  }

  /** Without merging, the answer is exactly the listed candles of [after, before). */
  lemma UnmergedRequest(candles: map<int, Bar>, single: Single, o: Order, tf: int)
    requires Servable(candles, tf, o) && o.bucket <= 1 && Lists(single, candles)
    ensures Answer(candles, single, o, tf) == Wanted(candles, o)
  {
    var plan, after := PlanOf(o, tf), o.after.value;
    var h := Horizon(candles, tf, plan.since, plan.end);
    PlanFits(candles, tf, o);
    AnswerIs(candles, single, o, tf);
    SliceKeyed(candles, plan.since, h);
    CutOfSlice(candles, plan.since, h, plan.end, after, o.before);
    WindowOfAscending(CandlesOf(Slice(candles, plan.since, h)), o.before, after);
  }

  /** Cutting what the fetch has, whatever it is, gives exactly the listed candles that it has. */
  lemma CutOfFetched(candles: map<int, Bar>, tf: int, since: int, end: int, after: int, before: int)
    requires Listing(candles, tf) && (forall t :: t in candles ==> t >= 0) && before != 0
    ensures var m := ByTime(FetchAll(candles, tf, since, end).rows);
      Windowed(AllInSeconds(CandlesOf(m)), Some(before), Some(after))
      == AllInSeconds(CandlesOf(Slice(m, after * 1000, before * 1000)))
  {
    var rows := FetchAll(candles, tf, since, end).rows;
    var m := ByTime(rows);
    forall t ensures t in m ==> t >= 0 && m[t].time == t {
      FetchedIsListed(candles, tf, since, end, t);
    }
    AscendingCandles(m);
    WindowOfAscending(CandlesOf(m), before, after);
    CutIsSlice(m, m, after * 1000, before * 1000, (k: Bar) => after * 1000 <= k.time < before * 1000);
    FilterAgree(CandlesOf(m), (k: Bar) => after * 1000 <= k.time < before * 1000,
                (k: Bar) => after * 1000 <= k.time < before * 1000);
  }

  lemma SubsetBySize(a: set<int>, b: set<int>)
    requires a <= b && |a| == |b|
    ensures a == b
  {
    assert b == a + (b - a);
  }

  /** A part of a listing that is as long as the listing is all of it. */
  lemma SameLength(m: map<int, Bar>, candles: map<int, Bar>, c: int)
    requires m.Keys <= candles.Keys && AllInSeconds(CandlesOf(m)) == AllInSeconds(CandlesOf(candles))
    ensures c in candles ==> c in m
  {
    SecondsOfEach(CandlesOf(m));
    SecondsOfEach(CandlesOf(candles));
    AscendingIsSorted(m.Keys);
    AscendingIsSorted(candles.Keys);
    SubsetBySize(m.Keys, candles.Keys);
  }

  /** Some fetched candles cut to the window are the listed ones exactly when none of those is missing. */
  lemma CutsAgreeIff(m: map<int, Bar>, candles: map<int, Bar>, from: int, to: int)
    requires forall t :: t in m ==> t in candles && m[t] == candles[t]
    ensures AllInSeconds(CandlesOf(Slice(m, from, to))) == AllInSeconds(CandlesOf(Slice(candles, from, to)))
       <==> forall c :: c in candles && from <= c < to ==> c in m
  {
    var part, all := Slice(m, from, to), Slice(candles, from, to);
    if AllInSeconds(CandlesOf(part)) == AllInSeconds(CandlesOf(all)) {
      forall c | c in candles && from <= c < to ensures c in m {
        SameLength(part, all, c);
      }
    }
    if forall c :: c in candles && from <= c < to ==> c in m {
      assert part == all;
    }
  }

  /** What the fetch has is what is answered, unless it has nothing. */
  lemma AnswerOfFetched(candles: map<int, Bar>, single: Single, o: Order, tf: int)
    requires Fits(candles, tf, o) && o.bucket <= 1
    requires var plan := PlanOf(o, tf); !NoneIn(candles, plan.since, LookEnd(tf, plan.end, plan.since, 0))
    ensures var plan := PlanOf(o, tf);
      var m := ByTime(FetchAll(candles, tf, plan.since, plan.end).rows);
      Answer(candles, single, o, tf) == AllInSeconds(CandlesOf(Slice(m, o.after.value * 1000, o.before * 1000)))
  {
    var plan := PlanOf(o, tf);
    FallbackIff(candles, tf, plan.since, plan.end);
    CutOfFetched(candles, tf, plan.since, plan.end, o.after.value, o.before);
  }

  /** When something is listed where the fetch looks, the answer without merging is exactly the listed
      candles of [after, before) if and only if each of them is reachable: no candle from the planned
      start up to it is isolated. */
  lemma UnmergedRequestIff(candles: map<int, Bar>, single: Single, o: Order, tf: int)
    requires Fits(candles, tf, o) && o.bucket <= 1
    requires var plan := PlanOf(o, tf); !NoneIn(candles, plan.since, LookEnd(tf, plan.end, plan.since, 0))
    ensures Answer(candles, single, o, tf) == Wanted(candles, o)
       <==> forall c :: c in candles && o.after.value * 1000 <= c < o.before * 1000 ==>
              Reachable(candles, tf, PlanOf(o, tf).since, c)
  {
    var plan, from, to := PlanOf(o, tf), o.after.value * 1000, o.before * 1000;
    var m := ByTime(FetchAll(candles, tf, plan.since, plan.end).rows);
    PlanFits(candles, tf, o);
    AnswerOfFetched(candles, single, o, tf);
    forall t | t in m ensures t in candles && m[t] == candles[t] {
      FetchedIsListed(candles, tf, plan.since, plan.end, t);
    }
    CutsAgreeIff(m, candles, from, to);
    forall c | c in candles && from <= c < to ensures c in m <==> Reachable(candles, tf, plan.since, c) {
      FetchReaches(candles, tf, plan.since, plan.end, c);
    }
  }

  // ---------------------------------------------------------------- the request with merging

  lemma {:induction false} FilterConcat(a: seq<Bar>, b: seq<Bar>, p: Bar -> bool)
    ensures Filter(a + b, p) == Filter(a, p) + Filter(b, p)
  {
    if b == [] {
      assert a + b == a;
    } else {
      assert (a + b)[..|a + b| - 1] == a + b[..|b| - 1];
      FilterConcat(a, b[..|b| - 1], p);
    }
  }

  lemma {:induction false} FilterNone(bars: seq<Bar>, p: Bar -> bool)
    requires forall i :: 0 <= i < |bars| ==> !p(bars[i])
    ensures Filter(bars, p) == []
  {
    if bars != [] {
      FilterNone(bars[..|bars| - 1], p);
    }
  }

  /** Merged candles start where their runs do: ascending, and not before the first. */
  lemma {:induction false} MergedAscends(bars: seq<Bar>, n: nat, from: int)
    requires n >= 1 && StrictlyAscending(bars) && forall i :: 0 <= i < |bars| ==> bars[i].time >= from
    ensures StrictlyAscending(MergeEvery(bars, n))
    ensures forall j :: 0 <= j < |MergeEvery(bars, n)| ==> MergeEvery(bars, n)[j].time >= from
    decreases |bars|
  {
    if |bars| >= n {
      var rest := bars[n..];
      forall i | 0 <= i < |rest| ensures rest[i].time >= bars[0].time + 1 {
        assert rest[i] == bars[n + i];
      }
      MergedAscends(rest, n, bars[0].time + 1);
    }
  }

  /** The candles after the last whole run. */
  function Leftover(bars: seq<Bar>, n: nat): seq<Bar>
    requires n >= 1
  {
    bars[RunEnd(|bars|, n)..]
  }

  lemma {:induction false} MergeOfConcat(a: seq<Bar>, b: seq<Bar>, n: nat)
    requires n >= 1
    ensures |Leftover(a, n)| < n
    ensures MergeEvery(a + b, n) == MergeEvery(a, n) + MergeEvery(Leftover(a, n) + b, n)
    decreases |a|
  {
    RunEndSteps(|a|, n);
    if |a| < n {
      assert Leftover(a, n) == a;
    } else {
      assert (a + b)[..n] == a[..n] && (a + b)[n..] == a[n..] + b;
      assert Leftover(a[n..], n) == Leftover(a, n);
      MergeOfConcat(a[n..], b, n);
    }
  }

  /** The run that starts among the leftover candles and is completed by later ones. */
  function Straddling(left: seq<Bar>, later: seq<Bar>, n: nat): seq<Bar>
    requires |left| < n
  {
    if left == [] || |left| + |later| < n then [] else [Aggregate((left + later)[..n])]
  }

  /** Of the runs that start among the leftovers or later, only the first can start before the later ones. */
  lemma CutOfStraddling(left: seq<Bar>, later: seq<Bar>, n: nat, after: int, before: int)
    requires |left| < n && StrictlyAscending(later) && forall i :: 0 <= i < |later| ==> later[i].time >= before * 1000
    ensures Cut(MergeEvery(left + later, n), after, before) == Cut(Straddling(left, later, n), after, before)
  {
    var all, p := left + later, (k: Bar) => after * 1000 <= k.time < before * 1000;
    if left == [] {
      assert all == later;
      MergedAscends(later, n, before * 1000);
      FilterNone(MergeEvery(all, n), p);
    } else if |all| >= n {
      var rest := all[n..];
      assert forall i :: 0 <= i < |rest| ==> rest[i] == later[i + n - |left|];
      MergedAscends(rest, n, before * 1000);
      FilterNone(MergeEvery(rest, n), p);
      FilterConcat([Aggregate(all[..n])], MergeEvery(rest, n), p);
    }
  }

  /** A stretch of the listing in two parts. */
  lemma SliceSplits(candles: map<int, Bar>, from: int, mid: int, to: int)
    requires Keyed(candles) && (forall t :: t in candles ==> t >= 0) && from <= mid <= to
    ensures CandlesOf(Slice(candles, from, to))
        == CandlesOf(Slice(candles, from, mid)) + CandlesOf(Slice(candles, mid, to))
  {
    var a, b := CandlesOf(Slice(candles, from, mid)), CandlesOf(Slice(candles, mid, to));
    var ab := CandlesOf(Slice(candles, from, to));
    SliceKeyed(candles, from, mid);
    SliceKeyed(candles, mid, to);
    SliceKeyed(candles, from, to);
    AscendingConcat(a, b, mid);
    forall k ensures k in a + b <==> k in ab {
      assert k in a + b <==> k in a || k in b;
    }
    AscendingIsDetermined(a + b, ab);
  }

  lemma AscendingConcat(a: seq<Bar>, b: seq<Bar>, mid: int)
    requires StrictlyAscending(a) && StrictlyAscending(b)
    requires (forall k :: k in a ==> k.time < mid) && (forall k :: k in b ==> k.time >= mid)
    ensures StrictlyAscending(a + b)
  {
    assert forall i :: 0 <= i < |a| ==> a[i] in a;
    assert forall i :: 0 <= i < |b| ==> b[i] in b;
  }

  /** Merging a fetched stretch and cutting it: the whole runs of the planned window that start in
      [after, before), and at most one run that starts there and is completed by candles from `before` on. */
  lemma MergedStretch(candles: map<int, Bar>, since: int, end: int, h: int, n: nat, after: int, before: int)
    requires Keyed(candles) && (forall t :: t in candles ==> t >= 0) && before != 0 && n > 1
    requires since <= end <= h && NoneIn(candles, end, before * 1000)
    ensures var a, b := CandlesOf(Slice(candles, since, end)), CandlesOf(Slice(candles, end, h));
      |Leftover(a, n)| < n
      && Windowed(AllInSeconds(CryptoMerged(CandlesOf(Slice(candles, since, h)), n)), Some(before), Some(after))
         == AllInSeconds(Cut(MergeEvery(a, n), after, before) + Cut(Straddling(Leftover(a, n), b, n), after, before))
  {
    var a, b := CandlesOf(Slice(candles, since, end)), CandlesOf(Slice(candles, end, h));
    var ab := CandlesOf(Slice(candles, since, h));
    SliceKeyed(candles, since, h);
    MergedWindow(ab, n, after, before);
    LaterCandles(candles, end, h, before);
    SliceSplits(candles, since, end, h);
    CutOfStretch(a, b, ab, n, after, before);
  }

  lemma MergedWindow(bars: seq<Bar>, n: nat, after: int, before: int)
    requires n > 1 && before != 0 && StrictlyAscending(bars) && forall k :: k in bars ==> k.time >= 0
    ensures Windowed(AllInSeconds(CryptoMerged(bars, n)), Some(before), Some(after))
         == AllInSeconds(Cut(MergeEvery(bars, n), after, before))
  {
    MergedIsAscending(bars, n);
    WindowOfAscending(MergeEvery(bars, n), before, after);
    assert CryptoMerged(bars, n) == MergeEvery(bars, n);
  }

  lemma CutOfStretch(a: seq<Bar>, b: seq<Bar>, ab: seq<Bar>, n: nat, after: int, before: int)
    requires ab == a + b && n >= 1 && StrictlyAscending(b) && forall i :: 0 <= i < |b| ==> b[i].time >= before * 1000
    ensures |Leftover(a, n)| < n
    ensures Cut(MergeEvery(ab, n), after, before)
         == Cut(MergeEvery(a, n), after, before) + Cut(Straddling(Leftover(a, n), b, n), after, before)
  {
    CutOfMerged(a, b, n, after, before);
  }

  lemma CutOfMerged(a: seq<Bar>, b: seq<Bar>, n: nat, after: int, before: int)
    requires n >= 1 && StrictlyAscending(b) && forall i :: 0 <= i < |b| ==> b[i].time >= before * 1000
    ensures |Leftover(a, n)| < n
    ensures Cut(MergeEvery(a + b, n), after, before)
         == Cut(MergeEvery(a, n), after, before) + Cut(Straddling(Leftover(a, n), b, n), after, before)
  {
    MergeOfConcat(a, b, n);
    FilterConcat(MergeEvery(a, n), MergeEvery(Leftover(a, n) + b, n),
                 (k: Bar) => after * 1000 <= k.time < before * 1000);
    CutOfStraddling(Leftover(a, n), b, n, after, before);
  }

  lemma MergedIsAscending(bars: seq<Bar>, n: nat)
    requires n >= 1 && StrictlyAscending(bars) && forall k :: k in bars ==> k.time >= 0
    ensures StrictlyAscending(MergeEvery(bars, n)) && forall k :: k in MergeEvery(bars, n) ==> k.time >= 0
  {
    assert forall i :: 0 <= i < |bars| ==> bars[i] in bars;
    MergedAscends(bars, n, 0);
  }

  lemma LaterCandles(candles: map<int, Bar>, end: int, h: int, before: int)
    requires Keyed(candles) && (forall t :: t in candles ==> t >= 0) && NoneIn(candles, end, before * 1000)
    ensures var b := CandlesOf(Slice(candles, end, h));
      StrictlyAscending(b) && forall i :: 0 <= i < |b| ==> b[i].time >= before * 1000
  {
    var b := CandlesOf(Slice(candles, end, h));
    SliceKeyed(candles, end, h);
    forall i | 0 <= i < |b| ensures b[i].time >= before * 1000 {
      assert b[i] in b;
    }
  }

  // ---------------------------------------------------------------- the merged request

  lemma {:induction false} SecondsConcat(a: seq<Bar>, b: seq<Bar>)
    ensures AllInSeconds(a + b) == AllInSeconds(a) + AllInSeconds(b)
  {
    if b == [] {
      assert a + b == a;
    } else {
      assert (a + b)[..|a + b| - 1] == a + b[..|b| - 1];
      SecondsConcat(a, b[..|b| - 1]);
    }
  }

  /** The listed candles of the planned window. */
  function Planned(candles: map<int, Bar>, o: Order, tf: int): seq<Bar>
    requires PlanOf(o, tf).Fetch?
  {
    CandlesOf(Slice(candles, PlanOf(o, tf).since, PlanOf(o, tf).end))
  }

  /** What is listed behind it, up to the end of its last page. */
  ghost function Later(candles: map<int, Bar>, o: Order, tf: int): seq<Bar>
    requires Listing(candles, tf) && PlanOf(o, tf).Fetch?
  {
    var plan := PlanOf(o, tf);
    CandlesOf(Slice(candles, plan.end, Horizon(candles, tf, plan.since, plan.end)))
  }

  /** The merged candles of the planned window's whole runs that start in [after, before). */
  function WholeRuns(candles: map<int, Bar>, o: Order, tf: int): seq<Bar>
    requires PlanOf(o, tf).Fetch? && o.after.Some? && o.bucket >= 1
  {
    AllInSeconds(Cut(MergeEvery(Planned(candles, o, tf), o.bucket), o.after.value, o.before))
  }

  /** The planned window ends in an incomplete run that starts in the request, and its last page holds
      enough candles behind it to complete that run. */
  ghost predicate LooksAhead(candles: map<int, Bar>, o: Order, tf: int)
    requires Listing(candles, tf) && PlanOf(o, tf).Fetch? && o.after.Some? && o.bucket >= 1
  {
    var left, later := Leftover(Planned(candles, o, tf), o.bucket), Later(candles, o, tf);
    left != [] && |left| + |later| >= o.bucket && o.after.value * 1000 <= left[0].time
  }

  lemma StraddlingIs(a: seq<Bar>, later: seq<Bar>, n: nat, after: int, before: int)
    requires n >= 1 && |Leftover(a, n)| < n && forall k :: k in a ==> k.time < before * 1000
    ensures var left := Leftover(a, n);
      Cut(Straddling(left, later, n), after, before)
      == if left != [] && |left| + |later| >= n && after * 1000 <= left[0].time
         then [Aggregate((left + later)[..n])] else []
  {
    var left := Leftover(a, n);
    assert left != [] ==> left[0] in a;
    if left != [] && |left| + |later| >= n {
      var k := Aggregate((left + later)[..n]);
      assert [k][..0] == [] && Filter([], (k: Bar) => after * 1000 <= k.time < before * 1000) == [];
    }
  }

  lemma PlannedEnds(candles: map<int, Bar>, o: Order, tf: int)
    requires Fits(candles, tf, o)
    ensures forall k :: k in Planned(candles, o, tf) ==> k.time < o.before * 1000
  {
    PlanFits(candles, tf, o);
    SliceKeyed(candles, PlanOf(o, tf).since, PlanOf(o, tf).end);
  }

  lemma NothingBetween(candles: map<int, Bar>, from: int, to: int)
    requires to <= from
    ensures CandlesOf(Slice(candles, from, to)) == []
  {
    assert Slice(candles, from, to) == map[];
    assert Ascending({}) == [];
  }

  lemma MergedStretchOf(candles: map<int, Bar>, o: Order, tf: int)
    requires Servable(candles, tf, o) && o.bucket > 1
    ensures var plan, a := PlanOf(o, tf), Planned(candles, o, tf);
      var fetched := CandlesOf(Slice(candles, plan.since, Horizon(candles, tf, plan.since, plan.end)));
      |Leftover(a, o.bucket)| < o.bucket
      && Returned(fetched, o.bucket, o.limit, o.before, o.after)
         == WholeRuns(candles, o, tf)
            + AllInSeconds(Cut(Straddling(Leftover(a, o.bucket), Later(candles, o, tf), o.bucket),
                               o.after.value, o.before))
  {
    var plan, a, after := PlanOf(o, tf), Planned(candles, o, tf), o.after.value;
    PlanFits(candles, tf, o);
    if plan.since <= plan.end {
      MergedStretch(candles, plan.since, plan.end, Horizon(candles, tf, plan.since, plan.end), o.bucket, after,
                    o.before);
    } else {
      NothingBetween(candles, plan.since, plan.end);
      NothingBetween(candles, plan.end, plan.end);
      NothingReturned([], o.bucket, o.limit, o.before, after);
    }
    SecondsConcat(Cut(MergeEvery(a, o.bucket), after, o.before),
                  Cut(Straddling(Leftover(a, o.bucket), Later(candles, o, tf), o.bucket), after, o.before));
  }

  /** With merging, the answer is exactly the merged candles of the planned window's whole runs that start
      in [after, before), followed by one more when the request looks ahead. */
  lemma MergedRequest(candles: map<int, Bar>, single: Single, o: Order, tf: int)
    requires Servable(candles, tf, o) && o.bucket > 1 && Lists(single, candles)
    ensures var left, later := Leftover(Planned(candles, o, tf), o.bucket), Later(candles, o, tf);
      Answer(candles, single, o, tf)
      == WholeRuns(candles, o, tf)
         + if LooksAhead(candles, o, tf) then [InSeconds(Aggregate((left + later)[..o.bucket]))] else []
  {
    AnswerIs(candles, single, o, tf);
    MergedStretchOf(candles, o, tf);
    PlannedEnds(candles, o, tf);
    StraddlingIs(Planned(candles, o, tf), Later(candles, o, tf), o.bucket, o.after.value, o.before);
    if LooksAhead(candles, o, tf) {
      var k := Aggregate((Leftover(Planned(candles, o, tf), o.bucket) + Later(candles, o, tf))[..o.bucket]);
      assert [k][..0] == [] && AllInSeconds([k]) == [InSeconds(k)];
    }
  }

  /** A merged answer stays within the whole runs of the planned window exactly when the request does not
      look ahead; when it does, the last merged candle closes with a candle from `before` on. */
  lemma LooksAheadIff(candles: map<int, Bar>, single: Single, o: Order, tf: int)
    requires Servable(candles, tf, o) && o.bucket > 1 && Lists(single, candles)
    ensures var r, later := Answer(candles, single, o, tf), Later(candles, o, tf);
      && (r == WholeRuns(candles, o, tf) <==> !LooksAhead(candles, o, tf))
      && (LooksAhead(candles, o, tf) ==>
            && r != []
            && exists i :: 0 <= i < |later| && later[i].time >= o.before * 1000
                 && r[|r| - 1].close == later[i].close)
  {
    MergedRequest(candles, single, o, tf);
    if LooksAhead(candles, o, tf) {
      var plan := PlanOf(o, tf);
      var left, later := Leftover(Planned(candles, o, tf), o.bucket), Later(candles, o, tf);
      PlanFits(candles, tf, o);
      MergeOfConcat(Planned(candles, o, tf), [], o.bucket);
      LaterCandles(candles, plan.end, Horizon(candles, tf, plan.since, plan.end), o.before);
      var i := o.bucket - |left| - 1;
      assert later[i].time >= o.before * 1000;
      assert (left + later)[..o.bucket][o.bucket - 1] == later[i];
    }
  }

  /** Two candles a minute apart, of which the request is for the first. */
  const EARLY := Bar(0, 1.0, 1.0, 1.0, 1.0, 1.0)
  const LATE := Bar(60000, 2.0, 2.0, 2.0, 2.0, 1.0)
  const TWO_CANDLES: map<int, Bar> := map[0 := EARLY, 60000 := LATE]
  const FIRST_MINUTE := Order(60, Some(0), 10, 2, 20, 60, 0, 1000, 1000)

  lemma SingleCandle(k: Bar, from: int, to: int)
    requires k in [EARLY, LATE] && (forall t :: t in TWO_CANDLES && from <= t < to <==> t == k.time)
    ensures CandlesOf(Slice(TWO_CANDLES, from, to)) == [k]
  {
    var bars := CandlesOf(Slice(TWO_CANDLES, from, to));
    SliceKeyed(TWO_CANDLES, from, to);
    forall x ensures x in bars <==> x in [k] {
      assert x in [k] <==> x == k;
      assert k.time in TWO_CANDLES && TWO_CANDLES[k.time] == k;
    }
    AscendingIsDetermined(bars, [k]);
  }

  lemma FirstMinuteIsServable()
    ensures Servable(TWO_CANDLES, 60000, FIRST_MINUTE)
    ensures PlanOf(FIRST_MINUTE, 60000) == Fetch(0, 60000)
  {
    assert PlanOf(FIRST_MINUTE, 60000) == Fetch(0, 60000);
    ShortWindowFits(TWO_CANDLES, 60000, 0, 60000);
  }

  lemma FirstMinutePage()
    requires Listing(TWO_CANDLES, 60000)
    ensures Horizon(TWO_CANDLES, 60000, 0, 60000) == 60000 * BATCH_LIMIT
  {
    PageHolds(TWO_CANDLES, 60000, 0, 60000);
    assert 60000 in PageTimes(TWO_CANDLES, 60000, 0);
    PageEnds(TWO_CANDLES, 60000, 0);
  }

  lemma FirstMinuteRuns()
    requires Servable(TWO_CANDLES, 60000, FIRST_MINUTE) && PlanOf(FIRST_MINUTE, 60000) == Fetch(0, 60000)
    ensures Planned(TWO_CANDLES, FIRST_MINUTE, 60000) == [EARLY] && Later(TWO_CANDLES, FIRST_MINUTE, 60000) == [LATE]
    ensures Leftover([EARLY], 2) == [EARLY] && WholeRuns(TWO_CANDLES, FIRST_MINUTE, 60000) == []
  {
    FirstMinutePage();
    SingleCandle(EARLY, 0, 60000);
    SingleCandle(LATE, 60000, 60000 * BATCH_LIMIT);
    RunEndSteps(1, 2);
    assert MergeEvery([EARLY], 2) == [];
  }

  lemma BothTogether()
    ensures ([EARLY] + [LATE])[..2] == [EARLY, LATE]
    ensures InSeconds(Aggregate([EARLY, LATE])) == Bar(0, 1.0, 2.0, 1.0, 2.0, 2.0)
  {
    AggregatePair(EARLY, LATE);
  }

  lemma FirstMinuteAnswer(single: Single)
    requires Servable(TWO_CANDLES, 60000, FIRST_MINUTE) && PlanOf(FIRST_MINUTE, 60000) == Fetch(0, 60000)
    requires Lists(single, TWO_CANDLES)
    ensures Answer(TWO_CANDLES, single, FIRST_MINUTE, 60000) == [InSeconds(Aggregate([EARLY, LATE]))]
  {
    FirstMinuteRuns();
    MergedRequest(TWO_CANDLES, single, FIRST_MINUTE, 60000);
    BothTogether();
    assert LooksAhead(TWO_CANDLES, FIRST_MINUTE, 60000);
  }

  /** A request for the first minute, merged in twos, is answered with a candle that closes with the price
      of the second minute. */
  lemma PriceFromAfterTheRequest(single: Single)
    requires Lists(single, TWO_CANDLES)
    ensures Servable(TWO_CANDLES, 60000, FIRST_MINUTE) && FIRST_MINUTE.before == 60 && LATE.time == 60 * 1000
    ensures Answer(TWO_CANDLES, single, FIRST_MINUTE, 60000) == [Bar(0, 1.0, 2.0, 1.0, 2.0, 2.0)]
  {
    FirstMinuteIsServable();
    FirstMinuteAnswer(single);
    BothTogether();
  }
}
