/**
 The windowed candle request of the crypto data source from end to end: planning the window, fetching
 its pages, merging, and cutting the result to what was asked for.
 */
module CandlePipeline {
  import opened Common
  import opened Bars
  import opened Pagination
  import Resampling
  import opened KlineWindow

  // ---------------------------------------------------------------- the window to fetch

  datatype Plan = Skip | Fetch(since: int, end: int)

  /** Where the history a request asks for starts, in milliseconds. All but `tf` are in seconds; `span` is
      the history its limit asks for. */
  function StartOf(before: int, after: Option<int>, now: int, span: int, tf: int): int {
    var until := Min(before, now);
    var wanted := if after.Some? then Min(until - span, after.value) else until - span;
    if wanted * 1000 >= now * 1000 then Max(0, now * 1000 - tf) else wanted * 1000
  }

  /** `recent` is the number of latest candles the exchange keeps, 0 when it keeps all. */
  function PlanWindow(before: int, after: Option<int>, now: int, span: int, tf: int, recent: nat): Plan {
    var since := StartOf(before, after, now, span, tf);
    var end := Min(before, now) * 1000;
    var earliest := Max(0, now * 1000 - tf * (recent - 1));
    if recent == 0 then Fetch(since, end)
    else if end < earliest then Skip
    else Fetch(Max(since, earliest), end)
  }

  /** The plan covers the request from `after` up to now or `before` unless the exchange has dropped
      the start of it. */
  lemma PlanCoversIff(before: int, after: int, now: int, span: int, tf: int, recent: nat)
    requires span >= 1
    ensures var plan := PlanWindow(before, Some(after), now, span, tf, recent);
      (plan.Fetch? && plan.since <= after * 1000 && plan.end == Min(before, now) * 1000)
      <==> recent == 0 || Max(0, now * 1000 - tf * (recent - 1)) <= Min(after, Min(before, now)) * 1000
  {
  }

  /** With or without `after`, the plan covers the whole history that the limit asks for unless the exchange
      has dropped the start of it; without `after` it then starts exactly there. */
  lemma PlanCoversSpanIff(before: int, after: Option<int>, now: int, span: int, tf: int, recent: nat)
    requires span >= 1
    ensures var plan, start := PlanWindow(before, after, now, span, tf, recent), Min(before, now) - span;
      && ((plan.Fetch? && plan.since <= start * 1000 && plan.end == Min(before, now) * 1000)
          <==> recent == 0 || Max(0, now * 1000 - tf * (recent - 1)) <= start * 1000)
      && (after.None? && plan.Fetch? ==> plan.since >= start * 1000)
  {
  }

  /** No history is asked for from the future: a start that would lie there is one candle before now. */
  lemma StartIsPast(before: int, after: Option<int>, now: int, span: int, tf: int)
    requires tf >= 1 && now >= 1
    ensures StartOf(before, after, now, span, tf) < now * 1000
    ensures (Min(before, now) - span >= now && (after.Some? ==> after.value >= now)) ==>
              StartOf(before, after, now, span, tf) == Max(0, now * 1000 - tf)
  {
  }

  // ---------------------------------------------------------------- the fallback

  const SINGLE_FETCH_HARD_CAP := 300

  /** The exchange's answer to a single request: from a start, or (None) of the latest candles, with the
      number of rows asked for. */
  type Single = (Option<int>, int) -> Reply

  /** What the fallback gets: one page from the start, or else one page of the latest candles. */
  function FallbackRows(single: Single, since: int, limit: int): seq<Row> {
    var n := Min(limit, SINGLE_FETCH_HARD_CAP);
    var page, latest := single(Some(since), n), single(None, n);
    if page.Page? && page.rows != [] then page.rows
    else if page.Raised? && page.unknownSymbol then []
    else if latest.Page? then latest.rows
    else []
  }

  /** The fallback asks for no more than 300 rows at a time: first from the start, and for the latest ones only
      when it got nothing from there, but not of an unknown symbol. */
  lemma FallbackPrefersTheWindow(single: Single, since: int, limit: int)
    ensures var n, rows := if limit < 300 then limit else 300, FallbackRows(single, since, limit);
      match single(Some(since), n)
      case Page(first) => if first != [] then rows == first else rows == LatestRows(single, n)
      case Raised(unknown) => rows == if unknown then [] else LatestRows(single, n)
  {
  }

  function LatestRows(single: Single, n: int): seq<Row> {
    match single(None, n)
    case Page(rows) => rows
    case Raised(_) => []
  }

  method FetchFallback(single: Single, since: int, limit: int) returns (rows: seq<Row>)
    ensures rows == FallbackRows(single, since, limit)
  {
    var reply := single(Some(since), Min(limit, SINGLE_FETCH_HARD_CAP));
    if reply.Page? && reply.rows != [] {
      return reply.rows;
    }
    if reply.Raised? && reply.unknownSymbol {
      return [];
    }
    reply := single(None, Min(limit, SINGLE_FETCH_HARD_CAP));
    return if reply.Page? then reply.rows else [];
  }

  function CompleteBars(rows: seq<Row>): seq<Bar> {
    if rows == [] then []
    else
      var r := rows[|rows| - 1];
      CompleteBars(rows[..|rows| - 1]) + if r.width >= 6 then [r.bar] else []
  }

  function BarsOf(rows: seq<Row>): seq<Bar> {
    seq(|rows|, i requires 0 <= i < |rows| => rows[i].bar)
  }

  predicate AllComplete(rows: seq<Row>) {
    forall i :: 0 <= i < |rows| ==> rows[i].width >= 6
  }

  /** Rows that are too short are passed over, but make the merging of a whole run fail. */
  function Usable(rows: seq<Row>, bucket: int): seq<Bar> {
    if bucket <= 1 then CompleteBars(rows)
    else if AllComplete(rows[..Resampling.RunEnd(|rows|, bucket)]) then BarsOf(rows)
    else []
  }

  /** Without merging, rows that are too short are passed over and all others are used. */
  lemma {:induction false} ShortRowsArePassedOver(rows: seq<Row>, bucket: int, k: Bar)
    requires bucket <= 1
    ensures k in Usable(rows, bucket) <==> exists i :: 0 <= i < |rows| && rows[i].width >= 6 && rows[i].bar == k
  {
    if rows != [] {
      var front, last := rows[..|rows| - 1], rows[|rows| - 1];
      ShortRowsArePassedOver(front, bucket, k);
      if i :| 0 <= i < |front| && front[i].width >= 6 && front[i].bar == k {
        assert rows[i] == front[i];
      }
      if i :| 0 <= i < |rows| && rows[i].width >= 6 && rows[i].bar == k {
        assert i < |front| ==> front[i] == rows[i];
      }
    }
  }

  /** With merging, a short row among the whole runs leaves nothing to use; one behind them does no harm. */
  lemma ShortRowSpoilsTheMerge(rows: seq<Row>, bucket: int)
    requires bucket > 1
    ensures if exists i :: 0 <= i < |rows| - |rows| % bucket && rows[i].width < 6 then Usable(rows, bucket) == []
            else
              |Usable(rows, bucket)| == |rows|
              && forall i :: 0 <= i < |rows| ==> Usable(rows, bucket)[i] == rows[i].bar
  {
    var whole := rows[..Resampling.RunEnd(|rows|, bucket)];
    assert forall i :: 0 <= i < |whole| ==> whole[i] == rows[i];
  }

  // ---------------------------------------------------------------- from fetched to returned candles

  /** Milliseconds to seconds, rounding towards zero. */
  function Seconds(time: int): int {
    if time >= 0 then time / 1000 else -(-time / 1000)
  }

  lemma SecondsTruncate(time: int)
    ensures time >= 0 ==> Seconds(time) * 1000 <= time < Seconds(time) * 1000 + 1000
    ensures time < 0 ==> Seconds(time) * 1000 - 1000 < time <= Seconds(time) * 1000
  {
  }

  function InSeconds(k: Bar): Bar {
    k.(time := Seconds(k.time))
  }

  function AllInSeconds(bars: seq<Bar>): seq<Bar> {
    if bars == [] then [] else AllInSeconds(bars[..|bars| - 1]) + [InSeconds(bars[|bars| - 1])]
  }

  function Returned(fetched: seq<Bar>, bucket: int, limit: int, before: int, after: Option<int>): seq<Bar> {
    Limited(Windowed(AllInSeconds(Resampling.CryptoMerged(fetched, bucket)), Some(before), after), limit, after.None?)
  }

  method ToSeconds(ohlcv: seq<Bar>) returns (klines: seq<Bar>)
    ensures klines == AllInSeconds(ohlcv)
  {
    klines := [];
    var i := 0;
    while i < |ohlcv|
      invariant 0 <= i <= |ohlcv| && klines == AllInSeconds(ohlcv[..i])
    {
      assert ohlcv[..i + 1][..i] == ohlcv[..i];
      klines := klines + [InSeconds(ohlcv[i])];
      i := i + 1;
    }
    assert ohlcv[..i] == ohlcv;
  }

  method Finish(fetched: seq<Bar>, bucket: int, limit: int, before: int, after: Option<int>) returns (klines: seq<Bar>)
    ensures klines == Returned(fetched, bucket, limit, before, after)
  {
    NothingFromNothing(limit, before, after);
    var ohlcv := fetched;
    klines := [];
    if ohlcv == [] {
      return;
    }
    if bucket > 1 {
      ohlcv := Resampling.CryptoResample(ohlcv, bucket);
      if ohlcv == [] {
        return;
      }
    }
    klines := ToSeconds(ohlcv);
    var list := new KlineList(klines);
    klines := FilterAndLimit(list, limit, Some(before), after, after.None?);
  }

  /** A request for candles before `before`, and from `after` on if given, in seconds. `bucket` fetched candles
      make one, `fetchLimit` of them are asked for; `now` is what the clock says to the fetch, `again` what it
      says to the fallback. */
  datatype Order = Order(
    before: int, after: Option<int>, limit: int, bucket: int, fetchLimit: int, span: int, recent: nat,
    now: int, again: int)

  function PlanOf(o: Order, tf: int): Plan {
    PlanWindow(o.before, o.after, o.now, o.span, tf, o.recent)
  }

  function FallbackOf(single: Single, o: Order, tf: int): seq<Bar> {
    Usable(FallbackRows(single, StartOf(o.before, o.after, o.again, o.span, tf), o.fetchLimit), o.bucket)
  }

  function Obtained(out: Outcome, fallback: seq<Bar>): seq<Bar> {
    if out.Candles? then out.bars else fallback
  }

  /** What a request is answered with. */
  function Response(exchange: Exchange, single: Single, late: nat -> bool, o: Order, tf: int): seq<Bar>
    requires tf >= 1
  {
    match PlanOf(o, tf)
    case Skip => []
    case Fetch(since, end) =>
      var out := Conclude(Collect(exchange, late, MAX_BATCHES, end, tf, 0, since, 0));
      Returned(Obtained(out, FallbackOf(single, o, tf)), o.bucket, o.limit, o.before, o.after)
  }

  method GetKline(exchange: Exchange, single: Single, late: nat -> bool, o: Order, tf: int) returns (klines: seq<Bar>)
    requires tf >= 1
    ensures klines == Response(exchange, single, late, o, tf)
  {
    var plan := PlanOf(o, tf);
    if plan.Skip? {
      return [];
    }
    var out := FetchOhlcv(exchange, late, plan.since, plan.end, tf);
    var fetched;
    if out.Candles? {
      fetched := out.bars;
    } else {
      var rows := FetchFallback(single, StartOf(o.before, o.after, o.again, o.span, tf), o.fetchLimit);
      fetched := Usable(rows, o.bucket);
    }
    klines := Finish(fetched, o.bucket, o.limit, o.before, o.after);
  }

  lemma NothingFromNothing(limit: int, before: int, after: Option<int>)
    ensures Returned([], 1, limit, before, after) == []
    ensures Limited(Windowed([], Some(before), after), limit, after.None?) == []
  {
    assert AllInSeconds([]) == [] && SortByTime([]) == [];
    assert Windowed([], Some(before), after) == [];
  }

  /** For any exchange and any merging: the result is in time order, inside [after, before), and with
      no `after` it is the last `limit` candles of what lies before `before`. */
  lemma ReturnedShape(fetched: seq<Bar>, bucket: int, limit: int, before: int, after: Option<int>, k: Bar)
    requires limit >= 1 && before != 0
    ensures var r := Returned(fetched, bucket, limit, before, after);
      var all := Windowed(AllInSeconds(Resampling.CryptoMerged(fetched, bucket)), Some(before), after);
      && SortedByTime(r)
      && (k in r ==> k.time < before && (after.Some? ==> after.value <= k.time))
      && (if after.None? then |r| == Min(limit, |all|) && r == all[|all| - |r|..] else r == all)
  {
    var bars := AllInSeconds(Resampling.CryptoMerged(fetched, bucket));
    var r := Returned(fetched, bucket, limit, before, after);
    WindowIsExact(bars, Some(before), after, k);
    LimitKeepsTheLast(bars, Some(before), after, limit);
    if k in r {
      assert k in Windowed(bars, Some(before), after);
      assert k in multiset(Windowed(bars, Some(before), after));
    }
  }

  /** A request that ends before the candles that the exchange still keeps is answered with nothing, without asking. */
  lemma TooOldIsEmpty(exchange: Exchange, single: Single, late: nat -> bool, o: Order, tf: int)
    requires tf >= 1 && o.recent > 0
    requires Min(o.before, o.now) * 1000 < Max(0, o.now * 1000 - tf * (o.recent - 1))
    ensures Response(exchange, single, late, o, tf) == []
  {
  }
}
