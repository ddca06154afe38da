/** The last stage of every candle pipeline: sort, cut to a time window, keep the last `limit`. */
module KlineWindow {
  import opened Common
  import opened Bars

  /** A mutable list of candles, as callers hand it over. */
  class KlineList {
    var items: seq<Bar>

    constructor (bars: seq<Bar>)
      ensures items == bars
    {
      items := bars;
    }

    method Sort()
      modifies this
      ensures items == SortByTime(old(items))
    {
      items := SortByTime(items);
    }
  }

  function Filter(bars: seq<Bar>, p: Bar -> bool): seq<Bar> {
    if bars == [] then []
    else Filter(bars[..|bars| - 1], p) + if p(bars[|bars| - 1]) then [bars[|bars| - 1]] else []
  }

  /** The suffix a negative slice index cuts: everything for 0, all but the first -limit below 0. */
  function LastSlice(bars: seq<Bar>, limit: int): seq<Bar>
    requires |bars| > limit
  {
    if limit > 0 then bars[|bars| - limit..]
    else if limit == 0 then bars
    else bars[Min(-limit, |bars|)..]
  }

  /** The window as one test; a missing or zero `before` does not cut. */
  predicate InWindow(k: Bar, before: Option<int>, after: Option<int>) {
    && (before.Some? && before.value != 0 ==> k.time < before.value)
    && (after.Some? ==> after.value <= k.time)
  }

  function Windowed(bars: seq<Bar>, before: Option<int>, after: Option<int>): seq<Bar> {
    Filter(SortByTime(bars), (k: Bar) => InWindow(k, before, after))
  }

  function Limited(bars: seq<Bar>, limit: int, truncate: bool): seq<Bar> {
    if truncate && |bars| > limit then LastSlice(bars, limit) else bars
  }

  /** Sorts the caller's list in place and returns the cut copy. */
  method FilterAndLimit(klines: KlineList, limit: int, before: Option<int>, after: Option<int>, truncate: bool)
      returns (out: seq<Bar>)
    modifies klines
    ensures klines.items == SortByTime(old(klines.items))
    ensures out == Limited(Windowed(old(klines.items), before, after), limit, truncate)
  {
    klines.Sort();
    out := klines.items;
    FilterTwice(out, before, after);
    if before.Some? && before.value != 0 {
      out := Filter(out, (k: Bar) => k.time < before.value);
    }
    if after.Some? {
      out := Filter(out, (k: Bar) => k.time >= after.value);
    }
    if truncate && |out| > limit {
      out := LastSlice(out, limit);
    }
  }

  /** The two successive filters are the one window test. */
  lemma {:induction false} FilterTwice(bars: seq<Bar>, before: Option<int>, after: Option<int>)
    ensures
      var cut := if before.Some? && before.value != 0 then Filter(bars, (k: Bar) => k.time < before.value) else bars;
      (if after.Some? then Filter(cut, (k: Bar) => k.time >= after.value) else cut)
        == Filter(bars, (k: Bar) => InWindow(k, before, after))
  {
    var early := (k: Bar) => before.Some? && before.value != 0 ==> k.time < before.value;
    var late := (k: Bar) => after.Some? ==> k.time >= after.value;
    FilterComposes(bars, early, late);
    FilterAgree(bars, (k: Bar) => early(k) && late(k), (k: Bar) => InWindow(k, before, after));
    if before.Some? && before.value != 0 {
      FilterAgree(bars, early, (k: Bar) => k.time < before.value);
    } else {
      FilterAll(bars, early);
    }
    if after.Some? {
      FilterAgree(Filter(bars, early), late, (k: Bar) => k.time >= after.value);
    } else {
      FilterAll(Filter(bars, early), late);
    }
  }

  lemma {:induction false} FilterComposes(bars: seq<Bar>, p: Bar -> bool, q: Bar -> bool)
    ensures Filter(Filter(bars, p), q) == Filter(bars, (k: Bar) => p(k) && q(k))
  {
    if bars != [] {
      var front, k := bars[..|bars| - 1], bars[|bars| - 1];
      FilterComposes(front, p, q);
      if p(k) {
        assert Filter(bars, p)[..|Filter(bars, p)| - 1] == Filter(front, p);
      } else {
        assert Filter(bars, p) == Filter(front, p);
      }
    }
  }

  lemma {:induction false} FilterAgree(bars: seq<Bar>, p: Bar -> bool, q: Bar -> bool)
    requires forall k :: p(k) == q(k)
    ensures Filter(bars, p) == Filter(bars, q)
  {
    if bars != [] {
      FilterAgree(bars[..|bars| - 1], p, q);
    }
  }

  lemma {:induction false} FilterAll(bars: seq<Bar>, p: Bar -> bool)
    requires forall k :: k in bars ==> p(k)
    ensures Filter(bars, p) == bars
  {
    if bars != [] {
      var front, k := bars[..|bars| - 1], bars[|bars| - 1];
      assert bars == front + [k] && k in bars;
      FilterAll(front, p);
    }
  }

  // ---------------------------------------------------------------- what is returned

  lemma {:induction false} FilterKeeps(bars: seq<Bar>, p: Bar -> bool, k: Bar)
    ensures multiset(Filter(bars, p))[k] == if p(k) then multiset(bars)[k] else 0
  {
    if bars != [] {
      var front, last := bars[..|bars| - 1], bars[|bars| - 1];
      assert bars == front + [last];
      FilterKeeps(front, p, k);
    }
  }

  lemma {:induction false} FilterSorted(bars: seq<Bar>, p: Bar -> bool)
    requires SortedByTime(bars)
    ensures SortedByTime(Filter(bars, p))
    ensures forall k :: k in Filter(bars, p) ==> k in bars
  {
    if bars != [] {
      var front, last := bars[..|bars| - 1], bars[|bars| - 1];
      FilterSorted(front, p);
      forall k | k in Filter(front, p) ensures k.time <= last.time {
        var i :| 0 <= i < |front| && front[i] == k;
        assert bars[i] == k;
      }
    }
  }

  /** Without truncation the result is, in time order, exactly the input candles of the window, each
      as often as it was passed in. */
  lemma WindowIsExact(bars: seq<Bar>, before: Option<int>, after: Option<int>, k: Bar)
    ensures SortedByTime(Windowed(bars, before, after))
    ensures multiset(Windowed(bars, before, after))[k]
         == if InWindow(k, before, after) then multiset(bars)[k] else 0
  {
    SortIsPermutation(bars);
    FilterSorted(SortByTime(bars), (b: Bar) => InWindow(b, before, after));
    FilterKeeps(SortByTime(bars), (b: Bar) => InWindow(b, before, after), k);
  }

  /** With truncation and a positive limit it is the last candles of the window, as many as allowed. */
  lemma LimitKeepsTheLast(bars: seq<Bar>, before: Option<int>, after: Option<int>, limit: int)
    requires limit >= 1
    ensures var all := Windowed(bars, before, after);
      var kept := Limited(all, limit, true);
      |kept| == Min(limit, |all|) && kept == all[|all| - |kept|..] && SortedByTime(kept)
  {
    WindowIsExact(bars, before, after, Bar(0, 0.0, 0.0, 0.0, 0.0, 0.0));
  }

  /** The limit is respected except for limits below 1: a limit of 0 returns the whole window. */
  lemma LimitRespectedIff(bars: seq<Bar>, limit: int)
    ensures |Limited(bars, limit, true)| <= limit <==> limit >= 1 || (limit == 0 && bars == [])
  {
    if limit < 0 {
      assert |Limited(bars, limit, true)| >= 0;
    }
  }

  /** A negative limit drops as many candles from the front of the window, instead of keeping the last ones. */
  lemma NegativeLimitDrops(bars: seq<Bar>, limit: int)
    requires limit < 0
    ensures var kept := Limited(bars, limit, true);
      |kept| == Max(0, |bars| + limit) && kept == bars[|bars| - |kept|..]
  {
  }
}
