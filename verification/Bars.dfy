/** Candles and their aggregation, over exact reals. */
module Bars {
  datatype Bar = Bar(time: int, open: real, high: real, low: real, close: real, volume: real)

  function MaxReal(a: real, b: real): real {
    if a >= b then a else b
  }

  function MinReal(a: real, b: real): real {
    if a <= b then a else b
  }

  function High(bars: seq<Bar>): real
    requires bars != []
  {
    if |bars| == 1 then bars[0].high else MaxReal(High(bars[..|bars| - 1]), bars[|bars| - 1].high)
  }

  function Low(bars: seq<Bar>): real
    requires bars != []
  {
    if |bars| == 1 then bars[0].low else MinReal(Low(bars[..|bars| - 1]), bars[|bars| - 1].low)
  }

  function Volume(bars: seq<Bar>): real {
    if bars == [] then 0.0 else Volume(bars[..|bars| - 1]) + bars[|bars| - 1].volume
  }

  /** One candle for a run of candles: first open, last close, extremes, total volume. */
  function Aggregate(bars: seq<Bar>): Bar
    requires bars != []
  {
    Bar(bars[0].time, bars[0].open, High(bars), Low(bars), bars[|bars| - 1].close, Volume(bars))
  }

  ghost predicate IsHigh(bars: seq<Bar>, x: real) {
    (forall i :: 0 <= i < |bars| ==> bars[i].high <= x) && exists i :: 0 <= i < |bars| && bars[i].high == x
  }

  ghost predicate IsLow(bars: seq<Bar>, x: real) {
    (forall i :: 0 <= i < |bars| ==> x <= bars[i].low) && exists i :: 0 <= i < |bars| && bars[i].low == x
  }

  predicate Sane(b: Bar) {
    b.low <= b.open <= b.high && b.low <= b.close <= b.high
  }

  /** The extremes of an aggregate are the exact extremes of its bars, and aggregation keeps
      low <= open, close <= high. */
  lemma {:induction false} AggregateBounds(bars: seq<Bar>)
    requires bars != []
    ensures Aggregate(bars).time == bars[0].time && Aggregate(bars).open == bars[0].open
    ensures Aggregate(bars).close == bars[|bars| - 1].close
    ensures IsHigh(bars, Aggregate(bars).high) && IsLow(bars, Aggregate(bars).low)
    ensures (forall i :: 0 <= i < |bars| ==> Sane(bars[i])) ==> Sane(Aggregate(bars))
  {
    var n := |bars| - 1;
    if n > 0 {
      var front := bars[..n];
      AggregateBounds(front);
      var h :| 0 <= h < n && front[h].high == High(front);
      var l :| 0 <= l < n && front[l].low == Low(front);
      assert bars[h].high == High(front) && bars[l].low == Low(front);
      assert forall i :: 0 <= i < n ==> front[i] == bars[i];
    }
    assert bars[0].high <= High(bars) && bars[n].high <= High(bars);
    assert Low(bars) <= bars[0].low && Low(bars) <= bars[n].low;
  }

  lemma AggregateOne(y: Bar)
    ensures Aggregate([y]) == y
  {
    var none: seq<Bar> := [y][..0];
    assert |[y]| == 1 && none == [];
    assert Volume([y]) == Volume(none) + y.volume;
  }

  lemma AggregatePair(x: Bar, y: Bar)
    ensures Aggregate([x, y])
         == Bar(x.time, x.open, MaxReal(x.high, y.high), MinReal(x.low, y.low), y.close, x.volume + y.volume)
  {
    AggregateOne(x);
    assert |[x, y]| == 2 && [x, y][..1] == [x];
  }

  lemma AggregateSnoc(bars: seq<Bar>, y: Bar)
    requires bars != []
    ensures Aggregate(bars + [y]) == Aggregate([Aggregate(bars), y])
  {
    AggregatePair(Aggregate(bars), y);
    assert (bars + [y])[..|bars|] == bars;
  }

  /** Aggregating in two stages is aggregating once. */
  lemma {:induction false} AggregateConcat(a: seq<Bar>, b: seq<Bar>)
    requires a != [] && b != []
    ensures Aggregate(a + b) == Aggregate([Aggregate(a), Aggregate(b)])
  {
    var b', y := b[..|b| - 1], b[|b| - 1];
    assert b == b' + [y];
    if b' == [] {
      assert b == [y];
      AggregateOne(y);
      AggregateSnoc(a, y);
    } else {
      assert a + b == (a + b') + [y];
      AggregateSnoc(a + b', y);
      AggregateSnoc(b', y);
      AggregateConcat(a, b');
      AggregatePair(Aggregate(a), Aggregate(b'));
      AggregatePair(Aggregate(b'), y);
      AggregatePair(Aggregate(a + b'), y);
      AggregatePair(Aggregate(a), Aggregate(b));
    }
  }

  // ---------------------------------------------------------------- sorting by time

  predicate SortedByTime(bars: seq<Bar>) {
    forall i, j :: 0 <= i < j < |bars| ==> bars[i].time <= bars[j].time
  }

  predicate StrictlyAscending(bars: seq<Bar>) {
    forall i, j :: 0 <= i < j < |bars| ==> bars[i].time < bars[j].time
  }

  /** Stable insertion: after every bar that is not later. */
  function Insert(bars: seq<Bar>, b: Bar): seq<Bar> {
    if bars == [] || bars[|bars| - 1].time <= b.time then bars + [b]
    else Insert(bars[..|bars| - 1], b) + [bars[|bars| - 1]]
  }

  function SortByTime(bars: seq<Bar>): seq<Bar> {
    if bars == [] then [] else Insert(SortByTime(bars[..|bars| - 1]), bars[|bars| - 1])
  }

  lemma {:induction false} InsertAdds(bars: seq<Bar>, b: Bar)
    ensures multiset(Insert(bars, b)) == multiset(bars) + multiset{b}
  {
    if bars != [] && bars[|bars| - 1].time > b.time {
      assert bars == bars[..|bars| - 1] + [bars[|bars| - 1]];
      InsertAdds(bars[..|bars| - 1], b);
    }
  }

  lemma {:induction false} InsertBounded(bars: seq<Bar>, b: Bar, limit: int)
    requires b.time <= limit && forall i :: 0 <= i < |bars| ==> bars[i].time <= limit
    ensures forall i :: 0 <= i < |Insert(bars, b)| ==> Insert(bars, b)[i].time <= limit
  {
    if bars != [] && bars[|bars| - 1].time > b.time {
      InsertBounded(bars[..|bars| - 1], b, limit);
    }
  }

  lemma {:induction false} InsertSorted(bars: seq<Bar>, b: Bar)
    requires SortedByTime(bars)
    ensures SortedByTime(Insert(bars, b))
  {
    if bars != [] && bars[|bars| - 1].time > b.time {
      var front, last := bars[..|bars| - 1], bars[|bars| - 1];
      InsertSorted(front, b);
      InsertBounded(front, b, last.time);
    }
  }

  /** The bars of one time, in order. */
  function AtTime(bars: seq<Bar>, t: int): seq<Bar> {
    if bars == [] then []
    else
      var k := bars[|bars| - 1];
      AtTime(bars[..|bars| - 1], t) + if k.time == t then [k] else []
  }

  lemma {:induction false} InsertIsStable(bars: seq<Bar>, b: Bar, t: int)
    ensures AtTime(Insert(bars, b), t) == AtTime(bars, t) + if b.time == t then [b] else []
  {
    if bars == [] || bars[|bars| - 1].time <= b.time {
      assert (bars + [b])[..|bars|] == bars;
    } else {
      var front, last := bars[..|bars| - 1], bars[|bars| - 1];
      InsertIsStable(front, b, t);
      assert (Insert(front, b) + [last])[..|Insert(front, b)|] == Insert(front, b);
    }
  }

  /** The sort is stable: bars of equal time keep their order. */
  lemma {:induction false} SortIsStable(bars: seq<Bar>, t: int)
    ensures AtTime(SortByTime(bars), t) == AtTime(bars, t)
  {
    if bars != [] {
      SortIsStable(bars[..|bars| - 1], t);
      InsertIsStable(SortByTime(bars[..|bars| - 1]), bars[|bars| - 1], t);
    }
  }

  /** The sort returns the same bars in time order, and leaves a list already in order alone. */
  lemma {:induction false} SortIsPermutation(bars: seq<Bar>)
    ensures SortedByTime(SortByTime(bars)) && multiset(SortByTime(bars)) == multiset(bars)
    ensures SortedByTime(bars) ==> SortByTime(bars) == bars
  {
    if bars != [] {
      var front, last := bars[..|bars| - 1], bars[|bars| - 1];
      assert bars == front + [last];
      SortIsPermutation(front);
      InsertSorted(SortByTime(front), last);
      InsertAdds(SortByTime(front), last);
    }
  }
}
