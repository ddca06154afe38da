/**
 The MOEX data source: collecting the pages of a candle listing, and folding candles into buckets
 that start on multiples of the target interval.
 */
module TimeBuckets {
  import opened Common
  import opened Bars

  // ---------------------------------------------------------------- folding by bucket start

  /** Opens a bucket whose time is what `start` rounds the candle's time to. */
  function OpenBucket(start: int -> int, k: Bar): Bar {
    k.(time := start(k.time))
  }

  function Extend(current: Bar, k: Bar): Bar {
    Bar(current.time, current.open, MaxReal(current.high, k.high), MinReal(current.low, k.low),
        k.close, current.volume + k.volume)
  }

  /** Adds one candle to the buckets: into the last one if it falls there, else into a new one. */
  function Absorb(buckets: seq<Bar>, start: int -> int, k: Bar): seq<Bar> {
    var n := |buckets| - 1;
    if n >= 0 && buckets[n].time == start(k.time) then buckets[..n] + [Extend(buckets[n], k)]
    else buckets + [OpenBucket(start, k)]
  }

  function Fold(bars: seq<Bar>, start: int -> int): seq<Bar> {
    if bars == [] then [] else Absorb(Fold(bars[..|bars| - 1], start), start, bars[|bars| - 1])
  }

  lemma FoldSnoc(bars: seq<Bar>, start: int -> int, k: Bar)
    ensures Fold(bars + [k], start) == Absorb(Fold(bars, start), start, k)
  {
    assert (bars + [k])[..|bars|] == bars;
  }

  /** A bucket extended before it is absorbed is the bucket absorbed and then extended. */
  lemma AbsorbExtended(buckets: seq<Bar>, start: int -> int, o: Bar, k: Bar)
    requires start(o.time) == start(k.time)
    ensures Absorb(buckets, start, Extend(o, k)) == Absorb(Absorb(buckets, start, o), start, k)
  {
    var once := Absorb(buckets, start, o);
    var n := |once| - 1;
    assert once[n].time == start(k.time);
    assert once[..n] == if |once| == |buckets| then buckets[..n] else buckets;
  }

  lemma FoldExtended(fine: seq<Bar>, wide: seq<Bar>, buckets: seq<Bar>, o: Bar, coarser: int -> int, k: Bar)
    requires fine == buckets + [o] && wide == buckets + [Extend(o, k)] && coarser(o.time) == coarser(k.time)
    ensures Fold(wide, coarser) == Absorb(Fold(fine, coarser), coarser, k)
  {
    FoldSnoc(buckets, coarser, o);
    FoldSnoc(buckets, coarser, Extend(o, k));
    AbsorbExtended(Fold(buckets, coarser), coarser, o, k);
  }

  /** A freshly opened finer bucket is absorbed like its candle. */
  lemma AbsorbOpened(buckets: seq<Bar>, start: int -> int, o: Bar, k: Bar)
    requires o == k.(time := o.time) && start(o.time) == start(k.time)
    ensures Absorb(buckets, start, o) == Absorb(buckets, start, k)
  {
    assert OpenBucket(start, o) == OpenBucket(start, k);
  }

  lemma FoldOpened(fine: seq<Bar>, wide: seq<Bar>, finer: int -> int, coarser: int -> int, k: Bar)
    requires wide == fine + [OpenBucket(finer, k)] && coarser(finer(k.time)) == coarser(k.time)
    ensures Fold(wide, coarser) == Absorb(Fold(fine, coarser), coarser, k)
  {
    FoldSnoc(fine, coarser, OpenBucket(finer, k));
    AbsorbOpened(Fold(fine, coarser), coarser, OpenBucket(finer, k), k);
  }

  /** Absorbing a candle into finer buckets and then folding them is absorbing it at the end. */
  lemma FoldAbsorb(fine: seq<Bar>, wide: seq<Bar>, finer: int -> int, coarser: int -> int, k: Bar)
    requires wide == Absorb(fine, finer, k) && coarser(finer(k.time)) == coarser(k.time)
    ensures Fold(wide, coarser) == Absorb(Fold(fine, coarser), coarser, k)
  {
    var n := |fine| - 1;
    if n >= 0 && fine[n].time == finer(k.time) {
      FoldExtended(fine, wide, fine[..n], fine[n], coarser, k);
    } else {
      FoldOpened(fine, wide, finer, coarser, k);
    }
  }

  lemma {:induction false} FoldComposes(bars: seq<Bar>, finer: int -> int, coarser: int -> int)
    requires forall x :: coarser(finer(x)) == coarser(x)
    ensures Fold(Fold(bars, finer), coarser) == Fold(bars, coarser)
  {
    if bars != [] {
      var front, k := bars[..|bars| - 1], bars[|bars| - 1];
      FoldComposes(front, finer, coarser);
      FoldAbsorb(Fold(front, finer), Fold(bars, finer), finer, coarser, k);
    }
  }

  ghost predicate Rising(start: int -> int) {
    forall x, y :: x <= y ==> start(x) <= start(y)
  }

  predicate LastBucketIs(buckets: seq<Bar>, b: int) {
    buckets != [] && buckets[|buckets| - 1].time == b
  }

  lemma AbsorbAscends(buckets: seq<Bar>, start: int -> int, k: Bar, b: int)
    requires StrictlyAscending(buckets) && LastBucketIs(buckets, b) && b <= start(k.time)
    ensures StrictlyAscending(Absorb(buckets, start, k))
  {
  }

  lemma AbsorbIsLast(buckets: seq<Bar>, start: int -> int, k: Bar)
    ensures LastBucketIs(Absorb(buckets, start, k), start(k.time))
    ensures buckets == [] ==> StrictlyAscending(Absorb(buckets, start, k))
  {
  }

  lemma SortedFront(bars: seq<Bar>)
    requires SortedByTime(bars) && bars != []
    ensures var front := bars[..|bars| - 1];
      SortedByTime(front) && (front != [] ==> front[|front| - 1].time <= bars[|bars| - 1].time)
  {
  }

  lemma {:induction false} FoldAscends(bars: seq<Bar>, start: int -> int)
    requires Rising(start) && SortedByTime(bars)
    ensures StrictlyAscending(Fold(bars, start))
    ensures bars != [] ==> LastBucketIs(Fold(bars, start), start(bars[|bars| - 1].time))
  {
    if bars != [] {
      var front, k := bars[..|bars| - 1], bars[|bars| - 1];
      SortedFront(bars);
      FoldAscends(front, start);
      AbsorbIsLast(Fold(front, start), start, k);
      if front != [] {
        AbsorbAscends(Fold(front, start), start, k, start(front[|front| - 1].time));
      }
    }
  }

  /** The candles of one bucket, in order. */
  function BucketBars(bars: seq<Bar>, start: int -> int, b: int): seq<Bar> {
    if bars == [] then []
    else
      var k := bars[|bars| - 1];
      BucketBars(bars[..|bars| - 1], start, b) + if start(k.time) == b then [k] else []
  }

  predicate HasBucket(buckets: seq<Bar>, b: int) {
    exists j :: 0 <= j < |buckets| && buckets[j].time == b
  }

  /** There is a bucket for a start exactly when some candle falls into it. */
  lemma {:induction false} BucketExistsIff(bars: seq<Bar>, start: int -> int, b: int)
    ensures HasBucket(Fold(bars, start), b) <==> BucketBars(bars, start, b) != []
  {
    if bars != [] {
      var front, k := bars[..|bars| - 1], bars[|bars| - 1];
      BucketExistsIff(front, start, b);
      AbsorbHasBucket(Fold(front, start), start, k, b);
    }
  }

  lemma AbsorbHasBucket(buckets: seq<Bar>, start: int -> int, k: Bar, b: int)
    ensures HasBucket(Absorb(buckets, start, k), b) <==> HasBucket(buckets, b) || start(k.time) == b
  {
    var after := Absorb(buckets, start, k);
    assert forall j :: 0 <= j < |buckets| ==> buckets[j].time == after[j].time;
    assert after[|after| - 1].time == start(k.time);
    if HasBucket(buckets, b) {
      var j :| 0 <= j < |buckets| && buckets[j].time == b;
      assert after[j].time == b;
    }
  }

  predicate IsAggregateOf(bucket: Bar, bars: seq<Bar>) {
    bars != [] && bucket == Aggregate(bars).(time := bucket.time)
  }

  lemma ExtendedAggregate(bucket: Bar, bars: seq<Bar>, k: Bar)
    requires IsAggregateOf(bucket, bars)
    ensures IsAggregateOf(Extend(bucket, k), bars + [k])
  {
    AggregateSnoc(bars, k);
    AggregatePair(Aggregate(bars), k);
  }

  lemma OpenedAggregate(start: int -> int, k: Bar)
    ensures IsAggregateOf(OpenBucket(start, k), [k])
  {
    AggregateOne(k);
  }

  lemma AbsorbKeepsOthers(buckets: seq<Bar>, start: int -> int, k: Bar, j: nat)
    requires j < |Absorb(buckets, start, k)| && Absorb(buckets, start, k)[j].time != start(k.time)
    ensures j < |buckets| && Absorb(buckets, start, k)[j] == buckets[j]
  {
  }

  lemma NoBucketBefore(front: seq<Bar>, start: int -> int, k: Bar)
    requires Rising(start) && SortedByTime(front) && (front == [] || front[|front| - 1].time <= k.time)
    requires !LastBucketIs(Fold(front, start), start(k.time))
    ensures BucketBars(front, start, start(k.time)) == []
  {
    FoldAscends(front, start);
    BucketExistsIff(front, start, start(k.time));
    if front != [] {
      assert start(front[|front| - 1].time) <= start(k.time);
      NotAfterLast(Fold(front, start), start(k.time));
    }
  }

  lemma NotAfterLast(buckets: seq<Bar>, b: int)
    requires StrictlyAscending(buckets) && buckets != [] && buckets[|buckets| - 1].time < b
    ensures !HasBucket(buckets, b)
  {
  }

  /** One bucket after absorbing k, given what it (or a new bucket) held before. */
  lemma AbsorbAggregates(before: seq<Bar>, start: int -> int, k: Bar, j: nat, held: seq<Bar>)
    requires StrictlyAscending(before) && j < |Absorb(before, start, k)|
    requires j < |before| ==> IsAggregateOf(before[j], held)
    requires j == |before| ==> held == []
    requires j < |before| - 1 ==> before[j].time != start(k.time)
    requires j == |before| - 1 && before[j].time == start(k.time) ==> |Absorb(before, start, k)| == |before|
    ensures var b := Absorb(before, start, k)[j];
      IsAggregateOf(b, held + if start(k.time) == b.time then [k] else [])
  {
    var b := Absorb(before, start, k)[j];
    if j == |before| {
      OpenedAggregate(start, k);
      assert held + [k] == [k];
    } else if b.time == start(k.time) {
      ExtendedAggregate(before[j], held, k);
    } else {
      assert held + [] == held;
    }
  }

  lemma OnlyLastAbsorbs(before: seq<Bar>, start: int -> int, k: Bar, j: nat, b: int)
    requires StrictlyAscending(before) && LastBucketIs(before, b) && b <= start(k.time) && j < |before| - 1
    ensures before[j].time != start(k.time)
  {
  }

  /** On sorted candles every bucket is the aggregate of exactly its own candles. */
  lemma {:induction false} FoldAggregates(bars: seq<Bar>, start: int -> int, j: nat)
    requires Rising(start) && SortedByTime(bars) && j < |Fold(bars, start)|
    ensures IsAggregateOf(Fold(bars, start)[j], BucketBars(bars, start, Fold(bars, start)[j].time))
  {
    var front, k := bars[..|bars| - 1], bars[|bars| - 1];
    var before, b := Fold(front, start), Fold(bars, start)[j].time;
    SortedFront(bars);
    FoldAscends(front, start);
    if j < |before| {
      FoldAggregates(front, start, j);
      if j < |before| - 1 {
        OnlyLastAbsorbs(before, start, k, j, start(front[|front| - 1].time));
      }
    } else {
      NoBucketBefore(front, start, k);
    }
    AbsorbAggregates(before, start, k, j, BucketBars(front, start, b));
  }

  lemma {:induction false} BucketMembers(bars: seq<Bar>, start: int -> int, b: int, k: Bar)
    ensures k in BucketBars(bars, start, b) <==> k in bars && start(k.time) == b
  {
    if bars != [] {
      var front, last := bars[..|bars| - 1], bars[|bars| - 1];
      assert bars == front + [last];
      BucketMembers(front, start, b, k);
    }
  }

  predicate AllSane(bars: seq<Bar>) {
    forall i :: 0 <= i < |bars| ==> Sane(bars[i])
  }

  lemma AbsorbKeepsSane(buckets: seq<Bar>, start: int -> int, k: Bar)
    requires AllSane(buckets) && Sane(k)
    ensures AllSane(Absorb(buckets, start, k))
  {
  }

  lemma VolumeOfAbsorb(buckets: seq<Bar>, start: int -> int, k: Bar)
    ensures Volume(Absorb(buckets, start, k)) == Volume(buckets) + k.volume
  {
    var after := Absorb(buckets, start, k);
    assert after[..|after| - 1] == if |after| == |buckets| then buckets[..|buckets| - 1] else buckets;
  }

  lemma {:induction false} FoldConserves(bars: seq<Bar>, start: int -> int)
    ensures Volume(Fold(bars, start)) == Volume(bars)
    ensures AllSane(bars) ==> AllSane(Fold(bars, start))
  {
    if bars != [] {
      var front, k := bars[..|bars| - 1], bars[|bars| - 1];
      FoldConserves(front, start);
      VolumeOfAbsorb(Fold(front, start), start, k);
      if AllSane(bars) {
        AbsorbKeepsSane(Fold(front, start), start, k);
      }
    }
  }

  // ---------------------------------------------------------------- buckets of a fixed length

  /** The bucket a time falls into; % rounds towards minus infinity here, as it does in the source. */
  function StartOf(t: int): int -> int
    requires t >= 1
  {
    (time: int) => time - time % t
  }

  function Bucketed(bars: seq<Bar>, t: int): seq<Bar>
    requires t >= 1
  {
    Fold(bars, StartOf(t))
  }

  /** The MOEX fold: a current bucket that is flushed when the bucket start changes. */
  method Resample(klines: seq<Bar>, target: int) returns (out: seq<Bar>)
    ensures out == if target <= 0 then klines else Bucketed(klines, target)
  {
    if klines == [] || target <= 0 {
      return klines;
    }
    ghost var start := StartOf(target);
    out := [];
    var current: Option<Bar> := None;
    var bucketStart := -1;
    var i := 0;
    while i < |klines|
      invariant 0 <= i <= |klines|
      invariant current.Some? ==> current.value.time == bucketStart
      invariant current.None? ==> out == []
      invariant out + (if current.Some? then [current.value] else []) == Fold(klines[..i], start)
    {
      var k := klines[i];
      var b := k.time - k.time % target;
      assert start(k.time) == b;
      assert klines[..i + 1][..i] == klines[..i];
      if current.None? || b != bucketStart {
        if current.Some? {
          out := out + [current.value];
        }
        current := Some(Bar(b, k.open, k.high, k.low, k.close, k.volume));
        bucketStart := b;
      } else {
        current := Some(Extend(current.value, k));
      }
      i := i + 1;
    }
    assert klines[..i] == klines;
    if current.Some? {
      out := out + [current.value];
    }
  }

  lemma StartIs(t: int, x: int, q: int, r: int)
    requires t >= 1 && 0 <= r < t && x == t * q + r
    ensures StartOf(t)(x) == t * q
  {
    DivModUnique(x, t, q, r);
  }

  lemma Regroup(t1: int, m: int, q: int, q1: int)
    ensures t1 * (m * q + q1) == t1 * m * q + t1 * q1
  {
    assert t1 * (m * q) == t1 * m * q;
  }

  /** Rounding down to a multiple of t1 does not leave a bucket of a multiple of t1. */
  lemma StartOfStart(t1: int, t2: int, m: int, x: int)
    requires t1 >= 1 && m >= 1 && t2 == t1 * m && t2 >= 1
    ensures StartOf(t2)(StartOf(t1)(x)) == StartOf(t2)(x)
  {
    var q, r := x / t2, x % t2;
    var q1, r1 := r / t1, r % t1;
    assert x == t2 * q + r && r == t1 * q1 + r1;
    assert t1 * q1 >= 0;
    StartOfParts(t1, t2, m, x, q, r, q1, r1);
  }

  lemma StartOfParts(t1: int, t2: int, m: int, x: int, q: int, r: int, q1: int, r1: int)
    requires t1 >= 1 && t2 == t1 * m && t2 >= 1 && x == t2 * q + r && r == t1 * q1 + r1
    requires 0 <= r < t2 && 0 <= r1 < t1 && t1 * q1 >= 0
    ensures StartOf(t2)(StartOf(t1)(x)) == StartOf(t2)(x)
  {
    Regroup(t1, m, q, q1);
    StartIs(t1, x, m * q + q1, r1);
    StartIs(t2, t2 * q + t1 * q1, q, t1 * q1);
    StartIs(t2, x, q, r);
  }

  lemma StartFacts(t: int, x: int, y: int)
    requires t >= 1 && x <= y
    ensures StartOf(t)(x) <= StartOf(t)(y)
    ensures StartOf(t)(x) % t == 0 && StartOf(t)(x) <= x < StartOf(t)(x) + t
  {
    DivModUnique(StartOf(t)(x), t, x / t, 0);
    var d := x / t - y / t;
    assert StartOf(t)(x) == t * (x / t) && StartOf(t)(y) == t * (y / t);
    assert d >= 1 ==> t * d >= t;
    assert t * d == StartOf(t)(x) - StartOf(t)(y);
  }

  lemma StartRises(t: int)
    requires t >= 1
    ensures Rising(StartOf(t))
  {
    forall x: int, y: int | x <= y ensures StartOf(t)(x) <= StartOf(t)(y) {
      StartFacts(t, x, y);
    }
  }

  /** Resampling to t1 and then to a multiple of t1 is resampling to that multiple, in any order of
      the input. */
  lemma BucketingComposes(bars: seq<Bar>, t1: int, m: int)
    requires t1 >= 1 && m >= 1 && t1 * m >= 1
    ensures Bucketed(Bucketed(bars, t1), t1 * m) == Bucketed(bars, t1 * m)
  {
    forall x ensures StartOf(t1 * m)(StartOf(t1)(x)) == StartOf(t1 * m)(x) {
      StartOfStart(t1, t1 * m, m, x);
    }
    FoldComposes(bars, StartOf(t1), StartOf(t1 * m));
  }

  /** From sorted candles the bucket times are strictly ascending; the last one is the bucket of the
      last candle. */
  lemma BucketsAscend(bars: seq<Bar>, t: int)
    requires t >= 1 && SortedByTime(bars)
    ensures StrictlyAscending(Bucketed(bars, t))
    ensures bars != [] ==> LastBucketIs(Bucketed(bars, t), StartOf(t)(bars[|bars| - 1].time))
  {
    StartRises(t);
    FoldAscends(bars, StartOf(t));
  }

  /** Buckets start on multiples of the target. */
  lemma {:induction false} BucketsOnGrid(bars: seq<Bar>, t: int, j: nat)
    requires t >= 1 && j < |Bucketed(bars, t)|
    ensures Bucketed(bars, t)[j].time % t == 0
  {
    var front, k := bars[..|bars| - 1], bars[|bars| - 1];
    StartFacts(t, k.time, k.time);
    if Bucketed(bars, t)[j].time != StartOf(t)(k.time) {
      AbsorbKeepsOthers(Bucketed(front, t), StartOf(t), k, j);
      BucketsOnGrid(front, t, j);
    }
  }

  /** On sorted candles every bucket is the aggregate of exactly its own candles. */
  lemma BucketAggregatesItsBars(bars: seq<Bar>, t: int, j: nat)
    requires t >= 1 && SortedByTime(bars) && j < |Bucketed(bars, t)|
    ensures IsAggregateOf(Bucketed(bars, t)[j], BucketBars(bars, StartOf(t), Bucketed(bars, t)[j].time))
  {
    StartRises(t);
    FoldAggregates(bars, StartOf(t), j);
  }

  predicate Holds(bars: seq<Bar>, t: int, j: int, k: Bar)
    requires t >= 1
  {
    0 <= j < |Bucketed(bars, t)| && k in BucketBars(bars, StartOf(t), Bucketed(bars, t)[j].time)
  }

  /** Every candle is in exactly one bucket. */
  lemma EveryBarInOneBucket(bars: seq<Bar>, t: int, i: nat)
    requires t >= 1 && SortedByTime(bars) && i < |bars|
    ensures exists j :: Holds(bars, t, j, bars[i])
    ensures forall j, j' :: Holds(bars, t, j, bars[i]) && Holds(bars, t, j', bars[i]) ==> j == j'
  {
    var out, b := Bucketed(bars, t), StartOf(t)(bars[i].time);
    BucketMembers(bars, StartOf(t), b, bars[i]);
    BucketExistsIff(bars, StartOf(t), b);
    var j :| 0 <= j < |out| && out[j].time == b;
    assert Holds(bars, t, j, bars[i]);
    BucketsAscend(bars, t);
    forall j' | Holds(bars, t, j', bars[i]) ensures j' == j {
      BucketMembers(bars, StartOf(t), out[j'].time, bars[i]);
    }
  }

  /** No volume is lost, and sane candles give sane buckets. */
  lemma BucketsConserve(bars: seq<Bar>, t: int)
    requires t >= 1
    ensures Volume(Bucketed(bars, t)) == Volume(bars)
    ensures AllSane(bars) ==> AllSane(Bucketed(bars, t))
  {
    FoldConserves(bars, StartOf(t));
  }

  // ---------------------------------------------------------------- collecting the pages

  const PAGE_SIZE := 500
  const MAX_PAGES := 50

  /** What the page loop collects from a listing that answers a start offset with a page or not at all. */
  function Pages<T>(served: nat -> Option<seq<T>>, start: nat, budget: nat): seq<T>
    decreases budget
  {
    if budget == 0 || served(start).None? then []
    else
      var data := served(start).value;
      data + if |data| < PAGE_SIZE then [] else Pages(served, start + |data|, budget - 1)
  }

  lemma PageJoins<T>(served: nat -> Option<seq<T>>, start: nat, budget: nat, rows: seq<T>)
    requires budget > 0 && served(start).Some?
    ensures var data := served(start).value;
      rows + Pages(served, start, budget)
      == (rows + data) + if |data| < PAGE_SIZE then [] else Pages(served, start + |data|, budget - 1)
  {
  }

  method CollectPages<T>(served: nat -> Option<seq<T>>) returns (rows: seq<T>)
    ensures rows == Pages(served, 0, MAX_PAGES)
  {
    rows := [];
    var start: nat, pages := 0, 0;
    while pages < MAX_PAGES
      invariant 0 <= pages <= MAX_PAGES
      invariant rows + Pages(served, start, MAX_PAGES - pages) == Pages(served, 0, MAX_PAGES)
    {
      var payload := served(start);
      if payload.None? {
        break;
      }
      var data := payload.value;
      PageJoins(served, start, MAX_PAGES - pages, rows);
      rows := rows + data;
      if |data| < PAGE_SIZE {
        break;
      }
      start := start + |data|;
      pages := pages + 1;
    }
  }

  /** A listing that serves the next PAGE_SIZE rows of a fixed table. */
  function FromTable<T>(table: seq<T>): nat -> Option<seq<T>> {
    (start: nat) => if start > |table| then Some([]) else Some(table[start..Min(start + PAGE_SIZE, |table|)])
  }

  lemma {:induction false} PagesOfTable<T>(table: seq<T>, start: nat, budget: nat)
    requires start <= |table|
    ensures Pages(FromTable(table), start, budget) == table[start..Min(start + PAGE_SIZE * budget, |table|)]
    decreases budget
  {
    if budget > 0 {
      var end := Min(start + PAGE_SIZE, |table|);
      assert FromTable(table)(start) == Some(table[start..end]);
      if end - start == PAGE_SIZE {
        PagesOfTable(table, end, budget - 1);
        Join(table, start, end, Min(start + PAGE_SIZE * budget, |table|));
      }
    }
  }

  lemma Join<T>(s: seq<T>, i: nat, j: nat, k: nat)
    requires i <= j <= k <= |s|
    ensures s[i..j] + s[j..k] == s[i..k]
  {
  }

  /** The whole table is collected exactly when it fits the 50 pages. */
  lemma AllRowsCollectedIff<T>(table: seq<T>)
    ensures Pages(FromTable(table), 0, MAX_PAGES) == table <==> |table| <= 25000
  {
    PagesOfTable(table, 0, MAX_PAGES);
    assert table[0..|table|] == table;
  }
}
