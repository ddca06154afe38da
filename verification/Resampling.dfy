/**
 Merging every n consecutive candles into one: the three loops that do it (the crypto, the Asian
 and the US data sources) and the choice of the source series to merge.
 */
module Resampling {
  import opened Common
  import opened Bars

  /** The bars of the complete runs of n, in order; an incomplete last run is dropped. */
  function MergeEvery(bars: seq<Bar>, n: nat): seq<Bar>
    requires n >= 1
  {
    if |bars| < n then [] else [Aggregate(bars[..n])] + MergeEvery(bars[n..], n)
  }

  function CryptoMerged(bars: seq<Bar>, n: int): seq<Bar> {
    if n <= 1 || bars == [] then bars else MergeEvery(bars, n)
  }

  function AsiaMerged(bars: seq<Bar>, n: int): seq<Bar> {
    if n <= 1 || |bars| < n then bars else MergeEvery(bars, n)
  }

  function UsMerged(bars: seq<Bar>, n: int): seq<Bar> {
    if n <= 1 || |bars| < n then bars else MergeEvery(SortByTime(bars), n)
  }

  // ---------------------------------------------------------------- the loops

  lemma SliceThenDrop(bars: seq<Bar>, i: nat, n: nat)
    requires n >= 1 && i <= |bars|
    ensures MergeEvery(bars[i..], n)
         == if i + n <= |bars| then [Aggregate(bars[i..i + n])] + MergeEvery(bars[i + n..], n) else []
  {
    if i + n <= |bars| {
      assert bars[i..][..n] == bars[i..i + n] && bars[i..][n..] == bars[i + n..];
    }
  }

  /** `out` holds the merged runs before i. */
  ghost predicate MergedUpTo(bars: seq<Bar>, n: nat, i: nat, out: seq<Bar>)
    requires n >= 1
  {
    i <= |bars| && out + MergeEvery(bars[i..], n) == MergeEvery(bars, n)
  }

  lemma MergedNext(bars: seq<Bar>, n: nat, i: nat, out: seq<Bar>)
    requires n >= 1 && i + n <= |bars| && MergedUpTo(bars, n, i, out)
    ensures MergedUpTo(bars, n, i + n, out + [Aggregate(bars[i..i + n])])
  {
    SliceThenDrop(bars, i, n);
    var run, rest := [Aggregate(bars[i..i + n])], MergeEvery(bars[i + n..], n);
    assert (out + run) + rest == out + (run + rest);
  }

  lemma MergedAll(bars: seq<Bar>, n: nat, i: nat, out: seq<Bar>)
    requires n >= 1 && MergedUpTo(bars, n, i, out) && |bars| < i + n
    ensures out == MergeEvery(bars, n)
  {
    SliceThenDrop(bars, i, n);
    assert out + [] == out;
  }

  method CryptoResample(bars: seq<Bar>, n: int) returns (out: seq<Bar>)
    ensures out == CryptoMerged(bars, n)
  {
    if n <= 1 || bars == [] {
      return bars;
    }
    out := [];
    var i := 0;
    assert bars[i..] == bars;
    while i < |bars|
      invariant i >= 0 && MergedUpTo(bars, n, i, out)
    {
      var chunk := bars[i..Min(i + n, |bars|)];
      if |chunk| < n {
        break;
      }
      MergedNext(bars, n, i, out);
      out := out + [Aggregate(chunk)];
      i := i + n;
    }
    MergedAll(bars, n, i, out);
  }

  method AsiaMerge(bars: seq<Bar>, n: int) returns (out: seq<Bar>)
    ensures out == AsiaMerged(bars, n)
  {
    if n <= 1 || |bars| < n {
      return bars;
    }
    out := [];
    var i := 0;
    assert bars[i..] == bars;
    while i + n <= |bars|
      invariant i >= 0 && MergedUpTo(bars, n, i, out)
    {
      MergedNext(bars, n, i, out);
      out := out + [Aggregate(bars[i..i + n])];
      i := i + n;
    }
    MergedAll(bars, n, i, out);
  }

  method UsMerge(input: seq<Bar>, n: int) returns (out: seq<Bar>)
    ensures out == UsMerged(input, n)
  {
    if n <= 1 || |input| < n {
      return input;
    }
    out := MergeRuns(SortByTime(input), n);
  }

  /** The ranged loop over the whole runs. */
  method MergeRuns(bars: seq<Bar>, n: nat) returns (out: seq<Bar>)
    requires n >= 1
    ensures out == MergeEvery(bars, n)
  {
    out := [];
    var i, stop := 0, |bars| - |bars| % n;
    assert bars[i..] == bars;
    while i < stop
      invariant i >= 0 && MergedUpTo(bars, n, i, out) && OnRunBoundary(|bars|, n, i)
    {
      NextRun(|bars|, n, i);
      MergedNext(bars, n, i, out);
      out := out + [Aggregate(bars[i..i + n])];
      i := i + n;
    }
    NextRun(|bars|, n, i);
    MergedAll(bars, n, i, out);
  }

  predicate OnRunBoundary(len: nat, n: nat, i: nat)
    requires n >= 1
  {
    i <= len && (len - i) % n == len % n
  }

  lemma NextRun(len: nat, n: nat, i: nat)
    requires n >= 1 && OnRunBoundary(len, n, i)
    ensures i < len - len % n ==> i + n <= len && OnRunBoundary(len, n, i + n)
    ensures i >= len - len % n ==> len < i + n
  {
    WholeRuns(len, n, i);
  }

  /** Stepping by n from 0 lands exactly on the end of the last whole run. */
  lemma WholeRuns(len: nat, n: nat, i: nat)
    requires n >= 1 && i <= len && (len - i) % n == len % n
    ensures i <= len - len % n
    ensures i < len - len % n ==> i + n <= len - len % n && (len - (i + n)) % n == len % n
  {
    var left := len - i;
    assert left == n * (left / n) + left % n;
    if i < len - len % n {
      assert left / n >= 1;
      ModShift(left, n);
    }
  }

  lemma ModShift(x: int, n: nat)
    requires n >= 1
    ensures (x - n) % n == x % n
    ensures (x - n) / n == x / n - 1
  {
    var q, r := x / n, x % n;
    assert x - n == n * (q - 1) + r;
    DivModUnique(x - n, n, q - 1, r);
  }

  // ---------------------------------------------------------------- what merging yields

  /** The j-th merged bar is the aggregate of the j-th run of n bars, and every whole run is there. */
  lemma {:induction false} MergedBarIsItsRun(bars: seq<Bar>, n: nat, j: nat)
    requires n >= 1
    ensures |MergeEvery(bars, n)| == |bars| / n
    ensures j < |bars| / n ==>
        (j + 1) * n <= |bars| && MergeEvery(bars, n)[j] == Aggregate(bars[j * n..(j + 1) * n])
    decreases |bars|
  {
    if |bars| < n {
      DivModUnique(|bars|, n, 0, |bars|);
    } else {
      ModShift(|bars|, n);
      MergedBarIsItsRun(bars[n..], n, if j == 0 then 0 else j - 1);
      assert 1 * n == n && 0 * n == 0;
      if 0 < j < |bars| / n {
        RunOfTail(bars, n, j);
      }
    }
  }

  lemma RunOfTail(bars: seq<Bar>, n: nat, j: nat)
    requires n >= 1 && j >= 1 && n <= |bars| && j * n <= |bars| - n
    ensures (j - 1) * n >= 0 && (j - 1) * n + n == j * n && (j + 1) * n == j * n + n
    ensures bars[n..][(j - 1) * n..j * n] == bars[j * n..(j + 1) * n]
  {
    assert (j - 1) * n == j * n - n;
    assert (j - 1) * n >= 0;
    assert (j + 1) * n == j * n + n;
  }

  /** Splitting off the first b merged bars is splitting off the first a * b bars. */
  lemma {:induction false} MergeSplits(bars: seq<Bar>, a: nat, b: nat)
    requires a >= 1 && a * b <= |bars|
    ensures |MergeEvery(bars, a)| >= b
    ensures MergeEvery(bars, a)[b..] == MergeEvery(bars[a * b..], a)
    ensures MergeEvery(bars, a)[..b] == MergeEvery(bars[..a * b], a)
    decreases b
  {
    var ab := a * b;
    if b == 0 {
      assert ab == 0 && bars[ab..] == bars;
      assert bars[..ab] == [];
    } else {
      assert ab == a * (b - 1) + a && a * (b - 1) >= 0;
      MergeSplits(bars[a..], a, b - 1);
      assert bars[a..][a * (b - 1)..] == bars[ab..];
      assert bars[a..][..a * (b - 1)] == bars[..ab][a..];
      assert bars[..ab][..a] == bars[..a];
    }
  }

  /** The aggregate of the merged bars of b whole runs is the aggregate of all their bars. */
  lemma {:induction false} AggregateOfMerged(bars: seq<Bar>, a: nat, b: nat)
    requires a >= 1 && b >= 1 && |bars| == a * b
    ensures MergeEvery(bars, a) != [] && Aggregate(MergeEvery(bars, a)) == Aggregate(bars)
    decreases b
  {
    assert a * b == a * (b - 1) + a && a * (b - 1) >= 0;
    var first, rest := bars[..a], bars[a..];
    assert bars == first + rest;
    AggregateOne(Aggregate(first));
    if b == 1 {
      assert rest == [] && first == bars;
      assert MergeEvery(bars, a) == [Aggregate(bars)];
    } else {
      assert a * (b - 1) >= a by { assert a * (b - 1) == a * (b - 2) + a && a * (b - 2) >= 0; }
      AggregateOfMerged(rest, a, b - 1);
      AggregateConcat([Aggregate(first)], MergeEvery(rest, a));
      AggregateConcat(first, rest);
    }
  }

  /** Merging by a and then by b is merging by a * b, dropped tails included. */
  lemma {:induction false} MergingComposes(bars: seq<Bar>, a: nat, b: nat)
    requires a >= 1 && b >= 1 && a * b >= 1
    ensures MergeEvery(MergeEvery(bars, a), b) == MergeEvery(bars, a * b)
    decreases |bars|
  {
    var n := a * b;
    if |bars| < n {
      MergedBarIsItsRun(bars, a, 0);
      TooFewRuns(|bars|, a, b);
    } else {
      MergeSplits(bars, a, b);
      AggregateOfMerged(bars[..n], a, b);
      MergingComposes(bars[n..], a, b);
    }
  }

  lemma TooFewRuns(len: nat, a: nat, b: nat)
    requires a >= 1 && len < a * b
    ensures len / a < b
  {
    var q := len / a;
    assert len == a * q + len % a;
    assert q >= b ==> a * q >= a * b;
  }

  /** Where the last whole run ends. */
  function RunEnd(len: nat, n: nat): (end: nat)
    requires n >= 1
    ensures end <= len
  {
    len - len % n
  }

  lemma RunEndSteps(len: nat, n: nat)
    requires n >= 1
    ensures len < n ==> RunEnd(len, n) == 0
    ensures len >= n ==> RunEnd(len, n) == n + RunEnd(len - n, n)
  {
    if len < n {
      DivModUnique(len, n, 0, len);
    } else {
      ModShift(len, n);
    }
  }

  /** Of total volume nothing is lost but the dropped tail. */
  lemma {:induction false} MergingConserves(bars: seq<Bar>, n: nat)
    requires n >= 1
    ensures Volume(MergeEvery(bars, n)) == Volume(bars[..RunEnd(|bars|, n)])
    decreases |bars|
  {
    RunEndSteps(|bars|, n);
    if |bars| >= n {
      var rest, end := bars[n..], RunEnd(|bars| - n, n);
      MergingConserves(rest, n);
      AggregateOne(Aggregate(bars[..n]));
      VolumeConcat([Aggregate(bars[..n])], MergeEvery(rest, n));
      VolumeConcat(bars[..n], rest[..end]);
      assert bars[..n + end] == bars[..n] + rest[..end];
    }
  }

  /** Sane bars stay sane. */
  lemma {:induction false} MergingKeepsSane(bars: seq<Bar>, n: nat)
    requires n >= 1 && forall i :: 0 <= i < |bars| ==> Sane(bars[i])
    ensures forall j :: 0 <= j < |MergeEvery(bars, n)| ==> Sane(MergeEvery(bars, n)[j])
    decreases |bars|
  {
    if |bars| >= n {
      AggregateBounds(bars[..n]);
      MergingKeepsSane(bars[n..], n);
    }
  }

  lemma {:induction false} VolumeConcat(a: seq<Bar>, b: seq<Bar>)
    ensures Volume(a + b) == Volume(a) + Volume(b)
  {
    if b == [] {
      assert a + b == a;
    } else {
      assert (a + b)[..|a + b| - 1] == a + b[..|b| - 1];
      VolumeConcat(a, b[..|b| - 1]);
    }
  }

  // ---------------------------------------------------------------- the three loops compared

  /** The crypto loop drops a list that is shorter than one bucket, the Asian one returns it as it
      is: that is the only difference. */
  lemma CryptoAgreesWithAsiaIff(bars: seq<Bar>, n: int)
    ensures CryptoMerged(bars, n) == AsiaMerged(bars, n) <==> n <= 1 || bars == [] || |bars| >= n
  {
    if n > 1 && bars != [] && |bars| < n {
      assert CryptoMerged(bars, n) == [];
    }
  }

  lemma UsAgreesWithAsiaOnSorted(bars: seq<Bar>, n: int)
    requires SortedByTime(bars)
    ensures UsMerged(bars, n) == AsiaMerged(bars, n)
  {
    SortIsPermutation(bars);
  }

  lemma {:induction false} MergedFrom(bars: seq<Bar>, n: nat, from: int)
    requires n >= 1 && SortedByTime(bars) && forall i :: 0 <= i < |bars| ==> bars[i].time >= from
    ensures SortedByTime(MergeEvery(bars, n))
    ensures forall j :: 0 <= j < |MergeEvery(bars, n)| ==> MergeEvery(bars, n)[j].time >= from
    decreases |bars|
  {
    if |bars| >= n {
      MergedFrom(bars[n..], n, bars[0].time);
    }
  }

  /** Whatever the order of its input, the US loop merges in time order: its result is the Asian loop's for the
      sorted input, and is sorted. */
  lemma UsMergesByTime(bars: seq<Bar>, n: int)
    requires n > 1 && |bars| >= n
    ensures UsMerged(bars, n) == AsiaMerged(SortByTime(bars), n) && SortedByTime(UsMerged(bars, n))
  {
    SortIsPermutation(bars);
    assert |multiset(SortByTime(bars))| == |multiset(bars)|;
    MergedFrom(SortByTime(bars), n, SortByTime(bars)[0].time);
  }

  // ---------------------------------------------------------------- choosing what to merge

  datatype Source = Source(timeframe: string, bucket: nat)

  /** The candidates in the order the table lists them. */
  function Candidates(target: string): seq<Source> {
    if target == "3m" then [Source("1m", 3)]
    else if target == "4h" then [Source("2h", 2), Source("1h", 4)]
    else if target == "1w" then [Source("1d", 7)]
    else []
  }

  function FirstSupported(cs: seq<Source>, supported: set<string>): Option<Source> {
    if cs == [] then None
    else if cs[0].timeframe in supported then Some(cs[0])
    else FirstSupported(cs[1..], supported)
  }

  function PickSource(target: string, supported: set<string>): Option<Source> {
    FirstSupported(Candidates(target), supported)
  }

  function Minutes(timeframe: string): nat {
    if timeframe == "1m" then 1
    else if timeframe == "3m" then 3
    else if timeframe == "1h" then 60
    else if timeframe == "2h" then 120
    else if timeframe == "4h" then 240
    else if timeframe == "1d" then 1440
    else if timeframe == "1w" then 10080
    else 0
  }

  /** A picked source is supported and its buckets span exactly one target candle; nothing is picked
      exactly when no candidate is supported. */
  lemma PickedSourceFits(target: string, supported: set<string>)
    ensures match PickSource(target, supported)
            case Some(c) =>
              c.timeframe in supported && Minutes(c.timeframe) * c.bucket == Minutes(target) && c.bucket > 1
            case None => forall c :: c in Candidates(target) ==> c.timeframe !in supported
  {
    var cs := Candidates(target);
    if cs != [] {
      assert PickSource(target, supported)
          == if cs[0].timeframe in supported then Some(cs[0]) else FirstSupported(cs[1..], supported);
      if |cs| == 2 {
        assert cs[1..][0] == cs[1] && cs[1..][1..] == [];
      }
    }
  }

  /** Which targets can be merged from what: 3m from 1m, 4h from 2h or 1h, 1w from 1d. */
  lemma PicksIff(target: string, supported: set<string>)
    ensures PickSource(target, supported).Some?
       <==> || (target == "3m" && "1m" in supported)
            || (target == "4h" && ("2h" in supported || "1h" in supported))
            || (target == "1w" && "1d" in supported)
  {
    var cs := Candidates(target);
    if cs != [] {
      assert PickSource(target, supported)
          == if cs[0].timeframe in supported then Some(cs[0]) else FirstSupported(cs[1..], supported);
      if |cs| == 2 {
        assert cs[1..][0] == cs[1] && cs[1..][1..] == [];
      } else {
        assert cs[1..] == [];
      }
    }
  }

  /** The comment promises the finest supported source. The table order makes it the coarsest one:
      the promise is kept except for a 4h target on an exchange that offers both 2h and 1h. */
  lemma PicksFinestIff(target: string, supported: set<string>)
    requires PickSource(target, supported).Some?
    ensures
      (forall c :: c in Candidates(target) && c.timeframe in supported ==>
         Minutes(PickSource(target, supported).value.timeframe) <= Minutes(c.timeframe))
      <==> !(target == "4h" && "2h" in supported && "1h" in supported)
  {
    PickedSourceFits(target, supported);
    if target == "4h" {
      var coarse, fine := Source("2h", 2), Source("1h", 4);
      assert Candidates(target)[1] == fine && fine in Candidates(target);
      assert forall c :: c in Candidates(target) ==> c == coarse || c == fine;
      assert Candidates(target)[1..][0] == fine;
    }
  }

  /** So both ways to serve 4h from one hourly series give the same candles. */
  lemma FourHourRoutesAgree(hourly: seq<Bar>)
    ensures CryptoMerged(CryptoMerged(hourly, 2), 2) == CryptoMerged(hourly, 4)
  {
    if hourly != [] {
      MergingComposes(hourly, 2, 2);
      if |hourly| < 2 {
        assert MergeEvery(hourly, 2) == [] && MergeEvery(hourly, 4) == [];
      }
    }
  }
}
