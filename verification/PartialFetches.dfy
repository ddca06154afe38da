/**
 What the paginated fetch returns when the exchange fails, or time runs out, before the window is
 complete, and why an attempt that fails and is repeated leaves no trace.
 */
module PartialFetches {
  import opened Common
  import opened Bars
  import opened SortedKeys
  import opened Pagination
  import opened PaginationCoverage

  // ---------------------------------------------------------------- what an outcome holds

  /** k is the last complete row given for its time. */
  ghost predicate LastGiven(rows: seq<Row>, k: Bar) {
    exists i :: 0 <= i < |rows| && rows[i].width >= 6 && rows[i].bar == k && NotGivenFrom(rows, i + 1, k.time)
  }

  ghost predicate NotGivenFrom(rows: seq<Row>, from: nat, time: int) {
    forall j :: from <= j < |rows| && rows[j].width >= 6 ==> rows[j].bar.time != time
  }

  lemma LastGivenStep(front: seq<Row>, r: Row, k: Bar)
    ensures LastGiven(front + [r], k)
       <==> if r.width >= 6 && r.bar.time == k.time then r.bar == k else LastGiven(front, k)
  {
    var rows := front + [r];
    assert rows[|front|] == r;
    if LastGiven(rows, k) {
      var i :| 0 <= i < |rows| && rows[i].width >= 6 && rows[i].bar == k && NotGivenFrom(rows, i + 1, k.time);
      if i < |front| {
        assert forall j :: i + 1 <= j < |front| ==> rows[j] == front[j];
        assert front[i] == rows[i] && NotGivenFrom(front, i + 1, k.time);
      }
    }
    if r.width >= 6 && r.bar == k {
      assert NotGivenFrom(rows, |front| + 1, k.time);
    } else if LastGiven(front, k) && !(r.width >= 6 && r.bar.time == k.time) {
      var i :| 0 <= i < |front| && front[i].width >= 6 && front[i].bar == k && NotGivenFrom(front, i + 1, k.time);
      assert rows[i] == front[i] && NotGivenFrom(rows, i + 1, k.time);
    }
  }

  /** The dictionary by timestamp keeps the last row given for a time. */
  lemma {:induction false} ByTimeKeepsTheLast(rows: seq<Row>, k: Bar)
    ensures k.time in ByTime(rows) && ByTime(rows)[k.time] == k <==> LastGiven(rows, k)
  {
    if rows != [] {
      var front, r := rows[..|rows| - 1], rows[|rows| - 1];
      assert rows == front + [r];
      ByTimeKeepsTheLast(front, k);
      LastGivenStep(front, r, k);
    }
  }

  /** The candles, ascending, are exactly the last complete rows given for their times. */
  ghost predicate HoldsTheLast(bars: seq<Bar>, rows: seq<Row>) {
    StrictlyAscending(bars) && forall k :: k in bars <==> LastGiven(rows, k)
  }

  lemma CandlesAreTheLast(rows: seq<Row>)
    ensures HoldsTheLast(CandlesOf(ByTime(rows)), rows)
  {
    var bars := CandlesOf(ByTime(rows));
    ByTimeHolds(rows, 0);
    AscendingCandles(ByTime(rows));
    forall k ensures k in bars <==> LastGiven(rows, k) {
      ByTimeKeepsTheLast(rows, k);
    }
  }

  // ---------------------------------------------------------------- failing from some batch on

  /** Answers as before up to batch n, and fails every attempt from there on. */
  function FailingFrom(exchange: Exchange, n: nat, unknown: bool): Exchange {
    (batch: nat, attempt: nat, since: int) => if batch < n then exchange(batch, attempt, since) else Raised(unknown)
  }

  lemma {:induction false} RequestBefore(exchange: Exchange, n: nat, unknown: bool, batch: nat, attempt: nat,
                                         since: int)
    requires attempt <= RETRIES
    ensures Request(FailingFrom(exchange, n, unknown), batch, attempt, since)
         == if batch < n then Request(exchange, batch, attempt, since) else Raised(unknown)
    decreases RETRIES - attempt
  {
    if attempt < RETRIES {
      RequestBefore(exchange, n, unknown, batch, attempt + 1, since);
    }
  }

  /** The loop asks for batch n. */
  predicate Asks(exchange: Exchange, late: nat -> bool, cap: nat, end: int, tf: int, batch: nat, since: int,
                 streak: nat, n: nat)
    requires tf >= 1
    decreases cap - batch
  {
    batch < cap && since < end && !late(batch)
    && (batch == n
        || match AfterReply(Request(exchange, batch, 0, since), end, tf, since, streak)
           case Stop(_, _) => false
           case Continue(_, next, streak') => Asks(exchange, late, cap, end, tf, batch + 1, next, streak', n))
  }

  /** What is collected when batch n fails for good: the rows of the batches before it, and the error. */
  lemma {:induction false} CutShort(exchange: Exchange, late: nat -> bool, cap: nat, end: int, tf: int, batch: nat,
                                    since: int, streak: nat, n: nat, unknown: bool)
    requires tf >= 1 && batch <= n && Asks(exchange, late, cap, end, tf, batch, since, streak, n)
    ensures n < cap
    ensures Collect(FailingFrom(exchange, n, unknown), late, cap, end, tf, batch, since, streak)
         == Fetched(Collect(exchange, late, n, end, tf, batch, since, streak).rows, Some(unknown))
    ensures Collect(exchange, late, n, end, tf, batch, since, streak).failure == None
    decreases cap - batch
  {
    RequestBefore(exchange, n, unknown, batch, 0, since);
    if batch < n {
      var turn := AfterReply(Request(exchange, batch, 0, since), end, tf, since, streak);
      CutShort(exchange, late, cap, end, tf, batch + 1, turn.since, turn.streak, n, unknown);
    }
  }

  /** Outcome of a fetch that fails for good at batch n, whatever the exchange answered before. An unknown
      symbol gives no candle and no fallback. Any other error gives the candles collected so far, the last
      row given for each time, and the fallback only when no row came at all. */
  lemma PartialOutcome(exchange: Exchange, late: nat -> bool, since: int, end: int, tf: int, n: nat, unknown: bool)
    requires tf >= 1 && Asks(exchange, late, MAX_BATCHES, end, tf, 0, since, 0, n)
    ensures var rows := Collect(exchange, late, n, end, tf, 0, since, 0).rows;
      var out := Conclude(Collect(FailingFrom(exchange, n, unknown), late, MAX_BATCHES, end, tf, 0, since, 0));
      if unknown then out == Candles([])
      else if rows == [] then out == Fallback
      else out.Candles? && HoldsTheLast(out.bars, rows)
  {
    CutShort(exchange, late, MAX_BATCHES, end, tf, 0, since, 0, n, unknown);
    CandlesAreTheLast(Collect(exchange, late, n, end, tf, 0, since, 0).rows);
  }

  // ---------------------------------------------------------------- running late

  /** Finding the time budget spent before batch n is stopping there without an error. */
  lemma {:induction false} LateIsCapped(exchange: Exchange, cap: nat, end: int, tf: int, batch: nat, since: int,
                                        streak: nat, n: nat)
    requires tf >= 1 && n <= cap
    ensures Collect(exchange, (b: nat) => b >= n, cap, end, tf, batch, since, streak)
         == Collect(exchange, (b: nat) => false, n, end, tf, batch, since, streak)
    decreases cap - batch
  {
    if batch < n && since < end {
      var turn := AfterReply(Request(exchange, batch, 0, since), end, tf, since, streak);
      if turn.Continue? {
        LateIsCapped(exchange, cap, end, tf, batch + 1, turn.since, turn.streak, n);
      }
    }
  }

  // ---------------------------------------------------------------- attempts that are repeated

  /** Fails the first attempts of each batch before it answers. */
  function Flaky(exchange: Exchange, fails: (nat, int) -> nat, unknown: bool): Exchange {
    (batch: nat, attempt: nat, since: int) =>
      if attempt < fails(batch, since) then Raised(unknown) else exchange(batch, 0, since)
  }

  lemma {:induction false} RequestSurvives(exchange: Exchange, fails: (nat, int) -> nat, unknown: bool, batch: nat,
                                           attempt: nat, since: int)
    requires attempt <= fails(batch, since) <= RETRIES && exchange(batch, 0, since).Page?
    ensures Request(Flaky(exchange, fails, unknown), batch, attempt, since) == exchange(batch, 0, since)
    decreases RETRIES - attempt
  {
    if attempt < fails(batch, since) {
      RequestSurvives(exchange, fails, unknown, batch, attempt + 1, since);
    }
  }

  /** When each batch is answered within three attempts, what is collected is what it would have been
      without the failures. */
  lemma {:induction false} RepeatedAttemptsLeaveNoTrace(exchange: Exchange, fails: (nat, int) -> nat, unknown: bool,
                                                        late: nat -> bool, cap: nat, end: int, tf: int, batch: nat,
                                                        since: int, streak: nat)
    requires tf >= 1
    requires forall b: nat, s: int :: exchange(b, 0, s).Page?
    requires forall b: nat, s: int :: fails(b, s) <= RETRIES
    ensures Collect(Flaky(exchange, fails, unknown), late, cap, end, tf, batch, since, streak)
         == Collect(exchange, late, cap, end, tf, batch, since, streak)
    decreases cap - batch
  {
    if batch < cap && since < end && !late(batch) {
      RequestSurvives(exchange, fails, unknown, batch, 0, since);
      var turn := AfterReply(Request(exchange, batch, 0, since), end, tf, since, streak);
      if turn.Continue? {
        RepeatedAttemptsLeaveNoTrace(exchange, fails, unknown, late, cap, end, tf, batch + 1, turn.since, turn.streak);
      }
    }
  }

  // ---------------------------------------------------------------- on an exchange that serves its listing

  /** From where a batch is asked, and after how many empty ones in a row. */
  datatype BatchAt = BatchAt(since: int, streak: nat)

  /** A batch that starts at a is followed by one that starts at b. */
  ghost predicate Follows(candles: map<int, Bar>, tf: int, end: int, a: BatchAt, b: BatchAt)
    requires Listing(candles, tf)
  {
    var rows := PageRows(candles, tf, a.since);
    if rows == [] then a.streak + 1 < MAX_EMPTY && b == BatchAt(a.since + tf * SKIP_SLOTS, a.streak + 1)
    else LastTime(rows) < end && b == BatchAt(LastTime(rows) + tf, 0)
  }

  /** The batches are asked from these starts, one after the other, all of them before `end`. */
  ghost predicate Walk(candles: map<int, Bar>, tf: int, since: int, end: int, stops: seq<BatchAt>)
    requires Listing(candles, tf)
  {
    && stops != [] && stops[0] == BatchAt(since, 0)
    && (forall i :: 0 <= i < |stops| ==> stops[i].since < end && stops[i].streak < MAX_EMPTY)
    && (forall i :: 0 <= i < |stops| - 1 ==> Follows(candles, tf, end, stops[i], stops[i + 1]))
  }

  ghost predicate AsksFrom(candles: map<int, Bar>, tf: int, cap: nat, end: int, batch: nat, a: BatchAt, n: nat)
    requires tf >= 1
  {
    Asks(Serving(candles, tf), (b: nat) => false, cap, end, tf, batch, a.since, a.streak, n)
  }

  lemma AskedFrom(candles: map<int, Bar>, tf: int, cap: nat, end: int, batch: nat, a: BatchAt, b: BatchAt, n: nat)
    requires Listing(candles, tf) && batch < cap && a.since < end && Follows(candles, tf, end, a, b)
    requires AsksFrom(candles, tf, cap, end, batch + 1, b, n)
    ensures AsksFrom(candles, tf, cap, end, batch, a, n)
  {
    AnsweredAtOnce(candles, tf, batch, a.since);
    if PageRows(candles, tf, a.since) != [] {
      PageEnds(candles, tf, a.since);
    }
  }

  lemma {:induction false} WalkIsAsked(candles: map<int, Bar>, tf: int, cap: nat, since: int, end: int,
                                       stops: seq<BatchAt>, batch: nat)
    requires Listing(candles, tf) && Walk(candles, tf, since, end, stops) && batch < |stops| <= cap
    ensures AsksFrom(candles, tf, cap, end, batch, stops[batch], |stops| - 1)
    decreases |stops| - batch
  {
    if batch < |stops| - 1 {
      WalkIsAsked(candles, tf, cap, since, end, stops, batch + 1);
      AskedFrom(candles, tf, cap, end, batch, stops[batch], stops[batch + 1], |stops| - 1);
    }
  }

  ghost predicate CollectedFrom(candles: map<int, Bar>, tf: int, cap: nat, end: int, batch: nat, a: BatchAt, c: int)
    requires tf >= 1
  {
    Collected(candles, tf, cap, end, batch, a.since, a.streak, c)
  }

  lemma CollectedAfterEmptyPage(candles: map<int, Bar>, tf: int, cap: nat, end: int, batch: nat, a: BatchAt, b: BatchAt,
                                c: int)
    requires Listing(candles, tf) && batch < cap && a.since < end && Follows(candles, tf, end, a, b)
    requires PageRows(candles, tf, a.since) == [] && c in candles && a.since <= c
    ensures b.since <= c
    ensures CollectedFrom(candles, tf, cap, end, batch, a, c) <==> CollectedFrom(candles, tf, cap, end, batch + 1, b, c)
  {
    BeyondSkip(candles, tf, a.since, c);
    TurnOnEmptyPage(candles, tf, cap, end, batch, a.since, a.streak, c);
  }

  lemma CollectedAfterServedPage(candles: map<int, Bar>, tf: int, cap: nat, end: int, batch: nat, a: BatchAt,
                                 b: BatchAt, c: int)
    requires Listing(candles, tf) && batch < cap && a.since < end && Follows(candles, tf, end, a, b)
    requires PageRows(candles, tf, a.since) != [] && c in candles && a.since <= c
    ensures c < b.since ==> CollectedFrom(candles, tf, cap, end, batch, a, c)
    ensures c >= b.since ==>
        (CollectedFrom(candles, tf, cap, end, batch, a, c) <==> CollectedFrom(candles, tf, cap, end, batch + 1, b, c))
  {
    TurnOnPage(candles, tf, cap, end, batch, a.since, a.streak, c);
    PageHolds(candles, tf, a.since, c);
    PageEnds(candles, tf, a.since);
  }

  /** One batch, given the claim for those that follow: its page holds what is listed before the next start. */
  lemma CollectedFromNext(candles: map<int, Bar>, tf: int, cap: nat, end: int, batch: nat, a: BatchAt, b: BatchAt,
                          c: int, to: int)
    requires Listing(candles, tf) && batch < cap && a.since < end && Follows(candles, tf, end, a, b)
    requires c in candles && a.since <= c && b.since <= to
    requires c >= b.since ==> (CollectedFrom(candles, tf, cap, end, batch + 1, b, c) <==> c < to)
    ensures CollectedFrom(candles, tf, cap, end, batch, a, c) <==> c < to
  {
    if PageRows(candles, tf, a.since) == [] {
      CollectedAfterEmptyPage(candles, tf, cap, end, batch, a, b, c);
    } else {
      CollectedAfterServedPage(candles, tf, cap, end, batch, a, b, c);
    }
  }

  lemma StartsAscend(candles: map<int, Bar>, tf: int, end: int, a: BatchAt, b: BatchAt)
    requires Listing(candles, tf) && Follows(candles, tf, end, a, b)
    ensures a.since < b.since
  {
    if PageRows(candles, tf, a.since) != [] {
      PageEnds(candles, tf, a.since);
    }
  }

  lemma {:induction false} LastStartIsLatest(candles: map<int, Bar>, tf: int, since: int, end: int, stops: seq<BatchAt>,
                                             i: nat)
    requires Listing(candles, tf) && Walk(candles, tf, since, end, stops) && i < |stops|
    ensures stops[i].since <= stops[|stops| - 1].since
    decreases |stops| - i
  {
    if i < |stops| - 1 {
      LastStartIsLatest(candles, tf, since, end, stops, i + 1);
      StartsAscend(candles, tf, end, stops[i], stops[i + 1]);
    }
  }

  /** The batches before the last start of a walk collect exactly what is listed before that start. */
  lemma {:induction false} CollectedBefore(candles: map<int, Bar>, tf: int, since: int, end: int, stops: seq<BatchAt>,
                                           batch: nat, c: int)
    requires Listing(candles, tf) && Walk(candles, tf, since, end, stops) && batch < |stops|
    requires c in candles && stops[batch].since <= c
    ensures CollectedFrom(candles, tf, |stops| - 1, end, batch, stops[batch], c)
       <==> c < stops[|stops| - 1].since
    decreases |stops| - batch
  {
    if batch < |stops| - 1 {
      if stops[batch + 1].since <= c {
        CollectedBefore(candles, tf, since, end, stops, batch + 1, c);
      }
      LastStartIsLatest(candles, tf, since, end, stops, batch + 1);
      CollectedFromNext(candles, tf, |stops| - 1, end, batch, stops[batch], stops[batch + 1], c,
                        stops[|stops| - 1].since);
    }
  }

  lemma NextIsAsked(candles: map<int, Bar>, tf: int, cap: nat, end: int, batch: nat, a: BatchAt, n: nat)
    returns (b: BatchAt)
    requires Listing(candles, tf) && AsksFrom(candles, tf, cap, end, batch, a, n) && batch < n && a.streak < MAX_EMPTY
    ensures Follows(candles, tf, end, a, b) && AsksFrom(candles, tf, cap, end, batch + 1, b, n)
    ensures a.since < end && b.since < end && b.streak < MAX_EMPTY
  {
    AnsweredAtOnce(candles, tf, batch, a.since);
    var rows := PageRows(candles, tf, a.since);
    if rows == [] {
      b := BatchAt(a.since + tf * SKIP_SLOTS, a.streak + 1);
    } else {
      PageEnds(candles, tf, a.since);
      b := BatchAt(LastTime(rows) + tf, 0);
    }
  }

  /** Whenever the loop asks for batch n, there is a walk to it. */
  lemma {:induction false} AskedHasWalk(candles: map<int, Bar>, tf: int, since: int, end: int, n: nat,
                                        stops: seq<BatchAt>)
      returns (all: seq<BatchAt>)
    requires Listing(candles, tf) && Walk(candles, tf, since, end, stops) && |stops| <= n + 1
    requires AsksFrom(candles, tf, MAX_BATCHES, end, |stops| - 1, stops[|stops| - 1], n)
    ensures Walk(candles, tf, since, end, all) && |all| == n + 1
    decreases n + 1 - |stops|
  {
    all := stops;
    if |stops| < n + 1 {
      var b := NextIsAsked(candles, tf, MAX_BATCHES, end, |stops| - 1, stops[|stops| - 1], n);
      all := AskedHasWalk(candles, tf, since, end, n, stops + [b]);
    }
  }

  lemma ServedRowIsListed(candles: map<int, Bar>, tf: int, cap: nat, since: int, end: int, r: Row)
    requires Listing(candles, tf)
    requires r in Collect(Serving(candles, tf), (b: nat) => false, cap, end, tf, 0, since, 0).rows
    ensures r.width == 6 && r.bar.time in candles && r.bar == candles[r.bar.time] && since <= r.bar.time
  {
    RowsAreServed(Serving(candles, tf), (b: nat) => false, cap, end, tf, 0, since, 0, r);
    var b: nat, s: int :| since <= s < end && Serves(Serving(candles, tf), b, s, r);
    AnsweredAtOnce(candles, tf, b, s);
    PageRowIsListed(candles, tf, s, r);
  }

  function FirstBatches(candles: map<int, Bar>, tf: int, since: int, end: int, n: nat): seq<Row>
    requires tf >= 1
  {
    Collect(Serving(candles, tf), (b: nat) => false, n, end, tf, 0, since, 0).rows
  }

  lemma InFirstBatches(candles: map<int, Bar>, tf: int, since: int, end: int, n: nat, t: int)
    requires Listing(candles, tf)
    ensures var rows := FirstBatches(candles, tf, since, end, n);
      && (t in ByTime(rows) <==> Has(rows, t))
      && (t in ByTime(rows) ==> t in candles && since <= t && ByTime(rows)[t] == candles[t])
  {
    var rows := FirstBatches(candles, tf, since, end, n);
    ByTimeHolds(rows, t);
    if t in ByTime(rows) {
      var i :| 0 <= i < |rows| && rows[i].width >= 6 && rows[i].bar == ByTime(rows)[t];
      ServedRowIsListed(candles, tf, n, since, end, rows[i]);
    }
    if Has(rows, t) {
      var i :| 0 <= i < |rows| && rows[i].bar.time == t;
      ServedRowIsListed(candles, tf, n, since, end, rows[i]);
    }
  }

  /** They yield one stretch of the listing, from the start of the window to the last start of the walk. */
  lemma StretchBefore(candles: map<int, Bar>, tf: int, since: int, end: int, stops: seq<BatchAt>)
    requires Listing(candles, tf) && Walk(candles, tf, since, end, stops)
    ensures var rows, to := FirstBatches(candles, tf, since, end, |stops| - 1), stops[|stops| - 1].since;
      ByTime(rows) == Slice(candles, since, to) && (rows == [] <==> NoneIn(candles, since, to))
  {
    var rows, to := FirstBatches(candles, tf, since, end, |stops| - 1), stops[|stops| - 1].since;
    forall t ensures t in ByTime(rows) <==> t in candles && since <= t < to {
      InFirstBatches(candles, tf, since, end, |stops| - 1, t);
      if t in candles && since <= t {
        CollectedBefore(candles, tf, since, end, stops, 0, t);
      }
    }
    forall t | t in ByTime(rows) ensures ByTime(rows)[t] == candles[t] {
      InFirstBatches(candles, tf, since, end, |stops| - 1, t);
    }
    if rows != [] {
      assert Has(rows, rows[0].bar.time);
      InFirstBatches(candles, tf, since, end, |stops| - 1, rows[0].bar.time);
    }
  }

  lemma CandlesOfStretch(candles: map<int, Bar>, from: int, to: int)
    ensures CandlesOf(Slice(candles, from, to)) == [] <==> NoneIn(candles, from, to)
  {
    AscendingIsSorted(Slice(candles, from, to).Keys);
    if NoneIn(candles, from, to) {
      assert Slice(candles, from, to).Keys == {};
    } else {
      var t :| t in candles && from <= t < to;
      assert t in Slice(candles, from, to).Keys;
    }
  }

  /** An exchange that serves its listing and then fails for good at the batch a walk leads to: an unknown
      symbol gives no candle and no fallback; any other error gives exactly the listed candles from the start
      of the window to where that batch starts, and the fallback only when there is none. */
  lemma PartialFetchIsAStretch(candles: map<int, Bar>, tf: int, since: int, end: int, stops: seq<BatchAt>,
                               unknown: bool)
    requires Listing(candles, tf) && Walk(candles, tf, since, end, stops) && |stops| <= MAX_BATCHES
    ensures var exchange, to := FailingFrom(Serving(candles, tf), |stops| - 1, unknown), stops[|stops| - 1].since;
      Conclude(Collect(exchange, (b: nat) => false, MAX_BATCHES, end, tf, 0, since, 0))
      == if unknown then Candles([])
         else if NoneIn(candles, since, to) then Fallback
         else Candles(CandlesOf(Slice(candles, since, to)))
  {
    WalkIsAsked(candles, tf, MAX_BATCHES, since, end, stops, 0);
    CutShort(Serving(candles, tf), (b: nat) => false, MAX_BATCHES, end, tf, 0, since, 0, |stops| - 1, unknown);
    StretchBefore(candles, tf, since, end, stops);
  }

  /** The same when the time budget is found spent before that batch. */
  lemma LateFetchIsAStretch(candles: map<int, Bar>, tf: int, since: int, end: int, stops: seq<BatchAt>)
    requires Listing(candles, tf) && Walk(candles, tf, since, end, stops) && |stops| <= MAX_BATCHES
    ensures var n, to := |stops| - 1, stops[|stops| - 1].since;
      Conclude(Collect(Serving(candles, tf), (b: nat) => b >= n, MAX_BATCHES, end, tf, 0, since, 0))
      == if NoneIn(candles, since, to) then Fallback else Candles(CandlesOf(Slice(candles, since, to)))
  {
    LateIsCapped(Serving(candles, tf), MAX_BATCHES, end, tf, 0, since, 0, |stops| - 1);
    StretchBefore(candles, tf, since, end, stops);
    CandlesOfStretch(candles, since, stops[|stops| - 1].since);
    ServingNeverFails(candles, tf, |stops| - 1, end, 0, since, 0);
  }

  // ---------------------------------------------------------------- single answers

  /** A batch is tried three times: its answer is the first that is no error, or else the third error. */
  lemma ThreeAttempts(exchange: Exchange, batch: nat, since: int)
    ensures Request(exchange, batch, 0, since)
         == if exchange(batch, 0, since).Page? then exchange(batch, 0, since)
            else if exchange(batch, 1, since).Page? then exchange(batch, 1, since)
            else exchange(batch, 2, since)
  {
    assert Request(exchange, batch, 2, since) == exchange(batch, 2, since);
  }

  /** A page whose last row is blank ends the fetch with an error, but its other rows are kept. */
  lemma BrokenPageEndsTheFetch(exchange: Exchange, late: nat -> bool, cap: nat, end: int, tf: int, batch: nat,
                               since: int, streak: nat, rows: seq<Row>)
    requires tf >= 1 && batch < cap && since < end && !late(batch)
    requires Request(exchange, batch, 0, since) == Page(rows) && rows != [] && rows[|rows| - 1].width == 0
    ensures var f := Collect(exchange, late, cap, end, tf, batch, since, streak);
      f == Fetched(rows, Some(false)) && Conclude(f).Candles? && HoldsTheLast(Conclude(f).bars, rows)
  {
    CandlesAreTheLast(rows);
  }
}
