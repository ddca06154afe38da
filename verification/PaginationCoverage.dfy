/**
 Which candles the paginated fetch reaches on an exchange that serves, for every start, exactly the
 listed candles of the next BATCH_LIMIT slots.
 */
module PaginationCoverage {
  import opened Common
  import opened Bars
  import opened SortedKeys
  import opened Pagination

  /** How far past the last candle (in slots, from the next slot on) the loop still looks: five skips
      and one page. */
  const REACH := 620

  /** A listing: candles by time, on a grid or at least one timeframe apart. */
  ghost predicate Listing(candles: map<int, Bar>, tf: int) {
    tf >= 1 && Keyed(candles) && forall t, t' :: t in candles && t' in candles && t < t' ==> t + tf <= t'
  }

  function PageTimes(candles: map<int, Bar>, tf: int, since: int): set<int> {
    set t | t in candles && since <= t < since + tf * BATCH_LIMIT
  }

  function PageRows(candles: map<int, Bar>, tf: int, since: int): seq<Row> {
    var times := PageTimes(candles, tf, since);
    AscendingIsSorted(times);
    assert forall i :: 0 <= i < |Ascending(times)| ==> Ascending(times)[i] in Ascending(times);
    var bars := BarsAt(candles, Ascending(times));
    seq(|bars|, i requires 0 <= i < |bars| => Row(6, bars[i]))
  }

  function Serving(candles: map<int, Bar>, tf: int): Exchange {
    (batch: nat, attempt: nat, since: int) => Page(PageRows(candles, tf, since))
  }

  ghost predicate Has(rows: seq<Row>, t: int) {
    exists i :: 0 <= i < |rows| && rows[i].bar.time == t
  }

  lemma PageHolds(candles: map<int, Bar>, tf: int, since: int, t: int)
    requires Listing(candles, tf)
    ensures var rows := PageRows(candles, tf, since);
      && (Has(rows, t) <==> t in PageTimes(candles, tf, since))
      && (rows == [] <==> PageTimes(candles, tf, since) == {})
  {
    var times, rows := PageTimes(candles, tf, since), PageRows(candles, tf, since);
    AscendingIsSorted(times);
    if t in times {
      assert t in Ascending(times);
      var i :| 0 <= i < |Ascending(times)| && Ascending(times)[i] == t;
      assert rows[i].bar.time == t;
    }
    if Has(rows, t) {
      var i :| 0 <= i < |rows| && rows[i].bar.time == t;
      assert Ascending(times)[i] in times;
    }
  }

  lemma PageEnds(candles: map<int, Bar>, tf: int, since: int)
    requires Listing(candles, tf) && PageRows(candles, tf, since) != []
    ensures var rows := PageRows(candles, tf, since);
      && rows[|rows| - 1].width == 6
      && LastTime(rows) in PageTimes(candles, tf, since)
      && forall t :: t in PageTimes(candles, tf, since) ==> t <= LastTime(rows)
  {
    var times := PageTimes(candles, tf, since);
    AscendingIsSorted(times);
    var q := Ascending(times);
    forall t | t in times ensures t <= q[|q| - 1] {
      assert t in q;
    }
    assert q[|q| - 1] in times;
  }

  /** A candle so far behind all earlier ones (and behind `base`, the first slot not yet served) that
      the loop gives up before reaching it. */
  ghost predicate Isolated(candles: map<int, Bar>, tf: int, base: int, c: int) {
    base + tf * REACH <= c && forall c' :: c' in candles && base <= c' < c ==> c' + tf * (REACH + 1) <= c
  }

  /** No candle from `base` up to c is isolated. */
  ghost predicate Reachable(candles: map<int, Bar>, tf: int, base: int, c: int) {
    forall c' :: c' in candles && base <= c' <= c ==> !Isolated(candles, tf, base, c')
  }

  ghost predicate NoneIn(candles: map<int, Bar>, from: int, to: int) {
    forall t :: t in candles ==> !(from <= t < to)
  }

  // ---------------------------------------------------------------- steps of the argument

  /** A page that is served makes all its candles reachable. */
  lemma PageIsReachable(candles: map<int, Bar>, tf: int, base: int, since: int, c: int)
    requires Listing(candles, tf) && NoneIn(candles, base, since) && since <= base + tf * (REACH - BATCH_LIMIT)
    requires c in PageTimes(candles, tf, since)
    ensures Reachable(candles, tf, base, c)
  {
    forall c' | c' in candles && base <= c' <= c ensures !Isolated(candles, tf, base, c') {
      assert since <= c' < base + tf * REACH;
    }
  }

  /** Going on behind a served candle changes nothing about what is reachable later. */
  lemma ReachableBehind(candles: map<int, Bar>, tf: int, base: int, last: int, c: int)
    requires Listing(candles, tf) && last in candles && base <= last < c && c in candles
    requires Reachable(candles, tf, base, last)
    ensures Reachable(candles, tf, base, c) <==> Reachable(candles, tf, last + tf, c)
  {
    forall c' | c' in candles && last < c'
      ensures Isolated(candles, tf, base, c') <==> Isolated(candles, tf, last + tf, c') {
      assert last + tf <= c';
      IsolatedBehind(candles, tf, base, last, c');
    }
  }

  lemma IsolatedBehind(candles: map<int, Bar>, tf: int, base: int, last: int, c: int)
    requires Listing(candles, tf) && last in candles && base <= last && last + tf <= c
    ensures Isolated(candles, tf, base, c) <==> Isolated(candles, tf, last + tf, c)
  {
    if Isolated(candles, tf, last + tf, c) {
      forall c' | c' in candles && base <= c' < c ensures c' + tf * (REACH + 1) <= c {
        if c' > last {
          assert last + tf <= c';
        }
      }
    }
  }

  /** When six pages in a row were empty, whatever comes next is out of reach. */
  lemma GivenUp(candles: map<int, Bar>, tf: int, base: int, since: int, c: int)
    requires Listing(candles, tf) && NoneIn(candles, base, since)
    requires since == base + tf * (REACH - BATCH_LIMIT) && PageTimes(candles, tf, since) == {}
    requires c in candles && since <= c
    ensures !Reachable(candles, tf, base, c)
  {
    var later := set t | t in candles && base <= t <= c;
    assert c in later;
    var first := Least(later);
    assert since <= first;
    assert first !in PageTimes(candles, tf, since);
    assert forall c' :: c' in candles && base <= c' <= c ==> c' in later;
    assert Isolated(candles, tf, base, first);
  }

  /** Batches that are enough to walk `k` times 64 slots: two for each. */
  function Room(tf: int, k: int): int {
    tf * SKIP_SLOTS * k
  }

  lemma RoomStep(tf: int, k: int)
    ensures Room(tf, k + 1) == Room(tf, k) + tf * SKIP_SLOTS
  {
  }

  /** Enough batches are left: `quiet` says that the next 236 slots hold no candle, because the page
      just served ended that early. */
  ghost predicate Enough(candles: map<int, Bar>, tf: int, left: int, since: int, end: int, k: nat, quiet: bool) {
    if quiet then
      left >= 2 * k + 1 && end - since <= Room(tf, k + 1)
      && NoneIn(candles, since, since + tf * (BATCH_LIMIT - SKIP_SLOTS))
    else left >= 2 * k && end - since <= Room(tf, k)
  }

  /** One turn keeps enough batches. */
  lemma EnoughNext(candles: map<int, Bar>, tf: int, left: int, since: int, end: int, k: nat, quiet: bool, next: int)
      returns (k': nat, quiet': bool)
    requires Listing(candles, tf) && Enough(candles, tf, left, since, end, k, quiet) && since < end
    requires since + tf <= next && (quiet ==> next >= since + tf * SKIP_SLOTS)
    requires NoneIn(candles, next, since + tf * BATCH_LIMIT)
    ensures left >= 1 && Enough(candles, tf, left - 1, next, end, k', quiet')
  {
    if k >= 1 {
      RoomStep(tf, k - 1);
    }
    RoomStep(tf, k);
    if quiet {
      k', quiet' := k, false;
    } else if next >= since + tf * SKIP_SLOTS {
      k', quiet' := k - 1, false;
    } else {
      k', quiet' := k - 1, true;
    }
  }

  // ---------------------------------------------------------------- the loop

  lemma HasAppend(a: seq<Row>, b: seq<Row>, t: int)
    ensures Has(a + b, t) <==> Has(a, t) || Has(b, t)
  {
    var ab := a + b;
    if Has(a, t) {
      var i :| 0 <= i < |a| && a[i].bar.time == t;
      assert ab[i].bar.time == t;
    }
    if Has(b, t) {
      var i :| 0 <= i < |b| && b[i].bar.time == t;
      assert ab[|a| + i].bar.time == t;
    }
    if Has(ab, t) {
      var i :| 0 <= i < |ab| && ab[i].bar.time == t;
      assert i < |a| ==> a[i].bar.time == t;
      assert i >= |a| ==> b[i - |a|].bar.time == t;
    }
  }

  lemma AnsweredAtOnce(candles: map<int, Bar>, tf: int, batch: nat, since: int)
    ensures Request(Serving(candles, tf), batch, 0, since) == Page(PageRows(candles, tf, since))
  {
  }

  ghost predicate Collected(candles: map<int, Bar>, tf: int, cap: nat, end: int, batch: nat, since: int, streak: nat,
                            c: int)
    requires tf >= 1
  {
    Has(Collect(Serving(candles, tf), (b: nat) => false, cap, end, tf, batch, since, streak).rows, c)
  }

  lemma NothingOnPage(candles: map<int, Bar>, tf: int, since: int)
    requires Listing(candles, tf) && PageRows(candles, tf, since) == []
    ensures PageTimes(candles, tf, since) == {} && NoneIn(candles, since, since + tf * BATCH_LIMIT)
  {
    PageHolds(candles, tf, since, since);
    forall t | t in candles ensures !(since <= t < since + tf * BATCH_LIMIT) {
      assert t !in PageTimes(candles, tf, since);
    }
  }

  lemma NothingBehindLast(candles: map<int, Bar>, tf: int, since: int)
    requires Listing(candles, tf) && PageRows(candles, tf, since) != []
    ensures var last := LastTime(PageRows(candles, tf, since));
      since <= last && last in candles && NoneIn(candles, last + 1, since + tf * BATCH_LIMIT)
  {
    PageEnds(candles, tf, since);
    var last := LastTime(PageRows(candles, tf, since));
    forall t | t in candles ensures !(last < t < since + tf * BATCH_LIMIT) {
      assert t > last >= since ==> t !in PageTimes(candles, tf, since);
    }
  }

  lemma TurnOnPage(candles: map<int, Bar>, tf: int, cap: nat, end: int, batch: nat, since: int, streak: nat, c: int)
    requires Listing(candles, tf) && batch < cap && since < end && PageRows(candles, tf, since) != []
    ensures var rows := PageRows(candles, tf, since);
      Collected(candles, tf, cap, end, batch, since, streak, c)
      <==> Has(rows, c)
           || (LastTime(rows) < end && Collected(candles, tf, cap, end, batch + 1, LastTime(rows) + tf, 0, c))
  {
    var rows := PageRows(candles, tf, since);
    AnsweredAtOnce(candles, tf, batch, since);
    PageEnds(candles, tf, since);
    if LastTime(rows) < end {
      HasAppend(rows,
                Collect(Serving(candles, tf), (b: nat) => false, cap, end, tf, batch + 1, LastTime(rows) + tf, 0).rows,
                c);
    }
  }

  lemma TurnOnEmptyPage(candles: map<int, Bar>, tf: int, cap: nat, end: int, batch: nat, since: int, streak: nat,
                        c: int)
    requires Listing(candles, tf) && batch < cap && since < end && PageRows(candles, tf, since) == []
    ensures Collected(candles, tf, cap, end, batch, since, streak, c)
      <==> streak + 1 < MAX_EMPTY && Collected(candles, tf, cap, end, batch + 1, since + tf * SKIP_SLOTS, streak + 1, c)
  {
    AnsweredAtOnce(candles, tf, batch, since);
    if streak + 1 < MAX_EMPTY {
      HasAppend([],
                Collect(Serving(candles, tf), (b: nat) => false, cap, end, tf, batch + 1, since + tf * SKIP_SLOTS,
                        streak + 1).rows,
                c);
    }
  }

  /** How far `streak` skips lead. */
  function Skipped(tf: int, streak: nat): int {
    if streak == 0 then 0 else Skipped(tf, streak - 1) + tf * SKIP_SLOTS
  }

  /** Where the loop stands: `streak` skips behind `base`, nothing missed since, batches enough. */
  ghost predicate Standing(candles: map<int, Bar>, tf: int, left: int, since: int, end: int, streak: nat, base: int,
                           k: nat, quiet: bool) {
    && streak < MAX_EMPTY && since == base + Skipped(tf, streak) && NoneIn(candles, base, since)
    && Enough(candles, tf, left, since, end, k, quiet)
  }

  lemma StandingAfterEmpty(candles: map<int, Bar>, tf: int, left: int, since: int, end: int, streak: nat, base: int,
                           k: nat, quiet: bool)
      returns (k': nat, quiet': bool)
    requires Listing(candles, tf) && Standing(candles, tf, left, since, end, streak, base, k, quiet) && since < end
    requires PageRows(candles, tf, since) == []
    ensures left >= 1
    ensures streak + 1 < MAX_EMPTY ==>
        Standing(candles, tf, left - 1, since + tf * SKIP_SLOTS, end, streak + 1, base, k', quiet')
  {
    NothingOnPage(candles, tf, since);
    k', quiet' := EnoughNext(candles, tf, left, since, end, k, quiet, since + tf * SKIP_SLOTS);
  }

  lemma StandingAfterPage(candles: map<int, Bar>, tf: int, left: int, since: int, end: int, streak: nat, base: int,
                          k: nat, quiet: bool)
      returns (k': nat, quiet': bool)
    requires Listing(candles, tf) && Standing(candles, tf, left, since, end, streak, base, k, quiet) && since < end
    requires PageRows(candles, tf, since) != []
    ensures var next := LastTime(PageRows(candles, tf, since)) + tf;
      left >= 1 && Standing(candles, tf, left - 1, next, end, 0, next, k', quiet')
  {
    NothingBehindLast(candles, tf, since);
    k', quiet' := EnoughNext(candles, tf, left, since, end, k, quiet, LastTime(PageRows(candles, tf, since)) + tf);
  }

  lemma SkippedBound(tf: int, streak: nat)
    requires tf >= 1 && streak < MAX_EMPTY
    ensures 0 <= Skipped(tf, streak) <= tf * (REACH - BATCH_LIMIT)
    ensures streak + 1 == MAX_EMPTY ==> Skipped(tf, streak) == tf * (REACH - BATCH_LIMIT)
  {
    assert Skipped(tf, 1) == tf * SKIP_SLOTS;
    assert Skipped(tf, 2) == Skipped(tf, 1) + tf * SKIP_SLOTS;
    assert Skipped(tf, 3) == Skipped(tf, 2) + tf * SKIP_SLOTS;
    assert Skipped(tf, 4) == Skipped(tf, 3) + tf * SKIP_SLOTS;
    assert Skipped(tf, 5) == Skipped(tf, 4) + tf * SKIP_SLOTS;
  }

  /** A candle on or before the end of the page just served is on it, and reachable. */
  lemma OnThisPage(candles: map<int, Bar>, tf: int, since: int, base: int, c: int)
    requires Listing(candles, tf) && PageRows(candles, tf, since) != []
    requires since <= base + tf * (REACH - BATCH_LIMIT) && NoneIn(candles, base, since)
    requires c in candles && since <= c <= LastTime(PageRows(candles, tf, since))
    ensures Has(PageRows(candles, tf, since), c) && Reachable(candles, tf, base, c)
  {
    PageHolds(candles, tf, since, c);
    PageEnds(candles, tf, since);
    PageIsReachable(candles, tf, base, since, c);
  }

  /** A later candle is not on it, and as reachable as from the slot behind it. */
  lemma BehindThisPage(candles: map<int, Bar>, tf: int, since: int, base: int, c: int)
    requires Listing(candles, tf) && PageRows(candles, tf, since) != []
    requires since <= base + tf * (REACH - BATCH_LIMIT) && NoneIn(candles, base, since) && base <= since
    requires c in candles && c > LastTime(PageRows(candles, tf, since))
    ensures var last := LastTime(PageRows(candles, tf, since));
      && !Has(PageRows(candles, tf, since), c) && last + tf <= c
      && (Reachable(candles, tf, base, c) <==> Reachable(candles, tf, last + tf, c))
  {
    var last := LastTime(PageRows(candles, tf, since));
    PageHolds(candles, tf, since, c);
    PageEnds(candles, tf, since);
    OnThisPage(candles, tf, since, base, last);
    ReachableBehind(candles, tf, base, last, c);
  }

  /** The sixth empty page in a row: nothing later is collected, and nothing is reachable. */
  lemma LastEmptyTurn(candles: map<int, Bar>, tf: int, cap: nat, end: int, batch: nat, since: int, streak: nat,
                      base: int, c: int)
    requires Listing(candles, tf) && batch < cap && since < end && PageRows(candles, tf, since) == []
    requires streak < MAX_EMPTY && since == base + Skipped(tf, streak) && NoneIn(candles, base, since)
    requires c in candles && since <= c < end
    requires streak + 1 == MAX_EMPTY
    ensures Collected(candles, tf, cap, end, batch, since, streak, c) <==> Reachable(candles, tf, base, c)
  {
    TurnOnEmptyPage(candles, tf, cap, end, batch, since, streak, c);
    SkippedBound(tf, streak);
    NothingOnPage(candles, tf, since);
    GivenUp(candles, tf, base, since, c);
  }

  /** A served page, given the claim for the rest of the loop. */
  lemma PageTurn(candles: map<int, Bar>, tf: int, cap: nat, end: int, batch: nat, since: int, streak: nat, base: int,
                 c: int)
    requires Listing(candles, tf) && batch < cap && since < end && PageRows(candles, tf, since) != []
    requires streak < MAX_EMPTY && since == base + Skipped(tf, streak) && NoneIn(candles, base, since)
    requires c in candles && since <= c < end
    requires var next := LastTime(PageRows(candles, tf, since)) + tf;
      c >= next ==> (Collected(candles, tf, cap, end, batch + 1, next, 0, c) <==> Reachable(candles, tf, next, c))
    ensures Collected(candles, tf, cap, end, batch, since, streak, c) <==> Reachable(candles, tf, base, c)
  {
    TurnOnPage(candles, tf, cap, end, batch, since, streak, c);
    SkippedBound(tf, streak);
    if c <= LastTime(PageRows(candles, tf, since)) {
      OnThisPage(candles, tf, since, base, c);
    } else {
      BehindThisPage(candles, tf, since, base, c);
    }
  }

  lemma BeyondSkip(candles: map<int, Bar>, tf: int, since: int, c: int)
    requires Listing(candles, tf) && PageRows(candles, tf, since) == [] && c in candles && since <= c
    ensures since + tf * SKIP_SLOTS <= c
  {
    NothingOnPage(candles, tf, since);
  }

  /** A wanted candle is collected by the loop exactly when it is reachable. */
  lemma {:induction false} CollectedIffReachable(candles: map<int, Bar>, tf: int, cap: nat, end: int,
                                                 left: nat, batch: nat, since: int, streak: nat, base: int, k: nat,
                                                 quiet: bool, c: int)
    requires Listing(candles, tf) && cap == batch + left
    requires Standing(candles, tf, left, since, end, streak, base, k, quiet)
    requires c in candles && since <= c < end
    ensures Collected(candles, tf, cap, end, batch, since, streak, c) <==> Reachable(candles, tf, base, c)
    decreases left, 1
  {
    if PageRows(candles, tf, since) == [] {
      CollectedAfterEmpty(candles, tf, cap, end, left, batch, since, streak, base, k, quiet, c);
    } else {
      CollectedAfterPage(candles, tf, cap, end, left, batch, since, streak, base, k, quiet, c);
    }
  }

  lemma {:induction false} CollectedAfterEmpty(candles: map<int, Bar>, tf: int, cap: nat, end: int,
                                               left: nat, batch: nat, since: int, streak: nat, base: int, k: nat,
                                               quiet: bool, c: int)
    requires Listing(candles, tf) && cap == batch + left
    requires Standing(candles, tf, left, since, end, streak, base, k, quiet)
    requires c in candles && since <= c < end && PageRows(candles, tf, since) == []
    ensures Collected(candles, tf, cap, end, batch, since, streak, c) <==> Reachable(candles, tf, base, c)
    decreases left, 0
  {
    var k', quiet' := StandingAfterEmpty(candles, tf, left, since, end, streak, base, k, quiet);
    if streak + 1 < MAX_EMPTY {
      TurnOnEmptyPage(candles, tf, cap, end, batch, since, streak, c);
      var next := since + tf * SKIP_SLOTS;
      assert next <= c by { BeyondSkip(candles, tf, since, c); }
      CollectedIffReachable(candles, tf, cap, end, left - 1, batch + 1, next, streak + 1, base, k', quiet', c);
    } else {
      LastEmptyTurn(candles, tf, cap, end, batch, since, streak, base, c);
    }
  }

  lemma {:induction false} CollectedAfterPage(candles: map<int, Bar>, tf: int, cap: nat, end: int,
                                              left: nat, batch: nat, since: int, streak: nat, base: int, k: nat,
                                              quiet: bool, c: int)
    requires Listing(candles, tf) && cap == batch + left
    requires Standing(candles, tf, left, since, end, streak, base, k, quiet)
    requires c in candles && since <= c < end && PageRows(candles, tf, since) != []
    ensures Collected(candles, tf, cap, end, batch, since, streak, c) <==> Reachable(candles, tf, base, c)
    decreases left, 0
  {
    var next := LastTime(PageRows(candles, tf, since)) + tf;
    var k', quiet' := StandingAfterPage(candles, tf, left, since, end, streak, base, k, quiet);
    if c >= next {
      CollectedIffReachable(candles, tf, cap, end, left - 1, batch + 1, next, 0, next, k', quiet', c);
    }
    PageTurn(candles, tf, cap, end, batch, since, streak, base, c);
  }

  // ---------------------------------------------------------------- the whole fetch

  function FetchAll(candles: map<int, Bar>, tf: int, since: int, end: int): Fetched
    requires tf >= 1
  {
    Collect(Serving(candles, tf), (b: nat) => false, MAX_BATCHES, end, tf, 0, since, 0)
  }

  /** Up to this many slots the batch cap cannot cut the fetch short. */
  const WINDOW_SLOTS := 192000

  lemma {:induction false} ServingNeverFails(candles: map<int, Bar>, tf: int, cap: nat, end: int, batch: nat,
                                             since: int, streak: nat)
    requires Listing(candles, tf)
    ensures Collect(Serving(candles, tf), (b: nat) => false, cap, end, tf, batch, since, streak).failure == None
    decreases cap - batch
  {
    if batch < cap && since < end {
      AnsweredAtOnce(candles, tf, batch, since);
      var turn := AfterReply(Page(PageRows(candles, tf, since)), end, tf, since, streak);
      if PageRows(candles, tf, since) != [] {
        PageEnds(candles, tf, since);
      }
      if turn.Continue? {
        ServingNeverFails(candles, tf, cap, end, batch + 1, turn.since, turn.streak);
      }
    }
  }

  lemma PageRowIsListed(candles: map<int, Bar>, tf: int, since: int, r: Row)
    requires Listing(candles, tf) && r in PageRows(candles, tf, since)
    ensures r.width == 6 && r.bar.time in candles && r.bar == candles[r.bar.time] && since <= r.bar.time
  {
    var times := PageTimes(candles, tf, since);
    AscendingIsSorted(times);
    var i :| 0 <= i < |PageRows(candles, tf, since)| && PageRows(candles, tf, since)[i] == r;
    assert Ascending(times)[i] in Ascending(times);
  }

  lemma FetchedRowIsListed(candles: map<int, Bar>, tf: int, since: int, end: int, r: Row)
    requires Listing(candles, tf) && r in FetchAll(candles, tf, since, end).rows
    ensures r.width == 6 && r.bar.time in candles && r.bar == candles[r.bar.time] && since <= r.bar.time
  {
    RowsAreServed(Serving(candles, tf), (b: nat) => false, MAX_BATCHES, end, tf, 0, since, 0, r);
    var b: nat, s: int :| since <= s < end && Serves(Serving(candles, tf), b, s, r);
    AnsweredAtOnce(candles, tf, b, s);
    PageRowIsListed(candles, tf, s, r);
  }

  lemma FetchedIsListed(candles: map<int, Bar>, tf: int, since: int, end: int, c: int)
    requires Listing(candles, tf)
    ensures var rows := FetchAll(candles, tf, since, end).rows;
      && (c in ByTime(rows) <==> Has(rows, c))
      && (c in ByTime(rows) ==> c in candles && ByTime(rows)[c] == candles[c] && since <= c)
  {
    var rows := FetchAll(candles, tf, since, end).rows;
    ByTimeHolds(rows, c);
    if c in ByTime(rows) {
      var i :| 0 <= i < |rows| && rows[i].width >= 6 && rows[i].bar == ByTime(rows)[c];
      FetchedRowIsListed(candles, tf, since, end, rows[i]);
    }
    if Has(rows, c) {
      var i :| 0 <= i < |rows| && rows[i].bar.time == c;
      FetchedRowIsListed(candles, tf, since, end, rows[i]);
    }
  }

  function Served(candles: map<int, Bar>, tf: int, cap: nat, since: int, end: int): Fetched
    requires tf >= 1
  {
    Collect(Serving(candles, tf), (b: nat) => false, cap, end, tf, 0, since, 0)
  }

  /** More batches than any window needs. */
  function Ample(since: int, end: int): nat {
    2 * Max(0, end - since) + MAX_BATCHES
  }

  /** How many batches the window takes when they are not capped. */
  function BatchesNeeded(candles: map<int, Bar>, tf: int, since: int, end: int): nat
    requires tf >= 1
  {
    TurnsFrom(candles, tf, Ample(since, end), end, 0, since, 0)
  }

  function TurnsFrom(candles: map<int, Bar>, tf: int, cap: nat, end: int, batch: nat, since: int, streak: nat): nat
    requires tf >= 1
  {
    Turns(Serving(candles, tf), (b: nat) => false, cap, end, tf, batch, since, streak)
  }

  lemma TurnsOnPage(candles: map<int, Bar>, tf: int, cap: nat, end: int, batch: nat, since: int, streak: nat)
    requires Listing(candles, tf) && batch < cap && since < end && PageRows(candles, tf, since) != []
    ensures var last := LastTime(PageRows(candles, tf, since));
      TurnsFrom(candles, tf, cap, end, batch, since, streak)
      == if last >= end then 1 else 1 + TurnsFrom(candles, tf, cap, end, batch + 1, last + tf, 0)
  {
    AnsweredAtOnce(candles, tf, batch, since);
    PageEnds(candles, tf, since);
  }

  lemma TurnsOnEmptyPage(candles: map<int, Bar>, tf: int, cap: nat, end: int, batch: nat, since: int, streak: nat)
    requires Listing(candles, tf) && batch < cap && since < end && PageRows(candles, tf, since) == []
    requires streak < MAX_EMPTY
    ensures TurnsFrom(candles, tf, cap, end, batch, since, streak)
         == if streak + 1 == MAX_EMPTY then 1
            else 1 + TurnsFrom(candles, tf, cap, end, batch + 1, since + tf * SKIP_SLOTS, streak + 1)
  {
    AnsweredAtOnce(candles, tf, batch, since);
  }

  /** Where batches are enough, no more are requested. */
  lemma {:induction false} TurnsWithin(candles: map<int, Bar>, tf: int, cap: nat, end: int, left: nat,
                                       batch: nat, since: int, streak: nat, base: int, k: nat, quiet: bool)
    requires Listing(candles, tf) && Standing(candles, tf, left, since, end, streak, base, k, quiet)
    ensures TurnsFrom(candles, tf, cap, end, batch, since, streak) <= left
    decreases left, 1
  {
    if batch < cap && since < end {
      if PageRows(candles, tf, since) == [] {
        TurnsWithinEmpty(candles, tf, cap, end, left, batch, since, streak, base, k, quiet);
      } else {
        TurnsWithinPage(candles, tf, cap, end, left, batch, since, streak, base, k, quiet);
      }
    }
  }

  lemma {:induction false} TurnsWithinEmpty(candles: map<int, Bar>, tf: int, cap: nat, end: int, left: nat,
                                            batch: nat, since: int, streak: nat, base: int, k: nat, quiet: bool)
    requires Listing(candles, tf) && Standing(candles, tf, left, since, end, streak, base, k, quiet)
    requires batch < cap && since < end && PageRows(candles, tf, since) == []
    ensures TurnsFrom(candles, tf, cap, end, batch, since, streak) <= left
    decreases left, 0
  {
    TurnsOnEmptyPage(candles, tf, cap, end, batch, since, streak);
    var k', quiet' := StandingAfterEmpty(candles, tf, left, since, end, streak, base, k, quiet);
    if streak + 1 < MAX_EMPTY {
      TurnsWithin(candles, tf, cap, end, left - 1, batch + 1, since + tf * SKIP_SLOTS, streak + 1, base, k', quiet');
    }
  }

  lemma {:induction false} TurnsWithinPage(candles: map<int, Bar>, tf: int, cap: nat, end: int, left: nat,
                                           batch: nat, since: int, streak: nat, base: int, k: nat, quiet: bool)
    requires Listing(candles, tf) && Standing(candles, tf, left, since, end, streak, base, k, quiet)
    requires batch < cap && since < end && PageRows(candles, tf, since) != []
    ensures TurnsFrom(candles, tf, cap, end, batch, since, streak) <= left
    decreases left, 0
  {
    TurnsOnPage(candles, tf, cap, end, batch, since, streak);
    var next := LastTime(PageRows(candles, tf, since)) + tf;
    var k', quiet' := StandingAfterPage(candles, tf, left, since, end, streak, base, k, quiet);
    TurnsWithin(candles, tf, cap, end, left - 1, batch + 1, next, 0, next, k', quiet');
  }

  /** Every window of up to 192000 slots fits the 6000 batches, whatever is listed. */
  lemma ShortWindowFits(candles: map<int, Bar>, tf: int, since: int, end: int)
    requires Listing(candles, tf) && end - since <= tf * WINDOW_SLOTS
    ensures BatchesNeeded(candles, tf, since, end) <= MAX_BATCHES
  {
    assert Room(tf, MAX_BATCHES / 2) == tf * WINDOW_SLOTS;
    TurnsWithin(candles, tf, Ample(since, end), end, MAX_BATCHES, 0, since, 0, since, MAX_BATCHES / 2, false);
  }

  lemma RoomForAll(tf: int, k: nat)
    requires tf >= 1
    ensures k <= Room(tf, k)
  {
    assert tf * SKIP_SLOTS >= 1;
    assert tf * SKIP_SLOTS * k >= 1 * k;
  }

  lemma StandingAtStart(candles: map<int, Bar>, tf: int, since: int, end: int)
    requires Listing(candles, tf)
    ensures Standing(candles, tf, Ample(since, end), since, end, 0, since, Max(0, end - since), false)
  {
    RoomForAll(tf, Max(0, end - since));
  }

  lemma FetchIsUncapped(candles: map<int, Bar>, tf: int, since: int, end: int)
    requires tf >= 1 && BatchesNeeded(candles, tf, since, end) <= MAX_BATCHES
    ensures FetchAll(candles, tf, since, end) == Served(candles, tf, Ample(since, end), since, end)
  {
    UnusedCap(Serving(candles, tf), (b: nat) => false, MAX_BATCHES, Ample(since, end), end, tf, 0, since, 0);
  }

  /** A candle of the window is returned, and returned as listed, exactly when no candle from the
      start of the window up to it is isolated. */
  lemma FetchReaches(candles: map<int, Bar>, tf: int, since: int, end: int, c: int)
    requires Listing(candles, tf) && BatchesNeeded(candles, tf, since, end) <= MAX_BATCHES
    requires c in candles && since <= c < end
    ensures var m := ByTime(FetchAll(candles, tf, since, end).rows);
      && (c in m <==> Reachable(candles, tf, since, c))
      && (c in m ==> m[c] == candles[c])
  {
    FetchedIsListed(candles, tf, since, end, c);
    FetchIsUncapped(candles, tf, since, end);
    StandingAtStart(candles, tf, since, end);
    var ample := Ample(since, end);
    CollectedIffReachable(candles, tf, ample, end, ample, 0, since, 0, since, Max(0, end - since), false, c);
  }

  /** The whole window is served exactly when no candle of it is isolated: when every gap, from the
      slot before the window on, is missing fewer than REACH slots. */
  lemma WindowServedIff(candles: map<int, Bar>, tf: int, since: int, end: int)
    requires Listing(candles, tf) && BatchesNeeded(candles, tf, since, end) <= MAX_BATCHES
    ensures (forall c :: c in candles && since <= c < end ==> c in ByTime(FetchAll(candles, tf, since, end).rows))
       <==> (forall c :: c in candles && since <= c < end ==> !Isolated(candles, tf, since, c))
  {
    var m := ByTime(FetchAll(candles, tf, since, end).rows);
    forall c | c in candles && since <= c < end ensures c in m <==> Reachable(candles, tf, since, c) {
      FetchReaches(candles, tf, since, end, c);
    }
    if forall c :: c in candles && since <= c < end ==> c in m {
      forall c | c in candles && since <= c < end ensures !Isolated(candles, tf, since, c) {
        assert Reachable(candles, tf, since, c);
      }
    }
  }

  lemma LoneCandle(candles: map<int, Bar>, tf: int, c: int)
    requires tf >= 1 && candles.Keys == {c} && candles[c].time == c && c == tf * REACH
    ensures Listing(candles, tf) && !Reachable(candles, tf, 0, c)
  {
    assert c in candles;
    assert forall c' :: c' in candles ==> c' == c;
    assert Isolated(candles, tf, 0, c);
  }

  lemma LoneWindowFits(candles: map<int, Bar>, tf: int)
    requires Listing(candles, tf)
    ensures BatchesNeeded(candles, tf, 0, tf * REACH + 1) <= MAX_BATCHES
  {
    assert tf * REACH + 1 <= tf * WINDOW_SLOTS;
    ShortWindowFits(candles, tf, 0, tf * REACH + 1);
  }

  /** The bound is sharp: one missing slot more loses a candle. */
  lemma ReachIsSharp(candles: map<int, Bar>, tf: int, c: int)
    requires tf >= 1 && candles.Keys == {c} && candles[c].time == c && c == tf * REACH
    ensures c !in ByTime(FetchAll(candles, tf, 0, c + 1).rows)
  {
    LoneCandle(candles, tf, c);
    LoneWindowFits(candles, tf);
    assert c in candles;
    FetchReaches(candles, tf, 0, c + 1, c);
  }

  // ---------------------------------------------------------------- what is fetched is one stretch

  /** Where the last page of the window starts: pages go on behind the last candle of the one before, or
      64 slots on when it was empty, until one reaches `end` or six in a row were empty. */
  ghost function LastStart(candles: map<int, Bar>, tf: int, end: int, since: int, streak: nat): int
    requires Listing(candles, tf) && since < end
    decreases end - since
  {
    var rows := PageRows(candles, tf, since);
    if rows == [] then
      var next := since + tf * SKIP_SLOTS;
      if streak + 1 >= MAX_EMPTY || next >= end then since else LastStart(candles, tf, end, next, streak + 1)
    else
      NothingBehindLast(candles, tf, since);
      var next := LastTime(rows) + tf;
      if next >= end then since else LastStart(candles, tf, end, next, 0)
  }

  /** The last page, from here on, holds c. */
  ghost predicate OnLastPage(candles: map<int, Bar>, tf: int, end: int, since: int, streak: nat, c: int)
    requires Listing(candles, tf) && since < end
  {
    c < LastStart(candles, tf, end, since, streak) + tf * BATCH_LIMIT
  }

  lemma NothingFromEndOn(candles: map<int, Bar>, tf: int, cap: nat, end: int, batch: nat, since: int, streak: nat,
                         c: int)
    requires tf >= 1 && since >= end
    ensures !Collected(candles, tf, cap, end, batch, since, streak, c)
  {
  }

  /** An empty page, given the claim for the rest of the loop. */
  lemma LaterAfterEmpty(candles: map<int, Bar>, tf: int, cap: nat, end: int, batch: nat, since: int, streak: nat,
                        next: int, c: int)
    requires Listing(candles, tf) && since < end <= c && c in candles && streak < MAX_EMPTY && batch < cap
    requires PageRows(candles, tf, since) == [] && next == since + tf * SKIP_SLOTS
    requires streak + 1 < MAX_EMPTY && next < end ==>
        (Collected(candles, tf, cap, end, batch + 1, next, streak + 1, c)
         <==> OnLastPage(candles, tf, end, next, streak + 1, c))
    ensures Collected(candles, tf, cap, end, batch, since, streak, c)
       <==> OnLastPage(candles, tf, end, since, streak, c)
  {
    TurnOnEmptyPage(candles, tf, cap, end, batch, since, streak, c);
    if streak + 1 >= MAX_EMPTY || next >= end {
      NothingOnPage(candles, tf, since);
      if next >= end { NothingFromEndOn(candles, tf, cap, end, batch + 1, next, streak + 1, c); }
    }
  }

  /** A served page, given the claim for the rest of the loop. */
  lemma LaterAfterPage(candles: map<int, Bar>, tf: int, cap: nat, end: int, batch: nat, since: int, streak: nat,
                       next: int, c: int)
    requires Listing(candles, tf) && since < end <= c && c in candles && streak < MAX_EMPTY && batch < cap
    requires PageRows(candles, tf, since) != [] && next == LastTime(PageRows(candles, tf, since)) + tf
    requires next < end ==>
        (Collected(candles, tf, cap, end, batch + 1, next, 0, c) <==> OnLastPage(candles, tf, end, next, 0, c))
    ensures Collected(candles, tf, cap, end, batch, since, streak, c)
       <==> OnLastPage(candles, tf, end, since, streak, c)
  {
    TurnOnPage(candles, tf, cap, end, batch, since, streak, c);
    PageHolds(candles, tf, since, c);
    PageEnds(candles, tf, since);
    if next >= end { NothingFromEndOn(candles, tf, cap, end, batch + 1, next, 0, c); }
  }

  /** A candle from `end` on is collected exactly when the last page holds it. */
  lemma {:induction false} LaterCollectedIff(candles: map<int, Bar>, tf: int, cap: nat, end: int,
                                             batch: nat, since: int, streak: nat, c: int)
    requires Listing(candles, tf) && since < end <= c && c in candles && streak < MAX_EMPTY
    requires cap - batch >= end - since
    ensures Collected(candles, tf, cap, end, batch, since, streak, c)
       <==> OnLastPage(candles, tf, end, since, streak, c)
    decreases end - since
  {
    if PageRows(candles, tf, since) == [] {
      var next := since + tf * SKIP_SLOTS;
      if streak + 1 < MAX_EMPTY && next < end {
        LaterCollectedIff(candles, tf, cap, end, batch + 1, next, streak + 1, c);
      }
      LaterAfterEmpty(candles, tf, cap, end, batch, since, streak, next, c);
    } else {
      NothingBehindLast(candles, tf, since);
      var next := LastTime(PageRows(candles, tf, since)) + tf;
      if next < end {
        LaterCollectedIff(candles, tf, cap, end, batch + 1, next, 0, c);
      }
      LaterAfterPage(candles, tf, cap, end, batch, since, streak, next, c);
    }
  }

  /** The listed candles of a window. */
  function Slice(candles: map<int, Bar>, from: int, to: int): map<int, Bar> {
    map t | t in candles && from <= t < to :: candles[t]
  }

  /** The end of the window or of the last page, whichever is later. */
  ghost function Horizon(candles: map<int, Bar>, tf: int, since: int, end: int): (h: int)
    requires Listing(candles, tf)
    ensures h >= end
  {
    if since >= end then end else Max(end, LastStart(candles, tf, end, since, 0) + tf * BATCH_LIMIT)
  }

  lemma FetchedFromEnd(candles: map<int, Bar>, tf: int, since: int, end: int, c: int)
    requires Listing(candles, tf) && BatchesNeeded(candles, tf, since, end) <= MAX_BATCHES
    requires c in candles && end <= c && since <= c
    ensures c in ByTime(FetchAll(candles, tf, since, end).rows) <==> c < Horizon(candles, tf, since, end)
  {
    FetchedIsListed(candles, tf, since, end, c);
    FetchIsUncapped(candles, tf, since, end);
    if since < end {
      LaterCollectedIff(candles, tf, Ample(since, end), end, 0, since, 0, c);
    }
  }

  /** Without an isolated candle in the window, what is fetched is one stretch of the listing: all of
      the window, and what the last page holds beyond it. */
  lemma FetchedIsSlice(candles: map<int, Bar>, tf: int, since: int, end: int)
    requires Listing(candles, tf) && BatchesNeeded(candles, tf, since, end) <= MAX_BATCHES
    requires forall c :: c in candles && since <= c < end ==> !Isolated(candles, tf, since, c)
    ensures ByTime(FetchAll(candles, tf, since, end).rows) == Slice(candles, since, Horizon(candles, tf, since, end))
  {
    var m, h := ByTime(FetchAll(candles, tf, since, end).rows), Horizon(candles, tf, since, end);
    forall t ensures t in m <==> t in candles && since <= t < h {
      FetchedIsListed(candles, tf, since, end, t);
      if t in candles && since <= t {
        if t < end {
          FetchReaches(candles, tf, since, end, t);
        } else {
          FetchedFromEnd(candles, tf, since, end, t);
        }
      }
    }
    forall t | t in m ensures m[t] == candles[t] {
      FetchedIsListed(candles, tf, since, end, t);
    }
  }

  // ---------------------------------------------------------------- when nothing is fetched

  /** How far the loop looks when it finds nothing: up to six pages, each 64 slots on, while before `end`. */
  function LookEnd(tf: int, end: int, since: int, streak: nat): int
    requires tf >= 1 && streak < MAX_EMPTY
    decreases MAX_EMPTY - streak
  {
    if since >= end then since
    else if streak + 1 == MAX_EMPTY then since + tf * BATCH_LIMIT
    else Max(since + tf * BATCH_LIMIT, LookEnd(tf, end, since + tf * SKIP_SLOTS, streak + 1))
  }

  ghost predicate NothingCollected(candles: map<int, Bar>, tf: int, cap: nat, end: int, batch: nat, since: int,
                                   streak: nat)
    requires tf >= 1
  {
    Collect(Serving(candles, tf), (b: nat) => false, cap, end, tf, batch, since, streak).rows == []
  }

  lemma NothingOnTurn(candles: map<int, Bar>, tf: int, cap: nat, end: int, batch: nat, since: int, streak: nat)
    requires Listing(candles, tf) && batch < cap && since < end && streak < MAX_EMPTY
    ensures NothingCollected(candles, tf, cap, end, batch, since, streak)
       <==> PageRows(candles, tf, since) == []
            && (streak + 1 < MAX_EMPTY ==>
                  NothingCollected(candles, tf, cap, end, batch + 1, since + tf * SKIP_SLOTS, streak + 1))
  {
    AnsweredAtOnce(candles, tf, batch, since);
  }

  lemma PageIsEmptyIff(candles: map<int, Bar>, tf: int, since: int)
    requires Listing(candles, tf)
    ensures PageRows(candles, tf, since) == [] <==> NoneIn(candles, since, since + tf * BATCH_LIMIT)
  {
    if PageRows(candles, tf, since) == [] {
      NothingOnPage(candles, tf, since);
    } else {
      NothingBehindLast(candles, tf, since);
      PageEnds(candles, tf, since);
    }
  }

  lemma NoneInOverlap(candles: map<int, Bar>, a: int, b: int, c: int, d: int)
    requires a <= c <= b
    ensures NoneIn(candles, a, Max(b, d)) <==> NoneIn(candles, a, b) && NoneIn(candles, c, d)
  {
  }

  lemma LookFurther(candles: map<int, Bar>, tf: int, end: int, since: int, streak: nat)
    requires tf >= 1 && streak < MAX_EMPTY && since < end
    ensures var next := since + tf * SKIP_SLOTS;
      NoneIn(candles, since, LookEnd(tf, end, since, streak))
      <==> NoneIn(candles, since, since + tf * BATCH_LIMIT)
           && (streak + 1 < MAX_EMPTY ==> NoneIn(candles, next, LookEnd(tf, end, next, streak + 1)))
  {
    var next := since + tf * SKIP_SLOTS;
    if streak + 1 < MAX_EMPTY {
      NoneInOverlap(candles, since, since + tf * BATCH_LIMIT, next, LookEnd(tf, end, next, streak + 1));
    }
  }

  lemma NothingNext(candles: map<int, Bar>, tf: int, cap: nat, end: int, batch: nat, since: int, streak: nat)
    requires Listing(candles, tf) && batch < cap && since < end && streak < MAX_EMPTY
    requires var next := since + tf * SKIP_SLOTS;
      streak + 1 < MAX_EMPTY ==>
        (NothingCollected(candles, tf, cap, end, batch + 1, next, streak + 1)
         <==> NoneIn(candles, next, LookEnd(tf, end, next, streak + 1)))
    ensures NothingCollected(candles, tf, cap, end, batch, since, streak)
       <==> NoneIn(candles, since, LookEnd(tf, end, since, streak))
  {
    NothingOnTurn(candles, tf, cap, end, batch, since, streak);
    PageIsEmptyIff(candles, tf, since);
    LookFurther(candles, tf, end, since, streak);
  }

  lemma {:induction false} NothingCollectedIff(candles: map<int, Bar>, tf: int, cap: nat, end: int,
                                               batch: nat, since: int, streak: nat)
    requires Listing(candles, tf) && streak < MAX_EMPTY && batch + MAX_EMPTY - streak <= cap
    ensures NothingCollected(candles, tf, cap, end, batch, since, streak)
       <==> NoneIn(candles, since, LookEnd(tf, end, since, streak))
    decreases MAX_EMPTY - streak
  {
    if since < end {
      if streak + 1 < MAX_EMPTY {
        NothingCollectedIff(candles, tf, cap, end, batch + 1, since + tf * SKIP_SLOTS, streak + 1);
      }
      NothingNext(candles, tf, cap, end, batch, since, streak);
    }
  }

  /** The fetch resorts to its fallback exactly when nothing is listed where it looks. */
  lemma FallbackIff(candles: map<int, Bar>, tf: int, since: int, end: int)
    requires Listing(candles, tf)
    ensures var m := ByTime(FetchAll(candles, tf, since, end).rows);
      Conclude(FetchAll(candles, tf, since, end))
      == if NoneIn(candles, since, LookEnd(tf, end, since, 0)) then Fallback else Candles(CandlesOf(m))
  {
    var rows := FetchAll(candles, tf, since, end).rows;
    NothingCollectedIff(candles, tf, MAX_BATCHES, end, 0, since, 0);
    ServingNeverFails(candles, tf, MAX_BATCHES, end, 0, since, 0);
    AscendingIsSorted(ByTime(rows).Keys);
    if rows != [] {
      var r := rows[0];
      FetchedIsListed(candles, tf, since, end, r.bar.time);
      assert Has(rows, r.bar.time);
      assert r.bar.time in Ascending(ByTime(rows).Keys);
    }
  }
}
