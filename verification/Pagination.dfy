/**
 The paginated candle fetch of the crypto data source: pages are requested from a moving start, an
 empty page skips ahead, and everything collected is returned once per timestamp, in time order.
 The exchange is an oracle that may answer each request with any page or an error.
 */
module Pagination {
  import opened Common
  import opened Bars
  import opened SortedKeys

  const BATCH_LIMIT := 300
  const SKIP_SLOTS := 64
  const MAX_BATCHES := 6000
  const MAX_EMPTY := 6
  const RETRIES := 2

  /** An exchange row; only its first `width` cells are present. */
  datatype Row = Row(width: nat, bar: Bar)

  datatype Reply = Page(rows: seq<Row>) | Raised(unknownSymbol: bool)

  /** The answer to a request, by batch number, attempt and requested start. */
  type Exchange = (nat, nat, int) -> Reply

  /** What the loop has collected, and the error that ended it, if any (with: was it an unknown symbol). */
  datatype Fetched = Fetched(rows: seq<Row>, failure: Option<bool>)

  function Request(exchange: Exchange, batch: nat, attempt: nat, since: int): Reply
    requires attempt <= RETRIES
    decreases RETRIES - attempt
  {
    var reply := exchange(batch, attempt, since);
    if reply.Raised? && attempt < RETRIES then Request(exchange, batch, attempt + 1, since) else reply
  }

  method RequestWithRetries(exchange: Exchange, batch: nat, since: int) returns (reply: Reply)
    ensures reply == Request(exchange, batch, 0, since)
  {
    var attempt: nat := 0;
    reply := exchange(batch, attempt, since);
    while reply.Raised? && attempt < RETRIES
      invariant attempt <= RETRIES && reply == exchange(batch, attempt, since)
      invariant Request(exchange, batch, attempt, since) == Request(exchange, batch, 0, since)
      decreases RETRIES - attempt
    {
      attempt := attempt + 1;
      reply := exchange(batch, attempt, since);
    }
  }

  function Prepend(rows: seq<Row>, f: Fetched): Fetched {
    Fetched(rows + f.rows, f.failure)
  }

  function LastTime(rows: seq<Row>): int
    requires rows != []
  {
    rows[|rows| - 1].bar.time
  }

  /** How one batch leaves the loop: ended, or going on from another start. */
  datatype Turn = Stop(rows: seq<Row>, failure: Option<bool>) | Continue(rows: seq<Row>, since: int, streak: nat)

  function AfterReply(reply: Reply, end: int, tf: int, since: int, streak: nat): (turn: Turn)
    requires tf >= 1
    ensures turn.Continue? ==> turn.since > since
  {
    match reply
    case Raised(unknown) => Stop([], Some(unknown))
    case Page(rows) =>
      if rows == [] then
        if streak + 1 >= MAX_EMPTY then Stop([], None) else Continue([], since + tf * SKIP_SLOTS, streak + 1)
      else if rows[|rows| - 1].width == 0 then Stop(rows, Some(false))
      else if LastTime(rows) >= end || LastTime(rows) + tf <= since then Stop(rows, None)
      else Continue(rows, LastTime(rows) + tf, 0)
  }

  method TakeTurn(exchange: Exchange, end: int, tf: int, batch: nat, since: int, streak: nat) returns (turn: Turn)
    requires tf >= 1
    ensures turn == AfterReply(Request(exchange, batch, 0, since), end, tf, since, streak)
  {
    var reply := RequestWithRetries(exchange, batch, since);
    if reply.Raised? {
      return Stop([], Some(reply.unknownSymbol));
    }
    var rows := reply.rows;
    if rows == [] {
      if streak + 1 >= MAX_EMPTY {
        return Stop([], None);
      }
      return Continue([], since + tf * Min(BATCH_LIMIT, SKIP_SLOTS), streak + 1);
    }
    if rows[|rows| - 1].width == 0 {
      return Stop(rows, Some(false));
    }
    var last := LastTime(rows);
    if last >= end {
      return Stop(rows, None);
    }
    var next := last + tf;
    if next <= since {
      return Stop(rows, None);
    }
    return Continue(rows, next, 0);
  }

  /** The loop from some batch on. `late` says before which batches the time budget is found spent. */
  function Collect(exchange: Exchange, late: nat -> bool, cap: nat, end: int, tf: int, batch: nat, since: int,
                   streak: nat): Fetched
    requires tf >= 1
    decreases cap - batch
  {
    if batch >= cap || since >= end || late(batch) then Fetched([], None)
    else
      match AfterReply(Request(exchange, batch, 0, since), end, tf, since, streak)
      case Stop(rows, failure) => Fetched(rows, failure)
      case Continue(rows, next, streak') =>
          Prepend(rows, Collect(exchange, late, cap, end, tf, batch + 1, next, streak'))
  }

  lemma OneTurn(all: seq<Row>, exchange: Exchange, late: nat -> bool, cap: nat, end: int, tf: int, batch: nat,
                since: int, streak: nat)
    requires tf >= 1
    ensures Prepend(all, Collect(exchange, late, cap, end, tf, batch, since, streak))
         == if batch >= cap || since >= end || late(batch) then Fetched(all, None)
            else
              match AfterReply(Request(exchange, batch, 0, since), end, tf, since, streak)
              case Stop(rows, failure) => Fetched(all + rows, failure)
              case Continue(rows, next, streak') =>
                Prepend(all + rows, Collect(exchange, late, cap, end, tf, batch + 1, next, streak'))
  {
    assert all + [] == all;
    if batch < cap && since < end && !late(batch) {
      var turn := AfterReply(Request(exchange, batch, 0, since), end, tf, since, streak);
      if turn.Continue? {
        var rest := Collect(exchange, late, cap, end, tf, batch + 1, turn.since, turn.streak);
        assert all + (turn.rows + rest.rows) == (all + turn.rows) + rest.rows;
      }
    }
  }

  /** The loop. It ends because the start moves towards `end`, not because batches are capped. */
  method Paginate(exchange: Exchange, late: nat -> bool, end: int, tf: int, start: int)
    returns (all: seq<Row>, failure: Option<bool>)
    requires tf >= 1
    ensures Fetched(all, failure) == Collect(exchange, late, MAX_BATCHES, end, tf, 0, start, 0)
  {
    all, failure := [], None;
    var since, streak: nat, batch: nat := start, 0, 0;
    while batch < MAX_BATCHES
      invariant failure == None
      invariant Prepend(all, Collect(exchange, late, MAX_BATCHES, end, tf, batch, since, streak))
             == Collect(exchange, late, MAX_BATCHES, end, tf, 0, start, 0)
      decreases end - since
    {
      OneTurn(all, exchange, late, MAX_BATCHES, end, tf, batch, since, streak);
      if since >= end || late(batch) {
        return;
      }
      var turn := TakeTurn(exchange, end, tf, batch, since, streak);
      all := all + turn.rows;
      if turn.Stop? {
        failure := turn.failure;
        return;
      }
      since, streak, batch := turn.since, turn.streak, batch + 1;
    }
    OneTurn(all, exchange, late, MAX_BATCHES, end, tf, batch, since, streak);
  }

  // ---------------------------------------------------------------- one candle per timestamp

  /** Complete rows by timestamp; a later row replaces an earlier one. */
  function ByTime(rows: seq<Row>): map<int, Bar> {
    if rows == [] then map[]
    else
      var r := rows[|rows| - 1];
      if r.width >= 6 then ByTime(rows[..|rows| - 1])[r.bar.time := r.bar] else ByTime(rows[..|rows| - 1])
  }

  predicate Keyed(m: map<int, Bar>) {
    forall t :: t in m ==> m[t].time == t
  }

  function BarsAt(m: map<int, Bar>, times: seq<int>): (bars: seq<Bar>)
    requires forall i :: 0 <= i < |times| ==> times[i] in m
    ensures |bars| == |times| && forall i :: 0 <= i < |bars| ==> bars[i] == m[times[i]]
  {
    seq(|times|, i requires 0 <= i < |times| => m[times[i]])
  }

  function CandlesOf(m: map<int, Bar>): seq<Bar> {
    AscendingIsSorted(m.Keys);
    BarsAt(m, Ascending(m.Keys))
  }

  datatype Outcome = Candles(bars: seq<Bar>) | Fallback

  /** What the fetch returns for what the loop collected. */
  function Conclude(f: Fetched): Outcome {
    var bars := CandlesOf(ByTime(f.rows));
    match f.failure
    case None => if bars == [] then Fallback else Candles(bars)
    case Some(unknown) => if unknown then Candles([]) else if f.rows == [] then Fallback else Candles(bars)
  }

  method FetchOhlcv(exchange: Exchange, late: nat -> bool, since: int, end: int, tf: int) returns (out: Outcome)
    requires tf >= 1
    ensures out == Conclude(Collect(exchange, late, MAX_BATCHES, end, tf, 0, since, 0))
  {
    var all, failure := Paginate(exchange, late, end, tf, since);
    if failure == Some(true) {
      return Candles([]);
    }
    var bars := CandlesOf(ByTime(all));
    if failure.Some? {
      return if all == [] then Fallback else Candles(bars);
    }
    return if bars == [] then Fallback else Candles(bars);
  }

  lemma {:induction false} ByTimeHolds(rows: seq<Row>, t: int)
    ensures Keyed(ByTime(rows))
    ensures t in ByTime(rows) <==> exists i :: 0 <= i < |rows| && rows[i].width >= 6 && rows[i].bar.time == t
    ensures t in ByTime(rows) ==> exists i :: 0 <= i < |rows| && rows[i].width >= 6 && rows[i].bar == ByTime(rows)[t]
  {
    if rows != [] {
      var n := |rows| - 1;
      var front := rows[..n];
      ByTimeHolds(front, t);
      if t in ByTime(front) {
        var i :| 0 <= i < |front| && front[i].width >= 6 && front[i].bar == ByTime(front)[t];
        assert rows[i] == front[i] && rows[i].bar.time == t;
      }
    }
  }

  lemma AscendingCandles(m: map<int, Bar>)
    requires Keyed(m)
    ensures StrictlyAscending(CandlesOf(m))
    ensures forall k :: k in CandlesOf(m) <==> k.time in m && m[k.time] == k
  {
    var times := Ascending(m.Keys);
    AscendingIsSorted(m.Keys);
    forall k ensures k in CandlesOf(m) <==> k.time in m && m[k.time] == k {
      if k.time in m && m[k.time] == k {
        assert k.time in times;
        var i :| 0 <= i < |times| && times[i] == k.time;
        assert CandlesOf(m)[i] == k;
      }
    }
  }

  /** Whatever the exchange answers, the candles returned are strictly ascending and so unique by
      time, and each is a complete row the loop collected. */
  lemma OutcomeIsAscending(f: Fetched, k: Bar)
    requires Conclude(f).Candles?
    ensures StrictlyAscending(Conclude(f).bars)
    ensures k in Conclude(f).bars ==> exists i :: 0 <= i < |f.rows| && f.rows[i].width >= 6 && f.rows[i].bar == k
  {
    ByTimeHolds(f.rows, k.time);
    AscendingCandles(ByTime(f.rows));
  }

  /** Every collected row is from a page the exchange served. */
  lemma {:induction false} RowsAreServed(exchange: Exchange, late: nat -> bool, cap: nat, end: int, tf: int,
                                         batch: nat, since: int, streak: nat, r: Row)
    requires tf >= 1
    requires r in Collect(exchange, late, cap, end, tf, batch, since, streak).rows
    ensures exists b: nat, s: int :: since <= s < end && Serves(exchange, b, s, r)
    decreases cap - batch
  {
    var turn := AfterReply(Request(exchange, batch, 0, since), end, tf, since, streak);
    if r in turn.rows {
      assert Serves(exchange, batch, since, r);
    } else {
      RowsAreServed(exchange, late, cap, end, tf, batch + 1, turn.since, turn.streak, r);
    }
  }

  predicate Serves(exchange: Exchange, batch: nat, since: int, r: Row) {
    Request(exchange, batch, 0, since).Page? && r in Request(exchange, batch, 0, since).rows
  }

  /** For any exchange: once `end - since` batches are allowed, allowing more changes nothing. */
  lemma {:induction false} CapBoundsNothing(exchange: Exchange, late: nat -> bool, cap: nat, cap': nat, end: int,
                                            tf: int, batch: nat, since: int, streak: nat)
    requires tf >= 1 && cap <= cap' && batch <= cap && cap - batch >= end - since
    ensures Collect(exchange, late, cap, end, tf, batch, since, streak)
         == Collect(exchange, late, cap', end, tf, batch, since, streak)
    decreases cap - batch
  {
    if since < end && !late(batch) {
      var turn := AfterReply(Request(exchange, batch, 0, since), end, tf, since, streak);
      if turn.Continue? {
        CapBoundsNothing(exchange, late, cap, cap', end, tf, batch + 1, turn.since, turn.streak);
      }
    }
  }

  /** How many batches the loop requests. */
  function Turns(exchange: Exchange, late: nat -> bool, cap: nat, end: int, tf: int,
                 batch: nat, since: int, streak: nat): nat
    requires tf >= 1
    decreases cap - batch
  {
    if batch >= cap || since >= end || late(batch) then 0
    else
      match AfterReply(Request(exchange, batch, 0, since), end, tf, since, streak)
      case Stop(_, _) => 1
      case Continue(_, next, streak') => 1 + Turns(exchange, late, cap, end, tf, batch + 1, next, streak')
  }

  /** A cap that the loop does not use up changes nothing. */
  lemma {:induction false} UnusedCap(exchange: Exchange, late: nat -> bool, cap: nat, ample: nat, end: int, tf: int,
                                     batch: nat, since: int, streak: nat)
    requires tf >= 1 && cap <= ample
    requires batch + Turns(exchange, late, ample, end, tf, batch, since, streak) <= cap
    ensures Collect(exchange, late, cap, end, tf, batch, since, streak)
         == Collect(exchange, late, ample, end, tf, batch, since, streak)
    decreases ample - batch
  {
    if batch < ample && since < end && !late(batch) {
      var turn := AfterReply(Request(exchange, batch, 0, since), end, tf, since, streak);
      if turn.Continue? {
        UnusedCap(exchange, late, cap, ample, end, tf, batch + 1, turn.since, turn.streak);
      }
    }
  }
}
