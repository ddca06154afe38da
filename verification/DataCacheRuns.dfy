/** What any sequence of calls does to the cache of DataCache. */
module DataCacheRuns {
  import opened Common
  import opened DataCache

  datatype Call<V> = Call(op: Op<V>, now: real)

  function Run<V>(cfg: Config, s: State<V>, calls: seq<Call<V>>): State<V> {
    if calls == [] then s
    else Apply(cfg, Run(cfg, s, calls[..|calls| - 1]), calls[|calls| - 1].op, calls[|calls| - 1].now)
  }

  // ---------------------------------------------------------------- removing and adding

  lemma PositionIs<V>(items: seq<Entry<V>>, key: string, p: nat)
    requires Distinct(items) && p < |items| && items[p].key == key
    ensures Position(items, key) == p
  {
  }

  lemma PositionAbsent<V>(items: seq<Entry<V>>, key: string)
    requires Position(items, key) == |items|
    ensures forall e :: e in items ==> e.key != key
  {
  }

  lemma RemoveDistinct<V>(items: seq<Entry<V>>, i: nat)
    requires Distinct(items) && i < |items|
    ensures Distinct(RemoveAt(items, i))
    ensures forall e :: e in RemoveAt(items, i) ==> e in items && e.key != items[i].key
  {
    var rest := RemoveAt(items, i);
    assert forall j :: 0 <= j < |rest| ==> rest[j] == items[if j < i then j else j + 1];
  }

  lemma RemoveKeeps<V>(items: seq<Entry<V>>, i: nat, p: nat)
    requires Distinct(items) && i < |items| && p < |items| && p != i
    ensures Distinct(RemoveAt(items, i))
    ensures var q := if i < p then p - 1 else p;
      RemoveAt(items, i)[q] == items[p] && Position(RemoveAt(items, i), items[p].key) == q
  {
    RemoveDistinct(items, i);
    PositionIs(RemoveAt(items, i), items[p].key, if i < p then p - 1 else p);
  }

  lemma AppendKeeps<V>(items: seq<Entry<V>>, e: Entry<V>, key: string)
    requires Distinct(items) && forall d :: d in items ==> d.key != e.key
    ensures Distinct(items + [e]) && Position(items + [e], e.key) == |items|
    ensures Position(items, key) < |items| ==> Position(items + [e], key) == Position(items, key)
  {
    PositionIs(items + [e], e.key, |items|);
    if Position(items, key) < |items| {
      PositionIs(items + [e], key, Position(items, key));
    }
  }

  lemma DropKeeps<V>(items: seq<Entry<V>>, n: nat, key: string)
    requires Distinct(items) && n <= |items|
    ensures Distinct(items[n..])
    ensures var p := Position(items, key);
      n <= p < |items| ==> Position(items[n..], key) == p - n
  {
    var p := Position(items, key);
    if n <= p < |items| {
      PositionIs(items[n..], key, p - n);
    }
  }

  lemma ReplaceKeeps<V>(items: seq<Entry<V>>, p: nat, e: Entry<V>, key: string)
    requires Distinct(items) && p < |items| && items[p].key == e.key
    ensures Distinct(items[p := e])
        && (Position(items, key) < |items| ==> Position(items[p := e], key) == Position(items, key))
  {
    if Position(items, key) < |items| {
      PositionIs(items[p := e], key, Position(items, key));
    }
  }

  lemma {:induction false} UnexpiredDistinct<V>(items: seq<Entry<V>>, clock: nat -> real)
    requires Distinct(items)
    ensures Distinct(Unexpired(items, clock)) && |Unexpired(items, clock)| <= |items|
    ensures forall e :: e in Unexpired(items, clock) ==> e in items
  {
    if items != [] {
      var front, e := items[..|items| - 1], items[|items| - 1];
      assert items == front + [e];
      UnexpiredDistinct(front, clock);
      forall d | d in front ensures d.key != e.key {
        var i :| 0 <= i < |front| && front[i] == d;
        assert items[i] == d;
      }
    }
  }

  /** A living entry is kept, with at least as much room before it as is freed behind it. */
  lemma {:induction false} UnexpiredKeeps<V>(items: seq<Entry<V>>, clock: nat -> real, p: nat) returns (q: nat)
    requires p < |items| && !Expired(items[p], clock(p))
    ensures |Unexpired(items, clock)| <= |items|
    ensures q < |Unexpired(items, clock)| && Unexpired(items, clock)[q] == items[p]
    ensures q - |Unexpired(items, clock)| >= p - |items|
  {
    var front := items[..|items| - 1];
    if p == |items| - 1 {
      UnexpiredShorter(front, clock);
      q := |Unexpired(front, clock)|;
    } else {
      q := UnexpiredKeeps(front, clock, p);
    }
  }

  lemma {:induction false} UnexpiredShorter<V>(items: seq<Entry<V>>, clock: nat -> real)
    ensures |Unexpired(items, clock)| <= |items|
  {
    if items != [] {
      UnexpiredShorter(items[..|items| - 1], clock);
    }
  }

  // ---------------------------------------------------------------- size and counters

  predicate Sound<V>(cfg: Config, s: State<V>) {
    Distinct(s.items) && (if cfg.maxSize <= 0 then s.items == [] else |s.items| <= cfg.maxSize)
  }

  lemma PutKeeps<V>(items: seq<Entry<V>>, e: Entry<V>)
    requires Distinct(items)
    ensures Distinct(Put(items, e)) && |items| <= |Put(items, e)| <= |items| + 1
  {
    if Position(items, e.key) < |items| {
      ReplaceKeeps(items, Position(items, e.key), e, e.key);
    } else {
      PositionAbsent(items, e.key);
      AppendKeeps(items, e, e.key);
    }
  }

  lemma ApplyKeepsSound<V>(cfg: Config, s: State<V>, op: Op<V>, now: real)
    requires Sound(cfg, s)
    ensures Sound(cfg, Apply(cfg, s, op, now))
  {
    match op
    case Get(key) =>
      var p := Position(s.items, key);
      if p < |s.items| {
        RemoveDistinct(s.items, p);
        AppendKeeps(RemoveAt(s.items, p), s.items[p].(hitCount := s.items[p].hitCount + 1), key);
      }
    case Set(key, data, ttl) =>
      if cfg.maxSize >= 1 {
        var evicted := Evicted(s.items, cfg.maxSize);
        DropKeeps(s.items, |s.items| - |evicted|, key);
        PutKeeps(evicted, NewEntry(cfg, key, data, ttl, now));
      }
    case Delete(key) =>
      var p := Position(s.items, key);
      if p < |s.items| {
        RemoveDistinct(s.items, p);
      }
    case Clear =>
    case Cleanup(_) => UnexpiredDistinct(s.items, op.clock);
  }

  function Gets<V>(calls: seq<Call<V>>): nat {
    if calls == [] then 0 else Gets(calls[..|calls| - 1]) + if calls[|calls| - 1].op.Get? then 1 else 0
  }

  /** Every run keeps the size limit and distinct keys, and counts each get as one hit or one miss. */
  lemma {:induction false} RunIsSound<V>(cfg: Config, s: State<V>, calls: seq<Call<V>>)
    requires Sound(cfg, s)
    ensures Sound(cfg, Run(cfg, s, calls))
    ensures Run(cfg, s, calls).hits + Run(cfg, s, calls).misses == s.hits + s.misses + Gets(calls)
  {
    if calls != [] {
      var front, last := calls[..|calls| - 1], calls[|calls| - 1];
      RunIsSound(cfg, s, front);
      ApplyKeepsSound(cfg, Run(cfg, s, front), last.op, last.now);
    }
  }

  // ---------------------------------------------------------------- a plain map of the last values

  /** The last value set for a key and not deleted or cleared since. */
  function Latest<V>(cfg: Config, calls: seq<Call<V>>, key: string): Option<Entry<V>> {
    if calls == [] then None
    else
      var last := calls[|calls| - 1];
      match last.op
      case Set(k, data, ttl) =>
        if k == key then Some(NewEntry(cfg, key, data, ttl, last.now))
        else Latest(cfg, calls[..|calls| - 1], key)
      case Delete(k) => if k == key then None else Latest(cfg, calls[..|calls| - 1], key)
      case Clear => None
      case _ => Latest(cfg, calls[..|calls| - 1], key)
  }

  function Unhit<V>(e: Entry<V>): Entry<V> {
    e.(hitCount := 0)
  }

  /** Every entry after a call is the one just set, or was there before under a key the call does not
      set or drop. */
  lemma ApplyOrigin<V>(cfg: Config, s: State<V>, op: Op<V>, now: real, e: Entry<V>)
    requires Sound(cfg, s) && e in Apply(cfg, s, op, now).items
    ensures (op.Set? && e == NewEntry(cfg, op.key, op.data, op.ttl, now))
         || ((exists d :: d in s.items && Unhit(d) == Unhit(e)) && !(op.Set? && op.key == e.key)
             && !(op.Delete? && op.key == e.key) && !op.Clear?)
  {
    match op
    case Get(key) =>
      var p := Position(s.items, key);
      if p < |s.items| && e == s.items[p].(hitCount := s.items[p].hitCount + 1) {
        assert s.items[p] in s.items && Unhit(s.items[p]) == Unhit(e);
      } else {
        assert e in s.items;
      }
    case Set(key, data, ttl) =>
      var evicted := Evicted(s.items, cfg.maxSize);
      DropKeeps(s.items, |s.items| - |evicted|, key);
      if e != NewEntry(cfg, key, data, ttl, now) {
        PutOrigin(evicted, NewEntry(cfg, key, data, ttl, now), e);
        assert e in s.items;
      }
    case Delete(key) =>
      var p := Position(s.items, key);
      if p < |s.items| {
        RemoveDistinct(s.items, p);
      }
      assert e in s.items;
    case Clear =>
    case Cleanup(_) =>
      UnexpiredDistinct(s.items, op.clock);
      assert e in s.items;
  }

  lemma PutOrigin<V>(items: seq<Entry<V>>, added: Entry<V>, e: Entry<V>)
    requires Distinct(items) && e in Put(items, added) && e != added
    ensures e in items && e.key != added.key
  {
    PutKeeps(items, added);
  }

  /** The cache holds nothing but the last values, whatever was hit, evicted or expired. */
  lemma {:induction false} HeldIsLatest<V>(cfg: Config, calls: seq<Call<V>>, e: Entry<V>)
    requires e in Run(cfg, State([], 0, 0), calls).items
    ensures Latest(cfg, calls, e.key) == Some(Unhit(e))
  {
    if calls != [] {
      var front, last := calls[..|calls| - 1], calls[|calls| - 1];
      var s := Run(cfg, State([], 0, 0), front);
      RunIsSound(cfg, State([], 0, 0), front);
      ApplyOrigin(cfg, s, last.op, last.now, e);
      if !(last.op.Set? && e == NewEntry(cfg, last.op.key, last.op.data, last.op.ttl, last.now)) {
        var d :| d in s.items && Unhit(d) == Unhit(e);
        assert d.key == Unhit(d).key == e.key;
        HeldIsLatest(cfg, front, d);
      }
    }
  }

  /** A hit returns the last value set for the key and not deleted or cleared, within its time to live. */
  lemma HitIsLatest<V>(cfg: Config, calls: seq<Call<V>>, key: string, now: real)
    ensures var got := Lookup(Run(cfg, State([], 0, 0), calls), key, now);
      got.Some? ==>
        Latest(cfg, calls, key).Some? && Latest(cfg, calls, key).value.data == got.value
            && !Expired(Latest(cfg, calls, key).value, now)
  {
    var s := Run(cfg, State([], 0, 0), calls);
    var p := Position(s.items, key);
    if p < |s.items| {
      HeldIsLatest(cfg, calls, s.items[p]);
    }
  }

  /** The i-th call sets the key, and no later one sets or drops it. */
  ghost predicate LastSet<V>(calls: seq<Call<V>>, key: string, i: nat) {
    && i < |calls| && calls[i].op.Set? && calls[i].op.key == key
    && forall j :: i < j < |calls| ==>
         !calls[j].op.Clear? && ((calls[j].op.Set? || calls[j].op.Delete?) ==> calls[j].op.key != key)
  }

  function TimeToLive<V>(cfg: Config, op: Op<V>): real
    requires op.Set?
  {
    match op.ttl case Some(ttl) => ttl case None => cfg.defaultTtl
  }

  lemma {:induction false} LatestIsLastSet<V>(cfg: Config, calls: seq<Call<V>>, key: string) returns (i: nat)
    requires Latest(cfg, calls, key).Some?
    ensures LastSet(calls, key, i)
    ensures var e := Latest(cfg, calls, key).value;
      e.data == calls[i].op.data && e.stamp == calls[i].now && e.ttl == TimeToLive(cfg, calls[i].op)
  {
    var front, last := calls[..|calls| - 1], calls[|calls| - 1];
    if last.op.Set? && last.op.key == key {
      i := |calls| - 1;
    } else {
      i := LatestIsLastSet(cfg, front, key);
    }
  }

  /** A hit returns what the last set of the key gave, no longer after it than the time to live given with it,
      or the default when none was; no delete of the key and no clear came since. */
  lemma HitIsTheLastSet<V>(cfg: Config, calls: seq<Call<V>>, key: string, now: real) returns (i: nat)
    requires Lookup(Run(cfg, State([], 0, 0), calls), key, now).Some?
    ensures LastSet(calls, key, i)
    ensures Lookup(Run(cfg, State([], 0, 0), calls), key, now) == Some(calls[i].op.data)
    ensures now <= calls[i].now + TimeToLive(cfg, calls[i].op)
  {
    HitIsLatest(cfg, calls, key, now);
    i := LatestIsLastSet(cfg, calls, key);
  }

  // ---------------------------------------------------------------- who can be evicted

  /** The entry of `key` lives until `limit` and has `slack` to spare: its place plus the free room. */
  predicate Safe<V>(cfg: Config, items: seq<Entry<V>>, key: string, limit: real, slack: int) {
    var p := Position(items, key);
    p < |items| && limit <= items[p].stamp + items[p].ttl && slack <= p + cfg.maxSize - |items|
  }

  function Cost<V>(op: Op<V>): nat {
    if op.Get? || op.Set? then 1 else 0
  }

  ghost predicate NeverPast(clock: nat -> real, limit: real) {
    forall i: nat :: clock(i) <= limit
  }

  /** Calls that do not drop the key, do not let it expire and are made by `limit`. */
  ghost predicate Spares<V>(cfg: Config, c: Call<V>, key: string, limit: real) {
    && c.now <= limit && !(c.op.Delete? && c.op.key == key) && !c.op.Clear?
    && (c.op.Cleanup? ==> NeverPast(c.op.clock, limit))
    && (c.op.Set? && c.op.key == key ==>
          limit <= c.now + NewEntry(cfg, key, c.op.data, c.op.ttl, c.now).ttl)
  }

  lemma AbsentByIndex<V>(items: seq<Entry<V>>, key: string)
    requires forall i :: 0 <= i < |items| ==> items[i].key != key
    ensures Position(items, key) == |items|
  {
  }

  /** Moving another entry to the end, or dropping it, takes at most one place from an entry. */
  lemma MovingOther<V>(items: seq<Entry<V>>, i: nat, p: nat, e: Entry<V>)
    requires Distinct(items) && i < |items| && p < |items| && p != i && e.key == items[i].key
    ensures var q := Position(RemoveAt(items, i), items[p].key);
      && p - 1 <= q < |items| - 1 && RemoveAt(items, i)[q] == items[p]
      && Position(RemoveAt(items, i) + [e], items[p].key) == q
  {
    RemoveDistinct(items, i);
    RemoveKeeps(items, i, p);
    AppendKeeps(RemoveAt(items, i), e, items[p].key);
  }

  lemma MovingItself<V>(items: seq<Entry<V>>, p: nat, e: Entry<V>)
    requires Distinct(items) && p < |items| && e.key == items[p].key
    ensures Position(RemoveAt(items, p) + [e], e.key) == |items| - 1
  {
    RemoveDistinct(items, p);
    AppendKeeps(RemoveAt(items, p), e, e.key);
  }

  lemma OwnGetKeepsSafe<V>(cfg: Config, s: State<V>, now: real, key: string, limit: real, slack: int)
    requires Sound(cfg, s) && cfg.maxSize >= 1 && Safe(cfg, s.items, key, limit, slack) && now <= limit
    ensures Safe(cfg, AfterGet(s, key, now).items, key, limit, slack - 1)
  {
    var p := Position(s.items, key);
    MovingItself(s.items, p, s.items[p].(hitCount := s.items[p].hitCount + 1));
  }

  lemma OtherGetKeepsSafe<V>(cfg: Config, items: seq<Entry<V>>, i: nat, e: Entry<V>, key: string, limit: real,
                             slack: int)
    requires Distinct(items) && Safe(cfg, items, key, limit, slack)
    requires i < |items| && items[i].key == e.key != key
    ensures Safe(cfg, RemoveAt(items, i), key, limit, slack)
        && Safe(cfg, RemoveAt(items, i) + [e], key, limit, slack - 1)
  {
    MovingOther(items, i, Position(items, key), e);
  }

  lemma GetKeepsSafe<V>(cfg: Config, s: State<V>, other: string, now: real, key: string, limit: real, slack: int)
    requires Sound(cfg, s) && cfg.maxSize >= 1 && Safe(cfg, s.items, key, limit, slack) && now <= limit
    ensures Safe(cfg, AfterGet(s, other, now).items, key, limit, slack - 1)
  {
    var i := Position(s.items, other);
    if i < |s.items| {
      if other == key {
        OwnGetKeepsSafe(cfg, s, now, key, limit, slack);
      } else {
        OtherGetKeepsSafe(cfg, s.items, i, s.items[i].(hitCount := s.items[i].hitCount + 1), key, limit, slack);
      }
    }
  }

  /** Evicting one entry leaves the slack of any other key as it is. */
  lemma EvictionKeepsSafe<V>(cfg: Config, items: seq<Entry<V>>, key: string, limit: real, slack: int)
    requires Distinct(items) && 1 <= cfg.maxSize && |items| <= cfg.maxSize
    requires Safe(cfg, items, key, limit, slack) && slack >= 1
    ensures Distinct(Evicted(items, cfg.maxSize)) && Safe(cfg, Evicted(items, cfg.maxSize), key, limit, slack)
  {
    if |items| == cfg.maxSize {
      DropKeeps(items, 1, key);
    }
  }

  lemma PutKeepsSafe<V>(cfg: Config, items: seq<Entry<V>>, e: Entry<V>, key: string, limit: real, slack: int)
    requires Distinct(items) && Safe(cfg, items, key, limit, slack)
    requires e.key == key ==> limit <= e.stamp + e.ttl
    ensures Safe(cfg, Put(items, e), key, limit, slack - 1)
  {
    var i := Position(items, e.key);
    if i < |items| {
      ReplaceKeeps(items, i, e, key);
    } else {
      PositionAbsent(items, e.key);
      AppendKeeps(items, e, key);
    }
  }

  lemma SetKeepsSafe<V>(cfg: Config, s: State<V>, e: Entry<V>, key: string, limit: real, slack: int)
    requires Sound(cfg, s) && cfg.maxSize >= 1 && Safe(cfg, s.items, key, limit, slack) && slack >= 1
    requires e.key == key ==> limit <= e.stamp + e.ttl
    ensures Safe(cfg, Put(Evicted(s.items, cfg.maxSize), e), key, limit, slack - 1)
  {
    EvictionKeepsSafe(cfg, s.items, key, limit, slack);
    PutKeepsSafe(cfg, Evicted(s.items, cfg.maxSize), e, key, limit, slack);
  }

  lemma DropOtherKeepsSafe<V>(cfg: Config, s: State<V>, op: Op<V>, now: real, key: string, limit: real, slack: int)
    requires Sound(cfg, s) && cfg.maxSize >= 1 && Safe(cfg, s.items, key, limit, slack)
    requires (op.Delete? && op.key != key) || (op.Cleanup? && NeverPast(op.clock, limit))
    ensures Safe(cfg, Apply(cfg, s, op, now).items, key, limit, slack)
  {
    var p := Position(s.items, key);
    if op.Cleanup? {
      UnexpiredDistinct(s.items, op.clock);
      var q := UnexpiredKeeps(s.items, op.clock, p);
      PositionIs(Unexpired(s.items, op.clock), key, q);
    } else {
      var i := Position(s.items, op.key);
      if i < |s.items| {
        RemoveKeeps(s.items, i, p);
      }
    }
  }

  function TotalCost<V>(calls: seq<Call<V>>): nat {
    if calls == [] then 0 else TotalCost(calls[..|calls| - 1]) + Cost(calls[|calls| - 1].op)
  }

  /** Each get or set takes at most one from the slack of any other key; nothing else takes any. */
  lemma {:induction false} RunKeepsSafe<V>(cfg: Config, s: State<V>, calls: seq<Call<V>>, key: string, limit: real,
                                           slack: int)
    requires Sound(cfg, s) && cfg.maxSize >= 1 && Safe(cfg, s.items, key, limit, slack)
    requires TotalCost(calls) <= slack && forall i :: 0 <= i < |calls| ==> Spares(cfg, calls[i], key, limit)
    ensures Sound(cfg, Run(cfg, s, calls)) && Safe(cfg, Run(cfg, s, calls).items, key, limit, slack - TotalCost(calls))
  {
    if calls != [] {
      var front, last := calls[..|calls| - 1], calls[|calls| - 1];
      RunKeepsSafe(cfg, s, front, key, limit, slack);
      var mid, left := Run(cfg, s, front), slack - TotalCost(front);
      ApplyKeepsSound(cfg, mid, last.op, last.now);
      assert Spares(cfg, last, key, limit);
      match last.op
      case Get(other) => GetKeepsSafe(cfg, mid, other, last.now, key, limit, left);
      case Set(other, data, ttl) =>
        SetKeepsSafe(cfg, mid, NewEntry(cfg, other, data, ttl, last.now), key, limit, left);
      case _ => DropOtherKeepsSafe(cfg, mid, last.op, last.now, key, limit, left);
    }
  }

  /** A hit, or a set that inserts its key, leaves the key with maxSize - 1 to spare. */
  lemma JustTouched<V>(cfg: Config, s: State<V>, op: Op<V>, now: real, limit: real)
    requires Sound(cfg, s) && cfg.maxSize >= 1 && (op.Get? || op.Set?)
    requires op.Get? ==>
      Lookup(s, op.key, now).Some?
      && limit <= s.items[Position(s.items, op.key)].stamp + s.items[Position(s.items, op.key)].ttl
    requires op.Set? ==> Position(Evicted(s.items, cfg.maxSize), op.key) == |Evicted(s.items, cfg.maxSize)|
    requires op.Set? ==> limit <= now + NewEntry(cfg, op.key, op.data, op.ttl, now).ttl
    ensures Sound(cfg, Apply(cfg, s, op, now))
        && Safe(cfg, Apply(cfg, s, op, now).items, op.key, limit, cfg.maxSize - 1)
  {
    ApplyKeepsSound(cfg, s, op, now);
    var after := Apply(cfg, s, op, now).items;
    PositionIs(after, op.key, |after| - 1);
  }

  /** An entry just hit or newly inserted is still served after any maxSize - 1 further gets and sets,
      and any number of deletes of other keys and cleanups, as long as it has not expired. */
  lemma RecentEntryIsServed<V>(cfg: Config, s: State<V>, op: Op<V>, t: real, calls: seq<Call<V>>, limit: real,
                               now: real)
    requires Sound(cfg, s) && cfg.maxSize >= 1 && (op.Get? || op.Set?)
    requires op.Get? ==>
      Lookup(s, op.key, t).Some?
      && limit <= s.items[Position(s.items, op.key)].stamp + s.items[Position(s.items, op.key)].ttl
    requires op.Set? ==> Position(Evicted(s.items, cfg.maxSize), op.key) == |Evicted(s.items, cfg.maxSize)|
    requires op.Set? ==> limit <= t + NewEntry(cfg, op.key, op.data, op.ttl, t).ttl
    requires TotalCost(calls) <= cfg.maxSize - 1
    requires forall i :: 0 <= i < |calls| ==> Spares(cfg, calls[i], op.key, limit)
    requires now <= limit
    ensures Lookup(Run(cfg, Apply(cfg, s, op, t), calls), op.key, now).Some?
  {
    JustTouched(cfg, s, op, t, limit);
    RunKeepsSafe(cfg, Apply(cfg, s, op, t), calls, op.key, limit, cfg.maxSize - 1);
  }

  /** The same in terms of the calls: a value newly set is served until its time to live is over, the given one or
      the default, whatever up to maxSize - 1 other gets and sets come in between. */
  lemma NewValueIsServed<V>(cfg: Config, s: State<V>, op: Op<V>, t: real, calls: seq<Call<V>>, now: real)
    requires Sound(cfg, s) && cfg.maxSize >= 1 && op.Set? && now <= t + TimeToLive(cfg, op)
    requires Position(s.items, op.key) == |s.items| && TotalCost(calls) <= cfg.maxSize - 1
    requires forall i :: 0 <= i < |calls| ==> SparesUntil(calls[i], op.key, t + TimeToLive(cfg, op))
    ensures Lookup(Run(cfg, Apply(cfg, s, op, t), calls), op.key, now).Some?
  {
    var limit := t + TimeToLive(cfg, op);
    DropKeeps(s.items, |s.items| - |Evicted(s.items, cfg.maxSize)|, op.key);
    AbsentByIndex(Evicted(s.items, cfg.maxSize), op.key);
    forall i | 0 <= i < |calls| ensures Spares(cfg, calls[i], op.key, limit) {
      assert SparesUntil(calls[i], op.key, limit);
    }
    RecentEntryIsServed(cfg, s, op, t, calls, limit, now);
  }

  /** A call by `limit` that neither sets nor drops the key. */
  ghost predicate SparesUntil<V>(c: Call<V>, key: string, limit: real) {
    && c.now <= limit && !c.op.Clear? && ((c.op.Set? || c.op.Delete?) ==> c.op.key != key)
    && (c.op.Cleanup? ==> NeverPast(c.op.clock, limit))
  }

  // ---------------------------------------------------------------- and who is

  function Inserts<V>(keys: seq<string>, data: V, ttl: Option<real>, now: real): seq<Call<V>> {
    seq(|keys|, i requires 0 <= i < |keys| => Call(Set(keys[i], data, ttl), now))
  }

  lemma NewKeys<V>(items: seq<Entry<V>>, keys: seq<string>, key: string)
    requires forall i :: 0 <= i < |keys| ==> Position(items, keys[i]) == |items|
    requires Position(items, key) < |items|
    ensures key !in keys
  {
  }

  lemma PutNewWhenFull<V>(cfg: Config, items: seq<Entry<V>>, e: Entry<V>)
    requires |items| == cfg.maxSize >= 1 && forall i :: 0 <= i < |items| ==> items[i].key != e.key
    ensures Put(Evicted(items, cfg.maxSize), e) == items[1..] + [e]
  {
    AbsentByIndex(items[1..], e.key);
  }

  /** The oldest |keys| entries are gone, and entries for the keys follow what is left. */
  ghost predicate Shifted<V>(before: seq<Entry<V>>, after: seq<Entry<V>>, keys: seq<string>) {
    && |after| == |before| >= |keys|
    && (forall i :: 0 <= i < |before| - |keys| ==> after[i] == before[i + |keys|])
    && (forall i :: |before| - |keys| <= i < |after| ==> after[i].key == keys[i - (|before| - |keys|)])
  }

  lemma ShiftAppend<V>(before: seq<Entry<V>>, mid: seq<Entry<V>>, front: seq<string>, e: Entry<V>)
    requires Shifted(before, mid, front) && |before| > |front|
    ensures Shifted(before, mid[1..] + [e], front + [e.key])
  {
    var after, n := mid[1..] + [e], |before| - |front| - 1;
    forall i | 0 <= i < n ensures after[i] == before[i + |front| + 1] {
      assert after[i] == mid[i + 1];
    }
    forall i | n <= i < |after| - 1 ensures after[i].key == (front + [e.key])[i - n] {
      assert after[i] == mid[i + 1];
    }
  }

  lemma NotShiftedIn<V>(before: seq<Entry<V>>, mid: seq<Entry<V>>, front: seq<string>, key: string)
    requires Shifted(before, mid, front) && Position(before, key) == |before| && key !in front
    ensures forall i :: 0 <= i < |mid| ==> mid[i].key != key
  {
    PositionAbsent(before, key);
    forall i | 0 <= i < |mid| ensures mid[i].key != key {
      if i < |before| - |front| {
        assert before[i + |front|] in before;
      } else {
        assert front[i - (|before| - |front|)] in front;
      }
    }
  }

  lemma ShiftOne<V>(cfg: Config, before: seq<Entry<V>>, mid: seq<Entry<V>>, front: seq<string>, e: Entry<V>)
    requires Shifted(before, mid, front) && |before| == cfg.maxSize > |front|
    requires Position(before, e.key) == |before| && e.key !in front
    ensures Shifted(before, Put(Evicted(mid, cfg.maxSize), e), front + [e.key])
  {
    NotShiftedIn(before, mid, front, e.key);
    PutNewWhenFull(cfg, mid, e);
    ShiftAppend(before, mid, front, e);
  }

  /** New keys push out the oldest entries, one each. */
  lemma {:induction false} InsertsShift<V>(cfg: Config, s: State<V>, keys: seq<string>, data: V, ttl: Option<real>,
                                           now: real)
    requires |s.items| == cfg.maxSize >= |keys|
    requires forall i :: 0 <= i < |keys| ==> Position(s.items, keys[i]) == |s.items|
    requires forall i, j :: 0 <= i < j < |keys| ==> keys[i] != keys[j]
    ensures Shifted(s.items, Run(cfg, s, Inserts(keys, data, ttl, now)).items, keys)
  {
    if keys != [] {
      var front, last := keys[..|keys| - 1], keys[|keys| - 1];
      var calls := Inserts(keys, data, ttl, now);
      assert calls[..|calls| - 1] == Inserts(front, data, ttl, now);
      InsertsShift(cfg, s, front, data, ttl, now);
      assert Position(s.items, last) == |s.items|;
      ShiftOne(cfg, s.items, Run(cfg, s, Inserts(front, data, ttl, now)).items, front,
               NewEntry(cfg, last, data, ttl, now));
      assert keys == front + [last];
    }
  }

  /** The bound is exact: in a full cache an entry survives n inserts of new keys exactly when at
      least n entries are older. */
  lemma OldEntryIsEvicted<V>(cfg: Config, s: State<V>, keys: seq<string>, data: V, ttl: Option<real>, now: real,
                             key: string)
    requires Sound(cfg, s) && |s.items| == cfg.maxSize >= |keys|
    requires forall i :: 0 <= i < |keys| ==> Position(s.items, keys[i]) == |s.items|
    requires forall i, j :: 0 <= i < j < |keys| ==> keys[i] != keys[j]
    requires Position(s.items, key) < |s.items|
    ensures Position(Run(cfg, s, Inserts(keys, data, ttl, now)).items, key) < cfg.maxSize
       <==> |keys| <= Position(s.items, key)
  {
    var after, p, n := Run(cfg, s, Inserts(keys, data, ttl, now)).items, Position(s.items, key), |keys|;
    InsertsShift(cfg, s, keys, data, ttl, now);
    NewKeys(s.items, keys, key);
    if n <= p {
      assert after[p - n] == s.items[p];
    } else {
      AbsentByIndex(after, key);
    }
  }

  /** Overwriting a key of a full cache evicts the oldest entry although no room is needed, and leaves
      the key where it was. */
  lemma OverwriteEvicts<V>(cfg: Config, s: State<V>, key: string, data: V, ttl: Option<real>, now: real)
    requires Sound(cfg, s) && |s.items| == cfg.maxSize && 1 <= Position(s.items, key) < |s.items|
    ensures var after := AfterSet(cfg, s, key, data, ttl, now).items;
      && |after| == cfg.maxSize - 1 && Position(after, key) == Position(s.items, key) - 1
      && Position(after, s.items[0].key) == |after|
  {
    var rest := s.items[1..];
    DropKeeps(s.items, 1, key);
    ReplaceKeeps(rest, Position(rest, key), NewEntry(cfg, key, data, ttl, now), key);
    AbsentByIndex(AfterSet(cfg, s, key, data, ttl, now).items, s.items[0].key);
  }

  /** Overwriting keeps all other keys exactly when the cache has room or the key is the oldest. */
  lemma OverwriteKeepsOthersIff<V>(cfg: Config, s: State<V>, key: string, data: V, ttl: Option<real>, now: real)
    requires Sound(cfg, s) && Position(s.items, key) < |s.items|
    ensures var after := AfterSet(cfg, s, key, data, ttl, now).items;
      (forall i :: 0 <= i < |s.items| && s.items[i].key != key ==> Position(after, s.items[i].key) < |after|)
      <==> |s.items| < cfg.maxSize || Position(s.items, key) == 0
  {
    var after, p := AfterSet(cfg, s, key, data, ttl, now).items, Position(s.items, key);
    if |s.items| < cfg.maxSize || p == 0 {
      forall i | 0 <= i < |s.items| && s.items[i].key != key ensures Position(after, s.items[i].key) < |after| {
        OverwriteKeeps(cfg, s, key, data, ttl, now, i);
      }
    } else {
      OverwriteEvicts(cfg, s, key, data, ttl, now);
      assert s.items[0].key != key;
    }
  }

  lemma OverwriteKeeps<V>(cfg: Config, s: State<V>, key: string, data: V, ttl: Option<real>, now: real, i: nat)
    requires Sound(cfg, s) && Position(s.items, key) < |s.items| && i < |s.items| && s.items[i].key != key
    requires |s.items| < cfg.maxSize || Position(s.items, key) == 0
    ensures var after := AfterSet(cfg, s, key, data, ttl, now).items;
      Position(after, s.items[i].key) < |after|
  {
    var e, p := NewEntry(cfg, key, data, ttl, now), Position(s.items, key);
    if |s.items| < cfg.maxSize {
      PositionIs(s.items, s.items[i].key, i);
      ReplaceKeeps(s.items, p, e, s.items[i].key);
    } else {
      var rest := s.items[1..];
      DropKeeps(s.items, 1, s.items[i].key);
      PositionIs(s.items, s.items[i].key, i);
      AbsentByIndex(rest, key);
      PositionAbsent(rest, key);
      AppendKeeps(rest, e, s.items[i].key);
    }
  }

  /** It makes the key the most recent one exactly when it was that before, or was the oldest of a full cache. */
  lemma OverwriteIsRecentIff<V>(cfg: Config, s: State<V>, key: string, data: V, ttl: Option<real>, now: real)
    requires Sound(cfg, s) && Position(s.items, key) < |s.items|
    ensures var after, p := AfterSet(cfg, s, key, data, ttl, now).items, Position(s.items, key);
      Position(after, key) == |after| - 1 <==> p == |s.items| - 1 || (p == 0 && |s.items| == cfg.maxSize)
  {
    var e, p := NewEntry(cfg, key, data, ttl, now), Position(s.items, key);
    if |s.items| < cfg.maxSize {
      ReplaceKeeps(s.items, p, e, key);
    } else if p == 0 {
      AbsentByIndex(s.items[1..], key);
      PositionAbsent(s.items[1..], key);
      AppendKeeps(s.items[1..], e, key);
    } else {
      OverwriteEvicts(cfg, s, key, data, ttl, now);
    }
  }

  // ---------------------------------------------------------------- what is dropped, and what is counted

  /** The entry outlives the time: no longer than its time to live has passed since it was set. */
  predicate Lives<V>(e: Entry<V>, now: real) {
    now <= e.stamp + e.ttl
  }

  lemma RemovedMembers<V>(items: seq<Entry<V>>, p: nat, e: Entry<V>)
    requires Distinct(items) && p < |items|
    ensures e in RemoveAt(items, p) <==> e in items && e.key != items[p].key
  {
    if e in items && e.key != items[p].key {
      var i :| 0 <= i < |items| && items[i] == e;
      assert i < p ==> RemoveAt(items, p)[i] == e;
      assert i > p ==> RemoveAt(items, p)[i - 1] == e;
    }
    if e in RemoveAt(items, p) {
      var i :| 0 <= i < |items| - 1 && RemoveAt(items, p)[i] == e;
      assert e == if i < p then items[i] else items[i + 1];
    }
  }

  /** A get that finds its entry expired drops that entry and no other, and is a miss. */
  lemma ExpiredIsDropped<V>(cfg: Config, s: State<V>, key: string, now: real, e: Entry<V>)
    requires Sound(cfg, s) && Position(s.items, key) < |s.items| && !Lives(s.items[Position(s.items, key)], now)
    ensures e in Apply(cfg, s, Get(key), now).items <==> e in s.items && e.key != key
    ensures Lookup(s, key, now) == None
  {
    RemovedMembers(s.items, Position(s.items, key), e);
  }

  /** A cleanup keeps exactly the entries that live when their turn comes. */
  lemma {:induction false} CleanupKeepsIff<V>(items: seq<Entry<V>>, clock: nat -> real, i: nat)
    requires Distinct(items) && i < |items|
    ensures items[i] in Unexpired(items, clock) <==> Lives(items[i], clock(i))
  {
    var front, last := items[..|items| - 1], items[|items| - 1];
    UnexpiredDistinct(front, clock);
    if i < |front| {
      CleanupKeepsIff(front, clock, i);
    } else {
      forall e | e in Unexpired(front, clock) ensures e != last {
        var j :| 0 <= j < |front| && front[j] == e;
        assert items[j].key != items[|items| - 1].key;
      }
    }
  }

  /** A cache of size below 1 is emptied by a set, which stores nothing. */
  lemma NoRoomStoresNothing<V>(cfg: Config, s: State<V>, key: string, data: V, ttl: Option<real>, now: real, k: string)
    requires cfg.maxSize < 1
    ensures Lookup(Apply(cfg, s, Set(key, data, ttl), now), k, now) == None
  {
  }

  /** How many of the gets of a run are answered with a value. */
  function Answered<V>(cfg: Config, s: State<V>, calls: seq<Call<V>>): nat {
    if calls == [] then 0
    else
      var front, last := calls[..|calls| - 1], calls[|calls| - 1];
      Answered(cfg, s, front)
      + if last.op.Get? && Lookup(Run(cfg, s, front), last.op.key, last.now).Some? then 1 else 0
  }

  /** Hits counts the gets that were answered with a value, misses the others. */
  lemma {:induction false} CountersAreExact<V>(cfg: Config, s: State<V>, calls: seq<Call<V>>)
    requires Sound(cfg, s)
    ensures Run(cfg, s, calls).hits == s.hits + Answered(cfg, s, calls)
    ensures Run(cfg, s, calls).misses == s.misses + (Gets(calls) - Answered(cfg, s, calls))
  {
    if calls != [] {
      CountersAreExact(cfg, s, calls[..|calls| - 1]);
    }
  }
}
