/**
 The cache-first wrapper of app/data_providers/__init__.py as a state machine: any
 number of callers, setters, getters and background refreshers run interleaved, one
 atomic step for every lock, cache, clock or bookkeeping operation.

 Time is an exact real; TTLs are whole seconds. A thread is an index into `threads`.
 `computes`, `produced` and `writes` are history: no step reads them.
 */
module SingleFlight {
  import opened Common

  const SWR_MULTIPLIER: int := 5

  type Key = string
  type Lock = nat
  type Tid = nat

  /** A JSON payload; Null is Python's None. */
  datatype Json = Null | Doc(text: string)

  /** What the backend stores: a versioned envelope, or a raw entry from an older release. */
  datatype Slot =
    | Envelope(value: Json, storedAt: real, hardUntil: real)
    | Legacy(value: Json)

  datatype Cell = Cell(slot: Slot, expiry: real)

  datatype Role =
    | Caller(force: bool, allowStale: bool)
    | Refresher
    | Setter(payload: Json)
    | Getter

  /** Where an answer came from. */
  datatype Source =
    | Computed
    | Failed
    | Nothing
    | Cached(cell: Cell, readAt: real, judgedAt: real)

  datatype Answer = Answer(value: Json, source: Source)

  datatype PC =
    | Start
    | Reading
    | Judging(raw: Option<Cell>, readAt: real)
    | Marking(answer: Answer)
    | Submitting(answer: Answer)
    | Unmarking(answer: Answer)
    | FindLock
    | WantMaster
    | HasMaster
    | Creating
    | LeavingMaster(lock: Lock)
    | AtLock(lock: Lock)
    | ReReading(lock: Lock)
    | ReJudging(lock: Lock, raw: Option<Cell>, readAt: real)
    | Computing(held: Option<Lock>)
    | Wrapping(held: Option<Lock>, value: Json)
    | Storing(held: Option<Lock>, value: Json, wrappedAt: real)
    | Leaving(held: Option<Lock>, answer: Answer)
    | Clearing(answer: Answer)
    | Done(answer: Answer)

  datatype Thread = Thread(role: Role, key: Key, ttl: int, pc: PC)

  /** One successful backend write: who wrote what, when it was wrapped and when it landed. A write
      without a writer was made by an earlier process. */
  datatype Write = Write(writer: Option<Tid>, key: Key, value: Json, ttl: int, wrappedAt: real, at: real)

  /** _inflight_locks, the allocation counter behind threading.Lock(), who holds each per-key
      lock, and who holds _inflight_master. */
  datatype LockTables = LockTables(
    byKey: map<Key, Lock>,
    next: Lock,
    owner: map<Lock, Tid>,
    master: Option<Tid>)

  datatype History = History(
    computes: multiset<Key>,
    produced: set<(Key, Json)>,
    writes: seq<Write>)

  datatype State = State(
    now: real,
    cache: map<Key, Cell>,
    locks: LockTables,
    refreshing: set<Key>,
    threads: seq<Thread>,
    history: History)

  /** What the environment decides for one step: whether I/O succeeds and what compute returns
      (None is an exception). */
  datatype Choice = Choice(ok: bool, result: Option<Json>)

  datatype Label =
    | Call(role: Role, key: Key, ttl: int)
    | Step(t: Tid, choice: Choice)
    | Tick(d: real)
    | Drop(key: Key)

  // ---------------------------------------------------------------- pure helpers

  function HardSeconds(ttl: int): int {
    Max(1, ttl)
  }

  function Wrap(value: Json, ttl: int, now: real): Slot {
    Envelope(value, now, now + HardSeconds(ttl) as real)
  }

  function Unwrap(raw: Option<Cell>, now: real): (Json, bool) {
    match raw
    case None => (Null, false)
    case Some(c) =>
      match c.slot
      case Legacy(v) => (v, v != Null)
      case Envelope(v, _, hardUntil) => (v, now < hardUntil)
  }

  /** CacheManager.get: an expired entry, or a failing backend, reads as None. */
  function Fetch(s: State, k: Key, ok: bool): Option<Cell> {
    if ok && k in s.cache && s.cache[k].expiry > s.now then Some(s.cache[k]) else None
  }

  // ---------------------------------------------------------------- steps

  datatype LockOp = KeepLocks | TakeMaster | FreeMaster | NewLock | Acquire(lock: Lock) | Release(lock: Lock)

  datatype DataOp = KeepData | BeginCompute | Produce(value: Json) | Put(value: Json, wrappedAt: real)

  datatype MarkOp = KeepMarks | Mark | Unmark | Spawn

  /** One atomic step: where the thread goes, and what it does to the shared structures. */
  datatype Effect = Effect(
    pc: PC,
    lock: LockOp := KeepLocks,
    data: DataOp := KeepData,
    mark: MarkOp := KeepMarks)

  /** The one step a thread can take, or None when it is blocked or finished. */
  function Decide(s: State, th: Thread, c: Choice): Option<Effect> {
    match th.pc
    case Start => Some(Begin(th.role))
    case Reading => Some(Effect(Judging(Fetch(s, th.key, c.ok), s.now)))
    case Judging(raw, readAt) => Some(Effect(AfterFirstRead(th.role, raw, readAt, s.now)))
    case Marking(a) =>
      Some(if th.key in s.refreshing then Effect(Done(a)) else Effect(Submitting(a), mark := Mark))
    case Submitting(a) => Some(if c.ok then Effect(Done(a), mark := Spawn) else Effect(Unmarking(a)))
    case Unmarking(a) => Some(Effect(Done(a), mark := Unmark))
    case FindLock => Some(Effect(if th.key in s.locks.byKey then AtLock(s.locks.byKey[th.key]) else WantMaster))
    case WantMaster => if s.locks.master.Some? then None else Some(Effect(HasMaster, lock := TakeMaster))
    case HasMaster =>
      Some(Effect(if th.key in s.locks.byKey then LeavingMaster(s.locks.byKey[th.key]) else Creating))
    case Creating => Some(Effect(LeavingMaster(s.locks.next), lock := NewLock))
    case LeavingMaster(l) => Some(Effect(AtLock(l), lock := FreeMaster))
    case AtLock(l) => Queue(s, th.role, l)
    case ReReading(l) => Some(Effect(ReJudging(l, Fetch(s, th.key, c.ok), s.now)))
    case ReJudging(l, raw, readAt) => Some(AfterSecondRead(l, raw, readAt, s.now))
    case Computing(h) =>
      Some(match c.result
           case None => Effect(Leaving(h, Answer(Null, Failed)))
           case Some(v) => Effect(Wrapping(h, v), data := Produce(v)))
    case Wrapping(h, v) => Some(Effect(Storing(h, v, s.now)))
    case Storing(h, v, wrappedAt) =>
      Some(Effect(Leaving(h, Answer(v, Computed)), data := if c.ok then Put(v, wrappedAt) else KeepData))
    case Leaving(h, a) =>
      Some(Effect(if th.role.Refresher? then Clearing(a) else Done(a),
                  lock := if h.Some? then Release(h.value) else KeepLocks))
    case Clearing(a) => Some(Effect(Done(a), mark := Unmark))
    case Done(_) => None
  }

  function Begin(role: Role): Effect {
    match role
    case Caller(force, _) =>
      if force then Effect(Computing(None), data := BeginCompute) else Effect(Reading)
    case Getter => Effect(Reading)
    case Setter(v) => Effect(Wrapping(None, v), data := Produce(v))
    case Refresher => Effect(FindLock)
  }

  /** Callers block on the per-key lock; a refresher only tries it, and skips when it is taken. */
  function Queue(s: State, role: Role, l: Lock): Option<Effect> {
    if l in s.locks.owner then
      if role.Refresher? then Some(Effect(Clearing(Answer(Null, Nothing)))) else None
    else if role.Refresher? then
      Some(Effect(Computing(Some(l)), lock := Acquire(l), data := BeginCompute))
    else Some(Effect(ReReading(l), lock := Acquire(l)))
  }

  /** What the lock-free first read leads to, for callers and for get_cached. */
  function AfterFirstRead(role: Role, raw: Option<Cell>, readAt: real, now: real): PC {
    var (v, isFresh) := Unwrap(raw, now);
    if v != Null && isFresh then Done(Answer(v, Cached(raw.value, readAt, now)))
    else if role.Getter? then Done(Answer(Null, Nothing))
    else if v != Null && role.Caller? && role.allowStale then
      Marking(Answer(v, Cached(raw.value, readAt, now)))
    else FindLock
  }

  /** The double-check under the lock: a fresh value is returned, anything else is computed. */
  function AfterSecondRead(l: Lock, raw: Option<Cell>, readAt: real, now: real): Effect {
    var (v, isFresh) := Unwrap(raw, now);
    if v != Null && isFresh then Effect(Leaving(Some(l), Answer(v, Cached(raw.value, readAt, now))))
    else Effect(Computing(Some(l)), data := BeginCompute)
  }

  function CommitLocks(lt: LockTables, t: Tid, k: Key, op: LockOp): LockTables {
    match op
    case KeepLocks => lt
    case TakeMaster => lt.(master := Some(t))
    case FreeMaster => lt.(master := None)
    case NewLock => lt.(byKey := lt.byKey[k := lt.next], next := lt.next + 1)
    case Acquire(l) => lt.(owner := lt.owner[l := t])
    case Release(l) => lt.(owner := lt.owner - {l})
  }

  function CommitHistory(h: History, t: Tid, th: Thread, now: real, op: DataOp): History {
    match op
    case KeepData => h
    case BeginCompute => h.(computes := h.computes + multiset{th.key})
    case Produce(v) => h.(produced := h.produced + {(th.key, v)})
    case Put(v, wrappedAt) => h.(writes := h.writes + [Write(Some(t), th.key, v, th.ttl, wrappedAt, now)])
  }

  /** CacheManager.set: the backend expiry is SWR_MULTIPLIER times the TTL. */
  function CommitCache(cache: map<Key, Cell>, th: Thread, now: real, op: DataOp): map<Key, Cell> {
    match op
    case Put(v, wrappedAt) =>
      cache[th.key := Cell(Wrap(v, th.ttl, wrappedAt), now + (th.ttl * SWR_MULTIPLIER) as real)]
    case _ => cache
  }

  function CommitMarks(marks: set<Key>, k: Key, op: MarkOp): set<Key> {
    match op
    case Mark => marks + {k}
    case Unmark => marks - {k}
    case _ => marks
  }

  function CommitThreads(threads: seq<Thread>, t: Tid, e: Effect): seq<Thread>
    requires t < |threads|
  {
    var th := threads[t];
    threads[t := th.(pc := e.pc)] + if e.mark.Spawn? then [Thread(Refresher, th.key, th.ttl, Start)] else []
  }

  function Commit(s: State, t: Tid, e: Effect): State
    requires t < |s.threads|
  {
    var th := s.threads[t];
    State(s.now,
          CommitCache(s.cache, th, s.now, e.data),
          CommitLocks(s.locks, t, th.key, e.lock),
          CommitMarks(s.refreshing, th.key, e.mark),
          CommitThreads(s.threads, t, e),
          CommitHistory(s.history, t, th, s.now, e.data))
  }

  function Apply(s: State, l: Label): Option<State> {
    match l
    case Call(role, key, ttl) =>
      if role.Refresher? then None
      else Some(s.(threads := s.threads + [Thread(role, key, ttl, Start)]))
    case Step(t, c) =>
      if t < |s.threads| then
        match Decide(s, s.threads[t], c)
        case None => None
        case Some(e) => Some(Commit(s, t, e))
      else None
    case Tick(d) => if d >= 0.0 then Some(s.(now := s.now + d)) else None
    case Drop(k) => Some(s.(cache := s.cache - {k}))
  }

  /** The state after a schedule, or None when some label of it is not enabled. */
  function Run(s: State, labels: seq<Label>): Option<State>
    decreases |labels|
  {
    if labels == [] then Some(s)
    else
      match Run(s, labels[..|labels| - 1])
      case None => None
      case Some(s1) => Apply(s1, labels[|labels| - 1])
  }

  predicate Matches(w: Write, k: Key, cell: Cell) {
    && w.key == k
    && cell.slot == Wrap(w.value, w.ttl, w.wrappedAt)
    && cell.expiry == w.at + (w.ttl * SWR_MULTIPLIER) as real
  }

  predicate EarlierWrite(s: State, w: Write) {
    w.writer == None && (w.key, w.value) in s.history.produced && w.wrappedAt <= w.at <= s.now
  }

  /** A process that has just started: nothing in flight. The shared backend may hold raw entries of
      older releases and envelopes of earlier processes, whose writes the history then starts with. */
  ghost predicate Init(s: State) {
    && s.locks.byKey == map[] && s.locks.owner == map[] && s.locks.master == None
    && s.refreshing == {} && s.threads == [] && s.history.computes == multiset{}
    && (forall i :: 0 <= i < |s.history.writes| ==> EarlierWrite(s, s.history.writes[i]))
    && (forall k :: k in s.cache ==>
          s.cache[k].slot.Legacy?
          || exists i :: 0 <= i < |s.history.writes| && Matches(s.history.writes[i], k, s.cache[k]))
  }
}
