/**
 Two run-level theorems about the single-flight protocol: a burst of callers on a cold key
 computes once, and every call finishes.
 */
module SingleFlightBurst {
  import opened Common
  import opened SingleFlight
  import opened SingleFlightSafety

  // ---------------------------------------------------------------- cold burst

  /** Where a burst starts: how many threads, computations of the key and writes there were before. */
  datatype Base = Base(threads: nat, computes: nat, writes: nat)

  function BaseOf(s: State, k: Key): Base {
    Base(|s.threads|, s.history.computes[k], |s.history.writes|)
  }

  /** A read of k gives None: nothing stored, an expired entry, or a stored None. */
  predicate ReadsNone(s: State, k: Key) {
    k !in s.cache || s.cache[k].expiry <= s.now || s.cache[k].slot.value == Null
  }

  /** Key k reads as absent and every earlier call for it has returned. */
  ghost predicate ColdStart(s: State, k: Key) {
    && Reachable(s) && ReadsNone(s, k)
    && (forall t: Tid :: t < |s.threads| && s.threads[t].key == k ==> s.threads[t].pc.Done?)
  }

  /** What may happen to key k during the burst: unforced callers and getters arrive, reads and
      writes work, compute returns something, and nobody drops the entry. Other keys are free. */
  predicate BurstLabel(s: State, l: Label, k: Key) {
    match l
    case Call(role, key, ttl) => key == k ==> ttl >= 1 && (role.Getter? || (role.Caller? && !role.force))
    case Step(t, c) =>
      t < |s.threads| && s.threads[t].key == k ==> c.ok && c.result.Some? && c.result.value != Null
    case Tick(_) => true
    case Drop(key) => key != k
  }

  /** The clock has not reached the hard deadline of an entry the burst wrote, or is about to write. */
  ghost predicate BeforeDeadline(s: State, k: Key, b: Base) {
    && (forall i :: b.writes <= i < |s.history.writes| && s.history.writes[i].key == k ==>
          s.now < s.history.writes[i].wrappedAt + HardSeconds(s.history.writes[i].ttl) as real)
    && (forall t: Tid :: b.threads <= t < |s.threads| && s.threads[t].key == k && s.threads[t].pc.Storing? ==>
          s.now < s.threads[t].pc.wrappedAt + HardSeconds(s.threads[t].ttl) as real)
  }

  /** A schedule from s all of whose labels and states meet the conditions of the burst. */
  ghost predicate BurstRun(s: State, labels: seq<Label>, k: Key, b: Base)
    decreases |labels|
  {
    && Run(s, labels).Some?
    && BeforeDeadline(Run(s, labels).value, k, b)
    && (labels != [] ==>
          && BurstRun(s, labels[..|labels| - 1], k, b)
          && BurstLabel(Run(s, labels[..|labels| - 1]).value, labels[|labels| - 1], k))
  }

  predicate BurstRole(th: Thread) {
    th.ttl >= 1 && (th.role.Getter? || (th.role.Caller? && !th.role.force))
  }

  predicate BlankRead(raw: Option<Cell>) {
    raw.None? || raw.value.slot.value == Null
  }

  /** Has seen nothing under the key so far. */
  predicate Unserved(pc: PC) {
    match pc
    case Judging(raw, _) => BlankRead(raw)
    case ReJudging(_, raw, _) => BlankRead(raw)
    case Computing(_) => false
    case Wrapping(_, _) => false
    case Storing(_, _, _) => false
    case Marking(_) => false
    case Submitting(_) => false
    case Unmarking(_) => false
    case Leaving(_, _) => false
    case Clearing(_) => false
    case _ => true
  }

  predicate UnservedThread(th: Thread) {
    Unserved(th.pc) && (th.pc.Done? ==> th.role.Getter?)
  }

  /** Producing value v under the lock. */
  predicate Producing(pc: PC, v: Json) {
    match pc
    case Wrapping(h, x) => h.Some? && x == v
    case Storing(h, x, _) => h.Some? && x == v
    case _ => false
  }

  /** Once v is stored as `cell`: either still on the way to reading it, or holding exactly it. */
  predicate Settled(th: Thread, cell: Cell) {
    match th.pc
    case Judging(raw, _) => BlankRead(raw) || raw == Some(cell)
    case ReJudging(_, raw, _) => raw == Some(cell)
    case Leaving(_, a) => a.value == cell.slot.value
    case Done(a) => a.value == cell.slot.value || th.role.Getter?
    case _ => Unserved(th.pc)
  }

  /** t is a thread of the burst. */
  predicate Guest(s: State, k: Key, b: Base, t: Tid) {
    b.threads <= t < |s.threads| && s.threads[t].key == k
  }

  ghost predicate AllUnserved(s: State, k: Key, b: Base) {
    forall t: Tid :: Guest(s, k, b, t) ==> UnservedThread(s.threads[t])
  }

  ghost predicate Cold(s: State, k: Key, b: Base) {
    ReadsNone(s, k) && s.history.computes[k] == b.computes && AllUnserved(s, k, b)
  }

  predicate AtWork(th: Thread) {
    th.role.Caller?
    && match th.pc
       case Computing(h) => h.Some?
       case Wrapping(h, v) => h.Some? && v != Null
       case Storing(h, v, _) => h.Some? && v != Null
       case _ => false
  }

  ghost predicate Busy(s: State, k: Key, b: Base, h: Tid) {
    && ReadsNone(s, k) && s.history.computes[k] == b.computes + 1
    && Guest(s, k, b, h) && AtWork(s.threads[h])
    && (forall t: Tid :: Guest(s, k, b, t) && t != h ==> UnservedThread(s.threads[t]))
  }

  /** The i-th write is of the burst and is what the cache holds. */
  predicate Stored(s: State, k: Key, b: Base, i: int)
    requires k in s.cache
  {
    b.writes <= i < |s.history.writes| && s.history.writes[i].ttl >= 1 && Matches(s.history.writes[i], k, s.cache[k])
  }

  ghost predicate Warm(s: State, k: Key, b: Base) {
    && k in s.cache && s.history.computes[k] == b.computes + 1
    && s.cache[k].slot.Envelope? && s.cache[k].slot.value != Null
    && s.now < s.cache[k].slot.hardUntil && s.now < s.cache[k].expiry
    && (exists i :: Stored(s, k, b, i))
    && (forall t: Tid :: Guest(s, k, b, t) ==> Settled(s.threads[t], s.cache[k]))
  }

  ghost predicate Guests(s: State, k: Key, b: Base) {
    && b.threads <= |s.threads| && b.writes <= |s.history.writes|
    && (forall t: Tid :: Guest(s, k, b, t) ==> BurstRole(s.threads[t]))
    && (forall t: Tid :: t < b.threads && s.threads[t].key == k ==> s.threads[t].pc.Done?)
  }

  ghost predicate Phase(s: State, k: Key, b: Base) {
    Guests(s, k, b) && (Cold(s, k, b) || Warm(s, k, b) || exists h: Tid :: Busy(s, k, b, h))
  }

  // ---------------------------------------------------------------- steps that are not the burst's

  /** What leaves a burst where it was: the key's cell and count and the burst's threads stay, time
      does not run back, threads and writes are only added, and the added ones of the key are new guests. */
  ghost predicate Aside(s: State, s': State, k: Key, b: Base) {
    && s.now <= s'.now
    && (k in s.cache <==> k in s'.cache) && (k in s.cache ==> s'.cache[k] == s.cache[k])
    && s'.history.computes[k] == s.history.computes[k] && s.history.writes <= s'.history.writes
    && |s.threads| <= |s'.threads|
    && (forall t: Tid :: t < |s.threads| && s.threads[t].key == k ==> s'.threads[t] == s.threads[t])
    && (forall t: Tid :: t < |s.threads| ==> s'.threads[t].key == s.threads[t].key)
    && (forall t: Tid :: |s.threads| <= t < |s'.threads| && s'.threads[t].key == k ==>
          s'.threads[t].pc.Start? && BurstRole(s'.threads[t]))
  }

  lemma AsideKeepsGuests(s: State, s': State, k: Key, b: Base)
    requires Guests(s, k, b) && Aside(s, s', k, b)
    ensures Guests(s', k, b)
  {
    forall t: Tid | Guest(s', k, b, t) ensures BurstRole(s'.threads[t]) {
      if t < |s.threads| { assert Guest(s, k, b, t); }
    }
  }

  lemma AsideKeepsUnserved(s: State, s': State, k: Key, b: Base, t: Tid)
    requires Guests(s, k, b) && Aside(s, s', k, b) && Guest(s', k, b, t)
    requires t < |s.threads| ==> UnservedThread(s.threads[t])
    ensures UnservedThread(s'.threads[t])
  {
  }

  lemma AsideKeepsBusy(s: State, s': State, k: Key, b: Base, h: Tid)
    requires Guests(s, k, b) && Busy(s, k, b, h) && Aside(s, s', k, b)
    ensures Busy(s', k, b, h)
  {
    forall t: Tid | Guest(s', k, b, t) && t != h ensures UnservedThread(s'.threads[t]) {
      if t < |s.threads| { assert Guest(s, k, b, t); }
      AsideKeepsUnserved(s, s', k, b, t);
    }
  }

  lemma AsideKeepsCold(s: State, s': State, k: Key, b: Base)
    requires Guests(s, k, b) && Cold(s, k, b) && Aside(s, s', k, b)
    ensures Cold(s', k, b)
  {
    forall t: Tid | Guest(s', k, b, t) ensures UnservedThread(s'.threads[t]) {
      if t < |s.threads| { assert Guest(s, k, b, t); }
      AsideKeepsUnserved(s, s', k, b, t);
    }
  }

  lemma WarmWrite(s: State, k: Key, b: Base) returns (i: int)
    requires Warm(s, k, b)
    ensures Stored(s, k, b, i)
  {
    i :| Stored(s, k, b, i);
  }

  /** Before its deadline a warm entry is also before its backend expiry. */
  lemma WarmClock(s: State, k: Key, b: Base, i: int)
    requires k in s.cache && Stored(s, k, b, i) && BeforeDeadline(s, k, b)
    requires s.history.writes[i].wrappedAt <= s.history.writes[i].at
    ensures s.cache[k].slot.Envelope? && s.now < s.cache[k].slot.hardUntil && s.now < s.cache[k].expiry
  {
  }

  lemma AsideKeepsWarm(s: State, s': State, k: Key, b: Base)
    requires Inv(s) && Guests(s, k, b) && Warm(s, k, b) && Aside(s, s', k, b) && BeforeDeadline(s', k, b)
    ensures Warm(s', k, b)
  {
    var i := WarmWrite(s, k, b);
    assert WriteOk(s.history, s.now, s.threads, s.history.writes[i]);
    assert s'.history.writes[i] == s.history.writes[i];
    assert Stored(s', k, b, i);
    WarmClock(s', k, b, i);
    forall t: Tid | Guest(s', k, b, t) ensures Settled(s'.threads[t], s'.cache[k]) {
      if t < |s.threads| { assert Guest(s, k, b, t); }
    }
  }

  lemma AsideKeepsPhase(s: State, s': State, k: Key, b: Base)
    requires Inv(s) && Phase(s, k, b) && Aside(s, s', k, b) && BeforeDeadline(s', k, b)
    ensures Phase(s', k, b)
  {
    AsideKeepsGuests(s, s', k, b);
    if Cold(s, k, b) {
      AsideKeepsCold(s, s', k, b);
    } else if Warm(s, k, b) {
      AsideKeepsWarm(s, s', k, b);
    } else {
      var h: Tid :| Busy(s, k, b, h);
      AsideKeepsBusy(s, s', k, b, h);
    }
  }

  // ---------------------------------------------------------------- steps of the burst

  lemma ColdActor(s: State, t: Tid, c: Choice, e: Effect, k: Key, b: Base)
    requires Guests(s, k, b) && Cold(s, k, b) && Guest(s, k, b, t)
    requires Decide(s, s.threads[t], c) == Some(e) && RoleFits(s.threads[t])
    ensures Cold(Commit(s, t, e), k, b) || Busy(Commit(s, t, e), k, b, t)
  {
    var s' := Commit(s, t, e);
    assert UnservedThread(s.threads[t]) && BurstRole(s.threads[t]);
    forall u: Tid | Guest(s', k, b, u) && u != t ensures UnservedThread(s'.threads[u]) {
      assert Guest(s, k, b, u);
    }
  }

  lemma StoringActor(s: State, h: Tid, c: Choice, e: Effect, k: Key, b: Base)
    requires Guests(s, k, b) && Busy(s, k, b, h) && s.threads[h].pc.Storing?
    requires Decide(s, s.threads[h], c) == Some(e) && c.ok
    requires s.now < s.threads[h].pc.wrappedAt + HardSeconds(s.threads[h].ttl) as real
    requires forall t: Tid :: Guest(s, k, b, t) && t != h ==> !s.threads[t].pc.ReJudging?
    ensures Warm(Commit(s, h, e), k, b)
  {
    var s', n := Commit(s, h, e), |s.history.writes|;
    assert BurstRole(s.threads[h]);
    assert Stored(s', k, b, n);
    assert (s.threads[h].ttl * SWR_MULTIPLIER) as real > 0.0;
    forall t: Tid | Guest(s', k, b, t) ensures Settled(s'.threads[t], s'.cache[k]) {
      if t != h { assert Guest(s, k, b, t) && s'.threads[t] == s.threads[t] && UnservedThread(s.threads[t]); }
    }
  }

  lemma ComputingActor(s: State, h: Tid, c: Choice, e: Effect, k: Key, b: Base)
    requires Guests(s, k, b) && Busy(s, k, b, h) && !s.threads[h].pc.Storing?
    requires Decide(s, s.threads[h], c) == Some(e) && c.result.Some? && c.result.value != Null
    ensures Busy(Commit(s, h, e), k, b, h)
  {
    var s' := Commit(s, h, e);
    forall t: Tid | Guest(s', k, b, t) && t != h ensures UnservedThread(s'.threads[t]) {
      assert Guest(s, k, b, t);
    }
  }

  lemma BusyBystander(s: State, h: Tid, t: Tid, c: Choice, e: Effect, k: Key, b: Base)
    requires Guests(s, k, b) && Busy(s, k, b, h) && Guest(s, k, b, t) && t != h
    requires Decide(s, s.threads[t], c) == Some(e) && RoleFits(s.threads[t]) && !s.threads[t].pc.ReJudging?
    ensures Busy(Commit(s, t, e), k, b, h)
  {
    var s' := Commit(s, t, e);
    assert UnservedThread(s.threads[t]) && BurstRole(s.threads[t]);
    assert s'.threads[h] == s.threads[h];
    forall u: Tid | Guest(s', k, b, u) && u != h ensures UnservedThread(s'.threads[u]) {
      assert Guest(s, k, b, u);
    }
  }

  lemma WarmActor(s: State, t: Tid, c: Choice, e: Effect, k: Key, b: Base)
    requires Guests(s, k, b) && Warm(s, k, b) && Guest(s, k, b, t)
    requires Decide(s, s.threads[t], c) == Some(e) && RoleFits(s.threads[t]) && c.ok
    ensures Warm(Commit(s, t, e), k, b)
  {
    var s' := Commit(s, t, e);
    var i := WarmWrite(s, k, b);
    assert Settled(s.threads[t], s.cache[k]) && BurstRole(s.threads[t]) && s'.cache[k] == s.cache[k];
    assert s'.history.writes[i] == s.history.writes[i];
    assert Stored(s', k, b, i);
    forall u: Tid | Guest(s', k, b, u) ensures Settled(s'.threads[u], s'.cache[k]) {
      if u != t { assert Guest(s, k, b, u) && s'.threads[u] == s.threads[u]; }
    }
  }

  /** No guest ever submits a refresh: a value that is there is fresh. */
  lemma GuestsKept(s: State, t: Tid, e: Effect, k: Key, b: Base)
    requires Guests(s, k, b) && Guest(s, k, b, t) && !e.mark.Spawn?
    ensures Guests(Commit(s, t, e), k, b)
  {
    var s' := Commit(s, t, e);
    forall u: Tid | Guest(s', k, b, u) ensures BurstRole(s'.threads[u]) {
      assert Guest(s, k, b, u);
    }
  }

  /** The computing thread holds the key's lock, so nobody else is past it. */
  lemma OnlyTheHolderIsInside(s: State, h: Tid, t: Tid, k: Key, b: Base)
    requires Inv(s) && Guests(s, k, b) && Busy(s, k, b, h) && Guest(s, k, b, t) && t != h
    ensures !s.threads[t].pc.ReJudging?
  {
    assert ThreadLocksOk(s.locks, h, s.threads[h]) && ThreadLocksOk(s.locks, t, s.threads[t]);
    assert BurstRole(s.threads[t]) && BurstRole(s.threads[h]);
  }

  lemma BusyStep(s: State, h: Tid, t: Tid, c: Choice, e: Effect, k: Key, b: Base)
    requires Inv(s) && Guests(s, k, b) && Busy(s, k, b, h) && BeforeDeadline(s, k, b)
    requires Guest(s, k, b, t) && Decide(s, s.threads[t], c) == Some(e)
    requires c.ok && c.result.Some? && c.result.value != Null
    ensures Warm(Commit(s, t, e), k, b) || Busy(Commit(s, t, e), k, b, h)
    ensures !e.mark.Spawn?
  {
    assert RoleFits(s.threads[t]);
    forall u: Tid | Guest(s, k, b, u) && u != h ensures !s.threads[u].pc.ReJudging? {
      OnlyTheHolderIsInside(s, h, u, k, b);
    }
    if t != h {
      assert UnservedThread(s.threads[t]);
      BusyBystander(s, h, t, c, e, k, b);
    } else if s.threads[h].pc.Storing? {
      StoringActor(s, h, c, e, k, b);
    } else {
      ComputingActor(s, h, c, e, k, b);
    }
  }

  lemma GuestStep(s: State, t: Tid, c: Choice, e: Effect, k: Key, b: Base)
    requires Inv(s) && Phase(s, k, b) && BeforeDeadline(s, k, b)
    requires Guest(s, k, b, t) && Decide(s, s.threads[t], c) == Some(e)
    requires c.ok && c.result.Some? && c.result.value != Null
    ensures Phase(Commit(s, t, e), k, b)
  {
    assert RoleFits(s.threads[t]);
    if Cold(s, k, b) {
      assert UnservedThread(s.threads[t]);
      ColdActor(s, t, c, e, k, b);
    } else if Warm(s, k, b) {
      assert Settled(s.threads[t], s.cache[k]);
      WarmActor(s, t, c, e, k, b);
    } else {
      var h: Tid :| Busy(s, k, b, h);
      BusyStep(s, h, t, c, e, k, b);
    }
    GuestsKept(s, t, e, k, b);
  }

  lemma StrangerStepsAside(s: State, t: Tid, e: Effect, k: Key, b: Base)
    requires t < |s.threads| && s.threads[t].key != k
    ensures Aside(s, Commit(s, t, e), k, b)
  {
  }

  lemma BurstStep(s: State, l: Label, k: Key, b: Base)
    requires Inv(s) && Phase(s, k, b) && BeforeDeadline(s, k, b)
    requires BurstLabel(s, l, k) && Apply(s, l).Some? && BeforeDeadline(Apply(s, l).value, k, b)
    ensures Phase(Apply(s, l).value, k, b)
  {
    var s' := Apply(s, l).value;
    if l.Step? {
      var e := Decide(s, s.threads[l.t], l.choice).value;
      if s.threads[l.t].key == k {
        GuestStep(s, l.t, l.choice, e, k, b);
      } else {
        StrangerStepsAside(s, l.t, e, k, b);
        AsideKeepsPhase(s, s', k, b);
      }
    } else {
      assert Aside(s, s', k, b);
      AsideKeepsPhase(s, s', k, b);
    }
  }

  lemma {:induction false} BurstRunKeepsPhase(s: State, labels: seq<Label>, k: Key, b: Base)
    requires Inv(s) && Phase(s, k, b) && BurstRun(s, labels, k, b)
    ensures Inv(Run(s, labels).value) && Phase(Run(s, labels).value, k, b)
    decreases |labels|
  {
    if labels != [] {
      var front := labels[..|labels| - 1];
      BurstRunKeepsPhase(s, front, k, b);
      RunKeepsInv(s, labels);
      BurstStep(Run(s, front).value, labels[|labels| - 1], k, b);
    }
  }

  /** t is a caller of the burst that has returned. */
  predicate ReturnedCaller(s: State, k: Key, b: Base, t: Tid) {
    Guest(s, k, b, t) && s.threads[t].role.Caller? && s.threads[t].pc.Done?
  }

  /** v is the value of the one computation of the burst, written by it and now in the cache. */
  ghost predicate TheOneValue(s: State, k: Key, b: Base, v: Json) {
    && s.history.computes[k] == b.computes + 1
    && v != Null && (k, v) in s.history.produced
    && k in s.cache && s.cache[k].slot.value == v
    && (exists i :: Stored(s, k, b, i) && s.history.writes[i].value == v)
  }

  lemma ReturnedCallersAgree(s: State, t: Tid, k: Key, b: Base)
    requires Inv(s) && Phase(s, k, b) && ReturnedCaller(s, k, b, t)
    ensures TheOneValue(s, k, b, s.threads[t].pc.answer.value)
  {
    assert !UnservedThread(s.threads[t]);
    assert forall h: Tid :: !Busy(s, k, b, h);
    assert Settled(s.threads[t], s.cache[k]);
    var i := WarmWrite(s, k, b);
    assert WriteOk(s.history, s.now, s.threads, s.history.writes[i]);
  }

  lemma BurstPhase(s: State, labels: seq<Label>, k: Key)
    requires ColdStart(s, k) && BurstRun(s, labels, k, BaseOf(s, k))
    ensures Inv(Run(s, labels).value) && Phase(Run(s, labels).value, k, BaseOf(s, k))
  {
    var b := BaseOf(s, k);
    ReachableInv(s);
    assert forall t: Tid :: !Guest(s, k, b, t);
    assert Cold(s, k, b) && Guests(s, k, b);
    BurstRunKeepsPhase(s, labels, k, b);
  }

  /** Cold burst: whenever a key reads as absent and no call for it is under way, however many callers
      arrive and however they interleave, the key is computed at most once more, and every caller of
      the burst that has returned got the value of that one computation. */
  lemma ColdBurstComputesOnce(s: State, labels: seq<Label>, k: Key)
    requires ColdStart(s, k) && BurstRun(s, labels, k, BaseOf(s, k))
    ensures var s', b := Run(s, labels).value, BaseOf(s, k);
      && s'.history.computes[k] <= s.history.computes[k] + 1
      && (forall t: Tid :: ReturnedCaller(s', k, b, t) ==> TheOneValue(s', k, b, s'.threads[t].pc.answer.value))
  {
    BurstPhase(s, labels, k);
    var s', b := Run(s, labels).value, BaseOf(s, k);
    forall t: Tid | ReturnedCaller(s', k, b, t) ensures TheOneValue(s', k, b, s'.threads[t].pc.answer.value) {
      ReturnedCallersAgree(s', t, k, b);
    }
  }

  // ---------------------------------------------------------------- progress

  /** How many more steps a thread can take, counting those of a refresher it may still spawn. */
  function StepsLeft(th: Thread): nat {
    match th.pc
    case Start => if th.role.Refresher? then 15 else 20
    case Reading => 19
    case Judging(_, _) => 18
    case Marking(_) => 17
    case Submitting(_) => 16
    case Unmarking(_) => 1
    case FindLock => 14
    case WantMaster => 13
    case HasMaster => 12
    case Creating => 11
    case LeavingMaster(_) => 10
    case AtLock(_) => 9
    case ReReading(_) => 8
    case ReJudging(_, _, _) => 7
    case Computing(_) => 6
    case Wrapping(_, _) => 5
    case Storing(_, _, _) => 4
    case Leaving(_, _) => 3
    case Clearing(_) => 1
    case Done(_) => 0
  }

  function Work(threads: seq<Thread>): nat {
    if threads == [] then 0 else Work(threads[..|threads| - 1]) + StepsLeft(threads[|threads| - 1])
  }

  lemma {:induction false} WorkOfUpdate(threads: seq<Thread>, t: Tid, th: Thread)
    requires t < |threads|
    ensures Work(threads[t := th]) == Work(threads) - StepsLeft(threads[t]) + StepsLeft(th)
  {
    var n := |threads| - 1;
    if t == n {
      assert threads[t := th][..n] == threads[..n];
    } else {
      assert threads[t := th][..n] == threads[..n][t := th];
      WorkOfUpdate(threads[..n], t, th);
    }
  }

  lemma StepDecidesDownwards(s: State, th: Thread, c: Choice, e: Effect)
    requires Decide(s, th, c) == Some(e)
    ensures StepsLeft(th.(pc := e.pc)) + (if e.mark.Spawn? then 15 else 0) < StepsLeft(th)
  {
  }

  lemma StepReducesWork(s: State, t: Tid, c: Choice)
    requires Apply(s, Step(t, c)).Some?
    ensures Work(Apply(s, Step(t, c)).value.threads) < Work(s.threads)
  {
    var th := s.threads[t];
    var e := Decide(s, th, c).value;
    var moved := s.threads[t := th.(pc := e.pc)];
    StepDecidesDownwards(s, th, c, e);
    WorkOfUpdate(s.threads, t, th.(pc := e.pc));
    if e.mark.Spawn? {
      var newcomer := Thread(Refresher, th.key, th.ttl, Start);
      assert (moved + [newcomer])[..|moved|] == moved;
    } else {
      assert moved + [] == moved;
    }
  }

  function CountSteps(labels: seq<Label>): nat {
    if labels == [] then 0
    else CountSteps(labels[..|labels| - 1]) + if labels[|labels| - 1].Step? then 1 else 0
  }

  /** Without new calls, a schedule has at most Work steps: no thread loops. */
  lemma {:induction false} EveryScheduleIsBounded(s: State, labels: seq<Label>)
    requires Run(s, labels).Some? && forall i :: 0 <= i < |labels| ==> !labels[i].Call?
    ensures CountSteps(labels) + Work(Run(s, labels).value.threads) <= Work(s.threads)
    decreases |labels|
  {
    if labels != [] {
      var front, last := labels[..|labels| - 1], labels[|labels| - 1];
      EveryScheduleIsBounded(s, front);
      if last.Step? { StepReducesWork(Run(s, front).value, last.t, last.choice); }
    }
  }

  predicate Blocked(s: State, th: Thread) {
    || th.pc.Done?
    || (th.pc.WantMaster? && s.locks.master.Some?)
    || (th.pc.AtLock? && !th.role.Refresher? && th.pc.lock in s.locks.owner)
  }

  /** A thread waits for nothing but a lock that another holds, and a refresher not even for the key's lock. */
  lemma UnblockedCanStep(s: State, t: Tid, c: Choice)
    requires t < |s.threads| && !Blocked(s, s.threads[t])
    ensures Apply(s, Step(t, c)).Some?
  {
  }

  lemma LockHolderCanStep(s: State, t: Tid, c: Choice) returns (u: Tid)
    requires LockInv(s) && t < |s.threads| && !s.threads[t].pc.Done?
    ensures Apply(s, Step(u, c)).Some?
  {
    u := t;
    if s.threads[t].pc.WantMaster? && s.locks.master.Some? {
      u := s.locks.master.value;
      assert ThreadLocksOk(s.locks, u, s.threads[u]);
    } else if s.threads[t].pc.AtLock? && s.threads[t].pc.lock in s.locks.owner {
      u := s.locks.owner[s.threads[t].pc.lock];
    }
    UnblockedCanStep(s, u, c);
  }

  /** No deadlock: while some call or background job is unfinished, some thread can take a step,
      whatever the environment answers. Together with EveryScheduleIsBounded, every call returns. */
  lemma SomeoneCanStep(s: State, t: Tid, c: Choice) returns (u: Tid)
    requires Reachable(s) && t < |s.threads| && !s.threads[t].pc.Done?
    ensures Apply(s, Step(u, c)).Some?
  {
    ReachableInv(s);
    u := LockHolderCanStep(s, t, c);
  }

  /** No thread can step, whatever the environment answers. */
  ghost predicate Quiet(s: State) {
    forall t: Tid, c: Choice :: Apply(s, Step(t, c)).None?
  }

  lemma QuietIsDone(s: State)
    requires LockInv(s) && Quiet(s)
    ensures forall u: Tid :: u < |s.threads| ==> s.threads[u].pc.Done?
  {
    forall u: Tid | u < |s.threads| ensures s.threads[u].pc.Done? {
      if !s.threads[u].pc.Done? {
        var c := Choice(true, None);
        var w := LockHolderCanStep(s, u, c);
        assert false;
      }
    }
  }

  /** The whole burst: when at least one caller has come and nothing is left to do, every call has
      returned, the key was computed exactly once more, and all callers have that one value. */
  lemma ColdBurstCompletes(s: State, labels: seq<Label>, k: Key, t: Tid)
    requires ColdStart(s, k) && BurstRun(s, labels, k, BaseOf(s, k)) && Quiet(Run(s, labels).value)
    requires Guest(Run(s, labels).value, k, BaseOf(s, k), t) && Run(s, labels).value.threads[t].role.Caller?
    ensures var s', b := Run(s, labels).value, BaseOf(s, k);
      && (forall u: Tid :: u < |s'.threads| ==> s'.threads[u].pc.Done?)
      && s'.history.computes[k] == s.history.computes[k] + 1
      && TheOneValue(s', k, b, s'.threads[t].pc.answer.value)
      && (forall u: Tid :: Guest(s', k, b, u) && s'.threads[u].role.Caller? ==>
            s'.threads[u].pc.answer.value == s'.threads[t].pc.answer.value)
  {
    BurstPhase(s, labels, k);
    var s', b := Run(s, labels).value, BaseOf(s, k);
    QuietIsDone(s');
    ColdBurstComputesOnce(s, labels, k);
    assert ReturnedCaller(s', k, b, t);
    forall u: Tid | Guest(s', k, b, u) && s'.threads[u].role.Caller?
      ensures s'.threads[u].pc.answer.value == s'.threads[t].pc.answer.value
    {
      assert ReturnedCaller(s', k, b, u);
      assert TheOneValue(s', k, b, s'.threads[u].pc.answer.value);
    }
  }
}
