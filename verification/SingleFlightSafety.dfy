/**
 Safety of the single-flight protocol: what every interleaving keeps.
 */
module SingleFlightSafety {
  import opened Common
  import opened SingleFlight

  // ---------------------------------------------------------------- locks

  /** The per-key lock a thread has a reference to. */
  function LockRef(pc: PC): Option<Lock> {
    match pc
    case LeavingMaster(l) => Some(l)
    case AtLock(l) => Some(l)
    case _ => Holding(pc)
  }

  /** The per-key lock a thread has acquired and not released. */
  function Holding(pc: PC): Option<Lock> {
    match pc
    case ReReading(l) => Some(l)
    case ReJudging(l, _, _) => Some(l)
    case Computing(h) => h
    case Wrapping(h, _) => h
    case Storing(h, _, _) => h
    case Leaving(h, _) => h
    case _ => None
  }

  predicate UnderMaster(pc: PC) {
    pc.HasMaster? || pc.Creating? || pc.LeavingMaster?
  }

  /** Inside the section guarded by the per-key lock, from the double-check to the release. */
  predicate InComputeSection(pc: PC) {
    pc.ReReading? || pc.ReJudging? || pc.Computing? || pc.Wrapping? || pc.Storing? || pc.Leaving?
  }

  predicate Unlocked(role: Role) {
    role.Setter? || (role.Caller? && role.force)
  }

  ghost predicate LocksWellFormed(lt: LockTables, threads: seq<Thread>) {
    && (forall k :: k in lt.byKey ==> lt.byKey[k] < lt.next)
    && (forall k1, k2 :: k1 in lt.byKey && k2 in lt.byKey && lt.byKey[k1] == lt.byKey[k2] ==> k1 == k2)
    && (forall l :: l in lt.owner ==> lt.owner[l] < |threads| && Holding(threads[lt.owner[l]].pc) == Some(l))
    && (lt.master.Some? ==> lt.master.value < |threads|)
  }

  ghost predicate ThreadLocksOk(lt: LockTables, t: Tid, th: Thread) {
    && (LockRef(th.pc).Some? ==> th.key in lt.byKey && lt.byKey[th.key] == LockRef(th.pc).value)
    && (Holding(th.pc).Some? ==> Holding(th.pc).value in lt.owner && lt.owner[Holding(th.pc).value] == t)
    && (UnderMaster(th.pc) <==> lt.master == Some(t))
    && (th.pc.Creating? ==> th.key !in lt.byKey)
    && (InComputeSection(th.pc) && !Unlocked(th.role) ==> Holding(th.pc).Some?)
  }

  ghost predicate LockInv(s: State) {
    && LocksWellFormed(s.locks, s.threads)
    && (forall t: Tid :: t < |s.threads| ==> ThreadLocksOk(s.locks, t, s.threads[t]))
  }

  /** The discipline every step follows: which lock operation goes with which program points. */
  predicate LockMove(lt: LockTables, th: Thread, e: Effect) {
    match e.lock
    case KeepLocks => Holding(e.pc) == Holding(th.pc) && (UnderMaster(e.pc) <==> UnderMaster(th.pc))
    case TakeMaster => lt.master == None && UnderMaster(e.pc) && Holding(th.pc) == Holding(e.pc) == None
    case FreeMaster => UnderMaster(th.pc) && !UnderMaster(e.pc) && Holding(th.pc) == Holding(e.pc) == None
    case NewLock => th.pc.Creating? && e.pc == LeavingMaster(lt.next)
    case Acquire(l) => th.pc == AtLock(l) && l !in lt.owner && Holding(e.pc) == Some(l) && !UnderMaster(e.pc)
    case Release(l) =>
      Holding(th.pc) == Some(l) && Holding(e.pc) == None && !UnderMaster(th.pc) && !UnderMaster(e.pc)
  }

  lemma DecideFollowsDiscipline(s: State, th: Thread, c: Choice, e: Effect)
    requires Decide(s, th, c) == Some(e)
    ensures LockMove(s.locks, th, e)
    ensures InComputeSection(e.pc) && !Unlocked(th.role) ==> Holding(e.pc).Some? || InComputeSection(th.pc)
    ensures e.pc.Creating? ==> th.pc.HasMaster? && th.key !in s.locks.byKey
    ensures LockRef(e.pc).Some? && e.lock != NewLock ==>
      LockRef(e.pc) == LockRef(th.pc)
      || (th.key in s.locks.byKey && LockRef(e.pc) == Some(s.locks.byKey[th.key]))
  {
  }

  lemma ActorKeepsLocks(s: State, t: Tid, th: Thread, c: Choice, e: Effect)
    requires Decide(s, th, c) == Some(e) && ThreadLocksOk(s.locks, t, th)
    ensures ThreadLocksOk(CommitLocks(s.locks, t, th.key, e.lock), t, th.(pc := e.pc))
  {
    DecideFollowsDiscipline(s, th, c, e);
  }

  lemma OthersKeepLocks(lt: LockTables, t: Tid, th: Thread, e: Effect, u: Tid, other: Thread)
    requires LockMove(lt, th, e) && ThreadLocksOk(lt, t, th)
    requires u != t && ThreadLocksOk(lt, u, other)
    ensures ThreadLocksOk(CommitLocks(lt, t, th.key, e.lock), u, other)
  {
  }

  lemma StepKeepsLockTables(s: State, t: Tid, e: Effect)
    requires LockInv(s) && t < |s.threads| && LockMove(s.locks, s.threads[t], e)
    ensures LocksWellFormed(Commit(s, t, e).locks, Commit(s, t, e).threads)
  {
    assert ThreadLocksOk(s.locks, t, s.threads[t]);
  }

  lemma LockInvKept(s: State, l: Label)
    requires LockInv(s) && Apply(s, l).Some?
    ensures LockInv(Apply(s, l).value)
  {
    var s' := Apply(s, l).value;
    if l.Step? {
      var t, th := l.t, s.threads[l.t];
      var e := Decide(s, th, l.choice).value;
      DecideFollowsDiscipline(s, th, l.choice, e);
      StepKeepsLockTables(s, t, e);
      ActorKeepsLocks(s, t, th, l.choice, e);
      forall u: Tid | u < |s'.threads| ensures ThreadLocksOk(s'.locks, u, s'.threads[u]) {
        if u < |s.threads| && u != t {
          OthersKeepLocks(s.locks, t, th, e, u, s.threads[u]);
        }
      }
    }
  }

  // ---------------------------------------------------------------- refresh marks

  /** Stands for one outstanding background refresh: being submitted, queued or running. */
  predicate IsAgent(th: Thread) {
    th.pc.Submitting? || th.pc.Unmarking? || (th.role.Refresher? && !th.pc.Done?)
  }

  predicate RoleFits(th: Thread) {
    && (th.role.Refresher? ==>
          !(th.pc.Reading? || th.pc.Judging? || th.pc.Marking? || th.pc.ReReading? || th.pc.ReJudging?))
    && (th.pc.Marking? || th.pc.Submitting? || th.pc.Unmarking? ==> th.role.Caller?)
    && (th.pc.Clearing? ==> th.role.Refresher?)
    && (th.role.Getter? ==> th.pc.Start? || th.pc.Reading? || th.pc.Judging? || th.pc.Done?)
  }

  ghost predicate Served(threads: seq<Thread>, k: Key) {
    exists t: Tid :: t < |threads| && IsAgent(threads[t]) && threads[t].key == k
  }

  ghost predicate MarksMatch(marks: set<Key>, threads: seq<Thread>) {
    && (forall t: Tid :: t < |threads| ==> RoleFits(threads[t]))
    && (forall t: Tid :: t < |threads| && IsAgent(threads[t]) ==> threads[t].key in marks)
    && (forall t: Tid, u: Tid ::
          t < |threads| && u < |threads| && IsAgent(threads[t]) && IsAgent(threads[u])
              && threads[t].key == threads[u].key
          ==> t == u)
    && (forall k :: k in marks ==> Served(threads, k))
  }

  predicate MarkMove(marks: set<Key>, th: Thread, e: Effect) {
    var th' := th.(pc := e.pc);
    match e.mark
    case KeepMarks => IsAgent(th') == IsAgent(th)
    case Mark => !IsAgent(th) && IsAgent(th') && th.key !in marks
    case Unmark => IsAgent(th) && !IsAgent(th')
    case Spawn => IsAgent(th) && !IsAgent(th')
  }

  lemma DecideMarks(s: State, th: Thread, c: Choice, e: Effect)
    requires Decide(s, th, c) == Some(e) && RoleFits(th)
    ensures MarkMove(s.refreshing, th, e) && RoleFits(th.(pc := e.pc))
  {
  }

  lemma MarksKept(marks: set<Key>, threads: seq<Thread>, t: Tid, e: Effect)
    requires MarksMatch(marks, threads) && t < |threads|
    requires MarkMove(marks, threads[t], e) && RoleFits(threads[t].(pc := e.pc))
    ensures MarksMatch(CommitMarks(marks, threads[t].key, e.mark), CommitThreads(threads, t, e))
  {
    var threads' := CommitThreads(threads, t, e);
    var marks' := CommitMarks(marks, threads[t].key, e.mark);
    forall k | k in marks' ensures Served(threads', k) {
      if k == threads[t].key && e.mark.Spawn? {
        assert IsAgent(threads'[|threads|]);
      } else if k == threads[t].key && IsAgent(threads'[t]) {
      } else {
        var u: Tid :| u < |threads| && IsAgent(threads[u]) && threads[u].key == k;
        assert u != t && threads'[u] == threads[u];
      }
    }
  }

  // ---------------------------------------------------------------- provenance

  /** A cell is an older release's raw entry, or one of the recorded writes, landed by `time`. */
  ghost predicate Sound(writes: seq<Write>, k: Key, cell: Cell, time: real) {
    cell.slot.Legacy? || exists i :: 0 <= i < |writes| && Matches(writes[i], k, cell) && writes[i].at <= time
  }

  ghost predicate ReadOk(h: History, now: real, k: Key, raw: Option<Cell>, readAt: real) {
    && readAt <= now
    && (raw.Some? ==> Sound(h.writes, k, raw.value, readAt) && readAt < raw.value.expiry)
  }

  ghost predicate AnswerOk(h: History, now: real, th: Thread, a: Answer) {
    match a.source
    case Computed => (th.key, a.value) in h.produced
    case Failed => a.value == Null
    case Nothing => a.value == Null
    case Cached(cell, readAt, judgedAt) =>
      && a.value == cell.slot.value && a.value != Null
      && readAt <= judgedAt <= now
      && ReadOk(h, now, th.key, Some(cell), readAt)
      && (Unwrap(Some(cell), judgedAt).1 || (th.role.Caller? && th.role.allowStale))
  }

  ghost predicate DataOk(h: History, now: real, th: Thread) {
    match th.pc
    case Judging(raw, readAt) => ReadOk(h, now, th.key, raw, readAt)
    case ReJudging(_, raw, readAt) => ReadOk(h, now, th.key, raw, readAt)
    case Marking(a) => AnswerOk(h, now, th, a)
    case Submitting(a) => AnswerOk(h, now, th, a)
    case Unmarking(a) => AnswerOk(h, now, th, a)
    case Wrapping(_, v) => (th.key, v) in h.produced
    case Storing(_, v, wrappedAt) => (th.key, v) in h.produced && wrappedAt <= now
    case Leaving(_, a) => AnswerOk(h, now, th, a)
    case Clearing(a) => AnswerOk(h, now, th, a)
    case Done(a) => AnswerOk(h, now, th, a)
    case _ => true
  }

  /** Past a successful computation: the only place a writer can be. */
  predicate PastComputed(pc: PC) {
    (pc.Leaving? || pc.Clearing? || pc.Done?) && pc.answer.source.Computed?
  }

  ghost predicate WriteOk(h: History, now: real, threads: seq<Thread>, w: Write) {
    && (w.writer.Some? ==>
          && w.writer.value < |threads| && PastComputed(threads[w.writer.value].pc)
          && threads[w.writer.value].key == w.key)
    && (w.key, w.value) in h.produced
    && w.wrappedAt <= w.at <= now
  }

  ghost predicate DataInv(s: State) {
    && (forall k :: k in s.cache ==> Sound(s.history.writes, k, s.cache[k], s.now))
    && (forall i :: 0 <= i < |s.history.writes| ==> WriteOk(s.history, s.now, s.threads, s.history.writes[i]))
    && (forall t: Tid :: t < |s.threads| ==> DataOk(s.history, s.now, s.threads[t]))
  }

  predicate Grows(h: History, h': History) {
    h.writes <= h'.writes && h.produced <= h'.produced
  }

  lemma SoundKept(writes: seq<Write>, writes': seq<Write>, k: Key, cell: Cell, time: real, time': real)
    requires Sound(writes, k, cell, time) && writes <= writes' && time <= time'
    ensures Sound(writes', k, cell, time')
  {
    if !cell.slot.Legacy? {
      var i :| 0 <= i < |writes| && Matches(writes[i], k, cell) && writes[i].at <= time;
      assert writes'[i] == writes[i];
    }
  }

  lemma ReadKept(h: History, h': History, now: real, now': real, k: Key, raw: Option<Cell>, readAt: real)
    requires ReadOk(h, now, k, raw, readAt) && Grows(h, h') && now <= now'
    ensures ReadOk(h', now', k, raw, readAt)
  {
    if raw.Some? { SoundKept(h.writes, h'.writes, k, raw.value, readAt, readAt); }
  }

  lemma AnswerKept(h: History, h': History, now: real, now': real, th: Thread, a: Answer)
    requires AnswerOk(h, now, th, a) && Grows(h, h') && now <= now'
    ensures AnswerOk(h', now', th, a)
  {
    if a.source.Cached? { ReadKept(h, h', now, now', th.key, Some(a.source.cell), a.source.readAt); }
  }

  lemma DataKept(h: History, h': History, now: real, now': real, th: Thread)
    requires DataOk(h, now, th) && Grows(h, h') && now <= now'
    ensures DataOk(h', now', th)
  {
    match th.pc
    case Judging(raw, readAt) => ReadKept(h, h', now, now', th.key, raw, readAt);
    case ReJudging(_, raw, readAt) => ReadKept(h, h', now, now', th.key, raw, readAt);
    case Marking(a) => AnswerKept(h, h', now, now', th, a);
    case Submitting(a) => AnswerKept(h, h', now, now', th, a);
    case Unmarking(a) => AnswerKept(h, h', now, now', th, a);
    case Leaving(_, a) => AnswerKept(h, h', now, now', th, a);
    case Clearing(a) => AnswerKept(h, h', now, now', th, a);
    case Done(a) => AnswerKept(h, h', now, now', th, a);
    case _ =>
  }

  predicate IsReading(pc: PC) {
    pc.Reading? || pc.ReReading? || pc.Judging? || pc.ReJudging?
  }

  lemma ReaderDataKept(s: State, t: Tid, th: Thread, c: Choice, e: Effect)
    requires Decide(s, th, c) == Some(e) && DataOk(s.history, s.now, th) && IsReading(th.pc)
    requires forall k :: k in s.cache ==> Sound(s.history.writes, k, s.cache[k], s.now)
    ensures DataOk(CommitHistory(s.history, t, th, s.now, e.data), s.now, th.(pc := e.pc))
    ensures !e.data.Put?
  {
  }

  lemma OtherDataKept(s: State, t: Tid, th: Thread, c: Choice, e: Effect)
    requires Decide(s, th, c) == Some(e) && DataOk(s.history, s.now, th) && !IsReading(th.pc)
    ensures DataOk(CommitHistory(s.history, t, th, s.now, e.data), s.now, th.(pc := e.pc))
    ensures e.data.Put? ==>
      th.pc.Storing? && PastComputed(e.pc) && (th.key, e.data.value) in s.history.produced && e.data.wrappedAt <= s.now
    ensures PastComputed(th.pc) ==> PastComputed(e.pc)
  {
    var h' := CommitHistory(s.history, t, th, s.now, e.data);
    if th.pc.Marking? || th.pc.Submitting? || th.pc.Unmarking? || th.pc.Leaving? || th.pc.Clearing? {
      AnswerKept(s.history, h', s.now, s.now, th, th.pc.answer);
    }
  }

  lemma ActorDataKept(s: State, t: Tid, th: Thread, c: Choice, e: Effect)
    requires Decide(s, th, c) == Some(e) && DataOk(s.history, s.now, th)
    requires forall k :: k in s.cache ==> Sound(s.history.writes, k, s.cache[k], s.now)
    ensures DataOk(CommitHistory(s.history, t, th, s.now, e.data), s.now, th.(pc := e.pc))
    ensures e.data.Put? ==>
      th.pc.Storing? && PastComputed(e.pc) && (th.key, e.data.value) in s.history.produced && e.data.wrappedAt <= s.now
    ensures PastComputed(th.pc) ==> PastComputed(e.pc)
  {
    if IsReading(th.pc) {
      ReaderDataKept(s, t, th, c, e);
    } else {
      OtherDataKept(s, t, th, c, e);
    }
  }

  lemma StepKeepsData(s: State, t: Tid, c: Choice, e: Effect)
    requires DataInv(s) && t < |s.threads| && Decide(s, s.threads[t], c) == Some(e)
    ensures DataInv(Commit(s, t, e))
  {
    var th, s' := s.threads[t], Commit(s, t, e);
    ActorDataKept(s, t, th, c, e);
    forall u: Tid | u < |s'.threads| ensures DataOk(s'.history, s'.now, s'.threads[u]) {
      if u < |s.threads| && u != t { DataKept(s.history, s'.history, s.now, s.now, s.threads[u]); }
    }
    forall k | k in s'.cache ensures Sound(s'.history.writes, k, s'.cache[k], s'.now) {
      if k == th.key && e.data.Put? {
        assert Matches(s'.history.writes[|s.history.writes|], k, s'.cache[k]);
      } else {
        SoundKept(s.history.writes, s'.history.writes, k, s.cache[k], s.now, s.now);
      }
    }
    forall i | 0 <= i < |s'.history.writes|
      ensures WriteOk(s'.history, s'.now, s'.threads, s'.history.writes[i])
    {
      if i < |s.history.writes| { assert WriteOk(s.history, s.now, s.threads, s.history.writes[i]); }
    }
  }

  lemma QuietKeepsData(s: State, l: Label)
    requires DataInv(s) && !l.Step? && Apply(s, l).Some?
    ensures DataInv(Apply(s, l).value)
  {
    var s' := Apply(s, l).value;
    forall u: Tid | u < |s'.threads| ensures DataOk(s'.history, s'.now, s'.threads[u]) {
      if u < |s.threads| { DataKept(s.history, s'.history, s.now, s'.now, s.threads[u]); }
    }
    forall k | k in s'.cache ensures Sound(s'.history.writes, k, s'.cache[k], s'.now) {
      SoundKept(s.history.writes, s'.history.writes, k, s.cache[k], s.now, s'.now);
    }
    forall i | 0 <= i < |s'.history.writes|
      ensures WriteOk(s'.history, s'.now, s'.threads, s'.history.writes[i])
    {
      assert WriteOk(s.history, s.now, s.threads, s.history.writes[i]);
    }
  }

  // ---------------------------------------------------------------- whole runs

  ghost predicate Inv(s: State) {
    LockInv(s) && MarksMatch(s.refreshing, s.threads) && DataInv(s)
  }

  lemma ApplyKeepsInv(s: State, l: Label)
    requires Inv(s) && Apply(s, l).Some?
    ensures Inv(Apply(s, l).value)
  {
    LockInvKept(s, l);
    if l.Step? {
      var e := Decide(s, s.threads[l.t], l.choice).value;
      DecideMarks(s, s.threads[l.t], l.choice, e);
      MarksKept(s.refreshing, s.threads, l.t, e);
      StepKeepsData(s, l.t, l.choice, e);
    } else {
      QuietKeepsData(s, l);
      NewcomerKeepsMarks(s, l);
    }
  }

  lemma NewcomerKeepsMarks(s: State, l: Label)
    requires MarksMatch(s.refreshing, s.threads) && !l.Step? && Apply(s, l).Some?
    ensures MarksMatch(s.refreshing, Apply(s, l).value.threads)
  {
    var threads' := Apply(s, l).value.threads;
    forall k | k in s.refreshing ensures Served(threads', k) {
      var u: Tid :| u < |s.threads| && IsAgent(s.threads[u]) && s.threads[u].key == k;
      assert threads'[u] == s.threads[u];
    }
  }

  /** Every schedule of every number of threads keeps the invariant. */
  lemma {:induction false} RunKeepsInv(s: State, labels: seq<Label>)
    requires Inv(s) && Run(s, labels).Some?
    ensures Inv(Run(s, labels).value)
    decreases |labels|
  {
    if labels != [] {
      var front := labels[..|labels| - 1];
      RunKeepsInv(s, front);
      ApplyKeepsInv(Run(s, front).value, labels[|labels| - 1]);
    }
  }

  ghost predicate Reachable(s: State) {
    exists s0, labels :: Init(s0) && Run(s0, labels) == Some(s)
  }

  lemma InitInv(s: State)
    requires Init(s)
    ensures Inv(s)
  {
    forall k | k in s.cache ensures Sound(s.history.writes, k, s.cache[k], s.now) {
      if !s.cache[k].slot.Legacy? {
        var i :| 0 <= i < |s.history.writes| && Matches(s.history.writes[i], k, s.cache[k]);
        assert EarlierWrite(s, s.history.writes[i]);
      }
    }
    forall i | 0 <= i < |s.history.writes| ensures WriteOk(s.history, s.now, s.threads, s.history.writes[i]) {
      assert EarlierWrite(s, s.history.writes[i]);
    }
  }

  lemma ReachableInv(s: State)
    requires Reachable(s)
    ensures Inv(s)
  {
    var s0, labels :| Init(s0) && Run(s0, labels) == Some(s);
    InitInv(s0);
    RunKeepsInv(s0, labels);
  }

  /** Single flight: two threads inside the compute section of one key are the same thread, unless
      one of them was forced or is a plain write. Every other thread in the section holds the key's lock. */
  lemma AtMostOneCompute(s: State, t: Tid, u: Tid)
    requires Reachable(s) && t < |s.threads| && u < |s.threads| && s.threads[t].key == s.threads[u].key
    requires InComputeSection(s.threads[t].pc) && !Unlocked(s.threads[t].role)
    requires InComputeSection(s.threads[u].pc) && !Unlocked(s.threads[u].role)
    ensures t == u
    ensures s.threads[t].key in s.locks.byKey
    ensures Holding(s.threads[t].pc) == Some(s.locks.byKey[s.threads[t].key])
  {
    ReachableInv(s);
    assert ThreadLocksOk(s.locks, t, s.threads[t]) && ThreadLocksOk(s.locks, u, s.threads[u]);
  }

  lemma LockKept(s: State, l: Label, k: Key)
    requires LockInv(s) && Apply(s, l).Some? && k in s.locks.byKey
    ensures k in Apply(s, l).value.locks.byKey
    ensures Apply(s, l).value.locks.byKey[k] == s.locks.byKey[k]
  {
    if l.Step? {
      var th := s.threads[l.t];
      var e := Decide(s, th, l.choice).value;
      DecideFollowsDiscipline(s, th, l.choice, e);
      assert ThreadLocksOk(s.locks, l.t, th);
    }
  }

  /** A key's lock object, once created, is the key's lock for ever, and no other key shares it. */
  lemma {:induction false} LockNeverReplaced(s: State, labels: seq<Label>, k: Key)
    requires Reachable(s) && Run(s, labels).Some? && k in s.locks.byKey
    ensures var lt := Run(s, labels).value.locks;
      k in lt.byKey && lt.byKey[k] == s.locks.byKey[k]
      && forall j :: j in lt.byKey && lt.byKey[j] == lt.byKey[k] ==> j == k
    decreases |labels|
  {
    ReachableInv(s);
    RunKeepsInv(s, labels);
    if labels != [] {
      var front := labels[..|labels| - 1];
      LockNeverReplaced(s, front, k);
      RunKeepsInv(s, front);
      LockKept(Run(s, front).value, labels[|labels| - 1], k);
    }
  }

  /** A key is marked as refreshing exactly while one refresh for it is being submitted, queued or
      running, and never two; with no outstanding refresh the mark set is empty. */
  lemma RefreshMarkedExactlyWhileOutstanding(s: State, k: Key)
    requires Reachable(s)
    ensures k in s.refreshing <==> Served(s.threads, k)
    ensures forall t: Tid, u: Tid ::
      t < |s.threads| && u < |s.threads| && IsAgent(s.threads[t]) && IsAgent(s.threads[u])
          && s.threads[t].key == s.threads[u].key
      ==> t == u
    ensures (forall t: Tid :: t < |s.threads| ==> !IsAgent(s.threads[t])) ==> s.refreshing == {}
  {
    ReachableInv(s);
    if s.refreshing != {} {
      var j :| j in s.refreshing;
      assert Served(s.threads, j);
    }
  }

  lemma CachedOrigin(h: History, now: real, th: Thread, a: Answer) returns (i: nat)
    requires AnswerOk(h, now, th, a) && a.source.Cached? && a.source.cell.slot.Envelope?
    ensures i < |h.writes| && Matches(h.writes[i], th.key, a.source.cell) && h.writes[i].at <= a.source.readAt
    ensures a.source.readAt < a.source.cell.expiry && a.value == a.source.cell.slot.value && a.value != Null
    ensures !(th.role.Caller? && th.role.allowStale) ==> a.source.judgedAt < a.source.cell.slot.hardUntil
  {
    i :| i < |h.writes| && Matches(h.writes[i], th.key, a.source.cell) && h.writes[i].at <= a.source.readAt;
  }

  /** Where a returned cached value comes from and how old it can be. A non-None value taken from an
      envelope was produced for that key and written by a recorded write; it was read less than
      SWR_MULTIPLIER times that writer's TTL after it landed, and unless the caller accepts stale values
      it was judged less than that TTL after it was wrapped. */
  lemma ProvenanceAndAge(s: State, t: Tid, cell: Cell, readAt: real, judgedAt: real)
    returns (w: Write)
    requires Reachable(s) && t < |s.threads| && s.threads[t].pc.Done?
    requires s.threads[t].pc.answer.source == Cached(cell, readAt, judgedAt) && cell.slot.Envelope?
    ensures w in s.history.writes && w.key == s.threads[t].key
    ensures w.value == s.threads[t].pc.answer.value && w.value != Null
    ensures (w.key, w.value) in s.history.produced
    ensures w.at <= readAt < w.at + (w.ttl * SWR_MULTIPLIER) as real
    ensures !(s.threads[t].role.Caller? && s.threads[t].role.allowStale) ==>
      w.ttl >= 1 && judgedAt < w.wrappedAt + w.ttl as real
  {
    ReachableInv(s);
    assert DataOk(s.history, s.now, s.threads[t]);
    var i := CachedOrigin(s.history, s.now, s.threads[t], s.threads[t].pc.answer);
    w := s.history.writes[i];
    assert WriteOk(s.history, s.now, s.threads, w);
    assert (w.ttl * SWR_MULTIPLIER) as real > 0.0;
  }

  /** A computation that raised returns None and never wrote; whatever a step does to the cache is a
      recorded write of the same key by the stepping thread, or an explicit drop. */
  lemma FailedComputeNeverWrites(s: State, t: Tid, i: int)
    requires Reachable(s) && t < |s.threads| && 0 <= i < |s.history.writes|
    requires s.threads[t].pc.Done? && s.threads[t].pc.answer.source.Failed?
    ensures s.threads[t].pc.answer.value == Null
    ensures s.history.writes[i].writer != Some(t)
  {
    ReachableInv(s);
    assert DataOk(s.history, s.now, s.threads[t]);
    assert WriteOk(s.history, s.now, s.threads, s.history.writes[i]);
  }

  lemma CacheChangesByWrites(s: State, l: Label, k: Key)
    requires Apply(s, l).Some? && k in Apply(s, l).value.cache
    ensures var s', n := Apply(s, l).value, |s.history.writes|;
      && s.history.writes <= s'.history.writes
      && ((k in s.cache && s'.cache[k] == s.cache[k])
          || (n < |s'.history.writes| && Matches(s'.history.writes[n], k, s'.cache[k])))
  {
  }

  /** Over a whole run, the entry under a key is the one it started with or one written during the run. */
  lemma {:induction false} EntriesOnlyComeFromWrites(s: State, labels: seq<Label>, k: Key)
    requires Run(s, labels).Some? && k in Run(s, labels).value.cache
    ensures var s' := Run(s, labels).value;
      (k in s.cache && s'.cache[k] == s.cache[k])
      || exists i :: |s.history.writes| <= i < |s'.history.writes| && Matches(s'.history.writes[i], k, s'.cache[k])
    decreases |labels|
  {
    if labels != [] {
      var front, last := labels[..|labels| - 1], labels[|labels| - 1];
      var mid, s' := Run(s, front).value, Run(s, labels).value;
      WritesGrow(s, front);
      CacheChangesByWrites(mid, last, k);
      if k in mid.cache && s'.cache[k] == mid.cache[k] {
        EntriesOnlyComeFromWrites(s, front, k);
        if !(k in s.cache && s'.cache[k] == s.cache[k]) {
          var i :| |s.history.writes| <= i < |mid.history.writes| && Matches(mid.history.writes[i], k, mid.cache[k]);
          assert s'.history.writes[i] == mid.history.writes[i];
        }
      }
    }
  }

  lemma {:induction false} WritesGrow(s: State, labels: seq<Label>)
    requires Run(s, labels).Some?
    ensures s.history.writes <= Run(s, labels).value.history.writes
    decreases |labels|
  {
    if labels != [] { WritesGrow(s, labels[..|labels| - 1]); }
  }
}
