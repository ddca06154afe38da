/**
 Where the single-flight promises end: runs in which a key is computed more than once.
 */
module SingleFlightLimits {
  import opened Common
  import opened SingleFlight
  import opened SingleFlightSafety
  import opened SingleFlightBurst

  // ---------------------------------------------------------------- what force gives up

  lemma Extend(s0: State, labels: seq<Label>, s: State, l: Label)
    requires Run(s0, labels) == Some(s)
    ensures Run(s0, labels + [l]) == Apply(s, l)
  {
    assert (labels + [l])[..|labels|] == labels;
  }

  /** The single-flight promise is about unforced callers only: two forced callers compute one key at
      the same time, since the forced path takes no lock. */
  lemma ForcedCallersOverlap() returns (s: State)
    ensures Reachable(s) && |s.threads| == 2 && s.threads[0].key == s.threads[1].key == "k"
    ensures s.threads[0].pc.Computing? && s.threads[1].pc.Computing?
  {
    var s0 := State(0.0, map[], LockTables(map[], 0, map[], None), {}, [], History(multiset{}, {}, []));
    var call, c := Call(Caller(true, true), "k", 60), Choice(true, None);
    var s1 := Apply(s0, call).value;
    var s2 := Apply(s1, call).value;
    var s3 := Apply(s2, Step(0, c)).value;
    s := Apply(s3, Step(1, c)).value;
    Extend(s0, [], s0, call);
    Extend(s0, [] + [call], s1, call);
    Extend(s0, [] + [call] + [call], s2, Step(0, c));
    Extend(s0, [] + [call] + [call] + [Step(0, c)], s3, Step(1, c));
  }

  // ---------------------------------------------------------------- what a None result gives up

  /** Backend and computations succeed, and every result is None. */
  const NONE_RESULT := Choice(true, Some(Null))

  /** Thread t moves and nothing else of s changes but what the caller of this lemma learns from Commit. */
  lemma Solo(s: State, t: Tid, e: Effect) returns (s': State)
    requires Reachable(s) && t < |s.threads| && Decide(s, s.threads[t], NONE_RESULT) == Some(e) && e.mark.KeepMarks?
    ensures Reachable(s') && s'.now == s.now && |s'.threads| == |s.threads|
    ensures s'.threads[t] == s.threads[t].(pc := e.pc)
    ensures forall u: Tid :: u < |s.threads| && u != t ==> s'.threads[u] == s.threads[u]
    ensures s'.cache == CommitCache(s.cache, s.threads[t], s.now, e.data)
    ensures s'.locks == CommitLocks(s.locks, t, s.threads[t].key, e.lock)
    ensures s'.history == CommitHistory(s.history, t, s.threads[t], s.now, e.data)
  {
    s' := Commit(s, t, e);
    ReachNext(s, Step(t, NONE_RESULT), s');
  }

  lemma ReachNext(s: State, l: Label, s': State)
    requires Reachable(s) && Apply(s, l) == Some(s')
    ensures Reachable(s')
  {
    var s0, labels :| Init(s0) && Run(s0, labels) == Some(s);
    Extend(s0, labels, s, l);
  }

  /** s' is s with thread t, an unforced caller of k, moved to pc; cache, clock and history are kept. */
  ghost predicate Walked(s: State, s': State, t: Tid, pc: PC) {
    && t < |s.threads| == |s'.threads| && s'.threads[t] == s.threads[t].(pc := pc)
    && (forall u: Tid :: u < |s.threads| && u != t ==> s'.threads[u] == s.threads[u])
    && s'.now == s.now && s'.cache == s.cache && s'.history == s.history
  }

  predicate IsUnforced(s: State, t: Tid) {
    t < |s.threads| && s.threads[t].role.Caller? && !s.threads[t].role.force
  }

  lemma ReadsNothing(s: State, t: Tid) returns (s': State)
    requires Reachable(s) && IsUnforced(s, t) && s.threads[t].pc.Start? && ReadsNone(s, s.threads[t].key)
    ensures Reachable(s') && Walked(s, s', t, FindLock) && s'.locks == s.locks
  {
    s' := Solo(s, t, Effect(Reading));
    s' := Solo(s', t, Effect(Judging(Fetch(s', s.threads[t].key, true), s'.now)));
    s' := Solo(s', t, Effect(FindLock));
  }

  lemma TakesMaster(s: State, t: Tid) returns (s': State)
    requires Reachable(s) && t < |s.threads| && s.threads[t].pc.FindLock?
    requires s.threads[t].key !in s.locks.byKey && s.locks.master == None
    ensures Reachable(s') && Walked(s, s', t, Creating) && s'.locks == s.locks.(master := Some(t))
  {
    s' := Solo(s, t, Effect(WantMaster));
    s' := Solo(s', t, Effect(HasMaster, lock := TakeMaster));
    s' := Solo(s', t, Effect(Creating));
  }

  lemma MakesLock(s: State, t: Tid) returns (s': State)
    requires Reachable(s) && t < |s.threads| && s.threads[t].pc.FindLock?
    requires s.threads[t].key !in s.locks.byKey && s.locks.master == None
    ensures Reachable(s') && Walked(s, s', t, AtLock(s.locks.next)) && s'.locks.owner == s.locks.owner
    ensures s'.locks.byKey == s.locks.byKey[s.threads[t].key := s.locks.next] && s'.locks.master == None
  {
    s' := TakesMaster(s, t);
    s' := Solo(s', t, Effect(LeavingMaster(s.locks.next), lock := NewLock));
    s' := Solo(s', t, Effect(AtLock(s.locks.next), lock := FreeMaster));
  }

  lemma RereadsNothing(s: State, t: Tid, l: Lock) returns (s': State)
    requires Reachable(s) && IsUnforced(s, t) && s.threads[t].pc == AtLock(l) && l !in s.locks.owner
    requires ReadsNone(s, s.threads[t].key)
    ensures Reachable(s') && Walked(s, s', t, ReJudging(l, Fetch(s, s.threads[t].key, true), s.now))
    ensures s'.locks == s.locks.(owner := s.locks.owner[l := t])
  {
    s' := Solo(s, t, Effect(ReReading(l), lock := Acquire(l)));
    s' := Solo(s', t, Effect(ReJudging(l, Fetch(s', s.threads[t].key, true), s'.now)));
  }

  lemma EntersCompute(s: State, t: Tid, l: Lock) returns (s': State)
    requires Reachable(s) && IsUnforced(s, t) && s.threads[t].pc == AtLock(l) && l !in s.locks.owner
    requires ReadsNone(s, s.threads[t].key)
    ensures Reachable(s') && |s'.threads| == |s.threads| && s'.threads[t] == s.threads[t].(pc := Computing(Some(l)))
    ensures forall u: Tid :: u < |s.threads| && u != t ==> s'.threads[u] == s.threads[u]
    ensures s'.now == s.now && s'.cache == s.cache
    ensures s'.locks.byKey == s.locks.byKey && s'.locks.owner == s.locks.owner[l := t]
    ensures s'.history.computes == s.history.computes + multiset{s.threads[t].key}
  {
    s' := RereadsNothing(s, t, l);
    s' := Solo(s', t, Effect(Computing(Some(l)), data := BeginCompute));
  }

  lemma ComputesNone(s: State, t: Tid, l: Lock) returns (s': State)
    requires Reachable(s) && IsUnforced(s, t) && s.threads[t].pc == Computing(Some(l))
    ensures Reachable(s') && |s'.threads| == |s.threads| && s'.now == s.now
    ensures s'.threads[t] == s.threads[t].(pc := Storing(Some(l), Null, s.now))
    ensures s'.locks == s.locks && s'.history.computes == s.history.computes
  {
    s' := Solo(s, t, Effect(Wrapping(Some(l), Null), data := Produce(Null)));
    s' := Solo(s', t, Effect(Storing(Some(l), Null, s.now)));
  }

  lemma PutsNone(s: State, t: Tid, l: Lock) returns (s': State)
    requires Reachable(s) && IsUnforced(s, t) && s.threads[t].pc == Storing(Some(l), Null, s.now)
    requires s.threads[t].ttl >= 1
    ensures Reachable(s') && |s'.threads| == |s.threads| && s'.now == s.now
    ensures s'.threads[t] == s.threads[t].(pc := Leaving(Some(l), Answer(Null, Computed)))
    ensures s.threads[t].key in s'.cache
    ensures s'.cache[s.threads[t].key].slot.value == Null && s'.now < s'.cache[s.threads[t].key].expiry
    ensures s'.locks == s.locks && s'.history.computes == s.history.computes
  {
    s' := Solo(s, t, Effect(Leaving(Some(l), Answer(Null, Computed)), data := Put(Null, s.now)));
    assert (s.threads[t].ttl * SWR_MULTIPLIER) as real > 0.0;
  }

  lemma NewCaller(s: State) returns (s': State)
    requires Reachable(s)
    ensures Reachable(s') && s' == s.(threads := s.threads + [Thread(Caller(false, true), "k", 60, Start)])
  {
    var l := Call(Caller(false, true), "k", 60);
    s' := Apply(s, l).value;
    ReachNext(s, l, s');
  }

  lemma FirstWaits() returns (s: State)
    ensures Reachable(s) && |s.threads| == 1 && s.history.computes == multiset{} && s.cache == map[]
    ensures s.threads[0] == Thread(Caller(false, true), "k", 60, AtLock(0))
    ensures s.locks.byKey == map["k" := 0] && s.locks.owner == map[]
  {
    s := State(0.0, map[], LockTables(map[], 0, map[], None), {}, [], History(multiset{}, {}, []));
    assert Run(s, []) == Some(s) && Init(s);
    s := NewCaller(s);
    s := ReadsNothing(s, 0);
    s := MakesLock(s, 0);
  }

  lemma FirstStores() returns (s: State)
    ensures Reachable(s) && |s.threads| == 1 && s.history.computes == multiset{"k"}
    ensures s.threads[0] == Thread(Caller(false, true), "k", 60, Leaving(Some(0), Answer(Null, Computed)))
    ensures "k" in s.cache && s.cache["k"].slot.value == Null && s.now < s.cache["k"].expiry
    ensures s.locks.byKey == map["k" := 0] && s.locks.owner == map[0 := 0]
  {
    s := FirstWaits();
    s := EntersCompute(s, 0, 0);
    s := ComputesNone(s, 0, 0);
    s := PutsNone(s, 0, 0);
  }

  lemma FirstNone() returns (s: State)
    ensures Reachable(s) && |s.threads| == 1 && s.history.computes == multiset{"k"}
    ensures s.threads[0] == Thread(Caller(false, true), "k", 60, Done(Answer(Null, Computed)))
    ensures "k" in s.cache && s.cache["k"].slot.value == Null && s.now < s.cache["k"].expiry
    ensures s.locks.byKey == map["k" := 0] && s.locks.owner == map[]
  {
    s := FirstStores();
    s := Solo(s, 0, Effect(Done(Answer(Null, Computed)), lock := Release(0)));
  }

  /** A None result is stored and unexpired, and still the next caller computes the key again. */
  lemma NoneIsComputedAgain() returns (s: State)
    ensures Reachable(s) && |s.threads| == 2 && IsUnforced(s, 0) && IsUnforced(s, 1)
    ensures s.threads[0].key == s.threads[1].key == "k" && s.history.computes["k"] == 2
    ensures s.threads[0].pc == Done(Answer(Null, Computed)) && s.threads[1].pc.Computing?
    ensures "k" in s.cache && s.cache["k"].slot.value == Null && s.now < s.cache["k"].expiry
  {
    s := FirstNone();
    s := NewCaller(s);
    s := ReadsNothing(s, 1);
    s := Solo(s, 1, Effect(AtLock(0)));
    s := EntersCompute(s, 1, 0);
  }

  // ---------------------------------------------------------------- and how much it gives up

  /** What may happen to key k when every computation of it returns None or raises: callers (forced or not),
      getters and setters of None come at any time, I/O may fail, the entry may be dropped. */
  predicate NoneLabel(s: State, l: Label, k: Key) {
    match l
    case Call(role, key, _) => key == k ==> role.Getter? || role.Caller? || role == Setter(Null)
    case Step(t, c) => t < |s.threads| && s.threads[t].key == k ==> c.result.None? || c.result.value == Null
    case Tick(_) => true
    case Drop(_) => true
  }

  ghost predicate NoneRun(s: State, labels: seq<Label>, k: Key)
    decreases |labels|
  {
    && Run(s, labels).Some?
    && (labels != [] ==>
          && NoneRun(s, labels[..|labels| - 1], k)
          && NoneLabel(Run(s, labels[..|labels| - 1]).value, labels[|labels| - 1], k))
  }

  /** Has seen and produced nothing but None. */
  predicate Empty(th: Thread) {
    match th.pc
    case Start => th.role.Getter? || th.role.Caller? || th.role == Setter(Null)
    case Reading => th.role.Getter? || th.role.Caller?
    case Judging(raw, _) => BlankRead(raw) && (th.role.Getter? || th.role.Caller?)
    case ReJudging(_, raw, _) => BlankRead(raw) && th.role.Caller?
    case Wrapping(_, v) => v == Null && !th.role.Refresher?
    case Storing(_, v, _) => v == Null && !th.role.Refresher?
    case Leaving(_, a) => a.value == Null && !th.role.Refresher?
    case Done(a) => a.value == Null && !th.role.Refresher?
    case Marking(_) => false
    case Submitting(_) => false
    case Unmarking(_) => false
    case Clearing(_) => false
    case _ => th.role.Caller?
  }

  /** A caller that has started to compute, if it has not finished since. */
  predicate HasBegun(th: Thread) {
    th.role.Caller?
    && (th.pc.Computing? || th.pc.Wrapping? || th.pc.Storing? || th.pc.Leaving? || th.pc.Done?)
  }

  /** How many of the callers of k since there were `from` threads have started to compute. */
  function Begun(threads: seq<Thread>, k: Key, from: nat): nat {
    if |threads| <= from then 0
    else
      var front, th := threads[..|threads| - 1], threads[|threads| - 1];
      Begun(front, k, from) + if th.key == k && HasBegun(th) then 1 else 0
  }

  lemma {:induction false} BegunOfUpdate(threads: seq<Thread>, t: Tid, th: Thread, k: Key, from: nat)
    requires t < |threads| && th.key == threads[t].key
    ensures var one := (x: Thread) => if t >= from && x.key == k && HasBegun(x) then 1 else 0;
      Begun(threads[t := th], k, from) == Begun(threads, k, from) - one(threads[t]) + one(th)
  {
    var n := |threads| - 1;
    if |threads| > from {
      if t == n {
        assert threads[t := th][..n] == threads[..n];
      } else {
        assert threads[t := th][..n] == threads[..n][t := th];
        BegunOfUpdate(threads[..n], t, th, k, from);
      }
    }
  }

  lemma BegunOfNewcomer(threads: seq<Thread>, th: Thread, k: Key, from: nat)
    requires th.pc.Start?
    ensures Begun(threads + [th], k, from) == Begun(threads, k, from)
  {
    assert (threads + [th])[..|threads|] == threads;
  }

  /** Nothing but None under the key; one computation for each caller that has started one. */
  ghost predicate NonePhase(s: State, k: Key, b: Base) {
    && |s.threads| >= b.threads && ReadsNone(s, k)
    && s.history.computes[k] == b.computes + Begun(s.threads, k, b.threads)
    && (forall t: Tid :: t < |s.threads| && s.threads[t].key == k ==>
          if t < b.threads then s.threads[t].pc.Done? else Empty(s.threads[t]))
  }

  /** A step of such a thread sees and produces None, and computes when it starts to. */
  lemma EmptyStep(s: State, th: Thread, c: Choice, e: Effect)
    requires Empty(th) && ReadsNone(s, th.key) && Decide(s, th, c) == Some(e)
    requires c.result.None? || c.result.value == Null
    ensures Empty(th.(pc := e.pc)) && e.mark.KeepMarks?
    ensures e.data.Put? ==> e.data.value == Null
    ensures HasBegun(th) ==> HasBegun(th.(pc := e.pc)) && !e.data.BeginCompute?
    ensures th.role.Caller? && !HasBegun(th) ==> (HasBegun(th.(pc := e.pc)) <==> e.data.BeginCompute?)
    ensures !th.role.Caller? ==> !e.data.BeginCompute?
  {
  }

  lemma NoneGuestStep(s: State, t: Tid, c: Choice, e: Effect, k: Key, b: Base)
    requires NonePhase(s, k, b) && t < |s.threads| && s.threads[t].key == k
    requires Decide(s, s.threads[t], c) == Some(e) && (c.result.None? || c.result.value == Null)
    ensures NonePhase(Commit(s, t, e), k, b)
  {
    var th, s' := s.threads[t], Commit(s, t, e);
    assert t >= b.threads && Empty(th);
    EmptyStep(s, th, c, e);
    BegunOfUpdate(s.threads, t, th.(pc := e.pc), k, b.threads);
    assert s'.threads == s.threads[t := th.(pc := e.pc)];
  }

  lemma NoneStrangerStep(s: State, t: Tid, e: Effect, k: Key, b: Base)
    requires NonePhase(s, k, b) && t < |s.threads| && s.threads[t].key != k
    ensures NonePhase(Commit(s, t, e), k, b)
  {
    var th, s' := s.threads[t], Commit(s, t, e);
    var moved := s.threads[t := th.(pc := e.pc)];
    BegunOfUpdate(s.threads, t, th.(pc := e.pc), k, b.threads);
    if e.mark.Spawn? {
      BegunOfNewcomer(moved, Thread(Refresher, th.key, th.ttl, Start), k, b.threads);
    } else {
      assert s'.threads == moved;
    }
  }

  lemma NoneStep(s: State, l: Label, k: Key, b: Base)
    requires NonePhase(s, k, b) && NoneLabel(s, l, k) && Apply(s, l).Some?
    ensures NonePhase(Apply(s, l).value, k, b)
  {
    match l
    case Step(t, c) =>
      var e := Decide(s, s.threads[t], c).value;
      if s.threads[t].key == k {
        NoneGuestStep(s, t, c, e, k, b);
      } else {
        NoneStrangerStep(s, t, e, k, b);
      }
    case Call(role, key, ttl) =>
      BegunOfNewcomer(s.threads, Thread(role, key, ttl, Start), k, b.threads);
    case Tick(_) =>
    case Drop(_) =>
  }

  lemma {:induction false} NoneRunKeepsPhase(s: State, labels: seq<Label>, k: Key)
    requires ColdStart(s, k) && NoneRun(s, labels, k)
    ensures NonePhase(Run(s, labels).value, k, BaseOf(s, k))
    decreases |labels|
  {
    if labels != [] {
      var front := labels[..|labels| - 1];
      NoneRunKeepsPhase(s, front, k);
      NoneStep(Run(s, front).value, labels[|labels| - 1], k, BaseOf(s, k));
    }
  }

  lemma NoneWasReturned(s: State, k: Key, b: Base)
    requires NonePhase(s, k, b)
    ensures forall t: Tid :: ReturnedCaller(s, k, b, t) ==>
              HasBegun(s.threads[t]) && s.threads[t].pc.answer.value == Null
  {
    forall t: Tid | ReturnedCaller(s, k, b, t)
      ensures HasBegun(s.threads[t]) && s.threads[t].pc.answer.value == Null
    {
      assert Empty(s.threads[t]);
    }
  }

  /** Nothing is shared: from a state in which k reads as absent, while its computations return None or
      raise, there is exactly one computation for each caller that has started one, every caller that has
      returned among them, and what it returned is None. */
  lemma NoneIsNeverShared(s: State, labels: seq<Label>, k: Key)
    requires ColdStart(s, k) && NoneRun(s, labels, k)
    ensures var s', b := Run(s, labels).value, BaseOf(s, k);
      && s'.history.computes[k] == s.history.computes[k] + Begun(s'.threads, k, |s.threads|)
      && (forall t: Tid :: ReturnedCaller(s', k, b, t) ==>
            HasBegun(s'.threads[t]) && s'.threads[t].pc.answer.value == Null)
  {
    NoneRunKeepsPhase(s, labels, k);
    NoneWasReturned(Run(s, labels).value, k, BaseOf(s, k));
  }

  function Callers(threads: seq<Thread>, k: Key, from: nat): nat {
    if |threads| <= from then 0
    else
      var front, th := threads[..|threads| - 1], threads[|threads| - 1];
      Callers(front, k, from) + if th.key == k && th.role.Caller? then 1 else 0
  }

  lemma {:induction false} AllHaveBegun(threads: seq<Thread>, k: Key, from: nat)
    requires forall t: Tid :: t < |threads| ==> threads[t].pc.Done?
    ensures Begun(threads, k, from) == Callers(threads, k, from)
  {
    if |threads| > from {
      AllHaveBegun(threads[..|threads| - 1], k, from);
    }
  }

  /** When nothing is left to do, the key has been computed once for every caller that came: n times for n
      callers, where a value would have been computed once (see ColdBurstCompletes). */
  lemma NoneIsComputedByEveryCaller(s: State, labels: seq<Label>, k: Key)
    requires ColdStart(s, k) && NoneRun(s, labels, k) && Quiet(Run(s, labels).value)
    ensures var s' := Run(s, labels).value;
      s'.history.computes[k] == s.history.computes[k] + Callers(s'.threads, k, |s.threads|)
  {
    var s' := Run(s, labels).value;
    NoneIsNeverShared(s, labels, k);
    ReachableInv(s);
    RunKeepsInv(s, labels);
    QuietIsDone(s');
    AllHaveBegun(s'.threads, k, |s.threads|);
  }
}
