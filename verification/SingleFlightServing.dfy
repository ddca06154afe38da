/**
 What the single-flight wrapper serves: in any run, a value that a call has read is returned while it
 may be, and computed anew only when it may not.
 */
module SingleFlightServing {
  import opened Common
  import opened SingleFlight
  import opened SingleFlightSafety

  // ---------------------------------------------------------------- the states of a run

  lemma {:induction false} PrefixRuns(s: State, labels: seq<Label>, i: nat)
    requires Run(s, labels).Some? && i <= |labels|
    ensures Run(s, labels[..i]).Some?
    decreases |labels|
  {
    if i == |labels| {
      assert labels[..i] == labels;
    } else {
      assert labels[..|labels| - 1][..i] == labels[..i];
      PrefixRuns(s, labels[..|labels| - 1], i);
    }
  }

  /** The state before the i-th label of a schedule, or after all of them. */
  function StateAt(s: State, labels: seq<Label>, i: nat): State
    requires Run(s, labels).Some? && i <= |labels|
  {
    PrefixRuns(s, labels, i);
    Run(s, labels[..i]).value
  }

  lemma NextState(s: State, labels: seq<Label>, i: nat)
    requires Run(s, labels).Some? && i < |labels|
    ensures Apply(StateAt(s, labels, i), labels[i]) == Some(StateAt(s, labels, i + 1))
  {
    PrefixRuns(s, labels, i + 1);
    assert labels[..i + 1][..i] == labels[..i];
  }

  predicate StepOf(l: Label, t: Tid) {
    l.Step? && l.t == t
  }

  /** Nobody but a thread itself moves it. */
  lemma OthersLeaveAlone(s: State, l: Label, t: Tid)
    requires t < |s.threads| && !StepOf(l, t) && Apply(s, l).Some?
    ensures t < |Apply(s, l).value.threads| && Apply(s, l).value.threads[t] == s.threads[t]
  {
  }

  predicate NoStepWithin(labels: seq<Label>, i: nat, j: nat, t: Tid) {
    forall m :: i <= m < j && m < |labels| ==> !StepOf(labels[m], t)
  }

  /** Before label m thread t is th. */
  predicate IsAt(s: State, labels: seq<Label>, t: Tid, m: nat, th: Thread)
    requires Run(s, labels).Some?
  {
    m <= |labels| && t < |StateAt(s, labels, m).threads| && StateAt(s, labels, m).threads[t] == th
  }

  lemma StillAt(s: State, labels: seq<Label>, t: Tid, m: nat, th: Thread)
    requires Run(s, labels).Some? && m < |labels| && IsAt(s, labels, t, m, th) && !StepOf(labels[m], t)
    ensures IsAt(s, labels, t, m + 1, th)
  {
    NextState(s, labels, m);
    OthersLeaveAlone(StateAt(s, labels, m), labels[m], t);
  }

  lemma {:induction false} WaitsUntil(s: State, labels: seq<Label>, i: nat, j: nat, t: Tid, th: Thread)
    requires Run(s, labels).Some? && i <= j <= |labels| && NoStepWithin(labels, i, j, t) && IsAt(s, labels, t, i, th)
    ensures IsAt(s, labels, t, j, th)
  {
    if i < j {
      WaitsUntil(s, labels, i, j - 1, t, th);
      StillAt(s, labels, t, j - 1, th);
    }
  }

  // ---------------------------------------------------------------- reading and judging

  /** The backend holds a cell for the key that has not expired there. */
  predicate Holds(s: State, k: Key, cell: Cell) {
    k in s.cache && s.cache[k] == cell && s.now < cell.expiry
  }

  /** Raw entries of older releases are always fresh; an envelope is until its hard deadline. */
  predicate FreshAt(cell: Cell, time: real) {
    cell.slot.Legacy? || time < cell.slot.hardUntil
  }

  /** At label i thread t, which is th, reads; at label j, its next step, it judges what it has read. */
  predicate ReadsAndJudges(s: State, labels: seq<Label>, t: Tid, i: nat, j: nat, th: Thread)
    requires Run(s, labels).Some?
  {
    && i < j < |labels| && StepOf(labels[i], t) && StepOf(labels[j], t) && NoStepWithin(labels, i + 1, j, t)
    && IsAt(s, labels, t, i, th) && (th.pc.Reading? || th.pc.ReReading?)
  }

  /** The read of label i finds the cell under k. */
  predicate Finds(s: State, labels: seq<Label>, i: nat, k: Key, cell: Cell)
    requires Run(s, labels).Some?
  {
    i < |labels| && labels[i].Step? && labels[i].choice.ok && Holds(StateAt(s, labels, i), k, cell)
  }

  /** And it holds a value that is fresh when it is judged at label j. */
  predicate Usable(s: State, labels: seq<Label>, i: nat, j: nat, k: Key, cell: Cell)
    requires Run(s, labels).Some?
  {
    i < j < |labels| && Finds(s, labels, i, k, cell) && cell.slot.value != Null
    && FreshAt(cell, StateAt(s, labels, j).now)
  }

  /** What a call that has something to return may still do. */
  datatype Phase =
    | Returned(v: Json) | ReturningStale(v: Json) | ReturningHeld(v: Json) | Delivering(v: Json) | Failing

  predicate In(pc: PC, phase: Phase) {
    match phase
    case Returned(v) => pc.Done? && pc.answer.value == v
    case ReturningStale(v) => (pc.Marking? || pc.Submitting? || pc.Unmarking? || pc.Done?) && pc.answer.value == v
    case ReturningHeld(v) => (pc.Leaving? || pc.Clearing? || pc.Done?) && pc.answer.value == v
    case Delivering(v) =>
      || ((pc.Wrapping? || pc.Storing?) && pc.value == v)
      || ((pc.Leaving? || pc.Clearing? || pc.Done?) && pc.answer == Answer(v, Computed))
    case Failing => (pc.Leaving? || pc.Clearing? || pc.Done?) && pc.answer == Answer(Null, Failed)
  }

  /** Before label m thread t is what th was but for its place, which is in the phase. */
  predicate Stays(s: State, labels: seq<Label>, t: Tid, m: nat, th: Thread, phase: Phase)
    requires Run(s, labels).Some?
  {
    m <= |labels| && t < |StateAt(s, labels, m).threads|
    && var now := StateAt(s, labels, m).threads[t];
       now == th.(pc := now.pc) && In(now.pc, phase)
  }

  lemma PhaseKept(s: State, th: Thread, c: Choice, phase: Phase)
    requires In(th.pc, phase) && Decide(s, th, c).Some?
    ensures In(Decide(s, th, c).value.pc, phase)
  {
  }

  lemma StepStays(s: State, l: Label, t: Tid, phase: Phase)
    requires t < |s.threads| && In(s.threads[t].pc, phase) && Apply(s, l).Some?
    ensures var s', th := Apply(s, l).value, s.threads[t];
      t < |s'.threads| && s'.threads[t] == th.(pc := s'.threads[t].pc) && In(s'.threads[t].pc, phase)
  {
    if StepOf(l, t) {
      PhaseKept(s, s.threads[t], l.choice, phase);
    } else {
      OthersLeaveAlone(s, l, t);
    }
  }

  /** A phase once reached is never left. */
  lemma {:induction false} StaysFor(s: State, labels: seq<Label>, t: Tid, i: nat, m: nat, th: Thread, phase: Phase)
    requires Run(s, labels).Some? && i <= m <= |labels| && Stays(s, labels, t, i, th, phase)
    ensures Stays(s, labels, t, m, th, phase)
  {
    if i < m {
      StaysFor(s, labels, t, i, m - 1, th, phase);
      NextState(s, labels, m - 1);
      StepStays(StateAt(s, labels, m - 1), labels[m - 1], t, phase);
    }
  }

  // ---------------------------------------------------------------- the first read

  function Waiting(th: Thread, raw: Option<Cell>, readAt: real): Thread
    requires th.pc.Reading? || th.pc.ReReading?
  {
    th.(pc := if th.pc.Reading? then Judging(raw, readAt) else ReJudging(th.pc.lock, raw, readAt))
  }

  lemma ReadStep(s: State, t: Tid, c: Choice)
    requires t < |s.threads| && (s.threads[t].pc.Reading? || s.threads[t].pc.ReReading?)
    ensures Apply(s, Step(t, c)).Some?
    ensures Apply(s, Step(t, c)).value.threads[t] == Waiting(s.threads[t], Fetch(s, s.threads[t].key, c.ok), s.now)
  {
  }

  /** Between its read and its judgement a thread waits with what the backend gave it. */
  lemma AfterRead(s: State, labels: seq<Label>, t: Tid, i: nat, j: nat, m: nat, th: Thread)
    requires Run(s, labels).Some? && ReadsAndJudges(s, labels, t, i, j, th) && i < m <= j
    ensures var raw, now := Fetch(StateAt(s, labels, i), th.key, labels[i].choice.ok), StateAt(s, labels, i).now;
      IsAt(s, labels, t, m, Waiting(th, raw, now))
  {
    NextState(s, labels, i);
    ReadStep(StateAt(s, labels, i), t, labels[i].choice);
    var raw, now := Fetch(StateAt(s, labels, i), th.key, labels[i].choice.ok), StateAt(s, labels, i).now;
    WaitsUntil(s, labels, i + 1, m, t, Waiting(th, raw, now));
  }

  /** Between a read that finds a cell and its judgement a call only waits. */
  lemma WaitsWithWhatItFound(s: State, labels: seq<Label>, t: Tid, i: nat, j: nat, m: nat, th: Thread, cell: Cell)
    requires Run(s, labels).Some? && ReadsAndJudges(s, labels, t, i, j, th) && i < m <= j
    requires Finds(s, labels, i, th.key, cell)
    ensures IsAt(s, labels, t, m, Waiting(th, Some(cell), StateAt(s, labels, i).now))
  {
    AfterRead(s, labels, t, i, j, m, th);
  }

  lemma FreshIsJudged(s: State, t: Tid, c: Choice, cell: Cell)
    requires t < |s.threads| && s.threads[t].pc.Judging? && s.threads[t].pc.raw == Some(cell)
    requires cell.slot.value != Null && FreshAt(cell, s.now)
    ensures Apply(s, Step(t, c)).Some?
    ensures var s', th := Apply(s, Step(t, c)).value, s.threads[t];
      s'.threads[t] == th.(pc := s'.threads[t].pc) && In(s'.threads[t].pc, Returned(cell.slot.value))
  {
  }

  lemma FreshAfterJudgement(s: State, labels: seq<Label>, t: Tid, i: nat, j: nat, th: Thread, cell: Cell)
    requires Run(s, labels).Some? && ReadsAndJudges(s, labels, t, i, j, th) && th.pc.Reading?
    requires Usable(s, labels, i, j, th.key, cell)
    ensures Stays(s, labels, t, j + 1, th, Returned(cell.slot.value))
  {
    WaitsWithWhatItFound(s, labels, t, i, j, j, th, cell);
    NextState(s, labels, j);
    FreshIsJudged(StateAt(s, labels, j), t, labels[j].choice, cell);
  }

  /** A value that is there and fresh when judged is returned, and nothing is computed for the call: from
      the judgement on it has returned that value, and before it only waits (WaitsWithWhatItFound). */
  lemma FreshValueIsServed(s: State, labels: seq<Label>, t: Tid, i: nat, j: nat, th: Thread, cell: Cell, m: nat)
    requires Run(s, labels).Some? && ReadsAndJudges(s, labels, t, i, j, th) && th.pc.Reading?
    requires Usable(s, labels, i, j, th.key, cell) && j < m <= |labels|
    ensures Stays(s, labels, t, m, th, Returned(cell.slot.value))
  {
    FreshAfterJudgement(s, labels, t, i, j, th, cell);
    StaysFor(s, labels, t, j + 1, m, th, Returned(cell.slot.value));
  }

  predicate AcceptsStale(role: Role) {
    role.Caller? && role.allowStale
  }

  lemma StaleIsJudged(s: State, t: Tid, c: Choice, cell: Cell)
    requires t < |s.threads| && s.threads[t].pc.Judging? && s.threads[t].pc.raw == Some(cell)
    requires cell.slot.value != Null && !FreshAt(cell, s.now) && AcceptsStale(s.threads[t].role)
    ensures Apply(s, Step(t, c)).Some?
    ensures var s', th := Apply(s, Step(t, c)).value, s.threads[t];
      s'.threads[t] == th.(pc := s'.threads[t].pc) && In(s'.threads[t].pc, ReturningStale(cell.slot.value))
      && s'.threads[t].pc.Marking?
  {
  }

  lemma StaleAfterJudgement(s: State, labels: seq<Label>, t: Tid, i: nat, j: nat, th: Thread, cell: Cell)
    requires Run(s, labels).Some? && ReadsAndJudges(s, labels, t, i, j, th) && th.pc.Reading?
    requires Finds(s, labels, i, th.key, cell) && cell.slot.value != Null && AcceptsStale(th.role)
    requires !FreshAt(cell, StateAt(s, labels, j).now)
    ensures Stays(s, labels, t, j + 1, th, ReturningStale(cell.slot.value))
    ensures StateAt(s, labels, j + 1).threads[t].pc.Marking?
  {
    WaitsWithWhatItFound(s, labels, t, i, j, j, th, cell);
    NextState(s, labels, j);
    StaleIsJudged(StateAt(s, labels, j), t, labels[j].choice, cell);
  }

  /** A value past its deadline is returned to a caller that accepts stale ones, again without computing:
      the call goes to the mark step and from then on only schedules a refresh and returns the value. */
  lemma StaleValueIsServed(s: State, labels: seq<Label>, t: Tid, i: nat, j: nat, th: Thread, cell: Cell, m: nat)
    requires Run(s, labels).Some? && ReadsAndJudges(s, labels, t, i, j, th) && th.pc.Reading?
    requires Finds(s, labels, i, th.key, cell) && cell.slot.value != Null && AcceptsStale(th.role)
    requires !FreshAt(cell, StateAt(s, labels, j).now) && j < m <= |labels|
    ensures Stays(s, labels, t, m, th, ReturningStale(cell.slot.value))
    ensures m == j + 1 ==> StateAt(s, labels, m).threads[t].pc.Marking?
  {
    StaleAfterJudgement(s, labels, t, i, j, th, cell);
    StaysFor(s, labels, t, j + 1, m, th, ReturningStale(cell.slot.value));
  }

  lemma RunsReach(s: State, labels: seq<Label>, m: nat)
    requires Reachable(s) && Run(s, labels).Some? && m <= |labels|
    ensures Inv(StateAt(s, labels, m))
  {
    ReachableInv(s);
    PrefixRuns(s, labels, m);
    RunKeepsInv(s, labels[..m]);
  }

  /** Once such a call has passed the mark step the key is marked, and a refresh of it is outstanding. */
  lemma StaleReadIsRefreshed(s: State, labels: seq<Label>, t: Tid, m: nat, th: Thread)
    requires Reachable(s) && Run(s, labels).Some? && m < |labels| && StepOf(labels[m], t)
    requires IsAt(s, labels, t, m, th) && th.pc.Marking?
    ensures th.key in StateAt(s, labels, m + 1).refreshing && Served(StateAt(s, labels, m + 1).threads, th.key)
  {
    RunsReach(s, labels, m + 1);
    NextState(s, labels, m);
    StaleReadSchedules(StateAt(s, labels, m), t, labels[m].choice);
  }

  lemma MissIsJudged(s: State, t: Tid, c: Choice, raw: Option<Cell>)
    requires t < |s.threads| && s.threads[t].pc.Judging? && s.threads[t].pc.raw == raw
    requires s.threads[t].role.Getter? || s.threads[t].role.Caller?
    requires raw.Some? && raw.value.slot.value != Null ==>
      !FreshAt(raw.value, s.now) && !AcceptsStale(s.threads[t].role)
    ensures Apply(s, Step(t, c)).Some?
    ensures var s', th := Apply(s, Step(t, c)).value, s.threads[t];
      s'.threads[t] == th.(pc := if th.role.Getter? then Done(Answer(Null, Nothing)) else FindLock)
  {
  }

  /** Whatever else the first read finds leads a getter to None and a caller to the lock. */
  lemma OtherwiseItMisses(s: State, labels: seq<Label>, t: Tid, i: nat, j: nat, th: Thread)
    requires Run(s, labels).Some? && ReadsAndJudges(s, labels, t, i, j, th) && th.pc.Reading?
    requires th.role.Getter? || th.role.Caller?
    requires forall cell :: Finds(s, labels, i, th.key, cell) && cell.slot.value != Null ==>
               !Usable(s, labels, i, j, th.key, cell) && !AcceptsStale(th.role)
    ensures IsAt(s, labels, t, j + 1, th.(pc := if th.role.Getter? then Done(Answer(Null, Nothing)) else FindLock))
  {
    AfterRead(s, labels, t, i, j, j, th);
    NextState(s, labels, j);
    var raw := Fetch(StateAt(s, labels, i), th.key, labels[i].choice.ok);
    if raw.Some? {
      assert Finds(s, labels, i, th.key, raw.value);
    }
    MissIsJudged(StateAt(s, labels, j), t, labels[j].choice, raw);
  }

  // ---------------------------------------------------------------- the refresh

  /** Passing the mark step leaves the key marked: the call returns if it was marked before, and submits a
      refresh if not. A submission that succeeds starts a refresher for the key with the call's TTL. */
  lemma StaleReadSchedules(s: State, t: Tid, c: Choice)
    requires t < |s.threads| && (s.threads[t].pc.Marking? || s.threads[t].pc.Submitting?)
    ensures Apply(s, Step(t, c)).Some?
    ensures var th, s' := s.threads[t], Apply(s, Step(t, c)).value;
      if th.pc.Marking? then
        th.key in s'.refreshing
        && (if th.key in s.refreshing then s'.threads[t].pc.Done? else s'.threads[t].pc.Submitting?)
      else if c.ok then
        s'.threads[t].pc.Done? && s'.refreshing == s.refreshing
        && |s'.threads| == |s.threads| + 1 && s'.threads[|s.threads|] == Thread(Refresher, th.key, th.ttl, Start)
      else s'.threads[t].pc.Unmarking?
  {
  }

  /** A refresher that finds the lock free takes it and begins to compute; one that does not skips. */
  lemma RefresherComputesIff(s: State, labels: seq<Label>, t: Tid, m: nat, th: Thread)
    requires Run(s, labels).Some? && m < |labels| && StepOf(labels[m], t) && IsAt(s, labels, t, m, th)
    requires th.role.Refresher? && th.pc.AtLock?
    ensures var b, s' := StateAt(s, labels, m), StateAt(s, labels, m + 1);
      if th.pc.lock in b.locks.owner then
        IsAt(s, labels, t, m + 1, th.(pc := Clearing(Answer(Null, Nothing))))
        && s'.history == b.history && s'.locks == b.locks
      else
        IsAt(s, labels, t, m + 1, th.(pc := Computing(Some(th.pc.lock))))
        && s'.locks.owner == b.locks.owner[th.pc.lock := t]
        && s'.history.computes == b.history.computes + multiset{th.key}
  {
    NextState(s, labels, m);
  }

  // ---------------------------------------------------------------- the read under the lock

  lemma FreshIsRejudged(s: State, t: Tid, c: Choice, cell: Cell)
    requires t < |s.threads| && s.threads[t].pc.ReJudging? && s.threads[t].pc.raw == Some(cell)
    requires cell.slot.value != Null && FreshAt(cell, s.now)
    ensures Apply(s, Step(t, c)).Some?
    ensures var s', th := Apply(s, Step(t, c)).value, s.threads[t];
      s'.threads[t] == th.(pc := s'.threads[t].pc) && In(s'.threads[t].pc, ReturningHeld(cell.slot.value))
  {
  }

  lemma FreshAfterDoubleCheck(s: State, labels: seq<Label>, t: Tid, i: nat, j: nat, th: Thread, cell: Cell)
    requires Run(s, labels).Some? && ReadsAndJudges(s, labels, t, i, j, th) && th.pc.ReReading?
    requires Usable(s, labels, i, j, th.key, cell)
    ensures Stays(s, labels, t, j + 1, th, ReturningHeld(cell.slot.value))
  {
    WaitsWithWhatItFound(s, labels, t, i, j, j, th, cell);
    NextState(s, labels, j);
    FreshIsRejudged(StateAt(s, labels, j), t, labels[j].choice, cell);
  }

  /** The double-check under the lock: a value that is there and fresh is returned and never computed. */
  lemma FreshValueEndsTheWait(s: State, labels: seq<Label>, t: Tid, i: nat, j: nat, th: Thread, cell: Cell, m: nat)
    requires Run(s, labels).Some? && ReadsAndJudges(s, labels, t, i, j, th) && th.pc.ReReading?
    requires Usable(s, labels, i, j, th.key, cell) && j < m <= |labels|
    ensures Stays(s, labels, t, m, th, ReturningHeld(cell.slot.value))
  {
    FreshAfterDoubleCheck(s, labels, t, i, j, th, cell);
    StaysFor(s, labels, t, j + 1, m, th, ReturningHeld(cell.slot.value));
  }

  lemma MissIsRejudged(s: State, t: Tid, c: Choice, raw: Option<Cell>)
    requires t < |s.threads| && s.threads[t].pc.ReJudging? && s.threads[t].pc.raw == raw
    requires raw.Some? && raw.value.slot.value != Null ==> !FreshAt(raw.value, s.now)
    ensures Apply(s, Step(t, c)).Some?
    ensures var s', th := Apply(s, Step(t, c)).value, s.threads[t];
      s'.threads[t] == th.(pc := Computing(Some(th.pc.lock)))
      && s'.history.computes == s.history.computes + multiset{th.key}
  {
  }

  /** Anything else is computed. */
  lemma OtherwiseItComputes(s: State, labels: seq<Label>, t: Tid, i: nat, j: nat, th: Thread)
    requires Run(s, labels).Some? && ReadsAndJudges(s, labels, t, i, j, th) && th.pc.ReReading?
    requires forall cell :: Finds(s, labels, i, th.key, cell) ==> !Usable(s, labels, i, j, th.key, cell)
    ensures IsAt(s, labels, t, j + 1, th.(pc := Computing(Some(th.pc.lock))))
    ensures StateAt(s, labels, j + 1).history.computes == StateAt(s, labels, j).history.computes + multiset{th.key}
  {
    AfterRead(s, labels, t, i, j, j, th);
    NextState(s, labels, j);
    var raw := Fetch(StateAt(s, labels, i), th.key, labels[i].choice.ok);
    if raw.Some? {
      assert Finds(s, labels, i, th.key, raw.value);
    }
    MissIsRejudged(StateAt(s, labels, j), t, labels[j].choice, raw);
  }

  // ---------------------------------------------------------------- what was computed

  /** What a computation returned is what its call returns, whether or not it can be stored. */
  lemma ComputedValueIsReturned(s: State, labels: seq<Label>, t: Tid, i: nat, th: Thread, v: Json, m: nat)
    requires Run(s, labels).Some? && i < m <= |labels| && StepOf(labels[i], t)
    requires IsAt(s, labels, t, i, th) && th.pc.Computing? && labels[i].choice.result == Some(v)
    ensures Stays(s, labels, t, m, th, Delivering(v))
  {
    NextState(s, labels, i);
    StaysFor(s, labels, t, i + 1, m, th, Delivering(v));
  }

  /** A computation that raised makes its call return None, and no write follows. */
  lemma RaisedComputeReturnsNone(s: State, labels: seq<Label>, t: Tid, i: nat, th: Thread, m: nat)
    requires Run(s, labels).Some? && i < m <= |labels| && StepOf(labels[i], t)
    requires IsAt(s, labels, t, i, th) && th.pc.Computing? && labels[i].choice.result == None
    ensures Stays(s, labels, t, m, th, Failing)
  {
    NextState(s, labels, i);
    StaysFor(s, labels, t, i + 1, m, th, Failing);
  }

  /** set_cached stores what it is given: from its first step on it is on its way to writing that value. */
  lemma SetterDelivers(s: State, labels: seq<Label>, t: Tid, i: nat, th: Thread, m: nat)
    requires Run(s, labels).Some? && i < m <= |labels| && StepOf(labels[i], t)
    requires IsAt(s, labels, t, i, th) && th.pc.Start? && th.role.Setter?
    ensures Stays(s, labels, t, m, th, Delivering(th.role.payload))
    ensures m == i + 1 ==> StateAt(s, labels, m).threads[t].pc.Wrapping?
  {
    NextState(s, labels, i);
    StaysFor(s, labels, t, i + 1, m, th, Delivering(th.role.payload));
  }

  /** How the other calls begin: a getter and an unforced caller read, a forced caller computes at once, and a
      refresher looks for the lock. */
  lemma CallsBegin(s: State, labels: seq<Label>, t: Tid, i: nat, th: Thread)
    requires Run(s, labels).Some? && i < |labels| && StepOf(labels[i], t) && IsAt(s, labels, t, i, th)
    requires th.pc.Start? && !th.role.Setter?
    ensures var b, s' := StateAt(s, labels, i), StateAt(s, labels, i + 1);
      if th.role.Caller? && th.role.force then
        IsAt(s, labels, t, i + 1, th.(pc := Computing(None)))
        && s'.history.computes == b.history.computes + multiset{th.key}
      else IsAt(s, labels, t, i + 1, th.(pc := if th.role.Refresher? then FindLock else Reading))
  {
    NextState(s, labels, i);
  }

  /** A write that succeeds leaves the value under the key: fresh for the TTL from when it was wrapped, and
      readable for SWR_MULTIPLIER times the TTL from when it landed. One that fails changes nothing. */
  lemma StoredValueLands(s: State, labels: seq<Label>, t: Tid, m: nat, th: Thread)
    requires Run(s, labels).Some? && m < |labels| && StepOf(labels[m], t) && IsAt(s, labels, t, m, th)
    requires th.pc.Storing?
    ensures var b, s' := StateAt(s, labels, m), StateAt(s, labels, m + 1);
      if labels[m].choice.ok then
        th.key in s'.cache && s'.cache[th.key].slot.value == th.pc.value
        && s'.cache[th.key].slot.Envelope? && s'.cache[th.key].slot.storedAt == th.pc.wrappedAt
        && (forall time :: FreshAt(s'.cache[th.key], time) <==> time < th.pc.wrappedAt + Max(1, th.ttl) as real)
        && s'.cache[th.key].expiry == b.now + (th.ttl * 5) as real
        && s'.cache - {th.key} == b.cache - {th.key}
      else s'.cache == b.cache
  {
    NextState(s, labels, m);
  }

  // ---------------------------------------------------------------- what is not a step

  /** A call may come at any time and starts from its beginning; a refresher comes from a submission alone. */
  lemma CallsArrive(s: State, role: Role, k: Key, ttl: int)
    ensures match Apply(s, Call(role, k, ttl))
            case Some(s') =>
              !role.Refresher? && |s'.threads| == |s.threads| + 1 && s'.threads[..|s.threads|] == s.threads
              && s'.threads[|s.threads|] == Thread(role, k, ttl, Start)
              && s'.cache == s.cache && s'.locks == s.locks && s'.refreshing == s.refreshing
            case None => role.Refresher?
  {
  }

  function Elapsed(labels: seq<Label>): real {
    if labels == [] then 0.0
    else Elapsed(labels[..|labels| - 1]) + if labels[|labels| - 1].Tick? then labels[|labels| - 1].d else 0.0
  }

  /** Time passes by the ticks of a schedule and by nothing else. */
  lemma {:induction false} TimePasses(s: State, labels: seq<Label>)
    requires Run(s, labels).Some?
    ensures Run(s, labels).value.now == s.now + Elapsed(labels) && Elapsed(labels) >= 0.0
    decreases |labels|
  {
    if labels != [] {
      TimePasses(s, labels[..|labels| - 1]);
    }
  }

  /** An invalidated key reads as absent until something is written under it again. */
  lemma {:induction false} InvalidatedIsGone(s: State, labels: seq<Label>, k: Key, i: nat, m: nat)
    requires Run(s, labels).Some? && i < m <= |labels| && labels[i] == Drop(k)
    ensures k in StateAt(s, labels, m).cache ==>
      exists n :: |StateAt(s, labels, i).history.writes| <= n < |StateAt(s, labels, m).history.writes|
             && Matches(StateAt(s, labels, m).history.writes[n], k, StateAt(s, labels, m).cache[k])
    ensures StateAt(s, labels, i).history.writes <= StateAt(s, labels, m).history.writes
    decreases m
  {
    NextState(s, labels, m - 1);
    if m - 1 > i {
      InvalidatedIsGone(s, labels, k, i, m - 1);
      var before, after := StateAt(s, labels, m - 1), StateAt(s, labels, m);
      if k in after.cache {
        CacheChangesByWrites(before, labels[m - 1], k);
        if k in before.cache && after.cache[k] == before.cache[k] {
          var n :| |StateAt(s, labels, i).history.writes| <= n < |before.history.writes|
                   && Matches(before.history.writes[n], k, before.cache[k]);
          assert after.history.writes[n] == before.history.writes[n];
        }
      }
    }
  }
}
