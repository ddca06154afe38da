/**
 The circuit breaker of the market-data sources, and the closed form of its answers after any history
 of checks, successes, failures and resets.
 */
module CircuitBreaker {
  import opened Common

  datatype Mode = Closed | Open | HalfOpen

  datatype Info = Info(mode: Mode, failures: nat, lastFailure: real, halfOpenCalls: nat, lastError: Option<string>)

  const INITIAL := Info(Closed, 0, 0.0, 0, None)

  datatype Config = Config(threshold: int, cooldown: real, halfOpenMax: int)

  type States = map<string, Info>

  /** The state of a source; one that has none yet starts closed. */
  function Of(states: States, source: string): Info {
    if source in states then states[source] else INITIAL
  }

  // ---------------------------------------------------------------- one source

  predicate Available(cfg: Config, s: Info, now: real) {
    match s.mode
    case Closed => true
    case Open => now - s.lastFailure >= cfg.cooldown
    case HalfOpen => s.halfOpenCalls < cfg.halfOpenMax
  }

  function Checked(cfg: Config, s: Info, now: real): Info {
    if s.mode == Open && now - s.lastFailure >= cfg.cooldown then s.(mode := HalfOpen, halfOpenCalls := 0) else s
  }

  function Succeeded(s: Info): Info {
    Info(Closed, 0, s.lastFailure, 0, None)
  }

  function Failed(cfg: Config, s: Info, error: Option<string>, now: real): Info {
    if s.mode == HalfOpen then Info(Open, s.failures + 1, now, 0, error)
    else Info(if s.failures + 1 >= cfg.threshold then Open else s.mode, s.failures + 1, now, s.halfOpenCalls, error)
  }

  // ---------------------------------------------------------------- the object

  datatype Event = Check(source: string) | Success(source: string) | Failure(source: string, error: Option<string>)
                 | Reset(which: Option<string>)

  datatype Timed = At(event: Event, now: real)

  /** A reset without a name, or with an empty one, resets every source. */
  predicate Clears(which: Option<string>, source: string) {
    which == None || which == Some("") || which == Some(source)
  }

  function Next(cfg: Config, states: States, event: Event, now: real): States {
    match event
    case Check(source) => states[source := Checked(cfg, Of(states, source), now)]
    case Success(source) => states[source := Succeeded(Of(states, source))]
    case Failure(source, error) => states[source := Failed(cfg, Of(states, source), error, now)]
    case Reset(which) => map source | source in states && !Clears(which, source) :: states[source]
  }

  class Breaker {
    const cfg: Config
    var states: States

    constructor (cfg: Config)
      ensures this.cfg == cfg && states == map[]
    {
      this.cfg := cfg;
      states := map[];
    }

    method GetState(source: string) returns (s: Info)
      modifies this
      ensures s == Of(old(states), source)
      ensures states == old(states)[source := s]
    {
      if source !in states {
        states := states[source := INITIAL];
      }
      s := states[source];
    }

    method IsAvailable(source: string, now: real) returns (available: bool)
      modifies this
      ensures available <==> Available(cfg, Of(old(states), source), now)
      ensures states == Next(cfg, old(states), Check(source), now)
    {
      var s := GetState(source);
      if s.mode == Closed {
        return true;
      }
      if s.mode == Open {
        var sinceFailure := now - s.lastFailure;
        if sinceFailure >= cfg.cooldown {
          states := states[source := s.(mode := HalfOpen, halfOpenCalls := 0)];
          return true;
        }
        return false;
      }
      return s.halfOpenCalls < cfg.halfOpenMax;
    }

    method RecordSuccess(source: string, now: real)
      modifies this
      ensures states == Next(cfg, old(states), Success(source), now)
    {
      var s := GetState(source);
      states := states[source := s.(mode := Closed, failures := 0, halfOpenCalls := 0, lastError := None)];
    }

    method RecordFailure(source: string, error: Option<string>, now: real)
      modifies this
      ensures states == Next(cfg, old(states), Failure(source, error), now)
    {
      var s := GetState(source);
      s := s.(failures := s.failures + 1, lastFailure := now, lastError := error);
      if s.mode == HalfOpen {
        s := s.(mode := Open, halfOpenCalls := 0);
      } else if s.failures >= cfg.threshold {
        s := s.(mode := Open);
      }
      states := states[source := s];
    }

    method ResetSource(which: Option<string>, now: real)
      modifies this
      ensures states == Next(cfg, old(states), Reset(which), now)
    {
      if which.Some? && which.value != "" {
        if which.value in states {
          states := states - {which.value};
        }
      } else {
        states := map[];
      }
    }
  }

  // ---------------------------------------------------------------- what a history says about a source

  predicate Forgets(event: Event, source: string) {
    event.Reset? && Clears(event.which, source)
  }

  /** Failures since the last success or reset. */
  function Failures(history: seq<Timed>, source: string): nat {
    if history == [] then 0
    else
      var front, e := history[..|history| - 1], history[|history| - 1].event;
      if Forgets(e, source) || e == Success(source) then 0
      else Failures(front, source) + if e.Failure? && e.source == source then 1 else 0
  }

  /** The time of the last failure since the last reset. */
  function LastFailure(history: seq<Timed>, source: string): real {
    if history == [] then 0.0
    else
      var front, last := history[..|history| - 1], history[|history| - 1];
      if Forgets(last.event, source) then 0.0
      else if last.event.Failure? && last.event.source == source then last.now
      else LastFailure(front, source)
  }

  function LastError(history: seq<Timed>, source: string): Option<string> {
    if history == [] then None
    else
      var front, e := history[..|history| - 1], history[|history| - 1].event;
      if Forgets(e, source) || e == Success(source) then None
      else if e.Failure? && e.source == source then e.error
      else LastError(front, source)
  }

  predicate Tripped(cfg: Config, history: seq<Timed>, source: string) {
    Failures(history, source) >= Max(1, cfg.threshold)
  }

  /** Since the last failure some check found the source tripped and the cooldown over. */
  predicate Probed(cfg: Config, history: seq<Timed>, source: string) {
    if history == [] then false
    else
      var front, last := history[..|history| - 1], history[|history| - 1];
      if Forgets(last.event, source) || last.event == Success(source)
          || (last.event.Failure? && last.event.source == source) then false
      else
        Probed(cfg, front, source)
        || (last.event == Check(source) && Tripped(cfg, front, source)
            && last.now - LastFailure(front, source) >= cfg.cooldown)
  }

  function Expected(cfg: Config, history: seq<Timed>, source: string): Info {
    Info(if !Tripped(cfg, history, source) then Closed else if Probed(cfg, history, source) then HalfOpen else Open,
         Failures(history, source), LastFailure(history, source), 0, LastError(history, source))
  }

  function Run(cfg: Config, history: seq<Timed>): States {
    if history == [] then map[]
    else Next(cfg, Run(cfg, history[..|history| - 1]), history[|history| - 1].event, history[|history| - 1].now)
  }

  // ---------------------------------------------------------------- the closed form

  lemma EventOnOther(cfg: Config, states: States, event: Event, now: real, source: string)
    requires event.Reset? || event.source != source
    ensures Of(Next(cfg, states, event, now), source) == if Forgets(event, source) then INITIAL else Of(states, source)
  {
  }

  lemma {:induction false} ProbedIsTripped(cfg: Config, history: seq<Timed>, source: string)
    ensures Probed(cfg, history, source) ==> Tripped(cfg, history, source)
  {
    if history != [] {
      ProbedIsTripped(cfg, history[..|history| - 1], source);
    }
  }

  /** The whole state of every source is a function of its own history. In particular no call is ever
      counted as a half-open call. */
  lemma {:induction false} StateIsClosedForm(cfg: Config, history: seq<Timed>, source: string)
    ensures Of(Run(cfg, history), source) == Expected(cfg, history, source)
  {
    if history != [] {
      var front, last := history[..|history| - 1], history[|history| - 1];
      StateIsClosedForm(cfg, front, source);
      ProbedIsTripped(cfg, front, source);
      if last.event.Reset? || last.event.source != source {
        EventOnOther(cfg, Run(cfg, front), last.event, last.now, source);
      }
    }
  }

  /** For every threshold, cooldown and half-open limit, and any clock. */
  lemma AvailableIff(cfg: Config, history: seq<Timed>, source: string, now: real)
    ensures Available(cfg, Of(Run(cfg, history), source), now)
       <==> (!Tripped(cfg, history, source)
             || (if Probed(cfg, history, source) then cfg.halfOpenMax >= 1
                 else now - LastFailure(history, source) >= cfg.cooldown))
  {
    StateIsClosedForm(cfg, history, source);
  }

  predicate Monotone(history: seq<Timed>, now: real) {
    && (forall i, j :: 0 <= i < j < |history| ==> history[i].now <= history[j].now)
    && (forall i :: 0 <= i < |history| ==> history[i].now <= now)
  }

  lemma {:induction false} ProbedIsCooled(cfg: Config, history: seq<Timed>, source: string, now: real)
    requires Monotone(history, now) && Probed(cfg, history, source)
    ensures now - LastFailure(history, source) >= cfg.cooldown
  {
    var front, last := history[..|history| - 1], history[|history| - 1];
    if Probed(cfg, front, source) {
      ProbedIsCooled(cfg, front, source, now);
    }
  }

  /** With a clock that never goes back and a half-open limit of at least 1, a source is available
      exactly when it has failed fewer times than the threshold since its last success or reset, or
      its last failure is at least the cooldown ago. */
  lemma AvailableByCooldown(cfg: Config, history: seq<Timed>, source: string, now: real)
    requires Monotone(history, now) && cfg.halfOpenMax >= 1
    ensures Available(cfg, Of(Run(cfg, history), source), now)
       <==> (!Tripped(cfg, history, source) || now - LastFailure(history, source) >= cfg.cooldown)
  {
    AvailableIff(cfg, history, source, now);
    if Probed(cfg, history, source) {
      ProbedIsCooled(cfg, history, source, now);
    }
  }

  /** What the others do does not matter. */
  predicate Concerns(event: Event, source: string) {
    if event.Reset? then Clears(event.which, source) else event.source == source
  }

  function Own(history: seq<Timed>, source: string): seq<Timed> {
    if history == [] then []
    else
      var front, last := history[..|history| - 1], history[|history| - 1];
      Own(front, source) + if Concerns(last.event, source) then [last] else []
  }

  /** The events that do not concern a source could as well not have happened. */
  lemma {:induction false} OthersDoNotMatter(cfg: Config, history: seq<Timed>, source: string)
    ensures Failures(Own(history, source), source) == Failures(history, source)
    ensures LastFailure(Own(history, source), source) == LastFailure(history, source)
    ensures LastError(Own(history, source), source) == LastError(history, source)
    ensures Probed(cfg, Own(history, source), source) == Probed(cfg, history, source)
    ensures Of(Run(cfg, Own(history, source)), source) == Of(Run(cfg, history), source)
  {
    StateIsClosedForm(cfg, history, source);
    StateIsClosedForm(cfg, Own(history, source), source);
    if history != [] {
      var front, last := history[..|history| - 1], history[|history| - 1];
      OthersDoNotMatter(cfg, front, source);
      if Concerns(last.event, source) {
        assert Own(history, source)[..|Own(history, source)| - 1] == Own(front, source);
      } else {
        assert Own(history, source) == Own(front, source);
      }
    }
  }

  // ---------------------------------------------------------------- the half-open limit

  /** Events after the cooldown, at any times, that concern the source only as checks. */
  ghost predicate Trials(cfg: Config, history: seq<Timed>, source: string, later: seq<Timed>) {
    forall i :: 0 <= i < |later| ==>
      (later[i].event == Check(source) || !Concerns(later[i].event, source))
      && later[i].now - LastFailure(history, source) >= cfg.cooldown
  }

  function CountChecks(later: seq<Timed>, source: string): nat {
    if later == [] then 0
    else CountChecks(later[..|later| - 1], source) + if later[|later| - 1].event == Check(source) then 1 else 0
  }

  lemma {:induction false} TrialsOnly(cfg: Config, history: seq<Timed>, source: string, later: seq<Timed>)
    requires Tripped(cfg, history, source) && Trials(cfg, history, source, later)
    ensures var after := history + later;
      && Tripped(cfg, after, source) && LastFailure(after, source) == LastFailure(history, source)
      && (Probed(cfg, after, source) <==> CountChecks(later, source) > 0 || Probed(cfg, history, source))
  {
    if later == [] {
      assert history + later == history;
    } else {
      var front := later[..|later| - 1];
      TrialsOnly(cfg, history, source, front);
      var after := history + later;
      assert after[..|after| - 1] == history + front;
    }
  }

  /** The half-open limit is documented as the number of trial requests. Calls are not counted, so once
      the cooldown is over a limit of at least 1 admits any number of them, and a limit below 1 admits
      the first and no other, whenever they are made and whatever happens to other sources. */
  lemma HalfOpenAdmitsIff(cfg: Config, history: seq<Timed>, source: string, later: seq<Timed>, now: real)
    requires Tripped(cfg, history, source) && !Probed(cfg, history, source) && Trials(cfg, history, source, later)
    requires now - LastFailure(history, source) >= cfg.cooldown
    ensures Available(cfg, Of(Run(cfg, history + later), source), now)
        <==> CountChecks(later, source) == 0 || cfg.halfOpenMax >= 1
  {
    TrialsOnly(cfg, history, source, later);
    AvailableIff(cfg, history + later, source, now);
  }

  /** How many of the checks among the later events are answered with yes. */
  function Admitted(cfg: Config, history: seq<Timed>, source: string, later: seq<Timed>): nat {
    if later == [] then 0
    else
      var front, last := later[..|later| - 1], later[|later| - 1];
      Admitted(cfg, history, source, front)
      + if last.event == Check(source) && Available(cfg, Of(Run(cfg, history + front), source), last.now) then 1 else 0
  }

  lemma {:induction false} AdmittedCount(cfg: Config, history: seq<Timed>, source: string, later: seq<Timed>)
    requires Tripped(cfg, history, source) && !Probed(cfg, history, source) && Trials(cfg, history, source, later)
    ensures var n := CountChecks(later, source);
      Admitted(cfg, history, source, later) == if cfg.halfOpenMax >= 1 then n else Min(n, 1)
  {
    if later != [] {
      var front, last := later[..|later| - 1], later[|later| - 1];
      AdmittedCount(cfg, history, source, front);
      HalfOpenAdmitsIff(cfg, history, source, front, last.now);
    }
  }

  /** The documented promise, at most half_open_max_calls trial requests, is kept exactly when no more
      than that many are tried. */
  lemma HalfOpenLimitKeptIff(cfg: Config, history: seq<Timed>, source: string, later: seq<Timed>)
    requires Tripped(cfg, history, source) && !Probed(cfg, history, source) && cfg.halfOpenMax >= 0
    requires Trials(cfg, history, source, later)
    ensures Admitted(cfg, history, source, later) <= cfg.halfOpenMax <==> CountChecks(later, source) <= cfg.halfOpenMax
  {
    AdmittedCount(cfg, history, source, later);
  }

  // ---------------------------------------------------------------- resetting

  /** After a reset by name that source, after one without a name or with an empty one every source, is available
      at any time and has nothing counted; the answers about other sources are what they were. */
  lemma ResetFrees(cfg: Config, history: seq<Timed>, which: Option<string>, at: real, source: string, now: real)
    ensures var after := history + [At(Reset(which), at)];
      if which == None || which.value == "" || which.value == source then
        Available(cfg, Of(Run(cfg, after), source), now) && Failures(after, source) == 0
      else Of(Run(cfg, after), source) == Of(Run(cfg, history), source)
  {
    var after := history + [At(Reset(which), at)];
    assert after[..|after| - 1] == history;
    StateIsClosedForm(cfg, after, source);
    StateIsClosedForm(cfg, history, source);
  }
}
