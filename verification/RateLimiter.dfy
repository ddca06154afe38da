/**
 The process-local rate limiter for one thread: each wait sleeps out the interval since the last
 request, adds a jitter, and marks the time. Sleeps last at least as long as asked.
 */
module RateLimiter {
  import opened Common

  datatype Config = Config(minInterval: real, jitterMin: real, jitterMax: real)

  /** One wait as its surroundings decide it: the clock when it is called, the jitter drawn, and by how
      much each of the two sleeps overruns. */
  datatype Turn = Turn(start: real, jitter: real, overrun: real, overrun': real)

  predicate Possible(cfg: Config, t: Turn) {
    0.0 <= cfg.jitterMin <= t.jitter <= cfg.jitterMax && t.overrun >= 0.0 && t.overrun' >= 0.0
  }

  /** How long the first sleep is asked to last, if there is one. */
  function Pause(cfg: Config, last: Option<real>, start: real): Option<real> {
    if last.Some? && start - last.value < cfg.minInterval then Some(cfg.minInterval - (start - last.value)) else None
  }

  function Mark(cfg: Config, last: Option<real>, t: Turn): real {
    t.start + (match Pause(cfg, last, t.start) case Some(p) => p + t.overrun case None => 0.0) + t.jitter + t.overrun'
  }

  class Limiter {
    const cfg: Config
    var lastRequestTime: Option<real>

    constructor (cfg: Config)
      ensures this.cfg == cfg && lastRequestTime == None
    {
      this.cfg := cfg;
      lastRequestTime := None;
    }

    /** Returns the seconds it asked to sleep. */
    method Wait(t: Turn) returns (slept: real)
      requires Possible(cfg, t)
      modifies this
      ensures lastRequestTime == Some(Mark(cfg, old(lastRequestTime), t))
      ensures slept == t.jitter + (match Pause(cfg, old(lastRequestTime), t.start) case Some(p) => p case None => 0.0)
      ensures slept <= lastRequestTime.value - t.start
      ensures old(lastRequestTime).Some?
          ==> old(lastRequestTime).value + cfg.minInterval + cfg.jitterMin <= lastRequestTime.value
    {
      var waitTime, clock := 0.0, t.start;
      if lastRequestTime.Some? {
        var elapsed := clock - lastRequestTime.value;
        if elapsed < cfg.minInterval {
          waitTime := cfg.minInterval - elapsed;
          clock := clock + waitTime + t.overrun;
        }
      }
      clock := clock + t.jitter + t.overrun';
      waitTime := waitTime + t.jitter;
      lastRequestTime := Some(clock);
      return waitTime;
    }

    method Reset()
      modifies this
      ensures lastRequestTime == None
    {
      lastRequestTime := None;
    }
  }

  // ---------------------------------------------------------------- whole runs

  /** The marks a run of waits leaves, from a fresh or reset limiter. */
  function Marks(cfg: Config, turns: seq<Turn>): seq<real> {
    if turns == [] then []
    else
      var marks := Marks(cfg, turns[..|turns| - 1]);
      marks + [Mark(cfg, if marks == [] then None else Some(marks[|marks| - 1]), turns[|turns| - 1])]
  }

  predicate SpacedBy(marks: seq<real>, gap: real) {
    forall i :: 0 < i < |marks| ==> marks[i] - marks[i - 1] >= gap
  }

  /** Successive marks are at least the interval and the least jitter apart, whenever the waits are called. */
  lemma {:induction false} MarksAreSpaced(cfg: Config, turns: seq<Turn>)
    requires forall i :: 0 <= i < |turns| ==> Possible(cfg, turns[i])
    ensures SpacedBy(Marks(cfg, turns), cfg.minInterval + cfg.jitterMin) && |Marks(cfg, turns)| == |turns|
  {
    if turns != [] {
      MarksAreSpaced(cfg, turns[..|turns| - 1]);
      assert Possible(cfg, turns[|turns| - 1]);
    }
  }

  /** How many marks fall into [from, to]. */
  function CountIn(marks: seq<real>, from: real, to: real): nat {
    if marks == [] then 0
    else CountIn(marks[..|marks| - 1], from, to) + if from <= marks[|marks| - 1] <= to then 1 else 0
  }

  lemma {:induction false} AllBeforeLast(marks: seq<real>, gap: real, i: nat)
    requires gap > 0.0 && SpacedBy(marks, gap) && i < |marks| - 1
    ensures marks[i] <= marks[|marks| - 1] - gap
  {
    var n := |marks| - 1;
    assert marks[n] - marks[n - 1] >= gap;
    if i < n - 1 {
      AllBeforeLast(marks[..n], gap, i);
    }
  }

  lemma {:induction false} CountBelow(marks: seq<real>, from: real, to: real, c: real)
    requires c <= to && forall i :: 0 <= i < |marks| ==> marks[i] <= c
    ensures CountIn(marks, from, to) == CountIn(marks, from, c)
  {
    if marks != [] {
      CountBelow(marks[..|marks| - 1], from, to, c);
    }
  }

  lemma Larger(b: real, d: real, gap: real)
    requires gap > 0.0
    ensures b < d ==> b * gap < d * gap
  {
  }

  lemma OnceMore(a: real, gap: real)
    ensures (a + 1.0) * gap == a * gap + gap
  {
  }

  lemma AtLeastOneMore(a: real, b: real, gap: real, x: real, y: real)
    requires gap > 0.0 && a * gap == x && b * gap == y && x + gap <= y
    ensures b >= a + 1.0
  {
    Larger(b, a + 1.0, gap);
    OnceMore(a, gap);
  }

  lemma Quotient(x: real, gap: real) returns (q: real)
    requires gap > 0.0
    ensures q == x / gap && q * gap == x
  {
    q := x / gap;
  }

  lemma FloorStep(x: real, y: real, gap: real)
    requires gap > 0.0 && 0.0 <= x && x + gap <= y
    ensures (x / gap).Floor + 1 <= (y / gap).Floor
  {
    var a := Quotient(x, gap);
    var b := Quotient(y, gap);
    AtLeastOneMore(a, b, gap, x, y);
  }

  lemma FloorNonNegative(x: real, gap: real)
    requires gap > 0.0 && 0.0 <= x
    ensures (x / gap).Floor >= 0
  {
    assert x / gap >= 0.0;
  }

  /** A window of length W holds at most floor(W / gap) + 1 spaced marks. */
  lemma {:induction false} SpacedMarksInWindow(marks: seq<real>, gap: real, from: real, to: real)
    requires gap > 0.0 && SpacedBy(marks, gap)
    ensures CountIn(marks, from, to) <= if to < from then 0 else ((to - from) / gap).Floor + 1
  {
    if to >= from {
      FloorNonNegative(to - from, gap);
    }
    if marks != [] {
      var front, m := marks[..|marks| - 1], marks[|marks| - 1];
      if from <= m <= to {
        forall i | 0 <= i < |front| ensures front[i] <= m - gap {
          AllBeforeLast(marks, gap, i);
        }
        CountBelow(front, from, to, m - gap);
        SpacedMarksInWindow(front, gap, from, m - gap);
        if from <= m - gap {
          FloorStep(m - gap - from, to - from, gap);
        }
      } else {
        SpacedMarksInWindow(front, gap, from, to);
      }
    }
  }

  /** The rate bound: whenever the waits are called and whatever jitter they draw, any window of length
      W sees at most floor(W / (minInterval + jitterMin)) + 1 requests. */
  lemma RateBound(cfg: Config, turns: seq<Turn>, from: real, window: real)
    requires cfg.minInterval + cfg.jitterMin > 0.0 && window >= 0.0
    requires forall i :: 0 <= i < |turns| ==> Possible(cfg, turns[i])
    ensures CountIn(Marks(cfg, turns), from, from + window) <= (window / (cfg.minInterval + cfg.jitterMin)).Floor + 1
  {
    MarksAreSpaced(cfg, turns);
    SpacedMarksInWindow(Marks(cfg, turns), cfg.minInterval + cfg.jitterMin, from, from + window);
    assert from + window - from == window;
  }

  /** Waits called as soon as the one before returns, with the least jitter and exact sleeps. */
  function Eager(cfg: Config, n: nat): seq<Turn> {
    if n == 0 then []
    else
      var front := Eager(cfg, n - 1);
      var marks := Marks(cfg, front);
      front + [Turn(if marks == [] then 0.0 else marks[|marks| - 1], cfg.jitterMin, 0.0, 0.0)]
  }

  /** The spacing is attained, so no better rate bound holds. */
  lemma {:induction false} EagerMarks(cfg: Config, n: nat)
    requires 0.0 <= cfg.jitterMin <= cfg.jitterMax && cfg.minInterval > 0.0
    ensures |Eager(cfg, n)| == n && |Marks(cfg, Eager(cfg, n))| == n
    ensures forall i :: 0 <= i < n ==> Possible(cfg, Eager(cfg, n)[i])
    ensures forall i :: 0 < i < n ==>
        Marks(cfg, Eager(cfg, n))[i] - Marks(cfg, Eager(cfg, n))[i - 1] == cfg.minInterval + cfg.jitterMin
  {
    if n > 0 {
      EagerMarks(cfg, n - 1);
      var turns := Eager(cfg, n);
      assert turns[..|turns| - 1] == Eager(cfg, n - 1);
    }
  }

  /** When a wait leaves its mark, to the second: a call that comes when the interval has passed sleeps its jitter
      alone, an earlier one first sleeps out the interval, and both take what their sleeps overrun. */
  lemma MarkIsExact(cfg: Config, last: Option<real>, t: Turn)
    ensures Mark(cfg, last, t)
         == if last.Some? && t.start < last.value + cfg.minInterval
            then last.value + cfg.minInterval + t.overrun + t.jitter + t.overrun'
            else t.start + t.jitter + t.overrun'
  {
  }

  /** Over a run no wait is longer than it must be. */
  lemma {:induction false} MarksAreExact(cfg: Config, turns: seq<Turn>, i: nat)
    requires i < |turns|
    ensures |Marks(cfg, turns)| == |turns|
    ensures var marks, t := Marks(cfg, turns), turns[i];
      marks[i] == if i > 0 && t.start < marks[i - 1] + cfg.minInterval
                  then marks[i - 1] + cfg.minInterval + t.overrun + t.jitter + t.overrun'
                  else t.start + t.jitter + t.overrun'
  {
    var front := turns[..|turns| - 1];
    MarksOfFront(cfg, turns);
    if i < |front| {
      MarksAreExact(cfg, front, i);
    }
  }

  lemma {:induction false} MarksOfFront(cfg: Config, turns: seq<Turn>)
    ensures |Marks(cfg, turns)| == |turns|
    ensures turns != [] ==> Marks(cfg, turns)[..|turns| - 1] == Marks(cfg, turns[..|turns| - 1])
  {
    if turns != [] {
      MarksOfFront(cfg, turns[..|turns| - 1]);
    }
  }
}
