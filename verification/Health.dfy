/**
 Health checks: the monitor channel of a container's health record (container/health.go) and
 what probe results do to it (daemon/health.go).

 Every operation here runs with the container locked, so it is one event. A monitor is known by
 the channel it was started with; its probes may report at any later time.
 */
module Healths {
  import opened Wrappers

  datatype HealthStatus = NoStatus | Starting | Healthy | Unhealthy

  datatype Probe = Probe(exitCode: int, start: int, output: string)

  datatype Record = Record(status: HealthStatus, failingStreak: nat, log: seq<Probe>)

  /** Healthcheck configuration and the container's start time. */
  datatype Config = Config(hasProbe: bool, retries: int, startPeriod: int, startedAt: int)

  const DefaultRetries := 3
  const MaxLogEntries := 5

  function Retries(cfg: Config): int { if cfg.retries <= 0 then DefaultRetries else cfg.retries }

  predicate Success(r: Probe) { r.exitCode == 0 }

  /** The probe started within the start period. */
  predicate InGrace(cfg: Config, r: Probe) { r.start - cfg.startedAt < cfg.startPeriod }

  // ---------------------------------------------------------------------------------------
  // Probe results

  function Logged(log: seq<Probe>, r: Probe): seq<Probe> {
    if |log| >= MaxLogEntries then log[|log| + 1 - MaxLogEntries..] + [r] else log + [r]
  }

  /** handleProbeResult for a monitor that was not stopped. */
  function Handle(cfg: Config, h: Record, r: Probe): Record {
    var log := Logged(h.log, r);
    if Success(r) then Record(Healthy, 0, log)
    else if h.status.Starting? && InGrace(cfg, r) then h.(log := log)
    else
      var streak := h.failingStreak + 1;
      Record(if streak >= Retries(cfg) then Unhealthy else h.status, streak, log)
  }

  function HandleAll(cfg: Config, h: Record, rs: seq<Probe>): Record
    decreases |rs|
  {
    if rs == [] then h else Handle(cfg, HandleAll(cfg, h, rs[..|rs| - 1]), rs[|rs| - 1])
  }

  function LastFive(log: seq<Probe>): seq<Probe> {
    if |log| <= MaxLogEntries then log else log[|log| - MaxLogEntries..]
  }

  lemma LoggedKeepsLastFive(log: seq<Probe>, r: Probe)
    ensures Logged(log, r) == LastFive(log + [r])
    ensures Logged(LastFive(log), r) == LastFive(log + [r])
  {
  }

  /** The log is the last five of the old log followed by the results. */
  lemma {:induction false} LogIsLastFive(cfg: Config, h: Record, rs: seq<Probe>)
    requires |h.log| <= MaxLogEntries || rs != []
    ensures HandleAll(cfg, h, rs).log == LastFive(h.log + rs)
    decreases |rs|
  {
    if rs == [] {
      assert h.log + rs == h.log;
    } else {
      var init, r := rs[..|rs| - 1], rs[|rs| - 1];
      assert h.log + rs == (h.log + init) + [r];
      LoggedKeepsLastFive(h.log + init, r);
      if init == [] {
        assert h.log + init == h.log;
      } else {
        LogIsLastFive(cfg, h, init);
      }
    }
  }

  /** The position of the last success, or -1. */
  function LastSuccess(rs: seq<Probe>): (k: int)
    ensures -1 <= k < |rs|
    ensures k >= 0 ==> rs[k].exitCode == 0
    ensures forall i | k < i < |rs| :: rs[i].exitCode != 0
    decreases |rs|
  {
    if rs == [] then -1
    else if Success(rs[|rs| - 1]) then |rs| - 1
    else LastSuccess(rs[..|rs| - 1])
  }

  /** How many of the results come from probes started after the start period. */
  function CountedFailures(cfg: Config, rs: seq<Probe>): nat
    decreases |rs|
  {
    if rs == [] then 0
    else CountedFailures(cfg, rs[..|rs| - 1]) + if InGrace(cfg, rs[|rs| - 1]) then 0 else 1
  }

  /** The positions of the probes that started when the start period was over. */
  ghost function OutsideGrace(cfg: Config, rs: seq<Probe>): set<nat> {
    set i: nat | i < |rs| && rs[i].start - cfg.startedAt >= cfg.startPeriod
  }

  lemma {:induction false} CountedFailuresIs(cfg: Config, rs: seq<Probe>)
    ensures CountedFailures(cfg, rs) == |set i: nat | i < |rs| && rs[i].start - cfg.startedAt >= cfg.startPeriod|
    decreases |rs|
  {
    if rs == [] {
      assert OutsideGrace(cfg, rs) == {};
    } else {
      var init, n := rs[..|rs| - 1], |rs| - 1;
      CountedFailuresIs(cfg, init);
      if rs[n].start - cfg.startedAt >= cfg.startPeriod {
        assert OutsideGrace(cfg, rs) == OutsideGrace(cfg, init) + {n};
      } else {
        assert OutsideGrace(cfg, rs) == OutsideGrace(cfg, init);
      }
      assert OutsideGrace(cfg, init) == set i: nat | i < |init| && init[i].start - cfg.startedAt >= cfg.startPeriod;
      assert OutsideGrace(cfg, rs) == set i: nat | i < |rs| && rs[i].start - cfg.startedAt >= cfg.startPeriod;
    }
  }

  predicate StartsInOrder(rs: seq<Probe>) {
    forall i, j | 0 <= i < j < |rs| :: rs[i].start <= rs[j].start
  }

  /** The record as initHealthMonitor leaves it. */
  predicate JustStarted(h: Record) { h.status.Starting? && h.failingStreak == 0 }

  /**
   For any results after a start: unhealthy exactly when the streak has reached the retries,
   starting exactly when it has not and there was no success; since a success every result is a
   counted failure.
   */
  lemma {:induction false} StatusFollowsStreak(cfg: Config, h: Record, rs: seq<Probe>)
    requires JustStarted(h)
    ensures var e := HandleAll(cfg, h, rs);
            && (e.status.Unhealthy? <==> e.failingStreak >= Retries(cfg))
            && (e.status.Starting? <==> LastSuccess(rs) == -1 && e.failingStreak < Retries(cfg))
            && (e.status.Healthy? <==> LastSuccess(rs) >= 0 && e.failingStreak < Retries(cfg))
            && (LastSuccess(rs) >= 0 ==> e.failingStreak == |rs| - 1 - LastSuccess(rs))
    decreases |rs|
  {
    if rs != [] {
      StatusFollowsStreak(cfg, h, rs[..|rs| - 1]);
    }
  }

  /** If a probe started within the start period, so did all those before it. */
  lemma {:induction false} GraceComesFirst(cfg: Config, rs: seq<Probe>, i: nat)
    requires StartsInOrder(rs) && i < |rs| && InGrace(cfg, rs[i])
    ensures CountedFailures(cfg, rs[..i]) == 0
    decreases i
  {
    if i > 0 {
      assert rs[..i][..i - 1] == rs[..i - 1];
      GraceComesFirst(cfg, rs, i - 1);
    }
  }

  /**
   Before the first success the streak is the number of failures outside the start period.
   The monitor runs its probes one after the other, so their start times are in order.
   */
  lemma {:induction false} StreakBeforeSuccess(cfg: Config, h: Record, rs: seq<Probe>)
    requires JustStarted(h) && StartsInOrder(rs) && LastSuccess(rs) == -1
    ensures HandleAll(cfg, h, rs).failingStreak == CountedFailures(cfg, rs)
    decreases |rs|
  {
    if rs != [] {
      var init := rs[..|rs| - 1];
      StreakBeforeSuccess(cfg, h, init);
      StatusFollowsStreak(cfg, h, init);
      if InGrace(cfg, rs[|rs| - 1]) {
        GraceComesFirst(cfg, rs, |rs| - 1);
      }
    }
  }

  /** After a pause the streak no longer decides: unhealthy until a success, however short the streak. */
  lemma {:induction false} AfterReopening(cfg: Config, h: Record, rs: seq<Probe>)
    requires h.status.Unhealthy?
    ensures var e := HandleAll(cfg, h, rs);
            && (e.status.Unhealthy? <==> LastSuccess(rs) == -1 || e.failingStreak >= Retries(cfg))
            && (e.status.Healthy? <==> LastSuccess(rs) >= 0 && e.failingStreak < Retries(cfg))
            && e.failingStreak == if LastSuccess(rs) >= 0 then |rs| - 1 - LastSuccess(rs) else h.failingStreak + |rs|
    decreases |rs|
  {
    if rs != [] {
      AfterReopening(cfg, h, rs[..|rs| - 1]);
    }
  }

  // ---------------------------------------------------------------------------------------
  // Monitors

  /** The health record with its monitor channel; channels made and closed so far. */
  datatype Sys = Sys(health: Option<Record>, stop: Option<nat>, made: nat, closed: set<nat>)

  datatype Event =
    | Update(running: bool, paused: bool)
    | Init(running: bool, paused: bool)
    | Stop
    | Result(monitor: nat, probe: Probe)

  function OpenChannel(s: Sys): Sys {
    if s.stop.None? then s.(stop := Some(s.made), made := s.made + 1) else s
  }

  function CloseChannel(s: Sys): Sys {
    if s.stop.Some? && s.health.Some?
    then s.(closed := s.closed + {s.stop.value}, stop := None, health := Some(s.health.value.(status := Unhealthy)))
    else s
  }

  function UpdateMonitor(cfg: Config, s: Sys, running: bool, paused: bool): Sys {
    if s.health.None? then s
    else if running && !paused && cfg.hasProbe then OpenChannel(s)
    else CloseChannel(s)
  }

  function InitMonitor(cfg: Config, s: Sys, running: bool, paused: bool): Sys {
    if !cfg.hasProbe then s else
      var t := CloseChannel(s);
      var log := if t.health.Some? then t.health.value.log else [];
      UpdateMonitor(cfg, t.(health := Some(Record(Starting, 0, log))), running, paused)
  }

  function Next(cfg: Config, s: Sys, e: Event): Sys {
    match e
    case Update(running, paused) => UpdateMonitor(cfg, s, running, paused)
    case Init(running, paused) => InitMonitor(cfg, s, running, paused)
    case Stop => CloseChannel(s)
    case Result(m, r) =>
      if m in s.closed || m >= s.made || s.health.None? then s
      else s.(health := Some(Handle(cfg, s.health.value, r)))
  }

  function RunOf(cfg: Config, s: Sys, es: seq<Event>): Sys
    decreases |es|
  {
    if es == [] then s else Next(cfg, RunOf(cfg, s, es[..|es| - 1]), es[|es| - 1])
  }

  const NoHealth := Sys(None, None, 0, {})

  /** The open channels are exactly the current one. */
  ghost predicate OneMonitor(s: Sys) {
    && (forall c | 0 <= c < s.made :: c !in s.closed <==> s.stop == Some(c))
    && (s.stop.Some? ==> s.stop.value < s.made && s.health.Some?)
    && (forall c | c in s.closed :: c < s.made)
  }

  lemma StepKeepsOneMonitor(cfg: Config, s: Sys, e: Event)
    requires OneMonitor(s)
    ensures OneMonitor(Next(cfg, s, e))
  {
  }

  /** A whole history: each event under the configuration and start time of its moment. */
  function HistoryOf(s: Sys, es: seq<(Config, Event)>): Sys
    decreases |es|
  {
    if es == [] then s else Next(es[|es| - 1].0, HistoryOf(s, es[..|es| - 1]), es[|es| - 1].1)
  }

  /** Over every interleaving at most one monitor channel is open, and it is the current one. */
  lemma {:induction false} RunKeepsOneMonitor(es: seq<(Config, Event)>)
    ensures OneMonitor(HistoryOf(NoHealth, es))
    decreases |es|
  {
    if es != [] {
      var init := es[..|es| - 1];
      RunKeepsOneMonitor(init);
      StepKeepsOneMonitor(es[|es| - 1].0, HistoryOf(NoHealth, init), es[|es| - 1].1);
    }
  }

  /** A result changes the health record exactly when its monitor's channel is the current one. */
  lemma OnlyCurrentMonitorReports(cfg: Config, es: seq<(Config, Event)>, m: nat, r: Probe)
    ensures var s := HistoryOf(NoHealth, es);
            && (s.stop == Some(m) ==>
                  s.health.Some? && Next(cfg, s, Result(m, r)) == s.(health := Some(Handle(cfg, s.health.value, r))))
            && (s.stop != Some(m) ==> Next(cfg, s, Result(m, r)) == s)
  {
    RunKeepsOneMonitor(es);
  }

  /** The results in a run that belong to a given monitor. */
  function ResultsOf(m: nat, es: seq<Event>): seq<Probe>
    decreases |es|
  {
    if es == [] then []
    else ResultsOf(m, es[..|es| - 1])
         + if es[|es| - 1].Result? && es[|es| - 1].monitor == m then [es[|es| - 1].probe] else []
  }

  /** The event leaves the monitor running. */
  predicate KeepsMonitor(cfg: Config, e: Event) {
    e.Result? || (e.Update? && e.running && !e.paused && cfg.hasProbe)
  }

  lemma OwnResultStep(cfg: Config, s: Sys, e: Event)
    requires OneMonitor(s) && s.stop.Some? && KeepsMonitor(cfg, e)
    ensures Next(cfg, s, e) ==
            if e.Result? && e.monitor == s.stop.value
            then s.(health := Some(Handle(cfg, s.health.value, e.probe))) else s
    ensures OneMonitor(Next(cfg, s, e))
  {
  }

  /**
   While a monitor's channel stays open, the record is what its own results make of it: probes
   of earlier monitors that report late leave no trace.
   */
  lemma {:induction false} RecordFoldsOwnResults(cfg: Config, s: Sys, es: seq<Event>)
    requires OneMonitor(s) && s.stop.Some?
    requires forall i | 0 <= i < |es| :: KeepsMonitor(cfg, es[i])
    ensures RunOf(cfg, s, es) ==
            s.(health := Some(HandleAll(cfg, s.health.value, ResultsOf(s.stop.value, es))))
    decreases |es|
  {
    if es != [] {
      var init, e := es[..|es| - 1], es[|es| - 1];
      RecordFoldsOwnResults(cfg, s, init);
      var m := s.stop.value;
      OwnResultStep(cfg, RunOf(cfg, s, init), e);
      if e.Result? && e.monitor == m {
        var rs := ResultsOf(m, es);
        assert rs == ResultsOf(m, init) + [e.probe];
        assert rs[..|rs| - 1] == ResultsOf(m, init);
      } else {
        assert ResultsOf(m, es) == ResultsOf(m, init);
      }
    }
  }

  /**
   From a start until the channel is closed, over any interleaving with late probes of earlier
   monitors: status, streak and log are decided by the new monitor's results alone. A result is a
   success if its exit code is 0; before the first success the streak counts the probes started
   after the start period; three retries are the default, and the log keeps five results. The
   history before the start is any state with at most the current monitor open, so it may have been
   made under other start times and configurations.
   */
  lemma HealthFromStart(cfg: Config, h: Sys, es: seq<Event>)
    requires OneMonitor(h) && cfg.hasProbe
    requires forall i | 0 <= i < |es| :: es[i].Result? || (es[i].Update? && es[i].running && !es[i].paused)
    ensures var s := Next(cfg, h, Init(true, false));
            s.stop.Some? && s.health.Some? && s.health.value.status == Starting && s.health.value.failingStreak == 0 &&
            s.health.value.log == (if h.health.Some? then h.health.value.log else []) &&
            var rs := ResultsOf(s.stop.value, es);
            var end := RunOf(cfg, s, es);
            var retries := if cfg.retries <= 0 then 3 else cfg.retries;
            && end.stop == s.stop && end.health.Some?
            && var e := end.health.value;
            && (e.status == Unhealthy <==> e.failingStreak >= retries)
            && (e.status == Starting <==> LastSuccess(rs) == -1 && e.failingStreak < retries)
            && (e.status == Healthy <==> LastSuccess(rs) >= 0 && e.failingStreak < retries)
            && (LastSuccess(rs) >= 0 ==> e.failingStreak == |rs| - 1 - LastSuccess(rs))
            && (LastSuccess(rs) == -1 && StartsInOrder(rs) ==>
                  e.failingStreak == |set i: nat | i < |rs| && rs[i].start - cfg.startedAt >= cfg.startPeriod|)
            && (rs != [] ==> var all := s.health.value.log + rs; e.log == if |all| <= 5 then all else all[|all| - 5..])
  {
    var s := Next(cfg, h, Init(true, false));
    InitOpens(cfg, h);
    RecordFoldsOwnResults(cfg, s, es);
    var rs := ResultsOf(s.stop.value, es);
    StatusFollowsStreak(cfg, s.health.value, rs);
    if LastSuccess(rs) == -1 && StartsInOrder(rs) {
      StreakBeforeSuccess(cfg, s.health.value, rs);
      CountedFailuresIs(cfg, rs);
    }
    if rs != [] { LogIsLastFive(cfg, s.health.value, rs); }
  }

  /** The results of a monitor among the events, in order. */
  lemma ResultsOfAppends(m: nat, es: seq<Event>, e: Event)
    ensures ResultsOf(m, es + [e]) ==
            if e.Result? && e.monitor == m then ResultsOf(m, es) + [e.probe] else ResultsOf(m, es)
  {
    assert (es + [e])[..|es|] == es;
    assert ResultsOf(m, es) + [] == ResultsOf(m, es);
  }

  /**
   One result of the current monitor: a success makes the container healthy; a failure within the
   start period of a starting container does not count; any other failure adds to the streak, which
   makes it unhealthy on reaching the retries, three unless set.
   */
  lemma ProbeMeans(cfg: Config, s: Sys, m: nat, r: Probe)
    requires OneMonitor(s) && s.stop == Some(m)
    ensures var h := s.health.value;
            var t := Next(cfg, s, Result(m, r));
            var retries := if cfg.retries <= 0 then 3 else cfg.retries;
            t.health.Some? && t == s.(health := t.health) &&
            var n := t.health.value;
            && (|h.log| < 5 ==> n.log == h.log + [r])
            && (|h.log| >= 5 ==> n.log == h.log[|h.log| - 4..] + [r])
            && (r.exitCode == 0 ==> n.status == Healthy && n.failingStreak == 0)
            && (r.exitCode != 0 && h.status == Starting && r.start - cfg.startedAt < cfg.startPeriod ==>
                  n.status == Starting && n.failingStreak == h.failingStreak)
            && (r.exitCode != 0 && !(h.status == Starting && r.start - cfg.startedAt < cfg.startPeriod) ==>
                  n.failingStreak == h.failingStreak + 1
                  && n.status == if h.failingStreak + 1 >= retries then Unhealthy else h.status)
  {
  }

  /**
   A monitor is opened, with a channel never used before, exactly when a running, unpaused container
   with a probe has none, and closed, with the status unhealthy, when the container is not so.
   */
  lemma MonitorSwitch(cfg: Config, s: Sys, running: bool, paused: bool)
    requires OneMonitor(s) && s.health.Some?
    ensures var t := Next(cfg, s, Update(running, paused));
            && (running && !paused && cfg.hasProbe && s.stop.Some? ==> t == s)
            && (running && !paused && cfg.hasProbe && s.stop.None? ==>
                  t.stop.Some? && t.stop.value >= s.made && t.health == s.health && t.closed == s.closed)
            && (!(running && !paused && cfg.hasProbe) ==>
                  t.stop.None? && (s.stop.None? ==> t == s)
                  && (s.stop.Some? ==>
                        s.stop.value in t.closed && t.health == Some(s.health.value.(status := Unhealthy))))
    ensures Next(cfg, s, Stop) == Next(cfg, s, Update(false, false))
  {
  }

  /** A container without a probe, or without a health record, has no monitor to switch. */
  lemma NothingToMonitor(cfg: Config, s: Sys, running: bool, paused: bool)
    ensures !cfg.hasProbe ==> Next(cfg, s, Init(running, paused)) == s
    ensures s.health.None? ==> Next(cfg, s, Update(running, paused)) == s && Next(cfg, s, Stop) == s
  {
  }

  lemma InitOpens(cfg: Config, s: Sys)
    requires cfg.hasProbe && OneMonitor(s)
    ensures var t := Next(cfg, s, Init(true, false));
            OneMonitor(t) && t.stop.Some? && t.health.Some? && JustStarted(t.health.value)
  {
  }

  /** Pausing stops the monitor and reports unhealthy at once, with the streak untouched. */
  lemma PauseReportsUnhealthy(cfg: Config, s: Sys)
    requires OneMonitor(s) && s.stop.Some? && cfg.hasProbe
    ensures var t := Next(cfg, Next(cfg, s, Update(true, true)), Update(true, false));
            && t.stop.Some? && t.stop != s.stop && t.health.Some?
            && t.health.value == s.health.value.(status := Unhealthy)
  {
  }

  // ---------------------------------------------------------------------------------------
  // The health object

  class Health {
    var present: bool           // the container has a health record
    var stop: Option<nat>
    var status: HealthStatus
    var failingStreak: nat
    var log: seq<Probe>
    var made: nat
    var closed: set<nat>

    ghost function Value(): Sys
      reads this
    {
      Sys(if present then Some(Record(status, failingStreak, log)) else None, stop, made, closed)
    }

    constructor ()
      ensures Value() == NoHealth
    {
      present, stop, status, failingStreak, log, made, closed := false, None, NoStatus, 0, [], 0, {};
    }

    method Status() returns (r: HealthStatus)
      ensures r == if status == NoStatus then Unhealthy else status
    {
      if status.NoStatus? {
        return Unhealthy;
      }
      r := status;
    }

    method OpenMonitorChannel() returns (ch: Option<nat>)
      modifies this`stop, this`made
      ensures Value() == OpenChannel(old(Value()))
      ensures ch.Some? <==> old(stop).None?
      ensures ch.Some? ==> stop == ch && ch.value == old(made)
    {
      if stop.None? {
        stop := Some(made);
        made := made + 1;
        return stop;
      }
      ch := None;
    }

    method CloseMonitorChannel()
      requires present && OneMonitor(Value())
      modifies this`stop, this`status, this`closed
      ensures Value() == CloseChannel(old(Value()))
    {
      if stop.Some? {
        assert stop.value !in closed;
        closed := closed + {stop.value};
        stop := None;
        status := Unhealthy;
      }
    }

    method UpdateHealthMonitor(cfg: Config, running: bool, paused: bool)
      requires OneMonitor(Value())
      modifies this`stop, this`status, this`closed, this`made
      ensures Value() == UpdateMonitor(cfg, old(Value()), running, paused) && OneMonitor(Value())
    {
      if !present {
        return;
      }
      if running && !paused && cfg.hasProbe {
        var _ := OpenMonitorChannel();
      } else {
        CloseMonitorChannel();
      }
    }

    method InitHealthMonitor(cfg: Config, running: bool, paused: bool)
      requires OneMonitor(Value())
      modifies this
      ensures Value() == InitMonitor(cfg, old(Value()), running, paused) && OneMonitor(Value())
    {
      if !cfg.hasProbe {
        return;
      }
      if present {
        CloseMonitorChannel();
      } else {
        present := true;
        log := [];
      }
      status := Starting;
      failingStreak := 0;
      UpdateHealthMonitor(cfg, running, paused);
    }

    method HandleProbeResult(cfg: Config, r: Probe, done: nat)
      requires OneMonitor(Value()) && done < made
      modifies this`log, this`failingStreak, this`status
      ensures Value() == Next(cfg, old(Value()), Result(done, r)) && OneMonitor(Value())
    {
      if done in closed {
        return;
      }
      var retries := cfg.retries;
      if retries <= 0 {
        retries := DefaultRetries;
      }
      if |log| >= MaxLogEntries {
        log := log[|log| + 1 - MaxLogEntries..] + [r];
      } else {
        log := log + [r];
      }
      if r.exitCode == 0 {
        failingStreak := 0;
        status := Healthy;
      } else {
        var shouldIncrementStreak := true;
        if status.Starting? {
          if r.start - cfg.startedAt < cfg.startPeriod {
            shouldIncrementStreak := false;
          }
        }
        if shouldIncrementStreak {
          failingStreak := failingStreak + 1;
          if failingStreak >= retries {
            status := Unhealthy;
          }
        }
      }
    }
  }
}
