/**
 A container's state object (container/state.go): flags, exit status and the two
 close-and-replace wait channels.

 A channel is an identity from a growing pool; closing adds it to the closed set. Each
 lock-held section is one event. Times are numbers, with 0 for the zero time.
 */
module ContainerState {
  import opened Wrappers

  /** The flags that decide the state string. */
  datatype Flags = Flags(running: bool, paused: bool, restarting: bool, removalInProgress: bool, dead: bool,
                         startedAt: nat)

  datatype Exit = Exit(pid: int, code: int, error: string, oomKilled: bool, finishedAt: nat)

  datatype Channels = Channels(waitStop: nat, waitRemove: nat, made: nat, closed: set<nat>)

  datatype Core = Core(flags: Flags, exit: Exit, chans: Channels)

  const NewCore := Core(Flags(false, false, false, false, false, 0), Exit(0, 0, "", false, 0), Channels(0, 1, 2, {}))

  datatype ExitStatus = ExitStatus(code: int, oomKilled: bool, exitedAt: nat)

  datatype Event =
    | SetRunning(pid: int, initial: bool, now: nat)
    | SetStopped(exit: ExitStatus, now: nat)
    | SetRestarting(exit: ExitStatus, now: nat)
    | SetError(error: string)
    | SetExitCode(code: int)
    | FireRemoved                              // the locked half of SetRemoved and SetRemovalError
    | SetRemovalInProgress
    | ResetRemovalInProgress
    | SetPaused(paused: bool)
    | SetDead

  /** What StateString reports. */
  function StateString(f: Flags): string {
    if f.running then
      if f.paused then "paused" else if f.restarting then "restarting" else "running"
    else if f.removalInProgress then "removing"
    else if f.dead then "dead"
    else if f.startedAt == 0 then "created"
    else "exited"
  }

  function ApplyFlags(f: Flags, e: Event): Flags {
    match e
    case SetRunning(_, initial, now) =>
      f.(paused := false, running := true, restarting := false, startedAt := if initial then now else f.startedAt)
    case SetStopped(_, _) => f.(running := false, paused := false, restarting := false)
    case SetRestarting(_, _) => f.(running := true, restarting := true, paused := false)
    case SetRemovalInProgress => f.(removalInProgress := true)
    case ResetRemovalInProgress => f.(removalInProgress := false)
    case SetPaused(b) => f.(paused := b)
    case SetDead => f.(dead := true)
    case _ => f
  }

  function ApplyExit(x: Exit, e: Event): Exit {
    match e
    case SetRunning(pid, _, _) => x.(error := "", code := 0, pid := pid)
    case SetStopped(s, now) =>
      Exit(0, s.code, x.error, s.oomKilled, if s.exitedAt == 0 then now else s.exitedAt)
    case SetRestarting(s, now) => Exit(0, s.code, x.error, s.oomKilled, now)
    case SetError(msg) => x.(error := msg)
    case SetExitCode(code) => x.(code := code)
    case _ => x
  }

  /** A stop or a removal closes the current channel and makes a new one. */
  function ApplyChannels(c: Channels, e: Event): Channels {
    if FiresStop(e) then Channels(c.made, c.waitRemove, c.made + 1, c.closed + {c.waitStop})
    else if e.FireRemoved? then Channels(c.waitStop, c.made, c.made + 1, c.closed + {c.waitRemove})
    else c
  }

  predicate FiresStop(e: Event) { e.SetStopped? || e.SetRestarting? }

  function Apply(s: Core, e: Event): Core {
    Core(ApplyFlags(s.flags, e), ApplyExit(s.exit, e), ApplyChannels(s.chans, e))
  }

  function ApplyAll(s: Core, es: seq<Event>): Core
    decreases |es|
  {
    if es == [] then s else ApplyAll(Apply(s, es[0]), es[1..])
  }

  // ---------------------------------------------------------------------------------------
  // Waiting

  datatype Condition = NotRunning | NextExit | Removed

  datatype Status = Status(exitCode: int, error: string)

  function StatusOf(s: Core): Status { Status(s.exit.code, s.exit.error) }

  /** What Wait leaves behind: a status already delivered, or the channels it selects on. */
  datatype Waiter = Delivered(status: Status) | Blocked(stop: Option<nat>, remove: nat)

  function Wait(s: Core, c: Condition): Waiter {
    if c.NotRunning? && !s.flags.running then Delivered(StatusOf(s))
    else Blocked(if c.Removed? then None else Some(s.chans.waitStop), s.chans.waitRemove)
  }

  /** A receive in the waiter's select can proceed: its context ended or a channel is closed. */
  predicate Released(s: Core, w: Waiter, contextDone: bool)
    requires w.Blocked?
  {
    contextDone || (w.stop.Some? && w.stop.value in s.chans.closed) || w.remove in s.chans.closed
  }

  /** The current channels are distinct, open, and every identity so far is below the pool's end. */
  ghost predicate ChannelsOpen(c: Channels) {
    && c.waitStop < c.made && c.waitRemove < c.made && c.waitStop != c.waitRemove
    && c.waitStop !in c.closed && c.waitRemove !in c.closed
    && (forall ch | ch in c.closed :: ch < c.made)
  }

  lemma ApplyKeepsChannelsOpen(c: Channels, e: Event)
    requires ChannelsOpen(c)
    ensures ChannelsOpen(ApplyChannels(c, e))
  {
  }

  /** In every reachable state both current channels are open, so no close hits a closed one. */
  lemma {:induction false} RunKeepsChannelsOpen(s: Core, es: seq<Event>)
    requires ChannelsOpen(s.chans)
    ensures ChannelsOpen(ApplyAll(s, es).chans)
    decreases |es|
  {
    if es != [] {
      ApplyKeepsChannelsOpen(s.chans, es[0]);
      RunKeepsChannelsOpen(Apply(s, es[0]), es[1..]);
    }
  }

  /** A closed channel stays closed. */
  lemma {:induction false} ClosedForever(s: Core, es: seq<Event>)
    ensures s.chans.closed <= ApplyAll(s, es).chans.closed
    decreases |es|
  {
    if es != [] {
      ClosedForever(Apply(s, es[0]), es[1..]);
    }
  }

  lemma ExistsSplits(es: seq<Event>)
    requires es != []
    ensures (exists i :: 0 <= i < |es| && (es[i].SetStopped? || es[i].SetRestarting?)) <==>
            es[0].SetStopped? || es[0].SetRestarting?
            || exists i :: 0 <= i < |es[1..]| && (es[1..][i].SetStopped? || es[1..][i].SetRestarting?)
    ensures (exists i :: 0 <= i < |es| && es[i].FireRemoved?) <==>
            es[0].FireRemoved? || exists i :: 0 <= i < |es[1..]| && es[1..][i].FireRemoved?
  {
    assert forall i | 1 <= i < |es| :: es[1..][i - 1] == es[i];
  }

  /** The stop channel read at some point is closed later exactly when the container stopped or restarted since. */
  lemma {:induction false} StopChannelClosedIff(s: Core, es: seq<Event>)
    requires ChannelsOpen(s.chans)
    ensures s.chans.waitStop in ApplyAll(s, es).chans.closed <==>
            exists i :: 0 <= i < |es| && (es[i].SetStopped? || es[i].SetRestarting?)
    decreases |es|
  {
    if es != [] {
      ExistsSplits(es);
      var t := Apply(s, es[0]);
      ApplyKeepsChannelsOpen(s.chans, es[0]);
      ClosedForever(t, es[1..]);
      if !es[0].SetStopped? && !es[0].SetRestarting? {
        StopChannelClosedIff(t, es[1..]);
      }
    }
  }

  lemma {:induction false} RemoveChannelClosedIff(s: Core, es: seq<Event>)
    requires ChannelsOpen(s.chans)
    ensures s.chans.waitRemove in ApplyAll(s, es).chans.closed <==> exists i :: 0 <= i < |es| && es[i].FireRemoved?
    decreases |es|
  {
    if es != [] {
      ExistsSplits(es);
      var t := Apply(s, es[0]);
      ApplyKeepsChannelsOpen(s.chans, es[0]);
      ClosedForever(t, es[1..]);
      if !es[0].FireRemoved? {
        RemoveChannelClosedIff(t, es[1..]);
      }
    }
  }

  /**
   No lost wakeup and no spurious one: a waiter that registers after some run and blocks is
   released, after any further run, exactly when its context ended, the container was removed
   (or its removal failed) since, or, unless it waits only for removal, it stopped or restarted since.
   */
  lemma WakeupIff(before: seq<Event>, c: Condition, since: seq<Event>, contextDone: bool)
    requires Wait(ApplyAll(NewCore, before), c).Blocked?
    ensures var s := ApplyAll(NewCore, before);
            Released(ApplyAll(s, since), Wait(s, c), contextDone) <==>
              || contextDone
              || (exists i :: 0 <= i < |since| && since[i].FireRemoved?)
              || (c != Removed && exists i :: 0 <= i < |since| && (since[i].SetStopped? || since[i].SetRestarting?))
  {
    RunKeepsChannelsOpen(NewCore, before);
    var s := ApplyAll(NewCore, before);
    StopChannelClosedIff(s, since);
    RemoveChannelClosedIff(s, since);
  }

  /** Only a wait for a container that does not run, while it does not run, is answered at once. */
  lemma WaitBlocksIff(s: Core, c: Condition)
    ensures Wait(s, c).Delivered? <==> c == NotRunning && !s.flags.running
    ensures Wait(s, c).Delivered? ==>
              Wait(s, c).status.exitCode == s.exit.code && Wait(s, c).status.error == s.exit.error
  {
  }

  /** The state string, flag by flag. */
  lemma StateStringIs(f: Flags)
    ensures StateString(f) == "paused" <==> f.running && f.paused
    ensures StateString(f) == "restarting" <==> f.running && !f.paused && f.restarting
    ensures StateString(f) == "running" <==> f.running && !f.paused && !f.restarting
    ensures StateString(f) == "removing" <==> !f.running && f.removalInProgress
    ensures StateString(f) == "dead" <==> !f.running && !f.removalInProgress && f.dead
    ensures StateString(f) == "created" <==> !f.running && !f.removalInProgress && !f.dead && f.startedAt == 0
    ensures StateString(f) == "exited" <==> !f.running && !f.removalInProgress && !f.dead && f.startedAt != 0
  {
  }

  /** The flags of a start, a stop and a restart. */
  lemma ActivityFlags(s: Core, pid: int, initial: bool, x: ExitStatus, now: nat)
    ensures Apply(s, SetRunning(pid, initial, now)).flags ==
            Flags(true, false, false, s.flags.removalInProgress, s.flags.dead,
                  if initial then now else s.flags.startedAt)
    ensures Apply(s, SetStopped(x, now)).flags ==
            Flags(false, false, false, s.flags.removalInProgress, s.flags.dead, s.flags.startedAt)
    ensures Apply(s, SetRestarting(x, now)).flags ==
            Flags(true, false, true, s.flags.removalInProgress, s.flags.dead, s.flags.startedAt)
  {
  }

  /** What a start, a stop and a restart record of the process and its exit. */
  lemma ExitFields(s: Core, pid: int, initial: bool, x: ExitStatus, now: nat)
    ensures Apply(s, SetRunning(pid, initial, now)).exit == Exit(pid, 0, "", s.exit.oomKilled, s.exit.finishedAt)
    ensures Apply(s, SetStopped(x, now)).exit ==
            Exit(0, x.code, s.exit.error, x.oomKilled, if x.exitedAt == 0 then now else x.exitedAt)
    ensures Apply(s, SetRestarting(x, now)).exit == Exit(0, x.code, s.exit.error, x.oomKilled, now)
  {
  }

  /** The small setters touch their field and nothing else. */
  lemma SettersTouchOne(s: Core, b: bool, msg: string, code: int)
    ensures Apply(s, SetPaused(b)) == s.(flags := s.flags.(paused := b))
    ensures Apply(s, SetDead) == s.(flags := s.flags.(dead := true))
    ensures Apply(s, SetRemovalInProgress) == s.(flags := s.flags.(removalInProgress := true))
    ensures Apply(s, ResetRemovalInProgress) == s.(flags := s.flags.(removalInProgress := false))
    ensures Apply(s, SetError(msg)) == s.(exit := s.exit.(error := msg))
    ensures Apply(s, SetExitCode(code)) == s.(exit := s.exit.(code := code))
    ensures Apply(s, FireRemoved).flags == s.flags && Apply(s, FireRemoved).exit == s.exit
  {
  }

  /** After any run the container runs exactly if it was started or restarted and not stopped since. */
  lemma {:induction false} RunningIff(s: Core, es: seq<Event>)
    ensures ApplyAll(s, es).flags.running <==>
            || (s.flags.running && forall j | 0 <= j < |es| :: !es[j].SetStopped?)
            || (exists i :: 0 <= i < |es| && (es[i].SetRunning? || es[i].SetRestarting?)
                            && forall j | i < j < |es| :: !es[j].SetStopped?)
    decreases |es|
  {
    if es != [] {
      var init, e := es[..|es| - 1], es[|es| - 1];
      RunningIff(s, init);
      assert es == init + [e];
      ApplyAllAppends(s, init, [e]);
      assert [e][1..] == [];
      assert ApplyAll(s, es) == Apply(ApplyAll(s, init), e);
      if e.SetRunning? || e.SetRestarting? {
        assert es[|es| - 1] == e;
      }
    }
  }

  /** What each lifecycle event makes of the state string. */
  lemma EventStates(f: Flags, pid: int, initial: bool, x: ExitStatus, now: nat)
    ensures StateString(ApplyFlags(f, SetRunning(pid, initial, now))) == "running"
    ensures StateString(ApplyFlags(f, SetRestarting(x, now))) == "restarting"
    ensures StateString(ApplyFlags(f, SetStopped(x, now))) in {"removing", "dead", "created", "exited"}
    ensures f.running ==> StateString(ApplyFlags(f, SetPaused(true))) == "paused"
    ensures StateString(f) in {"running", "restarting"} ==>
              StateString(ApplyFlags(ApplyFlags(f, SetPaused(true)), SetPaused(false))) == StateString(f)
    ensures !f.running ==> StateString(ApplyFlags(f, SetRemovalInProgress)) == "removing"
    ensures f.running ==> StateString(ApplyFlags(ApplyFlags(f, SetRemovalInProgress), SetDead)) == StateString(f)
  {
  }

  /** A stopped container answers a wait at once with the exit it stopped with; a started one blocks. */
  lemma StopThenWait(s: Core, x: ExitStatus, now: nat, pid: int, initial: bool)
    ensures Wait(Apply(s, SetStopped(x, now)), NotRunning) == Delivered(Status(x.code, s.exit.error))
    ensures Wait(Apply(s, SetRunning(pid, initial, now)), NotRunning).Blocked?
    ensures Wait(Apply(s, SetRestarting(x, now)), NotRunning).Blocked?
    ensures StatusOf(Apply(s, SetRunning(pid, initial, now))) == Status(0, "")
  {
  }

  /** The exit code an event writes, if it writes one. */
  function WrittenBy(e: Event): Option<int> {
    match e
    case SetRunning(_, _, _) => Some(0)
    case SetStopped(x, _) => Some(x.code)
    case SetRestarting(x, _) => Some(x.code)
    case SetExitCode(code) => Some(code)
    case _ => None
  }

  /** The last exit code that a run of events writes. */
  function LastWritten(es: seq<Event>): (r: Option<int>)
    ensures r.None? <==> forall i | 0 <= i < |es| ::
                           !(es[i].SetRunning? || es[i].SetStopped? || es[i].SetRestarting? || es[i].SetExitCode?)
    decreases |es|
  {
    if es == [] then None
    else if LastWritten(es[1..]).Some? then LastWritten(es[1..])
    else WrittenBy(es[0])
  }

  lemma {:induction false} CodeIsLastWritten(s: Core, es: seq<Event>)
    ensures ApplyAll(s, es).exit.code == if LastWritten(es).Some? then LastWritten(es).value else s.exit.code
    decreases |es|
  {
    if es != [] {
      CodeIsLastWritten(Apply(s, es[0]), es[1..]);
    }
  }

  /** The exit code after a run is that of the last start, stop, restart or explicit code, whatever came before. */
  lemma CodeFollowsLastWrite(s: Core, pre: seq<Event>, e: Event, post: seq<Event>)
    requires forall i | 0 <= i < |post| ::
               !(post[i].SetRunning? || post[i].SetStopped? || post[i].SetRestarting? || post[i].SetExitCode?)
    ensures var code := ApplyAll(s, pre + [e] + post).exit.code;
            && (e.SetRunning? ==> code == 0)
            && (e.SetStopped? || e.SetRestarting? ==> code == e.exit.code)
            && (e.SetExitCode? ==> code == e.code)
  {
    ApplyAllAppends(s, pre + [e], post);
    ApplyAllAppends(s, pre, [e]);
    assert [e][1..] == [];
    CodeIsLastWritten(ApplyAll(s, pre + [e]), post);
  }

  lemma {:induction false} ApplyAllAppends(s: Core, a: seq<Event>, b: seq<Event>)
    ensures ApplyAll(s, a + b) == ApplyAll(ApplyAll(s, a), b)
    decreases |a|
  {
    if a == [] {
      assert a + b == b;
    } else {
      ApplyAllAppends(Apply(s, a[0]), a[1..], b);
      assert (a + b)[1..] == a[1..] + b;
    }
  }

  /**
   A waiter that does not wait only for removal is released by a stop or restart, wherever that
   comes after it registered. The status it then reads under the lock has the code of that exit
   exactly when nothing wrote the code since, or the last to write it wrote the same.
   */
  lemma WokenReadsTheExitIff(s: Core, c: Condition, pre: seq<Event>, e: Event, post: seq<Event>)
    requires ChannelsOpen(s.chans) && Wait(s, c).Blocked? && c != Removed && (e.SetStopped? || e.SetRestarting?)
    ensures var t := ApplyAll(s, pre + [e] + post);
            && Released(t, Wait(s, c), false)
            && (t.exit.code == e.exit.code <==> LastWritten(post) == None || LastWritten(post) == Some(e.exit.code))
  {
    var es := pre + [e] + post;
    assert es[|pre|] == e;
    StopChannelClosedIff(s, es);
    ApplyAllAppends(s, pre + [e], post);
    ApplyAllAppends(s, pre, [e]);
    assert [e][1..] == [];
    var stopped := ApplyAll(s, pre + [e]);
    assert stopped == Apply(ApplyAll(s, pre), e);
    CodeIsLastWritten(stopped, post);
  }

  /** The failing family: a restart that takes the lock first makes every such waiter read 0. */
  lemma RestartHidesExit(s: Core, c: Condition, pre: seq<Event>, e: Event, mid: seq<Event>, start: Event,
                         post: seq<Event>)
    requires ChannelsOpen(s.chans) && Wait(s, c).Blocked? && c != Removed
    requires (e.SetStopped? || e.SetRestarting?) && e.exit.code != 0 && start.SetRunning? && LastWritten(post).None?
    ensures var t := ApplyAll(s, pre + [e] + (mid + [start] + post));
            Released(t, Wait(s, c), false) && t.exit.code == 0
  {
    var late := mid + [start] + post;
    WokenReadsTheExitIff(s, c, pre, e, late);
    ApplyAllAppends(s, pre + [e], late);
    var stopped := ApplyAll(s, pre + [e]);
    ApplyAllAppends(stopped, mid + [start], post);
    ApplyAllAppends(stopped, mid, [start]);
    assert [start][1..] == [];
    CodeIsLastWritten(ApplyAll(stopped, mid + [start]), post);
  }

  class State {
    var running: bool
    var paused: bool
    var restarting: bool
    var oomKilled: bool
    var removalInProgress: bool
    var dead: bool
    var pid: int
    var exitCode: int
    var error: string
    var startedAt: nat
    var finishedAt: nat
    var waitStop: nat
    var waitRemove: nat
    var made: nat
    var closed: set<nat>

    ghost function Value(): Core
      reads this
    {
      Core(Flags(running, paused, restarting, removalInProgress, dead, startedAt),
           Exit(pid, exitCode, error, oomKilled, finishedAt),
           Channels(waitStop, waitRemove, made, closed))
    }

    constructor ()
      ensures Value() == NewCore && ChannelsOpen(Value().chans)
    {
      running, paused, restarting, oomKilled, removalInProgress, dead := false, false, false, false, false, false;
      pid, exitCode, error, startedAt, finishedAt := 0, 0, "", 0, 0;
      waitStop, waitRemove, made, closed := 0, 1, 2, {};
    }

    /** Closing a channel twice panics; the precondition says that it does not happen. */
    method Close(ch: nat)
      requires ch < made && ch !in closed
      modifies this`closed
      ensures closed == old(closed) + {ch}
    {
      closed := closed + {ch};
    }

    method MakeChannel() returns (ch: nat)
      modifies this`made
      ensures ch == old(made) && made == ch + 1
    {
      ch := made;
      made := made + 1;
    }

    /** Wakes those waiting for a stop and gives later waiters a new channel. */
    method FireStop()
      requires ChannelsOpen(Value().chans)
      modifies this`waitStop, this`made, this`closed
      ensures waitStop == old(made) && made == old(made) + 1 && closed == old(closed) + {old(waitStop)}
      ensures ChannelsOpen(Value().chans)
    {
      Close(waitStop);
      waitStop := MakeChannel();
    }

    /** Sets the three activity flags. */
    method SetActivity(run: bool, pause: bool, restart: bool)
      modifies this`running, this`paused, this`restarting
      ensures running == run && paused == pause && restarting == restart
    {
      running := run;
      paused := pause;
      restarting := restart;
    }

    /** Records an exit; the process is gone. */
    method RecordExit(x: ExitStatus, finished: nat)
      modifies this`pid, this`finishedAt, this`exitCode, this`oomKilled
      ensures pid == 0 && finishedAt == finished && exitCode == x.code && oomKilled == x.oomKilled
    {
      pid := 0;
      finishedAt := finished;
      exitCode := x.code;
      oomKilled := x.oomKilled;
    }

    method SetRunning(newPid: int, initial: bool, now: nat)
      modifies this
      ensures Value() == Apply(old(Value()), Event.SetRunning(newPid, initial, now))
    {
      error := "";
      SetActivity(true, false, false);
      exitCode := 0;
      pid := newPid;
      if initial {
        startedAt := now;
      }
    }

    method SetStopped(x: ExitStatus, now: nat)
      requires ChannelsOpen(Value().chans)
      modifies this
      ensures Value() == Apply(old(Value()), Event.SetStopped(x, now))
      ensures ChannelsOpen(Value().chans)
    {
      SetActivity(false, false, false);
      RecordExit(x, if x.exitedAt == 0 then now else x.exitedAt);
      FireStop();
    }

    method SetRestarting(x: ExitStatus, now: nat)
      requires ChannelsOpen(Value().chans)
      modifies this
      ensures Value() == Apply(old(Value()), Event.SetRestarting(x, now))
      ensures ChannelsOpen(Value().chans)
    {
      SetActivity(true, false, true);
      RecordExit(x, now);
      FireStop();
    }

    method SetRemovalError(msg: string)
      requires ChannelsOpen(Value().chans)
      modifies this
      ensures Value() == Apply(Apply(old(Value()), Event.SetError(msg)), FireRemoved) && ChannelsOpen(Value().chans)
    {
      error := msg;
      Close(waitRemove);
      waitRemove := MakeChannel();
    }

    method SetRemovalInProgress() returns (already: bool)
      modifies this`removalInProgress
      ensures already == old(removalInProgress)
      ensures Value() == Apply(old(Value()), Event.SetRemovalInProgress)
    {
      if removalInProgress {
        return true;
      }
      removalInProgress := true;
      already := false;
    }
  }
}
