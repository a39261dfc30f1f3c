/**
 The per-state container counter and the steps that keep it in agreement with the state
 objects: setStateCounter and ProcessEvent (daemon/monitor.go), containerPause
 (daemon/pause.go), containerUnpause, containerStart, create and removal; the counter itself
 is in daemon/metrics.go.
 */
module StateCounters {
  import opened ContainerState

  /** setStateCounter's three classes of state. */
  function Label(f: Flags): string {
    match StateString(f)
    case "paused" => "paused"
    case "running" => "running"
    case _ => "stopped"
  }

  /** The state of every registered container and the label recorded for each. */
  datatype Sys = Sys(flags: map<string, Flags>, labels: map<string, string>)

  /** ExitEvent is the exit of the container's own process; exits of execs are not state changes. */
  datatype Step =
    | Create(id: string)
    | ExitEvent(id: string, restart: bool, x: ExitStatus, now: nat)
    | RestartFailed(id: string, x: ExitStatus, now: nat)
    | StartEvent(id: string, pid: int)
    | ContainerStart(id: string, resetRestartManager: bool, pid: int, now: nat)
    | PausedEvent(id: string)
    | ResumedEvent(id: string)
    | ContainerPause(id: string)
    | ContainerUnpause(id: string)
    | OOMEvent(id: string)
    | BeginRemoval(id: string)
    | ResetRemoval(id: string)
    | MarkDead(id: string)
    | Remove(id: string)

  const NewFlags := NewCore.flags

  /** The state change of a step on a registered container, and whether it refreshes the counter. */
  function Change(f: Flags, st: Step): (Flags, bool) {
    match st
    case ExitEvent(_, restart, x, now) =>
      (ApplyFlags(f, if restart then SetRestarting(x, now) else SetStopped(x, now)), true)
    case RestartFailed(_, x, now) => (ApplyFlags(f, SetStopped(x, now)), true)
    case StartEvent(_, pid) => if f.running then (f, false) else (ApplyFlags(f, SetRunning(pid, false, 0)), true)
    case ContainerStart(_, reset, pid, now) =>
      if (reset && f.running) || f.removalInProgress || f.dead then (f, false)
      else (ApplyFlags(f, SetRunning(pid, true, now)), true)
    case PausedEvent(_) => if f.paused then (f, false) else (ApplyFlags(f, SetPaused(true)), true)
    case ResumedEvent(_) => if f.paused then (ApplyFlags(f, SetPaused(false)), true) else (f, false)
    case ContainerPause(_) =>
      if !f.running || f.paused || f.restarting then (f, false) else (ApplyFlags(f, SetPaused(true)), true)
    case ContainerUnpause(_) => if f.paused then (ApplyFlags(f, SetPaused(false)), true) else (f, false)
    case BeginRemoval(_) => (ApplyFlags(f, SetRemovalInProgress), false)
    case ResetRemoval(_) => (ApplyFlags(f, ResetRemovalInProgress), false)
    case MarkDead(_) => (ApplyFlags(f, SetDead), false)
    case _ => (f, false)
  }

  /** The class of a state, flag by flag. */
  lemma LabelIs(f: Flags)
    ensures Label(f) == "paused" <==> f.running && f.paused
    ensures Label(f) == "running" <==> f.running && !f.paused && !f.restarting
    ensures Label(f) == "stopped" <==> !f.running || (f.restarting && !f.paused)
  {
  }

  /** An exit ends in a restart or a stop and is counted; so is a restart that fails. */
  lemma ExitMeans(f: Flags, id: string, x: ExitStatus, now: nat)
    ensures Change(f, ExitEvent(id, true, x, now)) == (f.(running := true, paused := false, restarting := true), true)
    ensures Change(f, ExitEvent(id, false, x, now)) ==
            (f.(running := false, paused := false, restarting := false), true)
    ensures Change(f, RestartFailed(id, x, now)) == (f.(running := false, paused := false, restarting := false), true)
  {
  }

  /** A start is refused for a container that is being removed or dead, or runs and was not restarted. */
  lemma StartMeans(f: Flags, id: string, reset: bool, pid: int, now: nat)
    ensures Change(f, StartEvent(id, pid)) ==
            if f.running then (f, false) else (f.(running := true, paused := false, restarting := false), true)
    ensures Change(f, ContainerStart(id, reset, pid, now)) ==
            if (reset && f.running) || f.removalInProgress || f.dead then (f, false)
            else (f.(running := true, paused := false, restarting := false, startedAt := now), true)
  {
  }

  /** Pausing and resuming change the one flag, and count only if they change it. */
  lemma PauseMeans(f: Flags, id: string)
    ensures Change(f, PausedEvent(id)) == (f.(paused := true), !f.paused)
    ensures Change(f, ResumedEvent(id)) == (f.(paused := false), f.paused)
    ensures Change(f, ContainerUnpause(id)) == (f.(paused := false), f.paused)
    ensures Change(f, ContainerPause(id)) ==
            if f.running && !f.paused && !f.restarting then (f.(paused := true), true) else (f, false)
  {
  }

  /** The removal marks change one flag each, an out-of-memory event none, and none of them is counted. */
  lemma MarksMean(f: Flags, id: string)
    ensures Change(f, BeginRemoval(id)) == (f.(removalInProgress := true), false)
    ensures Change(f, ResetRemoval(id)) == (f.(removalInProgress := false), false)
    ensures Change(f, MarkDead(id)) == (f.(dead := true), false)
    ensures Change(f, OOMEvent(id)) == (f, false)
  {
  }

  /** The state string after each event. */
  lemma EventStrings(f: Flags, id: string, x: ExitStatus, now: nat, pid: int)
    ensures StateString(Change(f, ExitEvent(id, true, x, now)).0) == "restarting"
    ensures StateString(Change(f, ExitEvent(id, false, x, now)).0) ==
            if f.removalInProgress then "removing" else if f.dead then "dead"
            else if f.startedAt == 0 then "created" else "exited"
    ensures !f.running ==> StateString(Change(f, StartEvent(id, pid)).0) == "running"
    ensures f.running ==> StateString(Change(f, PausedEvent(id)).0) == "paused"
    ensures f.running ==> StateString(Change(f, ResumedEvent(id)).0) == if f.restarting then "restarting" else "running"
  {
  }

  function Next(s: Sys, st: Step): Sys {
    match st
    case Create(id) => if id in s.flags then s else Sys(s.flags[id := NewFlags], s.labels[id := "stopped"])
    case Remove(id) => Sys(s.flags - {id}, s.labels - {id})
    case _ =>
      if st.id !in s.flags then s else
        var (f, refresh) := Change(s.flags[st.id], st);
        Sys(s.flags[st.id := f], if refresh then s.labels[st.id := Label(f)] else s.labels)
  }

  function RunOf(s: Sys, steps: seq<Step>): Sys
    decreases |steps|
  {
    if steps == [] then s else RunOf(Next(s, steps[0]), steps[1..])
  }

  /** A new container is created and counted as stopped; a removed one is gone from both. */
  lemma CreateAndRemoveMean(s: Sys, id: string)
    ensures id !in s.flags ==>
              Next(s, Create(id)) ==
              Sys(s.flags[id := Flags(false, false, false, false, false, 0)], s.labels[id := "stopped"])
    ensures id in s.flags ==> Next(s, Create(id)) == s
    ensures Next(s, Remove(id)) == Sys(s.flags - {id}, s.labels - {id})
  {
  }

  ghost predicate Agrees(s: Sys) {
    s.flags.Keys == s.labels.Keys && forall id | id in s.flags :: s.labels[id] == Label(s.flags[id])
  }

  /** A state change that does not refresh the counter does not change the class. */
  lemma UnrefreshedChangeKeepsLabel(f: Flags, st: Step)
    requires !Change(f, st).1
    ensures Label(Change(f, st).0) == Label(f)
  {
  }

  lemma StepKeepsAgreement(s: Sys, st: Step)
    requires Agrees(s)
    ensures Agrees(Next(s, st))
  {
    if !st.Create? && !st.Remove? && st.id in s.flags && !Change(s.flags[st.id], st).1 {
      UnrefreshedChangeKeepsLabel(s.flags[st.id], st);
    }
  }

  lemma {:induction false} RunKeepsAgreement(s: Sys, steps: seq<Step>)
    requires Agrees(s)
    ensures Agrees(RunOf(s, steps))
    decreases |steps|
  {
    if steps != [] {
      StepKeepsAgreement(s, steps[0]);
      RunKeepsAgreement(Next(s, steps[0]), steps[1..]);
    }
  }

  // ---------------------------------------------------------------------------------------
  // Counting

  function Labelled(m: map<string, string>, tag: string): set<string> {
    set id | id in m && m[id] == tag
  }

  lemma LabelledIs(m: map<string, string>, tag: string, id: string)
    ensures id in Labelled(m, tag) <==> id in m && m[id] == tag
  {
  }

  predicate KnownLabels(m: map<string, string>) {
    forall id | id in m :: m[id] == "running" || m[id] == "paused" || m[id] == "stopped"
  }

  lemma LabelsPartition(m: map<string, string>)
    requires KnownLabels(m)
    ensures |Labelled(m, "running")| + |Labelled(m, "paused")| + |Labelled(m, "stopped")| == |m|
  {
    var r, p, t := Labelled(m, "running"), Labelled(m, "paused"), Labelled(m, "stopped");
    assert m.Keys == r + p + t;
    assert r !! p && (r + p) !! t;
  }

  /** The containers a reader of the counter should count in a class. */
  ghost function InClass(s: Sys, tag: string): set<string> {
    set id | id in s.flags && Label(s.flags[id]) == tag
  }

  /** After any run the three counts are those of the actual states and add up to the total. */
  lemma CountsAreExact(steps: seq<Step>)
    ensures var s := RunOf(Sys(map[], map[]), steps);
            && KnownLabels(s.labels) && |s.labels| == |s.flags|
            && Labelled(s.labels, "running") == InClass(s, "running")
            && Labelled(s.labels, "paused") == InClass(s, "paused")
            && Labelled(s.labels, "stopped") == InClass(s, "stopped")
            && |InClass(s, "running")| + |InClass(s, "paused")| + |InClass(s, "stopped")| == |s.flags|
  {
    RunKeepsAgreement(Sys(map[], map[]), steps);
    var s := RunOf(Sys(map[], map[]), steps);
    assert |s.labels.Keys| == |s.flags.Keys|;
    LabelsPartition(s.labels);
  }

  // ---------------------------------------------------------------------------------------
  // Creation, lookup and removal taken apart

  /**
   The state objects ever made, the registered ones, those whose creation has yet to record its
   label, the removals between the store and the label, the labels, and which container each call
   or event handler holds. An object outlives its registration in the hands of a caller.
   */
  datatype Split = Split(
    objects: map<string, Flags>, registered: set<string>, creating: set<string>,
    leaving: map<nat, string>, labels: map<string, string>, calls: map<nat, string>)

  const NoObjects := Split(map[], {}, {}, map[], map[], map[])

  datatype Section =
    | Enter(call: nat, id: string)    // Register, by the call that creates the container
    | Record(id: string)              // the end of a creation: the label "stopped"
    | Abort(id: string)               // the end of a creation that returns an error
    | Find(call: nat, id: string)
    | Deliver(call: nat, st: Step)
    | Leave(call: nat)                // a removal: out of the store
    | Forget(call: nat)               // the same removal: out of the counter

  /** The call holds the container that the step is about. */
  predicate Holds(s: Split, call: nat, st: Step) {
    call in s.calls && s.calls[call] == st.id && st.id in s.objects
  }

  /** The delivery changes the state in a way that refreshes the counter. */
  predicate Refreshes(s: Split, call: nat, st: Step) {
    Holds(s, call, st) && Change(s.objects[st.id], st).1
  }

  function SplitNext(s: Split, e: Section): Split {
    match e
    case Enter(call, id) =>
      if id in s.objects || call in s.calls then s else
        s.(objects := s.objects[id := NewFlags], registered := s.registered + {id},
           creating := s.creating + {id}, calls := s.calls[call := id])
    case Record(id) =>
      if id in s.creating then s.(creating := s.creating - {id}, labels := s.labels[id := "stopped"]) else s
    case Abort(id) => s.(creating := s.creating - {id})
    case Find(call, id) =>
      if id in s.registered && call !in s.calls then s.(calls := s.calls[call := id]) else s
    case Deliver(call, st) =>
      if !Holds(s, call, st) then s else
        var (f, refresh) := Change(s.objects[st.id], st);
        s.(objects := s.objects[st.id := f], labels := if refresh then s.labels[st.id := Label(f)] else s.labels)
    case Leave(call) =>
      if call !in s.calls || call in s.leaving then s else
        s.(registered := s.registered - {s.calls[call]}, leaving := s.leaving[call := s.calls[call]])
    case Forget(call) =>
      if call in s.leaving then s.(labels := s.labels - {s.leaving[call]}, leaving := s.leaving - {call}) else s
  }

  function SplitRun(s: Split, es: seq<Section>): Split
    decreases |es|
  {
    if es == [] then s else SplitRun(SplitNext(s, es[0]), es[1..])
  }

  /** A label of the container will still be removed: it is registered, or a removal of it is on its way. */
  ghost predicate Present(s: Split, id: string) {
    id in s.registered || exists k :: k in s.leaving && s.leaving[k] == id
  }

  /** What holds of every state, late labels or not. */
  ghost predicate WellFormed(s: Split) {
    && s.registered <= s.objects.Keys && s.creating <= s.objects.Keys && s.labels.Keys <= s.objects.Keys
    && (forall k :: k in s.calls ==> s.calls[k] in s.objects)
    && (forall k :: k in s.leaving ==> s.leaving[k] in s.objects && s.leaving[k] !in s.registered)
  }

  /** Every registered container is labelled unless it is being created, and no label outlives its container. */
  ghost predicate Covered(s: Split) {
    && s.registered - s.creating <= s.labels.Keys
    && forall id :: id in s.labels ==> Present(s, id)
  }

  /** Every label is the class of its container's state. */
  ghost predicate Fitting(s: Split) {
    forall id :: id in s.labels && id in s.objects ==> s.labels[id] == Label(s.objects[id])
  }

  ghost predicate Exact(s: Split) { WellFormed(s) && Covered(s) && Fitting(s) }

  lemma SectionKeepsWellFormed(s: Split, e: Section)
    requires WellFormed(s)
    ensures WellFormed(SplitNext(s, e))
  {
  }

  /** What has to hold when a section begins. */
  ghost predicate Timely(s: Split, e: Section)
    requires WellFormed(s)
  {
    match e
    case Record(id) => id in s.creating ==> Present(s, id) && Label(s.objects[id]) == "stopped"
    case Abort(id) => id in s.creating && id in s.registered ==> id in s.labels
    case Deliver(call, st) => Refreshes(s, call, st) ==> Present(s, st.id)
    case _ => true
  }

  lemma RecordExactIff(s: Split, id: string)
    requires Exact(s)
    ensures Exact(SplitNext(s, Record(id))) <==> Timely(s, Record(id))
  {
    var n := SplitNext(s, Record(id));
    forall x ensures Present(n, x) <==> Present(s, x) {
    }
    if id in s.creating {
      assert id in n.labels && n.labels[id] == "stopped";
    }
  }

  lemma DeliverExactIff(s: Split, call: nat, st: Step)
    requires Exact(s)
    ensures Exact(SplitNext(s, Deliver(call, st))) <==> Timely(s, Deliver(call, st))
  {
    var n := SplitNext(s, Deliver(call, st));
    forall x ensures Present(n, x) <==> Present(s, x) {
    }
    if Refreshes(s, call, st) {
      assert st.id in n.labels;
    } else if Holds(s, call, st) {
      UnrefreshedChangeKeepsLabel(s.objects[st.id], st);
    }
  }

  lemma RemovalKeepsExact(s: Split, call: nat)
    requires Exact(s)
    ensures Exact(SplitNext(s, Leave(call))) && Exact(SplitNext(s, Forget(call)))
  {
    var l, f := SplitNext(s, Leave(call)), SplitNext(s, Forget(call));
    forall x | x in l.labels ensures Present(l, x) {
      assert Present(s, x);
      if x in s.registered && x !in l.registered {
        assert call in l.leaving && l.leaving[call] == x;
      } else if x !in s.registered {
        var k :| k in s.leaving && s.leaving[k] == x;
        assert k in l.leaving && l.leaving[k] == x;
      }
    }
    forall x | x in f.labels ensures Present(f, x) {
      assert Present(s, x);
      if x !in s.registered {
        var k :| k in s.leaving && s.leaving[k] == x;
        assert k in f.leaving && f.leaving[k] == x;
      }
    }
  }

  lemma EnterKeepsExact(s: Split, call: nat, id: string)
    requires Exact(s)
    ensures Exact(SplitNext(s, Enter(call, id)))
  {
    var n := SplitNext(s, Enter(call, id));
    forall x | Present(s, x) ensures Present(n, x) {
    }
  }

  lemma AbortExactIff(s: Split, id: string)
    requires Exact(s)
    ensures Exact(SplitNext(s, Abort(id))) <==> Timely(s, Abort(id))
  {
    var n := SplitNext(s, Abort(id));
    forall x ensures Present(n, x) <==> Present(s, x) {
    }
    if !Timely(s, Abort(id)) {
      assert id in n.registered - n.creating && id !in n.labels;
    }
  }

  lemma FindKeepsExact(s: Split, call: nat, id: string)
    requires Exact(s)
    ensures Exact(SplitNext(s, Find(call, id)))
  {
    var n := SplitNext(s, Find(call, id));
    forall x | Present(s, x) ensures Present(n, x) {
    }
  }

  /**
   A section keeps the counter exact if and only if it is timely: the label of a creation is right
   and not too late, and no refresh is for a container whose label has been removed.
   */
  lemma SectionKeepsExactIff(s: Split, e: Section)
    requires Exact(s)
    ensures Exact(SplitNext(s, e)) <==> Timely(s, e)
  {
    match e
    case Enter(call, id) => EnterKeepsExact(s, call, id);
    case Record(id) => RecordExactIff(s, id);
    case Abort(id) => AbortExactIff(s, id);
    case Find(call, id) => FindKeepsExact(s, call, id);
    case Deliver(call, st) => DeliverExactIff(s, call, st);
    case Leave(call) => RemovalKeepsExact(s, call);
    case Forget(call) => RemovalKeepsExact(s, call);
  }

  ghost predicate TimelyRun(s: Split, es: seq<Section>)
    requires WellFormed(s)
    decreases |es|
  {
    es == [] || (Timely(s, es[0]) && (SectionKeepsWellFormed(s, es[0]); TimelyRun(SplitNext(s, es[0]), es[1..])))
  }

  ghost predicate ExactThroughout(s: Split, es: seq<Section>)
    decreases |es|
  {
    Exact(s) && (es == [] || ExactThroughout(SplitNext(s, es[0]), es[1..]))
  }

  /** An interleaving keeps the counter exact in every state it passes exactly when each section is timely. */
  lemma {:induction false} ExactThroughoutIff(s: Split, es: seq<Section>)
    requires Exact(s)
    ensures ExactThroughout(s, es) <==> TimelyRun(s, es)
    ensures TimelyRun(s, es) ==> Exact(SplitRun(s, es))
    decreases |es|
  {
    if es != [] {
      SectionKeepsExactIff(s, es[0]);
      SectionKeepsWellFormed(s, es[0]);
      if Timely(s, es[0]) {
        ExactThroughoutIff(SplitNext(s, es[0]), es[1..]);
      }
    }
  }

  /** The registered containers whose state is in a class. */
  ghost function RegisteredIn(s: Split, tag: string): set<string> {
    set id | id in s.registered && id in s.objects && Label(s.objects[id]) == tag
  }

  /** With no creation and no removal in the middle, exact labels are the registered containers' classes. */
  lemma QuietCounts(s: Split)
    requires Exact(s) && s.creating == {} && s.leaving == map[]
    ensures s.labels.Keys == s.registered && KnownLabels(s.labels)
    ensures forall tag: string :: Labelled(s.labels, tag) == RegisteredIn(s, tag)
    ensures |RegisteredIn(s, "running")| + |RegisteredIn(s, "paused")| + |RegisteredIn(s, "stopped")| == |s.registered|
  {
    forall id | id in s.labels ensures id in s.registered {
      assert Present(s, id);
    }
    assert s.labels.Keys == s.registered;
    forall tag: string ensures Labelled(s.labels, tag) == RegisteredIn(s, tag) {
    }
    LabelsPartition(s.labels);
    assert |s.labels| == |s.labels.Keys|;
  }

  /**
   Over any interleaving of creations, events and removals: the counter is exact all the way if and
   only if every section is timely, and it then shows just the registered containers, each in its
   class, whenever no creation or removal is in the middle.
   */
  lemma SplitCounts(es: seq<Section>)
    ensures ExactThroughout(NoObjects, es) <==> TimelyRun(NoObjects, es)
    ensures var s := SplitRun(NoObjects, es);
            TimelyRun(NoObjects, es) && s.creating == {} && s.leaving == map[] ==>
              && s.labels.Keys == s.registered
              && (forall tag: string :: Labelled(s.labels, tag) == RegisteredIn(s, tag))
              && |RegisteredIn(s, "running")| + |RegisteredIn(s, "paused")| + |RegisteredIn(s, "stopped")|
                 == |s.registered|
  {
    ExactThroughoutIff(NoObjects, es);
    var s := SplitRun(NoObjects, es);
    if TimelyRun(NoObjects, es) && s.creating == {} && s.leaving == map[] {
      QuietCounts(s);
    }
  }

  /** One delivery to a looked-up container, which may be on its way out by then. */
  lemma DeliverKeepsAgreementIff(s: Split, call: nat, st: Step)
    requires Exact(s) && Holds(s, call, st)
    ensures Exact(SplitNext(s, Deliver(call, st))) <==> Present(s, st.id) || !Change(s.objects[st.id], st).1
  {
    DeliverExactIff(s, call, st);
  }

  /** The late label is right exactly when the container is still there and neither running nor paused by then. */
  lemma LateLabelAgreesIff(s: Split, id: string)
    requires Exact(s) && id in s.creating
    ensures Exact(SplitNext(s, Record(id))) <==>
            Present(s, id) && (!s.objects[id].running || (s.objects[id].restarting && !s.objects[id].paused))
  {
    RecordExactIff(s, id);
  }

  // ---------------------------------------------------------------------------------------
  // The sections of one operation, uninterrupted, are its step

  ghost predicate Shows(s: Split, w: Sys) {
    && w.flags.Keys == s.registered && w.labels == s.labels
    && forall id | id in w.flags :: id in s.objects && w.flags[id] == s.objects[id]
  }

  lemma CreateIsItsSections(s: Split, w: Sys, call: nat, id: string)
    requires Shows(s, w) && id !in s.objects && call !in s.calls
    ensures Shows(SplitNext(SplitNext(s, Enter(call, id)), Record(id)), Next(w, Create(id)))
  {
  }

  lemma RemoveIsItsSections(s: Split, w: Sys, call: nat, id: string)
    requires Shows(s, w) && call in s.calls && s.calls[call] == id && call !in s.leaving
    ensures Shows(SplitNext(SplitNext(s, Leave(call)), Forget(call)), Next(w, Remove(id)))
  {
  }

  lemma DeliverIsItsStep(s: Split, w: Sys, call: nat, st: Step)
    requires Shows(s, w) && Holds(s, call, st) && st.id in s.registered && !st.Create? && !st.Remove?
    ensures Shows(SplitNext(s, Deliver(call, st)), Next(w, st))
  {
  }

  // ---------------------------------------------------------------------------------------
  // Interleavings that are not timely

  /** A start by name inside a creation leaves a running container counted as stopped. */
  lemma StartDuringCreateMiscounts(s: Split, creator: nat, starter: nat, id: string, pid: int, now: nat)
    requires Exact(s) && id !in s.objects && creator !in s.calls && starter !in s.calls && creator != starter
    ensures var entered := SplitNext(SplitNext(s, Enter(creator, id)), Find(starter, id));
            var t := SplitNext(SplitNext(entered, Deliver(starter, ContainerStart(id, true, pid, now))), Record(id));
            id in t.registered && id in t.objects && Label(t.objects[id]) == "running"
            && id in t.labels && t.labels[id] == "stopped"
  {
  }

  /** The container is counted though it is gone. */
  ghost predicate Stray(s: Split, id: string) { id in s.objects && id in s.labels && !Present(s, id) }

  /** No call that still holds the container removes it once more. */
  ghost predicate NotRemovedAgain(s: Split, id: string, es: seq<Section>) {
    forall i | 0 <= i < |es| :: es[i].Leave? ==> es[i].call !in s.calls || s.calls[es[i].call] != id
  }

  lemma StrayStep(s: Split, id: string, e: Section)
    requires Stray(s, id) && (e.Leave? ==> e.call !in s.calls || s.calls[e.call] != id)
    ensures Stray(SplitNext(s, e), id)
    ensures forall k :: k in SplitNext(s, e).calls && SplitNext(s, e).calls[k] == id ==>
              k in s.calls && s.calls[k] == id
  {
    var n := SplitNext(s, e);
    assert Present(n, id) ==> Present(s, id);
    if e.Forget? && e.call in s.leaving {
      assert s.leaving[e.call] != id;
    }
  }

  lemma {:induction false} StrayStays(s: Split, id: string, es: seq<Section>)
    requires Stray(s, id) && NotRemovedAgain(s, id, es)
    ensures Stray(SplitRun(s, es), id)
    decreases |es|
  {
    if es != [] {
      StrayStep(s, id, es[0]);
      StrayStays(SplitNext(s, es[0]), id, es[1..]);
    }
  }

  /** The store entry and the label of a registered container go with its one removal. */
  lemma RemovalEnds(s: Split, remover: nat, id: string)
    requires WellFormed(s) && id in s.registered
    requires remover in s.calls && s.calls[remover] == id && remover !in s.leaving
    ensures var d := SplitNext(SplitNext(s, Leave(remover)), Forget(remover));
            d == s.(registered := s.registered - {id}, labels := s.labels - {id}) && !Present(d, id)
  {
    var d := SplitNext(SplitNext(s, Leave(remover)), Forget(remover));
    assert d.leaving == s.leaving;
  }

  /** The exit of a container that was looked up before its removal counts it as stopped for good. */
  lemma LateExitStays(s: Split, remover: nat, call: nat, id: string, x: ExitStatus, now: nat, after: seq<Section>)
    requires WellFormed(s) && id in s.registered
    requires remover in s.calls && s.calls[remover] == id && remover !in s.leaving
    requires call in s.calls && s.calls[call] == id
    ensures var gone := SplitNext(SplitNext(s, Leave(remover)), Forget(remover));
            var n := SplitNext(gone, Deliver(call, ExitEvent(id, false, x, now)));
            n.labels == s.labels[id := "stopped"]
            && (NotRemovedAgain(n, id, after) ==> Stray(SplitRun(n, after), id))
  {
    RemovalEnds(s, remover, id);
    var gone := SplitNext(SplitNext(s, Leave(remover)), Forget(remover));
    var n := SplitNext(gone, Deliver(call, ExitEvent(id, false, x, now)));
    assert (s.labels - {id})[id := "stopped"] == s.labels[id := "stopped"];
    assert Present(n, id) ==> Present(gone, id);
    if NotRemovedAgain(n, id, after) {
      StrayStays(n, id, after);
    }
  }

  /** A removal inside a creation is followed by its label, which then stays for good. */
  lemma RemovalDuringCreateStays(s: Split, remover: nat, id: string, after: seq<Section>)
    requires WellFormed(s) && id in s.registered && id in s.creating
    requires remover in s.calls && s.calls[remover] == id && remover !in s.leaving
    ensures var gone := SplitNext(SplitNext(s, Leave(remover)), Forget(remover));
            var n := SplitNext(gone, Record(id));
            n.labels == s.labels[id := "stopped"]
            && (NotRemovedAgain(n, id, after) ==> Stray(SplitRun(n, after), id))
  {
    RemovalEnds(s, remover, id);
    var gone := SplitNext(SplitNext(s, Leave(remover)), Forget(remover));
    var n := SplitNext(gone, Record(id));
    assert (s.labels - {id})[id := "stopped"] == s.labels[id := "stopped"];
    assert Present(n, id) ==> Present(gone, id);
    if NotRemovedAgain(n, id, after) {
      StrayStays(n, id, after);
    }
  }

  // ---------------------------------------------------------------------------------------
  // Objects

  class StateCounter {
    var states: map<string, string>

    constructor ()
      ensures states == map[]
    {
      states := map[];
    }

    method Set(id: string, tag: string)
      modifies this
      ensures states == old(states)[id := tag]
    {
      states := states[id := tag];
    }

    method Del(id: string)
      modifies this
      ensures states == old(states) - {id}
    {
      states := states - {id};
    }

    method Get() returns (running: nat, paused: nat, stopped: nat)
      requires KnownLabels(states)
      ensures running == |Labelled(states, "running")| && paused == |Labelled(states, "paused")|
      ensures stopped == |Labelled(states, "stopped")| && running + paused + stopped == |states|
    {
      running, paused, stopped := 0, 0, 0;
      TallyAll(states);
      var left := states.Keys;
      while left != {}
        invariant left <= states.Keys
        invariant running == Tally(states, left, "running")
        invariant paused == Tally(states, left, "paused")
        invariant stopped == Tally(states, left, "stopped")
        decreases left
      {
        var id :| id in left;
        TallyOne(states, left, id);
        if states[id] == "running" {
          running := running + 1;
        } else if states[id] == "paused" {
          paused := paused + 1;
        } else {
          stopped := stopped + 1;
        }
        left := left - {id};
      }
      TallyAll(states);
    }
  }

  /** How many of the containers outside a set carry a label. */
  ghost function Tally(m: map<string, string>, left: set<string>, tag: string): nat { |Labelled(m, tag) - left| }

  lemma TallyOne(m: map<string, string>, left: set<string>, id: string)
    requires KnownLabels(m) && id in m && id in left
    ensures var run, pau := m[id] == "running", m[id] == "paused";
            && Tally(m, left - {id}, "running") == Tally(m, left, "running") + (if run then 1 else 0)
            && Tally(m, left - {id}, "paused") == Tally(m, left, "paused") + (if !run && pau then 1 else 0)
            && Tally(m, left - {id}, "stopped") == Tally(m, left, "stopped") + (if !run && !pau then 1 else 0)
  {
    CountOne(Labelled(m, "running"), left, id);
    CountOne(Labelled(m, "paused"), left, id);
    CountOne(Labelled(m, "stopped"), left, id);
    LabelIsOne(m, id);
  }

  lemma TallyAll(m: map<string, string>)
    requires KnownLabels(m)
    ensures Tally(m, m.Keys, "running") == Tally(m, m.Keys, "paused") == Tally(m, m.Keys, "stopped") == 0
    ensures Tally(m, {}, "running") == |Labelled(m, "running")|
    ensures Tally(m, {}, "paused") == |Labelled(m, "paused")|
    ensures Tally(m, {}, "stopped") == |Labelled(m, "stopped")|
    ensures Tally(m, {}, "running") + Tally(m, {}, "paused") + Tally(m, {}, "stopped") == |m|
  {
    LabelsPartition(m);
    forall tag: string
      ensures Labelled(m, tag) - {} == Labelled(m, tag) && Labelled(m, tag) - m.Keys == {}
    {
    }
  }

  lemma LabelIsOne(m: map<string, string>, id: string)
    requires KnownLabels(m) && id in m
    ensures id in Labelled(m, "running") <==> m[id] == "running"
    ensures id in Labelled(m, "paused") <==> m[id] == "paused" && m[id] != "running"
    ensures id in Labelled(m, "stopped") <==> m[id] != "running" && m[id] != "paused"
  {
  }

  lemma CountOne(s: set<string>, left: set<string>, id: string)
    requires id in left
    ensures |s - (left - {id})| == |s - left| + if id in s then 1 else 0
  {
    if id in s {
      assert s - (left - {id}) == (s - left) + {id};
    } else {
      assert s - (left - {id}) == s - left;
    }
  }

  method SetStateCounter(c: State, id: string, counter: StateCounter)
    modifies counter
    ensures counter.states == old(counter.states)[id := Label(c.Value().flags)]
  {
    var f := Flags(c.running, c.paused, c.restarting, c.removalInProgress, c.dead, c.startedAt);
    match StateString(f)
    case "paused" => counter.Set(id, "paused");
    case "running" => counter.Set(id, "running");
    case _ => counter.Set(id, "stopped");
  }

  /** The state events of ProcessEvent on a container found by its ID. */
  method ProcessEvent(c: State, id: string, counter: StateCounter, st: Step)
    requires st.ExitEvent? || st.StartEvent? || st.PausedEvent? || st.ResumedEvent? || st.OOMEvent?
    requires ChannelsOpen(c.Value().chans)
    modifies c, counter
    ensures ChannelsOpen(c.Value().chans)
    ensures var (f, refresh) := Change(old(c.Value().flags), st);
            c.Value().flags == f
            && counter.states == if refresh then old(counter.states)[id := Label(f)] else old(counter.states)
    ensures st.ExitEvent? ==>
              c.Value() ==
              Apply(old(c.Value()), if st.restart then SetRestarting(st.x, st.now) else SetStopped(st.x, st.now))
    ensures st.StartEvent? && !old(c.running) ==> c.Value() == Apply(old(c.Value()), SetRunning(st.pid, false, 0))
    ensures !st.ExitEvent? && !st.StartEvent? ==>
              c.Value().exit == old(c.Value().exit) && c.Value().chans == old(c.Value().chans)
    ensures st.StartEvent? && old(c.running) ==> c.Value() == old(c.Value())
  {
    match st
    case OOMEvent(_) =>
    case ExitEvent(_, restart, x, now) =>
      if restart {
        c.SetRestarting(x, now);
      } else {
        c.SetStopped(x, now);
      }
      SetStateCounter(c, id, counter);
    case StartEvent(_, pid) =>
      if !c.running {
        c.SetRunning(pid, false, 0);
        SetStateCounter(c, id, counter);
      }
    case PausedEvent(_) =>
      if !c.paused {
        c.paused := true;
        SetStateCounter(c, id, counter);
      }
    case ResumedEvent(_) =>
      if c.paused {
        c.paused := false;
        SetStateCounter(c, id, counter);
      }
  }

  method ContainerPauseStep(c: State, id: string, counter: StateCounter, runtimeOk: bool) returns (ok: bool)
    modifies c`paused, counter
    ensures ok <==> runtimeOk && Change(old(c.Value().flags), ContainerPause(id)).1
    ensures ok ==> c.Value().flags == Change(old(c.Value().flags), ContainerPause(id)).0
                   && StateString(c.Value().flags) == "paused"
                   && counter.states == old(counter.states)[id := "paused"]
    ensures !ok ==> c.Value() == old(c.Value()) && counter.states == old(counter.states)
  {
    if !c.running || c.paused || c.restarting {
      return false;
    }
    if !runtimeOk {
      return false;
    }
    c.paused := true;
    SetStateCounter(c, id, counter);
    ok := true;
  }
}
