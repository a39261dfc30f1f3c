/**
 The exec registry (daemon/exec.go, the exec part of ProcessEvent in daemon/monitor.go, and the
 stores of daemon/exec/exec.go): starting an exec at most once, and the two-phase collector.

 Each lock-held section is one step, and any interleaving of any number of start calls with
 exits, cleanups and collector passes is a run. A step that is not enabled changes nothing.
 */
module Execs {
  import opened Wrappers

  datatype Config = Config(container: string, running: bool, exited: bool)

  /** Where a ContainerExecStart call is. */
  datatype Pc =
    | Found(exec: string)      // getExecConfig returned the exec
    | Claimed(exec: string)    // set Running
    | Launched(exec: string)   // containerd.Exec succeeded
    | Finished

  /** The start calls and how often each exec was handed to containerd.Exec. */
  datatype Starts = Starts(calls: map<nat, Pc>, launches: map<string, nat>)

  /** The stores, the execs marked CanRemove, and what a pass found live between its two phases. */
  datatype Stores = Stores(
    own: map<string, set<string>>,        // each container's own store
    registered: set<string>,              // containers known to the daemon
    daemon: set<string>,                  // the daemon's store
    marked: set<string>,
    scan: Option<set<string>>)

  datatype Sys = Sys(configs: map<string, Config>, starts: Starts, stores: Stores)

  datatype Step =
    | NewContainer(c: string)
    | Register(e: string, c: string)
    | Find(t: nat, e: string)
    | Claim(t: nat)
    | FailBeforeLaunch(t: nat)
    | Launch(t: nat, ok: bool)
    | Detach(t: nat, ok: bool)
    | ExitEvent(e: string)
    | CleanupExecs(c: string)
    | Deregister(c: string)
    | Scan
    | Sweep

  const Start := Sys(map[], Starts(map[], map[]), Stores(map[], {}, {}, {}, None))

  /** The execs in the stores of registered containers. */
  function LiveIn(s: Stores): set<string> {
    set c, e | c in s.registered && c in s.own && e in s.own[c] :: e
  }

  function Live(s: Sys): set<string> { LiveIn(s.stores) }

  function Launches(s: Starts, e: string): nat { if e in s.launches then s.launches[e] else 0 }

  predicate IsAt(s: Sys, t: nat, pc: Pc) { t in s.starts.calls && s.starts.calls[t] == pc }

  /** The exec whose deferred error path a step runs: exit code recorded, out of its container's store. */
  function FailedBy(s: Sys, st: Step): Option<string> {
    match st
    case FailBeforeLaunch(t) =>
      if t in s.starts.calls && s.starts.calls[t].Claimed? then Some(s.starts.calls[t].exec) else None
    case Launch(t, ok) =>
      if !ok && t in s.starts.calls && s.starts.calls[t].Claimed? then Some(s.starts.calls[t].exec) else None
    case Detach(t, ok) =>
      if !ok && t in s.starts.calls && s.starts.calls[t].Launched? then Some(s.starts.calls[t].exec) else None
    case ExitEvent(e) => if e in Live(s) then Some(e) else None
    case _ => None
  }

  predicate ClaimSucceeds(s: Sys, t: nat) {
    && t in s.starts.calls && s.starts.calls[t].Found? && s.starts.calls[t].exec in s.configs
    && !s.configs[s.starts.calls[t].exec].exited && !s.configs[s.starts.calls[t].exec].running
  }

  function NextConfigs(s: Sys, st: Step): map<string, Config> {
    if FailedBy(s, st).Some? then
      var e := FailedBy(s, st).value;
      if e in s.configs then s.configs[e := s.configs[e].(running := false, exited := true)] else s.configs
    else match st
      case Register(e, c) =>
        if e !in s.configs && c in s.stores.own then s.configs[e := Config(c, false, false)] else s.configs
      case Claim(t) =>
        if ClaimSucceeds(s, t)
        then s.configs[s.starts.calls[t].exec := s.configs[s.starts.calls[t].exec].(running := true)] else s.configs
      case _ => s.configs
  }

  function NextStarts(s: Sys, st: Step): Starts {
    var calls, launches := s.starts.calls, s.starts.launches;
    match st
    case Find(t, e) =>
      if t !in calls && e in s.stores.daemon && e in s.configs then Starts(calls[t := Found(e)], launches) else s.starts
    case Claim(t) =>
      if !(t in calls && calls[t].Found?) then s.starts
      else Starts(calls[t := if ClaimSucceeds(s, t) then Claimed(calls[t].exec) else Finished], launches)
    case FailBeforeLaunch(t) =>
      if t in calls && calls[t].Claimed? then Starts(calls[t := Finished], launches) else s.starts
    case Launch(t, ok) =>
      if !(t in calls && calls[t].Claimed?) then s.starts
      else Starts(calls[t := if ok then Launched(calls[t].exec) else Finished],
                  launches[calls[t].exec := Launches(s.starts, calls[t].exec) + 1])
    case Detach(t, _) =>
      if t in calls && calls[t].Launched? then Starts(calls[t := Finished], launches) else s.starts
    case _ => s.starts
  }

  function Leave(own: map<string, set<string>>, c: string, e: string): map<string, set<string>> {
    if c in own then own[c := own[c] - {e}] else own
  }

  /** The second phase of a pass: collect what was marked, mark what was not seen live. */
  function Swept(s: Stores, live: set<string>): Stores {
    Stores(s.own, s.registered, s.daemon - s.marked, s.marked + (s.daemon - live), None)
  }

  function NextStores(s: Sys, st: Step): Stores {
    var t := s.stores;
    if FailedBy(s, st).Some? then
      var e := FailedBy(s, st).value;
      if e in s.configs then t.(own := Leave(t.own, s.configs[e].container, e)) else t
    else match st
      case NewContainer(c) =>
        if c in t.own then t else t.(own := t.own[c := {}], registered := t.registered + {c})
      case Register(e, c) =>
        if e in s.configs || c !in t.own then t
        else t.(own := t.own[c := t.own[c] + {e}], daemon := t.daemon + {e})
      case CleanupExecs(c) =>
        if c !in t.own then t else t.(daemon := t.daemon - t.own[c], own := t.own[c := {}])
      case Deregister(c) => t.(registered := t.registered - {c})
      case Scan => t.(scan := Some(LiveIn(t)))
      case Sweep => if t.scan.Some? then Swept(t, t.scan.value) else t
      case _ => t
  }

  function Next(s: Sys, st: Step): Sys {
    Sys(NextConfigs(s, st), NextStarts(s, st), NextStores(s, st))
  }

  function RunOf(s: Sys, steps: seq<Step>): Sys
    decreases |steps|
  {
    if steps == [] then s else RunOf(Next(s, steps[0]), steps[1..])
  }

  // ---------------------------------------------------------------------------------------
  // What the steps do

  lemma LiveIff(s: Stores, e: string)
    ensures e in LiveIn(s) <==> exists c :: c in s.registered && c in s.own && e in s.own[c]
  {
  }

  /** A new exec goes into its container's store and the daemon's, neither running nor exited. */
  lemma RegisterMeans(s: Sys, e: string, c: string)
    requires e !in s.configs && c in s.stores.own
    ensures var n := Next(s, Register(e, c));
            && n.configs == s.configs[e := Config(c, false, false)] && n.starts == s.starts
            && n.stores == s.stores.(own := s.stores.own[c := s.stores.own[c] + {e}], daemon := s.stores.daemon + {e})
  {
  }

  /** A call finds an exec exactly if the daemon's store has it, and that alone changes nothing else. */
  lemma FindMeans(s: Sys, t: nat, e: string)
    requires t !in s.starts.calls && e in s.configs
    ensures Next(s, Find(t, e)) ==
            if e in s.stores.daemon then s.(starts := Starts(s.starts.calls[t := Found(e)], s.starts.launches)) else s
  {
  }

  /** A call claims the exec it found exactly if that neither runs nor has exited; otherwise it is over. */
  lemma ClaimMeans(s: Sys, t: nat, e: string)
    requires t in s.starts.calls && s.starts.calls[t] == Found(e) && e in s.configs
    ensures var n := Next(s, Claim(t));
            n.stores == s.stores && n.starts.launches == s.starts.launches &&
            if s.configs[e].running || s.configs[e].exited
            then n.configs == s.configs && n.starts.calls == s.starts.calls[t := Finished]
            else n.configs == s.configs[e := s.configs[e].(running := true)]
                 && n.starts.calls == s.starts.calls[t := Claimed(e)]
  {
  }

  /** Handing a claimed exec to the runtime counts as a launch, whether or not the runtime accepts it. */
  lemma LaunchMeans(s: Sys, t: nat, e: string)
    requires t in s.starts.calls && s.starts.calls[t] == Claimed(e)
    ensures var n := Next(s, Launch(t, true));
            n.configs == s.configs && n.stores == s.stores && n.starts.calls == s.starts.calls[t := Launched(e)]
            && Launches(n.starts, e) == Launches(s.starts, e) + 1
    ensures Launches(Next(s, Launch(t, false)).starts, e) == Launches(s.starts, e) + 1
    ensures Next(s, FailBeforeLaunch(t)).starts == Starts(s.starts.calls[t := Finished], s.starts.launches)
  {
  }

  /** A start that fails and an exit leave the exec exited and out of its container's store; the rest stays. */
  lemma EndMeans(s: Sys, t: nat, e: string, st: Step)
    requires e in s.configs && s.configs[e].container in s.stores.own
    requires || (st == FailBeforeLaunch(t) && IsAt(s, t, Claimed(e)))
             || (st == Launch(t, false) && IsAt(s, t, Claimed(e)))
             || (st == Detach(t, false) && IsAt(s, t, Launched(e)))
             || (st == ExitEvent(e) && e in Live(s))
    ensures var n, c := Next(s, st), s.configs[e].container;
            && n.configs == s.configs[e := Config(c, false, true)]
            && n.stores == s.stores.(own := s.stores.own[c := s.stores.own[c] - {e}])
  {
  }

  /** The end of a container empties its store and takes its execs out of the daemon's. */
  lemma StoreStepsMean(s: Sys, c: string)
    ensures c in s.stores.own ==>
              Next(s, CleanupExecs(c)).stores ==
              s.stores.(daemon := s.stores.daemon - s.stores.own[c], own := s.stores.own[c := {}])
    ensures Next(s, Deregister(c)).stores == s.stores.(registered := s.stores.registered - {c})
    ensures Next(s, Scan).stores.scan == Some(LiveIn(s.stores))
    ensures s.stores.scan.Some? ==>
              Next(s, Sweep).stores.daemon == s.stores.daemon - s.stores.marked
              && Next(s, Sweep).stores.marked == s.stores.marked + (s.stores.daemon - s.stores.scan.value)
  {
  }

  // ---------------------------------------------------------------------------------------
  // At most one launch

  predicate Owns(s: Sys, t: nat, e: string) { IsAt(s, t, Claimed(e)) || IsAt(s, t, Launched(e)) }

  /** Once claimed an exec is running or has an exit code, and never neither again. */
  predicate Spent(s: Sys, e: string) {
    e in s.configs && (s.configs[e].running || s.configs[e].exited)
  }

  ghost predicate LaunchInv(s: Sys) {
    && (forall t, u, e | Owns(s, t, e) && Owns(s, u, e) :: t == u)
    && (forall t, e | Owns(s, t, e) :: Spent(s, e))
    && (forall e | Launches(s.starts, e) > 0 :: Spent(s, e))
    && (forall t, e | IsAt(s, t, Claimed(e)) :: Launches(s.starts, e) == 0)
    && (forall e :: Launches(s.starts, e) <= 1)
  }

  lemma SpentForGood(s: Sys, st: Step, e: string)
    requires Spent(s, e)
    ensures Spent(Next(s, st), e)
  {
  }

  /** A call comes to own an exec only by claiming one that is not spent, which spends it. */
  lemma OwnershipStep(s: Sys, st: Step, t: nat, e: string)
    requires Owns(Next(s, st), t, e)
    ensures Owns(s, t, e) || (st == Claim(t) && !Spent(s, e) && Spent(Next(s, st), e))
    ensures IsAt(Next(s, st), t, Claimed(e)) ==> IsAt(s, t, Claimed(e)) || (st == Claim(t) && !Spent(s, e))
  {
  }

  /** A launch needs a claim and ends it. */
  lemma LaunchStep(s: Sys, st: Step, e: string)
    ensures Launches(Next(s, st).starts, e) == Launches(s.starts, e) ||
            (st.Launch? && IsAt(s, st.t, Claimed(e)) && !IsAt(Next(s, st), st.t, Claimed(e))
             && Launches(Next(s, st).starts, e) == Launches(s.starts, e) + 1)
  {
  }

  lemma StepKeepsLaunchInv(s: Sys, st: Step)
    requires LaunchInv(s)
    ensures LaunchInv(Next(s, st))
  {
    var n := Next(s, st);
    forall t, u, e | Owns(n, t, e) && Owns(n, u, e) ensures t == u {
      OwnershipStep(s, st, t, e);
      OwnershipStep(s, st, u, e);
    }
    forall t, e | Owns(n, t, e) ensures Spent(n, e) {
      OwnershipStep(s, st, t, e);
      if Spent(s, e) { SpentForGood(s, st, e); }
    }
    forall e ensures Launches(n.starts, e) <= 1 && (Launches(n.starts, e) > 0 ==> Spent(n, e)) {
      LaunchStep(s, st, e);
      if st.Launch? && IsAt(s, st.t, Claimed(e)) { assert Owns(s, st.t, e); }
      if Spent(s, e) { SpentForGood(s, st, e); }
    }
    forall t, e | IsAt(n, t, Claimed(e)) ensures Launches(n.starts, e) == 0 {
      assert Owns(n, t, e);
      OwnershipStep(s, st, t, e);
      LaunchStep(s, st, e);
      if st.Launch? && IsAt(s, st.t, Claimed(e)) {
        assert Owns(s, st.t, e) && Owns(s, t, e);
      }
    }
  }

  /** Over any interleaving each exec reaches containerd.Exec at most once. */
  lemma {:induction false} RunKeepsLaunchInv(s: Sys, steps: seq<Step>)
    requires LaunchInv(s)
    ensures LaunchInv(RunOf(s, steps))
    decreases |steps|
  {
    if steps != [] {
      StepKeepsLaunchInv(s, steps[0]);
      RunKeepsLaunchInv(Next(s, steps[0]), steps[1..]);
    }
  }

  lemma RunsAtMostOnce(steps: seq<Step>, e: string)
    ensures Launches(RunOf(Start, steps).starts, e) <= 1
  {
    RunKeepsLaunchInv(Start, steps);
  }

  // ---------------------------------------------------------------------------------------
  // The collector

  /** Every live exec is in the daemon's store and unmarked. */
  ghost predicate LiveKept(s: Stores) {
    forall e | e in LiveIn(s) :: e in s.daemon && e !in s.marked
  }

  /** Execs sit only in their own container's store; only existing ones are marked. */
  ghost predicate StoresOwn(s: Sys) {
    && s.stores.registered <= s.stores.own.Keys
    && (forall c, e | c in s.stores.own && e in s.stores.own[c] :: e in s.configs && s.configs[e].container == c)
    && s.stores.daemon <= s.configs.Keys && s.stores.marked <= s.configs.Keys
  }

  /** A pass between its phases has seen everything that is live now. */
  ghost predicate ScanCovers(s: Stores) { s.scan.Some? ==> LiveIn(s) <= s.scan.value }

  ghost predicate CollectorInv(s: Sys) { StoresOwn(s) && LiveKept(s.stores) && ScanCovers(s.stores) }

  /** No exec is registered between the two phases of a pass. */
  predicate Quiet(s: Sys, st: Step) { st.Register? ==> s.stores.scan.None? }

  ghost predicate QuietRun(s: Sys, steps: seq<Step>)
    decreases |steps|
  {
    steps == [] || (Quiet(s, steps[0]) && QuietRun(Next(s, steps[0]), steps[1..]))
  }

  lemma StepKeepsStoresOwn(s: Sys, st: Step)
    requires StoresOwn(s)
    ensures StoresOwn(Next(s, st))
  {
    forall e | e in s.configs
      ensures e in NextConfigs(s, st) && NextConfigs(s, st)[e].container == s.configs[e].container
    {
    }
  }

  /** Only a registration makes an exec live. */
  lemma LiveOnlyShrinks(s: Sys, st: Step)
    requires StoresOwn(s)
    ensures forall e | e in Live(Next(s, st)) :: e in Live(s) || (st.Register? && st.e == e && e !in s.configs)
  {
  }

  lemma StepKeepsCollectorInv(s: Sys, st: Step)
    requires CollectorInv(s) && Quiet(s, st)
    ensures CollectorInv(Next(s, st))
  {
    var n := Next(s, st);
    StepKeepsStoresOwn(s, st);
    LiveOnlyShrinks(s, st);
    forall e | e in Live(n) ensures e in n.stores.daemon && e !in n.stores.marked {
      if e in Live(s) && st.CleanupExecs? && st.c in s.stores.own && e in s.stores.own[st.c] {
        assert s.configs[e].container == st.c;
      }
    }
  }

  /**
   Over every run in which no exec is registered inside a collector pass, a live exec is never
   marked and never collected.
   */
  lemma {:induction false} RunKeepsLive(s: Sys, steps: seq<Step>)
    requires CollectorInv(s) && QuietRun(s, steps)
    ensures CollectorInv(RunOf(s, steps))
    decreases |steps|
  {
    if steps != [] {
      StepKeepsCollectorInv(s, steps[0]);
      RunKeepsLive(Next(s, steps[0]), steps[1..]);
    }
  }

  lemma LiveNeverCollected(steps: seq<Step>, e: string)
    requires QuietRun(Start, steps) && e in Live(RunOf(Start, steps))
    ensures e in RunOf(Start, steps).stores.daemon && e !in RunOf(Start, steps).stores.marked
  {
    RunKeepsLive(Start, steps);
  }

  /** A sweep spares every live exec exactly when its scan had seen all of them. */
  lemma SweepIsSafeIff(s: Stores)
    requires LiveKept(s) && s.scan.Some?
    ensures LiveKept(Swept(s, s.scan.value)) <==> LiveIn(s) <= s.scan.value
  {
    var n := Swept(s, s.scan.value);
    assert LiveIn(n) == LiveIn(s);
    if e :| e in LiveIn(s) && e !in s.scan.value {
      assert e in LiveIn(n) && e in n.marked;
    }
  }

  /** A sweep finds that its scan has seen everything that is live by now. */
  ghost predicate Covering(s: Sys, st: Step) {
    st.Sweep? && s.stores.scan.Some? ==> Live(s) <= s.stores.scan.value
  }

  lemma StepKeepsLiveIff(s: Sys, st: Step)
    requires StoresOwn(s) && LiveKept(s.stores)
    ensures LiveKept(Next(s, st).stores) <==> Covering(s, st)
  {
    if st.Sweep? {
      if s.stores.scan.Some? {
        SweepIsSafeIff(s.stores);
      }
    } else {
      LiveOnlyShrinks(s, st);
      forall e | e in Live(Next(s, st))
        ensures e in Next(s, st).stores.daemon && e !in Next(s, st).stores.marked
      {
        assert e in Live(s) ==> e in s.stores.daemon && e !in s.stores.marked;
        assert e in Live(s) && st.CleanupExecs? && st.c in s.stores.own ==> e !in s.stores.own[st.c];
      }
    }
  }

  ghost predicate CoveringRun(s: Sys, steps: seq<Step>)
    decreases |steps|
  {
    steps == [] || (Covering(s, steps[0]) && CoveringRun(Next(s, steps[0]), steps[1..]))
  }

  ghost predicate LiveKeptThroughout(s: Sys, steps: seq<Step>)
    decreases |steps|
  {
    LiveKept(s.stores) && (steps == [] || LiveKeptThroughout(Next(s, steps[0]), steps[1..]))
  }

  /**
   A run keeps every live exec stored and unmarked in all its states exactly when each sweep's scan
   had seen what is live at the sweep.
   */
  lemma {:induction false} LiveKeptThroughoutIff(s: Sys, steps: seq<Step>)
    requires StoresOwn(s) && LiveKept(s.stores)
    ensures LiveKeptThroughout(s, steps) <==> CoveringRun(s, steps)
    decreases |steps|
  {
    if steps != [] {
      StepKeepsLiveIff(s, steps[0]);
      StepKeepsStoresOwn(s, steps[0]);
      if Covering(s, steps[0]) {
        LiveKeptThroughoutIff(Next(s, steps[0]), steps[1..]);
      }
    }
  }

  /** An exec registered inside a pass is marked by it, and collected by the next while still live. */
  lemma RegistrationInsidePassIsCollected(s: Sys, e: string, c: string)
    requires CollectorInv(s) && e !in s.configs && c in s.stores.own && c in s.stores.registered
    ensures var t := Next(Next(Next(Next(Next(s, Scan), Register(e, c)), Sweep), Scan), Sweep);
            e in Live(t) && e !in t.stores.daemon
  {
    assert e !in Live(s);
    var s2 := Next(Next(s, Scan), Register(e, c));
    assert e in s2.stores.own[c] && e in s2.stores.daemon && e !in s2.stores.scan.value;
    var s3 := Next(s2, Sweep);
    assert e in s3.stores.marked && s3.stores.own == s2.stores.own;
    assert e in Live(Next(Next(s3, Scan), Sweep));
  }

  // ---------------------------------------------------------------------------------------
  // Nothing that left stays

  /** An exec that exists and is not live will not become live again. */
  predicate Left(s: Sys, e: string) { e in s.configs && e !in Live(s) }

  lemma LeftStep(s: Sys, st: Step, e: string)
    requires StoresOwn(s) && Left(s, e)
    ensures StoresOwn(Next(s, st)) && Left(Next(s, st), e)
    ensures e !in s.stores.daemon ==> e !in Next(s, st).stores.daemon
    ensures e in s.stores.marked ==> e in Next(s, st).stores.marked
  {
    StepKeepsStoresOwn(s, st);
    LiveOnlyShrinks(s, st);
  }

  lemma {:induction false} LeftForGood(s: Sys, steps: seq<Step>, e: string)
    requires StoresOwn(s) && Left(s, e)
    ensures StoresOwn(RunOf(s, steps)) && Left(RunOf(s, steps), e)
    ensures e !in s.stores.daemon ==> e !in RunOf(s, steps).stores.daemon
    ensures e in s.stores.marked ==> e in RunOf(s, steps).stores.marked
    decreases |steps|
  {
    if steps != [] {
      LeftStep(s, steps[0], e);
      LeftForGood(Next(s, steps[0]), steps[1..], e);
    }
  }

  /** Every reachable state has its stores in order, whatever is registered inside a pass. */
  lemma {:induction false} ReachableStoresOwn(s: Sys, steps: seq<Step>)
    requires StoresOwn(s)
    ensures StoresOwn(RunOf(s, steps))
    decreases |steps|
  {
    if steps != [] {
      StepKeepsStoresOwn(s, steps[0]);
      ReachableStoresOwn(Next(s, steps[0]), steps[1..]);
    }
  }

  /** A collector pass: its scan, anything at all meanwhile, its sweep. */
  function Pass(s: Sys, inside: seq<Step>): Sys { Next(RunOf(Next(s, Scan), inside), Sweep) }

  /** Inside a pass: no scan has seen the exec, and if a sweep has been, the exec was dealt with. */
  ghost predicate Passing(s: Sys, e: string, collect: bool) {
    && StoresOwn(s) && Left(s, e)
    && (s.stores.scan.Some? ==> e !in s.stores.scan.value)
    && (s.stores.scan.None? ==> Dealt(s, e, collect))
    && (collect ==> e in s.stores.marked || e !in s.stores.daemon)
  }

  /** Gone from the daemon's store, or at least marked. */
  predicate Dealt(s: Sys, e: string, collect: bool) {
    e !in s.stores.daemon || (!collect && e in s.stores.marked)
  }

  lemma PassingStep(s: Sys, st: Step, e: string, collect: bool)
    requires Passing(s, e, collect)
    ensures Passing(Next(s, st), e, collect)
    ensures st == Sweep ==> Dealt(Next(s, st), e, collect)
  {
    LeftStep(s, st, e);
  }

  lemma {:induction false} PassingRun(s: Sys, steps: seq<Step>, e: string, collect: bool)
    requires Passing(s, e, collect)
    ensures Passing(RunOf(s, steps), e, collect)
    decreases |steps|
  {
    if steps != [] {
      PassingStep(s, steps[0], e, collect);
      PassingRun(Next(s, steps[0]), steps[1..], e, collect);
    }
  }

  /** A pass marks an exec that has left, and collects it if it was marked already. */
  lemma PassDeals(s: Sys, inside: seq<Step>, e: string, collect: bool)
    requires StoresOwn(s) && Left(s, e)
    requires collect ==> e in s.stores.marked || e !in s.stores.daemon
    ensures StoresOwn(Pass(s, inside)) && Left(Pass(s, inside), e) && Dealt(Pass(s, inside), e, collect)
  {
    LeftStep(s, Scan, e);
    PassingRun(Next(s, Scan), inside, e, collect);
    PassingStep(RunOf(Next(s, Scan), inside), Sweep, e, collect);
  }

  /**
   In any reachable state, an exec that has left its registered container is out of the daemon's
   store after two passes, for good, whatever happens inside, between and after the passes.
   */
  lemma GoneBySecondTick(history: seq<Step>, first: seq<Step>, between: seq<Step>, second: seq<Step>,
                         after: seq<Step>, e: string)
    requires Left(RunOf(Start, history), e)
    ensures e !in RunOf(Pass(RunOf(Pass(RunOf(Start, history), first), between), second), after).stores.daemon
  {
    ReachableStoresOwn(Start, history);
    var s0 := RunOf(Start, history);
    PassDeals(s0, first, e, false);
    var s1 := Pass(s0, first);
    LeftForGood(s1, between, e);
    var s2 := RunOf(s1, between);
    PassDeals(s2, second, e, true);
    LeftForGood(Pass(s2, second), after, e);
  }

  // ---------------------------------------------------------------------------------------
  // Objects

  class ExecDaemon {
    var configs: map<string, Config>
    var own: map<string, set<string>>
    var registered: set<string>
    var daemon: set<string>
    var marked: set<string>

    ghost function Value(): Stores
      reads this
    {
      Stores(own, registered, daemon, marked, None)
    }

    constructor ()
      ensures configs == map[] && Value() == Start.stores
    {
      configs, own, registered, daemon, marked := map[], map[], {}, {}, {};
    }

    method RegisterExecCommand(e: string, c: string)
      requires e !in configs && c in own
      modifies this
      ensures configs == NextConfigs(Sys(old(configs), Start.starts, old(Value())), Register(e, c))
      ensures Value() == NextStores(Sys(old(configs), Start.starts, old(Value())), Register(e, c))
      ensures configs == old(configs)[e := Config(c, false, false)]
      ensures own == old(own)[c := old(own)[c] + {e}] && daemon == old(daemon) + {e}
      ensures registered == old(registered) && marked == old(marked)
    {
      configs := configs[e := Config(c, false, false)];
      own := own[c := own[c] + {e}];
      daemon := daemon + {e};
    }

    /** The locked section at the head of ContainerExecStart. */
    method ClaimStart(e: string) returns (claimed: bool)
      requires e in configs
      modifies this`configs
      ensures claimed <==> !(old(configs)[e].running || old(configs)[e].exited)
      ensures configs == if claimed then old(configs)[e := old(configs)[e].(running := true)] else old(configs)
    {
      if configs[e].exited {
        return false;
      }
      if configs[e].running {
        return false;
      }
      configs := configs[e := configs[e].(running := true)];
      claimed := true;
    }

    /** containerExecIds: the exec IDs in the stores of the registered containers. */
    method ContainerExecIds() returns (ids: set<string>)
      requires registered <= own.Keys
      ensures ids == LiveIn(Value())
      ensures forall e :: e in ids <==> exists c :: c in registered && c in own && e in own[c]
    {
      ids := {};
      var left := registered;
      while left != {}
        invariant left <= registered
        invariant ids == set c, e | c in registered - left && c in own && e in own[c] :: e
        decreases left
      {
        var c :| c in left;
        ids := ids + own[c];
        left := left - {c};
      }
    }

    /** The second phase of a tick, for whatever its first phase found live. */
    method SweepCommands(live: set<string>)
      modifies this`daemon, this`marked
      ensures Value() == Swept(old(Value()), live)
      ensures daemon == old(daemon) - old(marked) && marked == old(marked) + (old(daemon) - live)
    {
      var commands := daemon;
      while commands != {}
        invariant commands <= old(daemon)
        invariant daemon == old(daemon) - (old(marked) - commands)
        invariant marked == old(marked) + (old(daemon) - commands - live)
        decreases commands
      {
        var id :| id in commands;
        if id in marked {
          daemon := daemon - {id};
        } else {
          if id !in live {
            marked := marked + {id};
          }
        }
        commands := commands - {id};
      }
    }

    /** A pass of the collector with nothing in between. */
    method CollectorTick()
      requires registered <= own.Keys
      modifies this`daemon, this`marked
      ensures Value() == Swept(old(Value()), LiveIn(old(Value())))
    {
      var live := ContainerExecIds();
      SweepCommands(live);
    }
  }
}
