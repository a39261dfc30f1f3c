/**
 Concurrent ContainerRm calls on one container (daemon/delete.go), guarded by the
 RemovalInProgress flag (container/state.go) and the ID store (container/memory_store.go).

 Each call is a thread that takes the steps of the code one at a time; any interleaving of any
 number of calls is a run. A step that is not enabled for its caller changes nothing.
 */
module Removal {
  datatype Answer = NotFound | Conflict | AlreadyGone | LinkRemoved | Failed | Removed

  /** Where a call is: before the flag, holding it, or finished. */
  datatype Pc =
    | LookedUp                 // GetContainer returned the container
    | Marked                   // set RemovalInProgress, not yet checked the store
    | Linking                  // inside rmLink
    | Cleaning                 // inside cleanupContainer, before deregistration
    | Deregistered             // inside cleanupContainer, removed from the stores
    | Unwinding(answer: Answer) // about to reset RemovalInProgress
    | Returned(answer: Answer)

  datatype Action =
    | Lookup | Mark | Check(removeLink: bool)
    | CleanupFails | Deregister | FinishCleanup | FinishLink | Reset

  datatype Step = Step(caller: nat, action: Action)

  datatype Sys = Sys(inStore: bool, flag: bool, calls: map<nat, Pc>, deregistrations: nat)

  const Start := Sys(true, false, map[], 0)

  predicate At(s: Sys, t: nat, pc: Pc) { t in s.calls && s.calls[t] == pc }

  function Move(s: Sys, t: nat, pc: Pc): Sys { s.(calls := s.calls[t := pc]) }

  function Next(s: Sys, st: Step): Sys {
    var t := st.caller;
    match st.action
    case Lookup =>
      if t in s.calls then s else Move(s, t, if s.inStore then LookedUp else Returned(NotFound))
    case Mark =>
      if !At(s, t, LookedUp) then s
      else if s.flag then Move(s, t, Returned(Conflict))
      else Move(s, t, Marked).(flag := true)
    case Check(removeLink) =>
      if !At(s, t, Marked) then s
      else if !s.inStore then Move(s, t, Unwinding(AlreadyGone))
      else Move(s, t, if removeLink then Linking else Cleaning)
    case CleanupFails => if At(s, t, Cleaning) then Move(s, t, Unwinding(Failed)) else s
    case Deregister =>
      if !At(s, t, Cleaning) then s
      else Move(s, t, Deregistered).(inStore := false, deregistrations := s.deregistrations + 1)
    case FinishCleanup => if At(s, t, Deregistered) then Move(s, t, Unwinding(Removed)) else s
    case FinishLink => if At(s, t, Linking) then Move(s, t, Unwinding(LinkRemoved)) else s
    case Reset =>
      if t in s.calls && s.calls[t].Unwinding?
      then Move(s, t, Returned(s.calls[t].answer)).(flag := false) else s
  }

  function RunOf(s: Sys, steps: seq<Step>): Sys
    decreases |steps|
  {
    if steps == [] then s else RunOf(Next(s, steps[0]), steps[1..])
  }

  /** How a call gets in: it finds the container or not, and finds the flag up or raises it. */
  lemma EntryMeans(s: Sys, t: nat)
    ensures t !in s.calls ==>
              Next(s, Step(t, Lookup)) == s.(calls := s.calls[t := if s.inStore then LookedUp else Returned(NotFound)])
    ensures t in s.calls && s.calls[t] == LookedUp ==>
              Next(s, Step(t, Mark)) ==
              if s.flag then s.(calls := s.calls[t := Returned(Conflict)])
              else s.(calls := s.calls[t := Marked], flag := true)
  {
  }

  /** With the flag up: a container that has left the store is gone; otherwise its link or all of it is removed. */
  lemma WorkMeans(s: Sys, t: nat, removeLink: bool)
    ensures t in s.calls && s.calls[t] == Marked ==>
              Next(s, Step(t, Check(removeLink))) ==
              s.(calls := s.calls[t := if !s.inStore then Unwinding(AlreadyGone)
                                       else if removeLink then Linking else Cleaning])
    ensures t in s.calls && s.calls[t] == Linking ==>
              Next(s, Step(t, FinishLink)) == s.(calls := s.calls[t := Unwinding(LinkRemoved)])
    ensures t in s.calls && s.calls[t] == Cleaning ==>
              && Next(s, Step(t, CleanupFails)) == s.(calls := s.calls[t := Unwinding(Failed)])
              && Next(s, Step(t, Deregister)) ==
                 Sys(false, s.flag, s.calls[t := Deregistered], s.deregistrations + 1)
    ensures t in s.calls && s.calls[t] == Deregistered ==>
              Next(s, Step(t, FinishCleanup)) == s.(calls := s.calls[t := Unwinding(Removed)])
    ensures t in s.calls && s.calls[t].Unwinding? ==>
              Next(s, Step(t, Reset)) == s.(calls := s.calls[t := Returned(s.calls[t].answer)], flag := false)
  {
  }

  predicate Holds(s: Sys, t: nat) {
    t in s.calls && !s.calls[t].LookedUp? && !s.calls[t].Returned?
  }

  predicate InCleanup(s: Sys, t: nat) { t in s.calls && (s.calls[t].Cleaning? || s.calls[t].Deregistered?) }

  /** The call has removed the container, or reported that it did. */
  predicate DidRemove(s: Sys, t: nat) {
    t in s.calls && (s.calls[t].Deregistered? || s.calls[t] == Unwinding(Removed) || s.calls[t] == Returned(Removed))
  }

  /** The flag is up exactly while a call holds it, and only one call does. */
  ghost predicate Exclusive(s: Sys) {
    && (s.flag <==> exists t :: Holds(s, t))
    && (forall t, u | Holds(s, t) && Holds(s, u) :: t == u)
  }

  /** Calls at work find the container in the store; it leaves the store once, by one call. */
  ghost predicate RemovedOnce(s: Sys) {
    && (forall t | At(s, t, Cleaning) :: s.inStore)
    && s.deregistrations == (if s.inStore then 0 else 1)
    && (forall t | DidRemove(s, t) :: !s.inStore)
    && (forall t, u | DidRemove(s, t) && DidRemove(s, u) :: t == u)
  }

  ghost predicate Inv(s: Sys) { Exclusive(s) && RemovedOnce(s) }

  lemma OthersStay(s: Sys, st: Step, u: nat)
    requires u != st.caller
    ensures u in Next(s, st).calls <==> u in s.calls
    ensures u in s.calls ==> Next(s, st).calls[u] == s.calls[u]
  {
  }

  lemma StepKeepsExclusive(s: Sys, st: Step)
    requires Exclusive(s)
    ensures Exclusive(Next(s, st))
  {
    var n, t := Next(s, st), st.caller;
    forall u | u != t ensures Holds(n, u) <==> Holds(s, u) { OthersStay(s, st, u); }
    assert Holds(s, t) ==> s.flag;
    if s.flag {
      var h :| Holds(s, h);
      assert n.flag ==> Holds(n, h);
      assert !n.flag ==> Holds(s, t) && !Holds(n, t);
    } else if n.flag {
      assert Holds(n, t);
    }
  }

  lemma StepKeepsRemovedOnce(s: Sys, st: Step)
    requires Exclusive(s) && RemovedOnce(s)
    ensures RemovedOnce(Next(s, st))
  {
    var n, t := Next(s, st), st.caller;
    forall u | u != t
      ensures DidRemove(n, u) <==> DidRemove(s, u)
      ensures At(n, u, Cleaning) ==> Holds(s, u) && s.inStore
    {
      OthersStay(s, st, u);
      assert At(n, u, Cleaning) ==> At(s, u, Cleaning);
    }
    assert At(s, t, Cleaning) ==> Holds(s, t) && s.inStore;
    assert DidRemove(s, t) ==> !s.inStore;
  }

  lemma StepKeepsInv(s: Sys, st: Step)
    requires Inv(s)
    ensures Inv(Next(s, st))
  {
    StepKeepsExclusive(s, st);
    StepKeepsRemovedOnce(s, st);
  }

  lemma {:induction false} RunKeepsInv(s: Sys, steps: seq<Step>)
    requires Inv(s)
    ensures Inv(RunOf(s, steps))
    decreases |steps|
  {
    if steps != [] {
      StepKeepsInv(s, steps[0]);
      RunKeepsInv(Next(s, steps[0]), steps[1..]);
    }
  }

  /** Over every interleaving at most one call is inside cleanupContainer, and at most one succeeds. */
  lemma AtMostOneCleanup(steps: seq<Step>, t: nat, u: nat)
    ensures var s := RunOf(Start, steps);
            && (InCleanup(s, t) && InCleanup(s, u) ==> t == u)
            && (At(s, t, Returned(Removed)) && At(s, u, Returned(Removed)) ==> t == u)
            && s.deregistrations <= 1
            && (s.deregistrations == 1 <==> !s.inStore)
  {
    RunKeepsInv(Start, steps);
    var s := RunOf(Start, steps);
    assert InCleanup(s, t) ==> Holds(s, t);
    assert InCleanup(s, u) ==> Holds(s, u);
    assert At(s, t, Returned(Removed)) ==> DidRemove(s, t);
    assert At(s, u, Returned(Removed)) ==> DidRemove(s, u);
  }

  /** The store never gets the container back. */
  lemma {:induction false} RemovalIsFinal(s: Sys, steps: seq<Step>)
    requires Inv(s) && !s.inStore
    ensures !RunOf(s, steps).inStore && RunOf(s, steps).deregistrations == s.deregistrations
    ensures forall t :: !At(RunOf(s, steps), t, Cleaning)
    decreases |steps|
  {
    RunKeepsInv(s, steps);
    if steps != [] {
      StepKeepsInv(s, steps[0]);
      RemovalIsFinal(Next(s, steps[0]), steps[1..]);
    }
  }

  /**
   Once a call has removed the container, no call cleans it up again, not even one that had
   already looked it up: it can only be refused, find nothing, or find it gone.
   */
  lemma NoCleanupAfterSuccess(before: seq<Step>, after: seq<Step>, winner: nat, t: nat)
    requires DidRemove(RunOf(Start, before), winner) && t != winner
    ensures !InCleanup(RunOf(RunOf(Start, before), after), t)
    ensures !At(RunOf(RunOf(Start, before), after), t, Returned(Removed))
  {
    var s := RunOf(Start, before);
    RunKeepsInv(Start, before);
    RemovalIsFinal(s, after);
    RunKeepsInv(s, after);
    WinnerStays(s, after, winner);
    var e := RunOf(s, after);
    assert InCleanup(e, t) ==> At(e, t, Cleaning) || DidRemove(e, t);
    assert At(e, t, Returned(Removed)) ==> DidRemove(e, t);
  }

  lemma {:induction false} WinnerStays(s: Sys, steps: seq<Step>, winner: nat)
    requires DidRemove(s, winner)
    ensures DidRemove(RunOf(s, steps), winner)
    decreases |steps|
  {
    if steps != [] {
      WinnerStays(Next(s, steps[0]), steps[1..], winner);
    }
  }

  /** The flag is up exactly while some call holds it, so a failed removal can be tried again. */
  lemma FlagIsReleased(steps: seq<Step>, t: nat)
    requires forall u :: u in RunOf(Start, steps).calls ==> RunOf(Start, steps).calls[u].Returned?
    requires RunOf(Start, steps).inStore && t !in RunOf(Start, steps).calls
    ensures var s := RunOf(Start, steps);
            At(RunOf(s, [Step(t, Lookup), Step(t, Mark), Step(t, Check(false))]), t, Cleaning)
  {
    RunKeepsInv(Start, steps);
    var s := RunOf(Start, steps);
    assert !s.flag;
    var a, b, c := Step(t, Lookup), Step(t, Mark), Step(t, Check(false));
    assert [a, b, c][1..] == [b, c] && [b, c][1..] == [c] && [c][1..] == [];
    var s1 := Next(s, a);
    var s2 := Next(s1, b);
    assert RunOf(s, [a, b, c]) == RunOf(s1, [b, c]) == RunOf(s2, [c]) == RunOf(Next(s2, c), []);
  }

  // ---------------------------------------------------------------------------------------
  // With a creation that fails once the container is in the store

  /**
   A creation whose last step fails cleans the container up itself, without the flag and without
   looking at the store.
   */
  datatype Creator = Creating | CleaningUp | Through

  datatype Wide = Wide(calls: Sys, creator: Creator)

  datatype WideStep = Call(step: Step) | CreationFails | CreatorFails | CreatorDeregisters

  const WideStart := Wide(Start, Creating)

  function WideNext(w: Wide, st: WideStep): Wide {
    match st
    case Call(step) => w.(calls := Next(w.calls, step))
    case CreationFails => if w.creator.Creating? then w.(creator := CleaningUp) else w
    case CreatorFails => if w.creator.CleaningUp? then w.(creator := Through) else w
    case CreatorDeregisters =>
      if !w.creator.CleaningUp? then w
      else if w.calls.inStore
        then Wide(w.calls.(inStore := false, deregistrations := w.calls.deregistrations + 1), Through)
      else w.(creator := Through)
  }

  function WideRun(w: Wide, steps: seq<WideStep>): Wide
    decreases |steps|
  {
    if steps == [] then w else WideRun(WideNext(w, steps[0]), steps[1..])
  }

  /** The creator and a call clean up at the same time. */
  ghost predicate Overlap(w: Wide) { w.creator.CleaningUp? && exists t :: InCleanup(w.calls, t) }

  /** The creation does not fail while a call cleans up, and no call begins while the creator does. */
  ghost predicate Apart(w: Wide, st: WideStep) {
    match st
    case CreationFails => w.creator.Creating? ==> forall t :: !InCleanup(w.calls, t)
    case Call(Step(t, Check(false))) => At(w.calls, t, Marked) && w.calls.inStore ==> !w.creator.CleaningUp?
    case _ => true
  }

  /** A call is inside a cleanup only because it was already, or because its check has let it in. */
  lemma EntersCleanup(s: Sys, st: Step)
    ensures InCleanup(Next(s, st), st.caller) ==>
              InCleanup(s, st.caller) || (st.action == Check(false) && At(s, st.caller, Marked) && s.inStore)
    ensures st.action == Check(false) && At(s, st.caller, Marked) && s.inStore ==> InCleanup(Next(s, st), st.caller)
  {
  }

  /** Without overlap, a step brings one about exactly when it is not apart. */
  lemma WideStepIff(w: Wide, st: WideStep)
    requires Inv(w.calls) && !Overlap(w)
    ensures Overlap(WideNext(w, st)) <==> !Apart(w, st)
    ensures Apart(w, st) ==> Inv(WideNext(w, st).calls)
  {
    var n := WideNext(w, st);
    match st
    case Call(Step(t, action)) =>
      StepKeepsInv(w.calls, Step(t, action));
      forall u | u != t ensures InCleanup(n.calls, u) <==> InCleanup(w.calls, u) {
        OthersStay(w.calls, Step(t, action), u);
      }
      EntersCleanup(w.calls, Step(t, action));
      assert !w.creator.CleaningUp? || !InCleanup(w.calls, t);
    case CreatorDeregisters =>
      forall t | w.creator.CleaningUp? ensures !At(n.calls, t, Cleaning) {
        assert !InCleanup(w.calls, t);
      }
      forall t ensures Holds(n.calls, t) <==> Holds(w.calls, t) {
      }
      forall t ensures DidRemove(n.calls, t) <==> DidRemove(w.calls, t) {
      }
    case _ =>
  }

  ghost predicate ApartRun(w: Wide, steps: seq<WideStep>)
    decreases |steps|
  {
    steps == [] || (Apart(w, steps[0]) && ApartRun(WideNext(w, steps[0]), steps[1..]))
  }

  ghost predicate NeverOverlaps(w: Wide, steps: seq<WideStep>)
    decreases |steps|
  {
    !Overlap(w) && (steps == [] || NeverOverlaps(WideNext(w, steps[0]), steps[1..]))
  }

  lemma {:induction false} NeverOverlapsIff(w: Wide, steps: seq<WideStep>)
    requires Inv(w.calls) && !Overlap(w)
    ensures NeverOverlaps(w, steps) <==> ApartRun(w, steps)
    ensures ApartRun(w, steps) ==> Inv(WideRun(w, steps).calls) && !Overlap(WideRun(w, steps))
    decreases |steps|
  {
    if steps != [] {
      WideStepIff(w, steps[0]);
      if Apart(w, steps[0]) {
        NeverOverlapsIff(WideNext(w, steps[0]), steps[1..]);
      }
    }
  }

  /**
   With the creator in the picture one cleanup at a time is no longer a matter of course: it holds
   in every state of a run exactly when the run keeps the two apart. Then the container leaves the
   store at most once, by whomever.
   */
  lemma OneCleanupIff(steps: seq<WideStep>)
    ensures NeverOverlaps(WideStart, steps) <==> ApartRun(WideStart, steps)
    ensures var w := WideRun(WideStart, steps);
            ApartRun(WideStart, steps) ==>
              && w.calls.deregistrations == (if w.calls.inStore then 0 else 1)
              && (forall t, u :: InCleanup(w.calls, t) && InCleanup(w.calls, u) ==> t == u)
              && (forall t :: InCleanup(w.calls, t) ==> !w.creator.CleaningUp?)
  {
    NeverOverlapsIff(WideStart, steps);
    var w := WideRun(WideStart, steps);
    forall t ensures InCleanup(w.calls, t) ==> Holds(w.calls, t) {
    }
  }

  /** A creation that fails while a call is cleaning up has the container deregistered twice. */
  lemma CreatorOverlaps(w: Wide, t: nat)
    requires w.creator.Creating? && w.calls.inStore && At(w.calls, t, Cleaning)
    ensures var o := WideNext(w, CreationFails);
            Overlap(o) && WideNext(WideNext(o, CreatorDeregisters), Call(Step(t, Deregister))).calls.deregistrations
                          == w.calls.deregistrations + 2
  {
    var o := WideNext(w, CreationFails);
    assert InCleanup(o.calls, t);
  }
}
