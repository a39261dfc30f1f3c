/**
 One removal from start to end (ContainerRm and cleanupContainer in daemon/delete.go): the
 removal flag, the stop, the dead mark, the deregistration in its order, the wakeup of those
 waiting for the removal, and the counter.

 What the runtime, the layer store and the file system answer is a parameter, and so is whether
 the exit of the container's process has been handled by the time a kill or a stop returns.
 */
module Deletion {
  import opened Wrappers
  import opened ViewDb
  import opened Registries
  import opened ContainerState
  import opened StateCounters

  datatype Foreign = Foreign(
    killOk: bool, diedOfKill: bool, osOk: bool, stopOk: bool, diedOfStop: bool,
    layerOk: bool, filesOk: bool, exit: ExitStatus, now: nat)

  datatype Failure =
    | InProgress
    | LinkRefused(why: RmLinkError)
    | StillRunning
    | CannotKill
    | UnsupportedOS
    | CannotStop
    | RemovalFailed         // layer or files could not be removed

  datatype Success = AlreadyGone | LinkRemoved | Deleted

  /** Why a cleanup fails, if it does. A container that does not run needs no stop. */
  function Obstacle(running: bool, force: bool, f: Foreign): Option<Failure> {
    if running && !force then Some(StillRunning)
    else if running && !f.killOk then Some(CannotKill)
    else if !f.osOk then Some(UnsupportedOS)
    else if running && !f.diedOfKill && !f.stopOk then Some(CannotStop)
    else if !f.layerOk || !f.filesOk then Some(RemovalFailed)
    else None
  }

  /** Each failure, and success, exactly. */
  lemma ObstacleMeans(running: bool, force: bool, f: Foreign)
    ensures var e := Obstacle(running, force, f);
            && (e == Some(StillRunning) <==> running && !force)
            && (e == Some(CannotKill) <==> running && force && !f.killOk)
            && (e == Some(UnsupportedOS) <==> (running ==> force && f.killOk) && !f.osOk)
            && (e == Some(CannotStop) <==> running && force && f.killOk && f.osOk && !f.diedOfKill && !f.stopOk)
            && (e == Some(RemovalFailed) <==>
                  (running ==> force && f.killOk && (f.diedOfKill || f.stopOk)) && f.osOk && !(f.layerOk && f.filesOk))
            && (e == None <==>
                  (running ==> force && f.killOk && (f.diedOfKill || f.stopOk)) && f.osOk && f.layerOk && f.filesOk)
  {
  }

  /** Whether the container exits while it is being cleaned up. */
  predicate Exits(running: bool, force: bool, f: Foreign) {
    running && force && f.killOk && (f.diedOfKill || (f.osOk && f.stopOk && f.diedOfStop))
  }

  /** The exit event of a killed container, under its lock. */
  method HandleExit(c: State, counter: StateCounter, id: string, f: Foreign)
    requires ChannelsOpen(c.Value().chans)
    modifies c, counter
    ensures ChannelsOpen(c.Value().chans) && c.removalInProgress == old(c.removalInProgress)
    ensures !c.running && c.waitRemove == old(c.waitRemove) && c.dead == old(c.dead)
    ensures c.waitRemove in c.closed <==> old(c.waitRemove in c.closed)
    ensures Label(c.Value().flags) == "stopped" && counter.states == old(counter.states)[id := "stopped"]
  {
    c.SetStopped(f.exit, f.now);
    SetStateCounter(c, id, counter);
  }

  /** The first part of cleanupContainer: kill and stop. */
  method StopFirst(c: State, counter: StateCounter, id: string, force: bool, f: Foreign) returns (e: Option<Failure>)
    requires ChannelsOpen(c.Value().chans)
    modifies c, counter
    ensures ChannelsOpen(c.Value().chans) && c.removalInProgress == old(c.removalInProgress)
    ensures e == Obstacle(old(c.running), force, f.(layerOk := true, filesOk := true))
    ensures if Exits(old(c.running), force, f)
            then !c.running && counter.states == old(counter.states)[id := "stopped"]
                 && Label(c.Value().flags) == "stopped"
            else c.Value() == old(c.Value()) && counter.states == old(counter.states)
    ensures c.waitRemove == old(c.waitRemove) && c.dead == old(c.dead)
  {
    e := None;
    if c.running {
      if !force {
        return Some(StillRunning);
      }
      if !f.killOk {
        return Some(CannotKill);
      }
      if f.diedOfKill {
        HandleExit(c, counter, id, f);
      }
    }
    if !f.osOk {
      return Some(UnsupportedOS);
    }
    if c.running {
      if !f.stopOk {
        return Some(CannotStop);
      }
      if f.diedOfStop {
        HandleExit(c, counter, id, f);
      }
    }
  }

  /** The dead mark, which does not change the class of the state, and the removal of layer and files. */
  method Erase(c: State, f: Foreign) returns (e: Option<Failure>)
    requires ChannelsOpen(c.Value().chans)
    modifies c
    ensures ChannelsOpen(c.Value().chans) && c.removalInProgress == old(c.removalInProgress)
    ensures e == if f.layerOk && f.filesOk then None else Some(RemovalFailed)
    ensures c.dead && c.running == old(c.running) && Label(c.Value().flags) == Label(old(c.Value().flags))
    ensures if e.Some? then c.error != "" && old(c.waitRemove) in c.closed else c.waitRemove == old(c.waitRemove)
  {
    UnrefreshedChangeKeepsLabel(c.Value().flags, MarkDead(""));
    c.dead := true;
    e := None;
    if !f.layerOk {
      c.SetRemovalError("cannot release layer");
      e := Some(RemovalFailed);
    } else if !f.filesOk {
      c.SetRemovalError("unable to remove filesystem");
      e := Some(RemovalFailed);
    }
  }

  /**
   The first half of cleanupContainer: stop, mark dead, remove layer and files. Whether or not it
   fails, the stored label is the class of the new state if it was that of the old one.
   */
  method Dismantle(c: State, counter: StateCounter, id: string, force: bool, f: Foreign) returns (e: Option<Failure>)
    requires ChannelsOpen(c.Value().chans)
    modifies c, counter
    ensures ChannelsOpen(c.Value().chans) && c.removalInProgress == old(c.removalInProgress)
    ensures e == Obstacle(old(c.running), force, f)
    ensures c.running <==> old(c.running) && !(force && f.killOk
                                               && (f.diedOfKill || (f.osOk && f.stopOk && f.diedOfStop)))
    ensures counter.states == if Exits(old(c.running), force, f) then old(counter.states)[id := "stopped"]
                              else old(counter.states)
    ensures id in old(counter.states) && old(counter.states)[id] == Label(old(c.Value().flags)) ==>
              counter.states[id] == Label(c.Value().flags)
    ensures old(c.running) && (!force || !f.killOk) ==>
              e == Some(if force then CannotKill else StillRunning) && c.Value() == old(c.Value())
    ensures e == None <==>
              (old(c.running) ==> force && f.killOk && (f.diedOfKill || f.stopOk)) && f.osOk && f.layerOk && f.filesOk
    ensures c.dead <==> old(c.dead) || e.None? || e == Some(RemovalFailed)
    ensures if e == Some(RemovalFailed) then c.error != "" && old(c.waitRemove) in c.closed
            else c.waitRemove == old(c.waitRemove)
  {
    e := StopFirst(c, counter, id, force, f);
    if e.None? {
      e := Erase(c, f);
    }
  }

  /** The second half of cleanupContainer. */
  method Deregister(d: Registry, c: State, counter: StateCounter, id: string)
    requires d.Valid() && NulFree(id) && ChannelsOpen(c.Value().chans)
    modifies c, counter, d, d.replica, d.linkIndex
    ensures d.Valid() && d.Value() == Registries.Next(old(d.Value()), Cleanup(id))
    ensures ChannelsOpen(c.Value().chans) && c.Value().flags == old(c.Value().flags)
    ensures old(c.waitRemove) in c.closed && counter.states == old(counter.states) - {id}
  {
    d.CleanupContainer(id);
    c.SetRemovalError("");
    counter.Del(id);
  }

  /**
   Refuses a running container without force and changes nothing. Otherwise succeeds exactly when
   kill, stop, platform, layer and files all allow it: then the container is out of the registry
   and the counter, and those waiting for its removal are awake. On failure the registry is
   untouched, the counter follows the container's state, and the waiters are awake only if the
   removal itself failed.
   */
  method CleanupContainer(d: Registry, c: State, counter: StateCounter, id: string, force: bool, f: Foreign)
    returns (e: Option<Failure>)
    requires d.Valid() && NulFree(id) && ChannelsOpen(c.Value().chans)
    modifies c, counter, d, d.replica, d.linkIndex
    ensures d.Valid() && ChannelsOpen(c.Value().chans)
    ensures c.removalInProgress == old(c.removalInProgress)
    ensures e == Obstacle(old(c.running), force, f)
    ensures old(c.running) && (!force || !f.killOk) ==>
              e == Some(if force then CannotKill else StillRunning)
              && c.Value() == old(c.Value()) && d.Value() == old(d.Value()) && counter.states == old(counter.states)
    ensures e == None <==>
              (old(c.running) ==> force && f.killOk && (f.diedOfKill || f.stopOk)) && f.osOk && f.layerOk && f.filesOk
    ensures e.None? ==> d.Value() == Registries.Next(old(d.Value()), Cleanup(id))
    ensures e.None? ==> counter.states == old(counter.states) - {id} && c.dead
    ensures e.Some? ==> d.Value() == old(d.Value())
    ensures e.Some? ==> counter.states == if old(c.running) && !c.running then old(counter.states)[id := "stopped"]
                                          else old(counter.states)
    ensures e.Some? && id in old(counter.states) && old(counter.states)[id] == Label(old(c.Value().flags)) ==>
              counter.states[id] == Label(c.Value().flags)
    ensures c.running <==> old(c.running) && !(force && f.killOk
                                               && (f.diedOfKill || (f.osOk && f.stopOk && f.diedOfStop)))
    ensures e.None? || e.value == RemovalFailed <==> old(c.waitRemove) in c.closed
  {
    e := Dismantle(c, counter, id, force, f);
    if e.None? {
      Deregister(d, c, counter, id);
    }
  }

  /** What a call that got hold of the flag does to the registry, by its answer. */
  ghost predicate Does(before: Reg, after: Reg, id: string, name: string, removeLink: bool,
                       r: Result<Success, Failure>)
  {
    && (r == Ok(AlreadyGone) <==> id !in before.store)
    && (r == Ok(LinkRemoved) <==> id in before.store && removeLink && RmLinkTarget(before, FullName(name)).Ok?)
    && (r == Ok(LinkRemoved) ==> after == Registries.Next(before, RemoveLink(id, FullName(name))))
    && (r == Ok(Deleted) ==> !removeLink && after == Registries.Next(before, Cleanup(id)))
    && (r.Err? || r == Ok(AlreadyGone) ==> after == before)
    && r != Err(InProgress)
  }

  /** The same with the link name written out: what the registry is after each answer. */
  lemma DoesMeans(before: Reg, after: Reg, id: string, name: string, removeLink: bool, r: Result<Success, Failure>)
    requires Does(before, after, id, name, removeLink, r)
    ensures id !in before.store ==> r == Ok(AlreadyGone) && after == before
    ensures id in before.store && removeLink ==>
              var full := if name != "" && name[0] == '/' then name else "/" + name;
              && after == Registries.Next(before, RemoveLink(id, full))
              && (r.Err? ==> after == before) && (r.Ok? ==> r == Ok(LinkRemoved))
              && (r.Ok? <==> RmLinkTarget(before, full).Ok?)
    ensures id in before.store && !removeLink ==>
              && (r == Ok(Deleted) || r.Err?)
              && after == if r.Ok? then Registries.Next(before, Cleanup(id)) else before
  {
    match r
    case Err(_) =>
    case Ok(AlreadyGone) =>
    case Ok(LinkRemoved) =>
    case Ok(Deleted) =>
  }

  /**
   Such a call keeps the registry's invariant unless it removes a link name that passed to another
   container since the lookup, or whose parent is not registered.
   */
  lemma RemovalKeepsInv(before: Reg, after: Reg, id: string, name: string, removeLink: bool,
                        r: Result<Success, Failure>)
    requires Inv(before) && Does(before, after, id, name, removeLink, r)
    requires removeLink ==> Allowed(before, RemoveLink(id, FullName(name)))
    ensures Inv(after)
    ensures r == Ok(Deleted) ==> id !in after.store && forall n | n in after.db.owner :: after.db.owner[n] != id
  {
    match r
    case Err(_) =>
    case Ok(AlreadyGone) =>
    case Ok(LinkRemoved) => RemoveLinkKeepsInvIff(before, id, FullName(name));
    case Ok(Deleted) =>
      CleanupKeepsInv(before, id);
      CleanupIsComplete(before, id);
  }

  method RemoveNamedLink(d: Registry, id: string, name: string) returns (r: Result<Success, Failure>)
    requires d.Valid() && id in d.containers
    modifies d, d.replica, d.linkIndex
    ensures d.Valid() && Does(old(d.Value()), d.Value(), id, name, true, r) && r != Ok(Deleted)
  {
    var link := d.RmLink(id, name);
    r := if link.Ok? then Ok(LinkRemoved) else Err(LinkRefused(link.error));
  }

  /** The part of ContainerRm that runs with the flag up. */
  method RemoveMarked(d: Registry, c: State, counter: StateCounter, id: string, name: string,
                      removeLink: bool, force: bool, f: Foreign)
    returns (r: Result<Success, Failure>)
    requires d.Valid() && NulFree(id) && ChannelsOpen(c.Value().chans)
    modifies c, counter, d, d.replica, d.linkIndex
    ensures d.Valid() && ChannelsOpen(c.Value().chans)
    ensures Does(old(d.Value()), d.Value(), id, name, removeLink, r)
    ensures removeLink || id !in old(d.containers) || (old(c.running) && (!force || !f.killOk)) ==>
              c.Value() == old(c.Value()) && counter.states == old(counter.states)
    ensures id in old(d.containers) && !removeLink ==>
              r == (match Obstacle(old(c.running), force, f) case None => Ok(Deleted) case Some(e) => Err(e))
    ensures r == Ok(Deleted) ==> counter.states == old(counter.states) - {id} && old(c.waitRemove) in c.closed
  {
    if id !in d.containers {
      return Ok(AlreadyGone);
    }
    if removeLink {
      r := RemoveNamedLink(d, id, name);
      return;
    }
    var e := CleanupContainer(d, c, counter, id, force, f);
    r := if e.None? then Ok(Deleted) else Err(e.value);
  }

  /**
   A removal of the container that a lookup of the name returned, perhaps a while ago. A call that
   finds the flag set changes nothing. Any other call leaves the flag down again. Of a container
   that is still registered it takes the link away if asked to; otherwise it refuses a running
   container without force, and deletes the container exactly if nothing stands in the way.
   */
  method ContainerRm(d: Registry, c: State, counter: StateCounter, id: string, name: string,
                     removeLink: bool, force: bool, f: Foreign)
    returns (r: Result<Success, Failure>)
    requires d.Valid() && NulFree(id) && ChannelsOpen(c.Value().chans)
    modifies c, counter, d, d.replica, d.linkIndex
    ensures d.Valid() && ChannelsOpen(c.Value().chans)
    ensures old(c.removalInProgress) <==> r == Err(InProgress)
    ensures old(c.removalInProgress) || id !in old(d.containers) || removeLink
            || (old(c.running) && (!force || !f.killOk)) ==>
              c.Value() == old(c.Value()) && counter.states == old(counter.states)
    ensures !old(c.removalInProgress) ==>
              !c.removalInProgress && Does(old(d.Value()), d.Value(), id, name, removeLink, r)
    ensures r == Ok(AlreadyGone) <==> !old(c.removalInProgress) && id !in old(d.containers)
    ensures !old(c.removalInProgress) && id in old(d.containers) && !removeLink ==>
              && (old(c.running) && !force ==> r == Err(StillRunning))
              && (old(c.running) && force && !f.killOk ==> r == Err(CannotKill))
              && (r == Ok(Deleted) <==>
                    (old(c.running) ==> force && f.killOk && (f.diedOfKill || f.stopOk))
                    && f.osOk && f.layerOk && f.filesOk)
    ensures r == Ok(Deleted) ==> counter.states == old(counter.states) - {id} && old(c.waitRemove) in c.closed
  {
    var already := c.SetRemovalInProgress();
    if already {
      return Err(InProgress);
    }
    r := RemoveMarked(d, c, counter, id, name, removeLink, force, f);
    c.removalInProgress := false;
  }
}
