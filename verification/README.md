# Container bookkeeping of the engine, in Dafny

The engine keeps its containers in memory: a transactional table of names and records, a pair of
link maps, an ID store, a state object per container with wait channels and a health monitor, a
counter of states, an exec registry with a collector, and a listing that filters snapshots of all
this. This project models that bookkeeping and proves what it keeps over whole runs. It also covers
four transformations on the way to a running container: environment overrides, configuration merge,
the mount pass of the OCI spec, and CPU limits.

Verify everything with `dafny verify dfyconfig.toml`.

## How it is modelled

- An object whose methods update its fields is a class; each method is tied to a step function on
  values, and the run theorems are lemmas about the step functions. Concurrency is interleaving of
  steps, and a step that is not enabled changes nothing. A step is one lock-held section, except in
  `Registries` and in the first half of `StateCounters`, where a whole operation is one step; `LinkRaces`
  and the second half of `StateCounters` take those operations apart and show that the sections of an
  operation, uninterrupted, are its step.
- The in-memory database is a set of maps from byte-string keys, walked in byte order, with immutable
  roots. That a radix tree behaves like such a map is an assumption.
- A container is identified by its ID. IDs are never reused while a container lives.
- A channel is an identity from a growing pool together with a set of closed identities.
- Step functions and predicates are pinned down by laws on the data itself, with the fields, constructors,
  texts and numbers written out (`StateStringIs`, `LookupMeans`, `AnswerMeans`, `EntryMeans` and the like).
- Clocks, random IDs and names, regular expressions, the runtime, the kernel, the layer store and the
  file system are parameters.

Modules: `ByteOrder`, `ViewDb` (container/view.go), `LinkIndexes` (daemon/links.go), `Registries`
(GetContainer, registerLink, rmLink, cleanupContainer, each as one step), `LinkRaces` (the same, one
lock-held section at a time), `Names` (daemon/names.go), `Removal` and `Deletion`
(daemon/delete.go), `ContainerState` (container/state.go), `StateCounters` (daemon/monitor.go,
daemon/metrics.go, daemon/pause.go), `Healths` (container/health.go, daemon/health.go), `Listing`,
`ListLaws`, `ListSearch` and `Ancestors` (daemon/list.go), `Execs` (daemon/exec.go), `Env` (container/env.go), `Merge`
(daemon/commit.go), `Mounts` (daemon/oci_linux.go), `Cpu` (daemon/daemon_unix.go,
container/container_unix.go).

## Where the code does not do what one would expect

Each of these is a lemma with the failing family, next to a lemma that says exactly when the property
holds.

- A prefix scan for the names of an ID that contains NUL can return another container's names
  (`ViewDb.ScansExactlyIffNulFree`).
- The link index alone does not stay mirrored; it does when the alias is not already another child's
  (`LinkIndexes.LinkKeepsMirrorIff`). The name reservation in front of it is what guarantees that.
- Removing a link while its parent is being created releases the name but keeps the edges
  (`Registries.RemovalDuringCreationBreaks`), and so does a removal for a container that was looked up
  before the link name passed to another one (`Registries.StaleLookupBreaks`); the exact conditions are
  `Registries.RemoveLinkKeepsEdgesIff` and `Registries.RemoveLinkKeepsInvIff`.
- A link under an alias with a slash is attributed to the wrong parent on removal
  (`Registries.SlashAliasBreaks`); exactly the aliases with a slash whose name can be reserved break the
  invariant (`Registries.RegisterLinkKeepsInvIff`).
- registerLink, rmLink and cleanupContainer take several locks one after another. Which interleavings
  leave an edge that is neither right nor in the hands of a removal is exact
  (`LinkRaces.SoundThroughoutIff`); three that do are `LinkRaces.CleanupInsideRegistration`,
  `LinkRaces.RelinkInsideRemoval` and `LinkRaces.AbandonedRemoval`.
- A listing with both cursors ignores `since` when that container stands at or ahead of the `before`
  container in the list, instead of returning nothing (`Listing.WindowIsIntersectionIff`).
- A waiter released by an exit can read exit code 0 if a restart takes the lock first
  (`ContainerState.RestartHidesExit`); it reads the exit's code exactly when the last later write of the
  code, if any, wrote the same (`ContainerState.WokenReadsTheExitIff`).
- After a pause the health status is unhealthy whatever the failing streak (`Healths.AfterReopening`).
- The state counter is refreshed in several places outside one lock. It stays exact over a run if and
  only if every section is timely (`StateCounters.SplitCounts`). Three families that are not: a start
  between registration and the label of a creation (`StateCounters.StartDuringCreateMiscounts`), a
  removal in the same place (`StateCounters.RemovalDuringCreateStays`), and an event for a container
  looked up before its removal (`StateCounters.LateExitStays`); the last two count a container that is
  gone, for good unless a call that still holds it removes it once more.
- A creation that fails after registration cleans up without the removal flag, so that it can overlap
  with a removal (`Removal.CreatorOverlaps`); the exact condition is `Removal.OneCleanupIff`.
- With a name or ID filter the listing runs over the matching containers only: a `before` container that
  does not match empties it and a `since` container that does not match is ignored
  (`ListSearch.DroppedCursors`); when the answer is that of the whole list is exact
  (`ListSearch.SublistAnswersAlikeIff`).
- An exec registered between the two phases of a collector pass is collected by the next pass while
  it is live (`Execs.RegistrationInsidePassIsCollected`); live execs are kept over a run exactly when each
  sweep's scan has seen what is live by then (`Execs.LiveKeptThroughoutIff`).
- The CPU quota computation overflows from 92234 CPUs on (`Cpu.QuotaIsExactForMachineIff`).
- A request with NanoCPUs and a negative quota, say one CPU and -1, is accepted, and the runtime gets the
  negative quota: the CPU limit is lost (`Cpu.NegativeQuotaLiftsLimit`). The computed quota is emitted if
  and only if no quota is stored (`Cpu.LimitIsEmittedIff`).

## Model

| member | source | states |
|---|---|---|
| `ViewDb.PrefixSelectsId` | components/engine/container/view.go:470-494 | the NUL-terminated prefix of an ID selects exactly the index keys of that ID, for NUL-free IDs |
| `ViewDb.InsertRefines` | components/engine/vendor/github.com/hashicorp/go-memdb/txn.go:137-250 | inserting a name association makes the two indexes hold the table with that name given to its new owner, also when the name had another owner |
| `ViewDb.DeleteRefines` | components/engine/vendor/github.com/hashicorp/go-memdb/txn.go:252-317 | deleting a name removes it from both indexes, other names stay, and the report says whether it existed |
| `ViewDb.ScanIsExact` | components/engine/container/view.go:239-256 | getNames returns exactly the names whose owner is the ID, once each, in ascending order |
| `ViewDb.NamesInByteOrder` | components/engine/container/view.go:239-256 | of two names in the answer of getNames the earlier is a proper beginning of the later or has the smaller byte where they first differ |
| `ByteOrder.LessIff` | components/engine/container/view.go:239-256 | the walking order: a proper beginning first, otherwise the smaller byte at the first difference |
| `ViewDb.ScanFindsOwned` | components/engine/container/view.go:239-256 | getNames returns a name if and only if the table gives it to the ID |
| `ViewDb.StepRefines` | components/engine/container/view.go:152-203 | Save, Delete, ReserveName and ReleaseName do to the indexes what the one-owner-per-name table does, with the same outcome |
| `ViewDb.ReserveNameMeans` | components/engine/container/view.go:177-195 | a free name becomes the ID's, its own stays, another's is refused, and nothing else changes |
| `ViewDb.ReleaseNameMeans` | components/engine/container/view.go:197-203 | the name is free afterwards, every other name and record stays, and the report says whether it was reserved |
| `ViewDb.SaveAndDeleteMean` | components/engine/container/view.go:152-175 | saving sets one record; deleting drops the record and exactly the names of the ID |
| `ViewDb.RunRefines` | components/engine/container/view.go:80-108 | in every state reachable by the four operations the two names indexes and the containers index hold the same table |
| `ViewDb.ScansExactlyIffNulFree` | components/engine/container/view.go:473-494 | getNames is right in every reachable store if and only if the ID contains no NUL |
| `ViewDb.OwnerIsStable` | components/engine/container/view.go:177-195 | a reserved name keeps its owner over any run without its release or the deletion of its owner |
| `ViewDb.ViewIsolation` | components/engine/container/view.go:134-150 | a view goes on answering from the operations committed before it was opened, whatever commits later |
| `ViewDb.View.GetNames` | components/engine/container/view.go:240-256 | the iteration returns the scanned names in key order |
| `ViewDb.View.GetID` | components/engine/container/view.go:258-268 | the owner of the name in the represented table, or none |
| `ViewDb.View.Get` | components/engine/container/view.go:227-237 | the saved record with its names, exactly for saved IDs |
| `ViewDb.View.GetAllNames` | components/engine/container/view.go:270-288 | the exact inverse of GetID: each owner with all its names, no owner without names, agreeing with getNames |
| `ViewDb.MemDB.Save` | components/engine/container/view.go:152-158 | commits the record under its ID |
| `ViewDb.MemDB.Delete` | components/engine/container/view.go:160-175 | in one commit drops every name found for the ID and its record |
| `ViewDb.MemDB.ReserveName` | components/engine/container/view.go:177-195 | reserves a free name, is idempotent for its owner, refuses another ID and then changes nothing |
| `ViewDb.MemDB.ReleaseName` | components/engine/container/view.go:197-203 | releases a reserved name; reports an unknown one and changes nothing |
| `LinkIndexes.LinkEdges` | components/engine/daemon/links.go:26-43 | linking sets one forward edge and adds one reverse edge, all others stay |
| `LinkIndexes.UnlinkEdges` | components/engine/daemon/links.go:45-51 | unlinking drops one forward edge and every reverse edge between the pair |
| `LinkIndexes.DeleteEdges` | components/engine/daemon/links.go:78-91 | deleting drops the container's forward edges, its reverse entry, and the reverse edges its forward entries lead to |
| `LinkIndexes.MapsMean` | components/engine/daemon/links.go:26-91 | the effect of link, unlink and delete on each entry of the two maps |
| `LinkIndexes.LinkKeepsMirrorIff` | components/engine/daemon/links.go:26-43 | linking keeps every reverse edge mirrored if and only if no other child holds the alias in the reverse map |
| `LinkIndexes.LinkIndex.Link` | components/engine/daemon/links.go:26-43 | the nested maps end up as the link step says, whether or not the inner maps existed |
| `LinkIndexes.LinkIndex.Unlink` | components/engine/daemon/links.go:45-51 | the nested maps end up as the unlink step says |
| `LinkIndexes.LinkIndex.Parents` | components/engine/daemon/links.go:62-76 | every alias of the child with a parent that uses it; the exact inverse when no alias has two parents |
| `LinkIndexes.LinkIndex.Delete` | components/engine/daemon/links.go:78-91 | the loop ends in the delete step's maps and returns each link name of the container once |
| `Registries.RegisterLinkKeepsInv` | components/engine/daemon/daemon.go:657-668 | registering a link under a slash-free alias keeps the registry invariant, also when the name is taken |
| `Registries.RegisterLinkKeepsInvIff` | components/engine/daemon/daemon.go:657-668 | registering a link keeps the invariant if and only if the alias has no slash or its full name is taken by another container |
| `Registries.RemoveLinkKeepsInvIff` | components/engine/daemon/delete.go:51-75 | under the invariant rmLink keeps it if and only if it fails, or every reverse edge with the name belongs to the given container and the parent it resolves is registered |
| `Registries.RemoveLinkKeepsEdgesIff` | components/engine/daemon/delete.go:51-75 | in any state with mirrored, reserved edges, also with slash aliases, rmLink keeps them so if and only if it fails, or each reverse edge with the name runs from the given container to the resolved, registered parent |
| `Registries.FreshRemovalKeepsInvIff` | components/engine/daemon/delete.go:22-75 | with the lookup in the same step, rmLink keeps the invariant if and only if it fails, the parent is registered, or no reverse edge has the name |
| `Registries.StaleLookupBreaks` | components/engine/daemon/delete.go:24-43 | an rmLink for a container that no longer owns the link name releases the name and leaves the reverse edge of its owner |
| `Registries.CleanupKeepsInv` | components/engine/daemon/delete.go:136-147 | cleanup keeps the invariant in spite of the forward entries it leaves behind |
| `Registries.RunKeepsInv` | components/engine/daemon/daemon.go:657-668 | over every run of creation, linking, registration, link removal and cleanup the invariant holds |
| `Registries.ReachableLinksMirrored` | components/engine/daemon/links.go:27-91 | in every reachable state each reverse edge is mirrored by its forward edge and its name is reserved to the child |
| `Registries.CleanupIsComplete` | components/engine/daemon/delete.go:136-147 | after cleanup no name, link name, reverse edge, store or record refers to the container; the names released were its own or directly under its own; everything of others is as before |
| `Registries.SlashAliasBreaks` | components/engine/daemon/delete.go:51-75 | for every alias with a slash under an existing link, registering it keeps the edges right, and removing it resolves the wrong parent and breaks them |
| `Registries.RemovalDuringCreationBreaks` | components/engine/daemon/delete.go:66-73 | removing a link of a parent that is not registered yet leaves its edges, and relinking the alias then breaks the mirror |
| `Registries.Registry.RegisterLink` | components/engine/daemon/daemon.go:657-668 | reserves the full name and links, or leaves everything unchanged if the name is taken |
| `Registries.RegisterLinkMeans` | components/engine/daemon/daemon.go:657-668 | the link is registered under parent name, slash and alias, with both edges, unless another container has that name; then nothing changes |
| `Registries.Registry.Register` | components/engine/daemon/container.go:111-128 | puts the container into the ID store and saves its record |
| `Registries.CreationMeans` | components/engine/daemon/container.go:111-128 | creation takes a free or own name; registration adds the ID and the record; nothing else changes |
| `Registries.Registry.GetContainer` | components/engine/daemon/container.go:38-63 | the registered container with this full ID, or else the registered owner of this name, or else the only one whose ID begins so |
| `Registries.FoundByName` | components/engine/daemon/container.go:169-188 | a registered container is found under its own name with the leading slash and without it, unless the text is a full ID |
| `Registries.LookupMeans` | components/engine/daemon/container.go:38-63 | full ID first, then the registered owner of the slashed name, then the only ID that begins so; empty text finds nobody |
| `Registries.Registry.GetByPrefix` | components/engine/pkg/truncindex/truncindex.go:100-127 | the container whose ID begins with the text, exactly if there is one and no other |
| `Registries.Registry.RmLink` | components/engine/daemon/delete.go:51-75 | resolves the parent by the slashed name, releases the name, unlinks the given container; each error leaves everything unchanged |
| `Registries.RemoveLinkMeans` | components/engine/daemon/delete.go:51-75 | a link name without its leading slash does what it does with it: the parent is the container named before the last slash, the slashed name is freed, and the edges to a registered parent go |
| `Registries.RmLinkTargetIs` | components/engine/daemon/delete.go:55-64 | an own name is refused; otherwise the parent is the owner of what precedes the last slash, or an error |
| `Registries.Registry.CleanupContainer` | components/engine/daemon/delete.go:136-147 | the deregistration in its order is the cleanup step |
| `LinkRaces.SectionKeepsIff` | components/engine/daemon/delete.go:51-147 | for each lock-held section of registerLink, rmLink and cleanupContainer, also an rmLink that gives up on an unregistered parent: the exact condition under which every reverse edge stays mirrored and reserved or in the hands of a removal |
| `LinkRaces.SoundThroughoutIff` | components/engine/daemon/daemon.go:657-668 | an interleaving of any number of such calls keeps this in every state it passes if and only if each section finds its condition met |
| `LinkRaces.QuietStatesAreMirrored` | components/engine/daemon/links.go:27-91 | after such an interleaving, once every rmLink has unlinked or given up, each reverse edge is mirrored and its name is reserved to the child |
| `LinkRaces.RegisterLinkIsItsSections` | components/engine/daemon/daemon.go:657-668 | the two sections of registerLink without interruption are the registry step |
| `LinkRaces.RemoveLinkIsItsSections` | components/engine/daemon/delete.go:66-73 | release and unlink, or release and giving up on an unregistered parent, without interruption are the registry step |
| `LinkRaces.CleanupIsItsSections` | components/engine/daemon/delete.go:136-146 | the sections of cleanupContainer without interruption are the registry step |
| `LinkRaces.CleanupInsideRegistration` | components/engine/daemon/daemon.go:657-668 | a cleanup of the child between reserving and linking leaves an edge without a name |
| `LinkRaces.RelinkInsideRemoval` | components/engine/daemon/delete.go:66-73 | a link name given to another child between release and unlink loses its forward edge and keeps its reverse edge |
| `LinkRaces.AbandonedRemoval` | components/engine/daemon/delete.go:66-74 | an rmLink that finds its parent unregistered leaves a reverse edge without a name |
| `Names.ReserveName` | components/engine/daemon/names.go:58-78 | the slashed user name becomes the ID's, or nothing changes and the error is an invalid name or names the current owner |
| `Names.ValidNameIff` | components/engine/daemon/names/names.go:5-9 | the valid names, character by character |
| `Names.SlashIsOptional` | components/engine/daemon/names.go:58-66 | a name may be given with or without the leading slash and is kept with it |
| `Names.GenerateNewName` | components/engine/daemon/names.go:84-106 | takes the first available of six candidates and the short ID; either that slashed name is now the ID's and no other changed, or all were taken and nothing changed |
| `Names.FirstAvailableIs` | components/engine/daemon/names.go:84-106 | the first attempt that nobody or the ID itself has is taken |
| `Names.AttemptsAre` | components/engine/daemon/names.go:84-106 | the candidates in order, slashed, and last the slashed short ID |
| `Names.TruncateIDIs` | components/engine/pkg/stringid/stringid.go:26-37 | the short ID is the first twelve characters behind the first colon |
| `Names.NewContainer` | components/engine/daemon/names.go:38-56 | on success is the registry's creation step with a slashed name, otherwise the registry is unchanged |
| `Names.AttemptsAreOwnNames` | components/engine/daemon/names.go:84-106 | generated names have one leading slash and no other |
| `Removal.AtMostOneCleanup` | components/engine/daemon/delete.go:22-49 | over every interleaving of ContainerRm calls at most one is inside cleanupContainer and at most one reports success |
| `Removal.NoCleanupAfterSuccess` | components/engine/daemon/delete.go:36-39 | once a call has removed the container no other call cleans up again, also one that looked it up before |
| `Removal.RemovalIsFinal` | components/engine/container/memory_store.go:29-42 | after deregistration no call ever starts a cleanup and the container does not come back |
| `Removal.FlagIsReleased` | components/engine/container/state.go:341-358 | when all calls have returned without removing it, a new call gets to clean up |
| `Removal.EntryMeans` | components/engine/daemon/delete.go:24-34 | a call that does not find the container, or finds the flag up, returns so; otherwise it raises the flag |
| `Removal.WorkMeans` | components/engine/daemon/delete.go:34-49 | with the flag up: gone if it left the store, else link removal or cleanup, with their answers, and the flag down at the end |
| `Removal.OneCleanupIff` | components/engine/daemon/create.go:159-165 | with a failing creation that cleans up without the flag, one cleanup at a time holds throughout a run if and only if the creation does not fail inside a cleanup and no call begins one inside the creation's; then the container is deregistered at most once |
| `Removal.CreatorOverlaps` | components/engine/daemon/create.go:159-165 | a creation that fails while a call cleans up overlaps with it and deregisters a second time |
| `Deletion.Dismantle` | components/engine/daemon/delete.go:79-134 | refuses a running container without force, or one it cannot kill, and changes nothing; otherwise stops, marks dead and removes layer and files exactly if every answer allows it; the label becomes stopped exactly if the container exits meanwhile; waiters for the removal wake only if the removal itself failed |
| `Deletion.CleanupContainer` | components/engine/daemon/delete.go:77-152 | refuses a running container without force and changes nothing; succeeds exactly if kill, stop, platform, layer and files allow it; then registry, counter and waiters are done, otherwise the registry is untouched and the counter follows the exit of the killed container |
| `Deletion.ContainerRm` | components/engine/daemon/delete.go:22-49 | refuses while a removal is in progress and, without force, for a running container, changing nothing; otherwise leaves the flag down and reports success exactly if nothing stands in the way |
| `Deletion.ObstacleMeans` | components/engine/daemon/delete.go:79-134 | the exact condition of each failure and of success |
| `Deletion.DoesMeans` | components/engine/daemon/delete.go:36-49 | what the registry is after each answer, with the link name written out |
| `Deletion.RemovalKeepsInv` | components/engine/daemon/delete.go:36-49 | every such call keeps the registry invariant, unless it removes a link name that passed to another container or whose parent is not registered |
| `ContainerState.RunKeepsChannelsOpen` | components/engine/container/state.go:59-66 | over any run both current wait channels are open, so no close hits a closed channel |
| `ContainerState.StopChannelClosedIff` | components/engine/container/state.go:282-313 | the stop channel read at a point is closed later if and only if a stop or restart happened since |
| `ContainerState.RemoveChannelClosedIff` | components/engine/container/state.go:377-394 | the remove channel read at a point is closed later if and only if a removal ended since |
| `ContainerState.WakeupIff` | components/engine/container/state.go:172-236 | a blocked waiter is released if and only if its context ended, a removal ended since, or, unless it waits only for removal, a stop happened since |
| `ContainerState.WaitBlocksIff` | components/engine/container/state.go:181-197 | only a wait for "not running" on a container that does not run is answered at once, with its exit code and error |
| `ContainerState.StopThenWait` | components/engine/container/state.go:181-197 | waiting for a stopped container answers at once with its exit code and error; a running or restarting one blocks |
| `ContainerState.EventStates` | components/engine/container/state.go:112-137 | the state string after each lifecycle event; removal and death marks do not show while it runs |
| `ContainerState.StateStringIs` | components/engine/container/state.go:112-137 | each state string if and only if the flags are so |
| `ContainerState.ActivityFlags` | components/engine/container/state.go:266-313 | the flags after a start, a stop and a restart |
| `ContainerState.ExitFields` | components/engine/container/state.go:266-313 | process, exit code, error, OOM mark and finish time after a start, a stop and a restart |
| `ContainerState.SettersTouchOne` | components/engine/container/state.go:315-394 | each small setter changes its field and no other |
| `ContainerState.RunningIff` | components/engine/container/state.go:266-313 | after any run the container runs if and only if it was started or restarted and not stopped since |
| `ContainerState.CodeFollowsLastWrite` | components/engine/container/state.go:244-313 | after any run the exit code is that of the last start, stop, restart or explicit code |
| `ContainerState.WokenReadsTheExitIff` | components/engine/container/state.go:224-232 | a waiter, other than for removal, is released by a stop or restart after it registered, and reads the code of that exit if and only if nothing wrote the code since or the last write wrote the same |
| `ContainerState.RestartHidesExit` | components/engine/container/state.go:224-232 | a start any time after the exit, with no later write of the code, makes every such waiter read 0 |
| `ContainerState.State.SetRunning` | components/engine/container/state.go:266-280 | the whole new state |
| `ContainerState.State.SetStopped` | components/engine/container/state.go:282-297 | the whole new state, closing an open channel and replacing it |
| `ContainerState.State.SetRestarting` | components/engine/container/state.go:299-313 | the whole new state, closing an open channel and replacing it |
| `ContainerState.State.SetRemovalError` | components/engine/container/state.go:377-394 | records the error, closes the open remove channel and replaces it |
| `ContainerState.State.SetRemovalInProgress` | components/engine/container/state.go:341-351 | raises the flag and reports whether it was up |
| `StateCounters.StepKeepsAgreement` | components/engine/daemon/monitor.go:29-195 | every lifecycle step keeps each stored label equal to the class of the state string, also those that do not refresh it |
| `StateCounters.CountsAreExact` | components/engine/daemon/metrics.go:80-105 | after any run the three labelled sets are the actual classes and their sizes add up to the number of containers |
| `StateCounters.LateLabelAgreesIff` | components/engine/daemon/create.go:223-227 | the label recorded at the end of creation keeps the counter exact if and only if the container is still registered or its removal has yet to drop the label, and it is not running (or is restarting unpaused) by then |
| `StateCounters.StartDuringCreateMiscounts` | components/engine/daemon/create.go:223-227 | a start between registration and the label leaves a running container labelled stopped |
| `StateCounters.SplitCounts` | components/engine/daemon/metrics.go:80-105 | over any interleaving of the sections of creations, events and removals the counter is exact in every state if and only if each section is timely; then, with nothing in the middle, the labelled sets are the classes of the registered containers and add up to their number |
| `StateCounters.SectionKeepsExactIff` | components/engine/daemon/monitor.go:29-88 | for each section, the exact condition under which it keeps every registered container labelled or being created, no label beyond its removal, and every label right |
| `StateCounters.DeliverKeepsAgreementIff` | components/engine/daemon/monitor.go:29-33 | one event on a looked-up container keeps the counter exact if and only if the container is registered or its removal has yet to drop the label, or the event does not refresh |
| `StateCounters.LateExitStays` | components/engine/daemon/monitor.go:29-88 | an exit delivered after the label was dropped puts it back, and it stays over any later run without another removal by a call that holds the container |
| `StateCounters.RemovalDuringCreateStays` | components/engine/daemon/create.go:223-227 | a removal between registration and the label leaves the label of a container that is gone, for as long |
| `StateCounters.CreateIsItsSections` | components/engine/daemon/create.go:223-227 | registration and label without interruption are the creation step |
| `StateCounters.RemoveIsItsSections` | components/engine/daemon/delete.go:139-148 | leaving the store and dropping the label without interruption are the removal step |
| `StateCounters.DeliverIsItsStep` | components/engine/daemon/monitor.go:29-195 | an event on a registered container is its step |
| `StateCounters.StateCounter.Get` | components/engine/daemon/metrics.go:80-93 | the loop counts each label and the three counts add up to all entries |
| `StateCounters.SetStateCounter` | components/engine/daemon/monitor.go:17-26 | stores the class of the state string |
| `StateCounters.LabelIs` | components/engine/daemon/monitor.go:17-26 | each of the three labels if and only if the flags are so |
| `StateCounters.ProcessEvent` | components/engine/daemon/monitor.go:35-193 | each state event changes the whole state object and the label as its step says |
| `StateCounters.EventStrings` | components/engine/daemon/monitor.go:35-193 | the state string after an exit with or without restart, a start, a pause and a resume |
| `StateCounters.ExitMeans` | components/engine/daemon/monitor.go:54-88 | flags and refresh after an exit and after a failed restart |
| `StateCounters.StartMeans` | components/engine/daemon/start.go:101-115 | flags and refresh after a start event and a start call, and when the call is refused |
| `StateCounters.PauseMeans` | components/engine/daemon/monitor.go:166-193 | pausing and resuming change one flag and refresh only if they change it |
| `StateCounters.ContainerPauseStep` | components/engine/daemon/pause.go:22-55 | pauses exactly a running, unpaused, not restarting container that the runtime pauses; otherwise changes nothing |
| `Healths.LogIsLastFive` | components/engine/daemon/health.go:135-139 | the log is the last five of the old log followed by the results |
| `Healths.StatusFollowsStreak` | components/engine/daemon/health.go:141-169 | unhealthy iff the streak reached the retries; starting iff it did not and there was no success; since a success every result counts |
| `Healths.StreakBeforeSuccess` | components/engine/daemon/health.go:146-167 | before any success the streak is the number of failures outside the start period |
| `Healths.AfterReopening` | components/engine/container/health.go:69-82 | after a monitor was closed and reopened: unhealthy iff no success since or the streak reached the retries |
| `Healths.RunKeepsOneMonitor` | components/engine/container/health.go:55-82 | over every interleaving, also across restarts with other configurations and start times, the open monitor channels are exactly the current one |
| `Healths.OnlyCurrentMonitorReports` | components/engine/daemon/health.go:117-126 | a result changes the record if and only if its monitor's channel is the current one |
| `Healths.RecordFoldsOwnResults` | components/engine/daemon/health.go:186-250 | while a monitor stays open the record is the fold of its own results; late probes of earlier monitors leave no trace |
| `Healths.HealthFromStart` | components/engine/daemon/health.go:297-316 | from a start until the channel is closed, whatever history came before: status by the streak against the retries (3 unless set), streak by the results since the last exit code 0 or the failures started after the start period, log the last five, all from the new monitor's results |
| `Healths.ProbeMeans` | components/engine/daemon/health.go:130-169 | log, streak and status after one result of the current monitor, number by number |
| `Healths.MonitorSwitch` | components/engine/daemon/health.go:273-291 | a monitor with a new channel opens exactly for a running, unpaused container with a probe and none open; otherwise an open one is closed and the status is unhealthy |
| `Healths.PauseReportsUnhealthy` | components/engine/daemon/health.go:276-291 | pausing and resuming gives a new monitor, unhealthy status and the old streak |
| `Healths.Health.OpenMonitorChannel` | components/engine/container/health.go:55-67 | makes a new channel exactly when there is none |
| `Healths.Health.CloseMonitorChannel` | components/engine/container/health.go:69-82 | closes an open channel, forgets it and reports unhealthy |
| `Healths.Health.UpdateHealthMonitor` | components/engine/daemon/health.go:273-291 | opens a monitor if the container runs unpaused with a probe, closes it otherwise |
| `Healths.Health.InitHealthMonitor` | components/engine/daemon/health.go:293-316 | closes the old monitor, resets status and streak, keeps the log, opens a new monitor |
| `Healths.Health.HandleProbeResult` | components/engine/daemon/health.go:116-169 | drops results of stopped monitors, otherwise updates log, streak and status |
| `Listing.ReduceContainers` | components/engine/daemon/list.go:178-216 | the stateful loop returns the first Limit containers (all if not positive) that satisfy the position-independent predicate in the window of the cursors, in order, or the first reducer error among them |
| `ListLaws.AnswerMeans` | components/engine/daemon/list.go:178-216 | the answer position by position: satisfying containers of the window in list order up to a positive limit, what is left out stands behind a full answer, and the first failing reduction fails it |
| `ListLaws.PlainListing` | components/engine/daemon/list.go:427-430 | without filters and limit exactly the running containers of the window are returned, with all set the whole window |
| `ListLaws.WindowMeans` | components/engine/daemon/list.go:411-425 | a position is in the window if and only if the before container is ahead of it and the since container has not come up behind the before container |
| `ListLaws.AheadOfLimitIff` | components/engine/daemon/list.go:427-456 | the filters ahead of the limit on the snapshot's fields: running, name with or without slash, ID, task, labels |
| `ListLaws.BehindLimitIff` | components/engine/daemon/list.go:463-581 | the filters behind the limit on the snapshot's fields: exit code, status, health, volume, ancestor, network, ports |
| `ListLaws.LabelFilter` | components/engine/daemon/list.go:450-453 | a filter k=v lets exactly the containers with that label value through, a filter k those with the label |
| `ListLaws.StatusAndHealthFilter` | components/engine/daemon/list.go:477-485 | a status filter lets exactly equal or matching states through, a health filter exactly equal ones |
| `ListLaws.ExitAndAncestorFilter` | components/engine/daemon/list.go:463-475 | an exit filter lets exactly the containers that ran and exited with the code through, an ancestor filter those of its images |
| `ListLaws.NetworkFilter` | components/engine/daemon/list.go:529-552 | a network filter lets exactly the containers on a network of that name or ID prefix through |
| `ListLaws.VolumeFilterIff` | components/engine/daemon/list.go:487-516 | a volume filter lets exactly the containers with that mount destination, name or, unnamed, source through |
| `Listing.ListContext.IncludeContainerInList` | components/engine/daemon/list.go:410-461 | the cursor transition and the verdict, with the limit check between the two groups of filters |
| `Listing.ListContext.IncludeBehindLimit` | components/engine/daemon/list.go:463-581 | includes exactly the containers that pass the filters behind the limit check |
| `Listing.ListContext.ExcludedByVolume` | components/engine/daemon/list.go:487-516 | skips exactly the containers without a requested volume by destination, name or source |
| `Listing.ListContext.ExcludedByExit` | components/engine/daemon/list.go:463-475 | skips exactly the containers that did not exit with an allowed code |
| `Listing.ListContext.ExcludedByPorts` | components/engine/daemon/list.go:554-578 | skips exactly the containers without a requested port |
| `Listing.SelectIsSound` | components/engine/daemon/list.go:410-581 | what the query selects is exactly what satisfies the predicate |
| `Listing.WindowIsIntersectionIff` | components/engine/daemon/list.go:411-425 | the iteration's window is the intersection of the two cursors if and only if the since container is behind the before container, or nothing follows the latter |
| `Listing.SinceAheadOfBeforeIsIgnored` | components/engine/daemon/list.go:411-425 | otherwise the since cursor has no effect on the answer |
| `ListSearch.SublistAnswersAlikeIff` | components/engine/daemon/list.go:111-216 | for every query, list and cursors, the exact condition under which the iteration over the matching containers chooses what the one over the whole list would |
| `ListSearch.NameSearchAnswersAlikeIff` | components/engine/daemon/list.go:137-152 | with a name filter only, the answers differ exactly through a cursor container that does not match |
| `ListSearch.DroppedCursors` | components/engine/daemon/list.go:411-425 | a before container that does not match empties the listing, a since container that does not match is ignored |
| `ListSearch.WindowOfSublist` | components/engine/daemon/list.go:411-425 | the window of the iteration over the matching containers, by which cursor containers match |
| `ListSearch.SearchCommutes` | components/engine/daemon/list.go:178-216 | searching and then filtering gives what filtering and then searching gives |
| `ListSearch.FilterByNameIDMatches` | components/engine/daemon/list.go:111-175 | the two loops select, in list order, the resolved IDs if there is an ID filter, else the containers with a matching name, else all |
| `ListSearch.MatchedIff` | components/engine/daemon/list.go:111-152 | the search on the filter values: resolved IDs, else names with or without slash, else everything |
| `ListSearch.MatchNames` | components/engine/daemon/list.go:137-152 | adds the containers with a matching name, only without an ID filter |
| `ListSearch.Containers` | components/engine/daemon/list.go:178-216 | the reduced containers that the search, the cursors, the filters and the limit leave |
| `Ancestors.AncestorFilter.Populate` | components/engine/daemon/list.go:601-608 | adds exactly the images reachable from the given one and keeps the map closed under children, ending by rank |
| `Ancestors.AncestorFilter.Fold` | components/engine/daemon/list.go:315-333 | the map is exactly the union of the images reachable from the requested ancestors that exist |
| `Ancestors.ReachSplits` | components/engine/daemon/list.go:601-608 | an image reaches itself and what its children reach, and nothing else |
| `Ancestors.ClosedContainsReachable` | components/engine/daemon/list.go:325-328 | skipping an image already in a closed map loses nothing |
| `Execs.RunsAtMostOnce` | components/engine/daemon/exec.go:164-197 | over any interleaving of starts, failures, detaches and exits each exec is handed to the runtime at most once |
| `Execs.StepKeepsLaunchInv` | components/engine/daemon/exec.go:260-274 | only the call that claimed an exec can launch it, and a claimed exec can never be claimed again |
| `Execs.LiveNeverCollected` | components/engine/daemon/exec.go:308-340 | over every run without a registration inside a collector pass, a live exec is in the daemon's store and unmarked |
| `Execs.SweepIsSafeIff` | components/engine/daemon/exec.go:310-323 | a sweep spares all live execs if and only if its scan saw all of them |
| `Execs.LiveKeptThroughoutIff` | components/engine/daemon/exec.go:308-340 | a run keeps live execs stored and unmarked in every state if and only if each sweep's scan has seen what is live at the sweep |
| `Execs.RegistrationInsidePassIsCollected` | components/engine/daemon/exec.go:308-323 | an exec registered between scan and sweep is gone from the daemon's store after the next pass though still live |
| `Execs.GoneBySecondTick` | components/engine/daemon/exec.go:306-328 | in every reachable state an exec that has left its registered container is out of the daemon's store after two passes, for good, whatever happens inside, between and after the passes |
| `Execs.ReachableStoresOwn` | components/engine/daemon/exec.go:28-33 | in every reachable state each stored exec is in the store of its own container, also with registrations inside a pass |
| `Execs.ExecDaemon.RegisterExecCommand` | components/engine/daemon/exec.go:28-33 | puts the exec into its container's and the daemon's store |
| `Execs.ExecDaemon.ClaimStart` | components/engine/daemon/exec.go:164-176 | claims exactly an exec that neither runs nor has an exit code |
| `Execs.ClaimMeans` | components/engine/daemon/exec.go:164-176 | the claim as a step: running is set exactly if the exec neither runs nor has exited, and the call is over otherwise |
| `Execs.LaunchMeans` | components/engine/daemon/exec.go:260-274 | handing a claimed exec to the runtime is counted, accepted or not |
| `Execs.EndMeans` | components/engine/daemon/exec.go:184-200 | a start that fails and an exit leave the exec exited and out of its container's store, and nothing else changed |
| `Execs.StoreStepsMean` | components/engine/daemon/exec.go:308-340 | what a cleanup, a deregistration, a scan and a sweep do to the stores |
| `Execs.RegisterMeans` | components/engine/daemon/exec.go:28-33 | a new exec is in both stores, neither running nor exited |
| `Execs.ExecDaemon.ContainerExecIds` | components/engine/daemon/exec.go:330-340 | the union of the registered containers' stores |
| `Execs.ExecDaemon.SweepCommands` | components/engine/daemon/exec.go:312-323 | for whatever the scan found, the loop collects what was marked and marks what the scan did not see |
| `Execs.ExecDaemon.CollectorTick` | components/engine/daemon/exec.go:309-323 | a pass with nothing in between collects what was marked and marks what is not live |
| `Env.ReplaceOrAppendEnvValues` | components/engine/container/env.go:7-43 | the last default of each key takes the last override of that key or is dropped if that unsets it, new keys are appended in order, empty entries are gone |
| `Env.EntryMeans` | components/engine/container/env.go:16-32 | a default stays if a later default has its key or no override does; otherwise the last override of the key replaces it, or empties it if it has no "=" |
| `Env.AppendedMeans` | components/engine/container/env.go:24-31 | the overrides with "=" whose key no default has are appended in order |
| `Env.KeyIs` | components/engine/container/env.go:10-24 | the key is the text before the first "=", or the whole entry |
| `Env.Compact` | components/engine/container/env.go:34-40 | the in-place removal is the order-preserving filter of non-empty entries |
| `Env.IndexKeys` | components/engine/container/env.go:10-14 | the cache maps each key of the defaults to its last position |
| `Env.LastOverrideWins` | components/engine/container/env.go:16-32 | for a key the defaults hold once, the result holds exactly what the last override of the key asks for |
| `Env.UnsetReachesOnlyDefaults` | components/engine/container/env.go:17-23 | a key introduced by an override survives an unset among the overrides |
| `Merge.MergeEnv` | components/engine/daemon/commit.go:37-57 | the user entries in place, then for each image key the user lacks its first image entry |
| `Merge.MissingKeys` | components/engine/daemon/commit.go:38-56 | the keys added are exactly the image's keys that the user lacks |
| `Merge.MissingGrows` | components/engine/daemon/commit.go:38-56 | an image entry is added behind the others exactly if its key is new to the user and to the image so far |
| `Merge.MissingIsFirst` | components/engine/daemon/commit.go:38-56 | an added key has the value of its first image entry |
| `Merge.MissingDistinct` | components/engine/daemon/commit.go:38-56 | no key is added twice |
| `Merge.MergeIsIdempotent` | components/engine/daemon/commit.go:16-114 | merging the same image again changes nothing |
| `Merge.UserSettingsKept` | components/engine/daemon/commit.go:16-114 | every non-empty user setting is kept; sets and labels are exactly the union, environment is extended |
| `Merge.ImageFillsGaps` | components/engine/daemon/commit.go:16-114 | what the user left empty comes from the same setting of the image |
| `Merge.HealthcheckIsCompleted` | components/engine/daemon/commit.go:78-99 | each part of the healthcheck is the user's unless empty or zero, then the image's; with one healthcheck only, that one |
| `Merge.EnvIsExtended` | components/engine/daemon/commit.go:37-57 | the merged environment has the user's entries first and exactly the keys of both |
| `Merge.UserConf.MergeFrom` | components/engine/daemon/commit.go:21-114 | the fields end up as the merged configuration |
| `Mounts.FilterDefaults` | components/engine/daemon/oci_linux.go:525-556 | filtering in place keeps, in order, exactly the default mounts that are not overridden, with the size option on /dev/shm |
| `Mounts.KeptDefaultsExact` | components/engine/daemon/oci_linux.go:525-530 | a default mount is kept if and only if no user mount, user /dev or IPC mode "none" overrides it |
| `Mounts.KeptIff` | components/engine/daemon/oci_linux.go:533-545 | the three reasons to drop a default mount, and no other |
| `Mounts.AddMounts` | components/engine/daemon/oci_linux.go:557-652 | succeeds iff the host admits every mount; then the spec has the defaults and one entry per mount, and the root propagation is raised just as far as needed |
| `Mounts.WithMounts` | components/engine/daemon/oci_linux.go:518-652 | the whole pass, with the overriding destinations collected from the user mounts: succeeds iff the host admits every mount and then gives the raised root propagation and the mounts of the pass |
| `Mounts.PassIsExact` | components/engine/daemon/oci_linux.go:518-652 | a mount is in the finished spec if and only if it is an entry of a user mount or a default that no user mount shadows and IPC mode "none" does not drop |
| `Mounts.PassEndsInEntries` | components/engine/daemon/oci_linux.go:557-652 | the user's entries come last, in the order of the user's mounts |
| `Mounts.RaisedIsLeastSufficient` | components/engine/daemon/oci_linux.go:577-623 | the root propagation is never weakened, is strong enough for every mount, and no stronger than the initial one or some mount needs |
| `Mounts.OrderDoesNotMatter` | components/engine/daemon/oci_linux.go:557-623 | outcome and root propagation are the same for any order of the mounts |
| `Mounts.BindEntryOptions` | components/engine/daemon/oci_linux.go:625-651 | a bind entry is read-only if the mount is not writable, or else only if the host locks the flag |
| `Mounts.EntryMeans` | components/engine/daemon/oci_linux.go:559-651 | destination, source, kind and the options of an entry, in order |
| `Mounts.AdmissibleIff` | components/engine/daemon/oci_linux.go:559-651 | the exact condition on source, propagation and host under which a mount is admitted |
| `Mounts.NeedsIs` | components/engine/daemon/oci_linux.go:577-623 | which mounts need a shared root, a slave root or none |
| `Mounts.RaisedMeans` | components/engine/daemon/oci_linux.go:577-623 | the root propagation becomes "shared" or "rslave" exactly if a mount needs it and it was weaker |
| `Cpu.UpdatesStayCoherent` | components/engine/container/container_unix.go:279-315 | across any updates, also ones rejected halfway, positive NanoCPUs never coexists with a positive period or quota |
| `Cpu.RejectionIsNeeded` | components/engine/container/container_unix.go:284-299 | the conflict check refuses exactly the updates that would break this, and NanoCPUs with a quota-clearing negative quota |
| `Cpu.NanoWithinLimit` | components/engine/daemon/daemon_unix.go:511-513 | the stored NanoCPUs stays within the machine's limit |
| `Cpu.QuotaIsExactIff` | components/engine/daemon/daemon_unix.go:155-161 | the emitted quota is NanoCPUs/10000 rounded down if and only if the product fits 64 bits |
| `Cpu.QuotaIsExactForMachineIff` | components/engine/daemon/daemon_unix.go:155-161 | every accepted NanoCPUs gives the exact quota, at most 100000 per CPU, if and only if the machine has at most 92233 CPUs |
| `Cpu.CreatedThenUpdated` | components/engine/container/container_unix.go:279-315 | from creation through any updates on one machine NanoCPUs is within its limit, the period is not negative, and positive NanoCPUs excludes a positive period or quota |
| `Cpu.LimitIsEmittedIff` | components/engine/daemon/daemon_unix.go:136-171 | after creation and updates a positive NanoCPUs is emitted with the 100 ms period, and its exact quota, at most 100000 per CPU, is emitted if and only if no quota is stored; a stored one is negative and is emitted instead |
| `Cpu.NegativeQuotaLiftsLimit` | components/engine/daemon/daemon_unix.go:494-531 | every acceptable NanoCPUs with any negative quota is accepted, and the negative quota is emitted |
| `Cpu.GetCPUResources` | components/engine/daemon/daemon_unix.go:136-184 | shares, period and quota of the result for every stored setting |
| `Cpu.EmittedMeans` | components/engine/daemon/daemon_unix.go:136-184 | negative shares are refused; shares and stored period and quota go out as they are, and without NanoCPUs nothing else does |
| `Cpu.Resources.VerifyCPU` | components/engine/daemon/daemon_unix.go:493-533 | accepts exactly the acceptable requests and discards what the kernel does not support |
| `Cpu.RefusedIff` | components/engine/daemon/daemon_unix.go:493-533 | each reason to refuse a request, and no other |
| `Cpu.DiscardedMeans` | components/engine/daemon/daemon_unix.go:515-528 | exactly the positive settings that the kernel does not support are dropped |
| `Cpu.Resources.UpdateContainer` | components/engine/container/container_unix.go:279-335 | applies the request, wholly or up to the memory check, or refuses it untouched |
| `Cpu.UpdateMeans` | components/engine/container/container_unix.go:279-335 | the exact conflicts, and field by field what an update leaves stored |

## Left out

- Renaming a container: it relinks under new names and drops reverse edges; runs of the registry have no renames.
- `path.Join` on aliases that are empty, "." or "..", or contain doubled slashes: full link names are plain concatenations.
- Iteration order of Go maps where the source iterates over one: the models pick elements in any order.
- `View.All`, the remaining fields of a snapshot, and the construction of ports, networks and commands in `transform`.
- The sort by creation time in listing; the list is taken as given and a search keeps its order.
- The moments in registration and removal when the truncated-ID index and the ID store differ: a lookup by prefix goes by the store.
- Windows variants, including isolation filters and case-insensitive environment keys.
- Disk persistence and its failures, events, logging and metrics export.
- Daemon start-up and restore, which set states without refreshing the counter.
- The read-only root, privileged and cgroup passes at the end of `WithMounts`, and the merging of tmpfs options.
- Memory, block I/O, pids and cpuset checks of resource verification, except the memory check that can stop an update halfway.
- Env.ReplaceOrAppendEnvValues: does not capture that the caller's backing array is overwritten, because the list is a value.
- Merge.UserConf.MergeFrom: does not capture that an empty user map becomes the image's own map, because maps are values.
- Execs.ExecDaemon.CollectorTick: takes the two phases of a pass together; `Execs.GoneBySecondTick` and `Execs.LiveNeverCollected` cover passes with steps in between.
- Deletion.Dismantle: an exit that a kill or a stop waits for is folded into the call, because events arrive on other threads.
- `limitedBuffer`, the probe command itself and the timers of the health monitor's event loop.
