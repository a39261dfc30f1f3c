/**
 The transactional container store (container/view.go) on top of the two-index names table
 and the one-index containers table of the in-memory database it uses.

 A radix index is modelled as a map from byte-string keys, walked in byte order. Roots are
 immutable values, as the persistent radix trees are: a transaction builds a new root and
 commit replaces the current one.
 */
module ViewDb {
  import opened Wrappers
  import opened ByteOrder

  const NUL := '\0'

  /** A read-only copy of a container, as handed to Save. */
  datatype Record = Record(id: string, name: string, imageID: string, pid: int, running: bool, paused: bool)

  datatype Assoc = Assoc(name: string, containerID: string)

  datatype Snapshot = Snapshot(container: Record, names: seq<string>)

  /** The committed indexes: containers by ID, names by name, names by container ID. */
  datatype Root = Root(containers: map<string, Record>,
                       byName: map<string, Assoc>,
                       byContainer: map<string, Assoc>)

  const EmptyRoot := Root(map[], map[], map[])

  /** What a write operation reports. */
  datatype Outcome = Done | NameReserved | NotFound

  datatype Op =
    | Save(record: Record)
    | Delete(id: string)
    | ReserveName(name: string, id: string)
    | ReleaseName(name: string)

  // ---------------------------------------------------------------------------------------
  // Keys

  predicate NulFree(s: string) { NUL !in s }

  function Terminated(s: string): string { s + [NUL] }

  /** Key of the non-unique index: its own value followed by the primary key. */
  function ContainerKey(a: Assoc): string { Terminated(a.containerID) + Terminated(a.name) }

  lemma TerminatedInjective(a: string, b: string)
    requires Terminated(a) == Terminated(b)
    ensures a == b
  {
    assert a == Terminated(a)[..|a|] && b == Terminated(b)[..|b|];
  }

  /** With NUL-free IDs the terminated prefix selects exactly one container's entries. */
  lemma PrefixSelectsId(id: string, a: Assoc)
    requires NulFree(id) && NulFree(a.containerID)
    ensures Terminated(id) <= ContainerKey(a) <==> a.containerID == id
  {
    var k := ContainerKey(a);
    if Terminated(id) <= k {
      assert k[|a.containerID|] == NUL && k[..|a.containerID|] == a.containerID;
      assert Terminated(id)[|id|] == NUL && k[|id|] == NUL && k[..|id|] == id;
      assert forall i | 0 <= i < |id| :: id[i] in id && id[i] == k[i];
      assert forall i | 0 <= i < |a.containerID| :: a.containerID[i] in a.containerID && a.containerID[i] == k[i];
    }
  }

  lemma ContainerKeyInjective(a: Assoc, b: Assoc)
    requires NulFree(a.containerID) && NulFree(b.containerID)
    requires ContainerKey(a) == ContainerKey(b)
    ensures a == b
  {
    assert Terminated(a.containerID) <= ContainerKey(b);
    PrefixSelectsId(a.containerID, b);
    assert ContainerKey(a)[|a.containerID| + 1..] == Terminated(a.name);
    assert ContainerKey(b)[|b.containerID| + 1..] == Terminated(b.name);
    TerminatedInjective(a.name, b.name);
  }

  // ---------------------------------------------------------------------------------------
  // Operations inside one transaction

  /** Insert or update a name association: a changed key leaves the secondary index first. */
  function TxnInsert(t: Root, a: Assoc): Root {
    var key := Terminated(a.name);
    var stale := if key in t.byName && ContainerKey(t.byName[key]) != ContainerKey(a)
                 then {ContainerKey(t.byName[key])} else {};
    t.(byName := t.byName[key := a],
       byContainer := (t.byContainer - stale)[ContainerKey(a) := a])
  }

  /** Delete a name association from both indexes; reports whether the name existed. */
  function TxnDelete(t: Root, name: string): (Root, bool) {
    var key := Terminated(name);
    if key !in t.byName then (t, false)
    else (t.(byName := t.byName - {key}, byContainer := t.byContainer - {ContainerKey(t.byName[key])}), true)
  }

  function TxnDeleteAll(t: Root, names: seq<string>): Root
    decreases |names|
  {
    if names == [] then t else TxnDeleteAll(TxnDelete(t, names[0]).0, names[1..])
  }

  /** The keys met by a prefix scan of the secondary index. */
  function ScanKeys(t: Root, prefix: string): set<string> {
    set k | k in t.byContainer && prefix <= k
  }

  function NamesAt(index: map<string, Assoc>, ks: seq<string>): (names: seq<string>)
    requires forall k | k in ks :: k in index
    ensures |names| == |ks| && forall i | 0 <= i < |ks| :: names[i] == index[ks[i]].name
  {
    if ks == [] then [] else [index[ks[0]].name] + NamesAt(index, ks[1..])
  }

  /** What getNames returns: the names met by a scan, in walking order. */
  ghost function NamesOf(t: Root, id: string): seq<string> {
    var ks := InOrder(ScanKeys(t, Terminated(id)));
    NamesAt(t.byContainer, ks)
  }

  /** One whole write operation: the next committed root and the reported outcome. */
  ghost function Step(t: Root, op: Op): (Root, Outcome) {
    match op
    case Save(r) => (t.(containers := t.containers[Terminated(r.id) := r]), Done)
    case Delete(id) =>
      var u := TxnDeleteAll(t, NamesOf(t, id));
      (u.(containers := u.containers - {Terminated(id)}), Done)
    case ReserveName(name, id) =>
      var key := Terminated(name);
      if key in t.byName then (t, if t.byName[key].containerID != id then NameReserved else Done)
      else (TxnInsert(t, Assoc(name, id)), Done)
    case ReleaseName(name) =>
      var (u, found) := TxnDelete(t, name);
      if found then (u, Done) else (t, NotFound)
  }

  ghost function Run(t: Root, ops: seq<Op>): Root
    decreases |ops|
  {
    if ops == [] then t else Step(Run(t, ops[..|ops| - 1]), ops[|ops| - 1]).0
  }

  // ---------------------------------------------------------------------------------------
  // The simple store it refines: one owner per name, one record per ID

  datatype Db = Db(owner: map<string, string>, records: map<string, Record>)

  const EmptyDb := Db(map[], map[])

  function NamesOwnedBy(db: Db, id: string): set<string> {
    set n | n in db.owner && db.owner[n] == id
  }

  function DbStep(db: Db, op: Op): (Db, Outcome) {
    match op
    case Save(r) => (db.(records := db.records[r.id := r]), Done)
    case Delete(id) =>
      (Db(db.owner - NamesOwnedBy(db, id), db.records - {id}), Done)
    case ReserveName(name, id) =>
      if name !in db.owner then (db.(owner := db.owner[name := id]), Done)
      else (db, if db.owner[name] == id then Done else NameReserved)
    case ReleaseName(name) =>
      if name in db.owner then (db.(owner := db.owner - {name}), Done) else (db, NotFound)
  }

  function DbRun(db: Db, ops: seq<Op>): Db
    decreases |ops|
  {
    if ops == [] then db else DbStep(DbRun(db, ops[..|ops| - 1]), ops[|ops| - 1]).0
  }

  /** The container IDs an operation mentions contain no NUL. */
  predicate NulFreeIds(op: Op) {
    match op
    case Save(r) => true
    case Delete(id) => NulFree(id)
    case ReserveName(_, id) => NulFree(id)
    case ReleaseName(_) => true
  }

  ghost predicate ByNameRep(index: map<string, Assoc>, owner: map<string, string>) {
    && (forall k :: k in index ==>
          k == Terminated(index[k].name) && index[k].name in owner && owner[index[k].name] == index[k].containerID)
    && (forall n {:trigger Terminated(n)} ::
          n in owner ==> Terminated(n) in index && index[Terminated(n)] == Assoc(n, owner[n]))
  }

  ghost predicate ByContainerRep(index: map<string, Assoc>, owner: map<string, string>) {
    && (forall k :: k in index ==>
          k == ContainerKey(index[k]) && index[k].name in owner && owner[index[k].name] == index[k].containerID)
    && (forall n {:trigger ContainerKey(Assoc(n, owner[n]))} :: n in owner ==>
          ContainerKey(Assoc(n, owner[n])) in index && index[ContainerKey(Assoc(n, owner[n]))] == Assoc(n, owner[n]))
    && (forall n {:trigger NulFree(owner[n])} :: n in owner ==> NulFree(owner[n]))
  }

  ghost predicate RecordsRep(index: map<string, Record>, records: map<string, Record>) {
    && (forall k :: k in index ==> k == Terminated(index[k].id) && index[k].id in records)
    && (forall id {:trigger Terminated(id)} :: id in records ==>
          records[id].id == id && Terminated(id) in index && index[Terminated(id)] == records[id])
  }

  /** The two names indexes and the containers index hold exactly the simple store. */
  ghost predicate Represents(t: Root, db: Db) {
    ByNameRep(t.byName, db.owner) && ByContainerRep(t.byContainer, db.owner) && RecordsRep(t.containers, db.records)
  }

  // ---------------------------------------------------------------------------------------
  // Refinement

  lemma ByNameInsert(index: map<string, Assoc>, owner: map<string, string>, name: string, id: string)
    requires ByNameRep(index, owner)
    ensures ByNameRep(index[Terminated(name) := Assoc(name, id)], owner[name := id])
  {
    forall n | n in owner && n != name ensures Terminated(n) != Terminated(name) {
      if Terminated(n) == Terminated(name) { TerminatedInjective(n, name); }
    }
  }

  lemma ByContainerInsert(index: map<string, Assoc>, owner: map<string, string>, name: string, id: string)
    requires ByContainerRep(index, owner) && NulFree(id) && name !in owner
    ensures ByContainerRep(index[ContainerKey(Assoc(name, id)) := Assoc(name, id)], owner[name := id])
  {
    var a := Assoc(name, id);
    forall n | n in owner ensures ContainerKey(Assoc(n, owner[n])) != ContainerKey(a) {
      if ContainerKey(Assoc(n, owner[n])) == ContainerKey(a) {
        ContainerKeyInjective(Assoc(n, owner[n]), a);
      }
    }
  }

  lemma ByNameDelete(index: map<string, Assoc>, owner: map<string, string>, name: string)
    requires ByNameRep(index, owner)
    ensures ByNameRep(index - {Terminated(name)}, owner - {name})
  {
    forall n | n in owner && n != name ensures Terminated(n) != Terminated(name) {
      if Terminated(n) == Terminated(name) { TerminatedInjective(n, name); }
    }
  }

  lemma ByContainerDelete(index: map<string, Assoc>, owner: map<string, string>, name: string)
    requires ByContainerRep(index, owner) && name in owner
    ensures ByContainerRep(index - {ContainerKey(Assoc(name, owner[name]))}, owner - {name})
  {
    var a := Assoc(name, owner[name]);
    forall n | n in owner && n != name ensures ContainerKey(Assoc(n, owner[n])) != ContainerKey(a) {
      assert index[ContainerKey(Assoc(n, owner[n]))].name == n;
    }
  }

  lemma RecordsInsert(index: map<string, Record>, records: map<string, Record>, r: Record)
    requires RecordsRep(index, records)
    ensures RecordsRep(index[Terminated(r.id) := r], records[r.id := r])
  {
    forall id | id in records && id != r.id ensures Terminated(id) != Terminated(r.id) {
      if Terminated(id) == Terminated(r.id) { TerminatedInjective(id, r.id); }
    }
  }

  lemma RecordsDelete(index: map<string, Record>, records: map<string, Record>, id: string)
    requires RecordsRep(index, records)
    ensures RecordsRep(index - {Terminated(id)}, records - {id})
  {
    forall i | i in records && i != id ensures Terminated(i) != Terminated(id) {
      if Terminated(i) == Terminated(id) { TerminatedInjective(i, id); }
    }
  }

  lemma LookupName(index: map<string, Assoc>, owner: map<string, string>, name: string)
    requires ByNameRep(index, owner)
    ensures Terminated(name) in index <==> name in owner
    ensures name in owner ==> index[Terminated(name)] == Assoc(name, owner[name])
  {
    if Terminated(name) in index {
      TerminatedInjective(index[Terminated(name)].name, name);
    }
  }

  /** Inserting reserves the name; for a name that exists it moves the name to its new owner. */
  lemma InsertRefines(t: Root, db: Db, name: string, id: string)
    requires Represents(t, db) && NulFree(id)
    ensures Represents(TxnInsert(t, Assoc(name, id)), db.(owner := db.owner[name := id]))
  {
    var a := Assoc(name, id);
    LookupName(t.byName, db.owner, name);
    ByNameInsert(t.byName, db.owner, name, id);
    if name !in db.owner {
      ByContainerInsert(t.byContainer, db.owner, name, id);
      assert t.byContainer - {} == t.byContainer;
    } else if db.owner[name] == id {
      assert ContainerKey(Assoc(name, db.owner[name])) in t.byContainer;
      assert t.byContainer[ContainerKey(a) := a] == t.byContainer;
      assert t.byContainer - {} == t.byContainer;
      assert db.owner[name := id] == db.owner;
    } else {
      var was := Assoc(name, db.owner[name]);
      assert NulFree(db.owner[name]);
      if ContainerKey(was) == ContainerKey(a) { ContainerKeyInjective(was, a); }
      ByContainerDelete(t.byContainer, db.owner, name);
      ByContainerInsert(t.byContainer - {ContainerKey(was)}, db.owner - {name}, name, id);
      assert (db.owner - {name})[name := id] == db.owner[name := id];
    }
  }

  lemma DeleteRefines(t: Root, db: Db, name: string)
    requires Represents(t, db)
    ensures TxnDelete(t, name).1 == (name in db.owner)
    ensures Represents(TxnDelete(t, name).0, db.(owner := db.owner - {name}))
  {
    LookupName(t.byName, db.owner, name);
    if name in db.owner {
      ByNameDelete(t.byName, db.owner, name);
      ByContainerDelete(t.byContainer, db.owner, name);
    } else {
      assert db.owner - {name} == db.owner;
    }
  }

  lemma {:induction false} DeleteAllRefines(t: Root, db: Db, names: seq<string>)
    requires Represents(t, db)
    ensures Represents(TxnDeleteAll(t, names), db.(owner := db.owner - (set n | n in names)))
    decreases |names|
  {
    if names == [] {
      assert db.owner - (set n | n in names) == db.owner;
    } else {
      DeleteRefines(t, db, names[0]);
      var u := TxnDelete(t, names[0]).0;
      var du := db.(owner := db.owner - {names[0]});
      DeleteAllRefines(u, du, names[1..]);
      assert (set n | n in names) == {names[0]} + (set n | n in names[1..]);
      assert du.owner - (set n | n in names[1..]) == db.owner - (set n | n in names);
    }
  }

  /**
   The two names indexes agree: the prefix scan returns exactly the names whose owner is the
   given ID, each once, in byte order. Only the IDs have to be free of NUL.
   */
  lemma ScanIsExact(t: Root, db: Db, id: string)
    requires Represents(t, db) && NulFree(id)
    ensures forall n :: n in NamesOf(t, id) <==> n in NamesOwnedBy(db, id)
    ensures Ascends(NamesOf(t, id))
  {
    var ks := InOrder(ScanKeys(t, Terminated(id)));
    var names := NamesOf(t, id);
    forall i | 0 <= i < |ks|
      ensures names[i] in NamesOwnedBy(db, id) && ks[i] == Terminated(id) + Terminated(names[i])
    {
      assert ks[i] in ScanKeys(t, Terminated(id));
      PrefixSelectsId(id, t.byContainer[ks[i]]);
    }
    forall n | n in NamesOwnedBy(db, id) ensures n in names {
      var a := Assoc(n, id);
      PrefixSelectsId(id, a);
      assert ContainerKey(a) in ks;
      var i :| 0 <= i < |ks| && ks[i] == ContainerKey(a);
      assert names[i] == n;
    }
    forall i, j | 0 <= i < j < |names| ensures Less(names[i], names[j]) {
      LessUnderPrefix(Terminated(id), Terminated(names[i]), Terminated(names[j]));
      LessUnderTerminator(names[i], names[j]);
    }
  }

  /**
   Of two names in the answer the earlier one is a proper beginning of the later one, or has the
   smaller byte where they first differ.
   */
  lemma NamesInByteOrder(t: Root, db: Db, id: string, i: nat, j: nat)
    requires Represents(t, db) && NulFree(id) && i < j < |NamesOf(t, id)|
    ensures var a, b := NamesOf(t, id)[i], NamesOf(t, id)[j];
            || (|a| < |b| && a == b[..|a|])
            || (exists k :: 0 <= k < |a| && k < |b| && a[..k] == b[..k] && a[k] < b[k])
  {
    ScanIsExact(t, db, id);
    LessIff(NamesOf(t, id)[i], NamesOf(t, id)[j]);
  }

  /** The scan finds a name exactly if the table gives it to the ID. */
  lemma ScanFindsOwned(t: Root, db: Db, id: string, name: string)
    requires Represents(t, db) && NulFree(id)
    ensures name in NamesOf(t, id) <==> name in db.owner && db.owner[name] == id
  {
    ScanIsExact(t, db, id);
  }

  // ---------------------------------------------------------------------------------------
  // What the simple store does

  /** A free name becomes the ID's, its own stays, another's is refused; nothing else changes. */
  lemma ReserveNameMeans(db: Db, name: string, id: string)
    ensures var (next, r) := DbStep(db, ReserveName(name, id));
            && next.records == db.records
            && (name !in db.owner ==> r == Done && next.owner == db.owner[name := id])
            && (name in db.owner && db.owner[name] == id ==> r == Done && next.owner == db.owner)
            && (name in db.owner && db.owner[name] != id ==> r == NameReserved && next.owner == db.owner)
  {
  }

  lemma ReleaseNameMeans(db: Db, name: string)
    ensures var (next, r) := DbStep(db, ReleaseName(name));
            && next.records == db.records && name !in next.owner
            && (r == Done <==> name in db.owner) && (r == NotFound <==> name !in db.owner)
            && (forall n :: n in db.owner && n != name ==> n in next.owner && next.owner[n] == db.owner[n])
            && (forall n :: n in next.owner ==> n in db.owner)
  {
  }

  /** Saving and deleting touch one record; deleting also frees the names of the ID and no other. */
  lemma SaveAndDeleteMean(db: Db, r: Record, id: string)
    ensures DbStep(db, Save(r)) == (Db(db.owner, db.records[r.id := r]), Done)
    ensures var (next, o) := DbStep(db, Delete(id));
            && o == Done && next.records == db.records - {id}
            && (forall n :: n in next.owner <==> n in db.owner && db.owner[n] != id)
            && (forall n :: n in next.owner ==> next.owner[n] == db.owner[n])
  {
  }

  /** One committed operation does to the indexes what the simple step does to the simple store. */
  lemma StepRefines(t: Root, db: Db, op: Op)
    requires Represents(t, db) && NulFreeIds(op)
    ensures Represents(Step(t, op).0, DbStep(db, op).0)
    ensures Step(t, op).1 == DbStep(db, op).1
  {
    match op
    case Save(r) =>
      RecordsInsert(t.containers, db.records, r);
    case Delete(id) =>
      var names := NamesOf(t, id);
      ScanIsExact(t, db, id);
      DeleteAllRefines(t, db, names);
      assert (set n | n in names) == NamesOwnedBy(db, id);
      RecordsDelete(TxnDeleteAll(t, names).containers, db.records, id);
    case ReserveName(name, id) =>
      LookupName(t.byName, db.owner, name);
      if name !in db.owner {
        InsertRefines(t, db, name, id);
      }
    case ReleaseName(name) =>
      DeleteRefines(t, db, name);
  }

  /** In every state reachable by Save, Delete, ReserveName and ReleaseName the indexes agree. */
  lemma {:induction false} RunRefines(ops: seq<Op>)
    requires forall i | 0 <= i < |ops| :: NulFreeIds(ops[i])
    ensures Represents(Run(EmptyRoot, ops), DbRun(EmptyDb, ops))
    decreases |ops|
  {
    if ops != [] {
      RunRefines(ops[..|ops| - 1]);
      StepRefines(Run(EmptyRoot, ops[..|ops| - 1]), DbRun(EmptyDb, ops[..|ops| - 1]), ops[|ops| - 1]);
    }
  }

  /** A container ID for which every reachable store answers getNames correctly. */
  ghost predicate ScansExactly(id: string) {
    forall ops: seq<Op> | forall i | 0 <= i < |ops| :: NulFreeIds(ops[i]) ::
      forall n :: n in NamesOf(Run(EmptyRoot, ops), id) <==> n in NamesOwnedBy(DbRun(EmptyDb, ops), id)
  }

  lemma NulSplits(id: string) returns (a: string, b: string)
    requires !NulFree(id)
    ensures NulFree(a) && id == a + [NUL] + b
    decreases |id|
  {
    if id[0] == NUL {
      a, b := "", id[1..];
    } else {
      var c, d := NulSplits(id[1..]);
      a, b := [id[0]] + c, d;
    }
  }

  lemma SingletonRun(t: Root, db: Db, op: Op)
    ensures Run(t, [op]) == Step(t, op).0
    ensures DbRun(db, [op]) == DbStep(db, op).0
  {
    var ops := [op];
    assert ops[..|ops| - 1] == [];
    assert Run(t, ops[..|ops| - 1]) == t && DbRun(db, ops[..|ops| - 1]) == db;
  }

  /** Getting every answer right is the same as asking for an ID without NUL. */
  lemma ScansExactlyIffNulFree(id: string)
    ensures ScansExactly(id) <==> NulFree(id)
  {
    if NulFree(id) {
      forall ops: seq<Op> | forall i | 0 <= i < |ops| :: NulFreeIds(ops[i])
        ensures forall n :: n in NamesOf(Run(EmptyRoot, ops), id) <==> n in NamesOwnedBy(DbRun(EmptyDb, ops), id)
      {
        RunRefines(ops);
        ScanIsExact(Run(EmptyRoot, ops), DbRun(EmptyDb, ops), id);
      }
    } else {
      var a, b := NulSplits(id);
      var op := ReserveName(b, a);
      var ops := [op];
      assert ops[..0] == [] && ops[0] == op;
      SingletonRun(EmptyRoot, EmptyDb, op);
      var t, db := Step(EmptyRoot, op).0, DbStep(EmptyDb, op).0;
      var key := ContainerKey(Assoc(b, a));
      assert key == Terminated(id);
      assert ScanKeys(t, Terminated(id)) == {key};
      var ks := InOrder(ScanKeys(t, Terminated(id)));
      assert key in ks;
      var i :| 0 <= i < |ks| && ks[i] == key;
      assert NamesOf(t, id)[i] == b;
      assert b in NamesOf(t, id) && b !in NamesOwnedBy(db, id);
      assert forall i | 0 <= i < |ops| :: NulFreeIds(ops[i]);
    }
  }

  /** A name keeps its owner until it is released or its owner is deleted. */
  lemma {:induction false} OwnerIsStable(db: Db, ops: seq<Op>, name: string, id: string)
    requires name in db.owner && db.owner[name] == id
    requires ReleaseName(name) !in ops && Delete(id) !in ops
    ensures name in DbRun(db, ops).owner && DbRun(db, ops).owner[name] == id
    decreases |ops|
  {
    if ops != [] {
      OwnerIsStable(db, ops[..|ops| - 1], name, id);
      assert ops[|ops| - 1] in ops;
    }
  }

  // ---------------------------------------------------------------------------------------
  // Views

  datatype Event = Commit(op: Op) | OpenView

  /** The database together with every view opened so far. */
  datatype Sys = Sys(root: Root, views: seq<Root>)

  ghost function SysStep(s: Sys, e: Event): Sys {
    match e
    case Commit(op) => s.(root := Step(s.root, op).0)
    case OpenView => s.(views := s.views + [s.root])
  }

  ghost function SysRun(s: Sys, es: seq<Event>): Sys
    decreases |es|
  {
    if es == [] then s else SysStep(SysRun(s, es[..|es| - 1]), es[|es| - 1])
  }

  function Commits(es: seq<Event>): seq<Op>
    decreases |es|
  {
    if es == [] then []
    else Commits(es[..|es| - 1]) + if es[|es| - 1].Commit? then [es[|es| - 1].op] else []
  }

  function Opened(es: seq<Event>): nat
    decreases |es|
  {
    if es == [] then 0 else Opened(es[..|es| - 1]) + if es[|es| - 1].OpenView? then 1 else 0
  }

  lemma {:induction false} SysRunTracks(es: seq<Event>)
    ensures SysRun(Sys(EmptyRoot, []), es).root == Run(EmptyRoot, Commits(es))
    ensures |SysRun(Sys(EmptyRoot, []), es).views| == Opened(es)
    decreases |es|
  {
    if es != [] {
      var init := es[..|es| - 1];
      SysRunTracks(init);
      var last := es[|es| - 1];
      if last.Commit? {
        var ops := Commits(es);
        assert ops == Commits(init) + [last.op];
        assert ops[..|ops| - 1] == Commits(init) && ops[|ops| - 1] == last.op;
      } else {
        assert Commits(es) == Commits(init);
      }
    }
  }

  lemma {:induction false} CommitsKeepNulFree(es: seq<Event>)
    requires forall i | 0 <= i < |es| && es[i].Commit? :: NulFreeIds(es[i].op)
    ensures forall i | 0 <= i < |Commits(es)| :: NulFreeIds(Commits(es)[i])
    decreases |es|
  {
    if es != [] {
      CommitsKeepNulFree(es[..|es| - 1]);
    }
  }

  lemma {:induction false} ViewsOnlyGrow(es: seq<Event>, k: nat)
    requires k <= |es|
    ensures SysRun(Sys(EmptyRoot, []), es[..k]).views <= SysRun(Sys(EmptyRoot, []), es).views
    decreases |es| - k
  {
    if k == |es| {
      assert es[..k] == es;
    } else {
      ViewsOnlyGrow(es, k + 1);
      assert es[..k + 1][..k] == es[..k];
    }
  }

  /**
   Views are isolated: the view opened by event k goes on representing the simple store made by
   the operations committed before k, whatever is committed during the rest of the run.
   */
  lemma ViewIsolation(es: seq<Event>, k: nat)
    requires k < |es| && es[k].OpenView?
    requires forall i | 0 <= i < |es| && es[i].Commit? :: NulFreeIds(es[i].op)
    ensures Opened(es[..k]) < |SysRun(Sys(EmptyRoot, []), es).views|
    ensures Represents(SysRun(Sys(EmptyRoot, []), es).views[Opened(es[..k])], DbRun(EmptyDb, Commits(es[..k])))
  {
    SysRunTracks(es[..k]);
    CommitsKeepNulFree(es[..k]);
    RunRefines(Commits(es[..k]));
    assert es[..k + 1][..k] == es[..k];
    ViewsOnlyGrow(es, k + 1);
  }

  // ---------------------------------------------------------------------------------------
  // The store object and its views

  class View {
    const root: Root

    constructor (root: Root)
      ensures this.root == root
    {
      this.root := root;
    }

    method GetNames(id: string) returns (names: seq<string>)
      ensures names == NamesOf(root, id)
    {
      var ks := Walk(ScanKeys(root, Terminated(id)));
      names := [];
      for i := 0 to |ks|
        invariant |names| == i
        invariant forall j | 0 <= j < i :: ks[j] in root.byContainer && names[j] == root.byContainer[ks[j]].name
      {
        assert ks[i] in ScanKeys(root, Terminated(id));
        names := names + [root.byContainer[ks[i]].name];
      }
    }

    /** The owner of a name, in terms of whatever simple store the view represents. */
    method GetID(name: string, ghost db: Db) returns (r: Option<string>)
      requires Represents(root, db)
      ensures r == if name in db.owner then Some(db.owner[name]) else None
    {
      var key := Terminated(name);
      if key in root.byName {
        TerminatedInjective(root.byName[key].name, name);
        r := Some(root.byName[key].containerID);
      } else {
        r := None;
      }
    }

    method Get(id: string, ghost db: Db) returns (r: Option<Snapshot>)
      requires Represents(root, db)
      ensures r.Some? <==> id in db.records
      ensures r.Some? ==> r.value.container == db.records[id] && r.value.names == NamesOf(root, id)
    {
      var key := Terminated(id);
      if key in root.containers {
        TerminatedInjective(root.containers[key].id, id);
        var names := GetNames(id);
        r := Some(Snapshot(root.containers[key], names));
      } else {
        r := None;
      }
    }

    /** Every registered name, grouped by container: the exact inverse of GetID. */
    method GetAllNames(ghost db: Db) returns (out: map<string, seq<string>>)
      requires Represents(root, db)
      ensures forall id :: id in out <==> exists n :: n in db.owner && db.owner[n] == id
      ensures forall id, n :: id in out ==> (n in out[id] <==> n in db.owner && db.owner[n] == id)
      ensures forall id :: id in out ==> out[id] == NamesOf(root, id)
    {
      var ks := Walk(root.byContainer.Keys);
      out := Group(ks);
      GroupsAreExact(root, db, ks, out);
    }

    /** The iteration of GetAllNames over the walked keys. */
    method Group(ks: seq<string>) returns (out: map<string, seq<string>>)
      requires forall k | k in ks :: k in root.byContainer
      ensures Grouped(root, ks, out)
    {
      out := map[];
      for i := 0 to |ks|
        invariant Grouped(root, ks[..i], out)
      {
        assert ks[i] in ks;
        var a := root.byContainer[ks[i]];
        GroupedAppend(root, ks[..i], ks[i], out);
        assert ks[..i + 1] == ks[..i] + [ks[i]];
        out := out[a.containerID := (if a.containerID in out then out[a.containerID] else []) + [a.name]];
      }
      assert ks[..|ks|] == ks;
    }
  }

  /** The names belonging to an ID among the given keys, in the order of the keys. */
  ghost function NamesAmong(t: Root, ks: seq<string>, id: string): seq<string>
    decreases |ks|
  {
    if ks == [] then [] else
      var k := ks[|ks| - 1];
      NamesAmong(t, ks[..|ks| - 1], id)
      + if k in t.byContainer && t.byContainer[k].containerID == id then [t.byContainer[k].name] else []
  }

  /** The walked keys, grouped by container ID, with no empty group. */
  ghost predicate Grouped(t: Root, ks: seq<string>, out: map<string, seq<string>>) {
    forall id :: if id in out then out[id] == NamesAmong(t, ks, id) && out[id] != [] else NamesAmong(t, ks, id) == []
  }

  lemma GroupedAppend(t: Root, ks: seq<string>, k: string, out: map<string, seq<string>>)
    requires Grouped(t, ks, out) && k in t.byContainer
    ensures var a := t.byContainer[k];
            var held := if a.containerID in out then out[a.containerID] else [];
            Grouped(t, ks + [k], out[a.containerID := held + [a.name]])
  {
    assert (ks + [k])[..|ks|] == ks;
  }

  lemma {:induction false} AmongSound(t: Root, db: Db, ks: seq<string>, id: string)
    requires Represents(t, db) && Ascends(ks)
    requires forall k | k in ks :: k in t.byContainer
    ensures forall n :: n in NamesAmong(t, ks, id) <==>
                        n in NamesOwnedBy(db, id) && ContainerKey(Assoc(n, id)) in ks
    ensures Ascends(NamesAmong(t, ks, id))
    decreases |ks|
  {
    if ks != [] {
      var init, k := ks[..|ks| - 1], ks[|ks| - 1];
      assert ks == init + [k];
      AmongSound(t, db, init, id);
      assert k in ks;
      var a := t.byContainer[k];
      if a.containerID == id {
        var before := NamesAmong(t, init, id);
        forall i | 0 <= i < |before| ensures Less(before[i], a.name) {
          assert before[i] in before;
          var j :| 0 <= j < |init| && init[j] == ContainerKey(Assoc(before[i], id));
          assert Less(ks[j], k);
          LessUnderPrefix(Terminated(id), Terminated(before[i]), Terminated(a.name));
          LessUnderTerminator(before[i], a.name);
        }
      }
      forall n | n in NamesOwnedBy(db, id) && ContainerKey(Assoc(n, id)) == k
        ensures a == Assoc(n, id)
      {
      }
    }
  }

  lemma WalkIsExact(t: Root, db: Db, ks: seq<string>, id: string)
    requires Represents(t, db) && ks == InOrder(t.byContainer.Keys)
    ensures forall n :: n in NamesAmong(t, ks, id) <==> n in NamesOwnedBy(db, id)
    ensures Ascends(NamesAmong(t, ks, id))
  {
    AmongSound(t, db, ks, id);
  }

  lemma GroupsAreExact(t: Root, db: Db, ks: seq<string>, out: map<string, seq<string>>)
    requires Represents(t, db) && ks == InOrder(t.byContainer.Keys)
    requires Grouped(t, ks, out)
    ensures forall id :: id in out <==> exists n :: n in db.owner && db.owner[n] == id
    ensures forall id, n :: id in out ==> (n in out[id] <==> n in db.owner && db.owner[n] == id)
    ensures forall id :: id in out ==> out[id] == NamesOf(t, id)
  {
    forall id
      ensures id in out <==> exists n :: n in db.owner && db.owner[n] == id
      ensures id in out ==> forall n :: n in out[id] <==> n in db.owner && db.owner[n] == id
      ensures id in out ==> out[id] == NamesOf(t, id)
    {
      WalkIsExact(t, db, ks, id);
      if id in out {
        assert out[id][0] in NamesOwnedBy(db, id);
        ScanIsExact(t, db, id);
        AscendingUnique(out[id], NamesOf(t, id));
      } else {
        assert forall n | n in db.owner && db.owner[n] == id :: n in NamesOwnedBy(db, id);
      }
    }
  }

  class MemDB {
    var root: Root

    constructor ()
      ensures root == EmptyRoot
    {
      root := EmptyRoot;
    }

    method Snapshot() returns (v: View)
      ensures v.root == root && fresh(v)
    {
      v := new View(root);
    }

    method Save(r: Record)
      modifies this
      ensures root == Step(old(root), Op.Save(r)).0
    {
      var txn := root;
      txn := txn.(containers := txn.containers[Terminated(r.id) := r]);
      root := txn;
    }

    method Delete(id: string)
      modifies this
      ensures root == Step(old(root), Op.Delete(id)).0
    {
      var txn := root;
      var view := new View(txn);
      var names := view.GetNames(id);
      for i := 0 to |names|
        invariant TxnDeleteAll(txn, names[i..]) == TxnDeleteAll(old(root), names)
        invariant root == old(root)
      {
        assert names[i..][1..] == names[i + 1..];
        txn := TxnDelete(txn, names[i]).0;
      }
      root := txn.(containers := txn.containers - {Terminated(id)});
    }

    method ReserveName(name: string, id: string) returns (r: Outcome)
      modifies this
      ensures (root, r) == Step(old(root), Op.ReserveName(name, id))
      ensures r != Done ==> root == old(root)
    {
      var txn := root;
      var key := Terminated(name);
      if key in txn.byName {
        if txn.byName[key].containerID != id {
          return NameReserved;
        }
        return Done;
      }
      txn := TxnInsert(txn, Assoc(name, id));
      root := txn;
      r := Done;
    }

    method ReleaseName(name: string) returns (r: Outcome)
      modifies this
      ensures (root, r) == Step(old(root), Op.ReleaseName(name))
      ensures r != Done ==> root == old(root)
    {
      var (txn, found) := TxnDelete(root, name);
      if !found {
        return NotFound;
      }
      root := txn;
      r := Done;
    }
  }
}
