/**
 Names, links and the container store under registration and removal: registerLink
 (daemon/daemon.go), rmLink and cleanupContainer (daemon/delete.go), GetContainer and Register
 (daemon/container.go).

 Each registration or removal step is atomic; LinkRaces takes them apart. Renames are not steps.
 */
module Registries {
  import opened Wrappers
  import opened ViewDb
  import opened LinkIndexes

  // ---------------------------------------------------------------------------------------
  // Link names as paths

  /** The position of the last slash, or -1. */
  function LastSlash(s: string): (i: int)
    ensures -1 <= i < |s|
    ensures i >= 0 ==> s[i] == '/'
    ensures forall j | i < j < |s| :: s[j] != '/'
    ensures i == -1 <==> '/' !in s
  {
    if s == "" then -1
    else if s[|s| - 1] == '/' then |s| - 1
    else LastSlash(s[..|s| - 1])
  }

  /** path.Join of a clean container name and an alias made of plain segments. */
  function Join(parentName: string, alias: string): string { parentName + "/" + alias }

  /** The directory part of a name without its trailing slash: the parent's name. */
  function ParentName(name: string): string
    requires LastSlash(name) >= 0
  {
    name[..LastSlash(name)]
  }

  function FullName(name: string): string { if name != "" && name[0] == '/' then name else "/" + name }

  predicate SlashFree(alias: string) { '/' !in alias }

  /** A container's own name: one leading slash and no other. */
  predicate OwnName(name: string) { LastSlash(name) == 0 }

  lemma JoinSplits(parentName: string, alias: string)
    requires SlashFree(alias)
    ensures LastSlash(Join(parentName, alias)) == |parentName|
    ensures ParentName(Join(parentName, alias)) == parentName
  {
    var n, i := Join(parentName, alias), LastSlash(Join(parentName, alias));
    assert n[|parentName|] == '/';
    assert forall j | |parentName| < j < |n| :: n[j] == alias[j - |parentName| - 1];
  }

  // ---------------------------------------------------------------------------------------
  // State and steps

  /** The names table, the link maps, the ID store, and each live container's own name. */
  datatype Reg = Reg(db: Db, links: Links, store: set<string>, cname: map<string, string>)

  const EmptyReg := Reg(EmptyDb, NoLinks, {}, map[])

  datatype RegStep =
    | NewContainer(c: string, name: string)
    | RegisterLink(parent: string, child: string, alias: string)
    | Publish(record: Record)
    | RemoveLink(c: string, name: string)     // for the container a lookup returned earlier
    | Cleanup(c: string)

  /** The registered IDs that begin with the text. */
  function WithPrefix(store: set<string>, given: string): set<string> { set id | id in store && given <= id }

  /** Which container a full ID, a name or a unique beginning of an ID denotes, in this order. */
  ghost function Lookup(reg: Reg, given: string): Option<string> {
    if given == "" then None
    else if given in reg.store then Some(given)
    else if FullName(given) in reg.db.owner && reg.db.owner[FullName(given)] in reg.store
      then Some(reg.db.owner[FullName(given)])
    else if |WithPrefix(reg.store, given)| == 1
      then var id :| id in WithPrefix(reg.store, given); Some(id)
    else None
  }

  lemma TwoWithPrefix(store: set<string>, given: string, a: string, b: string)
    requires a in WithPrefix(store, given) && b in WithPrefix(store, given) && a != b
    ensures |WithPrefix(store, given)| > 1
  {
    var rest := WithPrefix(store, given) - {a};
    assert b in rest && |rest| == |WithPrefix(store, given)| - 1;
  }

  datatype RmLinkError = DefaultLinkName | NoParent

  /** The ID to which the directory part of the name belongs, if rmLink gets that far. */
  function RmLinkTarget(reg: Reg, name: string): Result<string, RmLinkError> {
    if LastSlash(name) <= 0 then Err(DefaultLinkName)
    else if ParentName(name) !in reg.db.owner then Err(NoParent)
    else Ok(reg.db.owner[ParentName(name)])
  }

  function Next(reg: Reg, st: RegStep): Reg {
    match st
    case NewContainer(c, name) =>
      var (db, r) := DbStep(reg.db, ReserveName(name, c));
      if r.Done? then reg.(db := db, cname := reg.cname[c := name]) else reg
    case RegisterLink(p, ch, alias) =>
      if p !in reg.cname then reg else
        var full := Join(reg.cname[p], alias);
        var (db, r) := DbStep(reg.db, ReserveName(full, ch));
        if r.Done? then reg.(db := db, links := LinkIn(reg.links, p, ch, full)) else reg
    case Publish(r) =>
      reg.(store := reg.store + {r.id}, db := DbStep(reg.db, Save(r)).0)
    case RemoveLink(c, name) =>
      (match RmLinkTarget(reg, name)
       case Err(_) => reg
       case Ok(parent) =>
         var released := reg.(db := DbStep(reg.db, ReleaseName(name)).0);
         if parent in reg.store then released.(links := UnlinkIn(reg.links, name, c, parent)) else released)
    case Cleanup(c) =>
      var db := DbStep(reg.db, Delete(c)).0;
      Reg(db.(owner := db.owner - Children(reg.links, c).Keys), DeleteIn(reg.links, c),
          reg.store - {c}, reg.cname - {c})
  }

  /**
   What the callers guarantee of one step: new containers have a new ID and a slash-free name,
   links go from a live container to a registered one under a slash-free alias, and a reserved link
   name is removed only for its owner and while its parent is registered.
   */
  predicate Allowed(reg: Reg, st: RegStep) {
    match st
    case NewContainer(c, name) => c !in reg.cname && OwnName(name) && NulFree(c)
    case RegisterLink(p, ch, alias) => p in reg.cname && ch in reg.store && SlashFree(alias)
    case Publish(r) => r.id in reg.cname
    case RemoveLink(c, name) =>
      var t := RmLinkTarget(reg, name);
      t.Ok? && name in reg.db.owner ==> reg.db.owner[name] == c && t.value in reg.store
    case Cleanup(c) => NulFree(c)
  }

  ghost predicate AllowedRun(reg: Reg, steps: seq<RegStep>)
    decreases |steps|
  {
    steps == [] || (Allowed(reg, steps[0]) && AllowedRun(Next(reg, steps[0]), steps[1..]))
  }

  function RunOf(reg: Reg, steps: seq<RegStep>): Reg
    decreases |steps|
  {
    if steps == [] then reg else RunOf(Next(reg, steps[0]), steps[1..])
  }

  // ---------------------------------------------------------------------------------------
  // Invariant

  /** Each reverse edge is mirrored by a forward edge, and its name is reserved to the child. */
  ghost predicate EdgesReserved(reg: Reg) {
    forall ch, p, a :: Reverse(reg.links, ch, p, a) ==>
      Forward(reg.links, p, a, ch) && a in reg.db.owner && reg.db.owner[a] == ch
  }

  /** Every forward edge, stale or not, is a name under its live parent's own name. */
  ghost predicate EdgesUnderParent(reg: Reg) {
    forall p, a, ch :: Forward(reg.links, p, a, ch) ==>
      p in reg.cname && LastSlash(a) > 0 && ParentName(a) == reg.cname[p]
  }

  ghost predicate OwnNamesReserved(reg: Reg) {
    && (forall p :: p in reg.cname ==>
          NulFree(p) && OwnName(reg.cname[p]) && reg.cname[p] in reg.db.owner && reg.db.owner[reg.cname[p]] == p)
    && (forall n :: n in reg.db.owner ==> reg.db.owner[n] in reg.cname)
    && reg.store <= reg.cname.Keys
  }

  ghost predicate Inv(reg: Reg) {
    EdgesReserved(reg) && EdgesUnderParent(reg) && OwnNamesReserved(reg)
  }

  /** The name of a reverse edge determines its parent. */
  lemma NameDeterminesParent(reg: Reg, ch: string, p: string, a: string)
    requires Inv(reg) && Reverse(reg.links, ch, p, a)
    ensures LastSlash(a) > 0 && p in reg.cname && ParentName(a) == reg.cname[p]
    ensures ParentName(a) in reg.db.owner && reg.db.owner[ParentName(a)] == p
  {
    assert Forward(reg.links, p, a, ch);
  }

  /** The state after a link name was reserved and the link recorded. */
  function Linked(reg: Reg, p: string, ch: string, full: string): Reg {
    reg.(db := reg.db.(owner := reg.db.owner[full := ch]), links := LinkIn(reg.links, p, ch, full))
  }

  lemma LinkedKeepsEdges(reg: Reg, p: string, ch: string, full: string)
    requires EdgesReserved(reg) && (full in reg.db.owner ==> reg.db.owner[full] == ch)
    requires forall d, q | Reverse(reg.links, d, q, full) :: q == p
    ensures EdgesReserved(Linked(reg, p, ch, full))
  {
    LinkEdges(reg.links, p, ch, full);
  }

  lemma LinkedKeepsInv(reg: Reg, p: string, ch: string, full: string)
    requires Inv(reg) && p in reg.cname && ch in reg.cname
    requires LastSlash(full) > 0 && ParentName(full) == reg.cname[p]
    requires full in reg.db.owner ==> reg.db.owner[full] == ch
    ensures Inv(Linked(reg, p, ch, full))
  {
    forall d, q | Reverse(reg.links, d, q, full) ensures q == p {
      NameDeterminesParent(reg, d, q, full);
    }
    LinkedKeepsEdges(reg, p, ch, full);
    LinkEdges(reg.links, p, ch, full);
  }

  /** A link whose name can be reserved is reserved and recorded; otherwise nothing happens. */
  lemma RegisterLinkStep(reg: Reg, p: string, ch: string, alias: string)
    requires p in reg.cname
    ensures var full := Join(reg.cname[p], alias);
            Next(reg, RegisterLink(p, ch, alias)) ==
            if full in reg.db.owner && reg.db.owner[full] != ch then reg else Linked(reg, p, ch, full)
  {
    var full := Join(reg.cname[p], alias);
    if full in reg.db.owner && reg.db.owner[full] == ch {
      assert reg.db.owner[full := ch] == reg.db.owner;
    }
  }

  lemma RegisterLinkKeepsInv(reg: Reg, p: string, ch: string, alias: string)
    requires Inv(reg) && Allowed(reg, RegisterLink(p, ch, alias))
    ensures Inv(Next(reg, RegisterLink(p, ch, alias)))
  {
    var full := Join(reg.cname[p], alias);
    RegisterLinkStep(reg, p, ch, alias);
    if !(full in reg.db.owner && reg.db.owner[full] != ch) {
      JoinSplits(reg.cname[p], alias);
      assert |reg.cname[p]| > 0 && ch in reg.cname;
      LinkedKeepsInv(reg, p, ch, full);
    }
  }

  /** The check a caller would have to make on an alias: it is slash-free, or its name is taken. */
  lemma RegisterLinkKeepsInvIff(reg: Reg, p: string, ch: string, alias: string)
    requires Inv(reg) && p in reg.cname && ch in reg.store
    ensures var full := Join(reg.cname[p], alias);
            Inv(Next(reg, RegisterLink(p, ch, alias))) <==>
            SlashFree(alias) || (full in reg.db.owner && reg.db.owner[full] != ch)
  {
    var full := Join(reg.cname[p], alias);
    RegisterLinkStep(reg, p, ch, alias);
    if SlashFree(alias) {
      RegisterLinkKeepsInv(reg, p, ch, alias);
    } else if !(full in reg.db.owner && reg.db.owner[full] != ch) {
      SlashAliasLeavesParent(reg.cname[p], alias);
      LinkEdges(reg.links, p, ch, full);
      assert Forward(Linked(reg, p, ch, full).links, p, full, ch);
    }
  }

  lemma SlashAliasLeavesParent(parentName: string, alias: string)
    requires !SlashFree(alias)
    ensures LastSlash(Join(parentName, alias)) > |parentName|
    ensures ParentName(Join(parentName, alias)) != parentName
  {
    var j :| 0 <= j < |alias| && alias[j] == '/';
    assert Join(parentName, alias)[|parentName| + 1 + j] == '/';
  }

  /**
   Removing a link keeps every edge mirrored and reserved exactly when it fails, or each reverse
   edge with the name runs between the given container and the registered parent it resolves to.
   */
  lemma RemoveLinkKeepsEdgesIff(reg: Reg, c: string, name: string)
    requires EdgesReserved(reg)
    ensures var t := RmLinkTarget(reg, name);
            EdgesReserved(Next(reg, RemoveLink(c, name))) <==>
            t.Err? || forall d, q | Reverse(reg.links, d, q, name) :: d == c && q == t.value && q in reg.store
  {
    match RmLinkTarget(reg, name)
    case Err(_) =>
    case Ok(parent) =>
      var next := Next(reg, RemoveLink(c, name));
      UnlinkEdges(reg.links, name, c, parent);
      if d, q :| Reverse(reg.links, d, q, name) && !(d == c && q == parent && q in reg.store) {
        assert Reverse(next.links, d, q, name) && name !in next.db.owner;
      }
  }

  /**
   In a registry under the invariant the name determines the parent, which leaves two conditions:
   the parent is registered, and the container is still the one that the name belongs to.
   */
  lemma RemoveLinkKeepsInvIff(reg: Reg, c: string, name: string)
    requires Inv(reg)
    ensures var t := RmLinkTarget(reg, name);
            Inv(Next(reg, RemoveLink(c, name))) <==>
            t.Err? || forall d, q | Reverse(reg.links, d, q, name) :: d == c && t.value in reg.store
  {
    match RmLinkTarget(reg, name)
    case Err(_) =>
    case Ok(parent) =>
      forall d, q | Reverse(reg.links, d, q, name) ensures q == parent {
        NameDeterminesParent(reg, d, q, name);
      }
      RemoveLinkKeepsEdgesIff(reg, c, name);
      UnlinkEdges(reg.links, name, c, parent);
      var next := Next(reg, RemoveLink(c, name));
      if EdgesReserved(next) {
        ReleasedKeepsInv(reg, next, name);
      }
  }

  /** With the lookup in the same step only the registration of the parent matters. */
  lemma FreshRemovalKeepsInvIff(reg: Reg, given: string, c: string)
    requires Inv(reg) && Lookup(reg, given) == Some(c) && (forall id | id in reg.store :: SlashFree(id))
    ensures var name := FullName(given);
            var t := RmLinkTarget(reg, name);
            Inv(Next(reg, RemoveLink(c, name))) <==>
            t.Err? || t.value in reg.store || forall d, q :: !Reverse(reg.links, d, q, name)
  {
    var name := FullName(given);
    RemoveLinkKeepsInvIff(reg, c, name);
    if c != At(reg.db.owner, name, "") {
      assert given <= c && SlashFree(given);
      assert forall j | 0 < j < |name| :: name[j] == given[j - 1];
      assert RmLinkTarget(reg, name).Err?;
    } else {
      assert forall d, q | Reverse(reg.links, d, q, name) :: d == c;
    }
  }

  /** Releasing a link name touches no own name, and unlinking adds no edge. */
  lemma ReleasedKeepsInv(reg: Reg, next: Reg, name: string)
    requires Inv(reg) && EdgesReserved(next) && LastSlash(name) > 0
    requires next.db.owner == reg.db.owner - {name} && next.cname == reg.cname && next.store == reg.store
    requires forall q, a, d | Forward(next.links, q, a, d) :: Forward(reg.links, q, a, d)
    ensures Inv(next)
  {
  }

  lemma CleanupKeepsInv(reg: Reg, c: string)
    requires Inv(reg)
    ensures Inv(Next(reg, Cleanup(c)))
  {
    var next := Next(reg, Cleanup(c));
    CleanupCuts(reg, c);
    forall d, q, a | Reverse(next.links, d, q, a)
      ensures Forward(next.links, q, a, d) && a in next.db.owner && next.db.owner[a] == d
    {
      NameDeterminesParent(reg, d, q, a);
      if a in Children(reg.links, c) {
        assert Forward(reg.links, c, a, Children(reg.links, c)[a]);
        assert false;
      }
    }
    forall p | p in next.cname ensures next.cname[p] in next.db.owner {
      if next.cname[p] in Children(reg.links, c) {
        assert Forward(reg.links, c, next.cname[p], Children(reg.links, c)[next.cname[p]]);
        assert false;
      }
    }
  }

  /** No edge that survives a cleanup touches the container, and surviving edges are old ones. */
  lemma CleanupCuts(reg: Reg, c: string)
    requires Inv(reg)
    ensures forall d, q, a :: Reverse(Next(reg, Cleanup(c)).links, d, q, a) <==>
                              Reverse(reg.links, d, q, a) && d != c && q != c
    ensures forall q, a, d :: Forward(Next(reg, Cleanup(c)).links, q, a, d) <==>
                              Forward(reg.links, q, a, d) && q != c
  {
    DeleteEdges(reg.links, c);
    forall d, a | Reverse(reg.links, d, c, a) ensures d in Children(reg.links, c).Values {
      assert Forward(reg.links, c, a, d);
    }
  }

  lemma NewContainerKeepsInv(reg: Reg, c: string, name: string)
    requires Inv(reg) && Allowed(reg, NewContainer(c, name))
    ensures Inv(Next(reg, NewContainer(c, name)))
  {
    if name !in reg.db.owner {
      NamedKeepsInv(reg, c, name);
    }
  }

  /** A new container under a free name. */
  lemma NamedKeepsInv(reg: Reg, c: string, name: string)
    requires Inv(reg) && c !in reg.cname && OwnName(name) && NulFree(c) && name !in reg.db.owner
    ensures Inv(reg.(db := reg.db.(owner := reg.db.owner[name := c]), cname := reg.cname[c := name]))
  {
    var next := reg.(db := reg.db.(owner := reg.db.owner[name := c]), cname := reg.cname[c := name]);
    assert next.links == reg.links;
    assert EdgesReserved(next);
    assert EdgesUnderParent(next);
    forall p | p in next.cname
      ensures NulFree(p) && OwnName(next.cname[p]) && next.cname[p] in next.db.owner
              && next.db.owner[next.cname[p]] == p
    {
      assert p == c || (p in reg.cname && next.cname[p] == reg.cname[p]);
    }
  }

  lemma PublishKeepsInv(reg: Reg, r: Record)
    requires Inv(reg) && Allowed(reg, Publish(r))
    ensures Inv(Next(reg, Publish(r)))
  {
  }

  lemma StepKeepsInv(reg: Reg, st: RegStep)
    requires Inv(reg) && Allowed(reg, st)
    ensures Inv(Next(reg, st))
  {
    match st
    case NewContainer(c, name) => NewContainerKeepsInv(reg, c, name);
    case RegisterLink(p, ch, alias) => RegisterLinkKeepsInv(reg, p, ch, alias);
    case Publish(r) => PublishKeepsInv(reg, r);
    case RemoveLink(c, name) => RemoveLinkKeepsInvIff(reg, c, name);
    case Cleanup(c) => CleanupKeepsInv(reg, c);
  }

  /**
   Over every run of registration and removal steps, each reverse edge is mirrored by its
   forward edge and its link name stays reserved to the child.
   */
  lemma {:induction false} RunKeepsInv(reg: Reg, steps: seq<RegStep>)
    requires Inv(reg) && AllowedRun(reg, steps)
    ensures Inv(RunOf(reg, steps))
    decreases |steps|
  {
    if steps != [] {
      StepKeepsInv(reg, steps[0]);
      RunKeepsInv(Next(reg, steps[0]), steps[1..]);
    }
  }

  lemma ReachableLinksMirrored(steps: seq<RegStep>)
    requires AllowedRun(EmptyReg, steps)
    ensures var reg := RunOf(EmptyReg, steps);
            forall ch, p, a :: Reverse(reg.links, ch, p, a) ==>
              Forward(reg.links, p, a, ch) && a in reg.db.owner && reg.db.owner[a] == ch
  {
    RunKeepsInv(EmptyReg, steps);
  }

  /**
   After a cleanup nothing refers to the container: no name resolves to it, none of its link
   names is reserved, no reverse edge has it at either end, it is in neither store. The link names
   released were names under its own; every other name, record and own name is as before.
   */
  lemma CleanupIsComplete(reg: Reg, c: string)
    requires Inv(reg)
    ensures var next := Next(reg, Cleanup(c));
            && (forall n :: n in next.db.owner ==> next.db.owner[n] != c)
            && (forall a, d :: Forward(reg.links, c, a, d) ==> a !in next.db.owner)
            && (forall d, q, a :: Reverse(next.links, d, q, a) ==> d != c && q != c)
            && c !in next.store && c !in next.db.records && c !in next.cname
            && (forall n :: n in reg.db.owner && reg.db.owner[n] != c && n !in Children(reg.links, c) ==>
                  n in next.db.owner && next.db.owner[n] == reg.db.owner[n])
            && (forall n :: n in next.db.owner ==> n in reg.db.owner && next.db.owner[n] == reg.db.owner[n])
            && (forall id :: id in reg.db.records && id != c ==>
                  id in next.db.records && next.db.records[id] == reg.db.records[id])
            && (forall d, q, a :: Reverse(reg.links, d, q, a) && d != c && q != c ==> Reverse(next.links, d, q, a))
            && (forall p :: p in reg.cname && p != c ==>
                  p in next.cname && next.cname[p] in next.db.owner && next.db.owner[next.cname[p]] == p)
            && (forall n :: n in reg.db.owner && reg.db.owner[n] != c && n !in next.db.owner ==>
                  c in reg.cname && LastSlash(n) > 0 && ParentName(n) == reg.cname[c])
  {
    CleanupCuts(reg, c);
    CleanupKeepsInv(reg, c);
    forall n | n in Children(reg.links, c) ensures Forward(reg.links, c, n, Children(reg.links, c)[n]) {
    }
  }

  // ---------------------------------------------------------------------------------------
  // What lookups and steps answer

  /** A registered container is found under its own name, with the leading slash or without it. */
  lemma FoundByName(reg: Reg, c: string, n: string)
    requires Inv(reg) && c in reg.store && reg.cname[c] == "/" + n && n != ""
    requires n !in reg.store && "/" + n !in reg.store
    ensures Lookup(reg, n) == Some(c) && Lookup(reg, "/" + n) == Some(c)
  {
    var full := "/" + n;
    assert n[0] == full[1];
    assert FullName(n) == full && FullName(full) == full;
  }

  /** The full ID comes first, then the slashed name, then the only ID that begins so; an empty text is nobody. */
  lemma LookupMeans(reg: Reg, given: string)
    ensures given == "" ==> Lookup(reg, given) == None
    ensures given != "" && given in reg.store ==> Lookup(reg, given) == Some(given)
    ensures given != "" && given !in reg.store ==>
              var name := if given[0] == '/' then given else "/" + given;
              && (name in reg.db.owner && reg.db.owner[name] in reg.store ==>
                    Lookup(reg, given) == Some(reg.db.owner[name]))
              && (!(name in reg.db.owner && reg.db.owner[name] in reg.store) ==>
                    forall id :: Lookup(reg, given) == Some(id) <==>
                      id in reg.store && given <= id && forall x | x in reg.store && given <= x :: x == id)
  {
    if given != "" && given !in reg.store {
      var w := WithPrefix(reg.store, given);
      forall id ensures (id in reg.store && given <= id && forall x | x in reg.store && given <= x :: x == id)
                        <==> w == {id}
      {
        OnlyOneIff(reg.store, given, id);
      }
      if |w| == 1 {
        var id :| id in w;
        forall x | x in w ensures x == id {
          if x != id { TwoWithPrefix(reg.store, given, x, id); }
        }
        assert w == {id};
      } else {
        assert forall id :: w == {id} ==> |w| == 1;
      }
    }
  }

  lemma OnlyOneIff(store: set<string>, given: string, id: string)
    ensures (id in store && given <= id && forall x | x in store && given <= x :: x == id) <==>
            WithPrefix(store, given) == {id}
  {
    var w := WithPrefix(store, given);
    if id in store && given <= id && forall x | x in store && given <= x :: x == id {
      assert forall x :: x in w <==> x == id;
    } else if w == {id} {
      assert id in w;
      forall x | x in store && given <= x ensures x == id {
        assert x in w;
      }
    }
  }

  /** A link name is refused if it is an own name, and otherwise resolved through the name ahead of its last slash. */
  lemma RmLinkTargetIs(reg: Reg, dir: string, base: string)
    requires '/' !in base
    ensures RmLinkTarget(reg, dir + "/" + base) ==
            if dir == "" then Err(DefaultLinkName)
            else if dir in reg.db.owner then Ok(reg.db.owner[dir])
            else Err(NoParent)
  {
    JoinSplits(dir, base);
    assert dir + "/" + base == Join(dir, base);
  }

  /**
   Removing a link by its name without the leading slash frees the slashed name, and takes away the
   forward edge with the name and the child's reverse edges to a registered parent.
   */
  lemma RemoveLinkMeans(reg: Reg, c: string, p: string, own: string, alias: string)
    requires Inv(reg) && p in reg.cname && reg.cname[p] == "/" + own && own != "" && '/' !in alias
    ensures var bare, name := own + "/" + alias, "/" + own + "/" + alias;
            var next := Next(reg, RemoveLink(c, FullName(bare)));
            && next == Next(reg, RemoveLink(c, FullName(name)))
            && RmLinkTarget(reg, FullName(bare)) == Ok(p)
            && next.db.owner == reg.db.owner - {name} && next.db.records == reg.db.records
            && next.store == reg.store && next.cname == reg.cname
            && (p !in reg.store ==> next.links == reg.links)
            && (p in reg.store ==>
                  && (forall q, a, d :: Forward(next.links, q, a, d) <==>
                        Forward(reg.links, q, a, d) && !(q == p && a == name))
                  && (forall d, q, a :: Reverse(next.links, d, q, a) <==>
                        Reverse(reg.links, d, q, a) && !(d == c && q == p)))
  {
    var bare, name := own + "/" + alias, "/" + own + "/" + alias;
    assert (("/") + own)[1] == own[0];
    BareNameIsSlashed(own, alias);
    assert name == reg.cname[p] + "/" + alias;
    RmLinkTargetIs(reg, reg.cname[p], alias);
    UnlinkEdges(reg.links, name, c, p);
    assert reg.db.owner - {name} == if name in reg.db.owner then reg.db.owner - {name} else reg.db.owner;
  }

  lemma BareNameIsSlashed(own: string, alias: string)
    requires own != "" && own[0] != '/'
    ensures FullName(own + "/" + alias) == "/" + own + "/" + alias
    ensures FullName("/" + own + "/" + alias) == "/" + own + "/" + alias
  {
    assert (own + "/" + alias)[0] == own[0];
    assert "/" + (own + "/" + alias) == "/" + own + "/" + alias;
  }

  /** A link is registered under the parent's name, a slash and the alias, unless another container has that name. */
  lemma RegisterLinkMeans(reg: Reg, p: string, ch: string, alias: string)
    requires p in reg.cname
    ensures var name := reg.cname[p] + "/" + alias;
            var next := Next(reg, RegisterLink(p, ch, alias));
            && (name in reg.db.owner && reg.db.owner[name] != ch ==> next == reg)
            && (name !in reg.db.owner || reg.db.owner[name] == ch ==>
                  && next.db.owner == reg.db.owner[name := ch] && next.db.records == reg.db.records
                  && next.store == reg.store && next.cname == reg.cname
                  && (forall q, a, d :: Forward(next.links, q, a, d) <==>
                        if q == p && a == name then d == ch else Forward(reg.links, q, a, d))
                  && (forall d, q, a :: Reverse(next.links, d, q, a) <==>
                        Reverse(reg.links, d, q, a) || (d == ch && q == p && a == name)))
  {
    RegisterLinkStep(reg, p, ch, alias);
    LinkEdges(reg.links, p, ch, reg.cname[p] + "/" + alias);
  }

  /** Creation takes a name that is free or already the container's; registration makes the container known. */
  lemma CreationMeans(reg: Reg, c: string, name: string, r: Record)
    ensures var next := Next(reg, NewContainer(c, name));
            && (name in reg.db.owner && reg.db.owner[name] != c ==> next == reg)
            && (name !in reg.db.owner || reg.db.owner[name] == c ==>
                  next == Reg(Db(reg.db.owner[name := c], reg.db.records), reg.links, reg.store, reg.cname[c := name]))
    ensures Next(reg, Publish(r)) ==
            Reg(Db(reg.db.owner, reg.db.records[r.id := r]), reg.links, reg.store + {r.id}, reg.cname)
  {
    if name in reg.db.owner && reg.db.owner[name] == c {
      assert reg.db.owner[name := c] == reg.db.owner;
    }
  }

  // ---------------------------------------------------------------------------------------
  // Where the guarantee stops

  /** An alias with a slash under an existing link is attributed to the wrong parent on removal. */
  lemma SlashAliasBreaks(reg: Reg, p: string, x: string, y: string, a: string, b: string)
    requires EdgesReserved(reg) && p in reg.cname && x != p && SlashFree(b)
    requires Join(reg.cname[p], a) !in reg.db.owner && Join(reg.cname[p], Join(a, b)) !in reg.db.owner
    ensures var n := Join(reg.cname[p], Join(a, b));
            var s1 := Next(Next(reg, RegisterLink(p, x, a)), RegisterLink(p, y, Join(a, b)));
            RmLinkTarget(s1, n) == Ok(x) && EdgesReserved(s1) && !EdgesReserved(Next(s1, RemoveLink(y, n)))
  {
    var na, n := Join(reg.cname[p], a), Join(reg.cname[p], Join(a, b));
    assert n == Join(na, b);
    JoinSplits(na, b);
    var s0 := Linked(reg, p, x, na);
    RegisterLinkStep(reg, p, x, a);
    RegisterLinkStep(s0, p, y, Join(a, b));
    assert |na| < |n|;
    LinkedKeepsEdges(reg, p, x, na);
    LinkEdges(reg.links, p, x, na);
    LinkedKeepsEdges(s0, p, y, n);
    LinkEdges(s0.links, p, y, n);
    var s1 := Linked(s0, p, y, n);
    RemoveLinkKeepsEdgesIff(s1, y, n);
    assert Reverse(s1.links, y, p, n);
  }

  /**
   A removal for a container looked up before the link name moved to another one releases that
   one's name and keeps its reverse edge; its forward edge is lost if the parent is registered.
   */
  lemma StaleLookupBreaks(reg: Reg, x: string, y: string, p: string, n: string)
    requires Inv(reg) && Reverse(reg.links, y, p, n) && x != y
    ensures var next := Next(reg, RemoveLink(x, n));
            && Reverse(next.links, y, p, n) && n !in next.db.owner && !EdgesReserved(next)
            && (p in reg.store ==> !Mirrored(next.links))
  {
    NameDeterminesParent(reg, y, p, n);
    UnlinkEdges(reg.links, n, x, p);
    var next := Next(reg, RemoveLink(x, n));
    assert Reverse(next.links, y, p, n);
  }

  /**
   A link removed while its parent is still being created loses its name but not its edges;
   linking the same alias to another child then leaves a reverse edge without forward edge.
   */
  lemma RemovalDuringCreationBreaks(reg: Reg, p: string, x: string, y: string, a: string)
    requires Inv(reg) && p in reg.cname && p !in reg.store && x in reg.store && y in reg.store && x != y
    requires SlashFree(a) && reg.cname[p] != "" && Join(reg.cname[p], a) !in reg.db.owner
    ensures var s1 := Next(Next(reg, RegisterLink(p, x, a)), RemoveLink(x, Join(reg.cname[p], a)));
            !EdgesReserved(s1) && !Mirrored(Next(s1, RegisterLink(p, y, a)).links)
  {
    var n := Join(reg.cname[p], a);
    JoinSplits(reg.cname[p], a);
    var s0 := Next(reg, RegisterLink(p, x, a));
    LinkEdges(reg.links, p, x, n);
    assert Reverse(s0.links, x, p, n);
    var s1 := Next(s0, RemoveLink(x, n));
    assert RmLinkTarget(s0, n) == Ok(p);
    assert s1.links == s0.links && n !in s1.db.owner;
    var s2 := Next(s1, RegisterLink(p, y, a));
    LinkEdges(s1.links, p, y, n);
    assert Reverse(s2.links, x, p, n) && !Forward(s2.links, p, n, x);
  }

  // ---------------------------------------------------------------------------------------
  // The daemon's registry object

  function Elements(s: seq<string>): set<string> { set k | k in s }

  class Registry {
    const replica: MemDB
    const linkIndex: LinkIndex
    var containers: set<string>
    var cname: map<string, string>
    ghost var db: Db

    ghost predicate Valid()
      reads this, replica, linkIndex
    {
      Represents(replica.root, db)
    }

    ghost function Value(): Reg
      reads this, linkIndex
    {
      Reg(db, linkIndex.Value(), containers, cname)
    }

    constructor ()
      ensures Valid() && Value() == EmptyReg && fresh(replica) && fresh(linkIndex)
    {
      replica := new MemDB();
      linkIndex := new LinkIndex();
      containers, cname := {}, map[];
      db := EmptyDb;
    }

    method Reserve(name: string, id: string) returns (r: Outcome)
      requires Represents(replica.root, db) && NulFree(id)
      modifies replica, this`db
      ensures Represents(replica.root, db) && (db, r) == DbStep(old(db), Op.ReserveName(name, id))
    {
      StepRefines(replica.root, db, Op.ReserveName(name, id));
      r := replica.ReserveName(name, id);
      db := DbStep(db, Op.ReserveName(name, id)).0;
    }

    method Release(name: string)
      requires Represents(replica.root, db)
      modifies replica, this`db
      ensures Represents(replica.root, db) && db == DbStep(old(db), Op.ReleaseName(name)).0
    {
      StepRefines(replica.root, db, Op.ReleaseName(name));
      var _ := replica.ReleaseName(name);
      db := DbStep(db, Op.ReleaseName(name)).0;
    }

    method ReleaseAll(names: seq<string>)
      requires Represents(replica.root, db)
      modifies replica, this`db
      ensures Represents(replica.root, db) && db == old(db).(owner := old(db).owner - Elements(names))
    {
      for i := 0 to |names|
        invariant Represents(replica.root, db)
        invariant db == old(db).(owner := old(db).owner - Elements(names[..i]))
      {
        Release(names[i]);
        assert Elements(names[..i + 1]) == Elements(names[..i]) + {names[i]};
        assert db.owner == old(db).owner - Elements(names[..i + 1]);
      }
      assert names[..|names|] == names;
    }

    method RegisterLink(parent: string, child: string, alias: string)
      requires Valid() && parent in cname && NulFree(child)
      modifies this, replica, linkIndex
      ensures Valid() && Value() == Next(old(Value()), RegStep.RegisterLink(parent, child, alias))
    {
      var full := Join(cname[parent], alias);
      var r := Reserve(full, child);
      if r == NameReserved {
        return;
      }
      linkIndex.Link(parent, child, full);
    }

    method Register(r: Record)
      requires Valid()
      modifies this, replica
      ensures Valid() && Value() == Next(old(Value()), Publish(r))
    {
      containers := containers + {r.id};
      StepRefines(replica.root, db, Op.Save(r));
      replica.Save(r);
      db := DbStep(db, Op.Save(r)).0;
    }

    method GetContainer(given: string) returns (c: Option<string>)
      requires Valid()
      ensures c == Lookup(Value(), given)
      ensures c.Some? ==> c.value in containers
    {
      if given == "" {
        return None;
      }
      if given in containers {
        return Some(given);
      }
      var view := replica.Snapshot();
      var owner := view.GetID(FullName(given), db);
      if owner.Some? && owner.value in containers {
        return owner;
      }
      c := GetByPrefix(given);
    }

    /** The one container whose ID begins with the text, if there is just one. */
    method GetByPrefix(given: string) returns (c: Option<string>)
      ensures c.Some? <==> |WithPrefix(containers, given)| == 1
      ensures c.Some? ==> WithPrefix(containers, given) == {c.value}
    {
      c := None;
      var left := containers;
      while left != {}
        invariant left <= containers
        invariant WithPrefix(containers - left, given) == if c.None? then {} else {c.value}
        decreases left
      {
        var id :| id in left;
        left := left - {id};
        assert containers - left == (containers - (left + {id})) + {id};
        if given <= id {
          if c.Some? {
            TwoWithPrefix(containers, given, id, c.value);
            return None;
          }
          c := Some(id);
        }
      }
      assert containers - left == containers;
    }

    /**
     Removes a link of a container that was looked up earlier. The name may be given without its
     leading slash.
     */
    method RmLink(c: string, given: string) returns (r: Result<(), RmLinkError>)
      requires Valid()
      modifies this, replica, linkIndex
      ensures Valid() && Value() == Next(old(Value()), RemoveLink(c, FullName(given)))
      ensures r.Ok? <==> RmLinkTarget(old(Value()), FullName(given)).Ok?
      ensures r.Err? ==> r.error == RmLinkTarget(old(Value()), FullName(given)).error
    {
      var name := FullName(given);
      var slash := LastSlash(name);
      if slash <= 0 {
        return Err(DefaultLinkName);
      }
      var view := replica.Snapshot();
      var parent := view.GetID(name[..slash], db);
      if parent.None? {
        return Err(NoParent);
      }
      Release(name);
      if parent.value in containers {
        linkIndex.Unlink(name, c, parent.value);
      }
      r := Ok(());
    }

    /** The deregistration at the end of cleanupContainer, in its order. */
    method CleanupContainer(c: string)
      requires Valid() && NulFree(c)
      modifies this, replica, linkIndex
      ensures Valid() && Value() == Next(old(Value()), Cleanup(c))
    {
      var linkNames := linkIndex.Delete(c);
      containers := containers - {c};
      StepRefines(replica.root, db, Op.Delete(c));
      replica.Delete(c);
      db := DbStep(db, Op.Delete(c)).0;
      ReleaseAll(linkNames);
      assert Elements(linkNames) == Children(old(linkIndex.Value()), c).Keys;
      cname := cname - {c};
    }
  }
}
