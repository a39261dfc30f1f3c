/**
 Registering a link, removing a link and cleaning up a container, taken apart into the sections
 that the code runs under one lock each, so that any number of them may interleave:
 registerLink (daemon/daemon.go), rmLink and cleanupContainer (daemon/delete.go).
 */
module LinkRaces {
  import opened Wrappers
  import opened ViewDb
  import opened LinkIndexes
  import opened Registries

  datatype Section =
    | Reserve(name: string, child: string)                             // registerLink, names
    | AddEdge(parent: string, child: string, name: string)             // registerLink, link maps
    | Free(call: nat, child: string, parent: string, name: string)     // rmLink, names
    | Unlink(call: nat)                                                // rmLink, link maps
    | GiveUp(call: nat)                                                // rmLink, parent not registered
    | Cut(c: string)                                                   // cleanupContainer, link maps
    | Forget(c: string)                                                // cleanupContainer, the container's names
    | FreeLink(name: string)                                           // cleanupContainer, one of its link names

  /** The edge that an rmLink call between its two sections has in hand. */
  datatype Edge = Edge(child: string, parent: string, name: string)

  datatype Ledger = Ledger(owner: map<string, string>, links: Links, pending: map<nat, Edge>)

  const Start := Ledger(map[], NoLinks, map[])

  /** A section that its call is not up to changes nothing. */
  function Next(s: Ledger, e: Section): Ledger {
    match e
    case Reserve(n, ch) => if n in s.owner then s else s.(owner := s.owner[n := ch])
    case AddEdge(p, ch, n) => s.(links := LinkIn(s.links, p, ch, n))
    case Free(call, ch, p, n) =>
      if call in s.pending then s else s.(owner := s.owner - {n}, pending := s.pending[call := Edge(ch, p, n)])
    case Unlink(call) =>
      if call !in s.pending then s else
        var e := s.pending[call];
        s.(links := UnlinkIn(s.links, e.name, e.child, e.parent), pending := s.pending - {call})
    case GiveUp(call) => s.(pending := s.pending - {call})
    case Cut(c) => s.(links := DeleteIn(s.links, c))
    case Forget(c) => s.(owner := map n | n in s.owner && s.owner[n] != c :: s.owner[n])
    case FreeLink(n) => s.(owner := s.owner - {n})
  }

  function RunOf(s: Ledger, es: seq<Section>): Ledger
    decreases |es|
  {
    if es == [] then s else RunOf(Next(s, es[0]), es[1..])
  }

  /** Some call, other than the one given, is about to unlink the edge or to give up on it. */
  ghost predicate InHand(s: Ledger, ch: string, p: string, n: string, except: Option<nat>) {
    exists k :: k in s.pending && Some(k) != except && s.pending[k] == Edge(ch, p, n)
  }

  predicate Backed(s: Ledger, ch: string, p: string, n: string) {
    Forward(s.links, p, n, ch) && n in s.owner && s.owner[n] == ch
  }

  /** A reverse edge is mirrored and reserved, or a removal has it in hand. */
  ghost predicate Sound(s: Ledger, ch: string, p: string, n: string) {
    Backed(s, ch, p, n) || InHand(s, ch, p, n, None)
  }

  ghost predicate Inv(s: Ledger) {
    forall ch, p, n | Reverse(s.links, ch, p, n) :: Sound(s, ch, p, n)
  }

  /** Every reverse edge with the name is in hand, except those of the given child. */
  ghost predicate InHandBut(s: Ledger, p: string, n: string, ch: string) {
    forall d | Reverse(s.links, d, p, n) && d != ch :: InHand(s, d, p, n, None)
  }

  /** What has to hold when a section begins. */
  ghost predicate Guard(s: Ledger, e: Section) {
    match e
    case Reserve(_, _) => true
    case AddEdge(p, ch, n) =>
      (n in s.owner && s.owner[n] == ch) || (InHand(s, ch, p, n, None) && InHandBut(s, p, n, ch))
    case Free(call, ch, p, n) =>
      call in s.pending ||
      forall d, q | Reverse(s.links, d, q, n) :: (d == ch && q == p) || InHand(s, d, q, n, None)
    case Unlink(call) =>
      call in s.pending ==> InHandBut(s, s.pending[call].parent, s.pending[call].name, s.pending[call].child)
    case GiveUp(call) =>
      call in s.pending ==>
        var e := s.pending[call];
        Reverse(s.links, e.child, e.parent, e.name) ==>
          Backed(s, e.child, e.parent, e.name) || InHand(s, e.child, e.parent, e.name, Some(call))
    case Cut(_) => true
    case Forget(c) => forall q, n | Reverse(s.links, c, q, n) :: InHand(s, c, q, n, None)
    case FreeLink(n) => forall d, q | Reverse(s.links, d, q, n) :: InHand(s, d, q, n, None)
  }

  // ---------------------------------------------------------------------------------------
  // The exact guard of each section

  lemma ReserveKeeps(s: Ledger, n: string, ch: string)
    requires Inv(s)
    ensures Inv(Next(s, Reserve(n, ch)))
  {
    var t := Next(s, Reserve(n, ch));
    forall d, q, m | Reverse(t.links, d, q, m) ensures Sound(t, d, q, m) {
      assert Sound(s, d, q, m);
      assert InHand(s, d, q, m, None) ==> InHand(t, d, q, m, None);
    }
  }

  lemma AddEdgeKeepsIff(s: Ledger, p: string, ch: string, n: string)
    requires Inv(s)
    ensures Inv(Next(s, AddEdge(p, ch, n))) <==> Guard(s, AddEdge(p, ch, n))
  {
    LinkEdges(s.links, p, ch, n);
    var t := Next(s, AddEdge(p, ch, n));
    forall d, q, m ensures InHand(s, d, q, m, None) <==> InHand(t, d, q, m, None) {
    }
    assert Reverse(t.links, ch, p, n);
    if Guard(s, AddEdge(p, ch, n)) {
      forall d, q, m | Reverse(t.links, d, q, m) ensures Sound(t, d, q, m) {
        assert (d == ch && q == p && m == n) || Sound(s, d, q, m);
      }
    } else if InHand(s, ch, p, n, None) {
      var d :| Reverse(s.links, d, p, n) && d != ch && !InHand(s, d, p, n, None);
      assert Reverse(t.links, d, p, n) && !Sound(t, d, p, n);
    } else {
      assert !Sound(t, ch, p, n);
    }
  }

  lemma FreeKeepsIff(s: Ledger, call: nat, ch: string, p: string, n: string)
    requires Inv(s)
    ensures Inv(Next(s, Free(call, ch, p, n))) <==> Guard(s, Free(call, ch, p, n))
  {
    var t := Next(s, Free(call, ch, p, n));
    if call !in s.pending {
      assert t.pending[call] == Edge(ch, p, n);
      forall d, q, m ensures InHand(t, d, q, m, None) <==> InHand(s, d, q, m, None) || Edge(d, q, m) == Edge(ch, p, n) {
        FreedInHand(s, call, ch, p, n, d, q, m);
      }
      forall d, q | Reverse(s.links, d, q, n) ensures Sound(t, d, q, n) <==> InHand(t, d, q, n, None) {
      }
      forall d, q, m | Reverse(s.links, d, q, m) && m != n ensures Sound(t, d, q, m) {
        assert Sound(s, d, q, m);
      }
    }
  }

  lemma FreedInHand(s: Ledger, call: nat, ch: string, p: string, n: string, d: string, q: string, m: string)
    requires call !in s.pending
    ensures InHand(Next(s, Free(call, ch, p, n)), d, q, m, None) <==>
            InHand(s, d, q, m, None) || Edge(d, q, m) == Edge(ch, p, n)
  {
    var t := Next(s, Free(call, ch, p, n));
    if k :| k in s.pending && s.pending[k] == Edge(d, q, m) {
      assert k in t.pending && t.pending[k] == Edge(d, q, m);
    }
    assert call in t.pending && t.pending[call] == Edge(ch, p, n);
  }

  /** Once a call is through, an edge is in hand exactly if another call has it. */
  lemma DroppedInHand(s: Ledger, t: Ledger, call: nat, d: string, q: string, m: string)
    requires t.pending == s.pending - {call}
    ensures InHand(t, d, q, m, None) <==> InHand(s, d, q, m, Some(call))
    ensures call in s.pending && s.pending[call] != Edge(d, q, m) ==>
              (InHand(t, d, q, m, None) <==> InHand(s, d, q, m, None))
  {
    if k :| k in s.pending && k != call && s.pending[k] == Edge(d, q, m) {
      assert k in t.pending;
    }
  }

  lemma UnlinkKeepsIff(s: Ledger, call: nat)
    requires Inv(s)
    ensures Inv(Next(s, Unlink(call))) <==> Guard(s, Unlink(call))
  {
    if call in s.pending {
      var Edge(ch, p, n) := s.pending[call];
      UnlinkEdges(s.links, n, ch, p);
      var t := Next(s, Unlink(call));
      forall d, q, m | Edge(d, q, m) != Edge(ch, p, n) ensures InHand(t, d, q, m, None) <==> InHand(s, d, q, m, None) {
        DroppedInHand(s, t, call, d, q, m);
      }
      if Guard(s, Unlink(call)) {
        forall d, q, m | Reverse(t.links, d, q, m) ensures Sound(t, d, q, m) {
          assert Sound(s, d, q, m);
        }
      } else {
        var d :| Reverse(s.links, d, p, n) && d != ch && !InHand(s, d, p, n, None);
        assert Reverse(t.links, d, p, n) && !Sound(t, d, p, n);
      }
    }
  }

  lemma GiveUpKeepsIff(s: Ledger, call: nat)
    requires Inv(s)
    ensures Inv(Next(s, GiveUp(call))) <==> Guard(s, GiveUp(call))
  {
    if call in s.pending {
      var Edge(ch, p, n) := s.pending[call];
      var t := Next(s, GiveUp(call));
      DroppedInHand(s, t, call, ch, p, n);
      if Guard(s, GiveUp(call)) {
        forall d, q, m | Reverse(t.links, d, q, m) ensures Sound(t, d, q, m) {
          assert Sound(s, d, q, m);
          DroppedInHand(s, t, call, d, q, m);
        }
      } else {
        assert Reverse(t.links, ch, p, n) && !Sound(t, ch, p, n);
      }
    } else {
      assert s.pending - {call} == s.pending;
    }
  }

  lemma CutKeeps(s: Ledger, c: string)
    requires Inv(s)
    ensures Inv(Next(s, Cut(c)))
  {
    DeleteEdges(s.links, c);
    var t := Next(s, Cut(c));
    forall d, q, m | Reverse(t.links, d, q, m) ensures Sound(t, d, q, m) {
      assert Sound(s, d, q, m);
      assert InHand(s, d, q, m, None) ==> InHand(t, d, q, m, None);
    }
  }

  lemma ForgetKeepsIff(s: Ledger, c: string)
    requires Inv(s)
    ensures Inv(Next(s, Forget(c))) <==> Guard(s, Forget(c))
  {
    var t := Next(s, Forget(c));
    forall d, q, m ensures InHand(t, d, q, m, None) <==> InHand(s, d, q, m, None) {
    }
    if Guard(s, Forget(c)) {
      forall d, q, m | Reverse(t.links, d, q, m) ensures Sound(t, d, q, m) {
        assert Sound(s, d, q, m);
      }
    } else {
      var q, m :| Reverse(s.links, c, q, m) && !InHand(s, c, q, m, None);
      assert Reverse(t.links, c, q, m) && !Sound(t, c, q, m);
    }
  }

  lemma FreeLinkKeepsIff(s: Ledger, n: string)
    requires Inv(s)
    ensures Inv(Next(s, FreeLink(n))) <==> Guard(s, FreeLink(n))
  {
    var t := Next(s, FreeLink(n));
    forall d, q, m ensures InHand(t, d, q, m, None) <==> InHand(s, d, q, m, None) {
    }
    if Guard(s, FreeLink(n)) {
      forall d, q, m | Reverse(t.links, d, q, m) ensures Sound(t, d, q, m) {
        assert Sound(s, d, q, m);
      }
    } else {
      var d, q :| Reverse(s.links, d, q, n) && !InHand(s, d, q, n, None);
      assert Reverse(t.links, d, q, n) && !Sound(t, d, q, n);
    }
  }

  lemma SectionKeepsIff(s: Ledger, e: Section)
    requires Inv(s)
    ensures Inv(Next(s, e)) <==> Guard(s, e)
  {
    match e
    case Reserve(n, ch) => ReserveKeeps(s, n, ch);
    case AddEdge(p, ch, n) => AddEdgeKeepsIff(s, p, ch, n);
    case Free(call, ch, p, n) => FreeKeepsIff(s, call, ch, p, n);
    case Unlink(call) => UnlinkKeepsIff(s, call);
    case GiveUp(call) => GiveUpKeepsIff(s, call);
    case Cut(c) => CutKeeps(s, c);
    case Forget(c) => ForgetKeepsIff(s, c);
    case FreeLink(n) => FreeLinkKeepsIff(s, n);
  }

  // ---------------------------------------------------------------------------------------
  // Runs

  ghost predicate GuardedRun(s: Ledger, es: seq<Section>)
    decreases |es|
  {
    es == [] || (Guard(s, es[0]) && GuardedRun(Next(s, es[0]), es[1..]))
  }

  ghost predicate SoundThroughout(s: Ledger, es: seq<Section>)
    decreases |es|
  {
    Inv(s) && (es == [] || SoundThroughout(Next(s, es[0]), es[1..]))
  }

  /** An interleaving keeps the edges sound in every state it passes exactly when each guard holds. */
  lemma {:induction false} SoundThroughoutIff(s: Ledger, es: seq<Section>)
    requires Inv(s)
    ensures SoundThroughout(s, es) <==> GuardedRun(s, es)
    decreases |es|
  {
    if es != [] {
      SectionKeepsIff(s, es[0]);
      if Guard(s, es[0]) {
        SoundThroughoutIff(Next(s, es[0]), es[1..]);
      }
    }
  }

  lemma {:induction false} RunKeepsInv(s: Ledger, es: seq<Section>)
    requires Inv(s) && GuardedRun(s, es)
    ensures Inv(RunOf(s, es))
    decreases |es|
  {
    if es != [] {
      SectionKeepsIff(s, es[0]);
      RunKeepsInv(Next(s, es[0]), es[1..]);
    }
  }

  /** Once no removal is in the middle, every reverse edge is mirrored and reserved. */
  lemma QuietStatesAreMirrored(es: seq<Section>)
    requires GuardedRun(Start, es)
    ensures var s := RunOf(Start, es);
            s.pending == map[] ==>
              forall ch, p, n :: Reverse(s.links, ch, p, n) ==>
                Forward(s.links, p, n, ch) && n in s.owner && s.owner[n] == ch
  {
    RunKeepsInv(Start, es);
    var s := RunOf(Start, es);
    forall ch, p, n | s.pending == map[] && Reverse(s.links, ch, p, n)
      ensures Forward(s.links, p, n, ch) && n in s.owner && s.owner[n] == ch
    {
      assert Sound(s, ch, p, n);
      assert !InHand(s, ch, p, n, None);
    }
  }

  // ---------------------------------------------------------------------------------------
  // The sections of one call, uninterrupted, are the registry's step

  ghost predicate Shows(s: Ledger, reg: Reg) { s.owner == reg.db.owner && s.links == reg.links }

  lemma RegisterLinkIsItsSections(s: Ledger, reg: Reg, p: string, ch: string, alias: string)
    requires Shows(s, reg) && p in reg.cname
    ensures var n := Join(reg.cname[p], alias);
            var reserved := Next(s, Reserve(n, ch));
            var after := Registries.Next(reg, RegisterLink(p, ch, alias));
            if n in s.owner && s.owner[n] != ch then Shows(s, after)
            else Shows(Next(reserved, AddEdge(p, ch, n)), after)
  {
    RegisterLinkStep(reg, p, ch, alias);
    var n := Join(reg.cname[p], alias);
    if n in s.owner && s.owner[n] == ch {
      assert s.owner[n := ch] == s.owner;
    }
  }

  lemma RemoveLinkIsItsSections(s: Ledger, reg: Reg, call: nat, c: string, name: string)
    requires Shows(s, reg) && RmLinkTarget(reg, name).Ok? && call !in s.pending
    ensures var p := RmLinkTarget(reg, name).value;
            var freed := Next(s, Free(call, c, p, name));
            var end := Next(freed, if p in reg.store then Unlink(call) else GiveUp(call));
            Shows(end, Registries.Next(reg, RemoveLink(c, name))) && end.pending == s.pending
  {
    var p := RmLinkTarget(reg, name).value;
    assert s.pending[call := Edge(c, p, name)] - {call} == s.pending;
    assert reg.db.owner - {name} == if name in reg.db.owner then reg.db.owner - {name} else reg.db.owner;
  }

  function Freeing(names: seq<string>): seq<Section> { seq(|names|, i requires 0 <= i < |names| => FreeLink(names[i])) }

  lemma {:induction false} FreeingAll(s: Ledger, names: seq<string>)
    ensures RunOf(s, Freeing(names)) == s.(owner := s.owner - Elements(names))
    decreases |names|
  {
    if names == [] {
      assert s.owner - Elements(names) == s.owner;
    } else {
      var t := Next(s, FreeLink(names[0]));
      assert Freeing(names)[1..] == Freeing(names[1..]);
      FreeingAll(t, names[1..]);
      assert Elements(names) == {names[0]} + Elements(names[1..]);
      assert s.owner - {names[0]} - Elements(names[1..]) == s.owner - Elements(names);
    }
  }

  lemma CleanupIsItsSections(s: Ledger, reg: Reg, c: string, names: seq<string>)
    requires Shows(s, reg) && Elements(names) == Children(reg.links, c).Keys
    ensures Shows(RunOf(s, [Cut(c), Forget(c)] + Freeing(names)), Registries.Next(reg, Cleanup(c)))
  {
    var es := [Cut(c), Forget(c)] + Freeing(names);
    var s1 := Next(s, Cut(c));
    var s2 := Next(s1, Forget(c));
    assert es[1..][0] == Forget(c) && es[1..][1..] == Freeing(names);
    assert RunOf(s, es) == RunOf(s1, es[1..]) == RunOf(s2, Freeing(names));
    FreeingAll(s2, names);
    assert s2.owner == DbStep(reg.db, Delete(c)).0.owner;
  }

  // ---------------------------------------------------------------------------------------
  // Interleavings that a guard excludes

  /** A link to a container whose cleanup gets in between keeps an edge that no name backs. */
  lemma CleanupInsideRegistration(s: Ledger, p: string, ch: string, n: string)
    requires Inv(s) && n !in s.owner && !InHand(s, ch, p, n, None)
    ensures var t := RunOf(s, [Reserve(n, ch), Cut(ch), Forget(ch), AddEdge(p, ch, n)]);
            Reverse(t.links, ch, p, n) && n !in t.owner && !Inv(t)
  {
    var es := [Reserve(n, ch), Cut(ch), Forget(ch), AddEdge(p, ch, n)];
    Unfold4(s, es[0], es[1], es[2], es[3]);
    var t := RunOf(s, es);
    assert t.pending == s.pending;
    assert InHand(t, ch, p, n, None) ==> InHand(s, ch, p, n, None);
    assert Reverse(t.links, ch, p, n) && !Sound(t, ch, p, n);
  }

  /** A name linked anew inside its removal loses its forward edge to the unlinking. */
  lemma RelinkInsideRemoval(s: Ledger, call: nat, p: string, x: string, y: string, n: string)
    requires Inv(s) && call !in s.pending && x != y && !InHand(s, y, p, n, None)
    ensures var t := RunOf(s, [Free(call, x, p, n), Reserve(n, y), AddEdge(p, y, n), Unlink(call)]);
            && t.pending == s.pending && n in t.owner && t.owner[n] == y
            && Reverse(t.links, y, p, n) && !Forward(t.links, p, n, y) && !Inv(t)
  {
    var es := [Free(call, x, p, n), Reserve(n, y), AddEdge(p, y, n), Unlink(call)];
    Unfold4(s, es[0], es[1], es[2], es[3]);
    var t := RunOf(s, es);
    var l := LinkIn(s.links, p, y, n);
    LinkEdges(s.links, p, y, n);
    UnlinkEdges(l, n, x, p);
    assert s.pending[call := Edge(x, p, n)] - {call} == s.pending;
    assert t.links == UnlinkIn(l, n, x, p);
    assert InHand(t, y, p, n, None) ==> InHand(s, y, p, n, None);
    assert Reverse(t.links, y, p, n) && !Sound(t, y, p, n);
  }

  /** A removal that finds its parent unregistered has released the name and leaves the edge. */
  lemma AbandonedRemoval(s: Ledger, call: nat, p: string, x: string, n: string)
    requires call !in s.pending && Reverse(s.links, x, p, n) && !InHand(s, x, p, n, None)
    ensures var t := Next(Next(s, Free(call, x, p, n)), GiveUp(call));
            && t.pending == s.pending && t.links == s.links
            && Reverse(t.links, x, p, n) && n !in t.owner && !Inv(t)
  {
    var t := Next(Next(s, Free(call, x, p, n)), GiveUp(call));
    assert s.pending[call := Edge(x, p, n)] - {call} == s.pending;
    assert InHand(t, x, p, n, None) ==> InHand(s, x, p, n, None);
    assert Reverse(t.links, x, p, n) && !Sound(t, x, p, n);
  }

  lemma Unfold4(s: Ledger, a: Section, b: Section, c: Section, d: Section)
    ensures RunOf(s, [a, b, c, d]) == Next(Next(Next(Next(s, a), b), c), d)
  {
    assert [a, b, c, d][1..] == [b, c, d] && [b, c, d][1..] == [c, d] && [c, d][1..] == [d] && [d][1..] == [];
    assert RunOf(s, [a, b, c, d]) == RunOf(Next(s, a), [b, c, d]);
    assert RunOf(Next(s, a), [b, c, d]) == RunOf(Next(Next(s, a), b), [c, d]);
    assert RunOf(Next(Next(s, a), b), [c, d]) == RunOf(Next(Next(Next(s, a), b), c), [d]);
  }
}
