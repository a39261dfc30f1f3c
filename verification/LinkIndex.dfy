/**
 The forward and reverse link maps (daemon/links.go).

 A container is identified by its ID. A link name is the full name under which the parent
 refers to the child.
 */
module LinkIndexes {
  datatype Links = Links(idx: map<string, map<string, string>>,
                         childIdx: map<string, map<string, set<string>>>)

  const NoLinks := Links(map[], map[])

  /** idx holds parent -> alias -> child. */
  predicate Forward(l: Links, parent: string, alias: string, child: string) {
    parent in l.idx && alias in l.idx[parent] && l.idx[parent][alias] == child
  }

  /** childIdx holds child -> parent -> aliases. */
  predicate Reverse(l: Links, child: string, parent: string, alias: string) {
    child in l.childIdx && parent in l.childIdx[child] && alias in l.childIdx[child][parent]
  }

  function At<K, V>(m: map<K, V>, k: K, default: V): V { if k in m then m[k] else default }

  function Children(l: Links, parent: string): map<string, string> { At(l.idx, parent, map[]) }

  function LinkIn(l: Links, parent: string, child: string, alias: string): Links {
    var parents := At(l.childIdx, child, map[]);
    Links(l.idx[parent := Children(l, parent)[alias := child]],
          l.childIdx[child := parents[parent := At(parents, parent, {}) + {alias}]])
  }

  /** Drops one alias of the parent, and every alias the parent has for the child. */
  function UnlinkIn(l: Links, alias: string, child: string, parent: string): Links {
    Links(if parent in l.idx then l.idx[parent := l.idx[parent] - {alias}] else l.idx,
          if child in l.childIdx then l.childIdx[child := l.childIdx[child] - {parent}] else l.childIdx)
  }

  /** Removes a container as a parent wherever its forward entries lead, and as a child. */
  function DeleteIn(l: Links, c: string): Links {
    Links(l.idx - {c},
          map ch | ch in l.childIdx && ch != c ::
            if ch in Children(l, c).Values then l.childIdx[ch] - {c} else l.childIdx[ch])
  }

  lemma LinkEdges(l: Links, p: string, ch: string, a: string)
    ensures forall q, b, d :: Forward(LinkIn(l, p, ch, a), q, b, d) <==>
                              if q == p && b == a then d == ch else Forward(l, q, b, d)
    ensures forall d, q, b :: Reverse(LinkIn(l, p, ch, a), d, q, b) <==>
                              Reverse(l, d, q, b) || (d == ch && q == p && b == a)
  {
  }

  lemma UnlinkEdges(l: Links, a: string, ch: string, p: string)
    ensures forall q, b, d :: Forward(UnlinkIn(l, a, ch, p), q, b, d) <==>
                              Forward(l, q, b, d) && !(q == p && b == a)
    ensures forall d, q, b :: Reverse(UnlinkIn(l, a, ch, p), d, q, b) <==>
                              Reverse(l, d, q, b) && !(d == ch && q == p)
  {
  }

  lemma DeleteEdges(l: Links, c: string)
    ensures forall q, b, d :: Forward(DeleteIn(l, c), q, b, d) <==> Forward(l, q, b, d) && q != c
    ensures forall d, q, b :: Reverse(DeleteIn(l, c), d, q, b) <==>
                              Reverse(l, d, q, b) && d != c && !(q == c && d in Children(l, c).Values)
  {
    forall d, q, b
      ensures Reverse(DeleteIn(l, c), d, q, b) <==>
              Reverse(l, d, q, b) && d != c && !(q == c && d in Children(l, c).Values)
    {
      if d in l.childIdx && d != c {
        assert d in DeleteIn(l, c).childIdx;
      }
    }
  }

  /** The same in terms of the two maps. */
  lemma MapsMean(l: Links, p: string, ch: string, a: string)
    ensures var m := LinkIn(l, p, ch, a);
            && p in m.idx && a in m.idx[p] && m.idx[p][a] == ch
            && ch in m.childIdx && p in m.childIdx[ch] && a in m.childIdx[ch][p]
            && (forall q | q in l.idx && q != p :: q in m.idx && m.idx[q] == l.idx[q])
            && (forall d | d in l.childIdx && d != ch :: d in m.childIdx && m.childIdx[d] == l.childIdx[d])
    ensures var m := UnlinkIn(l, a, ch, p);
            && m.idx.Keys == l.idx.Keys && m.childIdx.Keys == l.childIdx.Keys
            && (forall q | q in l.idx :: m.idx[q] == if q == p then l.idx[q] - {a} else l.idx[q])
            && (forall d | d in l.childIdx :: m.childIdx[d] == if d == ch then l.childIdx[d] - {p} else l.childIdx[d])
    ensures var m := DeleteIn(l, ch);
            && ch !in m.idx && ch !in m.childIdx
            && (forall q | q in l.idx && q != ch :: q in m.idx && m.idx[q] == l.idx[q])
            && (ch in l.idx && p in l.idx[ch] && l.idx[ch][p] in m.childIdx ==> ch !in m.childIdx[l.idx[ch][p]])
  {
  }

  /** Each reverse edge has its forward edge. */
  ghost predicate Mirrored(l: Links) {
    forall ch, p, a :: Reverse(l, ch, p, a) ==> Forward(l, p, a, ch)
  }

  /**
   Linking on its own keeps the maps mirrored exactly when the alias is not already the
   parent's alias for another child in the reverse map.
   */
  lemma LinkKeepsMirrorIff(l: Links, p: string, ch: string, a: string)
    requires Mirrored(l)
    ensures Mirrored(LinkIn(l, p, ch, a)) <==> forall d | Reverse(l, d, p, a) :: d == ch
  {
    LinkEdges(l, p, ch, a);
    var m := LinkIn(l, p, ch, a);
    if d :| Reverse(l, d, p, a) && d != ch {
      assert Reverse(m, d, p, a) && !Forward(m, p, a, d);
    }
  }

  class LinkIndex {
    var idx: map<string, map<string, string>>
    var childIdx: map<string, map<string, set<string>>>

    ghost function Value(): Links
      reads this
    {
      Links(idx, childIdx)
    }

    constructor ()
      ensures Value() == NoLinks
    {
      idx, childIdx := map[], map[];
    }

    method Link(parent: string, child: string, alias: string)
      modifies this
      ensures Value() == LinkIn(old(Value()), parent, child, alias)
    {
      var children: map<string, string> := map[];
      if parent in idx {
        children := idx[parent];
      }
      idx := idx[parent := children[alias := child]];
      var parents: map<string, set<string>> := map[];
      if child in childIdx {
        parents := childIdx[child];
      }
      var aliases: set<string> := {};
      if parent in parents {
        aliases := parents[parent];
      }
      childIdx := childIdx[child := parents[parent := aliases + {alias}]];
    }

    method Unlink(alias: string, child: string, parent: string)
      modifies this
      ensures Value() == UnlinkIn(old(Value()), alias, child, parent)
    {
      if parent in idx {
        idx := idx[parent := idx[parent] - {alias}];
      }
      if child in childIdx {
        childIdx := childIdx[child := childIdx[child] - {parent}];
      }
    }

    /** The inverse of the reverse map for one child, when no alias is shared by two parents. */
    method Parents(child: string) returns (parents: map<string, string>)
      ensures forall a :: a in parents ==> Reverse(Value(), child, parents[a], a)
      ensures forall p, a :: Reverse(Value(), child, p, a) ==> a in parents
      ensures (forall p, q, a | Reverse(Value(), child, p, a) && Reverse(Value(), child, q, a) :: p == q) ==>
                forall p, a :: Reverse(Value(), child, p, a) <==> a in parents && parents[a] == p
    {
      parents := map[];
      if child !in childIdx {
        return;
      }
      var byParent := childIdx[child];
      var left := byParent.Keys;
      while left != {}
        invariant left <= byParent.Keys
        invariant forall a :: a in parents ==> Reverse(Value(), child, parents[a], a)
        invariant forall p, a | p in byParent && p !in left && a in byParent[p] :: a in parents
        decreases left
      {
        var p :| p in left;
        var aliases := byParent[p];
        ghost var before := parents;
        while aliases != {}
          invariant aliases <= byParent[p] && before.Keys <= parents.Keys
          invariant forall a :: a in parents ==> Reverse(Value(), child, parents[a], a)
          invariant forall a | a in byParent[p] && a !in aliases :: a in parents
          decreases aliases
        {
          var a :| a in aliases;
          parents := parents[a := p];
          aliases := aliases - {a};
        }
        left := left - {p};
      }
    }

    /** Returns the link names the container used, each once. */
    method Delete(c: string) returns (aliases: seq<string>)
      modifies this
      ensures Value() == DeleteIn(old(Value()), c)
      ensures forall a :: a in aliases <==> a in Children(old(Value()), c)
      ensures forall i, j | 0 <= i < j < |aliases| :: aliases[i] != aliases[j]
    {
      aliases := [];
      var out := Children(Links(idx, childIdx), c);
      var left := out.Keys;
      ghost var visited: set<string> := {};
      while left != {}
        invariant left <= out.Keys && idx == old(idx) && childIdx.Keys == old(childIdx).Keys
        invariant forall a :: a in aliases <==> a in out.Keys - left
        invariant forall i, j | 0 <= i < j < |aliases| :: aliases[i] != aliases[j]
        invariant forall a | a in out.Keys - left :: out[a] in visited
        invariant visited <= out.Values
        invariant forall ch | ch in childIdx ::
          childIdx[ch] == if ch in visited then old(childIdx)[ch] - {c} else old(childIdx)[ch]
        decreases left
      {
        var alias :| alias in left;
        var child := out[alias];
        aliases := aliases + [alias];
        if child in childIdx {
          childIdx := childIdx[child := childIdx[child] - {c}];
        }
        visited := visited + {child};
        left := left - {alias};
      }
      assert visited == out.Values;
      idx := idx - {c};
      childIdx := childIdx - {c};
      assert childIdx == DeleteIn(old(Value()), c).childIdx;
    }
  }
}
