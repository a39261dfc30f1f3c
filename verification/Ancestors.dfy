/**
 The ancestor filter of container listing (daemon/list.go): the images reachable from the
 requested ones through the image store's children relation, collected depth first into one
 shared map.
 */
module Ancestors {
  import opened Wrappers

  type Image = string
  type Children = Image -> seq<Image>

  /** Each image of the path after the first is a child of the one before. */
  ghost predicate IsPath(children: Children, p: seq<Image>) {
    |p| > 0 && forall i | 0 <= i < |p| - 1 :: p[i + 1] in children(p[i])
  }

  ghost predicate PathFromTo(children: Children, p: seq<Image>, a: Image, b: Image) {
    IsPath(children, p) && p[0] == a && p[|p| - 1] == b
  }

  ghost predicate Reachable(children: Children, a: Image, b: Image) {
    exists p :: PathFromTo(children, p, a, b)
  }

  /** No image is its own descendant: descending always lowers the rank. */
  ghost predicate Ranked(children: Children, rank: Image -> nat) {
    forall x, y | y in children(x) :: rank(y) < rank(x)
  }

  ghost predicate Closed(children: Children, s: set<Image>) {
    forall x, y | x in s && y in children(x) :: y in s
  }

  lemma ReachesItself(children: Children, a: Image)
    ensures Reachable(children, a, a)
  {
    assert PathFromTo(children, [a], a, a);
  }

  lemma ReachThroughChild(children: Children, a: Image, k: Image, b: Image)
    requires k in children(a) && Reachable(children, k, b)
    ensures Reachable(children, a, b)
  {
    var p :| PathFromTo(children, p, k, b);
    assert PathFromTo(children, [a] + p, a, b);
  }

  /** What an image reaches is itself and what its children reach. */
  lemma ReachSplits(children: Children, a: Image, b: Image)
    ensures Reachable(children, a, b) <==> a == b || exists k :: k in children(a) && Reachable(children, k, b)
  {
    if a == b {
      ReachesItself(children, a);
    } else if Reachable(children, a, b) {
      var p :| PathFromTo(children, p, a, b);
      assert p[0 + 1] in children(p[0]);
      assert PathFromTo(children, p[1..], p[1], b);
    } else if k :| k in children(a) && Reachable(children, k, b) {
      ReachThroughChild(children, a, k, b);
      assert false;
    }
  }

  lemma {:induction false} ClosedUnderPath(children: Children, s: set<Image>, p: seq<Image>)
    requires Closed(children, s) && IsPath(children, p) && p[0] in s
    ensures p[|p| - 1] in s
    decreases |p|
  {
    if |p| > 1 {
      assert p[0 + 1] in children(p[0]);
      ClosedUnderPath(children, s, p[1..]);
    }
  }

  lemma ClosedContainsReachable(children: Children, s: set<Image>, a: Image, b: Image)
    requires Closed(children, s) && a in s && Reachable(children, a, b)
    ensures b in s
  {
    var p :| PathFromTo(children, p, a, b);
    ClosedUnderPath(children, s, p);
  }

  /** Something reachable from one of the images. */
  ghost predicate ReachableFromAny(children: Children, roots: seq<Image>, b: Image) {
    exists i :: 0 <= i < |roots| && Reachable(children, roots[i], b)
  }

  lemma ReachableFromAnyAppends(children: Children, roots: seq<Image>, a: Image, b: Image)
    ensures ReachableFromAny(children, roots + [a], b) <==>
            ReachableFromAny(children, roots, b) || Reachable(children, a, b)
  {
    var all := roots + [a];
    if i :| 0 <= i < |roots| && Reachable(children, roots[i], b) {
      assert all[i] == roots[i];
    }
    if Reachable(children, a, b) {
      assert all[|roots|] == a;
    }
  }

  lemma ReachSplitsOverSeq(children: Children, a: Image, b: Image)
    ensures Reachable(children, a, b) <==> a == b || ReachableFromAny(children, children(a), b)
  {
    ReachSplits(children, a, b);
    if k :| k in children(a) && Reachable(children, k, b) {
      var i :| 0 <= i < |children(a)| && children(a)[i] == k;
    }
  }

  class AncestorFilter {
    var images: set<Image>

    constructor ()
      ensures images == {}
    {
      images := {};
    }

    /**
     Adds exactly what the image reaches and keeps the map closed under children. The image is
     marked after its children, so only the rank shows that the recursion ends.
     */
    method Populate(id: Image, children: Children, ghost rank: Image -> nat)
      requires Ranked(children, rank) && Closed(children, images)
      modifies this
      ensures Closed(children, images)
      ensures forall x :: x in images <==> x in old(images) || Reachable(children, id, x)
      decreases rank(id)
    {
      if id !in images {
        var kids := children(id);
        PopulateAll(id, kids, children, rank);
        forall x
          ensures Reachable(children, id, x) <==> x == id || ReachableFromAny(children, kids, x)
        {
          ReachSplitsOverSeq(children, id, x);
        }
        forall y | y in children(id) ensures y in images {
          ReachesItself(children, y);
          var i :| 0 <= i < |kids| && kids[i] == y;
        }
        images := images + {id};
      } else {
        forall x | Reachable(children, id, x) ensures x in images {
          ClosedContainsReachable(children, images, id, x);
        }
      }
    }

    /** The loop over the children of one image. */
    method PopulateAll(id: Image, kids: seq<Image>, children: Children, ghost rank: Image -> nat)
      requires Ranked(children, rank) && Closed(children, images)
      requires forall k | k in kids :: k in children(id)
      modifies this
      ensures Closed(children, images)
      ensures forall x :: x in images <==> x in old(images) || ReachableFromAny(children, kids, x)
      decreases rank(id), 0
    {
      for i := 0 to |kids|
        invariant Closed(children, images)
        invariant forall x :: x in images <==> x in old(images) || ReachableFromAny(children, kids[..i], x)
      {
        assert kids[i] in kids;
        Populate(kids[i], children, rank);
        assert kids[..i + 1] == kids[..i] + [kids[i]];
        forall x ensures ReachableFromAny(children, kids[..i + 1], x) <==>
                         ReachableFromAny(children, kids[..i], x) || Reachable(children, kids[i], x)
        {
          ReachableFromAnyAppends(children, kids[..i], kids[i], x);
        }
      }
      assert kids[..|kids|] == kids;
    }

    /** The requested ancestors that resolve to an image, in order; an image already seen is skipped. */
    method Fold(ancestors: seq<Option<Image>>, children: Children, ghost rank: Image -> nat)
      requires Ranked(children, rank) && images == {}
      modifies this
      ensures Closed(children, images)
      ensures forall x :: x in images <==> exists a :: Some(a) in ancestors && Reachable(children, a, x)
    {
      for i := 0 to |ancestors|
        invariant Closed(children, images)
        invariant forall x :: x in images <==> ReachableFromResolved(children, ancestors[..i], x)
      {
        ghost var was := images;
        if ancestors[i].Some? {
          var id := ancestors[i].value;
          if id !in images {
            Populate(id, children, rank);
          } else {
            forall x | Reachable(children, id, x) ensures x in images {
              ClosedContainsReachable(children, images, id, x);
            }
          }
        }
        assert ancestors[..i + 1] == ancestors[..i] + [ancestors[i]];
      }
      assert ancestors[..|ancestors|] == ancestors;
    }
  }

  ghost predicate ReachableFromResolved(children: Children, ancestors: seq<Option<Image>>, x: Image) {
    exists a :: Some(a) in ancestors && Reachable(children, a, x)
  }
}
