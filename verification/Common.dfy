/** Small datatypes shared by every module. */
module Wrappers {
  datatype Option<+T> = None | Some(value: T)

  datatype Result<+T, +E> = Ok(value: T) | Err(error: E)
}

/** The byte order in which a radix index is walked: lexicographic, a prefix before its extensions. */
module ByteOrder {
  predicate Less(a: string, b: string) {
    |b| > 0 && (|a| == 0 || a[0] < b[0] || (a[0] == b[0] && Less(a[1..], b[1..])))
  }

  ghost predicate Ascends(ks: seq<string>) {
    forall i, j | 0 <= i < j < |ks| :: Less(ks[i], ks[j])
  }

  /** One is a proper beginning of the other, or the first byte in which they differ is smaller. */
  lemma {:induction false} LessIff(a: string, b: string)
    ensures Less(a, b) <==>
            || (|a| < |b| && a == b[..|a|])
            || (exists k :: 0 <= k < |a| && k < |b| && a[..k] == b[..k] && a[k] < b[k])
  {
    if |a| > 0 && |b| > 0 {
      if a[0] == b[0] {
        LessIff(a[1..], b[1..]);
        BeginningOfTails(a, b);
        DifferenceOfTails(a, b);
      } else {
        DifferentHeads(a, b);
      }
    }
  }

  lemma BeginningOfTails(a: string, b: string)
    requires |a| > 0 && |b| > 0 && a[0] == b[0]
    ensures |a| < |b| && a == b[..|a|] <==> |a[1..]| < |b[1..]| && a[1..] == b[1..][..|a[1..]|]
  {
    if |a| < |b| {
      assert a == [a[0]] + a[1..] && b[..|a|] == [b[0]] + b[1..][..|a| - 1];
      assert b[..|a|][1..] == b[1..][..|a| - 1];
    }
  }

  lemma DifferenceOfTails(a: string, b: string)
    requires |a| > 0 && |b| > 0 && a[0] == b[0]
    ensures (exists k :: 0 <= k < |a| && k < |b| && a[..k] == b[..k] && a[k] < b[k]) <==>
            exists k :: 0 <= k < |a[1..]| && k < |b[1..]| && a[1..][..k] == b[1..][..k] && a[1..][k] < b[1..][k]
  {
    if k :| 0 <= k < |a| && k < |b| && a[..k] == b[..k] && a[k] < b[k] {
      assert a[1..][..k - 1] == a[..k][1..] && b[1..][..k - 1] == b[..k][1..];
      assert a[1..][k - 1] == a[k] && b[1..][k - 1] == b[k];
    }
    if k :| 0 <= k < |a[1..]| && k < |b[1..]| && a[1..][..k] == b[1..][..k] && a[1..][k] < b[1..][k] {
      assert a[..k + 1] == [a[0]] + a[1..][..k] && b[..k + 1] == [b[0]] + b[1..][..k];
      assert a[k + 1] < b[k + 1];
    }
  }

  lemma DifferentHeads(a: string, b: string)
    requires |a| > 0 && |b| > 0 && a[0] != b[0]
    ensures |a| < |b| ==> a != b[..|a|]
    ensures (exists k :: 0 <= k < |a| && k < |b| && a[..k] == b[..k] && a[k] < b[k]) <==> a[0] < b[0]
  {
    assert a[..0] == b[..0];
    assert forall k | 0 < k < |a| && k < |b| :: a[..k] != b[..k];
    assert |a| < |b| ==> a[0] != b[..|a|][0];
  }

  lemma LessIrreflexive(a: string)
    ensures !Less(a, a)
  {
  }

  lemma {:induction false} LessTotal(a: string, b: string)
    ensures a == b || Less(a, b) || Less(b, a)
  {
    if |a| > 0 && |b| > 0 && a[0] == b[0] {
      LessTotal(a[1..], b[1..]);
      assert a == [a[0]] + a[1..] && b == [b[0]] + b[1..];
    }
  }

  lemma {:induction false} LessTransitive(a: string, b: string, c: string)
    requires Less(a, b) && Less(b, c)
    ensures Less(a, c)
  {
    if |a| > 0 && a[0] == b[0] == c[0] {
      LessTransitive(a[1..], b[1..], c[1..]);
    }
  }

  /** A common prefix does not change the order. */
  lemma {:induction false} LessUnderPrefix(p: string, a: string, b: string)
    ensures Less(p + a, p + b) <==> Less(a, b)
  {
    if p == [] {
      assert p + a == a && p + b == b;
    } else {
      LessUnderPrefix(p[1..], a, b);
      assert (p + a)[1..] == p[1..] + a && (p + b)[1..] == p[1..] + b;
    }
  }

  /** A NUL terminator on both sides does not change the order either. */
  lemma {:induction false} LessUnderTerminator(a: string, b: string)
    requires Less(a + ['\0'], b + ['\0'])
    ensures Less(a, b)
  {
    if |a| > 0 && |b| > 0 {
      assert (a + ['\0'])[1..] == a[1..] + ['\0'] && (b + ['\0'])[1..] == b[1..] + ['\0'];
      if a[0] == b[0] {
        LessUnderTerminator(a[1..], b[1..]);
      }
    }
  }

  ghost predicate IsLeast(s: set<string>, m: string) {
    m in s && forall k | k in s :: k == m || Less(m, k)
  }

  /** The least element of a non-empty set of keys. */
  method Least(s: set<string>) returns (m: string)
    requires s != {}
    ensures IsLeast(s, m)
  {
    m :| m in s;
    var rest := s - {m};
    while rest != {}
      invariant m in s && rest <= s
      invariant forall k | k in s - rest :: k == m || Less(m, k)
      decreases rest
    {
      var k :| k in rest;
      LessTotal(m, k);
      if Less(k, m) {
        forall j | j in s - rest && j != m ensures Less(k, j) {
          LessTransitive(k, m, j);
        }
        m := k;
      }
      rest := rest - {k};
    }
  }

  lemma {:induction false} LeastExists(s: set<string>)
    requires s != {}
    ensures exists m :: IsLeast(s, m)
    decreases |s|
  {
    var x :| x in s;
    if s == {x} {
      assert IsLeast(s, x);
    } else {
      assert s - {x} != {};
      LeastExists(s - {x});
      var m :| IsLeast(s - {x}, m);
      LessTotal(m, x);
      if Less(m, x) {
        assert IsLeast(s, m);
      } else {
        forall k | k in s && k != x && k != m ensures Less(x, k) {
          LessTransitive(x, m, k);
        }
        assert IsLeast(s, x);
      }
    }
  }

  /** The keys of a set in ascending order: what walking an index yields. */
  ghost function InOrder(s: set<string>): (ks: seq<string>)
    ensures Ascends(ks)
    ensures forall k :: k in ks <==> k in s
    decreases |s|
  {
    if s == {} then [] else
      LeastExists(s);
      var m :| IsLeast(s, m);
      var rest := InOrder(s - {m});
      assert forall i | 0 <= i < |rest| :: rest[i] in s - {m};
      [m] + rest
  }

  /** An ascending sequence is determined by its elements. */
  lemma {:induction false} AscendingUnique(a: seq<string>, b: seq<string>)
    requires Ascends(a) && Ascends(b)
    requires forall k :: k in a <==> k in b
    ensures a == b
  {
    if a == [] {
      assert forall i | 0 <= i < |b| :: b[i] in b;
    } else {
      assert a[0] in b;
      assert b[0] in a;
      var i :| 0 <= i < |b| && b[i] == a[0];
      var j :| 0 <= j < |a| && a[j] == b[0];
      if i != 0 && j != 0 {
        LessTransitive(b[0], b[i], a[j]);
        LessIrreflexive(b[0]);
        assert false;
      }
      assert a[0] == b[0];
      forall k ensures k in a[1..] <==> k in b[1..] {
        TailMembership(a, k);
        TailMembership(b, k);
      }
      AscendingUnique(a[1..], b[1..]);
    }
  }

  lemma TailMembership(a: seq<string>, k: string)
    requires Ascends(a) && a != []
    ensures k in a[1..] <==> k in a && k != a[0]
  {
    LessIrreflexive(a[0]);
    if k in a && k != a[0] {
      var i :| 0 <= i < |a| && a[i] == k;
      assert a[1..][i - 1] == k;
    }
  }

  /** Walks a set of keys by repeatedly taking the least one that is left. */
  method Walk(s: set<string>) returns (ks: seq<string>)
    ensures ks == InOrder(s)
  {
    ks := [];
    var rest := s;
    while rest != {}
      invariant rest <= s && Ascends(ks)
      invariant forall k :: k in ks <==> k in s - rest
      invariant forall i, k | 0 <= i < |ks| && k in rest :: Less(ks[i], k)
      decreases rest
    {
      var m := Least(rest);
      ks := ks + [m];
      rest := rest - {m};
    }
    AscendingUnique(ks, InOrder(s));
  }
}
