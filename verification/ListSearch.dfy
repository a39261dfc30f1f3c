/**
 Listing with a name or ID filter (filterByNameIDMatches and reduceContainers, daemon/list.go): the
 iteration then runs over the matching containers only, so a cursor container may be missing from
 the list that it cuts.

 The list is the sorted snapshot list, and the sublist keeps its order. What the truncated-ID index
 makes of the beginning of an ID is a parameter.
 */
module ListSearch {
  import opened Wrappers
  import opened Listing
  import opened ListLaws

  datatype Directory = Directory(names: map<string, seq<string>>, resolve: string -> Option<string>)

  predicate NameMatches(q: Query, name: string) {
    Matches(q, "name", name) || Matches(q, "name", TrimSlash(name))
  }

  predicate Resolved(q: Query, dir: Directory, id: string) {
    exists v :: v in Values(q, "id") && dir.resolve(v) == Some(id)
  }

  predicate Named(q: Query, dir: Directory, id: string) {
    id in dir.names && exists n :: n in dir.names[id] && NameMatches(q, n)
  }

  /** An ID filter decides alone; otherwise some name of the container has to match. */
  predicate Matched(q: Query, dir: Directory, id: string) {
    if Values(q, "id") != {} then Resolved(q, dir, id)
    else Values(q, "name") != {} ==> Named(q, dir, id)
  }

  /** The search in terms of the filters' values: IDs as the index resolves them, names with or without the slash. */
  lemma MatchedIff(q: Query, dir: Directory, id: string)
    ensures "id" in q.args && q.args["id"] != {} ==>
              (Matched(q, dir, id) <==> exists v :: v in q.args["id"] && dir.resolve(v) == Some(id))
    ensures !("id" in q.args && q.args["id"] != {}) && "name" in q.args && q.args["name"] != {} ==>
              (Matched(q, dir, id) <==>
               id in dir.names &&
               exists n :: n in dir.names[id] &&
                 (exists v :: v in q.args["name"] &&
                    var bare := if n != "" && n[0] == '/' then n[1..] else n;
                    v == n || q.regex(v, n) || v == bare || q.regex(v, bare)))
    ensures !("id" in q.args && q.args["id"] != {}) && !("name" in q.args && q.args["name"] != {}) ==>
              Matched(q, dir, id)
  {
    if "name" in q.args && q.args["name"] != {} && id in dir.names {
      forall n | n in dir.names[id]
        ensures NameMatches(q, n) <==>
                exists v :: v in q.args["name"] &&
                  var bare := if n != "" && n[0] == '/' then n[1..] else n;
                  v == n || q.regex(v, n) || v == bare || q.regex(v, bare)
      {
        NameMatchesIff(q, n);
      }
    }
  }

  lemma NameMatchesIff(q: Query, n: string)
    requires "name" in q.args && q.args["name"] != {}
    ensures NameMatches(q, n) <==>
            exists v :: v in q.args["name"] &&
              var bare := if n != "" && n[0] == '/' then n[1..] else n;
              v == n || q.regex(v, n) || v == bare || q.regex(v, bare)
  {
    MatchesIff(q, "name", n);
    MatchesIff(q, "name", TrimSlash(n));
  }

  /** The matching containers in list order. */
  function Sublist(q: Query, dir: Directory, list: seq<Snapshot>): seq<Snapshot>
    decreases |list|
  {
    if list == [] then []
    else Sublist(q, dir, list[..|list| - 1]) + if Matched(q, dir, list[|list| - 1].id) then [list[|list| - 1]] else []
  }

  /** The containers that a listing hands to its reducer. */
  function Chosen(q: Query, list: seq<Snapshot>, before: Option<string>, since: Option<string>): seq<Snapshot> {
    Limited(q.limit, Select(q, Window(list, before, since)))
  }

  // ---------------------------------------------------------------------------------------
  // Sublists

  lemma {:induction false} SublistAppends(q: Query, dir: Directory, a: seq<Snapshot>, b: seq<Snapshot>)
    ensures Sublist(q, dir, a + b) == Sublist(q, dir, a) + Sublist(q, dir, b)
    decreases |b|
  {
    if b == [] {
      assert a + b == a;
    } else {
      SublistAppends(q, dir, a, b[..|b| - 1]);
      assert (a + b)[..|a + b| - 1] == a + b[..|b| - 1];
    }
  }

  lemma {:induction false} SublistIsSound(q: Query, dir: Directory, list: seq<Snapshot>)
    ensures forall c :: c in Sublist(q, dir, list) <==> c in list && Matched(q, dir, c.id)
    decreases |list|
  {
    if list != [] {
      SublistIsSound(q, dir, list[..|list| - 1]);
      assert list == list[..|list| - 1] + [list[|list| - 1]];
    }
  }

  /** A sublist of a list whose members all match is the list. */
  lemma {:induction false} SublistOfMatched(q: Query, dir: Directory, list: seq<Snapshot>)
    requires forall c | c in list :: Matched(q, dir, c.id)
    ensures Sublist(q, dir, list) == list
    decreases |list|
  {
    if list != [] {
      SublistOfMatched(q, dir, list[..|list| - 1]);
      assert Matched(q, dir, list[|list| - 1].id);
      SublistKeepsLast(q, dir, list);
    }
  }

  lemma SublistKeepsLast(q: Query, dir: Directory, list: seq<Snapshot>)
    requires list != [] && Matched(q, dir, list[|list| - 1].id)
    requires Sublist(q, dir, list[..|list| - 1]) == list[..|list| - 1]
    ensures Sublist(q, dir, list) == list
  {
    assert list == list[..|list| - 1] + [list[|list| - 1]];
  }

  /** Searching first and filtering first come to the same. */
  lemma {:induction false} SearchCommutes(q: Query, dir: Directory, list: seq<Snapshot>)
    ensures Select(q, Sublist(q, dir, list)) == Sublist(q, dir, Select(q, list))
    decreases |list|
  {
    if list != [] {
      var init, c := list[..|list| - 1], list[|list| - 1];
      SearchCommutes(q, dir, init);
      SelectOne(q, c);
      SublistOne(q, dir, c);
      var here := if Matched(q, dir, c.id) then [c] else [];
      var taken := if Satisfies(q, c) then [c] else [];
      SelectAppends(q, Sublist(q, dir, init), here);
      SublistAppends(q, dir, Select(q, init), taken);
    }
  }

  lemma SelectOne(q: Query, c: Snapshot)
    ensures Select(q, [c]) == (if Satisfies(q, c) then [c] else []) && Select(q, []) == []
  {
    assert [c][..0] == [];
  }

  lemma SublistOne(q: Query, dir: Directory, c: Snapshot)
    ensures Sublist(q, dir, [c]) == (if Matched(q, dir, c.id) then [c] else []) && Sublist(q, dir, []) == []
  {
    assert [c][..0] == [];
  }

  // ---------------------------------------------------------------------------------------
  // Windows of a sublist

  predicate Lists(list: seq<Snapshot>, id: string) { exists i :: 0 <= i < |list| && list[i].id == id }

  /** What follows the before container. */
  function Rest(list: seq<Snapshot>, before: Option<string>): seq<Snapshot> { list[WindowStart(list, before)..] }

  /** What comes ahead of the since container. */
  function Until(list: seq<Snapshot>, since: Option<string>): seq<Snapshot> {
    if since.None? then list else list[..IndexFrom(list, 0, since.value)]
  }

  lemma WindowIsUntilRest(list: seq<Snapshot>, before: Option<string>, since: Option<string>)
    ensures Window(list, before, since) == Until(Rest(list, before), since)
    ensures Rest(list, before) == Window(list, before, since) + list[WindowEnd(list, before, since)..]
  {
    if since.Some? {
      var lo := WindowStart(list, before);
      IndexShifts(list, lo, lo, since.value);
    }
  }

  lemma {:induction false} IndexShifts(list: seq<Snapshot>, lo: nat, from: nat, id: string)
    requires lo <= from <= |list|
    ensures IndexFrom(list, from, id) == lo + IndexFrom(list[lo..], from - lo, id)
    decreases |list| - from
  {
    if from < |list| && list[from].id != id {
      IndexShifts(list, lo, from + 1, id);
    }
  }

  /** A matching container that is listed cuts the sublist where it cuts the list. */
  lemma CutAtKept(q: Query, dir: Directory, list: seq<Snapshot>, id: string)
    requires Lists(list, id) && Matched(q, dir, id)
    ensures var i := IndexFrom(list, 0, id);
            var sub := Sublist(q, dir, list);
            && i < |list| && IndexFrom(sub, 0, id) == |Sublist(q, dir, list[..i])| < |sub|
            && sub == Sublist(q, dir, list[..i]) + [list[i]] + Sublist(q, dir, list[i + 1..])
  {
    var i := IndexFrom(list, 0, id);
    var a, b := list[..i], list[i + 1..];
    assert list == a + [list[i]] + b;
    SublistAppends(q, dir, a + [list[i]], b);
    SublistAppends(q, dir, a, [list[i]]);
    SublistOne(q, dir, list[i]);
    SublistIsSound(q, dir, a);
    FirstInParts(Sublist(q, dir, a), list[i], Sublist(q, dir, b));
  }

  lemma FirstInParts(a: seq<Snapshot>, c: Snapshot, b: seq<Snapshot>)
    requires forall x | x in a :: x.id != c.id
    ensures IndexFrom(a + [c] + b, 0, c.id) == |a|
  {
    var s := a + [c] + b;
    assert s[|a|] == c;
    forall j | 0 <= j < |a| ensures s[j].id != c.id {
      assert a[j] in a;
    }
  }

  /** An ID that is not listed, or does not match, does not come up in the sublist. */
  lemma NoCutAtDropped(q: Query, dir: Directory, list: seq<Snapshot>, id: string)
    requires !Lists(list, id) || !Matched(q, dir, id)
    ensures var sub := Sublist(q, dir, list);
            IndexFrom(sub, 0, id) == |sub| && (!Lists(list, id) ==> IndexFrom(list, 0, id) == |list|)
  {
    SublistIsSound(q, dir, list);
    var sub := Sublist(q, dir, list);
    forall j | 0 <= j < |sub| ensures sub[j].id != id {
      assert sub[j] in sub;
    }
  }

  /** The list holds the before container, but the search drops it. */
  predicate BeforeDropped(q: Query, dir: Directory, list: seq<Snapshot>, before: Option<string>) {
    before.Some? && Lists(list, before.value) && !Matched(q, dir, before.value)
  }

  /** The since container comes after the before container, but the search drops it. */
  predicate SinceDropped(q: Query, dir: Directory, list: seq<Snapshot>, before: Option<string>, since: Option<string>) {
    since.Some? && Lists(Rest(list, before), since.value) && !Matched(q, dir, since.value)
  }

  lemma RestOfSublist(q: Query, dir: Directory, list: seq<Snapshot>, before: Option<string>)
    ensures Rest(Sublist(q, dir, list), before) ==
            if BeforeDropped(q, dir, list, before) then [] else Sublist(q, dir, Rest(list, before))
  {
    if before.Some? {
      if Lists(list, before.value) && Matched(q, dir, before.value) {
        CutAtKept(q, dir, list, before.value);
      } else {
        NoCutAtDropped(q, dir, list, before.value);
      }
    }
  }

  lemma UntilOfSublist(q: Query, dir: Directory, list: seq<Snapshot>, since: Option<string>)
    ensures Until(Sublist(q, dir, list), since) ==
            if since.Some? && Lists(list, since.value) && !Matched(q, dir, since.value) then Sublist(q, dir, list)
            else Sublist(q, dir, Until(list, since))
  {
    if since.Some? {
      if Lists(list, since.value) && Matched(q, dir, since.value) {
        CutAtKept(q, dir, list, since.value);
      } else {
        NoCutAtDropped(q, dir, list, since.value);
        assert list[..|list|] == list;
      }
    }
  }

  /** The window of the sublist, by which of the cursor containers the search has dropped. */
  lemma WindowOfSublist(q: Query, dir: Directory, list: seq<Snapshot>, before: Option<string>, since: Option<string>)
    ensures Window(Sublist(q, dir, list), before, since) ==
            if BeforeDropped(q, dir, list, before) then []
            else if SinceDropped(q, dir, list, before, since) then Sublist(q, dir, Rest(list, before))
            else Sublist(q, dir, Window(list, before, since))
  {
    var sub, rest := Sublist(q, dir, list), Rest(list, before);
    WindowIsUntilRest(sub, before, since);
    WindowIsUntilRest(list, before, since);
    RestOfSublist(q, dir, list, before);
    if !BeforeDropped(q, dir, list, before) {
      UntilOfSublist(q, dir, rest, since);
    }
  }

  // ---------------------------------------------------------------------------------------
  // When the sublist gives the answer of the whole list

  /** The limit leaves no room for more. */
  predicate Full(limit: int, s: seq<Snapshot>) { limit > 0 && |s| >= limit }

  /** Dropping containers from a list and adding matching ones behind it shows within the limit, or not. */
  lemma LimitedAlikeIff(q: Query, dir: Directory, all: seq<Snapshot>, more: seq<Snapshot>)
    requires forall c | c in more :: Matched(q, dir, c.id)
    ensures Limited(q.limit, Sublist(q, dir, all) + more) == Limited(q.limit, all) <==>
            (forall c | c in Limited(q.limit, all) :: Matched(q, dir, c.id)) && (Full(q.limit, all) || more == [])
  {
    var sub, top := Sublist(q, dir, all), Limited(q.limit, all);
    if c :| c in top && !Matched(q, dir, c.id) {
      SublistIsSound(q, dir, all);
      assert c !in sub + more;
      LimitedWithin(q.limit, sub + more);
    } else {
      SublistOfMatched(q, dir, top);
      LimitedIsHead(q.limit, all);
      SublistAppends(q, dir, top, all[|top|..]);
      LimitedGrowsIff(q.limit, all, Sublist(q, dir, all[|top|..]), more);
    }
  }

  lemma LimitedWithin(limit: int, s: seq<Snapshot>)
    ensures forall c | c in Limited(limit, s) :: c in s
  {
  }

  lemma LimitedIsHead(limit: int, s: seq<Snapshot>)
    ensures s == Limited(limit, s) + s[|Limited(limit, s)|..]
    ensures !Full(limit, s) ==> s[|Limited(limit, s)|..] == []
  {
  }

  lemma LimitedGrowsIff(limit: int, s: seq<Snapshot>, tail: seq<Snapshot>, more: seq<Snapshot>)
    requires !Full(limit, s) ==> tail == []
    ensures Limited(limit, Limited(limit, s) + tail + more) == Limited(limit, s) <==> Full(limit, s) || more == []
  {
    var top := Limited(limit, s);
    if Full(limit, s) {
      assert |top| == limit;
      assert (top + tail + more)[..limit] == top;
    } else {
      assert top + tail + more == s + more;
    }
  }

  /**
   A listing over the matching containers answers like one over the whole list exactly when, with
   the before container dropped, there is nothing to list, and otherwise the search has kept all
   that would be listed and, with the since container dropped and room left, nothing that matches
   and satisfies the query stands beyond the since container.
   */
  lemma SublistAnswersAlikeIff(q: Query, dir: Directory, list: seq<Snapshot>, before: Option<string>,
                               since: Option<string>)
    ensures var listed := Select(q, Window(list, before, since));
            var beyond := list[WindowEnd(list, before, since)..];
            Chosen(q, Sublist(q, dir, list), before, since) == Chosen(q, list, before, since) <==>
            if BeforeDropped(q, dir, list, before) then listed == []
            else
              && (forall c | c in Chosen(q, list, before, since) :: Matched(q, dir, c.id))
              && (SinceDropped(q, dir, list, before, since) && !Full(q.limit, listed) ==>
                    forall c | c in beyond :: !(Matched(q, dir, c.id) && Satisfies(q, c)))
  {
    var window, beyond := Window(list, before, since), list[WindowEnd(list, before, since)..];
    var listed := Select(q, window);
    WindowOfSublist(q, dir, list, before, since);
    SearchCommutes(q, dir, window);
    if BeforeDropped(q, dir, list, before) {
      assert Limited(q.limit, listed) == [] <==> listed == [];
    } else if SinceDropped(q, dir, list, before, since) {
      WindowIsUntilRest(list, before, since);
      SublistAppends(q, dir, window, beyond);
      SearchCommutes(q, dir, beyond);
      SelectAppends(q, Sublist(q, dir, window), Sublist(q, dir, beyond));
      var more := Sublist(q, dir, Select(q, beyond));
      SublistIsSound(q, dir, Select(q, beyond));
      SelectIsSound(q, beyond);
      LimitedAlikeIff(q, dir, listed, more);
      EmptyIff(q, dir, beyond);
    } else {
      LimitedAlikeIff(q, dir, listed, []);
      assert Sublist(q, dir, listed) + [] == Sublist(q, dir, listed);
    }
  }

  lemma EmptyIff(q: Query, dir: Directory, list: seq<Snapshot>)
    ensures Sublist(q, dir, Select(q, list)) == [] <==>
            forall c | c in list :: !(Matched(q, dir, c.id) && Satisfies(q, c))
  {
    SublistIsSound(q, dir, Select(q, list));
    SelectIsSound(q, list);
    var found := Sublist(q, dir, Select(q, list));
    if found != [] {
      assert found[0] in found;
    }
  }

  /** Each container's own name is among its names. */
  ghost predicate OwnNamesKnown(dir: Directory, list: seq<Snapshot>) {
    forall c | c in list :: c.id in dir.names && c.name in dir.names[c.id]
  }

  /** Without an ID filter the search keeps all that would be listed, so only dropped cursors can tell. */
  lemma NameSearchAnswersAlikeIff(q: Query, dir: Directory, list: seq<Snapshot>, before: Option<string>,
                                  since: Option<string>)
    requires OwnNamesKnown(dir, list) && Values(q, "id") == {}
    ensures var listed := Select(q, Window(list, before, since));
            var beyond := list[WindowEnd(list, before, since)..];
            Chosen(q, Sublist(q, dir, list), before, since) == Chosen(q, list, before, since) <==>
            if BeforeDropped(q, dir, list, before) then listed == []
            else SinceDropped(q, dir, list, before, since) ==>
                   Full(q.limit, listed) || forall c | c in beyond :: !Satisfies(q, c)
  {
    SublistAnswersAlikeIff(q, dir, list, before, since);
    var window, beyond := Window(list, before, since), list[WindowEnd(list, before, since)..];
    SelectIsSound(q, window);
    LimitedWithin(q.limit, Select(q, window));
    forall c | c in Chosen(q, list, before, since) ensures Matched(q, dir, c.id) {
      SatisfyingIsMatched(q, dir, list, c);
    }
    forall c | c in beyond && Satisfies(q, c) ensures Matched(q, dir, c.id) {
      SatisfyingIsMatched(q, dir, list, c);
    }
  }

  /** A container that satisfies the name filter has a matching name: its own. */
  lemma SatisfyingIsMatched(q: Query, dir: Directory, list: seq<Snapshot>, c: Snapshot)
    requires OwnNamesKnown(dir, list) && Values(q, "id") == {} && c in list && Satisfies(q, c)
    ensures Matched(q, dir, c.id)
  {
    assert c.name in dir.names[c.id] && NameMatches(q, c.name);
  }

  /** A dropped before container empties the listing; a dropped since container is ignored. */
  lemma DroppedCursors(q: Query, dir: Directory, list: seq<Snapshot>, before: Option<string>, since: Option<string>)
    ensures BeforeDropped(q, dir, list, before) ==> Chosen(q, Sublist(q, dir, list), before, since) == []
    ensures SinceDropped(q, dir, list, before, since) ==>
              Chosen(q, Sublist(q, dir, list), before, since) == Chosen(q, Sublist(q, dir, list), before, None)
  {
    WindowOfSublist(q, dir, list, before, since);
    WindowOfSublist(q, dir, list, before, None);
    WindowIsUntilRest(list, before, None);
  }

  // ---------------------------------------------------------------------------------------
  // The search

  method MatchIds(q: Query, dir: Directory) returns (matches: set<string>)
    ensures forall id :: id in matches <==> Resolved(q, dir, id)
  {
    matches := {};
    var left := Values(q, "id");
    while left != {}
      invariant left <= Values(q, "id")
      invariant forall id :: id in matches <==> exists v :: v in Values(q, "id") - left && dir.resolve(v) == Some(id)
      decreases left
    {
      var v :| v in left;
      var full := dir.resolve(v);
      if full.Some? {
        matches := matches + {full.value};
      }
      left := left - {v};
    }
  }

  /** Adds the containers with a matching name, only among the matches so far if there is an ID filter. */
  method MatchNames(q: Query, dir: Directory, idSearch: bool, found: set<string>) returns (matches: set<string>)
    ensures forall id :: id in matches <==> id in found || (!idSearch && Named(q, dir, id))
  {
    matches := found;
    var left := dir.names.Keys;
    while left != {}
      invariant left <= dir.names.Keys
      invariant forall id :: id in matches <==> id in found || (!idSearch && id !in left && Named(q, dir, id))
      decreases left
    {
      var id :| id in left;
      left := left - {id};
      if idSearch && id !in matches {
        continue;
      }
      var hit := AnyNameMatches(q, dir.names[id]);
      if hit {
        matches := matches + {id};
      }
    }
  }

  method AnyNameMatches(q: Query, names: seq<string>) returns (hit: bool)
    ensures hit <==> exists n :: n in names && NameMatches(q, n)
  {
    hit := false;
    for i := 0 to |names|
      invariant hit <==> exists j :: 0 <= j < i && NameMatches(q, names[j])
    {
      if Matches(q, "name", names[i]) || Matches(q, "name", TrimSlash(names[i])) {
        assert NameMatches(q, names[i]);
        hit := true;
      }
    }
    if hit {
      var j :| 0 <= j < |names| && NameMatches(q, names[j]);
      assert names[j] in names;
    }
  }

  method FilterByNameIDMatches(q: Query, dir: Directory, list: seq<Snapshot>) returns (sub: seq<Snapshot>)
    ensures sub == Sublist(q, dir, list)
  {
    if Values(q, "name") == {} && Values(q, "id") == {} {
      SublistOfMatched(q, dir, list);
      return list;
    }
    var matches := MatchIds(q, dir);
    if Values(q, "name") != {} {
      matches := MatchNames(q, dir, Values(q, "id") != {}, matches);
    }
    assert forall id :: id in matches <==> Matched(q, dir, id);
    sub := [];
    for i := 0 to |list|
      invariant sub == Sublist(q, dir, list[..i])
    {
      assert list[..i + 1][..i] == list[..i];
      if list[i].id in matches {
        sub := sub + [list[i]];
      }
    }
    assert list[..|list|] == list;
  }

  /** The listing over the matching containers. */
  method Containers<T, E>(q: Query, dir: Directory, list: seq<Snapshot>, before: Option<string>, since: Option<string>,
                          reduce: Snapshot -> Result<T, E>) returns (r: Result<seq<T>, E>)
    ensures r == ReduceAll(reduce, Chosen(q, Sublist(q, dir, list), before, since))
  {
    var sub := FilterByNameIDMatches(q, dir, list);
    r := ReduceContainers(q, sub, before, since, reduce);
  }
}
