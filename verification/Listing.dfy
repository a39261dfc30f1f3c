/**
 Listing containers (daemon/list.go): the stateful iteration with before and since cursors and
 an early stop at the limit, and the filters of api/types/filters.

 Regular expression matching is a parameter. The list is the sorted snapshot list.
 */
module Listing {
  import opened Wrappers

  datatype MountPoint = MountPoint(name: string, source: string, destination: string)

  datatype Snapshot = Snapshot(
    id: string, name: string, running: bool, exitCode: int, everStarted: bool, state: string, health: string,
    labels: map<string, string>, managed: bool, imageID: string, mounts: seq<MountPoint>,
    networks: Option<map<string, Option<string>>>, portBindings: set<string>, exposedPorts: set<string>)

  /** The part of the list context that does not change during the iteration. */
  datatype Query = Query(
    all: bool, limit: int, args: map<string, set<string>>, regex: (string, string) -> bool,
    taskFilter: bool, isTask: bool, exitAllowed: seq<int>, ancestorFilter: bool, images: set<string>,
    publish: set<string>, expose: set<string>)

  // ---------------------------------------------------------------------------------------
  // Filters

  function Values(q: Query, key: string): set<string> { if key in q.args then q.args[key] else {} }

  predicate ExactMatch(q: Query, key: string, source: string) {
    Values(q, key) == {} || source in Values(q, key)
  }

  predicate Matches(q: Query, key: string, source: string) {
    ExactMatch(q, key, source) || exists v :: v in Values(q, key) && q.regex(v, source)
  }

  function TrimSlash(s: string): string { if s != "" && s[0] == '/' then s[1..] else s }

  /** The text before the first '=' and, if there is one, the text after it. */
  function SplitPair(s: string): (string, Option<string>) {
    if s == "" then ("", None)
    else if s[0] == '=' then ("", Some(s[1..]))
    else var (k, v) := SplitPair(s[1..]); ([s[0]] + k, v)
  }

  predicate LabelMatches(labels: map<string, string>, wanted: string) {
    var (k, v) := SplitPair(wanted);
    k in labels && (v.Some? ==> labels[k] == v.value)
  }

  predicate MatchesLabels(q: Query, c: Snapshot) {
    Values(q, "label") == {} || (|c.labels| != 0 && forall w | w in Values(q, "label") :: LabelMatches(c.labels, w))
  }

  predicate MatchesExit(q: Query, c: Snapshot) {
    q.exitAllowed == [] || (c.exitCode in q.exitAllowed && !c.running && c.everStarted)
  }

  predicate MatchesVolume(q: Query, c: Snapshot) {
    "volume" !in q.args || exists v :: v in q.args["volume"] && MountsVolume(c, v)
  }

  /** Some mount of the container has the value as its destination, or as its name or else its source. */
  predicate MountsVolume(c: Snapshot, v: string) {
    exists m :: m in c.mounts &&
                ((m.destination != "" && m.destination == v) || NameOrSource(m) == v)
  }

  function NameOrSource(m: MountPoint): string { if m.name != "" then m.name else m.source }

  predicate MatchesAncestor(q: Query, c: Snapshot) { q.ancestorFilter ==> c.imageID in q.images }

  predicate MatchesNetwork(q: Query, c: Snapshot) {
    "network" !in q.args || exists v :: v in q.args["network"] && OnNetwork(c, v)
  }

  /** The container is on the network of that name, or on one whose ID starts with the value. */
  predicate OnNetwork(c: Snapshot, v: string) {
    && c.networks.Some?
    && var nets := c.networks.value;
    v in nets || exists n :: n in nets && nets[n].Some? && v <= nets[n].value
  }

  predicate MatchesPorts(wanted: set<string>, ports: set<string>) { wanted == {} || wanted * ports != {} }

  /** The filters applied ahead of the limit check. */
  predicate AheadOfLimit(q: Query, c: Snapshot) {
    && (c.running || q.all || q.limit > 0)
    && (Matches(q, "name", c.name) || Matches(q, "name", TrimSlash(c.name)))
    && Matches(q, "id", c.id)
    && (q.taskFilter ==> q.isTask == c.managed)
    && MatchesLabels(q, c)
  }

  /** The filters applied after it. */
  predicate BehindLimit(q: Query, c: Snapshot) {
    && MatchesExit(q, c)
    && Matches(q, "status", c.state)
    && ExactMatch(q, "health", c.health)
    && MatchesVolume(q, c)
    && MatchesAncestor(q, c)
    && MatchesNetwork(q, c)
    && MatchesPorts(q.publish, c.portBindings)
    && MatchesPorts(q.expose, c.exposedPorts)
  }

  /** The position-independent predicate. */
  predicate Satisfies(q: Query, c: Snapshot) { AheadOfLimit(q, c) && BehindLimit(q, c) }

  // ---------------------------------------------------------------------------------------
  // The declarative query

  function Select(q: Query, list: seq<Snapshot>): seq<Snapshot>
    decreases |list|
  {
    if list == [] then []
    else Select(q, list[..|list| - 1]) + if Satisfies(q, list[|list| - 1]) then [list[|list| - 1]] else []
  }

  /** At most `limit` elements, or all of them if the limit is not positive. */
  function Limited<T>(limit: int, s: seq<T>): seq<T> { if limit > 0 && |s| > limit then s[..limit] else s }

  /** The first position from `from` on that holds the ID, or the end of the list. */
  function IndexFrom(list: seq<Snapshot>, from: nat, id: string): (i: nat)
    requires from <= |list|
    ensures from <= i <= |list|
    ensures i < |list| ==> list[i].id == id
    ensures forall j | from <= j < i :: list[j].id != id
    decreases |list| - from
  {
    if from == |list| || list[from].id == id then from else IndexFrom(list, from + 1, id)
  }

  /** The iteration takes what follows the before container... */
  function WindowStart(list: seq<Snapshot>, before: Option<string>): (lo: nat)
    ensures lo <= |list|
  {
    if before.None? then 0 else
      var i := IndexFrom(list, 0, before.value);
      if i < |list| then i + 1 else i
  }

  /** ...up to the since container, if it comes up there. */
  function WindowEnd(list: seq<Snapshot>, before: Option<string>, since: Option<string>): (hi: nat)
    ensures WindowStart(list, before) <= hi <= |list|
  {
    if since.None? then |list| else IndexFrom(list, WindowStart(list, before), since.value)
  }

  function Window(list: seq<Snapshot>, before: Option<string>, since: Option<string>): seq<Snapshot> {
    list[WindowStart(list, before)..WindowEnd(list, before, since)]
  }

  function Reduced<T, E>(reduce: Snapshot -> Result<T, E>, c: Snapshot): Result<T, E> { reduce(c) }

  /** Reduce each element, or fail with the first error. */
  function ReduceAll<T, E>(reduce: Snapshot -> Result<T, E>, s: seq<Snapshot>): (r: Result<seq<T>, E>)
    ensures r.Ok? ==> |r.value| == |s|
    decreases |s|
  {
    if s == [] then Ok([]) else
      match ReduceAll(reduce, s[..|s| - 1])
      case Err(e) => Err(e)
      case Ok(out) =>
        match Reduced(reduce, s[|s| - 1])
        case Err(e) => Err(e)
        case Ok(t) => Ok(out + [t])
  }

  function Answer<T, E>(q: Query, list: seq<Snapshot>, before: Option<string>, since: Option<string>,
                        reduce: Snapshot -> Result<T, E>): Result<seq<T>, E>
  {
    ReduceAll(reduce, Limited(q.limit, Select(q, Window(list, before, since))))
  }

  lemma {:induction false} SelectAppends(q: Query, a: seq<Snapshot>, b: seq<Snapshot>)
    ensures Select(q, a + b) == Select(q, a) + Select(q, b)
    decreases |b|
  {
    if b == [] {
      assert a + b == a;
    } else {
      var init := b[..|b| - 1];
      SelectAppends(q, a, init);
      assert (a + b)[..|a + b| - 1] == a + init;
    }
  }

  lemma {:induction false} SelectIsSound(q: Query, list: seq<Snapshot>)
    ensures forall c :: c in Select(q, list) <==> c in list && Satisfies(q, c)
    decreases |list|
  {
    if list != [] {
      SelectIsSound(q, list[..|list| - 1]);
      assert list == list[..|list| - 1] + [list[|list| - 1]];
    }
  }

  /** Reducing fails as soon as a prefix does. */
  lemma {:induction false} ReduceAllPrefix<T, E>(reduce: Snapshot -> Result<T, E>, a: seq<Snapshot>, b: seq<Snapshot>)
    requires ReduceAll(reduce, a).Err?
    ensures ReduceAll(reduce, a + b) == ReduceAll(reduce, a)
    decreases |b|
  {
    if b == [] {
      assert a + b == a;
    } else {
      ReduceAllPrefix(reduce, a, b[..|b| - 1]);
      assert (a + b)[..|a + b| - 1] == a + b[..|b| - 1];
    }
  }

  // ---------------------------------------------------------------------------------------
  // The iteration

  datatype Action = Include | Exclude | StopIteration

  /** The decision on a container once the before container is behind. */
  function Verdict(q: Query, since: Option<string>, idx: nat, c: Snapshot): Action {
    if since == Some(c.id) then StopIteration
    else if !AheadOfLimit(q, c) then Exclude
    else if q.limit > 0 && idx == q.limit then StopIteration
    else if BehindLimit(q, c) then Include else Exclude
  }

  class ListContext {
    const query: Query
    var idx: nat
    var beforeFilter: Option<string>
    const sinceFilter: Option<string>

    constructor (query: Query, before: Option<string>, since: Option<string>)
      ensures this.query == query && idx == 0 && beforeFilter == before && sinceFilter == since
    {
      this.query, idx, beforeFilter, sinceFilter := query, 0, before, since;
    }

    method ExcludedByExit(c: Snapshot) returns (skip: bool)
      ensures skip <==> !MatchesExit(query, c)
    {
      if |query.exitAllowed| == 0 {
        return false;
      }
      skip := true;
      for i := 0 to |query.exitAllowed|
        invariant skip
        invariant forall j | 0 <= j < i :: !(query.exitAllowed[j] == c.exitCode && !c.running && c.everStarted)
      {
        if query.exitAllowed[i] == c.exitCode && !c.running && c.everStarted {
          return false;
        }
      }
    }

    /** Collects the names and destinations of the mounts, then looks for a requested one. */
    method ExcludedByVolume(c: Snapshot) returns (skip: bool)
      ensures skip <==> !MatchesVolume(query, c)
    {
      if "volume" !in query.args {
        return false;
      }
      var byName: set<string>, byDestination: set<string> := {}, {};
      for i := 0 to |c.mounts|
        invariant byName == set m | m in c.mounts[..i] :: NameOrSource(m)
        invariant byDestination == set m | m in c.mounts[..i] && m.destination != "" :: m.destination
      {
        var m := c.mounts[i];
        assert c.mounts[..i + 1] == c.mounts[..i] + [m];
        byName := byName + {NameOrSource(m)};
        if m.destination != "" {
          byDestination := byDestination + {m.destination};
        }
      }
      assert c.mounts[..|c.mounts|] == c.mounts;
      var wanted := query.args["volume"];
      while wanted != {}
        invariant wanted <= query.args["volume"]
        invariant forall v | v in query.args["volume"] - wanted :: !MountsVolume(c, v)
        decreases wanted
      {
        var v :| v in wanted;
        if v in byDestination || v in byName {
          assert MountsVolume(c, v);
          return false;
        }
        assert !MountsVolume(c, v);
        wanted := wanted - {v};
      }
      skip := true;
    }

    method ExcludedByPorts(wanted: set<string>, ports: set<string>) returns (skip: bool)
      ensures skip <==> !MatchesPorts(wanted, ports)
    {
      if wanted == {} {
        return false;
      }
      var left := wanted;
      while left != {}
        invariant left <= wanted && (wanted - left) * ports == {}
        decreases left
      {
        var p :| p in left;
        if p in ports {
          assert p in wanted * ports;
          return false;
        }
        left := left - {p};
      }
      skip := true;
    }

    method IncludeContainerInList(c: Snapshot) returns (a: Action)
      modifies this`beforeFilter
      ensures old(beforeFilter).Some? ==>
                a == Exclude && beforeFilter == if c.id == old(beforeFilter).value then None else old(beforeFilter)
      ensures old(beforeFilter).None? ==> beforeFilter.None?
      ensures old(beforeFilter).None? ==> a == Verdict(query, sinceFilter, idx, c)
    {
      if beforeFilter.Some? {
        if c.id == beforeFilter.value {
          beforeFilter := None;
        }
        return Exclude;
      }
      if sinceFilter.Some? {
        if c.id == sinceFilter.value {
          return StopIteration;
        }
      }
      if !c.running && !query.all && query.limit <= 0 {
        return Exclude;
      }
      if !Matches(query, "name", c.name) && !Matches(query, "name", TrimSlash(c.name)) {
        return Exclude;
      }
      if !Matches(query, "id", c.id) {
        return Exclude;
      }
      if query.taskFilter {
        if query.isTask != c.managed {
          return Exclude;
        }
      }
      if !MatchesLabels(query, c) {
        return Exclude;
      }
      if query.limit > 0 && idx == query.limit {
        return StopIteration;
      }
      a := IncludeBehindLimit(c);
    }

    method IncludeBehindLimit(c: Snapshot) returns (a: Action)
      ensures a == if BehindLimit(query, c) then Include else Exclude
    {
      var skip := ExcludedByExit(c);
      if skip {
        return Exclude;
      }
      if !Matches(query, "status", c.state) {
        return Exclude;
      }
      if !ExactMatch(query, "health", c.health) {
        return Exclude;
      }
      skip := ExcludedByVolume(c);
      if skip {
        return Exclude;
      }
      if query.ancestorFilter {
        if |query.images| == 0 {
          return Exclude;
        }
        if c.imageID !in query.images {
          return Exclude;
        }
      }
      if !MatchesNetwork(query, c) {
        return Exclude;
      }
      skip := ExcludedByPorts(query.publish, c.portBindings);
      if skip {
        return Exclude;
      }
      skip := ExcludedByPorts(query.expose, c.exposedPorts);
      if skip {
        return Exclude;
      }
      a := Include;
    }
  }

  /** What the loop has established once the before container is behind it. */
  ghost predicate Progress<T, E>(q: Query, list: seq<Snapshot>, lo: nat, i: nat, reduce: Snapshot -> Result<T, E>,
                                 out: seq<T>)
    requires lo <= i <= |list|
  {
    && ReduceAll(reduce, Select(q, list[lo..i])) == Ok(out)
    && (q.limit > 0 ==> |out| <= q.limit)
  }

  lemma SelectGrows(q: Query, list: seq<Snapshot>, lo: nat, i: nat)
    requires lo <= i < |list|
    ensures Select(q, list[lo..i + 1]) ==
            if Satisfies(q, list[i]) then Select(q, list[lo..i]) + [list[i]] else Select(q, list[lo..i])
  {
    assert list[lo..i + 1][..i - lo] == list[lo..i];
    assert Select(q, list[lo..i]) + [] == Select(q, list[lo..i]);
  }

  /** The selection from a window, cut at a position inside it. */
  lemma SelectCut(q: Query, list: seq<Snapshot>, lo: nat, i: nat, hi: nat)
    requires lo <= i <= hi <= |list|
    ensures Select(q, list[lo..hi]) == Select(q, list[lo..i]) + Select(q, list[i..hi])
  {
    assert list[lo..hi] == list[lo..i] + list[i..hi];
    SelectAppends(q, list[lo..i], list[i..hi]);
  }

  /** Reaching the limit, or the end of the window, with every step accounted for gives the answer. */
  lemma StopIsFinal<T, E>(q: Query, list: seq<Snapshot>, before: Option<string>, since: Option<string>,
                          i: nat, reduce: Snapshot -> Result<T, E>, out: seq<T>)
    requires WindowStart(list, before) <= i <= WindowEnd(list, before, since)
    requires Progress(q, list, WindowStart(list, before), i, reduce, out)
    requires i == WindowEnd(list, before, since) || (q.limit > 0 && |out| == q.limit)
    ensures Answer(q, list, before, since, reduce) == Ok(out)
  {
    var lo, hi := WindowStart(list, before), WindowEnd(list, before, since);
    SelectCut(q, list, lo, i, hi);
    if i == hi {
      assert list[i..hi] == [];
    }
    var done := Select(q, list[lo..i]);
    assert |done| == |out|;
    assert Limited(q.limit, done + Select(q, list[i..hi])) == done;
  }

  /** A failing reduction of an included container is the answer. */
  lemma ErrorIsFinal<T, E>(q: Query, list: seq<Snapshot>, before: Option<string>, since: Option<string>,
                           i: nat, reduce: Snapshot -> Result<T, E>, out: seq<T>)
    requires WindowStart(list, before) <= i < WindowEnd(list, before, since)
    requires Progress(q, list, WindowStart(list, before), i, reduce, out)
    requires Satisfies(q, list[i]) && Reduced(reduce, list[i]).Err? && (q.limit > 0 ==> |out| < q.limit)
    ensures Answer(q, list, before, since, reduce) == Err(Reduced(reduce, list[i]).error)
  {
    var lo, hi := WindowStart(list, before), WindowEnd(list, before, since);
    SelectGrows(q, list, lo, i);
    SelectCut(q, list, lo, i + 1, hi);
    ErrorCutsOff(q.limit, Select(q, list[lo..i]), list[i], Select(q, list[i + 1..hi]), reduce);
  }

  lemma ErrorCutsOff<T, E>(limit: int, done: seq<Snapshot>, c: Snapshot, rest: seq<Snapshot>,
                           reduce: Snapshot -> Result<T, E>)
    requires ReduceAll(reduce, done).Ok? && Reduced(reduce, c).Err? && (limit > 0 ==> |done| < limit)
    ensures ReduceAll(reduce, Limited(limit, done + [c] + rest)) == Err(Reduced(reduce, c).error)
  {
    ReduceAllLast(reduce, done, c);
    var tail := LimitedKeepsHead(limit, done + [c], rest);
    ReduceAllPrefix(reduce, done + [c], tail);
  }

  lemma ReduceAllLast<T, E>(reduce: Snapshot -> Result<T, E>, s: seq<Snapshot>, c: Snapshot)
    requires ReduceAll(reduce, s).Ok?
    ensures ReduceAll(reduce, s + [c]) ==
            if Reduced(reduce, c).Err? then Err(Reduced(reduce, c).error)
            else Ok(ReduceAll(reduce, s).value + [Reduced(reduce, c).value])
  {
    assert (s + [c])[..|s|] == s;
  }

  lemma LimitedKeepsHead(limit: int, head: seq<Snapshot>, rest: seq<Snapshot>) returns (tail: seq<Snapshot>)
    requires limit > 0 ==> |head| <= limit
    ensures Limited(limit, head + rest) == head + tail
  {
    tail := Limited(limit, head + rest)[|head|..];
  }

  lemma ProgressStarts<T, E>(q: Query, list: seq<Snapshot>, lo: nat, reduce: Snapshot -> Result<T, E>)
    requires lo <= |list|
    ensures Progress(q, list, lo, lo, reduce, [])
  {
    assert list[lo..lo] == [];
  }

  lemma ExcludeSkips<T, E>(q: Query, list: seq<Snapshot>, lo: nat, i: nat, reduce: Snapshot -> Result<T, E>,
                           out: seq<T>)
    requires lo <= i < |list| && Progress(q, list, lo, i, reduce, out) && !Satisfies(q, list[i])
    ensures Progress(q, list, lo, i + 1, reduce, out)
  {
    SelectGrows(q, list, lo, i);
  }

  lemma IncludeExtends<T, E>(q: Query, list: seq<Snapshot>, lo: nat, i: nat, reduce: Snapshot -> Result<T, E>,
                             out: seq<T>)
    requires lo <= i < |list| && Progress(q, list, lo, i, reduce, out)
    requires Satisfies(q, list[i]) && Reduced(reduce, list[i]).Ok? && (q.limit > 0 ==> |out| < q.limit)
    ensures Progress(q, list, lo, i + 1, reduce, out + [Reduced(reduce, list[i]).value])
  {
    SelectGrows(q, list, lo, i);
    ReduceAllLast(reduce, Select(q, list[lo..i]), list[i]);
  }

  /** The state of the iteration ahead of position i. */
  ghost predicate Reached<T, E>(q: Query, list: seq<Snapshot>, before: Option<string>, since: Option<string>,
                                waiting: Option<string>, i: nat, reduce: Snapshot -> Result<T, E>, out: seq<T>)
  {
    if waiting.Some? then
      i <= |list| && waiting == before && IndexFrom(list, 0, before.value) >= i && out == []
    else
      WindowStart(list, before) <= i <= WindowEnd(list, before, since)
      && Progress(q, list, WindowStart(list, before), i, reduce, out)
  }

  lemma StartReached<T, E>(q: Query, list: seq<Snapshot>, before: Option<string>, since: Option<string>,
                           reduce: Snapshot -> Result<T, E>)
    ensures Reached(q, list, before, since, before, 0, reduce, [])
  {
    ProgressStarts(q, list, 0, reduce);
  }

  lemma WaitingStep<T, E>(q: Query, list: seq<Snapshot>, before: Option<string>, since: Option<string>,
                          i: nat, reduce: Snapshot -> Result<T, E>)
    requires i < |list| && before.Some? && Reached(q, list, before, since, before, i, reduce, [])
    ensures Reached(q, list, before, since, if list[i].id == before.value then None else before, i + 1, reduce, [])
  {
    ProgressStarts(q, list, WindowStart(list, before), reduce);
  }

  lemma VerdictStep<T, E>(q: Query, list: seq<Snapshot>, before: Option<string>, since: Option<string>,
                          i: nat, reduce: Snapshot -> Result<T, E>, out: seq<T>)
    requires i < |list| && Reached(q, list, before, since, None, i, reduce, out)
    ensures match Verdict(q, since, |out|, list[i])
            case StopIteration => Answer(q, list, before, since, reduce) == Ok(out)
            case Exclude => Reached(q, list, before, since, None, i + 1, reduce, out)
            case Include =>
              if Reduced(reduce, list[i]).Err?
              then Answer(q, list, before, since, reduce) == Err(Reduced(reduce, list[i]).error)
              else Reached(q, list, before, since, None, i + 1, reduce, out + [Reduced(reduce, list[i]).value])
  {
    var lo := WindowStart(list, before);
    match Verdict(q, since, |out|, list[i])
    case StopIteration => StopIsFinal(q, list, before, since, i, reduce, out);
    case Exclude => ExcludeSkips(q, list, lo, i, reduce, out);
    case Include =>
      if Reduced(reduce, list[i]).Err? {
        ErrorIsFinal(q, list, before, since, i, reduce, out);
      } else {
        IncludeExtends(q, list, lo, i, reduce, out);
      }
  }

  lemma EndIsFinal<T, E>(q: Query, list: seq<Snapshot>, before: Option<string>, since: Option<string>,
                         waiting: Option<string>, reduce: Snapshot -> Result<T, E>, out: seq<T>)
    requires Reached(q, list, before, since, waiting, |list|, reduce, out)
    ensures Answer(q, list, before, since, reduce) == Ok(out)
  {
    if waiting.Some? { ProgressStarts(q, list, |list|, reduce); }
    StopIsFinal(q, list, before, since, |list|, reduce, out);
  }

  /** What one container contributes. */
  datatype Contribution<T, E> = Nothing | Item(item: T) | Stop | Fail(error: E)

  method ReducePsContainer<T, E>(ctx: ListContext, list: seq<Snapshot>, ghost before: Option<string>, i: nat,
                                 reduce: Snapshot -> Result<T, E>, ghost out: seq<T>)
    returns (o: Contribution<T, E>)
    requires i < |list| && ctx.idx == |out|
    requires Reached(ctx.query, list, before, ctx.sinceFilter, ctx.beforeFilter, i, reduce, out)
    modifies ctx`beforeFilter
    ensures match o
            case Stop => Answer(ctx.query, list, before, ctx.sinceFilter, reduce) == Ok(out)
            case Fail(e) => Answer(ctx.query, list, before, ctx.sinceFilter, reduce) == Err(e)
            case Nothing => Reached(ctx.query, list, before, ctx.sinceFilter, ctx.beforeFilter, i + 1, reduce, out)
            case Item(t) =>
              Reached(ctx.query, list, before, ctx.sinceFilter, ctx.beforeFilter, i + 1, reduce, out + [t])
  {
    if ctx.beforeFilter.Some? {
      WaitingStep(ctx.query, list, before, ctx.sinceFilter, i, reduce);
      var _ := ctx.IncludeContainerInList(list[i]);
      return Nothing;
    }
    VerdictStep(ctx.query, list, before, ctx.sinceFilter, i, reduce, out);
    var action := ctx.IncludeContainerInList(list[i]);
    match action
    case Exclude => o := Nothing;
    case StopIteration => o := Stop;
    case Include =>
      var t := Reduced(reduce, list[i]);
      o := if t.Err? then Fail(t.error) else Item(t.value);
  }

  /**
   The stateful loop returns exactly the first Limit containers (all, if Limit is not positive)
   that satisfy the position-independent predicate, in list order, among those after the before
   container and ahead of the next occurrence of the since container.
   */
  method ReduceContainers<T, E>(q: Query, list: seq<Snapshot>, before: Option<string>, since: Option<string>,
                                reduce: Snapshot -> Result<T, E>) returns (r: Result<seq<T>, E>)
    ensures r == Answer(q, list, before, since, reduce)
  {
    var ctx := new ListContext(q, before, since);
    var containers: seq<T> := [];
    StartReached(q, list, before, since, reduce);
    for i := 0 to |list|
      invariant ctx.query == q && ctx.sinceFilter == since && ctx.idx == |containers|
      invariant Reached(q, list, before, since, ctx.beforeFilter, i, reduce, containers)
    {
      var o := ReducePsContainer(ctx, list, before, i, reduce, containers);
      match o {
        case Fail(e) => return Err(e);
        case Stop => return Ok(containers);
        case Nothing =>
        case Item(t) =>
          containers := containers + [t];
          ctx.idx := ctx.idx + 1;
      }
    }
    EndIsFinal(q, list, before, since, ctx.beforeFilter, reduce, containers);
    r := Ok(containers);
  }

  // ---------------------------------------------------------------------------------------
  // What the two cursors promise together

  ghost predicate DistinctIds(list: seq<Snapshot>) {
    forall i, j | 0 <= i < j < |list| :: list[i].id != list[j].id
  }

  /** After the one and ahead of the other, wherever the two stand in the list. */
  function Between(list: seq<Snapshot>, before: Option<string>, since: Option<string>): seq<Snapshot> {
    var lo := WindowStart(list, before);
    var end := if since.None? then |list| else IndexFrom(list, 0, since.value);
    if lo <= end then list[lo..end] else []
  }

  /**
   The iteration's window is the intersection of the two cursors exactly when the since
   container is not at or ahead of the before container, or nothing follows the latter.
   */
  lemma WindowIsIntersectionIff(list: seq<Snapshot>, before: Option<string>, since: Option<string>)
    requires DistinctIds(list)
    ensures Window(list, before, since) == Between(list, before, since) <==>
            (since.None? || IndexFrom(list, 0, since.value) >= WindowStart(list, before)
             || WindowStart(list, before) == |list|)
  {
    if since.Some? {
      var lo, s, hi := WindowStart(list, before), IndexFrom(list, 0, since.value), WindowEnd(list, before, since);
      if s < lo {
        assert hi == |list|;
        assert |Window(list, before, since)| == |list| - lo;
      } else {
        assert hi == s;
      }
    }
  }

  /** A since container at or ahead of the before container has no effect at all. */
  lemma SinceAheadOfBeforeIsIgnored<T, E>(q: Query, list: seq<Snapshot>, before: Option<string>, since: string,
                                          reduce: Snapshot -> Result<T, E>)
    requires DistinctIds(list) && IndexFrom(list, 0, since) < WindowStart(list, before)
    ensures Answer(q, list, before, Some(since), reduce) == Answer(q, list, before, None, reduce)
  {
    assert WindowEnd(list, before, Some(since)) == |list|;
  }
}
