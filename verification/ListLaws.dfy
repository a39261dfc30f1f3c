/**
 What a listing returns (daemon/list.go), in terms of the snapshots and the positions in the list:
 which containers each filter lets through, which positions the cursors leave, and which of these
 make up the answer.
 */
module ListLaws {
  import opened Wrappers
  import opened Listing

  // ---------------------------------------------------------------------------------------
  // Filters

  /** The text before the first '=' is the label's key, the text after it the wanted value. */
  lemma {:induction false} SplitPairIs(k: string, v: string)
    requires '=' !in k
    ensures SplitPair(k + "=" + v) == (k, Some(v)) && SplitPair(k) == (k, None)
  {
    if k == "" {
      assert k + "=" + v == "=" + v && ("=" + v)[1..] == v;
    } else {
      SplitPairIs(k[1..], v);
      assert (k + "=" + v)[1..] == k[1..] + "=" + v;
      assert [k[0]] + k[1..] == k;
    }
  }

  lemma LabelMatchesIff(labels: map<string, string>, k: string, v: string)
    requires '=' !in k
    ensures LabelMatches(labels, k + "=" + v) <==> k in labels && labels[k] == v
    ensures LabelMatches(labels, k) <==> k in labels
  {
    SplitPairIs(k, v);
  }

  /** A filter that is used is met by an equal or, where expressions count, a matching value. */
  lemma MatchesIff(q: Query, key: string, source: string)
    ensures Matches(q, key, source) <==>
            (key in q.args && q.args[key] != {} ==> exists v :: v in q.args[key] && (v == source || q.regex(v, source)))
    ensures ExactMatch(q, key, source) <==> (key in q.args && q.args[key] != {} ==> source in q.args[key])
  {
  }

  /** The container's name counts with and without its leading slash. */
  lemma NameFilterIff(q: Query, c: Snapshot)
    ensures var bare := if c.name != "" && c.name[0] == '/' then c.name[1..] else c.name;
            Matches(q, "name", c.name) || Matches(q, "name", TrimSlash(c.name)) <==>
            ("name" in q.args && q.args["name"] != {} ==>
               exists v :: v in q.args["name"] &&
                           (v == c.name || q.regex(v, c.name) || v == bare || q.regex(v, bare)))
  {
    MatchesIff(q, "name", c.name);
    MatchesIff(q, "name", TrimSlash(c.name));
  }

  lemma ExitFilterIff(q: Query, c: Snapshot)
    ensures MatchesExit(q, c) <==> (q.exitAllowed != [] ==> c.exitCode in q.exitAllowed && !c.running && c.everStarted)
  {
  }

  lemma VolumeFilterIff(q: Query, c: Snapshot)
    ensures MatchesVolume(q, c) <==>
            ("volume" in q.args ==>
               exists v, m :: v in q.args["volume"] && m in c.mounts &&
                 ((m.destination != "" && v == m.destination) || (m.name != "" && v == m.name)
                  || (m.name == "" && v == m.source)))
  {
    if "volume" in q.args {
      if MatchesVolume(q, c) {
        var v :| v in q.args["volume"] && MountsVolume(c, v);
        var m :| m in c.mounts && ((m.destination != "" && m.destination == v) || NameOrSource(m) == v);
        assert v in q.args["volume"] && m in c.mounts;
      }
      if v, m :| v in q.args["volume"] && m in c.mounts &&
                 ((m.destination != "" && v == m.destination) || (m.name != "" && v == m.name)
                  || (m.name == "" && v == m.source))
      {
        assert MountsVolume(c, v);
      }
    }
  }

  lemma NetworkFilterIff(q: Query, c: Snapshot)
    ensures MatchesNetwork(q, c) <==>
            ("network" in q.args ==>
               c.networks.Some? &&
               exists v :: v in q.args["network"] &&
                 (v in c.networks.value
                  || exists n :: n in c.networks.value && c.networks.value[n].Some? && v <= c.networks.value[n].value))
  {
    if "network" in q.args {
      if MatchesNetwork(q, c) {
        var v :| v in q.args["network"] && OnNetwork(c, v);
        assert v in q.args["network"];
      }
      if c.networks.Some? {
        forall v ensures OnNetwork(c, v) <==>
          (v in c.networks.value
           || exists n :: n in c.networks.value && c.networks.value[n].Some? && v <= c.networks.value[n].value)
        {
        }
      }
    }
  }

  lemma PortFilterIff(wanted: set<string>, ports: set<string>)
    ensures MatchesPorts(wanted, ports) <==> (wanted != {} ==> exists p :: p in wanted && p in ports)
  {
    if p :| p in wanted && p in ports {
      assert p in wanted * ports;
    } else {
      assert wanted * ports == {};
    }
  }

  /** Ahead of the limit: running unless all or a limit is asked for, name, ID, task and labels. */
  lemma AheadOfLimitIff(q: Query, c: Snapshot)
    ensures AheadOfLimit(q, c) <==>
            && (c.running || q.all || q.limit > 0)
            && ("name" in q.args && q.args["name"] != {} ==>
                  var bare := if c.name != "" && c.name[0] == '/' then c.name[1..] else c.name;
                  exists v :: v in q.args["name"] &&
                              (v == c.name || q.regex(v, c.name) || v == bare || q.regex(v, bare)))
            && ("id" in q.args && q.args["id"] != {} ==>
                  exists v :: v in q.args["id"] && (v == c.id || q.regex(v, c.id)))
            && (q.taskFilter ==> q.isTask == c.managed)
            && ("label" in q.args && q.args["label"] != {} ==>
                  c.labels != map[] && forall w | w in q.args["label"] :: LabelMatches(c.labels, w))
  {
    NameFilterIff(q, c);
    MatchesIff(q, "id", c.id);
    assert |c.labels| == 0 <==> c.labels == map[];
  }

  /** Behind the limit: exit code, status, health, volume, ancestor, network and ports. */
  lemma BehindLimitIff(q: Query, c: Snapshot)
    ensures BehindLimit(q, c) <==>
            && (q.exitAllowed != [] ==> c.exitCode in q.exitAllowed && !c.running && c.everStarted)
            && ("status" in q.args && q.args["status"] != {} ==>
                  exists v :: v in q.args["status"] && (v == c.state || q.regex(v, c.state)))
            && ("health" in q.args && q.args["health"] != {} ==> c.health in q.args["health"])
            && MatchesVolume(q, c) && MatchesNetwork(q, c)
            && (q.ancestorFilter ==> c.imageID in q.images)
            && (q.publish != {} ==> exists p :: p in q.publish && p in c.portBindings)
            && (q.expose != {} ==> exists p :: p in q.expose && p in c.exposedPorts)
  {
    MatchesIff(q, "status", c.state);
    MatchesIff(q, "health", c.health);
    PortFilterIff(q.publish, c.portBindings);
    PortFilterIff(q.expose, c.exposedPorts);
  }

  /** A container is selected exactly if it passes both groups. */
  lemma SatisfiesBoth(q: Query, c: Snapshot)
    ensures Satisfies(q, c) <==> AheadOfLimit(q, c) && BehindLimit(q, c)
  {
  }

  /** The query without any filter. */
  predicate Unfiltered(q: Query) {
    q.args == map[] && !q.taskFilter && q.exitAllowed == [] && !q.ancestorFilter && q.publish == {} && q.expose == {}
  }

  /** The plain listing lets the running containers through, with all or a limit it lets every one through. */
  lemma UnfilteredSatisfies(q: Query, c: Snapshot)
    requires Unfiltered(q)
    ensures Satisfies(q, c) <==> c.running || q.all || q.limit > 0
  {
    AheadOfLimitIff(q, c);
    BehindLimitIff(q, c);
    VolumeFilterIff(q, c);
    NetworkFilterIff(q, c);
  }

  /** Each filter on its own, over all containers. */
  lemma LabelFilter(regex: (string, string) -> bool, k: string, v: string, c: Snapshot)
    requires '=' !in k
    ensures Satisfies(Query(true, 0, map["label" := {k + "=" + v}], regex, false, false, [], false, {}, {}, {}), c) <==>
            k in c.labels && c.labels[k] == v
    ensures Satisfies(Query(true, 0, map["label" := {k}], regex, false, false, [], false, {}, {}, {}), c) <==>
            k in c.labels
  {
    var q := Query(true, 0, map["label" := {k + "=" + v}], regex, false, false, [], false, {}, {}, {});
    var p := Query(true, 0, map["label" := {k}], regex, false, false, [], false, {}, {}, {});
    LabelMatchesIff(c.labels, k, v);
    AheadOfLimitIff(q, c);
    AheadOfLimitIff(p, c);
    BehindLimitIff(q, c);
    BehindLimitIff(p, c);
  }

  lemma StatusAndHealthFilter(regex: (string, string) -> bool, v: string, c: Snapshot)
    ensures Satisfies(Query(true, 0, map["status" := {v}], regex, false, false, [], false, {}, {}, {}), c) <==>
            v == c.state || regex(v, c.state)
    ensures Satisfies(Query(true, 0, map["health" := {v}], regex, false, false, [], false, {}, {}, {}), c) <==>
            v == c.health
  {
    var q := Query(true, 0, map["status" := {v}], regex, false, false, [], false, {}, {}, {});
    var p := Query(true, 0, map["health" := {v}], regex, false, false, [], false, {}, {}, {});
    AheadOfLimitIff(q, c);
    AheadOfLimitIff(p, c);
    BehindLimitIff(q, c);
    BehindLimitIff(p, c);
  }

  lemma ExitAndAncestorFilter(regex: (string, string) -> bool, code: int, images: set<string>, c: Snapshot)
    ensures Satisfies(Query(true, 0, map[], regex, false, false, [code], false, {}, {}, {}), c) <==>
            c.exitCode == code && !c.running && c.everStarted
    ensures Satisfies(Query(true, 0, map[], regex, false, false, [], true, images, {}, {}), c) <==> c.imageID in images
  {
    var q := Query(true, 0, map[], regex, false, false, [code], false, {}, {}, {});
    var p := Query(true, 0, map[], regex, false, false, [], true, images, {}, {});
    AheadOfLimitIff(q, c);
    AheadOfLimitIff(p, c);
    BehindLimitIff(q, c);
    BehindLimitIff(p, c);
  }

  lemma NetworkFilter(regex: (string, string) -> bool, v: string, c: Snapshot)
    ensures Satisfies(Query(true, 0, map["network" := {v}], regex, false, false, [], false, {}, {}, {}), c) <==>
            c.networks.Some? &&
            (v in c.networks.value
             || exists n :: n in c.networks.value && c.networks.value[n].Some? && v <= c.networks.value[n].value)
  {
    var q := Query(true, 0, map["network" := {v}], regex, false, false, [], false, {}, {}, {});
    NetworkFilterIff(q, c);
    AheadOfLimitIff(q, c);
    BehindLimitIff(q, c);
  }

  // ---------------------------------------------------------------------------------------
  // Positions

  /**
   A position is in the window exactly if the before container stands ahead of it and the since
   container has not come up, at it or ahead of it, behind the before container.
   */
  lemma WindowMeans(list: seq<Snapshot>, before: Option<string>, since: Option<string>, i: nat)
    requires i < |list|
    ensures WindowStart(list, before) <= i < WindowEnd(list, before, since) <==>
            && (before.Some? ==> exists j :: 0 <= j < i && list[j].id == before.value)
            && (since.Some? ==>
                  forall k | 0 <= k <= i && list[k].id == since.value ::
                    before.Some? && forall j | 0 <= j < k :: list[j].id != before.value)
  {
    StartMeans(list, before, i);
    if since.Some? && WindowStart(list, before) <= i {
      forall k | 0 <= k <= i && list[k].id == since.value
        ensures WindowStart(list, before) <= k <==> before.None? || exists j :: 0 <= j < k && list[j].id == before.value
      {
        StartMeans(list, before, k);
      }
    }
  }

  lemma StartMeans(list: seq<Snapshot>, before: Option<string>, i: nat)
    requires i < |list|
    ensures WindowStart(list, before) <= i <==> (before.Some? ==> exists j :: 0 <= j < i && list[j].id == before.value)
  {
  }

  /** The flagged positions of a range, in order. */
  ghost function Positions(flags: seq<bool>, lo: nat, hi: nat): (idx: seq<nat>)
    requires lo <= hi <= |flags|
    ensures forall k | 0 <= k < |idx| :: lo <= idx[k] < hi && flags[idx[k]]
    ensures forall k, l | 0 <= k < l < |idx| :: idx[k] < idx[l]
    ensures forall i | lo <= i < hi && flags[i] :: i in idx
    decreases hi
  {
    if lo == hi then [] else
      var init := Positions(flags, lo, hi - 1);
      if flags[hi - 1] then init + [hi - 1] else init
  }

  ghost predicate FlagsSatisfying(q: Query, list: seq<Snapshot>, flags: seq<bool>) {
    |flags| == |list| && forall i | 0 <= i < |list| :: FlagAt(q, list, flags, i)
  }

  ghost predicate FlagAt(q: Query, list: seq<Snapshot>, flags: seq<bool>, i: nat) {
    i < |list| && i < |flags| && flags[i] == Satisfies(q, list[i])
  }

  ghost function Picked(list: seq<Snapshot>, idx: seq<nat>): seq<Snapshot>
    requires forall k | 0 <= k < |idx| :: idx[k] < |list|
  {
    seq(|idx|, k requires 0 <= k < |idx| => list[idx[k]])
  }

  lemma PickedAppends(list: seq<Snapshot>, idx: seq<nat>, i: nat)
    requires (forall k | 0 <= k < |idx| :: idx[k] < |list|) && i < |list|
    ensures Picked(list, idx + [i]) == Picked(list, idx) + [list[i]]
  {
  }

  /** One more container extends the selection exactly if it is flagged. */
  ghost predicate GrowsAt(q: Query, list: seq<Snapshot>, flags: seq<bool>, lo: nat, i: nat) {
    && lo <= i < |list| && i < |flags|
    && Select(q, list[lo..i + 1]) == Select(q, list[lo..i]) + if flags[i] then [list[i]] else []
  }

  lemma FlagsGrow(q: Query, list: seq<Snapshot>, flags: seq<bool>, lo: nat, i: nat)
    requires |flags| == |list| && lo <= i < |list| && FlagAt(q, list, flags, i)
    ensures GrowsAt(q, list, flags, lo, i)
  {
    SelectGrows(q, list, lo, i);
  }

  /** A selection takes the containers at the flagged positions. */
  lemma {:induction false} SelectPicks(q: Query, list: seq<Snapshot>, flags: seq<bool>, lo: nat, hi: nat)
    requires |flags| == |list| && lo <= hi <= |list|
    requires forall i | lo <= i < hi :: GrowsAt(q, list, flags, lo, i)
    ensures Select(q, list[lo..hi]) == Picked(list, Positions(flags, lo, hi))
    decreases hi
  {
    if lo < hi {
      SelectPicks(q, list, flags, lo, hi - 1);
      assert GrowsAt(q, list, flags, lo, hi - 1);
      PickStep(list, flags, lo, hi, Select(q, list[lo..hi - 1]), Select(q, list[lo..hi]));
    }
  }

  lemma PickStep(list: seq<Snapshot>, flags: seq<bool>, lo: nat, hi: nat, was: seq<Snapshot>, now: seq<Snapshot>)
    requires lo < hi <= |list| == |flags| && was == Picked(list, Positions(flags, lo, hi - 1))
    requires now == was + if flags[hi - 1] then [list[hi - 1]] else []
    ensures now == Picked(list, Positions(flags, lo, hi))
  {
    PickedAppends(list, Positions(flags, lo, hi - 1), hi - 1);
  }

  /** Reducing yields each container's item, or the error of the first one that fails. */
  lemma {:induction false} ReduceAllMeans<T, E>(reduce: Snapshot -> Result<T, E>, s: seq<Snapshot>)
    ensures match ReduceAll(reduce, s)
            case Ok(out) => |out| == |s| && forall k | 0 <= k < |s| :: reduce(s[k]) == Ok(out[k])
            case Err(e) =>
              exists k :: 0 <= k < |s| && reduce(s[k]) == Err(e) && forall j | 0 <= j < k :: reduce(s[j]).Ok?
    decreases |s|
  {
    if s != [] {
      var init := s[..|s| - 1];
      ReduceAllMeans(reduce, init);
      match ReduceAll(reduce, init)
      case Err(e) =>
        var k :| 0 <= k < |init| && reduce(init[k]) == Err(e) && forall j | 0 <= j < k :: reduce(init[j]).Ok?;
        assert reduce(s[k]) == Err(e) && forall j | 0 <= j < k :: s[j] == init[j];
      case Ok(out) =>
        assert forall j | 0 <= j < |init| :: s[j] == init[j] && reduce(init[j]) == Ok(out[j]);
        assert Reduced(reduce, s[|s| - 1]) == reduce(s[|s| - 1]);
    }
  }

  /**
   The answer of a listing, position by position: containers of the window that satisfy the query,
   in list order, no more than a positive limit; one that is left out stands behind all of them and
   the limit is reached. Each is reduced, and the first to fail fails the listing.
   */
  lemma AnswerMeans<T, E>(q: Query, list: seq<Snapshot>, before: Option<string>, since: Option<string>,
                          reduce: Snapshot -> Result<T, E>) returns (idx: seq<nat>)
    ensures forall k | 0 <= k < |idx| ::
              idx[k] < |list| && WindowStart(list, before) <= idx[k] < WindowEnd(list, before, since)
              && Satisfies(q, list[idx[k]])
    ensures forall k, l | 0 <= k < l < |idx| :: idx[k] < idx[l]
    ensures q.limit > 0 ==> |idx| <= q.limit
    ensures forall i | WindowStart(list, before) <= i < WindowEnd(list, before, since)
                       && Satisfies(q, list[i]) && i !in idx ::
              q.limit > 0 && |idx| == q.limit && forall k | 0 <= k < |idx| :: idx[k] < i
    ensures match Answer(q, list, before, since, reduce)
            case Ok(out) => |out| == |idx| && forall k | 0 <= k < |idx| :: reduce(list[idx[k]]) == Ok(out[k])
            case Err(e) =>
              exists k :: 0 <= k < |idx| && reduce(list[idx[k]]) == Err(e)
                          && forall j | 0 <= j < k :: reduce(list[idx[j]]).Ok?
  {
    var flags := SatisfyingFlags(q, list);
    idx := ChosenPositions(flags, WindowStart(list, before), WindowEnd(list, before, since), q.limit);
    AnswerOutcome(q, list, flags, before, since, reduce, idx);
    forall i | WindowStart(list, before) <= i < WindowEnd(list, before, since) && Satisfies(q, list[i]) && i !in idx
      ensures q.limit > 0 && |idx| == q.limit && forall k | 0 <= k < |idx| :: idx[k] < i
    {
      assert FlagAt(q, list, flags, i);
    }
    forall k | 0 <= k < |idx| ensures Satisfies(q, list[idx[k]]) {
      assert FlagAt(q, list, flags, idx[k]);
    }
  }

  lemma SatisfyingFlags(q: Query, list: seq<Snapshot>) returns (flags: seq<bool>)
    ensures FlagsSatisfying(q, list, flags)
  {
    flags := seq(|list|, i requires 0 <= i < |list| => Satisfies(q, list[i]));
  }

  /** The flagged positions of a range within the limit. */
  lemma ChosenPositions(flags: seq<bool>, lo: nat, hi: nat, limit: int) returns (idx: seq<nat>)
    requires lo <= hi <= |flags|
    ensures var all := Positions(flags, lo, hi);
            idx == all[..if limit > 0 && |all| > limit then limit else |all|]
    ensures forall k | 0 <= k < |idx| :: lo <= idx[k] < hi && flags[idx[k]]
    ensures forall k, l | 0 <= k < l < |idx| :: idx[k] < idx[l]
    ensures limit > 0 ==> |idx| <= limit
    ensures forall i | lo <= i < hi && flags[i] && i !in idx ::
              limit > 0 && |idx| == limit && forall k | 0 <= k < |idx| :: idx[k] < i
  {
    var all := Positions(flags, lo, hi);
    idx := FirstPositions(all, limit);
  }

  lemma AnswerOutcome<T, E>(q: Query, list: seq<Snapshot>, flags: seq<bool>, before: Option<string>,
                            since: Option<string>, reduce: Snapshot -> Result<T, E>, idx: seq<nat>)
    requires FlagsSatisfying(q, list, flags)
    requires var all := Positions(flags, WindowStart(list, before), WindowEnd(list, before, since));
             idx == all[..if q.limit > 0 && |all| > q.limit then q.limit else |all|]
    ensures match Answer(q, list, before, since, reduce)
            case Ok(out) => |out| == |idx| && forall k | 0 <= k < |idx| :: reduce(list[idx[k]]) == Ok(out[k])
            case Err(e) =>
              exists k :: 0 <= k < |idx| && reduce(list[idx[k]]) == Err(e)
                          && forall j | 0 <= j < k :: reduce(list[idx[j]]).Ok?
  {
    AnswerPicks(q, list, flags, before, since, reduce, idx);
    ReducedPicks(reduce, list, idx);
  }

  lemma AnswerPicks<T, E>(q: Query, list: seq<Snapshot>, flags: seq<bool>, before: Option<string>,
                          since: Option<string>, reduce: Snapshot -> Result<T, E>, idx: seq<nat>)
    requires FlagsSatisfying(q, list, flags)
    requires var all := Positions(flags, WindowStart(list, before), WindowEnd(list, before, since));
             idx == all[..if q.limit > 0 && |all| > q.limit then q.limit else |all|]
    ensures Answer(q, list, before, since, reduce) == ReduceAll(reduce, Picked(list, idx))
  {
    var lo, hi := WindowStart(list, before), WindowEnd(list, before, since);
    forall i | lo <= i < hi ensures GrowsAt(q, list, flags, lo, i) {
      assert FlagAt(q, list, flags, i);
      FlagsGrow(q, list, flags, lo, i);
    }
    SelectPicks(q, list, flags, lo, hi);
    LimitedPicks(list, Positions(flags, lo, hi), q.limit);
  }

  /** The positions within the limit; what it leaves out stands behind them. */
  lemma FirstPositions(all: seq<nat>, limit: int) returns (idx: seq<nat>)
    requires forall k, l | 0 <= k < l < |all| :: all[k] < all[l]
    ensures idx <= all && |idx| == if limit > 0 && |all| > limit then limit else |all|
    ensures forall i | i in all && i !in idx :: limit > 0 && |idx| == limit && forall k | 0 <= k < |idx| :: idx[k] < i
  {
    idx := if limit > 0 && |all| > limit then all[..limit] else all;
    forall i | i in all && i !in idx ensures |idx| == limit && forall k | 0 <= k < |idx| :: idx[k] < i {
      var l :| 0 <= l < |all| && all[l] == i;
      assert l >= |idx|;
    }
  }

  lemma LimitedPicks(list: seq<Snapshot>, all: seq<nat>, limit: int)
    requires forall k | 0 <= k < |all| :: all[k] < |list|
    ensures var n := if limit > 0 && |all| > limit then limit else |all|;
            Limited(limit, Picked(list, all)) == Picked(list, all[..n])
  {
  }

  lemma ReducedPicks<T, E>(reduce: Snapshot -> Result<T, E>, list: seq<Snapshot>, idx: seq<nat>)
    requires forall k | 0 <= k < |idx| :: idx[k] < |list|
    ensures match ReduceAll(reduce, Picked(list, idx))
            case Ok(out) => |out| == |idx| && forall k | 0 <= k < |idx| :: reduce(list[idx[k]]) == Ok(out[k])
            case Err(e) =>
              exists k :: 0 <= k < |idx| && reduce(list[idx[k]]) == Err(e)
                          && forall j | 0 <= j < k :: reduce(list[idx[j]]).Ok?
  {
    var s := Picked(list, idx);
    ReduceAllMeans(reduce, s);
    match ReduceAll(reduce, s)
    case Ok(_) =>
    case Err(e) =>
      var k :| 0 <= k < |s| && reduce(s[k]) == Err(e) && forall j | 0 <= j < k :: reduce(s[j]).Ok?;
      assert reduce(list[idx[k]]) == Err(e);
      assert forall j | 0 <= j < k :: s[j] == list[idx[j]];
  }

  /** The plain listing returns exactly the running containers of the window; with all set, the whole window. */
  lemma PlainListing<T, E>(q: Query, list: seq<Snapshot>, before: Option<string>, since: Option<string>,
                           reduce: Snapshot -> Result<T, E>) returns (idx: seq<nat>)
    requires Unfiltered(q) && q.limit <= 0
    ensures forall k, l | 0 <= k < l < |idx| :: idx[k] < idx[l]
    ensures forall i :: i in idx <==>
              WindowStart(list, before) <= i < WindowEnd(list, before, since) && (q.all || list[i].running)
    ensures Answer(q, list, before, since, reduce).Ok? ==>
              var out := Answer(q, list, before, since, reduce).value;
              |out| == |idx| && forall k | 0 <= k < |idx| :: idx[k] < |list| && reduce(list[idx[k]]) == Ok(out[k])
  {
    idx := AnswerMeans(q, list, before, since, reduce);
    forall c ensures Satisfies(q, c) <==> c.running || q.all {
      UnfilteredSatisfies(q, c);
    }
    assert forall i | i in idx :: exists k :: 0 <= k < |idx| && idx[k] == i;
  }
}
