/**
 The mount pass of the OCI spec builder (WithMounts in daemon/oci_linux.go): an in-place filter
 of the default mounts, then one entry per user mount while the root filesystem's propagation is
 raised as needed.

 What the host says about a path (its propagation, locked flags) is a parameter.
 */
module Mounts {
  import opened Wrappers

  datatype SpecMount = SpecMount(destination: string, source: string, kind: string, options: seq<string>)

  datatype UserMount = UserMount(source: string, destination: string, propagation: string,
                                 writable: bool, nonRecursive: bool, data: string)

  // ---------------------------------------------------------------------------------------
  // Default mounts

  /** A default mount survives unless a user mount, a user /dev or IPC mode "none" overrides it. */
  predicate Kept(userMounts: set<string>, ipcNone: bool, m: SpecMount) {
    && m.destination !in userMounts
    && !("/dev" in userMounts && "/dev/" <= m.destination)
    && !(m.destination == "/dev/shm" && ipcNone)
  }

  function Sized(sizeOpt: string, m: SpecMount): SpecMount {
    if m.destination == "/dev/shm" then m.(options := m.options + [sizeOpt]) else m
  }

  /** A default goes if a user mount has its destination, a user mounts /dev above it, or it is an unwanted /dev/shm. */
  lemma KeptIff(userMounts: set<string>, ipcNone: bool, m: SpecMount)
    ensures Kept(userMounts, ipcNone, m) <==>
            && m.destination !in userMounts
            && ("/dev" in userMounts ==> !("/dev/" <= m.destination))
            && (ipcNone ==> m.destination != "/dev/shm")
  {
  }

  /** Only the default /dev/shm gets the size option, behind its own options. */
  lemma SizedIs(sizeOpt: string, m: SpecMount)
    ensures m.destination == "/dev/shm" ==>
              Sized(sizeOpt, m) == SpecMount("/dev/shm", m.source, m.kind, m.options + [sizeOpt])
    ensures m.destination != "/dev/shm" ==> Sized(sizeOpt, m) == m
  {
  }

  function KeptDefaults(userMounts: set<string>, ipcNone: bool, sizeOpt: string, ms: seq<SpecMount>): seq<SpecMount>
    decreases |ms|
  {
    if ms == [] then [] else
      var init, m := ms[..|ms| - 1], ms[|ms| - 1];
      KeptDefaults(userMounts, ipcNone, sizeOpt, init)
      + if Kept(userMounts, ipcNone, m) then [Sized(sizeOpt, m)] else []
  }

  /** Nothing kept is overridden, and everything not overridden is kept. */
  lemma {:induction false} KeptDefaultsExact(userMounts: set<string>, ipcNone: bool, sizeOpt: string,
                                             ms: seq<SpecMount>)
    ensures forall r :: r in KeptDefaults(userMounts, ipcNone, sizeOpt, ms) <==>
                        exists m :: m in ms && Kept(userMounts, ipcNone, m) && r == Sized(sizeOpt, m)
    decreases |ms|
  {
    if ms != [] {
      var init := ms[..|ms| - 1];
      assert ms == init + [ms[|ms| - 1]];
      KeptDefaultsExact(userMounts, ipcNone, sizeOpt, init);
    }
  }

  /** Filters the spec's mounts in place; the result is the first n elements. */
  method FilterDefaults(a: array<SpecMount>, userMounts: set<string>, ipcNone: bool, sizeOpt: string) returns (n: nat)
    modifies a
    ensures n <= a.Length
    ensures a[..n] == KeptDefaults(userMounts, ipcNone, sizeOpt, old(a[..]))
  {
    ghost var was := a[..];
    n := 0;
    for i := 0 to a.Length
      invariant n <= i
      invariant a[..n] == KeptDefaults(userMounts, ipcNone, sizeOpt, was[..i])
      invariant forall k | i <= k < a.Length :: a[k] == was[k]
    {
      var m := a[i];
      KeptDefaultsStep(userMounts, ipcNone, sizeOpt, was, i);
      if m.destination in userMounts {
        continue;
      }
      if "/dev" in userMounts && "/dev/" <= m.destination {
        continue;
      }
      if m.destination == "/dev/shm" {
        if ipcNone {
          continue;
        }
        m := m.(options := m.options + [sizeOpt]);
      }
      ghost var before := a[..n];
      a[n] := m;
      n := n + 1;
      assert a[..n] == before + [m];
    }
    assert was[..a.Length] == was;
  }

  lemma KeptDefaultsStep(userMounts: set<string>, ipcNone: bool, sizeOpt: string, ms: seq<SpecMount>, i: nat)
    requires i < |ms|
    ensures KeptDefaults(userMounts, ipcNone, sizeOpt, ms[..i + 1]) ==
            if Kept(userMounts, ipcNone, ms[i])
            then KeptDefaults(userMounts, ipcNone, sizeOpt, ms[..i]) + [Sized(sizeOpt, ms[i])]
            else KeptDefaults(userMounts, ipcNone, sizeOpt, ms[..i])
  {
    assert ms[..i + 1][..i] == ms[..i];
  }

  // ---------------------------------------------------------------------------------------
  // User mounts

  /** What the host, the daemon and the container contribute to the pass. */
  datatype Host = Host(
    root: string,                                 // the daemon's root directory
    shared: string -> bool,                       // the path's source mount is shared
    sharedOrSlave: string -> bool,
    mountPoints: map<string, string>,             // destination to explicitly set propagation, "" if none
    remappedRoot: bool,
    lockedFlags: string -> Option<seq<string>>,   // None if the path cannot be examined
    tmpfsOptions: string -> Option<seq<string>>)  // None if the options do not merge

  /** Private 0, slave 1, shared 2; recursive variants alike; anything unknown is 0. */
  function Strength(propagation: string): nat {
    if propagation == "shared" || propagation == "rshared" then 2
    else if propagation == "slave" || propagation == "rslave" then 1
    else 0
  }

  predicate KnownPropagation(p: string) {
    p == "private" || p == "rprivate" || p == "shared" || p == "rshared" || p == "slave" || p == "rslave"
  }

  predicate Bind(m: UserMount) { m.source != "tmpfs" }

  /** A slave mount in the daemon root without explicit propagation may fall back to private. */
  predicate MayFallBack(h: Host, m: UserMount) {
    && (h.root <= m.source || m.source <= h.root)
    && m.destination in h.mountPoints && h.mountPoints[m.destination] == ""
  }

  /** The propagation a bind mount needs from the root filesystem. */
  function Needs(h: Host, m: UserMount): nat {
    if !Bind(m) then 0
    else if Strength(m.propagation) == 1 && !h.sharedOrSlave(m.source) then 0
    else Strength(m.propagation)
  }

  /** The host admits the mount. */
  predicate Admissible(h: Host, m: UserMount) {
    if !Bind(m) then h.tmpfsOptions(m.data).Some? else
      && (Strength(m.propagation) == 2 ==> h.shared(m.source))
      && (Strength(m.propagation) == 1 ==> h.sharedOrSlave(m.source) || MayFallBack(h, m))
      && (h.remappedRoot ==> h.lockedFlags(m.source).Some?)
  }

  function Entry(h: Host, m: UserMount): SpecMount
    requires Admissible(h, m)
  {
    if !Bind(m) then SpecMount(m.destination, m.source, "tmpfs", h.tmpfsOptions(m.data).value)
    else SpecMount(m.destination, m.source, "bind",
                   [if m.nonRecursive then "bind" else "rbind"]
                   + (if m.writable then [] else ["ro"])
                   + (if KnownPropagation(m.propagation) then [m.propagation] else [])
                   + (if h.remappedRoot then h.lockedFlags(m.source).value else []))
  }

  /** A bind entry is read-only exactly when the mount is not writable, unless the host locks the flag. */
  lemma BindEntryOptions(h: Host, m: UserMount)
    requires Admissible(h, m) && Bind(m)
    ensures var o := Entry(h, m).options;
            && o[0] == (if m.nonRecursive then "bind" else "rbind")
            && (!m.writable ==> "ro" in o)
            && (m.writable && "ro" in o ==> h.remappedRoot && "ro" in h.lockedFlags(m.source).value)
            && (KnownPropagation(m.propagation) ==> m.propagation in o)
  {
    var o := Entry(h, m).options;
    var mode := [if m.nonRecursive then "bind" else "rbind"];
    var ro := if m.writable then [] else ["ro"];
    var prop := if KnownPropagation(m.propagation) then [m.propagation] else [];
    var locked := if h.remappedRoot then h.lockedFlags(m.source).value else [];
    assert o == mode + ro + prop + locked;
    assert forall x :: x in o <==> x in mode || x in ro || x in prop || x in locked;
  }

  /** The strengths of the known propagations. */
  lemma StrengthIs(p: string)
    ensures Strength(p) == 2 <==> p == "shared" || p == "rshared"
    ensures Strength(p) == 1 <==> p == "slave" || p == "rslave"
    ensures Strength(p) <= 2
  {
  }

  /**
   A tmpfs mount needs options that merge. A bind mount needs a shared source for shared propagation,
   and a shared or slave source for slave propagation unless it lies in the daemon root and its
   propagation was not asked for; with a remapped root its flags have to be readable.
   */
  lemma AdmissibleIff(h: Host, m: UserMount)
    ensures m.source == "tmpfs" ==> (Admissible(h, m) <==> h.tmpfsOptions(m.data).Some?)
    ensures m.source != "tmpfs" ==>
              (Admissible(h, m) <==>
               && (m.propagation == "shared" || m.propagation == "rshared" ==> h.shared(m.source))
               && (m.propagation == "slave" || m.propagation == "rslave" ==>
                     h.sharedOrSlave(m.source)
                     || ((h.root <= m.source || m.source <= h.root)
                         && m.destination in h.mountPoints && h.mountPoints[m.destination] == ""))
               && (h.remappedRoot ==> h.lockedFlags(m.source).Some?))
  {
  }

  /** Only bind mounts need anything of the root: shared ones 2, slave ones 1 unless they fell back. */
  lemma NeedsIs(h: Host, m: UserMount)
    ensures Needs(h, m) == 2 <==> m.source != "tmpfs" && (m.propagation == "shared" || m.propagation == "rshared")
    ensures Needs(h, m) == 1 <==>
            m.source != "tmpfs" && (m.propagation == "slave" || m.propagation == "rslave") && h.sharedOrSlave(m.source)
    ensures Needs(h, m) <= 2
  {
  }

  /** The entry has the mount's destination and source, its kind, and the options in this order. */
  lemma EntryMeans(h: Host, m: UserMount)
    requires Admissible(h, m)
    ensures m.source == "tmpfs" ==>
              Entry(h, m) == SpecMount(m.destination, "tmpfs", "tmpfs", h.tmpfsOptions(m.data).value)
    ensures m.source != "tmpfs" ==>
              && Entry(h, m).destination == m.destination && Entry(h, m).source == m.source
              && Entry(h, m).kind == "bind"
              && Entry(h, m).options ==
                 [if m.nonRecursive then "bind" else "rbind"]
                 + (if m.writable then [] else ["ro"])
                 + (if m.propagation in {"private", "rprivate", "shared", "rshared", "slave", "rslave"}
                    then [m.propagation] else [])
                 + (if h.remappedRoot then h.lockedFlags(m.source).value else [])
  {
    assert KnownPropagation(m.propagation) <==>
           m.propagation in {"private", "rprivate", "shared", "rshared", "slave", "rslave"};
  }

  function EntriesOf(h: Host, ms: seq<UserMount>): seq<SpecMount>
    requires forall m | m in ms :: Admissible(h, m)
  {
    seq(|ms|, i requires 0 <= i < |ms| => Entry(h, ms[i]))
  }

  /** Some mount of the pass needs at least the given strength. */
  predicate AnyNeeds(h: Host, ms: seq<UserMount>, level: nat) {
    exists m :: m in ms && Needs(h, m) == level
  }

  /** The root propagation after a pass, whatever the order of the mounts. */
  function Raised(h: Host, initial: string, ms: seq<UserMount>): string {
    if AnyNeeds(h, ms, 2) then (if Strength(initial) == 2 then initial else "shared")
    else if AnyNeeds(h, ms, 1) then (if Strength(initial) >= 1 then initial else "rslave")
    else initial
  }

  /** One bind mount's effect on the root propagation. */
  function RaisedOnce(h: Host, current: string, m: UserMount): string {
    match Needs(h, m)
    case 2 => if Strength(current) == 2 then current else "shared"
    case 1 => if Strength(current) >= 1 then current else "rslave"
    case _ => current
  }

  lemma AnyNeedsAppends(h: Host, ms: seq<UserMount>, m: UserMount, level: nat)
    ensures AnyNeeds(h, ms + [m], level) <==> AnyNeeds(h, ms, level) || Needs(h, m) == level
  {
    if AnyNeeds(h, ms, level) {
      var x :| x in ms && Needs(h, x) == level;
      assert x in ms + [m];
    }
    assert m in ms + [m];
  }

  /** Folding the mounts one by one gives the order-free result. */
  lemma RaisedAppends(h: Host, initial: string, ms: seq<UserMount>, m: UserMount)
    ensures Raised(h, initial, ms + [m]) == RaisedOnce(h, Raised(h, initial, ms), m)
  {
    AnyNeedsAppends(h, ms, m, 1);
    AnyNeedsAppends(h, ms, m, 2);
  }

  /** The strength reached is exactly the greatest of the initial one and those needed. */
  lemma RaisedIsLeastSufficient(h: Host, initial: string, ms: seq<UserMount>)
    ensures Strength(initial) <= Strength(Raised(h, initial, ms))
    ensures forall m | m in ms :: Needs(h, m) <= Strength(Raised(h, initial, ms))
    ensures Strength(Raised(h, initial, ms)) == Strength(initial)
            || exists m :: m in ms && Needs(h, m) == Strength(Raised(h, initial, ms))
    ensures Strength(Raised(h, initial, ms)) == Strength(initial) ==> Raised(h, initial, ms) == initial
  {
    forall m | m in ms ensures Needs(h, m) <= Strength(Raised(h, initial, ms)) {
      assert Needs(h, m) == 2 ==> AnyNeeds(h, ms, 2);
      assert Needs(h, m) == 1 ==> AnyNeeds(h, ms, 1);
    }
  }

  /** The root propagation becomes "shared" or "rslave" just if a mount needs so much and it was weaker. */
  lemma RaisedMeans(h: Host, initial: string, ms: seq<UserMount>)
    ensures (exists m :: m in ms && Needs(h, m) == 2) ==>
              Raised(h, initial, ms) == if initial == "shared" || initial == "rshared" then initial else "shared"
    ensures !(exists m :: m in ms && Needs(h, m) == 2) && (exists m :: m in ms && Needs(h, m) == 1) ==>
              Raised(h, initial, ms) ==
              if initial in {"shared", "rshared", "slave", "rslave"} then initial else "rslave"
    ensures (forall m | m in ms :: Needs(h, m) == 0) ==> Raised(h, initial, ms) == initial
  {
    assert AnyNeeds(h, ms, 2) <==> exists m :: m in ms && Needs(h, m) == 2;
    assert AnyNeeds(h, ms, 1) <==> exists m :: m in ms && Needs(h, m) == 1;
  }

  /** The order of the mounts does not matter to the outcome or to the root propagation. */
  lemma OrderDoesNotMatter(h: Host, initial: string, ms: seq<UserMount>, ns: seq<UserMount>)
    requires multiset(ms) == multiset(ns)
    ensures Raised(h, initial, ms) == Raised(h, initial, ns)
    ensures (forall m | m in ms :: Admissible(h, m)) <==> (forall m | m in ns :: Admissible(h, m))
  {
    assert forall m :: m in ms <==> m in multiset(ms);
    assert forall m :: m in ns <==> m in multiset(ns);
    forall level: nat ensures AnyNeeds(h, ms, level) <==> AnyNeeds(h, ns, level) {}
  }

  /** One step of the loop: the new root propagation and the entry, or an error. */
  method AddMount(h: Host, current: string, m: UserMount) returns (r: Option<(string, SpecMount)>)
    ensures r.Some? <==> Admissible(h, m)
    ensures r.Some? ==> r.value == (RaisedOnce(h, current, m), Entry(h, m))
  {
    if m.source == "tmpfs" {
      var merged := h.tmpfsOptions(m.data);
      if merged.None? {
        return None;
      }
      return Some((current, SpecMount(m.destination, m.source, "tmpfs", merged.value)));
    }
    var rootfs := current;
    if Strength(m.propagation) == 2 {
      if !h.shared(m.source) {
        return None;
      }
      if Strength(rootfs) != 2 {
        rootfs := "shared";
      }
    } else if Strength(m.propagation) == 1 {
      var fallback := false;
      if !h.sharedOrSlave(m.source) {
        if !(h.root <= m.source) && !(m.source <= h.root) {
          return None;
        }
        if m.destination !in h.mountPoints {
          return None;
        }
        if h.mountPoints[m.destination] != "" {
          return None;
        }
        fallback := true;
      }
      if !fallback && Strength(rootfs) == 0 {
        rootfs := "rslave";
      }
    }
    var opts := [if m.nonRecursive then "bind" else "rbind"];
    if !m.writable {
      opts := opts + ["ro"];
    }
    if KnownPropagation(m.propagation) {
      opts := opts + [m.propagation];
    }
    if h.remappedRoot {
      var flags := h.lockedFlags(m.source);
      if flags.None? {
        return None;
      }
      opts := opts + flags.value;
    }
    assert opts == Entry(h, m).options;
    r := Some((rootfs, SpecMount(m.destination, m.source, "bind", opts)));
  }

  /**
   The loop over the user mounts succeeds exactly when the host admits every mount. The spec then
   has the kept defaults followed by one entry per mount, and the root propagation is raised just
   as far as the mounts need.
   */
  method AddMounts(h: Host, initial: string, defaults: seq<SpecMount>, ms: seq<UserMount>)
    returns (r: Option<(string, seq<SpecMount>)>)
    ensures r.Some? <==> forall m | m in ms :: Admissible(h, m)
    ensures r.Some? ==> r.value == (Raised(h, initial, ms), defaults + EntriesOf(h, ms))
  {
    var rootfs, mounts := initial, defaults;
    for i := 0 to |ms|
      invariant forall m | m in ms[..i] :: Admissible(h, m)
      invariant rootfs == Raised(h, initial, ms[..i])
      invariant mounts == defaults + EntriesOf(h, ms[..i])
    {
      var one := AddMount(h, rootfs, ms[i]);
      if one.None? {
        assert ms[i] in ms;
        return None;
      }
      assert ms[..i + 1] == ms[..i] + [ms[i]];
      RaisedAppends(h, initial, ms[..i], ms[i]);
      rootfs := one.value.0;
      mounts := mounts + [one.value.1];
      assert EntriesOf(h, ms[..i + 1]) == EntriesOf(h, ms[..i]) + [Entry(h, ms[i])];
    }
    assert ms[..|ms|] == ms;
    r := Some((rootfs, mounts));
  }

  // ---------------------------------------------------------------------------------------
  // The whole pass

  function Destinations(ms: seq<UserMount>): set<string> { set i | 0 <= i < |ms| :: ms[i].destination }

  /** The spec's mounts after a pass. */
  function PassResult(h: Host, ipcNone: bool, sizeOpt: string, defaults: seq<SpecMount>,
                      ms: seq<UserMount>): seq<SpecMount>
    requires forall m | m in ms :: Admissible(h, m)
  {
    KeptDefaults(Destinations(ms), ipcNone, sizeOpt, defaults) + EntriesOf(h, ms)
  }

  /**
   A mount of the finished spec is an entry of a user mount, or a default that no user mount
   shadows; every user mount and every such default is there.
   */
  lemma PassIsExact(h: Host, ipcNone: bool, sizeOpt: string, defaults: seq<SpecMount>, ms: seq<UserMount>)
    requires forall m | m in ms :: Admissible(h, m)
    ensures forall r :: r in PassResult(h, ipcNone, sizeOpt, defaults, ms) <==>
              (exists m :: m in ms && r == Entry(h, m)) ||
              (exists d :: d in defaults && !Shadowed(ms, d) && !(d.destination == "/dev/shm" && ipcNone)
                           && r == Sized(sizeOpt, d))
  {
    KeptDefaultsExact(Destinations(ms), ipcNone, sizeOpt, defaults);
    forall d | d in defaults ensures Kept(Destinations(ms), ipcNone, d) <==>
                                     !Shadowed(ms, d) && !(d.destination == "/dev/shm" && ipcNone)
    {
      ShadowedIffOverridden(ms, d);
    }
    var es := EntriesOf(h, ms);
    assert forall i | 0 <= i < |ms| :: es[i] == Entry(h, ms[i]);
    forall m | m in ms ensures Entry(h, m) in es {
      var i :| 0 <= i < |ms| && ms[i] == m;
      assert es[i] == Entry(h, m);
    }
  }

  /** Some user mount has the default's destination, or is mounted on /dev above it. */
  predicate Shadowed(ms: seq<UserMount>, d: SpecMount) {
    exists m :: m in ms && (m.destination == d.destination || (m.destination == "/dev" && "/dev/" <= d.destination))
  }

  /** The user's entries are the last of the mounts, in the order of the user's mounts. */
  lemma PassEndsInEntries(h: Host, ipcNone: bool, sizeOpt: string, defaults: seq<SpecMount>, ms: seq<UserMount>, i: nat)
    requires (forall m | m in ms :: Admissible(h, m)) && i < |ms|
    ensures var r := PassResult(h, ipcNone, sizeOpt, defaults, ms);
            |r| >= |ms| && r[|r| - |ms| + i] == Entry(h, ms[i])
  {
    var es := EntriesOf(h, ms);
    assert es[i] == Entry(h, ms[i]);
  }

  lemma ShadowedIffOverridden(ms: seq<UserMount>, d: SpecMount)
    ensures Shadowed(ms, d) <==>
            d.destination in Destinations(ms) || ("/dev" in Destinations(ms) && "/dev/" <= d.destination)
  {
    if d.destination in Destinations(ms) {
      var i :| 0 <= i < |ms| && ms[i].destination == d.destination;
      assert ms[i] in ms;
    } else if "/dev" in Destinations(ms) && "/dev/" <= d.destination {
      var i :| 0 <= i < |ms| && ms[i].destination == "/dev";
      assert ms[i] in ms;
    }
  }

  /** Collects the user's destinations, filters the defaults in place and adds the user mounts. */
  method WithMounts(h: Host, a: array<SpecMount>, initial: string, ipcNone: bool, sizeOpt: string, ms: seq<UserMount>)
    returns (r: Option<(string, seq<SpecMount>)>)
    modifies a
    ensures r.Some? <==> forall m | m in ms :: Admissible(h, m)
    ensures r.Some? ==> r.value == (Raised(h, initial, ms), PassResult(h, ipcNone, sizeOpt, old(a[..]), ms))
  {
    var userMounts: set<string> := {};
    for i := 0 to |ms|
      invariant userMounts == Destinations(ms[..i])
      invariant a[..] == old(a[..])
    {
      userMounts := userMounts + {ms[i].destination};
      assert forall j | 0 <= j < i :: ms[..i + 1][j] == ms[..i][j];
      assert ms[..i + 1][i] == ms[i];
      assert Destinations(ms[..i + 1]) == Destinations(ms[..i]) + {ms[i].destination};
    }
    assert ms[..|ms|] == ms;
    var n := FilterDefaults(a, userMounts, ipcNone, sizeOpt);
    r := AddMounts(h, initial, a[..n], ms);
  }
}
