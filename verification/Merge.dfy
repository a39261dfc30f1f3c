/**
 Completing a user's container configuration from an image's (merge in daemon/commit.go, on
 anything but Windows). None stands for nil.
 */
module Merge {
  import opened Wrappers
  import Env

  datatype Healthcheck = Healthcheck(test: seq<string>, interval: int, timeout: int, startPeriod: int, retries: int)

  datatype Config = Config(
    user: string,
    exposedPorts: Option<set<string>>,
    env: Option<seq<string>>,
    labels: Option<map<string, string>>,
    cmd: Option<seq<string>>,
    entrypoint: Option<seq<string>>,
    healthcheck: Option<Healthcheck>,
    workingDir: string,
    volumes: Option<set<string>>,
    stopSignal: string)

  predicate NoItems(s: Option<seq<string>>) { s.None? || s.value == [] }

  predicate NoKeys(s: Option<set<string>>) { s.None? || s.value == {} }

  // ---------------------------------------------------------------------------------------
  // Environment

  predicate HasKey(env: seq<string>, k: string) { exists i :: 0 <= i < |env| && Env.Key(env[i]) == k }

  /** For each key the user lacks, the first image entry with that key, in image order. */
  function Missing(user: seq<string>, image: seq<string>): seq<string>
    decreases |image|
  {
    if image == [] then [] else
      var init, e := image[..|image| - 1], image[|image| - 1];
      Missing(user, init) + if HasKey(user, Env.Key(e)) || HasKey(init, Env.Key(e)) then [] else [e]
  }

  lemma HasKeyAppends(a: seq<string>, b: seq<string>, k: string)
    ensures HasKey(a + b, k) <==> HasKey(a, k) || HasKey(b, k)
  {
    var ab := a + b;
    assert forall i | 0 <= i < |a| :: ab[i] == a[i];
    assert forall i | 0 <= i < |b| :: ab[|a| + i] == b[i];
    assert forall i | |a| <= i < |ab| :: ab[i] == b[i - |a|];
  }

  /** The keys that get added are exactly the image's keys that the user lacks. */
  lemma {:induction false} MissingKeys(user: seq<string>, image: seq<string>, k: string)
    ensures HasKey(Missing(user, image), k) <==> HasKey(image, k) && !HasKey(user, k)
    decreases |image|
  {
    if image != [] {
      var init, e := image[..|image| - 1], image[|image| - 1];
      assert image == init + [e];
      MissingKeys(user, init, k);
      HasKeyAppends(init, [e], k);
      HasKeyAppends(Missing(user, init), [e], k);
      assert [e][0] == e;
      assert Missing(user, init) + [] == Missing(user, init);
    }
  }

  /** One more image entry is added behind the others exactly if its key is new to the user and to the image so far. */
  lemma MissingGrows(user: seq<string>, image: seq<string>, e: string)
    ensures Missing(user, []) == []
    ensures Missing(user, image + [e]) ==
            if (forall x | x in user :: Env.Key(x) != Env.Key(e)) && (forall x | x in image :: Env.Key(x) != Env.Key(e))
            then Missing(user, image) + [e] else Missing(user, image)
  {
    assert (image + [e])[..|image|] == image;
    assert Missing(user, image) + [] == Missing(user, image);
    HasKeyIff(user, Env.Key(e));
    HasKeyIff(image, Env.Key(e));
  }

  lemma HasKeyIff(env: seq<string>, k: string)
    ensures HasKey(env, k) <==> exists e :: e in env && Env.Key(e) == k
  {
    if i :| 0 <= i < |env| && Env.Key(env[i]) == k {
      assert env[i] in env;
    }
  }

  lemma {:induction false} NothingMissing(user: seq<string>, image: seq<string>)
    requires forall i | 0 <= i < |image| :: HasKey(user, Env.Key(image[i]))
    ensures Missing(user, image) == []
    decreases |image|
  {
    if image != [] {
      NothingMissing(user, image[..|image| - 1]);
    }
  }

  /** A key of the image that the user lacks is added once, with its first value. */
  lemma {:induction false} MissingIsFirst(user: seq<string>, image: seq<string>, i: nat)
    requires i < |image| && !HasKey(user, Env.Key(image[i]))
    requires forall j | 0 <= j < i :: Env.Key(image[j]) != Env.Key(image[i])
    ensures forall e | e in Missing(user, image) && Env.Key(e) == Env.Key(image[i]) :: e == image[i]
    ensures image[i] in Missing(user, image)
    decreases |image|
  {
    var init, e := image[..|image| - 1], image[|image| - 1];
    if i == |image| - 1 {
      assert !HasKey(init, Env.Key(e));
      MissingKeys(user, init, Env.Key(e));
      var m := Missing(user, init);
      assert forall x | x in m :: exists j :: 0 <= j < |m| && m[j] == x;
    } else {
      MissingIsFirst(user, init, i);
      assert init[i] == image[i];
      if Env.Key(e) == Env.Key(image[i]) {
        assert HasKey(init, Env.Key(e));
      }
    }
  }

  lemma {:induction false} MissingDistinct(user: seq<string>, image: seq<string>)
    ensures var m := Missing(user, image);
            forall i, j | 0 <= i < j < |m| :: Env.Key(m[i]) != Env.Key(m[j])
    decreases |image|
  {
    if image != [] {
      var init, e := image[..|image| - 1], image[|image| - 1];
      MissingDistinct(user, init);
      MissingKeys(user, init, Env.Key(e));
    }
  }

  method MergeEnv(user: seq<string>, image: seq<string>) returns (env: seq<string>)
    ensures env == user + Missing(user, image)
  {
    env := user;
    for i := 0 to |image|
      invariant env == user + Missing(user, image[..i])
    {
      var imageEnv := image[i];
      var found := FindKey(env, Env.Key(imageEnv));
      HasKeyAppends(user, Missing(user, image[..i]), Env.Key(imageEnv));
      MissingKeys(user, image[..i], Env.Key(imageEnv));
      assert image[..i + 1][..i] == image[..i];
      if !found {
        env := env + [imageEnv];
      }
    }
    assert image[..|image|] == image;
  }

  /** The inner loop: whether some entry has the key. */
  method FindKey(env: seq<string>, k: string) returns (found: bool)
    ensures found <==> HasKey(env, k)
  {
    for j := 0 to |env|
      invariant forall i | 0 <= i < j :: Env.Key(env[i]) != k
    {
      if Env.Key(env[j]) == k {
        return true;
      }
    }
    found := false;
  }

  // ---------------------------------------------------------------------------------------
  // The whole configuration

  function OrElse(a: string, b: string): string { if a == "" then b else a }

  function MergedSet(u: Option<set<string>>, i: Option<set<string>>): Option<set<string>> {
    if NoKeys(u) then i else if i.Some? then Some(u.value + i.value) else u
  }

  function MergedEnv(u: Option<seq<string>>, i: Option<seq<string>>): Option<seq<string>> {
    if NoItems(u) then i else Some(u.value + Missing(u.value, if i.Some? then i.value else []))
  }

  function MergedLabels(u: Option<map<string, string>>, i: Option<map<string, string>>): Option<map<string, string>> {
    Some((if i.Some? then i.value else map[]) + (if u.Some? then u.value else map[]))
  }

  function MergedHealth(u: Option<Healthcheck>, i: Option<Healthcheck>): Option<Healthcheck> {
    if i.None? then u
    else if u.None? then i
    else Some(Healthcheck(if u.value.test == [] then i.value.test else u.value.test,
                          if u.value.interval == 0 then i.value.interval else u.value.interval,
                          if u.value.timeout == 0 then i.value.timeout else u.value.timeout,
                          if u.value.startPeriod == 0 then i.value.startPeriod else u.value.startPeriod,
                          if u.value.retries == 0 then i.value.retries else u.value.retries))
  }

  /** The image's command is taken only together with the absence of a user entrypoint. */
  function MergedCmd(u: Config, i: Config): Option<seq<string>> {
    if NoItems(u.entrypoint) && NoItems(u.cmd) then i.cmd else u.cmd
  }

  function MergedEntrypoint(u: Config, i: Config): Option<seq<string>> {
    if u.entrypoint.None? then i.entrypoint else u.entrypoint
  }

  function Merged(u: Config, i: Config): Config {
    Config(OrElse(u.user, i.user), MergedSet(u.exposedPorts, i.exposedPorts), MergedEnv(u.env, i.env),
           MergedLabels(u.labels, i.labels), MergedCmd(u, i), MergedEntrypoint(u, i),
           MergedHealth(u.healthcheck, i.healthcheck), OrElse(u.workingDir, i.workingDir),
           MergedSet(u.volumes, i.volumes), OrElse(u.stopSignal, i.stopSignal))
  }

  lemma MergedSetIdempotent(u: Option<set<string>>, i: Option<set<string>>)
    ensures MergedSet(MergedSet(u, i), i) == MergedSet(u, i)
  {
    if i.Some? {
      if NoKeys(u) {
        assert i.value + i.value == i.value;
      } else {
        assert u.value + i.value + i.value == u.value + i.value;
      }
    }
  }

  lemma MergedEnvIdempotent(u: Option<seq<string>>, i: Option<seq<string>>)
    ensures MergedEnv(MergedEnv(u, i), i) == MergedEnv(u, i)
  {
    var image := if i.Some? then i.value else [];
    if !NoItems(MergedEnv(u, i)) {
      var e := MergedEnv(u, i).value;
      forall n | 0 <= n < |image| ensures HasKey(e, Env.Key(image[n])) {
        assert HasKey(image, Env.Key(image[n]));
        if !NoItems(u) {
          HasKeyAppends(u.value, Missing(u.value, image), Env.Key(image[n]));
          MissingKeys(u.value, image, Env.Key(image[n]));
        }
      }
      NothingMissing(e, image);
      assert e + [] == e;
    }
  }

  lemma MergedLabelsIdempotent(u: Option<map<string, string>>, i: Option<map<string, string>>)
    ensures MergedLabels(MergedLabels(u, i), i) == MergedLabels(u, i)
  {
    var image := if i.Some? then i.value else map[];
    var user := if u.Some? then u.value else map[];
    assert image + (image + user) == image + user;
  }

  /** Merging the same image again changes nothing. */
  lemma MergeIsIdempotent(u: Config, i: Config)
    ensures Merged(Merged(u, i), i) == Merged(u, i)
  {
    MergedSetIdempotent(u.exposedPorts, i.exposedPorts);
    MergedSetIdempotent(u.volumes, i.volumes);
    MergedEnvIdempotent(u.env, i.env);
    MergedLabelsIdempotent(u.labels, i.labels);
  }

  /**
   Every non-empty user setting is kept. Sets are extended, a user label or variable keeps its
   value, and with an entrypoint of its own the user's command is kept even when empty.
   */
  lemma UserSettingsKept(u: Config, i: Config)
    ensures var m := Merged(u, i);
            && (u.user != "" ==> m.user == u.user)
            && (u.workingDir != "" ==> m.workingDir == u.workingDir)
            && (u.stopSignal != "" ==> m.stopSignal == u.stopSignal)
            && (u.cmd.Some? && u.cmd.value != [] ==> m.cmd == u.cmd)
            && (u.entrypoint.Some? ==> m.entrypoint == u.entrypoint)
            && (u.entrypoint.Some? && u.entrypoint.value != [] ==> m.cmd == u.cmd)
            && (u.exposedPorts.Some? && u.exposedPorts.value != {} ==>
                  m.exposedPorts ==
                  Some(u.exposedPorts.value + if i.exposedPorts.Some? then i.exposedPorts.value else {}))
            && (u.volumes.Some? && u.volumes.value != {} ==>
                  m.volumes == Some(u.volumes.value + if i.volumes.Some? then i.volumes.value else {}))
            && (u.env.Some? && u.env.value != [] ==> m.env.Some? && u.env.value <= m.env.value)
            && m.labels.Some?
            && m.labels.value.Keys == (if u.labels.Some? then u.labels.value.Keys else {})
                                      + (if i.labels.Some? then i.labels.value.Keys else {})
            && (u.labels.Some? ==> forall l | l in u.labels.value :: m.labels.value[l] == u.labels.value[l])
  {
    if u.env.Some? && u.env.value != [] {
      assert u.env.value <= MergedEnv(u.env, i.env).value;
    }
    if u.exposedPorts.Some? && i.exposedPorts.None? {
      assert u.exposedPorts.value + {} == u.exposedPorts.value;
    }
    if u.volumes.Some? && i.volumes.None? {
      assert u.volumes.value + {} == u.volumes.value;
    }
  }

  /** What the user left empty is filled from the same setting of the image. */
  lemma ImageFillsGaps(u: Config, i: Config)
    ensures var m := Merged(u, i);
            && (u.user == "" ==> m.user == i.user)
            && (u.workingDir == "" ==> m.workingDir == i.workingDir)
            && (u.stopSignal == "" ==> m.stopSignal == i.stopSignal)
            && (u.env.None? || u.env.value == [] ==> m.env == i.env)
            && (u.entrypoint.None? ==> m.entrypoint == i.entrypoint)
            && ((u.entrypoint.None? || u.entrypoint.value == []) && (u.cmd.None? || u.cmd.value == []) ==>
                  m.cmd == i.cmd)
            && (u.exposedPorts.None? || u.exposedPorts.value == {} ==> m.exposedPorts == i.exposedPorts)
            && (u.volumes.None? || u.volumes.value == {} ==> m.volumes == i.volumes)
            && (i.labels.Some? ==>
                  forall l | l in i.labels.value && (u.labels.None? || l !in u.labels.value) ::
                    l in m.labels.value && m.labels.value[l] == i.labels.value[l])
  {
  }

  /** The variables are the user's entries and, behind them, one entry for each key that only the image has. */
  lemma EnvIsExtended(u: Config, i: Config, k: string)
    requires u.env.Some? && u.env.value != [] && i.env.Some?
    ensures var m := Merged(u, i).env;
            && m == Some(u.env.value + Missing(u.env.value, i.env.value))
            && ((exists e :: e in m.value && Env.Key(e) == k) <==>
                (exists e :: e in u.env.value && Env.Key(e) == k) || (exists e :: e in i.env.value && Env.Key(e) == k))
  {
    var user, image := u.env.value, i.env.value;
    HasKeyIff(user + Missing(user, image), k);
    HasKeyIff(user, k);
    HasKeyIff(image, k);
    HasKeyAppends(user, Missing(user, image), k);
    MissingKeys(user, image, k);
  }

  /** Each part of the healthcheck is the user's unless empty or zero, and then the image's. */
  lemma HealthcheckIsCompleted(u: Config, i: Config)
    ensures var m := Merged(u, i).healthcheck;
            && (i.healthcheck.None? ==> m == u.healthcheck)
            && (u.healthcheck.None? ==> m == i.healthcheck)
            && (u.healthcheck.Some? && i.healthcheck.Some? ==>
                  m.Some? &&
                  var (a, b, c) := (u.healthcheck.value, i.healthcheck.value, m.value);
                  && c.test == (if a.test != [] then a.test else b.test)
                  && c.interval == (if a.interval != 0 then a.interval else b.interval)
                  && c.timeout == (if a.timeout != 0 then a.timeout else b.timeout)
                  && c.startPeriod == (if a.startPeriod != 0 then a.startPeriod else b.startPeriod)
                  && c.retries == (if a.retries != 0 then a.retries else b.retries))
  {
  }

  class UserConf {
    var user: string
    var exposedPorts: Option<set<string>>
    var env: Option<seq<string>>
    var labels: Option<map<string, string>>
    var cmd: Option<seq<string>>
    var entrypoint: Option<seq<string>>
    var healthcheck: Option<Healthcheck>
    var workingDir: string
    var volumes: Option<set<string>>
    var stopSignal: string

    ghost function Value(): Config
      reads this
    {
      Config(user, exposedPorts, env, labels, cmd, entrypoint, healthcheck, workingDir, volumes, stopSignal)
    }

    constructor (c: Config)
      ensures Value() == c
    {
      user, exposedPorts, env, labels, cmd := c.user, c.exposedPorts, c.env, c.labels, c.cmd;
      entrypoint, healthcheck, workingDir := c.entrypoint, c.healthcheck, c.workingDir;
      volumes, stopSignal := c.volumes, c.stopSignal;
    }

    method MergeFrom(image: Config)
      modifies this
      ensures Value() == Merged(old(Value()), image)
    {
      MergeScalars(image);
      exposedPorts := MergeSet(exposedPorts, image.exposedPorts);
      if NoItems(env) {
        env := image.env;
      } else {
        var merged := MergeEnv(env.value, if image.env.Some? then image.env.value else []);
        env := Some(merged);
      }
      MergeLabels(image.labels);
      MergeCommand(image);
      healthcheck := MergeHealthcheck(healthcheck, image.healthcheck);
      volumes := MergeSet(volumes, image.volumes);
    }

    method MergeScalars(image: Config)
      modifies this`user, this`workingDir, this`stopSignal
      ensures user == OrElse(old(user), image.user) && workingDir == OrElse(old(workingDir), image.workingDir)
      ensures stopSignal == OrElse(old(stopSignal), image.stopSignal)
    {
      if user == "" {
        user := image.user;
      }
      if workingDir == "" {
        workingDir := image.workingDir;
      }
      if stopSignal == "" {
        stopSignal := image.stopSignal;
      }
    }

    method MergeLabels(image: Option<map<string, string>>)
      modifies this`labels
      ensures labels == MergedLabels(old(labels), image)
    {
      if labels.None? {
        labels := Some(map[]);
      }
      if image.Some? {
        var left := image.value.Keys;
        while left != {}
          invariant labels.Some? && left <= image.value.Keys
          invariant labels.value == (map l | l in image.value && l !in left :: image.value[l])
                                    + (if old(labels).Some? then old(labels).value else map[])
          decreases left
        {
          var l :| l in left;
          if l !in labels.value {
            labels := Some(labels.value[l := image.value[l]]);
          }
          left := left - {l};
        }
        assert labels.value == MergedLabels(old(labels), image).value;
      } else {
        assert labels.value == MergedLabels(old(labels), image).value;
      }
    }

    method MergeCommand(image: Config)
      modifies this`cmd, this`entrypoint
      ensures cmd == MergedCmd(old(Value()), image) && entrypoint == MergedEntrypoint(old(Value()), image)
    {
      if NoItems(entrypoint) {
        if NoItems(cmd) {
          cmd := image.cmd;
        }
        if entrypoint.None? {
          entrypoint := image.entrypoint;
        }
      }
    }
  }

  method MergeSet(u: Option<set<string>>, i: Option<set<string>>) returns (r: Option<set<string>>)
    ensures r == MergedSet(u, i)
  {
    if NoKeys(u) {
      return i;
    }
    r := u;
    if i.Some? {
      var left := i.value;
      while left != {}
        invariant r.Some? && left <= i.value && r.value == u.value + (i.value - left)
        decreases left
      {
        var k :| k in left;
        r := Some(r.value + {k});
        left := left - {k};
      }
      assert r.value == u.value + i.value;
    }
  }

  method MergeHealthcheck(u: Option<Healthcheck>, i: Option<Healthcheck>) returns (r: Option<Healthcheck>)
    ensures r == MergedHealth(u, i)
  {
    if i.None? {
      return u;
    }
    if u.None? {
      return i;
    }
    var h := u.value;
    if |h.test| == 0 { h := h.(test := i.value.test); }
    if h.interval == 0 { h := h.(interval := i.value.interval); }
    if h.timeout == 0 { h := h.(timeout := i.value.timeout); }
    if h.startPeriod == 0 { h := h.(startPeriod := i.value.startPeriod); }
    if h.retries == 0 { h := h.(retries := i.value.retries); }
    r := Some(h);
  }
}
