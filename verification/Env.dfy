/**
 Overriding a list of environment entries (container/env.go): an index of the defaults' keys,
 replacement and appending in one pass, and a compaction that removes the emptied entries.
 */
module Env {
  import opened Wrappers

  predicate HasEq(e: string) { '=' in e }

  /** The text before the first '=', or the whole entry. */
  function Key(e: string): (k: string)
    ensures '=' !in k
    ensures '=' !in e ==> k == e
  {
    if e == "" || e[0] == '=' then "" else [e[0]] + Key(e[1..])
  }

  // ---------------------------------------------------------------------------------------
  // Specification

  /** The position of the last default with the key, or -1. */
  function LastIndex(defaults: seq<string>, k: string): (i: int)
    ensures -1 <= i < |defaults|
    ensures i >= 0 ==> Key(defaults[i]) == k
    ensures forall j | i < j < |defaults| :: Key(defaults[j]) != k
    decreases |defaults|
  {
    if defaults == [] then -1
    else if Key(defaults[|defaults| - 1]) == k then |defaults| - 1
    else LastIndex(defaults[..|defaults| - 1], k)
  }

  /** The last override that sets or unsets the key. */
  function LastTouch(overrides: seq<string>, k: string): Option<string>
    decreases |overrides|
  {
    if overrides == [] then None
    else if Key(overrides[|overrides| - 1]) == k then Some(overrides[|overrides| - 1])
    else LastTouch(overrides[..|overrides| - 1], k)
  }

  /** What becomes of one default: the last entry of a key follows the last override of that key. */
  function Entry(defaults: seq<string>, overrides: seq<string>, i: nat): string
    requires i < |defaults|
  {
    var o := LastTouch(overrides, Key(defaults[i]));
    if LastIndex(defaults, Key(defaults[i])) != i || o.None? then defaults[i]
    else if HasEq(o.value) then o.value
    else ""
  }

  function Entries(defaults: seq<string>, overrides: seq<string>): seq<string> {
    seq(|defaults|, i requires 0 <= i < |defaults| => Entry(defaults, overrides, i))
  }

  /** The overrides that set a key the defaults do not have, in order. */
  function Appended(defaults: seq<string>, overrides: seq<string>): (r: seq<string>)
    ensures forall e | e in r :: HasEq(e) && LastIndex(defaults, Key(e)) == -1
    decreases |overrides|
  {
    if overrides == [] then [] else
      var o := overrides[|overrides| - 1];
      Appended(defaults, overrides[..|overrides| - 1])
      + if HasEq(o) && LastIndex(defaults, Key(o)) == -1 then [o] else []
  }

  function NonEmpty(env: seq<string>): seq<string>
    decreases |env|
  {
    if env == [] then [] else
      var init, e := env[..|env| - 1], env[|env| - 1];
      if e == "" then NonEmpty(init) else NonEmpty(init) + [e]
  }

  function Replaced(defaults: seq<string>, overrides: seq<string>): seq<string> {
    NonEmpty(Entries(defaults, overrides)) + Appended(defaults, overrides)
  }

  // ---------------------------------------------------------------------------------------
  // Lemmas

  /** The key is the text before the first '='; without one it is the whole entry. */
  lemma {:induction false} KeyIs(k: string, v: string)
    requires '=' !in k
    ensures Key(k + "=" + v) == k && Key(k) == k
  {
    if k == "" {
      assert k + "=" + v == "=" + v;
    } else {
      KeyIs(k[1..], v);
      assert (k + "=" + v)[1..] == k[1..] + "=" + v;
      assert k == [k[0]] + k[1..];
    }
  }

  /** The last of the overrides with the key, if any has it. */
  lemma {:induction false} LastTouchIs(overrides: seq<string>, k: string, n: nat)
    ensures (forall l | 0 <= l < |overrides| :: Key(overrides[l]) != k) ==> LastTouch(overrides, k) == None
    ensures n < |overrides| && Key(overrides[n]) == k && (forall l | n < l < |overrides| :: Key(overrides[l]) != k) ==>
              LastTouch(overrides, k) == Some(overrides[n])
    decreases |overrides|
  {
    if overrides != [] && Key(overrides[|overrides| - 1]) != k {
      var init := overrides[..|overrides| - 1];
      assert forall l | 0 <= l < |init| :: init[l] == overrides[l];
      LastTouchIs(init, k, n);
    }
  }

  lemma {:induction false} NonEmptyAppends(a: seq<string>, b: seq<string>)
    ensures NonEmpty(a + b) == NonEmpty(a) + NonEmpty(b)
    decreases |b|
  {
    if b == [] {
      assert a + b == a;
    } else {
      NonEmptyAppends(a, b[..|b| - 1]);
      assert (a + b)[..|a + b| - 1] == a + b[..|b| - 1];
    }
  }

  lemma {:induction false} NonEmptyMembers(env: seq<string>)
    ensures forall e :: e in NonEmpty(env) <==> e in env && e != ""
    decreases |env|
  {
    if env != [] {
      NonEmptyMembers(env[..|env| - 1]);
      assert env == env[..|env| - 1] + [env[|env| - 1]];
    }
  }

  lemma {:induction false} NonEmptyIdentity(env: seq<string>)
    requires forall i | 0 <= i < |env| :: env[i] != ""
    ensures NonEmpty(env) == env
    decreases |env|
  {
    if env != [] {
      NonEmptyIdentity(env[..|env| - 1]);
    }
  }

  /** Removing one empty entry does not change what compaction keeps. */
  lemma NonEmptyDrops(env: seq<string>, i: nat)
    requires i < |env| && env[i] == ""
    ensures NonEmpty(env[..i] + env[i + 1..]) == NonEmpty(env)
  {
    var a, b := env[..i], env[i + 1..];
    assert env == a + [""] + b;
    NonEmptyAppends(a, b);
    NonEmptyAppends(a + [""], b);
    NonEmptyAppends(a, [""]);
    NonEmptyOne("");
  }

  lemma {:induction false} LastIndexIsLast(defaults: seq<string>, i: nat)
    requires i < |defaults|
    ensures LastIndex(defaults, Key(defaults[i])) >= i
  {
  }

  /**
   A default stays if a later default has its key or no override does. Otherwise the last override
   of the key takes its place, or empties it if there is no '=' in it.
   */
  lemma EntryMeans(defaults: seq<string>, overrides: seq<string>, i: nat)
    requires i < |defaults|
    ensures var k := Key(defaults[i]);
            var e := Entries(defaults, overrides);
            && |e| == |defaults|
            && ((exists j :: i < j < |defaults| && Key(defaults[j]) == k) ==> e[i] == defaults[i])
            && ((forall n | 0 <= n < |overrides| :: Key(overrides[n]) != k) ==> e[i] == defaults[i])
            && (forall n | 0 <= n < |overrides| && Key(overrides[n]) == k
                           && (forall l | n < l < |overrides| :: Key(overrides[l]) != k)
                           && (forall j | i < j < |defaults| :: Key(defaults[j]) != k) ::
                  e[i] == if '=' in overrides[n] then overrides[n] else "")
  {
    var k := Key(defaults[i]);
    LastIndexIsLast(defaults, i);
    LastTouchIs(overrides, k, 0);
    forall n | 0 <= n < |overrides| && Key(overrides[n]) == k
               && (forall l | n < l < |overrides| :: Key(overrides[l]) != k)
      ensures LastTouch(overrides, k) == Some(overrides[n])
    {
      LastTouchIs(overrides, k, n);
    }
  }

  /** The overrides behind the defaults are those with an '=' whose key no default has, in their order. */
  lemma AppendedMeans(defaults: seq<string>, overrides: seq<string>, o: string)
    ensures Appended(defaults, []) == []
    ensures Appended(defaults, overrides + [o]) ==
            if '=' in o && (forall j | 0 <= j < |defaults| :: Key(defaults[j]) != Key(o))
            then Appended(defaults, overrides) + [o] else Appended(defaults, overrides)
  {
    AppendOne(defaults, overrides, o);
    NoIndexIff(defaults, Key(o));
  }

  lemma NoIndexIff(defaults: seq<string>, k: string)
    ensures LastIndex(defaults, k) == -1 <==> forall j | 0 <= j < |defaults| :: Key(defaults[j]) != k
  {
    var i := LastIndex(defaults, k);
    assert i >= 0 ==> Key(defaults[i]) == k;
  }

  /** Compaction keeps or drops each entry for itself: with NonEmptyAppends this is all there is to it. */
  lemma NonEmptyOne(e: string)
    ensures NonEmpty([e]) == if e == "" then [] else [e]
  {
    assert [e][..0] == [];
  }

  /** One more override changes at most the last default of its key. */
  lemma TouchOne(defaults: seq<string>, overrides: seq<string>, o: string)
    ensures var at := LastIndex(defaults, Key(o));
            Entries(defaults, overrides + [o]) ==
            if at == -1 then Entries(defaults, overrides)
            else Entries(defaults, overrides)[at := if HasEq(o) then o else ""]
  {
    var all := overrides + [o];
    assert all[..|all| - 1] == overrides;
    forall i | 0 <= i < |defaults|
      ensures Entry(defaults, all, i) ==
              if LastIndex(defaults, Key(o)) == i then (if HasEq(o) then o else "") else Entry(defaults, overrides, i)
    {
      LastIndexIsLast(defaults, i);
    }
  }

  lemma AppendOne(defaults: seq<string>, overrides: seq<string>, o: string)
    ensures Appended(defaults, overrides + [o]) ==
            if HasEq(o) && LastIndex(defaults, Key(o)) == -1
            then Appended(defaults, overrides) + [o] else Appended(defaults, overrides)
  {
    assert (overrides + [o])[..|overrides|] == overrides;
    assert Appended(defaults, overrides) + [] == Appended(defaults, overrides);
  }

  /** The list ahead of compaction: replaced and emptied defaults, then the appended overrides. */
  function Working(defaults: seq<string>, overrides: seq<string>): seq<string> {
    Entries(defaults, overrides) + Appended(defaults, overrides)
  }

  lemma UpdateInHead(a: seq<string>, b: seq<string>, i: nat, v: string)
    requires i < |a|
    ensures (a + b)[i := v] == a[i := v] + b
  {
  }

  lemma WorkingReplaces(defaults: seq<string>, overrides: seq<string>, o: string)
    requires LastIndex(defaults, Key(o)) >= 0
    ensures |Working(defaults, overrides)| >= |defaults|
    ensures Working(defaults, overrides + [o]) ==
            Working(defaults, overrides)[LastIndex(defaults, Key(o)) := if HasEq(o) then o else ""]
  {
    TouchOne(defaults, overrides, o);
    AppendOne(defaults, overrides, o);
    UpdateInHead(Entries(defaults, overrides), Appended(defaults, overrides),
                 LastIndex(defaults, Key(o)), if HasEq(o) then o else "");
  }

  lemma WorkingAppends(defaults: seq<string>, overrides: seq<string>, o: string)
    requires LastIndex(defaults, Key(o)) == -1
    ensures Working(defaults, overrides + [o]) ==
            if HasEq(o) then Working(defaults, overrides) + [o] else Working(defaults, overrides)
  {
    TouchOne(defaults, overrides, o);
    AppendOne(defaults, overrides, o);
  }

  lemma WorkingCompacts(defaults: seq<string>, overrides: seq<string>)
    ensures NonEmpty(Working(defaults, overrides)) == Replaced(defaults, overrides)
  {
    var tail := Appended(defaults, overrides);
    NonEmptyAppends(Entries(defaults, overrides), tail);
    assert forall i | 0 <= i < |tail| :: tail[i] in tail;
    NonEmptyIdentity(tail);
  }

  /**
   For a key that the defaults hold once, the result holds exactly what the last override of that
   key asks for: the default if there is none, nothing if it unsets, the override if it sets.
   */
  lemma LastOverrideWins(defaults: seq<string>, overrides: seq<string>, i: nat, e: string)
    requires i < |defaults| && Key(e) == Key(defaults[i]) && e != ""
    requires forall j | 0 <= j < |defaults| && j != i :: Key(defaults[j]) != Key(defaults[i])
    ensures e in Replaced(defaults, overrides) <==>
            match LastTouch(overrides, Key(e))
            case None => e == defaults[i]
            case Some(o) => '=' in o && e == o
  {
    var es := Entries(defaults, overrides);
    NonEmptyMembers(es);
    LastIndexIsLast(defaults, i);
    LastTouchHasKey(overrides, Key(e));
    assert es[i] == Entry(defaults, overrides, i);
    assert e !in Appended(defaults, overrides);
    if e in es {
      var j :| 0 <= j < |es| && es[j] == e;
      LastTouchHasKey(overrides, Key(defaults[j]));
    }
  }

  lemma {:induction false} LastTouchHasKey(overrides: seq<string>, k: string)
    ensures LastTouch(overrides, k).Some? ==> Key(LastTouch(overrides, k).value) == k
    decreases |overrides|
  {
    if overrides != [] {
      LastTouchHasKey(overrides[..|overrides| - 1], k);
    }
  }

  /** Unsetting reaches the defaults only: a key the overrides introduced survives its own unset. */
  lemma UnsetReachesOnlyDefaults(defaults: seq<string>, overrides: seq<string>, e: string)
    requires e in overrides && '=' in e && forall j | 0 <= j < |defaults| :: Key(defaults[j]) != Key(e)
    ensures e in Replaced(defaults, overrides)
  {
    AppendedKeeps(defaults, overrides, e);
  }

  lemma {:induction false} AppendedKeeps(defaults: seq<string>, overrides: seq<string>, e: string)
    requires e in overrides && HasEq(e) && LastIndex(defaults, Key(e)) == -1
    ensures e in Appended(defaults, overrides)
    decreases |overrides|
  {
    if overrides[|overrides| - 1] != e {
      assert overrides == overrides[..|overrides| - 1] + [overrides[|overrides| - 1]];
      AppendedKeeps(defaults, overrides[..|overrides| - 1], e);
    }
  }

  // ---------------------------------------------------------------------------------------
  // The three loops

  /** The key index: each key of the defaults at its last position. */
  method IndexKeys(defaults: seq<string>) returns (cache: map<string, nat>)
    ensures IndexesKeys(defaults, cache)
  {
    cache := map[];
    for i := 0 to |defaults|
      invariant IndexesKeys(defaults[..i], cache)
    {
      cache := cache[Key(defaults[i]) := i];
      assert defaults[..i + 1][..i] == defaults[..i];
    }
    assert defaults[..|defaults|] == defaults;
  }

  /** Removes the empty entries one by one, closing the gap each time. */
  method Compact(entries: seq<string>) returns (env: seq<string>)
    ensures env == NonEmpty(entries)
  {
    env := entries;
    var i := 0;
    while i < |env|
      invariant 0 <= i <= |env| && NonEmpty(env) == NonEmpty(entries)
      invariant forall j | 0 <= j < i :: env[j] != ""
      decreases |env| - i
    {
      if env[i] == "" {
        NonEmptyDrops(env, i);
        env := env[..i] + env[i + 1..];
      } else {
        i := i + 1;
      }
    }
    NonEmptyIdentity(env);
  }

  ghost predicate IndexesKeys(defaults: seq<string>, cache: map<string, nat>) {
    && (forall k :: k in cache <==> LastIndex(defaults, k) >= 0)
    && (forall k | k in cache :: cache[k] == LastIndex(defaults, k))
  }

  /** One override: empty, replace or append. */
  method OverrideOne(defaults: seq<string>, cache: map<string, nat>, ghost done: seq<string>, env: seq<string>,
                     value: string)
    returns (r: seq<string>)
    requires IndexesKeys(defaults, cache) && env == Working(defaults, done)
    ensures r == Working(defaults, done + [value])
  {
    if Key(value) in cache {
      WorkingReplaces(defaults, done, value);
    } else {
      WorkingAppends(defaults, done, value);
    }
    if !HasEq(value) {
      if value in cache {
        return env[cache[value] := ""];
      }
      return env;
    }
    if Key(value) in cache {
      return env[cache[Key(value)] := value];
    }
    r := env + [value];
  }

  /** The pass over the overrides. */
  method Override(defaults: seq<string>, cache: map<string, nat>, overrides: seq<string>) returns (env: seq<string>)
    requires IndexesKeys(defaults, cache)
    ensures env == Working(defaults, overrides)
  {
    env := defaults;
    NothingOverridden(defaults);
    for n := 0 to |overrides|
      invariant env == Working(defaults, overrides[..n])
    {
      env := OverrideOne(defaults, cache, overrides[..n], env, overrides[n]);
      assert overrides[..n + 1] == overrides[..n] + [overrides[n]];
    }
    assert overrides[..|overrides|] == overrides;
  }

  lemma NothingOverridden(defaults: seq<string>)
    ensures Working(defaults, []) == defaults
  {
  }

  method ReplaceOrAppendEnvValues(defaults: seq<string>, overrides: seq<string>) returns (env: seq<string>)
    ensures env == NonEmpty(Entries(defaults, overrides)) + Appended(defaults, overrides)
  {
    var cache := IndexKeys(defaults);
    env := Override(defaults, cache, overrides);
    WorkingCompacts(defaults, overrides);
    env := Compact(env);
  }
}
