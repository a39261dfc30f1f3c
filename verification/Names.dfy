/**
 Choosing and reserving a container's name (daemon/names.go).

 The random ID and the random name candidates are parameters.
 */
module Names {
  import opened Wrappers
  import opened ViewDb
  import opened Registries

  datatype NameError = InvalidName | Conflict(owner: string) | AllTaken

  predicate Alphanumeric(c: char) { 'a' <= c <= 'z' || 'A' <= c <= 'Z' || '0' <= c <= '9' }

  /** The restricted name pattern: one alphanumeric, then one or more of those or `_`, `.`, `-`. */
  predicate ValidName(s: string) {
    |s| >= 2 && Alphanumeric(s[0])
    && forall i | 1 <= i < |s| :: Alphanumeric(s[i]) || s[i] == '_' || s[i] == '.' || s[i] == '-'
  }

  function TrimSlash(s: string): string { if s != "" && s[0] == '/' then s[1..] else s }

  function WithSlash(s: string): string
    requires s != ""
  {
    if s[0] != '/' then "/" + s else s
  }

  /** The ID after its first colon, cut to twelve characters. */
  function TruncateID(id: string): string {
    var tail := AfterColon(id);
    if |tail| > 12 then tail[..12] else tail
  }

  /** What follows the first colon, or everything if there is none. */
  function AfterColon(id: string): string { if ':' in id then FromColon(id) else id }

  function FromColon(id: string): string
    requires ':' in id
  {
    if id[0] == ':' then id[1..] else FromColon(id[1..])
  }

  /** A name can be taken by the ID when it is free or already the ID's. */
  predicate Available(owner: map<string, string>, name: string, id: string) {
    name in owner ==> owner[name] == id
  }

  /** The first attempt that can be taken. */
  function FirstAvailable(owner: map<string, string>, attempts: seq<string>, id: string): (r: Option<string>)
    ensures r.None? <==> forall i | 0 <= i < |attempts| :: !Available(owner, attempts[i], id)
    ensures r.Some? ==> r.value in attempts && Available(owner, r.value, id)
  {
    if attempts == [] then None
    else if Available(owner, attempts[0], id) then Some(attempts[0])
    else FirstAvailable(owner, attempts[1..], id)
  }

  /** A valid name, character by character. */
  lemma ValidNameIff(s: string)
    ensures ValidName(s) <==>
            && |s| >= 2
            && ('a' <= s[0] <= 'z' || 'A' <= s[0] <= 'Z' || '0' <= s[0] <= '9')
            && forall i | 1 <= i < |s| ::
                 'a' <= s[i] <= 'z' || 'A' <= s[i] <= 'Z' || '0' <= s[i] <= '9' || s[i] in {'_', '.', '-'}
  {
  }

  /** A name may be given with or without the leading slash and is kept with it. */
  lemma SlashIsOptional(n: string)
    requires n != "" && n[0] != '/'
    ensures TrimSlash(n) == n && TrimSlash("/" + n) == n
    ensures WithSlash(n) == "/" + n && WithSlash("/" + n) == "/" + n
  {
    assert ("/" + n)[1..] == n;
  }

  /** The short ID is the first twelve characters, not counting what ends in the first colon. */
  lemma TruncateIDIs(algorithm: string, digest: string)
    requires ':' !in algorithm
    ensures TruncateID(algorithm) == if |algorithm| > 12 then algorithm[..12] else algorithm
    ensures TruncateID(algorithm + ":" + digest) == if |digest| > 12 then digest[..12] else digest
  {
    FromColonIs(algorithm, digest);
    assert (algorithm + ":" + digest)[|algorithm|] == ':';
  }

  lemma {:induction false} FromColonIs(a: string, b: string)
    requires ':' !in a
    ensures ':' in a + ":" + b && FromColon(a + ":" + b) == b
  {
    var s := a + ":" + b;
    assert s[|a|] == ':';
    if a == "" {
      assert s == ":" + b && s[1..] == b;
    } else {
      FromColonIs(a[1..], b);
      assert s[1..] == a[1..] + ":" + b;
      assert a[0] in a;
    }
  }

  /** The first attempt that nobody, or the ID itself, has is taken. */
  lemma {:induction false} FirstAvailableIs(owner: map<string, string>, attempts: seq<string>, id: string, i: nat)
    requires i < |attempts| && (attempts[i] in owner ==> owner[attempts[i]] == id)
    requires forall j | 0 <= j < i :: attempts[j] in owner && owner[attempts[j]] != id
    ensures FirstAvailable(owner, attempts, id) == Some(attempts[i])
    decreases |attempts|
  {
    if i > 0 {
      FirstAvailableIs(owner, attempts[1..], id, i - 1);
    }
  }

  lemma ValidNameIsOwnName(name: string)
    requires ValidName(TrimSlash(name))
    ensures name != "" && OwnName(WithSlash(name)) && WithSlash(name)[0] == '/'
  {
    var full := WithSlash(name);
    assert full == "/" + TrimSlash(name);
    assert forall i | 1 <= i < |full| :: full[i] == TrimSlash(name)[i - 1];
  }

  /** The user's name, slashed, is reserved to the ID, or nothing changes. */
  method ReserveName(d: Registry, id: string, name: string) returns (r: Result<string, NameError>)
    requires d.Valid() && NulFree(id)
    modifies d.replica, d`db
    ensures d.Valid()
    ensures r.Ok? <==> ValidName(TrimSlash(name)) && Available(old(d.db).owner, WithSlash(name), id)
    ensures r.Ok? ==> r.value == WithSlash(name) && OwnName(r.value)
                      && d.db == old(d.db).(owner := old(d.db).owner[r.value := id])
    ensures r.Err? ==> d.db == old(d.db)
    ensures r.Err? && ValidName(TrimSlash(name)) ==>
              WithSlash(name) in d.db.owner && r.error == Conflict(d.db.owner[WithSlash(name)])
  {
    if !ValidName(TrimSlash(name)) {
      return Err(InvalidName);
    }
    ValidNameIsOwnName(name);
    var full := WithSlash(name);
    var o := d.Reserve(full, id);
    if o == NameReserved {
      var view := d.replica.Snapshot();
      var owner := view.GetID(full, d.db);
      return Err(Conflict(owner.value));
    }
    assert full in old(d.db).owner ==> old(d.db).owner[full := id] == old(d.db).owner;
    r := Ok(full);
  }

  /** The six random candidates, slashed, then the short ID. */
  function Attempts(candidates: seq<string>, id: string): seq<string>
    requires forall i | 0 <= i < |candidates| :: candidates[i] != ""
    ensures forall i | 0 <= i < |Attempts(candidates, id)| ::
              Attempts(candidates, id)[i] != "" && Attempts(candidates, id)[i][0] == '/'
  {
    Slashed(candidates) + ["/" + TruncateID(id)]
  }

  function Slashed(names: seq<string>): (r: seq<string>)
    requires forall i | 0 <= i < |names| :: names[i] != ""
    ensures |r| == |names| && forall i | 0 <= i < |names| :: r[i] == WithSlash(names[i])
  {
    if names == [] then [] else [WithSlash(names[0])] + Slashed(names[1..])
  }

  /** The attempts are the candidates in order, slashed, and last the slashed short ID. */
  lemma AttemptsAre(candidates: seq<string>, id: string, i: nat)
    requires forall i | 0 <= i < |candidates| :: candidates[i] != ""
    ensures |Attempts(candidates, id)| == |candidates| + 1
    ensures i < |candidates| ==>
              Attempts(candidates, id)[i] == if candidates[i][0] == '/' then candidates[i] else "/" + candidates[i]
    ensures Attempts(candidates, id)[|candidates|] == "/" + TruncateID(id)
  {
  }

  /** Slash-free candidates and a slash-free ID give slash-free names. */
  lemma AttemptsAreOwnNames(candidates: seq<string>, id: string)
    requires forall i | 0 <= i < |candidates| :: candidates[i] != "" && SlashFree(candidates[i])
    requires SlashFree(id)
    ensures forall n | n in Attempts(candidates, id) :: OwnName(n)
  {
    forall s | SlashFree(s) ensures OwnName("/" + s) {
      assert forall i | 1 <= i < |"/" + s| :: ("/" + s)[i] == s[i - 1] && s[i - 1] in s;
    }
    TruncateIsPart(id);
    forall i | 0 <= i < |candidates| ensures OwnName(WithSlash(candidates[i])) {
      assert candidates[i][0] in candidates[i];
      assert WithSlash(candidates[i]) == "/" + candidates[i];
    }
  }

  lemma {:induction false} FromColonIsPart(id: string)
    requires ':' in id
    ensures forall c | c in FromColon(id) :: c in id
  {
    if id[0] != ':' { FromColonIsPart(id[1..]); }
  }

  lemma TruncateIsPart(id: string)
    ensures forall c | c in TruncateID(id) :: c in id
  {
    if ':' in id { FromColonIsPart(id); }
  }

  lemma {:induction false} FirstAvailableAppends(owner: map<string, string>, a: seq<string>, b: seq<string>, id: string)
    ensures FirstAvailable(owner, a + b, id) ==
            if FirstAvailable(owner, a, id).Some? then FirstAvailable(owner, a, id) else FirstAvailable(owner, b, id)
    decreases |a|
  {
    if a == [] {
      assert a + b == b;
    } else {
      FirstAvailableAppends(owner, a[1..], b, id);
      assert (a + b)[1..] == a[1..] + b;
    }
  }

  /** The state of the names after an optional reservation. */
  function Reserved(db: Db, name: Option<string>, id: string): Db {
    if name.Some? then db.(owner := db.owner[name.value := id]) else db
  }

  /** Reserves the first of the names that can be taken. */
  method ReserveFirst(d: Registry, names: seq<string>, id: string) returns (r: Option<string>)
    requires d.Valid() && NulFree(id)
    modifies d.replica, d`db
    ensures d.Valid()
    ensures r == FirstAvailable(old(d.db).owner, names, id) && d.db == Reserved(old(d.db), r, id)
  {
    for i := 0 to |names|
      invariant d.Valid() && d.db == old(d.db)
      invariant FirstAvailable(old(d.db).owner, names[..i], id).None?
    {
      FirstAvailableAppends(d.db.owner, names[..i], names[i..], id);
      assert names[..i] + names[i..] == names;
      var o := d.Reserve(names[i], id);
      if o != NameReserved {
        ReserveTakes(old(d.db).owner, names[i], id);
        return Some(names[i]);
      }
    }
    assert names[..|names|] == names;
    r := None;
  }

  /**
   Takes the first available of the candidates and the short ID. Either a slashed name is now
   owned by the ID and no other name changed, or every attempt was taken and nothing changed.
   */
  method GenerateNewName(d: Registry, id: string, candidates: seq<string>) returns (r: Result<string, NameError>)
    requires d.Valid() && NulFree(id)
    requires |candidates| == 6 && forall i | 0 <= i < 6 :: candidates[i] != ""
    modifies d.replica, d`db
    ensures d.Valid()
    ensures r.Ok? <==> FirstAvailable(old(d.db).owner, Attempts(candidates, id), id).Some?
    ensures r.Ok? ==> FirstAvailable(old(d.db).owner, Attempts(candidates, id), id) == Some(r.value)
    ensures r.Ok? ==> r.value != "" && r.value[0] == '/'
                      && d.db == old(d.db).(owner := old(d.db).owner[r.value := id])
    ensures r.Err? ==> d.db == old(d.db)
  {
    var short := ["/" + TruncateID(id)];
    FirstAvailableAppends(d.db.owner, Slashed(candidates), short, id);
    var name := ReserveFirst(d, Slashed(candidates), id);
    if name.None? {
      name := ReserveFirst(d, short, id);
    }
    r := if name.Some? then Ok(name.value) else Err(AllTaken);
  }

  lemma ReserveTakes(owner: map<string, string>, name: string, id: string)
    requires Available(owner, name, id)
    ensures name in owner ==> owner[name := id] == owner
  {
  }

  /** Name the new container; on success this is the registry's creation step. */
  method NewContainer(d: Registry, id: string, name: string, candidates: seq<string>)
    returns (r: Result<string, NameError>)
    requires d.Valid() && NulFree(id)
    requires |candidates| == 6 && forall i | 0 <= i < 6 :: candidates[i] != ""
    modifies d.replica, d
    ensures d.Valid()
    ensures r.Ok? ==> r.value != "" && r.value[0] == '/'
                      && d.Value() == Next(old(d.Value()), RegStep.NewContainer(id, r.value))
                      && d.cname == old(d.cname)[id := r.value]
    ensures r.Err? ==> d.Value() == old(d.Value())
    ensures r.Ok? && (name != "" || ((forall i | 0 <= i < 6 :: SlashFree(candidates[i])) && SlashFree(id))) ==>
              OwnName(r.value)
  {
    if name == "" {
      r := GenerateNewName(d, id, candidates);
      if (forall i | 0 <= i < 6 :: SlashFree(candidates[i])) && SlashFree(id) {
        AttemptsAreOwnNames(candidates, id);
      }
    } else {
      r := ReserveName(d, id, name);
      if r.Ok? { ValidNameIsOwnName(name); }
    }
    if r.Ok? {
      NewContainerStep(old(d.Value()), id, r.value);
      d.cname := d.cname[id := r.value];
    }
  }

  lemma NewContainerStep(reg: Reg, id: string, name: string)
    requires Available(reg.db.owner, name, id)
    ensures Next(reg, RegStep.NewContainer(id, name)) ==
            reg.(db := reg.db.(owner := reg.db.owner[name := id]), cname := reg.cname[id := name])
  {
    ReserveTakes(reg.db.owner, name, id);
  }
}
