/** Environment lists of containers, read as maps.  A list may name a variable
    twice; a lookup finds the first. */
module EnvList {
  import opened Common

  datatype EnvVar = EnvVar(name: string, value: string, valueFrom: Option<string>)

  predicate Exists(envs: seq<EnvVar>, key: string) {
    exists i :: 0 <= i < |envs| && envs[i].name == key
  }

  /** The map a list stands for: each name with the first value given for it. */
  function AsMap(envs: seq<EnvVar>): map<string, string> {
    if envs == [] then map[] else AsMap(envs[1..])[envs[0].name := envs[0].value]
  }

  predicate UniqueNames(envs: seq<EnvVar>) {
    forall i, j | 0 <= i < j < |envs| :: envs[i].name != envs[j].name
  }

  lemma {:induction false} FirstMatch(envs: seq<EnvVar>, i: nat)
    requires i < |envs| && forall j | 0 <= j < i :: envs[j].name != envs[i].name
    ensures envs[i].name in AsMap(envs) && AsMap(envs)[envs[i].name] == envs[i].value
  {
    if i > 0 {
      FirstMatch(envs[1..], i - 1);
    }
  }

  lemma {:induction false} MapKeys(envs: seq<EnvVar>, key: string)
    ensures key in AsMap(envs) <==> Exists(envs, key)
  {
    if envs != [] {
      MapKeys(envs[1..], key);
      assert Exists(envs[1..], key) ==> Exists(envs, key) by {
        if i :| 0 <= i < |envs[1..]| && envs[1..][i].name == key {
          assert envs[i + 1].name == key;
        }
      }
      assert Exists(envs, key) && envs[0].name != key ==> Exists(envs[1..], key) by {
        if i :| 0 < i < |envs| && envs[i].name == key {
          assert envs[1..][i - 1].name == key;
        }
      }
    }
  }

  lemma {:induction false} AppendInserts(envs: seq<EnvVar>, env: EnvVar)
    ensures AsMap(envs + [env])
            == if env.name in AsMap(envs) then AsMap(envs) else AsMap(envs)[env.name := env.value]
  {
    if envs == [] {
      assert envs + [env] == [env];
    } else {
      AppendInserts(envs[1..], env);
      assert (envs + [env])[1..] == envs[1..] + [env];
    }
  }

  method GetEnvValue(envs: seq<EnvVar>, key: string) returns (value: string)
    ensures value == if key in AsMap(envs) then AsMap(envs)[key] else ""
  {
    MapKeys(envs, key);
    for i := 0 to |envs|
      invariant forall j | 0 <= j < i :: envs[j].name != key
    {
      if envs[i].name == key {
        FirstMatch(envs, i);
        return envs[i].value;
      }
    }
    return "";
  }

  /** Inserts a variable if its name is absent. */
  method AppendEnvIfMissing(envs: seq<EnvVar>, env: EnvVar) returns (r: seq<EnvVar>)
    ensures AsMap(r) == if env.name in AsMap(envs) then AsMap(envs) else AsMap(envs)[env.name := env.value]
    ensures r == if Exists(envs, env.name) then envs else envs + [env]
    ensures UniqueNames(envs) ==> UniqueNames(r)
  {
    MapKeys(envs, env.name);
    for i := 0 to |envs|
      invariant forall j | 0 <= j < i :: envs[j].name != env.name
    {
      if envs[i].name == env.name {
        return envs;
      }
    }
    AppendInserts(envs, env);
    return envs + [env];
  }

  lemma {:induction false} OverrideFirst(envs: seq<EnvVar>, i: nat, value: string)
    requires i < |envs| && forall j | 0 <= j < i :: envs[j].name != envs[i].name
    ensures AsMap(envs[i := envs[i].(value := value)]) == AsMap(envs)[envs[i].name := value]
  {
    var updated := envs[i := envs[i].(value := value)];
    if i > 0 {
      OverrideFirst(envs[1..], i - 1, value);
      assert updated[1..] == envs[1..][i - 1 := envs[i].(value := value)];
    } else {
      assert updated[1..] == envs[1..];
    }
  }

  /** The first entry of that name has the new value, and is otherwise as it was; so
      is every other entry. */
  predicate OverriddenOnce(was: seq<EnvVar>, now: seq<EnvVar>, env: EnvVar) {
    && |now| == |was|
    && exists i :: 0 <= i < |was| && IsFirst(was, env.name, i)
                   && now[i] == EnvVar(env.name, env.value, was[i].valueFrom)
                   && forall j | 0 <= j < |was| && j != i :: now[j] == was[j]
  }

  predicate IsFirst(envs: seq<EnvVar>, key: string, i: nat)
    requires i < |envs|
  {
    envs[i].name == key && forall j | 0 <= j < i :: envs[j].name != key
  }

  /** Upserts a variable: a present one is overridden where it stands, in the
      caller's own list; an absent one is appended to a new list. */
  method AppendEnvIfMissingOverrideIfPresent(envs: array<EnvVar>, env: EnvVar) returns (r: array<EnvVar>)
    modifies envs
    ensures AsMap(r[..]) == AsMap(old(envs[..]))[env.name := env.value]
    ensures if Exists(old(envs[..]), env.name)
            then r == envs && OverriddenOnce(old(envs[..]), r[..], env)
            else fresh(r) && envs[..] == old(envs[..]) && r[..] == old(envs[..]) + [env]
    ensures UniqueNames(old(envs[..])) ==> UniqueNames(r[..])
  {
    ghost var was := envs[..];
    MapKeys(was, env.name);
    for i := 0 to envs.Length
      invariant envs[..] == was
      invariant forall j | 0 <= j < i :: was[j].name != env.name
    {
      var ele := envs[i];
      if ele.name == env.name {
        OverrideFirst(was, i, env.value);
        ele := ele.(value := env.value);
        envs[i] := ele;
        assert envs[..] == was[i := was[i].(value := env.value)];
        assert was[i].name == env.name && IsFirst(was, env.name, i);
        return envs;
      }
    }
    AppendInserts(was, env);
    r := new EnvVar[envs.Length + 1](i requires 0 <= i <= envs.Length reads envs => if i < envs.Length then envs[i] else env);
    assert r[..] == was + [env];
  }

  /** The list with every variable of that name set to `value`. */
  function Updated(name: string, value: string, envs: seq<EnvVar>): (r: seq<EnvVar>)
    ensures |r| == |envs|
    ensures forall i | 0 <= i < |r| :: r[i] == if envs[i].name == name then envs[i].(value := value) else envs[i]
  {
    if envs == [] then []
    else [if envs[0].name == name then envs[0].(value := value) else envs[0]] + Updated(name, value, envs[1..])
  }

  lemma {:induction false} UpdatedAsMap(name: string, value: string, envs: seq<EnvVar>)
    ensures AsMap(Updated(name, value, envs))
            == if name in AsMap(envs) then AsMap(envs)[name := value] else AsMap(envs)
  {
    if envs != [] {
      UpdatedAsMap(name, value, envs[1..]);
      assert Updated(name, value, envs)[1..] == Updated(name, value, envs[1..]);
    }
  }

  /** Updates a variable if it is present, at every place it is named. */
  method UpdateEnvVar(name: string, value: string, envs: seq<EnvVar>) returns (r: seq<EnvVar>)
    ensures r == Updated(name, value, envs)
    ensures AsMap(r) == if name in AsMap(envs) then AsMap(envs)[name := value] else AsMap(envs)
    ensures UniqueNames(envs) ==> UniqueNames(r)
  {
    UpdatedAsMap(name, value, envs);
    r := [];
    for i := 0 to |envs|
      invariant |r| == i && forall j | 0 <= j < i :: r[j] == Updated(name, value, envs)[j]
    {
      var e := envs[i];
      if e.name == name {
        e := e.(value := value);
      }
      r := r + [e];
    }
  }

  predicate SomeDiffers(envs: seq<EnvVar>, key: string, replace: string) {
    exists i :: 0 <= i < |envs| && envs[i].name == key && envs[i].value != replace
  }

  lemma UpdatedTwice(name: string, value: string, envs: seq<EnvVar>)
    ensures Updated(name, value, Updated(name, value, envs)) == Updated(name, value, envs)
  {
  }

  /** Updates like UpdateEnvVar, and tells whether some entry of that name had a
      different value. */
  method ReplaceEnvIfDiff(envs: seq<EnvVar>, key: string, replace: string) returns (r: seq<EnvVar>, updated: bool)
    ensures updated <==> SomeDiffers(envs, key, replace)
    ensures r == Updated(key, replace, envs)
    ensures AsMap(r) == if key in AsMap(envs) then AsMap(envs)[key := replace] else AsMap(envs)
    ensures UniqueNames(envs) ==> UniqueNames(r)
  {
    r, updated := envs, false;
    for i := 0 to |envs|
      invariant updated <==> SomeDiffers(envs[..i], key, replace)
      invariant r == if updated then Updated(key, replace, envs) else envs
    {
      var ele := envs[i];
      assert envs[..i + 1] == envs[..i] + [ele];
      DiffersGrows(envs[..i], ele, key, replace);
      if ele.name == key {
        var oldValue := ele.value;
        if oldValue != replace {
          UpdatedTwice(key, replace, envs);
          r := UpdateEnvVar(ele.name, replace, r);
          updated := true;
        }
      }
    }
    assert envs[..|envs|] == envs;
    if !updated {
      assert forall i | 0 <= i < |envs| :: envs[i].name == key ==> envs[i].value == replace;
      assert Updated(key, replace, envs) == envs;
    }
    UpdatedAsMap(key, replace, envs);
  }

  lemma DiffersGrows(envs: seq<EnvVar>, ele: EnvVar, key: string, replace: string)
    ensures SomeDiffers(envs + [ele], key, replace)
            <==> SomeDiffers(envs, key, replace) || (ele.name == key && ele.value != replace)
  {
    var all := envs + [ele];
    assert all[|envs|] == ele;
    if i :| 0 <= i < |envs| && envs[i].name == key && envs[i].value != replace {
      assert all[i] == envs[i];
    }
  }
}
