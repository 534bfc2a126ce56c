/**
 * `load_environment` of both front ends: the seven required settings are read
 * from the process environment and those absent or empty are collected in
 * declared order. The environment is a map from variable name to value.
 */
module Settings {
  import opened Wrappers

  type Env = map<string, string>

  const RequiredVars: seq<string> := [
    "OPENAI_API_KEY",
    "OPENAI_ENDPOINT",
    "CHAT_MODEL",
    "EMBEDDING_MODEL",
    "SEARCH_API_KEY",
    "SEARCH_ENDPOINT",
    "INDEX_NAME"
  ]

  /** The value of a variable, with "" standing for an absent one. */
  function Value(env: Env, name: string): string {
    if name in env then env[name] else ""
  }

  /** `not os.getenv(name)`: the variable is absent or set to the empty string. */
  predicate IsUnset(env: Env, name: string)
    ensures IsUnset(env, name) <==> Value(env, name) == ""
  {
    name !in env || env[name] == ""
  }

  /** The names of `names` that are unset in `env`, in the order of `names`. */
  function Missing(names: seq<string>, env: Env): (r: seq<string>)
    ensures |r| <= |names|
    ensures forall k :: 0 <= k < |r| ==> IsUnset(env, r[k])
  {
    if names == [] then []
    else (if IsUnset(env, names[0]) then [names[0]] else []) + Missing(names[1..], env)
  }

  /** A name is reported exactly when it is one of `names` and unset; nothing else is reported. */
  lemma {:induction false} MissingMembers(names: seq<string>, env: Env)
    ensures |Missing(names, env)| <= |names|
    ensures forall x :: x in Missing(names, env) <==> x in names && IsUnset(env, x)
    decreases |names|
  {
    if names != [] {
      MissingMembers(names[1..], env);
      assert names == [names[0]] + names[1..];
    }
  }

  /** The missing list of a concatenation is the concatenation of the missing lists: order is kept. */
  lemma {:induction false} MissingAppend(a: seq<string>, b: seq<string>, env: Env)
    ensures Missing(a + b, env) == Missing(a, env) + Missing(b, env)
    decreases |a|
  {
    if a == [] {
      assert a + b == b;
    } else {
      assert (a + b)[1..] == a[1..] + b;
      MissingAppend(a[1..], b, env);
    }
  }

  /** The missing list is exactly the unset names kept in their order: it is a filter of `names`. */
  lemma {:induction false} MissingIsFilter(names: seq<string>, env: Env)
    ensures Missing(names, env) == []  <==> forall k :: 0 <= k < |names| ==> !IsUnset(env, names[k])
    ensures |Missing(names, env)| == |names| <==> forall k :: 0 <= k < |names| ==> IsUnset(env, names[k])
    decreases |names|
  {
    if names != [] {
      var rest := Missing(names[1..], env);
      MissingIsFilter(names[1..], env);
      MissingMembers(names[1..], env);
      assert forall k :: 1 <= k < |names| ==> names[k] == names[1..][k - 1];
      if IsUnset(env, names[0]) {
        assert Missing(names, env) == [names[0]] + rest;
      } else {
        assert Missing(names, env) == rest;
        assert |rest| < |names|;
      }
    }
  }

  /** The loop that collects the missing names. */
  method MissingVars(env: Env) returns (missing: seq<string>)
    ensures missing == Missing(RequiredVars, env)
  {
    missing := [];
    var i := 0;
    while i < |RequiredVars|
      invariant 0 <= i <= |RequiredVars|
      invariant missing == Missing(RequiredVars[..i], env)
    {
      var name := RequiredVars[i];
      assert RequiredVars[..i + 1] == RequiredVars[..i] + [name];
      MissingAppend(RequiredVars[..i], [name], env);
      if name !in env || env[name] == "" {
        missing := missing + [name];
      }
      i := i + 1;
    }
    assert RequiredVars[..i] == RequiredVars;
  }

  /** The dictionary both loaders return, one field per lower-case key. */
  datatype Config = Config(
    openaiApiKey: string,
    openaiEndpoint: string,
    chatModel: string,
    embeddingModel: string,
    searchApiKey: string,
    searchEndpoint: string,
    indexName: string)

  /** Every value set and non-empty, as a loader that did not stop guarantees. */
  predicate Complete(c: Config) {
    && c.openaiApiKey != "" && c.openaiEndpoint != "" && c.chatModel != ""
    && c.embeddingModel != "" && c.searchApiKey != "" && c.searchEndpoint != "" && c.indexName != ""
  }

  /** Every required variable set and non-empty. */
  predicate AllSet(env: Env) {
    forall name :: name in RequiredVars ==> !IsUnset(env, name)
  }

  /** Nothing is missing exactly when every required variable is set. */
  lemma NothingMissingIff(env: Env)
    ensures Missing(RequiredVars, env) == [] <==> AllSet(env)
  {
    var m := Missing(RequiredVars, env);
    MissingMembers(RequiredVars, env);
    if m != [] {
      assert m[0] in m;
    }
  }

  /** The configuration read from an environment in which every required variable is set. */
  function ConfigOf(env: Env): (c: Config)
    requires AllSet(env)
    ensures Complete(c)
    ensures c.openaiApiKey == Value(env, "OPENAI_API_KEY") && c.openaiEndpoint == Value(env, "OPENAI_ENDPOINT")
    ensures c.chatModel == Value(env, "CHAT_MODEL") && c.embeddingModel == Value(env, "EMBEDDING_MODEL")
    ensures c.searchApiKey == Value(env, "SEARCH_API_KEY") && c.searchEndpoint == Value(env, "SEARCH_ENDPOINT")
    ensures c.indexName == Value(env, "INDEX_NAME")
  {
    assert RequiredVars[0] in RequiredVars && RequiredVars[1] in RequiredVars && RequiredVars[2] in RequiredVars;
    assert RequiredVars[3] in RequiredVars && RequiredVars[4] in RequiredVars && RequiredVars[5] in RequiredVars;
    assert RequiredVars[6] in RequiredVars;
    Config(env["OPENAI_API_KEY"], env["OPENAI_ENDPOINT"], env["CHAT_MODEL"], env["EMBEDDING_MODEL"],
           env["SEARCH_API_KEY"], env["SEARCH_ENDPOINT"], env["INDEX_NAME"])
  }

  /** The terminal loader either hands back the configuration or ends the process with a status. */
  datatype LoadResult = Loaded(config: Config) | Exit(status: int, missing: seq<string>)

  /** Terminal front end: exit with status 1 listing the missing names, or return the configuration. */
  method LoadEnvironment(env: Env) returns (r: LoadResult)
    ensures r.Exit? <==> !AllSet(env)
    ensures r.Exit? ==> r.status == 1 && r.missing == Missing(RequiredVars, env) && r.missing != []
    ensures r.Loaded? ==> AllSet(env) && r.config == ConfigOf(env)
  {
    var missing := MissingVars(env);
    NothingMissingIff(env);
    if missing != [] {
      return Exit(1, missing);
    }
    return Loaded(ConfigOf(env));
  }

  /** Web front end: `None` when something is missing, otherwise the configuration. */
  method LoadEnvironmentWeb(env: Env) returns (r: Option<Config>)
    ensures r.None? <==> !AllSet(env)
    ensures r.Some? ==> AllSet(env) && r.value == ConfigOf(env)
  {
    var missing := MissingVars(env);
    NothingMissingIff(env);
    if missing != [] {
      return None;
    }
    return Some(ConfigOf(env));
  }
}
