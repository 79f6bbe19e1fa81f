/**
 The flat key scheme that encodes the tree app -> environment -> component
 -> version in a key-value store: the app list lives at "apps", the
 environments of an app at the app's own name, the components of an
 environment at "app:env", and a version at "app:env:component".
 */
module Keys {

  /** The separator the key scheme puts between the levels of the tree. */
  const Sep: char := ':'

  /** The key of the set that lists every app. */
  const AppsKey: string := "apps"

  /** A name the key scheme can carry unambiguously: it has no separator. */
  predicate IsName(s: string) {
    Sep !in s
  }

  /** `prefix + ":" + name`. */
  function Join(prefix: string, name: string): string {
    prefix + [Sep] + name
  }

  /** The key of the set of components of `env` under `app`: `app:env`. */
  function EnvKey(app: string, env: string): string {
    Join(app, env)
  }

  /** The key of the version string of a component: `app:env:component`. */
  function VersionKey(app: string, env: string, component: string): string {
    Join(EnvKey(app, env), component)
  }

  /** `key` has the form `prefix:rest`. */
  predicate Under(prefix: string, key: string) {
    |prefix| < |key| && key[..|prefix|] == prefix && key[|prefix|] == Sep
  }

  /** The `rest` of a key of the form `prefix:rest`: the inverse of Join. */
  function Below(prefix: string, key: string): (rest: string)
    requires Under(prefix, key)
    ensures Join(prefix, rest) == key
  {
    key[|prefix| + 1..]
  }

  /** Joining and then splitting at the same prefix gives the name back. */
  lemma BelowJoin(prefix: string, name: string)
    ensures Under(prefix, Join(prefix, name))
    ensures Below(prefix, Join(prefix, name)) == name
  {
    var k := Join(prefix, name);
    assert k[..|prefix|] == prefix;
    assert k[|prefix| + 1..] == name;
  }

  /** Number of separators in `s`. */
  function Colons(s: string): nat {
    if s == [] then 0 else (if s[0] == Sep then 1 else 0) + Colons(s[1..])
  }

  lemma {:induction false} ColonsConcat(s: string, t: string)
    ensures Colons(s + t) == Colons(s) + Colons(t)
  {
    if s == [] {
      assert s + t == t;
    } else {
      assert (s + t)[1..] == s[1..] + t;
      ColonsConcat(s[1..], t);
    }
  }

  lemma {:induction false} ColonsZeroIffName(s: string)
    ensures Colons(s) == 0 <==> IsName(s)
  {
    if s != [] {
      ColonsZeroIffName(s[1..]);
      assert s == [s[0]] + s[1..];
    }
  }

  lemma ColonsJoin(prefix: string, name: string)
    ensures Colons(Join(prefix, name)) == Colons(prefix) + 1 + Colons(name)
  {
    ColonsConcat(prefix + [Sep], name);
    ColonsConcat(prefix, [Sep]);
    assert Colons([Sep]) == 1 by { assert [Sep][1..] == []; }
  }

  /** A key holds as many separators as its names, plus one per level. */
  lemma VersionKeyColons(app: string, env: string, component: string)
    ensures Colons(VersionKey(app, env, component)) == Colons(app) + Colons(env) + Colons(component) + 2
  {
    ColonsJoin(EnvKey(app, env), component);
    ColonsJoin(app, env);
  }

  /** In a join whose prefix is a name, the first separator ends the prefix. */
  lemma FirstSep(p: string, n: string)
    requires IsName(p)
    ensures forall i :: 0 <= i < |p| ==> Join(p, n)[i] != Sep
    ensures Join(p, n)[|p|] == Sep
  {
  }

  /** Splitting a joined key at its first separator recovers both parts. */
  lemma SplitJoin(p: string, n: string, p': string, n': string)
    requires IsName(p) && IsName(p')
    requires Join(p, n) == Join(p', n')
    ensures p == p' && n == n'
  {
    var k := Join(p, n);
    FirstSep(p, n);
    FirstSep(p', n');
    assert |p| == |p'|;
    assert p == k[..|p|] == p';
    assert n == k[|p| + 1..] == n';
  }

  /** Below a common prefix a join is injective, whatever the names contain. */
  lemma JoinSamePrefix(p: string, n: string, n': string)
    ensures Join(p, n) == Join(p, n') <==> n == n'
  {
    if Join(p, n) == Join(p, n') {
      assert n == Join(p, n)[|p| + 1..];
      assert n' == Join(p, n')[|p| + 1..];
    }
  }

  /** Within one environment distinct components have distinct version keys. */
  lemma VersionKeySameEnv(app: string, env: string, c: string, c': string)
    ensures VersionKey(app, env, c) == VersionKey(app, env, c') <==> c == c'
  {
    JoinSamePrefix(EnvKey(app, env), c, c');
  }

  /** The quantified form of VersionKeySameEnv. */
  lemma VersionKeysDistinct(app: string, env: string)
    ensures forall c, c' :: VersionKey(app, env, c) == VersionKey(app, env, c') ==> c == c'
  {
    forall c, c' | VersionKey(app, env, c) == VersionKey(app, env, c') {
      VersionKeySameEnv(app, env, c, c');
    }
  }

  /** Environment keys of colon-free names are unique. */
  lemma EnvKeyInjective(app: string, env: string, app': string, env': string)
    requires IsName(app) && IsName(env)
    ensures EnvKey(app, env) == EnvKey(app', env') <==> app == app' && env == env'
  {
    if EnvKey(app, env) == EnvKey(app', env') {
      ColonsJoin(app, env);
      ColonsJoin(app', env');
      ColonsZeroIffName(app);
      ColonsZeroIffName(env);
      ColonsZeroIffName(app');
      SplitJoin(app, env, app', env');
    }
  }

  /**
   A version key made of colon-free names is the key of that triple and of no
   other, even one whose names contain separators.
   */
  lemma VersionKeyInjective(app: string, env: string, component: string,
                            app': string, env': string, component': string)
    requires IsName(app) && IsName(env) && IsName(component)
    ensures VersionKey(app, env, component) == VersionKey(app', env', component')
            <==> app == app' && env == env' && component == component'
  {
    if VersionKey(app, env, component) == VersionKey(app', env', component') {
      VersionKeyColons(app, env, component);
      VersionKeyColons(app', env', component');
      ColonsZeroIffName(app);
      ColonsZeroIffName(env);
      ColonsZeroIffName(component);
      ColonsZeroIffName(app');
      ColonsZeroIffName(env');
      ColonsZeroIffName(component');
      assert VersionKey(app, env, component) == Join(app, Join(env, component));
      assert VersionKey(app', env', component') == Join(app', Join(env', component'));
      SplitJoin(app, Join(env, component), app', Join(env', component'));
      SplitJoin(env, component, env', component');
    }
  }

  /** A set key of an app and the set key of an environment never coincide. */
  lemma AppKeyNotEnvKey(app: string, app': string, env': string)
    requires IsName(app)
    ensures app != EnvKey(app', env')
  {
    ColonsJoin(app', env');
    ColonsZeroIffName(app);
  }

  /** The app list's key is no environment key. */
  lemma AppsKeyNotEnvKey(app: string, env: string)
    ensures AppsKey != EnvKey(app, env)
  {
    AppKeyNotEnvKey(AppsKey, app, env);
  }

  /**
   With colon-free names the string keys and the set keys of the scheme never
   meet: a version key is neither the app list's key, nor an app's set key,
   nor an environment's set key.
   */
  lemma VersionKeyNotSetKey(app: string, env: string, component: string, app': string, env': string)
    requires IsName(app) && IsName(env) && IsName(component)
    requires IsName(app') && IsName(env')
    ensures VersionKey(app, env, component) != AppsKey
    ensures VersionKey(app, env, component) != app'
    ensures VersionKey(app, env, component) != EnvKey(app', env')
  {
    VersionKeyColons(app, env, component);
    ColonsJoin(app', env');
    ColonsZeroIffName(app);
    ColonsZeroIffName(env);
    ColonsZeroIffName(component);
    ColonsZeroIffName(app');
    ColonsZeroIffName(env');
    ColonsZeroIffName(AppsKey);
  }

  /**
   Without the colon-free precondition the scheme is ambiguous: component
   "y:z" of env "x" and component "z" of env "x:y" share one version key.
   */
  lemma ColonNamesCollide(app: string)
    ensures VersionKey(app, "x", "y:z") == VersionKey(app, "x:y", "z")
    ensures ("x", "y:z") != ("x:y", "z")
  {
    assert VersionKey(app, "x", "y:z") == app + ":x:y:z" by {
      assert VersionKey(app, "x", "y:z") == app + [Sep] + "x" + [Sep] + "y:z";
    }
    assert VersionKey(app, "x:y", "z") == app + ":x:y:z";
  }
}
