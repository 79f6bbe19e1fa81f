/**
 The hierarchy accessors: the tree app -> environment -> component ->
 version read from and written to the flat store.

 The readers and writers are methods that issue one store command at a time,
 as the service does. Each is proved against a function or predicate on
 `Db` values (the views below, ComponentWritten, EnvWritten, AppWritten);
 the properties of those are the lemmas in VmsProperties.
 */
module Vms {
  import opened Keys
  import opened KeyValue

  // ---------------------------------------------------------------------
  // What the readers see
  // ---------------------------------------------------------------------

  /** The version of a component: the string at `app:env:component`. */
  function Version(db: Db, app: string, env: string, component: string): string {
    db.Value(VersionKey(app, env, component))
  }

  /** The components of an environment, each with its version. */
  function EnvView(db: Db, app: string, env: string): map<string, string> {
    map c | c in db.Members(EnvKey(app, env)) :: Version(db, app, env, c)
  }

  /** The environments of an app, each with its components. */
  function AppView(db: Db, app: string): map<string, map<string, string>> {
    map e | e in db.Members(app) :: EnvView(db, app, e)
  }

  /** The whole tree, one entry per member of the app list. */
  function AllView(db: Db): map<string, map<string, map<string, string>>> {
    map a | a in db.Members(AppsKey) :: AppView(db, a)
  }

  // ---------------------------------------------------------------------
  // What the writers leave behind
  // ---------------------------------------------------------------------

  /** The data after setting one component: SADD `app:env` then SET the version. */
  function ComponentWritten(db: Db, app: string, env: string, component: string, version: string): Db {
    db.WithMember(EnvKey(app, env), component).WithValue(VersionKey(app, env, component), version)
  }

  /** The members a setEnv of `components` adds to the set at `key`. */
  function EnvAdded(app: string, env: string, components: map<string, string>, key: string): set<string> {
    (if key == app then {env} else {})
    + (if key == EnvKey(app, env) then components.Keys else {})
  }

  /** The string at `key` after a setEnv of `components` on `db`. */
  function EnvValue(db: Db, app: string, env: string, components: map<string, string>, key: string): string {
    var ek := EnvKey(app, env);
    if Under(ek, key) && Below(ek, key) in components then components[Below(ek, key)] else db.Value(key)
  }

  /**
   `db` is what setEnv leaves behind when it starts from `db0`, as SMEMBERS and
   GET see it: `env` joins the set `app`, every component joins the set
   `app:env`, every component's version is stored, and nothing else changes.
   The components have pairwise distinct keys, so this does not depend on the
   order in which they are written.
   */
  ghost predicate EnvWritten(db0: Db, db: Db, app: string, env: string, components: map<string, string>) {
    forall k :: EnvWrittenAt(db0, db, app, env, components, k)
  }

  /** EnvWritten at the one key `k`. */
  ghost predicate EnvWrittenAt(db0: Db, db: Db, app: string, env: string, components: map<string, string>, k: string) {
    && db.Members(k) == db0.Members(k) + EnvAdded(app, env, components, k)
    && db.Value(k) == EnvValue(db0, app, env, components, k)
  }

  /** EnvWritten, key by key. */
  lemma EnvWrittenKeys(db0: Db, db: Db, app: string, env: string, components: map<string, string>)
    requires EnvWritten(db0, db, app, env, components)
    ensures forall k :: db.Members(k) == db0.Members(k) + EnvAdded(app, env, components, k)
    ensures forall k :: db.Value(k) == EnvValue(db0, app, env, components, k)
  {
    forall k ensures db.Members(k) == db0.Members(k) + EnvAdded(app, env, components, k)
                 ensures db.Value(k) == EnvValue(db0, app, env, components, k)
    {
      assert EnvWrittenAt(db0, db, app, env, components, k);
    }
  }

  /** The members a setApp of `envs` adds to the set at `key`. */
  function AppAdded(app: string, envs: map<string, map<string, string>>, key: string): set<string> {
    (if key == AppsKey then {app} else {})
    + (if key == app then envs.Keys else {})
    + (if Under(app, key) && Below(app, key) in envs then envs[Below(app, key)].Keys else {})
  }

  /** setApp of `envs` SETs `key` to `version`. */
  ghost predicate WritesTo(app: string, envs: map<string, map<string, string>>, key: string, version: string) {
    exists e, c :: e in envs && c in envs[e] && VersionKey(app, e, c) == key && envs[e][c] == version
  }

  /** setApp of `envs` SETs `key`. */
  ghost predicate Writes(app: string, envs: map<string, map<string, string>>, key: string) {
    exists e, c :: e in envs && c in envs[e] && VersionKey(app, e, c) == key
  }

  /**
   `db` is what setApp may leave behind when it starts from `db0`. The sets
   end up the same whatever the order of the writes. A string key written
   more than once (possible only for names with separators) holds one of the
   versions written to it, and which one depends on the order of the writes.
   */
  ghost predicate AppWritten(db0: Db, db: Db, app: string, envs: map<string, map<string, string>>) {
    forall k :: AppWrittenAt(db0, db, app, envs, k)
  }

  /** AppWritten at the one key `k`. */
  ghost predicate AppWrittenAt(db0: Db, db: Db, app: string, envs: map<string, map<string, string>>, k: string) {
    && db.Members(k) == db0.Members(k) + AppAdded(app, envs, k)
    && (!Writes(app, envs, k) ==> db.Value(k) == db0.Value(k))
    && (Writes(app, envs, k) ==> WritesTo(app, envs, k, db.Value(k)))
  }

  /** AppWritten, key by key. */
  lemma AppWrittenKeys(db0: Db, db: Db, app: string, envs: map<string, map<string, string>>)
    requires AppWritten(db0, db, app, envs)
    ensures forall k :: db.Members(k) == db0.Members(k) + AppAdded(app, envs, k)
    ensures forall k :: !Writes(app, envs, k) ==> db.Value(k) == db0.Value(k)
    ensures forall k :: Writes(app, envs, k) ==> WritesTo(app, envs, k, db.Value(k))
  {
    forall k ensures db.Members(k) == db0.Members(k) + AppAdded(app, envs, k)
                 ensures !Writes(app, envs, k) ==> db.Value(k) == db0.Value(k)
                 ensures Writes(app, envs, k) ==> WritesTo(app, envs, k, db.Value(k))
    {
      assert AppWrittenAt(db0, db, app, envs, k);
    }
  }

  // ---------------------------------------------------------------------
  // Readers
  // ---------------------------------------------------------------------

  /** getAppEnvComponentVersion: the stored version, or "" when none is stored. */
  method GetAppEnvComponentVersion(store: Store, app: string, env: string, component: string)
    returns (version: string)
    ensures VersionKey(app, env, component) in store.strs ==> version == store.strs[VersionKey(app, env, component)]
    ensures VersionKey(app, env, component) !in store.strs ==> version == ""
    ensures version == Version(store.State(), app, env, component)
  {
    version := store.Get(VersionKey(app, env, component));
  }

  /** getAppEnv: one entry per member of the set `app:env`, mapped to its version. */
  method GetAppEnv(store: Store, app: string, env: string) returns (result: map<string, string>)
    ensures result.Keys == store.State().Members(EnvKey(app, env))
    ensures forall c :: c in result ==> result[c] == Version(store.State(), app, env, c)
    ensures result == EnvView(store.State(), app, env)
  {
    result := map[];
    var components := store.SMembers(EnvKey(app, env));
    for i := 0 to |components|
      invariant forall c :: c in result <==> c in components[..i]
      invariant forall c :: c in result ==> result[c] == Version(store.State(), app, env, c)
    {
      var version := GetAppEnvComponentVersion(store, app, env, components[i]);
      result := result[components[i] := version];
    }
  }

  /** getApp: one entry per member of the set `app`, mapped to that environment's components. */
  method GetApp(store: Store, app: string) returns (result: map<string, map<string, string>>)
    ensures result.Keys == store.State().Members(app)
    ensures forall e :: e in result ==> result[e] == EnvView(store.State(), app, e)
    ensures result == AppView(store.State(), app)
  {
    result := map[];
    var envs := store.SMembers(app);
    for i := 0 to |envs|
      invariant forall e :: e in result <==> e in envs[..i]
      invariant forall e :: e in result ==> result[e] == EnvView(store.State(), app, e)
    {
      var components := GetAppEnv(store, app, envs[i]);
      result := result[envs[i] := components];
    }
  }

  /** The tree handleGetAll sends: one entry per member of "apps". */
  method GetAll(store: Store) returns (state: map<string, map<string, map<string, string>>>)
    ensures state.Keys == store.State().Members(AppsKey)
    ensures forall a :: a in state ==> state[a] == AppView(store.State(), a)
    ensures state == AllView(store.State())
  {
    state := map[];
    var apps := store.SMembers(AppsKey);
    for i := 0 to |apps|
      invariant forall a :: a in state <==> a in apps[..i]
      invariant forall a :: a in state ==> state[a] == AppView(store.State(), a)
    {
      var envs := GetApp(store, apps[i]);
      state := state[apps[i] := envs];
    }
  }

  // ---------------------------------------------------------------------
  // Writers
  // ---------------------------------------------------------------------

  /** setComponent: SADD `app:env` `component`, then SET `app:env:component` `version`. */
  method SetComponent(store: Store, app: string, env: string, component: string, version: string)
    modifies store
    ensures store.State() == ComponentWritten(old(store.State()), app, env, component, version)
  {
    store.SAdd(EnvKey(app, env), component);
    store.Set(VersionKey(app, env, component), version);
  }

  /** setEnv: SADD `app` `env`, then setComponent for every entry, in any order. */
  method SetEnv(store: Store, app: string, env: string, components: map<string, string>)
    modifies store
    ensures EnvWritten(old(store.State()), store.State(), app, env, components)
  {
    ghost var db0 := store.State();
    store.SAdd(app, env);
    EnvWrittenStart(db0, app, env);
    var todo := components.Keys;
    ghost var done: map<string, string> := map[];
    while todo != {}
      invariant todo <= components.Keys
      invariant done.Keys == components.Keys - todo
      invariant forall c :: c in done ==> done[c] == components[c]
      invariant EnvWritten(db0, store.State(), app, env, done)
      decreases todo
    {
      var c :| c in todo;
      ghost var before := store.State();
      SetComponent(store, app, env, c, components[c]);
      EnvWrittenStep(db0, before, app, env, done, c, components[c]);
      done := done[c := components[c]];
      todo := todo - {c};
    }
    assert done == components;
  }

  /** setApp: SADD "apps" `app`, then setEnv for every entry, in any order. */
  method SetApp(store: Store, app: string, envs: map<string, map<string, string>>)
    modifies store
    ensures AppWritten(old(store.State()), store.State(), app, envs)
  {
    ghost var db0 := store.State();
    store.SAdd(AppsKey, app);
    AppWrittenStart(db0, app);
    var todo := envs.Keys;
    ghost var done: map<string, map<string, string>> := map[];
    while todo != {}
      invariant todo <= envs.Keys
      invariant done == envs - todo
      invariant AppWritten(db0, store.State(), app, done)
      decreases todo
    {
      var e :| e in todo;
      ghost var before := store.State();
      SetEnv(store, app, e, envs[e]);
      AppWrittenStep(db0, before, store.State(), app, done, e, envs[e]);
      done := done[e := envs[e]];
      todo := todo - {e};
    }
    assert done == envs;
  }

  // ---------------------------------------------------------------------
  // Steps of the writers' loops
  // ---------------------------------------------------------------------

  /** Before its loop, setEnv has only added the environment to its app. */
  lemma EnvWrittenStart(db: Db, app: string, env: string)
    ensures EnvWritten(db, db.WithMember(app, env), app, env, map[])
  {
  }

  /** One more component written by setEnv's loop. */
  lemma EnvWrittenStep(db0: Db, db: Db, app: string, env: string, done: map<string, string>, c: string, v: string)
    requires EnvWritten(db0, db, app, env, done)
    requires c !in done
    ensures EnvWritten(db0, ComponentWritten(db, app, env, c, v), app, env, done[c := v])
  {
    var db' := ComponentWritten(db, app, env, c, v);
    var ek := EnvKey(app, env);
    var done' := done[c := v];
    assert done'.Keys == done.Keys + {c};
    BelowJoin(ek, c);
    forall k ensures EnvWrittenAt(db0, db', app, env, done', k) {
      assert EnvWrittenAt(db0, db, app, env, done, k);
      if k == VersionKey(app, env, c) {
        assert db'.Value(k) == v;
      } else {
        assert db'.Value(k) == db.Value(k);
        if Under(ek, k) {
          assert Below(ek, k) != c;
        }
      }
    }
  }

  /** Before its loop, setApp has only added the app to "apps". */
  lemma AppWrittenStart(db: Db, app: string)
    ensures AppWritten(db, db.WithMember(AppsKey, app), app, map[])
  {
  }

  /** One more environment written by setApp's loop. */
  lemma AppWrittenStep(db0: Db, db: Db, db': Db, app: string, done: map<string, map<string, string>>,
                       env: string, components: map<string, string>)
    requires AppWritten(db0, db, app, done)
    requires EnvWritten(db, db', app, env, components)
    requires env !in done
    ensures AppWritten(db0, db', app, done[env := components])
  {
    var done' := done[env := components];
    forall k ensures AppWrittenAt(db0, db', app, done', k) {
      assert AppWrittenAt(db0, db, app, done, k);
      assert EnvWrittenAt(db, db', app, env, components, k);
      AppAddedStep(app, done, env, components, k);
      AppValueStep(db0, db, db', app, done, env, components, k);
    }
  }

  lemma AppAddedStep(app: string, done: map<string, map<string, string>>,
                     env: string, components: map<string, string>, k: string)
    requires env !in done
    ensures AppAdded(app, done[env := components], k) == AppAdded(app, done, k) + EnvAdded(app, env, components, k)
  {
    var done' := done[env := components];
    assert done'.Keys == done.Keys + {env};
    BelowJoin(app, env);
    if Under(app, k) {
      if Below(app, k) == env {
        assert k == EnvKey(app, env);
      } else {
        assert k != EnvKey(app, env);
      }
    } else {
      assert k != EnvKey(app, env);
    }
  }

  lemma AppValueStep(db0: Db, db: Db, db': Db, app: string, done: map<string, map<string, string>>,
                     env: string, components: map<string, string>, k: string)
    requires AppWrittenAt(db0, db, app, done, k)
    requires EnvWrittenAt(db, db', app, env, components, k)
    requires env !in done
    ensures !Writes(app, done[env := components], k) ==> db'.Value(k) == db0.Value(k)
    ensures Writes(app, done[env := components], k) ==> WritesTo(app, done[env := components], k, db'.Value(k))
  {
    var done' := done[env := components];
    var ek := EnvKey(app, env);
    if Under(ek, k) && Below(ek, k) in components {
      var c := Below(ek, k);
      assert VersionKey(app, env, c) == k;
      assert env in done' && c in done'[env] && done'[env][c] == db'.Value(k);
    } else {
      assert db'.Value(k) == db.Value(k);
      if Writes(app, done', k) {
        var e, c :| e in done' && c in done'[e] && VersionKey(app, e, c) == k;
        if e == env {
          BelowJoin(ek, c);
          assert false;
        }
        assert Writes(app, done, k);
        var e2, c2 :| e2 in done && c2 in done[e2] && VersionKey(app, e2, c2) == k && done[e2][c2] == db.Value(k);
        assert e2 in done' && done'[e2] == done[e2];
      } else {
        forall e, c | e in done && c in done[e] ensures VersionKey(app, e, c) != k {
          assert e in done' && done'[e] == done[e];
        }
      }
    }
  }
}
