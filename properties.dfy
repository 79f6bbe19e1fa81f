/**
 What the accessors promise, stated on the functions and predicates that
 specify them: round trips, idempotence, frames, no deletion, and where the
 colon-joined key scheme stops being faithful to the tree.
 */
module VmsProperties {
  import opened Keys
  import opened KeyValue
  import opened Vms

  /** Two snapshots that no SMEMBERS or GET can tell apart. */
  ghost predicate Same(db: Db, db': Db) {
    && (forall k :: db.Members(k) == db'.Members(k))
    && (forall k :: db.Value(k) == db'.Value(k))
  }

  /** Nothing was removed from any set. */
  ghost predicate Grows(db: Db, db': Db) {
    forall k :: db.Members(k) <= db'.Members(k)
  }

  /** Every name of an app write is colon-free. */
  ghost predicate NamesIn(app: string, envs: map<string, map<string, string>>) {
    && IsName(app)
    && (forall e :: e in envs ==> IsName(e))
    && (forall e, c :: e in envs && c in envs[e] ==> IsName(c))
  }

  // ---------------------------------------------------------------------
  // Reading
  // ---------------------------------------------------------------------

  /**
   A version that was never stored reads as "", exactly as one stored as "":
   the reader cannot tell "no such component" from "empty version".
   */
  lemma MissingVersionReadsEmpty(db: Db, app: string, env: string, component: string)
    requires VersionKey(app, env, component) !in db.strs
    ensures Version(db, app, env, component) == ""
    ensures Version(db, app, env, component)
         == Version(db.WithValue(VersionKey(app, env, component), ""), app, env, component)
  {
  }

  /** An empty backend reads as an empty tree at every level. */
  lemma EmptyStoreReadsEmpty(app: string, env: string, component: string)
    ensures AllView(Empty) == map[]
    ensures AppView(Empty, app) == map[]
    ensures EnvView(Empty, app, env) == map[]
    ensures Version(Empty, app, env, component) == ""
  {
    assert AllView(Empty).Keys == {};
    assert AppView(Empty, app).Keys == {};
    assert EnvView(Empty, app, env).Keys == {};
  }

  // ---------------------------------------------------------------------
  // setComponent
  // ---------------------------------------------------------------------

  /** After setComponent, getAppEnvComponentVersion returns the version written. */
  lemma SetComponentRoundTrip(db: Db, app: string, env: string, component: string, version: string)
    ensures Version(ComponentWritten(db, app, env, component, version), app, env, component) == version
  {
  }

  /** After setComponent, getAppEnv is the old environment with that one entry set. */
  lemma SetComponentEnvView(db: Db, app: string, env: string, component: string, version: string)
    ensures EnvView(ComponentWritten(db, app, env, component, version), app, env)
         == EnvView(db, app, env)[component := version]
  {
    var db' := ComponentWritten(db, app, env, component, version);
    VersionKeysDistinct(app, env);
    assert db'.Members(EnvKey(app, env)) == db.Members(EnvKey(app, env)) + {component};
  }

  /** setComponent twice is setComponent once: SADD does not duplicate, SET overwrites. */
  lemma SetComponentIdempotent(db: Db, app: string, env: string, component: string, version: string)
    ensures ComponentWritten(ComponentWritten(db, app, env, component, version), app, env, component, version)
         == ComponentWritten(db, app, env, component, version)
  {
    var once := ComponentWritten(db, app, env, component, version);
    assert once.Members(EnvKey(app, env)) + {component} == once.Members(EnvKey(app, env));
  }

  /** setComponent touches the set `app:env` and the string `app:env:component`, nothing else. */
  lemma SetComponentFrame(db: Db, app: string, env: string, component: string, version: string)
    ensures ComponentWritten(db, app, env, component, version).Members(EnvKey(app, env))
         == db.Members(EnvKey(app, env)) + {component}
    ensures forall k :: k != EnvKey(app, env) ==>
              ComponentWritten(db, app, env, component, version).Members(k) == db.Members(k)
    ensures forall k :: k != VersionKey(app, env, component) ==>
              ComponentWritten(db, app, env, component, version).Value(k) == db.Value(k)
    ensures Grows(db, ComponentWritten(db, app, env, component, version))
  {
  }

  /**
   setComponent does not register the environment in its app (nor the app in
   "apps"): a component written to an environment its app does not list stays
   out of getApp.
   */
  lemma SetComponentHiddenFromApp(db: Db, app: string, env: string, component: string, version: string)
    requires IsName(app) && IsName(env) && IsName(component)
    requires env !in db.Members(app)
    ensures AppView(ComponentWritten(db, app, env, component, version), app) == AppView(db, app)
    ensures ComponentWritten(db, app, env, component, version).Members(AppsKey) == db.Members(AppsKey)
  {
    var db' := ComponentWritten(db, app, env, component, version);
    AppKeyNotEnvKey(app, app, env);
    AppsKeyNotEnvKey(app, env);
    assert db'.Members(app) == db.Members(app);
    forall e | e in db.Members(app) ensures EnvView(db', app, e) == EnvView(db, app, e) {
      JoinSamePrefix(app, e, env);
      assert db'.Members(EnvKey(app, e)) == db.Members(EnvKey(app, e));
      forall c | c in db.Members(EnvKey(app, e))
        ensures Version(db', app, e, c) == Version(db, app, e, c)
      {
        VersionKeyInjective(app, env, component, app, e, c);
      }
    }
  }

  // ---------------------------------------------------------------------
  // setEnv
  // ---------------------------------------------------------------------

  /**
   After setEnv, the environment is listed under its app, and getAppEnv is
   the old environment overridden by every component written, whatever the
   names contain.
   */
  lemma SetEnvView(db0: Db, db: Db, app: string, env: string, components: map<string, string>)
    requires EnvWritten(db0, db, app, env, components)
    ensures env in db.Members(app)
    ensures EnvView(db, app, env) == EnvView(db0, app, env) + components
    ensures forall c :: c in components ==> EnvView(db, app, env)[c] == components[c]
  {
    EnvWrittenKeys(db0, db, app, env, components);
    var ek := EnvKey(app, env);
    assert |ek| > |app|;
    assert db.Members(ek) == db0.Members(ek) + components.Keys;
    forall c | c in db.Members(ek)
      ensures Version(db, app, env, c) == if c in components then components[c] else Version(db0, app, env, c)
    {
      BelowJoin(ek, c);
    }
  }

  /** setEnv twice with the same components leaves what setEnv once left. */
  lemma SetEnvIdempotent(db0: Db, db1: Db, db2: Db, app: string, env: string, components: map<string, string>)
    requires EnvWritten(db0, db1, app, env, components)
    requires EnvWritten(db1, db2, app, env, components)
    ensures Same(db1, db2)
  {
    EnvWrittenKeys(db0, db1, app, env, components);
    EnvWrittenKeys(db1, db2, app, env, components);
    forall k ensures db1.Members(k) == db2.Members(k) {
      assert db2.Members(k) == db1.Members(k) + EnvAdded(app, env, components, k);
    }
  }

  /**
   setEnv changes only the sets `app` and `app:env` and the strings below
   `app:env:`, and removes nothing.
   */
  lemma SetEnvFrame(db0: Db, db: Db, app: string, env: string, components: map<string, string>)
    requires EnvWritten(db0, db, app, env, components)
    ensures forall k :: k != app && k != EnvKey(app, env) ==> db.Members(k) == db0.Members(k)
    ensures forall k :: !Under(EnvKey(app, env), k) ==> db.Value(k) == db0.Value(k)
    ensures Grows(db0, db)
  {
    EnvWrittenKeys(db0, db, app, env, components);
  }

  /**
   The order setEnv's loop takes does not matter: two states it can leave
   from the same start with the same components cannot be told apart.
   */
  lemma SetEnvOrderFree(db0: Db, db1: Db, db2: Db, app: string, env: string, components: map<string, string>)
    requires EnvWritten(db0, db1, app, env, components)
    requires EnvWritten(db0, db2, app, env, components)
    ensures Same(db1, db2)
  {
    EnvWrittenKeys(db0, db1, app, env, components);
    EnvWrittenKeys(db0, db2, app, env, components);
  }

  /**
   An app named "apps" shares its set key with the app list: every
   environment written under it is listed as an app.
   */
  lemma AppNamedAppsListsEnvs(db0: Db, db: Db, env: string, components: map<string, string>)
    requires EnvWritten(db0, db, AppsKey, env, components)
    ensures env in AllView(db)
  {
    EnvWrittenKeys(db0, db, AppsKey, env, components);
  }

  // ---------------------------------------------------------------------
  // setApp
  // ---------------------------------------------------------------------

  /**
   After setApp the app is in "apps", every environment is listed under the
   app and every component under its environment, whatever the names contain.
   */
  lemma SetAppRegisters(db0: Db, db: Db, app: string, envs: map<string, map<string, string>>)
    requires AppWritten(db0, db, app, envs)
    ensures app in db.Members(AppsKey) && app in AllView(db)
    ensures forall e :: e in envs ==> e in db.Members(app) && e in AppView(db, app)
    ensures forall e :: e in envs ==> envs[e].Keys <= db.Members(EnvKey(app, e))
  {
    AppWrittenKeys(db0, db, app, envs);
    forall e | e in envs ensures envs[e].Keys <= db.Members(EnvKey(app, e)) {
      BelowJoin(app, e);
      assert envs[e].Keys <= AppAdded(app, envs, EnvKey(app, e));
    }
  }

  /**
   With colon-free names, getApp after setApp holds every (environment,
   component, version) triple written.
   */
  lemma SetAppRoundTrip(db0: Db, db: Db, app: string, envs: map<string, map<string, string>>)
    requires AppWritten(db0, db, app, envs)
    requires NamesIn(app, envs)
    ensures forall e, c :: e in envs && c in envs[e] ==>
              e in AppView(db, app) && c in AppView(db, app)[e] && AppView(db, app)[e][c] == envs[e][c]
  {
    AppWrittenKeys(db0, db, app, envs);
    SetAppRegisters(db0, db, app, envs);
    forall e, c | e in envs && c in envs[e]
      ensures Version(db, app, e, c) == envs[e][c]
    {
      WrittenOnce(app, envs, e, c, db.Value(VersionKey(app, e, c)));
    }
  }

  /** With colon-free names, the only version setApp writes to a component's key is that component's. */
  lemma WrittenOnce(app: string, envs: map<string, map<string, string>>, e: string, c: string, v: string)
    requires NamesIn(app, envs)
    requires e in envs && c in envs[e]
    ensures Writes(app, envs, VersionKey(app, e, c))
    ensures WritesTo(app, envs, VersionKey(app, e, c), v) <==> v == envs[e][c]
  {
    if WritesTo(app, envs, VersionKey(app, e, c), v) {
      var e2, c2 :| e2 in envs && c2 in envs[e2] && VersionKey(app, e2, c2) == VersionKey(app, e, c)
                    && envs[e2][c2] == v;
      VersionKeyInjective(app, e, c, app, e2, c2);
    }
  }

  /**
   setApp deletes nothing: every entry getApp showed before is still there,
   and one whose colon-free names were not written keeps its version.
   */
  lemma SetAppKeepsEntries(db0: Db, db: Db, app: string, envs: map<string, map<string, string>>)
    requires AppWritten(db0, db, app, envs)
    ensures Grows(db0, db)
    ensures forall e, c :: e in AppView(db0, app) && c in AppView(db0, app)[e] ==>
              e in AppView(db, app) && c in AppView(db, app)[e]
    ensures forall e, c ::
              (e in AppView(db0, app) && c in AppView(db0, app)[e]
               && IsName(app) && IsName(e) && IsName(c) && !(e in envs && c in envs[e])) ==>
              AppView(db, app)[e][c] == AppView(db0, app)[e][c]
  {
    AppWrittenKeys(db0, db, app, envs);
    forall e, c | e in AppView(db0, app) && c in AppView(db0, app)[e]
                  && IsName(app) && IsName(e) && IsName(c) && !(e in envs && c in envs[e])
      ensures Version(db, app, e, c) == Version(db0, app, e, c)
    {
      if Writes(app, envs, VersionKey(app, e, c)) {
        var e2, c2 :| e2 in envs && c2 in envs[e2] && VersionKey(app, e2, c2) == VersionKey(app, e, c);
        VersionKeyInjective(app, e, c, app, e2, c2);
      }
    }
  }

  /** With colon-free names, setApp twice with the same input leaves what setApp once left. */
  lemma SetAppIdempotent(db0: Db, db1: Db, db2: Db, app: string, envs: map<string, map<string, string>>)
    requires AppWritten(db0, db1, app, envs)
    requires AppWritten(db1, db2, app, envs)
    requires NamesIn(app, envs)
    ensures Same(db1, db2)
  {
    AppWrittenKeys(db0, db1, app, envs);
    AppWrittenKeys(db1, db2, app, envs);
    forall k ensures db1.Members(k) == db2.Members(k) {
      assert db2.Members(k) == db1.Members(k) + AppAdded(app, envs, k);
    }
    forall k | Writes(app, envs, k) ensures db1.Value(k) == db2.Value(k) {
      var e, c :| e in envs && c in envs[e] && VersionKey(app, e, c) == k;
      WrittenOnce(app, envs, e, c, db1.Value(k));
      WrittenOnce(app, envs, e, c, db2.Value(k));
    }
  }

  /**
   With colon-free names the order setApp's loop takes does not matter
   either: each written key receives one version only.
   */
  lemma SetAppOrderFree(db0: Db, db1: Db, db2: Db, app: string, envs: map<string, map<string, string>>)
    requires AppWritten(db0, db1, app, envs)
    requires AppWritten(db0, db2, app, envs)
    requires NamesIn(app, envs)
    ensures Same(db1, db2)
  {
    AppWrittenKeys(db0, db1, app, envs);
    AppWrittenKeys(db0, db2, app, envs);
    forall k | Writes(app, envs, k) ensures db1.Value(k) == db2.Value(k) {
      var e, c :| e in envs && c in envs[e] && VersionKey(app, e, c) == k;
      WrittenOnce(app, envs, e, c, db1.Value(k));
      WrittenOnce(app, envs, e, c, db2.Value(k));
    }
  }

  /**
   Names with separators break setApp: component "y:z" of env "x" and
   component "z" of env "x:y" share one key, so afterwards both read the same
   version and one of the two writes is lost.
   */
  lemma SetAppColonCollision(db0: Db, db: Db, app: string)
    requires AppWritten(db0, db, app, map["x" := map["y:z" := "1"], "x:y" := map["z" := "2"]])
    ensures Version(db, app, "x", "y:z") == Version(db, app, "x:y", "z")
    ensures Version(db, app, "x", "y:z") in {"1", "2"}
  {
    AppWrittenKeys(db0, db, app, map["x" := map["y:z" := "1"], "x:y" := map["z" := "2"]]);
    var envs := map["x" := map["y:z" := "1"], "x:y" := map["z" := "2"]];
    ColonNamesCollide(app);
    var k := VersionKey(app, "x", "y:z");
    assert Writes(app, envs, k) by {
      assert "x" in envs && "y:z" in envs["x"];
    }
    var e, c :| e in envs && c in envs[e] && VersionKey(app, e, c) == k && envs[e][c] == db.Value(k);
    assert e == "x" || e == "x:y";
  }

  /** The body {"svcA":{"prod":{"api":"1.0.0","db":"2.0.0"}}} of a POST to /. */
  function SvcA(): map<string, map<string, string>> {
    map["prod" := map["api" := "1.0.0", "db" := "2.0.0"]]
  }

  /**
   That body written to an empty backend reads back unchanged from
   getApp("svcA"), and getAppEnvComponentVersion("svcA", "prod", "api") is "1.0.0".
   */
  lemma WrittenAppReadsBack(db: Db)
    requires AppWritten(Empty, db, "svcA", SvcA())
    ensures AppView(db, "svcA") == SvcA()
    ensures Version(db, "svcA", "prod", "api") == "1.0.0"
  {
    WrittenAppSets(db);
    WrittenAppVersions(db);
    SvcAView(db);
  }

  /** The versions that body leaves in an empty backend. */
  lemma WrittenAppVersions(db: Db)
    requires AppWritten(Empty, db, "svcA", SvcA())
    ensures Version(db, "svcA", "prod", "api") == "1.0.0"
    ensures Version(db, "svcA", "prod", "db") == "2.0.0"
  {
    var prod := SvcA()["prod"];
    SvcANames();
    SetAppRoundTrip(Empty, db, "svcA", SvcA());
    assert "prod" in SvcA() && "api" in prod && "db" in prod;
  }

  /** Any snapshot with those sets and versions shows that body under getApp("svcA"). */
  lemma SvcAView(db: Db)
    requires db.Members("svcA") == {"prod"}
    requires db.Members(EnvKey("svcA", "prod")) == {"api", "db"}
    requires Version(db, "svcA", "prod", "api") == "1.0.0"
    requires Version(db, "svcA", "prod", "db") == "2.0.0"
    ensures AppView(db, "svcA") == SvcA()
  {
    assert EnvView(db, "svcA", "prod") == SvcA()["prod"];
  }

  /** The names in that body are colon-free. */
  lemma SvcANames()
    ensures NamesIn("svcA", SvcA())
  {
    assert SvcA().Keys == {"prod"};
    assert SvcA()["prod"].Keys == {"api", "db"};
  }

  /** The sets that body leaves in an empty backend. */
  lemma WrittenAppSets(db: Db)
    requires AppWritten(Empty, db, "svcA", SvcA())
    ensures db.Members(AppsKey) == {"svcA"}
    ensures db.Members("svcA") == {"prod"}
    ensures db.Members(EnvKey("svcA", "prod")) == {"api", "db"}
  {
    AppWrittenKeys(Empty, db, "svcA", SvcA());
    assert !Under("svcA", "svcA");
    assert !Under("svcA", AppsKey);
    assert AppAdded("svcA", SvcA(), AppsKey) == {"svcA"};
    assert AppAdded("svcA", SvcA(), "svcA") == {"prod"};
    BelowJoin("svcA", "prod");
    assert AppAdded("svcA", SvcA(), EnvKey("svcA", "prod")) == {"api", "db"};
  }
}
