# vms: a verified model of the version-tracking store

`vms` records which version of each component of each application is
deployed to each environment. The service keeps the tree
app → environment → component → version in a key-value backend that offers
only sets of strings and plain strings:

- the set `apps` lists the apps;
- the set at key `app` lists the app's environments;
- the set at key `app:env` lists the environment's components;
- the string at key `app:env:component` holds the version.

This project models that encoding and the accessors built on it, from
`vms.go`:

- `keys.dfy` (module `Keys`): the colon-joined key scheme, its decoder
  `Below`, and when keys are unique. A version key built from colon-free names
  belongs to that triple only. With colons in names, two triples can share a
  key (`ColonNamesCollide`).
- `keyvalue.dfy` (module `KeyValue`): the backend. `Db` is a snapshot of it:
  a map from key to set and a separate map from key to string. `Store` is the
  in-memory backend the accessors talk to. Its methods `SAdd`, `SMembers`, `Get`
  and `Set` are the four commands. A missing set reads as empty, and a missing
  string reads as `""`, because the service discards the error of `GET`.
- `vms.dfy` (module `Vms`): the readers `getAppEnvComponentVersion`,
  `getAppEnv`, `getApp` and the tree built by `handleGetAll`, and the writers
  `setComponent`, `setEnv`, `setApp`. All are methods on a `Store` that issue
  one command at a time and loop as the service does. Go's `range` over a map
  has no fixed order, so the writers' loops pick the next entry with `:|`.
  Each method is proved against a specification on `Db` values:
  - the views `Version`, `EnvView`, `AppView`, `AllView`;
  - the exact new state `ComponentWritten`;
  - the per-key descriptions `EnvWritten` and `AppWritten`.
- `properties.dfy` (module `VmsProperties`): the properties of those
  specifications. These are round trips, idempotence, frames, no deletion,
  the end-to-end example, and what goes wrong with names that contain `:`.
- `config.dfy` (module `Config`): the environment-variable defaults
  (`getEnvVariable`, `getListeningPort`, and the backend address in
  `getRedisClient`), with the process environment passed in as a map.

Behaviour worth knowing, proved here:

- `setEnv` gives the same result whatever order it writes its components
  in, because components of one environment always have distinct keys
  (`SetEnvOrderFree`). `setApp` does too when names are colon-free
  (`SetAppOrderFree`).
- `setApp` can lose a write when names contain `:`. Env `x` with component
  `y:z` and env `x:y` with component `z` both write `app:x:y:z`
  (`SetAppColonCollision`). The round trip, the keeping of untouched entries
  and idempotence are therefore proved for colon-free names.
- `setComponent` on its own adds the component to `app:env` and stores the
  version. The routes `POST /{app}/{env}` and `POST /{app}/{env}/{component}`
  call only `setComponent`. It does not add the environment to the set `app`,
  nor the app to `apps`. So the component is not visible through `getApp` or
  the full tree unless the environment was already registered
  (`SetComponentHiddenFromApp`). One might expect every entity to be created
  on first write. The code registers the environment and the app only
  through `setEnv` and `setApp`.
- An app named `apps` uses the app list as its own set of environments. Every
  environment written under it then shows up as an app
  (`AppNamedAppsListsEnvs`).

## Model

| member | source | states |
|---|---|---|
| `Keys.Below` | vms.go:17 | decoding a key `prefix:rest` returns the `rest` that joins back to the same key |
| `Keys.BelowJoin` | vms.go:17 | a key built as `prefix + ":" + name` decodes back to `name` |
| `Keys.VersionKeySameEnv` | vms.go:42 | within one environment, two components have the same version key exactly when they are the same component |
| `Keys.EnvKeyInjective` | vms.go:23 | for colon-free names, `app:env` is the key of that pair and of no other |
| `Keys.VersionKeyInjective` | vms.go:17 | for colon-free names, `app:env:component` is the key of that triple and of no other, even a triple whose names contain colons |
| `Keys.AppKeyNotEnvKey` | vms.go:32 | the set key of a colon-free app name is never the set key `app':env'` of an environment |
| `Keys.AppsKeyNotEnvKey` | vms.go:68 | the key `apps` is never the set key of an environment |
| `Keys.VersionKeyNotSetKey` | vms.go:42 | for colon-free names, a version key is never `apps`, an app's set key or an environment's set key, so strings and sets never share a key |
| `Keys.ColonNamesCollide` | vms.go:42 | names with colons break the scheme: (`x`, `y:z`) and (`x:y`, `z`) share one version key |
| `KeyValue.Db.WithMember` | vms.go:41 | SADD adds the member to the set at its key and changes no other set and no string |
| `KeyValue.Db.WithValue` | vms.go:42 | SET makes GET of its key return the value and changes no other string and no set |
| `KeyValue.WithMemberPresent` | vms.go:41 | SADD of a member already present leaves the set as it was |
| `KeyValue.Store.SAdd` | vms.go:46 | the store afterwards holds the old data with the member added to the set |
| `KeyValue.Store.Set` | vms.go:42 | the store afterwards holds the old data with the key set to the value |
| `KeyValue.Store.Get` | vms.go:17 | returns the stored string, or `""` when the key holds none |
| `KeyValue.Store.SMembers` | vms.go:23 | returns each member of the set exactly once and nothing else, in no promised order; a missing set gives an empty list |
| `Vms.GetAppEnvComponentVersion` | vms.go:16-19 | returns the string stored at `app:env:component`, and `""` when none is stored |
| `Vms.GetAppEnv` | vms.go:21-28 | the result's keys are exactly the members of set `app:env`, each mapped to its stored version |
| `Vms.GetApp` | vms.go:30-37 | the result's keys are exactly the members of set `app`, each mapped to that environment's getAppEnv |
| `Vms.GetAll` | vms.go:66-73 | the tree's keys are exactly the members of `apps`, each mapped to that app's getApp |
| `Vms.SetComponent` | vms.go:39-43 | the new store is the old one after SADD `app:env` `component` and SET `app:env:component` `version` |
| `Vms.SetEnv` | vms.go:45-50 | whatever the iteration order: `env` joins set `app`, every component joins set `app:env`, every version is stored, nothing else changes |
| `Vms.SetApp` | vms.go:52-57 | whatever the iteration order: `app` joins `apps`, every env and component joins its set, each written key holds one of the versions written to it, other strings are unchanged |
| `Vms.EnvWrittenStart` | vms.go:46 | before setEnv's loop, only `env` has been added to set `app` |
| `Vms.EnvWrittenStep` | vms.go:47-49 | one more setComponent inside setEnv's loop extends the setEnv description by that component |
| `Vms.AppWrittenStart` | vms.go:53 | before setApp's loop, only `app` has been added to `apps` |
| `Vms.AppWrittenStep` | vms.go:54-56 | one more setEnv inside setApp's loop extends the setApp description by that environment |
| `VmsProperties.MissingVersionReadsEmpty` | vms.go:17-18 | a version never stored reads as `""`, the same as a version stored as `""` |
| `VmsProperties.EmptyStoreReadsEmpty` | vms.go:66-73 | on an empty backend the tree, every app and every environment read as empty maps, and every version as `""` |
| `VmsProperties.SetComponentRoundTrip` | vms.go:39-43 | after setComponent(a,e,c,v), getAppEnvComponentVersion(a,e,c) is v |
| `VmsProperties.SetComponentEnvView` | vms.go:39-43 | after setComponent(a,e,c,v), getAppEnv(a,e) is the old result with c mapped to v |
| `VmsProperties.SetComponentIdempotent` | vms.go:39-43 | setComponent twice leaves exactly the state of setComponent once |
| `VmsProperties.SetComponentFrame` | vms.go:40-42 | setComponent adds c to set `a:e` and changes only that set and the string `a:e:c`; no set loses a member (for the real backend, with colon-free names) |
| `VmsProperties.SetComponentHiddenFromApp` | vms.go:39-43 | for colon-free names, setComponent under an environment its app does not list leaves getApp(a) and the whole `apps` set unchanged |
| `VmsProperties.SetEnvView` | vms.go:45-50 | after setEnv(a,e,m), e is in set a and getAppEnv(a,e) is the old result overridden by m, for any names |
| `VmsProperties.SetEnvIdempotent` | vms.go:45-50 | setEnv twice with the same input is indistinguishable, by SMEMBERS and GET, from setEnv once |
| `VmsProperties.SetEnvFrame` | vms.go:45-50 | setEnv changes only the sets `a` and `a:e` and the strings under `a:e:`, and removes nothing (for the real backend, with colon-free names) |
| `VmsProperties.SetEnvOrderFree` | vms.go:47-49 | any two states setEnv can leave from the same start, with the same input, are indistinguishable by SMEMBERS and GET, whatever order the loop took |
| `VmsProperties.AppNamedAppsListsEnvs` | vms.go:46 | setEnv under an app named `apps` makes the environment appear in the full tree as an app |
| `VmsProperties.SetAppRegisters` | vms.go:52-57 | after setApp, the app is in `apps` and in the tree; every env it wrote is in set `a`, and every component is in its environment's set |
| `VmsProperties.SetAppRoundTrip` | vms.go:52-57 | for colon-free names, getApp(a) after setApp holds every (env, component, version) triple written |
| `VmsProperties.WrittenOnce` | vms.go:42 | for colon-free names, the only version setApp writes to a component's key is that component's version |
| `VmsProperties.SetAppKeepsEntries` | vms.go:52-57 | setApp removes nothing (for the real backend, with colon-free names); every entry getApp showed before remains, and one with colon-free names that was not written keeps its version |
| `VmsProperties.SetAppIdempotent` | vms.go:52-57 | for colon-free names, setApp twice with the same input is indistinguishable from setApp once |
| `VmsProperties.SetAppOrderFree` | vms.go:54-56 | for colon-free names, any two states setApp can leave from the same start, with the same input, are indistinguishable by SMEMBERS and GET, whatever order the loop took |
| `VmsProperties.SetAppColonCollision` | vms.go:52-57 | with env `x`/component `y:z` and env `x:y`/component `z`, both read the same version after setApp, and it is one of the two written |
| `VmsProperties.WrittenAppSets` | vms.go:53-55 | the example body written to an empty backend leaves `apps` = {svcA}, `svcA` = {prod} and `svcA:prod` = {api, db} |
| `VmsProperties.WrittenAppReadsBack` | vms.go:30-37 | that body reads back unchanged from getApp("svcA"), and version `api` in `prod` is `1.0.0` |
| `Config.GetEnvVariable` | vms.go:75-82 | returns the variable's value when it is not `""`, and otherwise the default |
| `Config.ListeningPort` | vms.go:96-98 | the listen address is `:` followed by getEnvVariable("VMS_PORT", "8080") |
| `Config.RedisAddress` | vms.go:86 | the backend address is VMS_REDIS when that is not `""`, and otherwise `127.0.0.1:6379`; so it is never empty |
| `Config.UnsetLikeEmpty` | vms.go:76-78 | an unset variable and one set to `""` both give the default |
| `Config.ListeningPortDefault` | vms.go:96-98 | with VMS_PORT unset or empty the address is `:8080`, and otherwise it is `:` + VMS_PORT |

## Left out

- The backend connection: `getRedisClient` (vms.go:84-94), with its lazy
  connection pool of 20, its address lookup and the failure path that leaves
  the pool unset. These are network I/O. The model replaces them with the
  in-memory `Store`. Only the address default is kept, as `RedisAddress`.
- HTTP routing and handlers (vms.go:100-159): the router, the
  `content-type` header match and the handler closures. These are a foreign
  library and I/O. Each handler only calls the accessors modelled here. The
  POST routes `/`, `/{app}` and `/{app}/{env}` loop over their decoded body
  and call setApp, setEnv or setComponent for each entry. The route
  `/{app}/{env}/{component}` makes one setComponent call.
- JSON encoding and decoding (`sendResult`, vms.go:59-64, and the decoders in
  the handlers). These are foreign library calls. The handlers for `/`,
  `/{app}/{env}` and `/{app}/{env}/{component}` log a decode error and go on;
  the `/{app}` handler (vms.go:131) drops it without logging. A map body with a syntax error stays nil, and nothing is
  written. A map body with a type mismatch can be partly decoded, and the
  entries decoded are still written. On the route
  `/{app}/{env}/{component}` (vms.go:148-157) a body that fails to decode
  leaves the version `""`, and setComponent still registers the component
  and stores `""` as its version. None of this is modelled.
- Logging and process start-up: `fmt.Println`, `log.Print`, `log.Fatal` and
  `ListenAndServe`. These are I/O. `os.Getenv` is replaced by a map passed as
  a parameter.
- Concurrent writers: the service handles requests in parallel, and its
  multi-command writes are not atomic. The model is single-threaded, so
  interleavings of writers are not modelled.
- Backend key types: in the backend one key holds either a set or a string.
  SADD or SMEMBERS on a key that holds a string fails, and so does GET on a
  key that holds a set; the service discards the error and reads an empty
  result. SET on a key that holds a set replaces the set. The model keeps
  the set namespace and the string namespace apart, so none of this can
  happen in it. That separation is faithful when every name is colon-free,
  because such version keys never equal a set key (`Keys.VersionKeyNotSetKey`).
  With colons, `VersionKey("x", "y", "z")` equals `EnvKey("x:y", "z")`,
  and setComponent("x", "y", "z", v) would replace the component set of
  environment `z` of app `x:y`.
- VmsProperties.SetComponentFrame: its "no set loses a member" holds for the
  real backend only with colon-free names, because SET with a colon name can
  replace a set (see the line above).
- VmsProperties.SetEnvFrame: its "removes nothing" holds for the real backend
  only with colon-free names, for the same reason.
- VmsProperties.SetAppKeepsEntries: its "removes nothing" holds for the real
  backend only with colon-free names, for the same reason.
- Vms.SetApp: its specification describes the state through SMEMBERS and GET.
  It does not say which map entries are present. Whether a key is present
  cannot be observed apart from the value `""` it reads as.
- Vms.SetEnv: same as SetApp; its specification describes the state through
  SMEMBERS and GET only.
