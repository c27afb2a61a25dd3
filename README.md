# Steelmesh deployment core in Dafny

This project models the part of Steelmesh that decides how Node.js
applications stored in CouchDB are started, replaced and watched:

- the watchdog registry, which maps application ids to scheme instances;
- the two deployment schemes:
  - OneOnly stops the running instance before launching its replacement;
  - Seamless launches the replacement beside the running instance and hands over when the new one reports `client.up`;
- the launcher choice (standalone, runner or no-op) and the entry file;
- the in-process route launcher, which parses route tables and mounts the routes on a router;
- the change monitor: the registry feed, the restart debounce and the per-application database feeds;
- from the application loader: the registry address, the row filter, the application id, the static-copy filter, and the callbacks of `run`.

Modules follow the source files:

| Dafny module | What it holds |
|---|---|
| `Watchdog` | `lib/watchdog.js` |
| `OneOnly` | `lib/schemes/oneonly.js` |
| `Seamless` | `lib/schemes/seamless.js` |
| `Launcher` | `lib/launcher.js` |
| `MeshApp` | `lib/launchers/meshapp.js` |
| `Monitor` | `lib/monitor.js` |
| `AppLoader` | `lib/apploader.js` |
| `Json` | The JavaScript semantics the code relies on: truthiness, property reads, string coercion, `_.each` |
| `Text` | `slice`, the trailing-slash strip, the database address, lower-casing, `\s` |
| `Paths` | POSIX `path.join`, `path.normalize` and `path.resolve` of Node.js 0.6 |
| `AsyncForEach` | The completion rule of `async.forEach` |
| `Instances` | Opaque instance handles and the record of effects |
| `Apps` | The application descriptor |

How the model treats mutable state and external code:

- Objects whose fields the code reassigns are classes. Their methods state the whole new state.
- An asynchronous callback becomes a pending continuation in a `waiting` list. The environment completes it through an event method that receives the callback's arguments.
- Events emitted on the bus, stop requests, launch requests and callbacks invoked are recorded in a ghost `trace`.
- Outcomes of file reads, `path.exists`, `require` and the store are parameters.

Behaviour of the code that the model keeps:

- The registry monitor only arms a restart timer. It does not publish `app.load`, `app.reload` or `app.unload`.
- The `onChange` notification for application databases is not implemented. An item for such a database is left undisposed.
- Seamless has no crash restart, no plugin loading and no `client.stop` message.
- OneOnly never emits `app.ready`. The completion of its task series cannot run (see `OneOnly.OneOnlyScheme.CompleteStop`).
- The watchdog does not deliver a new descriptor to an existing scheme. A second start for the same id is refused.
- `startApps` subscribes to `app.load` only when there are no applications at all. A started scheme never calls back, so `async.forEach` can finish cleanly only for an empty list (`Watchdog.StartAppsFinishesCleanlyOnlyWhenEmpty`).
- Transitions for one id are not queued.

## Model

| member | source | states |
|---|---|---|
| Json.Lookup | lib/watchdog.js:67 | A member read finds a value exactly when the object has a member of that name, and the value found belongs to that member |
| Json.Get | lib/watchdog.js:67 | Only objects have the members the code reads; on any other non-null value such a read gives `undefined` |
| Json.TruthyMember | lib/watchdog.js:67 | `x.key` is used only when truthy; otherwise the read is missing or falsy |
| Json.ToText | lib/watchdog.js:72-75 | String coercion leaves a string as it is |
| Json.Entries | lib/monitor.js:187-189 | `_.each` visits an object's members in order, an array's elements and a string's characters by index, and nothing for other values |
| Text.SliceTo | lib/monitor.js:81 | `slice(0, k)` has length min(k, length) and is a prefix |
| Text.SliceFrom | lib/apploader.js:58 | `slice(k)` is the rest after the first k characters, or empty |
| Text.SlicePrefixTest | lib/apploader.js:90 | `s.slice(0, p.length) === p` holds exactly when s begins with p |
| Text.TrimTrailingSlash | lib/monitor.js:69 | `replace(/\/$/, '')` removes one trailing slash exactly when there is one |
| Text.DbUrlIgnoresTrailingSlash | lib/apploader.js:6 | The database address is the same whether the server address ends in a slash or not |
| Text.DbUrl | lib/apploader.js:6 | The address ends in "/" and the database name, and before that stands the server address with at most one trailing slash removed |
| Text.DbUrlStripsOneSlash | lib/monitor.js:69 | Only one trailing slash is removed |
| Paths.JoinSplit | lib/launcher.js:11 | Splitting a path at its slashes and joining the segments back gives the path |
| Paths.SplitConcat | lib/launcher.js:11 | Splitting `a/b` gives the segments of `a` followed by those of `b` |
| Paths.SplitJoin | lib/launcher.js:11 | Joining slash-free segments and splitting the result gives the segments back |
| Paths.FoldNames | lib/launcher.js:11 | Normalisation keeps ordinary names (not empty, `.` or `..`) in order after what it has kept |
| Paths.FoldOfSplit | lib/launcher.js:11 | Every segment normalisation keeps is non-empty, not `.` and free of slashes; where it may not climb above the root, none is `..` either |
| Paths.NormalizeEmpty | lib/launcher.js:11 | The normal form of the empty path is `.` |
| Paths.NormalizeName | lib/launcher.js:11 | An ordinary name is its own normal form |
| Paths.JoinNameToEmpty | lib/launcher.js:11 | Joining a name to an empty base path gives the name alone |
| Paths.JoinName | lib/launcher.js:11-16 | `path.join(dir, name)` for an ordinary name is the normal form of `dir`, less a trailing slash, then "/" and the name; for a `dir` that normalises to `.` it is the name alone |
| Paths.GatherAbsolute | lib/launchers/meshapp.js:29 | `path.resolve` stops at the rightmost absolute part, falling back to the working directory; it has found an absolute path iff one of them is absolute |
| Paths.ResolveAbsolute | lib/launchers/meshapp.js:29 | The result is absolute iff the working directory or some part is absolute |
| Paths.AbsoluteLastWins | lib/launchers/meshapp.js:29 | An absolute last part decides the result alone, whatever the other parts and the working directory |
| Paths.ResolveIsNormal | lib/apploader.js:8 | With an absolute working directory or part, the result is the root or an absolute path of ordinary names only |
| Paths.NormalizeNormalAbsolute | lib/apploader.js:25 | A normal absolute path is its own normal form and has no trailing slash |
| Paths.JoinNormalAbsolute | lib/apploader.js:25 | Joining a name to a normal absolute path is plain concatenation with one "/" |
| Text.LowerChar | lib/launchers/meshapp.js:70 | ASCII capitals move to lower case and every other character is kept (lower-casing beyond ASCII is left out) |
| Text.LowerAscii | lib/launchers/meshapp.js:70 | Lower-casing keeps the length and maps each character |
| Launcher.HasMain | lib/launcher.js:14 | `app.main` counts as set exactly when it is present and truthy, so an empty string does not |
| Launcher.EntryFile | lib/launcher.js:11-16 | The entry file is `server.js`, or `main` when it is set and an ordinary name, in the normal form of the base path: the name alone for an empty base path, one separator after `apps/a/` |
| Launcher.StartInstance | lib/launcher.js:19-47 | Standalone is chosen iff the entry file exists. Otherwise the runner is chosen iff routes are declared and the runner loads, and noop iff no routes are declared. The error `No valid launcher found for app: <id>` comes iff routes are declared and the runner is missing. Every launcher gets `{serverFile, packageInfo: app.config}` |
| Launcher.EntryFileBeatsRoutes | lib/launcher.js:23-28 | Once the entry file exists, declared routes change nothing and standalone is used |
| MeshApp.ArrowMatchAt | lib/launchers/meshapp.js:12 | `\s?=>\s?` matches at a position iff "=>" starts there, or a whitespace character followed by "=>" does |
| MeshApp.SplitFromCount | lib/launchers/meshapp.js:12 | The split loop yields two or more parts iff an arrow remains ahead |
| MeshApp.SplitArrow | lib/launchers/meshapp.js:12-14 | A text route splits into at least one part, and into more than one exactly when it contains "=>" |
| MeshApp.SplitFromUpTo | lib/launchers/meshapp.js:12 | The split loop cuts at the first position where the separator matches |
| MeshApp.SplitFromNoArrow | lib/launchers/meshapp.js:12 | With no arrow ahead, the rest of the text is the last part |
| MeshApp.FirstMatch | lib/launchers/meshapp.js:12 | The first separator match starts one whitespace character before the first arrow at most, and ends after the arrow and at most one whitespace character |
| MeshApp.SplitArrowHead | lib/launchers/meshapp.js:12-16 | The route path is the text before the first arrow, less one whitespace character right before it |
| MeshApp.SplitArrowSingle | lib/launchers/meshapp.js:12-18 | With a single arrow there are exactly two parts: path and handler, each without one adjacent whitespace character |
| MeshApp.LastLineStart | lib/launchers/meshapp.js:3 | Finds where the last line begins; no line terminator follows that point |
| MeshApp.LastDotFrom | lib/launchers/meshapp.js:3 | Finds the last dot after a given position, or reports that there is none |
| MeshApp.MatchHandler | lib/launchers/meshapp.js:26-28 | `/(.*)\.(.*)$/` matches iff the last line has a dot. The handler is then the earlier lines, the module part, ".", and a function part without dots |
| MeshApp.HandlerSplitsAtLastDot | lib/launchers/meshapp.js:3 | On a one-line handler, the module part is everything before the last dot and the function part everything after it |
| MeshApp.HandlerWithoutDot | lib/launchers/meshapp.js:28 | A handler without a dot does not match |
| MeshApp.AsRouteObject | lib/launchers/meshapp.js:10-23 | A text route becomes an object iff it contains "=>", with split parts 0 and 1 as path and handler and no method. An object route keeps its path, method and handler |
| MeshApp.ModuleFile | lib/launchers/meshapp.js:29 | Under an absolute working directory the module file is the root or a normal absolute path; an absolute module name overrides the base path |
| MeshApp.ResolveRoute | lib/launchers/meshapp.js:26-56 | A handler without a match yields nothing. The route throws iff it matches and its module fails to load, and the error is always the ReferenceError on `mesh`. A kept route holds the export named by the function part, its path and its method or GET |
| MeshApp.ParseOne | lib/launchers/meshapp.js:9-56 | A route that does not become an object yields nothing, an escaping error is the ReferenceError on `mesh`, and a kept handler has the route's path |
| MeshApp.VerbOf | lib/launchers/meshapp.js:47 | The route's method when it is non-empty, otherwise GET |
| MeshApp.TextRouteWithoutArrowDropped | lib/launchers/meshapp.js:12-22 | A text route without "=>" yields nothing |
| MeshApp.TextRouteKept | lib/launchers/meshapp.js:12-51 | A kept text route contains "=>". Its path is split part 0 and its verb GET. Its handler is the export named by part 1's function part, from `lib/<module part>.js` |
| MeshApp.DotlessHandlerDropped | lib/launchers/meshapp.js:26-28 | A route whose handler has no dot yields nothing, whatever its form |
| MeshApp.ScanStep | lib/launchers/meshapp.js:9 | The fold over one more route extends the fold over the routes before it |
| MeshApp.ScanFailureSticks | lib/launchers/meshapp.js:53-55 | An error thrown by one route ends the whole parse with that error |
| MeshApp.ScanKeepsYieldsInOrder | lib/launchers/meshapp.js:9-59 | The output keeps table order and holds one handler for each route that yields one. It holds no others and is no longer than the table |
| MeshApp.ScanFailure | lib/launchers/meshapp.js:53-55 | The parse fails iff some route throws |
| MeshApp.ScanErrorIsMeshUndefined | lib/launchers/meshapp.js:53-55 | An escaping error is always the ReferenceError from the catch block's use of the undefined `mesh` |
| MeshApp.ParsedRoutes | lib/launchers/meshapp.js:5-60 | A missing route table makes `forEach` throw; otherwise the parse is the fold over the table, and any error is one of those two |
| MeshApp.ParseRoutes | lib/launchers/meshapp.js:5-60 | The loop computes exactly the fold of the route table; a missing table makes `forEach` throw |
| MeshApp.LowerVerbs | lib/launchers/meshapp.js:69-71 | Registered routes keep path and handler, with the verb lower-cased |
| MeshApp.Router.constructor | lib/launchers/meshapp.js:63 | A new server has no routes |
| MeshApp.MountAllSticks | lib/launchers/meshapp.js:69-71 | After a call throws, the later routes change nothing |
| MeshApp.MountAllRouteVerbs | lib/launchers/meshapp.js:69-71 | When every lower-cased verb names a route method, every route is added, lower-cased and in order, and nothing throws |
| MeshApp.MountAllThrows | lib/launchers/meshapp.js:69-71 | The loop throws iff some lower-cased verb names no server method; the first such verb is reported |
| MeshApp.Router.Mount | lib/launchers/meshapp.js:69-71 | Each route, lower-cased and in order, goes to the route method, to another server method, or throws, and the loop stops at the throw |
| MeshApp.CreateServer | lib/launchers/meshapp.js:62-74 | The callback gets a fresh server holding exactly the routes mounted from the parse. A parse error, or a verb the server has no method for, escapes instead and the callback is never reached |
| Instances.RemoveAt | lib/schemes/oneonly.js:88-92 | Completing a continuation removes it and keeps the others in order |
| OneOnly.OneOnlyScheme.constructor | lib/schemes/oneonly.js:15-20 | A new scheme has no instance |
| OneOnly.OneOnlyScheme.Start | lib/schemes/oneonly.js:27-35 | With an instance, only that instance's stop is requested. No launch is requested until the stop completes. Without an instance, only a launch is requested |
| OneOnly.OneOnlyScheme.StartInstance | lib/schemes/oneonly.js:53-63 | With an instance it refuses with `Instance already running` and changes nothing. Otherwise it requests one launch |
| OneOnly.OneOnlyScheme.CompleteLaunch | lib/schemes/oneonly.js:63-73 | A launch error leaves the slot as it was. A new instance fills the slot and is watched for exit |
| OneOnly.OneOnlyScheme.Exit | lib/schemes/oneonly.js:69-72 | An exit of an instance this scheme launched empties the slot |
| OneOnly.OneOnlyScheme.Stop | lib/schemes/oneonly.js:79-93 | Without an instance, the continuation runs at once and no handle is touched. With one, its stop is requested and the slot is kept until it completes |
| OneOnly.OneOnlyScheme.CompleteStop | lib/schemes/oneonly.js:88-92 | When the stop completes, the slot is emptied and then the caller is called back, or `start` launches. That launch is never refused |
| OneOnly.OneOnlyScheme.Continue | lib/schemes/oneonly.js:84-92 | Continuing with an empty slot either calls back or launches |
| Seamless.TopicsAreDistinct | lib/schemes/seamless.js:72-79 | `app.ready.<id>` and `app.error.<id>` determine the application, and never coincide |
| Seamless.SeamlessScheme.constructor | lib/schemes/seamless.js:16-24 | A new scheme has no current instance and an empty retired list |
| Seamless.SeamlessScheme.Start | lib/schemes/seamless.js:60-62 | `start` ignores its callback and requests one launch, changing nothing else |
| Seamless.SeamlessScheme.StartSeamlessly | lib/schemes/seamless.js:67-70 | Requests one launch and leaves `current` and `old` alone |
| Seamless.SeamlessScheme.CompleteLaunch | lib/schemes/seamless.js:44-82 | A failure emits `app.error.<id>`. A success only registers the handlers. `current` and `old` are unchanged, so the running instance keeps serving |
| Seamless.SeamlessScheme.ClientUp | lib/schemes/seamless.js:75-81 | In order: the stop of the previous current is requested, `app.ready.<id>` is emitted, the new instance becomes current. The previous current goes to the end of `old`. The new current is never in `old` unless the instance signals again |
| Seamless.SeamlessScheme.Stop | lib/schemes/seamless.js:88-105 | No current: only the callback, if given, runs. Otherwise exactly that handle is appended to `old` and `current` is set to null, after which its stop is requested |
| Seamless.SeamlessScheme.CompleteStop | lib/schemes/seamless.js:100-104 | The stop callback runs only when the retired handle's stop completes. Calling a missing callback faults |
| Seamless.SeamlessScheme.Exit | lib/schemes/seamless.js:49-52 | An exit nulls only the unrelated `instance` field; `current` and `old` are unchanged |
| AsyncForEach.BeginBatch | lib/watchdog.js:90-93 | An empty list finishes at once without error; otherwise every iterator is awaited |
| AsyncForEach.Settle | lib/watchdog.js:90-104 | The first truthy error finishes a running batch with that error. A success, an empty message included, is counted and the last one finishes it cleanly. A finished batch ignores later calls |
| AsyncForEach.SettleAll | lib/watchdog.js:90-104 | A batch that is not running stays as it is. A running one keeps its size, and one that finishes with an error finishes with a truthy error some iterator reported |
| AsyncForEach.FinalCalls | lib/apploader.js:94-109 | The final callback is called only for a running batch, no more often than iterators call back, and each time without an error or with a truthy one |
| AsyncForEach.SettleAllClean | lib/apploader.js:94-109 | While iterators succeed they are counted, and the last success finishes the batch without error |
| AsyncForEach.SettleAllFirstError | lib/watchdog.js:90-104 | The first error before the last success finishes the batch with that error, whatever follows |
| AsyncForEach.SettleAllSnoc | lib/watchdog.js:90-104 | Each further callback settles the batch reached so far |
| AsyncForEach.FinalCallsAtMostOnce | lib/apploader.js:94-109 | A begun batch calls its final callback at most once: exactly when it finishes, with the outcome it finished with |
| Watchdog.ConfigOf | lib/watchdog.js:60-64 | `app.config` is the parsed package when it is truthy. A missing package or a read error gives `{}` |
| Watchdog.DeclaredScheme | lib/watchdog.js:65-69 | `steelmesh.scheme` is declared exactly when `steelmesh` is truthy and its `scheme` is present and truthy |
| Watchdog.SchemeType | lib/watchdog.js:65-69 | The scheme name is `steelmesh.scheme` when that is truthy under a truthy `steelmesh`, and `oneonly` otherwise |
| Watchdog.SchemeModule | lib/watchdog.js:72 | A scheme loads iff its name, coerced to text, is `oneonly` or `seamless`, with or without `.js` |
| Watchdog.PlanStart | lib/watchdog.js:60-78 | A package that is missing or fails to read gives the default OneOnly scheme with config `{}`. An unknown scheme gives `Unable to load scheme <name> [<error>]`. Otherwise the scheme gets the descriptor with `config` set |
| Watchdog.Outcome | lib/watchdog.js:54-82 | A registered id is refused with `Scheme already started`. There is no reply iff a scheme is started. Every reply is an error |
| Watchdog.StartedAfter | lib/watchdog.js:80 | A start adds exactly the application id to the registry |
| Watchdog.StartedAfterAll | lib/watchdog.js:90-92 | Starting a list of applications only adds to the registry |
| Watchdog.BatchErrors | lib/watchdog.js:90-92 | At most one reply per application reaches `async.forEach` |
| Watchdog.StartStep | lib/watchdog.js:90-92 | Starting one more application extends the registry and the replies of those before it |
| Watchdog.BatchErrorsAreErrors | lib/watchdog.js:54-81 | Every reply reaching `async.forEach` from `startApps` is an error |
| Watchdog.StartAppsFinishesCleanlyOnlyWhenEmpty | lib/watchdog.js:90-97 | `startApps` finishes without error, and so subscribes to `app.load`, exactly when the list is empty. Otherwise it finishes with the first refusal, if there is one |
| Watchdog.AlreadyStartedAsWritten | lib/watchdog.js:54-55 | The guard as written refuses every registered id, and refuses an unregistered one only for a name inherited from `Object.prototype` |
| Watchdog.ConstructorRefusedByEmptyRegistry | lib/watchdog.js:54-55 | As written, an empty registry refuses the id `constructor` |
| Watchdog.EmptyRegistryRefusesNothing | lib/watchdog.js:54-55 | With the intended guard, an empty registry refuses no id, and a registered id is always refused |
| Watchdog.Registry.constructor | lib/watchdog.js:11-13 | A new watchdog has an empty registry |
| Watchdog.Registry.StartScheme | lib/watchdog.js:49-84 | The callback gets exactly `Outcome`. A refusal leaves the registry unchanged. Otherwise the registry gains exactly the id, mapped to a fresh scheme of the chosen kind and descriptor, and other entries are unchanged. The entry is registered, then started |
| Watchdog.Registry.Settled | lib/watchdog.js:93-97 | An iterator callback settles the batch; a clean finish subscribes to `app.load` |
| Watchdog.Registry.StartApps | lib/watchdog.js:86-105 | Starts the applications in order. The batch ends as `async.forEach` settles the replies, and the watchdog subscribes to `app.load` iff the list is empty |
| Watchdog.Registry.OnAppLoad | lib/watchdog.js:96 | An `app.load` start adds the id exactly when a scheme is started |
| Monitor.Classify | lib/monitor.js:79-95 | An item is marked done iff its id starts with `app::`. A missing item faults and every other item is skipped. Each item gets exactly one of these |
| Monitor.RestartPayload | lib/monitor.js:86 | The restart event carries `dashboard: true` |
| Monitor.RegistryMonitor.constructor | lib/monitor.js:67-69 | The registry feed's address is `config.url` less one trailing slash, then `/` and the database name |
| Monitor.RegistryMonitor.Process | lib/monitor.js:79-96 | An application update clears the pending restart and arms a new one, so at most one restart is pending. Other items change no timer |
| Monitor.RegistryMonitor.Fire | lib/monitor.js:85-87 | The pending timer emits `steelmesh-restart` once |
| Monitor.DbDisposition | lib/monitor.js:158-167 | A per-database item is skipped iff the database config has no truthy `onChange`. With one it is left alone, and a null config throws |
| Monitor.DbWatcher.constructor | lib/monitor.js:145-180 | A feed starts with no failed items and the retry policy of 3 attempts, 90000 ms apart |
| Monitor.DbWatcher.Process | lib/monitor.js:158-167 | The feed's handler throws iff the database configuration is null, leaves the item alone iff `onChange` is truthy, and skips it otherwise |
| Monitor.DbWatcher.Fail | lib/monitor.js:170-174 | Failed items are appended in failure order |
| Monitor.Databases | lib/monitor.js:187-189 | The databases are the entries of `couchdb` when it is truthy, and none otherwise |
| Monitor.WatchTargets | lib/monitor.js:140-189 | One feed per database, in order, at `config.url + dbid`. A null application config throws |
| Monitor.NoCouchdbNoWatchers | lib/monitor.js:140 | No `couchdb` section means no feeds |
| Monitor.WatchUrlNeedsTrailingSlash | lib/monitor.js:146 | A per-database address equals the normalised form iff the server address ends in a slash |
| Monitor.SteelmeshMonitor.constructor | lib/monitor.js:46-51 | A new monitor has an empty feed table |
| Monitor.SteelmeshMonitor.WatchForChanges | lib/monitor.js:134-196 | It creates fresh feeds exactly as `WatchTargets` lists them and stores that list under the application id, replacing any earlier one and leaving other ids alone |
| AppLoader.AppRows | lib/apploader.js:89-91 | Exactly the rows whose id starts with `app::` are kept |
| AppLoader.AppRowsConcat | lib/apploader.js:89-91 | The filter keeps order: filtering a concatenation concatenates the filtered parts |
| AppLoader.AppRowsSingle | lib/apploader.js:90 | A single row is kept iff its id starts with `app::` |
| AppLoader.NoAppRows | lib/apploader.js:89-91 | A listing without application ids gives no rows |
| AppLoader.AppId | lib/apploader.js:58 | Putting `app::` back in front of the application id restores the document id |
| AppLoader.AppIdRoundTrip | lib/apploader.js:58 | Removing the 5-character prefix from `app::<name>` gives back the name |
| AppLoader.SlashFrom | lib/apploader.js:16 | Finds the first slash at or after a given position, or reports that there is none |
| AppLoader.IsProtected | lib/apploader.js:16 | The computed test agrees with the search semantics of the protected-path expression: a leading slash, one segment, a slash, then `app.js`, `package.json`, `lib`, `node_modules`, `resources` or `views` in any ASCII case |
| AppLoader.PrefixMatchHasNoTerminator | lib/apploader.js:16 | A name that only begins with a protected one is excluded too, for example `/x/LIBRARY` |
| AppLoader.SingleSegmentNotProtected | lib/apploader.js:16 | A path of one segment never matches |
| AppLoader.AppsDirectory | lib/apploader.js:8 | The applications directory is the root or a normal absolute path |
| AppLoader.AppPath | lib/apploader.js:25 | The copied directory is the normal form of the applications directory, "/", and an ordinary application id; under a normal absolute applications directory that is plain concatenation. An empty id gives the normal form of the applications directory, which is that directory itself when it is normal absolute |
| AppLoader.CopiedAsWritten | lib/apploader.js:33-35 | As written, an entry is copied iff the part of its path after the application directory does not match the protected-path expression |
| AppLoader.TopLevelProtectedFilesCopied | lib/apploader.js:33-35 | As written, the application's own `package.json` and every other top-level name are copied |
| AppLoader.Copied | lib/apploader.js:33-35 | As intended, an entry is copied iff the part of its path after the applications directory does not match the protected-path expression |
| AppLoader.CopiedBelowApps | lib/apploader.js:33-35 | Below the applications directory, the path the intended filter tests is "/", the application id, "/" and the entry's path relative to the application |
| AppLoader.CopiedExactlyUnprotected | lib/apploader.js:33-35 | With the path taken relative to the applications directory, an entry is copied iff its relative path does not start with a protected name |
| AppLoader.RunCallbacks | lib/apploader.js:83-116 | As written, `run` calls back at most twice, twice exactly for a listing with no application rows. A listing error is passed on once, and every other callback carries no error or a truthy one |
| AppLoader.RunListingError | lib/apploader.js:84-86 | A listing error reaches the callback once and nothing is loaded |
| AppLoader.EmptyRunCallsBackTwice | lib/apploader.js:94-114 | As written, a listing with no application rows calls back twice, both times without an error |
| AppLoader.RunCallbacksOnce | lib/apploader.js:83-116 | The intended `run` calls back at most once: with the listing error, with success for no application rows, and otherwise with no error or a truthy one |
| AppLoader.RunCallsBackAtMostOnce | lib/apploader.js:83-116 | The intended `run` calls back at most once. It passes a listing error on, reports success for no rows, and otherwise calls back exactly when the loads finish, with their outcome |
| AppLoader.RunSucceedsOnceAllLoad | lib/apploader.js:94-109 | When every load succeeds, the intended `run` reports success once |

## Left out

- Process spawning (the standalone launcher), the runner package and its server, express internals: a launched instance is an opaque handle with an asynchronous stop. `lib/launchers/noop.js` is not part of this model.
- File and store I/O: `path.exists`, `fs.readFile`, `JSON.parse`, the CouchDB listing and document reads, attachment downloads and the fstream copy. Their outcomes are parameters: `PackageRead`, the existence function, the listing result and the per-application load outcomes.
- `load`'s download and copy sequence: only its application id and the static-copy filter are modelled.
- The change-feed library (feed cursor, storage), its retry mechanism, and real timing: the debounce is a single pending-timer slot.
- The event bus: subscriptions and delivery are not modelled. Emitted events are recorded, and the `app.load` listener is a flag.
- The `shutdown` binding in both schemes and Seamless's no-op `app.update` handler: wiring only.
- The OneOnly series completion at lib/schemes/oneonly.js:39-45 cannot be reached on success and refers to undefined names. It is not modelled.
- The monitor's `unload` handler (lib/monitor.js:110-124) reads undefined names and would throw. It is not modelled as removing feeds. `SteelmeshMonitor.start` is wiring.
- Logging, the port allocator, server start-up and the dashboard in `lib/steelmesh.js`. Its `startApps` call does not match the signature in lib/watchdog.js:86.
- Watchdog.Registry.StartScheme: each `_startScheme` runs as one step. Calls that interleave across the package read are not modelled. For example, two entries with the same id in one `startApps` list would both pass the guard in the code, but here the second is refused.
- Watchdog.Outcome / Watchdog.Registry.StartScheme: use the intended registry guard, `id in apps`, not the object-literal lookup that also answers for names inherited from `Object.prototype` (see Findings).
- Watchdog.Registry.StartApps: requires that no earlier `startApps` batch exists. A second call would run a second, independent `async.forEach`.
- Watchdog.Registry.OnAppLoad: a refusal calls the missing callback, which throws. The model records no fault for it.
- Watchdog.SchemeModule: only the four names that resolve to the two scheme files are modelled. Other relative paths that `require` could resolve are not.
- MeshApp: module exports are given as a map of truthy exports. Names inherited from `Object.prototype` are not modelled unless the map lists them. The commented-out module `init` is not modelled. Route entries that are neither strings nor objects are not modelled.
- JSON numbers are integers. Duplicate object keys keep their first occurrence, where `JSON.parse` keeps the last.
- Entries: `_.each` in the model visits object members in their listed order. JavaScript's `for`-`in` visits integer-like keys first in ascending order, and underscore treats any object with a numeric `length` as array-like; neither is modelled.
- LowerChar: maps only ASCII capitals to lower case. `toLowerCase` also lower-cases other Unicode capitals; a route verb outside ASCII is not modelled.
- LowerAscii: lower-cases ASCII only. That is exact for the case-insensitive protected-path expression, which folds ASCII case alone, but weaker than `toLowerCase` for route verbs.
- Launcher.EntryFile: the entry file is stated only for a `main` that is an ordinary file name. A `main` holding a slash, `.` or `..` (`./app.js`, `lib/app.js`) is computed by the normalising join but no property is stated for it.
- AppLoader.AppPath: stated for an ordinary application id and for the empty id. An id holding a slash, `.` or `..` is left without a stated property.
- MeshApp.CreateServer: `instance.use(express.router)` is wiring of the express server and is not modelled.
- Paths: POSIX semantics only; Windows paths are not modelled. The working directory of `path.resolve` is a parameter.
- AsyncForEach: each iterator is assumed to call back at most once, as every caller here does.

## Findings

| source | as written | input that shows it | evidently intended | confidence | as-written member | corrected member |
|---|---|---|---|---|---|---|
| lib/apploader.js:33-35 | The copy filter tests the path relative to the application directory, for example `/package.json` or `/lib/x.js`. The expression needs a segment before the protected name. | Application `a` with top-level `package.json`, `lib/` and `app.js`: all three are copied to the static directory | Protected top-level entries stay out of the static copy. The path is taken relative to the applications directory (`/a/package.json`) | medium, not executed | AppLoader.TopLevelProtectedFilesCopied | AppLoader.CopiedExactlyUnprotected |
| lib/apploader.js:94-114 | For an empty row list, `async.forEach` calls back at once, and `run` then calls `callback(null)` again | A listing whose rows have no `app::` ids | One ready callback | medium, not executed | AppLoader.EmptyRunCallsBackTwice | AppLoader.RunCallsBackAtMostOnce |
| lib/watchdog.js:54-55 | `this.apps[id]` on an object literal also finds the names inherited from `Object.prototype` | A document `app::constructor`: `_startScheme` answers `Scheme already started` with an empty registry | Only started ids are refused | high, not executed | Watchdog.ConstructorRefusedByEmptyRegistry | Watchdog.Outcome |
