/**
  Choosing how one application instance is run (lib/launcher.js): the
  entry file is `server.js` under the base path unless `main` names
  another, and the standalone launcher wins whenever that file exists;
  otherwise a declared route table asks for the runner package and no
  route table means the no-op launcher.
 */
module Launcher {
  import opened Wrappers
  import opened Json
  import opened Paths
  import opened Apps

  datatype LauncherKind = Standalone | Runner | Noop

  /** The launcher chosen and the options object `{serverFile, packageInfo}` it is called with. */
  datatype LaunchCall = LaunchCall(kind: LauncherKind, serverFile: string, packageInfo: Json)

  const DefaultEntry := "server.js"
  const NoLauncherPrefix := "No valid launcher found for app: "

  /** `app.main` is set: present and not the empty string. */
  predicate HasMain(app: App)
    ensures HasMain(app) <==> app.main.Some? && Truthy(JStr(app.main.value))
  {
    app.main.Some? && app.main.value != ""
  }

  /** The file name `path.join` puts after the base path: `main` when set, `server.js` otherwise. */
  function EntryName(app: App): string {
    if HasMain(app) then app.main.value else DefaultEntry
  }

  /**
    The file whose existence decides for the standalone launcher: the
    entry name in the normal form of the base path ("server.js" for an
    empty one, "apps/a/server.js" for "apps/a/").
   */
  function EntryFile(app: App): (f: string)
    ensures !HasMain(app) ==> f == InDirectory(app.basePath, DefaultEntry)
    ensures HasMain(app) && IsName(app.main.value) ==> f == InDirectory(app.basePath, app.main.value)
  {
    assert IsName(DefaultEntry) by {
      assert forall i :: 0 <= i < |DefaultEntry| ==> DefaultEntry[i] != '/';
    }
    if IsName(EntryName(app)) then JoinName(app.basePath, EntryName(app)); Join(app.basePath, EntryName(app))
    else Join(app.basePath, EntryName(app))
  }

  /**
    `startInstance`: the launcher and options for `app`, given whether a
    file exists and whether the runner package can be loaded, or the
    error the callback receives when no launcher applies.
   */
  function StartInstance(app: App, fileExists: string -> bool, runnerLoads: bool): (r: Result<LaunchCall, string>)
    ensures r.Success? ==> r.value.serverFile == EntryFile(app) && r.value.packageInfo == app.config
    ensures (r.Success? && r.value.kind == Standalone) <==> fileExists(EntryFile(app))
    ensures (r.Success? && r.value.kind == Runner) <==> !fileExists(EntryFile(app)) && app.routes.Some? && runnerLoads
    ensures (r.Success? && r.value.kind == Noop) <==> !fileExists(EntryFile(app)) && app.routes.None?
    ensures r.Failure? <==> !fileExists(EntryFile(app)) && app.routes.Some? && !runnerLoads
    ensures r.Failure? ==> r.error == NoLauncherPrefix + app.id
  {
    var serverFile := EntryFile(app);
    var launcher :=
      if fileExists(serverFile) then Some(Standalone)
      else if app.routes.Some? then (if runnerLoads then Some(Runner) else None)
      else Some(Noop);
    match launcher
    case Some(kind) => Success(LaunchCall(kind, serverFile, app.config))
    case None => Failure(NoLauncherPrefix + app.id)
  }

  /** Declared routes do not matter once the entry file exists. */
  lemma {:induction false} EntryFileBeatsRoutes(app: App, fileExists: string -> bool, runnerLoads: bool)
    requires fileExists(EntryFile(app))
    ensures StartInstance(app, fileExists, runnerLoads)
         == StartInstance(app.(routes := None), fileExists, runnerLoads)
         == Success(LaunchCall(Standalone, EntryFile(app), app.config))
  {
    assert EntryFile(app.(routes := None)) == EntryFile(app);
  }
}
