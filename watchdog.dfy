/**
  The watchdog registry (lib/watchdog.js): a table from application id to
  the scheme instance managing it. `_startScheme` refuses an id that has a
  scheme, reads the package configuration, picks the scheme by name, and
  registers the new scheme before starting it. `startApps` starts every
  application of the loader through `async.forEach` and listens for
  `app.load` only once that iteration has finished without an error.

  The package read is an input (missing, failed, or a parsed value), as is
  the message of a failed scheme load; each `_startScheme` runs as one
  step.
 */
module Watchdog {
  import opened Wrappers
  import opened Json
  import opened Apps
  import OneOnly
  import Seamless
  import Instances
  import opened AsyncForEach

  const AlreadyStartedMessage := "Scheme already started"
  const DefaultScheme := "oneonly"
  const LoadFailurePrefix := "Unable to load scheme "

  /** The outcome of `_readPackageFile`: no file, a read or parse error, or the parsed value. */
  datatype PackageRead = Missing | ReadFailed(err: string) | Parsed(value: Json)

  /** `packageInfo || {}`: what `app.config` becomes. */
  function ConfigOf(pkg: PackageRead): (c: Json)
    ensures Truthy(c)
    ensures pkg.Parsed? && Truthy(pkg.value) ==> c == pkg.value
    ensures !(pkg.Parsed? && Truthy(pkg.value)) ==> c == JObj([])
  {
    match pkg
    case Parsed(v) => if Truthy(v) then v else JObj([])
    case _ => JObj([])
  }

  /** `config.steelmesh && config.steelmesh.scheme`, when that is truthy. */
  function DeclaredScheme(config: Json): (r: Option<Json>)
    ensures r.Some? ==>
      && Truthy(r.value)
      && exists s :: Get(config, "steelmesh") == Some(s) && Truthy(s) && Get(s, "scheme") == r
    ensures r.None? ==>
      || TruthyMember(config, "steelmesh").None?
      || Get(TruthyMember(config, "steelmesh").value, "scheme").None?
      || !Truthy(Get(TruthyMember(config, "steelmesh").value, "scheme").value)
  {
    match TruthyMember(config, "steelmesh")
    case Some(s) => TruthyMember(s, "scheme")
    case None => None
  }

  /** The scheme name: the declared one when it is truthy, `'oneonly'` otherwise. */
  function SchemeType(config: Json): (t: Json)
    ensures Truthy(t)
    ensures DeclaredScheme(config).None? ==> t == JStr(DefaultScheme)
    ensures DeclaredScheme(config).Some? ==>
      exists s :: Get(config, "steelmesh") == Some(s) && Truthy(s) && Get(s, "scheme") == Some(t)
  {
    match DeclaredScheme(config)
    case Some(v) => v
    case None => JStr(DefaultScheme)
  }

  datatype SchemeKind = OneOnlyKind | SeamlessKind

  /**
    The modules `require('./schemes/' + name)` finds: the two scheme files,
    named with or without their extension. The name is coerced to text
    first, so a one-element array holding a valid name also loads.
   */
  function SchemeModule(name: Json): (k: Option<SchemeKind>)
    ensures k == Some(OneOnlyKind) <==> ToText(name) == "oneonly" || ToText(name) == "oneonly.js"
    ensures k == Some(SeamlessKind) <==> ToText(name) == "seamless" || ToText(name) == "seamless.js"
  {
    var file := ToText(name);
    if file == "oneonly" || file == "oneonly.js" then Some(OneOnlyKind)
    else if file == "seamless" || file == "seamless.js" then Some(SeamlessKind)
    else None
  }

  /** What `_startScheme` does once the package has been read for an id with no scheme. */
  datatype Plan = Refuse(msg: string) | Launch(kind: SchemeKind, app: App)

  function PlanStart(app: App, pkg: PackageRead, loaderMessage: string): (p: Plan)
    ensures p.Launch? ==> p.app == app.(config := ConfigOf(pkg)) && p.app.id == app.id
    ensures p.Launch? <==> SchemeModule(SchemeType(ConfigOf(pkg))).Some?
    ensures p.Launch? ==> Some(p.kind) == SchemeModule(SchemeType(ConfigOf(pkg)))
    ensures p.Refuse? ==>
      p.msg == LoadFailurePrefix + ToText(SchemeType(ConfigOf(pkg))) + " [" + loaderMessage + "]"
    ensures !pkg.Parsed? ==> p == Launch(OneOnlyKind, app.(config := JObj([])))
  {
    var config := ConfigOf(pkg);
    var name := SchemeType(config);
    match SchemeModule(name)
    case Some(kind) => Launch(kind, app.(config := config))
    case None => Refuse(LoadFailurePrefix + ToText(name) + " [" + loaderMessage + "]")
  }

  /** The callback a `_startScheme` call delivers: none at all, or `callback(err)`. */
  datatype Reply = NoReply | Replied(err: Option<string>)

  /** One application to start, with the outcome of reading its package and of loading a scheme module that fails. */
  datatype StartRequest = StartRequest(app: App, pkg: PackageRead, loaderMessage: string)

  /**
    The reply of `_startScheme` for `req` when `started` ids have schemes.
    A started scheme never calls back (neither `start` calls its callback
    on success), so every reply is an error.
   */
  function Outcome(started: set<string>, req: StartRequest): (r: Reply)
    ensures req.app.id in started ==> r == Replied(Some(AlreadyStartedMessage))
    ensures r == NoReply <==> req.app.id !in started && PlanStart(req.app, req.pkg, req.loaderMessage).Launch?
    ensures r.Replied? ==> r.err.Some? && r.err.value != ""
  {
    if req.app.id in started then Replied(Some(AlreadyStartedMessage))
    else match PlanStart(req.app, req.pkg, req.loaderMessage)
      case Refuse(msg) => Replied(Some(msg))
      case Launch(_, _) => NoReply
  }

  /** The ids with schemes after `_startScheme(req)`: the new id joins exactly when a scheme was started. */
  function StartedAfter(started: set<string>, req: StartRequest): (s: set<string>)
    ensures started <= s && s <= started + {req.app.id}
    ensures req.app.id in s
  {
    started + {req.app.id}
  }

  /** The ids with schemes after the requests, started one after another. */
  function StartedAfterAll(started: set<string>, reqs: seq<StartRequest>): (s: set<string>)
    ensures started <= s
  {
    if |reqs| == 0 then started
    else
      var n := |reqs| - 1;
      var before := StartedAfterAll(started, reqs[..n]);
      if Outcome(before, reqs[n]) == NoReply then StartedAfter(before, reqs[n]) else before
  }

  /** The errors the requests report to `async.forEach`, in order. */
  function BatchErrors(started: set<string>, reqs: seq<StartRequest>): (errs: seq<Option<string>>)
    ensures |errs| <= |reqs|
  {
    if |reqs| == 0 then []
    else
      var n := |reqs| - 1;
      BatchErrors(started, reqs[..n])
        + match Outcome(StartedAfterAll(started, reqs[..n]), reqs[n])
          case Replied(e) => [e]
          case NoReply => []
  }

  /** The registry and the reported errors after one more request. */
  lemma StartStep(started: set<string>, reqs: seq<StartRequest>, i: nat)
    requires i < |reqs|
    ensures var before := StartedAfterAll(started, reqs[..i]);
      StartedAfterAll(started, reqs[..i + 1])
        == if Outcome(before, reqs[i]) == NoReply then StartedAfter(before, reqs[i]) else before
    ensures var before := StartedAfterAll(started, reqs[..i]);
      BatchErrors(started, reqs[..i + 1])
        == BatchErrors(started, reqs[..i]) + match Outcome(before, reqs[i])
          case Replied(e) => [e]
          case NoReply => []
  {
    assert reqs[..i + 1][..i] == reqs[..i];
    assert reqs[..i + 1][i] == reqs[i];
  }

  lemma {:induction false} BatchErrorsAreErrors(started: set<string>, reqs: seq<StartRequest>)
    ensures forall i :: 0 <= i < |BatchErrors(started, reqs)| ==> Failed(BatchErrors(started, reqs)[i])
  {
    if |reqs| > 0 {
      BatchErrorsAreErrors(started, reqs[..|reqs| - 1]);
    }
  }

  /**
    The `app.load` subscription condition: the batch finishes without an
    error exactly when there were no applications, because a started
    scheme never reports success. With any refusal it finishes with the
    first refusal's message.
   */
  lemma StartAppsFinishesCleanlyOnlyWhenEmpty(started: set<string>, reqs: seq<StartRequest>)
    ensures SettleAll(BeginBatch(|reqs|), BatchErrors(started, reqs)) == Done(None) <==> |reqs| == 0
    ensures |reqs| > 0 && |BatchErrors(started, reqs)| > 0 ==>
      SettleAll(BeginBatch(|reqs|), BatchErrors(started, reqs)) == Done(BatchErrors(started, reqs)[0])
  {
    var errs := BatchErrors(started, reqs);
    BatchErrorsAreErrors(started, reqs);
    if |reqs| > 0 {
      if |errs| > 0 {
        SettleAllFirstError(|reqs|, 0, errs, 0);
      } else {
        assert SettleAll(Running(|reqs|, 0), errs) == Running(|reqs|, 0);
      }
    }
  }

  /**
    `this.apps[id]` as written: a plain object literal also answers for the
    names it inherits from `Object.prototype`, so an application with one
    of those ids reads as already started.
   */
  const PrototypeNames: set<string> := {
    "constructor", "toString", "toLocaleString", "valueOf", "hasOwnProperty",
    "isPrototypeOf", "propertyIsEnumerable", "__defineGetter__", "__defineSetter__",
    "__lookupGetter__", "__lookupSetter__", "__proto__" }

  predicate AlreadyStartedAsWritten(started: set<string>, id: string)
    ensures AlreadyStarted(started, id) ==> AlreadyStartedAsWritten(started, id)
    ensures AlreadyStartedAsWritten(started, id) && !AlreadyStarted(started, id) ==> id in PrototypeNames
  {
    id in started || id in PrototypeNames
  }

  /** An application whose id is `constructor` is refused by a registry that holds no scheme at all. */
  lemma ConstructorRefusedByEmptyRegistry()
    ensures AlreadyStartedAsWritten({}, "constructor")
  {
  }

  /** The guard as intended: an id is refused exactly when a scheme was registered for it. */
  predicate AlreadyStarted(started: set<string>, id: string) {
    id in started
  }

  lemma EmptyRegistryRefusesNothing(id: string)
    ensures !AlreadyStarted({}, id)
    ensures forall started: set<string> :: AlreadyStarted(started + {id}, id)
  {
  }

  /** A registry entry: the scheme object managing one application. */
  datatype Scheme =
    | OneOnlyScheme(oneOnly: OneOnly.OneOnlyScheme)
    | SeamlessScheme(seamless: Seamless.SeamlessScheme)
  {
    function Kind(): SchemeKind {
      if OneOnlyScheme? then OneOnlyKind else SeamlessKind
    }

    function Object(): object {
      if OneOnlyScheme? then oneOnly else seamless
    }

    function App(): App {
      if OneOnlyScheme? then oneOnly.app else seamless.app
    }

    /** The state `start` leaves a new scheme in: one launch requested and awaited, nothing running. */
    ghost predicate JustStarted()
      reads Object()
    {
      match this
      case OneOnlyScheme(o) =>
        o.Valid() && o.instance == None && o.launched == {}
        && o.waiting == [OneOnly.AwaitLaunch] && o.trace == [Instances.LaunchRequested]
      case SeamlessScheme(s) =>
        s.Valid() && s.current == None && s.retired == [] && s.launched == {}
        && s.waiting == [Seamless.AwaitLaunch] && s.trace == [Instances.LaunchRequested]
    }
  }

  /** What the registry did, in order. */
  datatype Note = Registered(id: string) | Started(id: string)

  class Registry {
    var apps: map<string, Scheme>
    var batch: Batch
    /** Whether `_startScheme` listens for `app.load`. */
    var subscribed: bool
    ghost var notes: seq<Note>

    ghost predicate Valid()
      reads this
    {
      && (subscribed ==> batch == Done(None))
      && (batch.Running? ==> batch.completed < batch.total)
    }

    constructor ()
      ensures Valid()
      ensures apps == map[] && batch == Idle && !subscribed && notes == []
    {
      apps := map[];
      batch := Idle;
      subscribed := false;
      notes := [];
    }

    /**
      `_startScheme(app, callback)`: refuse a registered id; otherwise read
      the package, and either report the scheme load failure or register
      the new scheme under the id and then start it.
     */
    method StartScheme(req: StartRequest) returns (reply: Reply)
      requires Valid()
      modifies this
      ensures Valid()
      ensures batch == old(batch) && subscribed == old(subscribed)
      ensures reply == Outcome(old(apps).Keys, req)
      ensures reply.Replied? ==> apps == old(apps) && notes == old(notes)
      ensures reply == NoReply ==>
        && apps.Keys == StartedAfter(old(apps).Keys, req)
        && (forall id :: id in old(apps) && id != req.app.id ==> apps[id] == old(apps)[id])
        && var p := PlanStart(req.app, req.pkg, req.loaderMessage);
        && apps[req.app.id].Kind() == p.kind
        && apps[req.app.id].App() == p.app
        && fresh(apps[req.app.id].Object())
        && apps[req.app.id].JustStarted()
        && notes == old(notes) + [Registered(req.app.id), Started(req.app.id)]
    {
      if AlreadyStarted(apps.Keys, req.app.id) {
        return Replied(Some(AlreadyStartedMessage));
      }
      match PlanStart(req.app, req.pkg, req.loaderMessage)
      case Refuse(msg) =>
        return Replied(Some(msg));
      case Launch(kind, app) =>
        if kind == OneOnlyKind {
          var o := new OneOnly.OneOnlyScheme(app);
          apps := apps[req.app.id := OneOnlyScheme(o)];
          notes := notes + [Registered(req.app.id)];
          o.Start();
        } else {
          var s := new Seamless.SeamlessScheme(app);
          apps := apps[req.app.id := SeamlessScheme(s)];
          notes := notes + [Registered(req.app.id)];
          s.Start();
        }
        notes := notes + [Started(req.app.id)];
        return NoReply;
    }

    /** An iterator callback reaching `async.forEach`; a clean finish subscribes to `app.load`. */
    method Settled(err: Option<string>)
      requires Valid()
      modifies this
      ensures Valid()
      ensures apps == old(apps) && notes == old(notes)
      ensures batch == Settle(old(batch), err)
      ensures subscribed == (old(subscribed) || (old(batch).Running? && batch == Done(None)))
    {
      var before := batch;
      batch := Settle(batch, err);
      if before.Running? && batch == Done(None) {
        subscribed := true;
      }
    }

    /**
      `startApps`: start each application in list order. The listener for
      `app.load` is added only if the batch finishes without an error,
      which happens exactly when the list is empty.
     */
    method StartApps(reqs: seq<StartRequest>)
      requires Valid() && batch == Idle
      modifies this
      ensures Valid()
      ensures apps.Keys == StartedAfterAll(old(apps).Keys, reqs)
      ensures batch == SettleAll(BeginBatch(|reqs|), BatchErrors(old(apps).Keys, reqs))
      ensures subscribed <==> |reqs| == 0
    {
      batch := BeginBatch(|reqs|);
      if |reqs| == 0 {
        subscribed := true;
        return;
      }
      ghost var started := apps.Keys;
      var i := 0;
      while i < |reqs|
        invariant 0 <= i <= |reqs|
        invariant Valid() && !subscribed
        invariant apps.Keys == StartedAfterAll(started, reqs[..i])
        invariant batch == SettleAll(Running(|reqs|, 0), BatchErrors(started, reqs[..i]))
        invariant batch != Done(None)
      {
        ghost var errs := BatchErrors(started, reqs[..i]);
        ghost var before := batch;
        StartStep(started, reqs, i);
        var reply := StartScheme(reqs[i]);
        if reply.Replied? {
          assert BatchErrors(started, reqs[..i + 1]) == errs + [reply.err];
          SettleAllSnoc(Running(|reqs|, 0), errs, reply.err);
          Settled(reply.err);
        } else {
          assert BatchErrors(started, reqs[..i + 1]) == errs;
        }
        i := i + 1;
      }
      assert reqs[..i] == reqs;
      StartAppsFinishesCleanlyOnlyWhenEmpty(started, reqs);
    }

    /** The `app.load` listener: `_startScheme` with no callback, so its reply goes nowhere. */
    method OnAppLoad(req: StartRequest)
      requires Valid() && subscribed
      modifies this
      ensures Valid()
      ensures batch == old(batch) && subscribed
      ensures Outcome(old(apps).Keys, req) == NoReply ==> apps.Keys == old(apps).Keys + {req.app.id}
      ensures Outcome(old(apps).Keys, req).Replied? ==> apps == old(apps)
    {
      var reply := StartScheme(req);
    }
  }
}
