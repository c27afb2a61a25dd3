/**
  The always-up scheme (lib/schemes/seamless.js): a new instance is
  launched beside the running one; when it reports `client.up` the
  running one is moved to the retired list (`old` in the source) and
  stopped, `app.ready.<id>` is emitted, and the new one becomes current.

  As in the OneOnly module, continuations handed out and not yet called
  are kept in `waiting` and completed by index.
 */
module Seamless {
  import opened Wrappers
  import opened Apps
  import opened Instances

  /**
    The callback a `stop` was given: none (the 'shutdown' event passes
    none), the empty function of the `client.up` handler, or a caller's.
   */
  datatype StopCallback = NoCallback | Ignore | Caller

  datatype Pending = AwaitLaunch | AwaitStop(h: Handle, cb: StopCallback)

  function ReadyTopic(id: string): string {
    "app.ready." + id
  }

  function ErrorTopic(id: string): string {
    "app.error." + id
  }

  /** The topics keep applications apart, and readiness apart from failure. */
  lemma TopicsAreDistinct(a: string, b: string)
    ensures ReadyTopic(a) == ReadyTopic(b) ==> a == b
    ensures ErrorTopic(a) == ErrorTopic(b) ==> a == b
    ensures ReadyTopic(a) != ErrorTopic(b)
  {
    if ReadyTopic(a) == ReadyTopic(b) {
      assert a == ReadyTopic(a)[10..] && b == ReadyTopic(b)[10..];
    }
    if ErrorTopic(a) == ErrorTopic(b) {
      assert a == ErrorTopic(a)[10..] && b == ErrorTopic(b)[10..];
    }
    assert ReadyTopic(a)[4] == 'r' && ErrorTopic(b)[4] == 'e';
  }

  class SeamlessScheme {
    const app: App
    var current: Option<Handle>
    /** The instances taken out of service, oldest first (`this.old`). */
    var retired: seq<Handle>
    /** `this.instance`: only ever cleared, by an exit handler; nothing reads it. */
    var instance: Option<Handle>
    var waiting: seq<Pending>
    /** The handles launched for this scheme; each has the exit and `client.up` handlers. */
    var launched: set<Handle>
    /** The handles whose `client.up` has been handled at least once. */
    ghost var signalled: set<Handle>
    ghost var trace: seq<Effect>

    ghost predicate Valid()
      reads this
    {
      && signalled <= launched
      && (current.Some? ==> current.value in signalled)
      && (forall i :: 0 <= i < |retired| ==> retired[i] in signalled)
      && (forall p :: p in waiting && p.AwaitStop? ==> p.h in retired)
    }

    /** The running instance is not also one already taken out of service. */
    ghost predicate NoRetiredCurrent()
      reads this
    {
      current.Some? ==> current.value !in retired
    }

    constructor (app: App)
      ensures Valid() && NoRetiredCurrent()
      ensures this.app == app && current == None && retired == [] && instance == None
      ensures waiting == [] && launched == {} && signalled == {} && trace == []
    {
      this.app := app;
      current := None;
      retired := [];
      instance := None;
      waiting := [];
      launched := {};
      signalled := {};
      trace := [];
    }

    /** `start`: its callback is dropped; it only launches a new instance. */
    method Start()
      requires Valid()
      modifies this
      ensures Valid()
      ensures current == old(current) && retired == old(retired) && instance == old(instance)
      ensures launched == old(launched) && signalled == old(signalled)
      ensures waiting == old(waiting) + [AwaitLaunch] && trace == old(trace) + [LaunchRequested]
    {
      StartSeamlessly();
    }

    /** `_startSeamlessly`, also the `app.load.<id>` handler: ask the launcher for an instance. */
    method StartSeamlessly()
      requires Valid()
      modifies this
      ensures Valid()
      ensures current == old(current) && retired == old(retired) && instance == old(instance)
      ensures launched == old(launched) && signalled == old(signalled)
      ensures waiting == old(waiting) + [AwaitLaunch] && trace == old(trace) + [LaunchRequested]
    {
      trace := trace + [LaunchRequested];
      waiting := waiting + [AwaitLaunch];
    }

    /**
      The launcher's callback: an error is published as `app.error.<id>`;
      an instance gets its exit and `client.up` handlers and is not yet
      current, so the running instance keeps serving.
     */
    method CompleteLaunch(k: nat, outcome: Result<Handle, string>)
      requires Valid()
      requires k < |waiting| && waiting[k] == AwaitLaunch
      requires outcome.Success? ==> outcome.value !in launched
      modifies this
      ensures Valid()
      ensures current == old(current) && retired == old(retired) && instance == old(instance)
      ensures signalled == old(signalled) && waiting == RemoveAt(old(waiting), k)
      ensures outcome.Failure? ==>
        launched == old(launched) && trace == old(trace) + [Emitted(ErrorTopic(app.id))]
      ensures outcome.Success? ==>
        launched == old(launched) + {outcome.value} && trace == old(trace)
      ensures NoRetiredCurrent() == old(NoRetiredCurrent())
    {
      waiting := RemoveAt(waiting, k);
      match outcome {
        case Failure(_) =>
          trace := trace + [Emitted(ErrorTopic(app.id))];
        case Success(h) =>
          launched := launched + {h};
      }
    }

    /**
      The `client.up` handler of instance `h`: stop the running instance,
      announce readiness, make `h` current. The handler is registered with
      `on`, so a second `client.up` from the same instance runs it again.
     */
    method ClientUp(h: Handle)
      requires Valid() && h in launched
      modifies this
      ensures Valid()
      ensures current == Some(h) && instance == old(instance)
      ensures launched == old(launched) && signalled == old(signalled) + {h}
      ensures old(current).Some? ==>
        && retired == old(retired) + [old(current).value]
        && waiting == old(waiting) + [AwaitStop(old(current).value, Ignore)]
        && trace == old(trace) + [StopRequested(old(current).value), Emitted(ReadyTopic(app.id))]
      ensures old(current).None? ==>
        && retired == old(retired) && waiting == old(waiting)
        && trace == old(trace) + [Emitted(ReadyTopic(app.id))]
      ensures old(NoRetiredCurrent()) && h !in old(signalled) ==> NoRetiredCurrent()
      ensures h in old(retired) || old(current) == Some(h) ==> !NoRetiredCurrent()
    {
      Stop(Ignore);
      trace := trace + [Emitted(ReadyTopic(app.id))];
      current := Some(h);
      signalled := signalled + {h};
    }

    /**
      `stop`: with no current instance the callback, when there is one,
      runs at once; otherwise the current instance is retired, the slot
      emptied and the instance asked to stop.
     */
    method Stop(cb: StopCallback)
      requires Valid()
      modifies this
      ensures Valid()
      ensures current == None && instance == old(instance)
      ensures launched == old(launched) && signalled == old(signalled)
      ensures old(current).None? ==>
        && retired == old(retired) && waiting == old(waiting)
        && trace == old(trace) + (if cb == Caller then [CalledBack] else [])
      ensures old(current).Some? ==>
        && retired == old(retired) + [old(current).value]
        && waiting == old(waiting) + [AwaitStop(old(current).value, cb)]
        && trace == old(trace) + [StopRequested(old(current).value)]
    {
      if current.None? {
        if cb == Caller {
          trace := trace + [CalledBack];
        }
        return;
      }
      var running := current.value;
      retired := retired + [running];
      current := None;
      trace := trace + [StopRequested(running)];
      waiting := waiting + [AwaitStop(running, cb)];
    }

    /**
      A handle's stop callback: the retired list keeps the instance; the
      callback is called, and calling a missing one is a fault.
     */
    method CompleteStop(k: nat)
      requires Valid()
      requires k < |waiting| && waiting[k].AwaitStop?
      modifies this
      ensures Valid()
      ensures current == old(current) && retired == old(retired) && instance == old(instance)
      ensures launched == old(launched) && signalled == old(signalled)
      ensures waiting == RemoveAt(old(waiting), k)
      ensures old(waiting[k].cb) == Caller ==> trace == old(trace) + [CalledBack]
      ensures old(waiting[k].cb) == Ignore ==> trace == old(trace)
      ensures old(waiting[k].cb) == NoCallback ==> trace == old(trace) + [CallbackFault]
    {
      var cb := waiting[k].cb;
      waiting := RemoveAt(waiting, k);
      match cb {
        case Caller => trace := trace + [CalledBack];
        case Ignore =>
        case NoCallback => trace := trace + [CallbackFault];
      }
    }

    /** The exit handler: clears `instance` only; the current instance stays current. */
    method Exit(h: Handle)
      requires Valid()
      modifies this
      ensures Valid()
      ensures current == old(current) && retired == old(retired) && waiting == old(waiting)
      ensures launched == old(launched) && signalled == old(signalled) && trace == old(trace)
      ensures h in launched ==> instance == None
      ensures h !in launched ==> instance == old(instance)
    {
      if h in launched {
        instance := None;
      }
    }
  }
}
