/**
  The replace-in-place scheme (lib/schemes/oneonly.js): one `instance`
  slot. `start` stops the running instance, if any, before it launches a
  new one; `stop` empties the slot only once the handle reports that it
  has stopped; an exit of any instance this scheme launched empties it too.

  Asynchronous completions are events: `waiting` holds the continuations
  handed out and not yet called (a handle's stop callback, the launcher's
  callback), and the environment completes one of them by its index.
  The final callback of `start`'s task series runs only if launching is
  refused, which never happens from `start` (proved in CompleteStop), so
  neither the series' completion nor `app.ready` is modelled as happening.
 */
module OneOnly {
  import opened Wrappers
  import opened Apps
  import opened Instances

  const AlreadyRunning := "Instance already running"

  /** What a completed stop continues with: the rest of `start`'s task list, or the caller's callback. */
  datatype AfterStop = ResumeStart | ReplyToCaller

  /** A continuation handed out and not yet called. */
  datatype Pending = AwaitStop(h: Handle, next: AfterStop) | AwaitLaunch

  class OneOnlyScheme {
    const app: App
    var instance: Option<Handle>
    var waiting: seq<Pending>
    /** The handles launched for this scheme; each has this scheme's 'exit' handler. */
    var launched: set<Handle>
    ghost var trace: seq<Effect>

    ghost predicate Valid()
      reads this
    {
      && (instance.Some? ==> instance.value in launched)
      && (forall p :: p in waiting && p.AwaitStop? ==> p.h in launched)
    }

    constructor (app: App)
      ensures Valid()
      ensures this.app == app && instance == None && waiting == [] && launched == {} && trace == []
    {
      this.app := app;
      instance := None;
      waiting := [];
      launched := {};
      trace := [];
    }

    /** `start`: the task list is [stop, _startInstance] with an instance, [_startInstance] without. */
    method Start()
      requires Valid()
      modifies this
      ensures Valid()
      ensures instance == old(instance) && launched == old(launched)
      ensures old(instance).Some? ==>
        && waiting == old(waiting) + [AwaitStop(old(instance).value, ResumeStart)]
        && trace == old(trace) + [StopRequested(old(instance).value)]
      ensures old(instance).None? ==>
        && waiting == old(waiting) + [AwaitLaunch]
        && trace == old(trace) + [LaunchRequested]
    {
      if instance.Some? {
        Stop(ResumeStart);
      } else {
        var refusal := StartInstance();
      }
    }

    /** `_startInstance`: refuses while the slot is full, otherwise asks the launcher for an instance. */
    method StartInstance() returns (refusal: Option<string>)
      requires Valid()
      modifies this
      ensures Valid()
      ensures instance == old(instance) && launched == old(launched)
      ensures old(instance).Some? ==> refusal == Some(AlreadyRunning) && waiting == old(waiting) && trace == old(trace)
      ensures old(instance).None? ==>
        && refusal == None
        && waiting == old(waiting) + [AwaitLaunch]
        && trace == old(trace) + [LaunchRequested]
    {
      if instance.Some? {
        return Some(AlreadyRunning);
      }
      trace := trace + [LaunchRequested];
      waiting := waiting + [AwaitLaunch];
      return None;
    }

    /** The launcher's callback: an error is only logged; an instance fills the slot and gets the exit handler. */
    method CompleteLaunch(k: nat, outcome: Result<Handle, string>)
      requires Valid()
      requires k < |waiting| && waiting[k] == AwaitLaunch
      requires outcome.Success? ==> outcome.value !in launched
      modifies this
      ensures Valid()
      ensures waiting == RemoveAt(old(waiting), k) && trace == old(trace)
      ensures outcome.Failure? ==> instance == old(instance) && launched == old(launched)
      ensures outcome.Success? ==> instance == Some(outcome.value) && launched == old(launched) + {outcome.value}
    {
      waiting := RemoveAt(waiting, k);
      match outcome {
        case Failure(_) =>
        case Success(h) =>
          instance := Some(h);
          launched := launched + {h};
      }
    }

    /** The 'exit' handler: any instance this scheme launched empties the slot when it exits. */
    method Exit(h: Handle)
      requires Valid()
      modifies this
      ensures Valid()
      ensures waiting == old(waiting) && launched == old(launched) && trace == old(trace)
      ensures h in launched ==> instance == None
      ensures h !in launched ==> instance == old(instance)
    {
      if h in launched {
        instance := None;
      }
    }

    /**
      `stop`: with no instance the callback runs at once and no handle is
      touched; otherwise the handle is asked to stop and the slot is kept.
     */
    method Stop(next: AfterStop)
      requires Valid()
      modifies this
      ensures Valid()
      ensures launched == old(launched)
      ensures old(instance).Some? ==>
        && instance == old(instance)
        && waiting == old(waiting) + [AwaitStop(old(instance).value, next)]
        && trace == old(trace) + [StopRequested(old(instance).value)]
      ensures old(instance).None? && next == ReplyToCaller ==>
        instance == None && waiting == old(waiting) && trace == old(trace) + [CalledBack]
      ensures old(instance).None? && next == ResumeStart ==>
        && instance == None
        && waiting == old(waiting) + [AwaitLaunch]
        && trace == old(trace) + [LaunchRequested]
    {
      if instance.None? {
        Continue(next);
        return;
      }
      trace := trace + [StopRequested(instance.value)];
      waiting := waiting + [AwaitStop(instance.value, next)];
    }

    /**
      A handle's stop callback: the slot is emptied, then the waiting
      callback runs. Resuming `start` always launches: the slot was just
      emptied, so `_startInstance` cannot refuse.
     */
    method CompleteStop(k: nat)
      requires Valid()
      requires k < |waiting| && waiting[k].AwaitStop?
      modifies this
      ensures Valid()
      ensures instance == None && launched == old(launched)
      ensures old(waiting[k].next) == ReplyToCaller ==>
        waiting == RemoveAt(old(waiting), k) && trace == old(trace) + [CalledBack]
      ensures old(waiting[k].next) == ResumeStart ==>
        && waiting == RemoveAt(old(waiting), k) + [AwaitLaunch]
        && trace == old(trace) + [LaunchRequested]
    {
      var next := waiting[k].next;
      waiting := RemoveAt(waiting, k);
      instance := None;
      Continue(next);
    }

    /** The callback a stop was given, run with the slot empty. */
    method Continue(next: AfterStop)
      requires Valid() && instance.None?
      modifies this
      ensures Valid()
      ensures instance == None && launched == old(launched)
      ensures next == ReplyToCaller ==> waiting == old(waiting) && trace == old(trace) + [CalledBack]
      ensures next == ResumeStart ==> waiting == old(waiting) + [AwaitLaunch] && trace == old(trace) + [LaunchRequested]
    {
      match next {
        case ReplyToCaller =>
          trace := trace + [CalledBack];
        case ResumeStart =>
          var refusal := StartInstance();
          assert refusal == None;
      }
    }
  }
}
