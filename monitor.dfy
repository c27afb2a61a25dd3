/**
  The change monitor (lib/monitor.js). One change feed watches the
  steelmesh registry database: an application document update marks the
  item done and (re)arms a one-second restart timer, anything else is
  skipped. Per-application feeds are attached for each database an
  application lists under `couchdb`; their items are skipped unless the
  database names an `onChange` target, and failed items are collected.

  Timers are identified by serial numbers; the feed library, the retry
  mechanism it runs and the clock are outside the model.
 */
module Monitor {
  import opened Wrappers
  import opened Json
  import opened Text

  const AppPrefix := "app::"
  const RestartEvent := "steelmesh-restart"
  const RestartDelayMs := 1000
  const RetryTimes := 3
  const RetryWaitMs := 90000

  /** A change-feed item; `id` is None when the document has no id. */
  datatype ChangeItem = ChangeItem(id: Option<string>)

  /** What the handler does with an item: mark it done, skip it, leave it as it is, or throw. */
  datatype Disposition = MarkDone | Skip | LeaveUndisposed | Fault

  /**
    The registry handler's test `item && item.id && item.id.slice(0, 5) === 'app::'`.
    A missing item still reaches `item.skip()`, which throws.
   */
  function Classify(item: Option<ChangeItem>): (d: Disposition)
    ensures d == MarkDone <==> item.Some? && item.value.id.Some? && HasPrefix(item.value.id.value, AppPrefix)
    ensures d == Fault <==> item.None?
    ensures d == MarkDone || d == Skip || d == Fault
  {
    match item
    case None => Fault
    case Some(ChangeItem(id)) =>
      var text := if id.Some? then id.value else "";
      SlicePrefixTest(text, AppPrefix);
      if id.Some? && id.value != "" && SliceTo(id.value, |AppPrefix|) == AppPrefix then MarkDone else Skip
  }

  /** The payload of the restart event. */
  function RestartPayload(): (j: Json)
    ensures Get(j, "dashboard") == Some(JBool(true))
  {
    JObj([("dashboard", JBool(true))])
  }

  /**
    `_monitorSteelmesh`: the registry feed's target address and the
    restart debounce. `restartTimer` is the last timer armed (0 before
    any); `pending` holds the armed timers that have neither fired nor
    been cleared.
   */
  class RegistryMonitor {
    const targetUrl: string
    var restartTimer: nat
    var pending: set<nat>
    var nextTimer: nat
    ghost var emitted: seq<(string, Json)>

    /** At most one restart is pending, and it is the last one armed. */
    ghost predicate Valid()
      reads this
    {
      && (pending == {} || pending == {restartTimer})
      && restartTimer < nextTimer
      && (forall t :: t in pending ==> 0 < t)
    }

    constructor (url: string, dbname: string)
      ensures Valid()
      ensures targetUrl == DbUrl(url, dbname)
      ensures restartTimer == 0 && pending == {} && emitted == []
    {
      targetUrl := DbUrl(url, dbname);
      restartTimer := 0;
      pending := {};
      nextTimer := 1;
      emitted := [];
    }

    /** The 'process' handler: an application update clears the pending restart and arms a new one. */
    method Process(item: Option<ChangeItem>) returns (d: Disposition)
      requires Valid()
      modifies this
      ensures Valid()
      ensures d == Classify(item)
      ensures emitted == old(emitted)
      ensures d == MarkDone ==> restartTimer !in old(pending) + {old(restartTimer)} && pending == {restartTimer}
      ensures d != MarkDone ==> restartTimer == old(restartTimer) && pending == old(pending)
    {
      d := Classify(item);
      if d == MarkDone {
        pending := pending - {restartTimer};
        restartTimer := nextTimer;
        nextTimer := nextTimer + 1;
        pending := pending + {restartTimer};
      }
    }

    /** A pending timer firing emits the restart event once. */
    method Fire(t: nat)
      requires Valid() && t in pending
      modifies this
      ensures Valid()
      ensures pending == {} && restartTimer == old(restartTimer)
      ensures emitted == old(emitted) + [(RestartEvent, RestartPayload())]
    {
      pending := pending - {t};
      emitted := emitted + [(RestartEvent, RestartPayload())];
    }
  }

  /**
    The per-database 'process' handler's test `dbConfig.onChange`: a null
    configuration throws, a truthy `onChange` leaves the item for the
    (unwritten) notification, anything else skips it.
   */
  function DbDisposition(dbConfig: Json): (d: Disposition)
    ensures d == Fault <==> dbConfig.JNull?
    ensures d == LeaveUndisposed <==> TruthyMember(dbConfig, "onChange").Some?
    ensures d == Skip <==> !dbConfig.JNull? && TruthyMember(dbConfig, "onChange").None?
  {
    if dbConfig.JNull? then Fault
    else if TruthyMember(dbConfig, "onChange").Some? then LeaveUndisposed
    else Skip
  }

  /** `attachMonitor`'s feed for one database, with the retry policy it is given. */
  class DbWatcher {
    const url: string
    const dbConfig: Json
    const retryTimes: nat
    const retryWaitMs: nat
    var failedItems: seq<ChangeItem>

    constructor (url: string, dbConfig: Json)
      ensures this.url == url && this.dbConfig == dbConfig
      ensures retryTimes == RetryTimes && retryWaitMs == RetryWaitMs
      ensures failedItems == []
    {
      this.url := url;
      this.dbConfig := dbConfig;
      retryTimes := RetryTimes;
      retryWaitMs := RetryWaitMs;
      failedItems := [];
    }

    method Process(item: ChangeItem) returns (d: Disposition)
      ensures d == Fault <==> dbConfig.JNull?
      ensures d == LeaveUndisposed <==> TruthyMember(dbConfig, "onChange").Some?
      ensures d == Skip <==> !dbConfig.JNull? && TruthyMember(dbConfig, "onChange").None?
    {
      d := DbDisposition(dbConfig);
    }

    /** The 'fail' handler: failed items are kept in the order they failed. */
    method Fail(item: ChangeItem)
      modifies this
      ensures failedItems == old(failedItems) + [item]
    {
      failedItems := failedItems + [item];
    }
  }

  /** The databases `_.each(appConfig.couchdb || {}, ...)` visits. */
  function Databases(appConfig: Json): (dbs: seq<(string, Json)>)
    ensures TruthyMember(appConfig, "couchdb").None? ==> dbs == []
    ensures TruthyMember(appConfig, "couchdb").Some? ==> dbs == Entries(TruthyMember(appConfig, "couchdb").value)
  {
    match TruthyMember(appConfig, "couchdb")
    case Some(c) => Entries(c)
    case None => []
  }

  /**
    The feeds `_watchForChanges` attaches for `appConfig`, as (address,
    database configuration) pairs: one per database, in the order visited,
    at `serverUrl + dbid` with no separator added. A null configuration
    throws before any is attached.
   */
  function WatchTargets(serverUrl: string, appConfig: Json): (r: Option<seq<(string, Json)>>)
    ensures r.None? <==> appConfig.JNull?
    ensures r.Some? ==> |r.value| == |Databases(appConfig)|
    ensures r.Some? ==> forall i :: 0 <= i < |r.value| ==>
      r.value[i] == (serverUrl + Databases(appConfig)[i].0, Databases(appConfig)[i].1)
  {
    if appConfig.JNull? then None
    else
      var dbs := Databases(appConfig);
      Some(seq(|dbs|, i requires 0 <= i < |dbs| => (serverUrl + dbs[i].0, dbs[i].1)))
  }

  /** An application without a truthy `couchdb` section gets no feeds. */
  lemma NoCouchdbNoWatchers(serverUrl: string, appConfig: Json)
    requires !appConfig.JNull? && TruthyMember(appConfig, "couchdb").None?
    ensures WatchTargets(serverUrl, appConfig) == Some([])
  {
  }

  /**
    The per-database address joins by plain concatenation, so it matches
    the registry's normalised form only when the server address ends in
    a slash.
   */
  lemma {:induction false} WatchUrlNeedsTrailingSlash(serverUrl: string, dbid: string)
    ensures serverUrl + dbid == DbUrl(serverUrl, dbid) <==> |serverUrl| > 0 && serverUrl[|serverUrl| - 1] == '/'
  {
    var t := TrimTrailingSlash(serverUrl);
    if |serverUrl| > 0 && serverUrl[|serverUrl| - 1] == '/' {
      assert serverUrl == t + "/";
      assert serverUrl + dbid == t + "/" + dbid;
    } else {
      assert t == serverUrl;
      assert |DbUrl(serverUrl, dbid)| == |serverUrl + dbid| + 1;
    }
  }

  /** The monitor's table of per-application feeds (`_watchers`). */
  class SteelmeshMonitor {
    const serverUrl: string
    var watchers: map<string, seq<DbWatcher>>

    constructor (serverUrl: string)
      ensures this.serverUrl == serverUrl && watchers == map[]
    {
      this.serverUrl := serverUrl;
      watchers := map[];
    }

    /**
      `_watchForChanges(app, appConfig)`: attach one new feed per database
      and store the list under the application id, replacing an earlier
      list. Returns true when the null configuration makes it throw.
     */
    method WatchForChanges(appId: string, appConfig: Json) returns (fault: bool)
      modifies this
      ensures fault <==> WatchTargets(serverUrl, appConfig).None?
      ensures fault ==> watchers == old(watchers)
      ensures !fault ==>
        && var targets := WatchTargets(serverUrl, appConfig).value;
        && appId in watchers
        && watchers == old(watchers)[appId := watchers[appId]]
        && |watchers[appId]| == |targets|
        && forall i :: 0 <= i < |targets| ==>
          && fresh(watchers[appId][i])
          && watchers[appId][i].url == targets[i].0
          && watchers[appId][i].dbConfig == targets[i].1
          && watchers[appId][i].retryTimes == RetryTimes
          && watchers[appId][i].retryWaitMs == RetryWaitMs
          && watchers[appId][i].failedItems == []
    {
      if appConfig.JNull? {
        return true;
      }
      var dbs := Databases(appConfig);
      var list: seq<DbWatcher> := [];
      var i := 0;
      while i < |dbs|
        invariant 0 <= i <= |dbs|
        invariant |list| == i
        invariant watchers == old(watchers)
        invariant forall j :: 0 <= j < i ==>
          && fresh(list[j])
          && list[j].url == serverUrl + dbs[j].0
          && list[j].dbConfig == dbs[j].1
          && list[j].retryTimes == RetryTimes
          && list[j].retryWaitMs == RetryWaitMs
          && list[j].failedItems == []
      {
        var w := new DbWatcher(serverUrl + dbs[i].0, dbs[i].1);
        list := list + [w];
        i := i + 1;
      }
      watchers := watchers[appId := list];
      return false;
    }
  }
}
