/**
  The application loader (lib/apploader.js): the registry address, the
  selection of application rows from the registry listing, the id each
  application is stored under, the filter that keeps protected files out
  of the static copy, and the callbacks `run` delivers.

  The store, the downloads and the file copy are outside the model; their
  outcomes are inputs.
 */
module AppLoader {
  import opened Wrappers
  import opened Text
  import opened Paths
  import opened AsyncForEach

  const AppPrefix := "app::"

  /** A row of the registry's document listing. */
  datatype Row = Row(id: string)

  /** `_.filter(rows, row => row.id.slice(0, 5) === 'app::')`. */
  function AppRows(rows: seq<Row>): (r: seq<Row>)
    ensures |r| <= |rows|
    ensures forall x :: x in r ==> x in rows && HasPrefix(x.id, AppPrefix)
    ensures forall i :: 0 <= i < |rows| && HasPrefix(rows[i].id, AppPrefix) ==> rows[i] in r
  {
    if |rows| == 0 then []
    else
      SlicePrefixTest(rows[0].id, AppPrefix);
      var rest := AppRows(rows[1..]);
      assert forall i :: 1 <= i < |rows| ==> rows[i] == rows[1..][i - 1];
      (if SliceTo(rows[0].id, |AppPrefix|) == AppPrefix then [rows[0]] else []) + rest
  }

  /** The filter keeps order: filtering a concatenation filters each part. */
  lemma {:induction false} AppRowsConcat(a: seq<Row>, b: seq<Row>)
    ensures AppRows(a + b) == AppRows(a) + AppRows(b)
  {
    if |a| > 0 {
      assert (a + b)[0] == a[0];
      assert (a + b)[1..] == a[1..] + b;
      AppRowsConcat(a[1..], b);
    } else {
      assert a + b == b;
    }
  }

  /** A single row is kept exactly when its id carries the application prefix. */
  lemma AppRowsSingle(x: Row)
    ensures AppRows([x]) == if HasPrefix(x.id, AppPrefix) then [x] else []
  {
    SlicePrefixTest(x.id, AppPrefix);
    assert [x][1..] == [];
  }

  /** `item.id.slice(5)`: the id an application is stored under. */
  function AppId(id: string): (r: string)
    ensures HasPrefix(id, AppPrefix) ==> AppPrefix + r == id
    ensures |r| == if |id| < |AppPrefix| then 0 else |id| - |AppPrefix|
  {
    SliceFrom(id, |AppPrefix|)
  }

  /** Restoring the prefix gives back the document id. */
  lemma AppIdRoundTrip(name: string)
    ensures AppId(AppPrefix + name) == name
    ensures HasPrefix(AppPrefix + name, AppPrefix)
  {
    assert (AppPrefix + name)[..|AppPrefix|] == AppPrefix;
  }

  /** One of the protected names begins `s`, letters compared without regard to ASCII case. */
  predicate StartsWithProtectedName(s: string) {
    var l := LowerAscii(s);
    HasPrefix(l, "app.js") || HasPrefix(l, "package.json") || HasPrefix(l, "lib")
    || HasPrefix(l, "node_modules") || HasPrefix(l, "resources") || HasPrefix(l, "views")
  }

  /** The index of the first '/' at or after `i`. */
  function SlashFrom(s: string, i: nat): (r: Option<nat>)
    requires i <= |s|
    ensures r.Some? ==> i <= r.value < |s| && s[r.value] == '/' && forall j :: i <= j < r.value ==> s[j] != '/'
    ensures r.None? ==> forall j :: i <= j < |s| ==> s[j] != '/'
    decreases |s| - i
  {
    if i == |s| then None else if s[i] == '/' then Some(i) else SlashFrom(s, i + 1)
  }

  /**
    `reProtected.test(rel)`: a leading '/', one path segment, '/', then a
    protected name. `[^\/]*` cannot pass a slash, so the name follows the
    second slash in `rel`; nothing has to follow the name.
   */
  predicate IsProtected(rel: string)
    ensures IsProtected(rel) <==> MatchesProtected(rel)
  {
    SlashFromMatches(rel);
    && |rel| > 0 && rel[0] == '/'
    && match SlashFrom(rel, 1)
      case None => false
      case Some(k) => StartsWithProtectedName(rel[k + 1..])
  }

  /** The regular expression read as a search for a split of `rel` into "/", a segment, "/" and a protected name. */
  ghost predicate MatchesProtected(rel: string) {
    exists k :: 0 < k < |rel| && rel[0] == '/' && rel[k] == '/' && NoSlashBetween(rel, 1, k)
      && StartsWithProtectedName(rel[k + 1..])
  }

  predicate NoSlashBetween(s: string, i: nat, k: nat)
    requires i <= k <= |s|
  {
    forall j :: i <= j < k ==> s[j] != '/'
  }

  /** The only split the search can find is at the first slash after the leading one. */
  lemma SlashFromMatches(rel: string)
    ensures MatchesProtected(rel) <==>
      && |rel| > 0 && rel[0] == '/' && SlashFrom(rel, 1).Some?
      && StartsWithProtectedName(rel[SlashFrom(rel, 1).value + 1..])
  {
    if MatchesProtected(rel) {
      var k :| 0 < k < |rel| && rel[0] == '/' && rel[k] == '/' && NoSlashBetween(rel, 1, k)
        && StartsWithProtectedName(rel[k + 1..]);
      var f := SlashFrom(rel, 1);
      assert f.Some?;
      assert f.value == k;
    }
    if |rel| > 0 && rel[0] == '/' && SlashFrom(rel, 1).Some? {
      var k := SlashFrom(rel, 1).value;
      assert NoSlashBetween(rel, 1, k);
    }
  }

  /** A name that only starts like a protected one is protected too: the match has no terminator. */
  lemma PrefixMatchHasNoTerminator(seg: string, rest: string)
    requires '/' !in seg
    ensures IsProtected("/" + seg + "/lib" + rest)
    ensures IsProtected("/x/LIBRARY")
  {
    var rel := "/" + seg + "/lib" + rest;
    assert rel[|seg| + 1] == '/';
    assert forall j :: 1 <= j < |seg| + 1 ==> rel[j] == seg[j - 1];
    assert SlashFrom(rel, 1) == Some(|seg| + 1);
    assert rel[|seg| + 2..] == "lib" + rest;
    assert LowerAscii("lib" + rest)[..3] == "lib";
    var x := "/x/LIBRARY";
    assert SlashFrom(x, 1) == Some(2);
    assert LowerAscii(x[3..])[..3] == "lib";
  }

  /** A path of a single segment never matches: the expression needs two slashes. */
  lemma SingleSegmentNotProtected(name: string)
    requires '/' !in name
    ensures !IsProtected("/" + name)
  {
    var rel := "/" + name;
    assert forall j :: 1 <= j < |rel| ==> rel[j] == name[j - 1];
  }

  /**
    `path.resolve(__dirname, '../_apps')`: the applications directory,
    relative to the loader's own directory, which Node.js gives as an
    absolute path. The result is the root or a normal absolute path.
   */
  function AppsDirectory(cwd: string, moduleDir: string): (r: string)
    ensures IsAbsolute(cwd) || IsAbsolute(moduleDir) ==> r == "/" || IsNormalAbsolute(r)
  {
    var args := [moduleDir, "../_apps"];
    if IsAbsolute(moduleDir) || IsAbsolute(cwd) then
      assert IsAbsolute(args[0]) || IsAbsolute(cwd);
      ResolveIsNormal(cwd, args);
      Resolve(cwd, args)
    else Resolve(cwd, args)
  }

  /**
    `path.join(pathApps, appId)`: the directory `_refreshStatic` copies
    from. The applications directory comes from `path.resolve`, so it is a
    normal absolute path, and an ordinary id goes after one separator; the
    empty id of a document named `app::` gives the applications directory
    itself.
   */
  function AppPath(pathApps: string, appId: string): (r: string)
    ensures IsName(appId) ==> r == InDirectory(pathApps, appId)
    ensures IsNormalAbsolute(pathApps) && IsName(appId) ==> r == pathApps + "/" + appId
    ensures appId == "" ==> r == Normalize(pathApps)
    ensures appId == "" && IsNormalAbsolute(pathApps) ==> r == pathApps
  {
    if IsName(appId) then
      JoinName(pathApps, appId);
      if IsNormalAbsolute(pathApps) then JoinNormalAbsolute(pathApps, appId); Join(pathApps, appId)
      else Join(pathApps, appId)
    else if IsNormalAbsolute(pathApps) then NormalizeNormalAbsolute(pathApps); Join(pathApps, appId)
    else Join(pathApps, appId)
  }

  /** The copy filter as written: the entry's path relative to the application directory is tested. */
  predicate CopiedAsWritten(appPath: string, entry: string)
    ensures CopiedAsWritten(appPath, entry) <==> !MatchesProtected(SliceFrom(entry, |appPath|))
  {
    !IsProtected(SliceFrom(entry, |appPath|))
  }

  /**
    As written, the application's own `package.json`, `app.js` and `lib`
    are copied: they lie one level below the application directory, and
    the expression only recognises names one level further down.
   */
  lemma {:induction false} TopLevelProtectedFilesCopied(pathApps: string, appId: string, name: string)
    requires '/' !in name
    ensures CopiedAsWritten(AppPath(pathApps, appId), AppPath(pathApps, appId) + "/" + name)
    ensures CopiedAsWritten(AppPath(pathApps, appId), AppPath(pathApps, appId) + "/package.json")
  {
    var p := AppPath(pathApps, appId);
    assert SliceFrom(p + "/" + name, |p|) == "/" + name;
    SingleSegmentNotProtected(name);
    assert SliceFrom(p + "/package.json", |p|) == "/package.json";
    SingleSegmentNotProtected("package.json");
  }

  /** The filter as intended: the path is taken relative to the applications directory, so it starts with "/<appId>/". */
  predicate Copied(pathApps: string, entry: string)
    ensures Copied(pathApps, entry) <==> !MatchesProtected(SliceFrom(entry, |pathApps|))
  {
    !IsProtected(SliceFrom(entry, |pathApps|))
  }

  /**
    With the intended filter an entry of the application directory is
    left out of the static copy exactly when its path relative to that
    directory starts with a protected name. The reader yields the entries
    below the directory as the directory, a separator and their relative
    path.
   */
  lemma CopiedExactlyUnprotected(pathApps: string, appId: string, rel: string)
    requires IsNormalAbsolute(pathApps) && IsName(appId)
    ensures Copied(pathApps, AppPath(pathApps, appId) + "/" + rel) <==> !StartsWithProtectedName(rel)
  {
    var p := AppPath(pathApps, appId);
    assert p == pathApps + "/" + appId;
    CopiedBelowApps(pathApps, appId, rel);
    assert p + "/" + rel == pathApps + "/" + appId + "/" + rel;
  }

  /** The same for the entry written out as the applications directory, the id and the relative path. */
  lemma CopiedBelowApps(pathApps: string, appId: string, rel: string)
    requires '/' !in appId
    ensures Copied(pathApps, pathApps + "/" + appId + "/" + rel) <==> !StartsWithProtectedName(rel)
  {
    var entry := pathApps + "/" + appId + "/" + rel;
    var tail := "/" + appId + "/" + rel;
    assert entry == pathApps + tail;
    assert SliceFrom(entry, |pathApps|) == tail;
    assert forall j :: 1 <= j < |appId| + 1 ==> tail[j] == appId[j - 1];
    assert tail[|appId| + 1] == '/';
    assert SlashFrom(tail, 1) == Some(|appId| + 1);
    assert tail[|appId| + 2..] == rel;
  }

  /**
    The callbacks `run` makes, in order, given the listing's outcome and
    the per-application outcomes in the order they are reported. A listing
    error is passed on once. With no application rows `async.forEach`
    calls back at once and `run` then calls back again with null.
   */
  function RunCallbacks(listing: Result<seq<Row>, string>, outcomes: seq<Option<string>>): (r: seq<Option<string>>)
    requires listing.Success? ==> |outcomes| <= |AppRows(listing.value)|
    ensures |r| <= 2
    ensures |r| == 2 <==> listing.Success? && |AppRows(listing.value)| == 0
    ensures listing.Failure? ==> r == [Some(listing.error)]
    ensures listing.Success? ==> forall k :: 0 <= k < |r| ==> r[k].None? || Failed(r[k])
  {
    match listing
    case Failure(e) => [Some(e)]
    case Success(rows) =>
      var n := |AppRows(rows)|;
      if n == 0 then [None, None]
      else FinalCallsAtMostOnce(n, 0, outcomes); FinalCalls(BeginBatch(n), outcomes)
  }

  /** A listing error reaches the callback once, and nothing is loaded. */
  lemma RunListingError(e: string, outcomes: seq<Option<string>>)
    ensures RunCallbacks(Failure(e), outcomes) == [Some(e)]
  {
  }

  /** With no application rows the callback runs twice, both times without an error. */
  lemma EmptyRunCallsBackTwice(rows: seq<Row>)
    requires forall i :: 0 <= i < |rows| ==> !HasPrefix(rows[i].id, AppPrefix)
    ensures RunCallbacks(Success(rows), []) == [None, None]
  {
    NoAppRows(rows);
  }

  lemma {:induction false} NoAppRows(rows: seq<Row>)
    requires forall i :: 0 <= i < |rows| ==> !HasPrefix(rows[i].id, AppPrefix)
    ensures AppRows(rows) == []
  {
    if |rows| > 0 {
      assert forall i :: 0 <= i < |rows| - 1 ==> rows[1..][i] == rows[i + 1];
      NoAppRows(rows[1..]);
      SlicePrefixTest(rows[0].id, AppPrefix);
    }
  }

  /** `run` as intended: the explicit "no applications" callback is the only one for an empty listing. */
  function RunCallbacksOnce(listing: Result<seq<Row>, string>, outcomes: seq<Option<string>>): (r: seq<Option<string>>)
    requires listing.Success? ==> |outcomes| <= |AppRows(listing.value)|
    ensures |r| <= 1
    ensures listing.Failure? ==> r == [Some(listing.error)]
    ensures listing.Success? && |AppRows(listing.value)| == 0 ==> r == [None]
    ensures listing.Success? ==> forall k :: 0 <= k < |r| ==> r[k].None? || Failed(r[k])
  {
    match listing
    case Failure(e) => [Some(e)]
    case Success(rows) =>
      var n := |AppRows(rows)|;
      if n == 0 then [None] else FinalCallsAtMostOnce(n, 0, outcomes); FinalCalls(BeginBatch(n), outcomes)
  }

  /**
    The intended `run` calls back at most once: with the listing error,
    at once for an empty listing, or when the per-application loads have
    finished (the first error, or success after every one).
   */
  lemma RunCallsBackAtMostOnce(listing: Result<seq<Row>, string>, outcomes: seq<Option<string>>)
    requires listing.Success? ==> |outcomes| <= |AppRows(listing.value)|
    ensures |RunCallbacksOnce(listing, outcomes)| <= 1
    ensures listing.Failure? ==> RunCallbacksOnce(listing, outcomes) == [Some(listing.error)]
    ensures listing.Success? && |AppRows(listing.value)| == 0 ==> RunCallbacksOnce(listing, outcomes) == [None]
    ensures listing.Success? && |AppRows(listing.value)| > 0 ==>
      && var b := SettleAll(Running(|AppRows(listing.value)|, 0), outcomes);
      && (|RunCallbacksOnce(listing, outcomes)| == 1 <==> b.Done?)
      && (b.Done? ==> RunCallbacksOnce(listing, outcomes) == [b.err])
  {
    if listing.Success? && |AppRows(listing.value)| > 0 {
      var n := |AppRows(listing.value)|;
      FinalCallsAtMostOnce(n, 0, outcomes);
    }
  }

  /** With every load succeeding, the intended `run` reports success once. */
  lemma RunSucceedsOnceAllLoad(rows: seq<Row>, outcomes: seq<Option<string>>)
    requires |outcomes| == |AppRows(rows)| > 0
    requires forall i :: 0 <= i < |outcomes| ==> !Failed(outcomes[i])
    ensures RunCallbacksOnce(Success(rows), outcomes) == [None]
  {
    var n := |AppRows(rows)|;
    FinalCallsAtMostOnce(n, 0, outcomes);
    SettleAllClean(n, 0, outcomes);
  }
}
