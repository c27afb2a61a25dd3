/**
  The in-process route launcher (lib/launchers/meshapp.js): turning an
  application's route table into (verb, path, handler) triples and
  mounting them on a router under the lower-cased verb.

  Loading a route's module is a given function from the module's file
  name to what `require` produces: its exports (only truthy ones are
  listed) or the error it throws. The file name is resolved against the
  process's working directory, which is given too. The catch block that handles that error
  refers to `mesh`, a name defined nowhere in the file, so a module that
  fails to load aborts the whole parse with a ReferenceError.
 */
module MeshApp {
  import opened Wrappers
  import opened Text
  import opened Paths
  import opened Apps

  datatype RouteHandler<H> = RouteHandler(verb: string, path: string, handler: H)

  datatype ModuleLoad<H> = Loaded(exports: map<string, H>) | LoadError(message: string)

  /** The process the launcher runs in: its working directory and what `require` makes of a file name. */
  datatype Loader<H> = Loader(cwd: string, require: string -> ModuleLoad<H>)

  const DefaultVerb := "GET"
  const MeshUndefined := "ReferenceError: mesh is not defined"
  const RoutesUndefined := "TypeError: Cannot call method 'forEach' of undefined"

  // ---------------------------------------------------------------------
  // "path => handler": `route.split(/\s?=>\s?/)`

  /** The two characters "=>" start at index `i`. */
  predicate ArrowAt(s: string, i: int) {
    0 <= i && i + 1 < |s| && s[i] == '=' && s[i + 1] == '>'
  }

  /** Where a match of `\s?=>\s?` that starts exactly at `q` ends, both `\s?` being greedy. */
  function ArrowMatchAt(s: string, q: nat): (e: Option<nat>)
    requires q <= |s|
    ensures e.Some? ==> q + 2 <= e.value <= |s|
    ensures e.Some? <==> ArrowAt(s, q) || (ArrowAt(s, q + 1) && IsJsSpace(s[q]))
  {
    var afterArrow :=
      if q < |s| && IsJsSpace(s[q]) && ArrowAt(s, q + 1) then Some(q + 3)
      else if ArrowAt(s, q) then Some(q + 2)
      else None;
    match afterArrow
    case None => None
    case Some(e) => Some(if e < |s| && IsJsSpace(s[e]) then e + 1 else e)
  }

  /**
    The split loop of `String.prototype.split` with a regular expression:
    `p` is where the current part began, `q` where a match is tried next.
   */
  function SplitFrom(s: string, p: nat, q: nat): (parts: seq<string>)
    requires p <= q <= |s|
    ensures |parts| >= 1
    decreases |s| - q
  {
    if q == |s| then [s[p..]]
    else match ArrowMatchAt(s, q)
      case Some(e) => [s[p..q]] + SplitFrom(s, e, e)
      case None => SplitFrom(s, p, q + 1)
  }

  /** `s.split(/\s?=>\s?/)`: two or more parts exactly when `s` contains "=>". */
  function SplitArrow(s: string): (parts: seq<string>)
    ensures |parts| >= 1
    ensures |parts| >= 2 <==> exists i :: ArrowAt(s, i)
  {
    SplitFromCount(s, 0, 0);
    SplitFrom(s, 0, 0)
  }

  lemma {:induction false} SplitFromCount(s: string, p: nat, q: nat)
    requires p <= q <= |s|
    ensures |SplitFrom(s, p, q)| >= 2 <==> exists i :: q <= i && ArrowAt(s, i)
    decreases |s| - q
  {
    if q < |s| {
      match ArrowMatchAt(s, q)
      case Some(e) =>
        assert |SplitFrom(s, e, e)| >= 1;
        if ArrowAt(s, q) {
          assert q <= q && ArrowAt(s, q);
        } else {
          assert q <= q + 1 && ArrowAt(s, q + 1);
        }
      case None =>
        SplitFromCount(s, p, q + 1);
        assert !ArrowAt(s, q);
    }
  }

  lemma {:induction false} SplitFromUpTo(s: string, p: nat, q: nat, m: nat)
    requires p <= q <= m < |s|
    requires ArrowMatchAt(s, m).Some?
    requires forall k :: q <= k < m ==> ArrowMatchAt(s, k).None?
    ensures SplitFrom(s, p, q)
         == [s[p..m]] + SplitFrom(s, ArrowMatchAt(s, m).value, ArrowMatchAt(s, m).value)
    decreases m - q
  {
    if q < m {
      SplitFromUpTo(s, p, q + 1, m);
    }
  }

  lemma {:induction false} SplitFromNoArrow(s: string, p: nat, q: nat)
    requires p <= q <= |s|
    requires forall k :: q <= k ==> !ArrowAt(s, k)
    ensures SplitFrom(s, p, q) == [s[p..]]
    decreases |s| - q
  {
    if q < |s| {
      assert !ArrowAt(s, q) && !ArrowAt(s, q + 1);
      SplitFromNoArrow(s, p, q + 1);
    }
  }

  /** The first match: where it starts and where it ends, given the first "=>" is at `i`. */
  function FirstMatchStart(s: string, i: nat): nat
    requires ArrowAt(s, i)
  {
    if i > 0 && IsJsSpace(s[i - 1]) then i - 1 else i
  }

  function FirstMatchEnd(s: string, i: nat): nat
    requires ArrowAt(s, i)
  {
    if i + 2 < |s| && IsJsSpace(s[i + 2]) then i + 3 else i + 2
  }

  lemma FirstMatch(s: string, i: nat)
    requires ArrowAt(s, i)
    requires forall k :: 0 <= k < i ==> !ArrowAt(s, k)
    ensures FirstMatchStart(s, i) <= i < FirstMatchEnd(s, i) <= |s|
    ensures ArrowMatchAt(s, FirstMatchStart(s, i)) == Some(FirstMatchEnd(s, i))
    ensures forall k :: 0 <= k < FirstMatchStart(s, i) ==> ArrowMatchAt(s, k).None?
  {
    var m := FirstMatchStart(s, i);
    forall k | 0 <= k < m ensures ArrowMatchAt(s, k).None? {
      assert !ArrowAt(s, k);
      if k + 1 < i {
        assert !ArrowAt(s, k + 1);
      } else {
        assert k + 1 == i && m == i;
      }
    }
  }

  /**
    The part before the first "=>" is the route's path: everything before
    the arrow, less one whitespace character if one stands right before it.
   */
  lemma SplitArrowHead(s: string, i: nat)
    requires ArrowAt(s, i)
    requires forall k :: 0 <= k < i ==> !ArrowAt(s, k)
    ensures |SplitArrow(s)| >= 2
    ensures SplitArrow(s)[0] == s[..FirstMatchStart(s, i)]
  {
    FirstMatch(s, i);
    var m := FirstMatchStart(s, i);
    var e := FirstMatchEnd(s, i);
    SplitFromUpTo(s, 0, 0, m);
    assert |SplitFrom(s, e, e)| >= 1;
  }

  /**
    With a single "=>", the split gives exactly two parts: around the arrow,
    each side losing at most one adjacent whitespace character.
   */
  lemma SplitArrowSingle(s: string, i: nat)
    requires ArrowAt(s, i)
    requires forall k :: k != i ==> !ArrowAt(s, k)
    ensures SplitArrow(s) == [s[..FirstMatchStart(s, i)], s[FirstMatchEnd(s, i)..]]
  {
    FirstMatch(s, i);
    var m := FirstMatchStart(s, i);
    var e := FirstMatchEnd(s, i);
    SplitFromUpTo(s, 0, 0, m);
    assert !ArrowAt(s, i + 1);
    SplitFromNoArrow(s, e, e);
  }

  // ---------------------------------------------------------------------
  // "module.function": `/(.*)\.(.*)$/.exec(handler)`

  function LastLineStart(s: string): (k: nat)
    ensures k <= |s|
    ensures k > 0 ==> IsLineTerminator(s[k - 1])
    ensures forall i :: k <= i < |s| ==> !IsLineTerminator(s[i])
  {
    if |s| == 0 then 0
    else if IsLineTerminator(s[|s| - 1]) then |s|
    else
      var k := LastLineStart(s[..|s| - 1]);
      assert forall i :: k <= i < |s| - 1 ==> s[i] == s[..|s| - 1][i];
      k
  }

  function LastDotFrom(s: string, lo: nat): (d: Option<nat>)
    requires lo <= |s|
    ensures d.Some? ==> lo <= d.value < |s| && s[d.value] == '.'
    ensures d.Some? ==> forall i :: d.value < i < |s| ==> s[i] != '.'
    ensures d.None? ==> forall i :: lo <= i < |s| ==> s[i] != '.'
  {
    if |s| == lo then None
    else if s[|s| - 1] == '.' then Some(|s| - 1)
    else
      var d := LastDotFrom(s[..|s| - 1], lo);
      assert forall i :: lo <= i < |s| - 1 ==> s[i] == s[..|s| - 1][i];
      d
  }

  /**
    The two groups of the handler pattern, or no match. As `.` stops at
    line terminators and `$` is the end of the input, the match lies on the
    last line; the greedy first group takes that line up to its last dot.
   */
  function MatchHandler(h: string): (r: Option<(string, string)>)
    ensures r.Some? ==> h == h[..LastLineStart(h)] + r.value.0 + "." + r.value.1
    ensures r.Some? ==> forall i :: 0 <= i < |r.value.1| ==> r.value.1[i] != '.'
    ensures r.None? <==> forall i :: LastLineStart(h) <= i < |h| ==> h[i] != '.'
  {
    var lineStart := LastLineStart(h);
    match LastDotFrom(h, lineStart)
    case None => None
    case Some(d) =>
      assert h == h[..lineStart] + h[lineStart..d] + "." + h[d + 1..];
      Some((h[lineStart..d], h[d + 1..]))
  }

  /** On a one-line handler the pattern splits at the last dot, and a handler without a dot is not matched. */
  lemma HandlerSplitsAtLastDot(h: string, d: nat)
    requires forall i :: 0 <= i < |h| ==> !IsLineTerminator(h[i])
    requires d < |h| && h[d] == '.'
    requires forall i :: d < i < |h| ==> h[i] != '.'
    ensures MatchHandler(h) == Some((h[..d], h[d + 1..]))
  {
    assert LastLineStart(h) == 0;
    var d' := LastDotFrom(h, 0).value;
    assert d' == d;
    assert h[..0] == "";
  }

  lemma HandlerWithoutDot(h: string)
    requires forall i :: 0 <= i < |h| ==> h[i] != '.'
    ensures MatchHandler(h).None?
  {
  }

  // ---------------------------------------------------------------------
  // One route

  /** A route after the text form was turned into an object: path, handler text and verb. */
  datatype RouteFields = RouteFields(path: string, handler: string, verb: Option<string>)

  /**
    The object a route stands for, or None when a text route has fewer than
    two parts. A missing handler is read as the text "undefined", which is
    what the pattern sees.
   */
  function AsRouteObject(route: RouteEntry): (r: Option<RouteFields>)
    ensures route.RouteText? ==> (r.Some? <==> exists i :: ArrowAt(route.text, i))
    ensures route.RouteText? && r.Some? ==>
      r.value == RouteFields(SplitArrow(route.text)[0], SplitArrow(route.text)[1], None)
    ensures route.RouteObject? ==>
      r.Some? && r.value.path == route.path && r.value.verb == route.httpMethod
      && (route.handler.Some? ==> r.value.handler == route.handler.value)
  {
    match route
    case RouteText(t) =>
      var parts := SplitArrow(t);
      if |parts| > 1 then Some(RouteFields(parts[0], parts[1], None)) else None
    case RouteObject(path, handler, verb) =>
      Some(RouteFields(path, match handler case Some(h) => h case None => "undefined", verb))
  }

  /** `route.method || 'GET'`. */
  function VerbOf(verb: Option<string>): (v: string)
    ensures v != ""
    ensures verb.Some? && verb.value != "" ==> v == verb.value
    ensures verb.None? || verb.value == "" ==> v == DefaultVerb
  {
    if verb.Some? && verb.value != "" then verb.value else DefaultVerb
  }

  /**
    `path.resolve(app.basePath, 'lib', module + '.js')` in working
    directory `cwd`: an absolute path free of "." and ".." under an
    absolute working directory, and an absolute module name overrides the
    base path.
   */
  function ModuleFile(cwd: string, basePath: string, moduleName: string): (f: string)
    ensures IsAbsolute(cwd) ==> f == "/" || IsNormalAbsolute(f)
    ensures IsAbsolute(moduleName) ==> f == Resolve("", [moduleName + ".js"])
  {
    var args := [basePath, "lib", moduleName + ".js"];
    assert IsAbsolute(moduleName) ==> IsAbsolute(moduleName + ".js");
    if IsAbsolute(moduleName) then
      assert args == [basePath, "lib"] + [moduleName + ".js"];
      AbsoluteLastWins(cwd, [basePath, "lib"], moduleName + ".js");
      ResolveIsNormal(cwd, args); Resolve(cwd, args)
    else if IsAbsolute(cwd) then ResolveIsNormal(cwd, args); Resolve(cwd, args)
    else Resolve(cwd, args)
  }

  /**
    What one turn of the `forEach` body yields: a handler, nothing (route
    dropped), or the error that escapes it.
   */
  function ParseOne<H>(basePath: string, route: RouteEntry, modules: Loader<H>): (r: Result<Option<RouteHandler<H>>, string>)
    ensures AsRouteObject(route).None? ==> r == Success(None)
    ensures r.Success? && r.value.Some? ==> AsRouteObject(route).Some? && r.value.value.path == AsRouteObject(route).value.path
    ensures r.Failure? ==> r.error == MeshUndefined
  {
    match AsRouteObject(route)
    case None => Success(None)
    case Some(fields) => ResolveRoute(basePath, fields, modules)
  }

  /**
    The handler pattern, then `require` of the module file, then the named
    export: the route is dropped when the pattern fails or the export is
    missing, and a module that fails to load makes the catch block throw.
   */
  function ResolveRoute<H>(basePath: string, fields: RouteFields, modules: Loader<H>): (r: Result<Option<RouteHandler<H>>, string>)
    ensures MatchHandler(fields.handler).None? ==> r == Success(None)
    ensures r.Failure? <==> (MatchHandler(fields.handler).Some?
      && modules.require(ModuleFile(modules.cwd, basePath, MatchHandler(fields.handler).value.0)).LoadError?)
    ensures r.Failure? ==> r.error == MeshUndefined
    ensures r.Success? && r.value.Some? ==>
      var m := MatchHandler(fields.handler).value;
      var load := modules.require(ModuleFile(modules.cwd, basePath, m.0));
      && load.Loaded? && m.1 in load.exports
      && r.value.value == RouteHandler(VerbOf(fields.verb), fields.path, load.exports[m.1])
  {
    match MatchHandler(fields.handler)
    case None => Success(None)
    case Some((moduleName, fnName)) =>
      match modules.require(ModuleFile(modules.cwd, basePath, moduleName))
      case LoadError(_) => Failure(MeshUndefined)
      case Loaded(exports) =>
        if fnName in exports then Success(Some(RouteHandler(VerbOf(fields.verb), fields.path, exports[fnName])))
        else Success(None)
  }

  /** A text route without "=>" is dropped. */
  lemma TextRouteWithoutArrowDropped<H>(basePath: string, t: string, modules: Loader<H>)
    requires forall i :: !ArrowAt(t, i)
    ensures ParseOne(basePath, RouteText(t), modules) == Success(None)
  {
  }

  /**
    A kept text route has the first part as its path, the verb GET, and the
    function its second part names in the module file under `lib`.
   */
  lemma TextRouteKept<H>(basePath: string, t: string, modules: Loader<H>)
    requires ParseOne(basePath, RouteText(t), modules).Success?
    requires ParseOne(basePath, RouteText(t), modules).value.Some?
    ensures var r := ParseOne(basePath, RouteText(t), modules).value.value;
      && (exists i :: ArrowAt(t, i))
      && r.path == SplitArrow(t)[0] && r.verb == DefaultVerb
      && MatchHandler(SplitArrow(t)[1]).Some?
      && var (moduleName, fnName) := MatchHandler(SplitArrow(t)[1]).value;
         && modules.require(ModuleFile(modules.cwd, basePath, moduleName)).Loaded?
         && fnName in modules.require(ModuleFile(modules.cwd, basePath, moduleName)).exports
         && r.handler == modules.require(ModuleFile(modules.cwd, basePath, moduleName)).exports[fnName]
  {
  }

  /** A route whose handler has no dot is dropped, whatever its form. */
  lemma DotlessHandlerDropped<H>(basePath: string, route: RouteEntry, modules: Loader<H>)
    requires AsRouteObject(route).Some?
    requires forall i :: 0 <= i < |AsRouteObject(route).value.handler| ==> AsRouteObject(route).value.handler[i] != '.'
    ensures ParseOne(basePath, route, modules) == Success(None)
  {
    HandlerWithoutDot(AsRouteObject(route).value.handler);
  }

  // ---------------------------------------------------------------------
  // The whole table

  /** One turn of the loop body, as a value: what a route yields. */
  type Step<H> = RouteEntry -> Result<Option<RouteHandler<H>>, string>

  /** The route table folded in order: the first escaping error ends it. */
  function Scan<H>(routes: seq<RouteEntry>, step: Step<H>): Result<seq<RouteHandler<H>>, string>
    decreases |routes|
  {
    if |routes| == 0 then Success([])
    else Extend(Scan(routes[..|routes| - 1], step), step(routes[|routes| - 1]))
  }

  /** The handlers so far, followed by what the next route yields. */
  function Extend<H>(acc: Result<seq<RouteHandler<H>>, string>, next: Result<Option<RouteHandler<H>>, string>): Result<seq<RouteHandler<H>>, string> {
    match acc
    case Failure(e) => Failure(e)
    case Success(handlers) =>
      match next
      case Failure(e) => Failure(e)
      case Success(None) => Success(handlers)
      case Success(Some(r)) => Success(handlers + [r])
  }

  lemma ScanStep<H>(routes: seq<RouteEntry>, i: nat, step: Step<H>)
    requires i < |routes|
    ensures Scan(routes[..i + 1], step) == Extend(Scan(routes[..i], step), step(routes[i]))
  {
    assert routes[..i + 1][..i] == routes[..i];
    assert routes[..i + 1][i] == routes[i];
  }

  /** Once a prefix of the table fails, the whole table fails with the same error. */
  lemma {:induction false} ScanFailureSticks<H>(routes: seq<RouteEntry>, i: nat, step: Step<H>)
    requires i <= |routes|
    requires Scan(routes[..i], step).Failure?
    ensures Scan(routes, step) == Scan(routes[..i], step)
    decreases |routes| - i
  {
    if i < |routes| {
      ScanStep(routes, i, step);
      ScanFailureSticks(routes, i + 1, step);
    } else {
      assert routes[..i] == routes;
    }
  }

  /** The indices of the routes that yield a handler, in table order. */
  ghost function Kept<H>(routes: seq<RouteEntry>, step: Step<H>): seq<nat>
    decreases |routes|
  {
    if |routes| == 0 then []
    else Kept(routes[..|routes| - 1], step) + KeptIndex(step(routes[|routes| - 1]), |routes| - 1)
  }

  ghost function KeptIndex<H>(next: Result<Option<RouteHandler<H>>, string>, i: nat): seq<nat> {
    if next.Success? && next.value.Some? then [i] else []
  }

  /** The route at `i` yields a handler. */
  ghost predicate Yields<H>(routes: seq<RouteEntry>, i: int, step: Step<H>)
    requires 0 <= i < |routes|
  {
    step(routes[i]).Success? && step(routes[i]).value.Some?
  }

  /**
    A successful scan keeps table order and holds, one for one, exactly
    the routes that yield a handler; it is never longer than the table.
   */
  lemma {:induction false} ScanKeepsYieldsInOrder<H>(routes: seq<RouteEntry>, step: Step<H>)
    requires Scan(routes, step).Success?
    ensures var out := Scan(routes, step).value;
      var idx := Kept(routes, step);
      && |idx| == |out| <= |routes|
      && (forall j :: 0 <= j < |idx| ==> idx[j] < |routes| && step(routes[idx[j]]) == Success(Some(out[j])))
      && (forall j, k :: 0 <= j < k < |idx| ==> idx[j] < idx[k])
      && (forall i :: 0 <= i < |routes| && Yields(routes, i, step) ==> i in idx)
    decreases |routes|
  {
    if |routes| > 0 {
      var n := |routes| - 1;
      var init := routes[..n];
      var last := step(routes[n]);
      assert Scan(routes, step) == Extend(Scan(init, step), last);
      assert Scan(init, step).Success?;
      ScanKeepsYieldsInOrder(init, step);
      var out0 := Scan(init, step).value;
      var idx0 := Kept(init, step);
      assert Kept(routes, step) == idx0 + KeptIndex(last, n);
      assert forall i :: 0 <= i < n ==> init[i] == routes[i];
      forall i | 0 <= i < |routes| && Yields(routes, i, step)
        ensures i in Kept(routes, step)
      {
        if i < n {
          assert Yields(init, i, step);
        }
      }
    }
  }

  /** A scan fails exactly when some route's step fails. */
  lemma {:induction false} ScanFailure<H>(routes: seq<RouteEntry>, step: Step<H>)
    ensures Scan(routes, step).Failure? <==> exists i :: 0 <= i < |routes| && step(routes[i]).Failure?
    decreases |routes|
  {
    if |routes| > 0 {
      var n := |routes| - 1;
      var init := routes[..n];
      ScanFailure(init, step);
      assert forall i :: 0 <= i < n ==> init[i] == routes[i];
      if step(routes[n]).Failure? {
        assert 0 <= n < |routes| && step(routes[n]).Failure?;
      }
      if Scan(init, step).Failure? {
        var i :| 0 <= i < n && step(init[i]).Failure?;
        assert step(routes[i]).Failure?;
      }
    }
  }

  /** The step of `_parseRoutes` for one application and one module loader. */
  function ParseStep<H>(basePath: string, modules: Loader<H>): Step<H> {
    route => ParseOne(basePath, route, modules)
  }

  /** Every error that escapes the parse is the ReferenceError of the broken catch block. */
  lemma {:induction false} ScanErrorIsMeshUndefined<H>(basePath: string, routes: seq<RouteEntry>, modules: Loader<H>)
    ensures Scan(routes, ParseStep(basePath, modules)).Failure? ==> Scan(routes, ParseStep(basePath, modules)).error == MeshUndefined
    decreases |routes|
  {
    if |routes| > 0 {
      ScanErrorIsMeshUndefined(basePath, routes[..|routes| - 1], modules);
    }
  }

  /** The parse `_parseRoutes(app)` computes; a missing table makes `forEach` throw. */
  function ParsedRoutes<H>(app: App, modules: Loader<H>): (r: Result<seq<RouteHandler<H>>, string>)
    ensures app.routes.None? ==> r == Failure(RoutesUndefined)
    ensures app.routes.Some? ==> r == Scan(app.routes.value, ParseStep(app.basePath, modules))
    ensures r.Failure? ==> r.error == RoutesUndefined || r.error == MeshUndefined
  {
    match app.routes
    case None => Failure(RoutesUndefined)
    case Some(routes) =>
      ScanErrorIsMeshUndefined(app.basePath, routes, modules);
      Scan(routes, ParseStep(app.basePath, modules))
  }

  /** `_parseRoutes`: the `forEach` over the table, pushing each resolved handler. */
  method ParseRoutes<H>(app: App, modules: Loader<H>) returns (r: Result<seq<RouteHandler<H>>, string>)
    ensures r == ParsedRoutes(app, modules)
  {
    if app.routes.None? {
      return Failure(RoutesUndefined);
    }
    var routes := app.routes.value;
    var routeHandlers: seq<RouteHandler<H>> := [];
    var i := 0;
    while i < |routes|
      invariant 0 <= i <= |routes|
      invariant Scan(routes[..i], ParseStep(app.basePath, modules)) == Success(routeHandlers)
    {
      ScanStep(routes, i, ParseStep(app.basePath, modules));
      var step := ParseOne(app.basePath, routes[i], modules);
      match step {
        case Failure(e) =>
          ScanFailureSticks(routes, i + 1, ParseStep(app.basePath, modules));
          return Failure(e);
        case Success(None) =>
        case Success(Some(route)) =>
          routeHandlers := routeHandlers + [route];
      }
      i := i + 1;
    }
    assert routes[..|routes|] == routes;
    return Success(routeHandlers);
  }

  /** A route as it is mounted: the verb lower-cased. */
  function Lowered<H>(route: RouteHandler<H>): RouteHandler<H> {
    route.(verb := LowerAscii(route.verb))
  }

  /** The routes as the router is asked to mount them: the verb lower-cased, path and handler as parsed. */
  function LowerVerbs<H>(routes: seq<RouteHandler<H>>): (r: seq<RouteHandler<H>>)
    ensures |r| == |routes|
    ensures forall i :: 0 <= i < |r| ==> r[i].path == routes[i].path && r[i].handler == routes[i].handler
    ensures forall i :: 0 <= i < |r| ==> r[i].verb == LowerAscii(routes[i].verb)
  {
    seq(|routes|, i requires 0 <= i < |routes| => Lowered(routes[i]))
  }

  /**
    What the express server holds under `instance[verb]`: a method that
    adds a route for that verb, another of its methods (`use`, `listen`,
    ...), or no function, so that calling it throws a TypeError.
   */
  datatype ServerMember = RouteVerb | OtherMethod | NotAFunction

  /**
    The outcome of the mounting loop: the routes added, the routes that
    went to some other server method instead, and the lower-cased verb
    whose call threw, if one did.
   */
  datatype Mounted<H> = Mounted(added: seq<RouteHandler<H>>, otherCalls: seq<RouteHandler<H>>, thrown: Option<string>)

  const NoMethodPrefix := "TypeError: Object #<HTTPServer> has no method '"

  /** The error a route whose verb names no server method throws. */
  function NoMethod(verb: string): string {
    NoMethodPrefix + verb + "'"
  }

  /**
    `instance[route.method.toLowerCase()](route.path, route.handler)` for
    each route in turn: the server's members decide what each call does,
    and after a call throws nothing more runs.
   */
  function MountAll<H>(members: string -> ServerMember, routes: seq<RouteHandler<H>>): Mounted<H>
    decreases |routes|
  {
    if routes == [] then Mounted([], [], None)
    else
      var m := MountAll(members, routes[..|routes| - 1]);
      var r := Lowered(routes[|routes| - 1]);
      if m.thrown.Some? then m
      else match members(r.verb)
        case RouteVerb => m.(added := m.added + [r])
        case OtherMethod => m.(otherCalls := m.otherCalls + [r])
        case NotAFunction => m.(thrown := Some(r.verb))
  }

  /** Once a call has thrown, the routes after it change nothing. */
  lemma {:induction false} MountAllSticks<H>(members: string -> ServerMember, routes: seq<RouteHandler<H>>, k: nat)
    requires k <= |routes|
    requires MountAll(members, routes[..k]).thrown.Some?
    ensures MountAll(members, routes) == MountAll(members, routes[..k])
    decreases |routes| - k
  {
    if k < |routes| {
      assert routes[..k + 1][..k] == routes[..k];
      assert MountAll(members, routes[..k + 1]) == MountAll(members, routes[..k]);
      MountAllSticks(members, routes, k + 1);
    } else {
      assert routes[..k] == routes;
    }
  }

  /** When every verb names a route method, every route is added, lower-cased and in order, and nothing throws. */
  lemma {:induction false} MountAllRouteVerbs<H>(members: string -> ServerMember, routes: seq<RouteHandler<H>>)
    requires forall i :: 0 <= i < |routes| ==> members(LowerAscii(routes[i].verb)) == RouteVerb
    ensures MountAll(members, routes) == Mounted(LowerVerbs(routes), [], None)
    decreases |routes|
  {
    if routes != [] {
      var init := routes[..|routes| - 1];
      MountAllRouteVerbs(members, init);
      assert LowerVerbs(routes) == LowerVerbs(init) + [Lowered(routes[|routes| - 1])];
    }
  }

  /**
    The loop throws exactly when some verb names no server method; the
    verb reported is that of the first such route, and every route
    before it was a function call.
   */
  lemma {:induction false} MountAllThrows<H>(members: string -> ServerMember, routes: seq<RouteHandler<H>>)
    ensures MountAll(members, routes).thrown.Some? <==>
      exists k :: 0 <= k < |routes| && members(LowerAscii(routes[k].verb)) == NotAFunction
    ensures MountAll(members, routes).thrown.Some? ==>
      exists k :: 0 <= k < |routes| && members(LowerAscii(routes[k].verb)) == NotAFunction
        && MountAll(members, routes).thrown.value == LowerAscii(routes[k].verb)
        && forall j :: 0 <= j < k ==> members(LowerAscii(routes[j].verb)) != NotAFunction
    decreases |routes|
  {
    if routes != [] {
      var n := |routes| - 1;
      var init := routes[..n];
      MountAllThrows(members, init);
      assert forall j :: 0 <= j < n ==> init[j] == routes[j];
      if MountAll(members, init).thrown.Some? {
        var k :| 0 <= k < n && members(LowerAscii(init[k].verb)) == NotAFunction
          && MountAll(members, init).thrown.value == LowerAscii(init[k].verb)
          && forall j :: 0 <= j < k ==> members(LowerAscii(init[j].verb)) != NotAFunction;
        assert members(LowerAscii(routes[k].verb)) == NotAFunction;
      } else if members(LowerAscii(routes[n].verb)) == NotAFunction {
        assert forall j :: 0 <= j < n ==> members(LowerAscii(routes[j].verb)) != NotAFunction;
      }
    }
  }

  /** The express server: its members, the routes added to it, and the calls that went to its other methods. */
  class Router<H> {
    const members: string -> ServerMember
    var registered: seq<RouteHandler<H>>
    var otherCalls: seq<RouteHandler<H>>

    constructor (members: string -> ServerMember)
      ensures this.members == members
      ensures registered == [] && otherCalls == []
    {
      this.members := members;
      registered := [];
      otherCalls := [];
    }

    /** The registration loop of the module's export; a call that throws ends it. */
    method Mount(routes: seq<RouteHandler<H>>) returns (thrown: Option<string>)
      modifies this
      ensures registered == old(registered) + MountAll(members, routes).added
      ensures otherCalls == old(otherCalls) + MountAll(members, routes).otherCalls
      ensures thrown == MountAll(members, routes).thrown
    {
      var i := 0;
      while i < |routes|
        invariant 0 <= i <= |routes|
        invariant MountAll(members, routes[..i]).thrown.None?
        invariant registered == old(registered) + MountAll(members, routes[..i]).added
        invariant otherCalls == old(otherCalls) + MountAll(members, routes[..i]).otherCalls
      {
        var r := Lowered(routes[i]);
        assert routes[..i + 1][..i] == routes[..i];
        match members(r.verb) {
          case RouteVerb =>
            registered := registered + [r];
          case OtherMethod =>
            otherCalls := otherCalls + [r];
          case NotAFunction =>
            MountAllSticks(members, routes, i + 1);
            return Some(r.verb);
        }
        i := i + 1;
      }
      assert routes[..|routes|] == routes;
      return None;
    }
  }

  /**
    The module's export: a fresh server with the parsed routes mounted,
    handed to the callback. An error that escapes the parse or a call of
    a verb the server lacks means no callback.
   */
  method CreateServer<H>(app: App, modules: Loader<H>, members: string -> ServerMember) returns (r: Result<Router<H>, string>)
    ensures ParsedRoutes(app, modules).Failure? ==> r == Failure(ParsedRoutes(app, modules).error)
    ensures ParsedRoutes(app, modules).Success? && MountAll(members, ParsedRoutes(app, modules).value).thrown.Some? ==>
      r == Failure(NoMethod(MountAll(members, ParsedRoutes(app, modules).value).thrown.value))
    ensures ParsedRoutes(app, modules).Success? && MountAll(members, ParsedRoutes(app, modules).value).thrown.None? ==>
      r.Success? && fresh(r.value) && r.value.members == members
      && r.value.registered == MountAll(members, ParsedRoutes(app, modules).value).added
      && r.value.otherCalls == MountAll(members, ParsedRoutes(app, modules).value).otherCalls
  {
    var instance := new Router<H>(members);
    var parsed := ParseRoutes(app, modules);
    match parsed {
      case Failure(e) =>
        return Failure(e);
      case Success(routes) =>
        var thrown := instance.Mount(routes);
        if thrown.Some? {
          return Failure(NoMethod(thrown.value));
        }
        return Success(instance);
    }
  }
}
