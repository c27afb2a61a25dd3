/**
  The POSIX `path` functions of the Node.js releases that still offer
  `path.exists` (0.6 and 0.8): `join`, `normalize` and `resolve`. A path
  is split at '/', empty and "." segments are dropped, ".." removes the
  segment before it, and the rest is joined again with '/'.
 */
module Paths {
  import opened Text

  /** `s.split('/')`. */
  function Split(s: string): (segs: seq<string>)
    ensures |segs| >= 1
    decreases |s|
  {
    if s == "" then [""]
    else
      var init := Split(s[..|s| - 1]);
      var c := s[|s| - 1];
      if c == '/' then init + [""]
      else init[..|init| - 1] + [init[|init| - 1] + [c]]
  }

  /** `segs.join('/')`. */
  function JoinSegs(segs: seq<string>): string
    decreases |segs|
  {
    if |segs| == 0 then ""
    else if |segs| == 1 then segs[0]
    else JoinSegs(segs[..|segs| - 1]) + "/" + segs[|segs| - 1]
  }

  /** One more segment is joined on with one separator. */
  lemma JoinSegsSnoc(segs: seq<string>, x: string)
    requires |segs| >= 1
    ensures JoinSegs(segs + [x]) == JoinSegs(segs) + "/" + x
  {
    assert (segs + [x])[..|segs|] == segs;
  }

  /** A character that is not a separator extends the last segment. */
  lemma JoinSegsExtendLast(segs: seq<string>, c: char)
    requires |segs| >= 1
    ensures JoinSegs(segs[..|segs| - 1] + [segs[|segs| - 1] + [c]]) == JoinSegs(segs) + [c]
  {
    var k := |segs| - 1;
    var longer := segs[..k] + [segs[k] + [c]];
    if k > 0 {
      assert longer[..k] == segs[..k];
      assert JoinSegs(longer) == JoinSegs(segs[..k]) + "/" + (segs[k] + [c]);
      assert JoinSegs(segs) == JoinSegs(segs[..k]) + "/" + segs[k];
    } else {
      assert longer == [segs[0] + [c]];
    }
  }

  /** Splitting at the separators and joining them again gives the path back. */
  lemma {:induction false} JoinSplit(s: string)
    ensures JoinSegs(Split(s)) == s
    decreases |s|
  {
    if s != "" {
      var p := s[..|s| - 1];
      var c := s[|s| - 1];
      assert s == p + [c];
      var init := Split(p);
      JoinSplit(p);
      if c == '/' {
        assert Split(s) == init + [""];
        JoinSegsSnoc(init, "");
      } else {
        assert Split(s) == init[..|init| - 1] + [init[|init| - 1] + [c]];
        JoinSegsExtendLast(init, c);
      }
    }
  }

  /** One more character either starts a new segment or extends the last one. */
  lemma SplitAppend(s: string, c: char)
    ensures var init := Split(s);
      Split(s + [c]) == if c == '/' then init + [""] else init[..|init| - 1] + [init[|init| - 1] + [c]]
  {
    assert (s + [c])[..|s|] == s;
  }

  /** Extending the last element of a concatenation extends the last element of its second part. */
  lemma ExtendLastOfConcat(xs: seq<string>, ys: seq<string>, c: char)
    requires |ys| >= 1
    ensures var zs := xs + ys;
      zs[..|zs| - 1] + [zs[|zs| - 1] + [c]] == xs + (ys[..|ys| - 1] + [ys[|ys| - 1] + [c]])
  {
  }

  /** A text without a separator is a single segment. */
  lemma {:induction false} SplitSegment(x: string)
    requires '/' !in x
    ensures Split(x) == [x]
    decreases |x|
  {
    if x != "" {
      var x' := x[..|x| - 1];
      assert forall c :: c in x' ==> c in x;
      SplitSegment(x');
      assert x' + [x[|x| - 1]] == x;
      SplitAppend(x', x[|x| - 1]);
    }
  }

  /** When `s` splits into `front` followed by the segments of `b`, a separator more on both keeps that so. */
  lemma SplitSuffixSlash(s: string, front: seq<string>, b: string)
    requires Split(s) == front + Split(b)
    ensures Split(s + ['/']) == front + Split(b + ['/'])
  {
    SplitAppend(s, '/');
    SplitAppend(b, '/');
    assert Split(s + ['/']) == (front + Split(b)) + [""];
    assert Split(b + ['/']) == Split(b) + [""];
  }

  /** The same for a character other than a separator, which extends the last segment on both. */
  lemma SplitSuffixChar(s: string, front: seq<string>, b: string, c: char)
    requires c != '/'
    requires Split(s) == front + Split(b)
    ensures Split(s + [c]) == front + Split(b + [c])
  {
    SplitAppend(s, c);
    SplitAppend(b, c);
    ExtendLastOfConcat(front, Split(b), c);
  }

  /** The segments of two paths joined by a separator are the segments of each. */
  lemma {:induction false} SplitConcat(a: string, b: string)
    ensures Split(a + "/" + b) == Split(a) + Split(b)
    decreases |b|
  {
    if b == "" {
      assert a + "/" + b == a + ['/'];
      SplitAppend(a, '/');
    } else {
      var b' := b[..|b| - 1];
      var c := b[|b| - 1];
      SplitConcat(a, b');
      assert b' + [c] == b;
      assert (a + "/" + b') + [c] == a + "/" + b;
      if c == '/' {
        SplitSuffixSlash(a + "/" + b', Split(a), b');
      } else {
        SplitSuffixChar(a + "/" + b', Split(a), b', c);
      }
    }
  }

  /** A path with a segment appended splits into the old segments and that one. */
  lemma SplitSnocSegment(a: string, x: string)
    requires '/' !in x
    ensures Split(a + "/" + x) == Split(a) + [x]
  {
    SplitConcat(a, x);
    SplitSegment(x);
  }

  /** Joining segments free of separators and splitting the result gives the segments back. */
  lemma {:induction false} SplitJoin(segs: seq<string>)
    requires |segs| >= 1
    requires forall i :: 0 <= i < |segs| ==> '/' !in segs[i]
    ensures Split(JoinSegs(segs)) == segs
    decreases |segs|
  {
    if |segs| == 1 {
      SplitSegment(segs[0]);
    } else {
      var init := segs[..|segs| - 1];
      SplitJoin(init);
      SplitSnocSegment(JoinSegs(init), segs[|segs| - 1]);
      assert init + [segs[|segs| - 1]] == segs;
    }
  }

  /** An ordinary path segment: not empty, not "." or "..", and free of separators. */
  predicate IsName(x: string) {
    x != "" && x != "." && x != ".." && '/' !in x
  }

  /**
    `normalizeArray(parts, allowAboveRoot)`: the segments left after
    dropping "" and "." and letting each ".." remove the name before it.
    A ".." with nothing to remove is kept only when `aboveRoot` holds.
   */
  function Fold(segs: seq<string>, aboveRoot: bool): seq<string>
    decreases |segs|
  {
    if segs == [] then []
    else
      var acc := Fold(segs[..|segs| - 1], aboveRoot);
      var s := segs[|segs| - 1];
      if s == "" || s == "." then acc
      else if s == ".." then
        if |acc| > 0 && acc[|acc| - 1] != ".." then acc[..|acc| - 1]
        else if aboveRoot then acc + [".."]
        else acc
      else acc + [s]
  }

  /** A name after the segments reached so far is kept as it is. */
  lemma FoldSnocName(segs: seq<string>, aboveRoot: bool, x: string)
    requires IsName(x)
    ensures Fold(segs + [x], aboveRoot) == Fold(segs, aboveRoot) + [x]
  {
    assert (segs + [x])[..|segs|] == segs;
  }

  /** Names after any prefix are kept as they are. */
  lemma {:induction false} FoldNames(prefix: seq<string>, names: seq<string>, aboveRoot: bool)
    requires forall i :: 0 <= i < |names| ==> IsName(names[i])
    ensures Fold(prefix + names, aboveRoot) == Fold(prefix, aboveRoot) + names
    decreases |names|
  {
    if |names| > 0 {
      var init := names[..|names| - 1];
      var x := names[|names| - 1];
      var a := prefix + init;
      FoldNames(prefix, init, aboveRoot);
      assert names == init + [x];
      assert prefix + names == a + [x];
      FoldSnocName(a, aboveRoot, x);
    } else {
      assert prefix + names == prefix;
    }
  }

  /** No segment of a path holds a separator. */
  lemma {:induction false} SplitHasNoSeparator(s: string)
    ensures forall i :: 0 <= i < |Split(s)| ==> '/' !in Split(s)[i]
    decreases |s|
  {
    if s != "" {
      var p := s[..|s| - 1];
      var c := s[|s| - 1];
      SplitHasNoSeparator(p);
      var init := Split(p);
      if c != '/' {
        var k := |init| - 1;
        assert forall d :: d in init[k] + [c] ==> d in init[k] || d == c;
      }
    }
  }

  /** A segment `Fold` may keep: not empty, not ".", and one of its input's segments or "..". */
  predicate KeptFrom(x: string, segs: seq<string>) {
    x != "" && x != "." && (x == ".." || x in segs)
  }

  /**
    `Fold` keeps no empty or "." segment, nothing but segments of its input
    and "..", and no ".." at all when it may not climb above the root.
   */
  lemma {:induction false} FoldShape(segs: seq<string>, aboveRoot: bool)
    ensures forall i :: 0 <= i < |Fold(segs, aboveRoot)| ==> KeptFrom(Fold(segs, aboveRoot)[i], segs)
    ensures !aboveRoot ==> forall i :: 0 <= i < |Fold(segs, aboveRoot)| ==> Fold(segs, aboveRoot)[i] != ".."
    decreases |segs|
  {
    if segs != [] {
      var init := segs[..|segs| - 1];
      var acc := Fold(init, aboveRoot);
      var x := segs[|segs| - 1];
      var r := Fold(segs, aboveRoot);
      FoldShape(init, aboveRoot);
      assert forall y :: y in init ==> y in segs;
      assert x in segs;
      forall i | 0 <= i < |r|
        ensures KeptFrom(r[i], segs)
        ensures !aboveRoot ==> r[i] != ".."
      {
        if i < |acc| {
          assert r[i] == acc[i];
          assert KeptFrom(acc[i], init);
        } else {
          assert r[i] == x;
        }
      }
    }
  }

  /** The segments `Fold` keeps of a path hold no separator. */
  lemma FoldOfSplit(s: string, aboveRoot: bool)
    ensures forall i :: 0 <= i < |Fold(Split(s), aboveRoot)| ==>
      var x := Fold(Split(s), aboveRoot)[i]; x != "" && x != "." && '/' !in x
    ensures !aboveRoot ==> forall i :: 0 <= i < |Fold(Split(s), aboveRoot)| ==> IsName(Fold(Split(s), aboveRoot)[i])
  {
    var segs := Split(s);
    var r := Fold(segs, aboveRoot);
    SplitHasNoSeparator(s);
    FoldShape(segs, aboveRoot);
    forall i | 0 <= i < |r|
      ensures '/' !in r[i]
    {
      assert KeptFrom(r[i], segs);
      if r[i] != ".." {
        var j :| 0 <= j < |segs| && segs[j] == r[i];
      }
    }
  }

  /** A path starting at the root. */
  predicate IsAbsolute(p: string) {
    |p| > 0 && p[0] == '/'
  }

  /** The path ends in a separator. */
  predicate HasTrailingSlash(p: string) {
    |p| > 0 && p[|p| - 1] == '/'
  }

  /** `path.normalize(p)`. */
  function Normalize(p: string): string {
    var abs := IsAbsolute(p);
    var body := JoinSegs(Fold(Split(p), !abs));
    var dotted := if body == "" && !abs then "." else body;
    var trailed := if dotted != "" && HasTrailingSlash(p) then dotted + "/" else dotted;
    (if abs then "/" else "") + trailed
  }

  /** `path.join(a, b)`: the non-empty arguments joined with '/', then normalised. */
  function Join(a: string, b: string): string {
    Normalize(if a == "" then b else if b == "" then a else a + "/" + b)
  }

  /**
    The reference meaning of putting the file `name` in directory `dir`:
    the name after the normal form of the directory without its trailing
    separator, or the name alone when the directory is the current one.
   */
  function InDirectory(dir: string, name: string): string {
    var d := TrimTrailingSlash(Normalize(dir));
    if d == "." then name else d + "/" + name
  }

  /** The first character of joined segments is that of the first segment. */
  lemma {:induction false} JoinSegsHead(segs: seq<string>)
    requires |segs| >= 1 && segs[0] != ""
    ensures |JoinSegs(segs)| > 0 && JoinSegs(segs)[0] == segs[0][0]
    decreases |segs|
  {
    if |segs| > 1 {
      JoinSegsHead(segs[..|segs| - 1]);
    }
  }

  /** The last character of joined segments is that of the last segment. */
  lemma JoinSegsLast(segs: seq<string>)
    requires |segs| >= 1 && segs[|segs| - 1] != ""
    ensures |JoinSegs(segs)| > 0 && JoinSegs(segs)[|JoinSegs(segs)| - 1] == segs[|segs| - 1][|segs[|segs| - 1]| - 1]
  {
  }

  /** Joined non-empty segments equal "." only when there is the one segment ".". */
  lemma JoinSegsDot(segs: seq<string>)
    requires |segs| >= 1
    requires forall i :: 0 <= i < |segs| ==> segs[i] != ""
    ensures JoinSegs(segs) == "." ==> segs == ["."]
  {
    if |segs| > 1 {
      var init := segs[..|segs| - 1];
      JoinSegsHead(init);
      assert |JoinSegs(segs)| >= 3;
    }
  }

  /** The segments `normalize` keeps of `p`. */
  function KeptSegments(p: string): seq<string> {
    Fold(Split(p), !IsAbsolute(p))
  }

  /** The empty path normalises to the current directory. */
  lemma NormalizeEmpty()
    ensures Normalize("") == "."
  {
    assert Split("") == [""];
    assert [""][..0] == [];
    assert Fold([""], true) == [];
  }

  /** An ordinary name is its own normal form. */
  lemma NormalizeName(name: string)
    requires IsName(name)
    ensures Normalize(name) == name
  {
    SplitSegment(name);
    FoldSnocName([], true, name);
    assert [] + [name] == [name];
    assert name[|name| - 1] in name;
  }

  /** Without its trailing separator, the normal form of a non-empty path is its kept segments joined. */
  lemma TrimNormalize(p: string)
    requires p != ""
    ensures var x := KeptSegments(p);
      TrimTrailingSlash(Normalize(p))
      == if x == [] then (if IsAbsolute(p) then "" else ".") else (if IsAbsolute(p) then "/" else "") + JoinSegs(x)
    ensures KeptSegments(p) != [] ==> TrimTrailingSlash(Normalize(p)) != "."
  {
    var x := KeptSegments(p);
    FoldOfSplit(p, !IsAbsolute(p));
    if x != [] {
      JoinSegsLast(x);
      var last := x[|x| - 1];
      assert last[|last| - 1] in last;
      JoinSegsDot(x);
    }
  }

  /** Appending an ordinary name to a non-empty path appends it to the kept segments. */
  lemma NormalizeAppendName(dir: string, name: string)
    requires dir != "" && IsName(name)
    ensures var x := KeptSegments(dir);
      Normalize(dir + "/" + name)
      == (if IsAbsolute(dir) then "/" else "") + (if x == [] then name else JoinSegs(x) + "/" + name)
  {
    var p := dir + "/" + name;
    var abs := IsAbsolute(dir);
    assert IsAbsolute(p) == abs;
    assert !HasTrailingSlash(p) by {
      assert p[|p| - 1] == name[|name| - 1];
      assert name[|name| - 1] in name;
    }
    SplitSnocSegment(dir, name);
    FoldSnocName(Split(dir), !abs, name);
    var x := KeptSegments(dir);
    assert KeptSegments(p) == x + [name];
    if x == [] {
      assert x + [name] == [name];
    } else {
      JoinSegsSnoc(x, name);
    }
  }

  /** A name joined to the empty directory is the name. */
  lemma JoinNameToEmpty(name: string)
    requires IsName(name)
    ensures Join("", name) == InDirectory("", name) == name
  {
    NormalizeEmpty();
    NormalizeName(name);
    assert TrimTrailingSlash(".") == ".";
  }

  /** Two non-empty arguments are joined with one separator before normalising. */
  lemma JoinNonEmpty(a: string, b: string)
    requires a != "" && b != ""
    ensures Join(a, b) == Normalize(a + "/" + b)
  {
  }

  /** Below a directory that is not the current one, a name goes after one separator. */
  lemma InDirectoryBelow(dir: string, name: string)
    requires TrimTrailingSlash(Normalize(dir)) != "."
    ensures InDirectory(dir, name) == TrimTrailingSlash(Normalize(dir)) + "/" + name
  {
  }

  /** With some segments kept, the name goes after the directory's normal form without its trailing separator. */
  lemma NormalizeAppendKeptSegments(dir: string, name: string)
    requires dir != "" && IsName(name) && KeptSegments(dir) != []
    ensures Normalize(dir + "/" + name) == TrimTrailingSlash(Normalize(dir)) + "/" + name
    ensures TrimTrailingSlash(Normalize(dir)) != "."
  {
    NormalizeAppendName(dir, name);
    TrimNormalize(dir);
  }

  /** A name joined to a directory that keeps some segments follows those segments. */
  lemma JoinNameToSegments(dir: string, name: string)
    requires dir != "" && IsName(name) && KeptSegments(dir) != []
    ensures Join(dir, name) == InDirectory(dir, name)
  {
    JoinNonEmpty(dir, name);
    NormalizeAppendKeptSegments(dir, name);
    InDirectoryBelow(dir, name);
  }

  /** A name joined to a directory that keeps no segment is the name, under the root when the directory is absolute. */
  lemma JoinNameToTop(dir: string, name: string)
    requires dir != "" && IsName(name) && KeptSegments(dir) == []
    ensures Join(dir, name) == InDirectory(dir, name) == (if IsAbsolute(dir) then "/" else "") + name
  {
    assert Join(dir, name) == Normalize(dir + "/" + name);
    NormalizeAppendName(dir, name);
    TrimNormalize(dir);
  }

  /**
    Joining a directory and an ordinary file name puts the name in the
    normal form of the directory: "" and "a/.." give the bare name, "/"
    gives "/name", and "apps/a/" gives "apps/a/name".
   */
  lemma JoinName(dir: string, name: string)
    requires IsName(name)
    ensures Join(dir, name) == InDirectory(dir, name)
  {
    if dir == "" {
      JoinNameToEmpty(name);
    } else if KeptSegments(dir) == [] {
      JoinNameToTop(dir, name);
    } else {
      JoinNameToSegments(dir, name);
    }
  }

  /**
    The path `resolve` normalises, and whether it is absolute: the
    arguments from the last absolute one on, each followed by '/'; when
    none is absolute the working directory `cwd` is put in front.
   */
  function Gather(cwd: string, args: seq<string>): (g: (string, bool))
    decreases |args|
  {
    if args == [] then (if cwd == "" then ("", false) else (cwd + "/", IsAbsolute(cwd)))
    else
      var last := args[|args| - 1];
      if last == "" then Gather(cwd, args[..|args| - 1])
      else if IsAbsolute(last) then (last + "/", true)
      else
        var g := Gather(cwd, args[..|args| - 1]);
        (g.0 + last + "/", g.1)
  }

  /** `path.resolve(args...)` with `process.cwd()` given as `cwd`. */
  function Resolve(cwd: string, args: seq<string>): string {
    var g := Gather(cwd, args);
    var body := JoinSegs(Fold(Split(g.0), !g.1));
    var r := (if g.1 then "/" else "") + body;
    if r == "" then "." else r
  }

  /** The gathered path is absolute exactly when the working directory or some argument is. */
  lemma {:induction false} GatherAbsolute(cwd: string, args: seq<string>)
    ensures Gather(cwd, args).1 <==> IsAbsolute(cwd) || exists i :: 0 <= i < |args| && IsAbsolute(args[i])
    ensures Gather(cwd, args).1 ==> IsAbsolute(Gather(cwd, args).0)
    decreases |args|
  {
    if args != [] {
      var init := args[..|args| - 1];
      GatherAbsolute(cwd, init);
      assert forall i :: 0 <= i < |init| ==> init[i] == args[i];
      var last := args[|args| - 1];
      if IsAbsolute(last) {
        assert IsAbsolute(args[|args| - 1]);
      } else if exists i :: 0 <= i < |args| && IsAbsolute(args[i]) {
        var i :| 0 <= i < |args| && IsAbsolute(args[i]);
        assert i < |init| && IsAbsolute(init[i]);
      }
    }
  }

  /**
    `resolve` gives an absolute path exactly when the working directory or
    one of the arguments is absolute; `process.cwd()` always is.
   */
  lemma ResolveAbsolute(cwd: string, args: seq<string>)
    ensures IsAbsolute(Resolve(cwd, args)) <==> IsAbsolute(cwd) || exists i :: 0 <= i < |args| && IsAbsolute(args[i])
  {
    GatherAbsolute(cwd, args);
    var g := Gather(cwd, args);
    var x := Fold(Split(g.0), !g.1);
    FoldOfSplit(g.0, !g.1);
    if !g.1 && |x| > 0 {
      JoinSegsHead(x);
      assert x[0][0] in x[0];
    }
  }

  /** An absolute last argument decides the result alone: the directories before it do not matter. */
  lemma AbsoluteLastWins(cwd: string, args: seq<string>, file: string)
    requires IsAbsolute(file)
    ensures Resolve(cwd, args + [file]) == Resolve("", [file])
  {
    assert (args + [file])[|args|] == file;
  }

  /** A path that starts at the root and continues with ordinary names only. */
  predicate IsNormalAbsolute(p: string) {
    IsAbsolute(p) && forall i :: 0 <= i < |Split(p[1..])| ==> IsName(Split(p[1..])[i])
  }

  /**
    When the working directory or an argument is absolute, `resolve` gives
    the root or the root followed by ordinary names: no empty, "." or ".."
    segment is left.
   */
  lemma ResolveIsNormal(cwd: string, args: seq<string>)
    requires IsAbsolute(cwd) || exists i :: 0 <= i < |args| && IsAbsolute(args[i])
    ensures Resolve(cwd, args) == "/" || IsNormalAbsolute(Resolve(cwd, args))
  {
    GatherAbsolute(cwd, args);
    var g := Gather(cwd, args);
    var x := Fold(Split(g.0), false);
    FoldOfSplit(g.0, false);
    var r := Resolve(cwd, args);
    if |x| > 0 {
      assert r[1..] == JoinSegs(x);
      SplitJoin(x);
    }
  }

  /** A path below the root splits into an empty first segment and the segments of the rest. */
  lemma SplitRooted(q: string)
    ensures Split("/" + q) == [""] + Split(q)
  {
    SplitConcat("", q);
    assert "" + "/" + q == "/" + q;
  }

  /** A normal absolute path is its own normal form. */
  lemma NormalizeNormalAbsolute(p: string)
    requires IsNormalAbsolute(p)
    ensures Normalize(p) == p
    ensures TrimTrailingSlash(p) == p
  {
    var q := p[1..];
    assert p == "/" + q;
    SplitRooted(q);
    var names := Split(q);
    FoldNames([""], names, false);
    assert [""][..0] == [];
    assert Fold([""], false) == [];
    assert Fold(Split(p), false) == names;
    JoinSplit(q);
    var last := names[|names| - 1];
    assert IsName(last);
    JoinSegsLast(names);
    assert last[|last| - 1] in last;
    assert p[|p| - 1] == q[|q| - 1];
  }

  /** A name joined to a normal absolute directory goes after one separator. */
  lemma JoinNormalAbsolute(dir: string, name: string)
    requires IsNormalAbsolute(dir) && IsName(name)
    ensures Join(dir, name) == dir + "/" + name
  {
    JoinName(dir, name);
    NormalizeNormalAbsolute(dir);
  }
}
