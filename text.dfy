/**
  The string operations the JavaScript code relies on: `slice`, the
  trailing-slash strip `replace(/\/$/, '')`, `toLowerCase`, and the `\s`
  class of regular expressions.
 */
module Text {

  /** `s` begins with `p`. */
  predicate HasPrefix(s: string, p: string) {
    |p| <= |s| && s[..|p|] == p
  }

  /** `s.slice(0, k)` for a non-negative `k`. */
  function SliceTo(s: string, k: nat): (r: string)
    ensures |r| == if k < |s| then k else |s|
    ensures HasPrefix(s, r)
  {
    if k < |s| then s[..k] else s
  }

  /** `s.slice(k)` for a non-negative `k`. */
  function SliceFrom(s: string, k: nat): (r: string)
    ensures k <= |s| ==> s == s[..k] + r
    ensures k >= |s| ==> r == ""
  {
    if k < |s| then s[k..] else ""
  }

  /** The code's prefix test `s.slice(0, p.length) === p` is exactly "s begins with p". */
  lemma SlicePrefixTest(s: string, p: string)
    ensures (SliceTo(s, |p|) == p) <==> HasPrefix(s, p)
  {
    if |p| > |s| {
      assert |SliceTo(s, |p|)| < |p|;
    }
  }

  /** `s.replace(/\/$/, '')`: one trailing slash, if any, is removed. */
  function TrimTrailingSlash(s: string): (r: string)
    ensures s == r || s == r + "/"
    ensures |s| > 0 && s[|s| - 1] == '/' <==> s == r + "/"
  {
    if |s| > 0 && s[|s| - 1] == '/' then s[..|s| - 1] else s
  }

  /**
    `url.replace(/\/$/, '') + '/' + name`: the address of database `name`
    on the server at `url`, whichever way `url` was written.
   */
  function DbUrl(url: string, name: string): (r: string)
    ensures |r| > |name| && r[|r| - |name|..] == name && r[|r| - |name| - 1] == '/'
    ensures var server := r[..|r| - |name| - 1]; url == server || url == server + "/"
  {
    TrimTrailingSlash(url) + "/" + name
  }

  /** Whether the server address is written with or without its slash, the database address is the same. */
  lemma DbUrlIgnoresTrailingSlash(url: string, name: string)
    requires |url| == 0 || url[|url| - 1] != '/'
    ensures DbUrl(url + "/", name) == DbUrl(url, name) == url + "/" + name
  {
    assert (url + "/")[..|url + "/"| - 1] == url;
  }

  /** Only one slash is removed: a doubled trailing slash keeps one of its two. */
  lemma DbUrlStripsOneSlash(url: string, name: string)
    ensures DbUrl(url + "//", name) == url + "//" + name
  {
    assert (url + "//")[..|url + "//"| - 1] == url + "/";
  }

  /** Lower case of an ASCII letter; every other character is left alone. */
  function LowerChar(c: char): (r: char)
    ensures 'A' <= c <= 'Z' ==> r as int == c as int + 32
    ensures !('A' <= c <= 'Z') ==> r == c
  {
    if 'A' <= c <= 'Z' then (c as int + 32) as char else c
  }

  /** `s.toLowerCase()` over ASCII letters. */
  function LowerAscii(s: string): (r: string)
    ensures |r| == |s|
    ensures forall i :: 0 <= i < |s| ==> r[i] == LowerChar(s[i])
  {
    seq(|s|, i requires 0 <= i < |s| => LowerChar(s[i]))
  }

  /** The characters `\s` matches in a JavaScript regular expression. */
  predicate IsJsSpace(c: char) {
    c == ' ' || c == '\t' || c == '\n' || c == '\r' || c == '\U{B}' || c == '\U{C}'
    || c == '\U{A0}' || c == '\U{1680}' || ('\U{2000}' <= c <= '\U{200A}')
    || c == '\U{2028}' || c == '\U{2029}' || c == '\U{202F}' || c == '\U{205F}'
    || c == '\U{3000}' || c == '\U{FEFF}'
  }

  /** The characters `.` refuses to match in a JavaScript regular expression. */
  predicate IsLineTerminator(c: char) {
    c == '\n' || c == '\r' || c == '\U{2028}' || c == '\U{2029}'
  }
}
