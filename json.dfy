/**
  JSON values as JavaScript sees them once `JSON.parse` has produced them:
  truthiness, reading a property, coercion to a string (as `'a' + x` does)
  and the key/value pairs that underscore's `_.each` visits.
  Objects are member lists in enumeration order; numbers are integers.
 */
module Json {
  import opened Wrappers

  datatype Json =
    | JNull
    | JBool(b: bool)
    | JNum(n: int)
    | JStr(s: string)
    | JArr(items: seq<Json>)
    | JObj(members: seq<(string, Json)>)

  /** JavaScript truthiness: null, false, 0 and "" are falsy, everything else is truthy. */
  predicate Truthy(j: Json) {
    match j
    case JNull => false
    case JBool(b) => b
    case JNum(n) => n != 0
    case JStr(s) => s != ""
    case _ => true
  }

  /** The value of the first member named `key`, if there is one. */
  function Lookup(members: seq<(string, Json)>, key: string): (r: Option<Json>)
    ensures r.Some? <==> exists i :: 0 <= i < |members| && members[i].0 == key
    ensures r.Some? ==> exists i :: 0 <= i < |members| && members[i] == (key, r.value)
  {
    if |members| == 0 then None
    else if members[0].0 == key then Some(members[0].1)
    else
      var r := Lookup(members[1..], key);
      assert forall i :: 1 <= i < |members| ==> members[i] == members[1..][i - 1];
      r
  }

  /**
    `j.key` for a value that is not null and a key the code reads
    (`steelmesh`, `scheme`, `couchdb`, `onChange`, ...): only objects have
    such members of their own, so on every other value the read yields
    `undefined` (None). Keys such as `length` or the names an object
    inherits are outside this model.
   */
  function Get(j: Json, key: string): (r: Option<Json>)
    ensures r.Some? ==> j.JObj?
  {
    match j
    case JObj(members) => Lookup(members, key)
    case _ => None
  }

  /** `x1 && x1.key`, read as a truthy value or nothing. */
  function TruthyMember(j: Json, key: string): (r: Option<Json>)
    ensures r.Some? ==> Truthy(r.value) && Get(j, key) == r
    ensures r.None? ==> Get(j, key).None? || !Truthy(Get(j, key).value)
  {
    match Get(j, key)
    case Some(v) => if Truthy(v) then Some(v) else None
    case None => None
  }

  /** One decimal digit. */
  function DigitChar(d: nat): (c: char)
    requires d < 10
    ensures '0' <= c <= '9'
  {
    ['0', '1', '2', '3', '4', '5', '6', '7', '8', '9'][d]
  }

  /** The decimal numeral of `n`, as `String(n)` writes it. */
  function NatToDecimal(n: nat): (s: string)
    ensures |s| > 0
    ensures forall i :: 0 <= i < |s| ==> '0' <= s[i] <= '9'
  {
    if n < 10 then [DigitChar(n)] else NatToDecimal(n / 10) + [DigitChar(n % 10)]
  }

  /** `parts[0] + sep + parts[1] + ...`, as `Array.prototype.join` builds it. */
  function JoinWith(parts: seq<string>, sep: string): string {
    if |parts| == 0 then ""
    else if |parts| == 1 then parts[0]
    else parts[0] + sep + JoinWith(parts[1..], sep)
  }

  /**
    `String(j)`: the text that string concatenation makes of a value.
    Arrays join their elements with ",", null elements becoming "";
    every object prints as "[object Object]".
   */
  function ToText(j: Json): (s: string)
    ensures j.JStr? ==> s == j.s
    decreases j
  {
    match j
    case JNull => "null"
    case JBool(b) => if b then "true" else "false"
    case JNum(n) => if n < 0 then "-" + NatToDecimal(-n) else NatToDecimal(n)
    case JStr(s) => s
    case JArr(items) =>
      JoinWith(seq(|items|, i requires 0 <= i < |items| =>
        if items[i].JNull? then "" else ToText(items[i])), ",")
    case JObj(_) => "[object Object]"
  }

  /** The string form of an index, as the key underscore passes for an array-like value. */
  function IndexKey(i: nat): string {
    NatToDecimal(i)
  }

  /**
    The (key, value) pairs `_.each(j, f)` calls `f` with: the members of an
    object, the indexed elements of an array, the indexed characters of a
    string, and nothing for null, booleans and numbers.
   */
  function Entries(j: Json): (r: seq<(string, Json)>)
    ensures j.JObj? ==> r == j.members
    ensures j.JArr? ==> |r| == |j.items| && forall i :: 0 <= i < |r| ==> r[i] == (IndexKey(i), j.items[i])
    ensures j.JStr? ==> |r| == |j.s| && forall i :: 0 <= i < |r| ==> r[i] == (IndexKey(i), JStr([j.s[i]]))
    ensures j.JNull? || j.JBool? || j.JNum? ==> r == []
  {
    match j
    case JObj(members) => members
    case JArr(items) => seq(|items|, i requires 0 <= i < |items| => (IndexKey(i), items[i]))
    case JStr(s) => seq(|s|, i requires 0 <= i < |s| => (IndexKey(i), JStr([s[i]])))
    case _ => []
  }
}
