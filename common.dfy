/** Values shared by the alarm engine, the Tuya controller and the tray app:
    an optional value, decoded JSON, Python's `str.lower` on ASCII, substring
    search and first-match search over a sequence. */
module Common {

  datatype Option<+T> = None | Some(value: T) {
    /** `d.get(key, default)` once the lookup has produced this option. */
    function GetOr(default: T): T {
      if Some? then value else default
    }
  }

  /** A value as Python's `json` module decodes it (floats are not modelled). */
  datatype Json =
    | JNull
    | JBool(b: bool)
    | JInt(i: int)
    | JStr(s: string)
    | JList(items: seq<Json>)
    | JObject(fields: map<string, Json>)

  /** Python truthiness of a decoded JSON value. */
  predicate Truthy(j: Json) {
    match j
    case JNull => false
    case JBool(b) => b
    case JInt(i) => i != 0
    case JStr(s) => s != ""
    case JList(items) => items != []
    case JObject(fields) => fields != map[]
  }

  /** The JSON value as a Python number: `bool` is a subclass of `int`,
      everything else makes arithmetic raise `TypeError`. */
  function AsNumber(j: Json): Option<int> {
    match j
    case JInt(i) => Some(i)
    case JBool(b) => Some(if b then 1 else 0)
    case _ => None
  }

  function LowerChar(c: char): char {
    if 'A' <= c <= 'Z' then (c as int + 32) as char else c
  }

  /** `str.lower()`, on the ASCII letters. */
  function Lower(s: string): string {
    seq(|s|, i requires 0 <= i < |s| => LowerChar(s[i]))
  }

  lemma LowerIdempotent(s: string)
    ensures Lower(Lower(s)) == Lower(s)
  {
    assert forall i :: 0 <= i < |s| ==> Lower(Lower(s))[i] == Lower(s)[i];
  }

  predicate IsPrefix(p: string, s: string) {
    |p| <= |s| && s[..|p|] == p
  }

  /** Python's `p in s` on two strings: `p` occurs contiguously in `s`. */
  predicate IsSubstring(p: string, s: string)
    decreases |s|
  {
    IsPrefix(p, s) || (|s| > 0 && IsSubstring(p, s[1..]))
  }

  lemma {:induction false} SubstringAt(p: string, s: string, i: nat)
    requires i + |p| <= |s| && s[i..i + |p|] == p
    ensures IsSubstring(p, s)
    decreases i
  {
    if i == 0 {
      assert s[..|p|] == s[0..|p|];
    } else {
      assert s[1..][i - 1..i - 1 + |p|] == s[i..i + |p|];
      SubstringAt(p, s[1..], i - 1);
    }
  }

  /** A string holding a character that `s` lacks does not occur in `s`. */
  lemma {:induction false} MissingCharNotSubstring(p: string, s: string, i: nat)
    requires i < |p| && p[i] !in s
    ensures !IsSubstring(p, s)
    decreases |s|
  {
    assert |p| <= |s| ==> s[..|p|][i] == s[i];
    if |s| > 0 {
      assert forall c :: c in s[1..] ==> c in s;
      MissingCharNotSubstring(p, s[1..], i);
    }
  }

  /** A string is found in itself, so an exact match is also a substring match. */
  lemma SubstringOfItself(s: string)
    ensures IsSubstring(s, s)
  {
    assert s[..|s|] == s;
  }

  /** Index of the first element satisfying `p`, as a `for ... if p(x): return`
      loop or a `next(x for x in s if p(x))` finds it. */
  function FirstIndex<T>(s: seq<T>, p: T -> bool): (r: Option<nat>)
    ensures r.Some? ==> r.value < |s| && p(s[r.value])
  {
    if |s| == 0 then None
    else if p(s[0]) then Some(0)
    else match FirstIndex(s[1..], p)
      case None => None
      case Some(k) => Some(k + 1)
  }

  /** The index found is the first one satisfying `p`, and none is found
      exactly when no element satisfies it. */
  lemma {:induction false} FirstIndexSpec<T>(s: seq<T>, p: T -> bool)
    ensures var r := FirstIndex(s, p);
      && (r.Some? ==> forall j :: 0 <= j < r.value ==> !p(s[j]))
      && (r.None? <==> forall j :: 0 <= j < |s| ==> !p(s[j]))
  {
    if |s| > 0 && !p(s[0]) {
      FirstIndexSpec(s[1..], p);
      assert forall j :: 1 <= j < |s| ==> s[j] == s[1..][j - 1];
    }
  }

  /** A list comprehension `[x for x in s if not drop(x)]`. */
  function RemoveWhere<T>(s: seq<T>, drop: T -> bool): (r: seq<T>)
    ensures |r| <= |s|
  {
    if |s| == 0 then []
    else if drop(s[0]) then RemoveWhere(s[1..], drop)
    else [s[0]] + RemoveWhere(s[1..], drop)
  }

  /** The filtered list holds exactly the elements not dropped, and is as
      long as the input exactly when nothing is dropped. */
  lemma {:induction false} RemoveWhereShape<T>(s: seq<T>, drop: T -> bool)
    ensures forall i :: 0 <= i < |RemoveWhere(s, drop)| ==>
      RemoveWhere(s, drop)[i] in s && !drop(RemoveWhere(s, drop)[i])
    ensures forall i :: 0 <= i < |s| && !drop(s[i]) ==> s[i] in RemoveWhere(s, drop)
    ensures |RemoveWhere(s, drop)| == |s| <==> forall i :: 0 <= i < |s| ==> !drop(s[i])
  {
    if |s| > 0 {
      RemoveWhereShape(s[1..], drop);
      var rest := RemoveWhere(s[1..], drop);
      assert forall i :: 1 <= i < |s| ==> s[i] == s[1..][i - 1];
      assert forall x :: x in rest ==> x in s;
    }
  }

  /** Filtering keeps the surviving elements in their original order:
      it distributes over concatenation. */
  lemma {:induction false} RemoveWhereAppend<T>(a: seq<T>, b: seq<T>, drop: T -> bool)
    ensures RemoveWhere(a + b, drop) == RemoveWhere(a, drop) + RemoveWhere(b, drop)
  {
    if |a| == 0 {
      assert a + b == b;
    } else {
      assert (a + b)[0] == a[0];
      assert (a + b)[1..] == a[1..] + b;
      RemoveWhereAppend(a[1..], b, drop);
    }
  }
}
