/** String helpers shared by the handlers: e-mail lower-casing and the
    JavaScript `||` fallback on optional string fields. */
module Text {

  predicate IsUpperChar(c: char)
  {
    'A' <= c <= 'Z'
  }

  /** One character of `String.prototype.toLowerCase`, for the ASCII range. */
  function LowerChar(c: char): (d: char)
    ensures !IsUpperChar(d)
    ensures IsUpperChar(c) ==> d as int == c as int + 32
    ensures !IsUpperChar(c) ==> d == c
  {
    if IsUpperChar(c) then (c as int + 32) as char else c
  }

  /** No upper-case letter anywhere in `s`. */
  predicate IsLower(s: string)
  {
    forall i :: 0 <= i < |s| ==> !IsUpperChar(s[i])
  }

  /** `s.toLowerCase()`: same length, every letter lowered, nothing else touched. */
  function ToLower(s: string): (r: string)
    ensures |r| == |s|
    ensures IsLower(r)
    ensures forall i :: 0 <= i < |s| ==> r[i] == LowerChar(s[i])
    decreases |s|
  {
    if s == [] then [] else [LowerChar(s[0])] + ToLower(s[1..])
  }

  /** Lower-casing an already lower-case string leaves it as it is. */
  lemma LowerIsFixed(s: string)
    requires IsLower(s)
    ensures ToLower(s) == s
  {
  }

  /** Lower-casing twice is lower-casing once. */
  lemma ToLowerIdempotent(s: string)
    ensures ToLower(ToLower(s)) == ToLower(s)
  {
    LowerIsFixed(ToLower(s));
  }

  /** JavaScript `a || b` on a string field, where the empty string also
      stands for a field that is `undefined` or `null` (all three are falsy). */
  function Or(a: string, b: string): (r: string)
    ensures a != "" ==> r == a
    ensures a == "" ==> r == b
    ensures r != "" <==> a != "" || b != ""
  {
    if a != "" then a else b
  }

  /** `shown` is what `a || b || fallback` yields: `a` when it is set, else
      `b` when it is set, else `fallback`. */
  predicate FirstSet(shown: string, a: string, b: string, fallback: string)
  {
    && (a != "" ==> shown == a)
    && (a == "" && b != "" ==> shown == b)
    && (a == "" && b == "" ==> shown == fallback)
  }

  /** `shown` is what `a || b || c || fallback` yields. */
  predicate FirstSetOfThree(shown: string, a: string, b: string, c: string, fallback: string)
  {
    && (a != "" ==> shown == a)
    && (a == "" ==> FirstSet(shown, b, c, fallback))
  }

  /** The key of every element is lower-case and no two elements share a key:
      the shape of a collection whose inserts lower-case the key and refuse
      a key already present. */
  predicate DistinctLower<T>(xs: seq<T>, key: T -> string)
  {
    && (forall i :: 0 <= i < |xs| ==> IsLower(key(xs[i])))
    && (forall i, j :: 0 <= i < j < |xs| ==> key(xs[i]) != key(xs[j]))
  }
}
