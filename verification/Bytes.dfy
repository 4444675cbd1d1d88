/** Byte strings. A `char` stands for one byte of a Go string; nothing below depends on its range,
    except the ASCII predicates of module `AsciiCase`. */
module Bytes {

  datatype Option<+T> = None | Some(value: T)

  predicate IsWild(c: char) {
    c == ':' || c == '*'
  }

  /** No wildcard byte occurs in `s`. */
  predicate Plain(s: string) {
    forall i :: 0 <= i < |s| ==> !IsWild(s[i])
  }

  /** A wildcard name as the router accepts it: not empty, and one run of ordinary bytes. */
  predicate IsName(s: string) {
    s != "" && Plain(s) && '/' !in s
  }

  /** The end of the first path segment of `s`: the index of its first '/', or its length. */
  function SegEnd(s: string): (e: nat)
    ensures e <= |s|
    ensures '/' !in s[..e]
    ensures e < |s| ==> s[e] == '/'
  {
    if s == "" || s[0] == '/' then 0
    else
      assert s[..1 + SegEnd(s[1..])] == [s[0]] + s[1..][..SegEnd(s[1..])];
      1 + SegEnd(s[1..])
  }

  lemma SegEndUnique(s: string, e: nat)
    requires e <= |s|
    requires forall i :: 0 <= i < e ==> s[i] != '/'
    requires e < |s| ==> s[e] == '/'
    ensures SegEnd(s) == e
  {
    var f := SegEnd(s);
    assert forall i :: 0 <= i < f ==> s[i] in s[..f];
  }

  /** The first position of `c` in `s`, or the length of `s`. */
  function IndexOf(s: string, c: char): (k: nat)
    ensures k <= |s|
    ensures k < |s| ==> s[k] == c
    ensures forall i :: 0 <= i < k ==> s[i] != c
  {
    if s == "" || s[0] == c then 0 else 1 + IndexOf(s[1..], c)
  }

  predicate Distinct<T(==)>(s: seq<T>) {
    forall i, j :: 0 <= i < j < |s| ==> s[i] != s[j]
  }

  /** The length of the longest common prefix. */
  function CommonPrefix(a: string, b: string): (i: nat)
    ensures i <= |a| && i <= |b|
    ensures a[..i] == b[..i]
    ensures i < |a| && i < |b| ==> a[i] != b[i]
  {
    if a == "" || b == "" || a[0] != b[0] then 0
    else
      var i := 1 + CommonPrefix(a[1..], b[1..]);
      assert a[..i] == [a[0]] + a[1..][..i - 1] && b[..i] == [b[0]] + b[1..][..i - 1];
      i
  }

  lemma SplitPrefix(a: string, s: string)
    requires a <= s
    ensures s == a + s[|a|..]
  {
  }

  predicate EndsInSlash(s: string) {
    s != "" && s[|s| - 1] == '/'
  }
}
