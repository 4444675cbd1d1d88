/** Sorting a few short strings in place, and the sorted list of a set of strings. */
module StringSort {

  /** Byte-wise lexicographic order. */
  predicate Less(a: string, b: string)
    decreases |a|
  {
    b != "" && (a == "" || a[0] < b[0] || (a[0] == b[0] && Less(a[1..], b[1..])))
  }

  lemma {:induction false} LessTotal(a: string, b: string)
    ensures Less(a, b) || Less(b, a) || a == b
    ensures !(Less(a, b) && Less(b, a)) && !Less(a, a)
    decreases |a|
  {
    if a != "" && b != "" {
      LessTotal(a[1..], b[1..]);
      LessTotal(a[1..], a[1..]);
      assert a == [a[0]] + a[1..] && b == [b[0]] + b[1..];
    } else if a != "" {
      LessTotal(a[1..], a[1..]);
    }
  }

  lemma {:induction false} LessTransitive(a: string, b: string, c: string)
    requires Less(a, b) && Less(b, c)
    ensures Less(a, c)
    decreases |a|
  {
    if a != "" && a[0] == b[0] && b[0] == c[0] {
      LessTransitive(a[1..], b[1..], c[1..]);
    }
  }

  predicate Ascending(s: seq<string>) {
    forall i, j :: 0 <= i < j < |s| ==> Less(s[i], s[j])
  }

  /** `s` lists the set `S` without repetition, in ascending order. */
  ghost predicate Lists(s: seq<string>, S: set<string>) {
    Ascending(s) && (forall x :: x in s <==> x in S)
  }

  /** A set has one such list, so it does not matter in which order the elements were met. */
  lemma {:induction false} ListingUnique(s: seq<string>, t: seq<string>, S: set<string>)
    requires Lists(s, S) && Lists(t, S)
    ensures s == t
    decreases |s|
  {
    ListsNothing(s, S);
    ListsNothing(t, S);
    if s != [] {
      assert s[0] in s && s[0] in S && s[0] in t;
      assert t[0] in t && t[0] in S && t[0] in s;
      var i :| 0 <= i < |s| && s[i] == t[0];
      var j :| 0 <= j < |t| && t[j] == s[0];
      LessTotal(s[0], t[0]);
      assert s[0] == t[0];
      ListingTail(s, S);
      ListingTail(t, S);
      ListingUnique(s[1..], t[1..], S - {s[0]});
    }
  }

  lemma ListsNothing(s: seq<string>, S: set<string>)
    requires Lists(s, S)
    ensures s == [] <==> S == {}
  {
    if s != [] {
      assert s[0] in s;
    }
    if S != {} {
      var x :| x in S;
      assert x in s;
    }
  }

  lemma ListingTail(s: seq<string>, S: set<string>)
    requires s != [] && Lists(s, S)
    ensures Lists(s[1..], S - {s[0]})
  {
    forall x ensures x in s[1..] <==> x in S - {s[0]} {
      if x in s[1..] {
        var i :| 0 <= i < |s[1..]| && s[1..][i] == x;
        assert s[i + 1] in s && Less(s[0], s[i + 1]);
        LessTotal(s[0], s[0]);
      }
      if x in S && x != s[0] {
        var i :| 0 <= i < |s| && s[i] == x;
        assert s[1..][i - 1] == x;
      }
    }
  }

  // ----- insertion sort

  function Insert(s: seq<string>, x: string): (r: seq<string>)
    ensures |r| == |s| + 1
  {
    if s == [] || !Less(x, s[|s| - 1]) then s + [x]
    else Insert(s[..|s| - 1], x) + [s[|s| - 1]]
  }

  function Sort(s: seq<string>): (r: seq<string>)
    ensures |r| == |s|
  {
    if s == [] then [] else Insert(Sort(s[..|s| - 1]), s[|s| - 1])
  }

  lemma {:induction false} InsertSpec(s: seq<string>, x: string)
    requires Ascending(s) && x !in s
    ensures Ascending(Insert(s, x))
    ensures forall y :: y in Insert(s, x) <==> y in s || y == x
  {
    if s == [] {
    } else {
      var last := s[|s| - 1];
      assert s == s[..|s| - 1] + [last];
      LessTotal(x, last);
      if Less(x, last) {
        InsertSpec(s[..|s| - 1], x);
        var r := Insert(s[..|s| - 1], x);
        forall i | 0 <= i < |r| ensures Less(r[i], last) {
          assert r[i] in r;
        }
      } else {
        forall i | 0 <= i < |s| ensures Less(s[i], x) {
          if i < |s| - 1 {
            LessTransitive(s[i], last, x);
          }
        }
      }
    }
  }

  /** Without repetitions, sorting produces the list of the elements. */
  lemma {:induction false} SortLists(s: seq<string>)
    requires forall i, j :: 0 <= i < j < |s| ==> s[i] != s[j]
    ensures Lists(Sort(s), set x | x in s)
  {
    if s != [] {
      var init, last := s[..|s| - 1], s[|s| - 1];
      assert s == init + [last];
      SortLists(init);
      assert last !in init;
      assert last !in (set x | x in init);
      InsertSpec(Sort(init), last);
      assert forall x :: x in s <==> x in init || x == last;
    }
  }

  lemma SortSnoc(s: seq<string>, i: nat)
    requires i < |s|
    ensures Sort(s[..i + 1]) == Insert(Sort(s[..i]), s[i])
  {
    assert s[..i + 1][..i] == s[..i];
  }

  method InsertionSort(a: array<string>)
    modifies a
    ensures a[..] == Sort(old(a[..]))
  {
    ghost var was := a[..];
    var i := if a.Length == 0 then 0 else 1;
    if i == 1 {
      SortSnoc(was, 0);
    }
    while i < a.Length
      invariant i <= a.Length && a[..i] == Sort(was[..i]) && a[i..] == was[i..]
    {
      SortSnoc(was, i);
      SiftDown(a, i);
      i := i + 1;
    }
    assert was[..i] == was;
  }

  /** The inner loop: swaps element `i` down to its place among the sorted ones before it. */
  method SiftDown(a: array<string>, i: nat)
    requires i < a.Length
    modifies a
    ensures a[..i + 1] == Insert(old(a[..i]), old(a[i])) && a[i + 1..] == old(a[i + 1..])
  {
    ghost var s, x, rest := a[..i], a[i], a[i + 1..];
    var j := i;
    while j > 0 && Less(a[j], a[j - 1])
      invariant j <= i && a[j] == x && a[i + 1..] == rest
      invariant forall k :: 0 <= k < j ==> a[k] == s[k]
      invariant forall k :: j < k <= i ==> a[k] == s[k - 1]
      invariant forall k :: j <= k < i ==> Less(x, s[k])
    {
      a[j], a[j - 1] := a[j - 1], a[j];
      j := j - 1;
    }
    InsertAt(s, x, j, a[..i + 1]);
  }

  /** Where an element is inserted: before all that are greater, and behind one that is not. */
  lemma {:induction false} InsertAt(s: seq<string>, x: string, j: nat, t: seq<string>)
    requires j <= |s| && (j > 0 ==> !Less(x, s[j - 1])) && forall k :: j <= k < |s| ==> Less(x, s[k])
    requires |t| == |s| + 1 && t[j] == x
    requires (forall k :: 0 <= k < j ==> t[k] == s[k]) && forall k :: j < k <= |s| ==> t[k] == s[k - 1]
    ensures t == Insert(s, x)
    decreases |s|
  {
    var n := |s|;
    if j == n {
      assert t == s + [x];
    } else {
      InsertAt(s[..n - 1], x, j, t[..n]);
      assert t == t[..n] + [s[n - 1]];
    }
  }
}
