/** Facts about what a tree holds that need no registration: where its patterns start, and what the
    small rebuilding steps (split, promote, replace a child) do to them. */
module Denotation {
  import opened Bytes
  import opened Pattern
  import opened RadixTree

  // ----- membership

  lemma RouteBelow(t: Trie, k: nat, r: Route)
    requires k < |t.children| && r in Routes(t.children[k])
    ensures Route(t.path + r.pattern, r.handle) in Routes(t)
  {
    assert r in RoutesOf(t.children);
  }

  /** A route of `t` is its own, or comes from a child. */
  lemma RouteCases(t: Trie, r: Route) returns (k: nat, below: Route)
    requires r in Routes(t)
    ensures k <= |t.children|
    ensures k == |t.children| ==> r.pattern == t.path && t.handle == Some(r.handle)
    ensures k < |t.children| ==>
              below in Routes(t.children[k]) && r == Route(t.path + below.pattern, below.handle)
  {
    if r in OwnRoute(t) {
      k, below := |t.children|, r;
    } else {
      below :| below in RoutesOf(t.children) && r == Route(t.path + below.pattern, below.handle);
      k :| 0 <= k < |t.children| && below in Routes(t.children[k]);
    }
  }

  lemma PrefixedPlus(a: string, b: string, rs: set<Route>)
    ensures Prefixed(a, Prefixed(b, rs)) == Prefixed(a + b, rs)
  {
    forall r | r in rs ensures a + (b + r.pattern) == (a + b) + r.pattern {
    }
    assert forall r | r in rs :: Route(b + r.pattern, r.handle) in Prefixed(b, rs);
  }

  lemma PrefixedUnion(a: string, rs: set<Route>, r: Route)
    ensures Prefixed(a, rs + {r}) == Prefixed(a, rs) + {Route(a + r.pattern, r.handle)}
  {
  }

  lemma RoutesOfOne(c: Trie)
    ensures RoutesOf([c]) == Routes(c)
  {
    assert forall r :: r in Routes(c) ==> r in Routes([c][0]);
  }

  // ----- where patterns start

  /** Every tree holds something: leaves carry handles. */
  lemma {:induction false} SomeRoute(t: Trie) returns (r: Route)
    requires Ok(t)
    ensures r in Routes(t)
    decreases t
  {
    if t.handle.Some? {
      r := Route(t.path, t.handle.value);
    } else {
      var b := SomeRoute(t.children[0]);
      RouteBelow(t, 0, b);
      r := Route(t.path + b.pattern, b.handle);
    }
  }

  lemma LeafRoutes(t: Trie)
    requires t.children == [] && t.handle.Some?
    ensures Routes(t) == {Route(t.path, t.handle.value)}
  {
    assert RoutesOf([]) == {};
  }

  lemma ChainRoutes(t: Trie, c: Trie, r: Route)
    requires t.children == [c] && t.handle == None && Routes(c) == {r}
    ensures Routes(t) == {Route(t.path + r.pattern, r.handle)}
  {
    RoutesOfOne(c);
  }

  /** The only route of a catch-all pair. */
  lemma CatchAllRoutes(c: Trie)
    requires Ok(c) && c.nType == CatchAll && c.path == ""
    ensures c.children[0].handle.Some? && IsCatchAll(c.children[0].path)
    ensures Routes(c) == {Route(c.children[0].path, c.children[0].handle.value)}
  {
    var leaf := c.children[0];
    assert Ok(leaf);
    LeafRoutes(leaf);
    ChainRoutes(c, leaf, Route(leaf.path, leaf.handle.value));
    assert c.path + leaf.path == leaf.path;
  }

  /** The patterns below an edge start with the byte of the edge. */
  lemma EdgeRoute(c: Trie, b: char, r: Route)
    requires Ok(c) && IsEdge(c, b) && r in Routes(c)
    ensures StartsWith(r.pattern, b)
    ensures c.path == "" ==> IsCatchAll(r.pattern)
  {
    if c.nType == CatchAll {
      CatchAllRoutes(c);
    } else {
      var k, below := RouteCases(c, r);
      if c.path == "" {
        assert Ok(c.children[0]);
        CatchAllRoutes(c.children[0]);
        assert r.pattern == below.pattern;
      }
    }
  }

  /** The patterns of a parameter node: its token, then nothing or a new segment. */
  lemma ParamRoute(c: Trie, r: Route) returns (tail: string)
    requires Ok(c) && c.nType == Param && r in Routes(c)
    ensures r.pattern == c.path + tail
    ensures SegEnd(r.pattern) == |c.path| && r.pattern[..|c.path|] == c.path && r.pattern[|c.path|..] == tail
    ensures tail == "" ==> c.handle == Some(r.handle)
    ensures tail != "" ==>
              tail[0] == '/' && |c.children| == 1 && Route(tail, r.handle) in Routes(c.children[0])
  {
    var k, below := RouteCases(c, r);
    tail := r.pattern[|c.path|..];
    if k < |c.children| {
      assert Ok(c.children[0]);
      EdgeRoute(c.children[0], '/', below);
      assert tail == below.pattern;
    }
    ParamToken(c.path[1..], tail);
    assert c.path == ":" + c.path[1..];
  }

  /** The patterns of a static node: the node itself, or a child that continues it. */
  lemma StaticRoute(t: Trie, r: Route) returns (k: nat, tail: string)
    requires Ok(t) && t.nType in {Static, Root} && r in Routes(t)
    ensures k <= |t.children| && r.pattern == t.path + tail && r.pattern[|t.path|..] == tail
    ensures k == |t.children| ==> tail == "" && t.handle == Some(r.handle)
    ensures k < |t.children| ==>
              && Route(tail, r.handle) in Routes(t.children[k])
              && StartsWith(tail, if t.wildChild then ':' else t.indices[k])
    ensures !StartsWith(tail, '*')
  {
    var below;
    k, below := RouteCases(t, r);
    tail := r.pattern[|t.path|..];
    if k < |t.children| {
      assert tail == below.pattern;
      var c := t.children[k];
      assert Ok(c);
      if t.wildChild {
        var rest := ParamRoute(c, below);
      } else {
        EdgeRoute(c, t.indices[k], below);
      }
    }
  }

  // ----- rebuilding steps

  /** Promotion is a permutation: the position each old element went to. */
  function Target(i: nat, from: nat, to: nat): (j: nat)
    requires to <= from
    ensures Source(j, from, to) == i
    ensures j <= i || j <= from
  {
    if i == from then to else if to <= i < from then i + 1 else i
  }

  lemma PromoteRoutes(ts: seq<Trie>, from: nat, to: nat)
    requires to <= from < |ts|
    ensures RoutesOf(Promote(ts, from, to)) == RoutesOf(ts)
  {
    var ts' := Promote(ts, from, to);
    forall r | r in RoutesOf(ts) ensures r in RoutesOf(ts') {
      var i :| 0 <= i < |ts| && r in Routes(ts[i]);
      assert ts'[Target(i, from, to)] == ts[i];
    }
    forall r | r in RoutesOf(ts') ensures r in RoutesOf(ts) {
      var j :| 0 <= j < |ts'| && r in Routes(ts'[j]);
      assert ts'[j] == ts[Source(j, from, to)];
    }
  }

  lemma RepositionRoutes(t: Trie, k: nat)
    requires k < |t.children| == |t.indices|
    ensures Routes(Reposition(t, k)) == Routes(t)
  {
    PromoteRoutes(t.children, k, NewPos(t.children, k, t.children[k].priority));
  }

  lemma PromoteDistinct<T>(s: seq<T>, from: nat, to: nat)
    requires to <= from < |s| && Distinct(s)
    ensures Distinct(Promote(s, from, to))
  {
    var r := Promote(s, from, to);
    forall i, j | 0 <= i < j < |r| ensures r[i] != r[j] {
      var a, b := Source(i, from, to), Source(j, from, to);
      assert a != b && (a < b || b < a);
    }
  }

  lemma RepositionLocal(t: Trie, k: nat)
    requires k < |t.children| == |t.indices|
    requires StaticLocal(t) && !t.wildChild
    ensures StaticLocal(Reposition(t, k))
  {
    var to := NewPos(t.children, k, t.children[k].priority);
    var t' := Reposition(t, k);
    PromoteDistinct(t.indices, k, to);
    forall j | 0 <= j < |t'.children| ensures IsEdge(t'.children[j], t'.indices[j]) {
      assert IsEdge(t.children[Source(j, k, to)], t.indices[Source(j, k, to)]);
    }
    assert |t.indices| == 1 ==> t'.indices == t.indices && t'.children == t.children;
  }

  lemma RepositionOk(t: Trie, k: nat)
    requires k < |t.children| == |t.indices|
    requires Ok(t) && t.nType in {Static, Root}
    ensures Ok(Reposition(t, k))
  {
    var to := NewPos(t.children, k, t.children[k].priority);
    RepositionLocal(t, k);
    var t' := Reposition(t, k);
    forall j | 0 <= j < |t'.children| ensures Ok(t'.children[j]) {
      assert Ok(t.children[Source(j, k, to)]);
    }
  }

  lemma ReplaceRoutes(ts: seq<Trie>, k: nat, c: Trie, r: Route)
    requires k < |ts| && Routes(c) == Routes(ts[k]) + {r}
    ensures RoutesOf(ts[k := c]) == RoutesOf(ts) + {r}
  {
    var ts' := ts[k := c];
    forall x | x in RoutesOf(ts') ensures x in RoutesOf(ts) + {r} {
      var j :| 0 <= j < |ts'| && x in Routes(ts'[j]);
      assert j != k ==> ts'[j] == ts[j];
    }
    forall x | x in RoutesOf(ts) + {r} ensures x in RoutesOf(ts') {
      if x in RoutesOf(ts) {
        var j :| 0 <= j < |ts| && x in Routes(ts[j]);
        assert x in Routes(ts'[j]);
      } else {
        assert x in Routes(ts'[k]);
      }
    }
  }

  lemma AppendRoutes(ts: seq<Trie>, c: Trie)
    ensures RoutesOf(ts + [c]) == RoutesOf(ts) + Routes(c)
  {
    var ts' := ts + [c];
    assert forall j :: 0 <= j < |ts| ==> ts'[j] == ts[j];
    assert ts'[|ts|] == c;
  }

  lemma SplitRoutes(t: Trie, i: nat)
    requires i < |t.path|
    ensures Routes(Split(t, i)) == Routes(t)
  {
    var low := Split(t, i).children[0];
    RoutesOfOne(low);
    var a, b := t.path[..i], t.path[i..];
    assert a + b == t.path;
    PrefixedPlus(a, b, RoutesOf(t.children));
    if t.handle.Some? {
      PrefixedUnion(a, Prefixed(b, RoutesOf(t.children)), Route(b, t.handle.value));
    }
  }

  lemma SplitOk(t: Trie, i: nat)
    requires Ok(t) && t.nType in {Static, Root}
    requires 0 < i < |t.path|
    ensures Ok(Split(t, i))
  {
    var low := Split(t, i).children[0];
    assert RoleOf(low) != Broken;
    assert Ok(low);
  }
}
