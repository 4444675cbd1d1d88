/** Exact lookup, and its specification: it finds a handle exactly when a registered pattern matches. */
module Lookup {
  import opened Bytes
  import opened Pattern
  import opened RadixTree
  import opened Denotation

  /** What a lookup reports. `Panic` stands for the router's own panic on an invalid node type and
      for an index out of range. */
  datatype Result = Panic | Found(handle: Option<Handle>, params: seq<Binding>, tsr: bool)

  function With(bs: seq<Binding>, r: Result): Result {
    match r
    case Panic => Panic
    case Found(h, ps, tsr) => Found(h, bs + ps, tsr)
  }

  /** The walk: match this node's path, then go to the child that continues. */
  function Get(t: Trie, s: string): Result
    decreases t, 1
  {
    if |s| > |t.path| && t.path <= s then
      var rest := s[|t.path|..];
      if t.wildChild then GetWild(t, rest)
      else
        var k := IndexOf(t.indices, rest[0]);
        if k == |t.indices| then Found(None, [], rest == "/" && t.handle.Some?)
        else if k >= |t.children| then Panic
        else Get(t.children[k], rest)
    else if s == t.path then GetHere(t)
    else Found(None, [], MissAdvice(t, s))
  }

  /** The walk arrives at the wildcard below `t`. */
  function GetWild(t: Trie, rest: string): Result
    decreases t, 0
  {
    if t.children == [] || |t.children[0].path| < 2 then Panic
    else
      var c := t.children[0];
      match c.nType
      case Param =>
        var e := SegEnd(rest);
        With([Binding(c.path[1..], rest[..e])],
             if e < |rest| then
               (if c.children == [] then Found(None, [], |rest| == e + 1) else Get(c.children[0], rest[e..]))
             else if c.handle.Some? then Found(c.handle, [], false)
             else Found(None, [], |c.children| == 1 && SlashBelow(c.children[0])))
      case CatchAll => Found(c.handle, [Binding(c.path[2..], rest)], false)
      case _ => Panic
  }

  /** The child of a parameter is exactly "/" with a handle, or the empty node above a catch-all. */
  predicate SlashBelow(c: Trie) {
    (c.path == "/" && c.handle.Some?) || (c.path == "" && c.indices == "/")
  }

  /** The path ends at this node. */
  function GetHere(t: Trie): Result {
    if t.handle.Some? then Found(t.handle, [], false)
    else if t.path == "/" && t.wildChild && t.nType != Root then Found(None, [], true)
    else if t.path == "/" && t.nType == Static then Found(None, [], true)
    else
      var k := IndexOf(t.indices, '/');
      if k == |t.indices| then Found(None, [], false)
      else if k >= |t.children| then Panic
      else
        var c := t.children[k];
        Found(None, [], (|c.path| == 1 && c.handle.Some?)
                        || (c.nType == CatchAll && c.children != [] && c.children[0].handle.Some?))
  }

  /** The advice when the path leaves the tree at this node. */
  predicate MissAdvice(t: Trie, s: string) {
    s == "/" ||
    (|t.path| == |s| + 1 && t.path[|s|] == '/' && s == t.path[..|s|] && t.handle.Some?)
  }

  // ----- where a lookup may be

  /** The remaining path fits the kind of node: below a catch-all it starts with '/'. */
  predicate Reaches(t: Trie, s: string) {
    t.nType != Param && (t.nType == CatchAll ==> t.path == "" && StartsWith(s, '/'))
  }

  predicate Hits(t: Trie, s: string) {
    Get(t, s).Found? && Get(t, s).handle.Some?
  }

  // ----- no panic

  lemma {:induction false} GetSafe(t: Trie, s: string)
    requires Ok(t) && Reaches(t, s)
    ensures Get(t, s).Found?
    decreases t
  {
    if |s| > |t.path| && t.path <= s {
      var rest := s[|t.path|..];
      if t.wildChild {
        var c := t.children[0];
        assert Ok(c);
        if c.nType == Param && SegEnd(rest) < |rest| && c.children != [] {
          GetSafe(c.children[0], rest[SegEnd(rest)..]);
        }
      } else {
        var k := IndexOf(t.indices, rest[0]);
        if k < |t.indices| {
          assert IsEdge(t.children[k], rest[0]);
          GetSafe(t.children[k], rest);
        }
      }
    }
  }

  // ----- lookup refines matching: what is registered and matches is found

  /** A match along the static node `t` continues below the edge that the pattern takes. */
  lemma MatchStatic(t: Trie, r: Route, s: string) returns (k: nat, tail: string)
    requires Ok(t) && t.nType in {Static, Root} && r in Routes(t) && Match(r.pattern, s).Some?
    ensures t.path <= s && r.pattern == t.path + tail
    ensures Match(r.pattern, s) == Match(tail, s[|t.path|..])
    ensures k <= |t.children|
    ensures k == |t.children| ==> tail == "" && s == t.path && t.handle == Some(r.handle)
    ensures k < |t.children| ==>
              && Route(tail, r.handle) in Routes(t.children[k])
              && |s| > |t.path|
              && if t.wildChild then k == 0 && StartsWith(tail, ':')
                 else k == IndexOf(t.indices, s[|t.path|]) && StartsWith(tail, s[|t.path|])
  {
    k, tail := StaticRoute(t, r);
    MatchPlain(t.path, tail, s);
    SplitPrefix(t.path, s);
    if k < |t.children| && !t.wildChild {
      assert tail[0] == s[|t.path|];
    }
  }

  lemma {:induction false} GetFinds(t: Trie, r: Route, s: string)
    requires Ok(t) && Reaches(t, s) && r in Routes(t) && Match(r.pattern, s).Some?
    ensures Get(t, s) == Found(Some(r.handle), Match(r.pattern, s).value, false)
    decreases t, 1
  {
    if t.nType == CatchAll {
      CatchAllRoutes(t);
      assert s[0..] == s && Ok(t.children[0]);
    } else {
      var k, tail := MatchStatic(t, r, s);
      if k < |t.children| {
        var rest := s[|t.path|..];
        assert Ok(t.children[k]);
        if t.wildChild {
          GetFindsWild(t, Route(tail, r.handle), rest);
        } else {
          assert IsEdge(t.children[k], rest[0]);
          GetFinds(t.children[k], Route(tail, r.handle), rest);
        }
      }
    }
  }

  lemma {:induction false} GetFindsWild(t: Trie, r: Route, rest: string)
    requires Ok(t) && t.nType in {Static, Root} && t.wildChild && rest != ""
    requires r in Routes(t.children[0]) && Match(r.pattern, rest).Some?
    ensures GetWild(t, rest) == Found(Some(r.handle), Match(r.pattern, rest).value, false)
    decreases t, 0
  {
    var c := t.children[0];
    assert Ok(c);
    var tail := ParamRoute(c, r);
    var v := SegEnd(rest);
    assert r.pattern[1..|c.path|] == c.path[1..];
    if tail != "" {
      assert Ok(c.children[0]);
      GetFinds(c.children[0], Route(tail, r.handle), rest[v..]);
    }
  }

  // ----- and what is found is registered and matches

  lemma {:induction false} GetSound(t: Trie, s: string) returns (p: string)
    requires Ok(t) && Reaches(t, s) && Hits(t, s)
    ensures Route(p, Get(t, s).handle.value) in Routes(t)
    ensures Match(p, s) == Some(Get(t, s).params)
    decreases t, 1
  {
    var h := Get(t, s).handle.value;
    if t.nType == CatchAll {
      CatchAllRoutes(t);
      p := t.children[0].path;
      assert s[0..] == s && Ok(t.children[0]);
    } else if s == t.path {
      p := t.path;
      MatchPlain(t.path, "", s);
      assert t.path + "" == t.path;
      assert Route(p, h) in OwnRoute(t);
    } else {
      var rest := s[|t.path|..];
      var k, q := 0, "";
      if t.wildChild {
        q := GetSoundWild(t, rest);
      } else {
        k := IndexOf(t.indices, rest[0]);
        assert IsEdge(t.children[k], rest[0]);
        q := GetSound(t.children[k], rest);
        EdgeRoute(t.children[k], rest[0], Route(q, h));
      }
      RouteBelow(t, k, Route(q, h));
      p := t.path + q;
      MatchPlain(t.path, q, s);
    }
  }

  lemma {:induction false} GetSoundWild(t: Trie, rest: string) returns (q: string)
    requires Ok(t) && t.nType in {Static, Root} && t.wildChild && rest != ""
    requires GetWild(t, rest).Found? && GetWild(t, rest).handle.Some?
    ensures Route(q, GetWild(t, rest).handle.value) in Routes(t.children[0])
    ensures Match(q, rest) == Some(GetWild(t, rest).params) && StartsWith(q, ':')
    decreases t, 0
  {
    var c := t.children[0];
    var h := GetWild(t, rest).handle.value;
    assert Ok(c) && c.nType == Param;
    var v := SegEnd(rest);
    var tail := "";
    if v < |rest| {
      assert Ok(c.children[0]);
      tail := GetSound(c.children[0], rest[v..]);
      EdgeRoute(c.children[0], '/', Route(tail, h));
      RouteBelow(c, 0, Route(tail, h));
    } else {
      assert Route(c.path, h) in OwnRoute(c);
      assert c.path + tail == c.path;
    }
    q := c.path + tail;
    ParamToken(c.path[1..], tail);
    assert c.path == ":" + c.path[1..];
    assert q[1..|c.path|] == c.path[1..];
  }
}
