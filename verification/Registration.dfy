/** The end of a registration: filling fresh nodes with the rest of a pattern, and attaching it to
    the node where the walk stopped. */
module Registration {
  import opened Bytes
  import opened Pattern
  import opened RadixTree
  import opened Denotation

  // ----- a pattern entering fresh nodes

  /** Well-formedness seen from the first wildcard token. */
  lemma WellFormedAtWild(path: string, w: Wildcard)
    requires w == FindWildcard(path)
    ensures w.NoWildcard? ==> WellFormed(path)
    ensures w.Wildcard? && w.token[0] == ':' ==>
              WellFormed(path) == (IsName(w.token[1..]) && WellFormed(w.after))
    ensures w.Wildcard? && w.token[0] == '*' ==>
              WellFormed(path) == (EndsInSlash(w.before) && w.after == "" && IsName(w.token[1..]))
  {
    if w.NoWildcard? {
      WellFormedPlain(path, "");
      assert path + "" == path;
    } else {
      var p := w.token + w.after;
      assert path == w.before + p;
      if w.token[0] == ':' {
        WellFormedPlain(w.before, p);
        SegEndUnique(p, |w.token|);
        assert p[1..|w.token|] == w.token[1..] && p[|w.token|..] == w.after;
      } else {
        WellFormedAtStar(w.before, w.token, w.after);
      }
    }
  }

  lemma WellFormedAtStar(before: string, token: string, after: string)
    requires Plain(before) && StartsWith(token, '*')
    requires '/' !in token && (after == "" || after[0] == '/')
    ensures WellFormed(before + (token + after)) == (EndsInSlash(before) && after == "" && IsName(token[1..]))
  {
    if EndsInSlash(before) {
      var b, q := before[..|before| - 1], "/" + (token + after);
      assert before + (token + after) == b + q;
      WellFormedPlain(b, q);
      assert q[2..] == token[1..] + after;
      NameTail(token[1..], after);
    } else if WellFormed(before + (token + after)) {
      StarAfterPlain(before, token + after, "");
      assert false;
    }
  }

  lemma NameTail(name: string, after: string)
    requires after == "" || after[0] == '/'
    ensures IsName(name + after) == (after == "" && IsName(name))
  {
    if after == "" {
      assert name + after == name;
    } else {
      assert (name + after)[|name|] == '/';
    }
  }

  lemma {:induction false} ParamNodeSpec(w: string, rest: string, h: Handle)
    requires StartsWith(w, ':') && IsName(w[1..])
    requires rest == "" || rest[0] == '/'
    ensures ParamNode(w, rest, h).Some? <==> WellFormed(rest)
    ensures ParamNode(w, rest, h).Some? ==>
              && var c := ParamNode(w, rest, h).value;
              && Ok(c) && c.nType == Param && c.path == w && Routes(c) == {Route(w + rest, h)}
    decreases |rest|, 3
  {
    var param := Fresh(1).(nType := Param, path := w);
    if rest == "" {
      LeafRoutes(param.(handle := Some(h)));
      assert w + rest == w;
    } else {
      InsertChildFresh(Fresh(1), rest, h);
      if WellFormed(rest) {
        var d := InsertChild(Fresh(1), rest, h).value;
        ChainRoutes(param.(children := [d]), d, Route(rest, h));
      }
    }
  }

  /** `t` is a sound static subtree holding exactly one route. */
  ghost predicate Planted(t: Trie, path: string, h: Handle) {
    Ok(t) && t.nType == Static && path != "" && IsEdge(t, path[0]) && Routes(t) == {Route(path, h)}
  }

  lemma {:induction false} InsertChildFresh(n: Trie, path: string, h: Handle)
    requires n == Fresh(n.priority)
    requires path != "" && !IsWild(path[0])
    ensures InsertChild(n, path, h).Some? <==> WellFormed(path)
    ensures InsertChild(n, path, h).Some? ==> Planted(InsertChild(n, path, h).value, path, h)
    decreases |path|, 2
  {
    var w := FindWildcard(path);
    WellFormedAtWild(path, w);
    if w.NoWildcard? {
      LeafTree(n, path, h);
    } else if w.token[0] == ':' {
      FreshParam(n, path, w, h);
    } else {
      FreshCatchAll(n, path, w, h);
    }
  }

  lemma {:induction false} FreshParam(n: Trie, path: string, w: Wildcard, h: Handle)
    requires n == Fresh(n.priority) && path != "" && !IsWild(path[0])
    requires w == FindWildcard(path) && w.Wildcard? && w.token[0] == ':'
    ensures InsertChild(n, path, h).Some? <==> IsName(w.token[1..]) && WellFormed(w.after)
    ensures InsertChild(n, path, h).Some? ==> Planted(InsertChild(n, path, h).value, path, h)
    decreases |path|, 1
  {
    if IsName(w.token[1..]) {
      ParamNodeSpec(w.token, w.after, h);
      if WellFormed(w.after) {
        assert path == w.before + (w.token + w.after);
        GateTree(n, w.before, ParamNode(w.token, w.after, h).value, w.token + w.after, h);
      }
    }
  }

  lemma FreshCatchAll(n: Trie, path: string, w: Wildcard, h: Handle)
    requires n == Fresh(n.priority)
    requires w == FindWildcard(path) && w.Wildcard? && w.token[0] == '*'
    ensures InsertChild(n, path, h).Some? <==> EndsInSlash(w.before) && w.after == "" && IsName(w.token[1..])
    ensures InsertChild(n, path, h).Some? ==> Planted(InsertChild(n, path, h).value, path, h)
  {
    if EndsInSlash(w.before) && w.after == "" && IsName(w.token[1..]) {
      var b := w.before[..|w.before| - 1];
      CatchAllSplit(path, w.before, w.token);
      CatchAllTree(n, b, w.token, h);
      assert InsertChild(n, path, h)
          == Some(n.(path := b, indices := "/", children := [CatchAllPair("/" + w.token, h)]));
    }
  }

  lemma CatchAllSplit(path: string, before: string, token: string)
    requires path == before + token && EndsInSlash(before)
    ensures path == before[..|before| - 1] + ("/" + token)
  {
    assert before == before[..|before| - 1] + "/";
  }

  lemma LeafTree(n: Trie, path: string, h: Handle)
    requires n == Fresh(n.priority) && path != "" && Plain(path)
    ensures Planted(n.(path := path, handle := Some(h)), path, h)
  {
    LeafRoutes(n.(path := path, handle := Some(h)));
  }

  /** A static node that leads into a single parameter. */
  lemma GateTree(n: Trie, a: string, c: Trie, p: string, h: Handle)
    requires n == Fresh(n.priority)
    requires Plain(a) && a != "" && Ok(c) && c.nType == Param && Routes(c) == {Route(p, h)}
    ensures var t := n.(path := a, wildChild := true, children := [c]);
            Planted(t, a + p, h)
  {
    var t := n.(path := a, wildChild := true, children := [c]);
    ChainRoutes(t, c, Route(p, h));
    assert RoleOf(t) != Broken;
  }

  /** A static node that leads into a single catch-all. */
  lemma CatchAllTree(n: Trie, b: string, token: string, h: Handle)
    requires n == Fresh(n.priority)
    requires Plain(b) && StartsWith(token, '*') && IsName(token[1..])
    ensures var t := n.(path := b, indices := "/", children := [CatchAllPair("/" + token, h)]);
            Planted(t, b + ("/" + token), h)
  {
    var p := "/" + token;
    var c := CatchAllPair(p, h);
    assert p[2..] == token[1..];
    CatchAllPairSpec(p, h);
    var t := n.(path := b, indices := "/", children := [c]);
    ChainRoutes(t, c, Route(p, h));
    assert RoleOf(t) != Broken;
  }

  lemma CatchAllPairSpec(path: string, h: Handle)
    requires IsCatchAll(path) && IsName(path[2..])
    ensures var c := CatchAllPair(path, h);
            Ok(c) && c.nType == CatchAll && c.path == "" && Routes(c) == {Route(path, h)}
  {
    var c := CatchAllPair(path, h);
    assert RoleOf(c.children[0]) != Broken && Ok(c.children[0]);
    CatchAllRoutes(c);
  }

  // ----- the end of the walk

  /** The new pattern is compatible with everything registered under `t`. */
  ghost predicate Clear(t: Trie, p: string) {
    forall r :: r in Routes(t) ==> Compatible(r.pattern, p)
  }

  ghost predicate StaticNode(n: Trie) {
    Ok(n) && n.nType in {Static, Root} && n.path != ""
  }

  /** No edge of `n` continues with `rest`. */
  predicate NoEdge(n: Trie, rest: string) {
    rest == "" || (!n.wildChild && rest[0] !in n.indices)
  }

  /** `t'` is a sound tree that can stand where `t` stood. */
  ghost predicate Replaces(t: Trie, t': Trie) {
    && Ok(t') && t'.nType == t.nType != CatchAll && t.path != "" && StartsWith(t'.path, t.path[0])
    && (t.nType == Param ==> t'.path == t.path)
  }

  /** `t'` replaces `t` and has exactly one more route. */
  ghost predicate Grown(t: Trie, t': Trie, p: string, h: Handle) {
    Replaces(t, t') && Routes(t') == Routes(t) + {Route(p, h)}
  }

  lemma AttachHandle(n: Trie, h: Handle)
    requires StaticNode(n)
    ensures Attach(n, "", h).Some? <==> WellFormed(n.path) && Clear(n, n.path)
    ensures Attach(n, "", h).Some? ==> Grown(n, Attach(n, "", h).value, n.path, h)
  {
    WellFormedPlain(n.path, "");
    assert n.path + "" == n.path;
    if n.handle.Some? {
      assert Route(n.path, n.handle.value) in Routes(n);
      CompatiblePlain(n.path, "", "");
    } else {
      forall r | r in Routes(n) ensures Compatible(r.pattern, n.path) {
        var k, tail := StaticRoute(n, r);
        CompatiblePlain(n.path, tail, "");
      }
      assert RoleOf(Attach(n, "", h).value) != Broken;
    }
  }

  lemma AttachStar(n: Trie, rest: string, h: Handle)
    requires StaticNode(n) && StartsWith(rest, '*')
    ensures Attach(n, rest, h).None?
    ensures !(WellFormed(n.path + rest) && Clear(n, n.path + rest))
  {
    assert FindWildcard(rest).Wildcard? && FindWildcard(rest).before == "";
    if WellFormed(n.path + rest) {
      var r := SomeRoute(n);
      var k, tail := StaticRoute(n, r);
      StarAfterPlain(n.path, rest, tail);
    }
  }

  lemma AttachParam(n: Trie, rest: string, h: Handle)
    requires StaticNode(n) && !n.wildChild && StartsWith(rest, ':')
    ensures Attach(n, rest, h).Some? <==> WellFormed(n.path + rest) && Clear(n, n.path + rest)
    ensures Attach(n, rest, h).Some? ==> Grown(n, Attach(n, rest, h).value, n.path + rest, h)
  {
    WellFormedPlain(n.path, rest);
    if n.children != [] {
      var c := n.children[0];
      assert Ok(c) && IsEdge(c, n.indices[0]);
      var r := SomeRoute(c);
      EdgeRoute(c, n.indices[0], r);
      RouteBelow(n, 0, r);
      CompatiblePlain(n.path, r.pattern, rest);
    } else {
      LeafRoutes(n);
      CompatiblePlain(n.path, "", rest);
      assert n.path + "" == n.path;
      AttachParamLeaf(n, rest, h);
    }
  }

  lemma AttachParamLeaf(n: Trie, rest: string, h: Handle)
    requires StaticNode(n) && !n.wildChild && n.children == [] && StartsWith(rest, ':')
    ensures Attach(n, rest, h).Some? <==> WellFormed(rest)
    ensures Attach(n, rest, h).Some? ==> Grown(n, Attach(n, rest, h).value, n.path + rest, h)
  {
    var w := FindWildcard(rest);
    WellFormedAtWild(rest, w);
    if IsName(w.token[1..]) {
      ParamNodeSpec(w.token, w.after, h);
      if WellFormed(w.after) {
        assert w.token + w.after == rest;
        GateOnLeaf(n, ParamNode(w.token, w.after, h).value, rest, h);
      }
    }
  }

  lemma GateOnLeaf(n: Trie, c: Trie, rest: string, h: Handle)
    requires StaticNode(n) && !n.wildChild && n.children == []
    requires Ok(c) && c.nType == Param && Routes(c) == {Route(rest, h)}
    ensures Grown(n, n.(wildChild := true, children := [c]), n.path + rest, h)
  {
    GateOnLeafOk(n, c);
    GateOnLeafRoutes(n, c, rest, h);
  }

  lemma GateOnLeafOk(n: Trie, c: Trie)
    requires StaticNode(n) && !n.wildChild && n.children == []
    requires Ok(c) && c.nType == Param
    ensures Replaces(n, n.(wildChild := true, children := [c]))
  {
    assert RoleOf(n.(wildChild := true, children := [c])) != Broken;
  }

  lemma GateOnLeafRoutes(n: Trie, c: Trie, rest: string, h: Handle)
    requires n.children == [] && Routes(c) == {Route(rest, h)}
    ensures Routes(n.(wildChild := true, children := [c])) == Routes(n) + {Route(n.path + rest, h)}
  {
    RoutesOfOne(c);
    assert RoutesOf([]) == {};
  }

  lemma AddEdgeRoutes(n: Trie, rest: string, h: Handle)
    requires rest != "" && |n.indices| == |n.children| && !IsWild(rest[0])
    ensures AddEdge(n, rest, h).Some? <==> WellFormed(rest)
    ensures AddEdge(n, rest, h).Some? ==>
              Routes(AddEdge(n, rest, h).value) == Routes(n) + {Route(n.path + rest, h)}
  {
    InsertChildFresh(Fresh(1), rest, h);
    if WellFormed(rest) {
      var c := InsertChild(Fresh(1), rest, h).value;
      var m := n.(indices := n.indices + [rest[0]], children := n.children + [c]);
      WiderRoutes(n, n.indices + [rest[0]], c, Route(rest, h));
      RepositionRoutes(m, |n.children|);
      assert AddEdge(n, rest, h) == Some(Reposition(m, |n.children|));
    }
  }

  lemma WiderRoutes(n: Trie, indices: string, c: Trie, r: Route)
    requires Routes(c) == {r}
    ensures Routes(n.(indices := indices, children := n.children + [c]))
            == Routes(n) + {Route(n.path + r.pattern, r.handle)}
  {
    AppendRoutes(n.children, c);
    PrefixedUnion(n.path, RoutesOf(n.children), r);
  }

  lemma AddEdgeOk(n: Trie, rest: string, h: Handle)
    requires StaticNode(n) && !n.wildChild && rest != "" && !IsWild(rest[0]) && rest[0] !in n.indices
    requires AddEdge(n, rest, h).Some?
    ensures Replaces(n, AddEdge(n, rest, h).value)
  {
    InsertChildFresh(Fresh(1), rest, h);
    var c := InsertChild(Fresh(1), rest, h).value;
    var m := n.(indices := n.indices + [rest[0]], children := n.children + [c]);
    assert StaticLocal(m);
    assert RoleOf(m) != Broken;
    RepositionOk(m, |n.children|);
  }

  lemma AddEdgeClear(n: Trie, rest: string)
    requires StaticNode(n) && !n.wildChild && rest != "" && !IsWild(rest[0]) && rest[0] !in n.indices
    ensures Clear(n, n.path + rest)
  {
    forall r | r in Routes(n) ensures Compatible(r.pattern, n.path + rest) {
      var k, tail := StaticRoute(n, r);
      CompatiblePlain(n.path, tail, rest);
    }
  }

  /** Where the walk stops at a static node, attaching succeeds exactly when the whole pattern is
      acceptable, and then adds exactly that pattern. */
  lemma AttachStatic(n: Trie, rest: string, h: Handle)
    requires StaticNode(n) && NoEdge(n, rest)
    ensures Attach(n, rest, h).Some? <==> WellFormed(n.path + rest) && Clear(n, n.path + rest)
    ensures Attach(n, rest, h).Some? ==> Grown(n, Attach(n, rest, h).value, n.path + rest, h)
  {
    if rest == "" {
      AttachHandle(n, h);
      assert n.path + rest == n.path;
    } else if rest[0] == '*' {
      AttachStar(n, rest, h);
    } else if rest[0] == ':' {
      AttachParam(n, rest, h);
    } else {
      WellFormedPlain(n.path, rest);
      AddEdgeRoutes(n, rest, h);
      AddEdgeClear(n, rest);
      if WellFormed(rest) {
        AddEdgeOk(n, rest, h);
      }
    }
  }
}
