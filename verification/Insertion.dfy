/** The walk of a registration. Two facts about it: exactly when a pattern is accepted, and what the
    tree holds afterwards. */
module Insertion {
  import opened Bytes
  import opened Pattern
  import opened RadixTree
  import opened Denotation
  import opened Registration

  // ----- what acceptance means at a node

  /** Edge `k` of the static node `t` continues with `rest`. */
  predicate Follows(t: Trie, k: nat, rest: string) {
    && t.nType in {Static, Root} && k < |t.children| && !StartsWith(rest, '*')
    && if t.wildChild then k == 0 && rest != "" else k < |t.indices| && StartsWith(rest, t.indices[k])
  }

  /** Below the edge the new pattern follows, nothing else of `t` matters. */
  lemma ClearBelow(t: Trie, k: nat, rest: string)
    requires Ok(t) && Follows(t, k, rest)
    ensures WellFormed(t.path + rest) == WellFormed(rest)
    ensures Clear(t, t.path + rest) <==> Clear(t.children[k], rest)
  {
    WellFormedPlain(t.path, rest);
    var c := t.children[k];
    if Clear(t, t.path + rest) {
      forall r | r in Routes(c) ensures Compatible(r.pattern, rest) {
        RouteBelow(t, k, r);
        var j, tail := StaticRoute(t, Route(t.path + r.pattern, r.handle));
        assert tail == r.pattern;
        CompatiblePlain(t.path, tail, rest);
      }
    }
    if Clear(c, rest) {
      forall r | r in Routes(t) ensures Compatible(r.pattern, t.path + rest) {
        var j, tail := StaticRoute(t, r);
        CompatiblePlain(t.path, tail, rest);
        assert j == k ==> Compatible(Route(tail, r.handle).pattern, rest);
      }
    }
  }

  lemma ParamStrip(w: string, p: string, q: string)
    requires StartsWith(w, ':') && IsName(w[1..])
    requires p == "" || p[0] == '/'
    requires q == "" || q[0] == '/'
    ensures WellFormed(w + p) == WellFormed(p)
    ensures Compatible(w + p, w + q) == Compatible(p, q)
  {
    assert w == ":" + w[1..];
    ParamToken(w[1..], p);
    ParamToken(w[1..], q);
    assert (w + p)[1..|w|] == w[1..];
  }

  lemma ClearParam(t: Trie, rest: string)
    requires Ok(t) && t.nType == Param
    requires rest == "" || rest[0] == '/'
    ensures WellFormed(t.path + rest) == WellFormed(rest)
    ensures rest == "" ==> (Clear(t, t.path + rest) <==> t.handle.None?)
    ensures rest != "" && |t.children| == 0 ==> Clear(t, t.path + rest)
    ensures rest != "" && |t.children| == 1 ==> (Clear(t, t.path + rest) <==> Clear(t.children[0], rest))
  {
    ParamStrip(t.path, "", rest);
    assert t.path + "" == t.path;
    if t.handle.Some? {
      assert Route(t.path, t.handle.value) in Routes(t);
    }
    if |t.children| == 1 && Clear(t, t.path + rest) {
      forall r | r in Routes(t.children[0]) ensures Compatible(r.pattern, rest) {
        RouteBelow(t, 0, r);
        EdgeRoute(t.children[0], '/', r);
        ParamStrip(t.path, r.pattern, rest);
      }
    }
    if (rest == "" && t.handle.None?) || (rest != "" && (|t.children| == 1 ==> Clear(t.children[0], rest))) {
      forall r | r in Routes(t) ensures Compatible(r.pattern, t.path + rest) {
        var tail := ParamRoute(t, r);
        ParamStrip(t.path, tail, rest);
        assert |t.children| == 1 && tail != "" && rest != "" ==> Compatible(Route(tail, r.handle).pattern, rest);
      }
    }
  }

  lemma WildcardMismatch(t: Trie, rest: string)
    requires Ok(t) && t.nType in {Static, Root} && t.wildChild && rest != ""
    requires !FitsWildcard(t.children[0], rest)
    ensures !(WellFormed(t.path + rest) && Clear(t, t.path + rest))
  {
    var c := t.children[0];
    var r := SomeRoute(c);
    var tail := ParamRoute(c, r);
    RouteBelow(t, 0, r);
    if rest[0] == '*' {
      if WellFormed(t.path + rest) {
        StarAfterPlain(t.path, rest, r.pattern);
      }
    } else {
      CompatiblePlain(t.path, r.pattern, rest);
      var e := SegEnd(rest);
      assert rest[..e] == c.path ==> c.path <= rest;
    }
  }

  // ----- one round of the walk

  lemma NextStatic(t: Trie, path: string) returns (step: Step)
    requires Ok(t) && t.nType in {Static, Root} && Enters(t, path)
    ensures step == Next(t, path)
    ensures step.Stop? ==>
              && StaticNode(step.n) && NoEdge(step.n, step.rest) && path == step.n.path + step.rest
              && Routes(step.n) == Routes(t) && step.n.nType == t.nType && t.path != ""
              && StartsWith(step.n.path, t.path[0])
    ensures step.Down? ==>
              Follows(t, step.k, step.rest) && path == t.path + step.rest && Enters(t.children[step.k], step.rest)
    ensures step.Clash? ==>
              && t.path <= path && t.wildChild && path[|t.path|..] != ""
              && !FitsWildcard(t.children[0], path[|t.path|..])
  {
    step := Next(t, path);
    var i := CommonPrefix(path, t.path);
    if i < |t.path| {
      SplitOk(t, i);
      SplitRoutes(t, i);
    } else {
      assert path == t.path + path[i..];
      if step.Stop? {
        BumpOk(t);
      } else if step.Down? && !t.wildChild {
        assert IsEdge(t.children[step.k], path[i]);
      }
    }
  }

  lemma BumpOk(t: Trie)
    requires Ok(t)
    ensures Ok(t.(priority := t.priority + 1)) && Routes(t.(priority := t.priority + 1)) == Routes(t)
  {
    assert RoleOf(t.(priority := t.priority + 1)) != Broken;
  }

  lemma NextParam(t: Trie, path: string)
    requires Ok(t) && t.nType == Param && Enters(t, path)
    ensures var rest := path[|t.path|..];
            && path == t.path + rest && (rest == "" || rest[0] == '/')
            && Next(t, path) == (if rest != "" && |t.children| == 1 then Down(0, rest)
                                 else Stop(t.(priority := t.priority + 1), rest))
            && (rest != "" && |t.children| == 1 ==> Enters(t.children[0], rest))
  {
    assert CommonPrefix(path, t.path) == |t.path|;
    assert path == t.path + path[|t.path|..];
  }

  lemma InsertCatchAll(t: Trie, path: string, h: Handle)
    requires Ok(t) && t.nType == CatchAll && Enters(t, path)
    ensures Insert(t, path, h).None? && !Clear(t, path)
  {
    assert Next(t, path) == Clash;
    CatchAllRoutes(t);
    var r := SomeRoute(t);
  }

  // ----- acceptance

  /** A pattern is accepted exactly when it is well formed and compatible with every pattern that is
      already there. */
  lemma {:induction false} InsertAccepts(t: Trie, path: string, h: Handle)
    requires Ok(t) && Enters(t, path)
    ensures Insert(t, path, h).Some? <==> WellFormed(path) && Clear(t, path)
    decreases t, 1
  {
    if t.nType == CatchAll {
      InsertCatchAll(t, path, h);
    } else if t.nType == Param {
      InsertAcceptsParam(t, path, h);
    } else {
      var step := NextStatic(t, path);
      match step
      case Stop(n, rest) =>
        AttachStatic(n, rest, h);
      case Down(k, rest) =>
        ClearBelow(t, k, rest);
        InsertAccepts(t.children[k], rest, h);
      case Clash =>
        WildcardMismatch(t, path[|t.path|..]);
        assert path == t.path + path[|t.path|..];
    }
  }

  lemma {:induction false} InsertAcceptsParam(t: Trie, path: string, h: Handle)
    requires Ok(t) && t.nType == Param && Enters(t, path)
    ensures Insert(t, path, h).Some? <==> WellFormed(path) && Clear(t, path)
    decreases t, 0
  {
    NextParam(t, path);
    var rest := path[|t.path|..];
    ClearParam(t, rest);
    if rest == "" {
    } else if |t.children| == 1 {
      InsertAccepts(t.children[0], rest, h);
    } else {
      AddEdgeRoutes(t.(priority := t.priority + 1), rest, h);
    }
  }

  // ----- what the tree holds afterwards

  lemma ReplaceChildOk(t: Trie, k: nat, c: Trie, priority: nat)
    requires Ok(t) && k < |t.children| && Replaces(t.children[k], c) && t.nType != CatchAll
    ensures Ok(t.(priority := priority, children := t.children[k := c]))
  {
    var t' := t.(priority := priority, children := t.children[k := c]);
    assert Ok(t.children[k]);
    if t.nType in {Static, Root} && !t.wildChild {
      assert t.path != "";
      assert IsEdge(t.children[k], t.indices[k]);
      assert forall j :: 0 <= j < |t'.children| ==> IsEdge(t'.children[j], t'.indices[j]);
    }
    assert RoleOf(t') != Broken;
  }

  lemma RegrowRoutes(t: Trie, k: nat, c: Trie, r: Route)
    requires k < |t.children| && (t.wildChild || t.nType == Param || |t.indices| == |t.children|)
    requires Routes(c) == Routes(t.children[k]) + {r}
    ensures Routes(Regrow(t, k, c)) == Routes(t) + {Route(t.path + r.pattern, r.handle)}
  {
    var n := t.(priority := t.priority + 1, children := t.children[k := c]);
    ReplaceRoutes(t.children, k, c, r);
    PrefixedUnion(t.path, RoutesOf(t.children), r);
    if !t.wildChild && t.nType != Param {
      RepositionRoutes(n, k);
    }
  }

  lemma RegrowOk(t: Trie, k: nat, c: Trie)
    requires Ok(t) && t.nType != CatchAll && k < |t.children| && Replaces(t.children[k], c)
    requires t.wildChild || t.nType == Param || |t.indices| == |t.children|
    ensures Replaces(t, Regrow(t, k, c))
  {
    assert t.path != "";
    ReplaceChildOk(t, k, c, t.priority + 1);
    if !t.wildChild && t.nType != Param {
      RepositionOk(t.(priority := t.priority + 1, children := t.children[k := c]), k);
    }
  }

  lemma ParamHandle(t: Trie, h: Handle)
    requires Ok(t) && t.nType == Param && t.handle.None?
    ensures Grown(t, t.(priority := t.priority + 1, handle := Some(h)), t.path, h)
  {
    assert RoleOf(t.(priority := t.priority + 1, handle := Some(h))) != Broken;
  }

  lemma ParamEdge(t: Trie, rest: string, h: Handle)
    requires Ok(t) && t.nType == Param && t.children == [] && StartsWith(rest, '/')
    requires AddEdge(t.(priority := t.priority + 1), rest, h).Some?
    ensures Grown(t, AddEdge(t.(priority := t.priority + 1), rest, h).value, t.path + rest, h)
  {
    var n := t.(priority := t.priority + 1);
    AddEdgeRoutes(n, rest, h);
    InsertChildFresh(Fresh(1), rest, h);
    var c := InsertChild(Fresh(1), rest, h).value;
    AddOnlyEdge(n, rest, c, h);
    ParamOnLeaf(t, c);
  }

  lemma AddOnlyEdge(n: Trie, rest: string, c: Trie, h: Handle)
    requires n.children == [] && n.indices == "" && rest != "" && InsertChild(Fresh(1), rest, h) == Some(c)
    ensures AddEdge(n, rest, h) == Some(n.(indices := [rest[0]], children := [c]))
  {
    var m := n.(indices := n.indices + [rest[0]], children := n.children + [c]);
    assert m.indices == [rest[0]] && m.children == [c];
    assert Promote(m.indices, 0, 0) == m.indices && Promote(m.children, 0, 0) == m.children;
  }

  lemma ParamOnLeaf(t: Trie, c: Trie)
    requires Ok(t) && t.nType == Param && t.children == []
    requires Ok(c) && c.nType == Static && IsEdge(c, '/')
    ensures Replaces(t, t.(priority := t.priority + 1, indices := "/", children := [c]))
  {
    assert RoleOf(t.(priority := t.priority + 1, indices := "/", children := [c])) != Broken;
  }

  /** A successful registration adds exactly the new route, and keeps the tree in shape. */
  lemma {:induction false} InsertGrows(t: Trie, path: string, h: Handle)
    requires Ok(t) && Enters(t, path) && Insert(t, path, h).Some?
    ensures Grown(t, Insert(t, path, h).value, path, h)
    decreases t
  {
    if t.nType == CatchAll {
      InsertCatchAll(t, path, h);
    } else {
      if t.nType == Param {
        NextParam(t, path);
      } else {
        var step := NextStatic(t, path);
      }
      match Next(t, path)
      case Stop(n, rest) =>
        if t.nType == Param && rest == "" {
          ParamHandle(t, h);
          assert path == t.path;
        } else if t.nType == Param {
          ParamEdge(t, rest, h);
        } else {
          AttachStatic(n, rest, h);
        }
      case Down(k, rest) =>
        InsertGrows(t.children[k], rest, h);
        var c := Insert(t.children[k], rest, h).value;
        RegrowRoutes(t, k, c, Route(rest, h));
        RegrowOk(t, k, c);
    }
  }
}
