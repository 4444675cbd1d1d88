/** The one index out of range in registration: exactly which patterns reach it. A '*' that comes straight after
    a registered pattern has no byte before it in what is left of the new one, yet that byte is looked at. */
module IndexFault {
  import opened Bytes
  import opened Pattern
  import opened RadixTree
  import opened Denotation
  import opened RouteTable
  import opened ByteScan

  /** Filling node `n` looks at the byte before a '*' at the start of `path`; all earlier checks have passed. */
  predicate ChildFaults(n: Trie, path: string)
    decreases |path|
  {
    match FindWildcard(path)
    case NoWildcard => false
    case Wildcard(before, token, after) =>
      && IsName(token[1..]) && n.children == []
      && if token[0] == ':' then after != "" && ChildFaults(Fresh(1), after)
         else after == "" && !EndsInSlash(n.path) && before == ""
  }

  /** The walk of a registration ends where this happens. */
  predicate WalkFaults(t: Trie, path: string)
    decreases t
  {
    match Next(t, path)
    case Stop(n, rest) => rest != "" && ChildFaults(if IsWild(rest[0]) then n else Fresh(1), rest)
    case Clash => false
    case Down(k, rest) => WalkFaults(t.children[k], rest)
  }

  predicate Faults(t: Trie, path: string) {
    if t.path == "" && t.indices == "" then ChildFaults(t, path) else WalkFaults(t, path)
  }

  /** An index out of range is a rejection like any other. */
  lemma FaultRejects(t: Trie, path: string, h: Handle)
    requires Faults(t, path)
    ensures AddRoute(t, path, h).None?
  {
    if t.path == "" && t.indices == "" {
      ChildFaultRejects(t.(priority := t.priority + 1), path, h);
    } else {
      WalkFaultRejects(t, path, h);
    }
  }

  lemma {:induction false} ChildFaultRejects(n: Trie, path: string, h: Handle)
    requires ChildFaults(n, path)
    ensures InsertChild(n, path, h).None?
    decreases |path|
  {
    var w := FindWildcard(path);
    if w.token[0] == ':' {
      ChildFaultRejects(Fresh(1), w.after, h);
    }
  }

  lemma {:induction false} WalkFaultRejects(t: Trie, path: string, h: Handle)
    requires WalkFaults(t, path)
    ensures Insert(t, path, h).None?
    decreases t
  {
    match Next(t, path)
    case Stop(n, rest) => ChildFaultRejects(if IsWild(rest[0]) then n else Fresh(1), rest, h);
    case Down(k, rest) => WalkFaultRejects(t.children[k], rest, h);
  }

  // ----- in terms of the patterns

  /** The last segment of `p` has no wildcard. */
  predicate PlainTail(p: string)
    decreases |p|
  {
    if p == "" then true
    else if IsWild(p[0]) then SegEnd(p) < |p| && PlainTail(p[SegEnd(p)..])
    else PlainTail(p[1..])
  }

  /** `p` is `q` and a named '*' right after it. */
  predicate Dangles(q: string, p: string) {
    q < p && p[|q|] == '*' && IsName(p[|q| + 1..]) && !EndsInSlash(q) && PlainTail(q)
  }

  /** `p` dangles from one of the patterns, and no other continues that one. */
  ghost predicate Dangling(rs: set<Route>, p: string) {
    exists r :: r in rs && Dangles(r.pattern, p) && !Continued(rs, r.pattern)
  }

  ghost predicate Continued(rs: set<Route>, q: string) {
    exists r :: r in rs && q < r.pattern
  }

  lemma {:induction false} PlainTailPlain(a: string, q: string)
    requires Plain(a)
    ensures PlainTail(a + q) == PlainTail(q)
    decreases |a|
  {
    if a == "" {
      assert a + q == q;
    } else {
      assert (a + q)[1..] == a[1..] + q;
      PlainTailPlain(a[1..], q);
    }
  }

  lemma PlainTailParam(w: string, q: string)
    requires StartsWith(w, ':') && IsName(w[1..]) && (q == "" || q[0] == '/')
    ensures PlainTail(w + q) == (q != "" && PlainTail(q))
  {
    assert w == ":" + w[1..];
    ParamToken(w[1..], q);
  }

  /** What comes before does not matter. */
  lemma DanglesAfter(a: string, q: string, rest: string)
    requires q != "" && PlainTail(a + q) == PlainTail(q)
    ensures Dangles(a + q, a + rest) == Dangles(q, rest)
  {
    assert a + q < a + rest <==> q < rest by {
      if a + q < a + rest {
        assert (a + rest)[|a|..] == rest && (a + rest)[..|a + q|] == a + q;
        assert rest[..|q|] == (a + rest)[|a|..|a| + |q|];
      }
    }
    if q < rest {
      assert (a + rest)[|a| + |q| + 1..] == rest[|q| + 1..];
    }
  }

  lemma ContinuesAfter(a: string, q: string, q': string)
    ensures a + q < a + q' <==> q < q'
  {
    if a + q < a + q' {
      assert (a + q')[|a|..|a| + |q|] == (a + q)[|a|..];
      assert q'[..|q|] == (a + q')[|a|..|a| + |q|];
    }
  }

  // ----- the walk

  lemma {:induction false} NoFaultInside(n: Trie, path: string)
    requires path != "" && path[0] != '*'
    ensures !ChildFaults(n, path)
    decreases |path|
  {
    var w := FindWildcard(path);
    if w.Wildcard? && w.after != "" && w.token[0] == ':' {
      NoFaultInside(Fresh(1), w.after);
    }
  }

  /** Where the walk stops at a node. */
  lemma FaultHere(n: Trie, rest: string)
    requires rest != ""
    ensures ChildFaults(if IsWild(rest[0]) then n else Fresh(1), rest)
            <==> n.children == [] && !EndsInSlash(n.path) && rest[0] == '*' && IsName(rest[1..])
  {
    if rest[0] == '*' {
      var e := SegEnd(rest);
      assert FindWildcard(rest) == Wildcard("", rest[..e], rest[e..]);
      if IsName(rest[1..]) {
        SegEndUnique(rest, |rest|);
      }
      assert e == |rest| ==> rest[..e] == rest;
    } else {
      NoFaultInside(n, rest);
      NoFaultInside(Fresh(1), rest);
    }
  }

  /** Edge `k` of the static node `t` starts with the first byte of `rest`. */
  predicate Leads(t: Trie, k: nat, rest: string) {
    && t.nType in {Static, Root} && k < |t.children| && rest != ""
    && if t.wildChild then rest[0] == ':' else k < |t.indices| && t.indices[k] == rest[0]
  }

  /** Only the child behind the edge counts. */
  lemma DanglingBelow(t: Trie, k: nat, rest: string)
    requires Ok(t) && Leads(t, k, rest)
    ensures Dangling(Routes(t), t.path + rest) <==> Dangling(Routes(t.children[k]), rest)
  {
    if Dangling(Routes(t), t.path + rest) {
      DanglingDown(t, k, rest);
    }
    if Dangling(Routes(t.children[k]), rest) {
      DanglingUp(t, k, rest);
    }
  }

  lemma DanglingDown(t: Trie, k: nat, rest: string)
    requires Ok(t) && Leads(t, k, rest) && Dangling(Routes(t), t.path + rest)
    ensures Dangling(Routes(t.children[k]), rest)
  {
    var r :| r in Routes(t) && Dangles(r.pattern, t.path + rest) && !Continued(Routes(t), r.pattern);
    var j, tail := StaticRoute(t, r);
    assert (t.path + rest)[|t.path|] == rest[0];
    PlainTailPlain(t.path, tail);
    DanglesAfter(t.path, tail, rest);
    assert j == k && Route(tail, r.handle) in Routes(t.children[k]);
    ContinuedBelow(t, k, tail);
  }

  lemma DanglingUp(t: Trie, k: nat, rest: string)
    requires Ok(t) && Leads(t, k, rest) && Dangling(Routes(t.children[k]), rest)
    ensures Dangling(Routes(t), t.path + rest)
  {
    var rs := Routes(t.children[k]);
    var q :| q in rs && Dangles(q.pattern, rest) && !Continued(rs, q.pattern);
    RouteBelow(t, k, q);
    assert rest[0] != '*' && (q.pattern != "" ==> q.pattern[0] == rest[0]);
    PlainTailPlain(t.path, q.pattern);
    DanglesAfter(t.path, q.pattern, rest);
    ContinuedBelow(t, k, q.pattern);
    assert Dangles(Route(t.path + q.pattern, q.handle).pattern, t.path + rest);
  }

  lemma ContinuedBelow(t: Trie, k: nat, q: string)
    requires Ok(t) && Leads(t, k, q)
    ensures Continued(Routes(t), t.path + q) <==> Continued(Routes(t.children[k]), q)
  {
    if Continued(Routes(t), t.path + q) {
      var r :| r in Routes(t) && t.path + q < r.pattern;
      var j, tail := StaticRoute(t, r);
      ContinuesAfter(t.path, q, tail);
      assert j == k && Route(tail, r.handle) in Routes(t.children[k]);
    }
    if Continued(Routes(t.children[k]), q) {
      var r :| r in Routes(t.children[k]) && q < r.pattern;
      RouteBelow(t, k, r);
      ContinuesAfter(t.path, q, r.pattern);
    }
  }

  /** No edge of the static node `t` starts with the first byte of `rest`. */
  lemma DanglingHere(t: Trie, rest: string)
    requires Ok(t) && t.nType in {Static, Root} && rest != "" && forall k :: !Leads(t, k, rest)
    ensures Dangling(Routes(t), t.path + rest)
            <==> t.children == [] && !EndsInSlash(t.path) && rest[0] == '*' && IsName(rest[1..])
  {
    var p := t.path + rest;
    assert p[|t.path|] == rest[0] && p[|t.path| + 1..] == rest[1..];
    PlainTailPlain(t.path, "");
    assert t.path + "" == t.path;
    if Dangling(Routes(t), p) {
      var r :| r in Routes(t) && Dangles(r.pattern, p) && !Continued(Routes(t), r.pattern);
      var j, tail := StaticRoute(t, r);
      assert j == |t.children| by {
        if j < |t.children| {
          assert p[|t.path|] == tail[0];
          assert Leads(t, j, rest);
        }
      }
      if t.children != [] {
        OwnContinued(t);
      }
    }
    if t.children == [] && !EndsInSlash(t.path) && rest[0] == '*' && IsName(rest[1..]) {
      LeafRoutes(t);
      assert Dangles(t.path, p) && !Continued(Routes(t), t.path);
    }
  }

  lemma OwnContinued(t: Trie)
    requires Ok(t) && t.nType in {Static, Root} && t.children != []
    ensures Continued(Routes(t), t.path)
  {
    var q := SomeRoute(t.children[0]);
    RouteBelow(t, 0, q);
    var j, tail := StaticRoute(t, Route(t.path + q.pattern, q.handle));
    NeverEmpty(t.children[0], q);
    assert t.path < t.path + q.pattern;
  }

  lemma NeverEmpty(c: Trie, q: Route)
    requires Ok(c) && q in Routes(c) && (c.nType == CatchAll ==> c.path == "")
    ensures q.pattern != ""
  {
    match c.nType
    case CatchAll => CatchAllRoutes(c);
    case Param => var tail := ParamRoute(c, q);
    case _ =>
      var j, tail := StaticRoute(c, q);
  }

  lemma DanglingParam(t: Trie, rest: string)
    requires Ok(t) && t.nType == Param && (rest == "" || rest[0] == '/')
    ensures Dangling(Routes(t), t.path + rest)
            <==> rest != "" && |t.children| == 1 && Dangling(Routes(t.children[0]), rest)
  {
    var p := t.path + rest;
    if Dangling(Routes(t), p) {
      var r :| r in Routes(t) && Dangles(r.pattern, p) && !Continued(Routes(t), r.pattern);
      var tail := ParamRoute(t, r);
      PlainTailParam(t.path, tail);
      assert tail != "" && |t.children| == 1;
      DanglesAfter(t.path, tail, rest);
      ContinuedParam(t, tail);
    }
    if rest != "" && |t.children| == 1 && Dangling(Routes(t.children[0]), rest) {
      var rs := Routes(t.children[0]);
      var q :| q in rs && Dangles(q.pattern, rest) && !Continued(rs, q.pattern);
      EdgeRoute(t.children[0], '/', q);
      RouteBelow(t, 0, q);
      PlainTailParam(t.path, q.pattern);
      DanglesAfter(t.path, q.pattern, rest);
      ContinuedParam(t, q.pattern);
    }
  }

  lemma ContinuedParam(t: Trie, q: string)
    requires Ok(t) && t.nType == Param && |t.children| == 1 && q != ""
    ensures Continued(Routes(t), t.path + q) <==> Continued(Routes(t.children[0]), q)
  {
    if Continued(Routes(t), t.path + q) {
      var r :| r in Routes(t) && t.path + q < r.pattern;
      var tail := ParamRoute(t, r);
      ContinuesAfter(t.path, q, tail);
      assert Route(tail, r.handle) in Routes(t.children[0]);
    }
    if Continued(Routes(t.children[0]), q) {
      var r :| r in Routes(t.children[0]) && q < r.pattern;
      RouteBelow(t, 0, r);
      ContinuesAfter(t.path, q, r.pattern);
    }
  }

  /** The new pattern leaves the path of the static node, or ends with it. */
  lemma DanglingLeaves(t: Trie, p: string)
    requires Ok(t) && t.nType in {Static, Root} && !(t.path <= p && |t.path| < |p|)
    ensures !Dangling(Routes(t), p)
  {
    forall r | r in Routes(t) ensures !(r.pattern < p) {
      var j, tail := StaticRoute(t, r);
    }
  }

  lemma DanglingCatchAll(t: Trie, p: string)
    requires Ok(t) && t.nType == CatchAll && t.path == ""
    ensures !Dangling(Routes(t), p)
  {
    CatchAllRoutes(t);
    var q := t.children[0].path;
    assert Ok(t.children[0]) && q[1..][0] == '*' && SegEnd(q[1..]) == |q[1..]| by {
      SegEndUnique(q[1..], |q| - 1);
    }
    assert !PlainTail(q);
  }

  // ----- the walk

  lemma {:induction false} WalkFaultsExact(t: Trie, p: string)
    requires Ok(t) && Enters(t, p)
    ensures WalkFaults(t, p) <==> Dangling(Routes(t), p)
    decreases t
  {
    var i := CommonPrefix(p, t.path);
    var rest := p[i..];
    if t.nType == CatchAll {
      DanglingCatchAll(t, p);
    } else if t.nType == Param {
      WalkFaultsParam(t, p);
    } else if i < |t.path| || rest == "" {
      DanglingLeaves(t, p);
      if rest != "" {
        FaultHere(Split(t, i), rest);
      }
    } else {
      assert p == t.path + rest;
      WalkFaultsOn(t, p, rest);
    }
  }

  lemma {:induction false} WalkFaultsParam(t: Trie, p: string)
    requires Ok(t) && t.nType == Param && Enters(t, p)
    ensures WalkFaults(t, p) <==> Dangling(Routes(t), p)
    decreases t, 0
  {
    var rest := p[|t.path|..];
    CommonPrefixUnique(p, t.path, |t.path|);
    assert p == t.path + rest;
    DanglingParam(t, rest);
    if rest != "" {
      if |t.children| == 1 {
        assert IsEdge(t.children[0], '/') && Ok(t.children[0]);
        WalkFaultsExact(t.children[0], rest);
      } else {
        FaultHere(t.(priority := t.priority + 1), rest);
      }
    }
  }

  /** The path of the static node is used up, and something is left. */
  lemma {:induction false} WalkFaultsOn(t: Trie, p: string, rest: string)
    requires Ok(t) && t.nType in {Static, Root} && p == t.path + rest && rest != ""
    requires CommonPrefix(p, t.path) == |t.path|
    ensures WalkFaults(t, p) <==> Dangling(Routes(t), p)
    decreases t, 1
  {
    var t' := t.(priority := t.priority + 1);
    assert p[|t.path|..] == rest;
    if t.wildChild {
      if rest[0] == ':' {
        DanglingBelow(t, 0, rest);
        WalkFaultsWild(t, rest);
      } else {
        DanglingHere(t, rest);
      }
    } else {
      var k := IndexOf(t.indices, rest[0]);
      if k < |t.indices| {
        assert Ok(t.children[k]) && IsEdge(t.children[k], rest[0]) && Next(t, p) == Down(k, rest);
        DanglingBelow(t, k, rest);
        WalkFaultsExact(t.children[k], rest);
      } else {
        DanglingHere(t, rest);
        FaultHere(t', rest);
      }
    }
  }

  /** At a wildcard: the new pattern goes on with it, or clashes with it. */
  lemma {:induction false} WalkFaultsWild(t: Trie, rest: string)
    requires Ok(t) && t.nType in {Static, Root} && t.wildChild && rest != ""
    ensures Dangling(Routes(t.children[0]), rest)
            <==> FitsWildcard(t.children[0], rest) && WalkFaults(t.children[0], rest)
    decreases t, 0
  {
    var c := t.children[0];
    assert Ok(c) && c.nType == Param;
    if FitsWildcard(c, rest) {
      WalkFaultsExact(c, rest);
    } else if Dangling(Routes(c), rest) {
      DanglingFits(c, rest);
    }
  }

  lemma DanglingFits(c: Trie, rest: string)
    requires Ok(c) && c.nType == Param && Dangling(Routes(c), rest)
    ensures FitsWildcard(c, rest)
  {
    var r :| r in Routes(c) && Dangles(r.pattern, rest);
    var tail := ParamRoute(c, r);
    PlainTailParam(c.path, tail);
    PrefixGoesOn(c.path, tail, rest);
  }

  lemma PrefixGoesOn(w: string, tail: string, rest: string)
    requires tail != "" && w + tail < rest
    ensures w <= rest && |w| < |rest| && rest[|w|] == tail[0]
  {
    assert rest[..|w|] == (w + tail)[..|w|] && rest[|w|] == (w + tail)[|w|];
  }

  /** Registration looks at a byte that is not there exactly when the pattern is a registered one, whose last
      segment is plain and does not end it with a slash, that no other pattern continues, and a named '*' after it. */
  lemma FaultsExactly(t: Trie, p: string)
    requires TreeOk(t) && StartsWith(p, '/')
    ensures Faults(t, p) <==> Dangling(Routes(t), p)
  {
    if t == Fresh(0) {
      NoRoutes();
      NoFaultInside(t, p);
    } else {
      WalkFaultsExact(t, p);
    }
  }

  /** For instance, a single plain pattern that does not end in '/', and the same with a named '*' after it. */
  lemma FaultAfterPlain(p: string, name: string, h: Handle)
    requires Plain(p) && StartsWith(p, '/') && !EndsInSlash(p) && IsName(name)
    ensures var o := AddRoute(Fresh(0), p, h);
            o.Some? && Faults(o.value, p + ("*" + name))
  {
    WildcardNone(p);
    NoRoutes();
    AddRouteSpec(Fresh(0), p, h);
    var t := AddRoute(Fresh(0), p, h).value;
    LeafRoutes(t);
    DanglingHere(t, "*" + name);
    FaultsExactly(t, p + ("*" + name));
  }
}
