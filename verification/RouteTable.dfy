/** Runs of registrations. A tree built from a list of routes behaves as a scan of that list, and
    whether the list is accepted does not depend on its order. */
module RouteTable {
  import opened Bytes
  import opened Pattern
  import opened RadixTree
  import opened Registration
  import opened Insertion
  import opened Priorities
  import opened Lookup

  /** Registers the routes one after the other, from the zero node; nothing after a rejection. */
  function Build(rs: seq<Route>): Option<Trie> {
    if rs == [] then Some(Fresh(0))
    else
      match Build(rs[..|rs| - 1])
      case None => None
      case Some(t) => AddRoute(t, rs[|rs| - 1].pattern, rs[|rs| - 1].handle)
  }

  lemma BuildFirst(r: Route)
    ensures Build([r]) == AddRoute(Fresh(0), r.pattern, r.handle)
  {
    assert [r][..0] == [];
  }

  lemma BuildSnoc(rs: seq<Route>, r: Route)
    ensures Build(rs + [r]) == if Build(rs).Some? then AddRoute(Build(rs).value, r.pattern, r.handle) else None
  {
    assert (rs + [r])[..|rs|] == rs;
  }

  /** Every pattern is rooted, as the router demands of its callers. */
  predicate Rooted(rs: seq<Route>) {
    forall i :: 0 <= i < |rs| ==> StartsWith(rs[i].pattern, '/')
  }

  /** What makes a list acceptable: a condition on single routes and on pairs. */
  predicate Admissible(rs: seq<Route>) {
    && (forall i :: 0 <= i < |rs| ==> WellFormed(rs[i].pattern))
    && (forall i, j :: 0 <= i < j < |rs| ==> Compatible(rs[i].pattern, rs[j].pattern))
  }

  /** The specification of lookup: the first route of the list that matches. */
  function Scan(rs: seq<Route>, s: string): Option<(Handle, seq<Binding>)> {
    if rs == [] then None
    else if Match(rs[0].pattern, s).Some? then Some((rs[0].handle, Match(rs[0].pattern, s).value))
    else Scan(rs[1..], s)
  }

  /** The state of one method's tree at any moment: the zero node, or a sound tree. */
  ghost predicate TreeOk(t: Trie) {
    (t == Fresh(0) || RootOk(t)) && PrioritiesOk(t)
  }

  lemma NoRoutes()
    ensures TreeOk(Fresh(0)) && Routes(Fresh(0)) == {}
  {
    assert RoutesOf([]) == {} && Prefixed("", {}) == {};
    assert CountAll([]) == 0;
  }

  // ----- one registration at the root

  /** Acceptance, exactly, and everything that holds after it. */
  lemma AddRouteSpec(t: Trie, p: string, h: Handle)
    requires TreeOk(t) && StartsWith(p, '/')
    ensures AddRoute(t, p, h).Some? <==> WellFormed(p) && Clear(t, p)
    ensures AddRoute(t, p, h).Some? ==>
              && var t' := AddRoute(t, p, h).value;
              && RootOk(t') && PrioritiesOk(t') && t'.priority == t.priority + 1
              && Routes(t') == Routes(t) + {Route(p, h)}
  {
    NoRoutes();
    if t == Fresh(0) {
      AddFirst(p, h);
    } else {
      assert Enters(t, p);
      InsertAccepts(t, p, h);
      if AddRoute(t, p, h).Some? {
        InsertGrows(t, p, h);
        InsertPriorities(t, p, h);
        assert t.path[0] == '/';
      }
    }
  }

  lemma AddFirst(p: string, h: Handle)
    requires StartsWith(p, '/')
    ensures AddRoute(Fresh(0), p, h).Some? <==> WellFormed(p)
    ensures AddRoute(Fresh(0), p, h).Some? ==>
              && var t' := AddRoute(Fresh(0), p, h).value;
              && RootOk(t') && PrioritiesOk(t') && t'.priority == 1 && Routes(t') == {Route(p, h)}
  {
    InsertChildFresh(Fresh(1), p, h);
    if InsertChild(Fresh(1), p, h).Some? {
      var t := InsertChild(Fresh(1), p, h).value;
      InsertChildPriorities(Fresh(1), p, h);
      assert CountAll([]) == 0;
      AsRoot(t);
    }
  }

  lemma AsRoot(t: Trie)
    requires Ok(t) && t.nType == Static && IsEdge(t, '/') && PrioritiesOk(t)
    ensures RootOk(t.(nType := Root)) && PrioritiesOk(t.(nType := Root)) && Routes(t.(nType := Root)) == Routes(t)
  {
    assert RoleOf(t.(nType := Root)) != Broken;
  }

  // ----- runs

  ghost function RouteSet(rs: seq<Route>): set<Route> {
    set i | 0 <= i < |rs| :: rs[i]
  }

  lemma AdmissibleSnoc(rs: seq<Route>, r: Route)
    ensures Admissible(rs + [r]) <==>
              && Admissible(rs) && WellFormed(r.pattern)
              && forall q :: q in RouteSet(rs) ==> Compatible(q.pattern, r.pattern)
    ensures RouteSet(rs + [r]) == RouteSet(rs) + {r}
  {
    var qs := rs + [r];
    assert qs[|rs|] == r && forall i :: 0 <= i < |rs| ==> qs[i] == rs[i];
    assert forall i :: 0 <= i < |rs| ==> rs[i] in RouteSet(rs);
    if Admissible(qs) {
      forall i, j | 0 <= i < j < |rs| ensures Compatible(rs[i].pattern, rs[j].pattern) {
        assert Compatible(qs[i].pattern, qs[j].pattern);
      }
      forall q | q in RouteSet(rs) ensures Compatible(q.pattern, r.pattern) {
        var i :| 0 <= i < |rs| && rs[i] == q;
        assert Compatible(qs[i].pattern, qs[|rs|].pattern);
      }
    }
  }

  /** A run succeeds exactly when the list is admissible, and then the tree holds exactly its routes,
      in good shape and with exact counts. */
  lemma {:induction false} BuildSpec(rs: seq<Route>)
    requires Rooted(rs)
    ensures Build(rs).Some? <==> Admissible(rs)
    ensures Build(rs).Some? ==>
              && var t := Build(rs).value;
              && TreeOk(t) && (rs != [] ==> RootOk(t)) && Routes(t) == RouteSet(rs) && t.priority == |rs|
    decreases |rs|
  {
    if rs == [] {
      NoRoutes();
    } else {
      var n := |rs| - 1;
      assert rs == rs[..n] + [rs[n]];
      BuildSpec(rs[..n]);
      AdmissibleSnoc(rs[..n], rs[n]);
      if Build(rs[..n]).Some? {
        AddRouteSpec(Build(rs[..n]).value, rs[n].pattern, rs[n].handle);
      }
    }
  }

  // ----- lookup against the list

  lemma {:induction false} ScanMatches(rs: seq<Route>, s: string)
    ensures Scan(rs, s).None? <==> forall i :: 0 <= i < |rs| ==> Match(rs[i].pattern, s).None?
    ensures Scan(rs, s).Some? ==>
              exists i :: 0 <= i < |rs| && Match(rs[i].pattern, s) == Some(Scan(rs, s).value.1)
                          && rs[i].handle == Scan(rs, s).value.0
  {
    if rs != [] {
      ScanMatches(rs[1..], s);
      assert forall i :: 1 <= i < |rs| ==> rs[i] == rs[1..][i - 1];
      if Match(rs[0].pattern, s).None? && Scan(rs[1..], s).Some? {
        var i :| 0 <= i < |rs| - 1 && Match(rs[1..][i].pattern, s) == Some(Scan(rs, s).value.1)
                 && rs[1..][i].handle == Scan(rs, s).value.0;
        assert rs[i + 1] == rs[1..][i];
      }
    }
  }

  /** At most one registered pattern matches a path. */
  lemma MatchUnique(rs: seq<Route>, s: string, i: nat, j: nat)
    requires Admissible(rs) && i < |rs| && j < |rs|
    requires Match(rs[i].pattern, s).Some? && Match(rs[j].pattern, s).Some?
    ensures i == j
  {
    if i < j {
      CompatibleExclusive(rs[i].pattern, rs[j].pattern, s);
    } else if j < i {
      CompatibleExclusive(rs[j].pattern, rs[i].pattern, s);
    }
  }

  /** Lookup in the tree is the scan of the list: same handle, same bindings in the same order. */
  lemma LookupIsScan(rs: seq<Route>, s: string)
    requires Rooted(rs) && Admissible(rs)
    ensures Build(rs).Some?
    ensures var r := Get(Build(rs).value, s);
            && r.Found?
            && match Scan(rs, s)
               case None => r.handle.None?
               case Some((h, bs)) => r == Found(Some(h), bs, false)
  {
    BuildSpec(rs);
    ScanMatches(rs, s);
    var t := Build(rs).value;
    if rs != [] {
      GetSafe(t, s);
      if Hits(t, s) {
        var p := GetSound(t, s);
        assert Route(p, Get(t, s).handle.value) in RouteSet(rs);
      }
      if Scan(rs, s).Some? {
        var i :| 0 <= i < |rs| && Match(rs[i].pattern, s) == Some(Scan(rs, s).value.1)
                 && rs[i].handle == Scan(rs, s).value.0;
        assert rs[i] in RouteSet(rs);
        GetFinds(t, rs[i], s);
      }
    }
  }

  /** A further registration changes nothing for a path that the new pattern does not match. */
  lemma AddRouteFrame(t: Trie, p: string, h: Handle, s: string)
    requires TreeOk(t) && StartsWith(p, '/') && AddRoute(t, p, h).Some?
    ensures var r, r' := Get(t, s), Get(AddRoute(t, p, h).value, s);
            && r.Found? && r'.Found?
            && (Match(p, s).Some? ==> r.handle.None? && r' == Found(Some(h), Match(p, s).value, false))
            && (Match(p, s).None? ==> r'.handle == r.handle && (r.handle.Some? ==> r' == r))
  {
    AddRouteSpec(t, p, h);
    var t' := AddRoute(t, p, h).value;
    if t != Fresh(0) {
      GetSafe(t, s);
    }
    GetSafe(t', s);
    if Match(p, s).Some? {
      GetFinds(t', Route(p, h), s);
    }
    if Hits(t, s) {
      var q := GetSound(t, s);
      CompatibleExclusive(q, p, s);
      GetFinds(t', Route(q, Get(t, s).handle.value), s);
      GetFinds(t, Route(q, Get(t, s).handle.value), s);
    } else if Hits(t', s) && Match(p, s).None? {
      var q := GetSound(t', s);
      GetFinds(t, Route(q, Get(t', s).handle.value), s);
    }
  }

  // ----- order does not matter

  /** Admissibility without positions. */
  ghost predicate AdmissibleBag(m: multiset<Route>) {
    && (forall r :: r in m ==> WellFormed(r.pattern) && m[r] == 1)
    && (forall r, q :: r in m && q in m && r != q ==> Compatible(r.pattern, q.pattern))
  }

  lemma NotSelfCompatible(p: string)
    ensures !Compatible(p, p)
    decreases |p|
  {
    if p != "" {
      if p[0] == ':' {
        NotSelfCompatible(p[SegEnd(p)..]);
      } else if !IsCatchAll(p) {
        NotSelfCompatible(p[1..]);
      }
    }
  }

  lemma OccursTwice(rs: seq<Route>, i: nat, j: nat)
    requires i < j < |rs| && rs[i] == rs[j]
    ensures multiset(rs)[rs[i]] >= 2
  {
    assert rs == rs[..j] + rs[j..];
    assert rs[..j][i] == rs[i] && rs[j..][0] == rs[i];
  }

  lemma {:induction false} OccursOnce(rs: seq<Route>, r: Route)
    requires r in rs && forall i, j :: 0 <= i < j < |rs| ==> rs[i] != rs[j]
    ensures multiset(rs)[r] == 1
    decreases |rs|
  {
    var n := |rs| - 1;
    assert rs == rs[..n] + [rs[n]];
    if rs[n] == r {
      assert r !in rs[..n];
    } else {
      OccursOnce(rs[..n], r);
    }
  }

  lemma AdmissibleAsBag(rs: seq<Route>)
    ensures Admissible(rs) <==> AdmissibleBag(multiset(rs))
  {
    var m := multiset(rs);
    if Admissible(rs) {
      forall i, j | 0 <= i < j < |rs| ensures rs[i] != rs[j] {
        NotSelfCompatible(rs[i].pattern);
      }
      forall r | r in m ensures WellFormed(r.pattern) && m[r] == 1 {
        OccursOnce(rs, r);
      }
      forall r, q | r in m && q in m && r != q ensures Compatible(r.pattern, q.pattern) {
        var i :| 0 <= i < |rs| && rs[i] == r;
        var j :| 0 <= j < |rs| && rs[j] == q;
        CompatibleSymmetric(r.pattern, q.pattern);
      }
    }
    if AdmissibleBag(m) {
      forall i | 0 <= i < |rs| ensures WellFormed(rs[i].pattern) {
        assert rs[i] in m;
      }
      forall i, j | 0 <= i < j < |rs| ensures Compatible(rs[i].pattern, rs[j].pattern) {
        assert rs[i] in m && rs[j] in m;
        if rs[i] == rs[j] {
          OccursTwice(rs, i, j);
        }
      }
    }
  }
}
