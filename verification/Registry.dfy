/** The router as a value, over whole runs of registrations: what is accepted, what is dispatched, and
    which methods an Allow list names. */
module Registry {
  import opened Bytes
  import opened Pattern
  import opened RadixTree
  import opened Lookup
  import opened RouteTable
  import opened Dispatch

  /** One call of `Handle` with an opaque handler; a nil handler is `None`. */
  datatype Call = Call(verb: string, path: string, handler: Option<nat>)

  predicate ProperCall(c: Call) {
    c.verb != "" && StartsWith(c.path, '/') && c.handler.Some?
  }

  function TreeAt(trees: map<string, Trie>, verb: string): Trie {
    if verb in trees then trees[verb] else Fresh(0)
  }

  function Stored(s: Settings, c: Call): Handle
    requires c.handler.Some?
  {
    Handle(c.handler.value, if s.saveMatchedRoutePath then Some(c.path) else None)
  }

  /** One registration; `None` where the router panics. */
  function Register(v: Router, c: Call): Option<Router> {
    if !ProperCall(c) then None
    else
      match AddRoute(TreeAt(v.trees, c.verb), c.path, Stored(v.settings, c))
      case None => None
      case Some(t) => Some(v.(trees := v.trees[c.verb := t]))
  }

  /** A run of registrations on a new router, up to the first panic. */
  function Run(s: Settings, cs: seq<Call>): Option<Router> {
    if cs == [] then Some(Router(map[], s))
    else
      match Run(s, cs[..|cs| - 1])
      case None => None
      case Some(v) => Register(v, cs[|cs| - 1])
  }

  /** The routes that the calls register for one method, in order. */
  function RoutesFor(s: Settings, cs: seq<Call>, verb: string): (rs: seq<Route>)
    requires forall c :: c in cs ==> ProperCall(c)
    ensures Rooted(rs)
  {
    if cs == [] then []
    else
      var c := cs[|cs| - 1];
      assert c in cs && ProperCall(c);
      var rs := RoutesFor(s, cs[..|cs| - 1], verb);
      if c.verb == verb then rs + [Route(c.path, Stored(s, c))] else rs
  }

  /** What makes a run acceptable. */
  ghost predicate AllAdmissible(s: Settings, cs: seq<Call>) {
    (forall c :: c in cs ==> ProperCall(c)) && forall verb :: Admissible(RoutesFor(s, cs, verb))
  }

  /** The router holds, for each method, the tree built from that method's routes. */
  ghost predicate Holds(v: Router, s: Settings, cs: seq<Call>)
    requires forall c :: c in cs ==> ProperCall(c)
  {
    && v.settings == s
    && forall verb ::
         && (verb in v.trees <==> RoutesFor(s, cs, verb) != [])
         && Build(RoutesFor(s, cs, verb)) == Some(TreeAt(v.trees, verb))
  }

  /** A run succeeds exactly when all its calls are proper and each method's patterns are well formed and
      pairwise compatible. */
  lemma {:induction false} RunSpec(s: Settings, cs: seq<Call>)
    ensures Run(s, cs).Some? <==> AllAdmissible(s, cs)
    ensures Run(s, cs).Some? ==> Holds(Run(s, cs).value, s, cs)
    decreases |cs|
  {
    if cs != [] {
      var init, c := cs[..|cs| - 1], cs[|cs| - 1];
      assert cs == init + [c];
      RunSpec(s, init);
      if AllAdmissible(s, init) && ProperCall(c) {
        RunStep(s, init, c, Run(s, init).value);
      } else if ProperCall(c) && forall d :: d in init ==> ProperCall(d) {
        var verb :| !Admissible(RoutesFor(s, init, verb));
        RoutesForSnoc(s, init, c, verb);
        AdmissibleSnoc(RoutesFor(s, init, verb), Route(c.path, Stored(s, c)));
        assert !Admissible(RoutesFor(s, cs, verb));
      }
    }
  }

  lemma RoutesForSnoc(s: Settings, init: seq<Call>, c: Call, verb: string)
    requires ProperCall(c) && forall d :: d in init ==> ProperCall(d)
    ensures forall d :: d in init + [c] ==> ProperCall(d)
    ensures var rs := RoutesFor(s, init, verb);
            RoutesFor(s, init + [c], verb) == if c.verb == verb then rs + [Route(c.path, Stored(s, c))] else rs
  {
    assert (init + [c])[..|init|] == init;
  }

  lemma RunStep(s: Settings, init: seq<Call>, c: Call, v: Router)
    requires AllAdmissible(s, init) && ProperCall(c) && Holds(v, s, init)
    ensures Register(v, c).Some? <==> AllAdmissible(s, init + [c])
    ensures Register(v, c).Some? ==> Holds(Register(v, c).value, s, init + [c])
  {
    var rs, r := RoutesFor(s, init, c.verb), Route(c.path, Stored(s, c));
    assert Build(rs) == Some(TreeAt(v.trees, c.verb));
    BuildSnoc(rs, r);
    BuildSpec(rs + [r]);
    AdmissibleStep(s, init, c);
    if Register(v, c).Some? {
      HoldsStep(v, s, init, c);
    }
  }

  lemma AdmissibleStep(s: Settings, init: seq<Call>, c: Call)
    requires AllAdmissible(s, init) && ProperCall(c)
    ensures AllAdmissible(s, init + [c]) <==> Admissible(RoutesFor(s, init, c.verb) + [Route(c.path, Stored(s, c))])
  {
    RoutesForSnoc(s, init, c, c.verb);
    forall verb | verb != c.verb ensures Admissible(RoutesFor(s, init + [c], verb)) {
      RoutesForSnoc(s, init, c, verb);
    }
  }

  lemma HoldsStep(v: Router, s: Settings, init: seq<Call>, c: Call)
    requires ProperCall(c) && forall d :: d in init ==> ProperCall(d)
    requires Holds(v, s, init) && Register(v, c).Some?
    ensures forall d :: d in init + [c] ==> ProperCall(d)
    ensures Holds(Register(v, c).value, s, init + [c])
  {
    var v' := Register(v, c).value;
    forall d | d in init + [c] ensures ProperCall(d) {
    }
    forall verb ensures (verb in v'.trees <==> RoutesFor(s, init + [c], verb) != [])
                        && Build(RoutesFor(s, init + [c], verb)) == Some(TreeAt(v'.trees, verb)) {
      assert Build(RoutesFor(s, init, verb)) == Some(TreeAt(v.trees, verb));
      RoutesForSnoc(s, init, c, verb);
      BuildSnoc(RoutesFor(s, init, verb), Route(c.path, Stored(s, c)));
    }
  }

  lemma RunKeeps(s: Settings, cs: seq<Call>)
    requires Run(s, cs).Some?
    ensures Run(s, cs).value.settings == s && forall c :: c in cs ==> ProperCall(c)
  {
    RunSpec(s, cs);
  }

  lemma RunRouterOk(s: Settings, cs: seq<Call>)
    requires Run(s, cs).Some?
    ensures RouterOk(Run(s, cs).value)
  {
    RunSpec(s, cs);
    var v := Run(s, cs).value;
    forall verb | verb in v.trees ensures RootOk(v.trees[verb]) {
      BuildSpec(RoutesFor(s, cs, verb));
    }
  }

  /** After any run, a request is handled exactly when a pattern registered for its method matches, and
      then by that pattern's handle with that pattern's bindings. */
  lemma ServeIsScan(s: Settings, cs: seq<Call>, verb: string, path: string)
    requires Run(s, cs).Some?
    ensures forall c :: c in cs ==> ProperCall(c)
    ensures match Scan(RoutesFor(s, cs, verb), path)
            case None => !Serve(Run(s, cs).value, verb, path).Handled?
            case Some((h, ps)) => Serve(Run(s, cs).value, verb, path) == Handled(h, ps)
  {
    RunSpec(s, cs);
    var v := Run(s, cs).value;
    assert Admissible(RoutesFor(s, cs, verb)) && Build(RoutesFor(s, cs, verb)) == Some(TreeAt(v.trees, verb));
    LookupIsScan(RoutesFor(s, cs, verb), path);
  }

  // ----- the order of registration

  function Contribution(s: Settings, c: Call, verb: string): multiset<Route>
    requires ProperCall(c)
  {
    if c.verb == verb then multiset{Route(c.path, Stored(s, c))} else multiset{}
  }

  lemma {:induction false} RoutesForWithout(s: Settings, a: seq<Call>, c: Call, b: seq<Call>, verb: string)
    requires forall d :: d in a + [c] + b ==> ProperCall(d)
    ensures ProperCall(c) && forall d :: d in a + b ==> ProperCall(d)
    ensures multiset(RoutesFor(s, a + [c] + b, verb)) == multiset(RoutesFor(s, a + b, verb)) + Contribution(s, c, verb)
    decreases |b|
  {
    assert c in a + [c] + b;
    if b == [] {
      assert a + [c] + b == a + [c] && a + b == a;
      RoutesForSnoc(s, a, c, verb);
    } else {
      var init, last := b[..|b| - 1], b[|b| - 1];
      assert a + [c] + b == (a + [c] + init) + [last] && a + b == (a + init) + [last];
      RoutesForWithout(s, a, c, init, verb);
      RoutesForSnoc(s, a + [c] + init, last, verb);
      RoutesForSnoc(s, a + init, last, verb);
    }
  }

  lemma {:induction false} RoutesForBag(s: Settings, cs: seq<Call>, ds: seq<Call>, verb: string)
    requires multiset(cs) == multiset(ds) && forall c :: c in cs ==> ProperCall(c)
    ensures forall d :: d in ds ==> ProperCall(d)
    ensures multiset(RoutesFor(s, cs, verb)) == multiset(RoutesFor(s, ds, verb))
    decreases |cs|
  {
    forall d | d in ds ensures ProperCall(d) {
      assert d in multiset(ds);
    }
    if cs == [] {
      assert |multiset(ds)| == 0;
    } else {
      var init, c := cs[..|cs| - 1], cs[|cs| - 1];
      var a, b := TakeOut(init, c, cs, ds);
      RoutesForBag(s, init, a + b, verb);
      RoutesForWithout(s, a, c, b, verb);
      RoutesForSnoc(s, init, c, verb);
    }
  }

  lemma TakeOut(init: seq<Call>, c: Call, cs: seq<Call>, ds: seq<Call>) returns (a: seq<Call>, b: seq<Call>)
    requires cs == init + [c] && multiset(cs) == multiset(ds)
    ensures ds == a + [c] + b && multiset(init) == multiset(a + b)
  {
    assert c in multiset(cs);
    var i :| 0 <= i < |ds| && ds[i] == c;
    a, b := ds[..i], ds[i + 1..];
    assert multiset(init) == multiset(cs) - multiset{c};
    assert multiset(a + b) == multiset(a) + multiset(b);
  }

  /** A set of registrations is accepted in one order exactly when it is accepted in every order, and
      then the same requests are handled, by the same handles with the same values. */
  lemma RunOrderIrrelevant(s: Settings, cs: seq<Call>, ds: seq<Call>, verb: string, path: string)
    requires multiset(cs) == multiset(ds)
    ensures Run(s, cs).Some? <==> Run(s, ds).Some?
    ensures Run(s, cs).Some? ==>
              var o, o' := Serve(Run(s, cs).value, verb, path), Serve(Run(s, ds).value, verb, path);
              (o.Handled? || o'.Handled?) ==> o == o'
  {
    if Run(s, ds).Some? {
      SameAcceptance(s, ds, cs);
    }
    if Run(s, cs).Some? {
      SameAcceptance(s, cs, ds);
      RunSpec(s, cs);
      RunSpec(s, ds);
      ServeIsScan(s, cs, verb, path);
      ServeIsScan(s, ds, verb, path);
      RoutesForBag(s, cs, ds, verb);
      var rs, qs := RoutesFor(s, cs, verb), RoutesFor(s, ds, verb);
      if Scan(rs, path).Some? {
        SameScan(rs, qs, path);
      } else if Scan(qs, path).Some? {
        SameScan(qs, rs, path);
      }
    }
  }

  lemma SameAcceptance(s: Settings, cs: seq<Call>, ds: seq<Call>)
    requires multiset(cs) == multiset(ds) && Run(s, cs).Some?
    ensures Run(s, ds).Some?
  {
    RunSpec(s, cs);
    RunSpec(s, ds);
    RoutesForBag(s, cs, ds, "");
    forall verb ensures Admissible(RoutesFor(s, ds, verb)) {
      RoutesForBag(s, cs, ds, verb);
      AdmissibleAsBag(RoutesFor(s, cs, verb));
      AdmissibleAsBag(RoutesFor(s, ds, verb));
    }
  }

  /** Any matching route of an admissible list is the one that the scan finds. */
  lemma ScanAt(rs: seq<Route>, path: string, k: nat)
    requires Admissible(rs) && k < |rs| && Match(rs[k].pattern, path).Some?
    ensures Scan(rs, path) == Some((rs[k].handle, Match(rs[k].pattern, path).value))
  {
    ScanMatches(rs, path);
    var i :| 0 <= i < |rs| && Match(rs[i].pattern, path) == Some(Scan(rs, path).value.1)
             && rs[i].handle == Scan(rs, path).value.0;
    MatchUnique(rs, path, i, k);
  }

  /** Where the scan of one list finds something, so does the scan of a permutation. */
  lemma SameScan(rs: seq<Route>, qs: seq<Route>, path: string)
    requires multiset(rs) == multiset(qs) && Admissible(rs) && Admissible(qs)
    requires Scan(rs, path).Some?
    ensures Scan(rs, path) == Scan(qs, path)
  {
    ScanMatches(rs, path);
    var i :| 0 <= i < |rs| && Match(rs[i].pattern, path) == Some(Scan(rs, path).value.1)
             && rs[i].handle == Scan(rs, path).value.0;
    assert rs[i] in multiset(rs);
    var k :| 0 <= k < |qs| && qs[k] == rs[i];
    ScanAt(qs, path, k);
  }

  // ----- the Allow list

  /** A method's tree dispatches a path exactly when one of its patterns matches. */
  lemma DispatchIsScan(s: Settings, cs: seq<Call>, m: string, path: string)
    requires Run(s, cs).Some?
    ensures forall c :: c in cs ==> ProperCall(c)
    ensures var v := Run(s, cs).value;
            m in v.trees && Hits(v.trees[m], path) <==> Scan(RoutesFor(s, cs, m), path).Some?
  {
    RunSpec(s, cs);
    assert Admissible(RoutesFor(s, cs, m)) && Build(RoutesFor(s, cs, m)) == Some(TreeAt(Run(s, cs).value.trees, m));
    LookupIsScan(RoutesFor(s, cs, m), path);
  }

  /** The Allow list of a specific path: the other methods with a matching pattern, and OPTIONS when it
      is answered automatically and there is such a method. */
  lemma AllowExact(s: Settings, cs: seq<Call>, verb: string, path: string, m: string)
    requires Run(s, cs).Some? && path != "*"
    ensures forall c :: c in cs ==> ProperCall(c)
    ensures var allow := AllowedMethods(Run(s, cs).value, path, verb);
            && (m != "OPTIONS" ==> (m in allow <==> m != verb && Scan(RoutesFor(s, cs, m), path).Some?))
            && ("OPTIONS" in allow <==> s.handleOptions && allow - {"OPTIONS"} != {})
  {
    RunSpec(s, cs);
    DispatchIsScan(s, cs, m, path);
    OptionsLast(Others(Run(s, cs).value, path, verb), s.handleOptions);
  }

  lemma OptionsLast(ms: set<string>, handleOptions: bool)
    requires "OPTIONS" !in ms
    ensures WithOptions(ms, handleOptions) - {"OPTIONS"} == ms
    ensures "OPTIONS" in WithOptions(ms, handleOptions) <==> handleOptions && ms != {}
    ensures WithOptions(ms, handleOptions) != {} <==> ms != {}
  {
  }

  /** A pattern registered for another method matches the path. */
  ghost predicate MatchedElsewhere(s: Settings, cs: seq<Call>, verb: string, path: string)
    requires forall c :: c in cs ==> ProperCall(c)
  {
    exists m :: m != verb && m != "OPTIONS" && Scan(RoutesFor(s, cs, m), path).Some?
  }

  lemma SomeAllowed(s: Settings, cs: seq<Call>, verb: string, path: string)
    requires Run(s, cs).Some? && path != "*"
    ensures forall c :: c in cs ==> ProperCall(c)
    ensures AllowedMethods(Run(s, cs).value, path, verb) != {} <==> MatchedElsewhere(s, cs, verb, path)
  {
    RunSpec(s, cs);
    var v := Run(s, cs).value;
    var ms := Others(v, path, verb);
    OptionsLast(ms, s.handleOptions);
    assert AllowedMethods(v, path, verb) == WithOptions(ms, s.handleOptions);
    if ms != {} {
      var m :| m in ms;
      DispatchIsScan(s, cs, m, path);
    }
    if m :| m != verb && m != "OPTIONS" && Scan(RoutesFor(s, cs, m), path).Some? {
      DispatchIsScan(s, cs, m, path);
      assert m in ms;
    }
  }

  lemma RefusedFallsBack(v: Router, verb: string, path: string)
    requires !Serve(v, verb, path).Handled? && !Serve(v, verb, path).Redirected?
    ensures Serve(v, verb, path) == Fallback(v, verb, path)
  {
  }

  /** The server-wide Allow list: every method something was registered for. */
  lemma ServerWideExact(s: Settings, cs: seq<Call>, verb: string, m: string)
    requires Run(s, cs).Some? && m != "OPTIONS"
    ensures m in AllowedMethods(Run(s, cs).value, "*", verb) <==> exists c :: c in cs && c.verb == m
  {
    RunSpec(s, cs);
    SomeRouteFor(s, cs, m);
    assert RoutesFor(s, cs, m) != [] <==> m in Run(s, cs).value.trees;
    OptionsLast(Run(s, cs).value.trees.Keys - {"OPTIONS"}, s.handleOptions);
  }

  lemma {:induction false} SomeRouteFor(s: Settings, cs: seq<Call>, m: string)
    requires forall c :: c in cs ==> ProperCall(c)
    ensures RoutesFor(s, cs, m) != [] <==> exists c :: c in cs && c.verb == m
    decreases |cs|
  {
    if cs != [] {
      var init, c := cs[..|cs| - 1], cs[|cs| - 1];
      assert cs == init + [c] && c in cs;
      SomeRouteFor(s, init, m);
      RoutesForSnoc(s, init, c, m);
    }
  }

  /** Some registered route speaks for another method: one that matches the path, or, for the path "*" of the
      server, any at all; there the requested method counts, too. */
  ghost predicate OthersKnown(s: Settings, cs: seq<Call>, verb: string, path: string)
    requires forall c :: c in cs ==> ProperCall(c)
  {
    if path == "*" then exists c :: c in cs && c.verb != "OPTIONS"
    else MatchedElsewhere(s, cs, verb, path)
  }

  lemma KnownAllowed(s: Settings, cs: seq<Call>, verb: string, path: string)
    requires Run(s, cs).Some?
    ensures forall c :: c in cs ==> ProperCall(c)
    ensures AllowedMethods(Run(s, cs).value, path, verb) != {} <==> OthersKnown(s, cs, verb, path)
  {
    RunKeeps(s, cs);
    if path == "*" {
      SomeRegistered(s, cs, verb);
    } else {
      SomeAllowed(s, cs, verb, path);
    }
  }

  lemma SomeRegistered(s: Settings, cs: seq<Call>, verb: string)
    requires Run(s, cs).Some?
    ensures AllowedMethods(Run(s, cs).value, "*", verb) != {} <==> exists c :: c in cs && c.verb != "OPTIONS"
  {
    var v := Run(s, cs).value;
    var ms := v.trees.Keys - {"OPTIONS"};
    var allow := AllowedMethods(v, "*", verb);
    RunSpec(s, cs);
    assert allow == WithOptions(ms, s.handleOptions);
    if ms != {} {
      var m :| m in ms;
      ServerWideExact(s, cs, verb, m);
    }
    if c :| c in cs && c.verb != "OPTIONS" {
      ServerWideExact(s, cs, verb, c.verb);
    }
  }

  /** A request that is neither handled nor redirected: an automatic OPTIONS reply, or a refusal with 405,
      exactly when another method would handle the path, and 404 otherwise. The path "*" is refused on behalf of
      every registered method. */
  lemma RefusalExact(s: Settings, cs: seq<Call>, verb: string, path: string)
    requires Run(s, cs).Some?
    requires !Serve(Run(s, cs).value, verb, path).Handled? && !Serve(Run(s, cs).value, verb, path).Redirected?
    ensures forall c :: c in cs ==> ProperCall(c)
    ensures var allow := AllowedMethods(Run(s, cs).value, path, verb);
            Serve(Run(s, cs).value, verb, path)
            == if !OthersKnown(s, cs, verb, path) then NotFound
               else if verb == "OPTIONS" && s.handleOptions then OptionsReply(allow)
               else if s.handleMethodNotAllowed then NotAllowed(allow) else NotFound
  {
    KnownAllowed(s, cs, verb, path);
    RunKeeps(s, cs);
    RefusedFallsBack(Run(s, cs).value, verb, path);
  }
}
