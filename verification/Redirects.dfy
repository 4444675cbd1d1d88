/** Where a request without a handler is sent, told by the calls that set the router up. */
module Redirects {
  import opened Bytes
  import opened Pattern
  import opened AsciiCase
  import opened CleanSpec
  import opened RadixTree
  import opened Lookup
  import opened Advice
  import opened AdviceSeen
  import opened CaseLookup
  import opened RouteTable
  import opened Dispatch
  import opened Registry
  import opened Requests

  /** A pattern registered for the method matches the path. */
  ghost predicate Matched(cs: seq<Call>, verb: string, path: string) {
    exists c :: c in cs && c.verb == verb && Match(c.path, path).Some?
  }

  // ----- the routes of a method's tree are its calls

  lemma TreeOfCalls(s: Settings, cs: seq<Call>, verb: string)
    requires Run(s, cs).Some?
    ensures var v := Run(s, cs).value;
            && v.settings == s && (verb in v.trees ==> RootOk(v.trees[verb]))
            && (verb in v.trees <==> exists c :: c in cs && c.verb == verb)
  {
    RunSpec(s, cs);
    RunRouterOk(s, cs);
    SomeRouteFor(s, cs, verb);
  }

  lemma CallInTree(s: Settings, cs: seq<Call>, c: Call) returns (r: Route)
    requires Run(s, cs).Some? && c in cs
    ensures c.verb in Run(s, cs).value.trees && r in Routes(Run(s, cs).value.trees[c.verb]) && r.pattern == c.path
  {
    RunSpec(s, cs);
    var k := CallListed(s, cs, c);
    var rs := RoutesFor(s, cs, c.verb);
    r := rs[k];
    assert r in RouteSet(rs) && Build(rs) == Some(TreeAt(Run(s, cs).value.trees, c.verb));
    BuildSpec(rs);
  }

  lemma TreeFromCall(s: Settings, cs: seq<Call>, verb: string, r: Route) returns (c: Call)
    requires Run(s, cs).Some? && verb in Run(s, cs).value.trees && r in Routes(Run(s, cs).value.trees[verb])
    ensures c in cs && c.verb == verb && c.path == r.pattern
  {
    RunSpec(s, cs);
    var rs := RoutesFor(s, cs, verb);
    assert Build(rs) == Some(TreeAt(Run(s, cs).value.trees, verb));
    BuildSpec(rs);
    var i :| 0 <= i < |rs| && rs[i] == r;
    c := ListedCall(s, cs, verb, i);
  }

  /** The tree dispatches what a call matches. */
  lemma HitsIsMatched(s: Settings, cs: seq<Call>, verb: string, path: string)
    requires Run(s, cs).Some? && verb in Run(s, cs).value.trees
    ensures Hits(Run(s, cs).value.trees[verb], path) <==> Matched(cs, verb, path)
  {
    var t := Run(s, cs).value.trees[verb];
    TreeOfCalls(s, cs, verb);
    if Hits(t, path) {
      var p := GetSound(t, path);
      var c := TreeFromCall(s, cs, verb, Route(p, Get(t, path).handle.value));
    }
    if Matched(cs, verb, path) {
      var c :| c in cs && c.verb == verb && Match(c.path, path).Some?;
      var r := CallInTree(s, cs, c);
      GetFinds(t, r, path);
    }
  }

  // ----- redirects

  /** The lookup of the method's tree recommends a slash more or less, and that is wanted. */
  predicate Advised(v: Router, verb: string, path: string) {
    && v.settings.redirectTrailingSlash
    && verb in v.trees && Get(v.trees[verb], path).Found? && Get(v.trees[verb], path).tsr
  }

  /** The case-insensitive lookup of the cleaned path, if that is wanted. */
  function Fixed(v: Router, verb: string, path: string): Option<string> {
    if verb in v.trees && v.settings.redirectFixedPath then
      FindFold(v.trees[verb], Clean(path), NO_RUNE, v.settings.redirectTrailingSlash)
    else None
  }

  /** Exactly when a request is redirected, where, and with which status. */
  lemma RedirectsExactly(s: Settings, cs: seq<Call>, verb: string, path: string)
    requires Run(s, cs).Some?
    ensures var v := Run(s, cs).value;
            var o := Serve(v, verb, path);
            && (o.Redirected? <==> !Matched(cs, verb, path) && verb != "CONNECT" && path != "/"
                                   && (Advised(v, verb, path) || Fixed(v, verb, path).Some?))
            && (o.Redirected? ==> o.code == if verb == "GET" then 301 else 308)
            && (o.Redirected? && Advised(v, verb, path) ==>
                  o.target == if EndsInSlash(path) then path[..|path| - 1] else path + "/")
            && (o.Redirected? && !Advised(v, verb, path) ==> Some(o.target) == Fixed(v, verb, path))
  {
    var v := Run(s, cs).value;
    TreeOfCalls(s, cs, verb);
    if verb in v.trees {
      HitsIsMatched(s, cs, verb, path);
      GetSafe(v.trees[verb], path);
    } else {
      NoCall(cs, verb, path);
    }
    RedirectedHow(v, verb, path);
  }

  /** The decision, for one tree. */
  lemma RedirectedHow(v: Router, verb: string, path: string)
    ensures var o := Serve(v, verb, path);
            && (o.Redirected? <==> verb in v.trees && !Hits(v.trees[verb], path) && verb != "CONNECT" && path != "/"
                                   && (Advised(v, verb, path) || Fixed(v, verb, path).Some?))
            && (o.Redirected? ==> o.code == if verb == "GET" then 301 else 308)
            && (o.Redirected? && Advised(v, verb, path) ==>
                  o.target == if EndsInSlash(path) then path[..|path| - 1] else path + "/")
            && (o.Redirected? && !Advised(v, verb, path) ==> Some(o.target) == Fixed(v, verb, path))
  {
    assert EndsInSlash(path) && |path| == 1 ==> path == "/";
  }

  lemma NoCall(cs: seq<Call>, verb: string, path: string)
    requires !exists c :: c in cs && c.verb == verb
    ensures !Matched(cs, verb, path)
  {
  }

  /** A path with a slash too many: if what is left without it is registered, the client is sent there. */
  lemma StripsSlash(s: Settings, cs: seq<Call>, verb: string, p: string)
    requires Run(s, cs).Some? && s.redirectTrailingSlash && verb != "CONNECT" && p != ""
    requires Matched(cs, verb, p) && !Matched(cs, verb, p + "/")
    ensures Serve(Run(s, cs).value, verb, p + "/") == Redirected(if verb == "GET" then 301 else 308, p)
  {
    StripAdvised(s, cs, verb, p);
    RedirectsExactly(s, cs, verb, p + "/");
    assert p + "/" != "/" && (p + "/")[..|p|] == p;
  }

  lemma StripAdvised(s: Settings, cs: seq<Call>, verb: string, p: string)
    requires Run(s, cs).Some? && s.redirectTrailingSlash && Matched(cs, verb, p) && !Matched(cs, verb, p + "/")
    ensures Advised(Run(s, cs).value, verb, p + "/")
  {
    var c :| c in cs && c.verb == verb && Match(c.path, p).Some?;
    TreeOfCalls(s, cs, verb);
    HitsIsMatched(s, cs, verb, p);
    HitsIsMatched(s, cs, verb, p + "/");
    AdviceStrips(Run(s, cs).value.trees[verb], p);
  }

  /** A path with a slash too few: if a pattern that ends in one matches it with the slash, and binds no empty value,
      the client is sent there. */
  lemma AddsSlash(s: Settings, cs: seq<Call>, c: Call, path: string)
    requires Run(s, cs).Some? && s.redirectTrailingSlash && c.verb != "CONNECT" && !EndsInSlash(path)
    requires c in cs && LacksSlash(c.path, path) && !Matched(cs, c.verb, path)
    ensures Serve(Run(s, cs).value, c.verb, path)
            == Redirected(if c.verb == "GET" then 301 else 308, path + "/")
  {
    TreeOfCalls(s, cs, c.verb);
    HitsIsMatched(s, cs, c.verb, path);
    var r := CallInTree(s, cs, c);
    Recommended(Run(s, cs).value.trees[c.verb], path, r);
    RedirectsExactly(s, cs, c.verb, path);
  }

  /** No slash is ever added that leads nowhere. */
  lemma AddedIsMatched(s: Settings, cs: seq<Call>, verb: string, path: string)
    requires Run(s, cs).Some? && Advised(Run(s, cs).value, verb, path) && !EndsInSlash(path)
    ensures Matched(cs, verb, path + "/") && !Matched(cs, verb, path)
  {
    TreeOfCalls(s, cs, verb);
    HitsIsMatched(s, cs, verb, path);
    HitsIsMatched(s, cs, verb, path + "/");
    AdviceExact(Run(s, cs).value.trees[verb], path);
  }

  // ----- corrected paths

  /** Without trailing-slash redirects, the corrected path exists exactly when the cleaned one matches, up to case, a
      lit pattern of the method; it is then that path with the pattern's own spelling, and the values unchanged. */
  lemma FixedExactlyCase(s: Settings, cs: seq<Call>, verb: string, path: string)
    requires Run(s, cs).Some? && s.redirectFixedPath && !s.redirectTrailingSlash
    ensures var v := Run(s, cs).value;
            && (Fixed(v, verb, path).Some? <==>
                  exists c :: c in cs && c.verb == verb && c.verb in v.trees && MatchFold(c.path, Clean(path)).Some?
                              && Lit(v.trees[verb], c.path, NO_RUNE))
            && (Fixed(v, verb, path).Some? ==>
                  exists c :: c in cs && c.verb == verb && Agree(c.path, Clean(path), Fixed(v, verb, path).value)
                              && EqualFold(Fixed(v, verb, path).value, Clean(path)))
  {
    var v, p := Run(s, cs).value, Clean(path);
    TreeOfCalls(s, cs, verb);
    CleanCanonical(path);
    CanonicalRooted(p);
    if verb in v.trees {
      FoundExactly(v.trees[verb], p);
    }
    if Fixed(v, verb, path).Some? {
      var r :| r in Routes(v.trees[verb]) && MatchFold(r.pattern, p).Some? && Lit(v.trees[verb], r.pattern, NO_RUNE);
      var c := TreeFromCall(s, cs, verb, r);
      FoldSound(v.trees[verb], p, NO_RUNE, false);
      var q :| q in Routes(v.trees[verb]) && Agree(q.pattern, p, Fixed(v, verb, path).value)
               && EqualFold(Fixed(v, verb, path).value, p);
      var d := TreeFromCall(s, cs, verb, q);
    }
    if c :| c in cs && c.verb == verb && c.verb in v.trees && MatchFold(c.path, p).Some?
            && Lit(v.trees[verb], c.path, NO_RUNE) {
      var r := CallInTree(s, cs, c);
    }
  }

  /** A call of the method agrees with the respelling `o` of `p`. */
  ghost predicate Agreed(cs: seq<Call>, verb: string, p: string, o: string) {
    exists c :: c in cs && c.verb == verb && Agree(c.path, p, o)
  }

  /** With trailing-slash redirects, what is found is the cleaned path in a pattern's own spelling with the values
      unchanged; or that with a '/' more; or, if it ends in '/', without it, as the beginning of what a pattern
      matches. */
  lemma FixedWithSlash(s: Settings, cs: seq<Call>, verb: string, path: string)
    requires Run(s, cs).Some? && Fixed(Run(s, cs).value, verb, path).Some?
    ensures var p, o := Clean(path), Fixed(Run(s, cs).value, verb, path).value;
            || (EqualFold(o, p) && Agreed(cs, verb, p, o))
            || (s.redirectTrailingSlash && EqualFold(o, p + "/") && Agreed(cs, verb, p + "/", o))
            || (s.redirectTrailingSlash && EqualFold(o + "/", p)
                && exists x :: Agreed(cs, verb, p[..|p| - 1] + x, o + x))
  {
    var v, p := Run(s, cs).value, Clean(path);
    TreeOfCalls(s, cs, verb);
    CleanCanonical(path);
    CanonicalRooted(p);
    var t, o := v.trees[verb], Fixed(v, verb, path).value;
    FoldSound(t, p, NO_RUNE, s.redirectTrailingSlash);
    if Corrected(Routes(t), p, o) {
      var r :| r in Routes(t) && Agree(r.pattern, p, o) && EqualFold(o, p);
      var c := TreeFromCall(s, cs, verb, r);
    } else if Extended(Routes(t), p, o) {
      var r :| r in Routes(t) && Agree(r.pattern, p + "/", o) && EqualFold(o, p + "/");
      var c := TreeFromCall(s, cs, verb, r);
    } else {
      var r, x :| r in Routes(t) && Agree(r.pattern, p[..|p| - 1] + x, o + x);
      var c := TreeFromCall(s, cs, verb, r);
      assert Agreed(cs, verb, p[..|p| - 1] + x, o + x);
    }
  }
}
