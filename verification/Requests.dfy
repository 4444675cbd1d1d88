/** Requests to a router that was set up by a run of calls, told by the calls themselves: which are accepted, which
    handler answers with which values, and where a request without a handler is sent. */
module Requests {
  import opened Bytes
  import opened Pattern
  import opened RadixTree
  import opened RouteTable
  import opened Dispatch
  import opened Registry
  import opened Tokens

  // ----- calls and routes

  /** Each call has its route in the list of its method, with the very handler that was given. */
  lemma {:induction false} CallListed(s: Settings, cs: seq<Call>, c: Call) returns (i: nat)
    requires c in cs && forall d :: d in cs ==> ProperCall(d)
    ensures var rs := RoutesFor(s, cs, c.verb);
            && i < |rs| && rs[i].pattern == c.path
            && rs[i].handle == Handle(c.handler.value, if s.saveMatchedRoutePath then Some(c.path) else None)
    decreases |cs|
  {
    var init, last := cs[..|cs| - 1], cs[|cs| - 1];
    assert cs == init + [last];
    RoutesForSnoc(s, init, last, c.verb);
    if c in init {
      i := CallListed(s, init, c);
    } else {
      i := |RoutesFor(s, init, c.verb)|;
    }
  }

  /** And every route in the list comes from a call. */
  lemma {:induction false} ListedCall(s: Settings, cs: seq<Call>, verb: string, i: nat) returns (c: Call)
    requires (forall d :: d in cs ==> ProperCall(d)) && i < |RoutesFor(s, cs, verb)|
    ensures c in cs && c.verb == verb && RoutesFor(s, cs, verb)[i].pattern == c.path
    decreases |cs|
  {
    var init, last := cs[..|cs| - 1], cs[|cs| - 1];
    assert cs == init + [last];
    RoutesForSnoc(s, init, last, verb);
    if i < |RoutesFor(s, init, verb)| {
      c := ListedCall(s, init, verb, i);
    } else {
      c := last;
    }
  }

  // ----- what is accepted

  /** A call that the router does not refuse on its own. */
  predicate Acceptable(c: Call) {
    c.verb != "" && c.path != "" && c.path[0] == '/' && c.handler.Some? && WellFormed(c.path)
  }

  /** Two calls that may both be made: for different methods, or with compatible patterns. */
  predicate Peaceful(c: Call, d: Call) {
    c.verb == d.verb ==> Compatible(c.path, d.path)
  }

  /** A run is accepted exactly when each call is acceptable, and no two of them conflict. */
  lemma {:induction false} RunAccepts(s: Settings, cs: seq<Call>)
    ensures Run(s, cs).Some? <==>
              && (forall i :: 0 <= i < |cs| ==> Acceptable(cs[i]))
              && (forall i, j :: 0 <= i < j < |cs| ==> Peaceful(cs[i], cs[j]))
    decreases |cs|
  {
    if cs != [] {
      var n := |cs| - 1;
      var init, c := cs[..n], cs[n];
      assert cs == init + [c];
      RunAccepts(s, init);
      RunSpec(s, init);
      if Run(s, init).Some? && ProperCall(c) {
        AcceptsLast(s, init, c);
      }
      assert forall i :: 0 <= i < n ==> cs[i] == init[i];
    }
  }

  lemma AcceptsLast(s: Settings, init: seq<Call>, c: Call)
    requires Run(s, init).Some? && ProperCall(c)
    ensures Run(s, init + [c]).Some? <==> WellFormed(c.path) && forall i :: 0 <= i < |init| ==> Peaceful(init[i], c)
  {
    RunSpec(s, init);
    RunSpec(s, init + [c]);
    AdmissibleStep(s, init, c);
    var rs, r := RoutesFor(s, init, c.verb), Route(c.path, Stored(s, c));
    AdmissibleSnoc(rs, r);
    if forall q :: q in RouteSet(rs) ==> Compatible(q.pattern, c.path) {
      forall i | 0 <= i < |init| ensures Peaceful(init[i], c) {
        if init[i].verb == c.verb {
          var k := CallListed(s, init, init[i]);
          assert rs[k] in RouteSet(rs);
        }
      }
    }
    if forall i :: 0 <= i < |init| ==> Peaceful(init[i], c) {
      forall q | q in RouteSet(rs) ensures Compatible(q.pattern, c.path) {
        var k :| 0 <= k < |rs| && rs[k] == q;
        var d := ListedCall(s, init, c.verb, k);
        var i :| 0 <= i < |init| && init[i] == d;
        assert Peaceful(init[i], c);
      }
    }
  }

  // ----- what is handled

  /** A request is handled by the handler of the call whose pattern matches it, with the values of that match, and
      with the pattern if the router saves it; and only by such a call. */
  lemma ServedExactly(s: Settings, cs: seq<Call>, verb: string, path: string)
    requires Run(s, cs).Some?
    ensures forall c :: c in cs ==> c.handler.Some?
    ensures forall c :: c in cs && c.verb == verb && Match(c.path, path).Some? ==>
              Serve(Run(s, cs).value, verb, path)
              == Handled(Handle(c.handler.value, if s.saveMatchedRoutePath then Some(c.path) else None),
                         Match(c.path, path).value)
    ensures Serve(Run(s, cs).value, verb, path).Handled? ==>
              exists c :: c in cs && c.verb == verb && Match(c.path, path).Some?
  {
    RunSpec(s, cs);
    ServeIsScan(s, cs, verb, path);
    forall c | c in cs && c.verb == verb && Match(c.path, path).Some?
      ensures Serve(Run(s, cs).value, verb, path)
              == Handled(Handle(c.handler.value, if s.saveMatchedRoutePath then Some(c.path) else None),
                         Match(c.path, path).value)
    {
      CallServes(s, cs, c, path);
    }
    if Serve(Run(s, cs).value, verb, path).Handled? {
      var rs := RoutesFor(s, cs, verb);
      ScanMatches(rs, path);
      var i :| 0 <= i < |rs| && Match(rs[i].pattern, path).Some?;
      var c := ListedCall(s, cs, verb, i);
    }
  }

  lemma CallServes(s: Settings, cs: seq<Call>, c: Call, path: string)
    requires Run(s, cs).Some? && c in cs && Match(c.path, path).Some?
    ensures c.handler.Some?
    ensures Serve(Run(s, cs).value, c.verb, path)
            == Handled(Handle(c.handler.value, if s.saveMatchedRoutePath then Some(c.path) else None),
                       Match(c.path, path).value)
  {
    RunSpec(s, cs);
    ServeIsScan(s, cs, c.verb, path);
    var k := CallListed(s, cs, c);
    assert Admissible(RoutesFor(s, cs, c.verb));
    ScanAt(RoutesFor(s, cs, c.verb), path, k);
  }

  /** Whatever values are filled into a registered pattern, the path that results is handled by that call's handler,
      with these values under the pattern's names. */
  lemma FilledIsServed(s: Settings, cs: seq<Call>, c: Call, ts: seq<Token>, vs: seq<string>)
    requires Run(s, cs).Some? && c in cs && Sensible(ts) && c.path == PatternOf(ts) && Fits(ts, vs)
    ensures c.handler.Some?
    ensures Serve(Run(s, cs).value, c.verb, PathOf(ts, vs))
            == Handled(Handle(c.handler.value, if s.saveMatchedRoutePath then Some(c.path) else None),
                       BindingsOf(ts, vs))
  {
    FilledMatches(ts, vs);
    CallServes(s, cs, c, PathOf(ts, vs));
  }
}
