/** A router object at work: set up by registrations, asked with `Lookup`, and serving requests. */
module Serving {
  import opened Bytes
  import opened Pattern
  import opened AsciiCase
  import opened CleanSpec
  import opened PathCleaner
  import opened RadixTree
  import opened Lookup
  import opened CaseLookup
  import opened Capacity
  import opened NodeLookup
  import opened NodeCaseLookup
  import opened AllowText
  import opened RouterState
  import D = Dispatch
  import R = Registry

  /** Every registered pattern can be counted in 16 bits. */
  ghost predicate AllCountable(values: map<string, Trie>) {
    forall m, r :: m in values && r in Routes(values[m]) ==> Countable(r.pattern)
  }

  lemma CapacitySuffices(values: map<string, Trie>, max: nat, m: string)
    requires Roomy(values, max) && AllCountable(values) && m in values
    ensures WithinCount(values[m], max)
  {
    forall r | r in Routes(values[m]) ensures CountWild(r.pattern) <= max {
      assert Countable(r.pattern) && Slots(r) <= max;
    }
  }

  const MATCHED_ROUTE_PATH_PARAM := "$matchedRoutePath"

  /** What the wrapper of a handler adds to the values of the wildcards. */
  function Extra(h: Option<Handle>): seq<Binding> {
    if h.Some? && h.value.savedRoute.Some? then [Binding(MATCHED_ROUTE_PATH_PARAM, h.value.savedRoute.value)] else []
  }

  /** A router whose trees are in good shape, with countable patterns, and a sufficient capacity. */
  ghost predicate Ready(values: map<string, Trie>, cap: nat) {
    (forall m :: m in values ==> RootOk(values[m])) && AllCountable(values) && Roomy(values, cap)
  }

  /** A router object whose registration is over is such a router. */
  lemma RegisteredIsReady(r: Router)
    requires r.Valid() && AllCountable(r.values)
    ensures Ready(r.values, r.maxParams)
  {
  }

  /** Every lookup fits the buffers, and when it finds a wrapped handle there is a slot left for the route. */
  lemma PlanFits(values: map<string, Trie>, cap: nat, verb: string, path: string)
    requires Ready(values, cap) && verb in values
    ensures var r := Get(values[verb], path);
            r.Found? && |r.params| + |Extra(r.handle)| <= cap
  {
    var t := values[verb];
    CapacitySuffices(values, cap, verb);
    ParamsFit(t, path, cap);
    if Hits(t, path) {
      var p := GetSound(t, path);
      BindingsAtMost(p, path);
      assert Slots(Route(p, Get(t, path).handle.value)) <= cap;
    }
  }

  /** The first `used` entries of a buffer; no buffer, no entries. */
  function Saved(ps: array?<Binding>, used: nat): seq<Binding>
    requires ps != null ==> used <= ps.Length
    reads ps
  {
    if ps == null then [] else ps[..used]
  }

  /** The buffer, if there is one. */
  function Buffers(ps: array?<Binding>): set<array<Binding>> {
    if ps == null then {} else {ps}
  }

  /** Registration is over, and every buffer of the pool is fit for use. */
  ghost predicate Open(r: Router)
    reads r, r.repr
  {
    SetUpCheck(r) == Yes && r.PoolOk()
  }

  ghost function SetUpCheck(r: Router): Answer
    reads r`trees, r`values, r`repr, r`maxParams, r`poolReady, r`globalAllowed, r`handleOptions, r.repr
  {
    if r.Valid() && AllCountable(r.values) then Yes else No
  }

  /** The lookup with a given buffer; without one, there is no pattern with a wildcard. */
  method Search(r: Router, verb: string, path: string, ps: array?<Binding>)
    returns (handle: Option<Handle>, used: nat, tsr: bool)
    requires SetUpCheck(r) == Yes && verb in r.trees
    requires if ps == null then r.maxParams == 0 else ps.Length >= r.maxParams
    modifies ps
    ensures SetUpCheck(r) == Yes && (ps != null ==> used <= ps.Length)
    ensures verb in r.values && Get(r.values[verb], path) == Found(handle, Saved(ps, used), tsr)
  {
    CapacitySuffices(r.values, r.maxParams, verb);
    ParamsFit(r.values[verb], path, r.maxParams);
    handle, used, tsr := GetValue(r.trees[verb], path, ps, r.repr);
  }

  /** The tree of a method: its handle for the path and the values, or none and the advice. A buffer leaves the
      pool only if the path meets a wildcard, and it is large enough. */
  method Query(r: Router, verb: string, path: string)
    returns (handle: Option<Handle>, ps: array?<Binding>, used: nat, tsr: bool)
    requires Open(r) && verb in r.trees
    modifies r`pool, r.pool
    ensures Open(r) && (ps != null ==> used > 0 && Held(r, ps, used))
    ensures r.pool == old(r.pool) - Buffers(ps)
    ensures ps == null || ps in old(r.pool) || fresh(ps)
    ensures verb in r.values && Get(r.values[verb], path) == Found(handle, Saved(ps, used), tsr)
  {
    var before := r.pool;
    var lent := Borrow(r);
    handle, ps, used, tsr := SearchWith(r, verb, path, lent, before);
  }

  /** The lookup with the buffer `lent`. If it meets no wildcard, it never asks for a buffer, and the pool is as
      `before`. */
  method SearchWith(r: Router, verb: string, path: string, lent: array?<Binding>, before: set<array<Binding>>)
    returns (handle: Option<Handle>, ps: array?<Binding>, used: nat, tsr: bool)
    requires Open(r) && verb in r.trees && r.pool == before - Buffers(lent)
    requires if lent == null then r.maxParams == 0 else lent.Length >= r.maxParams
    modifies r`pool, lent
    ensures Open(r) && (ps != null ==> used > 0 && ps == lent && Held(r, ps, used)) && r.pool == before - Buffers(ps)
    ensures verb in r.values && Get(r.values[verb], path) == Found(handle, Saved(ps, used), tsr)
  {
    handle, used, tsr := Search(r, verb, path, lent);
    ps := lent;
    if used == 0 {
      assert Saved(lent, 0) == [];
      ps := null;
      Untouched(r, lent, before);
    }
  }

  /** No wildcard was met, so no buffer was asked for. */
  method Untouched(r: Router, lent: array?<Binding>, before: set<array<Binding>>)
    requires Open(r) && r.pool == before - Buffers(lent) && (lent != null ==> lent.Length >= r.maxParams)
    modifies r`pool
    ensures Open(r) && r.pool == before
  {
    r.pool := before;
  }

  /** A buffer for a lookup, if there is a pattern with a wildcard at all. */
  method Borrow(r: Router) returns (ps: array?<Binding>)
    requires Open(r)
    modifies r`pool
    ensures Open(r) && r.pool == old(r.pool) - Buffers(ps) && (ps == null || ps in old(r.pool) || fresh(ps))
    ensures if ps == null then r.maxParams == 0 else ps.Length >= r.maxParams
  {
    ps := null;
    if r.poolReady {
      ps := r.GetParams();
    }
  }

  /** A buffer of the router that is out of the pool. */
  predicate Held(r: Router, ps: array<Binding>, used: nat)
    reads r`pool, r`maxParams
  {
    ps !in r.pool && ps.Length >= r.maxParams && used <= ps.Length
  }

  method GiveBack(r: Router, ps: array?<Binding>)
    requires Open(r) && (ps != null ==> Held(r, ps, 0))
    modifies r`pool
    ensures Open(r) && r.pool == old(r.pool) + Buffers(ps)
  {
    if ps != null {
      r.PutParams(ps);
    }
  }

  /** The caller is given the buffer together with a handle; without one it is put back. */
  method LookUp(r: Router, verb: string, path: string)
    returns (handle: Option<Handle>, ps: array?<Binding>, used: nat, tsr: bool)
    requires Open(r)
    modifies r`pool, r.pool
    ensures Open(r) && (ps != null ==> Held(r, ps, used))
    ensures handle == None ==> ps == null && old(r.pool) <= r.pool
    ensures if verb !in r.values then handle == None && !tsr
            else
              var g := Get(r.values[verb], path);
              && g.Found? && handle == g.handle && tsr == g.tsr
              && Saved(ps, used) == if handle == None then [] else g.params
  {
    handle, ps, used, tsr := None, null, 0, false;
    if verb in r.trees {
      handle, ps, used, tsr := Query(r, verb, path);
      if handle == None {
        GiveBack(r, ps);
        ps := null;
      }
    }
  }

  /** The answer `o`, whose Allow list is a text, is `w`, whose Allow list is a set. */
  ghost predicate Answers(o: D.Outcome<string>, w: D.Outcome<set<string>>) {
    match w
    case Handled(h, ps) => o == D.Handled(h, ps)
    case Redirected(code, target) => o == D.Redirected(code, target)
    case OptionsReply(ms) => o.OptionsReply? && Spells(o.allow, ms)
    case NotAllowed(ms) => o.NotAllowed? && Spells(o.allow, ms)
    case NotFound => o == D.NotFound
  }

  /** The handler of a route, in its wrapper if the matched route is passed on, and then the end of the request:
      the buffer is put back. `seen` is what the handler reads. */
  method CallHandle(r: Router, h: Handle, ps: array?<Binding>, used: nat) returns (seen: seq<Binding>)
    requires Open(r) && (ps != null ==> Held(r, ps, used)) && |Saved(ps, used)| + |Extra(Some(h))| <= r.maxParams
    modifies r`pool, r.pool, ps
    ensures Open(r) && seen == old(Saved(ps, used)) + Extra(Some(h))
    ensures old(r.pool) + Buffers(ps) <= r.pool
  {
    var buf, n := ps, if ps == null then 0 else used;
    if h.savedRoute.Some? {
      if buf == null {
        buf := r.GetParams();
      }
      buf[n] := Binding(MATCHED_ROUTE_PATH_PARAM, h.savedRoute.value);
      n := n + 1;
    }
    seen := if buf == null then [] else buf[..n];
    GiveBack(r, buf);
  }

  /** The case-insensitive lookup is only asked when this holds. */
  predicate AsksFold(r: Router, verb: string, path: string)
    reads r`redirectFixedPath
  {
    r.redirectFixedPath && verb != "CONNECT" && path != "/"
  }

  /** The answer to a request, and what the handler, if any, has read. */
  method ServeHTTP(r: Router, verb: string, path: string) returns (o: D.Outcome<string>, seen: seq<Binding>)
    requires Open(r) && (AsksFold(r, verb, path) ==> Ascii(path))
    modifies r`pool, r.pool
    ensures Open(r) && Answers(o, D.Serve(r.View(), verb, path))
    ensures o.Handled? ==>
              && old(r.pool) <= r.pool
              && seen == o.params + if o.handle.savedRoute.Some?
                                    then [Binding("$matchedRoutePath", o.handle.savedRoute.value)] else []
  {
    seen := [];
    if verb in r.trees {
      var handle, ps, used, tsr := Query(r, verb, path);
      if handle != None {
        o, seen := Handled(r, verb, path, handle.value, ps, used);
      } else {
        o := Unhandled(r, verb, path, tsr);
      }
    } else {
      o := Refuse(r, verb, path);
    }
  }

  lemma HitIsHandled(v: D.Router, verb: string, path: string, h: Handle, params: seq<Binding>)
    requires verb in v.trees && Get(v.trees[verb], path).Found?
    requires Get(v.trees[verb], path).handle == Some(h) && Get(v.trees[verb], path).params == params
    ensures Answers(D.Handled(h, params), D.Serve(v, verb, path))
  {
  }

  /** A lookup that found a handle. */
  method Handled(r: Router, verb: string, path: string, h: Handle, ps: array?<Binding>, used: nat)
    returns (o: D.Outcome<string>, seen: seq<Binding>)
    requires Open(r) && (ps != null ==> Held(r, ps, used)) && verb in r.values && Get(r.values[verb], path).Found?
    requires Get(r.values[verb], path).handle == Some(h) && Get(r.values[verb], path).params == Saved(ps, used)
    modifies r`pool, r.pool, ps
    ensures Open(r) && old(r.pool) + Buffers(ps) <= r.pool
    ensures o.Handled? && Answers(o, D.Serve(r.View(), verb, path))
    ensures seen == o.params + if o.handle.savedRoute.Some?
                               then [Binding("$matchedRoutePath", o.handle.savedRoute.value)] else []
  {
    PlanFits(r.values, r.maxParams, verb, path);
    HitIsHandled(r.View(), verb, path, h, Saved(ps, used));
    o := D.Handled(h, if ps == null then [] else ps[..used]);
    seen := CallHandle(r, h, ps, used);
  }

  /** A lookup that found nothing: a redirect, or a refusal. */
  method Unhandled(r: Router, verb: string, path: string, tsr: bool) returns (o: D.Outcome<string>)
    requires SetUpCheck(r) == Yes && verb in r.trees && verb in r.values && (AsksFold(r, verb, path) ==> Ascii(path))
    requires Get(r.values[verb], path).Found? && !Hits(r.values[verb], path) && tsr == Get(r.values[verb], path).tsr
    ensures Answers(o, D.Serve(r.View(), verb, path)) && !o.Handled?
  {
    if verb != "CONNECT" && path != "/" {
      var code := if verb != "GET" then 308 else 301;
      if tsr && r.redirectTrailingSlash {
        var target := if |path| > 1 && path[|path| - 1] == '/' then path[..|path| - 1] else path + "/";
        return D.Redirected(code, target);
      }
      if r.redirectFixedPath {
        var fixedPath, found := Fix(r, verb, path);
        if found {
          return D.Redirected(code, fixedPath);
        }
      }
    }
    o := Refuse(r, verb, path);
  }

  /** The case-insensitive lookup of the cleaned path. */
  method Fix(r: Router, verb: string, path: string) returns (fixedPath: string, found: bool)
    requires r.Valid() && verb in r.trees && Ascii(path)
    ensures var o := FindFold(r.values[verb], Clean(path), NO_RUNE, r.redirectTrailingSlash);
            found == o.Some? && (found ==> fixedPath == o.value)
  {
    var clean := CleanPath(path);
    CleanCanonical(path);
    CanonicalRooted(clean);
    CleanAscii(path);
    fixedPath, found := FindCaseInsensitivePath(r.trees[verb], clean, r.redirectTrailingSlash, r.repr);
  }

  /** OPTIONS, 405 or 404. */
  method Refuse(r: Router, verb: string, path: string) returns (o: D.Outcome<string>)
    requires r.Valid()
    ensures Answers(o, D.Fallback(r.View(), verb, path)) && !o.Handled?
  {
    if verb == "OPTIONS" && r.handleOptions {
      var allow := r.Allowed(path, "OPTIONS");
      SpellsNothing(allow, D.AllowedMethods(r.View(), path, "OPTIONS"));
      if allow != "" {
        return D.OptionsReply(allow);
      }
    } else if r.handleMethodNotAllowed {
      var allow := r.Allowed(path, verb);
      SpellsNothing(allow, D.AllowedMethods(r.View(), path, verb));
      if allow != "" {
        return D.NotAllowed(allow);
      }
    }
    return D.NotFound;
  }

  /** The entries of a buffer that a call asks for, as a 16-bit count. */
  function Entries(s: D.Settings, c: R.Call): nat {
    (CountWild(c.path) % 0x1_0000 + if s.saveMatchedRoutePath then 1 else 0) % 0x1_0000
  }

  function Largest(s: D.Settings, cs: seq<R.Call>): nat {
    if cs == [] then 0
    else Capacity16(Largest(s, cs[..|cs| - 1]), cs[|cs| - 1].path, if s.saveMatchedRoutePath then 1 else 0)
  }

  /** `n` is the most that any of the calls asks for. */
  ghost predicate IsLargest(s: D.Settings, cs: seq<R.Call>, n: nat) {
    (forall c :: c in cs ==> Entries(s, c) <= n) && (n == 0 || exists c :: c in cs && n == Entries(s, c))
  }

  lemma {:induction false} LargestExactly(s: D.Settings, cs: seq<R.Call>)
    ensures IsLargest(s, cs, Largest(s, cs))
    decreases |cs|
  {
    if cs != [] {
      var init, c := cs[..|cs| - 1], cs[|cs| - 1];
      assert cs == init + [c] && c in cs;
      LargestExactly(s, init);
    }
  }

  lemma LargestStep(s: D.Settings, cs: seq<R.Call>, i: nat)
    requires i < |cs|
    ensures Largest(s, cs[..i + 1])
            == Capacity16(Largest(s, cs[..i]), cs[i].path, if s.saveMatchedRoutePath then 1 else 0)
  {
    assert cs[..i + 1][..i] == cs[..i];
  }

  lemma RunStep(s: D.Settings, cs: seq<R.Call>, i: nat)
    requires i < |cs| && R.Run(s, cs[..i]).Some?
    ensures R.Run(s, cs[..i]).value.settings == s
    ensures R.Run(s, cs[..i + 1]) == R.Register(R.Run(s, cs[..i]).value, cs[i])
  {
    R.RunKeeps(s, cs[..i]);
    assert cs[..i + 1][..i] == cs[..i];
  }

  /** A router set up as the service does it: the settings first, then all registrations, then requests. Its
      buffers are as large as the most demanding call asks for. */
  method SetUp(s: D.Settings, cs: seq<R.Call>) returns (ok: bool, r: Router)
    ensures ok <==> R.Run(s, cs).Some?
    ensures ok ==> r.Valid() && r.pool == {} && r.View() == R.Run(s, cs).value && IsLargest(s, cs, r.maxParams)
  {
    r := new Router(s);
    ok := true;
    assert cs[..0] == [];
    for i := 0 to |cs|
      invariant fresh(r) && fresh(r.repr) && r.Valid() && r.pool == {} && R.Run(s, cs[..i]) == Some(r.View())
      invariant r.maxParams == Largest(s, cs[..i])
    {
      RunStep(s, cs, i);
      LargestStep(s, cs, i);
      assert r.View().settings == s;
      ok := r.Handle(cs[i].verb, cs[i].path, cs[i].handler);
      if !ok {
        RunStops(s, cs, i + 1);
        return;
      }
    }
    assert cs[..|cs|] == cs;
    LargestExactly(s, cs);
  }

  /** Nothing comes after a panic. */
  lemma {:induction false} RunStops(s: D.Settings, cs: seq<R.Call>, i: nat)
    requires i <= |cs| && R.Run(s, cs[..i]).None?
    ensures R.Run(s, cs).None?
    decreases |cs| - i
  {
    if i == |cs| {
      assert cs[..i] == cs;
    } else {
      assert cs[..i + 1][..i] == cs[..i];
      RunStops(s, cs, i + 1);
    }
  }
}
