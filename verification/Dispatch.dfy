/** What the router answers to a request, as a function of its trees and settings, and where its
    redirects lead. */
module Dispatch {
  import opened Bytes
  import opened Pattern
  import opened CleanSpec
  import opened RadixTree
  import opened Lookup
  import opened Advice
  import opened CaseLookup

  datatype Settings = Settings(
    saveMatchedRoutePath: bool,
    redirectTrailingSlash: bool,
    redirectFixedPath: bool,
    handleMethodNotAllowed: bool,
    handleOptions: bool)

  datatype Router = Router(trees: map<string, Trie>, settings: Settings)

  /** Every method in the table has at least one route. */
  ghost predicate RouterOk(v: Router) {
    forall m :: m in v.trees ==> RootOk(v.trees[m])
  }

  /** `Allow` is the type of an Allow list. */
  datatype Outcome<+Allow> =
    | Handled(handle: Handle, params: seq<Binding>)
    | Redirected(code: nat, target: string)
    | OptionsReply(allow: Allow)
    | NotAllowed(allow: Allow)
    | NotFound

  /** The methods of the Allow header. The path "*" asks for the whole server. */
  function AllowedMethods(v: Router, path: string, verb: string): set<string> {
    WithOptions(if path == "*" then v.trees.Keys - {"OPTIONS"} else Others(v, path, verb), v.settings.handleOptions)
  }

  /** The other methods that dispatch the path. */
  function Others(v: Router, path: string, verb: string): set<string> {
    set m | m in v.trees && m != verb && m != "OPTIONS" && Hits(v.trees[m], path)
  }

  function WithOptions(ms: set<string>, handleOptions: bool): set<string> {
    if ms != {} && handleOptions then ms + {"OPTIONS"} else ms
  }

  function RedirectCode(verb: string): nat {
    if verb == "GET" then 301 else 308
  }

  /** The same path with one '/' less, or else with one more. */
  function FlipSlash(path: string): string {
    if |path| > 1 && EndsInSlash(path) then path[..|path| - 1] else path + "/"
  }

  /** Where a request without a handle is redirected to, if anywhere. */
  function RedirectTarget(v: Router, verb: string, path: string): Option<string>
    requires verb in v.trees
  {
    var r := Get(v.trees[verb], path);
    if verb == "CONNECT" || path == "/" then None
    else if r.Found? && r.tsr && v.settings.redirectTrailingSlash then Some(FlipSlash(path))
    else if v.settings.redirectFixedPath then
      FindFold(v.trees[verb], Clean(path), NO_RUNE, v.settings.redirectTrailingSlash)
    else None
  }

  function Fallback(v: Router, verb: string, path: string): Outcome<set<string>> {
    var allow := AllowedMethods(v, path, verb);
    if verb == "OPTIONS" && v.settings.handleOptions then
      if allow != {} then OptionsReply(allow) else NotFound
    else if v.settings.handleMethodNotAllowed && allow != {} then NotAllowed(allow)
    else NotFound
  }

  function Serve(v: Router, verb: string, path: string): Outcome<set<string>> {
    if verb !in v.trees then Fallback(v, verb, path)
    else if Hits(v.trees[verb], path) then
      Handled(Get(v.trees[verb], path).handle.value, Get(v.trees[verb], path).params)
    else
      match RedirectTarget(v, verb, path)
      case Some(target) => Redirected(RedirectCode(verb), target)
      case None => Fallback(v, verb, path)
  }

  // ----- redirect chains

  /** A client resolves the empty target to the root. */
  function Resolve(target: string): string {
    if target == "" then "/" else target
  }

  /** The next request of a client that follows a redirect with the same method. */
  function Followed(v: Router, verb: string, path: string): Option<string> {
    match Serve(v, verb, path)
    case Redirected(_, target) => Some(Resolve(target))
    case _ => None
  }

  function Follow(v: Router, verb: string): (next: string -> Option<string>)
    ensures forall path :: next(path) == Followed(v, verb, path)
  {
    path => Followed(v, verb, path)
  }

  /** Going on from `path` ends after at most `n` steps. */
  predicate Ends(next: string -> Option<string>, path: string, n: nat)
    decreases n
  {
    match next(path)
    case None => true
    case Some(q) => n > 0 && Ends(next, q, n - 1)
  }

  /** Following redirects with the same method ends after at most `n` of them. */
  predicate EndsWithin(v: Router, verb: string, path: string, n: nat) {
    Ends(Follow(v, verb), path, n)
  }

  lemma {:induction false} EndsMore(next: string -> Option<string>, path: string, n: nat, k: nat)
    requires n <= k && Ends(next, path, n)
    ensures Ends(next, path, k)
    decreases n
  {
    if next(path).Some? {
      EndsMore(next, next(path).value, n - 1, k - 1);
    }
  }

  /** One redirect more. */
  lemma StepEnds(v: Router, verb: string, path: string, n: nat)
    requires Serve(v, verb, path).Redirected? ==> EndsWithin(v, verb, Resolve(Serve(v, verb, path).target), n)
    ensures EndsWithin(v, verb, path, n + 1)
  {
  }

  /** A match found by the search is dispatched by the exact lookup. */
  lemma FoldResultHits(t: Trie, s: string, o: string, fix: bool)
    requires RootOk(t) && FoldResult(Routes(t), s, o, fix)
    ensures Hits(t, o) || (fix && Shorter(s, o))
  {
    if Corrected(Routes(t), s, o) {
      var r :| r in Routes(t) && Agree(r.pattern, s, o);
      GetFinds(t, r, o);
    } else if Extended(Routes(t), s, o) {
      var r :| r in Routes(t) && Agree(r.pattern, s + "/", o);
      GetFinds(t, r, o);
    }
  }

  /** The corrected path of a cleaned input: dispatched, or the input without its trailing slash. */
  lemma FixedPath(t: Trie, c: string, fix: bool)
    requires RootOk(t) && Canonical(c) && FindFold(t, c, NO_RUNE, fix).Some?
    ensures var o := FindFold(t, c, NO_RUNE, fix).value;
            Hits(t, o) || (fix && Shorter(c, o))
  {
    CanonicalRooted(c);
    FoldSound(t, c, NO_RUNE, fix);
    FoldResultHits(t, c, FindFold(t, c, NO_RUNE, fix).value, fix);
  }

  /** Adding the recommended slash leads straight to a handle. */
  lemma AddedSlashEnds(v: Router, verb: string, path: string)
    requires RouterOk(v) && verb in v.trees && !EndsInSlash(path)
    requires Get(v.trees[verb], path).Found? && Get(v.trees[verb], path).tsr
    ensures EndsWithin(v, verb, path + "/", 0)
  {
    AdviceExact(v.trees[verb], path);
  }

  /** The correction of a cleaned or case-corrected path that is not dispatched is. */
  lemma SecondTargetHits(v: Router, verb: string, o: string)
    requires RouterOk(v) && verb in v.trees && Canonical(o) && !EndsInSlash(o)
    requires FindFold(v.trees[verb], o, NO_RUNE, v.settings.redirectTrailingSlash).Some?
    ensures Hits(v.trees[verb], FindFold(v.trees[verb], o, NO_RUNE, v.settings.redirectTrailingSlash).value)
  {
    var t, fix := v.trees[verb], v.settings.redirectTrailingSlash;
    var o' := FindFold(t, o, NO_RUNE, fix).value;
    FixedPath(t, o, fix);
    if Shorter(o, o') {
      ShorterSlash(o, o');
    }
  }

  /** What is dispatched is not redirected. */
  lemma HitEnds(v: Router, verb: string, path: string)
    requires verb in v.trees && Hits(v.trees[verb], path)
    ensures EndsWithin(v, verb, path, 0)
  {
  }

  /** The two kinds of redirect. */
  lemma RedirectKinds(v: Router, verb: string, path: string)
    requires Serve(v, verb, path).Redirected?
    ensures verb in v.trees && path != "/"
    ensures var target, fix := Serve(v, verb, path).target, v.settings.redirectTrailingSlash;
            if Get(v.trees[verb], path).Found? && Get(v.trees[verb], path).tsr && fix then target == FlipSlash(path)
            else Some(target) == FindFold(v.trees[verb], Clean(path), NO_RUNE, fix)
  {
  }

  /** A canonical path without a trailing slash, as a correction may leave it: at most one more redirect. */
  lemma CanonicalSettles(v: Router, verb: string, o: string)
    requires RouterOk(v) && verb in v.trees && Canonical(o) && !EndsInSlash(o)
    ensures EndsWithin(v, verb, o, 1)
  {
    CanonicalFixed(o);
    if Serve(v, verb, o).Redirected? {
      RedirectKinds(v, verb, o);
      if Get(v.trees[verb], o).Found? && Get(v.trees[verb], o).tsr && v.settings.redirectTrailingSlash {
        AddedSlashEnds(v, verb, o);
      } else {
        SecondTargetHits(v, verb, o);
        HitEnds(v, verb, Serve(v, verb, o).target);
        NoEmptyHit(v.trees[verb]);
      }
    }
    StepEnds(v, verb, o, 0);
  }

  /** No pattern matches the empty path. */
  lemma NoEmptyHit(t: Trie)
    requires RootOk(t)
    ensures !Hits(t, "")
  {
  }

  /** A cleaned or case-corrected target needs at most one more redirect. */
  lemma FixedTargetSettles(v: Router, verb: string, path: string)
    requires RouterOk(v) && verb in v.trees
    requires FindFold(v.trees[verb], Clean(path), NO_RUNE, v.settings.redirectTrailingSlash).Some?
    ensures var o := FindFold(v.trees[verb], Clean(path), NO_RUNE, v.settings.redirectTrailingSlash).value;
            EndsWithin(v, verb, Resolve(o), 1)
  {
    var t, fix, c := v.trees[verb], v.settings.redirectTrailingSlash, Clean(path);
    var o := FindFold(t, c, NO_RUNE, fix).value;
    CleanCanonical(path);
    FixedPath(t, c, fix);
    if o == "" {
      RootEnds(v, verb);
    } else if Hits(t, o) {
      HitEnds(v, verb, o);
      EndsMore(Follow(v, verb), o, 0, 1);
    } else {
      CanonicalFold(c, o + "/");
      CanonicalNoSlash(o);
      CanonicalSettles(v, verb, o);
    }
  }

  /** The path "/" is never redirected. */
  lemma RootEnds(v: Router, verb: string)
    ensures EndsWithin(v, verb, "/", 1)
  {
    if Serve(v, verb, "/").Redirected? {
      RedirectKinds(v, verb, "/");
    }
  }

  /** Every redirect chain ends, within the length of the path and two more. */
  lemma {:induction false} RedirectsEnd(v: Router, verb: string, path: string)
    requires RouterOk(v)
    ensures EndsWithin(v, verb, path, |path| + 2)
    decreases |path|
  {
    if Serve(v, verb, path).Redirected? {
      RedirectKinds(v, verb, path);
      if Get(v.trees[verb], path).Found? && Get(v.trees[verb], path).tsr && v.settings.redirectTrailingSlash {
        if |path| > 1 && EndsInSlash(path) {
          RedirectsEnd(v, verb, path[..|path| - 1]);
        } else {
          assert |path| == 1 && EndsInSlash(path) ==> path == "/";
          AddedSlashEnds(v, verb, path);
          EndsMore(Follow(v, verb), path + "/", 0, |path| + 1);
        }
      } else {
        FixedTargetSettles(v, verb, path);
        EndsMore(Follow(v, verb), Resolve(Serve(v, verb, path).target), 1, |path| + 1);
      }
    }
    StepEnds(v, verb, path, |path| + 1);
  }
}
