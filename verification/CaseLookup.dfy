/** The case-insensitive lookup, on ASCII: a backtracking search over both spellings of a byte. */
module CaseLookup {
  import opened Bytes
  import opened Pattern
  import opened AsciiCase
  import opened RadixTree
  import opened Denotation
  import opened Lookup

  const NO_RUNE: char := '\0'

  function Prepend(a: string, o: Option<string>): Option<string> {
    match o
    case None => None
    case Some(s) => Some(a + s)
  }

  /** Looks `s` up below `t` and returns the corrected path. `rb` is the rune byte left over from the
      node above; the router's four-byte buffer never holds more than one byte on ASCII. */
  function FindFold(t: Trie, s: string, rb: char, fix: bool): Option<string>
    decreases t, 2
  {
    if PathFolds(t, s) then
      var rest := s[|t.path|..];
      Prepend(t.path,
              if rest == "" then FoldEnd(t, fix)
              else if t.wildChild then FoldWild(t, rest, rb, fix)
              else FoldEdges(t, rest, if t.path == "" then rb else NO_RUNE, fix))
    else if fix then FoldMiss(t, s)
    else None
  }

  /** All but the first byte is compared: the first byte chose the edge. */
  predicate PathFolds(t: Trie, s: string) {
    |s| >= |t.path| && (t.path == "" || EqualFold(s[1..|t.path|], t.path[1..]))
  }

  /** The edges that continue with the next byte: an unfinished rune first, otherwise the lower-case
      byte, and after a failure below it the upper-case byte. */
  function FoldEdges(t: Trie, rest: string, rb: char, fix: bool): Option<string>
    requires rest != ""
    decreases t, 1
  {
    if rb != NO_RUNE then
      var k := IndexOf(t.indices, rb);
      if k < |t.indices| then FoldEdge(t, k, rest, rb, fix) else FoldStop(t, rest, fix)
    else
      var rv := if t.path == "" then NO_RUNE else rest[0];
      var lo, up := Lower(rv), Upper(rv);
      var i, j := IndexOf(t.indices, lo), IndexOf(t.indices, up);
      var first := if i < |t.indices| then FoldEdge(t, i, rest, lo, fix) else None;
      if first.Some? then first
      else if up != lo && j < |t.indices| then FoldEdge(t, j, rest, up, fix)
      else FoldStop(t, rest, fix)
  }

  function FoldEdge(t: Trie, k: nat, rest: string, rb: char, fix: bool): Option<string>
    decreases t, 0
  {
    if k < |t.children| then FindFold(t.children[k], rest, rb, fix) else None
  }

  /** No edge continues: a lone '/' may be dropped. */
  function FoldStop(t: Trie, rest: string, fix: bool): Option<string> {
    if fix && rest == "/" && t.handle.Some? then Some("") else None
  }

  function FoldWild(t: Trie, rest: string, rb: char, fix: bool): Option<string>
    decreases t, 0
  {
    if t.children == [] then None
    else
      var c := t.children[0];
      match c.nType
      case Param =>
        var e := SegEnd(rest);
        Prepend(rest[..e],
                if e < |rest| then
                  (if c.children != [] then FindFold(c.children[0], rest[e..], rb, fix)
                   else if fix && |rest| == e + 1 then Some("")
                   else None)
                else if c.handle.Some? then Some("")
                else if fix && |c.children| == 1 && c.children[0].path == "/" &&
                    c.children[0].handle.Some? then Some("/")
                else None)
      case CatchAll => Some(rest)
      case _ => None
  }

  /** The path ends at this node: a '/' may be added. */
  function FoldEnd(t: Trie, fix: bool): Option<string> {
    if t.handle.Some? then Some("")
    else if !fix then None
    else
      var k := IndexOf(t.indices, '/');
      if k < |t.indices| && k < |t.children| then
        var c := t.children[k];
        if (|c.path| == 1 && c.handle.Some?)
           || (c.nType == CatchAll && c.children != [] && c.children[0].handle.Some?)
        then Some("/") else None
      else None
  }

  /** The path leaves the tree at this node. */
  function FoldMiss(t: Trie, s: string): Option<string> {
    if s == "/" then Some("")
    else if && s != "" && |s| + 1 == |t.path| && t.path[|s|] == '/'
            && EqualFold(s[1..], t.path[1..|s|]) && t.handle.Some? then Some(t.path)
    else None
  }

  // ----- soundness

  /** The first byte of the remaining path fits the edge into `t`. */
  predicate HeadFolds(t: Trie, s: string) {
    && t.nType != Param && s != ""
    && if t.path == "" then s[0] == '/' else t.nType != CatchAll && Lower(s[0]) == Lower(t.path[0])
  }

  /** The pattern `p` matches `o` as it is and `s` up to case, with the same values byte for byte. So `o` has the
      static parts as they are registered, and the values of `s`. */
  predicate Agree(p: string, s: string, o: string) {
    Match(p, o).Some? && MatchFold(p, s) == Match(p, o)
  }

  /** `o` is dispatched, differs from `s` only in the case of static parts, and binds the same values. */
  ghost predicate Corrected(rs: set<Route>, s: string, o: string) {
    exists r :: r in rs && Agree(r.pattern, s, o) && EqualFold(o, s)
  }

  /** The same, where `s` gets a '/' more. */
  ghost predicate Extended(rs: set<Route>, s: string, o: string) {
    exists r :: r in rs && Agree(r.pattern, s + "/", o) && EqualFold(o, s + "/")
  }

  predicate Shorter(s: string, o: string) {
    EqualFold(o + "/", s)
  }

  /** `o` is `s` with a '/' less: nothing may be registered for it, but it is spelled as the beginning of what a
      pattern matches, and has the values of `s` so far. */
  ghost predicate Shortened(rs: set<Route>, s: string, o: string) {
    Shorter(s, o) && exists r, x :: r in rs && Agree(r.pattern, s[..|s| - 1] + x, o + x)
  }

  ghost predicate FoldResult(rs: set<Route>, s: string, o: string, fix: bool) {
    Corrected(rs, s, o) || (fix && (Extended(rs, s, o) || Shortened(rs, s, o)))
  }

  lemma PathFoldsWhole(t: Trie, s: string)
    requires HeadFolds(t, s) && PathFolds(t, s)
    ensures EqualFold(t.path, s[..|t.path|])
  {
    forall i | 0 <= i < |t.path| ensures Lower(t.path[i]) == Lower(s[i]) {
      if i > 0 {
        assert s[1..|t.path|][i - 1] == s[i] && t.path[1..][i - 1] == t.path[i];
      }
    }
  }

  /** A result below the static node `t` is a result at `t`. */
  lemma FoldLift(t: Trie, k: nat, a: string, rest: string, o: string, fix: bool)
    requires Ok(t) && t.nType in {Static, Root} && k < |t.children|
    requires EqualFold(t.path, a) && FoldResult(Routes(t.children[k]), rest, o, fix)
    ensures FoldResult(Routes(t), a + rest, t.path + o, fix)
  {
    var rs := Routes(t.children[k]);
    if Corrected(rs, rest, o) {
      var r :| r in rs && Agree(r.pattern, rest, o) && EqualFold(o, rest);
      var p := FoldLiftRoute(t, k, a, r, rest, o);
      FoldConcat(t.path, a, o, rest);
      assert Corrected(Routes(t), a + rest, t.path + o);
    } else if Extended(rs, rest, o) {
      LiftExtended(t, k, a, rest, o);
    } else {
      LiftShortened(t, k, a, rest, o);
    }
  }

  lemma LiftExtended(t: Trie, k: nat, a: string, rest: string, o: string)
    requires Ok(t) && t.nType in {Static, Root} && k < |t.children|
    requires EqualFold(t.path, a) && Extended(Routes(t.children[k]), rest, o)
    ensures Extended(Routes(t), a + rest, t.path + o)
  {
    var r :| r in Routes(t.children[k]) && Agree(r.pattern, rest + "/", o) && EqualFold(o, rest + "/");
    var p := FoldLiftRoute(t, k, a, r, rest + "/", o);
    FoldConcat(t.path, a, o, rest + "/");
    assert a + (rest + "/") == a + rest + "/";
  }

  lemma LiftShortened(t: Trie, k: nat, a: string, rest: string, o: string)
    requires Ok(t) && t.nType in {Static, Root} && k < |t.children|
    requires EqualFold(t.path, a) && Shortened(Routes(t.children[k]), rest, o)
    ensures Shortened(Routes(t), a + rest, t.path + o)
  {
    var r, x :| r in Routes(t.children[k]) && Agree(r.pattern, rest[..|rest| - 1] + x, o + x);
    var p := FoldLiftRoute(t, k, a, r, rest[..|rest| - 1] + x, o + x);
    Regroup(t.path, a, rest, o, x);
    FoldConcat(t.path, a, o + "/", rest);
    assert Agree(p.pattern, (a + rest)[..|a + rest| - 1] + x, t.path + o + x);
  }

  lemma Regroup(b: string, a: string, rest: string, o: string, x: string)
    requires rest != ""
    ensures b + (o + "/") == b + o + "/" && b + (o + x) == b + o + x
    ensures a + (rest[..|rest| - 1] + x) == (a + rest)[..|a + rest| - 1] + x
  {
    assert (a + rest)[..|a + rest| - 1] == a + rest[..|rest| - 1];
  }

  lemma FoldLiftRoute(t: Trie, k: nat, a: string, r: Route, rest: string, o: string) returns (p: Route)
    requires Ok(t) && t.nType in {Static, Root} && k < |t.children|
    requires EqualFold(t.path, a) && r in Routes(t.children[k])
    ensures p == Route(t.path + r.pattern, r.handle) && p.pattern[|t.path|..] == r.pattern
    ensures p in Routes(t) && Match(p.pattern, t.path + o) == Match(r.pattern, o)
    ensures MatchFold(p.pattern, a + rest) == MatchFold(r.pattern, rest)
  {
    p := Route(t.path + r.pattern, r.handle);
    RouteBelow(t, k, r);
    var j, tail := StaticRoute(t, p);
    assert tail == r.pattern;
    MatchPlain(t.path, tail, t.path + o);
    assert (t.path + o)[|t.path|..] == o;
    MatchFoldPlain(t.path, a, tail, rest);
  }

  /** `v` is the value of the parameter `c`; the rest goes to the child. */
  lemma FoldLiftParam(c: Trie, r: Route, v: string, s: string, o: string) returns (p: Route)
    requires Ok(c) && c.nType == Param && c.children != [] && r in Routes(c.children[0])
    requires '/' !in v && StartsWith(s, '/') && StartsWith(o, '/')
    ensures p == Route(c.path + r.pattern, r.handle) && p.pattern[SegEnd(p.pattern)..] == r.pattern
    ensures p in Routes(c)
    ensures Match(p.pattern, v + o) == Bind(Binding(c.path[1..], v), Match(r.pattern, o))
    ensures MatchFold(p.pattern, v + s) == Bind(Binding(c.path[1..], v), MatchFold(r.pattern, s))
  {
    p := Route(c.path + r.pattern, r.handle);
    RouteBelow(c, 0, r);
    assert Ok(c.children[0]);
    EdgeRoute(c.children[0], '/', r);
    ParamToken(c.path[1..], r.pattern);
    assert c.path == ":" + c.path[1..];
    assert p.pattern[1..|c.path|] == c.path[1..];
    ValueEnd(v, s);
    ValueEnd(v, o);
  }

  lemma ValueEnd(v: string, s: string)
    requires '/' !in v && (s == "" || s[0] == '/')
    ensures SegEnd(v + s) == |v| && (v + s)[..|v|] == v && (v + s)[|v|..] == s
  {
    SegEndUnique(v + s, |v|);
  }

  function Bind(b: Binding, m: Option<seq<Binding>>): Option<seq<Binding>> {
    match m
    case None => None
    case Some(bs) => Some([b] + bs)
  }

  /** Every path the search returns is a correction of the input, by a route of the tree; only when
      trailing slashes are fixed may it instead be the input with one '/' more or less. */
  lemma {:induction false} FoldSound(t: Trie, s: string, rb: char, fix: bool)
    requires Ok(t) && HeadFolds(t, s) && FindFold(t, s, rb, fix).Some?
    ensures FoldResult(Routes(t), s, FindFold(t, s, rb, fix).value, fix)
    decreases t, 2
  {
    var o := FindFold(t, s, rb, fix).value;
    if t.nType == CatchAll {
      CatchAllRoutes(t);
      assert s[0..] == s && o == s && Ok(t.children[0]);
      assert Match(t.children[0].path, o).Some?;
      MatchIsMatchFold(t.children[0].path, o);
      assert Corrected(Routes(t), s, o);
    } else if PathFolds(t, s) {
      var a, rest := s[..|t.path|], s[|t.path|..];
      PathFoldsWhole(t, s);
      assert s == a + rest;
      if rest == "" {
        FoldSoundEnd(t, s, fix);
      } else if t.wildChild {
        FoldSoundWild(t, rest, rb, fix);
        FoldLift(t, 0, a, rest, FoldWild(t, rest, rb, fix).value, fix);
      } else {
        FoldSoundEdges(t, a, rest, if t.path == "" then rb else NO_RUNE, fix);
      }
    } else {
      FoldSoundMiss(t, s);
    }
  }

  /** A path that the pattern matches. */
  function Sample(p: string): (x: string)
    ensures Match(p, x).Some?
    decreases |p|
  {
    if p == "" then ""
    else if p[0] == ':' then
      var x := Sample(p[SegEnd(p)..]);
      SampleValue(p, x);
      "v" + x
    else if IsCatchAll(p) then "/"
    else
      var x := Sample(p[1..]);
      assert ([p[0]] + x)[1..] == x;
      [p[0]] + x
  }

  lemma SampleValue(p: string, x: string)
    requires p != "" && p[0] == ':' && Match(p[SegEnd(p)..], x).Some?
    ensures Match(p, "v" + x).Some?
  {
    assert x == "" || x[0] == '/';
    ValueEnd("v", x);
  }

  lemma FoldSoundMiss(t: Trie, s: string)
    requires Ok(t) && t.nType in {Static, Root} && HeadFolds(t, s) && FoldMiss(t, s).Some?
    ensures FoldResult(Routes(t), s, FoldMiss(t, s).value, true)
  {
    if s == "/" {
      var r := SomeRoute(t);
      var x := Sample(r.pattern);
      MatchIsMatchFold(r.pattern, x);
      assert "" + "/" == s && s[..|s| - 1] + x == x && "" + x == x;
      assert Shortened(Routes(t), s, "");
    } else {
      FoldSoundMissing(t, s);
    }
  }

  lemma FoldSoundMissing(t: Trie, s: string)
    requires Ok(t) && t.nType in {Static, Root} && HeadFolds(t, s) && FoldMiss(t, s) == Some(t.path) && s != "/"
    ensures Extended(Routes(t), s, t.path)
  {
    var o := t.path;
    assert Route(o, t.handle.value) in OwnRoute(t);
    assert o + "" == o;
    forall i | 0 <= i < |o| ensures Lower(o[i]) == Lower((s + "/")[i]) {
      if 0 < i < |s| {
        assert s[1..][i - 1] == s[i] && t.path[1..|s|][i - 1] == t.path[i];
      }
    }
    OwnAgrees(t, s + "/");
  }

  /** A node's own pattern agrees with a respelling of its path. */
  lemma OwnAgrees(t: Trie, s: string)
    requires Plain(t.path) && EqualFold(t.path, s)
    ensures Agree(t.path, s, t.path)
  {
    var p := t.path;
    assert p + "" == p && s + "" == s;
    MatchPlain(p, "", p);
    MatchFoldPlain(p, s, "", "");
  }

  lemma FoldSoundEnd(t: Trie, s: string, fix: bool)
    requires Ok(t) && t.nType in {Static, Root} && EqualFold(t.path, s) && FoldEnd(t, fix).Some?
    ensures FoldResult(Routes(t), s, t.path + FoldEnd(t, fix).value, fix)
  {
    var p := t.path;
    if t.handle.Some? {
      assert Route(p, t.handle.value) in OwnRoute(t) && p + "" == p;
      OwnAgrees(t, s);
      assert Corrected(Routes(t), s, p);
    } else {
      var k := IndexOf(t.indices, '/');
      var c := t.children[k];
      assert IsEdge(c, '/') && Ok(c);
      SlashRoute(c);
      FoldLift(t, k, s, "", "/", fix);
      assert s + "" == s;
    }
  }

  /** A '/' edge that ends there, or leads to a catch-all, dispatches "/". */
  lemma SlashRoute(c: Trie)
    requires Ok(c) && IsEdge(c, '/')
    requires (|c.path| == 1 && c.handle.Some?) || c.nType == CatchAll
    ensures Extended(Routes(c), "", "/")
  {
    assert "" + "/" == "/";
    if c.nType == CatchAll {
      CatchAllRoutes(c);
      MatchIsMatchFold(c.children[0].path, "/");
      assert Agree(c.children[0].path, "/", "/");
    } else {
      assert c.path == "/" && Route(c.path, c.handle.value) in OwnRoute(c);
      MatchIsMatchFold("/", "/");
      assert Agree("/", "/", "/");
    }
  }

  /** A lone '/' behind a node with a handle. */
  lemma StopShortened(t: Trie, a: string)
    requires Ok(t) && t.nType in {Static, Root} && EqualFold(t.path, a) && t.handle.Some?
    ensures Shortened(Routes(t), a + "/", t.path)
  {
    var s := a + "/";
    assert Route(t.path, t.handle.value) in OwnRoute(t);
    OwnAgrees(t, a);
    FoldConcat(t.path, a, "/", "/");
    assert s[..|s| - 1] + "" == a && t.path + "" == t.path;
  }

  lemma {:induction false} FoldSoundEdges(t: Trie, a: string, rest: string, rb: char, fix: bool)
    requires Ok(t) && t.nType in {Static, Root} && !t.wildChild && rest != ""
    requires EqualFold(t.path, a) && (t.path == "" ==> rest[0] == '/')
    requires rb != NO_RUNE ==> t.path == ""
    requires FoldEdges(t, rest, rb, fix).Some?
    ensures FoldResult(Routes(t), a + rest, t.path + FoldEdges(t, rest, rb, fix).value, fix)
    decreases t, 1
  {
    var o := FoldEdges(t, rest, rb, fix).value;
    if FoldEdges(t, rest, rb, fix) == FoldStop(t, rest, fix) && FoldStop(t, rest, fix).Some? {
      StopShortened(t, a);
      assert t.path + "" == t.path;
    } else {
      var rv := if t.path == "" then NO_RUNE else rest[0];
      var b := if rb != NO_RUNE then rb
               else if IndexOf(t.indices, Lower(rv)) < |t.indices|
                       && FoldEdge(t, IndexOf(t.indices, Lower(rv)), rest, Lower(rv), fix).Some? then Lower(rv)
               else Upper(rv);
      var k := IndexOf(t.indices, b);
      assert k < |t.indices| && FoldEdge(t, k, rest, b, fix) == Some(o);
      LowerCases(rest[0], b);
      assert IsEdge(t.children[k], b);
      assert HeadFolds(t.children[k], rest);
      FoldSound(t.children[k], rest, b, fix);
      FoldLift(t, k, a, rest, o, fix);
    }
  }

  lemma {:induction false} FoldSoundWild(t: Trie, rest: string, rb: char, fix: bool)
    requires Ok(t) && t.nType in {Static, Root} && t.wildChild && rest != "" && FoldWild(t, rest, rb, fix).Some?
    ensures FoldResult(Routes(t.children[0]), rest, FoldWild(t, rest, rb, fix).value, fix)
    decreases t, 0
  {
    var c := t.children[0];
    assert Ok(c) && c.nType == Param;
    var e := SegEnd(rest);
    var v, s := rest[..e], rest[e..];
    assert rest == v + s;
    if s == "" {
      assert v == rest;
      FoldSoundParamEnd(c, rest, fix);
    } else if c.children == [] {
      assert s == "/" && v + "" == v;
      LeafShortened(c, v);
    } else {
      var d := c.children[0];
      assert IsEdge(d, '/') && Ok(d);
      FoldSound(d, s, rb, fix);
      FoldLiftWild(c, v, s, FindFold(d, s, rb, fix).value, fix);
    }
  }

  /** A lone '/' behind a parameter that has no child. The value may be empty, but the pattern goes on. */
  lemma LeafShortened(c: Trie, v: string)
    requires Ok(c) && c.nType == Param && c.children == [] && '/' !in v
    ensures Shortened(Routes(c), v + "/", v)
  {
    var s, y := v + "/", v + "v";
    LeafRoutes(c);
    assert c.path == ":" + c.path[1..] && c.path + "" == c.path && y + "" == y;
    ParamToken(c.path[1..], "");
    ValueEnd(y, "");
    assert Agree(c.path, y, y);
    assert s[..|s| - 1] + "v" == y;
    assert Shorter(s, v);
  }

  lemma FoldSoundParamEnd(c: Trie, v: string, fix: bool)
    requires Ok(c) && c.nType == Param && v != "" && '/' !in v
    ensures c.handle.Some? ==> Corrected(Routes(c), v, v + "")
    ensures |c.children| == 1 && c.children[0].path == "/" && c.children[0].handle.Some? ==>
              Extended(Routes(c), v, v + "/")
  {
    if c.handle.Some? {
      FoldSoundParamHandle(c, v);
    }
    if |c.children| == 1 && c.children[0].path == "/" && c.children[0].handle.Some? {
      var d := c.children[0];
      assert Ok(d);
      var r := Route("/", d.handle.value);
      assert r in OwnRoute(d);
      var p := FoldLiftParam(c, r, v, "/", "/");
      MatchIsMatchFold("/", "/");
      assert Agree(p.pattern, v + "/", v + "/");
    }
  }

  lemma FoldSoundParamHandle(c: Trie, v: string)
    requires Ok(c) && c.nType == Param && v != "" && '/' !in v && c.handle.Some?
    ensures Corrected(Routes(c), v, v + "")
  {
    assert c.path == ":" + c.path[1..] && c.path + "" == c.path && v + "" == v;
    ParamToken(c.path[1..], "");
    ValueEnd(v, "");
    assert Route(c.path, c.handle.value) in OwnRoute(c);
    assert Agree(c.path, v, v);
  }

  lemma FoldLiftWild(c: Trie, v: string, s: string, o: string, fix: bool)
    requires Ok(c) && c.nType == Param && c.children != [] && '/' !in v && StartsWith(s, '/')
    requires FoldResult(Routes(c.children[0]), s, o, fix)
    ensures FoldResult(Routes(c), v + s, v + o, fix)
  {
    var rs := Routes(c.children[0]);
    if Corrected(rs, s, o) {
      var r :| r in rs && Agree(r.pattern, s, o) && EqualFold(o, s);
      var p := AgreeBelowParam(c, r, v, s, o);
      FoldConcat(v, v, o, s);
      assert Corrected(Routes(c), v + s, v + o);
    } else if Extended(rs, s, o) {
      var r :| r in rs && Agree(r.pattern, s + "/", o) && EqualFold(o, s + "/");
      var p := AgreeBelowParam(c, r, v, s + "/", o);
      FoldConcat(v, v, o, s + "/");
      assert v + (s + "/") == v + s + "/";
      assert Extended(Routes(c), v + s, v + o);
    } else {
      var r, x :| r in rs && Agree(r.pattern, s[..|s| - 1] + x, o + x);
      var p := AgreeBelowParam(c, r, v, s[..|s| - 1] + x, o + x);
      Regroup(v, v, s, o, x);
      FoldConcat(v, v, o + "/", s);
      assert Agree(p.pattern, (v + s)[..|v + s| - 1] + x, v + o + x);
      assert Shortened(Routes(c), v + s, v + o);
    }
  }

  lemma AgreeBelowParam(c: Trie, r: Route, v: string, y: string, z: string) returns (p: Route)
    requires Ok(c) && c.nType == Param && c.children != [] && '/' !in v
    requires r in Routes(c.children[0]) && Agree(r.pattern, y, z)
    ensures p in Routes(c) && Agree(p.pattern, v + y, v + z)
  {
    var d := c.children[0];
    assert Ok(d) && IsEdge(d, '/');
    EdgeRoute(d, '/', r);
    LowerCases(if y != "" then y[0] else '/', '/');
    p := FoldLiftParam(c, r, v, y, z);
  }

  /** At the root. The path found is dispatched and has the values of the input byte for byte, or, when slashes may
      be fixed and the input ends in one, it is the input without it, spelled as the beginning of what some pattern
      matches, with the values of the input. */
  lemma FoundIsDispatched(t: Trie, s: string, fix: bool)
    requires RootOk(t) && StartsWith(s, '/') && FindFold(t, s, NO_RUNE, fix).Some?
    ensures var o := FindFold(t, s, NO_RUNE, fix).value;
            || (EqualFold(o, s) && Hits(t, o)
                && exists r :: r in Routes(t) && MatchFold(r.pattern, s) == Some(Get(t, o).params))
            || (fix && EqualFold(o, s + "/") && Hits(t, o)
                && exists r :: r in Routes(t) && MatchFold(r.pattern, s + "/") == Some(Get(t, o).params))
            || (fix && Shortened(Routes(t), s, o))
    ensures !EndsInSlash(s) ==> Hits(t, FindFold(t, s, NO_RUNE, fix).value)
  {
    var o := FindFold(t, s, NO_RUNE, fix).value;
    FoldSound(t, s, NO_RUNE, fix);
    if Corrected(Routes(t), s, o) {
      var r :| r in Routes(t) && Agree(r.pattern, s, o) && EqualFold(o, s);
      GetFinds(t, r, o);
    } else if Extended(Routes(t), s, o) {
      var r :| r in Routes(t) && Agree(r.pattern, s + "/", o) && EqualFold(o, s + "/");
      GetFinds(t, r, o);
    } else {
      ShorterSlash(s, o);
    }
  }

  lemma ShorterSlash(s: string, o: string)
    requires Shorter(s, o)
    ensures EndsInSlash(s)
  {
    assert (o + "/")[|o|] == '/' && Lower(s[|o|]) == Lower('/');
    LowerCases(s[|o|], '/');
  }

  // ----- completeness

  /** On the way to the pattern `p`, a node with an empty path, which only leads to a catch-all, is left by the
      rune in the buffer: the byte of the last edge taken. So that byte must be '/'. */
  predicate Lit(t: Trie, p: string, rb: char)
    decreases t
  {
    if t.nType == CatchAll || |p| <= |t.path| then true
    else
      var tail := p[|t.path|..];
      if t.wildChild then
        var after := tail[SegEnd(tail)..];
        after == "" || t.children == [] || t.children[0].children == [] || Lit(t.children[0].children[0], after, rb)
      else if t.path == "" then rb == '/'
      else
        var k := IndexOf(t.indices, tail[0]);
        k >= |t.children| || Lit(t.children[k], tail, tail[0])
  }

  /** Whatever matches a lit pattern up to case is found, whichever spellings branch off on the way. */
  lemma {:induction false} FoldComplete(t: Trie, r: Route, s: string, rb: char, fix: bool)
    requires Ok(t) && t.nType != Param && r in Routes(t) && MatchFold(r.pattern, s).Some?
    requires Lit(t, r.pattern, rb) && (t.nType == CatchAll ==> t.path == "")
    ensures FindFold(t, s, rb, fix).Some?
    decreases t, 1
  {
    if t.nType == CatchAll {
      CatchAllRoutes(t);
      assert s[0..] == s && Ok(t.children[0]);
    } else {
      var k, tail := StaticRoute(t, r);
      MatchFoldPlainInv(t.path, tail, s);
      var rest := s[|t.path|..];
      FoldStart(t, s);
      if k < |t.children| {
        var q := Route(tail, r.handle);
        LitBelow(t, k, r.pattern, tail, rb);
        if t.wildChild {
          FoldCompleteWild(t, q, rest, rb, fix);
        } else {
          FoldCompleteEdges(t, k, q, rest, rb, fix);
        }
      }
    }
  }

  lemma LitBelow(t: Trie, k: nat, p: string, tail: string, rb: char)
    requires Lit(t, p, rb) && t.nType != CatchAll && k < |t.children|
    requires |p| > |t.path| && tail == p[|t.path|..]
    requires !t.wildChild ==> |t.indices| == |t.children| && Distinct(t.indices) && tail[0] == t.indices[k]
    ensures if t.wildChild then
              var after := tail[SegEnd(tail)..];
              after == "" || t.children[0].children == [] || Lit(t.children[0].children[0], after, rb)
            else if t.path == "" then rb == '/' else Lit(t.children[k], tail, t.indices[k])
  {
    if !t.wildChild {
      assert IndexOf(t.indices, tail[0]) == k;
    }
  }

  lemma FoldStart(t: Trie, s: string)
    requires |t.path| <= |s| && EqualFold(t.path, s[..|t.path|])
    ensures PathFolds(t, s)
  {
    if t.path != "" {
      forall i | 0 <= i < |t.path| - 1 ensures Lower(s[1..|t.path|][i]) == Lower(t.path[1..][i]) {
        assert Lower(t.path[i + 1]) == Lower(s[..|t.path|][i + 1]);
      }
    }
  }

  lemma {:induction false} FoldCompleteEdges(t: Trie, k: nat, r: Route, rest: string, rb: char, fix: bool)
    requires Ok(t) && t.nType in {Static, Root} && !t.wildChild && k < |t.children|
    requires r in Routes(t.children[k]) && MatchFold(r.pattern, rest).Some?
    requires if t.path == "" then rb == '/' else Lit(t.children[k], r.pattern, t.indices[k])
    requires rest != ""
    ensures FoldEdges(t, rest, if t.path == "" then rb else NO_RUNE, fix).Some?
    decreases t, 0
  {
    var c, b := t.children[k], t.indices[k];
    assert Ok(c) && IsEdge(c, b);
    EdgeRoute(c, b, r);
    assert Lower(rest[0]) == Lower(b);
    LowerCases(rest[0], b);
    assert IndexOf(t.indices, b) == k;
    FoldComplete(c, r, rest, b, fix);
  }

  lemma {:induction false} FoldCompleteWild(t: Trie, r: Route, rest: string, rb: char, fix: bool)
    requires Ok(t) && t.nType in {Static, Root} && t.wildChild && rest != ""
    requires r in Routes(t.children[0]) && MatchFold(r.pattern, rest).Some?
    requires var after := r.pattern[SegEnd(r.pattern)..];
             after == "" || t.children[0].children == [] || Lit(t.children[0].children[0], after, rb)
    ensures FoldWild(t, rest, rb, fix).Some?
    decreases t, 0
  {
    var c := t.children[0];
    assert Ok(c);
    var tail := ParamRoute(c, r);
    if tail != "" {
      var d := c.children[0];
      assert Ok(d) && IsEdge(d, '/');
      EdgeRoute(d, '/', Route(tail, r.handle));
      FoldComplete(d, Route(tail, r.handle), rest[SegEnd(rest)..], rb, fix);
    }
  }

  /** What is found matches a lit pattern. */
  lemma {:induction false} FoundIsLit(t: Trie, s: string, rb: char) returns (r: Route)
    requires Ok(t) && HeadFolds(t, s) && FindFold(t, s, rb, false).Some?
    ensures r in Routes(t) && MatchFold(r.pattern, s).Some? && Lit(t, r.pattern, rb)
    decreases t, 2
  {
    if t.nType == CatchAll {
      CatchAllRoutes(t);
      r := Route(t.children[0].path, t.children[0].handle.value);
    } else {
      var a, rest := s[..|t.path|], s[|t.path|..];
      PathFoldsWhole(t, s);
      assert s == a + rest;
      if rest == "" {
        r := Route(t.path, t.handle.value);
        assert r in OwnRoute(t) && t.path + "" == t.path && s + "" == s;
        MatchFoldPlain(t.path, s, "", "");
      } else if t.wildChild {
        r := FoundIsLitWild(t, a, rest, rb);
      } else {
        r := FoundIsLitEdges(t, a, rest, if t.path == "" then rb else NO_RUNE);
      }
    }
  }

  lemma {:induction false} FoundIsLitEdges(t: Trie, a: string, rest: string, rb: char) returns (r: Route)
    requires Ok(t) && t.nType in {Static, Root} && !t.wildChild && rest != ""
    requires EqualFold(t.path, a) && (t.path == "" ==> rest[0] == '/') && (rb != NO_RUNE ==> t.path == "")
    requires FoldEdges(t, rest, rb, false).Some?
    ensures r in Routes(t) && MatchFold(r.pattern, a + rest).Some?
    ensures Lit(t, r.pattern, rb)
    decreases t, 1
  {
    var rv := if t.path == "" then NO_RUNE else rest[0];
    var b := if rb != NO_RUNE then rb
             else if IndexOf(t.indices, Lower(rv)) < |t.indices|
                     && FoldEdge(t, IndexOf(t.indices, Lower(rv)), rest, Lower(rv), false).Some? then Lower(rv)
             else Upper(rv);
    var k := IndexOf(t.indices, b);
    assert k < |t.indices| && FoldEdge(t, k, rest, b, false).Some?;
    LowerCases(rest[0], b);
    var c := t.children[k];
    assert Ok(c) && IsEdge(c, b) && HeadFolds(c, rest);
    var q := FoundIsLit(c, rest, b);
    EdgeRoute(c, b, q);
    r := FoldLiftRoute(t, k, a, q, rest, rest);
  }

  lemma {:induction false} FoundIsLitWild(t: Trie, a: string, rest: string, rb: char) returns (r: Route)
    requires Ok(t) && t.nType in {Static, Root} && t.wildChild && rest != ""
    requires EqualFold(t.path, a) && FoldWild(t, rest, rb, false).Some?
    ensures r in Routes(t) && MatchFold(r.pattern, a + rest).Some?
    ensures Lit(t, r.pattern, rb)
    decreases t, 0
  {
    var c, e := t.children[0], SegEnd(rest);
    assert Ok(c) && c.nType == Param;
    var v, s := rest[..e], rest[e..];
    assert rest == v + s;
    var q: Route;
    if s == "" {
      FoldSoundParamHandle(c, v);
      q := Route(c.path, c.handle.value);
      assert q in OwnRoute(c) && c.path == ":" + c.path[1..] && c.path + "" == c.path && v + "" == v;
      ParamToken(c.path[1..], "");
      ValueEnd(v, "");
    } else {
      var d := c.children[0];
      assert IsEdge(d, '/') && Ok(d);
      var below := FoundIsLit(d, s, rb);
      EdgeRoute(d, '/', below);
      q := FoldLiftParam(c, below, v, s, s);
    }
    r := FoldLiftRoute(t, 0, a, q, rest, rest);
  }

  /** Without trailing-slash fixes, a rooted path is found if and only if it matches, up to case, a registered
      pattern that is lit. */
  lemma FoundExactly(t: Trie, s: string)
    requires RootOk(t) && StartsWith(s, '/')
    ensures FindFold(t, s, NO_RUNE, false).Some? <==>
              exists r :: r in Routes(t) && MatchFold(r.pattern, s).Some? && Lit(t, r.pattern, NO_RUNE)
  {
    if FindFold(t, s, NO_RUNE, false).Some? {
      var r := FoundIsLit(t, s, NO_RUNE);
    }
    if r :| r in Routes(t) && MatchFold(r.pattern, s).Some? && Lit(t, r.pattern, NO_RUNE) {
      FoldComplete(t, r, s, NO_RUNE, false);
    }
  }

  // ----- which patterns are lit

  /** A catch-all straight after a parameter. */
  predicate BareCatchAll(p: string)
    decreases |p|
  {
    if p == "" then false
    else if p[0] == ':' then
      var tail := p[SegEnd(p)..];
      IsCatchAll(tail) || BareCatchAll(tail)
    else if IsCatchAll(p) then false
    else BareCatchAll(p[1..])
  }

  lemma {:induction false} BarePlain(a: string, q: string)
    requires Plain(a) && !StartsWith(q, '*')
    ensures BareCatchAll(a + q) == BareCatchAll(q)
    decreases |a|
  {
    if a == "" {
      assert a + q == q;
    } else {
      assert (a + q)[1..] == a[1..] + q;
      assert !IsCatchAll(a + q);
      BarePlain(a[1..], q);
    }
  }

  /** Every pattern is lit unless it puts its catch-all at the root or straight after a parameter. */
  lemma {:induction false} LitUnlessBare(t: Trie, r: Route, rb: char)
    requires Ok(t) && t.nType != Param && r in Routes(t) && !BareCatchAll(r.pattern)
    requires t.path == "" && t.nType == Static ==> rb == '/'
    requires t.nType == Root ==> !IsCatchAll(r.pattern)
    requires t.nType == CatchAll ==> t.path == ""
    ensures Lit(t, r.pattern, rb)
    decreases t
  {
    if t.nType != CatchAll {
      var k, tail := StaticRoute(t, r);
      BarePlain(t.path, tail);
      if k < |t.children| {
        if t.wildChild {
          LitUnlessBareWild(t, Route(tail, r.handle), rb);
        } else if t.path != "" {
          LitUnlessBareEdge(t, k, Route(tail, r.handle));
        } else {
          assert "" + tail == tail && IsEdge(t.children[k], '/');
          CatchAllRoutes(t.children[k]);
        }
      }
    }
  }

  lemma {:induction false} LitUnlessBareEdge(t: Trie, k: nat, q: Route)
    requires Ok(t) && t.nType in {Static, Root} && !t.wildChild && k < |t.children|
    requires q in Routes(t.children[k]) && StartsWith(q.pattern, t.indices[k]) && !BareCatchAll(q.pattern)
    ensures IndexOf(t.indices, q.pattern[0]) == k && Lit(t.children[k], q.pattern, q.pattern[0])
    decreases t, 0
  {
    var c := t.children[k];
    assert Ok(c) && IsEdge(c, t.indices[k]);
    LitUnlessBare(c, q, t.indices[k]);
  }

  lemma {:induction false} LitUnlessBareWild(t: Trie, q: Route, rb: char)
    requires Ok(t) && t.nType in {Static, Root} && t.wildChild
    requires q in Routes(t.children[0]) && !BareCatchAll(q.pattern)
    ensures var after := q.pattern[SegEnd(q.pattern)..];
            after == "" || t.children[0].children == [] || Lit(t.children[0].children[0], after, rb)
    decreases t, 0
  {
    var c := t.children[0];
    assert Ok(c);
    var after := ParamRoute(c, q);
    if after != "" {
      var d := c.children[0];
      assert Ok(d) && IsEdge(d, '/');
      EdgeRoute(d, '/', Route(after, q.handle));
      LitUnlessBare(d, Route(after, q.handle), rb);
    }
  }

  /** A catch-all at the root is never lit: it dispatches every rooted path, yet the search never finds one. */
  lemma RootCatchAllUnfound(t: Trie, s: string, fix: bool)
    requires RootOk(t) && t.path == "" && StartsWith(s, '/')
    ensures Hits(t, s) && FindFold(t, s, NO_RUNE, fix).None?
  {
    var c := t.children[0];
    assert Ok(c) && Ok(c.children[0]) && s[0..] == s;
    assert IndexOf(t.indices, '/') == 0 && IndexOf(t.indices, NO_RUNE) == 1;
    assert Get(t, s) == Get(c, s) && Get(c, s) == GetWild(c, s);
    assert FoldEdges(t, s, NO_RUNE, fix) == FoldStop(t, s, fix);
  }
}
