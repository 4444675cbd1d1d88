/** Which of several corrections the case-insensitive lookup returns: at every branch the lower-case one. */
module CaseOrder {
  import opened Bytes
  import opened Pattern
  import opened AsciiCase
  import opened RadixTree
  import opened Denotation
  import opened CaseLookup

  /** `o` is `p`, or has the lower-case byte of `s` where they first differ. */
  predicate Prefers(s: string, o: string, p: string) {
    |o| == |p| == |s| && var i := CommonPrefix(o, p); i == |s| || o[i] == Lower(s[i])
  }

  lemma PrefersSame(s: string, o: string)
    requires |o| == |s|
    ensures Prefers(s, o, o)
  {
  }

  lemma {:induction false} PrefersAfter(a: string, b: string, s: string, o: string, p: string)
    requires |a| == |b| && Prefers(s, o, p)
    ensures Prefers(a + s, b + o, b + p)
    decreases |a|
  {
    CommonAfter(b, o, p);
    var i := CommonPrefix(o, p);
    if i < |s| {
      assert (b + o)[|b| + i] == o[i] && (a + s)[|b| + i] == s[i];
    }
  }

  lemma {:induction false} CommonAfter(b: string, o: string, p: string)
    ensures CommonPrefix(b + o, b + p) == |b| + CommonPrefix(o, p)
    decreases |b|
  {
    if b == "" {
      assert b + o == o && b + p == p;
    } else {
      assert (b + o)[1..] == b[1..] + o && (b + p)[1..] == b[1..] + p;
      CommonAfter(b[1..], o, p);
    }
  }

  /** Among all corrections by lit patterns the result is the one that is lower-case where they part. */
  lemma {:induction false} LowerFirst(t: Trie, s: string, rb: char, r: Route, p: string)
    requires Ok(t) && HeadFolds(t, s) && r in Routes(t) && Lit(t, r.pattern, rb)
    requires Agree(r.pattern, s, p) && EqualFold(p, s)
    ensures FindFold(t, s, rb, false).Some? && Prefers(s, FindFold(t, s, rb, false).value, p)
    decreases t, 2
  {
    FoldComplete(t, r, s, rb, false);
    if t.nType == CatchAll {
      CatchAllRoutes(t);
      assert Ok(t.children[0]) && s[0..] == s;
      PrefersSame(s, s);
    } else {
      var k, tail := StaticRoute(t, r);
      MatchPlain(t.path, tail, p);
      MatchFoldPlainInv(t.path, tail, s);
      FoldStart(t, s);
      if k == |t.children| {
        assert s[|t.path|..] == "" && p == t.path && t.path + "" == t.path;
        PrefersSame(s, p);
      } else {
        LitBelow(t, k, r.pattern, tail, rb);
        LowerFirstBelow(t, k, s, rb, Route(tail, r.handle), p);
      }
    }
  }

  lemma {:induction false} LowerFirstBelow(t: Trie, k: nat, s: string, rb: char, r: Route, p: string)
    requires Ok(t) && t.nType in {Static, Root} && k < |t.children| && PathFolds(t, s) && EqualFold(p, s) && t.path <= p
    requires r in Routes(t.children[k]) && Agree(r.pattern, s[|t.path|..], p[|t.path|..]) && |s| > |t.path|
    requires if t.wildChild then
               var after := r.pattern[SegEnd(r.pattern)..];
               after == "" || t.children[0].children == [] || Lit(t.children[0].children[0], after, rb)
             else if t.path == "" then rb == '/' else Lit(t.children[k], r.pattern, t.indices[k])
    ensures FindFold(t, s, rb, false).Some? && Prefers(s, FindFold(t, s, rb, false).value, p)
    decreases t, 1
  {
    var a, rest, q := s[..|t.path|], s[|t.path|..], p[|t.path|..];
    var o := "";
    if t.wildChild {
      o := LowerFirstWild(t, rest, rb, r, q);
    } else {
      o := LowerFirstEdges(t, k, rest, rb, r, q);
    }
    assert s == a + rest && p == t.path + q && FindFold(t, s, rb, false) == Some(t.path + o);
    PrefersAfter(a, t.path, rest, o, q);
  }

  /** A pattern that starts with the ordinary byte `b` only matches what starts with it. */
  lemma MatchHead(r: Route, b: char, q: string)
    requires StartsWith(r.pattern, b) && b != ':' && Match(r.pattern, q).Some?
    ensures StartsWith(q, b)
  {
  }

  /** What is found behind the edge for `b` starts with `b`. */
  lemma FoundHead(t: Trie, k: nat, rest: string) returns (o: string)
    requires Ok(t) && t.nType in {Static, Root} && !t.wildChild && k < |t.indices| && rest != ""
    requires Lower(t.indices[k]) == Lower(rest[0]) && FoldEdge(t, k, rest, t.indices[k], false).Some?
    ensures FoldEdge(t, k, rest, t.indices[k], false) == Some(o) && |o| == |rest| && StartsWith(o, t.indices[k])
  {
    var c, b := t.children[k], t.indices[k];
    assert Ok(c) && IsEdge(c, b);
    LowerCases(rest[0], '/');
    LowerCases(b, '/');
    o := FindFold(c, rest, b, false).value;
    FoldSound(c, rest, b, false);
    var r :| r in Routes(c) && Agree(r.pattern, rest, o) && EqualFold(o, rest);
    EdgeRoute(c, b, r);
    MatchHead(r, b, o);
  }

  lemma {:induction false} LowerFirstEdges(t: Trie, k: nat, rest: string, rb: char, r: Route, q: string)
    returns (o: string)
    requires Ok(t) && t.nType in {Static, Root} && !t.wildChild && k < |t.children| && rest != ""
    requires r in Routes(t.children[k]) && Agree(r.pattern, rest, q) && EqualFold(q, rest)
    requires if t.path == "" then rb == '/' else Lit(t.children[k], r.pattern, t.indices[k])
    ensures FoldEdges(t, rest, if t.path == "" then rb else NO_RUNE, false) == Some(o) && Prefers(rest, o, q)
    decreases t, 0
  {
    var c, b := t.children[k], t.indices[k];
    assert Ok(c) && IsEdge(c, b);
    EdgeRoute(c, b, r);
    MatchHead(r, b, q);
    LowerCases(rest[0], b);
    assert IndexOf(t.indices, b) == k && HeadFolds(c, rest);
    LowerFirst(c, rest, b, r, q);
    var lo := Lower(rest[0]);
    var i := IndexOf(t.indices, lo);
    if t.path == "" || b == lo || i == |t.indices| || FoldEdge(t, i, rest, lo, false).None? {
      o := FindFold(c, rest, b, false).value;
    } else {
      LowerCases(rest[0], lo);
      o := FoundHead(t, i, rest);
      assert CommonPrefix(o, q) == 0;
    }
  }

  lemma {:induction false} LowerFirstWild(t: Trie, rest: string, rb: char, r: Route, q: string) returns (o: string)
    requires Ok(t) && t.nType in {Static, Root} && t.wildChild && rest != ""
    requires r in Routes(t.children[0]) && Agree(r.pattern, rest, q) && EqualFold(q, rest)
    requires var after := r.pattern[SegEnd(r.pattern)..];
             after == "" || t.children[0].children == [] || Lit(t.children[0].children[0], after, rb)
    ensures FoldWild(t, rest, rb, false) == Some(o) && Prefers(rest, o, q)
    decreases t, 0
  {
    var c, e := t.children[0], SegEnd(rest);
    assert Ok(c);
    var tail := ParamRoute(c, r);
    SameValue(r.pattern, rest, q);
    var v, left, q' := rest[..e], rest[e..], q[e..];
    assert rest == v + left && q == v + q';
    ParamFolds(t, rest, rb);
    if tail == "" {
      assert left == "" && q' == "" && v + "" == v;
      o := v;
      PrefersSame(rest, v);
    } else {
      var below := LowerFirstParam(c, v, left, rb, Route(tail, r.handle), q');
      o := v + below;
    }
  }

  /** What the search makes of a parameter. */
  lemma ParamFolds(t: Trie, rest: string, rb: char)
    requires t.wildChild && t.children != [] && t.children[0].nType == Param && rest != ""
    ensures var c, e := t.children[0], SegEnd(rest);
            && (e == |rest| && c.handle.Some? ==> FoldWild(t, rest, rb, false) == Some(rest))
            && (e < |rest| && c.children != [] ==>
                  FoldWild(t, rest, rb, false) == Prepend(rest[..e], FindFold(c.children[0], rest[e..], rb, false)))
  {
    assert rest[..|rest|] + "" == rest;
  }

  lemma {:induction false} LowerFirstParam(c: Trie, v: string, left: string, rb: char, r: Route, q: string)
    returns (o: string)
    requires Ok(c) && c.nType == Param && c.children != [] && r in Routes(c.children[0]) && StartsWith(r.pattern, '/')
    requires Agree(r.pattern, left, q) && EqualFold(q, left) && Lit(c.children[0], r.pattern, rb)
    ensures StartsWith(left, '/') && FindFold(c.children[0], left, rb, false) == Some(o)
    ensures Prefers(v + left, v + o, v + q)
    decreases c
  {
    var d := c.children[0];
    assert Ok(d) && IsEdge(d, '/');
    MatchFoldHead(r.pattern, left);
    LowerFirst(d, left, rb, r, q);
    o := FindFold(d, left, rb, false).value;
    PrefersAfter(v, v, left, o, q);
  }

  lemma MatchFoldHead(p: string, s: string)
    requires StartsWith(p, '/') && MatchFold(p, s).Some?
    ensures StartsWith(s, '/')
  {
    if s != "" {
      LowerCases(s[0], '/');
    }
  }

  /** The same value of the first parameter, and what is left agrees. */
  lemma SameValue(p: string, rest: string, q: string)
    requires p != "" && p[0] == ':' && Agree(p, rest, q) && EqualFold(q, rest)
    ensures var e := SegEnd(rest);
            && SegEnd(q) == e && q[..e] == rest[..e] && Agree(p[SegEnd(p)..], rest[e..], q[e..])
            && EqualFold(q[e..], rest[e..])
  {
    var bs, cs := MatchFold(p, rest).value, Match(p, q).value;
    assert bs[0].value == rest[..SegEnd(rest)] && cs[0].value == q[..SegEnd(q)];
    assert |rest[..SegEnd(rest)]| == |q[..SegEnd(q)]|;
    assert bs[1..] == cs[1..];
    assert bs[1..] == MatchFold(p[SegEnd(p)..], rest[SegEnd(rest)..]).value;
    assert cs[1..] == Match(p[SegEnd(p)..], q[SegEnd(q)..]).value;
  }
}
