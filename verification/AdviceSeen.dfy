/** Which registered patterns are sure to be recommended when only their final slash is missing. */
module AdviceSeen {
  import opened Bytes
  import opened Pattern
  import opened RadixTree
  import opened Denotation
  import opened Lookup
  import opened Advice

  predicate NoEmptyValue(bs: seq<Binding>) {
    forall i :: 0 <= i < |bs| ==> bs[i].value != ""
  }

  /** `p` ends in '/' and matches `s` with a '/' more, and no parameter is empty. */
  predicate LacksSlash(p: string, s: string) {
    EndsInSlash(p) && Match(p, s + "/").Some? && NoEmptyValue(Match(p, s + "/").value)
  }

  lemma CatchAllEnd(p: string)
    requires IsCatchAll(p) && IsName(p[2..])
    ensures !EndsInSlash(p)
  {
    assert p[|p| - 1] == p[2..][|p| - 3];
  }

  /** The walk for such a path does not stop at a blind node. */
  lemma {:induction false} SeesSlash(t: Trie, s: string, r: Route)
    requires Ok(t) && t.nType in {Static, Root} && r in Routes(t) && LacksSlash(r.pattern, s) && !EndsInSlash(s)
    ensures !BlindAt(t, s)
    decreases t, 2
  {
    if EndsAt(t, s).Some? {
      var k, tail := StaticRoute(t, r);
      MatchPlain(t.path, tail, s + "/");
      var left := (s + "/")[|t.path|..];
      assert t.path <= s + "/" && Match(r.pattern, s + "/") == Match(tail, left);
      if s == t.path {
        assert left == "/";
        SeesHere(t, k, Route(tail, r.handle));
      } else {
        var rest := s[|t.path|..];
        SlashAfter(s, |t.path|, rest);
        TailEnd(t.path, tail, r.pattern);
        SeesBelow(t, s, rest, k, Route(tail, r.handle));
      }
    }
  }

  lemma TailEnd(a: string, tail: string, p: string)
    requires p == a + tail && EndsInSlash(p) && tail != ""
    ensures EndsInSlash(tail)
  {
  }

  /** A parameter that meets a '/' is empty. */
  lemma EmptyOnSlash(p: string)
    requires StartsWith(p, ':') && Match(p, "/").Some?
    ensures !NoEmptyValue(Match(p, "/").value)
  {
    assert SegEnd("/") == 0 && "/"[..0] == "";
    assert Match(p, "/").value[0].value == "";
  }

  /** The path is used up at this node, and the pattern goes on with its final slash. */
  lemma SeesHere(t: Trie, k: nat, r: Route)
    requires Ok(t) && t.nType in {Static, Root} && k <= |t.children| && Match(r.pattern, "/").Some?
    requires NoEmptyValue(Match(r.pattern, "/").value) && EndsInSlash(r.pattern)
    requires k < |t.children| ==>
               r in Routes(t.children[k]) && StartsWith(r.pattern, if t.wildChild then ':' else t.indices[k])
    requires k == |t.children| ==> r.pattern == ""
    ensures !Blind(t)
  {
    if t.wildChild {
      EmptyOnSlash(r.pattern);
    } else {
      var c := t.children[k];
      assert Ok(c) && IsEdge(c, t.indices[k]);
      BlindEdge(t);
      assert IndexOf(t.indices, t.indices[k]) == k;
      EdgeRoute(c, t.indices[k], r);
      if c.path == "" {
        OnlyCatchAll(c, r);
      }
    }
  }

  /** Below a node with an empty path every pattern is one catch-all. */
  lemma OnlyCatchAll(c: Trie, r: Route)
    requires Ok(c) && c.nType in {Static, CatchAll} && c.path == "" && r in Routes(c)
    ensures !EndsInSlash(r.pattern)
  {
    if c.nType == CatchAll {
      CatchAllRoutes(c);
      assert Ok(c.children[0]);
      CatchAllEnd(r.pattern);
    } else {
      var k, tail := StaticRoute(c, r);
      assert Ok(c.children[0]) && "" + tail == tail;
      CatchAllRoutes(c.children[0]);
      assert Ok(c.children[0].children[0]);
      CatchAllEnd(r.pattern);
    }
  }

  lemma {:induction false} SeesBelow(t: Trie, s: string, rest: string, k: nat, r: Route)
    requires Ok(t) && t.nType in {Static, Root} && k <= |t.children| && |s| > |t.path| && t.path <= s
    requires rest == s[|t.path|..] && LacksSlash(r.pattern, rest) && !EndsInSlash(rest)
    requires k < |t.children| ==>
               r in Routes(t.children[k]) && StartsWith(r.pattern, if t.wildChild then ':' else t.indices[k])
    requires k == |t.children| ==> r.pattern == ""
    ensures !BlindAt(t, s)
    decreases t, 1
  {
    if t.wildChild {
      SeesWild(t, s, rest, r);
    } else {
      var c := t.children[k];
      assert Ok(c) && IsEdge(c, t.indices[k]) && (rest + "/")[0] == rest[0];
      MatchesFirst(r.pattern, t.indices[k], rest + "/");
      assert IndexOf(t.indices, rest[0]) == k && EndsAt(t, s) == EndsAt(c, rest);
      if c.nType == CatchAll {
        OnlyCatchAll(c, r);
      } else {
        SeesSlash(c, rest, r);
      }
    }
  }

  lemma MatchesFirst(p: string, b: char, s: string)
    requires StartsWith(p, b) && b != ':' && Match(p, s).Some?
    ensures StartsWith(s, b)
  {
  }

  lemma {:induction false} SeesWild(t: Trie, s: string, rest: string, r: Route)
    requires Ok(t) && t.nType in {Static, Root} && t.wildChild && |s| > |t.path| && t.path <= s
    requires rest == s[|t.path|..] && LacksSlash(r.pattern, rest) && !EndsInSlash(rest) && r in Routes(t.children[0])
    ensures !BlindAt(t, s)
    decreases t, 0
  {
    var c, e := t.children[0], SegEnd(rest);
    assert Ok(c) && c.nType == Param;
    SegEndSlash(rest);
    if c.children != [] && e < |rest| {
      var tail := ParamRoute(c, r);
      var left := rest[e..];
      SlashAfter(rest, e, left);
      LeftLacksSlash(r.pattern, rest, tail, left);
      assert Ok(c.children[0]);
      SeesSlash(c.children[0], left, Route(tail, r.handle));
      assert EndsAt(t, s) == EndsAt(c.children[0], left);
    }
  }

  lemma LeftLacksSlash(p: string, rest: string, tail: string, left: string)
    requires StartsWith(p, ':') && LacksSlash(p, rest) && tail == p[SegEnd(p)..]
    requires SegEnd(rest + "/") == SegEnd(rest) < |rest| && (rest + "/")[SegEnd(rest)..] == left + "/"
    ensures LacksSlash(tail, left)
  {
    var bs, cs := Match(p, rest + "/").value, Match(tail, left + "/").value;
    assert bs[1..] == cs;
    assert forall i :: 0 <= i < |cs| ==> cs[i] == bs[i + 1];
    assert p == p[..SegEnd(p)] + tail;
  }

  /** If such a pattern is registered and nothing matches the path itself, the extra slash is recommended. */
  lemma Recommended(t: Trie, s: string, r: Route)
    requires RootOk(t) && r in Routes(t) && LacksSlash(r.pattern, s) && !EndsInSlash(s) && !Hits(t, s)
    ensures Get(t, s).Found? && Get(t, s).tsr
  {
    SeesSlash(t, s, r);
    GetFinds(t, r, s + "/");
    AdviceExact(t, s);
  }
}
