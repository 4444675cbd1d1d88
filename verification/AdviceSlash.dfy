/** The recommendation for a path that ends in '/': exactly when it is made, and when it is what its
    documentation says. */
module AdviceSlash {
  import opened Bytes
  import opened RadixTree
  import opened Lookup
  import opened Advice

  /** The path is used up at a node or a parameter that has no handle, but something goes on below it that
      a '/' could lead to. */
  predicate Hollow(t: Trie, p: string)
    decreases t
  {
    if p == t.path then t.handle.None? && (t.wildChild || '/' in t.indices)
    else if |p| > |t.path| && t.path <= p then
      var rest := p[|t.path|..];
      if t.wildChild then
        && t.children != [] && t.children[0].nType == Param && t.children[0].children != []
        && if SegEnd(rest) == |rest| then t.children[0].handle.None?
           else Hollow(t.children[0].children[0], rest[SegEnd(rest)..])
      else
        var k := IndexOf(t.indices, rest[0]);
        k < |t.children| && Hollow(t.children[k], rest)
    else false
  }

  /** One '/' less. */
  function Short(s: string): string
    requires s != ""
  {
    s[..|s| - 1]
  }

  /** What is left of the path where the walk ends is a lone '/'. For the path "/" that is so everywhere but
      at a root that is just "/". */
  predicate Adrift(t: Trie, s: string)
    requires s != ""
  {
    if s == "/" then t.path != "/" || t.nType != Root else Hollow(t, Short(s))
  }

  predicate Expected(t: Trie, s: string)
    requires s != ""
  {
    Hits(t, Short(s)) || (Hits(t, s + "/") && !BlindAt(t, s)) || Adrift(t, s)
  }

  /** The recommendation for a path with a trailing slash that is not dispatched. */
  lemma AdviceExactSlash(t: Trie, s: string)
    requires Ok(t) && Reaches(t, s) && EndsInSlash(s) && !Hits(t, s)
    ensures Get(t, s).Found? && (Get(t, s).tsr <==> Expected(t, s))
  {
    if |s| == 1 {
      assert s == "/";
      AdviceExactLone(t);
    } else {
      AdviceExactLonger(t, s);
    }
  }

  lemma NothingEmpty(t: Trie)
    requires Ok(t) && t.nType != Param
    ensures !Hits(t, "")
  {
  }

  /** The path "/" itself. */
  lemma AdviceExactLone(t: Trie)
    requires Ok(t) && Reaches(t, "/") && !Hits(t, "/")
    ensures Get(t, "/").Found? && (Get(t, "/").tsr <==> Expected(t, "/"))
  {
    GetSafe(t, "/");
    NothingEmpty(t);
    if t.path == "" {
      LoneBelowEmpty(t);
    } else if t.path == "/" {
      LoneHere(t);
    } else {
      assert "/"[..1] == "/";
      assert t.path <= "/" ==> t.path == "/";
    }
  }

  /** A node with an empty path only leads to a catch-all, which takes every rooted path. */
  lemma LoneBelowEmpty(t: Trie)
    requires Ok(t) && Reaches(t, "/") && t.path == ""
    ensures Hits(t, "/")
  {
    assert "/"[0..] == "/";
    var c := t.children[0];
    assert Ok(c);
    if t.nType != CatchAll {
      assert IndexOf(t.indices, '/') == 0;
      assert Get(t, "/") == Get(c, "/");
      LoneBelowEmpty(c);
    }
  }

  lemma LoneHere(t: Trie)
    requires Ok(t) && t.nType != Param && t.path == "/" && t.handle.None? && Get(t, "/").Found?
    ensures Get(t, "/").tsr <==> Expected(t, "/")
  {
    NothingEmpty(t);
    if t.nType == Root {
      assert Short("/") == "";
      SlashHere(t, "/");
    }
  }

  lemma {:induction false} AdviceExactLonger(t: Trie, s: string)
    requires Ok(t) && Reaches(t, s) && EndsInSlash(s) && |s| > 1 && !Hits(t, s)
    ensures Get(t, s).Found? && (Get(t, s).tsr <==> Expected(t, s))
    decreases t, 1
  {
    GetSafe(t, s);
    var p := Short(s);
    assert s == p + "/";
    if |s| > |t.path| && t.path <= s {
      var rest := s[|t.path|..];
      assert (s + "/")[|t.path|..] == rest + "/";
      if rest == "/" {
        assert p == t.path;
        SlashLeft(t, s);
      } else {
        assert t.path <= p && p[|t.path|..] == Short(rest);
        if t.wildChild {
          ExactSlashWild(t, s, rest);
        } else {
          var k := IndexOf(t.indices, rest[0]);
          if k < |t.indices| {
            assert IsEdge(t.children[k], rest[0]);
            DownEdge(t, s, rest, k);
            DownEdge(t, p, Short(rest), k);
            DownEdge(t, s + "/", rest + "/", k);
            ExpectedBelow(t, s, t.children[k], rest);
            AdviceExactLonger(t.children[k], rest);
          }
        }
      }
    } else if s == t.path {
      assert (s + "/")[|t.path|..] == "/";
      SlashHere(t, s);
    } else {
      SlashMiss(t, s);
    }
  }

  lemma SlashMiss(t: Trie, s: string)
    requires EndsInSlash(s) && |s| > 1 && s != t.path && !(|s| > |t.path| && t.path <= s)
    ensures Get(t, s).tsr <==> Expected(t, s)
  {
    assert t.path <= s + "/" ==> t.path == s + "/";
    assert t.path == s + "/" ==> t.path[..|s|] == s;
    assert t.path <= Short(s) ==> t.path <= s;
  }

  lemma SlashHere(t: Trie, s: string)
    requires Ok(t) && t.nType != Param && s == t.path && EndsInSlash(s) && !Hits(t, s)
    requires Get(t, s).Found? && (s == "/" ==> t.nType == Root)
    ensures Get(t, s).tsr <==> Expected(t, s)
  {
    assert (s + "/")[|t.path|..] == "/";
    assert |Short(s)| < |t.path|;
    var k := IndexOf(t.indices, '/');
    if !t.wildChild && k < |t.indices| {
      var c := t.children[k];
      assert IsEdge(c, '/') && Ok(c);
      SlashChild(c);
      assert |c.path| == 1 <==> c.path == "/";
      assert forall j :: 0 <= j < |t.children| ==> IsEdge(t.children[j], t.indices[j]);
    }
  }

  lemma SlashLeft(t: Trie, s: string)
    requires Ok(t) && Reaches(t, s) && s == t.path + "/" && t.path != "" && !Hits(t, s)
    requires Get(t, s).Found?
    ensures Get(t, s).tsr <==> Expected(t, s)
  {
    assert s[|t.path|..] == "/" && Short(s) == t.path;
    assert (s + "/")[|t.path|..] == "//";
    if t.wildChild {
      AdviceStripsEmpty(t);
    } else {
      var k := IndexOf(t.indices, '/');
      if k < |t.indices| {
        assert IsEdge(t.children[k], '/') && t.indices[k] == '/';
        SlashChild(t.children[k]);
      }
    }
  }

  // ----- one step down

  predicate SameBelow(t: Trie, q: string, c: Trie, r: string) {
    SameAnswer(t, q, c, r) && Hollow(t, q) == Hollow(c, r)
  }

  lemma DownEdge(t: Trie, q: string, r: string, k: nat)
    requires t.path <= q && r == q[|t.path|..] && r != "" && !t.wildChild
    requires k == IndexOf(t.indices, r[0]) && k < |t.indices| && k < |t.children|
    ensures SameBelow(t, q, t.children[k], r)
  {
  }

  lemma DownParam(t: Trie, q: string, r: string, rest: string)
    requires t.path <= q && r == q[|t.path|..] && r != "" && t.wildChild
    requires t.children != [] && t.children[0].nType == Param && |t.children[0].path| >= 2
    requires t.children[0].children != [] && SegEnd(r) < |r| && rest == r[SegEnd(r)..]
    ensures SameBelow(t, q, t.children[0].children[0], rest)
  {
    AnswerParam(t, q, r, rest);
  }

  lemma ExpectedBelow(t: Trie, s: string, c: Trie, r: string)
    requires |s| > 1 && |r| > 1
    requires SameBelow(t, s, c, r) && SameBelow(t, Short(s), c, Short(r)) && SameBelow(t, s + "/", c, r + "/")
    ensures Expected(t, s) == Expected(c, r)
  {
  }

  lemma {:induction false} ExactSlashWild(t: Trie, s: string, rest: string)
    requires Ok(t) && Reaches(t, s) && t.wildChild && t.path <= s && rest == s[|t.path|..]
    requires EndsInSlash(rest) && |rest| > 1 && !Hits(t, s)
    ensures Get(t, s).Found? && (Get(t, s).tsr <==> Expected(t, s))
    decreases t, 0
  {
    GetSafe(t, s);
    var c, e := t.children[0], SegEnd(rest);
    assert Ok(c);
    SegEndShort(rest);
    Cuts(t.path, s, rest);
    if c.nType == Param {
      if e == |rest| - 1 {
        ParamEnds(t, s, rest);
      } else if c.children == [] {
        SegEndSlash(rest);
        ParamLeaf(t, s, rest);
      } else {
        var left := rest[e..];
        assert Ok(c.children[0]) && EndsInSlash(left) && |left| > 1;
        ParamGoesOn(t, s, rest, left);
        AdviceExactLonger(c.children[0], left);
      }
    } else {
      CatchAllHits(t, s, rest);
    }
  }

  lemma CatchAllHits(t: Trie, s: string, rest: string)
    requires Ok(t) && t.wildChild && t.path <= s && rest == s[|t.path|..] && rest != "" && t.children[0].nType != Param
    ensures Hits(t, s)
  {
    assert Ok(t.children[0]) && Get(t, s) == GetWild(t, rest);
  }

  lemma Cuts(a: string, s: string, rest: string)
    requires a <= s && rest == s[|a|..] && rest != ""
    ensures (s + "/")[|a|..] == rest + "/" && a <= Short(s) && Short(s)[|a|..] == Short(rest)
  {
  }

  /** A parameter takes a segment, and the walk goes on with what is left. */
  lemma ParamGoesOn(t: Trie, s: string, rest: string, left: string)
    requires Ok(t) && t.wildChild && t.children[0].nType == Param && t.children[0].children != []
    requires t.path <= s && rest == s[|t.path|..] && EndsInSlash(rest) && SegEnd(rest) < |rest| - 1
    requires left == rest[SegEnd(rest)..]
    ensures SameBelow(t, s, t.children[0].children[0], left) && Expected(t, s)
        == Expected(t.children[0].children[0], left)
  {
    var c, e := t.children[0], SegEnd(rest);
    assert Ok(c);
    SegEndShort(rest);
    SegEndSlash(rest);
    Cuts(t.path, s, rest);
    assert (rest + "/")[e..] == left + "/" && Short(rest)[e..] == Short(left);
    DownParam(t, s, rest, left);
    DownParam(t, Short(s), Short(rest), Short(left));
    DownParam(t, s + "/", rest + "/", left + "/");
    ExpectedBelow(t, s, c.children[0], left);
  }

  /** A parameter takes everything but the trailing slash. */
  lemma ParamEnds(t: Trie, s: string, rest: string)
    requires Ok(t) && t.wildChild && t.children[0].nType == Param && t.path <= s && rest == s[|t.path|..]
    requires EndsInSlash(rest) && |rest| > 1 && SegEnd(rest) == |rest| - 1
    requires t.path <= Short(s) && Short(s)[|t.path|..] == Short(rest) && SegEnd(Short(rest)) == |Short(rest)|
    requires Get(t, s).Found? && !Hits(t, s)
    ensures Get(t, s).tsr && Expected(t, s)
  {
    var c := t.children[0];
    assert rest[|rest| - 1..] == "/";
    assert Ok(c) && Get(t, s) == GetWild(t, rest) && Get(t, Short(s)) == GetWild(t, Short(rest));
    if c.children != [] {
      SlashChild(c.children[0]);
    }
  }

  /** Below a parameter without children there is nothing. */
  lemma ParamLeaf(t: Trie, s: string, rest: string)
    requires Ok(t) && t.wildChild && t.children[0].nType == Param && t.children[0].children == []
    requires t.path <= s && rest == s[|t.path|..] && EndsInSlash(rest) && SegEnd(rest) < |rest| - 1
    requires (s + "/")[|t.path|..] == rest + "/" && SegEnd(rest + "/") == SegEnd(rest)
    requires t.path <= Short(s) && Short(s)[|t.path|..] == Short(rest) && SegEnd(Short(rest)) == SegEnd(rest)
    ensures Get(t, s).Found? && !Get(t, s).tsr && !Expected(t, s)
  {
    assert Ok(t.children[0]);
    LeafMisses(t, s, rest);
    LeafMisses(t, Short(s), Short(rest));
    LeafMisses(t, s + "/", rest + "/");
    assert |Short(s)| > |t.path|;
  }

  lemma LeafMisses(t: Trie, q: string, r: string)
    requires t.wildChild && t.children != [] && t.children[0].nType == Param && |t.children[0].path| >= 2
    requires t.children[0].children == [] && t.path <= q && r == q[|t.path|..] && SegEnd(r) < |r|
    ensures Get(t, q).Found? && Get(t, q).handle.None? && Get(t, q).tsr == (|r| == SegEnd(r) + 1)
  {
  }

  lemma SegEndShort(rest: string)
    requires EndsInSlash(rest)
    ensures SegEnd(rest) < |rest| && SegEnd(Short(rest)) == SegEnd(rest)
  {
    var e := SegEnd(rest);
    assert forall i :: 0 <= i < e ==> rest[i] in rest[..e];
    SegEndUnique(Short(rest), if e < |rest| then e else |rest| - 1);
  }

  // ----- against the documentation

  /** What the documentation promises: a recommendation if and only if there is no handle for the path but one
      with an extra, or without the, trailing slash. */
  predicate Documented(t: Trie, s: string) {
    !Hits(t, s) && (Hits(t, s + "/") || (EndsInSlash(s) && Hits(t, Short(s))))
  }

  /** The walk stops where it cannot see the extra slash. */
  predicate Missed(t: Trie, s: string) {
    && !Hits(t, s) && Hits(t, s + "/") && BlindAt(t, s)
    && !(EndsInSlash(s) && (Hits(t, Short(s)) || Adrift(t, s)))
  }

  /** The walk stops with a lone '/' left, and no handle anywhere near. */
  predicate Invented(t: Trie, s: string) {
    EndsInSlash(s) && Adrift(t, s) && !Hits(t, s) && !Hits(t, Short(s)) && !Hits(t, s + "/")
  }

  /** The documentation is right about a path exactly when the walk neither misses a slash nor invents one. */
  lemma DocumentedExactly(t: Trie, s: string)
    requires Ok(t) && Reaches(t, s)
    ensures Get(t, s).Found? && ((Get(t, s).tsr <==> Documented(t, s)) <==> !Missed(t, s) && !Invented(t, s))
  {
    GetSafe(t, s);
    if Hits(t, s) {
      HitNoAdvice(t, s);
    } else if EndsInSlash(s) {
      AdviceExactSlash(t, s);
    } else {
      AdviceExact(t, s);
    }
  }
}
