/** The trailing-slash recommendation (tsr) of a failed lookup: what it does promise. */
module Advice {
  import opened Bytes
  import opened Pattern
  import opened RadixTree
  import opened Lookup

  /** A handle never comes with a recommendation. */
  lemma {:induction false} HitNoAdvice(t: Trie, s: string)
    requires Hits(t, s)
    ensures !Get(t, s).tsr
    decreases t
  {
    if |s| > |t.path| && t.path <= s {
      var rest := s[|t.path|..];
      if t.wildChild {
        HitNoAdviceWild(t, rest);
      } else {
        var k := IndexOf(t.indices, rest[0]);
        assert k < |t.indices| && k < |t.children| && Get(t, s) == Get(t.children[k], rest);
        HitNoAdvice(t.children[k], rest);
      }
    }
  }

  lemma {:induction false} HitNoAdviceWild(t: Trie, rest: string)
    requires GetWild(t, rest).Found? && GetWild(t, rest).handle.Some?
    ensures !GetWild(t, rest).tsr
    decreases t, 0
  {
    var c, e := t.children[0], SegEnd(rest);
    if c.nType == Param && e < |rest| {
      assert c.children != [] && Hits(c.children[0], rest[e..]);
      HitNoAdvice(c.children[0], rest[e..]);
    }
  }

  /** The static node at which the path is used up, if the walk gets that far. */
  function EndsAt(t: Trie, s: string): Option<Trie>
    decreases t
  {
    if |s| > |t.path| && t.path <= s then
      var rest := s[|t.path|..];
      if t.wildChild then
        if t.children == [] || t.children[0].nType != Param || t.children[0].children == [] || SegEnd(rest) == |rest|
        then None
        else EndsAt(t.children[0].children[0], rest[SegEnd(rest)..])
      else
        var k := IndexOf(t.indices, rest[0]);
        if k < |t.children| then EndsAt(t.children[k], rest) else None
    else if s == t.path then Some(t)
    else None
  }

  /** Here the recommendation misses an extra slash: the next token is a parameter, which would be
      empty, or the '/' edge leads to the empty node above a catch-all. */
  predicate Blind(n: Trie) {
    n.wildChild || exists k :: 0 <= k < |n.children| && n.children[k].nType == Static && n.children[k].path == ""
  }

  predicate BlindAt(t: Trie, s: string) {
    EndsAt(t, s).Some? && Blind(EndsAt(t, s).value)
  }

  /** What "/" finds below a '/' edge. */
  lemma SlashChild(d: Trie)
    requires Ok(d) && IsEdge(d, '/')
    ensures d.nType == CatchAll ==> Hits(d, "/") && d.children[0].handle.Some?
    ensures d.nType == Static ==> (Hits(d, "/") <==> SlashBelow(d))
    ensures d.nType == Static && !Hits(d, "/") ==> Get(d, "/") == Found(None, [], true)
    ensures d.nType == Static && d.path == "" ==> SlashBelow(d)
  {
    if d.nType == CatchAll {
      assert Ok(d.children[0]);
    } else if d.path == "" {
      assert Ok(d.children[0]) && Ok(d.children[0].children[0]);
      assert "/"[0..] == "/";
      assert Get(d, "/") == Get(d.children[0], "/");
    } else {
      assert d.path == "/" <==> |d.path| == 1;
    }
  }

  lemma SegEndSlash(s: string)
    ensures SegEnd(s + "/") == SegEnd(s)
  {
    var e := SegEnd(s);
    assert forall i :: 0 <= i < e ==> s[i] in s[..e];
    SegEndUnique(s + "/", e);
  }

  lemma SlashAfter(s: string, n: nat, rest: string)
    requires n < |s| && rest == s[n..]
    ensures s[..n] <= s + "/" && (s + "/")[n..] == rest + "/" && EndsInSlash(rest) == EndsInSlash(s)
  {
  }

  /** For a path without a trailing slash the recommendation is right: it is made exactly when the
      path is not dispatched but the path with '/' is, unless the walk stops at a blind node. */
  lemma {:induction false} AdviceExact(t: Trie, s: string)
    requires Ok(t) && Reaches(t, s) && !EndsInSlash(s)
    ensures Get(t, s).Found? && (Get(t, s).tsr <==> !Hits(t, s) && Hits(t, s + "/") && !BlindAt(t, s))
    decreases t, 1
  {
    GetSafe(t, s);
    var s' := s + "/";
    if |s| > |t.path| && t.path <= s {
      var rest := s[|t.path|..];
      assert t.path <= s' && s'[|t.path|..] == rest + "/";
      if t.wildChild {
        AdviceExactWild(t, s);
      } else {
        var k := IndexOf(t.indices, rest[0]);
        if k < |t.indices| {
          assert IsEdge(t.children[k], rest[0]);
          AdviceExact(t.children[k], rest);
        }
      }
    } else if s == t.path {
      assert t.path <= s' && s'[|t.path|..] == "/";
      if !t.wildChild {
        AdviceExactHere(t, s);
      }
    } else {
      AdviceExactMiss(t, s);
    }
  }

  lemma AdviceExactMiss(t: Trie, s: string)
    requires !EndsInSlash(s) && s != t.path && !(|s| > |t.path| && t.path <= s)
    ensures Get(t, s).tsr <==> Hits(t, s + "/")
  {
    assert t.path <= s + "/" ==> t.path == s + "/";
    assert t.path == s + "/" ==> t.path[..|s|] == s;
  }

  /** Only the '/' edge can be blind. */
  lemma BlindEdge(t: Trie)
    requires Ok(t) && t.nType in {Static, Root} && !t.wildChild
    ensures var k := IndexOf(t.indices, '/');
            Blind(t) <==> k < |t.indices| && t.children[k].nType == Static && t.children[k].path == ""
  {
    if Blind(t) {
      var k :| 0 <= k < |t.children| && t.children[k].nType == Static && t.children[k].path == "";
      assert IsEdge(t.children[k], t.indices[k]);
      assert IndexOf(t.indices, '/') == k;
    }
  }

  lemma AdviceExactHere(t: Trie, s: string)
    requires Ok(t) && t.nType != Param && s == t.path && !t.wildChild && !EndsInSlash(s)
    requires Get(t, s).Found?
    ensures Get(t, s).tsr <==> !Hits(t, s) && Hits(t, s + "/") && !BlindAt(t, s)
  {
    assert (s + "/")[|t.path|..] == "/" && BlindAt(t, s) == Blind(t);
    if t.nType != CatchAll {
      BlindEdge(t);
      var k := IndexOf(t.indices, '/');
      if k < |t.indices| {
        AdviceExactEdge(t, s, t.children[k]);
      }
    }
  }

  /** There is a '/' edge. */
  lemma AdviceExactEdge(t: Trie, s: string, c: Trie)
    requires Ok(t) && t.nType in {Static, Root} && s == t.path && !t.wildChild && t.path != "/"
    requires var k := IndexOf(t.indices, '/'); k < |t.indices| && c == t.children[k]
    requires (s + "/")[|t.path|..] == "/"
    ensures Get(t, s).Found? && Get(t, s + "/") == Get(c, "/")
    ensures Get(t, s).tsr <==> !Hits(t, s) && Hits(c, "/") && !(c.nType == Static && c.path == "")
  {
    assert IsEdge(c, '/') && Ok(c);
    SlashChild(c);
    assert |c.path| == 1 <==> c.path == "/";
  }

  /** Nothing that is asked about a path changes when the walk goes down with the rest of it. */
  predicate SameAnswer(t: Trie, q: string, c: Trie, r: string) {
    && Get(t, q).Found? == Get(c, r).Found?
    && (Get(c, r).Found? ==> Get(t, q).tsr == Get(c, r).tsr && Get(t, q).handle == Get(c, r).handle)
    && BlindAt(t, q) == BlindAt(c, r)
  }

  /** A parameter takes the first segment of `r`, and the walk goes on with `rest`. */
  lemma AnswerParam(t: Trie, q: string, r: string, rest: string)
    requires t.path <= q && r == q[|t.path|..] && r != "" && t.wildChild
    requires t.children != [] && t.children[0].nType == Param && |t.children[0].path| >= 2
    requires t.children[0].children != [] && SegEnd(r) < |r| && rest == r[SegEnd(r)..]
    ensures SameAnswer(t, q, t.children[0].children[0], rest)
  {
    var d, v := t.children[0].children[0], [Binding(t.children[0].path[1..], r[..SegEnd(r)])];
    assert Get(t, q) == GetWild(t, r) == With(v, Get(d, rest)) && EndsAt(t, q) == EndsAt(d, rest);
  }

  lemma {:induction false} AdviceExactWild(t: Trie, s: string)
    requires Ok(t) && Reaches(t, s) && !EndsInSlash(s) && t.wildChild && |s| > |t.path| && t.path <= s
    requires Get(t, s).Found?
    ensures Get(t, s).tsr <==> !Hits(t, s) && Hits(t, s + "/") && !BlindAt(t, s)
    decreases t, 0
  {
    var rest, c := s[|t.path|..], t.children[0];
    assert Ok(c);
    SlashAfter(s, |t.path|, rest);
    if c.nType == Param {
      SegEndSlash(rest);
      var e := SegEnd(rest);
      if e == |rest| {
        AdviceExactParam(t, s, rest);
      } else if c.children == [] {
        AdviceExactLeaf(t, s, rest);
      } else {
        var left := rest[e..];
        SlashAfter(rest, e, left);
        AnswerParam(t, s, rest, left);
        AnswerParam(t, s + "/", rest + "/", left + "/");
        AdviceExact(c.children[0], left);
      }
    } else {
      assert Get(t, s) == GetWild(t, rest);
    }
  }

  /** Nothing goes on below the parameter. */
  lemma AdviceExactLeaf(t: Trie, s: string, rest: string)
    requires Ok(t) && t.wildChild && t.children[0].nType == Param && t.children[0].children == []
    requires t.path <= s && rest == s[|t.path|..] && SegEnd(rest) < |rest| && !EndsInSlash(rest)
    requires (s + "/")[|t.path|..] == rest + "/" && SegEnd(rest + "/") == SegEnd(rest)
    ensures Get(t, s).Found? && !Get(t, s).tsr && !Hits(t, s + "/")
  {
    assert Ok(t.children[0]);
    assert Get(t, s) == GetWild(t, rest) && Get(t, s + "/") == GetWild(t, rest + "/");
    assert rest[|rest| - 1] != '/' && rest[SegEnd(rest)] == '/';
  }

  /** The path ends with the value of a parameter. */
  lemma AdviceExactParam(t: Trie, s: string, rest: string)
    requires Ok(t) && t.wildChild && t.children[0].nType == Param && t.path <= s && rest == s[|t.path|..] && rest != ""
    requires SegEnd(rest) == |rest| && SegEnd(rest + "/") == |rest| && (s + "/")[|t.path|..] == rest + "/"
    ensures Get(t, s).Found? && (Get(t, s).tsr <==> !Hits(t, s) && Hits(t, s + "/") && !BlindAt(t, s))
  {
    var c := t.children[0];
    assert Ok(c) && (rest + "/")[|rest|..] == "/";
    assert EndsAt(t, s).None?;
    assert Get(t, s) == GetWild(t, rest) && Get(t, s + "/") == GetWild(t, rest + "/");
    if c.children != [] {
      var d := c.children[0];
      SlashChild(d);
      assert GetWild(t, rest + "/") == With([Binding(c.path[1..], (rest + "/")[..|rest|])], Get(d, "/"));
    }
  }

  /** If a path is dispatched but the path with '/' is not, looking up the latter recommends to
      drop the slash. */
  lemma {:induction false} AdviceStrips(t: Trie, s: string)
    requires Ok(t) && Reaches(t, s) && Hits(t, s) && !Hits(t, s + "/")
    ensures Get(t, s + "/").Found? && Get(t, s + "/").tsr
    decreases t, 1
  {
    var s' := s + "/";
    GetSafe(t, s');
    if |s| > |t.path| && t.path <= s {
      var rest := s[|t.path|..];
      assert s'[|t.path|..] == rest + "/";
      if t.wildChild {
        AdviceStripsWild(t, rest);
      } else {
        var k := IndexOf(t.indices, rest[0]);
        assert IsEdge(t.children[k], rest[0]);
        AdviceStrips(t.children[k], rest);
      }
    } else {
      assert s'[|t.path|..] == "/";
      if t.wildChild {
        AdviceStripsEmpty(t);
      } else {
        var k := IndexOf(t.indices, '/');
        if k < |t.indices| {
          assert IsEdge(t.children[k], '/');
          SlashChild(t.children[k]);
        }
      }
    }
  }

  lemma AdviceStripsEmpty(t: Trie)
    requires Ok(t) && t.nType in {Static, Root} && t.wildChild
    requires GetWild(t, "/").Found? && GetWild(t, "/").handle.None?
    ensures GetWild(t, "/").tsr
  {
    var c := t.children[0];
    assert Ok(c);
    assert SegEnd("/") == 0 && "/"[0..] == "/";
    if c.children != [] {
      SlashChild(c.children[0]);
    }
  }

  lemma {:induction false} AdviceStripsWild(t: Trie, rest: string)
    requires Ok(t) && t.nType != Param && t.wildChild && rest != ""
    requires t.nType == CatchAll ==> rest[0] == '/'
    requires GetWild(t, rest).Found? && GetWild(t, rest).handle.Some?
    requires GetWild(t, rest + "/").Found? && GetWild(t, rest + "/").handle.None?
    ensures GetWild(t, rest + "/").tsr
    decreases t, 0
  {
    var c := t.children[0];
    assert Ok(c);
    if c.nType == Param {
      SegEndSlash(rest);
      var e := SegEnd(rest);
      if e < |rest| {
        assert (rest + "/")[e..] == rest[e..] + "/";
        assert Ok(c.children[0]);
        AdviceStrips(c.children[0], rest[e..]);
      } else {
        assert (rest + "/")[e..] == "/";
        if c.children != [] {
          SlashChild(c.children[0]);
        }
      }
    }
  }
}
