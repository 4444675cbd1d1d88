/** The case-insensitive lookup when it may also fix a trailing slash: exactly what is found, told by the
    recommendations of the exact lookup. */
module CaseSlash {
  import opened Bytes
  import opened Pattern
  import opened AsciiCase
  import opened RadixTree
  import opened Lookup
  import opened Advice
  import opened CaseLookup

  /** Where the exact lookup recommends something that the search does not try. The path ends with a parameter
      above the empty node of a catch-all; or it ends with a '/' that is a node of its own without handle, and
      the node above it is no static one with a handle. */
  predicate Balks(t: Trie, s: string)
    decreases t
  {
    if |s| > |t.path| && t.path <= s then
      var rest := s[|t.path|..];
      if t.wildChild then
        && t.children != [] && t.children[0].nType == Param && t.children[0].children != []
        && if SegEnd(rest) == |rest| then t.children[0].handle.None? && t.children[0].children[0].path == ""
           else Balks(t.children[0].children[0], rest[SegEnd(rest)..])
      else
        var k := IndexOf(t.indices, rest[0]);
        k < |t.children| && Balks(t.children[k], rest) && !(rest == "/" && t.handle.Some?)
    else s == t.path == "/" && t.nType == Static && t.handle.None? && FoldEnd(t, true).None?
  }

  /** The exact lookup of `o` recommends a slash more or less, and the search takes it up. */
  predicate Advised(t: Trie, o: string) {
    Get(t, o).Found? && Get(t, o).tsr && !Balks(t, o)
  }

  // ----- fixing slashes loses nothing

  lemma {:induction false} FixMore(t: Trie, s: string, rb: char)
    requires FindFold(t, s, rb, false).Some?
    ensures FindFold(t, s, rb, true).Some?
    decreases t
  {
    var rest := s[|t.path|..];
    if rest != "" {
      if t.wildChild {
        if t.children != [] && t.children[0].nType == Param && t.children[0].children != []
           && SegEnd(rest) < |rest| {
          FixMore(t.children[0].children[0], rest[SegEnd(rest)..], rb);
        }
      } else {
        FixMoreEdges(t, rest, if t.path == "" then rb else NO_RUNE);
      }
    }
  }

  lemma {:induction false} FixMoreEdges(t: Trie, rest: string, rb: char)
    requires rest != "" && FoldEdges(t, rest, rb, false).Some?
    ensures FoldEdges(t, rest, rb, true).Some?
    decreases t, 0
  {
    var rv := if t.path == "" then NO_RUNE else rest[0];
    forall b, k | k == IndexOf(t.indices, b) && k < |t.children| && FindFold(t.children[k], rest, b, false).Some?
      ensures FoldEdge(t, k, rest, b, true).Some?
    {
      FixMore(t.children[k], rest, b);
    }
  }

  // ----- every recommendation is taken up, but for those

  lemma SegEndFold(s: string, o: string)
    requires EqualFold(o, s)
    ensures SegEnd(o) == SegEnd(s) && EqualFold(o[SegEnd(o)..], s[SegEnd(s)..])
  {
    var e := SegEnd(s);
    forall i | 0 <= i < e ensures o[i] != '/' {
      assert s[i] in s[..e];
      LowerCases(s[i], o[i]);
      LowerCases(o[i], s[i]);
    }
    if e < |s| {
      LowerCases(o[e], s[e]);
    }
    SegEndUnique(o, e);
  }

  /** A respelled path that starts with the node's own path. */
  lemma Along(t: Trie, s: string, o: string)
    requires EqualFold(o, s) && t.path <= o
    ensures PathFolds(t, s) && EqualFold(o[|t.path|..], s[|t.path|..])
  {
    FoldStart(t, s);
  }

  lemma {:induction false} FixTakes(t: Trie, s: string, o: string, rb: char)
    requires Ok(t) && HeadFolds(t, s) && Reaches(t, o) && EqualFold(o, s) && Advised(t, o)
    ensures FindFold(t, s, rb, true).Some?
    decreases t, 1
  {
    if |o| > |t.path| && t.path <= o {
      var rest, left := s[|t.path|..], o[|t.path|..];
      Along(t, s, o);
      if t.nType == CatchAll {
        assert Ok(t.children[0]) && s[0..] == s;
      } else if t.wildChild {
        FixTakesWild(t, rest, left, o, rb);
      } else {
        FixTakesEdge(t, rest, left, o, rb);
      }
    } else if o == t.path {
      Along(t, s, o);
    } else {
      FixTakesMiss(t, s, o);
    }
  }

  lemma FixTakesMiss(t: Trie, s: string, o: string)
    requires Ok(t) && HeadFolds(t, s) && EqualFold(o, s) && o != t.path && !(|o| > |t.path| && t.path <= o)
    requires MissAdvice(t, o)
    ensures !PathFolds(t, s) && FoldMiss(t, s).Some?
  {
    LowerCases(s[0], '/');
    if o == "/" {
      assert s == "/";
      if t.path != "" {
        LowerCases(t.path[0], '/');
        assert t.path[..1] == "/";
      }
    } else {
      forall i | 0 <= i < |s| - 1 ensures Lower(s[1..][i]) == Lower(t.path[1..|s|][i]) {
        assert o[i + 1] == t.path[..|s|][i + 1];
      }
    }
  }

  /** Below a node with an empty path there is only a catch-all, and no recommendation. */
  lemma EmptyNoAdvice(t: Trie, o: string)
    requires Ok(t) && t.nType in {Static, Root} && t.path == "" && o != ""
    ensures Get(t, o).Found? && !Get(t, o).tsr
  {
    var c := t.children[0];
    assert Ok(c) && o[0..] == o && t.indices[0] == '/';
    if o[0] == '/' {
      assert Ok(c.children[0]) && Get(t, o) == Get(c, o) && Get(c, o) == GetWild(c, o);
    }
  }

  lemma {:induction false} FixTakesEdge(t: Trie, rest: string, left: string, o: string, rb: char)
    requires Ok(t) && t.nType in {Static, Root} && !t.wildChild && left != "" && EqualFold(left, rest)
    requires t.path <= o && left == o[|t.path|..] && Advised(t, o)
    ensures FoldEdges(t, rest, if t.path == "" then rb else NO_RUNE, true).Some?
    decreases t, 0
  {
    var k, b := IndexOf(t.indices, left[0]), left[0];
    LowerCases(rest[0], b);
    LowerCases(b, rest[0]);
    if k < |t.indices| {
      var c := t.children[k];
      assert Ok(c) && IsEdge(c, b);
      if t.path == "" {
        EmptyNoAdvice(t, o);
      } else if !Balks(c, left) {
        FixTakes(c, rest, left, b);
      }
    }
  }

  lemma {:induction false} FixTakesWild(t: Trie, rest: string, left: string, o: string, rb: char)
    requires Ok(t) && t.nType in {Static, Root} && t.wildChild && left != "" && EqualFold(left, rest)
    requires t.path <= o && left == o[|t.path|..] && Advised(t, o)
    ensures FoldWild(t, rest, rb, true).Some?
    decreases t, 0
  {
    var c, e := t.children[0], SegEnd(rest);
    assert Ok(c);
    SegEndFold(rest, left);
    assert Get(t, o) == GetWild(t, left);
    if e < |rest| {
      if c.children != [] {
        assert Ok(c.children[0]);
        LowerCases(rest[e], '/');
        FixTakes(c.children[0], rest[e..], left[e..], rb);
      }
    }
  }

  // ----- and nothing else is found

  /** `o` is `s` up to case, may follow the edge into `t`, and gets a recommendation that is taken up. */
  predicate Respelled(t: Trie, s: string, o: string) {
    EqualFold(o, s) && o != "" && (t.path != "" ==> o[0] == t.path[0]) && Advised(t, o)
  }

  lemma {:induction false} FixFinds(t: Trie, s: string, rb: char) returns (o: string)
    requires Ok(t) && HeadFolds(t, s) && FindFold(t, s, rb, true).Some? && FindFold(t, s, rb, false).None?
    ensures Respelled(t, s, o)
    decreases t, 2
  {
    if PathFolds(t, s) {
      var a, rest := s[..|t.path|], s[|t.path|..];
      PathFoldsWhole(t, s);
      assert s == a + rest;
      if rest == "" {
        o := t.path;
      } else if t.wildChild {
        o := FixFindsWild(t, a, rest, rb);
      } else if t.path == "" {
        EmptySame(t, rest, rb);
        o := "";
      } else {
        o := FixFindsEdges(t, a, rest);
      }
    } else {
      o := FixFindsMiss(t, s);
    }
  }

  lemma FixFindsMiss(t: Trie, s: string) returns (o: string)
    requires Ok(t) && t.nType in {Static, Root} && HeadFolds(t, s) && !PathFolds(t, s) && FoldMiss(t, s).Some?
    ensures Respelled(t, s, o)
  {
    LowerCases(t.path[0], '/');
    if s == "/" {
      o := s;
    } else {
      o := t.path[..|s|];
      forall i | 0 <= i < |s| ensures Lower(o[i]) == Lower(s[i]) {
        if i > 0 {
          assert s[1..][i - 1] == s[i] && t.path[1..|s|][i - 1] == t.path[i];
        }
      }
    }
  }

  /** A node with an empty path has no slash to fix. */
  lemma EmptySame(t: Trie, rest: string, rb: char)
    requires Ok(t) && t.nType in {Static, Root} && t.path == "" && rest != "" && rest[0] == '/'
    ensures FoldEdges(t, rest, rb, true).Some? ==> FoldEdges(t, rest, rb, false).Some?
  {
    var c := t.children[0];
    assert Ok(c) && t.indices[0] == '/';
    CatchAllFound(c, rest, rb, false);
  }

  lemma CatchAllFound(c: Trie, s: string, rb: char, fix: bool)
    requires Ok(c) && c.nType == CatchAll && c.path == "" && s != ""
    ensures FindFold(c, s, rb, fix).Some?
  {
    assert Ok(c.children[0]) && s[0..] == s;
  }

  lemma {:induction false} FixFindsEdges(t: Trie, a: string, rest: string) returns (o: string)
    requires Ok(t) && t.nType in {Static, Root} && !t.wildChild && rest != "" && t.path != "" && EqualFold(t.path, a)
    requires FoldEdges(t, rest, NO_RUNE, true).Some? && FoldEdges(t, rest, NO_RUNE, false).None?
    ensures Respelled(t, a + rest, o)
    decreases t, 1
  {
    var lo, up := Lower(rest[0]), Upper(rest[0]);
    var i, j := IndexOf(t.indices, lo), IndexOf(t.indices, up);
    LowerCases(rest[0], lo);
    LowerCases(rest[0], up);
    if i < |t.indices| && FoldEdge(t, i, rest, lo, true).Some? {
      o := FixFindsBelow(t, a, rest, i);
    } else if up != lo && j < |t.indices| && FoldEdge(t, j, rest, up, true).Some? {
      o := FixFindsBelow(t, a, rest, j);
    } else {
      o := t.path + "/";
      StopRespelled(t, a);
    }
  }

  lemma {:induction false} FixFindsBelow(t: Trie, a: string, rest: string, k: nat) returns (o: string)
    requires Ok(t) && t.nType in {Static, Root} && !t.wildChild && rest != "" && t.path != "" && EqualFold(t.path, a)
    requires k < |t.indices| && Lower(t.indices[k]) == Lower(rest[0])
    requires FoldEdge(t, k, rest, t.indices[k], true).Some? && FoldEdge(t, k, rest, t.indices[k], false).None?
    ensures Respelled(t, a + rest, o)
    decreases t, 0
  {
    var c, b := t.children[k], t.indices[k];
    assert Ok(c) && IsEdge(c, b);
    LowerCases(rest[0], '/');
    LowerCases(b, '/');
    var q := FixFinds(c, rest, b);
    LowerCases(q[0], '/');
    o := t.path + q;
    assert o[|t.path|..] == q && IndexOf(t.indices, b) == k;
    FoldConcat(t.path, a, q, rest);
  }

  lemma StopRespelled(t: Trie, a: string)
    requires Ok(t) && t.nType in {Static, Root} && !t.wildChild && t.path != "" && EqualFold(t.path, a)
    requires t.handle.Some?
    requires var k := IndexOf(t.indices, '/');
             k < |t.indices| ==> FindFold(t.children[k], "/", '/', true).None?
    ensures Respelled(t, a + "/", t.path + "/")
  {
    var k, o := IndexOf(t.indices, '/'), t.path + "/";
    assert o[|t.path|..] == "/";
    FoldConcat(t.path, a, "/", "/");
    if k < |t.indices| {
      var c := t.children[k];
      assert Ok(c) && IsEdge(c, '/');
      LoneSlashFound(c);
    }
  }

  lemma EmptyFound(c: Trie)
    requires Ok(c) && IsEdge(c, '/') && c.path == ""
    ensures FindFold(c, "/", '/', true).Some?
  {
    if c.nType == CatchAll {
      CatchAllFound(c, "/", '/', true);
    } else {
      var d := c.children[0];
      assert Ok(d) && c.indices[0] == '/' && "/"[0..] == "/";
      CatchAllFound(d, "/", '/', true);
      assert FoldEdges(c, "/", '/', true) == FoldEdge(c, 0, "/", '/', true);
    }
  }

  /** A '/' edge leads on from "/", or is a node of its own without handle. */
  lemma LoneSlashFound(c: Trie)
    requires Ok(c) && IsEdge(c, '/') && FindFold(c, "/", '/', true).None?
    ensures Get(c, "/") == Found(None, [], true)
  {
    if c.path == "" {
      EmptyFound(c);
    } else {
      assert |c.path| == 1 ==> c.path == "/";
    }
  }

  lemma {:induction false} FixFindsWild(t: Trie, a: string, rest: string, rb: char) returns (o: string)
    requires Ok(t) && t.nType in {Static, Root} && t.wildChild && rest != "" && EqualFold(t.path, a)
    requires FoldWild(t, rest, rb, true).Some? && FoldWild(t, rest, rb, false).None?
    ensures Respelled(t, a + rest, o)
    decreases t, 0
  {
    var c, e := t.children[0], SegEnd(rest);
    assert Ok(c) && c.nType == Param;
    if e < |rest| && c.children != [] {
      var d := c.children[0];
      assert Ok(d) && IsEdge(d, '/');
      var q := FixFinds(d, rest[e..], rb);
      LowerCases(q[0], '/');
      o := t.path + (rest[..e] + q);
      RespelledParam(t, a, rest[..e], rest[e..], q);
      assert rest == rest[..e] + rest[e..];
    } else {
      o := t.path + rest;
      RespelledHere(t, a, rest);
    }
  }

  /** The walk with a respelled path goes on below a parameter. */
  lemma RespelledParam(t: Trie, a: string, v: string, left: string, q: string)
    requires Ok(t) && t.wildChild && t.children[0].nType == Param && |t.children[0].path| >= 2
    requires t.children[0].children != [] && t.path != "" && EqualFold(t.path, a)
    requires '/' !in v && StartsWith(left, '/') && StartsWith(q, '/') && Respelled(t.children[0].children[0], left, q)
    ensures Respelled(t, a + (v + left), t.path + (v + q))
  {
    var o := t.path + (v + q);
    ValueEnd(v, q);
    AnswerParam(t, o, v + q, q);
    FoldConcat(v, v, q, left);
    FoldConcat(t.path, a, v + q, v + left);
  }

  /** The path ends with a parameter, or behind one that has no child. */
  lemma RespelledHere(t: Trie, a: string, rest: string)
    requires Ok(t) && t.wildChild && t.children[0].nType == Param && t.path != "" && EqualFold(t.path, a) && rest != ""
    requires SegEnd(rest) == |rest| || t.children[0].children == []
    requires FoldWild(t, rest, NO_RUNE, true).Some? && FoldWild(t, rest, NO_RUNE, false).None?
    ensures Respelled(t, a + rest, t.path + rest)
  {
    var o := t.path + rest;
    assert Ok(t.children[0]) && o[|t.path|..] == rest;
    assert Get(t, o) == GetWild(t, rest);
    FoldConcat(t.path, a, rest, rest);
  }

  /** When slashes may be fixed, a rooted path is found if and only if it is found without that, by
      `FoundExactly`, or some respelling of it gets a recommendation that the search takes up. */
  lemma FixedExactly(t: Trie, s: string)
    requires RootOk(t) && StartsWith(s, '/')
    ensures FindFold(t, s, NO_RUNE, true).Some? <==>
              || (exists r :: r in Routes(t) && MatchFold(r.pattern, s).Some? && Lit(t, r.pattern, NO_RUNE))
              || (exists o :: EqualFold(o, s) && Advised(t, o))
  {
    FoundExactly(t, s);
    if FindFold(t, s, NO_RUNE, false).Some? {
      FixMore(t, s, NO_RUNE);
    } else if FindFold(t, s, NO_RUNE, true).Some? {
      var o := FixFinds(t, s, NO_RUNE);
    }
    if o :| EqualFold(o, s) && Advised(t, o) {
      FixTakes(t, s, o, NO_RUNE);
    }
  }
}
