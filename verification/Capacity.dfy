/** How many bindings a lookup writes, whether or not it finds anything. */
module Capacity {
  import opened Bytes
  import opened Pattern
  import opened RadixTree
  import opened Denotation
  import opened Lookup

  /** No pattern of `t` has more than `n` wildcards. */
  ghost predicate WithinCount(t: Trie, n: int) {
    forall r :: r in Routes(t) ==> CountWild(r.pattern) <= n
  }

  /** One wildcard less below a parameter, none less below a static node. */
  lemma WithinBelow(t: Trie, k: nat, n: int)
    requires WithinCount(t, n) && k < |t.children|
    requires Plain(t.path) || (StartsWith(t.path, ':') && IsName(t.path[1..]))
    ensures WithinCount(t.children[k], if Plain(t.path) then n else n - 1)
  {
    forall r | r in Routes(t.children[k]) ensures CountWild(r.pattern) <= if Plain(t.path) then n else n - 1 {
      RouteBelow(t, k, r);
      if Plain(t.path) {
        CountPlain(t.path, r.pattern);
      } else {
        assert (t.path + r.pattern)[1..] == t.path[1..] + r.pattern;
        CountPlain(t.path[1..], r.pattern);
      }
    }
  }

  lemma WildcardCounts(c: Trie, n: int)
    requires Ok(c) && WithinCount(c, n) && (c.nType == Param || (c.nType == CatchAll && c.path != ""))
    ensures n >= 1
  {
    var r := SomeRoute(c);
    if c.nType == Param {
      var tail := ParamRoute(c, r);
    } else {
      LeafRoutes(c);
      assert CountWild(c.path[1..]) >= 1;
    }
  }

  /** The buffer of a router whose patterns have at most `n` wildcards is large enough for every lookup. */
  lemma {:induction false} ParamsFit(t: Trie, s: string, n: int)
    requires Ok(t) && Reaches(t, s) && WithinCount(t, n) && n >= 0
    ensures Get(t, s).Found? && |Get(t, s).params| <= n
    decreases t
  {
    GetSafe(t, s);
    if |s| > |t.path| && t.path <= s {
      var rest := s[|t.path|..];
      if t.wildChild {
        WithinBelow(t, 0, n);
        ParamsFitWild(t, rest, n);
      } else {
        var k := IndexOf(t.indices, rest[0]);
        if k < |t.indices| {
          assert IsEdge(t.children[k], rest[0]);
          WithinBelow(t, k, n);
          ParamsFit(t.children[k], rest, n);
        }
      }
    }
  }

  lemma {:induction false} ParamsFitWild(t: Trie, rest: string, n: int)
    requires Ok(t) && t.wildChild && rest != "" && t.nType != Param && WithinCount(t.children[0], n)
    requires GetWild(t, rest).Found?
    ensures |GetWild(t, rest).params| <= n
    decreases t, 0
  {
    var c := t.children[0];
    assert Ok(c);
    WildcardCounts(c, n);
    if c.nType == Param && SegEnd(rest) < |rest| && c.children != [] {
      WithinBelow(c, 0, n);
      ParamsFit(c.children[0], rest[SegEnd(rest)..], n - 1);
    }
  }

  // ----- how many values a match binds

  lemma {:induction false} BindingsAtMost(p: string, s: string)
    requires Match(p, s).Some?
    ensures |Match(p, s).value| <= CountWild(p)
    decreases |p|
  {
    if p == "" {
    } else if p[0] == ':' {
      var e := SegEnd(p);
      BindingsAtMost(p[e..], s[SegEnd(s)..]);
      CountFrom(p[1..], e - 1);
      assert p[1..][e - 1..] == p[e..];
    } else if IsCatchAll(p) {
      assert p[1..][0] == '*';
    } else {
      BindingsAtMost(p[1..], s[1..]);
    }
  }

  lemma {:induction false} CountFrom(p: string, i: nat)
    requires i <= |p|
    ensures CountWild(p[i..]) <= CountWild(p)
  {
    if i == 0 {
      assert p[0..] == p;
    } else {
      CountFrom(p[1..], i - 1);
      assert p[1..][i - 1..] == p[i..];
    }
  }
}
