/** Route patterns as byte strings: which are well formed, which paths they match and with what
    bindings, and which pairs may be registered together. Nothing here mentions the trie. */
module Pattern {
  import opened Bytes

  datatype Binding = Binding(key: string, value: string)

  /** A pattern whose next token is a catch-all: the '/' belongs to the token. */
  predicate IsCatchAll(p: string) {
    |p| >= 2 && p[0] == '/' && p[1] == '*'
  }

  predicate StartsWith(p: string, c: char) {
    p != "" && p[0] == c
  }

  /** What the router accepts as a pattern on its own. */
  predicate WellFormed(p: string)
    decreases |p|
  {
    if p == "" then true
    else if p[0] == ':' then
      var e := SegEnd(p);
      IsName(p[1..e]) && WellFormed(p[e..])
    else if IsCatchAll(p) then IsName(p[2..])
    else p[0] != '*' && WellFormed(p[1..])
  }

  /** Matching one pattern against a path: the bindings in order, or nothing. */
  function Match(p: string, s: string): Option<seq<Binding>>
    decreases |p|
  {
    if p == "" then (if s == "" then Some([]) else None)
    else if s == "" then None
    else if p[0] == ':' then
      var e, v := SegEnd(p), SegEnd(s);
      match Match(p[e..], s[v..])
      case None => None
      case Some(bs) => Some([Binding(p[1..e], s[..v])] + bs)
    else if IsCatchAll(p) then
      if s[0] == '/' then Some([Binding(p[2..], s)]) else None
    else if s[0] == p[0] then Match(p[1..], s[1..])
    else None
  }

  /** Two patterns may live in one tree. At the first token where they differ neither side is a
      wildcard facing something it would swallow, and they do differ. */
  predicate Compatible(p: string, q: string)
    decreases |p|
  {
    if p == "" || q == "" then p != q
    else if p[0] == ':' || q[0] == ':' then
      var e := SegEnd(p);
      p[0] == q[0] && p[..e] == q[..SegEnd(q)] && Compatible(p[e..], q[e..])
    else if IsCatchAll(p) || IsCatchAll(q) then p[0] != q[0]
    else p[0] != q[0] || Compatible(p[1..], q[1..])
  }

  /** The number of wildcard bytes, before it is cut to 16 bits. */
  function CountWild(p: string): nat {
    if p == "" then 0 else (if IsWild(p[0]) then 1 else 0) + CountWild(p[1..])
  }

  lemma {:induction false} CompatibleSymmetric(p: string, q: string)
    ensures Compatible(p, q) == Compatible(q, p)
    decreases |p|
  {
    if p == "" || q == "" {
    } else if p[0] == ':' || q[0] == ':' {
      var e := SegEnd(p);
      if p[0] == q[0] && p[..e] == q[..SegEnd(q)] {
        assert e == SegEnd(q);
        CompatibleSymmetric(p[e..], q[e..]);
      }
    } else if !IsCatchAll(p) && !IsCatchAll(q) && p[0] == q[0] {
      CompatibleSymmetric(p[1..], q[1..]);
    }
  }

  /** The point of compatibility: no path can match two compatible patterns. */
  lemma {:induction false} CompatibleExclusive(p: string, q: string, s: string)
    requires Compatible(p, q)
    ensures Match(p, s).None? || Match(q, s).None?
    decreases |p|
  {
    if p == "" || q == "" || s == "" {
    } else if p[0] == ':' {
      assert SegEnd(p) == SegEnd(q) by {
        assert |p[..SegEnd(p)]| == |q[..SegEnd(q)]|;
      }
      CompatibleExclusive(p[SegEnd(p)..], q[SegEnd(q)..], s[SegEnd(s)..]);
    } else if !IsCatchAll(p) && !IsCatchAll(q) && p[0] == q[0] {
      CompatibleExclusive(p[1..], q[1..], s[1..]);
    }
  }

  // A plain prefix can be stripped from everything, as long as the cut does not fall inside "/*".

  lemma {:induction false} MatchPlain(a: string, q: string, s: string)
    requires Plain(a) && !StartsWith(q, '*')
    ensures Match(a + q, s) == if a <= s then Match(q, s[|a|..]) else None
    decreases |a|
  {
    if a == "" {
      assert a + q == q && s[0..] == s;
    } else {
      var p := a + q;
      assert p[0] == a[0] && p[1..] == a[1..] + q;
      assert !IsCatchAll(p);
      if s != "" && s[0] == a[0] {
        MatchPlain(a[1..], q, s[1..]);
        assert a <= s <==> a[1..] <= s[1..];
        if a <= s {
          assert s[1..][|a| - 1..] == s[|a|..];
        }
      }
    }
  }

  lemma {:induction false} WellFormedPlain(a: string, q: string)
    requires Plain(a) && !StartsWith(q, '*')
    ensures WellFormed(a + q) == WellFormed(q)
    decreases |a|
  {
    if a == "" {
      assert a + q == q;
    } else {
      var p := a + q;
      assert p[0] == a[0] && p[1..] == a[1..] + q;
      assert !IsCatchAll(p);
      WellFormedPlain(a[1..], q);
    }
  }

  lemma {:induction false} CompatiblePlain(a: string, p: string, q: string)
    requires Plain(a) && !StartsWith(p, '*') && !StartsWith(q, '*')
    ensures Compatible(a + p, a + q) == Compatible(p, q)
    decreases |a|
  {
    if a == "" {
      assert a + p == p && a + q == q;
    } else {
      assert (a + p)[1..] == a[1..] + p && (a + q)[1..] == a[1..] + q;
      assert !IsCatchAll(a + p) && !IsCatchAll(a + q);
      CompatiblePlain(a[1..], p, q);
    }
  }

  /** A '*' straight after a plain prefix: malformed unless that prefix ends in '/', and then it
      clashes with everything that continues the prefix. */
  lemma {:induction false} StarAfterPlain(a: string, p: string, q: string)
    requires Plain(a) && StartsWith(p, '*')
    requires !StartsWith(q, '*')
    requires WellFormed(a + p)
    ensures a != "" && a[|a| - 1] == '/'
    ensures !Compatible(a + q, a + p)
    decreases |a|
  {
    assert (a + p)[|a|..] == p;
    if a != "" && !(|a| == 1 && a[0] == '/') {
      assert (a + p)[1..] == a[1..] + p && (a + q)[1..] == a[1..] + q;
      assert !IsCatchAll(a + p) && !IsCatchAll(a + q);
      StarAfterPlain(a[1..], p, q);
    }
  }

  /** Stripping one parameter token. */
  lemma ParamToken(name: string, q: string)
    requires IsName(name)
    requires q == "" || q[0] == '/'
    ensures SegEnd(":" + name + q) == 1 + |name|
    ensures (":" + name + q)[..1 + |name|] == ":" + name
    ensures (":" + name + q)[1 + |name|..] == q
  {
    SegEndUnique(":" + name + q, 1 + |name|);
  }

  lemma {:induction false} BindingsCount(p: string, s: string)
    requires WellFormed(p) && Match(p, s).Some?
    ensures |Match(p, s).value| == CountWild(p)
    decreases |p|
  {
    if p == "" {
    } else if p[0] == ':' {
      var e := SegEnd(p);
      BindingsCount(p[e..], s[SegEnd(s)..]);
      CountPlain(p[1..e], p[e..]);
      assert p[1..] == p[1..e] + p[e..];
    } else if IsCatchAll(p) {
      CountPlain(p[2..], "");
      assert p[2..] + "" == p[2..];
      assert p[1..][1..] == p[2..];
    } else {
      BindingsCount(p[1..], s[1..]);
    }
  }

  lemma {:induction false} CountPlain(a: string, q: string)
    requires Plain(a)
    ensures CountWild(a + q) == CountWild(q)
    decreases |a|
  {
    if a == "" {
      assert a + q == q;
    } else {
      assert (a + q)[1..] == a[1..] + q;
      CountPlain(a[1..], q);
    }
  }
}
