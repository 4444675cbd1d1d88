/** Patterns as lists of tokens: how they are written, which paths they stand for, and which two may be registered
    together. The definitions on byte strings in module `Pattern` are proved against these. */
module Tokens {
  import opened Bytes
  import opened Pattern

  datatype Token = Byte(c: char) | Param(name: string) | Rest(name: string)

  /** How a token is written. */
  function Written(x: Token): string {
    match x
    case Byte(c) => [c]
    case Param(name) => ":" + name
    case Rest(name) => "/*" + name
  }

  /** The pattern of a list of tokens. */
  function PatternOf(ts: seq<Token>): string {
    if ts == [] then "" else Written(ts[0]) + PatternOf(ts[1..])
  }

  /** A name is there, and free of special bytes. */
  predicate Named(name: string): (b: bool)
    ensures b <==> IsName(name)
  {
    assert Plain(name) <==> forall i :: 0 <= i < |name| ==> name[i] != ':' && name[i] != '*';
    name != "" && ':' !in name && '*' !in name && '/' !in name
  }

  /** Wildcards are named; a parameter takes a whole rest of a segment; a catch-all is last. */
  predicate Sensible(ts: seq<Token>) {
    ts != [] ==>
      && Sensible(ts[1..])
      && match ts[0]
         case Byte(c) => c != ':' && c != '*'
         case Param(name) => Named(name) && (|ts| == 1 || ts[1] == Byte('/') || ts[1].Rest?)
         case Rest(name) => Named(name) && |ts| == 1
  }

  /** One value for each wildcard: a parameter's has no '/' and is not empty at the end, a catch-all's is rooted. */
  predicate Fits(ts: seq<Token>, vs: seq<string>)
    decreases |ts|
  {
    if ts == [] then vs == []
    else
      match ts[0]
      case Byte(_) => Fits(ts[1..], vs)
      case Param(_) => vs != [] && '/' !in vs[0] && (|ts| == 1 ==> vs[0] != "") && Fits(ts[1..], vs[1..])
      case Rest(_) => vs != [] && vs[0] != "" && vs[0][0] == '/' && Fits(ts[1..], vs[1..])
  }

  /** The path in which the wildcards have these values. */
  function PathOf(ts: seq<Token>, vs: seq<string>): string
    requires Fits(ts, vs)
    decreases |ts|
  {
    if ts == [] then ""
    else
      match ts[0]
      case Byte(c) => [c] + PathOf(ts[1..], vs)
      case _ => vs[0] + PathOf(ts[1..], vs[1..])
  }

  /** The names of the wildcards with their values, in order. */
  function BindingsOf(ts: seq<Token>, vs: seq<string>): seq<Binding>
    requires Fits(ts, vs)
    decreases |ts|
  {
    if ts == [] then []
    else if ts[0].Byte? then BindingsOf(ts[1..], vs)
    else [Binding(ts[0].name, vs[0])] + BindingsOf(ts[1..], vs[1..])
  }

  // ----- the shape of a written pattern

  lemma Head(ts: seq<Token>)
    requires Sensible(ts)
    ensures !StartsWith(PatternOf(ts), '*')
    ensures ts == [] <==> PatternOf(ts) == ""
    ensures ts != [] && ts[0].Byte? ==>
              var p := PatternOf(ts);
              p[0] == ts[0].c && p[1..] == PatternOf(ts[1..]) && !IsWild(p[0]) && !IsCatchAll(p)
    ensures ts != [] && ts[0].Rest? ==>
              IsCatchAll(PatternOf(ts)) && PatternOf(ts)[2..] == ts[0].name && PatternOf(ts) == "/*" + ts[0].name
    ensures ts != [] && ts[0].Param? ==> PatternOf(ts)[0] == ':'
    decreases |ts|
  {
    if ts != [] {
      Head(ts[1..]);
      var p, q := PatternOf(ts), PatternOf(ts[1..]);
      if ts[0].Byte? {
        assert p == [ts[0].c] + q && p[1..] == q;
      } else if ts[0].Rest? {
        assert ts[1..] == [] && p == "/*" + ts[0].name + "";
      }
    }
  }

  lemma ParamHead(ts: seq<Token>)
    requires Sensible(ts) && ts != [] && ts[0].Param?
    ensures var p, q := PatternOf(ts), PatternOf(ts[1..]);
            && SegEnd(p) == 1 + |ts[0].name| && p[1..SegEnd(p)] == ts[0].name && p[SegEnd(p)..] == q
            && (q == "" || q[0] == '/')
  {
    var q := PatternOf(ts[1..]);
    Head(ts[1..]);
    if |ts| > 1 {
      assert ts[1..][0] == ts[1];
    }
    ParamToken(ts[0].name, q);
    assert PatternOf(ts) == ":" + ts[0].name + q;
    assert PatternOf(ts)[1..1 + |ts[0].name|] == ts[0].name;
  }

  // ----- well-formed patterns are the sensible ones

  lemma {:induction false} SensibleWellFormed(ts: seq<Token>)
    requires Sensible(ts)
    ensures WellFormed(PatternOf(ts))
    decreases |ts|
  {
    Head(ts);
    if ts != [] {
      SensibleWellFormed(ts[1..]);
      if ts[0].Param? {
        ParamHead(ts);
      }
    }
  }

  /** Reading a pattern. */
  function Read(p: string): (ts: seq<Token>)
    requires WellFormed(p)
    ensures Sensible(ts) && PatternOf(ts) == p
    decreases |p|
  {
    if p == "" then []
    else if p[0] == ':' then
      var e := SegEnd(p);
      var ts := [Param(p[1..e])] + Read(p[e..]);
      ReadParam(p, Read(p[e..]));
      ts
    else if IsCatchAll(p) then
      assert [Rest(p[2..])][1..] == [];
      [Rest(p[2..])]
    else
      var ts := [Byte(p[0])] + Read(p[1..]);
      assert ts[1..] == Read(p[1..]);
      ts
  }

  lemma ReadParam(p: string, us: seq<Token>)
    requires p != "" && p[0] == ':' && IsName(p[1..SegEnd(p)]) && Sensible(us) && PatternOf(us) == p[SegEnd(p)..]
    ensures Sensible([Param(p[1..SegEnd(p)])] + us) && PatternOf([Param(p[1..SegEnd(p)])] + us) == p
  {
    var e := SegEnd(p);
    var ts := [Param(p[1..e])] + us;
    Head(us);
    assert ts[0] == Param(p[1..e]) && ts[1..] == us;
    CutToken(p, e);
    if us != [] {
      assert ts[1] == us[0];
      FirstToken(us, p[e..]);
    }
  }

  lemma CutToken(p: string, e: nat)
    requires p != "" && p[0] == ':' && 1 <= e <= |p|
    ensures p == ":" + p[1..e] + p[e..]
  {
  }

  /** What is written with a '/' at first starts with one of these. */
  lemma FirstToken(us: seq<Token>, q: string)
    requires Sensible(us) && us != [] && PatternOf(us) == q && StartsWith(q, '/')
    ensures us[0] == Byte('/') || us[0].Rest?
  {
    Head(us);
  }

  /** A pattern is well formed if and only if it is written from a sensible list of tokens. */
  lemma WellFormedExactly(p: string)
    ensures WellFormed(p) <==> exists ts :: Sensible(ts) && PatternOf(ts) == p
  {
    if WellFormed(p) {
      assert Sensible(Read(p)) && PatternOf(Read(p)) == p;
    }
    if ts :| Sensible(ts) && PatternOf(ts) == p {
      SensibleWellFormed(ts);
    }
  }

  // ----- matching is filling in

  /** Filling values in gives a path that the pattern matches, with these values. */
  lemma {:induction false} FilledMatches(ts: seq<Token>, vs: seq<string>)
    requires Sensible(ts) && Fits(ts, vs)
    ensures Match(PatternOf(ts), PathOf(ts, vs)) == Some(BindingsOf(ts, vs))
    decreases |ts|
  {
    Head(ts);
    if ts != [] {
      match ts[0]
      case Byte(c) =>
        FilledMatches(ts[1..], vs);
        assert PathOf(ts, vs)[1..] == PathOf(ts[1..], vs);
      case Param(name) => FilledParam(ts, vs);
      case Rest(name) =>
        RestPath(ts, vs);
    }
  }

  lemma RestPath(ts: seq<Token>, vs: seq<string>)
    requires Sensible(ts) && ts != [] && ts[0].Rest? && |vs| == 1 && StartsWith(vs[0], '/')
    ensures Fits(ts, vs) && PathOf(ts, vs) == vs[0] && BindingsOf(ts, vs) == [Binding(ts[0].name, vs[0])]
  {
    assert ts[1..] == [] && vs[1..] == [] && vs[0] + "" == vs[0];
  }

  lemma {:induction false} FilledParam(ts: seq<Token>, vs: seq<string>)
    requires Sensible(ts) && Fits(ts, vs) && ts != [] && ts[0].Param?
    ensures Match(PatternOf(ts), PathOf(ts, vs)) == Some(BindingsOf(ts, vs))
    decreases |ts|, 0
  {
    ParamHead(ts);
    FilledMatches(ts[1..], vs[1..]);
    var v, left := vs[0], PathOf(ts[1..], vs[1..]);
    if |ts| > 1 {
      PathHead(ts[1..], vs[1..]);
    }
    SegEndUnique(v + left, |v|);
    assert (v + left)[..|v|] == v && (v + left)[|v|..] == left;
  }

  /** What follows a parameter starts with '/' in the path, too. */
  lemma PathHead(ts: seq<Token>, vs: seq<string>)
    requires ts != [] && (ts[0] == Byte('/') || ts[0].Rest?) && Fits(ts, vs)
    ensures StartsWith(PathOf(ts, vs), '/')
  {
  }

  /** Every match is such a filling. */
  lemma {:induction false} MatchIsFilled(ts: seq<Token>, s: string) returns (vs: seq<string>)
    requires Sensible(ts) && Match(PatternOf(ts), s).Some?
    ensures Fits(ts, vs) && s == PathOf(ts, vs)
    decreases |ts|
  {
    Head(ts);
    if ts == [] {
      vs := [];
    } else {
      match ts[0]
      case Byte(c) =>
        vs := MatchIsFilled(ts[1..], s[1..]);
        assert s == [s[0]] + s[1..];
      case Param(name) =>
        var v, left := ParamCut(ts, s);
        var us := MatchIsFilled(ts[1..], left);
        ParamFilled(ts, v, us);
        vs := [v] + us;
      case Rest(name) =>
        vs := [s];
        RestPath(ts, vs);
    }
  }

  /** A parameter takes the segment, and the rest of the pattern what is left. */
  lemma ParamCut(ts: seq<Token>, s: string) returns (v: string, left: string)
    requires Sensible(ts) && Match(PatternOf(ts), s).Some? && ts != [] && ts[0].Param?
    ensures s == v + left && '/' !in v && (|ts| == 1 ==> v != "") && Match(PatternOf(ts[1..]), left).Some?
  {
    ParamHead(ts);
    v, left := s[..SegEnd(s)], s[SegEnd(s)..];
    Halves(s, SegEnd(s));
    if |ts| == 1 {
      assert ts[1..] == [];
    }
  }

  lemma Halves(s: string, e: nat)
    requires e <= |s|
    ensures s == s[..e] + s[e..]
  {
  }

  lemma ParamFilled(ts: seq<Token>, v: string, us: seq<string>)
    requires ts != [] && ts[0].Param? && Fits(ts[1..], us) && '/' !in v && (|ts| == 1 ==> v != "")
    ensures Fits(ts, [v] + us) && PathOf(ts, [v] + us) == v + PathOf(ts[1..], us)
  {
    assert ([v] + us)[0] == v && ([v] + us)[1..] == us;
  }

  /** A pattern matches a path with some bindings if and only if the path is the pattern with values filled in, and
      the bindings are the names with these values. */
  lemma MatchExactly(ts: seq<Token>, s: string, bs: seq<Binding>)
    requires Sensible(ts)
    ensures Match(PatternOf(ts), s) == Some(bs)
            <==> exists vs :: Fits(ts, vs) && PathOf(ts, vs) == s && BindingsOf(ts, vs) == bs
  {
    if Match(PatternOf(ts), s) == Some(bs) {
      var vs := MatchIsFilled(ts, s);
      FilledMatches(ts, vs);
    }
    if vs :| Fits(ts, vs) && PathOf(ts, vs) == s && BindingsOf(ts, vs) == bs {
      FilledMatches(ts, vs);
    }
  }

  // ----- which two may be registered together

  /** Two different tokens in the same place: a parameter would swallow anything, a catch-all anything that starts
      with '/'. */
  predicate Clash(x: Token, y: Token) {
    x.Param? || y.Param? || (x.Rest? && (y.Rest? || y.c == '/')) || (y.Rest? && x.c == '/')
  }

  /** They differ, and where they first do neither token swallows the other. */
  predicate Apart(xs: seq<Token>, ys: seq<Token>) {
    if xs == [] || ys == [] then xs != ys
    else if xs[0] == ys[0] then Apart(xs[1..], ys[1..])
    else !Clash(xs[0], ys[0])
  }

  /** Compatibility is that. */
  lemma {:induction false} CompatibleExactly(xs: seq<Token>, ys: seq<Token>)
    requires Sensible(xs) && Sensible(ys)
    ensures Compatible(PatternOf(xs), PatternOf(ys)) <==> Apart(xs, ys)
    decreases |xs|
  {
    Head(xs);
    Head(ys);
    if xs != [] && ys != [] {
      if xs[0].Param? && ys[0].Param? {
        CompatibleParams(xs, ys);
      } else if xs[0].Byte? && ys[0].Byte? {
        CompatibleExactly(xs[1..], ys[1..]);
      } else if xs[0] == ys[0] {
        assert xs[1..] == [] && ys[1..] == [];
      }
    }
  }

  lemma {:induction false} CompatibleParams(xs: seq<Token>, ys: seq<Token>)
    requires Sensible(xs) && Sensible(ys) && xs != [] && ys != [] && xs[0].Param? && ys[0].Param?
    ensures Compatible(PatternOf(xs), PatternOf(ys)) <==> Apart(xs, ys)
    decreases |xs|, 0
  {
    ParamHead(xs);
    ParamHead(ys);
    CompatibleExactly(xs[1..], ys[1..]);
    var p, q := PatternOf(xs), PatternOf(ys);
    assert p[..SegEnd(p)] == ":" + xs[0].name && q[..SegEnd(q)] == ":" + ys[0].name;
    assert (":" + xs[0].name)[1..] == xs[0].name && (":" + ys[0].name)[1..] == ys[0].name;
  }
}
