/** Matching up to case, told by tokens: the fixed bytes of a pattern in either case, the values as they are. */
module Spelling {
  import opened Bytes
  import opened Pattern
  import opened AsciiCase
  import opened CaseLookup
  import opened Tokens

  /** `s` is the pattern with these values filled in, and its fixed bytes in either case. */
  predicate Spelled(ts: seq<Token>, vs: seq<string>, s: string)
    requires Fits(ts, vs)
    decreases |ts|
  {
    if ts == [] then s == ""
    else
      match ts[0]
      case Byte(c) => s != "" && Lower(s[0]) == Lower(c) && Spelled(ts[1..], vs, s[1..])
      case _ => vs[0] <= s && Spelled(ts[1..], vs[1..], s[|vs[0]|..])
  }

  /** What follows a parameter starts with '/', in either case. */
  lemma SpelledHead(ts: seq<Token>, vs: seq<string>, s: string)
    requires ts != [] && (ts[0] == Byte('/') || ts[0].Rest?) && Fits(ts, vs) && Spelled(ts, vs, s)
    ensures StartsWith(s, '/')
  {
    if ts[0].Byte? {
      LowerCases(s[0], '/');
    }
  }

  lemma {:induction false} SpelledFolds(ts: seq<Token>, vs: seq<string>, s: string)
    requires Sensible(ts) && Fits(ts, vs) && Spelled(ts, vs, s)
    ensures MatchFold(PatternOf(ts), s) == Some(BindingsOf(ts, vs))
    decreases |ts|
  {
    Head(ts);
    if ts != [] {
      match ts[0]
      case Byte(c) =>
        SpelledFolds(ts[1..], vs, s[1..]);
      case Param(name) =>
        SpelledFolds(ts[1..], vs[1..], s[|vs[0]|..]);
        SpelledParam(ts, vs, s);
      case Rest(name) =>
        RestIs(ts, vs, s);
    }
  }

  lemma RestIs(ts: seq<Token>, vs: seq<string>, s: string)
    requires Sensible(ts) && ts != [] && ts[0].Rest? && Fits(ts, vs) && Spelled(ts, vs, s)
    ensures vs == [s] && BindingsOf(ts, vs) == [Binding(ts[0].name, s)] && StartsWith(s, '/')
  {
    assert ts[1..] == [] && vs[1..] == [] && s[|vs[0]|..] == "";
    assert |vs| == 1 && |vs[0]| == |s| && vs[0] == s;
  }

  lemma SpelledParam(ts: seq<Token>, vs: seq<string>, s: string)
    requires Sensible(ts) && Fits(ts, vs) && Spelled(ts, vs, s) && ts != [] && ts[0].Param?
    requires MatchFold(PatternOf(ts[1..]), s[|vs[0]|..]) == Some(BindingsOf(ts[1..], vs[1..]))
    ensures MatchFold(PatternOf(ts), s) == Some(BindingsOf(ts, vs))
  {
    ParamHead(ts);
    var v := vs[0];
    if |ts| > 1 {
      SpelledHead(ts[1..], vs[1..], s[|v|..]);
    }
    assert s[..|v|] == v;
    SegEndUnique(s, |v|);
  }

  lemma {:induction false} FoldIsSpelled(ts: seq<Token>, s: string) returns (vs: seq<string>)
    requires Sensible(ts) && MatchFold(PatternOf(ts), s).Some?
    ensures Fits(ts, vs) && Spelled(ts, vs, s)
    decreases |ts|
  {
    Head(ts);
    if ts == [] {
      vs := [];
    } else {
      match ts[0]
      case Byte(c) =>
        vs := FoldIsSpelled(ts[1..], s[1..]);
      case Param(name) =>
        var v, left := FoldCut(ts, s);
        var us := FoldIsSpelled(ts[1..], left);
        vs := [v] + us;
        assert vs[0] == v && vs[1..] == us;
      case Rest(name) =>
        vs := [s];
        assert ts[1..] == [] && vs[1..] == [] && s[|s|..] == "";
    }
  }

  lemma FoldCut(ts: seq<Token>, s: string) returns (v: string, left: string)
    requires Sensible(ts) && MatchFold(PatternOf(ts), s).Some? && ts != [] && ts[0].Param?
    ensures v <= s && left == s[|v|..] && '/' !in v && (|ts| == 1 ==> v != "")
    ensures MatchFold(PatternOf(ts[1..]), left).Some?
  {
    ParamHead(ts);
    v, left := s[..SegEnd(s)], s[SegEnd(s)..];
    if |ts| == 1 {
      assert ts[1..] == [];
    }
  }

  /** The bindings give the values away. */
  lemma {:induction false} SameValues(ts: seq<Token>, vs: seq<string>, us: seq<string>)
    requires Fits(ts, vs) && Fits(ts, us) && BindingsOf(ts, vs) == BindingsOf(ts, us)
    ensures vs == us
    decreases |ts|
  {
    if ts != [] {
      if ts[0].Byte? {
        SameValues(ts[1..], vs, us);
      } else {
        BindingsCons(ts, vs);
        BindingsCons(ts, us);
        SameValues(ts[1..], vs[1..], us[1..]);
        assert vs == [vs[0]] + vs[1..] && us == [us[0]] + us[1..];
      }
    }
  }

  lemma BindingsCons(ts: seq<Token>, vs: seq<string>)
    requires Fits(ts, vs) && ts != [] && !ts[0].Byte?
    ensures BindingsOf(ts, vs) != [] && BindingsOf(ts, vs)[0].value == vs[0]
    ensures BindingsOf(ts, vs)[1..] == BindingsOf(ts[1..], vs[1..])
  {
  }

  /** A pattern matches a path up to case, with some bindings, if and only if the path is the pattern with values
      filled in and its fixed bytes in either case; the bindings are the names with these values, byte for byte. */
  lemma FoldExactly(ts: seq<Token>, s: string, bs: seq<Binding>)
    requires Sensible(ts)
    ensures MatchFold(PatternOf(ts), s) == Some(bs)
            <==> exists vs :: Fits(ts, vs) && Spelled(ts, vs, s) && BindingsOf(ts, vs) == bs
  {
    if MatchFold(PatternOf(ts), s) == Some(bs) {
      var vs := FoldIsSpelled(ts, s);
      SpelledFolds(ts, vs, s);
    }
    if vs :| Fits(ts, vs) && Spelled(ts, vs, s) && BindingsOf(ts, vs) == bs {
      SpelledFolds(ts, vs, s);
    }
  }

  /** A respelling that a pattern agrees with has the pattern's own bytes, and the values of the input. */
  lemma AgreeExactly(ts: seq<Token>, s: string, o: string)
    requires Sensible(ts)
    ensures Agree(PatternOf(ts), s, o) <==> exists vs :: Fits(ts, vs) && Spelled(ts, vs, s) && o == PathOf(ts, vs)
  {
    if Agree(PatternOf(ts), s, o) {
      var vs := FoldIsSpelled(ts, s);
      var us := MatchIsFilled(ts, o);
      SpelledFolds(ts, vs, s);
      FilledMatches(ts, us);
      SameValues(ts, vs, us);
    }
    if vs :| Fits(ts, vs) && Spelled(ts, vs, s) && o == PathOf(ts, vs) {
      SpelledFolds(ts, vs, s);
      FilledMatches(ts, vs);
    }
  }
}
