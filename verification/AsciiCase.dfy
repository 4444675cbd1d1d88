/** Letter case on ASCII, and matching up to case. */
module AsciiCase {
  import opened Bytes
  import opened Pattern

  predicate Ascii(s: string) {
    forall i :: 0 <= i < |s| ==> s[i] < 128 as char
  }

  function Lower(c: char): char {
    if 'A' <= c <= 'Z' then c - 'A' + 'a' else c
  }

  function Upper(c: char): char {
    if 'a' <= c <= 'z' then c - 'a' + 'A' else c
  }

  /** Equality under simple case folding. */
  predicate EqualFold(s: string, t: string) {
    |s| == |t| && forall i :: 0 <= i < |s| ==> Lower(s[i]) == Lower(t[i])
  }

  /** `Match`, where static bytes need only agree up to case. */
  function MatchFold(p: string, s: string): Option<seq<Binding>>
    decreases |p|
  {
    if p == "" then (if s == "" then Some([]) else None)
    else if s == "" then None
    else if p[0] == ':' then
      var e, v := SegEnd(p), SegEnd(s);
      match MatchFold(p[e..], s[v..])
      case None => None
      case Some(bs) => Some([Binding(p[1..e], s[..v])] + bs)
    else if IsCatchAll(p) then
      if s[0] == '/' then Some([Binding(p[2..], s)]) else None
    else if Lower(s[0]) == Lower(p[0]) then MatchFold(p[1..], s[1..])
    else None
  }

  /** Case does not touch '/', nor does any other byte fold to it. */
  lemma LowerCases(c: char, d: char)
    ensures Lower(c) == Lower(d) <==> d == Lower(c) || d == Upper(c)
    ensures Lower(c) == '/' <==> c == '/'
    ensures Lower(c) == '.' <==> c == '.'
  {
  }

  lemma FoldConcat(a: string, b: string, c: string, d: string)
    requires EqualFold(a, b) && EqualFold(c, d)
    ensures EqualFold(a + c, b + d)
  {
  }

  lemma {:induction false} MatchFoldPlain(a: string, a': string, q: string, s: string)
    requires Plain(a) && !StartsWith(q, '*') && EqualFold(a, a')
    ensures MatchFold(a + q, a' + s) == MatchFold(q, s)
    decreases |a|
  {
    if a == "" {
      assert a + q == q && a' + s == s;
    } else {
      assert (a + q)[1..] == a[1..] + q && (a' + s)[1..] == a'[1..] + s;
      assert !IsCatchAll(a + q);
      MatchFoldPlain(a[1..], a'[1..], q, s);
    }
  }

  lemma {:induction false} MatchFoldPlainInv(a: string, q: string, s: string)
    requires Plain(a) && !StartsWith(q, '*') && MatchFold(a + q, s).Some?
    ensures |a| <= |s| && EqualFold(a, s[..|a|])
    ensures MatchFold(a + q, s) == MatchFold(q, s[|a|..])
    decreases |a|
  {
    if a == "" {
      assert a + q == q && s[0..] == s;
    } else {
      assert (a + q)[1..] == a[1..] + q;
      assert !IsCatchAll(a + q);
      MatchFoldPlainInv(a[1..], q, s[1..]);
      FoldCons(a, s);
    }
  }

  lemma FoldCons(a: string, s: string)
    requires a != "" && s != "" && Lower(a[0]) == Lower(s[0])
    requires |a| <= |s| && EqualFold(a[1..], s[1..][..|a| - 1])
    ensures EqualFold(a, s[..|a|]) && s[1..][|a| - 1..] == s[|a|..]
  {
    forall i | 0 <= i < |a| ensures Lower(a[i]) == Lower(s[i]) {
      if i > 0 {
        assert a[1..][i - 1] == a[i] && s[1..][..|a| - 1][i - 1] == s[i];
      }
    }
  }

  /** An exact match is a match up to case. */
  lemma {:induction false} MatchIsMatchFold(p: string, s: string)
    requires Match(p, s).Some?
    ensures MatchFold(p, s) == Match(p, s)
    decreases |p|
  {
    if p == "" {
    } else if p[0] == ':' {
      MatchIsMatchFold(p[SegEnd(p)..], s[SegEnd(s)..]);
    } else if !IsCatchAll(p) {
      MatchIsMatchFold(p[1..], s[1..]);
    }
  }

  const CAPITALS := "ABCDEFGHIJKLMNOPQRSTUVWXYZ"
  const SMALLS := "abcdefghijklmnopqrstuvwxyz"

  lemma Capitals(c: char)
    ensures c in CAPITALS <==> 'A' <= c <= 'Z'
  {
    if 'A' <= c <= 'Z' {
      assert CAPITALS[(c - 'A') as int] == c;
    }
  }

  lemma Smalls(c: char)
    ensures c in SMALLS <==> 'a' <= c <= 'z'
  {
    if 'a' <= c <= 'z' {
      assert SMALLS[(c - 'a') as int] == c;
    }
  }

  /** The two spellings of the alphabet, and nothing else, change. */
  lemma Alphabet(c: char)
    ensures forall i :: 0 <= i < 26 ==> Lower(CAPITALS[i]) == SMALLS[i] && Upper(SMALLS[i]) == CAPITALS[i]
    ensures c !in CAPITALS ==> Lower(c) == c
    ensures c !in SMALLS ==> Upper(c) == c
  {
    Capitals(c);
    Smalls(c);
  }
}
