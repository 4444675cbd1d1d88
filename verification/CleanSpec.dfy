/** What a canonical URL path is, and cleaning as a stack of segments. */
module CleanSpec {
  import opened Bytes
  import opened AsciiCase

  /** `p` split at every '/'. */
  function Segments(p: string): (ss: seq<string>)
    ensures ss != []
  {
    if p == "" then [""]
    else
      var ss := Segments(p[1..]);
      if p[0] == '/' then [""] + ss else [[p[0]] + ss[0]] + ss[1..]
  }

  /** A segment that survives cleaning. */
  predicate Proper(s: string) {
    s != "" && s != "." && s != ".." && '/' !in s
  }

  predicate AllProper(ss: seq<string>) {
    forall i :: 0 <= i < |ss| ==> Proper(ss[i])
  }

  function Push(st: seq<string>, s: string): seq<string> {
    if s == "" || s == "." then st
    else if s == ".." then (if st == [] then st else st[..|st| - 1])
    else st + [s]
  }

  function Reduce(st: seq<string>, ss: seq<string>): seq<string>
    decreases |ss|
  {
    if ss == [] then st else Reduce(Push(st, ss[0]), ss[1..])
  }

  /** Each segment behind a '/'. */
  function Flat(st: seq<string>): string {
    if st == [] then "" else "/" + st[0] + Flat(st[1..])
  }

  function Render(st: seq<string>): string {
    if st == [] then "/" else Flat(st)
  }

  /** The input asks for a trailing slash. */
  predicate Trailing(p: string) {
    (|p| > 1 && EndsInSlash(p)) || Segments(p)[|Segments(p)| - 1] == "."
  }

  function Clean(p: string): string {
    var st := Reduce([], Segments(p));
    if st == [] then "/" else Flat(st) + (if Trailing(p) then "/" else "")
  }

  /** Rooted, no empty, "." or ".." segment, except that the path may end in '/'. */
  predicate Canonical(c: string) {
    var ss := Segments(c);
    && |ss| > 1 && ss[0] == "" && AllProper(ss[1..|ss| - 1])
    && (ss[|ss| - 1] == "" || Proper(ss[|ss| - 1]))
  }

  // ----- segments

  lemma {:induction false} SegmentsNoSlash(p: string)
    ensures forall i :: 0 <= i < |Segments(p)| ==> '/' !in Segments(p)[i]
  {
    if p != "" {
      SegmentsNoSlash(p[1..]);
    }
  }

  lemma {:induction false} SegmentsConcat(a: string, b: string)
    ensures Segments(a + "/" + b) == Segments(a) + Segments(b)
  {
    var p := a + "/" + b;
    if a == "" {
      assert p[1..] == b;
    } else {
      assert p[0] == a[0] && p[1..] == a[1..] + "/" + b;
      SegmentsConcat(a[1..], b);
    }
  }

  lemma {:induction false} SegmentsOne(x: string)
    requires '/' !in x
    ensures Segments(x) == [x]
  {
    if x != "" {
      SegmentsOne(x[1..]);
      assert x == [x[0]] + x[1..];
    }
  }

  lemma SegmentsCons(x: string, q: string)
    requires '/' !in x
    ensures Segments(x + "/" + q) == [x] + Segments(q)
  {
    SegmentsOne(x);
    SegmentsConcat(x, q);
  }

  lemma {:induction false} SegmentsFlat(x: string, st: seq<string>)
    requires '/' !in x && forall i :: 0 <= i < |st| ==> '/' !in st[i]
    ensures Segments(x + Flat(st)) == [x] + st
    decreases |st|
  {
    if st == [] {
      SegmentsOne(x);
      assert x + Flat(st) == x;
    } else {
      var q := st[0] + Flat(st[1..]);
      SegmentsFlat(st[0], st[1..]);
      SegmentsCons(x, q);
      assert x + Flat(st) == x + "/" + q;
      assert [st[0]] + st[1..] == st;
    }
  }

  /** Joining the segments again gives the path back. */
  lemma {:induction false} Rejoin(p: string)
    ensures p == Segments(p)[0] + Flat(Segments(p)[1..])
  {
    if p != "" {
      var ss := Segments(p[1..]);
      Rejoin(p[1..]);
      assert p == [p[0]] + p[1..];
      if p[0] == '/' {
        assert ([""] + ss)[1..] == ss;
        assert Flat(ss) == "/" + ss[0] + Flat(ss[1..]);
      } else {
        assert ([[p[0]] + ss[0]] + ss[1..])[1..] == ss[1..];
      }
    }
  }

  lemma {:induction false} FlatSnoc(st: seq<string>, s: string)
    ensures Flat(st + [s]) == Flat(st) + "/" + s
    decreases |st|
  {
    if st == [] {
      assert [s][1..] == [] && [] + [s] == [s];
    } else {
      assert (st + [s])[1..] == st[1..] + [s];
      FlatSnoc(st[1..], s);
    }
  }

  // ----- the stack

  lemma {:induction false} ReduceProper(st: seq<string>, ss: seq<string>, last: string)
    requires AllProper(ss) && (last == "" || Proper(last))
    ensures Reduce(st, ss + [last]) == st + ss + if last == "" then [] else [last]
    decreases |ss|
  {
    if ss == [] {
      assert [] + [last] == [last] && [last][1..] == [];
    } else {
      assert (ss + [last])[1..] == ss[1..] + [last];
      ReduceProper(st + [ss[0]], ss[1..], last);
      assert st + [ss[0]] + ss[1..] == st + ss;
    }
  }

  lemma {:induction false} ReduceAllProper(st: seq<string>, ss: seq<string>)
    requires AllProper(st) && forall i :: 0 <= i < |ss| ==> '/' !in ss[i]
    ensures AllProper(Reduce(st, ss))
    decreases |ss|
  {
    if ss != [] {
      assert AllProper(Push(st, ss[0]));
      ReduceAllProper(Push(st, ss[0]), ss[1..]);
    }
  }

  // ----- canonical paths

  /** Cleaning yields a canonical path, whatever the input. */
  lemma CleanCanonical(p: string)
    ensures Canonical(Clean(p))
  {
    var st := Reduce([], Segments(p));
    SegmentsNoSlash(p);
    ReduceAllProper([], Segments(p));
    assert Flat(st) + "/" + "" == Flat(st) + "/";
    if st == [] || Trailing(p) {
      CanonicalFlat(st, "");
      assert Flat([]) + "/" == "/";
    } else {
      var n := |st| - 1;
      CanonicalFlat(st[..n], st[n]);
      FlatSnoc(st[..n], st[n]);
      assert st == st[..n] + [st[n]];
      assert Flat(st) + "" == Flat(st);
    }
  }

  lemma CanonicalFlat(st: seq<string>, last: string)
    requires AllProper(st) && (last == "" || Proper(last))
    ensures Canonical(Flat(st) + "/" + last)
  {
    var ss := st + [last];
    FlatSnoc(st, last);
    SegmentsFlat("", ss);
    assert "" + Flat(ss) == Flat(ss);
    assert ([""] + ss)[1..|st| + 1] == st;
  }

  /** A canonical path as its inner segments and its last one. */
  lemma CanonicalParts(c: string) returns (st: seq<string>, last: string)
    requires Canonical(c)
    ensures AllProper(st) && (last == "" || Proper(last))
    ensures Segments(c) == [""] + (st + [last]) && c == Flat(st) + "/" + last
  {
    var ss := Segments(c);
    st, last := ss[1..|ss| - 1], ss[|ss| - 1];
    assert ss == [ss[0]] + (st + [last]) && ss[1..] == st + [last];
    Rejoin(c);
    FlatSnoc(st, last);
    assert ss[0] + Flat(ss[1..]) == Flat(ss[1..]);
  }

  /** A canonical path is left alone. */
  lemma CanonicalFixed(c: string)
    requires Canonical(c)
    ensures Clean(c) == c
  {
    var st, last := CanonicalParts(c);
    ReduceProper([], st, last);
    assert ([""] + (st + [last]))[1..] == st + [last];
    assert Reduce([], Segments(c)) == Reduce([], st + [last]);
    assert [] + st == st && st + [] == st;
    CanonicalEnd(st, last);
    FlatSnoc(st, last);
    assert Flat(st) + "/" + last + "" == Flat(st) + "/" + last;
    assert Segments(c)[|Segments(c)| - 1] == last;
  }

  lemma CanonicalEnd(st: seq<string>, last: string)
    requires AllProper(st) && (last == "" || Proper(last))
    ensures var c := Flat(st) + "/" + last;
            && (last == "" <==> EndsInSlash(c)) && c != "" && c[0] == '/'
            && (|c| == 1 <==> st == [] && last == "")
  {
    if last != "" {
      assert (Flat(st) + "/" + last)[|Flat(st)| + |last|] == last[|last| - 1];
    }
    if st != [] {
      assert Flat(st)[0] == '/' && |Flat(st)| > 1;
    }
  }

  /** Cleaning is idempotent, and exactly the canonical paths are its fixed points. */
  lemma CleanIdempotent(p: string)
    ensures Clean(Clean(p)) == Clean(p)
    ensures Clean(p) == p <==> Canonical(p)
  {
    CleanCanonical(p);
    CanonicalFixed(Clean(p));
    if Canonical(p) {
      CanonicalFixed(p);
    }
  }

  // ----- canonical paths under change of case and without their trailing slash

  lemma {:induction false} SegmentsFold(s: string, t: string)
    requires EqualFold(s, t)
    ensures |Segments(s)| == |Segments(t)|
    ensures forall i :: 0 <= i < |Segments(s)| ==> EqualFold(Segments(s)[i], Segments(t)[i])
  {
    if s != "" {
      LowerCases(s[0], t[0]);
      LowerCases(t[0], s[0]);
      SegmentsFold(s[1..], t[1..]);
    }
  }

  lemma ProperFold(s: string, t: string)
    requires EqualFold(s, t) && Proper(s)
    ensures Proper(t)
  {
    forall i | 0 <= i < |s| ensures (s[i] == '/' <==> t[i] == '/') && (s[i] == '.' <==> t[i] == '.') {
      LowerCases(s[i], t[i]);
      LowerCases(t[i], s[i]);
    }
    assert t == "." ==> s == ".";
    assert t == ".." ==> s == "..";
  }

  lemma CanonicalFold(c: string, o: string)
    requires Canonical(c) && EqualFold(c, o)
    ensures Canonical(o)
  {
    SegmentsFold(c, o);
    var ss, os := Segments(c), Segments(o);
    var n := |ss| - 1;
    forall i | 0 <= i < n - 1 ensures Proper(os[1..n][i]) {
      assert Proper(ss[1..n][i]) && os[1..n][i] == os[i + 1] && ss[1..n][i] == ss[i + 1];
      ProperFold(ss[i + 1], os[i + 1]);
    }
    if ss[n] != "" {
      ProperFold(ss[n], os[n]);
    }
  }

  lemma CanonicalNoSlash(x: string)
    requires Canonical(x + "/") && x != ""
    ensures Canonical(x) && !EndsInSlash(x)
  {
    var st, last := CanonicalParts(x + "/");
    CanonicalEnd(st, last);
    assert EndsInSlash(x + "/") && Flat(st) + "/" + "" == Flat(st) + "/";
    assert x == (x + "/")[..|x|] == Flat(st);
    var n := |st| - 1;
    assert st == st[..n] + [st[n]];
    FlatSnoc(st[..n], st[n]);
    CanonicalFlat(st[..n], st[n]);
    CanonicalEnd(st[..n], st[n]);
  }

  lemma CanonicalRooted(c: string)
    requires Canonical(c)
    ensures c != "" && c[0] == '/'
  {
    var st, last := CanonicalParts(c);
    CanonicalEnd(st, last);
  }

  // ----- cleaning adds no byte but '/'

  predicate AllAscii(ss: seq<string>) {
    forall i :: 0 <= i < |ss| ==> Ascii(ss[i])
  }

  lemma {:induction false} SegmentsAscii(p: string)
    requires Ascii(p)
    ensures AllAscii(Segments(p))
  {
    if p != "" {
      SegmentsAscii(p[1..]);
    }
  }

  lemma {:induction false} ReduceAscii(st: seq<string>, ss: seq<string>)
    requires AllAscii(st) && AllAscii(ss)
    ensures AllAscii(Reduce(st, ss))
    decreases |ss|
  {
    if ss != [] {
      ReduceAscii(Push(st, ss[0]), ss[1..]);
    }
  }

  lemma {:induction false} FlatAscii(st: seq<string>)
    requires AllAscii(st)
    ensures Ascii(Flat(st))
  {
    if st != [] {
      FlatAscii(st[1..]);
    }
  }

  lemma CleanAscii(p: string)
    requires Ascii(p)
    ensures Ascii(Clean(p))
  {
    SegmentsAscii(p);
    ReduceAscii([], Segments(p));
    FlatAscii(Reduce([], Segments(p)));
  }
}
