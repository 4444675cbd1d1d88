/** The in-place path cleaner: a read index, a write index, and a buffer that is only allocated once
    the output differs from the input. */
module PathCleaner {
  import opened Bytes
  import opened CleanSpec

  // ----- the specification, seen from a position in the input

  /** What the stack will be after the rest of the input; beyond the end nothing is left. */
  function Rest(st: seq<string>, p: string, r: nat): seq<string> {
    if r <= |p| then Reduce(st, Segments(p[r..])) else st
  }

  lemma RestElement(st: seq<string>, p: string, r: nat, e: nat)
    requires r <= e <= |p| && '/' !in p[r..e] && (e < |p| ==> p[e] == '/')
    ensures Rest(st, p, r) == Rest(Push(st, p[r..e]), p, e) == Rest(Push(st, p[r..e]), p, e + 1)
  {
    var x := p[r..e];
    var st' := Push(st, x);
    if e == |p| {
      assert p[r..] == x && p[e..] == "";
      SegmentsOne(x);
      assert Reduce(st', [""]) == Reduce(Push(st', ""), []);
      assert Reduce(st, [x]) == Reduce(st', []);
    } else {
      var q := p[e + 1..];
      assert p[r..] == x + "/" + q && p[e..] == "" + "/" + q;
      SegmentsCons(x, q);
      SegmentsCons("", q);
      assert ([x] + Segments(q))[1..] == Segments(q) && ([""] + Segments(q))[1..] == Segments(q);
    }
  }

  /** The trailing-slash test on bytes. */
  lemma TrailingBytes(p: string)
    requires p != ""
    ensures Trailing(p) <==> (|p| > 1 && EndsInSlash(p)) || EndsInDot(p)
  {
    LastDot(p);
  }

  /** The last element is ".". */
  predicate EndsInDot(p: string) {
    var n := |p|;
    n > 0 && p[n - 1] == '.' && (n == 1 || p[n - 2] == '/')
  }

  lemma LastDot(p: string)
    ensures Segments(p)[|Segments(p)| - 1] == "." <==> EndsInDot(p)
  {
    if EndsInDot(p) {
      SegmentsOne(".");
      if |p| == 1 {
        assert p == ".";
      } else {
        assert p == p[..|p| - 2] + "/" + ".";
        SegmentsConcat(p[..|p| - 2], ".");
      }
    }
    if Segments(p)[|Segments(p)| - 1] == "." {
      DotLast(p);
    }
  }

  lemma DotLast(p: string)
    requires Segments(p)[|Segments(p)| - 1] == "."
    ensures EndsInDot(p)
  {
    var ss := Segments(p);
    var k := |ss| - 1;
    Rejoin(p);
    if k > 0 {
      var mid := ss[1..k];
      assert ss[1..] == mid + [ss[k]];
      FlatSnoc(mid, ss[k]);
      DotAtEnd(p, ss[0], Flat(mid));
    } else {
      assert ss[1..] == [];
    }
  }

  lemma DotAtEnd(p: string, a: string, b: string)
    requires p == a + (b + "/" + ".")
    ensures EndsInDot(p)
  {
    assert p[|p| - 2..] == "/.";
  }

  // ----- the buffer

  function Capacity(buf: array<char>, p: string): nat {
    if buf.Length == 0 then |p| else buf.Length
  }

  /** The output so far is `out`: a prefix of the input as long as no buffer was needed, and a prefix
      of the buffer afterwards. */
  ghost predicate Shows(buf: array<char>, p: string, out: string)
    reads buf
  {
    && |out| <= Capacity(buf, p)
    && forall i :: 0 <= i < |out| ==> out[i] == if buf.Length == 0 then p[i] else buf[i]
  }

  /** Appends `c` at position `w`, allocating the buffer when `c` is the first change. */
  method BufApp(buf: array<char>, s: string, w: nat, c: char, ghost out: string) returns (b: array<char>)
    requires w < Capacity(buf, s) && Shows(buf, s, out) && w == |out|
    modifies buf
    ensures b == buf || (fresh(b) && buf.Length == 0)
    ensures b.Length == 0 ==> s[w] == c
    ensures b.Length == 0 || b.Length == Capacity(buf, s)
    ensures Shows(b, s, out + [c])
  {
    b := buf;
    if b.Length == 0 {
      if s[w] == c {
        return;
      }
      b := new char[|s|](_ => '\0');
      forall i | 0 <= i < w {
        b[i] := s[i];
      }
    }
    b[w] := c;
  }

  // ----- the loop

  function Pop(st: seq<string>): seq<string> {
    if st == [] then st else st[..|st| - 1]
  }

  /** How far the write index may be ahead of the read index. */
  function Lead(p: string): nat
    requires p != ""
  {
    if p[0] == '/' then 0 else 1
  }

  /** The buffer is not allocated, or has room for the longest possible output. */
  predicate Allocated(p: string, length: nat)
    requires p != ""
  {
    (length == 0 && Lead(p) == 0) || length == |p| + Lead(p)
  }

  /** The read index is at a '/', at the end, or at the start of an element. */
  predicate AtBoundary(p: string, r: nat) {
    r >= |p| || p[r] == '/' || r == 0 || p[r - 1] == '/'
  }

  /** The write index only catches up with the read index right behind a copied element. */
  predicate Room(p: string, r: nat, w: nat, trailing: bool)
    requires p != ""
  {
    && 1 <= w <= r + Lead(p) && w <= |p| + Lead(p) && r <= |p| + 1
    && (w > 1 && w == r + Lead(p) ==> (r < |p| && p[r] == '/') || (r == |p| && !trailing))
    && (r == |p| + 1 ==> !trailing)
  }

  lemma SliceSnoc(base: string, p: string, r0: nat, r: nat)
    requires r0 <= r < |p|
    ensures base + p[r0..r] + [p[r]] == base + p[r0..r + 1]
  {
    assert p[r0..r + 1] == p[r0..r] + [p[r]];
  }

  /** Where the last element of a rendered stack starts. */
  lemma LastElement(st: seq<string>) returns (i: nat)
    requires AllProper(st) && st != []
    ensures var out := Flat(st);
            && i < |out| - 1 && out[i] == '/' && (forall j :: i < j < |out| ==> out[j] != '/')
            && out[..i] == Flat(st[..|st| - 1]) && (i > 0 <==> |st| > 1) && i != 1 && out[0] == '/'
  {
    var init, last := st[..|st| - 1], st[|st| - 1];
    assert st == init + [last];
    FlatSnoc(init, last);
    FlatLonger(init);
    i := |Flat(init)|;
    assert forall j :: i < j < |Flat(st)| ==> Flat(st)[j] == last[j - i - 1];
  }

  /** Moves the write index back to the last '/' of the output, but not before the first byte. */
  method Backtrack(buf: array<char>, p: string, w0: nat, ghost st: seq<string>) returns (w: nat)
    requires AllProper(st) && Shows(buf, p, Render(st)) && 1 < w0 == |Render(st)|
    ensures 1 <= w < w0 && w == |Render(Pop(st))| && Shows(buf, p, Render(Pop(st)))
  {
    ghost var i := LastElement(st);
    ghost var out := Render(st);
    w := w0 - 1;
    if buf.Length == 0 {
      while w > 1 && p[w] != '/'
        invariant 1 <= w < w0 && i <= w
      {
        w := w - 1;
      }
    } else {
      while w > 1 && buf[w] != '/'
        invariant 1 <= w < w0 && i <= w
      {
        w := w - 1;
      }
    }
    assert w > 1 ==> out[w] == '/';
    assert Render(Pop(st)) == out[..w];
  }

  lemma FlatLonger(st: seq<string>)
    requires AllProper(st)
    ensures st != [] ==> |Flat(st)| > 1
    ensures st != [] ==> Flat(st)[0] == '/'
  {
  }

  /** Copies the bytes of the element that starts at `r0` behind the output. */
  method CopyElement(buf0: array<char>, p: string, r0: nat, w0: nat, ghost out: string)
    returns (buf: array<char>, r: nat, w: nat)
    requires p != "" && r0 < |p| && p[r0] != '/' && Allocated(p, buf0.Length)
    requires 1 <= w0 == |out| <= r0 + Lead(p) && Shows(buf0, p, out)
    modifies buf0
    ensures (buf == buf0 || (fresh(buf) && buf0.Length == 0)) && Allocated(p, buf.Length)
    ensures r0 < r <= |p| && (forall i :: r0 <= i < r ==> p[i] != '/') && (r < |p| ==> p[r] == '/')
    ensures w == w0 + (r - r0) && Shows(buf, p, out + p[r0..r])
  {
    buf, r, w := buf0, r0, w0;
    assert out + p[r0..r] == out;
    while r < |p| && p[r] != '/'
      invariant r0 <= r <= |p| && forall i :: r0 <= i < r ==> p[i] != '/'
      invariant w == w0 + (r - r0)
      invariant buf == buf0 || (fresh(buf) && buf0.Length == 0)
      invariant Allocated(p, buf.Length)
      invariant Shows(buf, p, out + p[r0..r])
    {
      buf := BufApp(buf, p, w, p[r], out + p[r0..r]);
      SliceSnoc(out, p, r0, r);
      w := w + 1;
      r := r + 1;
    }
  }

  lemma ElementStart(st: seq<string>)
    requires AllProper(st)
    ensures Flat(st) + "/" == if st == [] then Render(st) else Render(st) + "/"
    ensures |Render(st)| > 1 <==> st != []
  {
    FlatLonger(st);
  }

  // ----- the whole

  /** Whether a trailing slash is known to be wanted at position `r`. */
  predicate SlashOrDot(p: string, r: nat) {
    (|p| > 1 && EndsInSlash(p)) || (r >= |p| && EndsInDot(p))
  }

  /** What the loop knows about its variables: the output is the rendered stack. */
  ghost predicate Stacked(p: string, buf: array<char>, r: nat, w: nat, trailing: bool, st: seq<string>)
    requires p != ""
    reads buf
  {
    exists out :: StackedAs(p, buf, r, w, trailing, st, out)
  }

  ghost predicate StackedAs(p: string, buf: array<char>, r: nat, w: nat, trailing: bool, st: seq<string>, out: string)
    requires p != ""
    reads buf
  {
    && AllProper(st) && out == Render(st) && w == |out| && Shows(buf, p, out)
    && Allocated(p, buf.Length) && Room(p, r, w, trailing) && AtBoundary(p, r) && trailing == SlashOrDot(p, r)
  }

  /** The output stays or shrinks to `st'` while the read index moves on to `r'`. */
  lemma MoveOn(p: string, buf: array<char>, r: nat, r': nat, w: nat, w': nat, trailing: bool, trailing': bool,
               st: seq<string>, st': seq<string>)
    requires p != "" && Stacked(p, buf, r, w, trailing, st) && r < r' && r < |p| && r' <= |p| + 1
    requires AllProper(st') && w' == |Render(st')| <= w && Shows(buf, p, Render(st'))
    requires AtBoundary(p, r') && trailing' == SlashOrDot(p, r') && (r' == |p| + 1 ==> !trailing')
    ensures Stacked(p, buf, r', w', trailing', st')
  {
    ElementStart(st');
    assert StackedAs(p, buf, r', w', trailing', st', Render(st'));
  }

  lemma SkipSlash(p: string, buf: array<char>, r: nat, w: nat, trailing: bool, st: seq<string>)
    requires p != "" && Stacked(p, buf, r, w, trailing, st) && r < |p| && p[r] == '/'
    ensures Stacked(p, buf, r + 1, w, trailing, st)
    ensures Rest(st, p, r + 1) == Rest(st, p, r)
  {
    RestElement(st, p, r, r);
    MoveOn(p, buf, r, r + 1, w, w, trailing, trailing, st, st);
  }

  lemma SkipLastDot(p: string, buf: array<char>, r: nat, w: nat, trailing: bool, st: seq<string>)
    requires p != "" && Stacked(p, buf, r, w, trailing, st) && r + 1 == |p| && p[r] == '.'
    ensures Stacked(p, buf, r + 1, w, true, st) && Rest(st, p, r + 1) == Rest(st, p, r)
  {
    assert p[r..r + 1] == ".";
    RestElement(st, p, r, r + 1);
    MoveOn(p, buf, r, r + 1, w, w, trailing, true, st, st);
  }

  lemma SkipDot(p: string, buf: array<char>, r: nat, w: nat, trailing: bool, st: seq<string>)
    requires p != "" && Stacked(p, buf, r, w, trailing, st) && r + 1 < |p| && p[r] == '.' && p[r + 1] == '/'
    ensures Stacked(p, buf, r + 2, w, trailing, st) && Rest(st, p, r + 2) == Rest(st, p, r)
  {
    assert p[r..r + 1] == ".";
    RestElement(st, p, r, r + 1);
    MoveOn(p, buf, r, r + 2, w, w, trailing, trailing, st, st);
  }

  predicate DotDot(p: string, r: nat) {
    r + 1 < |p| && p[r] == '.' && p[r + 1] == '.' && (r + 2 == |p| || p[r + 2] == '/')
  }

  /** A ".." element is followed by a boundary, and does not make the path end like a directory. */
  lemma BehindDotDot(p: string, r: nat, trailing: bool)
    requires DotDot(p, r) && trailing == SlashOrDot(p, r)
    ensures AtBoundary(p, r + 3) && trailing == SlashOrDot(p, r + 3) && (r + 3 == |p| + 1 ==> !trailing)
  {
  }

  /** A ".." element: remove the last element of the output, if there is one. */
  method GoUp(p: string, buf: array<char>, r: nat, w0: nat, trailing: bool, ghost st: seq<string>) returns (w: nat)
    requires p != "" && Stacked(p, buf, r, w0, trailing, st) && DotDot(p, r)
    ensures Stacked(p, buf, r + 3, w, trailing, Pop(st))
  {
    w := w0;
    ElementStart(st);
    BehindDotDot(p, r, trailing);
    if w > 1 {
      w := Backtrack(buf, p, w, st);
    } else {
      assert Pop(st) == st == [];
    }
    MoveOn(p, buf, r, r + 3, w0, w, trailing, trailing, st, Pop(st));
  }

  lemma RestGoUp(st: seq<string>, p: string, r: nat)
    requires DotDot(p, r)
    ensures Rest(Pop(st), p, r + 3) == Rest(st, p, r)
  {
    assert p[r..r + 2] == "..";
    RestElement(st, p, r, r + 2);
  }

  /** A real path element: a '/' if one is needed, then its bytes. */
  method AddElement(p: string, buf0: array<char>, r0: nat, w0: nat, trailing: bool, ghost st: seq<string>)
    returns (buf: array<char>, r: nat, w: nat)
    requires p != "" && Stacked(p, buf0, r0, w0, trailing, st) && RealElement(p, r0)
    modifies buf0
    ensures (buf == buf0 || fresh(buf)) && r0 < r <= |p| && ElementAt(p, r0, r)
    ensures Stacked(p, buf, r, w, trailing, st + [p[r0..r]])
  {
    ElementStart(st);
    buf, r, w := buf0, r0, w0;
    if w > 1 {
      buf := BufApp(buf, p, w, '/', Render(st));
      w := w + 1;
    }
    buf, r, w := CopyElement(buf, p, r, w, Flat(st) + "/");
    ElementRead(p, r0, r);
    FlatSnoc(st, p[r0..r]);
    assert StackedAs(p, buf, r, w, trailing, st + [p[r0..r]], Flat(st) + "/" + p[r0..r]);
  }

  /** `p[r0..r]` is a whole element. */
  predicate ElementAt(p: string, r0: nat, r: nat) {
    r0 < r <= |p| && (forall i :: r0 <= i < r ==> p[i] != '/') && (r < |p| ==> p[r] == '/')
  }

  /** None of the special cases applies at position `r0`. */
  predicate RealElement(p: string, r0: nat) {
    && r0 < |p| && p[r0] != '/' && !(p[r0] == '.' && r0 + 1 == |p|)
    && !(r0 + 1 < |p| && p[r0] == '.' && p[r0 + 1] == '/')
    && !(r0 + 1 < |p| && p[r0] == '.' && p[r0 + 1] == '.' && (r0 + 2 == |p| || p[r0 + 2] == '/'))
  }

  lemma ElementRead(p: string, r0: nat, r: nat)
    requires RealElement(p, r0) && ElementAt(p, r0, r)
    ensures Proper(p[r0..r])
    ensures r == |p| ==> !EndsInSlash(p) && !EndsInDot(p)
  {
    var x := p[r0..r];
    assert x[0] == p[r0] && (|x| > 1 ==> x[1] == p[r0 + 1]);
  }

  lemma RestPush(st: seq<string>, p: string, r0: nat, r: nat)
    requires RealElement(p, r0) && ElementAt(p, r0, r)
    ensures Rest(st + [p[r0..r]], p, r) == Rest(st, p, r0)
  {
    ElementRead(p, r0, r);
    RestElement(st, p, r0, r);
  }

  /** Re-appends the trailing slash and takes the output from where it is. */
  method Finish(p: string, buf0: array<char>, r: nat, w0: nat, trailing: bool, ghost st: seq<string>)
    returns (out: string)
    requires p != "" && Stacked(p, buf0, r, w0, trailing, st) && r >= |p|
    modifies buf0
    ensures out == Render(st) + (if trailing && st != [] then "/" else "") && |out| <= |p| + Lead(p)
  {
    ElementStart(st);
    var buf, w := buf0, w0;
    ghost var shown := Render(st);
    if trailing && w > 1 {
      buf := BufApp(buf, p, w, '/', shown);
      w, shown := w + 1, shown + "/";
    }
    assert Render(st) + "" == Render(st);
    if buf.Length == 0 {
      return p[..w];
    }
    return buf[..w];
  }

  lemma CleanAtEnd(p: string, r: nat, trailing: bool, st: seq<string>)
    requires p != "" && r >= |p| && trailing == SlashOrDot(p, r)
    requires Rest(st, p, r) == Reduce([], Segments(p))
    ensures Clean(p) == Render(st) + (if trailing && st != [] then "/" else "")
  {
    TrailingBytes(p);
    RestNothing(st, p, r);
    assert "/" + "" == "/";
  }

  lemma RestNothing(st: seq<string>, p: string, r: nat)
    requires r >= |p|
    ensures Rest(st, p, r) == st
  {
    if r == |p| {
      assert p[r..] == "" && Reduce(st, [""]) == Reduce(Push(st, ""), []);
    }
  }

  lemma Start(p: string, buf: array<char>, r: nat, trailing: bool)
    requires p != "" && trailing == (|p| > 1 && EndsInSlash(p))
    requires p[0] == '/' ==> r == 1 && buf.Length == 0
    requires p[0] != '/' ==> r == 0 && buf.Length == |p| + 1 && buf[0] == '/'
    ensures Stacked(p, buf, r, 1, trailing, [])
  {
    assert StackedAs(p, buf, r, 1, trailing, [], "/");
  }

  lemma RestStart(p: string)
    requires p != ""
    ensures Rest([], p, if p[0] == '/' then 1 else 0) == Reduce([], Segments(p))
  {
    assert p[0..] == p;
    if p[0] == '/' {
      RestElement([], p, 0, 0);
    }
  }

  /** One round of the loop: what starts at `r0` is read, and the stack becomes `st`. */
  method ReadOne(p: string, buf0: array<char>, r0: nat, w0: nat, trailing0: bool, ghost st0: seq<string>)
    returns (buf: array<char>, r: nat, w: nat, trailing: bool, ghost st: seq<string>)
    requires p != "" && Stacked(p, buf0, r0, w0, trailing0, st0) && r0 < |p|
    modifies buf0
    ensures (buf == buf0 || fresh(buf)) && r0 < r <= |p| + 1
    ensures Stacked(p, buf, r, w, trailing, st) && Rest(st, p, r) == Rest(st0, p, r0)
  {
    buf, w, trailing, st := buf0, w0, trailing0, st0;
    if p[r0] == '/' {
      SkipSlash(p, buf, r0, w, trailing, st);
      r := r0 + 1;
    } else if p[r0] == '.' && r0 + 1 == |p| {
      SkipLastDot(p, buf, r0, w, trailing, st);
      r, trailing := r0 + 1, true;
    } else if p[r0] == '.' && p[r0 + 1] == '/' {
      SkipDot(p, buf, r0, w, trailing, st);
      r := r0 + 2;
    } else if p[r0] == '.' && p[r0 + 1] == '.' && (r0 + 2 == |p| || p[r0 + 2] == '/') {
      RestGoUp(st0, p, r0);
      w := GoUp(p, buf, r0, w, trailing, st0);
      r, st := r0 + 3, Pop(st0);
    } else {
      buf, r, w := AddElement(p, buf, r0, w, trailing, st0);
      RestPush(st0, p, r0, r);
      st := st0 + [p[r0..r]];
    }
  }

  /** Cleans `p` exactly as the stack of segments does. The output is never longer than a rooted
      input, and at most one byte longer than any other. */
  method CleanPath(p: string) returns (out: string)
    ensures out == Clean(p)
    ensures |out| <= if p != "" && p[0] == '/' then |p| else |p| + 1
  {
    if p == "" {
      RestNothing([], "", 0);
      return "/";
    }
    var buf := new char[0];
    var n := |p|;
    var r: nat, w: nat := 1, 1;
    if p[0] != '/' {
      r := 0;
      buf := new char[n + 1](_ => '\0');
      buf[0] := '/';
    }
    var trailing := n > 1 && p[n - 1] == '/';
    ghost var st, goal := [], Reduce([], Segments(p));
    Start(p, buf, r, trailing);
    RestStart(p);
    while r < n
      invariant Stacked(p, buf, r, w, trailing, st) && Rest(st, p, r) == goal && fresh(buf)
      decreases n + 1 - r
    {
      buf, r, w, trailing, st := ReadOne(p, buf, r, w, trailing, st);
    }
    CleanAtEnd(p, r, trailing, st);
    out := Finish(p, buf, r, w, trailing, st);
  }
}
