/** The rules of cleaning as laws about paths, without the stack: what may be cancelled, and when a slash stays
    at the end. Nothing but cleaning obeys all of them. */
module CleanLaws {
  import opened Bytes
  import opened CleanSpec

  // ----- segments and the stack

  lemma {:induction false} ReduceConcat(st: seq<string>, xs: seq<string>, ys: seq<string>)
    ensures Reduce(st, xs + ys) == Reduce(Reduce(st, xs), ys)
    decreases |xs|
  {
    if xs == [] {
      assert xs + ys == ys;
    } else {
      assert (xs + ys)[1..] == xs[1..] + ys;
      ReduceConcat(Push(st, xs[0]), xs[1..], ys);
    }
  }

  lemma ReduceOne(st: seq<string>, x: string)
    ensures Reduce(st, [x]) == Push(st, x)
  {
    assert [x][1..] == [];
  }

  /** The last element is ".", read off the last bytes. */
  predicate DotLast(p: string) {
    p == "." || (|p| >= 2 && p[|p| - 2] == '/' && p[|p| - 1] == '.')
  }

  /** What the input asks for at its end. */
  predicate Directory(p: string) {
    EndsInSlash(p) || DotLast(p)
  }

  lemma LastSegment(p: string)
    ensures Segments(p)[|Segments(p)| - 1] == "." <==> DotLast(p)
  {
    if DotLast(p) {
      EndsInDotSegment(p);
    }
    if Segments(p)[|Segments(p)| - 1] == "." {
      DotSegmentEnds(p);
    }
  }

  lemma EndsInDotSegment(p: string)
    requires DotLast(p)
    ensures Segments(p)[|Segments(p)| - 1] == "."
  {
    SegmentsOne(".");
    if p != "." {
      var a := BeforeDot(p);
      SegmentsConcat(a, ".");
    }
  }

  lemma BeforeDot(p: string) returns (a: string)
    requires DotLast(p) && p != "."
    ensures p == a + "/" + "."
  {
    a := p[..|p| - 2];
  }

  lemma DotSegmentEnds(p: string)
    requires Segments(p)[|Segments(p)| - 1] == "."
    ensures DotLast(p)
  {
    var ss, n := Segments(p), |Segments(p)| - 1;
    Rejoin(p);
    if n > 0 {
      assert ss[1..] == ss[1..n] + [ss[n]];
      FlatSnoc(ss[1..n], ss[n]);
      BehindSlash(p, ss[0], Flat(ss[1..n]));
    } else {
      assert ss[1..] == [];
    }
  }

  lemma BehindSlash(p: string, a: string, b: string)
    requires p == a + (b + "/" + ".")
    ensures DotLast(p)
  {
  }

  lemma NothingAtRoot()
    ensures Reduce([], Segments("/")) == []
  {
    SegmentsConcat("", "");
    assert "" + "/" + "" == "/";
    ReduceConcat([], [""], [""]);
    ReduceOne([], "");
  }

  /** Cleaning, told by the stack and the last bytes. */
  lemma CleanIs(p: string)
    ensures var st := Reduce([], Segments(p));
            Clean(p) == if st == [] then "/" else Flat(st) + if Directory(p) then "/" else ""
  {
    if Reduce([], Segments(p)) != [] {
      TrailingIs(p);
    }
  }

  lemma TrailingIs(p: string)
    requires Reduce([], Segments(p)) != []
    ensures Trailing(p) == Directory(p)
  {
    LastSegment(p);
    NothingAtRoot();
    assert p != "/";
  }

  /** Two inputs with the same stack that end alike. */
  lemma SameClean(p: string, q: string)
    requires Reduce([], Segments(p)) == Reduce([], Segments(q))
    requires Reduce([], Segments(p)) == [] || Directory(p) == Directory(q)
    ensures Clean(p) == Clean(q)
  {
    CleanIs(p);
    CleanIs(q);
  }

  /** What comes before the last slash does not change how a path ends. */
  lemma DirectoryEnd(a: string, b: string)
    ensures Directory(a + "/" + b) == (b == "" || Directory(b))
  {
    var p := a + "/" + b;
    assert p[|a|] == '/' && p[|a| + 1..] == b;
    if b != "" {
      assert p[|p| - 1] == b[|b| - 1];
      if |b| >= 2 {
        assert p[|p| - 2] == b[|b| - 2];
      } else {
        assert b == [b[0]] && p[|p| - 2] == '/';
      }
    }
  }

  /** A middle part that leaves the stack alone may be cut out. */
  lemma CutOut(a: string, m: string, b: string)
    requires var st := Reduce([], Segments(a)); Reduce(st, Segments(m)) == st
    ensures Clean(a + "/" + m + "/" + b) == Clean(a + "/" + b)
  {
    SegmentsConcat(a + "/" + m, b);
    SegmentsConcat(a, m);
    SegmentsConcat(a, b);
    ReduceConcat([], Segments(a) + Segments(m), Segments(b));
    ReduceConcat([], Segments(a), Segments(m));
    ReduceConcat([], Segments(a), Segments(b));
    DirectoryEnd(a + "/" + m, b);
    DirectoryEnd(a, b);
    SameClean(a + "/" + m + "/" + b, a + "/" + b);
  }

  lemma UpAndDown(st: seq<string>, x: string)
    requires Proper(x)
    ensures Reduce(st, Segments(x + "/" + "..")) == st
  {
    SegmentsCons(x, "..");
    SegmentsOne("..");
    ReduceConcat(st, [x], [".."]);
    ReduceOne(st, x);
    ReduceOne(st + [x], "..");
    assert (st + [x])[..|st|] == st;
  }

  // ----- the laws

  /** Slashes in a row are one. */
  lemma SlashSlash(a: string, b: string)
    ensures Clean(a + "//" + b) == Clean(a + "/" + b)
  {
    ReduceOne(Reduce([], Segments(a)), "");
    CutOut(a, "", b);
    SlashText(a, b);
  }

  lemma SlashText(a: string, b: string)
    ensures a + "/" + "" + "/" + b == a + "//" + b
  {
  }

  /** A "." element goes. */
  lemma DotElement(a: string, b: string)
    ensures Clean(a + "/./" + b) == Clean(a + "/" + b)
  {
    SegmentsOne(".");
    ReduceOne(Reduce([], Segments(a)), ".");
    CutOut(a, ".", b);
    DotText(a, b);
  }

  lemma DotText(a: string, b: string)
    ensures a + "/" + "." + "/" + b == a + "/./" + b
  {
  }

  /** A ".." element goes together with the element before it. */
  lemma DotDotElement(a: string, x: string, b: string)
    requires Proper(x)
    ensures Clean(a + "/" + x + "/../" + b) == Clean(a + "/" + b)
  {
    UpAndDown(Reduce([], Segments(a)), x);
    CutOut(a, x + "/" + "..", b);
    UpText(a, x, b);
  }

  lemma UpText(a: string, x: string, b: string)
    ensures a + "/" + (x + "/" + "..") + "/" + b == a + "/" + x + "/../" + b
    ensures a + "/" + (x + "/" + "..") == a + "/" + x + "/.."
  {
  }

  /** At the root a ".." element goes alone. */
  lemma DotDotAtRoot(b: string)
    ensures Clean("/../" + b) == Clean("/" + b)
  {
    SegmentsOne("..");
    ReduceOne([], "");
    ReduceOne([], "..");
    CutOut("", "..", b);
    assert "" + "/" + ".." + "/" + b == "/../" + b && "" + "/" + b == "/" + b;
  }

  /** The same at the end: a final "." asks for a directory, a final ".." does not. */
  lemma DotAtEnd(a: string)
    ensures Clean(a + "/.") == Clean(a + "/")
  {
    SegmentsConcat(a, ".");
    SegmentsConcat(a, "");
    SegmentsOne(".");
    ReduceConcat([], Segments(a), ["."]);
    ReduceConcat([], Segments(a), [""]);
    ReduceOne(Reduce([], Segments(a)), ".");
    ReduceOne(Reduce([], Segments(a)), "");
    DirectoryEnd(a, ".");
    DirectoryEnd(a, "");
    assert a + "/" + "." == a + "/." && a + "/" + "" == a + "/";
    SameClean(a + "/.", a + "/");
  }

  /** Without its slash at the end, but for "/". */
  function Trimmed(s: string): string {
    if s == "/" || s == "" then s else s[..|s| - 1]
  }

  lemma DotDotAtEnd(a: string, x: string)
    requires Proper(x)
    ensures Clean(a + "/" + x + "/..") == Trimmed(Clean(a + "/"))
  {
    var p, q, st := a + "/" + x + "/..", a + "/", Reduce([], Segments(a));
    StackUp(a, x);
    StackSlash(a);
    CleanIs(p);
    CleanIs(q);
    DotsEnd(a + "/" + x);
    SlashEnds(a);
    TrimSlash(Flat(st));
  }

  lemma DotsEnd(b: string)
    ensures !Directory(b + "/..")
  {
    var p := b + "/..";
    assert p[|p| - 1] == '.' && p[|p| - 2] == '.';
  }

  lemma SlashEnds(a: string)
    ensures Directory(a + "/")
  {
  }

  lemma StackUp(a: string, x: string)
    requires Proper(x)
    ensures Reduce([], Segments(a + "/" + x + "/..")) == Reduce([], Segments(a))
  {
    UpAndDown(Reduce([], Segments(a)), x);
    SegmentsConcat(a, x + "/" + "..");
    ReduceConcat([], Segments(a), Segments(x + "/" + ".."));
    UpText(a, x, "");
  }

  lemma StackSlash(a: string)
    ensures Reduce([], Segments(a + "/")) == Reduce([], Segments(a))
  {
    SegmentsConcat(a, "");
    ReduceConcat([], Segments(a), [""]);
    ReduceOne(Reduce([], Segments(a)), "");
    assert a + "/" + "" == a + "/";
  }

  lemma TrimSlash(x: string)
    ensures x != "" ==> Trimmed(x + "/") == x
    ensures x + "" == x
  {
  }

  lemma NothingAboveRoot()
    ensures Clean("/..") == "/" && Clean("") == "/"
  {
    SegmentsConcat("", "..");
    SegmentsOne("..");
    ReduceConcat([], [""], [".."]);
    ReduceOne([], "");
    ReduceOne([], "..");
    assert "" + "/" + ".." == "/..";
    CleanIs("/..");
    CleanIs("");
  }

  /** What is not rooted is rooted. */
  lemma Rooted(p: string)
    requires p != "" && p[0] != '/'
    ensures Clean(p) == Clean("/" + p)
  {
    SegmentsConcat("", p);
    ReduceConcat([], [""], Segments(p));
    ReduceOne([], "");
    DirectoryEnd("", p);
    assert "" + "/" + p == "/" + p;
    SameClean(p, "/" + p);
  }

  /** When the result ends in a slash. */
  lemma SlashAtEnd(p: string)
    ensures EndsInSlash(Clean(p)) <==>
              Clean(p) == "/" || EndsInSlash(p) || (|p| >= 2 && p[|p| - 2] == '/' && p[|p| - 1] == '.')
  {
    CleanIs(p);
    var st := Reduce([], Segments(p));
    SegmentsNoSlash(p);
    ReduceAllProper([], Segments(p));
    if st != [] {
      FlatEnd(st);
      assert Flat(st) + "" == Flat(st);
    }
    if p == "." {
      SegmentsOne(".");
      ReduceOne([], ".");
    }
  }

  lemma FlatEnd(st: seq<string>)
    requires AllProper(st) && st != []
    ensures |Flat(st)| > 1 && !EndsInSlash(Flat(st))
  {
    var n := |st| - 1;
    assert st == st[..n] + [st[n]];
    FlatSnoc(st[..n], st[n]);
    assert Flat(st)[|Flat(st)| - 1] == st[n][|st[n]| - 1] && st[n][|st[n]| - 1] in st[n];
  }

  // ----- the laws leave no choice

  // Each law, for any function from paths to paths.

  ghost predicate KeepsCanonical(f: string -> string, c: string) {
    Canonical(c) ==> f(c) == c
  }

  predicate DropsSlash(f: string -> string, a: string, b: string) {
    f(a + "//" + b) == f(a + "/" + b)
  }

  predicate DropsDot(f: string -> string, a: string, b: string) {
    f(a + "/./" + b) == f(a + "/" + b)
  }

  predicate GoesUp(f: string -> string, a: string, x: string, b: string) {
    Proper(x) ==> f(a + "/" + x + "/../" + b) == f(a + "/" + b)
  }

  predicate StopsAtRoot(f: string -> string, b: string) {
    f("/../" + b) == f("/" + b)
  }

  predicate EndsInDot(f: string -> string, a: string) {
    f(a + "/.") == f(a + "/")
  }

  predicate EndsGoingUp(f: string -> string, a: string, x: string) {
    Proper(x) ==> f(a + "/" + x + "/..") == Trimmed(f(a + "/"))
  }

  predicate AddsRoot(f: string -> string, p: string) {
    p != "" && p[0] != '/' ==> f(p) == f("/" + p)
  }

  /** `f` obeys the laws and leaves canonical paths alone. */
  ghost predicate Lawful(f: string -> string) {
    && (forall c :: KeepsCanonical(f, c))
    && (forall a, b :: DropsSlash(f, a, b) && DropsDot(f, a, b))
    && (forall a, x, b :: GoesUp(f, a, x, b))
    && (forall b :: StopsAtRoot(f, b))
    && (forall a :: EndsInDot(f, a))
    && (forall a, x :: EndsGoingUp(f, a, x))
    && (forall p :: AddsRoot(f, p))
    && f("/..") == "/" && f("") == "/"
  }

  lemma CleanIsLawful()
    ensures Lawful(Clean)
  {
    forall c ensures KeepsCanonical(Clean, c) {
      if Canonical(c) {
        CanonicalFixed(c);
      }
    }
    forall a, b ensures DropsSlash(Clean, a, b) && DropsDot(Clean, a, b) {
      SlashSlash(a, b);
      DotElement(a, b);
    }
    forall a, x, b ensures GoesUp(Clean, a, x, b) {
      if Proper(x) {
        DotDotElement(a, x, b);
      }
    }
    forall b ensures StopsAtRoot(Clean, b) {
      DotDotAtRoot(b);
    }
    forall a ensures EndsInDot(Clean, a) {
      DotAtEnd(a);
    }
    forall a, x ensures EndsGoingUp(Clean, a, x) {
      if Proper(x) {
        DotDotAtEnd(a, x);
      }
    }
    forall p ensures AddsRoot(Clean, p) {
      if p != "" && p[0] != '/' {
        Rooted(p);
      }
    }
    NothingAboveRoot();
  }

  lemma {:induction false} FlatConcat(xs: seq<string>, ys: seq<string>)
    ensures Flat(xs + ys) == Flat(xs) + Flat(ys)
    decreases |xs|
  {
    if xs == [] {
      assert xs + ys == ys;
    } else {
      assert (xs + ys)[1..] == xs[1..] + ys;
      FlatConcat(xs[1..], ys);
    }
  }

  /** An element that cleaning keeps where it is. */
  predicate Stays(x: string, last: bool) {
    Proper(x) || (last && x == "")
  }

  function FirstLoose(ss: seq<string>): (i: nat)
    ensures i <= |ss| && (i < |ss| ==> !Stays(ss[i], i == |ss| - 1))
    ensures forall j :: 0 <= j < i ==> Stays(ss[j], j == |ss| - 1)
  {
    if ss == [] || !Stays(ss[0], |ss| == 1) then 0 else 1 + FirstLoose(ss[1..])
  }

  /** Cutting a rooted path at one of its elements. */
  lemma CutAt(ss: seq<string>, i: nat)
    requires i < |ss|
    ensures Flat(ss) == Flat(ss[..i]) + ("/" + ss[i] + Flat(ss[i + 1..]))
  {
    var tail := ss[i..];
    assert ss == ss[..i] + tail;
    FlatConcat(ss[..i], tail);
    assert tail[0] == ss[i] && tail[1..] == ss[i + 1..];
  }

  lemma RootedParts(p: string) returns (ss: seq<string>)
    requires p != "" && p[0] == '/'
    ensures ss != [] && p == Flat(ss) && Segments(p) == [""] + ss && forall i :: 0 <= i < |ss| ==> '/' !in ss[i]
  {
    ss := Segments(p)[1..];
    Rejoin(p);
    SegmentsNoSlash(p);
    assert Segments(p)[0] == "" && "" + Flat(ss) == Flat(ss);
  }

  lemma AllStay(p: string, ss: seq<string>)
    requires Segments(p) == [""] + ss && ss != [] && forall j :: 0 <= j < |ss| ==> Stays(ss[j], j == |ss| - 1)
    ensures Canonical(p)
  {
    assert Segments(p)[1..|ss|] == ss[..|ss| - 1];
  }

  // One law each, at the place where it applies.

  lemma Behind(a: string, x: string, y: string, b: string, z: string)
    requires z == x + y
    ensures a + x + (y + b) == a + z + b
  {
  }

  lemma StepSlash(f: string -> string, p: string, a: string, b: string)
    requires Lawful(f) && p == a + "/" + ("/" + b) && f(a + "/" + b) == Clean(a + "/" + b)
    ensures f(p) == Clean(p)
  {
    SlashSlash(a, b);
    assert DropsSlash(f, a, b);
    Behind(a, "/", "/", b, "//");
  }

  lemma StepDot(f: string -> string, p: string, a: string, b: string)
    requires Lawful(f) && p == a + "/." + ("/" + b) && f(a + "/" + b) == Clean(a + "/" + b)
    ensures f(p) == Clean(p)
  {
    DotElement(a, b);
    assert DropsDot(f, a, b);
    Behind(a, "/.", "/", b, "/./");
  }

  lemma StepUp(f: string -> string, p: string, a: string, x: string, b: string)
    requires Lawful(f) && Proper(x) && p == a + "/" + x + "/.." + ("/" + b) && f(a + "/" + b) == Clean(a + "/" + b)
    ensures f(p) == Clean(p)
  {
    DotDotElement(a, x, b);
    assert GoesUp(f, a, x, b);
    Behind(a + "/" + x, "/..", "/", b, "/../");
  }

  lemma StepTop(f: string -> string, p: string, b: string)
    requires Lawful(f) && p == "/.." + ("/" + b) && f("/" + b) == Clean("/" + b)
    ensures f(p) == Clean(p)
  {
    DotDotAtRoot(b);
    assert StopsAtRoot(f, b);
    Behind("", "/..", "/", b, "/../");
    assert "" + "/.." == "/.." && "" + "/../" == "/../";
  }

  lemma StepLastDot(f: string -> string, p: string, a: string)
    requires Lawful(f) && p == a + "/." && f(a + "/") == Clean(a + "/")
    ensures f(p) == Clean(p)
  {
    DotAtEnd(a);
    assert EndsInDot(f, a);
  }

  lemma StepLastUp(f: string -> string, p: string, a: string, x: string)
    requires Lawful(f) && Proper(x) && p == a + "/" + x + "/.." && f(a + "/") == Clean(a + "/")
    ensures f(p) == Clean(p)
  {
    DotDotAtEnd(a, x);
    assert EndsGoingUp(f, a, x);
  }

  lemma Fixed(f: string -> string, p: string)
    requires Lawful(f) && Canonical(p)
    ensures f(p) == Clean(p)
  {
    CanonicalFixed(p);
    assert KeepsCanonical(f, p);
  }

  lemma StepRoot(f: string -> string, p: string)
    requires Lawful(f) && p != "" && p[0] != '/' && f("/" + p) == Clean("/" + p)
    ensures f(p) == Clean(p)
  {
    Rooted(p);
    assert AddsRoot(f, p);
  }

  /** Whatever obeys the laws is cleaning. */
  lemma {:induction false} OnlyClean(f: string -> string, p: string)
    requires Lawful(f)
    ensures f(p) == Clean(p)
    decreases 2 * |p| + if p != "" && p[0] == '/' then 0 else 3
  {
    if p == "" {
      NothingAboveRoot();
    } else if p[0] != '/' {
      OnlyClean(f, "/" + p);
      StepRoot(f, p);
    } else {
      var ss := RootedParts(p);
      var i := FirstLoose(ss);
      if i == |ss| {
        AllStay(p, ss);
        Fixed(f, p);
      } else {
        CutAt(ss, i);
        OnlyAt(f, p, ss, i);
      }
    }
  }

  /** The first loose element, and what is before and behind it. */
  lemma {:induction false} OnlyAt(f: string -> string, p: string, ss: seq<string>, i: nat)
    requires Lawful(f) && i < |ss| && p == Flat(ss[..i]) + ("/" + ss[i] + Flat(ss[i + 1..])) && p[0] == '/'
    requires '/' !in ss[i] && !Stays(ss[i], i == |ss| - 1) && (i > 0 ==> Proper(ss[i - 1]))
    ensures f(p) == Clean(p)
    decreases 2 * |p|, 1
  {
    var a, x := Flat(ss[..i]), ss[i];
    var up, y := "", "";
    if i > 0 {
      up, y := Flat(ss[..i - 1]), ss[i - 1];
      assert ss[..i] == ss[..i - 1] + [y];
      FlatSnoc(ss[..i - 1], y);
    }
    if i + 1 < |ss| {
      var b := ss[i + 1] + Flat(ss[i + 2..]);
      assert ss[i + 1..][1..] == ss[i + 2..];
      assert Flat(ss[i + 1..]) == "/" + b;
      OnlyInner(f, p, a, up, y, x, b);
    } else {
      OnlyFinal(f, p, a, up, y, x);
    }
  }

  lemma {:induction false} OnlyInner(f: string -> string, p: string, a: string, up: string, y: string, x: string,
                                     b: string)
    requires Lawful(f) && p == a + ("/" + x + ("/" + b)) && x in {"", ".", ".."} && p[0] == '/'
    requires a == "" || (Proper(y) && a == up + "/" + y)
    ensures f(p) == Clean(p)
    decreases 2 * |p|, 0
  {
    if x == "" {
      OnlyClean(f, a + "/" + b);
      StepSlash(f, p, a, b);
    } else if x == "." {
      OnlyClean(f, a + "/" + b);
      StepDot(f, p, a, b);
    } else if a == "" {
      OnlyClean(f, "/" + b);
      StepTop(f, p, b);
    } else {
      OnlyClean(f, up + "/" + b);
      StepUp(f, p, up, y, b);
    }
  }

  lemma {:induction false} OnlyFinal(f: string -> string, p: string, a: string, up: string, y: string, x: string)
    requires Lawful(f) && p == a + ("/" + x + "") && x in {".", ".."} && p[0] == '/'
    requires a == "" || (Proper(y) && a == up + "/" + y)
    ensures f(p) == Clean(p)
    decreases 2 * |p|, 0
  {
    if x == "." {
      OnlyClean(f, a + "/");
      StepLastDot(f, p, a);
    } else if a == "" {
      assert p == "/..";
      NothingAboveRoot();
    } else {
      OnlyClean(f, up + "/");
      StepLastUp(f, p, up, y);
    }
  }
}
