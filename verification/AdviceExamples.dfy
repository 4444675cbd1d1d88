/** Small routers, one family each, whose recommendations are not what the documentation says. */
module AdviceExamples {
  import opened Bytes
  import opened Pattern
  import opened RadixTree
  import opened Lookup
  import opened RouteTable
  import opened AdviceSlash
  import opened ByteScan

  function H(n: nat): Handle {
    Handle(n, None)
  }

  function Leaf(path: string, nType: NodeType, h: Handle): Trie {
    TrieNode(path, "", false, nType, 1, [], Some(h))
  }

  function Fork(a: string, indices: string, children: seq<Trie>): Trie {
    TrieNode(a, indices, false, Root, |children|, children, None)
  }

  // ----- what a few registrations build

  lemma FirstPlain(p: string, h: Handle)
    requires p != "" && Plain(p)
    ensures AddRoute(Fresh(0), p, h) == Some(Leaf(p, Root, h))
  {
    WildcardNone(p);
  }

  lemma NewPosLast(ts: seq<Trie>, x: Trie)
    requires ts != [] && ts[|ts| - 1].priority == 1 && x.priority == 1
    ensures NewPos(ts + [x], |ts|, 1) == |ts|
  {
  }

  /** A new child with one handle stays behind a sibling with one handle. */
  lemma EdgeStays(n: Trie, rest: string, h: Handle, c: Trie)
    requires rest != "" && |n.indices| == |n.children| && n.children != [] && n.children[|n.children| - 1].priority == 1
    requires InsertChild(Fresh(1), rest, h) == Some(c) && c.priority == 1
    ensures AddEdge(n, rest, h) == Some(n.(indices := n.indices + [rest[0]], children := n.children + [c]))
  {
    var k, bytes, cs := |n.children|, n.indices + [rest[0]], n.children + [c];
    NewPosLast(n.children, c);
    assert cs[k] == c && Promote(cs, k, k) == cs && Promote(bytes, k, k) == bytes;
  }

  lemma PlainEdge(n: Trie, rest: string, h: Handle)
    requires rest != "" && Plain(rest) && |n.indices| == |n.children|
    requires n.children != [] && n.children[|n.children| - 1].priority == 1
    ensures AddEdge(n, rest, h)
            == Some(n.(indices := n.indices + [rest[0]], children := n.children + [Leaf(rest, Static, h)]))
  {
    WildcardNone(rest);
    EdgeStays(n, rest, h, Leaf(rest, Static, h));
  }

  /** A second pattern that parts from the first after `a`. */
  lemma Parts(a: string, p: string, q: string, hp: Handle, hq: Handle)
    requires a != "" && p != "" && q != "" && p[0] != q[0] && Plain(q)
    ensures AddRoute(Leaf(a + p, Root, hp), a + q, hq)
            == Some(Fork(a, [p[0], q[0]], [Leaf(p, Static, hp), Leaf(q, Static, hq)]))
  {
    var t := Leaf(a + p, Root, hp);
    CommonPrefixUnique(a + q, a + p, |a|);
    assert (a + q)[|a|..] == q && (a + p)[..|a|] == a && (a + p)[|a|..] == p;
    var n := Split(t, |a|);
    PlainEdge(n, q, hq);
    assert n.indices + [q[0]] == [p[0], q[0]] && n.children + [Leaf(q, Static, hq)]
        == [Leaf(p, Static, hp), Leaf(q, Static, hq)];
  }

  /** A further plain edge. */
  lemma Joins(a: string, bytes: string, cs: seq<Trie>, q: string, h: Handle)
    requires a != "" && q != "" && Plain(q) && q[0] !in bytes && |bytes| == |cs| && cs != [] &&
        cs[|cs| - 1].priority == 1
    ensures AddRoute(Fork(a, bytes, cs), a + q, h) == Some(Fork(a, bytes + [q[0]], cs + [Leaf(q, Static, h)]))
  {
    StopsHere(a, bytes, cs, q, h);
    PlainEdge(Fork(a, bytes, cs).(priority := |cs| + 1), q, h);
  }

  /** No edge continues: the walk stops at the fork. */
  lemma StopsHere(a: string, bytes: string, cs: seq<Trie>, q: string, h: Handle)
    requires a != "" && q != "" && !IsWild(q[0]) && q[0] !in bytes
    ensures AddRoute(Fork(a, bytes, cs), a + q, h) == AddEdge(Fork(a, bytes, cs).(priority := |cs| + 1), q, h)
  {
    CommonPrefixUnique(a + q, a, |a|);
    assert (a + q)[|a|..] == q;
    var t := Fork(a, bytes, cs);
    assert Next(t, a + q) == Stop(t.(priority := t.priority + 1), q);
  }

  // ----- a slash less that leads nowhere

  function TreeHollow(a: string): Trie {
    Fork(a, ['/', 'z'], [Leaf("/y", Static, H(1)), Leaf("z", Static, H(2))])
  }

  lemma BuildHollow(a: string)
    requires a != "" && Plain(a)
    ensures Build([Route(a + "/y", H(1)), Route(a + "z", H(2))]) == Some(TreeHollow(a))
  {
    var r1, r2 := Route(a + "/y", H(1)), Route(a + "z", H(2));
    BuildFirst(r1);
    FirstPlain(a + "/y", H(1));
    BuildSnoc([r1], r2);
    assert [r1] + [r2] == [r1, r2];
    Parts(a, "/y", "z", H(1), H(2));
  }

  lemma SlashHollow(a: string)
    requires a != ""
    ensures Get(TreeHollow(a), a + "/") == Found(None, [], true)
    ensures !Hits(TreeHollow(a), a) && !Hits(TreeHollow(a), a + "/" + "/")
  {
    var t, c := TreeHollow(a), Leaf("/y", Static, H(1));
    assert (a + "/")[|a|..] == "/" && (a + "/" + "/")[|a|..] == "//";
    assert t.indices[0] == '/' && t.children[0] == c;
    assert Get(t, a + "/") == Get(c, "/") && Get(t, a + "/" + "/") == Get(c, "//");
    assert Get(t, a) == GetHere(t);
  }

  /** With `a/y` and `az`, the path `a/` is sent to `a`, which has no handle. */
  lemma InventsSlash(a: string)
    requires a != "" && Plain(a)
    ensures var o := Build([Route(a + "/y", H(1)), Route(a + "z", H(2))]);
            o.Some? && Get(o.value, a + "/") == Found(None, [], true) && !Documented(o.value, a + "/")
  {
    BuildHollow(a);
    SlashHollow(a);
    assert Short(a + "/") == a;
  }

  /** With any single plain pattern but "/" and "//", the path "/" itself is sent to "//" or to the empty path,
      and there is nothing at either. */
  lemma InventsLoneSlash(a: string)
    requires a != "" && a != "/" && Plain(a)
    ensures var o := Build([Route("/" + a, H(1))]);
            o.Some? && Get(o.value, "/") == Found(None, [], true) && !Documented(o.value, "/")
  {
    var p := "/" + a;
    BuildFirst(Route(p, H(1)));
    FirstPlain(p, H(1));
    var t := Leaf(p, Root, H(1));
    assert p[1..] == a;
    assert "/" + "/" == "//" && Short("/") == "";
    assert p <= "//" ==> p == "//";
    assert "//"[1..] == "/";
    assert !Hits(t, "//") && !Hits(t, "");
  }

  // ----- an extra slash that is not seen

  function CatchPair(): Trie {
    CatchAllPair("/" + "*f", H(3))
  }

  function EmptyEdge(): Trie {
    TrieNode("", "/", false, Static, 1, [CatchPair()], None)
  }

  lemma StarToken(before: string)
    requires Plain(before)
    ensures FindWildcard(before + "*f") == Wildcard(before, "*f", "")
  {
    WildcardUnique(before, "*f", "");
    assert before + "*f" + "" == before + "*f";
  }

  lemma CatchAllEdge()
    ensures InsertChild(Fresh(1), "/" + "*f", H(3)) == Some(EmptyEdge())
  {
    StarToken("/");
    assert "*f"[1..] == "f" && "/"[..0] == "";
  }

  lemma CatchAllFirst(a: string)
    requires a != "" && Plain(a)
    ensures AddRoute(Fresh(0), a + "/" + "*f", H(3)) == Some(Fork(a, "/", [CatchPair()]))
  {
    StarToken(a + "/");
    assert "*f"[1..] == "f" && (a + "/")[..|a|] == a && (a + "/")[|a|] == '/';
  }

  /** A catch-all added below a node that has other edges. */
  lemma CatchAllLate(a: string, bytes: string, cs: seq<Trie>)
    requires a != "" && '/' !in bytes && |bytes| == |cs| && cs != [] && cs[|cs| - 1].priority == 1
    ensures AddRoute(Fork(a, bytes, cs), a + "/" + "*f", H(3)) == Some(Fork(a, bytes + ['/'], cs + [EmptyEdge()]))
  {
    var q := "/" + "*f";
    assert a + "/" + "*f" == a + q;
    StopsHere(a, bytes, cs, q, H(3));
    CatchAllEdge();
    EdgeStays(Fork(a, bytes, cs).(priority := |cs| + 1), q, H(3), EmptyEdge());
  }

  function TreeLate(a: string): Trie {
    Fork(a, ['x', 'y'] + ['/'], [Leaf("x", Static, H(1)), Leaf("y", Static, H(2))] + [EmptyEdge()])
  }

  function TreeEarly(a: string): Trie {
    Fork(a, "/" + ['x'] + ['y'], [CatchPair()] + [Leaf("x", Static, H(1))] + [Leaf("y", Static, H(2))])
  }

  lemma BuildThree(r1: Route, r2: Route, r3: Route, t1: Trie, t2: Trie, t3: Trie)
    requires AddRoute(Fresh(0), r1.pattern, r1.handle) == Some(t1)
    requires AddRoute(t1, r2.pattern, r2.handle) == Some(t2) && AddRoute(t2, r3.pattern, r3.handle) == Some(t3)
    ensures Build([r1, r2, r3]) == Some(t3)
  {
    BuildFirst(r1);
    BuildSnoc([r1], r2);
    BuildSnoc([r1] + [r2], r3);
    assert [r1] + [r2] + [r3] == [r1, r2, r3];
  }

  lemma BuildLate(a: string)
    requires a != "" && Plain(a)
    ensures Build([Route(a + "x", H(1)), Route(a + "y", H(2)), Route(a + "/" + "*f", H(3))]) == Some(TreeLate(a))
  {
    var x, y := Leaf("x", Static, H(1)), Leaf("y", Static, H(2));
    FirstPlain(a + "x", H(1));
    Parts(a, "x", "y", H(1), H(2));
    CatchAllLate(a, ['x', 'y'], [x, y]);
    BuildThree(Route(a + "x", H(1)), Route(a + "y", H(2)), Route(a + "/" + "*f", H(3)),
               Leaf(a + "x", Root, H(1)), Fork(a, ['x', 'y'], [x, y]), TreeLate(a));
  }

  lemma BuildEarly(a: string)
    requires a != "" && Plain(a)
    ensures Build([Route(a + "/" + "*f", H(3)), Route(a + "x", H(1)), Route(a + "y", H(2))]) == Some(TreeEarly(a))
  {
    var x := Leaf("x", Static, H(1));
    CatchAllFirst(a);
    Joins(a, "/", [CatchPair()], "x", H(1));
    Joins(a, "/" + ['x'], [CatchPair()] + [x], "y", H(2));
    BuildThree(Route(a + "/" + "*f", H(3)), Route(a + "x", H(1)), Route(a + "y", H(2)),
               Fork(a, "/", [CatchPair()]), Fork(a, "/" + ['x'], [CatchPair()] + [x]), TreeEarly(a));
  }

  lemma SlashLate(a: string)
    requires a != ""
    ensures Get(TreeLate(a), a) == Found(None, [], false)
    ensures Hits(TreeLate(a), a + "/")
  {
    var t := TreeLate(a);
    assert IndexOf(t.indices, '/') == 2 by {
      assert t.indices[0] == 'x' && t.indices[1] == 'y' && t.indices[2] == '/';
    }
    assert t.children[2] == EmptyEdge() && (a + "/")[|a|..] == "/";
    assert Get(t, a + "/") == Get(EmptyEdge(), "/");
    assert "/"[0..] == "/";
    assert Get(EmptyEdge(), "/") == Get(CatchPair(), "/") == GetWild(CatchPair(), "/");
    assert Get(t, a) == GetHere(t);
  }

  /** `a/` is dispatched, but `a` is sent there only if the catch-all was registered before its siblings. */
  lemma MissesSlash(a: string)
    requires a != "" && Plain(a)
    ensures var o := Build([Route(a + "x", H(1)), Route(a + "y", H(2)), Route(a + "/" + "*f", H(3))]);
            o.Some? && Get(o.value, a) == Found(None, [], false) && Documented(o.value, a)
    ensures var o := Build([Route(a + "/" + "*f", H(3)), Route(a + "x", H(1)), Route(a + "y", H(2))]);
            o.Some? && Get(o.value, a) == Found(None, [], true)
  {
    BuildLate(a);
    BuildEarly(a);
    SlashLate(a);
    var t := TreeEarly(a);
    assert t.indices[0] == '/' && t.children[0] == CatchPair();
    assert Get(t, a) == GetHere(t);
  }

  function TreeParam(a: string): Trie {
    TrieNode(a, "", true, Root, 1, [TrieNode(":x", "", false, Param, 1, [Leaf("/", Static, H(1))], None)], None)
  }

  lemma BuildParam(a: string)
    requires Plain(a) && a != ""
    ensures Build([Route(a + ":x" + "/", H(1))]) == Some(TreeParam(a))
  {
    BuildFirst(Route(a + ":x" + "/", H(1)));
    WildcardUnique(a, ":x", "/");
    WildcardNone("/");
    assert ":x"[1..] == "x" && InsertChild(Fresh(1), "/", H(1)) == Some(Leaf("/", Static, H(1)));
    assert ParamNode(":x", "/", H(1)) == Some(TreeParam(a).children[0]);
  }

  /** With `a:x/` only, where `a` ends in '/': `a/` is dispatched, but `a` is not sent there. */
  lemma MissesEmptyParam(a: string)
    requires Plain(a) && EndsInSlash(a)
    ensures var o := Build([Route(a + ":x" + "/", H(1))]);
            o.Some? && Get(o.value, a) == Found(None, [], false) && Documented(o.value, a)
  {
    BuildParam(a);
    SlashParam(a);
  }

  lemma SlashParam(a: string)
    requires a != ""
    ensures Get(TreeParam(a), a) == Found(None, [], false) && Hits(TreeParam(a), a + "/")
  {
    var t, c := TreeParam(a), Leaf("/", Static, H(1));
    assert Get(t, a) == GetHere(t) && IndexOf(t.indices, '/') == |t.indices|;
    assert (a + "/")[|a|..] == "/" && "/"[0..] == "/" && SegEnd("/") == 0;
    assert Get(t, a + "/") == GetWild(t, "/");
    assert t.children[0].children == [c] && Get(c, "/") == Found(Some(H(1)), [], false);
    assert GetWild(t, "/") == With([Binding(":x"[1..], "/"[..0])], Get(c, "/"));
  }
}
