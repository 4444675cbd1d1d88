/** Patterns that the exact lookup dispatches and the case-insensitive lookup never finds. */
module CaseExamples {
  import opened Bytes
  import opened Pattern
  import opened RadixTree
  import opened Lookup
  import opened RouteTable
  import opened CaseLookup
  import opened ByteScan
  import opened AdviceExamples

  function TreeRoot(): Trie {
    TrieNode("", "/", false, Root, 1, [CatchAllPair("/" + "*f", H(1))], None)
  }

  lemma FirstCatchAll(r: Route)
    requires r == Route("/" + "*f", H(1))
    ensures AddRoute(Fresh(0), r.pattern, r.handle) == Some(TreeRoot())
  {
    StarToken("/");
    assert "*f"[1..] == "f" && "/"[..0] == "";
  }

  lemma BuildRoot()
    ensures Build([Route("/" + "*f", H(1))]) == Some(TreeRoot()) && RootOk(TreeRoot())
  {
    var r := Route("/" + "*f", H(1));
    BuildFirst(r);
    FirstCatchAll(r);
    BuildSpec([r]);
  }

  /** A catch-all at the root leaves the root with an empty path. */
  lemma RootCatchAll(s: string, fix: bool)
    requires StartsWith(s, '/')
    ensures var o := Build([Route("/" + "*f", H(1))]);
            o.Some? && o.value.path == "" && Hits(o.value, s) && FindFold(o.value, s, NO_RUNE, fix).None?
  {
    BuildRoot();
    RootCatchAllUnfound(TreeRoot(), s, fix);
  }

  function TreeBare(): Trie {
    TrieNode("/", "", true, Root, 1, [TrieNode(":x", "", false, Param, 1, [EmptyEdge()], None)], None)
  }

  lemma BuildBare()
    ensures Build([Route("/" + ":x" + ("/" + "*f"), H(3))]) == Some(TreeBare())
  {
    var r := Route("/" + ":x" + ("/" + "*f"), H(3));
    BuildFirst(r);
    FirstBare(r);
  }

  lemma FirstBare(r: Route)
    requires r == Route("/" + ":x" + ("/" + "*f"), H(3))
    ensures AddRoute(Fresh(0), r.pattern, r.handle) == Some(TreeBare())
  {
    WildcardUnique("/", ":x", "/" + "*f");
    CatchAllEdge();
    assert ":x"[1..] == "x" && ParamNode(":x", "/" + "*f", H(3)) == Some(TreeBare().children[0]);
  }

  /** A catch-all straight after a parameter: dispatched, whatever the values, and never found. */
  lemma BareAfterParam(v: string, w: string, fix: bool)
    requires '/' !in v && StartsWith(w, '/')
    ensures var o := Build([Route("/" + ":x" + ("/" + "*f"), H(3))]);
            o.Some? && Hits(o.value, "/" + (v + w)) && FindFold(o.value, "/" + (v + w), NO_RUNE, fix).None?
  {
    BuildBare();
    var t, s, d := TreeBare(), "/" + (v + w), EmptyEdge();
    assert s[1..] == v + w;
    ValueEnd(v, w);
    EmptyEdgeDispatches(w, fix);
    assert t.children[0].children == [d];
    assert Get(t, s) == GetWild(t, v + w) == With([Binding(":x"[1..], v)], Get(d, w));
    assert FoldWild(t, v + w, NO_RUNE, fix).None?;
  }

  lemma EmptyEdgeDispatches(w: string, fix: bool)
    requires StartsWith(w, '/')
    ensures Hits(EmptyEdge(), w) && FindFold(EmptyEdge(), w, NO_RUNE, fix).None?
  {
    var d, c := EmptyEdge(), CatchPair();
    assert w[0..] == w && d.children == [c] && IndexOf(d.indices, NO_RUNE) == 1;
    assert Get(d, w) == Get(c, w) == GetWild(c, w);
    assert FoldEdges(d, w, NO_RUNE, fix) == FoldStop(d, w, fix);
  }
}
