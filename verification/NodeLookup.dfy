/** The exact lookup over the heap nodes: one loop that rebinds the node and the rest of the path, and
    writes the wildcard values into a buffer of fixed capacity. */
module NodeLookup {
  import opened Bytes
  import opened Pattern
  import opened RadixTree
  import opened Lookup
  import opened Capacity
  import opened ByteScan
  import opened NodeHeap

  lemma WithNothing(r: Result)
    ensures With([], r) == r
  {
  }

  lemma WithTwice(a: seq<Binding>, b: seq<Binding>, r: Result)
    ensures With(a, With(b, r)) == With(a + b, r)
  {
    if r.Found? {
      assert a + (b + r.params) == a + b + r.params;
    }
  }

  /** A sound subtree, and a rest of the path that may arrive there. */
  ghost predicate Standing(t: Trie, s: string) {
    Ok(t) && Reaches(t, s)
  }

  /** Looks `path0` up below `root`. Without a buffer, values are not saved; with one, the first `used`
      entries are the bindings. No expansion leaves the capacity, not even on a lookup that fails. */
  method GetValue(root: Node, path0: string, params: array?<Binding>, ghost nodes: set<Node>)
    returns (handle: Option<Handle>, used: nat, tsr: bool)
    requires root in nodes && Sound(nodes, {}) && Ok(root.abs) && Reaches(root.abs, path0)
    requires params != null ==> WithinCount(root.abs, params.Length)
    modifies params
    ensures var r := Get(root.abs, path0);
            && r.Found? && r.handle == handle && r.tsr == tsr
            && (params != null ==> used <= params.Length && params[..used] == r.params)
  {
    var n, path := root, path0;
    used := 0;
    GetSafe(root.abs, path0);
    ghost var goal, saved: seq<Binding> := Get(root.abs, path0), [];
    WithNothing(goal);
    if params != null {
      ParamsFit(root.abs, path0, params.Length);
    }
    while true
      invariant n in nodes && Standing(n.abs, path)
      invariant goal == With(saved, Get(n.abs, path)) && Get(n.abs, path).Found?
      invariant used == |saved| && (params != null ==> used <= params.Length && params[..used] == saved)
      decreases n.abs
    {
      var more, m, rest;
      ghost var bs;
      more, m, rest, handle, used, tsr, bs := Round(n, path, params, used, nodes);
      if !more {
        return;
      }
      WithTwice(saved, bs, Get(m.abs, rest));
      saved := saved + bs;
      n, path := m, rest;
    }
  }

  /** One round of the walk: either it decides the lookup, or it goes on at `m` with `rest`. The
      bindings `bs` are saved on the way. */
  method Round(n: Node, path0: string, params: array?<Binding>, used0: nat, ghost nodes: set<Node>)
    returns (more: bool, m: Node, rest: string, handle: Option<Handle>, used: nat, tsr: bool, ghost bs: seq<Binding>)
    requires n in nodes && Sound(nodes, {}) && Standing(n.abs, path0) && Get(n.abs, path0).Found?
    requires params != null ==> used0 + |Get(n.abs, path0).params| <= params.Length
    modifies params
    ensures used == used0 + |bs|
    ensures params != null ==> used <= params.Length && params[..used] == old(params[..used0]) + bs
    ensures !more ==> Get(n.abs, path0) == Found(handle, bs, tsr)
    ensures more ==> m in nodes && m.abs < n.abs && Standing(m.abs, rest)
                     && Get(n.abs, path0) == With(bs, Get(m.abs, rest))
  {
    m, handle, used, tsr, bs := n, None, used0, false, [];
    assert n.Is(n.abs);
    var prefix := n.path;
    if |path0| > |prefix| && prefix <= path0 {
      rest := path0[|prefix|..];
      if n.wildChild {
        more, m, rest, handle, used, tsr, bs := RoundWild(n, rest, params, used0, nodes);
        return;
      }
      more, m, tsr := RoundEdge(n, rest, nodes);
      return more, m, rest, handle, used, tsr, bs;
    }
    handle, tsr := StopHere(n, path0, nodes);
    return false, m, path0, handle, used, tsr, bs;
  }

  /** No longer path than the node's own, or another one. */
  method StopHere(n: Node, path: string, ghost nodes: set<Node>) returns (handle: Option<Handle>, tsr: bool)
    requires n in nodes && Sound(nodes, {}) && Ok(n.abs) && !(|path| > |n.abs.path| && n.abs.path <= path)
    ensures Get(n.abs, path) == Found(handle, [], tsr)
  {
    assert n.Is(n.abs);
    if path == n.path {
      tsr := EndsHere(n, path, nodes);
      return n.handle, tsr;
    }
    tsr := LeavesHere(n, path);
    return None, tsr;
  }

  /** The path leaves the tree at this node: whether that is for want of a '/' only. */
  method LeavesHere(n: Node, path: string) returns (tsr: bool)
    requires n.Is(n.abs)
    ensures tsr <==> MissAdvice(n.abs, path)
  {
    var prefix := n.path;
    tsr := path == "/" || (|prefix| == |path| + 1 && prefix[|path|] == '/' && path == prefix[..|prefix| - 1]
                           && n.handle != None);
  }

  /** The round that looks for an edge. */
  method RoundEdge(n: Node, rest: string, ghost nodes: set<Node>) returns (more: bool, m: Node, tsr: bool)
    requires n in nodes && Sound(nodes, {}) && Ok(n.abs)
    requires n.abs.nType in {Static, Root} && !n.abs.wildChild && rest != ""
    ensures var k := IndexOf(n.abs.indices, rest[0]);
            && more == (k < |n.abs.indices|) && (!more ==> tsr == (rest == "/" && n.abs.handle.Some?))
            && (more ==> k < |n.abs.children| && m in nodes && m.abs == n.abs.children[k] && Standing(m.abs, rest))
  {
    assert n.Is(n.abs);
    m, tsr := n, false;
    var k := IndexByte(n.indices, rest[0]);
    if k < |n.indices| {
      m := n.children[k];
      assert IsEdge(m.abs, rest[0]);
      return true, m, tsr;
    }
    return false, m, rest == "/" && n.handle != None;
  }

  /** The round that meets a wildcard below `n`. */
  method RoundWild(n: Node, path: string, params: array?<Binding>, used0: nat, ghost nodes: set<Node>)
    returns (more: bool, m: Node, rest: string, handle: Option<Handle>, used: nat, tsr: bool, ghost bs: seq<Binding>)
    requires n in nodes && Sound(nodes, {}) && Ok(n.abs) && n.abs.wildChild && path != "" && GetWild(n.abs, path).Found?
    requires n.abs.nType == CatchAll ==> n.abs.path == ""
    requires params != null ==> used0 + |GetWild(n.abs, path).params| <= params.Length
    modifies params
    ensures used == used0 + |bs|
    ensures params != null ==> used <= params.Length && params[..used] == old(params[..used0]) + bs
    ensures !more ==> GetWild(n.abs, path) == Found(handle, bs, tsr)
    ensures more ==> m in nodes && m.abs < n.abs && Standing(m.abs, rest)
                     && GetWild(n.abs, path) == With(bs, Get(m.abs, rest))
  {
    assert n.Is(n.abs);
    m, rest, handle, tsr := n.children[0], path, None, false;
    assert m.Is(m.abs);
    if m.nType == CatchAll {
      used := Save(params, used0, Binding(m.path[2..], path));
      bs := [Binding(m.path[2..], path)];
      return false, m, rest, m.handle, used, tsr, bs;
    }
    var end := IndexSlash(path);
    used := Save(params, used0, Binding(m.path[1..], path[..end]));
    bs := [Binding(m.path[1..], path[..end])];
    if end < |path| {
      if |m.children| > 0 {
        rest := path[end..];
        m := m.children[0];
        return true, m, rest, handle, used, tsr, bs;
      }
      return false, m, rest, handle, used, |path| == end + 1, bs;
    }
    if m.handle != None {
      return false, m, rest, m.handle, used, false, bs;
    }
    if |m.children| == 1 {
      m := m.children[0];
      assert m.Is(m.abs);
      tsr := (m.path == "/" && m.handle != None) || (m.path == "" && m.indices == "/");
    }
    more := false;
  }

  /** Saves one value, within the capacity of the buffer. */
  method Save(params: array?<Binding>, used0: nat, b: Binding) returns (used: nat)
    requires params != null ==> used0 < params.Length
    modifies params
    ensures used == used0 + 1
    ensures params != null ==> params[..used] == old(params[..used0]) + [b]
  {
    if params != null {
      params[used0] := b;
    }
    used := used0 + 1;
  }

  /** The path ends at this node: whether a '/' more would find something. */
  method EndsHere(n: Node, path: string, ghost nodes: set<Node>) returns (tsr: bool)
    requires n in nodes && Sound(nodes, {}) && Ok(n.abs) && path == n.abs.path
    ensures GetHere(n.abs) == Found(n.handle, [], tsr)
  {
    assert n.Is(n.abs);
    if n.handle != None {
      return false;
    }
    if path == "/" && n.wildChild && n.nType != Root {
      return true;
    }
    if path == "/" && n.nType == Static {
      return true;
    }
    var k := IndexByte(n.indices, '/');
    if k == |n.indices| {
      return false;
    }
    var c := n.children[k];
    assert c.Is(c.abs);
    if |c.path| == 1 && c.handle != None {
      return true;
    }
    if c.nType == CatchAll {
      var leaf := c.children[0];
      assert leaf.Is(leaf.abs);
      return leaf.handle != None;
    }
    return false;
  }
}
