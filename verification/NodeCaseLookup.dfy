/** The case-insensitive lookup over the heap nodes: a loop that calls itself where both spellings of a
    byte may continue, and writes the corrected path into one buffer. */
module NodeCaseLookup {
  import opened Bytes
  import opened AsciiCase
  import opened RadixTree
  import opened CaseLookup
  import opened ByteScan
  import opened NodeHeap
  import opened WalkSpec

  const STACK_BUF_SIZE := 128

  /** Shifts a rune buffer left by `n` bytes. */
  function ShiftRuneBytes(rb: seq<char>, n: nat): (r: seq<char>)
    requires |rb| == 4
    ensures |r| == 4 && forall i :: 0 <= i < 4 ==> r[i] == if i + n < 4 then rb[i + n] else NO_RUNE
  {
    match n
    case 0 => rb
    case 1 => [rb[1], rb[2], rb[3], NO_RUNE]
    case 2 => [rb[2], rb[3], NO_RUNE, NO_RUNE]
    case 3 => [rb[3], NO_RUNE, NO_RUNE, NO_RUNE]
    case _ => [NO_RUNE, NO_RUNE, NO_RUNE, NO_RUNE]
  }

  /** A rune buffer holding at most one byte. */
  predicate OneByte(rb: seq<char>) {
    |rb| == 4 && rb[1] == NO_RUNE && rb[2] == NO_RUNE && rb[3] == NO_RUNE
  }

  /** The corrected path of a request, if there is one. */
  method FindCaseInsensitivePath(root: Node, path: string, fixTrailingSlash: bool, ghost nodes: set<Node>)
    returns (fixedPath: string, found: bool)
    requires root in nodes && Sound(nodes, {}) && Ok(root.abs) && root.abs.nType != Param && path != "" && Ascii(path)
    ensures var o := FindFold(root.abs, path, NO_RUNE, fixTrailingSlash);
            found == o.Some? && (found ==> fixedPath == o.value)
  {
    var size := if |path| + 1 > STACK_BUF_SIZE then |path| + 1 else STACK_BUF_SIZE;
    var buf := new char[size];
    var w;
    ghost var out;
    found, w, out := FindRec(root, path, buf, 0, [NO_RUNE, NO_RUNE, NO_RUNE, NO_RUNE], fixTrailingSlash, nodes);
    fixedPath := if found then buf[..w] else "";
  }

  /** The search from node `n0` on, appending to the `w0` bytes already written. */
  method FindRec(n0: Node, path0: string, buf: array<char>, w0: nat, rb0: seq<char>, fix: bool, ghost nodes: set<Node>)
    returns (found: bool, w: nat, ghost out: string)
    requires n0 in nodes && Sound(nodes, {}) && Ok(n0.abs)
    requires path0 != "" && Ascii(path0) && OneByte(rb0) && w0 + |path0| < buf.Length
    modifies buf
    ensures w0 <= w <= buf.Length && buf[..w0] == old(buf[..w0]) && buf[w0..w] == out
    ensures FindFold(n0.abs, path0, rb0[0], fix) == if found then Some(out) else None
    decreases n0.abs, 4
  {
    var n, path, rb := n0, path0, rb0;
    w, out := w0, "";
    ghost var goal := FindFold(n0.abs, path0, rb0[0], fix);
    PrependNothing(goal);
    while true
      invariant n in nodes && Ok(n.abs) && path != "" && Ascii(path) && OneByte(rb)
      invariant w0 <= w && w + |path| < buf.Length && buf[..w0] == old(buf[..w0]) && buf[w0..w] == out
      invariant goal == Prepend(out, FindFold(n.abs, path, rb[0], fix))
      invariant n == n0 || n.abs < n0.abs
      decreases n.abs
    {
      var progress, m, rest;
      ghost var was, more := buf[..w], "";
      assert was[..w0] == old(buf[..w0]) && was[w0..] == out;
      progress, m, rest, w, rb, more := Round(n, path, buf, w, rb, fix, nodes);
      Grows(buf, was, w0, w);
      if progress != More {
        return progress == Done, w, out + more;
      }
      PrependTwice(out, more, FindFold(m.abs, rest, rb[0], fix));
      n, path, out := m, rest, out + more;
    }
  }

  /** What was written before stays in front of what is written now. */
  lemma Grows(buf: array<char>, was: string, w0: nat, w: nat)
    requires w0 <= |was| <= w <= buf.Length && buf[..|was|] == was
    ensures buf[..w0] == was[..w0] && buf[w0..w] == was[w0..] + buf[|was|..w]
  {
  }

  lemma PrependNothing(o: Option<string>)
    ensures Prepend("", o) == o
  {
    if o.Some? {
      assert "" + o.value == o.value;
    }
  }

  lemma PrependTwice(a: string, b: string, o: Option<string>)
    ensures Prepend(a, Prepend(b, o)) == Prepend(a + b, o)
  {
    if o.Some? {
      assert a + (b + o.value) == a + b + o.value;
    }
  }

  /** One round of the loop. */
  method Round(n: Node, path: string, buf: array<char>, w0: nat, rb0: seq<char>, fix: bool, ghost nodes: set<Node>)
    returns (progress: Progress, m: Node, rest: string, w: nat, rb: seq<char>, ghost out: string)
    requires n in nodes && Sound(nodes, {}) && Ok(n.abs)
    requires path != "" && Ascii(path) && OneByte(rb0) && w0 + |path| < buf.Length
    modifies buf
    ensures w0 <= w <= buf.Length && buf[..w0] == old(buf[..w0]) && buf[w0..w] == out
    ensures progress != More ==> FindFold(n.abs, path, rb0[0], fix) == if progress == Done then Some(out) else None
    ensures progress == More ==>
              && m in nodes && m.abs < n.abs && Ok(m.abs)
              && rest != "" && Ascii(rest) && OneByte(rb) && w + |rest| < buf.Length
              && FindFold(n.abs, path, rb0[0], fix) == Prepend(out, FindFold(m.abs, rest, rb[0], fix))
    decreases n.abs, 3
  {
    assert n.Is(n.abs);
    m, rest, w, rb := n, path, w0, rb0;
    if |path| < |n.path| || (n.path != "" && !EqualFold(path[1..|n.path|], n.path[1..])) {
      progress, w, out := Miss(n, path, buf, w0, fix);
      return;
    }
    rest := path[|n.path|..];
    w := Append(buf, w0, n.path);
    ghost var was := buf[..w];
    assert was[..w0] == old(buf[..w0]) && was[w0..] == n.path;
    if rest == "" {
      progress, w, out := AtEnd(n, buf, w, fix, nodes);
    } else if n.wildChild {
      progress, m, rest, w, out := RoundWild(n, rest, buf, w, rb0, fix, nodes);
    } else {
      progress, m, w, rb, out := RoundEdges(n, rest, buf, w, rb0, fix, nodes);
    }
    Grows(buf, was, w0, w);
    if progress == More {
      PrependTwice(n.path, out, FindFold(m.abs, rest, rb[0], fix));
    }
    out := n.path + out;
  }

  /** The round that chooses an edge: an unfinished rune, or both spellings of the next byte. */
  method RoundEdges(n: Node, rest: string, buf: array<char>, w0: nat, rb0: seq<char>, fix: bool, ghost nodes: set<Node>)
    returns (progress: Progress, m: Node, w: nat, rb: seq<char>, ghost out: string)
    requires n in nodes && Sound(nodes, {}) && Ok(n.abs) && !n.abs.wildChild
    requires rest != "" && Ascii(rest) && OneByte(rb0) && w0 + |rest| < buf.Length
    modifies buf
    ensures w0 <= w <= buf.Length && buf[..w0] == old(buf[..w0]) && buf[w0..w] == out
    ensures progress != More ==>
              FoldEdges(n.abs, rest, if n.abs.path == "" then rb0[0] else NO_RUNE, fix)
              == if progress == Done then Some(out) else None
    ensures progress == More ==>
              && m in nodes && m.abs < n.abs && Ok(m.abs) && OneByte(rb) && w == w0
              && FoldEdges(n.abs, rest, if n.abs.path == "" then rb0[0] else NO_RUNE, fix)
                 == Prepend(out, FindFold(m.abs, rest, rb[0], fix))
    decreases n.abs, 2
  {
    assert n.Is(n.abs);
    m, w, rb, out := n, w0, ShiftRuneBytes(rb0, |n.path|), "";
    if rb[0] == NO_RUNE {
      progress, m, w, rb, out := RoundNewRune(n, rest, buf, w0, rb, fix, nodes);
      return;
    }
    var k := IndexByte(n.indices, rb[0]);
    if k < |n.indices| {
      m := n.children[k];
      PrependNothing(FindFold(m.abs, rest, rb[0], fix));
      return More, m, w, rb, out;
    }
    progress := if fix && rest == "/" && n.handle != None then Done else Failed;
  }

  /** Both spellings of the next byte: the lower-case one is searched first, on its own. */
  method RoundNewRune(n: Node, rest: string, buf: array<char>, w0: nat, rb0: seq<char>, fix: bool,
      ghost nodes: set<Node>)
    returns (progress: Progress, m: Node, w: nat, rb: seq<char>, ghost out: string)
    requires n in nodes && Sound(nodes, {}) && Ok(n.abs) && !n.abs.wildChild
    requires rest != "" && Ascii(rest) && OneByte(rb0) && w0 + |rest| < buf.Length
    modifies buf
    ensures w0 <= w <= buf.Length && buf[..w0] == old(buf[..w0]) && buf[w0..w] == out
    ensures progress != More ==>
              FoldEdges(n.abs, rest, NO_RUNE, fix) == if progress == Done then Some(out) else None
    ensures progress == More ==>
              && m in nodes && m.abs < n.abs && Ok(m.abs) && OneByte(rb) && w == w0
              && FoldEdges(n.abs, rest, NO_RUNE, fix) == Prepend(out, FindFold(m.abs, rest, rb[0], fix))
    decreases n.abs, 1
  {
    assert n.Is(n.abs);
    var rv := if n.path == "" then NO_RUNE else rest[0];
    var lo := Lower(rv);
    m, w, rb, out := n, w0, rb0[0 := lo], "";
    var found;
    found, w, out := SearchEdge(n, rest, buf, w0, rb, fix, nodes);
    if found {
      return Done, m, w, rb, out;
    }
    w, out := w0, "";
    var up := Upper(rv);
    if up != lo {
      rb := rb[0 := up];
      var j := IndexByte(n.indices, rb[0]);
      if j < |n.indices| {
        m := n.children[j];
        PrependNothing(FindFold(m.abs, rest, rb[0], fix));
        return More, m, w, rb, out;
      }
    }
    progress := if fix && rest == "/" && n.handle != None then Done else Failed;
  }

  /** The search below the edge for the byte in `rb`. What it writes when it fails is dropped. */
  method SearchEdge(n: Node, rest: string, buf: array<char>, w0: nat, rb: seq<char>, fix: bool, ghost nodes: set<Node>)
    returns (found: bool, w: nat, ghost out: string)
    requires n in nodes && Sound(nodes, {}) && Ok(n.abs) && !n.abs.wildChild
    requires rest != "" && Ascii(rest) && OneByte(rb) && w0 + |rest| < buf.Length
    modifies buf
    ensures w0 <= w <= buf.Length && buf[..w0] == old(buf[..w0]) && buf[w0..w] == out
    ensures var k := IndexOf(n.abs.indices, rb[0]);
            (if k < |n.abs.indices| then FoldEdge(n.abs, k, rest, rb[0], fix) else None) == if found
                then Some(out) else None
    decreases n.abs, 0
  {
    assert n.Is(n.abs);
    found, w, out := false, w0, "";
    var k := IndexByte(n.indices, rb[0]);
    if k < |n.indices| {
      found, w, out := FindRec(n.children[k], rest, buf, w0, rb, fix, nodes);
    }
  }

  /** The round that meets a wildcard: its value is copied as it is. */
  method RoundWild(n: Node, path: string, buf: array<char>, w0: nat, rb: seq<char>, fix: bool, ghost nodes: set<Node>)
    returns (progress: Progress, m: Node, rest: string, w: nat, ghost out: string)
    requires n in nodes && Sound(nodes, {}) && Ok(n.abs) && n.abs.wildChild
    requires path != "" && Ascii(path) && |rb| == 4 && w0 + |path| < buf.Length
    modifies buf
    ensures w0 <= w <= buf.Length && buf[..w0] == old(buf[..w0]) && buf[w0..w] == out
    ensures progress != More ==> FoldWild(n.abs, path, rb[0], fix) == if progress == Done then Some(out) else None
    ensures progress == More ==>
              && m in nodes && m.abs < n.abs && Ok(m.abs)
              && rest != "" && Ascii(rest) && w + |rest| < buf.Length
              && FoldWild(n.abs, path, rb[0], fix) == Prepend(out, FindFold(m.abs, rest, rb[0], fix))
  {
    assert n.Is(n.abs);
    m, rest := n.children[0], path;
    assert m.Is(m.abs) && Ok(n.abs.children[0]);
    if m.nType == CatchAll {
      w := Append(buf, w0, path);
      return Done, m, rest, w, path;
    }
    progress, m, rest, w, out := RoundParam(n, m, path, buf, w0, rb, fix, nodes);
  }

  /** A parameter: its value is copied, and the walk goes on below it if there is more. */
  method RoundParam(n: Node, c: Node, path: string, buf: array<char>, w0: nat, rb: seq<char>, fix: bool,
                    ghost nodes: set<Node>)
    returns (progress: Progress, m: Node, rest: string, w: nat, ghost out: string)
    requires n in nodes && c in nodes && Sound(nodes, {}) && Ok(n.abs) && n.abs.wildChild
    requires c.abs == n.abs.children[0] && c.abs.nType == Param
    requires path != "" && Ascii(path) && |rb| == 4 && w0 + |path| < buf.Length
    modifies buf
    ensures w0 <= w <= buf.Length && buf[..w0] == old(buf[..w0]) && buf[w0..w] == out
    ensures progress != More ==> FoldWild(n.abs, path, rb[0], fix) == if progress == Done then Some(out) else None
    ensures progress == More ==>
              && m in nodes && m.abs < n.abs && Ok(m.abs)
              && rest != "" && Ascii(rest) && w + |rest| < buf.Length
              && FoldWild(n.abs, path, rb[0], fix) == Prepend(out, FindFold(m.abs, rest, rb[0], fix))
  {
    m, rest := c, path;
    assert c.Is(c.abs) && Ok(c.abs);
    var end := IndexSlash(path);
    w := Append(buf, w0, path[..end]);
    out := path[..end];
    assert out + "" == out;
    if end < |path| {
      if |c.children| > 0 {
        return More, c.children[0], path[end..], w, out;
      }
      return if fix && |path| == end + 1 then Done else Failed, m, rest, w, out;
    }
    ghost var more;
    progress, w, more := ParamLast(c, buf, w0, w, fix, nodes);
    return progress, m, rest, w, out + more;
  }

  /** The path ends with the value of a parameter, which was written from `start` on. */
  method ParamLast(c: Node, buf: array<char>, ghost start: nat, w0: nat, fix: bool, ghost nodes: set<Node>)
    returns (progress: Progress, w: nat, ghost out: string)
    requires c in nodes && Sound(nodes, {}) && start <= w0 < buf.Length
    modifies buf
    ensures w0 <= w <= buf.Length && buf[..start] == old(buf[..start]) && buf[start..w] == old(buf[start..w0]) + out
    ensures if c.abs.handle.Some? then progress == Done && out == ""
            else
              && var slash := |c.abs.children| == 1 && c.abs.children[0].path == "/" && c.abs.children[0].handle.Some?;
              && progress == (if fix && slash then Done else Failed) && (progress == Done ==> out == "/")
  {
    assert c.Is(c.abs);
    if c.handle != None {
      return Done, w0, "";
    }
    var more;
    ghost var was := buf[..w0];
    more, w := ParamEnds(c, buf, w0, fix, nodes);
    Grows(buf, was, start, w);
    return if more then Done else Failed, w, if more then "/" else "";
  }

  /** The path ends with a parameter that has no handle: a '/' may be added. */
  method ParamEnds(m: Node, buf: array<char>, w0: nat, fix: bool, ghost nodes: set<Node>) returns (more: bool, w: nat)
    requires m in nodes && Sound(nodes, {}) && w0 < buf.Length
    modifies buf
    ensures more <==> fix && |m.abs.children| == 1 && m.abs.children[0].path == "/" && m.abs.children[0].handle.Some?
    ensures w0 <= w <= buf.Length && buf[..w0] == old(buf[..w0]) && buf[w0..w] == if more then "/" else ""
  {
    assert m.Is(m.abs);
    more, w := false, w0;
    if fix && |m.children| == 1 {
      var c := m.children[0];
      assert c.Is(c.abs);
      if c.path == "/" && c.handle != None {
        buf[w] := '/';
        return true, w + 1;
      }
    }
  }

  /** The path ends at this node. */
  method AtEnd(n: Node, buf: array<char>, w0: nat, fix: bool, ghost nodes: set<Node>)
    returns (progress: Progress, w: nat, ghost out: string)
    requires n in nodes && Sound(nodes, {}) && Ok(n.abs) && w0 < buf.Length
    modifies buf
    ensures w0 <= w <= buf.Length && buf[..w0] == old(buf[..w0]) && buf[w0..w] == out
    ensures FoldEnd(n.abs, fix) == if progress == Done then Some(out) else None
    ensures progress != More
  {
    assert n.Is(n.abs);
    w, out := w0, "";
    if n.handle != None {
      return Done, w, out;
    }
    if fix {
      var more := SlashSeen(n, nodes);
      if more {
        buf[w] := '/';
        return Done, w + 1, "/";
      }
    }
    progress := Failed;
  }

  /** Whether a '/' more leads from here to a handle. */
  method SlashSeen(n: Node, ghost nodes: set<Node>) returns (more: bool)
    requires n in nodes && Sound(nodes, {}) && Ok(n.abs) && n.abs.handle.None?
    ensures FoldEnd(n.abs, true) == if more then Some("/") else None
  {
    assert n.Is(n.abs);
    var k := IndexByte(n.indices, '/');
    if k == |n.indices| {
      return false;
    }
    var c := n.children[k];
    assert c.Is(c.abs);
    if |c.path| == 1 && c.handle != None {
      return true;
    }
    if c.nType == CatchAll {
      assert Ok(c.abs) && c.children != [];
      var leaf := c.children[0];
      assert leaf.Is(leaf.abs);
      return leaf.handle != None;
    }
    return false;
  }

  /** The path leaves the tree at this node: a '/' may be added or removed. */
  method Miss(n: Node, path: string, buf: array<char>, w0: nat, fix: bool)
    returns (progress: Progress, w: nat, ghost out: string)
    requires n.Is(n.abs) && path != "" && w0 + |path| < buf.Length
    modifies buf
    ensures w0 <= w <= buf.Length && buf[..w0] == old(buf[..w0]) && buf[w0..w] == out
    ensures (if fix then FoldMiss(n.abs, path) else None) == if progress == Done then Some(out) else None
    ensures progress != More
  {
    w, out := w0, "";
    if fix {
      if path == "/" {
        return Done, w, out;
      }
      if |path| + 1 == |n.path| && n.path[|path|] == '/' && EqualFold(path[1..], n.path[1..|path|]) &&
          n.handle != None {
        w := Append(buf, w0, n.path);
        return Done, w, n.path;
      }
    }
    progress := Failed;
  }

  /** Appends `s` within the capacity of the buffer. */
  method Append(buf: array<char>, w0: nat, s: string) returns (w: nat)
    requires w0 + |s| <= buf.Length
    modifies buf
    ensures w == w0 + |s| && buf[..w0] == old(buf[..w0]) && buf[w0..w] == s
  {
    w := w0;
    while w < w0 + |s|
      invariant w0 <= w <= w0 + |s| && buf[..w0] == old(buf[..w0]) && buf[w0..w] == s[..w - w0]
    {
      buf[w] := s[w - w0];
      w := w + 1;
    }
  }
}
