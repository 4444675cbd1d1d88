/** The radix tree of one request method, as a value: its nodes, the structural invariant, the
    patterns it holds, and registration as a function. Class `Node` computes the same on the heap. */
module RadixTree {
  import opened Bytes
  import opened Pattern

  /** A registered handler, never nil: opaque, and perhaps wrapped to pass on the route it was registered for. */
  datatype Handle = Handle(id: nat, savedRoute: Option<string>)

  datatype NodeType = Static | Root | Param | CatchAll

  datatype Trie = TrieNode(
    path: string,
    indices: string,
    wildChild: bool,
    nType: NodeType,
    priority: nat,
    children: seq<Trie>,
    handle: Option<Handle>)

  function Fresh(priority: nat): Trie {
    TrieNode("", "", false, Static, priority, [], None)
  }

  // ----- the structural invariant

  /** `c` is what a static node or a parameter stores for the next byte `b`. A static child with
      an empty path only ever leads to a catch-all. */
  predicate IsEdge(c: Trie, b: char) {
    match c.nType
    case Static => if c.path == "" then b == '/' else c.path[0] == b
    case CatchAll => c.path == "" && b == '/'
    case _ => false
  }

  predicate StaticLocal(t: Trie) {
    && Plain(t.path)
    && (if t.wildChild then
          t.path != "" && t.indices == "" && |t.children| == 1 && t.children[0].nType == Param
        else
          && |t.indices| == |t.children| && Distinct(t.indices) && Plain(t.indices)
          && forall k :: 0 <= k < |t.children| ==> IsEdge(t.children[k], t.indices[k]))
    && (t.path == "" ==>
          !t.wildChild && t.indices == "/" && t.children[0].nType == CatchAll && t.handle.None?)
  }

  predicate ParamLocal(t: Trie) {
    && StartsWith(t.path, ':') && IsName(t.path[1..]) && !t.wildChild
    && |t.children| <= 1
    && (t.indices == "" || (t.indices == "/" && |t.children| == 1))
    && (|t.children| == 1 ==> t.children[0].nType == Static && IsEdge(t.children[0], '/'))
  }

  /** A catch-all is two nodes: an empty one, and the one with the variable and the handle. */
  predicate CatchAllLocal(t: Trie) {
    && t.indices == ""
    && if t.path == "" then
         && t.wildChild && t.handle.None? && |t.children| == 1
         && t.children[0].nType == CatchAll && t.children[0].path != ""
       else
         IsCatchAll(t.path) && IsName(t.path[2..]) && !t.wildChild && t.children == []
  }

  /** The part a node plays, read off the node and the look of its children. */
  datatype Role = Inner | Parameter | Catcher | Broken

  function RoleOf(t: Trie): Role {
    if t.children == [] && t.handle.None? then Broken
    else
      match t.nType
      case Param => if ParamLocal(t) then Parameter else Broken
      case CatchAll => if CatchAllLocal(t) then Catcher else Broken
      case _ => if StaticLocal(t) then Inner else Broken
  }

  /** No node is broken; in particular every leaf carries a handle. */
  ghost predicate Ok(t: Trie) {
    RoleOf(t) != Broken && forall k :: 0 <= k < |t.children| ==> Ok(t.children[k])
  }

  /** A method's tree once something is registered: every pattern starts with '/'. */
  ghost predicate RootOk(t: Trie) {
    Ok(t) && t.nType == Root && (t.path == "" || t.path[0] == '/')
  }

  // ----- what a tree holds

  datatype Route = Route(pattern: string, handle: Handle)

  /** The registered routes: each handle under the concatenation of the paths leading to it. */
  ghost function Routes(t: Trie): set<Route>
    decreases t, 0
  {
    OwnRoute(t) + Prefixed(t.path, RoutesOf(t.children))
  }

  ghost function RoutesOf(ts: seq<Trie>): set<Route>
    decreases ts, 1
  {
    set k, r | 0 <= k < |ts| && r in Routes(ts[k]) :: r
  }

  function OwnRoute(t: Trie): set<Route> {
    if t.handle.Some? then {Route(t.path, t.handle.value)} else {}
  }

  ghost function Prefixed(a: string, rs: set<Route>): set<Route> {
    set r | r in rs :: Route(a + r.pattern, r.handle)
  }

  // ----- priorities

  function Count(t: Trie): nat
    decreases t, 0
  {
    (if t.handle.Some? then 1 else 0) + CountAll(t.children)
  }

  function CountAll(ts: seq<Trie>): nat
    decreases ts, 1
  {
    if ts == [] then 0 else Count(ts[0]) + CountAll(ts[1..])
  }

  predicate SortedByPriority(ts: seq<Trie>) {
    forall i, j :: 0 <= i < j < |ts| ==> ts[i].priority >= ts[j].priority
  }

  /** Every node counts the handles below it, and busy siblings come first. */
  ghost predicate PrioritiesOk(t: Trie) {
    && t.priority == Count(t) && SortedByPriority(t.children)
    && forall k :: 0 <= k < |t.children| ==> PrioritiesOk(t.children[k])
  }

  // ----- reordering

  /** Element `from` moved to the earlier position `to`: where position `j` of the result came from. */
  function Source(j: nat, from: nat, to: nat): nat {
    if j == to then from else if to < j <= from then j - 1 else j
  }

  function Promote<T>(s: seq<T>, from: nat, to: nat): (r: seq<T>)
    requires to <= from < |s|
    ensures |r| == |s|
    ensures forall j :: 0 <= j < |s| ==> r[j] == s[Source(j, from, to)]
  {
    seq(|s|, j requires 0 <= j < |s| => s[Source(j, from, to)])
  }

  /** Where a child whose priority became `priority` ends up. */
  function NewPos(ts: seq<Trie>, k: nat, priority: nat): (to: nat)
    requires k < |ts|
    ensures to <= k
    ensures forall j :: to <= j < k ==> ts[j].priority < priority
    ensures to > 0 ==> ts[to - 1].priority >= priority
  {
    if k > 0 && ts[k - 1].priority < priority then NewPos(ts, k - 1, priority) else k
  }

  function Reposition(t: Trie, k: nat): Trie
    requires k < |t.children| == |t.indices|
  {
    var to := NewPos(t.children, k, t.children[k].priority);
    t.(indices := Promote(t.indices, k, to), children := Promote(t.children, k, to))
  }

  // ----- registration

  /** The first wildcard token of a path, cut out of what surrounds it. */
  datatype Wildcard = NoWildcard | Wildcard(before: string, token: string, after: string)

  function FindWildcard(path: string): (w: Wildcard)
    ensures w.NoWildcard? ==> Plain(path)
    ensures w.Wildcard? ==>
              && path == w.before + w.token + w.after && Plain(w.before)
              && w.token != "" && IsWild(w.token[0]) && '/' !in w.token
              && (w.after == "" || w.after[0] == '/')
  {
    if path == "" then NoWildcard
    else if IsWild(path[0]) then
      var e := SegEnd(path);
      SplitPrefix(path[..e], path);
      Wildcard("", path[..e], path[e..])
    else
      match FindWildcard(path[1..])
      case NoWildcard => NoWildcard
      case Wildcard(b, t, a) => Cons(path, b, t, a); Wildcard([path[0]] + b, t, a)
  }

  lemma Cons(path: string, b: string, t: string, a: string)
    requires path != "" && path[1..] == b + t + a
    ensures path == [path[0]] + b + t + a
  {
    assert path == [path[0]] + path[1..];
  }

  /** Fills the still childless node `n` with the rest of a pattern. */
  function InsertChild(n: Trie, path: string, h: Handle): Option<Trie>
    decreases |path|, 0
  {
    match FindWildcard(path)
    case NoWildcard => Some(n.(path := path, handle := Some(h)))
    case Wildcard(before, token, after) =>
      if !IsName(token[1..]) || n.children != [] then None
      else if token[0] == ':' then
        match ParamNode(token, after, h)
        case None => None
        case Some(c) => Some(n.(path := if before == "" then n.path else before, wildChild := true, children := [c]))
      else if after != "" || EndsInSlash(n.path) || !EndsInSlash(before) then None
      else
        Some(n.(path := before[..|before| - 1], indices := "/", children := [CatchAllPair("/" + token, h)]))
  }

  /** A new parameter, with what follows it in its only child. */
  function ParamNode(token: string, after: string, h: Handle): Option<Trie>
    decreases |after|, 1
  {
    var param := Fresh(1).(nType := Param, path := token);
    if after == "" then Some(param.(handle := Some(h)))
    else
      match InsertChild(Fresh(1), after, h)
      case None => None
      case Some(c) => Some(param.(children := [c]))
  }

  function CatchAllPair(path: string, h: Handle): Trie {
    var leaf := Fresh(1).(path := path, nType := CatchAll, handle := Some(h));
    Fresh(1).(wildChild := true, nType := CatchAll, children := [leaf])
  }

  /** An edge cut after `i` bytes: the lower half keeps everything but the type. */
  function Split(t: Trie, i: nat): Trie
    requires i < |t.path|
  {
    TrieNode(t.path[..i], [t.path[i]], false, t.nType, t.priority + 1,
             [t.(path := t.path[i..], nType := Static)], None)
  }

  // Registration rejects with `None` where the router panics. An index out of range is such a panic, too;
  // module `IndexFault` says exactly which patterns reach it.

  function AddEdge(n: Trie, path: string, h: Handle): Option<Trie>
    requires path != ""
  {
    if |n.indices| != |n.children| then None
    else
      match InsertChild(Fresh(1), path, h)
      case None => None
      case Some(c) =>
        Some(Reposition(n.(indices := n.indices + [path[0]], children := n.children + [c]), |n.children|))
  }

  /** The end of the walk: no existing edge of `n` continues with `path`. */
  function Attach(n: Trie, path: string, h: Handle): Option<Trie> {
    if path == "" then (if n.handle.Some? then None else Some(n.(handle := Some(h))))
    else if IsWild(path[0]) then InsertChild(n, path, h)
    else AddEdge(n, path, h)
  }

  /** The new path goes on with exactly the wildcard that is already there. */
  predicate FitsWildcard(c: Trie, path: string) {
    c.path <= path && c.nType != CatchAll && (|c.path| == |path| || path[|c.path|] == '/')
  }

  /** One round of the walk: stop at the (possibly just split) node, go to child `k`, or give up. */
  datatype Step = Stop(n: Trie, rest: string) | Down(k: nat, rest: string) | Clash

  function Next(t: Trie, path: string): (step: Step)
    ensures step.Down? ==> step.k < |t.children| && (t.wildChild || t.nType == Param || |t.indices| == |t.children|)
  {
    var i := CommonPrefix(path, t.path);
    var rest := path[i..];
    if i < |t.path| then Stop(Split(t, i), rest)
    else if rest == "" then Stop(t.(priority := t.priority + 1), rest)
    else if t.wildChild then
      if t.children == [] || !FitsWildcard(t.children[0], rest) then Clash else Down(0, rest)
    else if t.nType == Param && rest[0] == '/' && |t.children| == 1 then Down(0, rest)
    else
      var k := IndexOf(t.indices, rest[0]);
      if k == |t.indices| then Stop(t.(priority := t.priority + 1), rest)
      else if |t.indices| != |t.children| then Clash
      else Down(k, rest)
  }

  /** Registers `path` in the non-empty tree `t`; also counts the visit to `t`. */
  function Insert(t: Trie, path: string, h: Handle): Option<Trie>
    decreases t
  {
    match Next(t, path)
    case Stop(n, rest) => Attach(n, rest, h)
    case Clash => None
    case Down(k, rest) =>
      match Insert(t.children[k], rest, h)
      case None => None
      case Some(c) => Some(Regrow(t, k, c))
  }

  /** `t` after a visit whose child `k` became `c`; a child found by its index byte may move up. */
  function Regrow(t: Trie, k: nat, c: Trie): Trie
    requires k < |t.children| && (t.wildChild || t.nType == Param || |t.indices| == |t.children|)
  {
    var n := t.(priority := t.priority + 1, children := t.children[k := c]);
    if t.wildChild || t.nType == Param then n else Reposition(n, k)
  }

  /** What the walk knows about the remaining path when it arrives at `t`. */
  predicate Enters(t: Trie, path: string) {
    match t.nType
    case Param => FitsWildcard(t, path)
    case CatchAll => t.path == "" && StartsWith(path, '/')
    case _ => StartsWith(path, if t.path == "" then '/' else t.path[0])
  }

  /** Registration at the root, which is the zero node as long as nothing is registered. */
  function AddRoute(t: Trie, path: string, h: Handle): Option<Trie> {
    if t.path == "" && t.indices == "" then
      match InsertChild(t.(priority := t.priority + 1), path, h)
      case None => None
      case Some(t') => Some(t'.(nType := Root))
    else Insert(t, path, h)
  }
}
