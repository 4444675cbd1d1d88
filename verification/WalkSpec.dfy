/** What the walk of a registration decides at each node, and what it announces that each node will become. */
module WalkSpec {
  import opened Bytes
  import opened Pattern
  import opened RadixTree
  import opened Priorities
  import opened RouteTable
  import opened ByteScan

  lemma NewPosCong(us: seq<Trie>, ts: seq<Trie>, k: nat, priority: nat)
    requires k < |us| == |ts| && forall j :: 0 <= j < k ==> us[j].priority == ts[j].priority
    ensures NewPos(us, k, priority) == NewPos(ts, k, priority)
  {
  }

  /** The index string rebuilt with byte `pos` moved to `newPos`: the same move as for the children. */
  function MoveByte(s: string, pos: nat, newPos: nat): (r: string)
    requires newPos <= pos < |s|
    ensures r == Promote(s, pos, newPos)
  {
    PromoteSlices(s, pos, newPos);
    s[..newPos] + s[pos..pos + 1] + (s[newPos..pos] + s[pos + 1..])
  }

  lemma PromoteNothing<T>(s: seq<T>, pos: nat)
    requires pos < |s|
    ensures Promote(s, pos, pos) == s
  {
  }

  lemma PromoteStep<T>(s: seq<T>, pos: nat, to: nat)
    requires 0 < to <= pos < |s|
    ensures var r := Promote(s, pos, to);
            r[to - 1] == s[to - 1] && r[to - 1 := r[to]][to := r[to - 1]] == Promote(s, pos, to - 1)
  {
  }

  datatype Progress = Done | More | Failed

  lemma WildNeedsLeaf(t: Trie, path: string, h: Handle)
    requires t.children != [] && StartsWild(path)
    ensures InsertChild(t, path, h).None?
  {
    assert FindWildcard(path).Wildcard?;
  }

  // What the first wildcard token decides.

  lemma TokenRejected(t: Trie, path: string, w: Wildcard, h: Handle)
    requires w == FindWildcard(path) && w.Wildcard?
    requires !IsName(w.token[1..])
             || (w.token[0] == '*' && (w.after != "" || EndsInSlash(t.path) || !EndsInSlash(w.before)))
    ensures InsertChild(t, path, h).None?
  {
  }

  lemma TokenParam(t: Trie, path: string, w: Wildcard, h: Handle)
    requires w == FindWildcard(path) && w.Wildcard? && w.token[0] == ':' && IsName(w.token[1..]) && t.children == []
    ensures var param := Fresh(1).(nType := Param, path := w.token);
            ChildGoal(t, path, h) ==
              t.(path := if w.before == "" then t.path else w.before, wildChild := true,
                 children := [if w.after == "" then param.(handle := Some(h))
                              else param.(children := [ChildGoal(Fresh(1), w.after, h)])])
    ensures InsertChild(t, path, h).Some? <==>
              w.after == "" || InsertChild(Fresh(1), w.after, h).Some?
  {
  }

  lemma TokenCatchAll(t: Trie, path: string, w: Wildcard, h: Handle)
    requires w == FindWildcard(path) && w.Wildcard? && w.token[0] == '*' && IsName(w.token[1..]) && t.children == []
    requires w.after == "" && !EndsInSlash(t.path) && EndsInSlash(w.before)
    ensures var i := |w.before| - 1;
            && InsertChild(t, path, h).Some?
            && ChildGoal(t, path, h) == t.(path := path[..i], indices := "/", children := [CatchAllPair(path[i..], h)])
  {
    SlashSplit(w.before, w.token, path);
  }

  lemma SlashSplit(before: string, token: string, path: string)
    requires path == before + token && EndsInSlash(before)
    ensures path[..|before| - 1] == before[..|before| - 1] && path[|before| - 1..] == "/" + token
  {
  }

  predicate StartsWild(path: string) {
    path != "" && IsWild(path[0])
  }

  /** What `InsertChild` builds, with something in its place where it gives up. */
  ghost function ChildGoal(n: Trie, path: string, h: Handle): (r: Trie)
    ensures r.priority == n.priority
    decreases |path|
  {
    match FindWildcard(path)
    case NoWildcard => n.(path := path, handle := Some(h))
    case Wildcard(before, token, after) =>
      if token[0] == ':' then
        var param := Fresh(1).(nType := Param, path := token);
        n.(path := if before == "" then n.path else before, wildChild := true,
           children := [if after == "" then param.(handle := Some(h))
                        else param.(children := [ChildGoal(Fresh(1), after, h)])])
      else n.(path := if before == "" then "" else before[..|before| - 1], indices := "/",
              children := [CatchAllPair("/" + token, h)])
  }

  lemma {:induction false} ChildGoalReached(n: Trie, path: string, h: Handle)
    ensures InsertChild(n, path, h).Some? ==> ChildGoal(n, path, h) == InsertChild(n, path, h).value
    decreases |path|
  {
    var w := FindWildcard(path);
    if w.Wildcard? && w.after != "" {
      ChildGoalReached(Fresh(1), w.after, h);
    }
  }

  function Bump(t: Trie): Trie {
    t.(priority := t.priority + 1)
  }

  /** What registration makes of the subtree `t`, with something in its place where it gives up. */
  ghost function Goal(t: Trie, path: string, h: Handle): (r: Trie)
    ensures r.priority == t.priority + 1
    decreases t
  {
    match Next(t, path)
    case Stop(n, rest) => StopGoal(n, rest, h)
    case Clash => Bump(t)
    case Down(k, rest) => Regrow(t, k, Goal(t.children[k], rest, h))
  }

  ghost function StopGoal(n: Trie, rest: string, h: Handle): (r: Trie)
    ensures r.priority == n.priority
  {
    if rest == "" then n.(handle := Some(h))
    else if IsWild(rest[0]) then ChildGoal(n, rest, h)
    else EdgeGoal(n, rest, h)
  }

  ghost function EdgeGoal(n: Trie, rest: string, h: Handle): (r: Trie)
    requires rest != ""
    ensures r.priority == n.priority
  {
    if |n.indices| != |n.children| then n
    else Reposition(n.(indices := n.indices + [rest[0]], children := n.children + [ChildGoal(Fresh(1), rest,
        h)]), |n.children|)
  }

  lemma {:induction false} GoalReached(t: Trie, path: string, h: Handle)
    ensures Insert(t, path, h).Some? ==> Goal(t, path, h) == Insert(t, path, h).value
  {
    match Next(t, path)
    case Clash =>
    case Down(k, rest) => GoalReached(t.children[k], rest, h);
    case Stop(n, rest) =>
      ChildGoalReached(n, rest, h);
      ChildGoalReached(Fresh(1), rest, h);
  }

  /** What `Next` decides once the node's own path is used up. */
  function Choose(s: Trie, rest: string): Step
    requires rest != ""
  {
    if s.wildChild then
      if s.children == [] || !FitsWildcard(s.children[0], rest) then Clash else Down(0, rest)
    else if s.nType == Param && rest[0] == '/' && |s.children| == 1 then Down(0, rest)
    else
      var k := IndexOf(s.indices, rest[0]);
      if k == |s.indices| then Stop(s, rest)
      else if |s.indices| != |s.children| then Clash
      else Down(k, rest)
  }

  predicate ChildrenFit(s: Trie, rest: string) {
    if s.wildChild then |s.children| == 1
    else if s.nType == Param then
      StartsWith(rest, '/') && |s.children| <= 1 && (s.indices == "" || (s.indices == "/" && |s.children| == 1))
    else |s.indices| == |s.children|
  }

  ghost predicate Arrives(t: Trie, path: string) {
    Ok(t) && Enters(t, path)
  }

  /** How a round of the walk ends. */
  function Outcome(step: Step, h: Handle): Progress {
    match step
    case Down(k, rest) => More
    case Clash => Failed
    case Stop(n, rest) => if Attach(n, rest, h).Some? then Done else Failed
  }

  lemma NextIs(t: Trie, path: string, s: Trie, h: Handle)
    requires Arrives(t, path)
    requires s == if CommonPrefix(path, t.path) < |t.path| then Split(t, CommonPrefix(path, t.path)) else Bump(t)
    ensures var rest, step := path[CommonPrefix(path, t.path)..], Next(t, path);
            if rest == "" then step == Stop(s, rest) && Goal(t, path, h) == s.(handle := Some(h))
            else
              && step == Choose(s, rest) && ChildrenFit(s, rest)
              && (step.Stop? ==> step == Stop(s, rest) && Goal(t, path, h) == StopGoal(s, rest, h))
              && (step.Down? ==> s == Bump(t) && step.rest == rest
                                 && Goal(t, path, h) == Regrow(t, step.k, Goal(t.children[step.k], rest, h)))
  {
    if t.nType == Param {
      CommonPrefixUnique(path, t.path, |t.path|);
    }
  }

  lemma GoesOn(t: Trie, path: string)
    requires Arrives(t, path) && Next(t, path).Down?
    ensures Arrives(t.children[Next(t, path).k], Next(t, path).rest)
  {
  }

  lemma RootEnters(t: Trie, path: string)
    requires TreeOk(t) && t != Fresh(0) && StartsWith(path, '/')
    ensures Arrives(t, path)
  {
  }

  /** `x` after child `k` was counted and moved forward, while it still stands for its old subtree. */
  function Moved(x: Trie, k: nat): Trie
    requires k < |x.children| == |x.indices|
  {
    var to := NewPos(x.children, k, x.children[k].priority + 1);
    x.(indices := Promote(x.indices, k, to), children := Promote(x.children, k, to))
  }

  lemma RegrowMoved(t: Trie, k: nat, sub: Trie)
    requires k < |t.children| == |t.indices| && !t.wildChild && t.nType != Param
    requires sub.priority == t.children[k].priority + 1
    ensures var to := NewPos(t.children, k, t.children[k].priority + 1);
            Regrow(t, k, sub) == Moved(Bump(t), k).(children := Moved(Bump(t), k).children[to := sub])
  {
    PromoteChanged(t.children, k, sub);
  }

  lemma PromoteChanged(ts: seq<Trie>, k: nat, sub: Trie)
    requires k < |ts| && sub.priority == ts[k].priority + 1
    ensures var to := NewPos(ts, k, sub.priority);
            NewPos(ts[k := sub], k, sub.priority) == to && Promote(ts[k := sub], k, to) == Promote(ts, k, to)[to := sub]
  {
    NewPosCong(ts[k := sub], ts, k, sub.priority);
  }

  function Widened(s: Trie, c: char): Trie {
    s.(indices := s.indices + [c], children := s.children + [Fresh(0)])
  }

  lemma LastWidened(s: Trie, c: char)
    ensures var x := Widened(s, c);
            |x.children| == |s.children| + 1 && Bump(x.children[|s.children|]) == Fresh(1)
  {
  }

  lemma EdgeMoved(s: Trie, rest: string, h: Handle)
    requires rest != "" && |s.indices| == |s.children|
    ensures var wide := Widened(s, rest[0]);
            var moved := Moved(wide, |s.children|);
            var to := NewPos(wide.children, |s.children|, 1);
            EdgeGoal(s, rest, h) == moved.(children := moved.children[to := ChildGoal(Fresh(1), rest, h)])
  {
    var k, sub := |s.children|, ChildGoal(Fresh(1), rest, h);
    PromoteChanged(s.children + [Fresh(0)], k, sub);
    assert (s.children + [Fresh(0)])[k := sub] == s.children + [sub];
  }
}
