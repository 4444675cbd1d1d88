/** The radix tree on the heap. A node is updated in place; the ghost field `abs` is the value of the
    subtree below it, and the methods are proved against the functions of modules `RadixTree` and `Lookup`. */
module NodeHeap {
  import opened Bytes
  import opened Pattern
  import opened RadixTree
  import opened RouteTable
  import opened ByteScan
  import opened WalkSpec

  class Node {
    var path: string
    var indices: string
    var wildChild: bool
    var nType: NodeType
    var priority: nat
    var children: seq<Node>
    var handle: Option<Handle>

    ghost var abs: Trie         // the subtree below this node, as a value
    ghost var up: Node?         // the node that has this one as a child

    /** A node literal. The children given are hung under the new node; `sub` is what it stands for. */
    constructor (path: string, indices: string, wildChild: bool, nType: NodeType, priority: nat,
                 children: seq<Node>, handle: Option<Handle>, ghost sub: Trie)
      modifies children`up
      ensures this.children == children && Fields() == TrieNode(path, indices, wildChild, nType, priority, [], handle)
      ensures abs == sub && up == null
      ensures forall c :: c in children ==> c.up == this
    {
      this.path, this.indices, this.wildChild, this.nType := path, indices, wildChild, nType;
      this.priority, this.children, this.handle := priority, children, handle;
      abs, up := sub, null;
      new;
      forall c | c in children {
        c.up := this;
      }
    }

    function Fields(): Trie
      reads `path, `indices, `wildChild, `nType, `priority, `handle
    {
      TrieNode(path, indices, wildChild, nType, priority, [], handle)
    }

    /** The fields of this node and the subtrees of its children make up `t`. */
    ghost predicate Is(t: Trie)
      reads `path, `indices, `wildChild, `nType, `priority, `children, `handle, children`abs, children`up
    {
      Fields() == t.(children := []) && Hangs(this, children, t.children)
    }

    /** Moves child `pos` to the front of the less busy ones, and rebuilds the index string to match. */
    method IncrementChildPrio(pos: nat, ghost ts: seq<Trie>) returns (newPos: nat)
      requires pos < |children| == |indices| == |ts| && Distinct(children)
      requires forall k :: 0 <= k < |ts| ==> children[k].priority == ts[k].priority
      requires children[pos] != this
      modifies `children, `indices, {children[pos]}`priority
      ensures newPos == NewPos(ts, pos, ts[pos].priority + 1) <= pos
      ensures children == Promote(old(children), pos, newPos)
      ensures indices == Promote(old(indices), pos, newPos)
      ensures children[newPos] == old(children[pos]) && children[newPos].priority == ts[pos].priority + 1
    {
      children[pos].priority := children[pos].priority + 1;
      ghost var us := ts[pos := ts[pos].(priority := ts[pos].priority + 1)];
      children, newPos := MoveToFront(children, pos, us);
      NewPosCong(us, ts, pos, ts[pos].priority + 1);
      if newPos != pos {
        indices := MoveByte(indices, pos, newPos);
      } else {
        PromoteNothing(indices, pos);
      }
    }

    /** Registers a pattern below this root. After a rejection the tree is abandoned. */
    method AddRoute(path0: string, h: Handle, ghost nodes0: set<Node>) returns (ok: bool, ghost nodes: set<Node>)
      requires this in nodes0 && Sound(nodes0, {}) && up == null && TreeOk(abs) && StartsWith(path0, '/')
      modifies nodes0
      ensures nodes0 <= nodes && (forall n :: n in nodes && n !in nodes0 ==> fresh(n))
      ensures ok <==> RadixTree.AddRoute(old(abs), path0, h).Some?
      ensures ok ==> up == null && abs == RadixTree.AddRoute(old(abs), path0, h).value && Sound(nodes, {})
      ensures forall r :: r in nodes0 && r != this && old(r.up) == null ==> r.up == null && r.abs == old(r.abs)
    {
      ghost var t0 := abs;
      CountVisit(nodes0);
      if path == "" && indices == "" {
        ok, nodes := InsertHere(path0, h, Bump(t0), nodes0);
        if ok {
          BecomeRoot(nodes);
        }
        return;
      }
      RootEnters(t0, path0);
      Expect(Goal(t0, path0, h), Bump(t0), nodes0);
      GoalReached(t0, path0, h);
      ok, nodes := WalkDown(path0, h, t0, nodes0);
    }

    /** States what this root is going to become. */
    ghost method Expect(goal: Trie, t: Trie, nodes: set<Node>)
      requires this in nodes && Sound(nodes, {this}) && up == null && Is(t)
      modifies `abs
      ensures abs == goal && Is(t) && Sound(nodes, {this})
    {
      abs := goal;
      assert Is(t) == old(Is(t));
      forall m | m in nodes && m != this ensures m.Is(m.abs) {
        assert m.Is(m.abs) == old(m.Is(m.abs));
      }
    }

    /** The first statement of `AddRoute`. */
    method CountVisit(ghost nodes: set<Node>)
      requires this in nodes && Sound(nodes, {}) && up == null
      modifies `priority
      ensures Is(Bump(abs)) && Sound(nodes, {this})
    {
      priority := priority + 1;
      forall m | m in nodes && m != this ensures m.Is(m.abs) {
        assert m.Is(m.abs) == old(m.Is(m.abs));
      }
    }

    /** The loop of `AddRoute`. */
    method WalkDown(path0: string, h: Handle, ghost t0: Trie, ghost nodes0: set<Node>)
      returns (ok: bool, ghost nodes: set<Node>)
      requires this in nodes0 && Sound(nodes0, {this}) && up == null
      requires Is(Bump(t0)) && abs == Goal(t0, path0, h) && Arrives(t0, path0)
      modifies nodes0
      ensures nodes0 <= nodes && (forall n :: n in nodes && n !in nodes0 ==> fresh(n))
      ensures ok <==> Insert(t0, path0, h).Some?
      ensures ok ==> up == null && abs == Goal(t0, path0, h) && Sound(nodes, {})
      ensures forall r :: r in nodes0 && r != this && old(r.up) == null ==> r.up == null && r.abs == old(r.abs)
    {
      nodes := nodes0;
      var n, path := this, path0;
      ghost var t := t0;
      while true
        invariant n in nodes0 && Sound(nodes0, {n}) && n.up != n && (n == this || n.up != null)
        invariant forall r :: r in nodes0 && old(r.up) == null ==> r.up == null && r.abs == old(r.abs)
        invariant n.Is(Bump(t)) && n.abs == Goal(t, path, h) && Arrives(t, path)
        invariant Insert(t0, path0, h).Some? == Insert(t, path, h).Some?
        decreases t
      {
        var progress, m, rest;
        progress, m, rest, nodes := n.WalkOn(path, h, t, nodes0);
        if progress != More {
          return progress == Done, nodes;
        }
        GoesOn(t, path);
        t := t.children[Next(t, path).k];
        n, path := m, rest;
      }
    }

    /** A round of the loop leaves the roots of other trees alone. */
    method WalkOn(path0: string, h: Handle, ghost t: Trie, ghost nodes0: set<Node>)
      returns (progress: Progress, m: Node, rest: string, ghost nodes: set<Node>)
      requires this in nodes0 && Sound(nodes0, {this}) && up != this
      requires Is(Bump(t)) && abs == Goal(t, path0, h) && Arrives(t, path0)
      modifies this, children
      ensures nodes0 <= nodes && (forall n :: n in nodes && n !in nodes0 ==> fresh(n))
      ensures progress == Outcome(Next(t, path0), h)
      ensures forall r :: r in nodes0 && old(r.up) == null && (r != this || progress != Failed) ==>
                r.up == null && r.abs == old(r.abs)
      ensures progress == Done ==> Sound(nodes, {})
      ensures progress == More ==>
                && var child := t.children[Next(t, path0).k];
                && rest == Next(t, path0).rest && m in nodes0 && m.up == this && m != this && Sound(nodes0, {m})
                && m.Is(Bump(child)) && m.abs == Goal(child, rest, h)
    {
      OwnChildren(this, Bump(t));
      progress, m, rest, nodes := Walk(path0, h, t, nodes0);
    }

    /** One round of the loop, at a node that already counts the visit. */
    method Walk(path0: string, h: Handle, ghost t: Trie, ghost nodes0: set<Node>)
      returns (progress: Progress, m: Node, rest: string, ghost nodes: set<Node>)
      requires this in nodes0 && Sound(nodes0, {this}) && up != this
      requires Is(Bump(t)) && abs == Goal(t, path0, h) && Arrives(t, path0)
      modifies this, children
      ensures nodes0 <= nodes && (forall n :: n in nodes && n !in nodes0 ==> fresh(n))
      ensures progress == Outcome(Next(t, path0), h)
      ensures progress != Failed ==> abs == old(abs) && up == old(up)
      ensures progress == Done ==> Sound(nodes, {})
      ensures progress == More ==>
                && var child := t.children[Next(t, path0).k];
                && rest == Next(t, path0).rest && m in nodes0 && m.up == this && Sound(nodes0, {m})
                && m.Is(Bump(child)) && m.abs == Goal(child, rest, h)
    {
      ghost var s;
      rest, s, nodes := MeetPath(path0, t, nodes0);
      NextIs(t, path0, s, h);
      progress, m, nodes := GoOn(rest, h, s, t, Next(t, path0), nodes);
    }

    /** The node's own path is used up: the new path ends here, or goes on. */
    method GoOn(rest: string, h: Handle, ghost s: Trie, ghost t: Trie, ghost step: Step, ghost nodes0: set<Node>)
      returns (progress: Progress, m: Node, ghost nodes: set<Node>)
      requires this in nodes0 && Sound(nodes0, {this}) && up != this && Is(s)
      requires rest == "" ==> step == Stop(s, rest) && abs == s.(handle := Some(h))
      requires rest != "" ==> step == Choose(s, rest) && ChildrenFit(s, rest)
      requires rest != "" && step.Stop? ==> abs == StopGoal(s, rest, h)
      requires step.Down? ==> s == Bump(t) && abs == Regrow(t, step.k, Goal(t.children[step.k], rest, h))
      modifies this, children
      ensures nodes0 <= nodes && (forall n :: n in nodes && n !in nodes0 ==> fresh(n))
      ensures progress == Outcome(step, h)
      ensures progress != Failed ==> abs == old(abs) && up == old(up)
      ensures progress == Done ==> Sound(nodes, {})
      ensures progress == More ==>
                && nodes == nodes0 && m in nodes0 && m.up == this && Sound(nodes0, {m})
                && m.Is(Bump(t.children[step.k])) && m.abs == Goal(t.children[step.k], rest, h)
    {
      m, nodes := this, nodes0;
      if rest == "" {
        progress := TakeHandle(h, s, nodes);
      } else {
        progress, m, nodes := Branch(rest, h, s, t, step, nodes);
      }
    }

    /** Strips the common prefix, and splits this node's edge if it goes on after that. */
    method MeetPath(path0: string, ghost t: Trie, ghost nodes0: set<Node>)
      returns (rest: string, ghost s: Trie, ghost nodes: set<Node>)
      requires this in nodes0 && Sound(nodes0, {this}) && up != this && Is(Bump(t))
      modifies this, children
      ensures nodes0 <= nodes && (forall n :: n in nodes && n !in nodes0 ==> fresh(n))
      ensures forall k :: 0 <= k < |children| ==> children[k] in old(children) || fresh(children[k])
      ensures var i := CommonPrefix(path0, t.path);
              rest == path0[i..] && s == if i < |t.path| then Split(t, i) else Bump(t)
      ensures nodes == nodes0 || Next(t, path0).Stop?
      ensures Is(s) && Sound(nodes, {this}) && abs == old(abs) && up == old(up)
    {
      var i := LongestCommonPrefix(path0, path);
      rest, s, nodes := path0[i..], Bump(t), nodes0;
      if i < |path| {
        nodes := SplitEdge(i, t, nodes0);
        s := Split(t, i);
      }
    }

    /** From a node with no more of its own path: on to a child, or the place for the rest. */
    method Branch(rest: string, h: Handle, ghost s: Trie, ghost t: Trie, ghost step: Step, ghost nodes0: set<Node>)
      returns (progress: Progress, m: Node, ghost nodes: set<Node>)
      requires this in nodes0 && Sound(nodes0, {this}) && up != this && Is(s)
      requires rest != "" && step == Choose(s, rest) && ChildrenFit(s, rest)
      requires step.Stop? ==> abs == StopGoal(s, rest, h)
      requires step.Down? ==> s == Bump(t) && abs == Regrow(t, step.k, Goal(t.children[step.k], rest, h))
      modifies this, children
      ensures nodes0 <= nodes && (forall n :: n in nodes && n !in nodes0 ==> fresh(n))
      ensures progress == Outcome(step, h)
      ensures progress != Failed ==> abs == old(abs) && up == old(up)
      ensures progress == Done ==> Sound(nodes, {})
      ensures progress == More ==>
                && nodes == nodes0 && m in nodes0 && m.up == this && Sound(nodes0, {m})
                && m.Is(Bump(t.children[step.k])) && m.abs == Goal(t.children[step.k], rest, h)
    {
      m, nodes := this, nodes0;
      if wildChild {
        progress, m := EnterOnly(true, rest, h, s, t, nodes);
        return;
      }
      if nType == Param && rest[0] == '/' && |children| == 1 {
        progress, m := EnterOnly(false, rest, h, s, t, nodes);
        return;
      }
      var k := IndexByte(indices, rest[0]);
      if k < |indices| {
        m := EnterEdge(k, rest, h, t, nodes);
        return More, m, nodes;
      }
      progress, nodes := InsertRest(rest, h, s, nodes);
    }

    /** On to the only child, if it is not a wildcard that differs from the one in the new path. */
    method EnterOnly(wild: bool, rest: string, h: Handle, ghost s: Trie, ghost t: Trie, ghost nodes: set<Node>)
      returns (progress: Progress, m: Node)
      requires this in nodes && Sound(nodes, {this}) && up != this && Is(s) && s.children != []
      requires !wild || FitsWildcard(s.children[0], rest) ==>
                 && s == Bump(t) && (t.wildChild || t.nType == Param)
                 && abs == Regrow(t, 0, Goal(t.children[0], rest, h))
      modifies {children[0]}`priority, {children[0]}`abs
      ensures progress == if !wild || FitsWildcard(s.children[0], rest) then More else Failed
      ensures progress == More ==>
                && m in nodes && m.up == this && Sound(nodes, {m})
                && m.Is(Bump(t.children[0])) && m.abs == Goal(t.children[0], rest, h)
    {
      m := VisitOnly(s, nodes);
      if !wild || (m.path <= rest && m.nType != CatchAll && (|m.path| == |rest| || rest[|m.path|] == '/')) {
        Aim(0, Goal(t.children[0], rest, h), s, Bump(t.children[0]), nodes);
        return More, m;
      }
      progress := Failed;
    }

    /** Otherwise insert it. */
    method InsertRest(rest: string, h: Handle, ghost s: Trie, ghost nodes0: set<Node>)
      returns (progress: Progress, ghost nodes: set<Node>)
      requires this in nodes0 && Sound(nodes0, {this}) && up != this && Is(s)
      requires rest != "" && (IsWild(rest[0]) || |s.indices| == |s.children|) && abs == StopGoal(s, rest, h)
      modifies this
      ensures nodes0 <= nodes && (forall n :: n in nodes && n !in nodes0 ==> fresh(n))
      ensures progress == if Attach(s, rest, h).Some? then Done else Failed
      ensures progress != Failed ==> abs == old(abs) && up == old(up) && Sound(nodes, {})
    {
      var ok;
      if !IsWild(rest[0]) {
        var child;
        child, nodes := NewEdge(rest, h, s, nodes0);
        ok, nodes := child.InsertHere(rest, h, Fresh(1), nodes);
      } else {
        ChildGoalReached(s, rest, h);
        ok, nodes := InsertHere(rest, h, s, nodes0);
      }
      progress := if ok then Done else Failed;
    }

    /** Counts the visit to the only child: a parameter or a catch-all, or what follows a parameter. */
    method VisitOnly(ghost s: Trie, ghost nodes: set<Node>) returns (m: Node)
      requires this in nodes && Sound(nodes, {this}) && up != this && Is(s) && s.children != []
      modifies {children[0]}`priority
      ensures m == children[0] && m in nodes && m.up == this && Is(s)
      ensures m.Is(Bump(s.children[0])) && Sound(nodes, {this, m})
    {
      m := children[0];
      m.priority := m.priority + 1;
      forall n | n in nodes && n != this && n != m ensures n.Is(n.abs) {
        assert n.Is(n.abs) == old(n.Is(n.abs));
      }
    }

    /** Cuts the edge to this node after `i` bytes. */
    method SplitEdge(i: nat, ghost t: Trie, ghost nodes0: set<Node>) returns (ghost nodes: set<Node>)
      requires this in nodes0 && Sound(nodes0, {this}) && up != this
      requires Is(Bump(t)) && i < |t.path|
      modifies `path, `indices, `wildChild, `children, `handle, children`up
      ensures nodes0 <= nodes && (forall n :: n in nodes && n !in nodes0 ==> fresh(n))
      ensures Is(Split(t, i)) && up == old(up) && fresh(children)
      ensures Sound(nodes, {this})
    {
      var child;
      child, nodes := LowerHalf(i, t, nodes0);
      assert Fields() == Bump(t).(children := []);
      Hold(child, nodes);
      Rewrite(path[..i], [path[i]], [child], nodes);
      Shows(Split(t, i));
    }

    lemma Shows(t: Trie)
      requires Fields() == t.(children := []) && Hangs(this, children, t.children)
      ensures Is(t)
    {
    }

    method Rewrite(path: string, indices: string, children: seq<Node>, ghost nodes: set<Node>)
      requires this in nodes && Sound(nodes, {this}) && forall c :: c in children ==> c in nodes
      modifies `path, `indices, `wildChild, `children, `handle
      ensures this.children == children && Fields() == TrieNode(path, indices, false, nType, priority, [], None)
      ensures Sound(nodes, {this})
    {
      this.children, this.indices, this.path, this.handle, this.wildChild := children, indices, path, None, false;
      forall m | m in nodes && m != this ensures m.Is(m.abs) {
        assert m.Is(m.abs) == old(m.Is(m.abs));
      }
    }

    /** Declares this node the parent of a node that hangs nowhere yet. */
    ghost method Hold(child: Node, nodes: set<Node>)
      requires this in nodes && Sound(nodes, {this}) && child.up == null
      modifies child`up
      ensures child.up == this && Sound(nodes, {this})
    {
      Unattached(nodes, this, child);
      child.up := this;
      forall m | m in nodes && m != this ensures m.Is(m.abs) {
        assert m.Is(m.abs) == old(m.Is(m.abs));
      }
    }

    /** The node that keeps everything below the cut; this node is not changed yet. */
    method LowerHalf(i: nat, ghost t: Trie, ghost nodes0: set<Node>) returns (child: Node, ghost nodes: set<Node>)
      requires this in nodes0 && Sound(nodes0, {this}) && up != this
      requires Is(Bump(t)) && i < |t.path|
      modifies children`up
      ensures fresh(child) && nodes == nodes0 + {child} && Sound(nodes, {this}) && up == old(up)
      ensures child.abs == t.(path := t.path[i..], nType := Static)
      ensures child.up == null
    {
      ghost var lower := t.(path := t.path[i..], nType := Static);
      Apart(nodes0, this, Bump(t));
      child := new Node(path[i..], indices, wildChild, Static, priority - 1, children, handle, lower);
      nodes := nodes0 + {child};
      forall m | m in nodes && m != this ensures m.Is(m.abs) {
        if m != child {
          assert m.Is(m.abs) == old(m.Is(m.abs));
        }
      }
    }

    method TakeHandle(h: Handle, ghost s: Trie, ghost nodes: set<Node>) returns (progress: Progress)
      requires this in nodes && Sound(nodes, {this}) && Is(s)
      requires s.handle.None? ==> abs == s.(handle := Some(h))
      modifies `handle
      ensures progress == (if s.handle.Some? then Failed else Done)
      ensures progress == Done ==> Sound(nodes, {})
    {
      if handle != None {
        return Failed;
      }
      handle := Some(h);
      progress := Done;
    }

    /** Goes down the edge found by its index byte, after moving it forward. */
    method EnterEdge(k: nat, rest: string, h: Handle, ghost t: Trie, ghost nodes: set<Node>) returns (m: Node)
      requires this in nodes && Sound(nodes, {this}) && up != this
      requires Is(Bump(t)) && k < |t.children| == |t.indices| && !t.wildChild && t.nType != Param
      requires abs == Regrow(t, k, Goal(t.children[k], rest, h))
      modifies `children, `indices, {children[k]}`priority, {children[k]}`abs
      ensures m in nodes && m.up == this && m != this
      ensures m.Is(Bump(t.children[k])) && m.abs == Goal(t.children[k], rest, h)
      ensures Sound(nodes, {m})
    {
      m := children[k];
      ghost var sub, moved := Goal(t.children[k], rest, h), Moved(Bump(t), k);
      var newPos := Advance(k, Bump(t), nodes);
      RegrowMoved(t, k, sub);
      assert abs == moved.(children := moved.children[newPos := sub]);
      Aim(newPos, sub, moved, Bump(t.children[k]), nodes);
    }

    /** `IncrementChildPrio` at a node of a whole tree. */
    method Advance(k: nat, ghost x: Trie, ghost nodes: set<Node>) returns (newPos: nat)
      requires this in nodes && Sound(nodes, {this}) && up != this
      requires Is(x) && k < |x.children| == |x.indices|
      modifies `children, `indices, {children[k]}`priority
      ensures newPos == NewPos(x.children, k, x.children[k].priority + 1) <= k
      ensures Is(Moved(x, k)) && children[newPos] == old(children[k]) && children[newPos].Is(Bump(x.children[k]))
      ensures Sound(nodes, {this, children[newPos]})
    {
      ghost var m := children[k];
      newPos := Visit(k, x);
      forall n | n in nodes && n != this && n != m ensures n.Is(n.abs) {
        assert n.Is(n.abs) == old(n.Is(n.abs));
      }
    }

    method Visit(k: nat, ghost x: Trie) returns (newPos: nat)
      requires Is(x) && up != this && k < |x.children| == |x.indices| && children[k].Is(x.children[k])
      requires forall j :: 0 <= j < |children| ==> children[j].priority == x.children[j].priority
      modifies `children, `indices, {children[k]}`priority
      ensures newPos == NewPos(x.children, k, x.children[k].priority + 1) <= k
      ensures Is(Moved(x, k)) && children[newPos] == old(children[k]) && children[newPos].Is(Bump(x.children[k]))
      ensures forall j :: 0 <= j < |children| ==> children[j] == old(children)[Source(j, k, newPos)]
    {
      ghost var m, cs := children[k], children;
      newPos := IncrementChildPrio(k, x.children);
      HangsPromoted(this, cs, x.children, k, newPos);
      assert Fields() == Moved(x, k).(children := []) && Hangs(m, m.children, x.children[k].children);
      Shows(Moved(x, k));
      m.Shows(Bump(x.children[k]));
    }

    /** States what child `p` is going to become. */
    ghost method Aim(p: nat, sub: Trie, x: Trie, y: Trie, nodes: set<Node>)
      requires this in nodes && up != this && Is(x) && p < |children| && Sound(nodes, {this, children[p]})
      requires abs == x.(children := x.children[p := sub]) && children[p].Is(y)
      modifies {children[p]}`abs
      ensures children[p].abs == sub && children[p].Is(y) && Sound(nodes, {children[p]})
    {
      var m := children[p];
      m.abs := sub;
      Shows(abs);
      assert m.Is(y) == old(m.Is(y));
      forall n | n in nodes && n != this && n != m ensures n.Is(n.abs) {
        assert n.Is(n.abs) == old(n.Is(n.abs));
      }
    }

    /** Hangs a new node for `rest` under this node, still empty. */
    method NewEdge(rest: string, h: Handle, ghost s: Trie, ghost nodes0: set<Node>)
      returns (child: Node, ghost nodes: set<Node>)
      requires this in nodes0 && Sound(nodes0, {this}) && up != this
      requires Is(s) && |s.indices| == |s.children| && rest != "" && abs == EdgeGoal(s, rest, h)
      modifies `children, `indices
      ensures fresh(child) && nodes == nodes0 + {child} && Sound(nodes, {child})
      ensures child.Is(Fresh(1)) && child.abs == ChildGoal(Fresh(1), rest, h) && child.up == this
    {
      var newPos;
      child, newPos, nodes := PlaceChild(rest[0], s, nodes0);
      EdgeMoved(s, rest, h);
      Aim(newPos, ChildGoal(Fresh(1), rest, h), Moved(Widened(s, rest[0]), |s.children|), Fresh(1), nodes);
    }

    method PlaceChild(c: char, ghost s: Trie, ghost nodes0: set<Node>)
      returns (child: Node, newPos: nat, ghost nodes: set<Node>)
      requires this in nodes0 && Sound(nodes0, {this}) && up != this && Is(s) && |s.indices| == |s.children|
      modifies `children, `indices
      ensures fresh(child) && nodes == nodes0 + {child} && child.up == this
      ensures Sound(nodes, {this, child}) && child.Is(Fresh(1))
      ensures newPos == NewPos(Widened(s, c).children, |s.children|, 1) < |children| && children[newPos] == child
      ensures Is(Moved(Widened(s, c), |s.children|))
    {
      child, nodes := NewChild(c, s, nodes0);
      LastWidened(s, c);
      newPos := Advance(|indices| - 1, Widened(s, c), nodes);
    }

    method NewChild(c: char, ghost s: Trie, ghost nodes0: set<Node>) returns (child: Node, ghost nodes: set<Node>)
      requires this in nodes0 && Sound(nodes0, {this}) && Is(s)
      modifies `children, `indices
      ensures fresh(child) && nodes == nodes0 + {child} && child.abs == Fresh(0) && child.up == this
      ensures children == old(children) + [child] && indices == old(indices) + [c]
      ensures Is(Widened(s, c)) && Sound(nodes, {this})
    {
      child := new Node("", "", false, Static, 0, [], None, Fresh(0));
      nodes := nodes0 + {child};
      Hold(child, nodes);
      Append(c, child, s, nodes);
    }

    method Append(c: char, child: Node, ghost s: Trie, ghost nodes: set<Node>)
      requires this in nodes && child in nodes && Sound(nodes, {this}) && Is(s)
      requires child.up == this && child.abs == Fresh(0) && child !in children
      modifies `children, `indices
      ensures children == old(children) + [child] && indices == old(indices) + [c]
      ensures Is(Widened(s, c)) && Sound(nodes, {this})
    {
      indices := indices + [c];
      children := children + [child];
      Shows(Widened(s, c));
      forall m | m in nodes && m != this ensures m.Is(m.abs) {
        assert m.Is(m.abs) == old(m.Is(m.abs));
      }
    }

    /** `InsertChild` at a node of a whole tree. */
    method InsertHere(rest: string, h: Handle, ghost s: Trie, ghost nodes0: set<Node>)
      returns (ok: bool, ghost nodes: set<Node>)
      requires this in nodes0 && Sound(nodes0, {this})
      requires Is(s) && (s.children == [] || StartsWild(rest))
      requires up == null || abs == ChildGoal(s, rest, h)
      modifies this
      ensures nodes0 <= nodes && (forall n :: n in nodes && n !in nodes0 ==> fresh(n)) && up == old(up)
      ensures ok <==> RadixTree.InsertChild(s, rest, h).Some?
      ensures ok ==> abs == RadixTree.InsertChild(s, rest, h).value && Sound(nodes, {})
    {
      ChildGoalReached(s, rest, h);
      ghost var family;
      ok, family := InsertChild(rest, h, s);
      nodes := nodes0 + family;
    }

    method BecomeRoot(ghost nodes: set<Node>)
      requires this in nodes && Sound(nodes, {}) && up == null
      modifies `nType, `abs
      ensures abs == old(abs).(nType := Root) && Sound(nodes, {})
    {
      nType := Root;
      abs := abs.(nType := Root);
    }

    /** Fills this still childless node with the rest of a pattern. On success `family` are this node
        and the new nodes below it. */
    method InsertChild(path0: string, h: Handle, ghost t0: Trie) returns (ok: bool, ghost family: set<Node>)
      requires Is(t0) && (t0.children == [] || StartsWild(path0))
      modifies this
      ensures this in family && fresh(family - {this}) && up == old(up)
      ensures ok <==> RadixTree.InsertChild(t0, path0, h).Some?
      ensures ok ==> abs == RadixTree.InsertChild(t0, path0, h).value && Sound(family, {})
    {
      var n, path := this, path0;
      ghost var t := t0;
      family := {this};
      abs := ChildGoal(t0, path0, h);
      ChildGoalReached(t0, path0, h);
      if |children| > 0 {
        WildNeedsLeaf(t0, path0, h);
        return false, family;
      }
      while true
        invariant this in family && fresh(family - {this}) && n in family && up == old(up)
        invariant n.Is(t) && t.children == [] && n.abs == ChildGoal(t, path, h)
        invariant abs == ChildGoal(t0, path0, h)
        invariant RadixTree.InsertChild(t0, path0, h).Some? == RadixTree.InsertChild(t, path, h).Some?
        invariant Sound(family, {n})
        decreases |path|
      {
        var progress, m, rest;
        progress, m, rest, family := n.InsertTokenIn(path, h, t, family);
        if progress != More {
          return progress == Done, family;
        }
        n, path, t := m, rest, Fresh(1);
      }
    }

    /** `InsertToken` within a family of nodes of which only this one is unfinished. */
    method InsertTokenIn(path0: string, h: Handle, ghost t: Trie, ghost family0: set<Node>)
      returns (progress: Progress, m: Node, rest: string, ghost family: set<Node>)
      requires Is(t) && t.children == [] && abs == ChildGoal(t, path0, h)
      requires this in family0 && Sound(family0, {this})
      modifies `path, `indices, `wildChild, `children, `handle
      ensures family0 <= family && fresh(family - family0)
      ensures progress == Failed ==> RadixTree.InsertChild(t, path0, h).None?
      ensures progress == Done ==> RadixTree.InsertChild(t, path0, h).Some? && Sound(family, {})
      ensures progress == More ==>
                && |rest| < |path0|
                && RadixTree.InsertChild(t, path0, h).Some? == RadixTree.InsertChild(Fresh(1), rest, h).Some?
                && m in family && m.Is(Fresh(1)) && m.abs == ChildGoal(Fresh(1), rest, h) && Sound(family, {m})
    {
      ghost var added;
      progress, m, rest, added := InsertToken(path0, h, t);
      family := family0 + added;
    }

    /** One round of `InsertChild`: everything up to and including the next wildcard. */
    method InsertToken(path0: string, h: Handle, ghost t: Trie)
      returns (progress: Progress, m: Node, rest: string, ghost added: set<Node>)
      requires Is(t) && t.children == [] && abs == ChildGoal(t, path0, h)
      modifies `path, `indices, `wildChild, `children, `handle
      ensures fresh(added)
      ensures progress != More ==> RadixTree.InsertChild(t, path0, h).Some? == (progress == Done)
      ensures progress == More ==>
                && |rest| < |path0|
                && RadixTree.InsertChild(t, path0, h).Some? == RadixTree.InsertChild(Fresh(1), rest, h).Some?
                && m in added && m.Is(Fresh(1)) && m.abs == ChildGoal(Fresh(1), rest, h)
      ensures Sound(added, if progress == More then {m} else {})
      ensures progress != Failed ==> Is(abs) && forall k :: 0 <= k < |children| ==> children[k] in added
    {
      m, rest, added := this, path0, {};
      var wildcard, i, valid := FindWildcardToken(path0);
      if i < 0 {
        path, handle := path0, Some(h);
        return Done, m, rest, added;
      }
      ghost var w := FindWildcard(path0);
      if !valid || |wildcard| < 2 {
        TokenRejected(t, path0, w, h);
        return Failed, m, rest, added;
      }
      if wildcard[0] == ':' {
        progress, m, rest, added := InsertParam(path0, h, t, wildcard, i);
        return;
      }
      progress, added := InsertCatchAll(path0, h, t, wildcard, i);
    }

    /** The round of `InsertChild` that ends in a parameter. */
    method InsertParam(path0: string, h: Handle, ghost t: Trie, wildcard: string, i: nat)
      returns (progress: Progress, m: Node, rest: string, ghost added: set<Node>)
      requires Is(t) && t.children == [] && abs == ChildGoal(t, path0, h)
      requires i + |wildcard| <= |path0| && wildcard != "" && wildcard[0] == ':' && IsName(wildcard[1..])
      requires FindWildcard(path0) == Wildcard(path0[..i], wildcard, path0[i + |wildcard|..])
      modifies `path, `wildChild, `children
      ensures fresh(added) && progress != Failed
      ensures progress == Done ==> RadixTree.InsertChild(t, path0, h).Some?
      ensures progress == More ==>
                && |rest| < |path0|
                && RadixTree.InsertChild(t, path0, h).Some? == RadixTree.InsertChild(Fresh(1), rest, h).Some?
                && m in added && m.Is(Fresh(1)) && m.abs == ChildGoal(Fresh(1), rest, h)
      ensures Sound(added, if progress == More then {m} else {})
      ensures Is(abs) && forall k :: 0 <= k < |children| ==> children[k] in added
    {
      TokenParam(t, path0, FindWildcard(path0), h);
      if i > 0 {
        path := path0[..i];
      }
      rest := path0[i + |wildcard|..];
      if rest == "" {
        added := AddLastParam(wildcard, h);
        return Done, this, rest, added;
      }
      m, added := AddParam(wildcard, ChildGoal(Fresh(1), rest, h));
      progress := More;
    }

    /** The round of `InsertChild` that meets a catch-all. */
    method InsertCatchAll(path0: string, h: Handle, ghost t: Trie, wildcard: string, i: nat)
      returns (progress: Progress, ghost added: set<Node>)
      requires Is(t) && t.children == [] && abs == ChildGoal(t, path0, h)
      requires i + |wildcard| <= |path0| && wildcard != "" && wildcard[0] == '*' && IsName(wildcard[1..])
      requires FindWildcard(path0) == Wildcard(path0[..i], wildcard, path0[i + |wildcard|..])
      modifies `path, `indices, `children
      ensures fresh(added) && progress != More
      ensures RadixTree.InsertChild(t, path0, h).Some? == (progress == Done)
      ensures Sound(added, {})
      ensures progress != Failed ==> Is(abs) && forall k :: 0 <= k < |children| ==> children[k] in added
    {
      if i + |wildcard| != |path0| || EndsInSlash(path) || i == 0 || path0[i - 1] != '/' {
        TokenRejected(t, path0, FindWildcard(path0), h);
        return Failed, {};
      }
      TokenCatchAll(t, path0, FindWildcard(path0), h);
      added := AddCatchAll(path0[..i - 1], path0[i - 1..], h);
      progress := Done;
    }

    /** A parameter below this node that ends the pattern. */
    method AddLastParam(wildcard: string, h: Handle) returns (ghost added: set<Node>)
      requires children == []
      requires abs == Fields().(wildChild := true,
                                children := [Fresh(1).(nType := Param, path := wildcard, handle := Some(h))])
      modifies `wildChild, `children
      ensures fresh(added) && Is(abs) && children[0] in added && Sound(added, {})
    {
      var param := new Node(wildcard, "", false, Param, 1, [], Some(h), abs.children[0]);
      wildChild, children := true, [param];
      param.up := this;
      added := {param};
    }

    /** A parameter below this node, with an empty child `m`, which is where the rest goes. */
    method AddParam(wildcard: string, ghost rest: Trie) returns (m: Node, ghost added: set<Node>)
      requires children == []
      requires abs == Fields().(wildChild := true,
                                children := [Fresh(1).(nType := Param, path := wildcard, children := [rest])])
      modifies `wildChild, `children
      ensures fresh(added) && Is(abs) && children[0] in added
      ensures m in added && Sound(added, {m}) && m.Is(Fresh(1)) && m.abs == rest
    {
      m := new Node("", "", false, Static, 1, [], None, rest);
      var param := new Node(wildcard, "", false, Param, 1, [m], None, abs.children[0]);
      wildChild, children := true, [param];
      param.up := this;
      added := {m, param};
      m.Shows(Fresh(1));
    }

    /** The two nodes of a catch-all below this node. */
    method AddCatchAll(prefix: string, tail: string, h: Handle) returns (ghost added: set<Node>)
      requires children == []
      requires abs == Fields().(path := prefix, indices := "/", children := [CatchAllPair(tail, h)])
      modifies `path, `indices, `children
      ensures fresh(added) && Is(abs) && children[0] in added && Sound(added, {})
    {
      var leaf, top := NewPair(tail, h);
      label Made:
      path, indices, children, top.up := prefix, "/", [top], this;
      added := {leaf, top};
      assert leaf.Is(leaf.abs) == old@Made(leaf.Is(leaf.abs));
      assert top.Is(top.abs) == old@Made(top.Is(top.abs));
    }

    static method NewPair(tail: string, h: Handle) returns (leaf: Node, top: Node)
      ensures fresh(leaf) && fresh(top) && leaf != top && leaf.children == [] && top.children == [leaf]
      ensures leaf.Is(leaf.abs) && top.Is(top.abs) && top.abs == CatchAllPair(tail, h)
    {
      ghost var sub := CatchAllPair(tail, h);
      leaf := new Node(tail, "", false, CatchAll, 1, [], Some(h), sub.children[0]);
      top := new Node("", "", true, CatchAll, 1, [leaf], None, sub);
    }

    /** Adjusts the position of child `pos` by swapping it forward. */
    static method MoveToFront(children: seq<Node>, pos: nat, ghost ts: seq<Trie>) returns (cs: seq<Node>, newPos: nat)
      requires pos < |children| == |ts| && forall k :: 0 <= k < |ts| ==> children[k].priority == ts[k].priority
      ensures newPos == NewPos(ts, pos, ts[pos].priority) <= pos
      ensures cs == Promote(children, pos, newPos)
    {
      cs, newPos := children, pos;
      var prio := cs[pos].priority;
      PromoteNothing(children, pos);
      while newPos > 0 && cs[newPos - 1].priority < prio
        invariant newPos <= pos && cs == Promote(children, pos, newPos)
        invariant NewPos(ts, pos, prio) == NewPos(ts, newPos, prio)
      {
        PromoteStep(children, pos, newPos);
        cs := cs[newPos - 1 := cs[newPos]][newPos := cs[newPos - 1]];
        newPos := newPos - 1;
      }
      assert newPos > 0 ==> cs[newPos - 1] == children[newPos - 1];
    }
  }

  /** A set of nodes closed under children, each the subtree it claims to be, but for `except`. */
  ghost predicate Sound(S: set<Node>, except: set<Node>)
    reads S
  {
    && (forall n, k :: n in S && 0 <= k < |n.children| ==> n.children[k] in S)
    && forall n :: n in S && n !in except ==> n.Is(n.abs)
  }

  lemma HangsPromoted(n: Node, cs: seq<Node>, ts: seq<Trie>, k: nat, to: nat)
    requires Hangs(n, cs, ts) && to <= k < |cs|
    ensures Hangs(n, Promote(cs, k, to), Promote(ts, k, to))
  {
  }

  /** A node that hangs nowhere is nobody's child. */
  lemma Unattached(S: set<Node>, n: Node, c: Node)
    requires Sound(S, {n}) && c.up == null
    ensures forall m, k :: m in S && m != n && 0 <= k < |m.children| ==> m.children[k] != c
  {
    forall m, k | m in S && m != n && 0 <= k < |m.children| ensures m.children[k] != c {
      assert m.Is(m.abs);
    }
  }

  lemma OwnChildren(n: Node, t: Trie)
    requires n.Is(t)
    ensures forall c :: c in n.children ==> c.up == n
  {
  }

  /** Two nodes have no child in common. */
  lemma Apart(S: set<Node>, n: Node, t: Trie)
    requires n in S && Sound(S, {n}) && n.Is(t)
    ensures forall m, c :: m in S && m != n && c in m.children ==> c !in n.children
  {
    forall m, c | m in S && m != n && c in m.children ensures c !in n.children {
      assert m.Is(m.abs);
      assert c.up == m;
    }
  }

  /** `cs` are distinct nodes hanging under `n`, with the subtrees `ts`. */
  ghost predicate Hangs(n: Node, cs: seq<Node>, ts: seq<Trie>)
    reads cs`abs, cs`up
  {
    |cs| == |ts| && Distinct(cs) && forall k :: 0 <= k < |cs| ==> cs[k].abs == ts[k] && cs[k].up == n
  }
}
