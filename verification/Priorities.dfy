/** Priority accounting: a successful registration raises every count on its way by one and keeps
    busy siblings in front. */
module Priorities {
  import opened Bytes
  import opened RadixTree
  import opened Insertion

  lemma {:induction false} CountAllConcat(a: seq<Trie>, b: seq<Trie>)
    ensures CountAll(a + b) == CountAll(a) + CountAll(b)
    decreases |a|
  {
    if a == [] {
      assert a + b == b;
    } else {
      assert (a + b)[1..] == a[1..] + b;
      CountAllConcat(a[1..], b);
    }
  }

  lemma CountAllOne(c: Trie)
    ensures CountAll([c]) == Count(c)
  {
    assert [c][1..] == [];
  }

  lemma CountAllSplit(ts: seq<Trie>, k: nat)
    requires k < |ts|
    ensures CountAll(ts) == CountAll(ts[..k]) + Count(ts[k]) + CountAll(ts[k + 1..])
  {
    CountAllOne(ts[k]);
    CountAllConcat(ts[..k], [ts[k]]);
    CountAllConcat(ts[..k] + [ts[k]], ts[k + 1..]);
    assert ts == ts[..k] + [ts[k]] + ts[k + 1..];
  }

  lemma CountAllReplace(ts: seq<Trie>, k: nat, c: Trie)
    requires k < |ts|
    ensures CountAll(ts[k := c]) == CountAll(ts) - Count(ts[k]) + Count(c)
  {
    CountAllSplit(ts, k);
    CountAllSplit(ts[k := c], k);
    assert ts[k := c][..k] == ts[..k] && ts[k := c][k + 1..] == ts[k + 1..];
  }

  /** Promotion written with slices, the way the index string is rebuilt. */
  lemma PromoteSlices<T>(s: seq<T>, from: nat, to: nat)
    requires to <= from < |s|
    ensures Promote(s, from, to) == (s[..to] + [s[from]]) + (s[to..from] + s[from + 1..])
    ensures s == s[..to] + s[to..from] + [s[from]] + s[from + 1..]
  {
  }

  lemma CountAllPromote(ts: seq<Trie>, from: nat, to: nat)
    requires to <= from < |ts|
    ensures CountAll(Promote(ts, from, to)) == CountAll(ts)
  {
    PromoteSlices(ts, from, to);
    CountAllFour(ts[..to], ts[from], ts[to..from], ts[from + 1..]);
  }

  lemma CountAllFour(a: seq<Trie>, c: Trie, b: seq<Trie>, d: seq<Trie>)
    ensures CountAll((a + [c]) + (b + d)) == CountAll(a + b + [c] + d)
  {
    CountAllOne(c);
    CountAllConcat(a, [c]);
    CountAllConcat(b, d);
    CountAllConcat(a + [c], b + d);
    CountAllConcat(a, b);
    CountAllConcat(a + b, [c]);
    CountAllConcat(a + b + [c], d);
  }

  // ----- order among siblings

  /** In order, but for element `k`, which may belong further to the front. */
  predicate SortedBut(ts: seq<Trie>, k: nat) {
    && (forall i, j :: 0 <= i < j < |ts| && i != k && j != k ==> ts[i].priority >= ts[j].priority)
    && (forall j :: k < j < |ts| ==> ts[k].priority >= ts[j].priority)
  }

  lemma PromoteSorts(ts: seq<Trie>, k: nat)
    requires k < |ts| && SortedBut(ts, k)
    ensures SortedByPriority(Promote(ts, k, NewPos(ts, k, ts[k].priority)))
  {
    var to := NewPos(ts, k, ts[k].priority);
    var vs := Promote(ts, k, to);
    forall i, j | 0 <= i < j < |vs| ensures vs[i].priority >= vs[j].priority {
      PromoteSortsPair(ts, k, i, j);
      assert vs[i] == ts[Source(i, k, to)] && vs[j] == ts[Source(j, k, to)];
    }
  }

  lemma PromoteSortsPair(ts: seq<Trie>, k: nat, i: nat, j: nat)
    requires k < |ts| && SortedBut(ts, k) && i < j < |ts|
    ensures var to := NewPos(ts, k, ts[k].priority);
            ts[Source(i, k, to)].priority >= ts[Source(j, k, to)].priority
  {
    var to := NewPos(ts, k, ts[k].priority);
    var a, b := Source(i, k, to), Source(j, k, to);
    if j == to {
      assert i < to - 1 ==> ts[i].priority >= ts[to - 1].priority;
    } else if i != to {
      assert a < b && a != k && b != k;
    }
  }

  /** `t` is in order except that it may not count itself right. */
  ghost predicate BelowOk(t: Trie) {
    SortedByPriority(t.children) && forall k :: 0 <= k < |t.children| ==> PrioritiesOk(t.children[k])
  }

  /** Moving child `k` to where its priority puts it. */
  lemma RepositionPriorities(n: Trie, k: nat)
    requires k < |n.children| == |n.indices| && SortedBut(n.children, k) && n.priority == Count(n)
    requires forall j :: 0 <= j < |n.children| ==> PrioritiesOk(n.children[j])
    ensures PrioritiesOk(Reposition(n, k)) && Count(Reposition(n, k)) == Count(n)
  {
    var us, to := n.children, NewPos(n.children, k, n.children[k].priority);
    PromoteSorts(us, k);
    CountAllPromote(us, k, to);
    forall j | 0 <= j < |us| ensures PrioritiesOk(Promote(us, k, to)[j]) {
      assert Promote(us, k, to)[j] == us[Source(j, k, to)];
    }
  }

  lemma RegrowPriorities(t: Trie, k: nat, c: Trie)
    requires k < |t.children| && (t.wildChild || t.nType == Param || |t.indices| == |t.children|)
    requires t.wildChild || t.nType == Param ==> k == 0
    requires PrioritiesOk(t) && PrioritiesOk(c) && Count(c) == Count(t.children[k]) + 1
    ensures Count(Regrow(t, k, c)) == Count(t) + 1 && PrioritiesOk(Regrow(t, k, c))
  {
    var n := t.(priority := t.priority + 1, children := t.children[k := c]);
    CountAllReplace(t.children, k, c);
    assert PrioritiesOk(t.children[k]);
    if !t.wildChild && t.nType != Param {
      RepositionPriorities(n, k);
    }
  }

  // ----- fresh nodes

  lemma LonePriorities(t: Trie, c: Trie)
    requires t.children == [c] && PrioritiesOk(c)
    ensures BelowOk(t) && Count(t) == Count(c) + if t.handle.Some? then 1 else 0
  {
    CountAllOne(c);
  }

  lemma {:induction false} InsertChildPriorities(n: Trie, path: string, h: Handle)
    requires n.children == [] && (n.handle.None? || FindWildcard(path).Wildcard?)
    requires InsertChild(n, path, h).Some?
    ensures var t := InsertChild(n, path, h).value;
            t.priority == n.priority && BelowOk(t) && Count(t) == Count(n) + 1
    decreases |path|, 0
  {
    var w := FindWildcard(path);
    var t := InsertChild(n, path, h).value;
    assert CountAll([]) == 0;
    if w.Wildcard? {
      if w.token[0] == ':' {
        ParamNodePriorities(w.token, w.after, h);
      } else {
        CatchAllPriorities("/" + w.token, h);
      }
      LonePriorities(t, t.children[0]);
    }
  }

  lemma {:induction false} ParamNodePriorities(token: string, after: string, h: Handle)
    requires ParamNode(token, after, h).Some?
    ensures PrioritiesOk(ParamNode(token, after, h).value) && Count(ParamNode(token, after, h).value) == 1
    decreases |after|, 1
  {
    assert CountAll([]) == 0;
    if after != "" {
      InsertChildPriorities(Fresh(1), after, h);
      LonePriorities(ParamNode(token, after, h).value, InsertChild(Fresh(1), after, h).value);
    }
  }

  lemma CatchAllPriorities(path: string, h: Handle)
    ensures PrioritiesOk(CatchAllPair(path, h)) && Count(CatchAllPair(path, h)) == 1
  {
    var leaf := Fresh(1).(path := path, nType := CatchAll, handle := Some(h));
    assert CountAll([]) == 0;
    LonePriorities(CatchAllPair(path, h), leaf);
  }

  lemma AttachPriorities(n: Trie, rest: string, h: Handle)
    requires BelowOk(n) && n.priority == Count(n) + 1
    requires Attach(n, rest, h).Some?
    ensures PrioritiesOk(Attach(n, rest, h).value) && Count(Attach(n, rest, h).value) == Count(n) + 1
  {
    if rest != "" && IsWild(rest[0]) {
      InsertChildPriorities(n, rest, h);
    } else if rest != "" {
      InsertChildPriorities(Fresh(1), rest, h);
      assert CountAll([]) == 0;
      AddEdgePriorities(n, rest, InsertChild(Fresh(1), rest, h).value);
    }
  }

  lemma AddEdgePriorities(n: Trie, rest: string, c: Trie)
    requires BelowOk(n) && n.priority == Count(n) + 1 && |n.indices| == |n.children| && rest != ""
    requires PrioritiesOk(c) && c.priority == 1
    ensures var m := n.(indices := n.indices + [rest[0]], children := n.children + [c]);
            PrioritiesOk(Reposition(m, |n.children|)) && Count(Reposition(m, |n.children|)) == Count(n) + 1
  {
    CountAllOne(c);
    CountAllConcat(n.children, [c]);
    RepositionPriorities(n.(indices := n.indices + [rest[0]], children := n.children + [c]), |n.children|);
  }

  lemma SplitPriorities(t: Trie, i: nat)
    requires i < |t.path| && PrioritiesOk(t)
    ensures BelowOk(Split(t, i)) && Count(Split(t, i)) == Count(t)
  {
    LonePriorities(Split(t, i), Split(t, i).children[0]);
  }

  /** A successful registration counts one more handle at every node it passed, and nowhere else. */
  lemma {:induction false} InsertPriorities(t: Trie, path: string, h: Handle)
    requires Ok(t) && Enters(t, path) && PrioritiesOk(t) && Insert(t, path, h).Some?
    ensures PrioritiesOk(Insert(t, path, h).value) && Count(Insert(t, path, h).value) == Count(t) + 1
    decreases t
  {
    if t.nType == CatchAll {
      InsertCatchAll(t, path, h);
    } else {
      if t.nType == Param {
        NextParam(t, path);
      } else {
        var step := NextStatic(t, path);
      }
      match Next(t, path)
      case Stop(n, rest) =>
        if CommonPrefix(path, t.path) < |t.path| {
          SplitPriorities(t, CommonPrefix(path, t.path));
        }
        AttachPriorities(n, rest, h);
      case Down(k, rest) =>
        InsertPriorities(t.children[k], rest, h);
        RegrowPriorities(t, k, Insert(t.children[k], rest, h).value);
    }
  }
}
