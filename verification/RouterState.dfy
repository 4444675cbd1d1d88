/** The router object: one tree of nodes per method, the capacity of the parameter buffers, and the cached
    Allow list of the whole server. */
module RouterState {
  import opened Bytes
  import opened Pattern
  import opened RadixTree
  import opened RouteTable
  import opened ByteScan
  import opened NodeHeap
  import opened NodeLookup
  import opened StringSort
  import opened AllowText
  import opened Registry
  import D = Dispatch

  /** A check that the heap may be asked for. The verifier takes a predicate apart whenever it has to prove it; a
      value it compares, and that value is known to be the old one when nothing in the `reads` clause changed. So
      the parts of the router's invariant are values. */
  datatype Answer = Yes | No

  /** Every root is a node that hangs nowhere, of its own, and stands for the tree of its method. */
  ghost function RootsCheck(trees: map<string, Node>, values: map<string, Trie>, nodes: set<Node>): Answer
    reads nodes`abs, nodes`up
  {
    if
      && trees.Keys == values.Keys
      && (forall m :: m in trees ==> trees[m] in nodes && IsRoot(trees[m], values[m]))
      && (forall m, k :: m in trees && k in trees && m != k ==> trees[m] != trees[k])
    then Yes else No
  }

  ghost predicate IsRoot(n: Node, t: Trie)
    reads n`abs, n`up
  {
    n.up == null && n.abs == t
  }

  lemma RootAdded(trees: map<string, Node>, values: map<string, Trie>, nodes: set<Node>, verb: string, root: Node)
    requires RootsCheck(trees, values, nodes) == Yes && verb !in trees
    requires root !in nodes && IsRoot(root, Fresh(0))
    ensures RootsCheck(trees[verb := root], values[verb := Fresh(0)], nodes + {root}) == Yes
  {
  }

  lemma RootReplaced(trees: map<string, Node>, values: map<string, Trie>, was: set<Node>, nodes: set<Node>,
                     verb: string)
    requires trees.Keys == values.Keys && verb in trees && was <= nodes && trees[verb].up == null
    requires forall m :: m in trees ==> trees[m] in was && (m != verb ==> IsRoot(trees[m], values[m]))
    requires forall m, k :: m in trees && k in trees && m != k ==> trees[m] != trees[k]
    ensures RootsCheck(trees, values[verb := trees[verb].abs], nodes) == Yes
  {
  }

  ghost predicate ValuesOk(values: map<string, Trie>) {
    "" !in values && forall m :: m in values ==> RootOk(values[m]) && PrioritiesOk(values[m])
  }

  lemma UpdatedTwice(values: map<string, Trie>, verb: string, t: Trie, u: Trie)
    ensures values[verb := t][verb := u] == values[verb := u]
  {
  }

  lemma RegisterIs(values: map<string, Trie>, s: D.Settings, c: Call, stored: Handle)
    requires ProperCall(c) && stored == Stored(s, c)
    ensures var o := AddRoute(TreeAt(values, c.verb), c.path, stored);
            Register(D.Router(values, s), c) == if o.Some? then Some(D.Router(values[c.verb := o.value], s)) else None
  {
  }

  /** A registration in one method's tree leaves every tree in good shape. */
  lemma ValuesGrow(values: map<string, Trie>, verb: string, path: string, h: Handle)
    requires ValuesOk(values) && verb != "" && StartsWith(path, '/')
    ensures TreeOk(TreeAt(values, verb))
    ensures var o := AddRoute(TreeAt(values, verb), path, h);
            o.Some? ==> ValuesOk(values[verb := o.value])
  {
    NoRoutes();
    AddRouteSpec(TreeAt(values, verb), path, h);
  }

  /** A pattern that registration can count in 16 bits together with the slot for the matched route. */
  predicate Countable(p: string) {
    CountWild(p) < 0xFFFF
  }

  /** The slots of a buffer that a route may use. */
  function Slots(r: Route): nat {
    CountWild(r.pattern) + if r.handle.savedRoute.Some? then 1 else 0
  }

  /** Buffers of `max` entries hold the values of every pattern that can be counted. */
  ghost predicate Roomy(values: map<string, Trie>, max: nat) {
    forall m, r :: m in values && r in Routes(values[m]) && Countable(r.pattern) ==> Slots(r) <= max
  }

  /** The capacity after a registration. */
  function Capacity16(max: nat, path: string, extra: nat): nat {
    var n := (CountWild(path) % 0x1_0000 + extra) % 0x1_0000;
    if n > max then n else max
  }

  lemma NewRoutes(t: Trie, path: string, h: Handle)
    requires TreeOk(t) && StartsWith(path, '/') && AddRoute(t, path, h).Some?
    ensures Routes(AddRoute(t, path, h).value) == Routes(t) + {Route(path, h)}
  {
    AddRouteSpec(t, path, h);
  }

  lemma SlotFits(max: nat, path: string, h: Handle)
    ensures var max' := Capacity16(max, path, if h.savedRoute.Some? then 1 else 0);
            max <= max' && (Countable(path) ==> Slots(Route(path, h)) <= max')
  {
  }

  lemma RoomyStep(values: map<string, Trie>, verb: string, path: string, h: Handle, max: nat)
    requires Roomy(values, max) && TreeOk(TreeAt(values, verb)) && StartsWith(path, '/')
    requires AddRoute(TreeAt(values, verb), path, h).Some?
    ensures Roomy(values[verb := AddRoute(TreeAt(values, verb), path, h).value],
                  Capacity16(max, path, if h.savedRoute.Some? then 1 else 0))
  {
    var t := AddRoute(TreeAt(values, verb), path, h).value;
    var max' := Capacity16(max, path, if h.savedRoute.Some? then 1 else 0);
    NoRoutes();
    SlotFits(max, path, h);
    NewRoutes(TreeAt(values, verb), path, h);
    var values' := values[verb := t];
    forall m, r | m in values' && r in Routes(values'[m]) && Countable(r.pattern)
      ensures Slots(r) <= max'
    {
      if m != verb || r != Route(path, h) {
        assert m in values && r in Routes(values[m]);
      }
    }
  }

  class Router {
    var trees: map<string, Node>
    var maxParams: nat
    var poolReady: bool         // the pool knows how to allocate
    var pool: set<array<Binding>>         // parameter buffers that were put back
    var globalAllowed: string
    var saveMatchedRoutePath: bool
    var redirectTrailingSlash: bool
    var redirectFixedPath: bool
    var handleMethodNotAllowed: bool
    var handleOptions: bool

    ghost var values: map<string, Trie>   // the tree of each method
    ghost var repr: set<Node>             // all nodes

    /** A new router, with the settings that its owner chooses before registering anything. */
    constructor (s: D.Settings)
      ensures Valid() && View() == D.Router(map[], s) && repr == {} && pool == {} && maxParams == 0
    {
      trees, maxParams, poolReady, pool, globalAllowed := map[], 0, false, {}, "";
      saveMatchedRoutePath, redirectTrailingSlash, redirectFixedPath :=
        s.saveMatchedRoutePath, s.redirectTrailingSlash, s.redirectFixedPath;
      handleMethodNotAllowed, handleOptions := s.handleMethodNotAllowed, s.handleOptions;
      values, repr := map[], {};
      new;
      assert Lists([], {}) && Join([]) == "";
    }

    function Settings(): D.Settings
      reads `saveMatchedRoutePath, `redirectTrailingSlash, `redirectFixedPath, `handleMethodNotAllowed, `handleOptions
    {
      D.Settings(saveMatchedRoutePath, redirectTrailingSlash, redirectFixedPath, handleMethodNotAllowed, handleOptions)
    }

    /** The router as a value. */
    ghost function View(): D.Router
      reads `values, `saveMatchedRoutePath, `redirectTrailingSlash, `redirectFixedPath,
          `handleMethodNotAllowed, `handleOptions
    {
      D.Router(values, Settings())
    }

    /** Sound nodes, and one root for each method. */
    ghost predicate Forest()
      reads `trees, `values, `repr, repr
    {
      ForestCheck() == Yes
    }

    ghost function ForestCheck(): Answer
      reads `trees, `values, `repr, repr
    {
      if Sound(repr, {}) && RootsCheck(trees, values, repr) == Yes then Yes else No
    }

    /** Every method's tree is in good shape. */
    ghost predicate Healthy()
      reads `values
    {
      ValuesOk(values)
    }

    /** The capacity that the pool allocates with is sufficient. */
    ghost predicate Covers()
      reads `values, `maxParams, `poolReady
    {
      CoverCheck() == Yes
    }

    ghost function CoverCheck(): Answer
      reads `values, `maxParams, `poolReady
    {
      if maxParams < 0x1_0000 && poolReady == (maxParams > 0) && Roomy(values, maxParams) then Yes else No
    }

    /** The cached list is what would be computed now. */
    ghost predicate CacheFresh()
      reads `trees, `globalAllowed, `handleOptions
    {
      CacheCheck() == Yes
    }

    ghost function CacheCheck(): Answer
      reads `trees, `globalAllowed, `handleOptions
    {
      if Spells(globalAllowed, D.WithOptions(trees.Keys - {"OPTIONS"}, handleOptions)) then Yes else No
    }

    ghost predicate Valid()
      reads `trees, `values, `repr, `maxParams, `poolReady, `globalAllowed, `handleOptions, repr
    {
      Forest() && Healthy() && Covers() && CacheFresh()
    }

    /** Registers a handler for a method and a path. After a rejection the router is abandoned. */
    method Handle(verb: string, path: string, handler: Option<nat>) returns (ok: bool)
      requires Valid()
      modifies this, repr
      ensures ok <==> Register(old(View()), Call(verb, path, handler)).Some?
      ensures pool == old(pool)
      ensures ok ==> Valid() && View() == Register(old(View()), Call(verb, path, handler)).value
      ensures ok ==> maxParams == Capacity16(old(maxParams), path, if old(saveMatchedRoutePath) then 1 else 0)
      ensures ok ==> forall n :: n in repr ==> n in old(repr) || fresh(n)
    {
      if verb == "" || path == "" || path[0] != '/' || handler == None {
        return false;
      }
      var varsCount, stored := 0, RadixTree.Handle(handler.value, None);
      if saveMatchedRoutePath {
        varsCount := 1;
        stored := RadixTree.Handle(handler.value, Some(path));
      }
      RegisterIs(values, Settings(), Call(verb, path, handler), stored);
      ok := Store(verb, path, stored, varsCount);
    }

    /** The tree, and then the capacity. */
    method Store(verb: string, path: string, stored: Handle, varsCount: nat) returns (ok: bool)
      requires Valid() && verb != "" && StartsWith(path, '/') && varsCount == if stored.savedRoute.Some? then 1 else 0
      modifies `trees, `values, `repr, `globalAllowed, `maxParams, `poolReady, repr
      ensures ok <==> AddRoute(TreeAt(old(values), verb), path, stored).Some?
      ensures ok ==> Valid() && values == old(values)[verb := AddRoute(TreeAt(old(values), verb), path, stored).value]
      ensures ok ==> maxParams == Capacity16(old(maxParams), path, varsCount)
      ensures ok ==> forall n :: n in repr ==> n in old(repr) || fresh(n)
    {
      ValuesGrow(values, verb, path, stored);
      if AddRoute(TreeAt(values, verb), path, stored).Some? {
        RoomyStep(values, verb, path, stored, maxParams);
      }
      ok := Enter(verb, path, stored);
      if ok {
        Resize(path, varsCount);
      }
    }

    /** The end of `Handle`: a larger capacity if the new route needs one. */
    method Resize(path: string, varsCount: nat)
      requires poolReady == (maxParams > 0) && maxParams < 0x1_0000
      requires Roomy(values, Capacity16(maxParams, path, varsCount))
      modifies `maxParams, `poolReady
      ensures maxParams == Capacity16(old(maxParams), path, varsCount) && Covers()
    {
      var paramsCount := CountParams(path);
      if (paramsCount + varsCount) % 0x1_0000 > maxParams {
        maxParams := (paramsCount + varsCount) % 0x1_0000;
      }
      if !poolReady && maxParams > 0 {
        poolReady := true;
      }
    }

    /** The part of `Handle` that concerns the trees. */
    method Enter(verb: string, path: string, stored: Handle) returns (ok: bool)
      requires Forest() && Healthy() && CacheFresh() && verb != "" && StartsWith(path, '/')
      modifies `trees, `values, `repr, `globalAllowed, repr
      ensures ok <==> AddRoute(TreeAt(old(values), verb), path, stored).Some?
      ensures ok ==> Forest() && Healthy() && CacheFresh()
      ensures ok ==> forall n :: n in repr ==> n in old(repr) || fresh(n)
      ensures ok ==> values == old(values)[verb := AddRoute(TreeAt(old(values), verb), path, stored).value]
    {
      ValuesGrow(values, verb, path, stored);
      var root := RootFor(verb);
      ok := Plant(verb, root, path, stored);
      if ok {
        UpdatedTwice(old(values), verb, TreeAt(old(values), verb), values[verb]);
      }
    }

    /** The root for a method. A new one is put in place, and the cached Allow list refreshed, before anything
        is registered below it. */
    method RootFor(verb: string) returns (root: Node)
      requires Forest() && CacheFresh()
      modifies `trees, `values, `repr, `globalAllowed
      ensures verb in trees && trees[verb] == root && (forall n :: n in repr ==> n in old(repr) || fresh(n))
      ensures values == old(values)[verb := TreeAt(old(values), verb)]
      ensures Forest() && CacheFresh()
    {
      if verb in trees {
        assert values == values[verb := values[verb]];
        return trees[verb];
      }
      root := NewRoot(verb);
      Refresh();
    }

    method Refresh()
      requires trees.Keys == values.Keys
      modifies `globalAllowed
      ensures CacheFresh()
    {
      globalAllowed := Allowed("*", "");
    }

    /** Puts a new, empty tree in place. */
    method NewRoot(verb: string) returns (root: Node)
      requires Forest() && verb !in trees
      modifies `trees, `values, `repr
      ensures verb in trees && trees[verb] == root && repr == old(repr) + {root} && fresh(root)
      ensures values == old(values)[verb := Fresh(0)] && trees.Keys == values.Keys
      ensures Forest()
    {
      root := NewNode();
      RootAdded(trees, values, repr, verb, root);
      trees := trees[verb := root];
      values := values[verb := Fresh(0)];
      repr := repr + {root};
    }

    method NewNode() returns (root: Node)
      requires Sound(repr, {})
      ensures fresh(root) && IsRoot(root, Fresh(0)) && Sound(repr + {root}, {})
    {
      root := new Node("", "", false, Static, 0, [], None, Fresh(0));
      forall n | n in repr ensures n.Is(n.abs) {
        assert n.Is(n.abs) == old(n.Is(n.abs));
      }
    }

    /** Registers below a root that is in place. */
    method Plant(verb: string, root: Node, path: string, handle: Handle) returns (ok: bool)
      requires Forest() && verb in trees && root == trees[verb]
      requires verb in values && TreeOk(values[verb]) && StartsWith(path, '/')
      modifies repr, `values, `repr
      ensures ok <==> AddRoute(old(values[verb]), path, handle).Some?
      ensures ok ==> Forest() && values == old(values)[verb := AddRoute(old(values[verb]), path, handle).value]
      ensures ok ==> forall n :: n in repr ==> n in old(repr) || fresh(n)
    {
      ghost var nodes;
      ok, nodes := PlantNodes(verb, root, path, handle);
      if ok {
        values := values[verb := root.abs];
        repr := nodes;
      }
    }

    /** The nodes of one tree change; the roots of the other trees stay what they are. */
    method PlantNodes(verb: string, root: Node, path: string, handle: Handle) returns (ok: bool, ghost nodes: set<Node>)
      requires Forest() && verb in trees && root == trees[verb]
      requires verb in values && TreeOk(values[verb]) && StartsWith(path, '/')
      modifies repr
      ensures ok <==> AddRoute(values[verb], path, handle).Some?
      ensures repr <= nodes && (forall n :: n in nodes && n !in repr ==> fresh(n))
      ensures ok ==> Sound(nodes, {}) && root.abs == AddRoute(values[verb], path, handle).value
      ensures ok ==> RootsCheck(trees, values[verb := root.abs], nodes) == Yes
    {
      ok, nodes := root.AddRoute(path, handle, repr);
      if ok {
        forall m | m in trees && m != verb ensures IsRoot(trees[m], values[m]) {
          assert trees[m] in repr && old(IsRoot(trees[m], values[m]));
        }
        RootReplaced(trees, values, repr, nodes, verb);
      }
    }

    /** Once registration is over, every buffer of the pool is large enough. */
    ghost predicate PoolOk()
      reads `pool, `maxParams
    {
      PoolCheck() == Yes
    }

    ghost function PoolCheck(): Answer
      reads `pool, `maxParams
    {
      if forall ps :: ps in pool ==> ps.Length >= maxParams then Yes else No
    }

    /** A buffer that was put back, whichever the pool hands out, or a new one. */
    method GetParams() returns (ps: array<Binding>)
      requires poolReady && PoolOk()
      modifies `pool
      ensures PoolOk() && pool == old(pool) - {ps} && (ps in old(pool) || fresh(ps)) && ps.Length >= maxParams
    {
      var reuse: bool := *;
      if reuse && pool != {} {
        ps :| ps in pool;
        pool := pool - {ps};
      } else {
        ps := new Binding[maxParams](_ => Binding("", ""));
      }
    }

    /** The caller gives up the buffer. */
    method PutParams(ps: array<Binding>)
      requires PoolOk() && ps !in pool && ps.Length >= maxParams
      modifies `pool
      ensures PoolOk() && pool == old(pool) + {ps}
    {
      pool := pool + {ps};
    }

    /** The Allow text for a path, or for the whole server. */
    method Allowed(path: string, reqMethod: string) returns (allow: string)
      requires trees.Keys == values.Keys && ((path == "*" && reqMethod == "") || (Forest() && Healthy() &&
          CacheFresh()))
      ensures Spells(allow, D.AllowedMethods(View(), path, reqMethod))
    {
      ghost var ms := if path == "*" then trees.Keys - {"OPTIONS"} else D.Others(View(), path, reqMethod);
      var allowed;
      if path == "*" {
        if reqMethod != "" {
          return globalAllowed;
        }
        allowed := AllMethods();
      } else {
        allowed := OtherMethods(path, reqMethod);
      }
      allow := ListText(allowed, ms);
    }

    /** The end of `Allowed`: OPTIONS is added to a list that is not empty, and the list is sorted. */
    method ListText(methods: seq<string>, ghost ms: set<string>) returns (allow: string)
      requires Collects(methods, ms) && "OPTIONS" !in ms
      ensures Spells(allow, D.WithOptions(ms, handleOptions))
    {
      var allowed := methods;
      if |allowed| > 0 {
        assert allowed[0] in Elements(allowed);
        if handleOptions {
          CollectsMore(allowed, ms, "OPTIONS");
          allowed := allowed + ["OPTIONS"];
        }
      }
      assert Elements(allowed) == D.WithOptions(ms, handleOptions);
      allow := SortedText(allowed);
    }

    /** Server-wide: every method but OPTIONS, in the order in which the map yields them. */
    method AllMethods() returns (allowed: seq<string>)
      ensures Collects(allowed, trees.Keys - {"OPTIONS"})
    {
      allowed := [];
      var todo := trees.Keys;
      while todo != {}
        invariant todo <= trees.Keys && Collects(allowed, trees.Keys - {"OPTIONS"} - todo)
        decreases |todo|
      {
        var m :| m in todo;
        if m != "OPTIONS" {
          CollectsMore(allowed, trees.Keys - {"OPTIONS"} - todo, m);
          allowed := allowed + [m];
        }
        Visited(trees.Keys - {"OPTIONS"}, todo, m);
        todo := todo - {m};
      }
    }

    /** Specific path: the other methods that dispatch it. */
    method OtherMethods(path: string, reqMethod: string) returns (allowed: seq<string>)
      requires Forest() && Healthy()
      ensures Collects(allowed, D.Others(View(), path, reqMethod))
    {
      allowed := [];
      var todo := trees.Keys;
      ghost var others := D.Others(View(), path, reqMethod);
      while todo != {}
        invariant todo <= trees.Keys && Collects(allowed, others - todo)
        decreases |todo|
      {
        var m :| m in todo;
        var other := IsOther(m, path, reqMethod);
        if other {
          CollectsMore(allowed, others - todo, m);
          allowed := allowed + [m];
        }
        Visited(others, todo, m);
        todo := todo - {m};
      }
    }

    /** Skips the requested method and OPTIONS, and tries any other. */
    method IsOther(m: string, path: string, reqMethod: string) returns (other: bool)
      requires Forest() && Healthy() && m in trees
      ensures other <==> m in D.Others(View(), path, reqMethod)
    {
      if m == reqMethod || m == "OPTIONS" {
        return false;
      }
      var handle, used, tsr := GetValue(trees[m], path, null, repr);
      other := handle != None;
    }
  }

  function Elements(s: seq<string>): set<string> {
    set m | m in s
  }

  /** `s` lists `S` without repetition. */
  predicate Collects(s: seq<string>, S: set<string>) {
    Distinct(s) && Elements(s) == S
  }

  lemma CollectsMore(s: seq<string>, S: set<string>, m: string)
    requires Collects(s, S) && m !in S
    ensures Collects(s + [m], S + {m})
  {
    assert m !in s;
  }

  lemma Visited(wanted: set<string>, todo: set<string>, m: string)
    requires m in todo
    ensures wanted - (todo - {m}) == if m in wanted then wanted - todo + {m} else wanted - todo
    ensures |todo - {m}| < |todo|
  {
  }

  /** Sorts the collected methods and joins them. */
  method SortedText(ms: seq<string>) returns (text: string)
    requires Distinct(ms)
    ensures Spells(text, Elements(ms))
  {
    var a := new string[|ms|](i requires 0 <= i < |ms| => ms[i]);
    assert a[..] == ms;
    InsertionSort(a);
    SortLists(ms);
    text := Join(a[..]);
  }
}
