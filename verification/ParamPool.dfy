/** The pooled parameter buffers under concurrent requests: a state machine whose events are the single
    steps of any number of requests, in any interleaving. All registration is over before it starts. */
module ParamPool {
  import opened Bytes
  import opened Pattern
  import opened RadixTree
  import opened Lookup
  import opened Serving

  /** Who asks: `ServeHTTP` for a request, or a caller of `Router.Lookup`, who keeps the values it gets. */
  datatype Origin = Request | Caller

  datatype Phase = Looking(saved: nat) | Handling | Kept | Over

  /** A lookup: who wants it, the bindings it saves one by one, the handle it finds, and the buffer it has fetched. */
  datatype Job = Job(origin: Origin, verb: string, path: string, plan: seq<Binding>, handle: Option<Handle>,
                     buf: Option<nat>, phase: Phase)

  /** `cells` holds what each buffer ever allocated contains; `pool` are the buffers put back, as often as they
      were. */
  datatype State = State(values: map<string, Trie>, cap: nat, pool: multiset<nat>, cells: map<nat, seq<Binding>>,
                         jobs: map<nat, Job>)

  datatype Event =
    | Arrive(j: nat, origin: Origin, verb: string, path: string)
    | Fetch(j: nat, b: nat)    // take a buffer from the pool, or allocate one
    | Save(j: nat)             // one wildcard value
    | Decide(j: nat)           // the lookup is over; a caller's buffer is put back if it found nothing
    | Return(j: nat)           // the handler returns and the buffer is put back
    | Abort(j: nat)            // the handler panics, and the buffer is not put back
    | Evict(b: nat)            // the pool drops a buffer

  /** `Stuck`: the event cannot happen now. `Overrun`: a slice would leave the capacity of its buffer, or the pool
      is empty and was never told how to allocate. */
  datatype Outcome = Stuck | Overrun | Next(state: State)

  /** The wrapper adds the route when the handler is called, which only `ServeHTTP` does. */
  function Added(job: Job): seq<Binding> {
    if job.origin == Request then Extra(job.handle) else []
  }

  /** What the handler is meant to be called with, or the caller to be given. */
  function Seen(job: Job): seq<Binding> {
    job.plan + Added(job)
  }

  /** The request still has to write and has no buffer. */
  predicate NeedsBuffer(job: Job) {
    && job.phase.Looking? && job.buf.None?
    && (job.phase.saved < |job.plan| || (job.phase.saved == |job.plan| && Added(job) != []))
  }

  function Apply(s: State, e: Event): Outcome {
    if e.Arrive? then Admit(s, e.j, e.origin, e.verb, e.path) else Proceed(s, e)
  }

  function Admit(s: State, j: nat, origin: Origin, verb: string, path: string): Outcome {
    if j in s.jobs || verb !in s.values || !Get(s.values[verb], path).Found? then Stuck
    else
      var r := Get(s.values[verb], path);
      Next(s.(jobs := s.jobs[j := Job(origin, verb, path, r.params, r.handle, None, Looking(0))]))
  }

  function Proceed(s: State, e: Event): Outcome
    requires !e.Arrive?
  {
    match e
    case Fetch(j, b) =>
      if j !in s.jobs || !NeedsBuffer(s.jobs[j]) || (b in s.cells && b !in s.pool) then Stuck
      else if b !in s.pool && s.cap == 0 then Overrun
      else
        Next(s.(pool := s.pool - multiset{b}, cells := s.cells[b := []],
                jobs := s.jobs[j := s.jobs[j].(buf := Some(b))]))
    case Save(j) =>
      if j !in s.jobs || !Saving(s.jobs[j]) then Stuck
      else
        var job := s.jobs[j];
        Write(s, j, job.plan[job.phase.saved], job.(phase := Looking(job.phase.saved + 1)))
    case Decide(j) =>
      if j !in s.jobs || s.jobs[j].phase != Looking(|s.jobs[j].plan|) || NeedsBuffer(s.jobs[j]) then Stuck
      else Conclude(s, j, s.jobs[j])
    case Return(j) =>
      if j !in s.jobs || s.jobs[j].phase != Handling then Stuck else Next(PutBack(s, j, s.jobs[j]))
    case Abort(j) =>
      if j !in s.jobs || s.jobs[j].phase != Handling then Stuck
      else Next(s.(jobs := s.jobs[j := s.jobs[j].(buf := None, phase := Over)]))
    case Evict(b) => if b in s.pool then Next(s.(pool := s.pool - multiset{b})) else Stuck
  }

  predicate Saving(job: Job) {
    job.phase.Looking? && job.phase.saved < |job.plan| && job.buf.Some?
  }

  /** A lookup that found nothing ends here, one of `ServeHTTP` without its buffer; otherwise the handler runs, or
      the caller keeps what was found. */
  function Conclude(s: State, j: nat, job: Job): Outcome {
    if job.handle.None? then
      Next(if job.origin == Caller then PutBack(s, j, job)
           else s.(jobs := s.jobs[j := job.(buf := None, phase := Over)]))
    else if job.origin == Caller then Next(s.(jobs := s.jobs[j := job.(phase := Kept)]))
    else if Added(job) == [] then Next(s.(jobs := s.jobs[j := job.(phase := Handling)]))
    else Write(s, j, Added(job)[0], job.(phase := Handling))
  }

  function PutBack(s: State, j: nat, job: Job): State {
    var back := if job.buf.Some? then multiset{job.buf.value} else multiset{};
    s.(pool := s.pool + back, jobs := s.jobs[j := job.(buf := None, phase := Over)])
  }

  /** Expands the slice of job `j` by one entry and writes it. */
  function Write(s: State, j: nat, x: Binding, job: Job): Outcome {
    if job.buf.None? || job.buf.value !in s.cells || |s.cells[job.buf.value]| >= s.cap then Overrun
    else
      var b := job.buf.value;
      Next(s.(cells := s.cells[b := s.cells[b] + [x]], jobs := s.jobs[j := job]))
  }

  /** Any run of events, from a router with no request. */
  function Run(values: map<string, Trie>, cap: nat, es: seq<Event>): Outcome {
    if es == [] then Next(State(values, cap, multiset{}, map[], map[]))
    else
      match Run(values, cap, es[..|es| - 1])
      case Stuck => Stuck
      case Overrun => Overrun
      case Next(s) => Apply(s, es[|es| - 1])
  }

  // ----- what every step keeps

  /** The buffer of a request holds exactly what that request has written. */
  predicate JobOk(s: State, job: Job) {
    && |Seen(job)| <= s.cap
    && (job.buf.Some? ==> job.buf.value in s.cells && job.buf.value !in s.pool)
    && match job.phase
       case Looking(saved) =>
         && saved <= |job.plan|
         && (if job.buf.Some? then s.cells[job.buf.value] == job.plan[..saved] else saved == 0)
       case Over => job.buf.None?
       case _ => if job.buf.Some? then s.cells[job.buf.value] == Seen(job) else Seen(job) == []
  }

  predicate Exclusive(s: State) {
    forall j, k :: j in s.jobs && k in s.jobs && j != k && s.jobs[j].buf.Some? && s.jobs[k].buf.Some? ==>
                     s.jobs[j].buf.value != s.jobs[k].buf.value
  }

  /** No buffer is in the pool twice. */
  predicate PoolOk(s: State) {
    forall b :: b in s.pool ==> b in s.cells && s.pool[b] == 1
  }

  ghost predicate Inv(s: State) {
    && Exclusive(s) && PoolOk(s)
    && forall j :: j in s.jobs ==> JobOk(s, s.jobs[j])
  }

  /** A step of job `j` that touches no other job's buffer keeps what the others rely on. */
  lemma OthersKept(s: State, s': State, j: nat)
    requires Inv(s) && s'.cap == s.cap && s'.jobs.Keys == s.jobs.Keys + {j} && PoolOk(s')
    requires forall k :: k in s.jobs && k != j ==> s'.jobs[k] == s.jobs[k]
    requires forall k :: k in s.jobs && k != j && s.jobs[k].buf.Some? ==>
               var b := s.jobs[k].buf.value;
               b in s'.cells && b !in s'.pool && s'.cells[b] == s.cells[b] && s'.jobs[j].buf != Some(b)
    requires JobOk(s', s'.jobs[j])
    ensures Inv(s')
  {
    forall k | k in s'.jobs ensures JobOk(s', s'.jobs[k]) {
      if k != j {
        assert JobOk(s, s.jobs[k]);
      }
    }
    forall k, l | k in s'.jobs && l in s'.jobs && k != l && s'.jobs[k].buf.Some? && s'.jobs[l].buf.Some?
      ensures s'.jobs[k].buf.value != s'.jobs[l].buf.value
    {
      if k != j && l != j {
        assert s'.jobs[k] == s.jobs[k] && s'.jobs[l] == s.jobs[l];
      }
    }
  }

  /** An outcome after which everything is still in order. */
  ghost predicate Safe(s: State, o: Outcome) {
    o != Overrun && (o.Next? ==> Inv(o.state) && o.state.values == s.values && o.state.cap == s.cap)
  }

  lemma AdmitSafe(s: State, j: nat, origin: Origin, verb: string, path: string)
    requires Inv(s) && Ready(s.values, s.cap)
    ensures Safe(s, Admit(s, j, origin, verb, path))
  {
    if Admit(s, j, origin, verb, path).Next? {
      PlanFits(s.values, s.cap, verb, path);
      OthersKept(s, Admit(s, j, origin, verb, path).state, j);
    }
  }

  lemma WriteSafe(s: State, j: nat, x: Binding, job: Job)
    requires Inv(s) && j in s.jobs && job.buf == s.jobs[j].buf && job.buf.Some? && |s.cells[job.buf.value]| < s.cap
    requires JobOk(s.(cells := s.cells[job.buf.value := s.cells[job.buf.value] + [x]]), job)
    ensures Safe(s, Write(s, j, x, job))
  {
    OthersKept(s, Write(s, j, x, job).state, j);
  }

  lemma FetchSafe(s: State, e: Event)
    requires Inv(s) && e.Fetch?
    ensures Safe(s, Proceed(s, e))
  {
    if Proceed(s, e) != Stuck {
      assert JobOk(s, s.jobs[e.j]);
    }
    if Proceed(s, e).Next? {
      OthersKept(s, Proceed(s, e).state, e.j);
    }
  }

  lemma SaveSafe(s: State, e: Event)
    requires Inv(s) && e.Save?
    ensures Safe(s, Proceed(s, e))
  {
    if Proceed(s, e) != Stuck {
      var job := s.jobs[e.j];
      assert JobOk(s, job);
      var saved := job.phase.saved;
      assert job.plan[..saved] + [job.plan[saved]] == job.plan[..saved + 1];
      WriteSafe(s, e.j, job.plan[saved], job.(phase := Looking(saved + 1)));
    }
  }

  lemma PutBackSafe(s: State, j: nat)
    requires Inv(s) && j in s.jobs
    ensures Safe(s, Next(PutBack(s, j, s.jobs[j])))
  {
    assert JobOk(s, s.jobs[j]);
    OthersKept(s, PutBack(s, j, s.jobs[j]), j);
  }

  /** A step that changes nothing but the phase of one job, or takes its buffer away. */
  lemma PhaseSafe(s: State, j: nat, job: Job)
    requires Inv(s) && j in s.jobs && (job.buf == s.jobs[j].buf || job.buf == None) && JobOk(s, job)
    ensures Safe(s, Next(s.(jobs := s.jobs[j := job])))
  {
    OthersKept(s, s.(jobs := s.jobs[j := job]), j);
  }

  lemma ConcludeSafe(s: State, j: nat, job: Job)
    requires Inv(s) && j in s.jobs && job == s.jobs[j] && job.phase == Looking(|job.plan|) && !NeedsBuffer(job)
    ensures Safe(s, Conclude(s, j, job))
  {
    assert JobOk(s, job) && job.plan[..|job.plan|] == job.plan;
    if job.handle.None? {
      if job.origin == Caller {
        PutBackSafe(s, j);
      } else {
        PhaseSafe(s, j, job.(buf := None, phase := Over));
      }
    } else if job.origin == Caller {
      PhaseSafe(s, j, job.(phase := Kept));
    } else if Added(job) == [] {
      PhaseSafe(s, j, job.(phase := Handling));
    } else {
      WriteSafe(s, j, Added(job)[0], job.(phase := Handling));
    }
  }

  lemma DecideSafe(s: State, e: Event)
    requires Inv(s) && e.Decide?
    ensures Safe(s, Proceed(s, e))
  {
    if Proceed(s, e) != Stuck {
      ConcludeSafe(s, e.j, s.jobs[e.j]);
    }
  }

  lemma EndSafe(s: State, e: Event)
    requires Inv(s) && (e.Return? || e.Abort?)
    ensures Safe(s, Proceed(s, e))
  {
    if Proceed(s, e).Next? {
      if e.Return? {
        PutBackSafe(s, e.j);
      } else {
        PhaseSafe(s, e.j, s.jobs[e.j].(buf := None, phase := Over));
      }
    }
  }

  lemma StepSafe(s: State, e: Event)
    requires Inv(s) && Ready(s.values, s.cap)
    ensures Safe(s, Apply(s, e))
  {
    match e
    case Arrive(j, origin, verb, path) => AdmitSafe(s, j, origin, verb, path);
    case Fetch(_, _) => FetchSafe(s, e);
    case Save(_) => SaveSafe(s, e);
    case Decide(_) => DecideSafe(s, e);
    case Evict(_) =>
    case _ => EndSafe(s, e);
  }

  /** No interleaving makes a slice leave its buffer, lets two requests hold one buffer, or lets one
      request's values show up in another's. */
  lemma {:induction false} RunSafe(values: map<string, Trie>, cap: nat, es: seq<Event>)
    requires Ready(values, cap)
    ensures Run(values, cap, es) != Overrun
    ensures Run(values, cap, es).Next? ==>
              var s := Run(values, cap, es).state;
              Inv(s) && s.values == values && s.cap == cap
    decreases |es|
  {
    if es != [] {
      RunSafe(values, cap, es[..|es| - 1]);
      if Run(values, cap, es[..|es| - 1]).Next? {
        StepSafe(Run(values, cap, es[..|es| - 1]).state, es[|es| - 1]);
      }
    }
  }

  // ----- what a handler is called with

  /** The job carries what the lookup of its own path says. */
  predicate Genuine(values: map<string, Trie>, job: Job) {
    && job.verb in values
    && var r := Get(values[job.verb], job.path);
       r.Found? && r.params == job.plan && r.handle == job.handle
  }

  predicate SameRequest(a: Job, b: Job) {
    a.origin == b.origin && a.verb == b.verb && a.path == b.path && a.plan == b.plan && a.handle == b.handle
  }

  /** How many steps a lookup and its handler still take. */
  function Left(job: Job): nat {
    match job.phase
    case Looking(saved) =>
      2 + (if saved < |job.plan| then |job.plan| - saved else 0) + if job.buf.None? then 1 else 0
    case Handling => 1
    case _ => 0
  }

  /** A step of one lookup brings it nearer to its end, changes nothing about what was asked, and leaves all
      others where they are. */
  lemma StepJob(s: State, e: Event) returns (job: Job)
    requires !e.Arrive? && !e.Evict? && Proceed(s, e).Next?
    ensures e.j in s.jobs && Proceed(s, e).state.jobs == s.jobs[e.j := job]
    ensures SameRequest(job, s.jobs[e.j]) && Left(job) < Left(s.jobs[e.j])
  {
    if e.Decide? {
      job := ConcludeJob(s, e.j, s.jobs[e.j]);
    } else {
      job := Proceed(s, e).state.jobs[e.j];
    }
  }

  lemma ConcludeJob(s: State, j: nat, was: Job) returns (job: Job)
    requires was.phase.Looking? && Conclude(s, j, was).Next?
    ensures Conclude(s, j, was).state.jobs == s.jobs[j := job]
    ensures SameRequest(job, was) && Left(job) < Left(was)
  {
    job := if was.handle.None? then was.(buf := None, phase := Over)
           else was.(phase := if was.origin == Caller then Kept else Handling);
  }

  lemma {:induction false} RunGenuine(values: map<string, Trie>, cap: nat, es: seq<Event>, j: nat)
    requires Ready(values, cap) && Run(values, cap, es).Next? && j in Run(values, cap, es).state.jobs
    ensures Genuine(values, Run(values, cap, es).state.jobs[j])
    decreases |es|
  {
    var init, e := es[..|es| - 1], es[|es| - 1];
    var s := Run(values, cap, init).state;
    RunSafe(values, cap, init);
    if !e.Arrive? && !e.Evict? {
      var job := StepJob(s, e);
    }
    if j in s.jobs {
      RunGenuine(values, cap, init, j);
    }
  }

  /** The parameters that a running handler reads. */
  function Visible(s: State, job: Job): seq<Binding>
    requires job.buf.Some? ==> job.buf.value in s.cells
  {
    if job.buf.Some? then s.cells[job.buf.value] else []
  }

  /** In every interleaving, a running handler reads the bindings of its own request, as if it ran alone,
      with the matched route at the end if the router saves it. A caller of `Router.Lookup` keeps the bindings of
      its own lookup, whatever happens later. */
  lemma HandlerSeesOwn(values: map<string, Trie>, cap: nat, es: seq<Event>, j: nat)
    requires Ready(values, cap) && Run(values, cap, es).Next? && j in Run(values, cap, es).state.jobs
    requires var phase := Run(values, cap, es).state.jobs[j].phase; phase.Handling? || phase.Kept?
    ensures var s := Run(values, cap, es).state;
            var job := s.jobs[j];
            && (job.buf.Some? ==> job.buf.value in s.cells)
            && job.verb in values
            && Get(values[job.verb], job.path).Found?
            && var r := Get(values[job.verb], job.path);
            && Visible(s, job) == r.params + if job.origin == Request then Extra(r.handle) else []
  {
    RunSafe(values, cap, es);
    RunGenuine(values, cap, es, j);
    assert JobOk(Run(values, cap, es).state, Run(values, cap, es).state.jobs[j]);
  }

  // ----- no lookup waits for ever

  lemma {:induction false} NewBuffer(used: set<nat>) returns (b: nat)
    ensures forall u :: u in used ==> u < b
    decreases used
  {
    b := 0;
    if used != {} {
      var u :| u in used;
      var c := NewBuffer(used - {u});
      b := if u < c then c else u + 1;
      assert forall v :: v in used && v != u ==> v in used - {u};
    }
  }

  /** Something that can happen to a lookup that is not over. */
  lemma StepOf(s: State, j: nat) returns (e: Event)
    requires j in s.jobs && JobOk(s, s.jobs[j]) && Left(s.jobs[j]) > 0
    ensures !e.Arrive? && !e.Evict? && e.j == j && Proceed(s, e) != Stuck
  {
    var job := s.jobs[j];
    if job.phase.Handling? {
      e := Return(j);
    } else if NeedsBuffer(job) {
      var b := NewBuffer(s.cells.Keys);
      e := Fetch(j, b);
    } else if Saving(job) {
      e := Save(j);
    } else {
      e := Decide(j);
    }
  }

  /** In every reachable state each lookup that is not over can take a step, whatever the others do, and is
      then nearer to its end. */
  lemma NeverStuck(values: map<string, Trie>, cap: nat, es: seq<Event>, j: nat) returns (e: Event)
    requires Ready(values, cap) && Run(values, cap, es).Next? && j in Run(values, cap, es).state.jobs
    requires Left(Run(values, cap, es).state.jobs[j]) > 0
    ensures !e.Arrive? && !e.Evict? && e.j == j && Run(values, cap, es + [e]).Next?
    ensures var s, s' := Run(values, cap, es).state, Run(values, cap, es + [e]).state;
            j in s'.jobs && Left(s'.jobs[j]) < Left(s.jobs[j])
  {
    RunSafe(values, cap, es);
    var s := Run(values, cap, es).state;
    assert JobOk(s, s.jobs[j]);
    e := StepOf(s, j);
    assert (es + [e])[..|es|] == es && Run(values, cap, es + [e]) == Proceed(s, e);
    RunSafe(values, cap, es + [e]);
    var next := StepJob(s, e);
  }

  // ----- no buffer is lost but by these

  /** The pool drops a buffer, a handler panics, or `ServeHTTP` finds nothing for a path that met a wildcard. */
  predicate Loses(s: State, e: Event) {
    || e.Evict? || e.Abort?
    || (e.Decide? && e.j in s.jobs && s.jobs[e.j].origin == Request && s.jobs[e.j].handle.None?)
  }

  /** Every buffer ever allocated is in the pool or held by a lookup. */
  ghost predicate Accounted(s: State) {
    forall b :: b in s.cells ==> b in s.pool || exists j :: j in s.jobs && s.jobs[j].buf == Some(b)
  }

  /** None of the events loses a buffer. */
  predicate Careful(values: map<string, Trie>, cap: nat, es: seq<Event>) {
    es != [] ==>
      && Careful(values, cap, es[..|es| - 1])
      && match Run(values, cap, es[..|es| - 1])
         case Next(s) => !Loses(s, es[|es| - 1])
         case _ => true
  }

  lemma StepAccounts(s: State, e: Event)
    requires Inv(s) && Accounted(s) && !Loses(s, e) && Apply(s, e).Next?
    ensures Accounted(Apply(s, e).state)
  {
    var s' := Apply(s, e).state;
    forall b | b in s'.cells ensures b in s'.pool || exists j :: j in s'.jobs && s'.jobs[j].buf == Some(b) {
      if !(e.Fetch? && e.b == b) {
        OldBuffer(s, e, b);
        if b in s.pool {
          PoolKeeps(s, e, b);
        } else {
          var j :| j in s.jobs && s.jobs[j].buf == Some(b);
          HolderKeeps(s, e, b, j);
        }
      } else {
        assert s'.jobs[e.j].buf == Some(b);
      }
    }
  }

  lemma OldBuffer(s: State, e: Event, b: nat)
    requires Inv(s) && Apply(s, e).Next? && b in Apply(s, e).state.cells && !(e.Fetch? && e.b == b)
    ensures b in s.cells
  {
  }

  lemma PoolKeeps(s: State, e: Event, b: nat)
    requires Inv(s) && !Loses(s, e) && Apply(s, e).Next? && b in s.pool && !(e.Fetch? && e.b == b)
    ensures b in Apply(s, e).state.pool
  {
  }

  lemma HolderKeeps(s: State, e: Event, b: nat, j: nat)
    requires Inv(s) && !Loses(s, e) && Apply(s, e).Next? && j in s.jobs && s.jobs[j].buf == Some(b)
    ensures var s' := Apply(s, e).state;
            b in s'.pool || (j in s'.jobs && s'.jobs[j].buf == Some(b))
  {
    assert JobOk(s, s.jobs[j]);
  }

  /** As long as none of these happens, all buffers are in the pool or held, each of them once. */
  lemma {:induction false} NoneLost(values: map<string, Trie>, cap: nat, es: seq<Event>)
    requires Ready(values, cap) && Careful(values, cap, es) && Run(values, cap, es).Next?
    ensures Accounted(Run(values, cap, es).state) && Inv(Run(values, cap, es).state)
    decreases |es|
  {
    RunSafe(values, cap, es);
    if es != [] {
      var init := es[..|es| - 1];
      RunSafe(values, cap, init);
      NoneLost(values, cap, init);
      StepAccounts(Run(values, cap, init).state, es[|es| - 1]);
    }
  }
}
