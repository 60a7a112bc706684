/** Any number of concurrent requests over one GPU gate, one transition lock and one router, as a
    system of atomic steps. */
module LeaseProtocol {
  import opened Router
  import opened Coordinator

  type TaskId = nat

  // `releases` counts how often the request gave its lease back.
  datatype Task = Task(target: ModelId, phase: Phase, releases: nat)

  /** `free`, `waiters` and `inFlight` are the gate's permit and gauges. `loads` and `leases` are
      history: load POSTs that took effect, and targets in the order their leases were acquired. */
  datatype State = State(
    router: Router,
    free: nat,
    waiters: int,
    inFlight: int,
    lock: Option<TaskId>,
    tasks: map<TaskId, Task>,
    loads: nat,
    leases: seq<ModelId>)

  datatype Event =
    | Arrive(task: TaskId, target: ModelId)
    | Abandon(task: TaskId)                 // cancelled in the queue
    | Acquire(task: TaskId)
    | Quit(task: TaskId)                    // cancelled while waiting for the transition lock
    | Enter(task: TaskId)
    | Move(task: TaskId, input: Input)      // one await inside ensure_loaded
    | Cleanup(task: TaskId)                 // any call of cleanup_request
    | Close(task: TaskId, raised: bool)     // closing the response returned or raised
    | Drift(router: Router)

  predicate HoldsLease(ph: Phase) {
    ph.Leased? || InEnsureLoaded(ph) || ph.Serving? || ph.Unwinding? || ph.Closing?
  }

  function At(s: State, t: TaskId, ph: Phase): State
    requires t in s.tasks
  {
    s.(tasks := s.tasks[t := s.tasks[t].(phase := ph)])
  }

  function PostsLoad(ph: Phase, i: Input): bool {
    ph.Posting? && (i.Sent? || (i.Broken? && i.sent))
  }

  /** The state after one event, or None if the event cannot happen here. */
  ghost function Next(prompt: bool, s: State, e: Event): Option<State> {
    match e
    case Drift(r') => if Evolves(s.router, r') then Some(s.(router := r')) else None
    case Arrive(t, target) =>
      if t in s.tasks then None
      else Some(s.(waiters := s.waiters + 1, tasks := s.tasks[t := Task(target, Queued, 0)]))
    case _ =>
      if e.task !in s.tasks then None else TaskStep(prompt, s, e)
  }

  ghost function TaskStep(prompt: bool, s: State, e: Event): Option<State>
    requires !e.Drift? && !e.Arrive? && e.task in s.tasks
  {
    var t := e.task;
    var task := s.tasks[t];
    var ph := task.phase;
    match e
    case Abandon(_) =>
      if ph.Queued? then Some(At(s, t, Abandoned).(waiters := s.waiters - 1)) else None
    case Acquire(_) =>
      if ph.Queued? && s.free > 0
      then Some(At(s, t, Leased).(free := s.free - 1, waiters := s.waiters - 1,
                                  inFlight := s.inFlight + 1, leases := s.leases + [task.target]))
      else None
    case Quit(_) =>
      if ph.Leased? then Some(At(s, t, Unwinding)) else None
    case Enter(_) =>
      if ph.Leased? && s.lock.None? then Some(At(s, t, Listing(false)).(lock := Some(t))) else None
    case Move(_, i) =>
      if i.Drifted? then None
      else (match Advance(prompt, task.target, ph, s.router, i)
            case None => None
            case Some((ph', r')) =>
              Some(At(s, t, ph').(router := r',
                                  lock := if InEnsureLoaded(ph') then s.lock else None,
                                  loads := if PostsLoad(ph, i) then s.loads + 1 else s.loads)))
    case Cleanup(_) =>
      if ph.Serving? || ph.Unwinding? then Some(At(s, t, Closing))
      else if ph.Closing? || ph.Finished? then Some(s)
      else None
    case Close(_, _) =>
      if ph.Closing?
      then Some(At(s, t, Finished).(free := s.free + 1, inFlight := s.inFlight - 1,
                                    tasks := s.tasks[t := Task(task.target, Finished, task.releases + 1)]))
      else None
  }

  ghost function Run(prompt: bool, s: State, es: seq<Event>): Option<State>
    decreases |es|
  {
    if es == [] then Some(s)
    else match Next(prompt, s, es[0])
      case None => None
      case Some(s') => Run(prompt, s', es[1..])
  }

  /** Which events can happen: a waiter may give up at any time and gets the lease when the permit is free, a
      lease holder goes on when the transition lock is free or may give up, each await of ensure_loaded may
      break, and cleanup is open to whoever has served or failed, more than once. */
  lemma EnabledExactly(prompt: bool, s: State, e: Event)
    ensures e.Arrive? ==> (Next(prompt, s, e).Some? <==> e.task !in s.tasks)
    ensures !e.Arrive? && !e.Drift? && e.task !in s.tasks ==> Next(prompt, s, e).None?
    ensures !e.Arrive? && !e.Drift? && e.task in s.tasks ==>
      var ph := s.tasks[e.task].phase;
      (Next(prompt, s, e).Some? <==>
         match e
         case Abandon(_) => ph.Queued?
         case Acquire(_) => ph.Queued? && s.free > 0
         case Quit(_) => ph.Leased?
         case Enter(_) => ph.Leased? && s.lock.None?
         case Move(_, i) => !i.Drifted? && Advance(prompt, s.tasks[e.task].target, ph, s.router, i).Some?
         case Cleanup(_) => ph.Serving? || ph.Unwinding? || ph.Closing? || ph.Finished?
         case _ => ph.Closing?)
    ensures forall t, sent :: t in s.tasks && InEnsureLoaded(s.tasks[t].phase) ==> Next(prompt, s, Move(t, Broken(sent))).Some?
  {
  }

  // A registry that was just built, over a router in any state.
  ghost predicate Initial(s: State) {
    && s.router.stopping == {} && s.free == 1 && s.waiters == 0 && s.inFlight == 0
    && s.lock.None? && s.tasks == map[] && s.loads == 0 && s.leases == []
  }

  ghost function Holders(s: State): set<TaskId> {
    set t | t in s.tasks && HoldsLease(s.tasks[t].phase)
  }

  ghost function Queue(s: State): set<TaskId> {
    set t | t in s.tasks && s.tasks[t].phase.Queued?
  }

  // ---------------------------------------------------------------- invariant

  ghost predicate PermitInv(s: State) {
    && s.free + |Holders(s)| == 1
    && s.inFlight == |Holders(s)|
    && s.waiters == |Queue(s)|
  }

  ghost predicate LockInv(s: State) {
    && (forall t :: t in s.tasks ==> (InEnsureLoaded(s.tasks[t].phase) <==> s.lock == Some(t)))
    && (s.lock.Some? ==> s.lock.value in s.tasks)
  }

  ghost predicate ReleaseInv(s: State) {
    forall t :: t in s.tasks ==> s.tasks[t].releases == if s.tasks[t].phase.Finished? then 1 else 0
  }

  // What a request inside its lease knows about the router.
  ghost predicate Knows(prompt: bool, r: Router, target: ModelId, ph: Phase) {
    match ph
    case Unloading(m, rest) => forall a :: IsResident(r, a) ==> a == target || a == m || a in rest
    case AwaitUnloaded(m, rest) => forall a :: IsResident(r, a) ==> a == target || a == m || a in rest
    case Posting => OnlyResident(r, target)
    case Serving => prompt ==> IsReady(r, target)
    case _ => true
  }

  ghost predicate Inv(prompt: bool, s: State) {
    && PermitInv(s)
    && LockInv(s)
    && ReleaseInv(s)
    && (prompt ==> s.router.stopping == {})
    && (forall t :: t in s.tasks ==> Knows(prompt, s.router, s.tasks[t].target, s.tasks[t].phase))
  }

  lemma HolderIsUnique(s: State, t: TaskId, u: TaskId)
    requires PermitInv(s)
    requires t in Holders(s) && u in Holders(s)
    ensures t == u
  {
    if t != u {
      assert {t, u} <= Holders(s);
      Cardinality({t, u}, Holders(s));
    }
  }

  lemma Cardinality<T>(a: set<T>, b: set<T>)
    requires a <= b
    ensures |a| <= |b|
  {
    assert b == a + (b - a);
  }

  lemma OneMemberChanged<T>(a: set<T>, b: set<T>, t: T)
    requires forall u :: u != t ==> (u in a <==> u in b)
    ensures |b| == |a| + (if t in b then 1 else 0) - (if t in a then 1 else 0)
  {
    assert a - {t} == b - {t};
    assert |a| == |a - {t}| + if t in a then 1 else 0 by {
      if t in a { assert a == a - {t} + {t}; } else { assert a == a - {t}; }
    }
    assert |b| == |b - {t}| + if t in b then 1 else 0 by {
      if t in b { assert b == b - {t} + {t}; } else { assert b == b - {t}; }
    }
  }

  // An event changes at most its own task.
  lemma OthersUntouched(prompt: bool, s: State, e: Event, u: TaskId)
    requires Next(prompt, s, e).Some?
    requires e.Drift? || u != e.task
    ensures var s' := Next(prompt, s, e).value;
      (u in s.tasks <==> u in s'.tasks) && (u in s.tasks ==> s'.tasks[u] == s.tasks[u])
  {
  }

  lemma PermitStep(prompt: bool, s: State, e: Event)
    requires PermitInv(s) && Next(prompt, s, e).Some?
    ensures PermitInv(Next(prompt, s, e).value)
  {
    var s' := Next(prompt, s, e).value;
    if e.Drift? {
      assert Holders(s') == Holders(s) && Queue(s') == Queue(s);
    } else {
      var t := e.task;
      forall u | u != t
        ensures u in Holders(s) <==> u in Holders(s')
        ensures u in Queue(s) <==> u in Queue(s')
      {
        OthersUntouched(prompt, s, e, u);
      }
      OneMemberChanged(Holders(s), Holders(s'), t);
      OneMemberChanged(Queue(s), Queue(s'), t);
      GaugesFollow(prompt, s, e);
    }
  }

  // What one event does to the permit and the gauges, by where its task goes.
  lemma GaugesFollow(prompt: bool, s: State, e: Event)
    requires !e.Drift? && Next(prompt, s, e).Some?
    ensures var s' := Next(prompt, s, e).value;
      var held := if e.task in Holders(s') then 1 else 0;
      var was := if e.task in Holders(s) then 1 else 0;
      && s'.free == s.free + was - held
      && s'.inFlight == s.inFlight + held - was
      && s'.waiters == s.waiters + (if e.task in Queue(s') then 1 else 0) - (if e.task in Queue(s) then 1 else 0)
  {
  }

  lemma AdvanceKnows(prompt: bool, target: ModelId, ph: Phase, r: Router, i: Input)
    requires Knows(prompt, r, target, ph) && (prompt ==> r.stopping == {})
    requires Advance(prompt, target, ph, r, i).Some?
    ensures var (ph', r') := Advance(prompt, target, ph, r, i).value;
      Knows(prompt, r', target, ph') && (prompt ==> r'.stopping == {})
  {
  }

  /** Every event of every request, failures and cancellations included, keeps the invariant. */
  lemma InvStep(prompt: bool, s: State, e: Event)
    requires Inv(prompt, s) && Next(prompt, s, e).Some?
    ensures Inv(prompt, Next(prompt, s, e).value)
  {
    var s' := Next(prompt, s, e).value;
    PermitStep(prompt, s, e);
    LockStep(prompt, s, e);
    KnowsStep(prompt, s, e);
  }

  // The acting task's own place, and what it does to the lock.
  lemma LockAtTask(prompt: bool, s: State, e: Event)
    requires LockInv(s) && ReleaseInv(s) && !e.Drift? && Next(prompt, s, e).Some?
    ensures var s' := Next(prompt, s, e).value;
      && e.task in s'.tasks
      && (InEnsureLoaded(s'.tasks[e.task].phase) <==> s'.lock == Some(e.task))
      && s'.tasks[e.task].releases == (if s'.tasks[e.task].phase.Finished? then 1 else 0)
      && (s'.lock == s.lock || s.lock.None? || s'.lock.None?)
      && (s'.lock != s.lock ==> s.lock == Some(e.task) || s'.lock == Some(e.task))
  {
  }

  lemma LockStep(prompt: bool, s: State, e: Event)
    requires LockInv(s) && ReleaseInv(s) && Next(prompt, s, e).Some?
    ensures LockInv(Next(prompt, s, e).value) && ReleaseInv(Next(prompt, s, e).value)
  {
    if !e.Drift? {
      var s' := Next(prompt, s, e).value;
      LockAtTask(prompt, s, e);
      forall u | u != e.task
        ensures u in s.tasks <==> u in s'.tasks
        ensures u in s.tasks ==> s'.tasks[u] == s.tasks[u]
      {
        OthersUntouched(prompt, s, e, u);
      }
    }
  }

  lemma KnowsStep(prompt: bool, s: State, e: Event)
    requires Inv(prompt, s) && Next(prompt, s, e).Some?
    ensures var s' := Next(prompt, s, e).value;
      && (prompt ==> s'.router.stopping == {})
      && forall u :: u in s'.tasks ==> Knows(prompt, s'.router, s'.tasks[u].target, s'.tasks[u].phase)
  {
    var s' := Next(prompt, s, e).value;
    if e.Move? {
      AdvanceKnows(prompt, s.tasks[e.task].target, s.tasks[e.task].phase, s.router, e.input);
    }
    forall u | u in s'.tasks
      ensures Knows(prompt, s'.router, s'.tasks[u].target, s'.tasks[u].phase)
    {
      if e.Drift? || u != e.task {
        OthersUntouched(prompt, s, e, u);
        if e.Move? && HoldsLease(s.tasks[u].phase) { HolderIsUnique(s, e.task, u); }
      }
    }
  }

  lemma InitialInv(prompt: bool, s: State)
    requires Initial(s)
    ensures Inv(prompt, s)
  {
    assert Holders(s) == {} && Queue(s) == {};
  }

  lemma {:induction false} RunInv(prompt: bool, s: State, es: seq<Event>)
    requires Inv(prompt, s) && Run(prompt, s, es).Some?
    ensures Inv(prompt, Run(prompt, s, es).value)
    decreases |es|
  {
    if es != [] {
      InvStep(prompt, s, es[0]);
      RunInv(prompt, Next(prompt, s, es[0]).value, es[1..]);
    }
  }

  // ---------------------------------------------------------------- leases

  ghost function Acquires(es: seq<Event>, t: TaskId): nat {
    if es == [] then 0 else (if es[0] == Acquire(t) then 1 else 0) + Acquires(es[1..], t)
  }

  lemma NetStep(prompt: bool, s: State, e: Event, t: TaskId)
    requires ReleaseInv(s) && Next(prompt, s, e).Some?
    ensures Net(Next(prompt, s, e).value, t) == Net(s, t) + if e == Acquire(t) then 1 else 0
  {
    if e.Drift? || e.task != t { OthersUntouched(prompt, s, e, t); }
  }

  lemma {:induction false} LeaseBalance(prompt: bool, s: State, es: seq<Event>, t: TaskId)
    requires Inv(prompt, s) && Run(prompt, s, es).Some?
    ensures var s' := Run(prompt, s, es).value;
      Net(s', t) == Net(s, t) + Acquires(es, t)
    decreases |es|
  {
    if es != [] {
      var s' := Next(prompt, s, es[0]).value;
      InvStep(prompt, s, es[0]);
      NetStep(prompt, s, es[0], t);
      LeaseBalance(prompt, s', es[1..], t);
    }
  }

  // Leases a request has given back or still holds.
  ghost function Net(s: State, t: TaskId): nat {
    if t in s.tasks then s.tasks[t].releases + (if HoldsLease(s.tasks[t].phase) then 1 else 0) else 0
  }

  /** Lease conservation: the permit and the holders add up to the gate's capacity, the gauges are
      exact, and over the whole run every acquired lease is still held or was released exactly once,
      however often cleanup ran and whether or not closing the response raised. */
  lemma LeaseConservation(prompt: bool, s0: State, es: seq<Event>, t: TaskId)
    requires Initial(s0) && Run(prompt, s0, es).Some?
    ensures var s := Run(prompt, s0, es).value;
      && s.free + |Holders(s)| == 1
      && s.inFlight == |Holders(s)|
      && s.waiters == |Queue(s)|
      && Acquires(es, t) <= 1
      && (t in s.tasks ==>
            && s.tasks[t].releases + (if HoldsLease(s.tasks[t].phase) then 1 else 0) == Acquires(es, t)
            && (s.tasks[t].phase.Finished? ==> s.tasks[t].releases == 1 == Acquires(es, t)))
  {
    InitialInv(prompt, s0);
    RunInv(prompt, s0, es);
    LeaseBalance(prompt, s0, es, t);
  }

  // ---------------------------------------------------------------- serving safety

  /** Whoever forwards or streams has its model ready and is alone inside the lease. */
  ghost predicate Safe(s: State) {
    forall t :: t in s.tasks && s.tasks[t].phase.Serving? ==>
      && IsReady(s.router, s.tasks[t].target)
      && AloneInside(s, t)
  }

  ghost predicate AloneInside(s: State, t: TaskId) {
    forall u :: u in s.tasks && u != t ==> !InEnsureLoaded(s.tasks[u].phase) && !s.tasks[u].phase.Serving?
  }

  /** Inference and model transitions exclude each other, whatever the router does. */
  lemma LeaseExcludes(prompt: bool, s0: State, es: seq<Event>, t: TaskId)
    requires Initial(s0) && Run(prompt, s0, es).Some?
    requires var s := Run(prompt, s0, es).value; t in s.tasks && HoldsLease(s.tasks[t].phase)
    ensures AloneInside(Run(prompt, s0, es).value, t)
  {
    InitialInv(prompt, s0);
    RunInv(prompt, s0, es);
    var s := Run(prompt, s0, es).value;
    forall u | u in s.tasks && u != t
      ensures !HoldsLease(s.tasks[u].phase)
    {
      if HoldsLease(s.tasks[u].phase) { HolderIsUnique(s, t, u); }
    }
  }

  /** Serving safety: nobody unloads a model in use, if an accepted unload takes effect at once. */
  lemma ServingSafety(s0: State, es: seq<Event>)
    requires Initial(s0) && Run(true, s0, es).Some?
    ensures Safe(Run(true, s0, es).value)
  {
    InitialInv(true, s0);
    RunInv(true, s0, es);
    var s := Run(true, s0, es).value;
    forall t | t in s.tasks && s.tasks[t].phase.Serving?
      ensures IsReady(s.router, s.tasks[t].target) && AloneInside(s, t)
    {
      LeaseExcludes(true, s0, es, t);
    }
  }

  lemma {:induction false} RunSnoc(prompt: bool, s: State, es: seq<Event>, e: Event)
    requires Run(prompt, s, es).Some?
    ensures Run(prompt, s, es + [e]) == Next(prompt, Run(prompt, s, es).value, e)
    decreases |es|
  {
    if es == [] {
      assert (es + [e])[1..] == [];
    } else {
      assert (es + [e])[1..] == es[1..] + [e];
      RunSnoc(prompt, Next(prompt, s, es[0]).value, es[1..], e);
    }
  }

  // Request 0 wants b and is about to ask the router to unload a.
  lemma AboutToUnload(s0: State) returns (es: seq<Event>, s: State)
    requires Initial(s0)
    requires s0.router.table == map["a" := Entry(Loaded, false), "b" := Entry(Unloaded, false)]
    ensures Run(false, s0, es) == Some(s)
    ensures s == State(s0.router, 0, 0, 1, Some(0), map[0 := Task("b", Unloading("a", []), 0)], 0, s.leases)
  {
    es, s := [], s0;
    es, s := Then(s0, es, s, Arrive(0, "b"));
    es, s := Then(s0, es, s, Acquire(0));
    es, s := Then(s0, es, s, Enter(0));
    var order := ["a", "b"];
    assert Enumerates(order, s.router);
    assert Others(order, s.router, "b") == ["a"] by {
      assert order[1..] == ["b"] && order[1..][1..] == [];
      assert Others(["b"], s.router, "b") == [];
    }
    es, s := Then(s0, es, s, Move(0, Listed(order)));
  }

  // It posts the unload, is cancelled while it waits, and gives its lease back.
  lemma CancelledTransition(s0: State) returns (es: seq<Event>, s: State)
    requires Initial(s0)
    requires s0.router.table == map["a" := Entry(Loaded, false), "b" := Entry(Unloaded, false)]
    ensures Run(false, s0, es) == Some(s)
    ensures s.tasks.Keys == {0} && s.free == 1 && s.lock.None?
    ensures s.router == Router(s0.router.table, {"a"})
  {
    es, s := AboutToUnload(s0);
    es, s := Then(s0, es, s, Move(0, Sent));
    es, s := Then(s0, es, s, Move(0, Broken(false)));
    es, s := Then(s0, es, s, Cleanup(0));
    es, s := Then(s0, es, s, Close(0, false));
  }

  lemma Then(s0: State, es: seq<Event>, s: State, e: Event) returns (es': seq<Event>, s': State)
    requires Run(false, s0, es) == Some(s) && Next(false, s, e).Some?
    ensures es' == es + [e] && Some(s') == Next(false, s, e) && Run(false, s0, es') == Some(s')
  {
    es', s' := es + [e], Next(false, s, e).value;
    RunSnoc(false, s0, es, e);
  }

  // Request 1 wants a, sees it still loaded and serves.
  lemma ServesStoppingModel(s0: State, es0: seq<Event>, s1: State) returns (es: seq<Event>, s: State)
    requires Run(false, s0, es0) == Some(s1)
    requires s1.tasks.Keys == {0} && s1.free == 1 && s1.lock.None?
    requires s1.router.table == map["a" := Entry(Loaded, false), "b" := Entry(Unloaded, false)]
    ensures Run(false, s0, es) == Some(s)
    ensures 1 in s.tasks && s.tasks[1].phase.Serving? && s.tasks[1].target == "a"
    ensures s.router == s1.router
  {
    es, s := Then(s0, es0, s1, Arrive(1, "a"));
    es, s := Then(s0, es, s, Acquire(1));
    es, s := Then(s0, es, s, Enter(1));
    assert Enumerates(["a", "b"], s.router);
    es, s := Then(s0, es, s, Move(1, Listed(["a", "b"])));
  }

  /** A router that only notes an unload and does it later breaks serving safety: a cancelled
      transition leaves the unload pending, the next request sees the model still loaded, serves,
      and loses it. */
  lemma LateUnloadBreaksServing() returns (s0: State, es: seq<Event>)
    ensures Initial(s0) && Run(false, s0, es).Some?
    ensures !Safe(Run(false, s0, es).value)
  {
    var table := map["a" := Entry(Loaded, false), "b" := Entry(Unloaded, false)];
    s0 := State(Router(table, {}), 1, 0, 0, None, map[], 0, []);
    var s;
    es, s := CancelledTransition(s0);
    es, s := ServesStoppingModel(s0, es, s);
    var gone := Router(table["a" := Entry(Unloaded, false)], {});
    assert Evolves(s.router, gone);
    es, s := Then(s0, es, s, Drift(gone));
    assert s.tasks[1].phase.Serving? && !IsReady(s.router, s.tasks[1].target);
  }

  /** Serving safety holds of every run exactly when an accepted unload takes effect at once. */
  lemma SafeExactlyWhenPrompt(prompt: bool)
    ensures prompt <==>
      (forall s0, es :: Initial(s0) && Run(prompt, s0, es).Some? ==> Safe(Run(prompt, s0, es).value))
  {
    if prompt {
      forall s0, es | Initial(s0) && Run(prompt, s0, es).Some?
        ensures Safe(Run(prompt, s0, es).value)
      {
        ServingSafety(s0, es);
      }
    } else {
      var s0, es := LateUnloadBreaksServing();
    }
  }

  // ---------------------------------------------------------------- residency

  // Only a load POST adds a resident model, and it adds the target.
  lemma ResidentsAfter(prompt: bool, target: ModelId, ph: Phase, r: Router, i: Input, a: ModelId)
    requires Advance(prompt, target, ph, r, i).Some?
    requires IsResident(Advance(prompt, target, ph, r, i).value.1, a)
    ensures IsResident(r, a) || (PostsLoad(ph, i) && a == target)
  {
  }

  lemma ResidencyStep(prompt: bool, s: State, e: Event)
    requires Inv(prompt, s) && Next(prompt, s, e).Some? && AtMostOneResident(s.router)
    ensures AtMostOneResident(Next(prompt, s, e).value.router)
  {
    if e.Move? {
      var task := s.tasks[e.task];
      assert Knows(prompt, s.router, task.target, task.phase);
      forall a | IsResident(Next(prompt, s, e).value.router, a)
        ensures IsResident(s.router, a) || (PostsLoad(task.phase, e.input) && a == task.target)
      {
        ResidentsAfter(prompt, task.target, task.phase, s.router, e.input, a);
      }
    }
  }

  /** At most one model is ever loading, loaded or sleeping, through failed loads, expired waits and
      cancellations at any await, and even if unloads take effect late. */
  lemma {:induction false} AtMostOneForever(prompt: bool, s: State, es: seq<Event>)
    requires Inv(prompt, s) && AtMostOneResident(s.router) && Run(prompt, s, es).Some?
    ensures AtMostOneResident(Run(prompt, s, es).value.router)
    decreases |es|
  {
    if es != [] {
      InvStep(prompt, s, es[0]);
      ResidencyStep(prompt, s, es[0]);
      AtMostOneForever(prompt, Next(prompt, s, es[0]).value, es[1..]);
    }
  }

  /** At every load POST all other models are out, however many were resident at first, so from then
      on at most one is. */
  lemma LoadPostedAlone(prompt: bool, s0: State, es: seq<Event>, t: TaskId, i: Input)
    requires Initial(s0) && Run(prompt, s0, es).Some?
    requires var s := Run(prompt, s0, es).value;
      t in s.tasks && PostsLoad(s.tasks[t].phase, i) && Next(prompt, s, Move(t, i)).Some?
    ensures var s := Run(prompt, s0, es).value;
      && OnlyResident(s.router, s.tasks[t].target)
      && AtMostOneResident(Next(prompt, s, Move(t, i)).value.router)
  {
    InitialInv(prompt, s0);
    RunInv(prompt, s0, es);
    var s := Run(prompt, s0, es).value;
    assert Knows(prompt, s.router, s.tasks[t].target, s.tasks[t].phase);
    forall a | IsResident(Next(prompt, s, Move(t, i)).value.router, a)
      ensures a == s.tasks[t].target
    {
      ResidentsAfter(prompt, s.tasks[t].target, s.tasks[t].phase, s.router, i, a);
    }
  }
}
