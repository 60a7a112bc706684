/** Serving over a router that may unload late: which event endangers a request, and which states do. */
module LateUnload {
  import opened Router
  import opened Coordinator
  import opened LeaseProtocol

  // An accepted unload that has not happened yet.
  predicate Outstanding(r: Router, m: ModelId) {
    m in r.stopping && IsResident(r, m)
  }

  predicate Awaits(s: State, t: TaskId, m: ModelId) {
    t in s.tasks && s.tasks[t].phase.AwaitUnloaded? && s.tasks[t].phase.model == m
  }

  // Some model is about to go and no request waits for that.
  ghost predicate Unattended(s: State) {
    exists m :: Outstanding(s.router, m) && !exists t :: Awaits(s, t, m)
  }

  /** A request leaves ensure_loaded after its unload was accepted and before the model is gone: by a
      failure, an expired deadline or a cancellation of its wait, or of a POST that took effect. */
  ghost predicate Abandons(prompt: bool, s: State, e: Event) {
    && e.Move? && Next(prompt, s, e).Some?
    && Next(prompt, s, e).value.tasks[e.task].phase.Unwinding?
    && var ph := s.tasks[e.task].phase;
    && (ph.AwaitUnloaded? || (ph.Unloading? && e.input == Broken(true)))
    && Outstanding(Next(prompt, s, e).value.router, ph.model)
  }

  ghost predicate Orderly(prompt: bool, s: State, es: seq<Event>)
    decreases |es|
  {
    es == [] || (Next(prompt, s, es[0]).Some? && !Abandons(prompt, s, es[0])
                 && Orderly(prompt, Next(prompt, s, es[0]).value, es[1..]))
  }

  ghost predicate ServingReady(s: State) {
    forall t :: t in s.tasks && s.tasks[t].phase.Serving? ==> IsReady(s.router, s.tasks[t].target)
  }

  // ---------------------------------------------------------------- what one event does

  lemma OneInside(s: State, t: TaskId, u: TaskId)
    requires LockInv(s) && t in s.tasks && u in s.tasks
    requires InEnsureLoaded(s.tasks[t].phase) && InEnsureLoaded(s.tasks[u].phase)
    ensures t == u
  {
  }

  // The models about to go after a step of ensure_loaded.
  lemma AdvanceOutstanding(prompt: bool, target: ModelId, ph: Phase, r: Router, i: Input, m: ModelId)
    requires Advance(prompt, target, ph, r, i).Some? && !i.Drifted?
    ensures var (ph', r') := Advance(prompt, target, ph, r, i).value;
      Outstanding(r', m) ==>
        || (Outstanding(r, m) && !(ph.AwaitUnloaded? && ph.model == m && !ph'.AwaitUnloaded? && !ph'.Unwinding?))
        || (ph.Unloading? && ph.model == m && (i.Sent? || i == Broken(true)))
  {
  }

  lemma AdvanceKeepsAwaiting(prompt: bool, target: ModelId, ph: Phase, r: Router, i: Input)
    requires Advance(prompt, target, ph, r, i).Some? && !i.Drifted?
    ensures var (ph', r') := Advance(prompt, target, ph, r, i).value;
      && (ph'.AwaitUnloaded? ==> (ph.AwaitUnloaded? || ph.Unloading?) && ph'.model == ph.model)
      && (ph.Unloading? && i.Sent? ==> ph' == AwaitUnloaded(ph.model, ph.rest))
      && (ph.AwaitUnloaded? ==> r' == r)
  {
  }

  /** From an attended state an event leads to an unattended one exactly when it abandons an unload. */
  lemma AttendedExactly(prompt: bool, s: State, e: Event)
    requires Inv(prompt, s) && Next(prompt, s, e).Some? && !Unattended(s)
    ensures Unattended(Next(prompt, s, e).value) <==> Abandons(prompt, s, e)
  {
    var s' := Next(prompt, s, e).value;
    InvStep(prompt, s, e);
    if Abandons(prompt, s, e) {
      AbandonedIsUnattended(prompt, s, e);
    } else {
      forall m | Outstanding(s'.router, m)
        ensures exists t :: Awaits(s', t, m)
      {
        StaysAttended(prompt, s, e, m);
      }
    }
  }

  lemma AbandonedIsUnattended(prompt: bool, s: State, e: Event)
    requires Inv(prompt, s) && Abandons(prompt, s, e)
    ensures Unattended(Next(prompt, s, e).value)
  {
    var s' := Next(prompt, s, e).value;
    var m := s.tasks[e.task].phase.model;
    forall t
      ensures !Awaits(s', t, m)
    {
      if t != e.task {
        OthersUntouched(prompt, s, e, t);
        if Awaits(s', t, m) { OneInside(s, t, e.task); }
      }
    }
    assert Outstanding(s'.router, m);
  }

  lemma StaysAttended(prompt: bool, s: State, e: Event, m: ModelId)
    requires Inv(prompt, s) && Next(prompt, s, e).Some? && !Unattended(s) && !Abandons(prompt, s, e)
    requires Outstanding(Next(prompt, s, e).value.router, m)
    ensures exists t :: Awaits(Next(prompt, s, e).value, t, m)
  {
    var s' := Next(prompt, s, e).value;
    if e.Move? {
      var t, ph := e.task, s.tasks[e.task].phase;
      AdvanceOutstanding(prompt, s.tasks[t].target, ph, s.router, e.input, m);
      AdvanceKeepsAwaiting(prompt, s.tasks[t].target, ph, s.router, e.input);
      if Outstanding(s.router, m) {
        var u :| Awaits(s, u, m);
        OneInside(s, t, u);
      }
      assert Awaits(s', t, m);
    } else {
      OutstandingBefore(prompt, s, e, m);
      var u :| Awaits(s, u, m);
      if e.Drift? || u != e.task { OthersUntouched(prompt, s, e, u); }
      assert Awaits(s', u, m);
    }
  }

  lemma OutstandingBefore(prompt: bool, s: State, e: Event, m: ModelId)
    requires !e.Move? && Next(prompt, s, e).Some? && Outstanding(Next(prompt, s, e).value.router, m)
    ensures Outstanding(s.router, m)
  {
  }

  // ---------------------------------------------------------------- orderly runs are safe

  lemma ReadyStays(prompt: bool, s: State, e: Event)
    requires Inv(prompt, s) && Next(prompt, s, e).Some? && !Unattended(s) && ServingReady(s)
    ensures ServingReady(Next(prompt, s, e).value)
  {
    var s' := Next(prompt, s, e).value;
    forall t | t in s'.tasks && s'.tasks[t].phase.Serving?
      ensures IsReady(s'.router, s'.tasks[t].target)
    {
      if e.Drift? || t != e.task { OthersUntouched(prompt, s, e, t); }
      if e.Move? && t == e.task {
        ServesReady(prompt, s.tasks[t].target, s.tasks[t].phase, s.router, e.input);
      } else if e.Move? {
        HolderIsUnique(s, t, e.task);
      } else if e.Drift? {
        NobodyWaits(s, t);
        assert !Outstanding(s.router, s.tasks[t].target);
      }
    }
  }

  // A call returns over a listing that shows its target ready.
  lemma ServesReady(prompt: bool, target: ModelId, ph: Phase, r: Router, i: Input)
    requires Advance(prompt, target, ph, r, i).Some? && Advance(prompt, target, ph, r, i).value.0.Serving?
    ensures IsReady(Advance(prompt, target, ph, r, i).value.1, target)
  {
  }

  // While a request serves nobody waits, so nothing is about to go.
  lemma NobodyWaits(s: State, t: TaskId)
    requires PermitInv(s) && !Unattended(s) && t in s.tasks && s.tasks[t].phase.Serving?
    ensures forall m :: !Outstanding(s.router, m)
  {
    forall m
      ensures !Outstanding(s.router, m)
    {
      if Outstanding(s.router, m) {
        var u :| Awaits(s, u, m);
        HolderIsUnique(s, t, u);
      }
    }
  }

  lemma {:induction false} OrderlyIsSafe(prompt: bool, s: State, es: seq<Event>)
    requires Inv(prompt, s) && !Unattended(s) && ServingReady(s) && Orderly(prompt, s, es)
    ensures Run(prompt, s, es).Some?
    ensures var s' := Run(prompt, s, es).value; Safe(s') && !Unattended(s')
    decreases |es|
  {
    if es == [] {
      ReadyIsSafe(prompt, s);
    } else {
      var s1 := Next(prompt, s, es[0]).value;
      InvStep(prompt, s, es[0]);
      AttendedExactly(prompt, s, es[0]);
      ReadyStays(prompt, s, es[0]);
      OrderlyIsSafe(prompt, s1, es[1..]);
    }
  }

  lemma ReadyIsSafe(prompt: bool, s: State)
    requires Inv(prompt, s) && ServingReady(s)
    ensures Safe(s)
  {
    forall t, u | t in s.tasks && s.tasks[t].phase.Serving? && u in s.tasks && u != t
      ensures !HoldsLease(s.tasks[u].phase)
    {
      if HoldsLease(s.tasks[u].phase) { HolderIsUnique(s, t, u); }
    }
  }

  /** Serving safety without any promise of the router: in every run in which no request abandons an
      accepted unload, whoever serves has its model ready and is alone. */
  lemma SafeWithoutAbandoning(prompt: bool, s0: State, es: seq<Event>)
    requires Initial(s0) && Orderly(prompt, s0, es)
    ensures Run(prompt, s0, es).Some? && Safe(Run(prompt, s0, es).value)
  {
    InitialInv(prompt, s0);
    OrderlyIsSafe(prompt, s0, es);
  }

  // ---------------------------------------------------------------- unattended states are not

  lemma {:induction false} RunConcat(prompt: bool, s: State, a: seq<Event>, b: seq<Event>)
    requires Orderly(prompt, s, a) && Run(prompt, s, a).Some? && Orderly(prompt, Run(prompt, s, a).value, b)
    ensures Orderly(prompt, s, a + b) && Run(prompt, s, a + b) == Run(prompt, Run(prompt, s, a).value, b)
    decreases |a|
  {
    if a == [] {
      assert a + b == b;
    } else {
      assert (a + b)[1..] == a[1..] + b;
      RunConcat(prompt, Next(prompt, s, a[0]).value, a[1..], b);
    }
  }

  // One event more, and no abandoned unload.
  lemma Then(prompt: bool, s0: State, es: seq<Event>, s: State, e: Event) returns (es': seq<Event>, s': State)
    requires Inv(prompt, s0) && Orderly(prompt, s0, es) && Run(prompt, s0, es) == Some(s) && Inv(prompt, s)
    requires Next(prompt, s, e).Some? && !Abandons(prompt, s, e)
    ensures es' == es + [e] && Some(s') == Next(prompt, s, e) && Inv(prompt, s')
    ensures Orderly(prompt, s0, es') && Run(prompt, s0, es') == Some(s')
  {
    es', s' := es + [e], Next(prompt, s, e).value;
    assert [e][1..] == [] && Orderly(prompt, s', []) && Orderly(prompt, s, [e]);
    assert Run(prompt, s', []) == Some(s') && Run(prompt, s, [e]) == Some(s');
    RunConcat(prompt, s0, es, [e]);
    InvStep(prompt, s, e);
  }

  // The router with model m in the given state, and the unloads that are then done gone.
  function With(r: Router, m: ModelId, e: Entry): Router
    requires m in r.table
  {
    var table := r.table[m := e];
    Router(table, set x | x in r.stopping && IsResident(Router(table, {}), x))
  }

  lemma WithEvolves(r: Router, m: ModelId, e: Entry)
    requires Outstanding(r, m)
    ensures Evolves(r, With(r, m, e))
    ensures forall x :: x != m ==> (Outstanding(With(r, m, e), x) <==> Outstanding(r, x))
    ensures IsResident(With(r, m, e), m) ==> Outstanding(With(r, m, e), m)
  {
    var r' := With(r, m, e);
    assert forall x :: IsResident(r', x) <==> IsResident(Router(r'.table, {}), x);
  }

  // The holder of the lease leaves ensure_loaded without abandoning its own unload.
  lemma HolderLeaves(prompt: bool, s: State, t: TaskId, m: ModelId) returns (es: seq<Event>, s': State)
    requires Inv(prompt, s) && t in s.tasks && (s.tasks[t].phase.Leased? || InEnsureLoaded(s.tasks[t].phase))
    requires Outstanding(s.router, m) && !Awaits(s, t, m)
    ensures Orderly(prompt, s, es) && Run(prompt, s, es) == Some(s') && Inv(prompt, s')
    ensures t in s'.tasks && s'.tasks[t].phase.Unwinding? && Outstanding(s'.router, m)
  {
    es, s' := [], s;
    var ph := s.tasks[t].phase;
    if ph.Leased? {
      es, s' := Then(prompt, s, es, s', Quit(t));
    } else {
      if ph.AwaitUnloaded? && Outstanding(s.router, ph.model) {
        WithEvolves(s.router, ph.model, Entry(Unloaded, false));
        es, s' := Then(prompt, s, es, s', Drift(With(s.router, ph.model, Entry(Unloaded, false))));
      }
      es, s' := Then(prompt, s, es, s', Move(t, Broken(false)));
    }
  }

  // The holder gives the lease back.
  lemma HolderCloses(prompt: bool, s: State, t: TaskId) returns (es: seq<Event>, s': State)
    requires Inv(prompt, s) && t in s.tasks
    requires s.tasks[t].phase.Unwinding? || s.tasks[t].phase.Serving? || s.tasks[t].phase.Closing?
    ensures Orderly(prompt, s, es) && Run(prompt, s, es) == Some(s') && Inv(prompt, s')
    ensures s'.router == s.router && s'.free == 1
  {
    es, s' := [], s;
    assert t in Holders(s) && {t} <= Holders(s);
    Cardinality({t}, Holders(s));
    if !s.tasks[t].phase.Closing? { es, s' := Then(prompt, s, es, s', Cleanup(t)); }
    es, s' := Then(prompt, s, es, s', Close(t, false));
  }

  lemma FreeTheLease(prompt: bool, s: State, m: ModelId) returns (es: seq<Event>, s': State)
    requires Inv(prompt, s) && Outstanding(s.router, m) && !exists t :: Awaits(s, t, m)
    ensures Orderly(prompt, s, es) && Run(prompt, s, es) == Some(s') && Inv(prompt, s')
    ensures s'.free == 1 && Outstanding(s'.router, m)
  {
    es, s' := [], s;
    if s.free != 1 {
      assert Holders(s) != {};
      var t :| t in Holders(s);
      if s.tasks[t].phase.Leased? || InEnsureLoaded(s.tasks[t].phase) {
        es, s' := HolderLeaves(prompt, s, t, m);
      }
      var es2, s2 := HolderCloses(prompt, s', t);
      RunConcat(prompt, s, es, es2);
      es, s' := es + es2, s2;
    }
  }

  lemma NobodyHolds(s: State)
    requires PermitInv(s) && LockInv(s) && s.free == 1
    ensures s.lock.None? && forall t :: t in s.tasks ==> !HoldsLease(s.tasks[t].phase)
  {
    assert Holders(s) == {};
    forall t | t in s.tasks
      ensures !HoldsLease(s.tasks[t].phase)
    {
      assert t !in Holders(s);
    }
  }

  lemma {:induction false} FreshTask(used: set<TaskId>) returns (t: TaskId)
    ensures t !in used && forall u :: u in used ==> u < t
    decreases |used|
  {
    if used == {} {
      t := 0;
    } else {
      var u: TaskId :| u in used;
      var v := FreshTask(used - {u});
      t := if u < v then v else u + 1;
      assert forall x :: x in used ==> x == u || x in used - {u};
    }
  }

  lemma {:induction false} ListingExists(r: Router, keys: set<ModelId>) returns (order: seq<ModelId>)
    requires keys <= r.table.Keys
    ensures Distinct(order) && forall m :: m in order <==> m in keys
    decreases |keys|
  {
    if keys == {} {
      order := [];
    } else {
      var m: ModelId :| m in keys;
      var rest := ListingExists(r, keys - {m});
      order := [m] + rest;
    }
  }

  // A new request is let in.
  lemma LetIn(prompt: bool, s0: State, m: ModelId) returns (es: seq<Event>, s: State, t: TaskId)
    requires Inv(prompt, s0) && s0.free == 1
    ensures Orderly(prompt, s0, es) && Run(prompt, s0, es) == Some(s) && Inv(prompt, s)
    ensures s.router == s0.router && t in s.tasks && s.tasks[t] == Task(m, Listing(false), 0)
  {
    NobodyHolds(s0);
    t := FreshTask(s0.tasks.Keys);
    es, s := [], s0;
    es, s := Then(prompt, s0, es, s, Arrive(t, m));
    es, s := Then(prompt, s0, es, s, Acquire(t));
    es, s := Then(prompt, s0, es, s, Enter(t));
  }

  // It finds the model loaded, serves, and loses it.
  lemma Lose(prompt: bool, s0: State, t: TaskId, m: ModelId) returns (es: seq<Event>, s: State)
    requires Inv(prompt, s0) && t in s0.tasks && s0.tasks[t] == Task(m, Listing(false), 0)
    requires Outstanding(s0.router, m) && s0.router.table[m] == Entry(Loaded, false)
    ensures Orderly(prompt, s0, es) && Run(prompt, s0, es) == Some(s) && !Safe(s)
  {
    es, s := [], s0;
    var order := ListingExists(s.router, s.router.table.Keys);
    es, s := Then(prompt, s0, es, s, Move(t, Listed(order)));
    WithEvolves(s.router, m, Entry(Unloaded, false));
    es, s := Then(prompt, s0, es, s, Drift(With(s.router, m, Entry(Unloaded, false))));
    assert s.tasks[t].phase.Serving? && !IsReady(s.router, s.tasks[t].target);
  }

  lemma ServeAndLose(prompt: bool, s0: State, m: ModelId) returns (es: seq<Event>, s: State)
    requires Inv(prompt, s0) && s0.free == 1 && Outstanding(s0.router, m)
    ensures Orderly(prompt, s0, es) && Run(prompt, s0, es) == Some(s) && !Safe(s)
  {
    WithEvolves(s0.router, m, Entry(Loaded, false));
    es, s := Then(prompt, s0, [], s0, Drift(With(s0.router, m, Entry(Loaded, false))));
    var es1, s1, t := LetIn(prompt, s, m);
    var es2, s2 := Lose(prompt, s1, t, m);
    RunConcat(prompt, s, es1, es2);
    RunConcat(prompt, s0, es, es1 + es2);
    es, s := es + (es1 + es2), s2;
  }

  /** Every unattended state has an unsafe future, in which nothing more is abandoned. */
  lemma UnattendedIsUnsafe(prompt: bool, s: State) returns (es: seq<Event>, s': State)
    requires Inv(prompt, s) && Unattended(s)
    ensures Orderly(prompt, s, es) && Run(prompt, s, es) == Some(s') && !Safe(s')
  {
    var m :| Outstanding(s.router, m) && !exists t :: Awaits(s, t, m);
    es, s' := FreeTheLease(prompt, s, m);
    var es2, s2 := ServeAndLose(prompt, s', m);
    RunConcat(prompt, s, es, es2);
    es, s' := es + es2, s2;
  }

  /** Exactly which states are safe to go on from: after any orderly run all orderly futures are safe, and
      after an event that abandons an unload some orderly future is not. */
  lemma FutureIsSafeExactly(prompt: bool, s0: State, es: seq<Event>, e: Event)
    requires Initial(s0) && Orderly(prompt, s0, es) && Run(prompt, s0, es).Some?
    requires Next(prompt, Run(prompt, s0, es).value, e).Some?
    ensures var s := Run(prompt, s0, es).value;
      var s' := Next(prompt, s, e).value;
      (forall more :: Orderly(prompt, s', more) && Run(prompt, s', more).Some? ==> Safe(Run(prompt, s', more).value))
      <==> !Abandons(prompt, s, e)
  {
    InitialInv(prompt, s0);
    OrderlyIsSafe(prompt, s0, es);
    RunInv(prompt, s0, es);
    OrderlyServingReady(prompt, s0, es);
    var s := Run(prompt, s0, es).value;
    var s' := Next(prompt, s, e).value;
    InvStep(prompt, s, e);
    AttendedExactly(prompt, s, e);
    ReadyStays(prompt, s, e);
    if Abandons(prompt, s, e) {
      var more, _ := UnattendedIsUnsafe(prompt, s');
    } else {
      forall more | Orderly(prompt, s', more) && Run(prompt, s', more).Some?
        ensures Safe(Run(prompt, s', more).value)
      {
        OrderlyIsSafe(prompt, s', more);
      }
    }
  }

  lemma {:induction false} OrderlyServingReady(prompt: bool, s: State, es: seq<Event>)
    requires Inv(prompt, s) && !Unattended(s) && ServingReady(s) && Orderly(prompt, s, es) && Run(prompt, s, es).Some?
    ensures ServingReady(Run(prompt, s, es).value)
    decreases |es|
  {
    if es != [] {
      InvStep(prompt, s, es[0]);
      AttendedExactly(prompt, s, es[0]);
      ReadyStays(prompt, s, es[0]);
      OrderlyServingReady(prompt, Next(prompt, s, es[0]).value, es[1..]);
    }
  }
}
