/** How many model loads a run without failures costs. */
module LoadEconomy {
  import opened Router
  import opened Coordinator
  import opened LeaseProtocol

  // One load for the first lease and one for every lease whose target differs from the one before.
  function LoadsFor(leases: seq<ModelId>): nat {
    if leases == [] then 0
    else if |leases| == 1 then 1
    else LoadsFor(Init(leases)) + (if Last(leases) != leases[|leases| - 2] then 1 else 0)
  }

  function Last(s: seq<ModelId>): ModelId
    requires s != []
  {
    s[|s| - 1]
  }

  function Init(s: seq<ModelId>): seq<ModelId>
    requires s != []
  {
    s[..|s| - 1]
  }

  predicate ChangesAt(leases: seq<ModelId>, i: nat) {
    0 < i < |leases| && leases[i - 1] != leases[i]
  }

  function AdjacentChanges(leases: seq<ModelId>): set<nat> {
    set i: nat | i < |leases| && ChangesAt(leases, i)
  }

  lemma ChangesSnoc(leases: seq<ModelId>)
    requires |leases| > 1
    ensures var i, changes := |leases| - 1, AdjacentChanges(Init(leases));
      i !in changes && AdjacentChanges(leases) == if ChangesAt(leases, i) then changes + {i} else changes
  {
    var init, i := Init(leases), |leases| - 1;
    assert forall j: nat :: j < i ==> (ChangesAt(init, j) <==> ChangesAt(leases, j));
  }

  /** LoadsFor is one plus the number of adjacent leases with different targets. */
  lemma {:induction false} LoadsForCountsChanges(leases: seq<ModelId>)
    ensures LoadsFor(leases) == if leases == [] then 0 else 1 + |AdjacentChanges(leases)|
    decreases |leases|
  {
    if |leases| == 1 {
      assert AdjacentChanges(leases) == {};
    } else if leases != [] {
      LoadsForCountsChanges(Init(leases));
      ChangesSnoc(leases);
    }
  }

  // Nothing resident has failed. What is not resident may still be listed with the flag of an earlier load.
  ghost predicate NoFailures(r: Router) {
    forall m :: IsResident(r, m) ==> !r.table[m].failed
  }

  /** An event of a failure-free run: nothing raises, no lease holder is cancelled, every target is
      listed, no resident model fails and no load is lost. */
  ghost predicate Calm(prompt: bool, s: State, e: Event) {
    && Next(prompt, s, e).Some?
    && !e.Quit?
    && (e.Move? ==> !e.input.Broken? && !Next(prompt, s, e).value.tasks[e.task].phase.Unwinding?)
    && (e.Drift? ==> NoFailures(e.router))
    && (e.Drift? ==> forall m :: IsResident(s.router, m) && m !in s.router.stopping ==> IsResident(e.router, m))
  }

  ghost predicate CalmRun(prompt: bool, s: State, es: seq<Event>)
    decreases |es|
  {
    es == [] || (Calm(prompt, s, es[0]) && CalmRun(prompt, Next(prompt, s, es[0]).value, es[1..]))
  }

  // Between two transitions: the last target is ready and alone.
  ghost predicate Settled(r: Router, loads: nat, leases: seq<ModelId>) {
    && loads == LoadsFor(leases)
    && r.stopping == {}
    && (forall a :: IsResident(r, a) ==> leases != [] && a == Last(leases))
    && (leases != [] ==> IsReady(r, Last(leases)))
  }

  ghost predicate OnTheWay(ph: Phase, r: Router, loads: nat, leases: seq<ModelId>)
    requires leases != []
  {
    var target, before := Last(leases), Init(leases);
    match ph
    case Leased => Settled(r, loads, before)
    case Listing(_) => Settled(r, loads, before)
    case Unloading(m, rest) =>
      Settled(r, loads, before) && before != [] && m == Last(before) && m != target && rest == []
    case AwaitUnloaded(m, rest) =>
      && loads == LoadsFor(before) && before != [] && m == Last(before) && m != target && rest == []
      && OnlyResident(r, m)
    case Posting => loads + 1 == LoadsFor(leases) && forall a :: !IsResident(r, a)
    case AwaitReady =>
      loads == LoadsFor(leases) && OnlyResident(r, target) && IsResident(r, target) && r.stopping == {}
    case _ => !ph.Unwinding? && Settled(r, loads, leases)
  }

  ghost predicate EconomyInv(s: State) {
    && NoFailures(s.router)
    && (forall m :: m in s.router.stopping ==> IsResident(s.router, m))
    && (Holders(s) == {} ==> Settled(s.router, s.loads, s.leases))
    && (forall t :: t in s.tasks && HoldsLease(s.tasks[t].phase) ==>
          && s.leases != [] && s.tasks[t].target == Last(s.leases)
          && OnTheWay(s.tasks[t].phase, s.router, s.loads, s.leases))
  }

  lemma {:induction false} OthersAre(order: seq<ModelId>, r: Router, target: ModelId, p: ModelId)
    requires forall a :: a in order && IsResident(r, a) ==> a == p
    requires Distinct(order)
    ensures Others(order, r, target) == if p in order && p != target && IsResident(r, p) then [p] else []
  {
    if order != [] {
      OthersAre(order[1..], r, target, p);
      assert forall i :: 0 < i < |order| ==> order[i] != order[0];
      assert p in order <==> p == order[0] || p in order[1..];
      assert p == order[0] ==> p !in order[1..];
    }
  }

  lemma ListingOnTheWay(prompt: bool, reload: bool, r: Router, loads: nat, leases: seq<ModelId>, order: seq<ModelId>)
    requires leases != [] && Settled(r, loads, Init(leases)) && NoFailures(r) && Enumerates(order, r)
    requires !AfterListing(r, Last(leases), reload, order).Unwinding?
    ensures OnTheWay(AfterListing(r, Last(leases), reload, order), r, loads, leases)
  {
    var before, target := Init(leases), Last(leases);
    assert before != [] ==> Last(before) == leases[|leases| - 2];
    if IsReady(r, target) {
      assert IsResident(r, target);
      assert |leases| >= 2 && LoadsFor(leases) == LoadsFor(before);
    } else if target in r.table {
      if before == [] {
        assert !IsResident(r, target);
        OthersAre(order, r, target, target);
      } else {
        OthersAre(order, r, target, Last(before));
        assert Others(order, r, target) == [Last(before)];
        assert NextUnload([Last(before)]) == Unloading(Last(before), []);
      }
    }
  }

  lemma MoveOnTheWay(prompt: bool, ph: Phase, r: Router, loads: nat, leases: seq<ModelId>, i: Input)
    requires leases != [] && OnTheWay(ph, r, loads, leases) && NoFailures(r)
    requires forall m :: m in r.stopping ==> IsResident(r, m)
    requires !i.Broken? && !i.Drifted? && Advance(prompt, Last(leases), ph, r, i).Some?
    requires !Advance(prompt, Last(leases), ph, r, i).value.0.Unwinding?
    ensures var (ph', r') := Advance(prompt, Last(leases), ph, r, i).value;
      && OnTheWay(ph', r', if PostsLoad(ph, i) then loads + 1 else loads, leases)
      && NoFailures(r') && (forall m :: m in r'.stopping ==> IsResident(r', m))
  {
    var (ph', r') := Advance(prompt, Last(leases), ph, r, i).value;
    forall a | IsResident(r', a)
      ensures IsResident(r, a) || (PostsLoad(ph, i) && a == Last(leases))
    {
      ResidentsAfter(prompt, Last(leases), ph, r, i, a);
    }
    if ph.Listing? {
      ListingOnTheWay(prompt, ph.reload, r, loads, leases, i.order);
    }
  }

  lemma DriftOnTheWay(ph: Phase, r: Router, loads: nat, leases: seq<ModelId>, r': Router)
    requires leases != [] && OnTheWay(ph, r, loads, leases) && Evolves(r, r')
    requires forall m :: IsResident(r, m) && m !in r.stopping ==> IsResident(r', m)
    ensures OnTheWay(ph, r', loads, leases)
  {
  }

  // EconomyInv of a state that t alone may hold the lease of.
  lemma FromHolder(s: State, t: TaskId)
    requires NoFailures(s.router) && (forall m :: m in s.router.stopping ==> IsResident(s.router, m))
    requires t in Holders(s) && (forall u :: u in Holders(s) ==> u == t)
    requires s.leases != [] && s.tasks[t].target == Last(s.leases)
    requires OnTheWay(s.tasks[t].phase, s.router, s.loads, s.leases)
    ensures EconomyInv(s)
  {
    forall u | u in s.tasks && HoldsLease(s.tasks[u].phase)
      ensures u == t
    {
      assert u in Holders(s);
    }
  }

  lemma EconomyMove(prompt: bool, s: State, t: TaskId, i: Input)
    requires Inv(prompt, s) && EconomyInv(s) && Calm(prompt, s, Move(t, i))
    ensures EconomyInv(Next(prompt, s, Move(t, i)).value)
  {
    var s' := Next(prompt, s, Move(t, i)).value;
    MoveResult(prompt, s, t, i);
    assert t in Holders(s);
    MoveOnTheWay(prompt, s.tasks[t].phase, s.router, s.loads, s.leases, i);
    OnlyHolder(prompt, s, Move(t, i), t);
    FromHolder(s', t);
  }

  lemma EconomyDrift(prompt: bool, s: State, r': Router)
    requires EconomyInv(s) && Calm(prompt, s, Drift(r'))
    ensures EconomyInv(s.(router := r'))
  {
    var s' := s.(router := r');
    assert Holders(s') == Holders(s);
    forall t | t in s.tasks && HoldsLease(s.tasks[t].phase)
      ensures OnTheWay(s.tasks[t].phase, r', s.loads, s.leases)
    {
      DriftOnTheWay(s.tasks[t].phase, s.router, s.loads, s.leases, r');
    }
  }

  // Events that leave every lease where it is.
  lemma EconomyQueue(prompt: bool, s: State, e: Event)
    requires Inv(prompt, s) && EconomyInv(s) && (e.Arrive? || e.Abandon?) && Next(prompt, s, e).Some?
    ensures EconomyInv(Next(prompt, s, e).value)
  {
    var s' := Next(prompt, s, e).value;
    forall u
      ensures u in Holders(s') <==> u in Holders(s)
      ensures u in Holders(s) ==> s'.tasks[u] == s.tasks[u]
    {
      if u != e.task { OthersUntouched(prompt, s, e, u); }
    }
    forall t | t in s'.tasks && HoldsLease(s'.tasks[t].phase)
      ensures OnTheWay(s'.tasks[t].phase, s'.router, s'.loads, s'.leases)
      ensures s'.leases != [] && s'.tasks[t].target == Last(s'.leases)
    {
      assert t in Holders(s') && t in Holders(s);
    }
  }

  // Acquire, Enter and Cleanup: the acting task holds the lease afterwards.
  lemma EconomyHold(prompt: bool, s: State, e: Event)
    requires Inv(prompt, s) && EconomyInv(s) && (e.Acquire? || e.Enter? || e.Cleanup?)
    requires Next(prompt, s, e).Some?
    ensures EconomyInv(Next(prompt, s, e).value)
  {
    var s' := Next(prompt, s, e).value;
    if s' != s {
      var t := e.task;
      assert t in Holders(s') && (t in Holders(s) || Holders(s) == {});
      OnlyHolder(prompt, s, e, t);
      if e.Acquire? { assert Init(s'.leases) == s.leases; }
      FromHolder(s', t);
    }
  }

  lemma EconomyClose(prompt: bool, s: State, t: TaskId, raised: bool)
    requires Inv(prompt, s) && EconomyInv(s) && Next(prompt, s, Close(t, raised)).Some?
    ensures EconomyInv(Next(prompt, s, Close(t, raised)).value)
  {
    var s' := Next(prompt, s, Close(t, raised)).value;
    assert t in Holders(s);
    OnlyHolder(prompt, s, Close(t, raised), t);
    assert s'.tasks[t].phase.Finished?;
    forall u | u in s'.tasks
      ensures !HoldsLease(s'.tasks[u].phase)
    {
      assert HoldsLease(s'.tasks[u].phase) ==> u in Holders(s');
    }
  }

  lemma EconomyStep(prompt: bool, s: State, e: Event)
    requires Inv(prompt, s) && EconomyInv(s) && Calm(prompt, s, e)
    ensures EconomyInv(Next(prompt, s, e).value)
  {
    match e
    case Drift(r') => EconomyDrift(prompt, s, r');
    case Arrive(_, _) => EconomyQueue(prompt, s, e);
    case Abandon(_) => EconomyQueue(prompt, s, e);
    case Move(t, i) => EconomyMove(prompt, s, t, i);
    case Close(t, raised) => EconomyClose(prompt, s, t, raised);
    case Quit(_) =>
    case Acquire(_) => EconomyHold(prompt, s, e);
    case Enter(_) => EconomyHold(prompt, s, e);
    case Cleanup(_) => EconomyHold(prompt, s, e);
  }

  // Move is Advance on the phase of the acting request.
  lemma MoveResult(prompt: bool, s: State, t: TaskId, i: Input)
    requires Next(prompt, s, Move(t, i)).Some?
    ensures var s' := Next(prompt, s, Move(t, i)).value;
      && !i.Drifted? && t in s.tasks && t in s'.tasks && s'.leases == s.leases
      && s'.tasks[t].target == s.tasks[t].target
      && Advance(prompt, s.tasks[t].target, s.tasks[t].phase, s.router, i) == Some((s'.tasks[t].phase, s'.router))
      && s'.loads == if PostsLoad(s.tasks[t].phase, i) then s.loads + 1 else s.loads
  {
  }

  // When the lease holder or the next one acts, nobody else holds the lease afterwards.
  lemma OnlyHolder(prompt: bool, s: State, e: Event, t: TaskId)
    requires Inv(prompt, s) && Next(prompt, s, e).Some? && !e.Drift? && e.task == t
    requires t in Holders(s) || Holders(s) == {}
    ensures forall u :: u in Holders(Next(prompt, s, e).value) ==> u == t
  {
    forall u | u in Holders(Next(prompt, s, e).value)
      ensures u == t
    {
      if u != t {
        OthersUntouched(prompt, s, e, u);
        assert u in Holders(s);
        HolderIsUnique(s, t, u);
      }
    }
  }

  lemma {:induction false} EconomyRun(prompt: bool, s: State, es: seq<Event>)
    requires Inv(prompt, s) && EconomyInv(s) && CalmRun(prompt, s, es)
    ensures Run(prompt, s, es).Some? && EconomyInv(Run(prompt, s, es).value)
    decreases |es|
  {
    if es != [] {
      InvStep(prompt, s, es[0]);
      EconomyStep(prompt, s, es[0]);
      EconomyRun(prompt, Next(prompt, s, es[0]).value, es[1..]);
    }
  }

  /** In a failure-free run over a router with nothing resident, whenever no lease is held the number
      of load POSTs is one plus the number of adjacent leases with different targets. */
  lemma LoadEconomy(prompt: bool, s0: State, es: seq<Event>)
    requires Initial(s0) && NoFailures(s0.router) && (forall a :: !IsResident(s0.router, a))
    requires CalmRun(prompt, s0, es)
    ensures Run(prompt, s0, es).Some?
    ensures var s := Run(prompt, s0, es).value;
      s.free == 1 ==> s.loads == if s.leases == [] then 0 else 1 + |AdjacentChanges(s.leases)|
  {
    InitialInv(prompt, s0);
    assert Holders(s0) == {};
    EconomyRun(prompt, s0, es);
    var s := Run(prompt, s0, es).value;
    RunInv(prompt, s0, es);
    if s.free == 1 {
      assert Holders(s) == {};
      LoadsForCountsChanges(s.leases);
    }
  }
}
