/** LlamaModelCoordinator as the code runs it: loops, polling with a deadline, and calls to a router
    that changes while the coordinator waits. */
module ModelCoordinator {
  import opened Router
  import opened Coordinator
  import opened LeaseProtocol

  datatype Mode = Explicit | Autoload | NoCoordination

  datatype ModelStatus = ModelStatus(id: ModelId, entry: Entry)

  // The listing a call works from: how many deliveries it took, the router then, and the listing's order.
  datatype Snapshot = Snapshot(n: nat, seen: Router, order: seq<ModelId>)

  /** The phase and router after a sequence of inputs to ensure_loaded(target). */
  ghost function Replay(prompt: bool, target: ModelId, ph: Phase, r: Router, log: seq<Input>): Option<(Phase, Router)>
    decreases |log|
  {
    if log == [] then Some((ph, r))
    else match Advance(prompt, target, ph, r, log[0])
      case None => None
      case Some((ph', r')) => Replay(prompt, target, ph', r', log[1..])
  }

  lemma {:induction false} ReplaySnoc(prompt: bool, target: ModelId, ph: Phase, r: Router, log: seq<Input>, i: Input)
    requires Replay(prompt, target, ph, r, log).Some?
    ensures var (ph1, r1) := Replay(prompt, target, ph, r, log).value;
      Replay(prompt, target, ph, r, log + [i]) == Advance(prompt, target, ph1, r1, i)
    decreases |log|
  {
    if log == [] {
      assert (log + [i])[1..] == [];
    } else {
      assert (log + [i])[1..] == log[1..] + [i];
      var (ph1, r1) := Advance(prompt, target, ph, r, log[0]).value;
      ReplaySnoc(prompt, target, ph1, r1, log[1..], i);
    }
  }

  /** What a call of ensure_loaded does is what its request does in the protocol: the awaits of one
      call, played by a request that holds the transition lock, are a run of the protocol. */
  lemma {:induction false} ReplayIsRun(prompt: bool, s: State, t: TaskId, log: seq<Input>)
    requires Inv(prompt, s) && t in s.tasks && InEnsureLoaded(s.tasks[t].phase)
    requires Replay(prompt, s.tasks[t].target, s.tasks[t].phase, s.router, log).Some?
    ensures Run(prompt, s, AsEvents(t, log)).Some?
    ensures var s' := Run(prompt, s, AsEvents(t, log)).value;
      && t in s'.tasks && s'.tasks[t].target == s.tasks[t].target
      && Some((s'.tasks[t].phase, s'.router))
         == Replay(prompt, s.tasks[t].target, s.tasks[t].phase, s.router, log)
    decreases |log|
  {
    if log != [] {
      var es := AsEvents(t, log);
      assert Next(prompt, s, es[0]).Some?;
      var s' := Next(prompt, s, es[0]).value;
      InvStep(prompt, s, es[0]);
      assert es[1..] == AsEvents(t, log[1..]);
      if InEnsureLoaded(s'.tasks[t].phase) {
        ReplayIsRun(prompt, s', t, log[1..]);
      }
    }
  }

  /** A call that has failed did so at its last await, and for cause. */
  lemma {:induction false} ReplayFailsForCause(prompt: bool, target: ModelId, ph: Phase, r: Router, log: seq<Input>)
    requires InEnsureLoaded(ph) && Replay(prompt, target, ph, r, log).Some?
    requires Replay(prompt, target, ph, r, log).value.0.Unwinding?
    ensures log != [] && Replay(prompt, target, ph, r, log[..|log| - 1]).Some?
    ensures var (ph1, r1) := Replay(prompt, target, ph, r, log[..|log| - 1]).value;
      var last := log[|log| - 1];
      last.Broken? || (last.Listed? && Condemns(target, ph1, r1))
  {
    if log != [] {
      var front, last := log[..|log| - 1], log[|log| - 1];
      assert log == front + [last];
      ReplayFront(prompt, target, ph, r, front, last);
      ReplaySnoc(prompt, target, ph, r, front, last);
      var (ph1, r1) := Replay(prompt, target, ph, r, front).value;
      FailsExactlyForCause(prompt, target, ph1, r1, last);
    }
  }

  lemma {:induction false} ReplayFront(prompt: bool, target: ModelId, ph: Phase, r: Router, front: seq<Input>, last: Input)
    requires Replay(prompt, target, ph, r, front + [last]).Some?
    ensures Replay(prompt, target, ph, r, front).Some?
    decreases |front|
  {
    if front != [] {
      assert (front + [last])[0] == front[0] && (front + [last])[1..] == front[1..] + [last];
      var (ph', r') := Advance(prompt, target, ph, r, front[0]).value;
      ReplayFront(prompt, target, ph', r', front[1..], last);
    }
  }

  function AsEvents(t: TaskId, log: seq<Input>): seq<Event> {
    if log == [] then []
    else [if log[0].Drifted? then Drift(log[0].router) else Move(t, log[0])] + AsEvents(t, log[1..])
  }

  /** A call that returns leaves its model ready, if the router unloads at once. */
  lemma {:induction false} ReplayServes(target: ModelId, ph: Phase, r: Router, log: seq<Input>)
    requires Knows(true, r, target, ph) && r.stopping == {}
    requires Replay(true, target, ph, r, log).Some? && Replay(true, target, ph, r, log).value.0.Serving?
    ensures IsReady(Replay(true, target, ph, r, log).value.1, target)
    decreases |log|
  {
    if log != [] {
      AdvanceKnows(true, target, ph, r, log[0]);
      var (ph', r') := Advance(true, target, ph, r, log[0]).value;
      ReplayServes(target, ph', r', log[1..]);
    }
  }

  // Most looks a wait of `timeout` ticks can take when every sleep lasts `interval` ticks or more.
  function MostPolls(timeout: int, interval: int): nat
    requires interval > 0
  {
    if timeout <= 0 then 0 else (timeout + interval - 1) / interval
  }

  // n * x as repeated addition.
  function Times(n: nat, x: nat): nat {
    if n == 0 then 0 else Times(n - 1, x) + x
  }

  lemma {:induction false} TimesIsProduct(n: nat, x: nat)
    ensures Times(n, x) == n * x
  {
    if n > 0 { TimesIsProduct(n - 1, x); }
  }

  lemma {:induction false} TimesMonotone(n: nat, k: nat, x: nat)
    requires n <= k
    ensures Times(n, x) <= Times(k, x)
  {
    if n < k { TimesMonotone(n, k - 1, x); }
  }

  lemma PollFits(n: nat, timeout: int, interval: int)
    requires interval > 0 && Times(n, interval) < timeout
    ensures n + 1 <= MostPolls(timeout, interval)
  {
    TimesIsProduct(n, interval);
  }

  lemma {:induction false} DistinctFit(s: seq<ModelId>, b: set<ModelId>)
    requires Distinct(s)
    requires forall m :: m in s ==> m in b
    ensures |s| <= |b|
  {
    if s != [] {
      assert s[0] !in s[1..];
      DistinctFit(s[1..], b - {s[0]});
    }
  }

  lemma {:induction false} OthersDistinct(order: seq<ModelId>, r: Router, target: ModelId)
    requires Distinct(order)
    ensures Distinct(Others(order, r, target))
  {
    if order != [] {
      OthersDistinct(order[1..], r, target);
      assert order[0] !in order[1..];
      assert order[0] !in Others(order[1..], r, target);
    }
  }

  function Ids(statuses: seq<ModelStatus>): (ids: seq<ModelId>)
    ensures |ids| == |statuses| && forall i :: 0 <= i < |ids| ==> ids[i] == statuses[i].id
  {
    seq(|statuses|, i requires 0 <= i < |statuses| => statuses[i].id)
  }

  class LlamaModelCoordinator {
    const mode: Mode
    const timeout: int
    const interval: int
    const prompt: bool

    // Which listing requests fail, or are answered with a malformed payload, and which POSTs fail.
    const listingFails: nat -> bool
    const postFails: nat -> bool

    // The router behind the HTTP client, the monotonic clock in ticks, and the listings and POSTs sent.
    var router: Router
    var now: int
    var listings: nat
    var posts: nat

    // The call in progress: its target, the router it started from, and what its awaits delivered.
    ghost var target: ModelId
    ghost var start: Router
    ghost var log: seq<Input>

    constructor (mode: Mode, timeout: int, interval: int, prompt: bool, listingFails: nat -> bool,
                 postFails: nat -> bool, router: Router)
      ensures this.mode == mode && this.timeout == timeout && this.interval == interval
      ensures this.prompt == prompt && this.listingFails == listingFails && this.postFails == postFails
      ensures this.router == router && listings == 0 && posts == 0
    {
      this.mode, this.timeout, this.interval, this.prompt := mode, timeout, interval, prompt;
      this.listingFails, this.postFails := listingFails, postFails;
      this.router, now, listings, posts := router, 0, 0, 0;
      target, start, log := "", router, [];
    }

    // The awaits so far are a run of the atomic steps that ends in phase `ph`.
    ghost predicate In(ph: Phase)
      reads this
    {
      Replay(prompt, target, Listing(false), start, log) == Some((ph, router))
    }

    ghost predicate ListingFailed(since: nat)
      reads this
    {
      exists n: nat :: since <= n < listings && listingFails(n)
    }

    ghost predicate PostFailed(since: nat)
      reads this
    {
      exists n: nat :: since <= n < posts && postFails(n)
    }

    // The last await was a listing that condemned the call.
    ghost predicate Condemned()
      reads this
    {
      && log != [] && log[|log| - 1].Listed?
      && Replay(prompt, target, Listing(false), start, log[..|log| - 1]).Some?
      && var (ph, r) := Replay(prompt, target, Listing(false), start, log[..|log| - 1]).value;
        Condemns(target, ph, r)
    }

    ghost predicate Progressed(listings0: nat, posts0: nat, now0: int)
      reads this
    {
      listings0 <= listings && posts0 <= posts && now0 <= now
    }

    // What a call may fail for: a request that failed, a listing that condemns it, a wait that took too long.
    ghost predicate Excused(listings0: nat, posts0: nat, now0: int)
      reads this
    {
      ListingFailed(listings0) || PostFailed(posts0) || Condemned() || now >= now0 + timeout
    }

    ghost method Deliver(ph: Phase, i: Input, before: Router)
      requires Replay(prompt, target, Listing(false), start, log) == Some((ph, before))
      requires Advance(prompt, target, ph, before, i).Some?
      requires Advance(prompt, target, ph, before, i).value.1 == router
      modifies this`log
      ensures In(Advance(prompt, target, ph, before, i).value.0)
      ensures log == old(log) + [i]
      ensures i.Listed? && Condemns(target, ph, before) ==> Condemned()
    {
      ReplaySnoc(prompt, target, Listing(false), start, log, i);
      assert (log + [i])[..|log|] == log;
      log := log + [i];
    }

    // Suspends for at least `ticks`; meanwhile the router changes on its own.
    method Suspend(ticks: int, ghost ph: Phase)
      requires ticks >= 0 && In(ph) && InEnsureLoaded(ph)
      modifies this`router, this`now, this`log
      ensures now >= old(now) + ticks && Evolves(old(router), router) && In(ph) && old(log) <= log
    {
      var late: nat, r: Router := *, *;
      now := now + ticks + late;
      ghost var before := router;
      router := if Evolves(router, r) then r
                else router.(stopping := set m | m in router.stopping && IsResident(router, m));
      Deliver(ph, Drifted(router), before);
    }

    /** GET /models: None when the request fails or the payload is malformed. */
    method ListModels(ghost ph: Phase) returns (statuses: Option<seq<ModelStatus>>)
      requires In(ph) && (ph.Listing? || ph.AwaitUnloaded? || ph.AwaitReady?)
      modifies this`router, this`now, this`listings, this`log
      ensures listings == old(listings) + 1 && now >= old(now) && Evolves(old(router), router) && old(log) <= log
      ensures statuses.None? <==> listingFails(old(listings))
      ensures statuses.None? ==> In(Unwinding)
      ensures statuses.Some? && Condemns(target, ph, router) ==> Condemned()
      ensures statuses.Some? ==>
        && var order := Ids(statuses.value);
        && log != [] && log[|log| - 1] == Listed(order)
        && Mirrors(statuses.value, router)
        && In(AfterListed(ph, router, target, order))
    {
      Suspend(0, ph);
      listings := listings + 1;
      if listingFails(listings - 1) {
        Deliver(ph, Broken(false), router);
        return None;
      }
      var found: seq<ModelStatus>, rest := [], router.table.Keys;
      while rest != {}
        invariant rest <= router.table.Keys
        invariant forall m :: m in router.table ==> (m in rest <==> m !in Ids(found))
        invariant forall s :: s in found ==> s.id in router.table && s.entry == router.table[s.id]
        invariant forall i, j :: 0 <= i < j < |found| ==> found[i].id != found[j].id
        decreases rest
      {
        var m :| m in rest;
        assert Ids(found + [ModelStatus(m, router.table[m])]) == Ids(found) + [m];
        assert forall i :: 0 <= i < |found| ==> Ids(found)[i] == found[i].id;
        found, rest := found + [ModelStatus(m, router.table[m])], rest - {m};
      }
      statuses := Some(found);
      Deliver(ph, Listed(Ids(found)), router);
    }

    /** POST /models/unload or /models/load; returns whether it succeeded. */
    method Post(ghost ph: Phase, model: ModelId, load: bool) returns (ok: bool)
      requires In(ph) && (if load then ph.Posting? && model == target else ph.Unloading? && model == ph.model)
      modifies this`router, this`now, this`posts, this`log
      ensures now >= old(now) && old(log) <= log && posts == old(posts) + 1
      ensures ok <==> !postFails(old(posts))
      ensures In(if !ok then Unwinding else if load then AwaitReady else AwaitUnloaded(model, ph.rest))
    {
      Suspend(0, ph);
      ghost var before := router;
      ok := !postFails(posts);
      posts := posts + 1;
      var sent: bool := *;
      if ok || sent {
        router := if load then PostLoad(router, model) else PostUnload(router, model, prompt);
      }
      Deliver(ph, if ok then Sent else Broken(sent), before);
    }

    // One turn of the polling loop up to its sleep: None if the model is not yet as expected.
    method Look(ghost ph: Phase, model: ModelId, untilReady: bool) returns (done: Option<bool>)
      requires In(ph)
      requires if untilReady then ph.AwaitReady? && model == target else ph.AwaitUnloaded? && model == ph.model
      modifies this`router, this`now, this`listings, this`log
      ensures now >= old(now) && listings == old(listings) + 1 && old(log) <= log
      ensures In(match done case None => ph
                 case Some(ok) => if !ok then Unwinding else if untilReady then Serving else NextUnload(ph.rest))
      ensures done == Some(false) ==> listingFails(old(listings)) || Condemned()
    {
      var statuses := ListModels(ph);
      if statuses.None? { return Some(false); }
      var last := Find(statuses.value, model);
      if last.None? { return None; }
      if last.value.failed { return Some(false); }
      if if untilReady then last.value.status.Loaded? || last.value.status.Sleeping? else last.value.status.Unloaded? {
        return Some(true);
      }
      return None;
    }

    /** _wait_for: looks until the model is as expected, and gives up only when a listing fails, the model is
        listed as failed, or the deadline has passed. */
    method WaitFor(ghost ph: Phase, model: ModelId, untilReady: bool) returns (ok: bool)
      requires interval > 0 && In(ph)
      requires if untilReady then ph.AwaitReady? && model == target else ph.AwaitUnloaded? && model == ph.model
      modifies this`router, this`now, this`listings, this`log
      ensures In(if !ok then Unwinding else if untilReady then Serving else NextUnload(ph.rest)) && old(log) <= log
      ensures old(listings) <= listings <= old(listings) + MostPolls(timeout, interval) && now >= old(now)
      ensures !ok ==> Excused(old(listings), posts, old(now))
    {
      var deadline := now + timeout;
      ghost var n: nat := 0;
      while now < deadline
        invariant In(ph) && old(log) <= log
        invariant listings == old(listings) + n <= old(listings) + MostPolls(timeout, interval)
        invariant Times(n, interval) <= now - old(now)
        decreases deadline - now
      {
        PollFits(n, timeout, interval);
        var done := Look(ph, model, untilReady);
        if done.Some? { return done.value; }
        Suspend(interval, ph);
        n := n + 1;
      }
      Deliver(ph, Broken(false), router);
      ok := false;
    }

    // After the first n deliveries of the call the router was `seen`, and the last of them was a listing of
    // it, in this order, that names the target.
    ghost predicate TookSnapshot(snapshot: Snapshot)
      reads this
    {
      && 0 < snapshot.n <= |log| && log[snapshot.n - 1] == Listed(snapshot.order)
      && Replay(prompt, target, Listing(false), start, log[..snapshot.n]).Some?
      && Replay(prompt, target, Listing(false), start, log[..snapshot.n]).value.1 == snapshot.seen
      && Enumerates(snapshot.order, snapshot.seen) && target in snapshot.order
    }

    /** ensure_loaded: a run of the atomic steps from the first listing to serving or to an error. It
        lists at most twice until a listing names the model, and from that snapshot on once per poll of
        each wait, at most one wait for every other model resident in it and one for the target. It fails
        only for cause. */
    method EnsureLoaded(model: ModelId) returns (ok: bool, ghost snapshot: Option<Snapshot>)
      requires interval > 0
      modifies this
      ensures !mode.Explicit? ==> ok && router == old(router) && listings == old(listings)
      ensures mode.Explicit? ==> target == model && start == old(router) && In(if ok then Serving else Unwinding)
      ensures !ok ==> Excused(old(listings), old(posts), old(now))
      ensures mode.Explicit? && snapshot.None? ==> !ok && listings <= old(listings) + 2
      ensures mode.Explicit? && snapshot.Some? ==>
        && TookSnapshot(snapshot.value)
        && listings <= old(listings) + 2 +
           Times(|Others(snapshot.value.order, snapshot.value.seen, model)| + 1, MostPolls(timeout, interval))
        && |Others(snapshot.value.order, snapshot.value.seen, model)| <= OtherResidents(old(router), model)
    {
      snapshot := None;
      if !mode.Explicit? { return true, None; }
      target, start, log := model, router, [];
      ok, snapshot := EnsureExplicit(model);
    }

    method EnsureExplicit(model: ModelId) returns (ok: bool, ghost snapshot: Option<Snapshot>)
      requires interval > 0 && model == target && In(Listing(false))
      modifies this`router, this`now, this`listings, this`posts, this`log
      ensures In(if ok then Serving else Unwinding)
      ensures !ok ==> Excused(old(listings), old(posts), old(now))
      ensures snapshot.None? ==> !ok && listings <= old(listings) + 2
      ensures snapshot.Some? ==>
        && TookSnapshot(snapshot.value)
        && listings <= old(listings) + 2 +
           Times(|Others(snapshot.value.order, snapshot.value.seen, model)| + 1, MostPolls(timeout, interval))
        && |Others(snapshot.value.order, snapshot.value.seen, model)| <= OtherResidents(old(router), model)
    {
      ghost var before := router;
      var answer := TakeSnapshot(model);
      if answer.None? { return false, None; }
      ghost var taken := Snapshot(|log|, router, Ids(answer.value));
      assert TookSnapshot(taken) by { assert log[..|log|] == log; }
      FewOthers(before, router, taken.order, model);
      ok := Proceed(model, answer.value, taken);
      snapshot := Some(taken);
    }

    // One listing, and whether it names the model.
    method ListFor(model: ModelId, reload: bool) returns (statuses: Option<seq<ModelStatus>>, named: bool)
      requires model == target && In(Listing(reload))
      modifies this`router, this`now, this`listings, this`log
      ensures listings == old(listings) + 1 && Fewer(old(router), router) && now >= old(now)
      ensures statuses.None? ==> In(Unwinding) && !named && listingFails(old(listings))
      ensures statuses.Some? && !named && reload ==> Condemned()
      ensures statuses.Some? ==>
        && log != [] && log[|log| - 1] == Listed(Ids(statuses.value)) && Mirrors(statuses.value, router)
        && (named <==> model in Ids(statuses.value))
        && In(if named then AfterListing(router, model, true, Ids(statuses.value)) else if reload then Unwinding else Listing(true))
    {
      ghost var before := router;
      statuses := ListModels(Listing(reload));
      EvolvesToFewer(before, router);
      if statuses.None? { return statuses, false; }
      var found := Find(statuses.value, model);
      named := found.Some?;
      AfterListingByName(router, model, reload, Ids(statuses.value));
    }

    // The listing the call works from: the first one that names the model, the second after a reload.
    method TakeSnapshot(model: ModelId) returns (statuses: Option<seq<ModelStatus>>)
      requires model == target && In(Listing(false))
      modifies this`router, this`now, this`listings, this`log
      ensures old(listings) <= listings <= old(listings) + 2 && now >= old(now)
      ensures statuses.None? ==> In(Unwinding) && Excused(old(listings), posts, old(now))
      ensures statuses.Some? ==>
        && log != [] && log[|log| - 1] == Listed(Ids(statuses.value)) && Mirrors(statuses.value, router)
        && model in Ids(statuses.value) && Fewer(old(router), router)
        && In(AfterListing(router, model, true, Ids(statuses.value)))
    {
      var named: bool;
      statuses, named := ListFor(model, false);
      if named || statuses.None? { return; }
      statuses, named := ListFor(model, true);
      if !named { statuses := None; }
    }

    // What the snapshot says of the target decides how the call goes on.
    method Proceed(model: ModelId, statuses: seq<ModelStatus>, ghost taken: Snapshot) returns (ok: bool)
      requires model == target && interval > 0 && TookSnapshot(taken)
      requires taken.seen == router && taken.order == Ids(statuses) && Mirrors(statuses, router)
      requires In(AfterListing(router, model, true, Ids(statuses)))
      modifies this`router, this`now, this`listings, this`posts, this`log
      ensures In(if ok then Serving else Unwinding) && TookSnapshot(taken)
      ensures !ok ==> Excused(old(listings), old(posts), old(now))
      ensures listings <= old(listings) +
        Times(|Others(Ids(statuses), old(router), model)| + 1, MostPolls(timeout, interval))
    {
      ghost var before := log;
      var found := Find(statuses, model);
      var ready := found.value.status.Loaded? || found.value.status.Sleeping?;
      if ready && !found.value.failed {
        ok := true;
      } else if found.value.status.Loading? && !found.value.failed {
        ok := WaitFor(AwaitReady, model, true);
        TimesMonotone(1, |Others(Ids(statuses), old(router), model)| + 1, MostPolls(timeout, interval));
      } else {
        ok := Swap(model, statuses);
      }
      assert log[..taken.n] == before[..taken.n];
    }

    // Everything after the snapshot was taken and the target was found not to be on its way.
    method Swap(model: ModelId, statuses: seq<ModelStatus>) returns (ok: bool)
      requires model == target && interval > 0 && Mirrors(statuses, router)
      requires In(NextUnload(Others(Ids(statuses), router, model)))
      modifies this`router, this`now, this`listings, this`posts, this`log
      ensures In(if ok then Serving else Unwinding) && old(log) <= log
      ensures !ok ==> Excused(old(listings), old(posts), old(now))
      ensures listings <= old(listings) +
        Times(|Others(Ids(statuses), old(router), model)| + 1, MostPolls(timeout, interval))
    {
      ok := UnloadOthers(model, statuses);
      if !ok { return; }
      ok := Post(Posting, model, true);
      if !ok { return; }
      ok := WaitFor(AwaitReady, model, true);
    }

    method UnloadOne(model: ModelId, ghost rest: seq<ModelId>) returns (ok: bool)
      requires interval > 0 && In(Unloading(model, rest))
      modifies this`router, this`now, this`listings, this`posts, this`log
      ensures In(if ok then NextUnload(rest) else Unwinding) && old(log) <= log
      ensures Progressed(old(listings), old(posts), old(now))
      ensures !ok ==> Excused(old(listings), old(posts), old(now))
      ensures listings <= old(listings) + MostPolls(timeout, interval)
    {
      ok := Post(Unloading(model, rest), model, false);
      if !ok { return; }
      ok := WaitFor(AwaitUnloaded(model, rest), model, false);
    }

    // One turn of the unload loop: a model that is not to be unloaded is passed over.
    method UnloadNext(status: ModelStatus, model: ModelId, ghost todo: seq<ModelId>, ghost rest: seq<ModelId>) returns (ok: bool)
      requires interval > 0 && In(NextUnload(todo))
      requires todo == if status.id != model && Occupies(status.entry) then [status.id] + rest else rest
      modifies this`router, this`now, this`listings, this`posts, this`log
      ensures In(if ok then NextUnload(rest) else Unwinding) && old(log) <= log
      ensures Progressed(old(listings), old(posts), old(now))
      ensures !ok ==> Excused(old(listings), old(posts), old(now))
      ensures listings + Times(|rest|, MostPolls(timeout, interval))
           <= old(listings) + Times(|todo|, MostPolls(timeout, interval))
    {
      ok := true;
      if status.id != model && Occupies(status.entry) {
        assert todo[1..] == rest;
        ok := UnloadOne(status.id, rest);
      }
    }

    /** The unload loop over one snapshot of the router: every other resident model is asked to unload
        and waited for, one after the other. */
    method UnloadOthers(model: ModelId, statuses: seq<ModelStatus>) returns (ok: bool)
      requires model == target && interval > 0 && Mirrors(statuses, router)
      requires In(NextUnload(Others(Ids(statuses), router, model)))
      modifies this`router, this`now, this`listings, this`posts, this`log
      ensures In(if ok then Posting else Unwinding) && old(log) <= log
      ensures Progressed(old(listings), old(posts), old(now))
      ensures !ok ==> Excused(old(listings), old(posts), old(now))
      ensures listings <= old(listings) +
        Times(|Others(Ids(statuses), old(router), model)|, MostPolls(timeout, interval))
    {
      ghost var seen, order, polls := router, Ids(statuses), MostPolls(timeout, interval);
      ghost var most := listings + Times(|Others(order, seen, model)|, polls);
      assert order[0..] == order;
      for i := 0 to |statuses|
        invariant In(NextUnload(Others(order[i..], seen, model))) && old(log) <= log
        invariant Progressed(old(listings), old(posts), old(now))
        invariant listings + Times(|Others(order[i..], seen, model)|, polls) <= most
      {
        OthersFrom(statuses, seen, i, model);
        ok := UnloadNext(statuses[i], model, Others(order[i..], seen, model), Others(order[i + 1..], seen, model));
        if !ok { return; }
      }
      ok := true;
    }
  }

  lemma OthersFrom(statuses: seq<ModelStatus>, r: Router, i: nat, target: ModelId)
    requires Mirrors(statuses, r) && i < |statuses|
    ensures var order := Ids(statuses);
      var rest := Others(order[i + 1..], r, target);
      Others(order[i..], r, target) ==
        if statuses[i].id != target && Occupies(statuses[i].entry) then [statuses[i].id] + rest else rest
  {
    var order := Ids(statuses);
    assert order[i..][1..] == order[i + 1..] && order[i..][0] == statuses[i].id;
    assert statuses[i] in statuses;
  }

  ghost function OtherResidents(r: Router, m: ModelId): nat {
    |Residents(r) - {m}|
  }

  // The statuses are the router's table.
  ghost predicate Mirrors(statuses: seq<ModelStatus>, r: Router) {
    && Enumerates(Ids(statuses), r)
    && (forall s :: s in statuses ==> s.id in r.table && s.entry == r.table[s.id])
  }

  // No model became resident.
  ghost predicate Fewer(r: Router, r': Router) {
    forall m :: IsResident(r', m) ==> IsResident(r, m)
  }

  lemma EvolvesToFewer(r: Router, r': Router)
    requires Evolves(r, r')
    ensures Fewer(r, r')
  {
  }

  // Where a listing leads, by whether it names the target.
  lemma AfterListingByName(r: Router, target: ModelId, reload: bool, order: seq<ModelId>)
    requires Enumerates(order, r)
    ensures AfterListing(r, target, reload, order) ==
            if target in order then AfterListing(r, target, true, order) else if reload then Unwinding else Listing(true)
  {
  }

  // The waits for other models number at most the models resident when the call began.
  lemma FewOthers(r0: Router, seen: Router, order: seq<ModelId>, target: ModelId)
    requires Enumerates(order, seen) && Fewer(r0, seen)
    ensures |Others(order, seen, target)| <= OtherResidents(r0, target)
  {
    OthersDistinct(order, seen, target);
    forall m | m in Others(order, seen, target)
      ensures m in Residents(r0) - {target}
    {
      assert IsResident(seen, m);
    }
    DistinctFit(Others(order, seen, target), Residents(r0) - {target});
  }

  predicate Occupies(e: Entry) {
    e.status.Loaded? || e.status.Loading? || e.status.Sleeping?
  }

  function Find(statuses: seq<ModelStatus>, m: ModelId): (e: Option<Entry>)
    ensures e.None? <==> m !in Ids(statuses)
    ensures e.Some? ==> ModelStatus(m, e.value) in statuses
  {
    if statuses == [] then None
    else if statuses[0].id == m then Some(statuses[0].entry)
    else
      assert Ids(statuses) == [statuses[0].id] + Ids(statuses[1..]);
      Find(statuses[1..], m)
  }
}
