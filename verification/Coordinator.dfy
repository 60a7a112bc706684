/** LlamaModelCoordinator.ensure_loaded as the atomic steps between its awaits. */
module Coordinator {
  import opened Router

  // Where a request is, from the GPU queue to its end. Listing to AwaitReady are the awaits of
  // ensure_loaded.
  datatype Phase =
    | Queued
    | Abandoned
    | Leased
    | Listing(reload: bool)
    | Unloading(model: ModelId, rest: seq<ModelId>)
    | AwaitUnloaded(model: ModelId, rest: seq<ModelId>)
    | Posting
    | AwaitReady
    | Serving
    | Unwinding
    | Closing
    | Finished

  predicate InEnsureLoaded(ph: Phase) {
    ph.Listing? || ph.Unloading? || ph.AwaitUnloaded? || ph.Posting? || ph.AwaitReady?
  }

  // What an await may deliver. Broken is an HTTP error, a malformed listing, an expired deadline or a
  // cancellation; if the await was a POST, its effect may or may not have happened.
  datatype Input =
    | Listed(order: seq<ModelId>)
    | Sent
    | Broken(sent: bool)
    | Drifted(router: Router)

  function NextUnload(todo: seq<ModelId>): Phase {
    if todo == [] then Posting else Unloading(todo[0], todo[1..])
  }

  // The models the unload loop visits, in listing order.
  function Others(order: seq<ModelId>, r: Router, target: ModelId): (todo: seq<ModelId>)
    ensures forall m :: m in todo <==> m in order && m != target && IsResident(r, m)
  {
    if order == [] then []
    else
      var rest := Others(order[1..], r, target);
      if order[0] != target && IsResident(r, order[0]) then [order[0]] + rest else rest
  }

  function AfterListing(r: Router, target: ModelId, reload: bool, order: seq<ModelId>): Phase {
    if target !in r.table then (if reload then Unwinding else Listing(true))
    else
      var e := r.table[target];
      if IsReady(r, target) && !e.failed then Serving
      else if e.status.Loading? && !e.failed then AwaitReady
      else NextUnload(Others(order, r, target))
  }

  // One look of the polling loop: None means sleep and look again.
  function Poll(r: Router, m: ModelId, untilReady: bool): Option<bool> {
    if m !in r.table then None
    else if r.table[m].failed then Some(false)
    else if (if untilReady then IsReady(r, m) else r.table[m].status.Unloaded?) then Some(true)
    else None
  }

  datatype Option<+T> = None | Some(value: T)

  // Where a listing leaves the call.
  function AfterListed(ph: Phase, r: Router, target: ModelId, order: seq<ModelId>): Phase {
    match ph
    case Listing(reload) => AfterListing(r, target, reload, order)
    case AwaitUnloaded(m, rest) =>
      (match Poll(r, m, false)
       case None => ph
       case Some(ok) => if ok then NextUnload(rest) else Unwinding)
    case _ =>
      (match Poll(r, target, true)
       case None => ph
       case Some(ok) => if ok then Serving else Unwinding)
  }

  function AfterPosting(ph: Phase, target: ModelId, r: Router, prompt: bool): Router {
    match ph
    case Unloading(m, _) => PostUnload(r, m, prompt)
    case Posting => PostLoad(r, target)
    case _ => r
  }

  /** One step of ensure_loaded(target): the phase and router after an await delivered `i`. */
  ghost function Advance(prompt: bool, target: ModelId, ph: Phase, r: Router, i: Input): Option<(Phase, Router)>
  {
    if !InEnsureLoaded(ph) then None
    else match i
      case Drifted(r') => if Evolves(r, r') then Some((ph, r')) else None
      case Broken(sent) => Some((Unwinding, if sent then AfterPosting(ph, target, r, prompt) else r))
      case Sent =>
        (match ph
         case Unloading(m, rest) => Some((AwaitUnloaded(m, rest), PostUnload(r, m, prompt)))
         case Posting => Some((AwaitReady, PostLoad(r, target)))
         case _ => None)
      case Listed(order) =>
        if Enumerates(order, r) && (ph.Listing? || ph.AwaitUnloaded? || ph.AwaitReady?)
        then Some((AfterListed(ph, r, target, order), r))
        else None
  }

  // ---------------------------------------------------------------- what a step may lead to

  // What a truthful listing may show that ends the call with an error: the model is missing although the
  // router was asked to reload, or the model waited for has failed.
  predicate Condemns(target: ModelId, ph: Phase, r: Router) {
    match ph
    case Listing(reload) => reload && target !in r.table
    case AwaitUnloaded(m, _) => m in r.table && r.table[m].failed
    case AwaitReady => target in r.table && r.table[target].failed
    case _ => false
  }

  /** A call fails only for cause: at an await that broke, or at a listing that condemns it. */
  lemma FailsExactlyForCause(prompt: bool, target: ModelId, ph: Phase, r: Router, i: Input)
    requires Advance(prompt, target, ph, r, i).Some?
    ensures Advance(prompt, target, ph, r, i).value.0.Unwinding? <==> i.Broken? || (i.Listed? && Condemns(target, ph, r))
  {
  }

  /** A wait goes on exactly while the model is neither failed nor as expected, and leads on once it is. */
  lemma WaitsExactly(prompt: bool, target: ModelId, ph: Phase, r: Router, order: seq<ModelId>)
    requires Enumerates(order, r) && (ph.AwaitReady? || ph.AwaitUnloaded?)
    ensures var ph' := Advance(prompt, target, ph, r, Listed(order)).value.0;
      var m := if ph.AwaitReady? then target else ph.model;
      var arrived := m in r.table && !r.table[m].failed
                     && if ph.AwaitReady? then IsReady(r, m) else r.table[m].status.Unloaded?;
      && (ph' == ph <==> !arrived && !Condemns(target, ph, r))
      && (arrived <==> if ph.AwaitReady? then ph'.Serving? else ph' == NextUnload(ph.rest))
  {
    if ph.AwaitUnloaded? && ph.rest != [] { RestIsShorter(ph.rest); }
  }

  lemma RestIsShorter(todo: seq<ModelId>)
    requires todo != []
    ensures todo != todo[1..]
  {
    assert |todo[1..]| < |todo|;
  }

  /** Where the snapshot leads: to serving at once exactly when the target is ready, to waiting without any
      POST exactly when it is loading, and to unloading the other residents otherwise. */
  lemma SnapshotLeads(prompt: bool, target: ModelId, reload: bool, r: Router, order: seq<ModelId>)
    requires Enumerates(order, r)
    ensures var ph' := Advance(prompt, target, Listing(reload), r, Listed(order)).value.0;
      var fit := target in r.table && !r.table[target].failed;
      && (ph'.Serving? <==> fit && IsReady(r, target))
      && (ph'.AwaitReady? <==> fit && r.table[target].status.Loading?)
      && (ph' == Listing(true) <==> target !in r.table && !reload)
      && (ph'.Unloading? || ph'.Posting? <==> target in r.table && !(fit && IsResident(r, target)))
      && (ph'.Posting? ==> forall m :: m != target ==> !IsResident(r, m))
      && (ph'.Unloading? ==>
            forall m :: m == ph'.model || m in ph'.rest <==> m != target && IsResident(r, m))
  {
    var todo := Others(order, r, target);
    if todo != [] { assert todo == [todo[0]] + todo[1..]; }
    assert forall m :: IsResident(r, m) ==> m in order;
  }
}
