/** The GPU gate and one proxied request, from its lease to the end of its response. */
module Gateway {
  import opened Router
  import opened Coordinator
  import opened ModelCoordinator

  class TransitionLock {
    constructor () {}
  }

  /** GpuGate: the semaphore, the two gauges, and the lock its coordinator takes. */
  class GpuGate {
    var free: nat
    var waiters: int
    var inFlight: int
    const transitionLock: TransitionLock

    constructor (capacity: nat)
      ensures free == capacity && waiters == 0 && inFlight == 0 && fresh(transitionLock)
    {
      free, waiters, inFlight := capacity, 0, 0;
      transitionLock := new TransitionLock();
    }

    // Entering lease(): false when the waiter is cancelled, which is the only way on without a permit.
    method Enter(cancelled: bool) returns (acquired: bool)
      modifies this
      ensures acquired <==> old(free) > 0 && !cancelled
      ensures acquired ==> free == old(free) - 1 && inFlight == old(inFlight) + 1
      ensures !acquired ==> free == old(free) && inFlight == old(inFlight)
      ensures waiters == old(waiters)
    {
      waiters := waiters + 1;
      acquired := free > 0 && !cancelled;
      if acquired { free := free - 1; }
      waiters := waiters - 1;
      if acquired { inFlight := inFlight + 1; }
    }

    method Exit()
      modifies this
      ensures free == old(free) + 1 && inFlight == old(inFlight) - 1 && waiters == old(waiters)
    {
      inFlight := inFlight - 1;
      free := free + 1;
    }
  }

  datatype Outcome =
    | NeverLeased            // cancelled in the queue
    | Unavailable            // 503
    | BadGateway             // 502
    | Raised
    | Responded
    | Streaming              // the iterator and the background task still have to run

  // What becomes of the forwarded request. A refusal is an HTTP or runtime error, a crash anything else.
  datatype Sending = Sent(isError: bool) | Refused | Crashed

  /** What the request meets: whether it is cancelled in the queue or while its model loads, how forwarding
      goes, and whether the response can be read and closed. */
  datatype Circumstances =
    Circumstances(cancelled: bool, interrupted: bool, sending: Sending, readable: bool, closable: bool)

  /** How a request ends. It is answered 503 when its model could not be loaded, which is before anything is
      forwarded, and 502 when forwarding was refused. */
  predicate EndsAs(stream: bool, loaded: bool, met: Circumstances, outcome: Outcome) {
    if !loaded then outcome == if met.interrupted then Raised else Unavailable
    else match met.sending
      case Refused => outcome == BadGateway
      case Crashed => outcome == Raised
      case Sent(isError) =>
        if stream && !isError then outcome == Streaming
        else outcome == if met.readable && met.closable then Responded else Raised
  }

  /** One run of proxy_operation from the lease onward. */
  class ProxyRequest {
    const gate: GpuGate
    const coordinator: LlamaModelCoordinator
    var hasResponse: bool
    var cleanupDone: bool
    var forwards: nat
    ghost var releases: nat

    constructor (gate: GpuGate, coordinator: LlamaModelCoordinator)
      ensures this.gate == gate && this.coordinator == coordinator
      ensures !hasResponse && !cleanupDone && forwards == 0 && releases == 0
    {
      this.gate, this.coordinator := gate, coordinator;
      hasResponse, cleanupDone, forwards, releases := false, false, 0, 0;
    }

    /** cleanup_request: only the first call closes the response and releases the lease, and it
        releases even if closing raises. */
    method Cleanup(closable: bool) returns (raised: bool)
      modifies this`cleanupDone, this`releases, gate
      ensures cleanupDone && (raised <==> !old(cleanupDone) && hasResponse && !closable)
      ensures old(cleanupDone) ==> releases == old(releases) && gate.waiters == old(gate.waiters)
                                   && gate.free == old(gate.free) && gate.inFlight == old(gate.inFlight)
      ensures !old(cleanupDone) ==> releases == old(releases) + 1 && gate.waiters == old(gate.waiters)
                                    && gate.free == old(gate.free) + 1 && gate.inFlight == old(gate.inFlight) - 1
    {
      if cleanupDone { return false; }
      cleanupDone := true;
      raised := hasResponse && !closable;
      gate.Exit();
      releases := releases + 1;
    }

    /** Every path but a started stream has released its lease exactly once when it ends; a stream
        still holds it. Nothing is forwarded before the model is loaded, and loading fails only for cause. */
    method Run(model: ModelId, stream: bool, met: Circumstances) returns (outcome: Outcome, ghost loaded: bool)
      requires !cleanupDone && !hasResponse && releases == 0 && coordinator.interval > 0
      modifies this, gate, coordinator
      ensures outcome.NeverLeased? <==> old(gate.free) == 0 || met.cancelled
      ensures outcome.NeverLeased? ==> releases == 0 && !cleanupDone && forwards == old(forwards)
      ensures !outcome.NeverLeased? ==> EndsAs(stream, loaded, met, outcome)
      ensures !outcome.NeverLeased? ==> forwards == old(forwards) + if loaded then 1 else 0
      ensures !outcome.NeverLeased? && loaded && coordinator.mode.Explicit? ==>
        coordinator.target == model && coordinator.In(Serving)
      ensures !outcome.NeverLeased? && !loaded ==>
        coordinator.Excused(old(coordinator.listings), old(coordinator.posts), old(coordinator.now))
      ensures outcome.Streaming? ==> releases == 0 && !cleanupDone
                                     && gate.free == old(gate.free) - 1 && gate.inFlight == old(gate.inFlight) + 1
      ensures !outcome.Streaming? ==> gate.free == old(gate.free) && gate.inFlight == old(gate.inFlight)
      ensures !outcome.Streaming? && !outcome.NeverLeased? ==> releases == 1 && cleanupDone
      ensures gate.waiters == old(gate.waiters)
    {
      loaded := false;
      var acquired := gate.Enter(met.cancelled);
      if !acquired { return NeverLeased, loaded; }
      var raised: bool;
      var ready, _ := coordinator.EnsureLoaded(model);
      loaded := ready;
      if !ready {
        raised := Cleanup(met.closable);
        return if met.interrupted then Raised else Unavailable, loaded;
      }
      forwards := forwards + 1;
      if !met.sending.Sent? {
        raised := Cleanup(met.closable);
        return if met.sending.Refused? then BadGateway else Raised, loaded;
      }
      hasResponse := true;
      if stream && !met.sending.isError { return Streaming, loaded; }
      if met.readable {
        raised := Cleanup(met.closable);
        if !raised { return Responded, loaded; }
      }
      // except BaseException: a second cleanup after the first one raised finds nothing to do.
      raised := Cleanup(met.closable);
      outcome := Raised;
    }

    /** The end of a stream: the iterator's finally block, the background task and the exception
        handler may each call cleanup; together they release exactly once, if any of them runs. */
    method EndStream(calls: nat)
      requires !cleanupDone && releases == 0
      modifies this`cleanupDone, this`releases, gate
      ensures gate.waiters == old(gate.waiters)
      ensures calls == 0 ==> releases == 0 && gate.free == old(gate.free) && gate.inFlight == old(gate.inFlight)
      ensures calls > 0 ==>
        releases == 1 && gate.free == old(gate.free) + 1 && gate.inFlight == old(gate.inFlight) - 1
    {
      for i := 0 to calls
        invariant cleanupDone <==> i > 0
        invariant gate.waiters == old(gate.waiters)
        invariant releases == (if i > 0 then 1 else 0)
        invariant gate.free == old(gate.free) + releases && gate.inFlight == old(gate.inFlight) - releases
      {
        var closable: bool := *;
        var raised := Cleanup(closable);
      }
    }
  }
}
