/** Building the runtimes of a document's backends: which ones get a gate and a coordinator, and which
    coordinator takes whose lock. */
module Backends {
  import opened Gateway
  import opened ModelCoordinator

  // An absent base URL is "".
  datatype Spec = Spec(llamaCpp: bool, enabled: bool, url: string, mode: Mode, serialize: bool, legacy: bool)

  // The settings a legacy llama.cpp backend takes over.
  datatype Settings = Settings(llamaUrl: string, mode: Mode)

  // What the runtime keeps of its coordinator.
  datatype Coordination = None | Coordination(mode: Mode, lock: TransitionLock?)

  function Effective(settings: Settings, spec: Spec): Spec {
    if spec.legacy && spec.llamaCpp then spec.(url := settings.llamaUrl, mode := settings.mode) else spec
  }

  predicate Usable(settings: Settings, spec: Spec) {
    spec.enabled && Effective(settings, spec).url != ""
  }

  class BackendRuntime {
    const spec: Spec
    const coordination: Coordination
    const gate: GpuGate?

    constructor (spec: Spec, coordination: Coordination, gate: GpuGate?)
      ensures this.spec == spec && this.coordination == coordination && this.gate == gate
    {
      this.spec, this.coordination, this.gate := spec, coordination, gate;
    }
  }

  /** A runtime has a gate exactly when its requests are serialized, and a coordinator exactly when it is
      a coordinated llama.cpp; the coordinator takes the lock of that gate, or has none to take. */
  predicate Wired(rt: BackendRuntime, spec: Spec) {
    && rt.spec == spec
    && (rt.gate != null <==> spec.serialize)
    && (rt.coordination.Coordination? <==> spec.llamaCpp && spec.mode != NoCoordination)
    && (rt.coordination.Coordination? ==>
          && rt.coordination.mode == spec.mode
          && rt.coordination.lock == if rt.gate == null then null else rt.gate.transitionLock)
  }

  // Neither gates nor locks are shared.
  predicate Apart(a: BackendRuntime, b: BackendRuntime) {
    a.gate != null && b.gate != null ==> a.gate != b.gate && a.gate.transitionLock != b.gate.transitionLock
  }

  ghost predicate DistinctIds(backends: seq<(string, Spec)>) {
    forall i, j :: 0 <= i < j < |backends| ==> backends[i].0 != backends[j].0
  }

  predicate FreeGate(rt: BackendRuntime)
    reads rt.gate
  {
    rt.gate != null ==> rt.gate.free == 1
  }

  // Where a backend ends up.
  predicate Placed(settings: Settings, runtimes: map<string, BackendRuntime>, unavailable: map<string, string>, id: string, spec: Spec)
  {
    if Usable(settings, spec) then
      id in runtimes && id !in unavailable && Wired(runtimes[id], Effective(settings, spec))
    else id !in runtimes && id in unavailable
  }

  // What get() says of a backend without a runtime.
  predicate Explained(settings: Settings, unavailable: map<string, string>, id: string, spec: Spec) {
    !Usable(settings, spec) ==>
      id in unavailable && unavailable[id] == if !spec.enabled then "disabled" else "base URL is not configured"
  }

  /** A legacy llama.cpp backend takes its address and mode from the settings, any other has its own. */
  lemma LegacyTakesSettings(settings: Settings, spec: Spec)
    ensures var effective, takes := Effective(settings, spec), spec.legacy && spec.llamaCpp;
      && effective.url == (if takes then settings.llamaUrl else spec.url)
      && effective.mode == (if takes then settings.mode else spec.mode)
      && effective == spec.(url := effective.url, mode := effective.mode)
      && (Usable(settings, spec) <==> spec.enabled && (if takes then settings.llamaUrl else spec.url) != "")
  {
  }

  // The first n backends are in their places, and there is nothing else.
  ghost predicate Built(settings: Settings, backends: seq<(string, Spec)>, n: nat, runtimes: map<string, BackendRuntime>,
                        unavailable: map<string, string>)
    requires n <= |backends|
  {
    && (forall id :: id in runtimes || id in unavailable ==> Named(backends, n, id))
    && (forall k :: 0 <= k < n ==>
          && Placed(settings, runtimes, unavailable, backends[k].0, backends[k].1)
          && Explained(settings, unavailable, backends[k].0, backends[k].1))
  }

  lemma RuntimeBuilt(settings: Settings, backends: seq<(string, Spec)>, n: nat, runtimes: map<string, BackendRuntime>,
                     unavailable: map<string, string>, rt: BackendRuntime)
    requires DistinctIds(backends) && n < |backends| && Built(settings, backends, n, runtimes, unavailable)
    requires Usable(settings, backends[n].1) && Wired(rt, Effective(settings, backends[n].1))
    ensures backends[n].0 !in runtimes && Built(settings, backends, n + 1, runtimes[backends[n].0 := rt], unavailable)
  {
    NewName(backends, n);
    NamesGrow(backends, n);
  }

  lemma RefusalBuilt(settings: Settings, backends: seq<(string, Spec)>, n: nat, runtimes: map<string, BackendRuntime>,
                     unavailable: map<string, string>, reason: string)
    requires DistinctIds(backends) && n < |backends| && Built(settings, backends, n, runtimes, unavailable)
    requires !Usable(settings, backends[n].1)
    requires reason == if !backends[n].1.enabled then "disabled" else "base URL is not configured"
    ensures Built(settings, backends, n + 1, runtimes, unavailable[backends[n].0 := reason])
  {
    NewName(backends, n);
    NamesGrow(backends, n);
  }

  ghost predicate AllApart(runtimes: map<string, BackendRuntime>) {
    forall a, b :: a in runtimes && b in runtimes && a != b ==> Apart(runtimes[a], runtimes[b])
  }

  lemma OneApartMore(runtimes: map<string, BackendRuntime>, id: string, rt: BackendRuntime)
    requires AllApart(runtimes) && id !in runtimes && forall other :: other in runtimes ==> Apart(runtimes[other], rt)
    ensures AllApart(runtimes[id := rt])
  {
  }

  predicate Named(backends: seq<(string, Spec)>, n: nat, id: string)
    requires n <= |backends|
  {
    exists k :: 0 <= k < n && backends[k].0 == id
  }

  lemma NewName(backends: seq<(string, Spec)>, n: nat)
    requires DistinctIds(backends) && n < |backends|
    ensures !Named(backends, n, backends[n].0)
  {
  }

  lemma NamesGrow(backends: seq<(string, Spec)>, n: nat)
    requires n < |backends|
    ensures forall id :: Named(backends, n + 1, id) <==> Named(backends, n, id) || id == backends[n].0
  {
    forall id | Named(backends, n, id)
      ensures Named(backends, n + 1, id)
    {
      var k :| 0 <= k < n && backends[k].0 == id;
    }
  }

  class BackendRuntimeRegistry {
    const runtimes: map<string, BackendRuntime>
    const unavailable: map<string, string>

    constructor (runtimes: map<string, BackendRuntime>, unavailable: map<string, string>)
      ensures this.runtimes == runtimes && this.unavailable == unavailable
    {
      this.runtimes, this.unavailable := runtimes, unavailable;
    }

    // Why a backend gets no runtime, if so.
    static method Refusal(settings: Settings, spec: Spec) returns (reason: string)
      ensures reason == "" <==> Usable(settings, spec)
      ensures reason == if !spec.enabled then "disabled" else if reason == "" then "" else "base URL is not configured"
    {
      if !spec.enabled { return "disabled"; }
      reason := if Effective(settings, spec).url == "" then "base URL is not configured" else "";
    }

    // The gate, the coordinator and the runtime of one usable backend.
    static method MakeRuntime(spec: Spec) returns (rt: BackendRuntime)
      ensures Wired(rt, spec) && FreeGate(rt)
      ensures rt.gate != null ==> fresh(rt.gate) && fresh(rt.gate.transitionLock)
    {
      var gate: GpuGate? := null;
      if spec.serialize { gate := new GpuGate(1); }
      var coordination := None;
      if spec.llamaCpp && spec.mode != NoCoordination {
        coordination := Coordination(spec.mode, if gate == null then null else gate.transitionLock);
      }
      rt := new BackendRuntime(spec, coordination, gate);
    }

    /** Every backend ends up as a runtime or as unavailable with the reason; each runtime is wired as its
        spec says, with a free permit of its own, and no two share a gate or a lock. So what holds under
        one gate holds for each backend by itself. */
    static method Build(settings: Settings, backends: seq<(string, Spec)>) returns (registry: BackendRuntimeRegistry)
      requires DistinctIds(backends)
      ensures forall k :: 0 <= k < |backends| ==>
        Placed(settings, registry.runtimes, registry.unavailable, backends[k].0, backends[k].1)
      ensures forall id :: id in registry.runtimes ==> FreeGate(registry.runtimes[id])
      ensures forall k :: 0 <= k < |backends| ==> Explained(settings, registry.unavailable, backends[k].0, backends[k].1)
      ensures forall id :: id in registry.runtimes && registry.runtimes[id].gate != null ==> fresh(registry.runtimes[id].gate)
      ensures AllApart(registry.runtimes)
    {
      var runtimes: map<string, BackendRuntime>, unavailable: map<string, string> := map[], map[];
      for n := 0 to |backends|
        invariant Built(settings, backends, n, runtimes, unavailable)
        invariant forall id :: id in runtimes && runtimes[id].gate != null ==> fresh(runtimes[id].gate)
        invariant forall id :: id in runtimes ==> FreeGate(runtimes[id])
        invariant AllApart(runtimes)
      {
        var (id, spec) := backends[n];
        var reason := Refusal(settings, spec);
        if reason != "" {
          RefusalBuilt(settings, backends, n, runtimes, unavailable, reason);
          unavailable := unavailable[id := reason];
          continue;
        }
        var rt := MakeRuntime(Effective(settings, spec));
        RuntimeBuilt(settings, backends, n, runtimes, unavailable, rt);
        OneApartMore(runtimes, id, rt);
        runtimes := runtimes[id := rt];
      }
      registry := new BackendRuntimeRegistry(runtimes, unavailable);
    }

    // get(): the runtime, or why there is none.
    method Get(id: string) returns (rt: BackendRuntime?, reason: string)
      ensures rt != null <==> id in runtimes
      ensures rt != null ==> rt == runtimes[id]
      ensures rt == null ==> reason == if id in unavailable then unavailable[id] else "not registered"
    {
      rt, reason := null, "";
      if id in runtimes { rt := runtimes[id]; }
      else if id in unavailable { reason := unavailable[id]; }
      else { reason := "not registered"; }
    }
  }
}
