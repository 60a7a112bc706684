# Agent UI: verified models

This project models, in Dafny 4.11, the parts of Agent UI whose correctness depends on several functions, on whole
runs, or on concurrent requests, and proves what they keep and where they do not. `dafny verify dfyconfig.toml` checks
all of it.

## What is modelled

**One GPU, one lease, one router.** `Router.dfy` is the llama.cpp router as the gateway sees it: a table from model to
status that changes by POST and evolves on its own (a load may finish as loaded, sleeping or failed). `Coordinator.dfy`
is `ensure_loaded` cut at its awaits. `LeaseProtocol.dfy` runs any number of requests over one gate, one transition lock
and one router as a step system in which every await may fail or be cancelled, and holds the safety results;
`LoadEconomy.dfy` counts load POSTs. `ModelCoordinator.dfy` and `Gateway.dfy` are the same code in its own form (loops,
polling with a deadline, cleanup), and `ReplayIsRun` ties the two together. `Backends.dfy` builds a document's
runtimes: each serialized backend has a gate and a lock of its own, so the results hold for each such backend by
itself. The parameter `prompt` says whether an accepted unload takes effect before the POST returns. Serving safety
holds of every run exactly when it does: otherwise a transition cancelled after its POST leaves the unload pending,
and the next request may be served by a model about to go. `LateUnload.dfy` says which event does the harm over such a
router: leaving `ensure_loaded` between an accepted unload and its end. Runs without such an exit are safe, and after
one there is always a future that is not.

**Governed memory.** `Memory.dfy` has the repository and the record store as values and each service call as a
function of the state; `MemoryRepository.dfy` and `MemoryService.dfy` are the classes whose methods update fields in
place, each proved to do what its function says. `MemoryInvariant.dfy` is the invariant that links spaces, proposals,
references, stored records and bridges; `MemoryRuns.dfy`, `MemoryFinality.dfy` and `MemoryIsolation.dfy` hold the
results over whole runs of calls, `MemoryResurrection.dfy` which calls bring a purged record back, `MemoryListing.dfy`
what listing shows, `MemoryLaws.dfy` what calls do to each other (what can be retried, what undoes what),
`MemoryEffects.dfy` when each call succeeds and what a success leaves, `MemoryForgetting.dfy` how long forgetting
lasts, `MemoryRecall.dfy` which spaces a context asks, and `MemoryWitness.dfy` the runs that show where a condition is
needed. Purging is final over a run exactly when no call of it stores under a key that its own space does not remember
and whose id a purged reference names. Callers make sure of that by two conditions, both in `Careful`: external ids
are never proposal ids, and no new space gets the scope of another. The second one can be broken with two game spaces
of one service that share world, campaign and player ids.

**Approval under interleaving.** `Approval.dfy` models approving, rejecting and expiring one proposal at the granularity
of awaits, from every state that atomic calls reach; an import may have stored the proposal's record before. Two
statements one might expect are false, and each is proved with its exact condition: a rejected proposal's text may be in
the store (exactly when a rejecter meets an approver or a record found there), and the approved text may differ from the
stored one (exactly when two approvers bring different texts, or one brings another text than that of a record found).

**Catalog and environment files.** `Overlay.dfy` is the recursive merge with deletion by null (the memory configuration
merges by the same code), the two laws it has and the exact conditions under which it has them. `CatalogOverlay.dfy` is
loading and applying a catalog overlay, with the rewriting that validation does in place. One consequence: applying a
document with a null for an entry of the base catalog does not delete that entry. `Text.dfy` and `EnvFile.dfy` are the
environment file's printer and parser, `EnvInit.dfy` the command that fills in ports and secrets. `Paths.dfy` and
`Mounts.dfy` are the generated model paths and mounts, which agree exactly when the artifact's path fits.

**Resolution and rendering.** `Profiles.dfy` is the choice of a model for an experience, `ContextText.dfy` the bounded
text of retrieved memory.

## Assumptions

- The router's listing is truthful and complete, nothing loads or unloads spontaneously, and a POST that raises may or may
  not have taken effect. Time is counted in integer ticks and advances by at least the poll interval in each sleep.
- One worker, one registry and one backend to a router; `serialize_requests` is on and the coordinator is explicit, as the
  coordinator has no lock to take without a gate (`services/gateway/src/local_ai_hub/backends.py:110-120`). The capture
  extractor is one more lease client.
- Ids made by uuid5 and by HMAC are constructors of datatypes, so two are equal only if everything they are made of is.
  A legacy user name and a game's world, campaign and player ids are never equal to a pseudonym or a space id; a space
  and a label that is text are different by type.
- Service calls are atomic in `Memory*.dfy`; only `Approval.dfy` looks between their awaits. The provider is the built-in
  one; a search answers with unforgotten records of the partition asked for and respects its limit (`Honest`).
- Ids of models and backends are texts and differ as texts. YAML would also allow the keys `1` and `"1"`, which validation
  takes for the same id.
- The order of a Python dict is kept where it can be seen (bridges, models, profiles) and left open where it cannot.

## Model

| member | source | states |
|---|---|---|
| `LeaseProtocol.InvStep` | services/gateway/src/local_ai_hub/coordinator.py:85-126 | every step of any number of requests, every failure and cancellation included, keeps the invariant: permit, gauges, lock owner, release counts, and what each request inside the lock may assume of the router |
| `LeaseProtocol.LeaseConservation` | services/gateway/src/local_ai_hub/gpu.py:17-29 | in every reachable state the free permit and the holders add up to one, the gauges equal the numbers of waiters and holders, and each acquired lease is held or was released exactly once, however often cleanup ran or closing raised |
| `LeaseProtocol.EnabledExactly` | services/gateway/src/local_ai_hub/coordinator.py:85-126 | exactly when each event can happen: giving up, acquiring, entering, each await breaking, and cleanup more than once |
| `LeaseProtocol.LeaseExcludes` | services/gateway/src/local_ai_hub/app.py:702-735 | while a request holds the lease no other one is inside ensure_loaded or serving, whatever the router does |
| `LeaseProtocol.ServingSafety` | services/gateway/src/local_ai_hub/coordinator.py:85-126 | in every reachable state whoever forwards or streams has its model loaded or sleeping and is alone, if an accepted unload takes effect at once |
| `LeaseProtocol.LateUnloadBreaksServing` | services/gateway/src/local_ai_hub/coordinator.py:114-118 | a run over a router that unloads later in which a cancelled transition takes the model away from the next request while it serves |
| `LeaseProtocol.SafeExactlyWhenPrompt` | services/gateway/src/local_ai_hub/coordinator.py:96-126 | serving safety holds of every run, all exits included, if and only if an accepted unload takes effect at once |
| `LateUnload.SafeWithoutAbandoning` | services/gateway/src/local_ai_hub/coordinator.py:114-152 | whatever the router promises, serving safety holds in every run in which no request leaves ensure_loaded between an accepted unload and its end |
| `LateUnload.AttendedExactly` | services/gateway/src/local_ai_hub/coordinator.py:114-118 | from a state in which every accepted unload is waited for, an event leads to one in which some is not if and only if it is such an exit |
| `LateUnload.UnattendedIsUnsafe` | services/gateway/src/local_ai_hub/coordinator.py:97-103 | every state with an accepted unload nobody waits for has a future in which a request is served by that model and loses it |
| `LateUnload.FutureIsSafeExactly` | services/gateway/src/local_ai_hub/coordinator.py:85-152 | after any run without such an exit, an event leaves all futures without further exits safe if and only if it is not one |
| `LeaseProtocol.AtMostOneForever` | services/gateway/src/local_ai_hub/coordinator.py:78-134 | if at most one model is loading, loaded or sleeping, at most one is in every later state, through failed loads, expired waits and cancellation at any await |
| `LeaseProtocol.LoadPostedAlone` | services/gateway/src/local_ai_hub/coordinator.py:105-125 | at every load POST every other listed model is out, however many were resident at first |
| `LoadEconomy.LoadEconomy` | services/gateway/src/local_ai_hub/coordinator.py:96-126 | in a run without failures of resident models over a router with nothing resident, whenever no lease is held the load POSTs number one plus the adjacent leases with different targets, none for no leases |
| `LoadEconomy.LoadsForCountsChanges` | services/gateway/src/local_ai_hub/coordinator.py:96-99 | the recursive count of loads is one plus the size of the set of places where the target changes |
| `Coordinator.FailsExactlyForCause` | services/gateway/src/local_ai_hub/coordinator.py:92-152 | a step ends the call with an error exactly when its await broke or the listing condemns it: the model missing after a reload, or the awaited model failed |
| `Coordinator.WaitsExactly` | services/gateway/src/local_ai_hub/coordinator.py:136-152 | a wait goes on exactly while the model is neither failed nor as expected, and leads on exactly when it is as expected |
| `Coordinator.SnapshotLeads` | services/gateway/src/local_ai_hub/coordinator.py:96-118 | the snapshot leads to serving exactly when the target is ready, to waiting without a POST exactly when it is loading, and otherwise to unloading exactly the other residents |
| `ModelCoordinator.ReplayIsRun` | services/gateway/src/local_ai_hub/coordinator.py:78-126 | the awaits of one call of ensure_loaded, played by a request that holds the lock, are a run of the protocol |
| `ModelCoordinator.ReplayServes` | services/gateway/src/local_ai_hub/coordinator.py:96-126 | a call that returns leaves its model ready |
| `ModelCoordinator.ReplayFailsForCause` | services/gateway/src/local_ai_hub/coordinator.py:78-152 | a call that failed did so at its last await and for such a cause |
| `ModelCoordinator.LlamaModelCoordinator.ListModels` | services/gateway/src/local_ai_hub/coordinator.py:47-76 | one request; the answer is the whole table in some order, or the call ends in an error |
| `ModelCoordinator.LlamaModelCoordinator.Post` | services/gateway/src/local_ai_hub/coordinator.py:114-124 | a POST changes the router as its kind does when it succeeds, and may have done so when it fails |
| `ModelCoordinator.LlamaModelCoordinator.WaitFor` | services/gateway/src/local_ai_hub/coordinator.py:136-152 | a wait ends as expected, or gives up only when a listing fails, the model is listed as failed or the deadline has passed, after at most ceil(timeout/interval) listings |
| `ModelCoordinator.LlamaModelCoordinator.UnloadOthers` | services/gateway/src/local_ai_hub/coordinator.py:105-118 | the loop unloads and waits for every other resident model of the snapshot, one after the other, as the atomic steps do |
| `ModelCoordinator.LlamaModelCoordinator.EnsureLoaded` | services/gateway/src/local_ai_hub/coordinator.py:78-134 | the call is a run of the atomic steps ending in serving or, only for cause (a request that failed, a listing that condemns it, a timeout), in an error, with at most 2 + (k+1)*ceil(timeout/interval) listings, k being the other models resident in the snapshot it works from, and never more than those resident when it began |
| `Gateway.GpuGate.Enter` | services/gateway/src/local_ai_hub/gpu.py:17-24 | entering takes a permit exactly if one is free and the waiter is not cancelled, counts the holder, and leaves the waiters as they were |
| `Gateway.GpuGate.Exit` | services/gateway/src/local_ai_hub/gpu.py:25-29 | leaving gives the permit back and uncounts the holder |
| `Gateway.ProxyRequest.Cleanup` | services/gateway/src/local_ai_hub/app.py:708-725 | the first call releases the lease even if closing the response raises, every later call does nothing |
| `Gateway.ProxyRequest.Run` | services/gateway/src/local_ai_hub/app.py:702-796 | how the request ends, by what it meets: it is forwarded once, and only after its model was loaded, 503 if that failed for cause, 502 if forwarding was refused; every way out but a started stream has released the lease exactly once |
| `Gateway.ProxyRequest.EndStream` | services/gateway/src/local_ai_hub/app.py:769-785 | the calls at the end of a stream together release exactly once if there is one at all |
| `Backends.BackendRuntimeRegistry.Build` | services/gateway/src/local_ai_hub/backends.py:74-129 | every backend becomes a runtime or is unavailable with a reason; a runtime has a gate exactly when serialized and a coordinator exactly when it is a coordinated llama.cpp, whose lock is that gate's or none; no two share a gate or a lock; the reason is a disabled backend or a missing address |
| `Backends.BackendRuntimeRegistry.Get` | services/gateway/src/local_ai_hub/backends.py:131-136 | answers the runtime, or the reason there is none |
| `MemoryInvariant.FreshIsBase` | services/gateway/src/local_ai_hub/memory_repository.py:596-603 | a fresh repository beside a store of legacy records satisfies the linked invariant of spaces, proposals, references, records and bridges |
| `MemoryInvariant.IngestKeeps` | services/gateway/src/local_ai_hub/memory_service.py:446-461 | storing a record and making its reference keeps the invariant in each of the three forms the service uses |
| `MemoryInvariant.StoreAgainKeeps` | services/gateway/src/local_ai_hub/memory_service.py:289-315 | storing a purged record again under its external id finds its reference and keeps the invariant |
| `MemoryInvariant.StatusKeeps` | services/gateway/src/local_ai_hub/memory_service.py:525-583 | a status change of one reference together with its row and proposal text keeps the invariant, no other reference naming the same row |
| `MemoryRuns.RunKeeps` | services/gateway/src/local_ai_hub/memory_service.py:152-757 | every run of atomic service calls keeps the linked invariant |
| `MemoryRuns.ReferencesUnique` | services/gateway/src/local_ai_hub/sql/002_memory_foundation.sql:62-66 | over every run references are unique by space and record and by space and external id, though the repository enforces only the first |
| `MemoryRuns.StepGrows` | services/gateway/src/local_ai_hub/memory_repository.py:737-802 | no call drops a reference or changes anything of it but its status |
| `MemoryRuns.CapturedAtMostOnce` | services/gateway/src/local_ai_hub/memory_service.py:381-418 | over a whole run automatic capture stores each normalized text at most once per personal space, whatever is forgotten or purged in between |
| `MemoryResurrection.PurgePurges` | services/gateway/src/local_ai_hub/memory_service.py:566-583 | a successful purge removes the record and the text of its proposal and marks the reference |
| `MemoryResurrection.StoringResurrectsExactly` | services/gateway/src/local_ai_hub/memory_provider.py:135-171 | in every sound state, storing brings a purged record back if and only if a purged reference, of whatever space, names the id it is stored under |
| `MemoryResurrection.EventResurrectsExactly` | services/gateway/src/local_ai_hub/memory_service.py:697-733 | a game event brings a purged record back if and only if its space does not remember the external id and a purged reference names the id they make |
| `MemoryResurrection.ApprovalResurrectsExactly` | services/gateway/src/local_ai_hub/memory_service.py:427-468 | an approval does if and only if it passes every check and a purged reference names the id of its proposal |
| `MemoryResurrection.ImportResurrectsExactly` | services/gateway/src/local_ai_hub/memory_service.py:594-624 | an import does if and only if it reaches an item with such a key |
| `MemoryResurrection.StepResurrectsExactly` | services/gateway/src/local_ai_hub/memory_service.py:390-624 | no other call ever does: for every call, purged records stay out of the store if and only if it is none of these |
| `MemoryResurrection.GoneExactlyWhenNoneResurrects` | services/gateway/src/local_ai_hub/memory_service.py:516-583 | purged records stay out of the store throughout a run if and only if no call of it brings one back |
| `MemoryResurrection.PurgeLasts` | services/gateway/src/local_ai_hub/memory_service.py:516-583 | in every such run a purged reference stays purged, its proposal's text stays cleared, and correcting, forgetting or purging it is refused without effect |
| `MemoryFinality.RunFinal` | services/gateway/src/local_ai_hub/memory_service.py:516-583 | runs whose callers never use a proposal id as an external id and never give a new space the scope of another keep what finality rests on and bring no purged record back |
| `MemoryFinality.PurgeIsFinal` | services/gateway/src/local_ai_hub/memory_service.py:516-583 | a record purged at some time of such a run from a fresh memory is, after any further such run, still purged, out of the store, its proposal's text cleared, and refuses to be corrected, forgotten or purged |
| `MemoryListing.RecordsAnswer` | services/gateway/src/local_ai_hub/memory_service.py:479-514 | in every sound state the listing shows every stored record of the personal space once, under the one reference it now has, as forgotten exactly when the store says so, and otherwise as active, but for a purged record that has come back |
| `MemoryListing.RunThenRecords` | services/gateway/src/local_ai_hub/memory_service.py:479-514 | so it does after every run from a fresh memory, and shows none as purged if no call of the run brought one back |
| `MemoryFinality.SharedScopeExactly` | services/gateway/src/local_ai_hub/memory_service.py:175-193 | two spaces share a scope exactly when both are game spaces of one namespace with the same world and campaign, both given, and the same player, or no player and the same owner |
| `MemoryWitness.SharedScopeResurrects` | services/gateway/src/local_ai_hub/memory_service.py:187-193 | two game spaces of one world, campaign and player: an event purged in one is stored again through the other |
| `MemoryWitness.ProposalIdResurrects` | services/gateway/src/local_ai_hub/memory_service.py:594-622 | importing under an external id that is a proposal's id stores the purged record of that proposal again |
| `MemoryWitness.ListedAsPurged` | services/gateway/src/local_ai_hub/memory_service.py:504 | after that run the listing shows the record that came back as purged, neither active nor forgotten |
| `MemoryIsolation.StepApart` | services/gateway/src/local_ai_hub/memory_repository.py:728-735 | a call of another principal leaves a principal's records, references, spaces and consents alone, and its proposals too but for the expiry sweep |
| `MemoryIsolation.OthersChangeNothing` | services/gateway/src/local_ai_hub/memory_service.py:152-193 | over every run of other principals' calls nothing a principal holds changes |
| `MemoryIsolation.OthersSeeNothing` | services/gateway/src/local_ai_hub/memory_service.py:152-193 | in every run no call of another principal shows a record or a reference a principal holds |
| `MemoryIsolation.ShownIsOwn` | services/gateway/src/local_ai_hub/memory_service.py:479-514 | a caller is only shown records of partitions of the caller's own spaces, under the caller's own references |
| `MemoryIsolation.ContextAnswer` | services/gateway/src/local_ai_hub/memory_service.py:224-265 | a context is the search of the personal space followed by records of openly bridged, allowlisted spaces, at most `limit` in all |
| `MemoryRecall.ContextAsksAll` | services/gateway/src/local_ai_hub/memory_service.py:240-265 | a context starts with what the search of the personal space finds for the query, and unless it is full it shows what the search of every space with an open bridge finds, each within the limit left |
| `MemoryRecall.GameRecallExactly` | services/gateway/src/local_ai_hub/memory_service.py:735-757 | a game context is answered exactly to the service that owns the game space, with just what the search finds there |
| `MemoryRecall.ExportShowsAll` | services/gateway/src/local_ai_hub/memory_service.py:585-592 | an export shows every record of the personal space once |
| `MemoryIsolation.ConsentIsLatest` | services/gateway/src/local_ai_hub/memory_repository.py:823-839 | after a run a consent is stored exactly when some call gave it last, or it was there and none changed it |
| `MemoryIsolation.BridgedByLatestConsent` | services/gateway/src/local_ai_hub/memory_service.py:626-667 | from a fresh memory a record of another space reaches a context only with bridges enabled, the pair of kinds allowlisted, membership of both spaces, and the last consent true on both sides |
| `MemoryLaws.OpeningMigratesAll` | services/gateway/src/local_ai_hub/memory_service.py:152-167 | opening the personal space moves every legacy record of the principal into it, changes no text and no other record, and opening it again changes nothing |
| `MemoryEffects.OpeningExactly` | services/gateway/src/local_ai_hub/memory_service.py:152-167 | opening finds the one personal space or makes it as configured; no other space, reference, proposal or bridge changes |
| `MemoryEffects.OpeningMovesExactly` | services/gateway/src/local_ai_hub/memory.py:305-331 | opening moves exactly the records under the raw name in the five old namespaces |
| `MemoryEffects.AddManualExactly` | services/gateway/src/local_ai_hub/memory_service.py:275-323 | adding succeeds exactly for a text that is no secret, and stores it as a record of its own with an active reference |
| `MemoryEffects.CaptureExactly` | services/gateway/src/local_ai_hub/memory_service.py:390-418 | a capture without a secret ends well: every candidate is remembered, exactly the new keys are answered, and the first text of each new normal form is stored |
| `MemoryEffects.ImportExactly` | services/gateway/src/local_ai_hub/memory_service.py:594-624 | an import fails only if an item is refused; when it ends well every item with text has its record, its own text where it is new, and is remembered |
| `MemoryEffects.ProposeExactly` | services/gateway/src/local_ai_hub/memory_service.py:325-347 | proposing adds one pending proposal of the personal space for each text, in order, and changes nothing else |
| `MemoryEffects.ApproveExactly` | services/gateway/src/local_ai_hub/memory_service.py:427-468 | approving succeeds exactly when the offer is in time, its text is neither blank nor secret and the store takes its id; then text, state, record and reference are there; an overdue offer expires, any other refusal changes nothing |
| `MemoryEffects.RejectExactly` | services/gateway/src/local_ai_hub/memory_service.py:470-477 | rejecting succeeds exactly for a pending proposal of the principal, which loses its text; nothing else changes |
| `MemoryEffects.SweepExactly` | services/gateway/src/local_ai_hub/memory_repository.py:728-735 | the sweep expires exactly the overdue pending proposals and leaves none overdue |
| `MemoryEffects.ConsentExactly` | services/gateway/src/local_ai_hub/memory_service.py:626-667 | a consent is taken exactly when bridges are enabled, the principal is a member of both spaces and the pair is allowlisted, and replaces the one between the same ends |
| `MemoryEffects.CreateGameExactly` | services/gateway/src/local_ai_hub/memory_service.py:673-695 | exactly services get a game space: the one of that name or a new one as asked for |
| `MemoryEffects.GameEventExactly` | services/gateway/src/local_ai_hub/memory_service.py:697-733 | an event is taken exactly from a service in its own game space, changes nothing if remembered, and is stored and referenced if new |
| `MemoryLaws.ProposedArePending` | services/gateway/src/local_ai_hub/memory_service.py:325-347 | proposing adds one pending proposal for each candidate, in order, and touches no other |
| `MemoryLaws.CorrectUndoesForget` | services/gateway/src/local_ai_hub/memory_service.py:525-564 | a correction leaves the same state whether or not the record was forgotten before: the new text, active, not forgotten |
| `MemoryLaws.PurgeAbsorbsForget` | services/gateway/src/local_ai_hub/memory_service.py:547-583 | purging a forgotten record leaves what purging it at once would have left |
| `MemoryForgetting.ForgetExactly` | services/gateway/src/local_ai_hub/memory_service.py:547-564 | forgetting succeeds exactly for a record the caller reaches, marks row and reference, keeps the text, and changes nothing else |
| `MemoryForgetting.CorrectExactly` | services/gateway/src/local_ai_hub/memory_service.py:525-545 | correcting succeeds exactly for a text that is no secret and a record the caller reaches; row and reference are revived with the text, nothing else changes |
| `MemoryForgetting.PurgeExactly` | services/gateway/src/local_ai_hub/memory_service.py:566-583 | purging succeeds exactly for a record the caller reaches, and removes the row and the text of the reference's proposal, nothing else |
| `MemoryForgetting.ForgottenIsHidden` | services/gateway/src/local_ai_hub/memory_service.py:479-564 | over every run after a success, until a call corrects or purges that record, no retrieval of anyone shows it and every listing that shows it says forgotten |
| `MemoryLaws.CreateGameOnce` | services/gateway/src/local_ai_hub/memory_repository.py:634-653 | asking for a game space again finds it and changes nothing |
| `MemoryLaws.GameEventOnce` | services/gateway/src/local_ai_hub/memory_service.py:697-733 | sending an event again under its external id, with whatever text, changes nothing |
| `MemoryLaws.ImportRetried` | services/gateway/src/local_ai_hub/memory_service.py:594-624 | after a successful import of named records and any further calls, purges among them, importing the same records again does nothing but open the personal space |
| `MemoryRepository.InMemoryMemoryRepository.EnsurePersonalSpace` | services/gateway/src/local_ai_hub/memory_repository.py:623-632 | finds the principal's one personal space, or adds one |
| `MemoryRepository.InMemoryMemoryRepository.CreateGameSpace` | services/gateway/src/local_ai_hub/memory_repository.py:634-653 | answers a game space of that name and owner, adding one only if there is none |
| `MemoryRepository.InMemoryMemoryRepository.TransitionProposal` | services/gateway/src/local_ai_hub/memory_repository.py:707-726 | moves a pending proposal of the principal, clearing rejected and expired text, and nothing else |
| `MemoryRepository.InMemoryMemoryRepository.ExpireProposals` | services/gateway/src/local_ai_hub/memory_repository.py:728-735 | expires exactly the overdue pending proposals and counts them |
| `MemoryRepository.InMemoryMemoryRepository.AddRecordRef` | services/gateway/src/local_ai_hub/memory_repository.py:737-761 | answers the one reference of the space and record, or adds it |
| `MemoryRepository.InMemoryMemoryRepository.FindExternalRef` | services/gateway/src/local_ai_hub/memory_repository.py:767-779 | finds a reference with the external id if there is one; it is the only one where external ids are unique |
| `MemoryRepository.InMemoryMemoryRepository.ListRecordRefs` | services/gateway/src/local_ai_hub/memory_repository.py:781-788 | maps each record of the principal's unpurged references in the space to such a reference |
| `MemoryRepository.InMemoryMemoryRepository.SetRecordStatus` | services/gateway/src/local_ai_hub/memory_repository.py:790-802 | changes the status of the principal's reference and nothing else of it, and no other reference |
| `MemoryRepository.InMemoryMemoryRepository.PurgeRecordContent` | services/gateway/src/local_ai_hub/memory_repository.py:804-821 | clears the text of the reference's proposal and marks the reference purged, and changes no other reference |
| `MemoryRepository.InMemoryMemoryRepository.ActiveBridges` | services/gateway/src/local_ai_hub/memory_repository.py:841-853 | lists the sources consented to on both sides, in the order of the consents |
| `MemoryRepository.RecordStore.Add` | services/gateway/src/local_ai_hub/memory.py:158-190 | inserts a record, answers the stored one under the same id unchanged, or refuses an id of another partition |
| `MemoryRepository.RecordStore.ListRecords` | services/gateway/src/local_ai_hub/memory.py:246-262 | lists each row of the partition once, forgotten ones included |
| `MemoryRepository.RecordStore.Correct` | services/gateway/src/local_ai_hub/memory.py:264-282 | rewrites and revives a row of the partition, which then has the text, or reports none; no other row changes |
| `MemoryRepository.RecordStore.Forget` | services/gateway/src/local_ai_hub/memory.py:284-294 | marks a row of the partition forgotten and keeps its text, or reports none; no other row changes |
| `MemoryRepository.RecordStore.Purge` | services/gateway/src/local_ai_hub/memory.py:296-303 | removes a row of the partition, or reports none; the partition does not have it afterwards and no other row changes |
| `MemoryRepository.RecordStore.MigrateLegacy` | services/gateway/src/local_ai_hub/memory.py:305-331 | moves the principal's rows of the legacy namespaces into the target partition, which gains exactly those; texts stay, no legacy row is left, and no other row changes |
| `MemoryService.MemoryService.PersonalSpace` | services/gateway/src/local_ai_hub/memory_service.py:152-167 | opens the one personal space and migrates legacy rows into it |
| `MemoryService.MemoryService.AddApproved` | services/gateway/src/local_ai_hub/memory_service.py:275-323 | refuses secrets, answers a record already stored under the external id, else stores and references one |
| `MemoryService.MemoryService.AddProposals` | services/gateway/src/local_ai_hub/memory_service.py:325-347 | adds one pending proposal for each candidate in the personal space |
| `MemoryService.MemoryService.AddAutomaticCandidates` | services/gateway/src/local_ai_hub/memory_service.py:390-418 | the capture loop stores the candidates whose external id the space does not remember, and stops at the first error |
| `MemoryService.MemoryService.ApproveProposal` | services/gateway/src/local_ai_hub/memory_service.py:427-468 | taken as one step, an approval checks, stores, references and transitions as the specification function does, with every refusal |
| `MemoryService.MemoryService.RejectProposal` | services/gateway/src/local_ai_hub/memory_service.py:470-477 | rejects a pending proposal of the principal, or reports a conflict |
| `MemoryService.MemoryService.Proposals` | services/gateway/src/local_ai_hub/memory_service.py:420-425 | listing proposals expires the overdue ones of every principal |
| `MemoryService.MemoryService.Records` | services/gateway/src/local_ai_hub/memory_service.py:479-514 | the listing loop references what has no reference and shows the store's word on forgetting |
| `MemoryService.MemoryService.CorrectRecord` | services/gateway/src/local_ai_hub/memory_service.py:525-545 | corrects the target's row and marks its reference active, or is refused without effect |
| `MemoryService.MemoryService.ForgetRecord` | services/gateway/src/local_ai_hub/memory_service.py:547-564 | forgets the target's row and marks its reference, or is refused without effect |
| `MemoryService.MemoryService.PurgeRecord` | services/gateway/src/local_ai_hub/memory_service.py:566-583 | purges the target's row, its proposal's text and its reference, or is refused without effect |
| `MemoryService.MemoryService.ImportPersonal` | services/gateway/src/local_ai_hub/memory_service.py:594-624 | the import loop skips blank and remembered records and stops at the first error |
| `MemoryService.MemoryService.SetBridge` | services/gateway/src/local_ai_hub/memory_service.py:626-667 | records a consent only for the principal's own spaces, enabled bridges and an allowlisted pair of kinds |
| `MemoryService.MemoryService.CreateGameSpace` | services/gateway/src/local_ai_hub/memory_service.py:673-695 | only a service principal creates game spaces |
| `MemoryService.MemoryService.IngestGameEvent` | services/gateway/src/local_ai_hub/memory_service.py:697-733 | only a service principal stores events, once per external id, in its own game space |
| `MemoryService.MemoryService.Context` | services/gateway/src/local_ai_hub/memory_service.py:224-265 | the personal search, then the bridge loop with what the limit still allows |
| `Approval.AloneIsApprove` | services/gateway/src/local_ai_hub/memory_service.py:427-468 | a task with nobody beside it does, operation by operation, what the atomic approval does |
| `Approval.AloneIsReject` | services/gateway/src/local_ai_hub/memory_service.py:470-477 | a rejection alone is the atomic rejection |
| `Approval.AloneIsSweep` | services/gateway/src/local_ai_hub/memory_repository.py:728-735 | the sweep of one proposal alone expires it exactly when it is pending and overdue |
| `Approval.ReachedStatesStart` | services/gateway/src/local_ai_hub/memory_service.py:427-445 | every state that atomic calls reach from a fresh memory is a start of the interleaved model for each of its pending proposals |
| `Approval.StepInv` | services/gateway/src/local_ai_hub/memory_service.py:427-477 | every operation of every approving, rejecting or expiring task keeps the invariant of the proposal, its record and its reference, and so does every cancellation, whether or not the cancelled operation took effect |
| `Approval.AtMostOneWins` | services/gateway/src/local_ai_hub/memory_repository.py:707-726 | for any number of interleaved tasks at most one transition succeeds, and the proposal has the state and text that task gave it |
| `Approval.TerminalStays` | services/gateway/src/local_ai_hub/memory_repository.py:707-726 | a proposal leaves the pending state at most once, exactly once if it ends in another state, and a terminal state never changes |
| `Approval.SuccessStoresBoth` | services/gateway/src/local_ai_hub/memory_service.py:446-466 | a successful approval leaves the record and one reference to it: the one that was there, or else an active one of the proposal |
| `Approval.OneRecordOneReference` | services/gateway/src/local_ai_hub/memory_provider.py:145-170 | all tasks together store at most one record and make at most one reference, and change no other |
| `Approval.StoredExactlyWhenIngested` | services/gateway/src/local_ai_hub/memory_service.py:446-466 | whatever becomes of the proposal, its record is stored exactly when it was before or some approver got past storing it, and referenced exactly when it was before or one got past that |
| `Approval.RejectedStoresNothingExactly` | services/gateway/src/local_ai_hub/memory_service.py:446-477 | rejected implies nothing in the store in every run if and only if there is no rejecter, or neither an approver with something to store nor a record found under the proposal's id |
| `Approval.ApprovedTextIsStoredExactly` | services/gateway/src/local_ai_hub/memory_service.py:442-466 | the approved text is the stored one in every run if and only if no two approvers bring different texts or, where a record is found, none brings another text than the record's |
| `Overlay.MergeMapping` | ops/hubctl.py:121-130 | the loop over the overlay computes the recursive merge |
| `Overlay.AbsorbsExactly` | ops/hubctl.py:121-130 | merging onto an overlay's base gives the overlay itself exactly when the overlay absorbs the base |
| `Overlay.SequencingExactly` | services/gateway/src/local_ai_hub/memory_config.py:95-104 | two overlays applied in sequence equal their merge applied once if and only if they compose over the base, condition by condition |
| `Overlay.PlainComposes` | ops/hubctl.py:121-130 | overlays compose when, wherever all three are mappings, the second deletes only what the base lacks and never meets a base mapping through another value of the first |
| `Overlay.BothHalvesNeeded` | ops/hubctl.py:124-129 | each half of that condition is needed: a deletion is lost, and a replaced mapping comes back |
| `Overlay.TwiceExactly` | ops/hubctl.py:121-130 | applying a document twice equals applying it once if and only if no null is nested where the current document has no mapping |
| `Overlay.NullFreeRepeats` | ops/hubctl.py:121-130 | in particular for every document without nulls |
| `Overlay.NestedNullDoesNotRepeat` | ops/hubctl.py:126-129 | a nested null is kept by the first application and deletes in the second |
| `CatalogOverlay.CatalogApply` | ops/hubctl.py:825-850 | the command refuses other versions and invalid results, and otherwise writes the merged overlay with its version, rewritten where validation reaches into it |
| `CatalogOverlay.AppliesExactly` | ops/hubctl.py:825-835 | a document is accepted exactly when it names no other version than 2 and the catalog it leads to, by merging or replacing, is valid; loading then gives that catalog |
| `CatalogOverlay.LoadsExactly` | ops/hubctl.py:234-239 | a catalog loads exactly when base and overlay together are valid |
| `CatalogOverlay.NormalizedExactly` | ops/hubctl.py:138-232 | validation turns each model's list of capabilities into a mapping of the same names and changes nothing else |
| `CatalogOverlay.AppliedLoads` | ops/hubctl.py:162-165 | an applied overlay loads, and loading gives the very catalog that was validated, although validation rewrites lists of capabilities in the models the overlay shares with it |
| `CatalogOverlay.ApplyPatchesExactly` | ops/hubctl.py:825-835 | applying a document, with or without a version, patches the effective catalog exactly when it composes with the current overlay over the base and does not null the version |
| `CatalogOverlay.BaseEntriesSurviveDeletion` | ops/hubctl.py:126-127 | applying a document with a null for an entry of the base does not delete that entry |
| `CatalogOverlay.ReapplyExactly` | ops/hubctl.py:831-835 | applying a document again writes the same overlay exactly when it repeats over the current one |
| `EnvFile.ParseEnv` | ops/hubctl.py:260-270 | the parsing loop: comments, blanks and lines without an equals sign are skipped, later lines win |
| `EnvFile.RenderEnvTemplate` | ops/hubctl.py:273-286 | the printing loops: template lines filled in, then the other keys in order |
| `EnvFile.ParsedIsClean` | ops/hubctl.py:264-269 | whatever a file holds, its keys and values are trimmed and on one line |
| `EnvFile.LastLineWins` | ops/hubctl.py:260-270 | the value of a key is the one its last line gives |
| `EnvFile.LayoutIsKept` | ops/hubctl.py:273-286 | line by line the rendered file is the template, comments and blanks as they are; the missing keys follow in ascending order |
| `EnvFile.RoundTripExactly` | ops/hubctl.py:260-286 | parsing a rendered file gives the values back, with the empty one for other template keys, if and only if they are clean |
| `EnvInit.AllocatePort` | ops/hubctl.py:242-257 | an allocated port is the first of up to 5000 drawn ones that is new and can be bound, or there is none |
| `EnvInit.FillPorts` | ops/hubctl.py:296-308 | configured ports stay, others are drawn; all are usable and different; it fails only when a configured port is unusable or taken, or the draws ran out |
| `EnvInit.FillSecrets` | ops/hubctl.py:309-314 | secrets that are there stay unless rotated, others are drawn; nothing else changes |
| `EnvInit.ExistingWins` | ops/hubctl.py:290-295 | the existing file wins over the template, key by key |
| `EnvInit.RotatesExactly` | ops/hubctl.py:309-314 | rotation replaces every secret, the database password of an existing file only on request |
| `EnvInit.EnvInit` | ops/hubctl.py:289-318 | a successful run leaves ports in 1024..65535, pairwise different, every secret set and everything else as given, rendered over the template; it fails only over a port, and never with good ports configured |
| `EnvInit.InitRoundTrip` | ops/hubctl.py:294-315 | reading the written file gives back exactly the values written |
| `EnvInit.SecondInitReproduces` | ops/hubctl.py:289-318 | a second run without flags finds every port set, so it succeeds, and writes the same text |
| `Mounts.RenderModelsIni` | ops/hubctl.py:369-398 | the sections are those of the enabled llama.cpp models, in order, with their resolved paths |
| `Mounts.SectionsAre` | ops/hubctl.py:369-398 | models.ini has one section for exactly each enabled llama.cpp model, in order, with its name and path |
| `Mounts.FilenameIs` | ops/hubctl.py:333-341 | the file name is the last part of the one given, else of the path if that is a GGUF file, else made from the id |
| `Mounts.ManagedIsWhereDownloaded` | ops/hubctl.py:578-581 | the section of a managed model names the file the download writes: the file name in the managed directory |
| `Mounts.ManagedDistinct` | ops/hubctl.py:578-581 | two managed models share a path exactly when they share a file name |
| `Mounts.ContainerPathIsItself` | ops/hubctl.py:344-358 | a path in the container is taken as it is |
| `Mounts.HostFileDelivered` | ops/hubctl.py:350-351 | seen through its mount, the section of a model on the host is the file given, or the named file of the directory given |
| `Mounts.VolumeFileDelivered` | ops/hubctl.py:352-361 | seen through its volume, the section is the way given inside it or the named file at its top |
| `Mounts.RenderComposeOverride` | ops/hubctl.py:401-456 | the mounts are those of the models to be mounted, in order; volume aliases are declared; the llama service is required exactly when a local model needs it |
| `Mounts.MountedExactly` | ops/hubctl.py:401-450 | a model has a mount exactly when it and its llama.cpp backend are enabled and its file is on the host or in a Docker volume |
| `Mounts.CatalogToK8sValues` | ops/hubctl.py:975-1028 | the container paths and volume mounts of the llama.cpp models |
| `Mounts.ClaimedExactly` | ops/hubctl.py:975-1010 | exactly the llama.cpp models have a container path, and exactly those on a claim or a host directory a volume mount at their directory |
| `Mounts.MountHoldsExactly` | ops/hubctl.py:344-360 | a mount's target is the model's path or a directory of it if and only if the path fits, a condition on the artifact alone |
| `Mounts.TargetsDisjoint` | ops/hubctl.py:414-440 | targets of different models do not overlap |
| `Mounts.MountsAgree` | ops/hubctl.py:401-456 | in a valid catalog each model to be mounted whose path fits has exactly one mount that holds its path, and no other mount overlaps it |
| `Mounts.MountedIsInIni` | ops/hubctl.py:382-392 | every mounted model has its section in models.ini |
| `Mounts.VolumeMountsAgree` | ops/hubctl.py:987-1027 | a claimed or host-directory model has one volume mount, which holds its container path if and only if the path fits |
| `Mounts.AbsoluteSubPathMisses` | ops/hubctl.py:352-359 | an absolute sub path breaks the agreement |
| `Profiles.AvailableExactlyWhenResolved` | services/gateway/src/local_ai_hub/profiles.py:47-59 | a non-automatic experience is available if and only if resolving it succeeds |
| `Profiles.UnpinnedIsBest` | services/gateway/src/local_ai_hub/profiles.py:36-45 | an unpinned experience selects the first qualifying model by falling priority and id, and fails exactly when none qualifies |
| `Profiles.BestIsFirst` | services/gateway/src/local_ai_hub/profiles.py:36-45 | the best model has the highest priority of those that qualify and the least id among its equals |
| `Profiles.RouteExactly` | services/gateway/src/local_ai_hub/profiles.py:116-127 | an automatic experience leads to the decision if it is an experience, else to the first available preferred one, else to the first available one |
| `Profiles.ResolvesExactly` | services/gateway/src/local_ai_hub/profiles.py:151-206 | for every request, override and required capability: which experience and model resolution gives, and exactly when it is unknown |
| `Profiles.OrderIrrelevant` | services/gateway/src/local_ai_hub/profiles.py:36-45 | the selection does not depend on the order of the catalog |
| `Profiles.AutoResolvedIsAvailable` | services/gateway/src/local_ai_hub/profiles.py:116-127 | an automatic resolution that succeeds was advertised as available |
| `Profiles.AutoResolvesExactly` | services/gateway/src/local_ai_hub/profiles.py:181-191 | an automatic experience resolves if and only if its route ends at an experience whose own or a capable model is enabled and backed |
| `Profiles.RouteEndsNowhereExactly` | services/gateway/src/local_ai_hub/profiles.py:116-127 | the route ends nowhere if and only if the decision is no experience, no preferred one is available and no other that is not automatic is |
| `Profiles.AutoAvailabilityExact` | services/gateway/src/local_ai_hub/profiles.py:47-49 | advertising an automatic experience is exact if and only if its route can be served whenever some model is enabled and backed |
| `Profiles.FallbackResolves` | services/gateway/src/local_ai_hub/profiles.py:116-127 | when the router's decision is no experience, the fallback resolves if and only if there is one and, if it is itself automatic, it can be served |
| `Profiles.AutoAvailableMayFail` | services/gateway/src/local_ai_hub/profiles.py:47-49 | a document whose automatic experience is advertised as available and fails |
| `ContextText.RenderMemoryContext` | services/gateway/src/local_ai_hub/memory.py:360-379 | the accumulating loop computes the specified text |
| `ContextText.ChunksShape` | services/gateway/src/local_ai_hub/memory.py:369-378 | the chunks are the longest prefix of records that fits, whole and in order, then at most one cut entry |
| `ContextText.ContextBound` | services/gateway/src/local_ai_hub/memory.py:360-379 | the text starts with the stripped header, has at most budget + 1 characters or is that header, and holds a prefix of the records, whole but for the last; there is none exactly for no records or no budget |
| `ContextText.RecordIsShown` | services/gateway/src/local_ai_hub/memory.py:369-379 | every record that fits is shown at its place: a dash, its namespace in brackets and its stripped text |

## Left out

- Gateway.ProxyRequest.EndStream: that the iterator or the background task of a stream runs at all is up to the server; with neither, the lease stays taken.
- MemoryService.MemoryService.AddAutomaticCandidates: `_safe_candidates` is not modelled; the loop gets the surviving texts and their normal forms, so a purged text may come back under another normal form.
- MemoryIsolation.OthersChangeNothing: legacy records under a raw user name belong to nobody until they are migrated, so a game space whose player id is that name and whose world id is a legacy namespace may reach them first.
- EnvInit.EnvInit: a port drawn for an earlier key may by chance equal one configured for a later key, and the run then fails; draws, binds and tokens are parameters or left open.
- Mounts.MountsAgree: volume aliases are not claimed to be unique, since ids `a.b` and `a-b` share one.
- CatalogOverlay.CatalogApply: the conditions of validation, beyond its rewriting of capability lists, are an open predicate on the rewritten catalog; the YAML text is not modelled.
- Settings, audit events, metadata, importance, provenance and session ids of the memory service: they do not influence what is modelled, but for the retrieval switch, which is a parameter.
- `retention.pending_days` and clocks: expiry times and the current time are parameters of the calls.
- The HTTP provider, JWT and HMAC checking, extraction of candidates by a model, and the capture queue.
- The patterns of secrets, ids and routes: open predicates, but for "an id has no slash and is no dot name", which follows from its characters.
- Path suffixes are compared as ASCII, and a double dot is never resolved against a file system.
- Text mode translates `\r\n` and `\r` on reading; both end a line for `splitlines` anyway, so the parser's result is the same.
- `build` also writes a legacy backend's settings back into its specification, and makes an HTTP client for each runtime; neither is modelled.
- `manual_search` (the first half of a context) and the filtered listings of proposals and spaces.
- Catalog reload during requests in flight and several worker processes: each has its own gate.
- `runtime` keys of models.ini, bind options and the remaining Kubernetes values: copied through.
- Helm templates, Compose files, the host script, downloads, checksums and the web pages.
