/** The memory service over a repository and a store, one method for each call. Each method leaves the
    two objects in the state, and gives the answer, of the function of the call. */
module MemoryService {
  import opened Memory
  import opened MemoryInvariant
  import opened MemoryRepository
  import opened MemoryRuns

  class MemoryService {
    const config: Config
    const repository: InMemoryMemoryRepository
    const store: RecordStore

    ghost function State(): World
      reads repository, store
    {
      World(repository.Contents(), store.Contents())
    }

    ghost predicate Valid()
      reads repository, store
    {
      repository.Valid() && Base(config, State())
    }

    constructor (config: Config, repository: InMemoryMemoryRepository, store: RecordStore)
      requires repository.Valid() && Fresh(World(repository.Contents(), store.Contents()))
      ensures this.config == config && this.repository == repository && this.store == store
      ensures Valid()
    {
      this.config, this.repository, this.store := config, repository, store;
      new;
      FreshIsBase(config, State());
    }

    method PersonalSpace(p: Principal) returns (sid: nat)
      requires Valid()
      modifies repository, store
      ensures Valid() && (State(), sid) == Memory.PersonalSpace(config, old(State()), p)
      ensures IsPersonal(repository.spaces, p, sid)
    {
      PersonalSpaceKeeps(config, State(), p);
      sid := repository.EnsurePersonalSpace(p, config.namespace);
      store.MigrateLegacy(p, ScopeFor(config, p, sid, repository.spaces[sid]));
    }

    // provider.ingest and add_record_ref.
    method Ingest(p: Principal, sid: nat, content: string, key: Option<Key>, pid: Option<nat>, ext: Option<Key>) returns (ok: bool)
      requires repository.Valid() && sid in repository.spaces
      modifies repository, store
      ensures repository.Valid()
      ensures match Memory.Ingest(config, old(State()), p, sid, content, key, pid, ext)
        case None => !ok && State() == old(State())
        case Some(w) => ok && State() == w
    {
      var id := store.Add(ScopeFor(config, p, sid, repository.spaces[sid]), content, key);
      if id.None? { return false; }
      var _ := repository.AddRecordRef(sid, p, id.value, pid, ext);
      ok := true;
    }

    method AddApproved(p: Principal, sid: nat, content: string, ext: Option<Key>) returns (e: Option<Error>)
      requires Valid() && Owns(repository.spaces, p, sid)
      modifies repository, store
      ensures Valid() && (State(), e) == Memory.AddApproved(config, old(State()), p, sid, content, ext)
      ensures repository.spaces == old(repository.spaces)
    {
      ghost var w := State();
      AddApprovedKeeps(config, w, p, sid, content, ext);
      if config.secret(content) { return Some(Conflict); }
      if ext.Some? {
        ExternalsUnique(config, w);
        var existing := repository.FindExternalRef(p, sid, ext.value);
        if existing.Some? {
          var listed := store.ListRecords(ScopeFor(config, p, sid, repository.spaces[sid]));
          if repository.references[existing.value].record in listed { return None; }
        }
      }
      var ok := Ingest(p, sid, content, ext, None, ext);
      e := if ok then None else Some(ProviderFailed);
    }

    method AddManual(p: Principal, content: string) returns (reply: Reply)
      requires Valid()
      modifies repository, store
      ensures Valid() && (State(), reply) == Memory.AddManual(config, old(State()), p, content)
    {
      if config.secret(content) { return Fail(Conflict); }
      var sid := PersonalSpace(p);
      var e := AddApproved(p, sid, content, None);
      reply := Reply(e, [], []);
    }

    method AddProposals(p: Principal, contents: seq<string>, expires: int)
      requires Valid()
      modifies repository, store
      ensures Valid() && State() == Propose(config, old(State()), p, contents, expires)
    {
      ProposeKeeps(config, State(), p, contents, expires);
      var sid := PersonalSpace(p);
      ghost var r := repository.Contents();
      for k := 0 to |contents|
        invariant repository.Valid() && store.Contents() == Memory.PersonalSpace(config, old(State()), p).0.store
        invariant Memory.AddProposals(r, sid, p, contents, expires)
                  == Memory.AddProposals(repository.Contents(), sid, p, contents[k..], expires)
      {
        assert contents[k..][1..] == contents[k + 1..];
        var _ := repository.AddProposal(sid, p, contents[k], expires);
      }
    }

    method AddAutomaticCandidates(p: Principal, todo: seq<(string, string)>) returns (reply: Reply)
      requires Valid()
      modifies repository, store
      ensures Valid() && (State(), reply) == Capture(config, old(State()), p, todo)
    {
      var sid := PersonalSpace(p);
      ghost var w := State();
      var created: seq<Key> := [];
      AfterNone(CaptureAll(config, w, p, sid, todo));
      assert todo[0..] == todo;
      for k := 0 to |todo|
        invariant Valid() && Owns(repository.spaces, p, sid)
        invariant CaptureAll(config, w, p, sid, todo) == After(created, CaptureAll(config, State(), p, sid, todo[k..]))
      {
        assert todo[k..][1..] == todo[k + 1..];
        ghost var here := State();
        var key := AutoKey(sid, todo[k].1);
        ExternalsUnique(config, State());
        var seen := repository.FindExternalRef(p, sid, key);
        if seen.None? {
          var e := AddApproved(p, sid, todo[k].0, Some(key));
          if e.Some? {
            assert created + [] == created;
            return Reply(e, [], created);
          }
          AfterSnoc(created, key, CaptureAll(config, State(), p, sid, todo[k + 1..]));
          created := created + [key];
        }
      }
      assert created + [] == created;
      reply := Reply(None, [], created);
    }

    method ApproveProposal(p: Principal, pid: nat, edited: string, now: int) returns (reply: Reply)
      requires Valid()
      modifies repository, store
      ensures Valid() && (State(), reply) == Approve(config, old(State()), p, pid, edited, now)
    {
      ApproveKeeps(config, State(), p, pid, edited, now);
      if pid !in repository.proposals || repository.proposals[pid].principal != p
         || repository.proposals[pid].state != Pending || repository.proposals[pid].content == None {
        return Fail(Conflict);
      }
      var item := repository.proposals[pid];
      if item.expires <= now {
        var _ := repository.TransitionProposal(p, pid, Expired, None);
        return Fail(Conflict);
      }
      var content := config.strip(if edited != "" then edited else item.content.value);
      if content == "" || config.secret(content) { return Fail(Conflict); }
      var space := repository.GetSpace(p, item.space);
      if space == None { return Fail(AccessDenied); }
      var ok := Ingest(p, item.space, content, Some(ProposalKey(pid)), Some(pid), None);
      if !ok { return Fail(ProviderFailed); }
      var done := repository.TransitionProposal(p, pid, Approved, Some(content));
      reply := if done then Done() else Fail(Conflict);
    }

    method RejectProposal(p: Principal, pid: nat) returns (reply: Reply)
      requires Valid()
      modifies repository
      ensures Valid() && (State(), reply) == Reject(old(State()), p, pid)
    {
      RejectKeeps(config, State(), p, pid);
      var done := repository.TransitionProposal(p, pid, Rejected, None);
      reply := if done then Done() else Fail(Conflict);
    }

    method Proposals(p: Principal, now: int)
      requires Valid()
      modifies repository
      ensures Valid() && State() == old(State()).(repo := ExpireAll(old(State()).repo, now))
    {
      SweepKeeps(config, State(), now);
      var _ := repository.ExpireProposals(now);
    }

    method Records(p: Principal) returns (reply: Reply, ghost order: seq<RecordId>)
      requires Valid()
      modifies repository, store
      ensures Legal(config, old(State()), Listing(p, order))
      ensures Valid() && (State(), reply) == Memory.Records(config, old(State()), p, order)
    {
      RecordsKeepAll(config, State(), p);
      var sid := PersonalSpace(p);
      var listed := store.ListRecords(ScopeFor(config, p, sid, repository.spaces[sid]));
      order := listed;
      var refs := repository.ListRecordRefs(p, sid);
      var shown := Show(p, sid, listed, refs);
      reply := Reply(None, shown, []);
    }

    // The loop of a listing.
    method Show(p: Principal, sid: nat, listed: seq<RecordId>, refs: map<RecordId, nat>) returns (shown: seq<Shown>)
      requires repository.Valid() && forall id :: id in listed ==> id in store.rows
      requires forall id :: id in refs ==> IsRef(repository.references, sid, id, refs[id])
      modifies repository
      ensures repository.Valid()
      ensures (State(), shown) == ClaimAll(old(State()), p, sid, listed)
    {
      ghost var w := State();
      shown := [];
      ShowingNone(ClaimAll(w, p, sid, listed));
      assert listed[0..] == listed;
      for k := 0 to |listed|
        invariant repository.Valid() && RefsKept(w.repo, repository.Contents())
        invariant ClaimAll(w, p, sid, listed) == Showing(shown, ClaimAll(State(), p, sid, listed[k..]))
      {
        var id := listed[k];
        assert listed[k..][1..] == listed[k + 1..] && id in listed;
        var i := Reference(p, sid, id, refs, w.repo);
        var status := if store.rows[id].forgotten then Forgotten else repository.references[i].status;
        ShowingSnoc(shown, Shown(id, sid, Some(i), status), ClaimAll(State(), p, sid, listed[k + 1..]));
        shown := shown + [Shown(id, sid, Some(i), status)];
      }
      assert shown + [] == shown;
    }

    // The reference of a listed record: the one known when the listing began, or one made now.
    method Reference(p: Principal, sid: nat, id: RecordId, refs: map<RecordId, nat>, ghost r: Repo) returns (i: nat)
      requires repository.Valid() && RefsKept(r, repository.Contents())
      requires forall o :: o in refs ==> IsRef(r.refs, sid, o, refs[o])
      modifies repository
      ensures repository.Valid() && RefsKept(r, repository.Contents())
      ensures (repository.Contents(), i) == AddRef(old(repository.Contents()), sid, p, id, None, None)
    {
      AddRefGrows(repository.Contents(), sid, p, id, None, None);
      if id in refs {
        i := refs[id];
        assert IsRef(repository.references, sid, id, i);
        OnlyRef(repository.Contents(), sid, id, i);
      } else {
        ghost var before := repository.Contents();
        i := repository.AddRecordRef(sid, p, id, None, None);
        KeptTransitive(r, before, repository.Contents());
      }
    }

    method CorrectRecord(p: Principal, i: nat, content: string) returns (reply: Reply)
      requires Valid()
      modifies repository, store
      ensures Valid() && (State(), reply) == Memory.Correct(config, old(State()), p, i, content)
    {
      CorrectKeeps(config, State(), p, i, content);
      if config.secret(content) { return Fail(Conflict); }
      var target := RecordTarget(p, i);
      if target.None? { return Fail(AccessDenied); }
      var done := store.Correct(target.value.1, target.value.0.record, content);
      if !done { return Fail(ProviderFailed); }
      repository.SetRecordStatus(p, i, Active);
      reply := Done();
    }

    method ForgetRecord(p: Principal, i: nat) returns (reply: Reply)
      requires Valid()
      modifies repository, store
      ensures Valid() && (State(), reply) == Memory.Forget(config, old(State()), p, i)
    {
      ForgetKeeps(config, State(), p, i);
      var target := RecordTarget(p, i);
      if target.None? { return Fail(AccessDenied); }
      var done := store.Forget(target.value.1, target.value.0.record);
      if !done { return Fail(ProviderFailed); }
      repository.SetRecordStatus(p, i, Forgotten);
      reply := Done();
    }

    method PurgeRecord(p: Principal, i: nat) returns (reply: Reply)
      requires Valid()
      modifies repository, store
      ensures Valid() && (State(), reply) == Memory.Purge(config, old(State()), p, i)
    {
      PurgeKeeps(config, State(), p, i);
      var target := RecordTarget(p, i);
      if target.None? { return Fail(AccessDenied); }
      var done := store.Purge(target.value.1, target.value.0.record);
      if !done { return Fail(ProviderFailed); }
      repository.PurgeRecordContent(p, i);
      reply := Done();
    }

    method RecordTarget(p: Principal, i: nat) returns (target: Option<(Ref, Scope)>)
      ensures target == Target(config, State(), p, i)
    {
      var ref := repository.GetRecordRef(p, i);
      if ref.None? { return None; }
      var space := repository.GetSpace(p, ref.value.space);
      if space.None? { return None; }
      target := Some((ref.value, ScopeFor(config, p, ref.value.space, space.value)));
    }

    method ImportPersonal(p: Principal, items: seq<(string, Option<Key>)>) returns (reply: Reply)
      requires Valid()
      modifies repository, store
      ensures Valid() && (State(), reply) == Import(config, old(State()), p, items)
    {
      for k := 0 to |items|
        invariant Valid()
        invariant Import(config, old(State()), p, items) == Import(config, State(), p, items[k..])
      {
        assert items[k..][1..] == items[k + 1..];
        if config.strip(items[k].0) == "" { continue; }
        var sid := PersonalSpace(p);
        var existing: Option<nat> := None;
        if items[k].1.Some? {
          ExternalsUnique(config, State());
          existing := repository.FindExternalRef(p, sid, items[k].1.value);
        }
        if existing.Some? { continue; }
        var e := AddApproved(p, sid, items[k].0, items[k].1);
        if e.Some? { return Reply(e, [], []); }
      }
      reply := Done();
    }

    method SetBridge(p: Principal, b: Bridge) returns (reply: Reply)
      requires Valid()
      modifies repository
      ensures Valid() && (State(), reply) == Memory.SetBridge(config, old(State()), p, b)
    {
      SetBridgeKeeps(config, State(), p, b);
      if !config.bridgesEnabled { return Fail(AccessDenied); }
      var source := repository.GetSpace(p, b.source);
      if source.None? { return Fail(AccessDenied); }
      var target := repository.GetSpace(p, b.target);
      if target.None? { return Fail(AccessDenied); }
      if (source.value.kind, target.value.kind) !in config.allowlist { return Fail(AccessDenied); }
      repository.SetBridgeConsent(b.(principal := p));
      reply := Done();
    }

    method CreateGameSpace(p: Principal, service: bool, s: Space) returns (reply: Reply)
      requires Valid()
      modifies repository
      ensures Valid() && (State(), reply) == CreateGame(old(State()), p, service, s)
    {
      CreateGameKeeps(config, State(), p, service, s);
      if !service { return Fail(AccessDenied); }
      var _ := repository.CreateGameSpace(p, s);
      reply := Done();
    }

    method IngestGameEvent(p: Principal, service: bool, sid: nat, k: Key, content: string) returns (reply: Reply)
      requires Valid()
      modifies repository, store
      ensures Valid() && (State(), reply) == GameEvent(config, old(State()), p, service, sid, k, content)
    {
      GameEventKeeps(config, State(), p, service, sid, k, content);
      if !service { return Fail(AccessDenied); }
      var s := repository.GetSpace(p, sid);
      if s.None? || s.value.kind != Game { return Fail(AccessDenied); }
      ExternalsUnique(config, State());
      var existing := repository.FindExternalRef(p, sid, k);
      if existing.Some? { return Done(); }
      var ok := Ingest(p, sid, content, Some(k), None, Some(k));
      reply := if ok then Done() else Fail(ProviderFailed);
    }

    method ContextLoad(p: Principal, sid: nat, query: string, limit: int) returns (found: seq<Shown>)
      requires sid in repository.spaces
      ensures found == Search(config, State(), p, sid, query, limit)
    {
      var ids := config.search(store.rows, ScopeFor(config, p, sid, repository.spaces[sid]), query, limit);
      found := seq(|ids|, i requires 0 <= i < |ids| => Shown(ids[i], sid, None, Active));
    }

    method Context(p: Principal, allowed: bool, query: string, limit: int) returns (reply: Reply)
      requires Valid()
      modifies repository, store
      ensures Valid() && (State(), reply) == Memory.Context(config, old(State()), p, allowed, query, limit)
    {
      if !allowed { return Done(); }
      var target := PersonalSpace(p);
      var records := ContextLoad(p, target, query, limit);
      if !config.bridgesEnabled || limit - |records| <= 0 { return Reply(None, records, []); }
      var sources := repository.ActiveBridges(p, target);
      SourcesExist(config, repository.Contents(), repository.bridges, p, target);
      records := AddBridged(p, sources, query, limit, records);
      reply := Reply(None, if |records| <= limit then records else records[..limit], []);
    }

    // The bridge loop of a context: each source is asked for what the limit still allows.
    method AddBridged(p: Principal, sources: seq<nat>, query: string, limit: int, own: seq<Shown>) returns (records: seq<Shown>)
      requires |own| < limit && forall s :: s in sources ==> s in repository.spaces
      ensures records == Extend(config, State(), p, sources, query, limit, own)
    {
      records := own;
      assert sources[0..] == sources;
      for k := 0 to |sources|
        invariant |records| < limit
        invariant Extend(config, State(), p, sources, query, limit, own)
                  == Extend(config, State(), p, sources[k..], query, limit, records)
      {
        assert sources[k..][1..] == sources[k + 1..] && sources[k] in sources;
        var more := ContextLoad(p, sources[k], query, limit - |records|);
        records := records + more;
        if limit - |records| <= 0 { return; }
      }
    }
  }

  lemma RecordsKeepAll(c: Config, w: World, p: Principal)
    requires Base(c, w)
    ensures forall order :: Legal(c, w, Listing(p, order)) ==> Base(c, Memory.Records(c, w, p, order).0)
  {
    forall order | Legal(c, w, Listing(p, order))
      ensures Base(c, Memory.Records(c, w, p, order).0)
    {
      RecordsKeeps(c, w, p, order);
    }
  }

  // The answer of the rest of a capture, put after the keys already created.
  function After(created: seq<Key>, rest: (World, Reply)): (World, Reply) {
    (rest.0, rest.1.(captured := created + rest.1.captured))
  }

  lemma AfterNone(rest: (World, Reply))
    ensures After([], rest) == rest
  {
    assert [] + rest.1.captured == rest.1.captured;
  }

  lemma AfterSnoc(created: seq<Key>, key: Key, rest: (World, Reply))
    ensures After(created + [key], rest) == After(created, (rest.0, rest.1.(captured := [key] + rest.1.captured)))
  {
    assert created + ([key] + rest.1.captured) == created + [key] + rest.1.captured;
  }

  // The answer of the rest of a listing, put after the entries already shown.
  function Showing(shown: seq<Shown>, rest: (World, seq<Shown>)): (World, seq<Shown>) {
    (rest.0, shown + rest.1)
  }

  lemma ShowingNone(rest: (World, seq<Shown>))
    ensures Showing([], rest) == rest
  {
    assert [] + rest.1 == rest.1;
  }

  lemma ShowingSnoc(shown: seq<Shown>, e: Shown, rest: (World, seq<Shown>))
    ensures Showing(shown + [e], rest) == Showing(shown, (rest.0, [e] + rest.1))
  {
    assert shown + ([e] + rest.1) == shown + [e] + rest.1;
  }

  lemma {:induction false} SourcesExist(c: Config, r: Repo, bs: seq<Bridge>, p: Principal, target: nat)
    requires SpacesOk(r)
    ensures forall s :: s in Memory.ActiveBridges(r, bs, p, target) ==> s in r.spaces
    decreases |bs|
  {
    if bs != [] { SourcesExist(c, r, bs[1..], p, target); }
  }
}
