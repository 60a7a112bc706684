/** Purging is final over every run whose callers respect two conditions, each of which is needed. */
module MemoryFinality {
  import opened Memory
  import opened MemoryInvariant
  import opened MemoryResurrection
  import opened MemoryRuns

  /** What a caller has to respect: external ids are never proposal ids, and no new space gets the scope of
      another. */
  ghost predicate Careful(c: Config, w: World, call: Call) {
    match call
    case Importing(p, items) => forall item :: item in items ==> !IsProposalKey(item.1)
    case GameHappening(p, service, sid, k, content) => !k.ProposalKey?
    case CreatingGame(p, service, s) =>
      service && FindGame(w.repo.spaces, p, s.name).None? ==>
        forall i :: i in w.repo.spaces ==>
          ScopeOf(c, w.repo.spaces, i) != ScopeFor(c, p, w.repo.next, s.(kind := Game, owner := p))
    case _ => true
  }

  predicate IsProposalKey(k: Option<Key>) {
    k.Some? && k.value.ProposalKey?
  }

  ghost predicate DistinctScopes(c: Config, spaces: map<nat, Space>) {
    forall i, j :: i in spaces && j in spaces && ScopeOf(c, spaces, i) == ScopeOf(c, spaces, j) ==> i == j
  }

  /** Two spaces share a scope exactly when both are game spaces of one namespace with the same world and
      campaign, both given, and the same player, or no player and the same owner. */
  lemma SharedScopeExactly(c: Config, spaces: map<nat, Space>, i: nat, j: nat)
    requires i in spaces && j in spaces && i != j
    ensures ScopeOf(c, spaces, i) == ScopeOf(c, spaces, j) <==>
            && spaces[i].kind.Game? && spaces[j].kind.Game? && spaces[i].namespace == spaces[j].namespace
            && spaces[i].world == spaces[j].world != "" && spaces[i].campaign == spaces[j].campaign != ""
            && spaces[i].player == spaces[j].player && (spaces[i].player == "" ==> spaces[i].owner == spaces[j].owner)
  {
  }

  // The reference, in the space of the record's scope, that remembers where the record came from.
  predicate IsHome(c: Config, r: Repo, ref: Ref, id: RecordId) {
    && id.Stable? && ref.record == id && ref.space in r.spaces && ScopeOf(c, r.spaces, ref.space) == id.scope
    && (if id.key.ProposalKey? then ref.proposal == Some(id.key.id) else ref.external == Some(id.key))
  }

  ghost predicate AllHomes(c: Config, w: World) {
    forall id: RecordId :: id.Stable? && Known(w, id) ==> HomeExists(c, w.repo, id)
  }

  ghost predicate HomeExists(c: Config, r: Repo, id: RecordId) {
    exists i :: i in r.refs && IsHome(c, r, r.refs[i], id)
  }

  ghost predicate NoProposalExternals(r: Repo) {
    forall i :: i in r.refs ==> !IsProposalKey(r.refs[i].external)
  }

  ghost predicate Final(c: Config, w: World) {
    Base(c, w) && DistinctScopes(c, w.repo.spaces) && AllHomes(c, w) && NoProposalExternals(w.repo) && PurgedGone(w)
  }

  lemma FreshIsFinal(c: Config, w: World)
    requires Fresh(w)
    ensures Final(c, w)
  {
    FreshIsBase(c, w);
  }

  // Homes survive when nothing new is known, references grow and spaces stay.
  lemma AllHomesStay(c: Config, w: World, w': World)
    requires AllHomes(c, w) && RefsGrow(w.repo, w'.repo)
    requires forall i :: i in w.repo.spaces ==> i in w'.repo.spaces && w'.repo.spaces[i] == w.repo.spaces[i]
    requires forall id :: Known(w', id) ==> Known(w, id)
    ensures AllHomes(c, w')
  {
    forall id: RecordId | id.Stable? && Known(w', id)
      ensures HomeExists(c, w'.repo, id)
    {
      assert HomeExists(c, w.repo, id);
      HomeStays(c, w.repo, w'.repo, id);
    }
  }

  lemma HomeStays(c: Config, r: Repo, r': Repo, id: RecordId)
    requires RefsGrow(r, r') && HomeExists(c, r, id)
    requires forall i :: i in r.spaces ==> i in r'.spaces && r'.spaces[i] == r.spaces[i]
    ensures HomeExists(c, r', id)
  {
    var i :| i in r.refs && IsHome(c, r, r.refs[i], id);
    assert i in r'.refs && IsHome(c, r', r'.refs[i], id);
  }

  // Calls that neither store a record nor remove one, nor touch a reference that exists.
  lemma QuietKeeps(c: Config, w: World, w': World)
    requires Final(c, w) && Base(c, w')
    requires w'.repo.refs == w.repo.refs && DistinctScopes(c, w'.repo.spaces)
    requires forall i :: i in w.repo.spaces ==> i in w'.repo.spaces && w'.repo.spaces[i] == w.repo.spaces[i]
    requires forall id :: id in w'.store.rows ==> id in w.store.rows
    ensures Final(c, w')
  {
    assert forall id :: Known(w', id) ==> Known(w, id);
    AllHomesStay(c, w, w');
  }

  lemma PersonalSpaceFinal(c: Config, w: World, p: Principal)
    requires Final(c, w)
    ensures Final(c, PersonalSpace(c, w, p).0)
  {
    var (w', sid) := PersonalSpace(c, w, p);
    PersonalSpaceKeeps(c, w, p);
    forall i, j | i in w'.repo.spaces && j in w'.repo.spaces
        && ScopeOf(c, w'.repo.spaces, i) == ScopeOf(c, w'.repo.spaces, j)
      ensures i == j
    {
      if i == sid { PersonalScopeIsOwn(c, w'.repo, i, j); }
      else if j == sid { PersonalScopeIsOwn(c, w'.repo, j, i); }
      else {
        assert ScopeOf(c, w.repo.spaces, i) == ScopeOf(c, w.repo.spaces, j);
      }
    }
    QuietKeeps(c, w, w');
  }

  // Storing a record under an id that was never used before.
  lemma IngestFinal(c: Config, w: World, p: Principal, sid: nat, content: string, key: Option<Key>, pid: Option<nat>, ext: Option<Key>)
    requires Final(c, w) && Owns(w.repo.spaces, p, sid) && StoreForm(w.repo, p, sid, key, pid, ext)
    requires !IsProposalKey(ext)
    requires key.Some? ==> !Known(w, Stable(ScopeOf(c, w.repo.spaces, sid), key.value))
    requires Ingest(c, w, p, sid, content, key, pid, ext).Some?
    ensures Final(c, Ingest(c, w, p, sid, content, key, pid, ext).value)
  {
    var w' := Ingest(c, w, p, sid, content, key, pid, ext).value;
    IngestKeeps(c, w, p, sid, content, key, pid, ext);
    var id, n := IngestEffect(c, w, p, sid, content, key, pid, ext);
    assert Known(w, id) ==> IdOk(w, id);
    assert forall j :: j in w.repo.refs ==> w.repo.refs[j].record != id;
    assert n !in w.repo.refs;
    forall other: RecordId | other.Stable? && Known(w', other)
      ensures HomeExists(c, w'.repo, other)
    {
      if other == id {
        assert IsHome(c, w'.repo, w'.repo.refs[n], id);
      } else {
        assert Known(w, other);
        HomeStays(c, w.repo, w'.repo, other);
      }
    }
    forall i | i in w'.repo.refs && w'.repo.refs[i].status.Purged?
      ensures w'.repo.refs[i].record !in w'.store.rows
    {
      assert i in w.repo.refs && w'.repo.refs[i].record != id;
    }
  }

  // What was stored under an external id is found again under it.
  lemma UnseenIsUnknown(c: Config, w: World, p: Principal, sid: nat, k: Key)
    requires Final(c, w) && Owns(w.repo.spaces, p, sid) && !k.ProposalKey?
    requires FindExternal(w.repo.refs, p, sid, k).None?
    ensures !Known(w, Stable(ScopeOf(c, w.repo.spaces, sid), k))
  {
    var id := Stable(ScopeOf(c, w.repo.spaces, sid), k);
    forall i | i in w.repo.refs
      ensures !IsHome(c, w.repo, w.repo.refs[i], id)
    {
      assert RefOk(c, w.repo, w.repo.refs[i]);
      assert IsHome(c, w.repo, w.repo.refs[i], id) ==> IsExternal(w.repo.refs, p, sid, k, i);
    }
    assert Known(w, id) ==> HomeExists(c, w.repo, id);
  }

  lemma AddApprovedFinal(c: Config, w: World, p: Principal, sid: nat, content: string, ext: Option<Key>)
    requires Final(c, w) && Owns(w.repo.spaces, p, sid) && !IsProposalKey(ext)
    requires ext.Some? ==> FindExternal(w.repo.refs, p, sid, ext.value).None?
    ensures var w' := AddApproved(c, w, p, sid, content, ext).0;
      Final(c, w') && w'.repo.spaces == w.repo.spaces
  {
    if AddApproved(c, w, p, sid, content, ext).0 != w {
      if ext.Some? { UnseenIsUnknown(c, w, p, sid, ext.value); }
      IngestFinal(c, w, p, sid, content, ext, None, ext);
    }
  }

  lemma {:induction false} CaptureAllFinal(c: Config, w: World, p: Principal, sid: nat, todo: seq<(string, string)>)
    requires Final(c, w) && Owns(w.repo.spaces, p, sid)
    ensures Final(c, CaptureAll(c, w, p, sid, todo).0)
    decreases |todo|
  {
    if todo != [] {
      var key := AutoKey(sid, todo[0].1);
      if FindExternal(w.repo.refs, p, sid, key).Some? {
        CaptureAllFinal(c, w, p, sid, todo[1..]);
      } else {
        AddApprovedFinal(c, w, p, sid, todo[0].0, Some(key));
        CaptureAllFinal(c, AddApproved(c, w, p, sid, todo[0].0, Some(key)).0, p, sid, todo[1..]);
      }
    }
  }

  lemma {:induction false} ImportFinal(c: Config, w: World, p: Principal, items: seq<(string, Option<Key>)>)
    requires Final(c, w) && forall item :: item in items ==> !IsProposalKey(item.1)
    ensures Final(c, Import(c, w, p, items).0)
    decreases |items|
  {
    if items != [] {
      if c.strip(items[0].0) == "" {
        ImportFinal(c, w, p, items[1..]);
      } else {
        PersonalSpaceFinal(c, w, p);
        PersonalSpaceKeeps(c, w, p);
        var (w1, sid) := PersonalSpace(c, w, p);
        if items[0].1.Some? && FindExternal(w1.repo.refs, p, sid, items[0].1.value).Some? {
          ImportFinal(c, w1, p, items[1..]);
        } else {
          AddApprovedFinal(c, w1, p, sid, items[0].0, items[0].1);
          ImportFinal(c, AddApproved(c, w1, p, sid, items[0].0, items[0].1).0, p, items[1..]);
        }
      }
    }
  }

  lemma {:induction false} ClaimAllFinal(c: Config, w: World, p: Principal, sid: nat, order: seq<RecordId>)
    requires Final(c, w) && IsPersonal(w.repo.spaces, p, sid)
    requires forall id :: id in order ==> Has(w.store, ScopeOf(c, w.repo.spaces, sid), id)
    ensures Final(c, ClaimAll(w, p, sid, order).0)
    decreases |order|
  {
    if order != [] {
      var w1 := w.(repo := AddRef(w.repo, sid, p, order[0], None, None).0);
      ClaimKeeps(c, w, p, sid, order[0]);
      AddRefGrows(w.repo, sid, p, order[0], None, None);
      assert forall id :: Known(w1, id) ==> Known(w, id);
      AllHomesStay(c, w, w1);
      ClaimAllFinal(c, w1, p, sid, order[1..]);
    }
  }

  lemma TransitionFinal(c: Config, w: World, p: Principal, pid: nat, to: ProposalState, content: Option<string>)
    requires Final(c, w) && Transition(w.repo, p, pid, to, content).Some?
    ensures Final(c, w.(repo := Transition(w.repo, p, pid, to, content).value))
  {
    TransitionKeeps(c, w, p, pid, to, content);
    QuietKeeps(c, w, w.(repo := Transition(w.repo, p, pid, to, content).value));
  }

  lemma ApproveFinal(c: Config, w: World, p: Principal, pid: nat, edited: string, now: int)
    requires Final(c, w)
    ensures Final(c, Approve(c, w, p, pid, edited, now).0)
  {
    var w' := Approve(c, w, p, pid, edited, now).0;
    if w' != w {
      var item := w.repo.proposals[pid];
      if item.expires <= now {
        TransitionFinal(c, w, p, pid, Expired, None);
      } else {
        var content := c.strip(if edited != "" then edited else item.content.value);
        var r2 := Transition(w.repo, p, pid, Approved, Some(content)).value;
        TransitionFinal(c, w, p, pid, Approved, Some(content));
        ApproveIsIngest(c, w, p, pid, content, r2);
        PendingIsUnknown(c, w, p, pid);
        IngestFinal(c, w.(repo := r2), p, item.space, content, Some(ProposalKey(pid)), Some(pid), None);
      }
    }
  }

  lemma PendingIsUnknown(c: Config, w: World, p: Principal, pid: nat)
    requires Final(c, w) && pid in w.repo.proposals && w.repo.proposals[pid].state.Pending?
    requires w.repo.proposals[pid].space in w.repo.spaces
    ensures !Known(w, Stable(ScopeOf(c, w.repo.spaces, w.repo.proposals[pid].space), ProposalKey(pid)))
  {
    var id := Stable(ScopeOf(c, w.repo.spaces, w.repo.proposals[pid].space), ProposalKey(pid));
    assert forall i :: i in w.repo.refs ==> RefOk(c, w.repo, w.repo.refs[i]);
    assert Known(w, id) ==> HomeExists(c, w.repo, id);
  }

  // Correcting, forgetting and purging: one reference and its row change, no purged one among them.
  lemma StatusFinal(c: Config, w: World, w': World, p: Principal, i: nat)
    requires Final(c, w) && Base(c, w') && Target(c, w, p, i).Some?
    requires var (ref, sc) := Target(c, w, p, i).value;
      && Has(w.store, sc, ref.record)
      && i in w'.repo.refs && w'.repo.refs == w.repo.refs[i := ref.(status := w'.repo.refs[i].status)]
      && (w'.repo.refs[i].status.Purged? ==> ref.record !in w'.store.rows)
    requires w'.repo.spaces == w.repo.spaces && forall id :: id in w'.store.rows ==> id in w.store.rows
    ensures Final(c, w') && Target(c, w, p, i).value.0.status != Purged
  {
    TargetOf(c, w, p, i);
    assert forall id :: Known(w', id) ==> Known(w, id);
    AllHomesStay(c, w, w');
  }

  lemma CorrectFinal(c: Config, w: World, p: Principal, i: nat, content: string)
    requires Final(c, w)
    ensures Final(c, Correct(c, w, p, i, content).0)
  {
    var w' := Correct(c, w, p, i, content).0;
    CorrectKeeps(c, w, p, i, content);
    if w' != w { TargetOf(c, w, p, i); StatusFinal(c, w, w', p, i); }
  }

  lemma ForgetFinal(c: Config, w: World, p: Principal, i: nat)
    requires Final(c, w)
    ensures Final(c, Forget(c, w, p, i).0)
  {
    var w' := Forget(c, w, p, i).0;
    ForgetKeeps(c, w, p, i);
    if w' != w { TargetOf(c, w, p, i); StatusFinal(c, w, w', p, i); }
  }

  lemma PurgeFinal(c: Config, w: World, p: Principal, i: nat)
    requires Final(c, w)
    ensures Final(c, Purge(c, w, p, i).0)
  {
    var w' := Purge(c, w, p, i).0;
    PurgeKeeps(c, w, p, i);
    if w' != w { TargetOf(c, w, p, i); StatusFinal(c, w, w', p, i); }
  }

  lemma StepFinal(c: Config, w: World, call: Call)
    requires Final(c, w) && Legal(c, w, call) && Careful(c, w, call)
    ensures Final(c, Step(c, w, call).0)
  {
    StepKeeps(c, w, call);
    if Stores(call) { StoresFinal(c, w, call); }
    else if Opens(call) { OpensFinal(c, w, call); }
    else { ChangesFinal(c, w, call); }
  }

  lemma ChangesFinal(c: Config, w: World, call: Call)
    requires Final(c, w) && !Stores(call) && !Opens(call) && Base(c, Step(c, w, call).0)
    ensures Final(c, Step(c, w, call).0)
  {
    match call
    case Correcting(p, i, content) => CorrectFinal(c, w, p, i, content);
    case Forgetting(p, i) => ForgetFinal(c, w, p, i);
    case Purging(p, i) => PurgeFinal(c, w, p, i);
    case Proposing(p, contents, expires) =>
      PersonalSpaceFinal(c, w, p);
      var (w1, sid) := PersonalSpace(c, w, p);
      ProposedQuietly(w1.repo, sid, p, contents, expires);
      QuietKeeps(c, w1, Step(c, w, call).0);
    case _ => QuietKeeps(c, w, Step(c, w, call).0);
  }

  lemma {:induction false} ProposedQuietly(r: Repo, sid: nat, p: Principal, contents: seq<string>, expires: int)
    ensures var r' := AddProposals(r, sid, p, contents, expires); r'.refs == r.refs && r'.spaces == r.spaces
    decreases |contents|
  {
    if contents != [] {
      ProposedQuietly(AddProposal(r, sid, p, contents[0], expires), sid, p, contents[1..], expires);
    }
  }

  lemma StoresFinal(c: Config, w: World, call: Call)
    requires Final(c, w) && Legal(c, w, call) && Careful(c, w, call) && Stores(call)
    ensures Final(c, Step(c, w, call).0)
  {
    if !call.Approving? && !call.GameHappening? {
      PersonalSpaceFinal(c, w, call.p);
      PersonalSpaceKeeps(c, w, call.p);
    }
    match call
    case Approving(p, pid, edited, now) => ApproveFinal(c, w, p, pid, edited, now);
    case Adding(p, content) =>
      var (w1, sid) := PersonalSpace(c, w, p);
      AddApprovedFinal(c, w1, p, sid, content, None);
    case Capturing(p, todo) =>
      var (w1, sid) := PersonalSpace(c, w, p);
      CaptureAllFinal(c, w1, p, sid, todo);
    case Listing(p, order) =>
      var (w1, sid) := PersonalSpace(c, w, p);
      ClaimAllFinal(c, w1, p, sid, order);
    case Importing(p, items) => ImportFinal(c, w, p, items);
    case GameHappening(p, service, sid, k, content) =>
      if Step(c, w, call).0 != w {
        UnseenIsUnknown(c, w, p, sid, k);
        IngestFinal(c, w, p, sid, content, Some(k), None, Some(k));
      }
  }

  lemma OpensFinal(c: Config, w: World, call: Call)
    requires Final(c, w) && Careful(c, w, call) && Opens(call) && Base(c, Step(c, w, call).0)
    ensures Final(c, Step(c, w, call).0)
  {
    if call.CreatingGame? {
      if Step(c, w, call).0 != w {
        var w' := Step(c, w, call).0;
        forall i, j | i in w'.repo.spaces && j in w'.repo.spaces
            && ScopeOf(c, w'.repo.spaces, i) == ScopeOf(c, w'.repo.spaces, j)
          ensures i == j
        {
          if i != w.repo.next && j != w.repo.next {
            assert ScopeOf(c, w.repo.spaces, i) == ScopeOf(c, w.repo.spaces, j);
          }
        }
        QuietKeeps(c, w, w');
      }
    } else {
      PersonalSpaceFinal(c, w, call.p);
    }
  }

  // ---------------------------------------------------------------- purge is final

  ghost predicate CarefulRun(c: Config, w: World, calls: seq<Call>)
    decreases |calls|
  {
    calls == [] || (Careful(c, w, calls[0]) && CarefulRun(c, Step(c, w, calls[0]).0, calls[1..]))
  }

  /** Careful runs keep everything final rests on. */
  lemma {:induction false} RunFinal(c: Config, w: World, calls: seq<Call>)
    requires Final(c, w) && LegalRun(c, w, calls) && CarefulRun(c, w, calls)
    ensures Final(c, Exec(c, w, calls)) && NoneResurrects(c, w, calls)
    decreases |calls|
  {
    if calls != [] {
      StepFinal(c, w, calls[0]);
      StepResurrectsExactly(c, w, calls[0]);
      RunFinal(c, Step(c, w, calls[0]).0, calls[1..]);
    }
  }

  /** Purge is final: a record purged at some time of a careful run from a fresh memory is, after any
      further careful run, still purged, not in the store, the text of its proposal cleared, and refuses to
      be corrected, forgotten or purged. */
  lemma PurgeIsFinal(c: Config, w: World, before: seq<Call>, p: Principal, i: nat, after: seq<Call>, call: Call)
    requires Fresh(w) && LegalRun(c, w, before) && CarefulRun(c, w, before)
    requires Purge(c, Exec(c, w, before), p, i).1.error.None?
    requires var purged := Purge(c, Exec(c, w, before), p, i).0;
      LegalRun(c, purged, after) && CarefulRun(c, purged, after)
    requires (call.Correcting? || call.Forgetting? || call.Purging?) && call.ref == i
    ensures var w' := Exec(c, Purge(c, Exec(c, w, before), p, i).0, after);
      IsPurged(w', i) && Step(c, w', call).0 == w' && Step(c, w', call).1.error.Some?
  {
    var atPurge := Exec(c, w, before);
    FreshIsFinal(c, w);
    RunFinal(c, w, before);
    PurgePurges(c, atPurge, p, i);
    PurgeFinal(c, atPurge, p, i);
    var purged := Purge(c, atPurge, p, i).0;
    RunFinal(c, purged, after);
    PurgeLasts(c, purged, after, i, call);
  }
}
