/** Forgetting: what a success leaves, and how long it lasts. */
module MemoryForgetting {
  import opened Memory
  import opened MemoryInvariant
  import opened MemoryIsolation
  import opened MemoryLaws
  import opened MemoryListing
  import opened MemoryRuns

  // The reference is the caller's, in a space the caller is a member of, and its record is in that space.
  ghost predicate Reaches(c: Config, w: World, p: Principal, i: nat) {
    && i in w.repo.refs && w.repo.refs[i].principal == p
    && (w.repo.refs[i].space, p) in w.repo.members && w.repo.refs[i].space in w.repo.spaces
    && Has(w.store, ScopeFor(c, p, w.repo.refs[i].space, w.repo.spaces[w.repo.refs[i].space]), w.repo.refs[i].record)
  }

  // Nothing but the status of the reference and the row of its record is different.
  ghost predicate OnlyRecord(w: World, w': World, i: nat)
    requires i in w.repo.refs
  {
    && i in w'.repo.refs && w'.repo.refs == w.repo.refs[i := w.repo.refs[i].(status := w'.repo.refs[i].status)]
    && w'.repo.spaces == w.repo.spaces && w'.repo.members == w.repo.members && w'.repo.bridges == w.repo.bridges
    && w'.repo.next == w.repo.next && w'.store.next == w.store.next
    && w'.store.rows - {w.repo.refs[i].record} == w.store.rows - {w.repo.refs[i].record}
  }

  /** Forgetting succeeds exactly for a record the caller reaches, and then marks the row and the reference,
      keeps the text, and changes nothing else; a refusal changes nothing. */
  lemma ForgetExactly(c: Config, w: World, p: Principal, i: nat)
    ensures var (w', reply) := Forget(c, w, p, i);
      && (reply.error.None? <==> Reaches(c, w, p, i))
      && (reply.error.Some? ==> w' == w)
      && (reply.error.None? ==>
            var id := w.repo.refs[i].record;
            && OnlyRecord(w, w', i) && w'.repo.proposals == w.repo.proposals && w'.repo.refs[i].status.Forgotten?
            && id in w'.store.rows && w'.store.rows[id] == w.store.rows[id].(forgotten := true))
  {
  }

  /** Correcting succeeds exactly for a text that is no secret and a record the caller reaches. */
  lemma CorrectExactly(c: Config, w: World, p: Principal, i: nat, content: string)
    ensures var (w', reply) := Correct(c, w, p, i, content);
      && (reply.error.None? <==> !c.secret(content) && Reaches(c, w, p, i))
      && (reply.error.Some? ==> w' == w)
      && (reply.error.None? ==>
            var id := w.repo.refs[i].record;
            && OnlyRecord(w, w', i) && w'.repo.proposals == w.repo.proposals && w'.repo.refs[i].status.Active?
            && id in w'.store.rows && w'.store.rows[id] == w.store.rows[id].(content := content, forgotten := false))
  {
  }

  /** Purging succeeds exactly for a record the caller reaches, and removes the row and the proposal's text. */
  lemma PurgeExactly(c: Config, w: World, p: Principal, i: nat)
    ensures var (w', reply) := Purge(c, w, p, i);
      && (reply.error.None? <==> Reaches(c, w, p, i))
      && (reply.error.Some? ==> w' == w)
      && (reply.error.None? ==>
            && OnlyRecord(w, w', i) && w'.repo.refs[i].status.Purged?
            && w.repo.refs[i].record !in w'.store.rows
            && w'.repo.proposals.Keys == w.repo.proposals.Keys
            && forall n :: n in w.repo.proposals ==>
                 w'.repo.proposals[n] == if w.repo.refs[i].proposal == Some(n) then w.repo.proposals[n].(content := None)
                                         else w.repo.proposals[n])
  {
  }

  // ---------------------------------------------------------------- over runs

  // Every record there keeps its text and stays as forgotten as it is.
  ghost predicate TextsStay(st: Store, st': Store) {
    forall id :: id in st.rows ==>
      id in st'.rows && st'.rows[id].content == st.rows[id].content && st'.rows[id].forgotten == st.rows[id].forgotten
  }

  lemma OpeningTexts(c: Config, w: World, p: Principal)
    ensures TextsStay(w.store, PersonalSpace(c, w, p).0.store)
  {
  }

  lemma AddingTexts(c: Config, w: World, p: Principal, sid: nat, content: string, ext: Option<Key>)
    requires Base(c, w) && Owns(w.repo.spaces, p, sid)
    ensures TextsStay(w.store, AddApproved(c, w, p, sid, content, ext).0.store)
  {
    if AddApproved(c, w, p, sid, content, ext).0 != w { var _, _ := IngestEffect(c, w, p, sid, content, ext, None, ext); }
  }

  lemma {:induction false} CapturingTexts(c: Config, w: World, p: Principal, sid: nat, todo: seq<(string, string)>)
    requires Base(c, w) && Owns(w.repo.spaces, p, sid)
    ensures TextsStay(w.store, CaptureAll(c, w, p, sid, todo).0.store)
    decreases |todo|
  {
    if todo != [] {
      var key := AutoKey(sid, todo[0].1);
      if FindExternal(w.repo.refs, p, sid, key).Some? {
        CapturingTexts(c, w, p, sid, todo[1..]);
      } else {
        AddApprovedKeeps(c, w, p, sid, todo[0].0, Some(key));
        AddingTexts(c, w, p, sid, todo[0].0, Some(key));
        CapturingTexts(c, AddApproved(c, w, p, sid, todo[0].0, Some(key)).0, p, sid, todo[1..]);
      }
    }
  }

  lemma {:induction false} ImportingTexts(c: Config, w: World, p: Principal, items: seq<(string, Option<Key>)>)
    requires Base(c, w)
    ensures TextsStay(w.store, Import(c, w, p, items).0.store)
    decreases |items|
  {
    if items != [] {
      if c.strip(items[0].0) == "" {
        ImportingTexts(c, w, p, items[1..]);
      } else {
        PersonalSpaceKeeps(c, w, p);
        OpeningTexts(c, w, p);
        var (w1, sid) := PersonalSpace(c, w, p);
        if items[0].1.Some? && FindExternal(w1.repo.refs, p, sid, items[0].1.value).Some? {
          ImportingTexts(c, w1, p, items[1..]);
        } else {
          AddApprovedKeeps(c, w1, p, sid, items[0].0, items[0].1);
          AddingTexts(c, w1, p, sid, items[0].0, items[0].1);
          ImportingTexts(c, AddApproved(c, w1, p, sid, items[0].0, items[0].1).0, p, items[1..]);
        }
      }
    }
  }

  lemma {:induction false} ClaimingTexts(w: World, p: Principal, sid: nat, order: seq<RecordId>)
    ensures ClaimAll(w, p, sid, order).0.store == w.store
    decreases |order|
  {
    if order != [] { ClaimingTexts(w.(repo := AddRef(w.repo, sid, p, order[0], None, None).0), p, sid, order[1..]); }
  }

  lemma ApprovingTexts(c: Config, w: World, p: Principal, pid: nat, edited: string, now: int)
    requires Base(c, w)
    ensures TextsStay(w.store, Approve(c, w, p, pid, edited, now).0.store)
  {
    if Approve(c, w, p, pid, edited, now).0.store != w.store {
      var item := w.repo.proposals[pid];
      var text := c.strip(if edited != "" then edited else item.content.value);
      var _, _ := IngestEffect(c, w, p, item.space, text, Some(ProposalKey(pid)), Some(pid), None);
    }
  }

  lemma AddingManuallyTexts(c: Config, w: World, p: Principal, content: string)
    requires Base(c, w)
    ensures TextsStay(w.store, AddManual(c, w, p, content).0.store)
  {
    PersonalSpaceKeeps(c, w, p);
    OpeningTexts(c, w, p);
    var (w1, sid) := PersonalSpace(c, w, p);
    AddingTexts(c, w1, p, sid, content, None);
  }

  lemma EventTexts(c: Config, w: World, p: Principal, service: bool, sid: nat, k: Key, content: string)
    requires Base(c, w)
    ensures TextsStay(w.store, GameEvent(c, w, p, service, sid, k, content).0.store)
  {
    if GameEvent(c, w, p, service, sid, k, content).0 != w {
      var _, _ := IngestEffect(c, w, p, sid, content, Some(k), None, Some(k));
    }
  }

  // Only correcting, forgetting and purging touch the records that are there.
  lemma StepTexts(c: Config, w: World, call: Call)
    requires Base(c, w) && !call.Correcting? && !call.Forgetting? && !call.Purging?
    ensures TextsStay(w.store, Step(c, w, call).0.store)
  {
    PersonalSpaceKeeps(c, w, call.p);
    OpeningTexts(c, w, call.p);
    var (w1, sid) := PersonalSpace(c, w, call.p);
    match call
    case Capturing(p, todo) => CapturingTexts(c, w1, p, sid, todo);
    case Importing(p, items) => ImportingTexts(c, w, p, items);
    case Listing(p, order) => ClaimingTexts(w1, p, sid, order);
    case Approving(p, pid, edited, now) => ApprovingTexts(c, w, p, pid, edited, now);
    case Adding(p, content) => AddingManuallyTexts(c, w, p, content);
    case GameHappening(p, service, sid, k, content) => EventTexts(c, w, p, service, sid, k, content);
    case _ => QuietTexts(c, w, call);
  }

  lemma QuietTexts(c: Config, w: World, call: Call)
    requires Opens(call) || call.Proposing? || call.Rejecting? || call.Sweeping? || call.Consenting?
    ensures TextsStay(w.store, Step(c, w, call).0.store)
  {
    OpeningTexts(c, w, call.p);
    if Opens(call) { OpensStore(c, w, call); } else { ChangesStore(c, w, call); }
  }

  lemma OpensStore(c: Config, w: World, call: Call)
    requires Opens(call)
    ensures Step(c, w, call).0.store == w.store || Step(c, w, call).0.store == PersonalSpace(c, w, call.p).0.store
  {
  }

  lemma ChangesStore(c: Config, w: World, call: Call)
    requires call.Proposing? || call.Rejecting? || call.Sweeping? || call.Consenting?
    ensures Step(c, w, call).0.store == w.store || Step(c, w, call).0.store == PersonalSpace(c, w, call.p).0.store
  {
  }

  // The call corrects or purges this very record.
  ghost predicate Revives(c: Config, w: World, call: Call, id: RecordId) {
    && (call.Correcting? || call.Purging?) && Step(c, w, call).1.error.None?
    && call.ref in w.repo.refs && w.repo.refs[call.ref].record == id
  }

  predicate IsForgotten(st: Store, id: RecordId) {
    id in st.rows && st.rows[id].forgotten
  }

  lemma StepForgotten(c: Config, w: World, call: Call, id: RecordId)
    requires Base(c, w) && IsForgotten(w.store, id) && !Revives(c, w, call, id)
    ensures var st' := Step(c, w, call).0.store;
      IsForgotten(st', id) && st'.rows[id].content == w.store.rows[id].content
  {
    match call
    case Correcting(p, i, content) => CorrectExactly(c, w, p, i, content);
    case Forgetting(p, i) => ForgetExactly(c, w, p, i);
    case Purging(p, i) => PurgeExactly(c, w, p, i);
    case _ => StepTexts(c, w, call);
    assert id in w.store.rows;
  }

  ghost predicate NoneRevives(c: Config, w: World, calls: seq<Call>, id: RecordId)
    decreases |calls|
  {
    calls == [] || (!Revives(c, w, calls[0], id) && NoneRevives(c, Step(c, w, calls[0]).0, calls[1..], id))
  }

  lemma {:induction false} RunForgotten(c: Config, w: World, calls: seq<Call>, id: RecordId)
    requires Base(c, w) && LegalRun(c, w, calls) && IsForgotten(w.store, id) && NoneRevives(c, w, calls, id)
    ensures var w' := Exec(c, w, calls);
      Base(c, w') && IsForgotten(w'.store, id) && w'.store.rows[id].content == w.store.rows[id].content
    decreases |calls|
  {
    if calls != [] {
      StepKeeps(c, w, calls[0]);
      StepForgotten(c, w, calls[0], id);
      RunForgotten(c, Step(c, w, calls[0]).0, calls[1..], id);
    }
  }

  // What a call shows of a forgotten record: nothing in a retrieval, and the status in a listing.
  lemma HiddenNow(c: Config, w: World, call: Call, e: Shown)
    requires Base(c, w) && Honest(c) && Legal(c, w, call) && IsForgotten(w.store, e.record)
    requires e in Step(c, w, call).1.shown
    ensures !call.Recalling? && !call.GameRecalling?
    ensures call.Listing? ==> e.status.Forgotten?
  {
    if call.Recalling? || call.GameRecalling? {
      StepTexts(c, w, call);
      RetrievedIsActive(c, w, call, e);
    } else if call.Listing? {
      RecordsAnswer(c, w, call.p, call.order);
      StepTexts(c, w, call);
      var (w', reply) := Step(c, w, call);
      var n :| 0 <= n < |reply.shown| && reply.shown[n] == e;
      assert ShowsRecord(w', PersonalSpace(c, w, call.p).1, call.order[n], e);
    }
  }

  // An honest provider's retrieval shows no forgotten record.
  lemma RetrievedIsActive(c: Config, w: World, call: Call, e: Shown)
    requires Honest(c) && (call.Recalling? || call.GameRecalling?) && e in Step(c, w, call).1.shown
    ensures var st := Step(c, w, call).0.store; e.record in st.rows && !st.rows[e.record].forgotten
  {
    if call.GameRecalling? {
      SearchIsActive(c, w, call.p, call.sid, call.query, call.limit);
    } else if call.allowed {
      var (w1, target) := PersonalSpace(c, w, call.p);
      var own := Search(c, w1, call.p, target, call.query, call.limit);
      SearchIsActive(c, w1, call.p, target, call.query, call.limit);
      if c.bridgesEnabled && call.limit - |own| > 0 {
        var sources := ActiveBridges(w1.repo, w1.repo.bridges, call.p, target);
        ExtendIsActive(c, w1, call.p, sources, call.query, call.limit, own);
        assert e in Extend(c, w1, call.p, sources, call.query, call.limit, own);
      }
    }
  }

  ghost predicate AllActive(st: Store, shown: seq<Shown>) {
    forall e :: e in shown ==> e.record in st.rows && !st.rows[e.record].forgotten
  }

  lemma SearchIsActive(c: Config, w: World, p: Principal, sid: nat, query: string, limit: int)
    requires Honest(c) && sid in w.repo.spaces
    ensures AllActive(w.store, Search(c, w, p, sid, query, limit))
  {
    var sc := ScopeFor(c, p, sid, w.repo.spaces[sid]);
    var ids := c.search(w.store.rows, sc, query, limit);
    assert HonestAnswer(w.store.rows, sc, limit, ids);
    assert forall n :: 0 <= n < |ids| ==> ids[n] in ids;
  }

  lemma {:induction false} ExtendIsActive(c: Config, w: World, p: Principal, sources: seq<nat>, query: string, limit: int, found: seq<Shown>)
    requires Honest(c) && AllActive(w.store, found)
    ensures AllActive(w.store, Extend(c, w, p, sources, query, limit, found))
    decreases |sources|
  {
    if sources != [] && sources[0] in w.repo.spaces {
      SearchIsActive(c, w, p, sources[0], query, limit - |found|);
      ExtendIsActive(c, w, p, sources[1..], query, limit, found + Search(c, w, p, sources[0], query, limit - |found|));
    }
  }

  /** Forgetting lasts: after a record was forgotten, until a call corrects or purges that record, no
      retrieval of anyone shows it, and every listing that shows it shows it as forgotten. */
  lemma ForgottenIsHidden(c: Config, w: World, p: Principal, i: nat, calls: seq<Call>, n: nat, e: Shown)
    requires Base(c, w) && Honest(c) && Forget(c, w, p, i).1.error.None?
    requires var w1 := Forget(c, w, p, i).0;
      && LegalRun(c, w1, calls) && n < |calls|
      && NoneRevives(c, w1, calls[..n], w.repo.refs[i].record)
      && e in Replies(c, w1, calls)[n].shown
    requires e.record == w.repo.refs[i].record
    ensures !calls[n].Recalling? && !calls[n].GameRecalling?
    ensures calls[n].Listing? ==> e.status.Forgotten?
  {
    ForgetExactly(c, w, p, i);
    ForgetKeeps(c, w, p, i);
    var w1 := Forget(c, w, p, i).0;
    ReplyAt(c, w1, calls, n);
    RunForgotten(c, w1, calls[..n], e.record);
    HiddenNow(c, Exec(c, w1, calls[..n]), calls[n], e);
  }

  // Call n of a run is made, and answered, in the state its prefix leads to.
  lemma {:induction false} ReplyAt(c: Config, w: World, calls: seq<Call>, n: nat)
    requires LegalRun(c, w, calls) && n < |calls|
    ensures LegalRun(c, w, calls[..n]) && Legal(c, Exec(c, w, calls[..n]), calls[n])
    ensures Replies(c, w, calls)[n] == Step(c, Exec(c, w, calls[..n]), calls[n]).1
    decreases |calls|
  {
    RepliesAt(c, w, calls, n);
    if n > 0 {
      assert calls[..n][1..] == calls[1..][..n - 1] && calls[..n][0] == calls[0];
      ReplyAt(c, Step(c, w, calls[0]).0, calls[1..], n - 1);
    }
  }
}
