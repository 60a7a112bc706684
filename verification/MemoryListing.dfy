/** What records() shows in every sound state. */
module MemoryListing {
  import opened Memory
  import opened MemoryInvariant
  import opened MemoryIsolation
  import opened MemoryResurrection
  import opened MemoryRuns

  /** The entry shows the record under a reference of the space: as forgotten exactly when the store says
      so, as active otherwise, unless the reference is purged and its record has come back. */
  ghost predicate ShowsRecord(w: World, sid: nat, id: RecordId, entry: Shown) {
    && entry.record == id && id in w.store.rows
    && entry.ref.Some? && IsRef(w.repo.refs, sid, id, entry.ref.value)
    && (entry.status.Forgotten? <==> w.store.rows[id].forgotten)
    && (entry.status.Active? <==> !w.store.rows[id].forgotten && !Resurrected(w, entry.ref.value))
  }

  // One listed record: its reference keeps its place while the others get theirs.
  lemma ClaimShows(c: Config, w: World, w': World, p: Principal, sid: nat, id: RecordId)
    requires Base(c, w) && IsPersonal(w.repo.spaces, p, sid) && Has(w.store, ScopeOf(c, w.repo.spaces, sid), id)
    requires w'.store == w.store && RefsKept(AddRef(w.repo, sid, p, id, None, None).0, w'.repo)
    ensures var (r, i) := AddRef(w.repo, sid, p, id, None, None);
      var status := if w.store.rows[id].forgotten then Forgotten else r.refs[i].status;
      ShowsRecord(w', sid, id, Shown(id, sid, Some(i), status))
  {
    var (r, i) := AddRef(w.repo, sid, p, id, None, None);
    var w1 := w.(repo := r);
    AddRefGrows(w.repo, sid, p, id, None, None);
    ClaimKeeps(c, w, p, sid, id);
    assert Indexed(c, w1, r.refs[i]);
    assert i in w'.repo.refs && IsRef(w'.repo.refs, sid, id, i);
  }

  ghost predicate ShowsAll(w: World, sid: nat, order: seq<RecordId>, shown: seq<Shown>) {
    |shown| == |order| && forall n :: 0 <= n < |order| ==> ShowsRecord(w, sid, order[n], shown[n])
  }

  lemma ShowsOneMore(w: World, sid: nat, order: seq<RecordId>, entry: Shown, rest: seq<Shown>)
    requires order != [] && ShowsRecord(w, sid, order[0], entry) && ShowsAll(w, sid, order[1..], rest)
    ensures ShowsAll(w, sid, order, [entry] + rest)
  {
    var shown := [entry] + rest;
    forall n | 0 <= n < |order|
      ensures ShowsRecord(w, sid, order[n], shown[n])
    {
      if n > 0 { assert shown[n] == rest[n - 1] && order[n] == order[1..][n - 1]; }
    }
  }

  lemma {:induction false} ClaimAllShows(c: Config, w: World, p: Principal, sid: nat, order: seq<RecordId>)
    requires Base(c, w) && IsPersonal(w.repo.spaces, p, sid)
    requires forall id :: id in order ==> Has(w.store, ScopeOf(c, w.repo.spaces, sid), id)
    ensures var (w', shown) := ClaimAll(w, p, sid, order);
      w'.store == w.store && RefsKept(w.repo, w'.repo) && ShowsAll(w', sid, order, shown)
    decreases |order|
  {
    if order != [] {
      var w1 := w.(repo := AddRef(w.repo, sid, p, order[0], None, None).0);
      assert order[0] in order && forall id :: id in order[1..] ==> id in order;
      ClaimKeeps(c, w, p, sid, order[0]);
      assert RefsKept(w.repo, w1.repo) by { AddRefGrows(w.repo, sid, p, order[0], None, None); }
      ClaimAllShows(c, w1, p, sid, order[1..]);
      var (w', rest) := ClaimAll(w1, p, sid, order[1..]);
      KeptTransitive(w.repo, w1.repo, w'.repo);
      ClaimShows(c, w, w', p, sid, order[0]);
      ShowsOneMore(w', sid, order, ClaimAll(w, p, sid, order).1[0], rest);
    }
  }

  /** records() shows every stored record of the personal space once, each under the one reference the
      space now has for it, as forgotten exactly when the store says so, and otherwise as active, but for
      a purged record that has come back. */
  lemma RecordsAnswer(c: Config, w: World, p: Principal, order: seq<RecordId>)
    requires Base(c, w) && Legal(c, w, Listing(p, order))
    ensures var (w', reply) := Records(c, w, p, order);
      var sid := PersonalSpace(c, w, p).1;
      && reply.error.None? && sid in w'.repo.spaces
      && (forall id :: Has(w'.store, ScopeOf(c, w'.repo.spaces, sid), id) <==> id in order)
      && ShowsAll(w', sid, order, reply.shown)
      && UniqueRecords(w'.repo)
  {
    PersonalSpaceKeeps(c, w, p);
    var (w1, sid) := PersonalSpace(c, w, p);
    ClaimAllShows(c, w1, p, sid, order);
    ClaimAllKeeps(c, w1, p, sid, order);
    ClaimAllSpaces(w1, p, sid, order);
  }

  /** Over every run from a fresh memory: what records() then shows. */
  lemma RunThenRecords(c: Config, w: World, calls: seq<Call>, p: Principal, order: seq<RecordId>, n: nat)
    requires Fresh(w) && LegalRun(c, w, calls) && Legal(c, Exec(c, w, calls), Listing(p, order)) && n < |order|
    ensures var (w', reply) := Records(c, Exec(c, w, calls), p, order);
      && ShowsAll(w', PersonalSpace(c, Exec(c, w, calls), p).1, order, reply.shown)
      && (NoneResurrects(c, w, calls) ==> !reply.shown[n].status.Purged?)
  {
    FreshIsBase(c, w);
    RunKeeps(c, w, calls);
    RecordsAnswer(c, Exec(c, w, calls), p, order);
    if NoneResurrects(c, w, calls) {
      GoneExactlyWhenNoneResurrects(c, w, calls);
      assert calls[..|calls|] == calls;
      StepResurrectsExactly(c, Exec(c, w, calls), Listing(p, order));
    }
  }
}
