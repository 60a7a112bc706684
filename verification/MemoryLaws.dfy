/** What service calls do to each other: which repetitions change nothing and what undoes what. */
module MemoryLaws {
  import opened Memory
  import opened MemoryInvariant
  import opened MemoryRuns
  import opened MemoryIsolation

  // ---------------------------------------------------------------- opening the personal space

  // No record of the time before spaces is left under the principal's name.
  ghost predicate NoLegacy(st: Store, p: Principal, sc: Scope) {
    forall id :: id in st.rows ==> !IsLegacy(st.rows[id], p, sc)
  }

  /** Opening the personal space moves every legacy record of the principal into it and leaves text and
      forgetting of every record as they were; opening it again changes nothing. */
  lemma OpeningMigratesAll(c: Config, w: World, p: Principal)
    requires Base(c, w)
    ensures var (w', sid) := PersonalSpace(c, w, p);
      && NoLegacy(w'.store, p, ScopeFor(c, p, sid, w'.repo.spaces[sid]))
      && w'.store.rows.Keys == w.store.rows.Keys
      && (forall id :: id in w.store.rows ==>
            && w'.store.rows[id].content == w.store.rows[id].content && w'.store.rows[id].forgotten == w.store.rows[id].forgotten
            && (w.store.rows[id].user != RawUser(p) ==> w'.store.rows[id] == w.store.rows[id]))
      && PersonalSpace(c, w', p) == (w', sid)
  {
    var (w', sid) := PersonalSpace(c, w, p);
    PersonalSpaceKeeps(c, w, p);
    PersonalFound(w'.repo, p);
    SettledOpens(c, w', p, sid);
  }

  // A personal space without legacy records opens without effect.
  lemma SettledOpens(c: Config, w: World, p: Principal, sid: nat)
    requires SpacesOk(w.repo) && IsPersonal(w.repo.spaces, p, sid)
    requires NoLegacy(w.store, p, ScopeFor(c, p, sid, w.repo.spaces[sid]))
    ensures PersonalSpace(c, w, p) == (w, sid)
  {
    PersonalFound(w.repo, p);
    var sc := ScopeFor(c, p, sid, w.repo.spaces[sid]);
    assert Migrate(w.store, p, sc).rows == w.store.rows;
  }

  lemma IngestLeavesNoLegacy(c: Config, w: World, p: Principal, sid: nat, content: string, ext: Option<Key>)
    requires Base(c, w) && IsPersonal(w.repo.spaces, p, sid)
    requires NoLegacy(w.store, p, ScopeOf(c, w.repo.spaces, sid))
    ensures NoLegacy(AddApproved(c, w, p, sid, content, ext).0.store, p, ScopeOf(c, w.repo.spaces, sid))
  {
    if Ingest(c, w, p, sid, content, ext, None, ext).Some? {
      var _, _ := IngestEffect(c, w, p, sid, content, ext, None, ext);
    }
  }

  // ---------------------------------------------------------------- proposals

  /** Proposing adds one pending proposal of the principal for each candidate, in order, with its text,
      and touches no other. */
  lemma {:induction false} ProposedArePending(r: Repo, sid: nat, p: Principal, contents: seq<string>, expires: int)
    requires forall i :: i in r.proposals ==> i < r.next
    ensures var r' := AddProposals(r, sid, p, contents, expires);
      && r' == r.(proposals := r'.proposals, next := r.next + |contents|)
      && (forall i :: i in r'.proposals <==> i in r.proposals || r.next <= i < r.next + |contents|)
      && (forall i :: i in r.proposals ==> r'.proposals[i] == r.proposals[i])
      && (forall k :: 0 <= k < |contents| ==>
            r'.proposals[r.next + k] == Proposal(sid, p, Some(contents[k]), Pending, expires))
    decreases |contents|
  {
    if contents != [] {
      var r1 := AddProposal(r, sid, p, contents[0], expires);
      ProposedArePending(r1, sid, p, contents[1..], expires);
      var r' := AddProposals(r, sid, p, contents, expires);
      forall k | 0 <= k < |contents|
        ensures r'.proposals[r.next + k] == Proposal(sid, p, Some(contents[k]), Pending, expires)
      {
        if k > 0 { assert contents[k] == contents[1..][k - 1] && r.next + k == r1.next + (k - 1); }
      }
    }
  }

  // ---------------------------------------------------------------- correct, forget, purge

  /** Correcting undoes forgetting: whatever was forgotten before, a correction leaves the same state, with
      the new text, active and not forgotten. */
  lemma CorrectUndoesForget(c: Config, w: World, p: Principal, i: nat, content: string)
    requires Correct(c, w, p, i, content).1.error.None?
    ensures var (w', reply) := Correct(c, w, p, i, content);
      && Correct(c, Forget(c, w, p, i).0, p, i, content) == (w', reply)
      && i in w'.repo.refs && w'.repo.refs[i].status.Active?
      && w'.repo.refs[i].record in w'.store.rows
      && w'.store.rows[w'.repo.refs[i].record].content == content && !w'.store.rows[w'.repo.refs[i].record].forgotten
  {
    var w1 := Forget(c, w, p, i).0;
    var (ref, sc) := Target(c, w, p, i).value;
    assert Target(c, w1, p, i) == Some((ref.(status := Forgotten), sc));
    var w2 := Correct(c, w1, p, i, content).0;
    var w' := Correct(c, w, p, i, content).0;
    assert w2.repo.refs == w'.repo.refs;
    assert w2.store.rows == w'.store.rows;
  }

  /** Purging after forgetting is purging: nothing of the forgetting remains. */
  lemma PurgeAbsorbsForget(c: Config, w: World, p: Principal, i: nat)
    requires Purge(c, w, p, i).1.error.None?
    ensures Purge(c, Forget(c, w, p, i).0, p, i) == Purge(c, w, p, i)
  {
    var w1 := Forget(c, w, p, i).0;
    var (ref, sc) := Target(c, w, p, i).value;
    assert Target(c, w1, p, i) == Some((ref.(status := Forgotten), sc));
    var w2, w' := Purge(c, w1, p, i).0, Purge(c, w, p, i).0;
    assert w2.repo.refs == w'.repo.refs;
    assert w2.store.rows == w'.store.rows;
  }

  // ---------------------------------------------------------------- games

  /** A game space is made once: asking for it again by name finds it. */
  lemma CreateGameOnce(w: World, p: Principal, s: Space)
    ensures var (w', reply) := CreateGame(w, p, true, s);
      reply.error.None? && FindGame(w'.repo.spaces, p, s.name).Some? && CreateGame(w', p, true, s) == (w', reply)
  {
    var w' := CreateGame(w, p, true, s).0;
    if FindGame(w.repo.spaces, p, s.name).None? {
      assert IsGame(w'.repo.spaces, p, s.name, w.repo.next);
    }
  }

  /** Sending an event again, with whatever text, stores nothing more and changes nothing. */
  lemma GameEventOnce(c: Config, w: World, p: Principal, sid: nat, k: Key, content: string, again: string)
    requires Base(c, w) && GameEvent(c, w, p, true, sid, k, content).1.error.None?
    ensures var w' := GameEvent(c, w, p, true, sid, k, content).0;
      GameEvent(c, w', p, true, sid, k, again) == (w', Done())
  {
    if FindExternal(w.repo.refs, p, sid, k).None? {
      var w' := GameEvent(c, w, p, true, sid, k, content).0;
      var id, n := IngestEffect(c, w, p, sid, content, Some(k), None, Some(k));
      GameEventKeeps(c, w, p, true, sid, k, content);
      assert IsRef(w'.repo.refs, sid, id, n);
      assert GetSpace(w'.repo, p, sid) == GetSpace(w.repo, p, sid);
    }
  }

  // ---------------------------------------------------------------- import

  // The personal space remembers the record of the item.
  ghost predicate Imported(c: Config, r: Repo, p: Principal, sid: nat, item: (string, Option<Key>)) {
    c.strip(item.0) == "" || (item.1.Some? && FindExternal(r.refs, p, sid, item.1.value).Some?)
  }

  lemma ImportedStays(c: Config, r: Repo, r': Repo, p: Principal, sid: nat, item: (string, Option<Key>))
    requires RefsGrow(r, r') && Imported(c, r, p, sid, item)
    ensures Imported(c, r', p, sid, item)
  {
    if c.strip(item.0) != "" {
      var i := FindExternal(r.refs, p, sid, item.1.value).value;
      assert IsExternal(r'.refs, p, sid, item.1.value, i);
    }
  }

  lemma StoredIsImported(c: Config, w: World, p: Principal, sid: nat, content: string, k: Key)
    requires Base(c, w) && IsPersonal(w.repo.spaces, p, sid) && !k.ProposalKey?
    requires FindExternal(w.repo.refs, p, sid, k).None? && AddApproved(c, w, p, sid, content, Some(k)).1.None?
    ensures FindExternal(AddApproved(c, w, p, sid, content, Some(k)).0.repo.refs, p, sid, k).Some?
  {
    var w' := AddApproved(c, w, p, sid, content, Some(k)).0;
    AddApprovedKeeps(c, w, p, sid, content, Some(k));
    var id, n := IngestEffect(c, w, p, sid, content, Some(k), None, Some(k));
    assert Remembered(c, w', sid, k) && Known(w', id);
    var i :| i in w'.repo.refs && w'.repo.refs[i].space == sid && w'.repo.refs[i].record == id && w'.repo.refs[i].external == Some(k);
    assert RefOk(c, w'.repo, w'.repo.refs[i]);
    assert IsExternal(w'.repo.refs, p, sid, k, i);
  }

  // Every item with text names its record, under an id that is no proposal's.
  predicate AllNamed(c: Config, items: seq<(string, Option<Key>)>) {
    forall item :: item in items && c.strip(item.0) != "" ==> item.1.Some? && !item.1.value.ProposalKey?
  }

  predicate AllBlank(c: Config, items: seq<(string, Option<Key>)>) {
    forall item :: item in items ==> c.strip(item.0) == ""
  }

  lemma {:induction false} BlankImports(c: Config, w: World, p: Principal, items: seq<(string, Option<Key>)>)
    requires AllBlank(c, items)
    ensures Import(c, w, p, items) == (w, Done())
    decreases |items|
  {
    if items != [] {
      assert items[0] in items && forall item :: item in items[1..] ==> item in items;
      BlankImports(c, w, p, items[1..]);
    }
  }

  // Unless every item is blank, an import opens the personal space first.
  lemma {:induction false} ImportOpens(c: Config, w: World, p: Principal, items: seq<(string, Option<Key>)>)
    requires Base(c, w) && !AllBlank(c, items)
    ensures Import(c, w, p, items) == Import(c, PersonalSpace(c, w, p).0, p, items)
    decreases |items|
  {
    OpeningMigratesAll(c, w, p);
    if c.strip(items[0].0) == "" {
      assert items == [items[0]] + items[1..];
      ImportOpens(c, w, p, items[1..]);
    }
  }

  // A personal space without legacy records.
  ghost predicate Settled(c: Config, w: World, p: Principal, sid: nat) {
    IsPersonal(w.repo.spaces, p, sid) && NoLegacy(w.store, p, ScopeOf(c, w.repo.spaces, sid))
  }

  lemma {:induction false} ImportRemembers(c: Config, w: World, p: Principal, sid: nat, items: seq<(string, Option<Key>)>)
    requires Base(c, w) && Settled(c, w, p, sid) && AllNamed(c, items) && Import(c, w, p, items).1.error.None?
    ensures var w' := Import(c, w, p, items).0;
      && Base(c, w') && Settled(c, w', p, sid) && RefsKept(w.repo, w'.repo)
      && forall item :: item in items ==> Imported(c, w'.repo, p, sid, item)
    decreases |items|
  {
    if items != [] {
      var item, rest := items[0], items[1..];
      var w1 := w;
      SettledOpens(c, w, p, sid);
      assert item in items && AllNamed(c, rest);
      if c.strip(item.0) != "" && FindExternal(w.repo.refs, p, sid, item.1.value).None? {
        w1 := AddApproved(c, w, p, sid, item.0, item.1).0;
        AddApprovedKeeps(c, w, p, sid, item.0, item.1);
        AddApprovedRefsKept(c, w, p, sid, item.0, item.1);
        IngestLeavesNoLegacy(c, w, p, sid, item.0, item.1);
        StoredIsImported(c, w, p, sid, item.0, item.1.value);
      }
      ImportRemembers(c, w1, p, sid, rest);
      var w' := Import(c, w1, p, rest).0;
      KeptTransitive(w.repo, w1.repo, w'.repo);
      ImportedStays(c, w1.repo, w'.repo, p, sid, item);
      forall other | other in items
        ensures Imported(c, w'.repo, p, sid, other)
      {
        if other != item { assert other in rest; }
      }
    }
  }

  lemma {:induction false} ImportSkips(c: Config, w: World, p: Principal, sid: nat, items: seq<(string, Option<Key>)>)
    requires SpacesOk(w.repo) && Settled(c, w, p, sid)
    requires forall item :: item in items ==> Imported(c, w.repo, p, sid, item)
    ensures Import(c, w, p, items) == (w, Done())
    decreases |items|
  {
    if items != [] {
      SettledOpens(c, w, p, sid);
      assert Imported(c, w.repo, p, sid, items[0]);
      ImportSkips(c, w, p, sid, items[1..]);
    }
  }

  // ---------------------------------------------------------------- spaces and references over runs

  lemma {:induction false} CaptureAllSpaces(c: Config, w: World, p: Principal, sid: nat, todo: seq<(string, string)>)
    requires sid in w.repo.spaces
    ensures CaptureAll(c, w, p, sid, todo).0.repo.spaces == w.repo.spaces
    decreases |todo|
  {
    if todo != [] {
      CaptureAllSpaces(c, w, p, sid, todo[1..]);
      CaptureAllSpaces(c, AddApproved(c, w, p, sid, todo[0].0, Some(AutoKey(sid, todo[0].1))).0, p, sid, todo[1..]);
    }
  }

  // A personal space stays one.
  ghost predicate SpacesStay(r: Repo, r': Repo) {
    forall i :: i in r.spaces ==> i in r'.spaces && r'.spaces[i] == r.spaces[i]
  }

  lemma {:induction false} ImportSpaces(c: Config, w: World, p: Principal, items: seq<(string, Option<Key>)>)
    requires Base(c, w)
    ensures SpacesStay(w.repo, Import(c, w, p, items).0.repo)
    decreases |items|
  {
    if items != [] {
      if c.strip(items[0].0) == "" {
        ImportSpaces(c, w, p, items[1..]);
      } else {
        PersonalSpaceKeeps(c, w, p);
        var (w1, sid) := PersonalSpace(c, w, p);
        if items[0].1.Some? && FindExternal(w1.repo.refs, p, sid, items[0].1.value).Some? {
          ImportSpaces(c, w1, p, items[1..]);
        } else {
          AddApprovedKeeps(c, w1, p, sid, items[0].0, items[0].1);
          ImportSpaces(c, AddApproved(c, w1, p, sid, items[0].0, items[0].1).0, p, items[1..]);
        }
      }
    }
  }

  lemma OpenedSpacesOk(c: Config, w: World, p: Principal)
    requires SpacesOk(w.repo)
    ensures SpacesOk(PersonalSpace(c, w, p).0.repo) && SpacesStay(w.repo, PersonalSpace(c, w, p).0.repo)
  {
    PersonalFound(w.repo, p);
    var r := PersonalSpace(c, w, p).0.repo;
    assert forall q, i: nat :: IsPersonal(r.spaces, q, i) && i != w.repo.next ==> IsPersonal(w.repo.spaces, q, i);
  }

  lemma StepSpaces(c: Config, w: World, call: Call)
    requires Base(c, w)
    ensures SpacesStay(w.repo, Step(c, w, call).0.repo)
  {
    OpenedSpacesOk(c, w, call.p);
    PersonalSpaceKeeps(c, w, call.p);
    var (w1, sid) := PersonalSpace(c, w, call.p);
    match call
    case Capturing(p, todo) => CaptureAllSpaces(c, w1, p, sid, todo);
    case Importing(p, items) => ImportSpaces(c, w, p, items);
    case Listing(p, order) => ClaimAllSpaces(w1, p, sid, order);
    case Proposing(p, contents, expires) => ProposedArePending(w1.repo, sid, p, contents, expires);
    case _ => OtherSpaces(c, w, call);
  }

  lemma OtherSpaces(c: Config, w: World, call: Call)
    requires SpacesOk(w.repo) && !call.Capturing? && !call.Importing? && !call.Listing? && !call.Proposing?
    ensures SpacesStay(w.repo, Step(c, w, call).0.repo)
  {
    if Opens(call) { OpensSpaces(c, w, call); }
    else if Stores(call) { StoresSpaces(c, w, call); }
  }

  lemma OpensSpaces(c: Config, w: World, call: Call)
    requires SpacesOk(w.repo) && Opens(call)
    ensures SpacesStay(w.repo, Step(c, w, call).0.repo)
  {
  }

  lemma StoresSpaces(c: Config, w: World, call: Call)
    requires SpacesOk(w.repo) && (call.Approving? || call.Adding? || call.GameHappening?)
    ensures SpacesStay(w.repo, Step(c, w, call).0.repo)
  {
    if call.Approving? { ApproveSpaces(c, w, call.p, call.proposal, call.edited, call.now); }
    else if call.Adding? { AddManualSpaces(c, w, call.p, call.content); }
  }

  lemma ApproveSpaces(c: Config, w: World, p: Principal, pid: nat, edited: string, now: int)
    ensures Approve(c, w, p, pid, edited, now).0.repo.spaces == w.repo.spaces
  {
  }

  lemma AddManualSpaces(c: Config, w: World, p: Principal, content: string)
    requires SpacesOk(w.repo)
    ensures SpacesStay(w.repo, AddManual(c, w, p, content).0.repo)
  {
    OpenedSpacesOk(c, w, p);
  }

  lemma {:induction false} RunGrows(c: Config, w: World, calls: seq<Call>)
    requires Base(c, w) && LegalRun(c, w, calls)
    ensures var w' := Exec(c, w, calls);
      Base(c, w') && RefsGrow(w.repo, w'.repo) && SpacesStay(w.repo, w'.repo)
    decreases |calls|
  {
    if calls != [] {
      StepKeeps(c, w, calls[0]);
      StepGrows(c, w, calls[0]);
      StepSpaces(c, w, calls[0]);
      var w1 := Step(c, w, calls[0]).0;
      RunGrows(c, w1, calls[1..]);
      var w' := Exec(c, w1, calls[1..]);
      forall i | i in w.repo.refs
        ensures i in w'.repo.refs && w'.repo.refs[i] == w.repo.refs[i].(status := w'.repo.refs[i].status)
      {
        assert i in w1.repo.refs;
      }
    }
  }

  // ---------------------------------------------------------------- retrying an import

  lemma ImportLeaves(c: Config, w: World, p: Principal, items: seq<(string, Option<Key>)>)
    requires Base(c, w) && AllNamed(c, items) && !AllBlank(c, items) && Import(c, w, p, items).1.error.None?
    ensures var (w', sid) := (Import(c, w, p, items).0, PersonalSpace(c, w, p).1);
      && Base(c, w') && IsPersonal(w'.repo.spaces, p, sid)
      && forall item :: item in items ==> Imported(c, w'.repo, p, sid, item)
  {
    var (w1, sid) := PersonalSpace(c, w, p);
    PersonalSpaceKeeps(c, w, p);
    OpeningMigratesAll(c, w, p);
    ImportOpens(c, w, p, items);
    ImportRemembers(c, w1, p, sid, items);
  }

  /** An import can be retried at any later time: when every record has an external id that is no
      proposal's, importing the same records again after a success and any further calls, forgetting and
      purging among them, does nothing but open the personal space. */
  lemma ImportRetried(c: Config, w: World, p: Principal, items: seq<(string, Option<Key>)>, calls: seq<Call>)
    requires Base(c, w) && AllNamed(c, items) && Import(c, w, p, items).1.error.None?
    requires LegalRun(c, Import(c, w, p, items).0, calls)
    ensures var later := Exec(c, Import(c, w, p, items).0, calls);
      var (again, reply) := Import(c, later, p, items);
      reply == Done() && again == if AllBlank(c, items) then later else PersonalSpace(c, later, p).0
  {
    var w' := Import(c, w, p, items).0;
    var later := Exec(c, w', calls);
    if AllBlank(c, items) {
      BlankImports(c, later, p, items);
    } else {
      var sid := PersonalSpace(c, w, p).1;
      ImportLeaves(c, w, p, items);
      RunGrows(c, w', calls);
      PersonalFound(later.repo, p);
      assert IsPersonal(later.repo.spaces, p, sid);
      var ready := PersonalSpace(c, later, p).0;
      PersonalSpaceKeeps(c, later, p);
      OpeningMigratesAll(c, later, p);
      ImportOpens(c, later, p, items);
      forall item | item in items
        ensures Imported(c, ready.repo, p, sid, item)
      {
        ImportedStays(c, w'.repo, ready.repo, p, sid, item);
      }
      ImportSkips(c, ready, p, sid, items);
    }
  }
}
