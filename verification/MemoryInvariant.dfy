/** What every state of the governed memory satisfies, and that every call keeps it. */
module MemoryInvariant {
  import opened Memory

  function ScopeOf(c: Config, spaces: map<nat, Space>, sid: nat): Scope
    requires sid in spaces
  {
    ScopeFor(c, spaces[sid].owner, sid, spaces[sid])
  }

  ghost predicate SpacesOk(r: Repo) {
    && (forall i :: i in r.spaces ==> i < r.next)
    && (forall i, p :: (i, p) in r.members <==> i in r.spaces && r.spaces[i].owner == p)
    && (forall i: nat, j: nat, p :: IsPersonal(r.spaces, p, i) && IsPersonal(r.spaces, p, j) ==> i == j)
  }

  predicate Owns(spaces: map<nat, Space>, p: Principal, sid: nat) {
    sid in spaces && spaces[sid].owner == p
  }

  ghost predicate ProposalsOk(r: Repo) {
    forall i :: i in r.proposals ==> i < r.next && IsPersonal(r.spaces, r.proposals[i].principal, r.proposals[i].space)
  }

  // A reference belongs to the owner of its space, and its record id says where it came from.
  predicate RefOk(c: Config, r: Repo, ref: Ref) {
    && Owns(r.spaces, ref.principal, ref.space)
    && (ref.external.Some? ==> ref.record == Stable(ScopeOf(c, r.spaces, ref.space), ref.external.value))
    && (ref.proposal.Some? ==>
          && ref.external.None?
          && ref.record == Stable(ScopeOf(c, r.spaces, ref.space), ProposalKey(ref.proposal.value))
          && ref.proposal.value in r.proposals && r.proposals[ref.proposal.value].space == ref.space
          && r.proposals[ref.proposal.value].state.Approved?
          && (ref.status.Purged? ==> r.proposals[ref.proposal.value].content.None?))
  }

  ghost predicate RefsOk(c: Config, r: Repo) {
    forall i :: i in r.refs ==> i < r.next && RefOk(c, r, r.refs[i])
  }

  // The unique index over (space, provider record).
  ghost predicate UniqueRecords(r: Repo) {
    forall i, j :: i in r.refs && j in r.refs && SameRecord(r.refs[i], r.refs[j]) ==> i == j
  }

  // The unique index over (space, external id).
  ghost predicate UniqueExternals(r: Repo) {
    forall i, j :: i in r.refs && j in r.refs && SameExternal(r.refs[i], r.refs[j]) ==> i == j
  }

  predicate SameRecord(a: Ref, b: Ref) {
    a.space == b.space && a.record == b.record
  }

  predicate SameExternal(a: Ref, b: Ref) {
    a.space == b.space && a.external.Some? && a.external == b.external
  }

  // An id that was stored at some time.
  ghost predicate Known(w: World, id: RecordId) {
    id in w.store.rows || exists i :: i in w.repo.refs && w.repo.refs[i].record == id
  }

  predicate IdOk(w: World, id: RecordId) {
    match id
    case Random(n) => n < w.store.next
    case Stable(sc, _) => sc.workspace.SpaceLabel? ==> sc.workspace.space < w.repo.next
  }

  ghost predicate IdsOk(w: World) {
    forall id :: Known(w, id) ==> IdOk(w, id)
  }

  // What a personal reference that is not purged says about its record.
  predicate Indexed(c: Config, w: World, ref: Ref) {
    ref.space in w.repo.spaces && w.repo.spaces[ref.space].kind.Personal? && !ref.status.Purged? ==>
      && Has(w.store, ScopeOf(c, w.repo.spaces, ref.space), ref.record)
      && (ref.status.Forgotten? ==> w.store.rows[ref.record].forgotten)
  }

  ghost predicate IndexOk(c: Config, w: World) {
    forall i :: i in w.repo.refs ==> Indexed(c, w, w.repo.refs[i])
  }

  // A reference in space `sid` that remembers the key.
  ghost predicate HasHome(r: Repo, sid: nat, id: RecordId, k: Key) {
    exists i :: i in r.refs && r.refs[i].space == sid && r.refs[i].record == id && r.refs[i].external == Some(k)
  }

  // Whatever was ever stored in a personal space under an external id is still remembered there.
  ghost predicate HomesOk(c: Config, w: World) {
    forall sid, k: Key :: sid in w.repo.spaces && w.repo.spaces[sid].kind.Personal? && !k.ProposalKey? ==> Remembered(c, w, sid, k)
  }

  ghost predicate Remembered(c: Config, w: World, sid: nat, k: Key)
    requires sid in w.repo.spaces
  {
    var id := Stable(ScopeOf(c, w.repo.spaces, sid), k);
    Known(w, id) ==> HasHome(w.repo, sid, id, k)
  }

  predicate BridgeOk(c: Config, r: Repo, b: Bridge) {
    && c.bridgesEnabled
    && Owns(r.spaces, b.principal, b.source) && Owns(r.spaces, b.principal, b.target)
    && (r.spaces[b.source].kind, r.spaces[b.target].kind) in c.allowlist
  }

  ghost predicate BridgesOk(c: Config, r: Repo) {
    && (forall b :: b in r.bridges ==> BridgeOk(c, r, b))
    && (forall i, j :: 0 <= i < j < |r.bridges| ==> !SameEnds(r.bridges[i], r.bridges[j]))
  }

  ghost predicate Base(c: Config, w: World) {
    && SpacesOk(w.repo) && ProposalsOk(w.repo)
    && RefsOk(c, w.repo) && UniqueRecords(w.repo)
    && IdsOk(w) && IndexOk(c, w) && HomesOk(c, w) && BridgesOk(c, w.repo)
  }

  /** A fresh repository beside a store that may hold records of the time before spaces. */
  ghost predicate Fresh(w: World) {
    && w.repo.spaces == map[] && w.repo.members == {} && w.repo.proposals == map[] && w.repo.refs == map[]
    && w.repo.bridges == []
    && (forall id :: id in w.store.rows ==> id.Random? && id.n < w.store.next && w.store.rows[id].user.RawUser?)
  }

  lemma FreshIsBase(c: Config, w: World)
    requires Fresh(w)
    ensures Base(c, w)
  {
  }

  // ---------------------------------------------------------------- growth

  // References are only added, and only their status changes.
  ghost predicate RefsGrow(r: Repo, r': Repo) {
    forall i :: i in r.refs ==> i in r'.refs && r'.refs[i] == r.refs[i].(status := r'.refs[i].status)
  }

  // References are only added.
  ghost predicate RefsKept(r: Repo, r': Repo) {
    forall i :: i in r.refs ==> i in r'.refs && r'.refs[i] == r.refs[i]
  }

  ghost predicate SpacesGrow(r: Repo, r': Repo) {
    && r.next <= r'.next
    && (forall i :: i in r.spaces ==> i in r'.spaces && r'.spaces[i] == r.spaces[i])
  }

  lemma HomesGrow(r: Repo, r': Repo, sid: nat, id: RecordId, k: Key)
    requires RefsGrow(r, r') && HasHome(r, sid, id, k)
    ensures HasHome(r', sid, id, k)
  {
    var i :| i in r.refs && r.refs[i].space == sid && r.refs[i].record == id && r.refs[i].external == Some(k);
    assert i in r'.refs;
  }

  // ---------------------------------------------------------------- spaces

  lemma PersonalFound(r: Repo, p: Principal)
    requires SpacesOk(r)
    ensures FindPersonal(r.spaces, p).Some? ==> IsPersonal(r.spaces, p, FindPersonal(r.spaces, p).value)
    ensures forall i: nat :: IsPersonal(r.spaces, p, i) ==> FindPersonal(r.spaces, p) == Some(i)
  {
  }

  lemma NewSpaceKeeps(c: Config, w: World, s: Space)
    requires Base(c, w)
    requires s.kind.Personal? ==> FindPersonal(w.repo.spaces, s.owner).None?
    ensures Base(c, w.(repo := NewSpace(w.repo, s)))
  {
    var w' := w.(repo := NewSpace(w.repo, s));
    assert w'.repo.refs == w.repo.refs;
    assert forall id :: Known(w', id) <==> Known(w, id);
    forall sid, k: Key | sid in w'.repo.spaces && w'.repo.spaces[sid].kind.Personal? && !k.ProposalKey?
      ensures Remembered(c, w', sid, k)
    {
      var id := Stable(ScopeOf(c, w'.repo.spaces, sid), k);
      assert Known(w, id) ==> IdOk(w, id);
      if Known(w', id) {
        if sid != w.repo.next {
          assert Remembered(c, w, sid, k);
          HomesGrow(w.repo, w'.repo, sid, id, k);
        }
      }
    }
    assert forall p, i: nat :: IsPersonal(w'.repo.spaces, p, i) && i != w.repo.next ==> IsPersonal(w.repo.spaces, p, i);
    assert SpacesOk(w'.repo);
    assert RefsOk(c, w'.repo);
    assert IndexOk(c, w');
    assert BridgesOk(c, w'.repo);
  }

  // ---------------------------------------------------------------- migration

  lemma MigrateKeeps(c: Config, w: World, p: Principal, sid: nat)
    requires Base(c, w) && IsPersonal(w.repo.spaces, p, sid)
    ensures Base(c, w.(store := Migrate(w.store, p, ScopeOf(c, w.repo.spaces, sid))))
  {
    var w' := w.(store := Migrate(w.store, p, ScopeOf(c, w.repo.spaces, sid)));
    assert forall id :: Known(w', id) <==> Known(w, id);
    forall i | i in w'.repo.refs
      ensures Indexed(c, w', w'.repo.refs[i])
    {
      assert Indexed(c, w, w.repo.refs[i]);
    }
    HomesStay(c, w, w');
  }

  // Homes survive when no new id becomes known and references only grow.
  lemma HomesStay(c: Config, w: World, w': World)
    requires HomesOk(c, w) && w'.repo.spaces == w.repo.spaces && RefsGrow(w.repo, w'.repo)
    requires forall id :: Known(w', id) ==> Known(w, id)
    ensures HomesOk(c, w')
  {
    forall sid, k: Key | sid in w'.repo.spaces && w'.repo.spaces[sid].kind.Personal? && !k.ProposalKey?
      ensures Remembered(c, w', sid, k)
    {
      assert Remembered(c, w, sid, k);
      var id := Stable(ScopeOf(c, w.repo.spaces, sid), k);
      if Known(w', id) { HomesGrow(w.repo, w'.repo, sid, id, k); }
    }
  }

  lemma PersonalSpaceKeeps(c: Config, w: World, p: Principal)
    requires Base(c, w)
    ensures var (w', sid) := PersonalSpace(c, w, p);
      && Base(c, w') && IsPersonal(w'.repo.spaces, p, sid)
      && w'.repo.refs == w.repo.refs && w'.repo.proposals == w.repo.proposals && SpacesGrow(w.repo, w'.repo)
  {
    PersonalFound(w.repo, p);
    var (r, sid) := EnsurePersonal(c.namespace, w.repo, p);
    if FindPersonal(w.repo.spaces, p).None? {
      NewSpaceKeeps(c, w, Space(Personal, p, "Personal", c.namespace, "", "", ""));
    }
    MigrateKeeps(c, w.(repo := r), p, sid);
  }

  // ---------------------------------------------------------------- proposals

  // A proposal that is not approved may change freely, an approved one may only lose its text.
  ghost predicate ProposalsMove(r: Repo, r': Repo) {
    && (forall i :: i in r.proposals ==>
          && i in r'.proposals
          && r'.proposals[i].space == r.proposals[i].space && r'.proposals[i].principal == r.proposals[i].principal
          && (r.proposals[i].state.Approved? ==> StaysApproved(r.proposals[i], r'.proposals[i])))
    && (forall i :: i in r'.proposals && i !in r.proposals ==> r.next <= i < r'.next)
  }

  predicate StaysApproved(a: Proposal, b: Proposal) {
    b.state.Approved? && (b.content == a.content || b.content.None?)
  }

  lemma ProposalsKeep(c: Config, w: World, r': Repo)
    requires Base(c, w) && ProposalsMove(w.repo, r') && w.repo.next <= r'.next
    requires r' == w.repo.(proposals := r'.proposals, next := r'.next)
    requires forall i :: i in r'.proposals && i !in w.repo.proposals ==>
      IsPersonal(r'.spaces, r'.proposals[i].principal, r'.proposals[i].space)
    ensures Base(c, w.(repo := r'))
  {
    var w' := w.(repo := r');
    assert forall id :: Known(w', id) <==> Known(w, id);
    HomesStay(c, w, w');
    forall i | i in r'.refs
      ensures RefOk(c, r', r'.refs[i]) && Indexed(c, w', r'.refs[i])
    {
      assert RefOk(c, w.repo, w.repo.refs[i]) && Indexed(c, w, w.repo.refs[i]);
    }
  }

  // ---------------------------------------------------------------- storing

  // The three ways the service stores a record: without an id, for an approved proposal, or under an
  // external id it has not seen in the space.
  ghost predicate StoreForm(r: Repo, p: Principal, sid: nat, key: Option<Key>, pid: Option<nat>, ext: Option<Key>) {
    || (key.None? && pid.None? && ext.None?)
    || (pid.Some? && key == Some(ProposalKey(pid.value)) && ext.None?
          && pid.value in r.proposals && r.proposals[pid.value].state.Approved? && r.proposals[pid.value].space == sid)
    || (ext.Some? && key == ext && pid.None? && FindExternal(r.refs, p, sid, ext.value).None?)
  }

  lemma AddRefGrows(r: Repo, sid: nat, p: Principal, id: RecordId, pid: Option<nat>, ext: Option<Key>)
    requires forall i :: i in r.refs ==> i < r.next
    ensures var (r', i) := AddRef(r, sid, p, id, pid, ext);
      && RefsKept(r, r') && r' == r.(refs := r'.refs, next := r'.next) && r.next <= r'.next <= r.next + 1
      && i in r'.refs && r'.refs[i].space == sid && r'.refs[i].record == id
      && (forall j :: j in r'.refs ==> (j in r.refs && r'.refs[j] == r.refs[j]) || j == i)
      && (i !in r.refs ==> r'.refs[i] == Ref(sid, p, id, pid, ext, Active) && i < r'.next)
      && (i !in r.refs <==> FindRef(r.refs, sid, id).None?)
  {
  }

  lemma AddRefUnique(r: Repo, sid: nat, p: Principal, id: RecordId, pid: Option<nat>, ext: Option<Key>)
    requires UniqueRecords(r) && (forall i :: i in r.refs ==> i < r.next)
    ensures UniqueRecords(AddRef(r, sid, p, id, pid, ext).0)
  {
    AddRefGrows(r, sid, p, id, pid, ext);
    if FindRef(r.refs, sid, id).None? {
      assert forall i: nat :: i in r.refs ==> !IsRef(r.refs, sid, id, i);
    }
  }

  // A personal space shares its scope with no other space.
  lemma PersonalScopeIsOwn(c: Config, r: Repo, sid: nat, other: nat)
    requires sid in r.spaces && other in r.spaces && r.spaces[sid].kind.Personal?
    requires ScopeOf(c, r.spaces, sid).workspace == ScopeOf(c, r.spaces, other).workspace
    ensures sid == other
  {
  }

  // The row and the reference a stored record leaves behind.
  lemma IngestEffect(c: Config, w: World, p: Principal, sid: nat, content: string, key: Option<Key>, pid: Option<nat>, ext: Option<Key>)
      returns (id: RecordId, n: nat)
    requires Base(c, w) && Owns(w.repo.spaces, p, sid)
    requires Ingest(c, w, p, sid, content, key, pid, ext).Some?
    ensures var w' := Ingest(c, w, p, sid, content, key, pid, ext).value;
      var sc := ScopeOf(c, w.repo.spaces, sid);
      && AddRow(w.store, sc, content, key) == Some((w'.store, id))
      && AddRef(w.repo, sid, p, id, pid, ext) == (w'.repo, n)
      && id == (if key.None? then Random(w.store.next) else Stable(sc, key.value))
      && Has(w'.store, sc, id) && w.store.next <= w'.store.next && (key.None? ==> w'.store.next == w.store.next + 1)
      && (forall o :: o in w.store.rows ==> o in w'.store.rows && w'.store.rows[o] == w.store.rows[o])
      && (forall o :: o in w'.store.rows && o !in w.store.rows ==> o == id)
      && RefsKept(w.repo, w'.repo)
      && w'.repo == w.repo.(refs := w'.repo.refs, next := w'.repo.next) && w.repo.next <= w'.repo.next
      && n in w'.repo.refs && w'.repo.refs[n].space == sid && w'.repo.refs[n].record == id
      && (forall j :: j in w'.repo.refs ==> (j in w.repo.refs && w'.repo.refs[j] == w.repo.refs[j]) || j == n)
      && (n !in w.repo.refs ==> w'.repo.refs[n] == Ref(sid, p, id, pid, ext, Active) && n < w'.repo.next)
      && (n !in w.repo.refs <==> FindRef(w.repo.refs, sid, id).None?)
  {
    var sc := ScopeOf(c, w.repo.spaces, sid);
    id := AddRow(w.store, sc, content, key).value.1;
    n := AddRef(w.repo, sid, p, id, pid, ext).1;
    AddRefGrows(w.repo, sid, p, id, pid, ext);
    assert forall n: nat :: Random(n) in w.store.rows ==> Known(w, Random(n)) && IdOk(w, Random(n));
    RowsAfterAdd(w.store, sc, content, key);
  }

  lemma IngestKeeps(c: Config, w: World, p: Principal, sid: nat, content: string, key: Option<Key>, pid: Option<nat>, ext: Option<Key>)
    requires Base(c, w) && Owns(w.repo.spaces, p, sid) && StoreForm(w.repo, p, sid, key, pid, ext)
    requires Ingest(c, w, p, sid, content, key, pid, ext).Some?
    ensures Base(c, Ingest(c, w, p, sid, content, key, pid, ext).value)
  {
    var w' := Ingest(c, w, p, sid, content, key, pid, ext).value;
    var id, n := IngestEffect(c, w, p, sid, content, key, pid, ext);
    AddRefUnique(w.repo, sid, p, id, pid, ext);
    NewRefKeeps(c, w, w', n);
    forall other | Known(w', other)
      ensures Known(w, other) || other == id
      ensures IdOk(w', other)
    {
      if other != id { assert Known(w, other) && IdOk(w, other); }
    }
    HomesAfterIngest(c, w, w', p, sid, id, n, key, pid, ext);
  }

  // One more reference over a store that only grew.
  lemma NewRefKeeps(c: Config, w: World, w': World, n: nat)
    requires RefsOk(c, w.repo) && IndexOk(c, w)
    requires w'.repo == w.repo.(refs := w'.repo.refs, next := w'.repo.next) && w.repo.next <= w'.repo.next
    requires forall o :: o in w.store.rows ==> o in w'.store.rows && w'.store.rows[o] == w.store.rows[o]
    requires forall j :: j in w'.repo.refs ==> (j in w.repo.refs && w'.repo.refs[j] == w.repo.refs[j]) || j == n
    requires n in w'.repo.refs && (n in w.repo.refs ==> w'.repo.refs[n] == w.repo.refs[n])
    requires n !in w.repo.refs ==> n < w'.repo.next && RefOk(c, w.repo, w'.repo.refs[n]) && Indexed(c, w', w'.repo.refs[n])
    ensures RefsOk(c, w'.repo) && IndexOk(c, w')
  {
    forall i | i in w'.repo.refs
      ensures i < w'.repo.next && RefOk(c, w'.repo, w'.repo.refs[i]) && Indexed(c, w', w'.repo.refs[i])
    {
      if i in w.repo.refs {
        assert RefOk(c, w.repo, w.repo.refs[i]) && Indexed(c, w, w.repo.refs[i]);
      }
    }
  }

  lemma RowsAfterAdd(st: Store, sc: Scope, content: string, key: Option<Key>)
    requires AddRow(st, sc, content, key).Some?
    requires forall n: nat :: Random(n) in st.rows ==> n < st.next
    ensures var (st', id) := AddRow(st, sc, content, key).value;
      && Has(st', sc, id) && st.next <= st'.next
      && (forall o :: o in st.rows ==> o in st'.rows && st'.rows[o] == st.rows[o])
      && (forall o :: o in st'.rows && o !in st.rows ==> o == id)
      && id == (if key.None? then Random(st.next) else Stable(sc, key.value))
      && (key.None? ==> st'.next == st.next + 1)
  {
  }

  lemma HomesAfterIngest(c: Config, w: World, w': World, p: Principal, sid: nat, id: RecordId, n: nat,
                         key: Option<Key>, pid: Option<nat>, ext: Option<Key>)
    requires Base(c, w) && Owns(w.repo.spaces, p, sid) && StoreForm(w.repo, p, sid, key, pid, ext)
    requires w'.repo.spaces == w.repo.spaces && RefsGrow(w.repo, w'.repo)
    requires forall other :: Known(w', other) ==> Known(w, other) || other == id
    requires key.Some? ==> id == Stable(ScopeOf(c, w.repo.spaces, sid), key.value)
    requires key.None? ==> id.Random?
    requires n in w'.repo.refs && w'.repo.refs[n].space == sid && w'.repo.refs[n].record == id
    requires FindRef(w.repo.refs, sid, id).None? ==> w'.repo.refs[n].external == ext
    ensures HomesOk(c, w')
  {
    forall s, k: Key | s in w'.repo.spaces && w'.repo.spaces[s].kind.Personal? && !k.ProposalKey?
      ensures Remembered(c, w', s, k)
    {
      var home := Stable(ScopeOf(c, w.repo.spaces, s), k);
      assert Remembered(c, w, s, k);
      if Known(w, home) {
        HomesGrow(w.repo, w'.repo, s, home, k);
      } else if Known(w', home) {
        assert home == id;
        PersonalScopeIsOwn(c, w.repo, s, sid);
        assert ext == Some(k);
        assert FindRef(w.repo.refs, sid, id).None?;
        assert w'.repo.refs[n].external == Some(k);
      }
    }
  }

  // add_record_ref for a record already in the personal partition, as records() does it.
  lemma ClaimKeeps(c: Config, w: World, p: Principal, sid: nat, id: RecordId)
    requires Base(c, w) && IsPersonal(w.repo.spaces, p, sid)
    requires Has(w.store, ScopeOf(c, w.repo.spaces, sid), id)
    ensures Base(c, w.(repo := AddRef(w.repo, sid, p, id, None, None).0))
  {
    var (r', n) := AddRef(w.repo, sid, p, id, None, None);
    var w' := w.(repo := r');
    AddRefGrows(w.repo, sid, p, id, None, None);
    AddRefUnique(w.repo, sid, p, id, None, None);
    forall i | i in r'.refs
      ensures RefOk(c, r', r'.refs[i]) && Indexed(c, w', r'.refs[i])
    {
      if i in w.repo.refs {
        assert RefOk(c, w.repo, w.repo.refs[i]) && Indexed(c, w, w.repo.refs[i]);
      }
    }
    forall other | Known(w', other)
      ensures Known(w, other) && IdOk(w', other)
    {
      assert Known(w, other);
      assert IdOk(w, other);
    }
    HomesStay(c, w, w');
  }

  // ---------------------------------------------------------------- correct, forget, purge

  lemma TargetOf(c: Config, w: World, p: Principal, i: nat)
    requires Base(c, w) && Target(c, w, p, i).Some?
    ensures var (ref, sc) := Target(c, w, p, i).value;
      && i in w.repo.refs && ref == w.repo.refs[i] && ref.principal == p
      && Owns(w.repo.spaces, p, ref.space) && sc == ScopeOf(c, w.repo.spaces, ref.space)
  {
  }

  // Inside a partition a record has one reference of a personal space.
  lemma OnlyReference(c: Config, w: World, i: nat, j: nat)
    requires Base(c, w) && i in w.repo.refs && j in w.repo.refs
    requires w.repo.refs[i].record == w.repo.refs[j].record
    requires w.repo.refs[i].space in w.repo.spaces
    requires Has(w.store, ScopeOf(c, w.repo.spaces, w.repo.refs[i].space), w.repo.refs[i].record)
    requires w.repo.refs[j].space in w.repo.spaces && w.repo.spaces[w.repo.refs[j].space].kind.Personal?
    requires !w.repo.refs[j].status.Purged?
    ensures i == j
  {
    assert Indexed(c, w, w.repo.refs[j]);
    PersonalScopeIsOwn(c, w.repo, w.repo.refs[j].space, w.repo.refs[i].space);
    assert SameRecord(w.repo.refs[i], w.repo.refs[j]);
  }

  // A change of one reference's status, of its record's row and of its proposal's text.
  ghost predicate StatusChange(c: Config, w: World, w': World, p: Principal, i: nat) {
    && Target(c, w, p, i).Some?
    && var (ref, sc) := Target(c, w, p, i).value;
      && Has(w.store, sc, ref.record)
      && i in w'.repo.refs && w'.repo.refs == w.repo.refs[i := ref.(status := w'.repo.refs[i].status)]
      && (forall id :: id != ref.record ==> (id in w.store.rows <==> id in w'.store.rows))
      && (forall id :: id != ref.record && id in w.store.rows ==> w'.store.rows[id] == w.store.rows[id])
      && (match w'.repo.refs[i].status
          case Purged => ref.record !in w'.store.rows
          case Active => Has(w'.store, sc, ref.record)
          case Forgotten => Has(w'.store, sc, ref.record) && w'.store.rows[ref.record].forgotten)
      && (w'.repo.refs[i].status.Purged? && ref.proposal.Some? && ref.proposal.value in w'.repo.proposals ==>
            w'.repo.proposals[ref.proposal.value].content.None?)
      && w'.repo == w.repo.(refs := w'.repo.refs, proposals := w'.repo.proposals) && w'.store.next == w.store.next
      && ProposalsMove(w.repo, w'.repo)
  }

  lemma StatusKeeps(c: Config, w: World, w': World, p: Principal, i: nat)
    requires Base(c, w) && StatusChange(c, w, w', p, i)
    ensures Base(c, w')
  {
    TargetOf(c, w, p, i);
    assert forall id :: Known(w', id) ==> Known(w, id);
    assert HomesOk(c, w') by { HomesStay(c, w, w'); }
    assert UniqueRecords(w'.repo) by { StatusUnique(w.repo, w'.repo); }
    StatusRefsOk(c, w, w', p, i);
  }

  lemma StatusRefsOk(c: Config, w: World, w': World, p: Principal, i: nat)
    requires Base(c, w) && StatusChange(c, w, w', p, i)
    ensures RefsOk(c, w'.repo) && IndexOk(c, w')
  {
    var (ref, sc) := Target(c, w, p, i).value;
    TargetOf(c, w, p, i);
    forall j | j in w'.repo.refs
      ensures RefOk(c, w'.repo, w'.repo.refs[j]) && Indexed(c, w', w'.repo.refs[j])
    {
      assert RefOk(c, w.repo, w.repo.refs[j]) && Indexed(c, w, w.repo.refs[j]);
      if j != i && w.repo.refs[j].record == ref.record && w.repo.spaces[w.repo.refs[j].space].kind.Personal?
         && !w.repo.refs[j].status.Purged? {
        OnlyReference(c, w, i, j);
      }
    }
  }

  lemma StatusUnique(r: Repo, r': Repo)
    requires UniqueRecords(r) && r'.refs.Keys == r.refs.Keys && RefsGrow(r, r')
    ensures UniqueRecords(r')
  {
    forall a, b | a in r'.refs && b in r'.refs && SameRecord(r'.refs[a], r'.refs[b])
      ensures a == b
    {
      assert SameRecord(r.refs[a], r.refs[b]);
    }
  }

  lemma CorrectKeeps(c: Config, w: World, p: Principal, i: nat, content: string)
    requires Base(c, w)
    ensures Base(c, Correct(c, w, p, i, content).0)
  {
    var w' := Correct(c, w, p, i, content).0;
    if w' != w { TargetOf(c, w, p, i); StatusKeeps(c, w, w', p, i); }
  }

  lemma ForgetKeeps(c: Config, w: World, p: Principal, i: nat)
    requires Base(c, w)
    ensures Base(c, Forget(c, w, p, i).0)
  {
    var w' := Forget(c, w, p, i).0;
    if w' != w { TargetOf(c, w, p, i); StatusKeeps(c, w, w', p, i); }
  }

  lemma PurgeKeeps(c: Config, w: World, p: Principal, i: nat)
    requires Base(c, w)
    ensures Base(c, Purge(c, w, p, i).0)
  {
    var w' := Purge(c, w, p, i).0;
    if w' != w { TargetOf(c, w, p, i); StatusKeeps(c, w, w', p, i); }
  }

  // ---------------------------------------------------------------- service calls

  // Approving is storing for a proposal that is already approved: the two halves do not meet.
  lemma ApproveIsIngest(c: Config, w: World, p: Principal, pid: nat, content: string, r2: Repo)
    requires Base(c, w) && pid in w.repo.proposals && w.repo.proposals[pid].space in w.repo.spaces
    requires Transition(w.repo, p, pid, Approved, Some(content)) == Some(r2)
    ensures var sid := w.repo.proposals[pid].space;
      var plain := Ingest(c, w, p, sid, content, Some(ProposalKey(pid)), Some(pid), None);
      var after := Ingest(c, w.(repo := r2), p, sid, content, Some(ProposalKey(pid)), Some(pid), None);
      && (plain.Some? <==> after.Some?)
      && (plain.Some? ==> Transition(plain.value.repo, p, pid, Approved, Some(content)) == Some(after.value.repo)
                          && plain.value.store == after.value.store)
  {
  }

  lemma TransitionKeeps(c: Config, w: World, p: Principal, pid: nat, to: ProposalState, content: Option<string>)
    requires Base(c, w) && Transition(w.repo, p, pid, to, content).Some?
    ensures Base(c, w.(repo := Transition(w.repo, p, pid, to, content).value))
  {
    ProposalsKeep(c, w, Transition(w.repo, p, pid, to, content).value);
  }

  lemma ApproveKeeps(c: Config, w: World, p: Principal, pid: nat, edited: string, now: int)
    requires Base(c, w)
    ensures Base(c, Approve(c, w, p, pid, edited, now).0)
  {
    var w' := Approve(c, w, p, pid, edited, now).0;
    if w' != w {
      var item := w.repo.proposals[pid];
      if item.expires <= now {
        TransitionKeeps(c, w, p, pid, Expired, None);
      } else {
        var content := c.strip(if edited != "" then edited else item.content.value);
        var r2 := Transition(w.repo, p, pid, Approved, Some(content)).value;
        TransitionKeeps(c, w, p, pid, Approved, Some(content));
        ApproveIsIngest(c, w, p, pid, content, r2);
        IngestKeeps(c, w.(repo := r2), p, item.space, content, Some(ProposalKey(pid)), Some(pid), None);
      }
    }
  }

  lemma RejectKeeps(c: Config, w: World, p: Principal, pid: nat)
    requires Base(c, w)
    ensures Base(c, Reject(w, p, pid).0)
  {
    if Transition(w.repo, p, pid, Rejected, None).Some? { TransitionKeeps(c, w, p, pid, Rejected, None); }
  }

  lemma SweepKeeps(c: Config, w: World, now: int)
    requires Base(c, w)
    ensures Base(c, w.(repo := ExpireAll(w.repo, now)))
  {
    ProposalsKeep(c, w, ExpireAll(w.repo, now));
  }

  lemma {:induction false} AddProposalsMoves(r: Repo, sid: nat, p: Principal, contents: seq<string>, expires: int)
    requires forall i :: i in r.proposals ==> i < r.next
    ensures var r' := AddProposals(r, sid, p, contents, expires);
      && ProposalsMove(r, r') && r' == r.(proposals := r'.proposals, next := r'.next) && r.next <= r'.next
      && forall i :: i in r'.proposals && i !in r.proposals ==> r'.proposals[i].space == sid && r'.proposals[i].principal == p
    decreases |contents|
  {
    if contents != [] {
      AddProposalsMoves(AddProposal(r, sid, p, contents[0], expires), sid, p, contents[1..], expires);
    }
  }

  lemma ProposeKeeps(c: Config, w: World, p: Principal, contents: seq<string>, expires: int)
    requires Base(c, w)
    ensures Base(c, Propose(c, w, p, contents, expires))
  {
    PersonalSpaceKeeps(c, w, p);
    var (w1, sid) := PersonalSpace(c, w, p);
    AddProposalsMoves(w1.repo, sid, p, contents, expires);
    ProposalsKeep(c, w1, AddProposals(w1.repo, sid, p, contents, expires));
  }

  // An external id of a purged record is stored again: the reference is there already.
  lemma StoreAgainKeeps(c: Config, w: World, p: Principal, sid: nat, content: string, ext: Key)
    requires Base(c, w) && Owns(w.repo.spaces, p, sid) && FindExternal(w.repo.refs, p, sid, ext).Some?
    requires Ingest(c, w, p, sid, content, Some(ext), None, Some(ext)).Some?
    ensures Base(c, Ingest(c, w, p, sid, content, Some(ext), None, Some(ext)).value)
  {
    var w' := Ingest(c, w, p, sid, content, Some(ext), None, Some(ext)).value;
    var i := FindExternal(w.repo.refs, p, sid, ext).value;
    var id, n := IngestEffect(c, w, p, sid, content, Some(ext), None, Some(ext));
    assert RefOk(c, w.repo, w.repo.refs[i]) && IsRef(w.repo.refs, sid, id, i);
    assert Known(w, id) && forall o :: Known(w', o) <==> Known(w, o);
    HomesStay(c, w, w');
    NewRefKeeps(c, w, w', n);
  }

  lemma AddApprovedKeeps(c: Config, w: World, p: Principal, sid: nat, content: string, ext: Option<Key>)
    requires Base(c, w) && Owns(w.repo.spaces, p, sid)
    ensures var w' := AddApproved(c, w, p, sid, content, ext).0;
      Base(c, w') && w'.repo.spaces == w.repo.spaces
  {
    var w' := AddApproved(c, w, p, sid, content, ext).0;
    if w' != w {
      if ext.Some? && FindExternal(w.repo.refs, p, sid, ext.value).Some? { StoreAgainKeeps(c, w, p, sid, content, ext.value); }
      else { IngestKeeps(c, w, p, sid, content, ext, None, ext); }
    }
  }

  lemma {:induction false} CaptureAllKeeps(c: Config, w: World, p: Principal, sid: nat, todo: seq<(string, string)>)
    requires Base(c, w) && Owns(w.repo.spaces, p, sid)
    ensures Base(c, CaptureAll(c, w, p, sid, todo).0)
    decreases |todo|
  {
    if todo != [] {
      var key := AutoKey(sid, todo[0].1);
      if FindExternal(w.repo.refs, p, sid, key).Some? {
        CaptureAllKeeps(c, w, p, sid, todo[1..]);
      } else {
        AddApprovedKeeps(c, w, p, sid, todo[0].0, Some(key));
        CaptureAllKeeps(c, AddApproved(c, w, p, sid, todo[0].0, Some(key)).0, p, sid, todo[1..]);
      }
    }
  }

  lemma {:induction false} ImportKeeps(c: Config, w: World, p: Principal, items: seq<(string, Option<Key>)>)
    requires Base(c, w)
    ensures Base(c, Import(c, w, p, items).0)
    decreases |items|
  {
    if items != [] {
      if c.strip(items[0].0) == "" {
        ImportKeeps(c, w, p, items[1..]);
      } else {
        PersonalSpaceKeeps(c, w, p);
        var (w1, sid) := PersonalSpace(c, w, p);
        if items[0].1.Some? && FindExternal(w1.repo.refs, p, sid, items[0].1.value).Some? {
          ImportKeeps(c, w1, p, items[1..]);
        } else {
          AddApprovedKeeps(c, w1, p, sid, items[0].0, items[0].1);
          ImportKeeps(c, AddApproved(c, w1, p, sid, items[0].0, items[0].1).0, p, items[1..]);
        }
      }
    }
  }

  lemma {:induction false} ClaimAllKeeps(c: Config, w: World, p: Principal, sid: nat, order: seq<RecordId>)
    requires Base(c, w) && IsPersonal(w.repo.spaces, p, sid)
    requires forall id :: id in order ==> Has(w.store, ScopeOf(c, w.repo.spaces, sid), id)
    ensures Base(c, ClaimAll(w, p, sid, order).0)
    decreases |order|
  {
    if order != [] {
      ClaimKeeps(c, w, p, sid, order[0]);
      ClaimAllKeeps(c, w.(repo := AddRef(w.repo, sid, p, order[0], None, None).0), p, sid, order[1..]);
    }
  }

  lemma RecordsKeeps(c: Config, w: World, p: Principal, order: seq<RecordId>)
    requires Base(c, w)
    requires var (w1, sid) := PersonalSpace(c, w, p);
      Lists(w1.store, ScopeFor(c, p, sid, w1.repo.spaces[sid]), order)
    ensures Base(c, Records(c, w, p, order).0)
  {
    PersonalSpaceKeeps(c, w, p);
    var (w1, sid) := PersonalSpace(c, w, p);
    ClaimAllKeeps(c, w1, p, sid, order);
  }

  lemma {:induction false} PutBridgeKeeps(c: Config, r: Repo, bs: seq<Bridge>, b: Bridge)
    requires forall x :: x in bs ==> BridgeOk(c, r, x)
    requires forall i, j :: 0 <= i < j < |bs| ==> !SameEnds(bs[i], bs[j])
    requires BridgeOk(c, r, b)
    ensures var bs' := PutBridge(bs, b);
      && (forall x :: x in bs' ==> x == b || (x in bs && !SameEnds(x, b)))
      && (forall x :: x in bs && !SameEnds(x, b) ==> x in bs')
      && b in bs'
      && (forall i, j :: 0 <= i < j < |bs'| ==> !SameEnds(bs'[i], bs'[j]))
  {
    if bs != [] {
      if SameEnds(bs[0], b) {
        assert forall i :: 0 < i < |bs| ==> !SameEnds(bs[0], bs[i]);
      } else {
        PutBridgeKeeps(c, r, bs[1..], b);
        var rest := PutBridge(bs[1..], b);
        forall j | 0 <= j < |rest|
          ensures !SameEnds(bs[0], rest[j])
        {
          if rest[j] != b { assert rest[j] in bs[1..]; }
        }
      }
    }
  }

  lemma SetBridgeKeeps(c: Config, w: World, p: Principal, b: Bridge)
    requires Base(c, w)
    ensures Base(c, SetBridge(c, w, p, b).0)
  {
    var w' := SetBridge(c, w, p, b).0;
    if w' != w {
      PutBridgeKeeps(c, w.repo, w.repo.bridges, b.(principal := p));
      assert forall id :: Known(w', id) <==> Known(w, id);
      HomesStay(c, w, w');
      forall i | i in w'.repo.refs
        ensures RefOk(c, w'.repo, w'.repo.refs[i]) && Indexed(c, w', w'.repo.refs[i])
      {
        assert RefOk(c, w.repo, w.repo.refs[i]) && Indexed(c, w, w.repo.refs[i]);
      }
    }
  }

  lemma GameEventKeeps(c: Config, w: World, p: Principal, service: bool, sid: nat, k: Key, content: string)
    requires Base(c, w)
    ensures Base(c, GameEvent(c, w, p, service, sid, k, content).0)
  {
    var w' := GameEvent(c, w, p, service, sid, k, content).0;
    if w' != w { IngestKeeps(c, w, p, sid, content, Some(k), None, Some(k)); }
  }

  lemma AddManualKeeps(c: Config, w: World, p: Principal, content: string)
    requires Base(c, w)
    ensures Base(c, AddManual(c, w, p, content).0)
  {
    PersonalSpaceKeeps(c, w, p);
    var (w1, sid) := PersonalSpace(c, w, p);
    AddApprovedKeeps(c, w1, p, sid, content, None);
  }

  lemma CaptureKeeps(c: Config, w: World, p: Principal, todo: seq<(string, string)>)
    requires Base(c, w)
    ensures Base(c, Capture(c, w, p, todo).0)
  {
    PersonalSpaceKeeps(c, w, p);
    var (w1, sid) := PersonalSpace(c, w, p);
    CaptureAllKeeps(c, w1, p, sid, todo);
  }

  lemma CreateGameKeeps(c: Config, w: World, p: Principal, service: bool, s: Space)
    requires Base(c, w)
    ensures Base(c, CreateGame(w, p, service, s).0)
  {
    if service && FindGame(w.repo.spaces, p, s.name).None? {
      NewSpaceKeeps(c, w, s.(kind := Game, owner := p));
    }
  }
}
