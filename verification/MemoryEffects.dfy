/** When each call succeeds, and what a success leaves: stated on the state before and after, not through the
    functions of the calls. */
module MemoryEffects {
  import opened Memory
  import opened MemoryInvariant
  import opened MemoryIsolation
  import opened MemoryLaws
  import opened MemoryRuns

  // The store can take a record under the id: there is none, or one of the same partition.
  predicate Takes(st: Store, sc: Scope, id: RecordId) {
    id in st.rows ==> st.rows[id].user == sc.subject && st.rows[id].namespace == sc.workspace
  }

  // The store has gained the record, if it did not have one under its id, and nothing else.
  predicate Gained(st: Store, st': Store, sc: Scope, id: RecordId, text: string) {
    st'.rows == if id in st.rows then st.rows else st.rows[id := Row(sc.subject, sc.workspace, text, false)]
  }

  // The space has a reference to the record: the one it had, or else the one given. No other is different.
  ghost predicate Referenced(r: Repo, r': Repo, ref: Ref) {
    exists i :: ReferencedAt(r, r', ref, i)
  }

  ghost predicate ReferencedAt(r: Repo, r': Repo, ref: Ref, i: nat) {
    && i in r'.refs && r'.refs[i].space == ref.space && r'.refs[i].record == ref.record
    && (i in r.refs ==> r'.refs == r.refs)
    && (i !in r.refs ==>
          && r'.refs == r.refs[i := ref]
          && forall j :: j in r.refs ==> !(r.refs[j].space == ref.space && r.refs[j].record == ref.record))
  }

  lemma SameReferences(r: Repo, r1: Repo, r2: Repo, ref: Ref)
    requires Referenced(r, r1, ref) && r2.refs == r1.refs
    ensures Referenced(r, r2, ref)
  {
    var i :| ReferencedAt(r, r1, ref, i);
    assert ReferencedAt(r, r2, ref, i);
  }

  // ---------------------------------------------------------------- storing one record

  lemma IngestExactly(c: Config, w: World, p: Principal, sid: nat, content: string, key: Option<Key>, pid: Option<nat>, ext: Option<Key>)
    requires Base(c, w) && Owns(w.repo.spaces, p, sid)
    ensures var sc := ScopeFor(c, p, sid, w.repo.spaces[sid]);
      var id := if key.Some? then Stable(sc, key.value) else Random(w.store.next);
      && (key.None? ==> id !in w.store.rows)
      && (Ingest(c, w, p, sid, content, key, pid, ext).Some? <==> Takes(w.store, sc, id))
      && (Takes(w.store, sc, id) ==>
            var w' := Ingest(c, w, p, sid, content, key, pid, ext).value;
            && Gained(w.store, w'.store, sc, id, content)
            && Referenced(w.repo, w'.repo, Ref(sid, p, id, pid, ext, Active))
            && w'.repo == w.repo.(refs := w'.repo.refs, next := w'.repo.next))
  {
    var sc := ScopeFor(c, p, sid, w.repo.spaces[sid]);
    assert Random(w.store.next) in w.store.rows ==> Known(w, Random(w.store.next)) && IdOk(w, Random(w.store.next));
    if Ingest(c, w, p, sid, content, key, pid, ext).Some? {
      var id, n := IngestEffect(c, w, p, sid, content, key, pid, ext);
      NewReference(w.repo, sid, p, id, pid, ext);
    }
  }

  lemma NewReference(r: Repo, sid: nat, p: Principal, id: RecordId, pid: Option<nat>, ext: Option<Key>)
    requires forall i :: i in r.refs ==> i < r.next
    ensures Referenced(r, AddRef(r, sid, p, id, pid, ext).0, Ref(sid, p, id, pid, ext, Active))
  {
    var (r', n) := AddRef(r, sid, p, id, pid, ext);
    AddRefGrows(r, sid, p, id, pid, ext);
    if FindRef(r.refs, sid, id).None? {
      forall j | j in r.refs
        ensures !(r.refs[j].space == sid && r.refs[j].record == id)
      {
        assert !IsRef(r.refs, sid, id, j);
      }
    }
    assert ReferencedAt(r, r', Ref(sid, p, id, pid, ext, Active), n);
  }

  // The principal's personal space after opening, which the principal is a member of.
  ghost predicate Opened(c: Config, w: World, p: Principal, w1: World, sid: nat) {
    && PersonalSpace(c, w, p) == (w1, sid) && Base(c, w1)
    && IsPersonal(w1.repo.spaces, p, sid) && (sid, p) in w1.repo.members
  }

  /** Opening finds the one personal space of the principal, or makes it, named and placed as configured; no
      other space, and no proposal, reference or bridge, is different. */
  lemma OpeningExactly(c: Config, w: World, p: Principal)
    requires Base(c, w)
    ensures var (w1, sid) := PersonalSpace(c, w, p);
      && Opened(c, w, p, w1, sid)
      && (if exists i: nat :: IsPersonal(w.repo.spaces, p, i) then w1.repo == w.repo
          else
            && sid !in w.repo.spaces
            && w1.repo.spaces == w.repo.spaces[sid := Space(Personal, p, "Personal", c.namespace, "", "", "")]
            && w1.repo.members == w.repo.members + {(sid, p)}
            && w1.repo.proposals == w.repo.proposals && w1.repo.refs == w.repo.refs && w1.repo.bridges == w.repo.bridges)
  {
    PersonalSpaceKeeps(c, w, p);
    PersonalFound(w.repo, p);
  }

  /** Opening moves just the records of the time before spaces: those under the principal's own name in one of
      the five namespaces of that time. They keep text and forgetting, and no other record is different. */
  lemma OpeningMovesExactly(c: Config, w: World, p: Principal, id: RecordId)
    requires Base(c, w)
    ensures var (w1, sid) := PersonalSpace(c, w, p);
      && w1.store.rows.Keys == w.store.rows.Keys && w1.store.next == w.store.next
      && (id in w.store.rows ==>
            var row := w.store.rows[id];
            w1.store.rows[id] ==
              if row.user == RawUser(p) && row.namespace in
                   {TextLabel("user"), TextLabel("general"), TextLabel("projects"), TextLabel("code"), TextLabel("infrastructure")}
              then row.(user := Pseudonym(p), namespace := SpaceLabel(sid)) else row)
  {
    PersonalSpaceKeeps(c, w, p);
  }

  /** Adding by hand succeeds exactly for a text that is no secret, and then stores it in the personal space
      as a record of its own, with an active reference. */
  lemma AddManualExactly(c: Config, w: World, p: Principal, content: string)
    requires Base(c, w)
    ensures var (w', reply) := AddManual(c, w, p, content);
      var (w1, sid) := PersonalSpace(c, w, p);
      && (reply.error.None? <==> !c.secret(content))
      && (reply.error.Some? ==> w' == w && reply.error == Some(Conflict))
      && (reply.error.None? ==>
            var sc, id := ScopeFor(c, p, sid, w1.repo.spaces[sid]), Random(w1.store.next);
            && id !in w.store.rows && id !in w1.store.rows
            && Gained(w1.store, w'.store, sc, id, content)
            && Referenced(w1.repo, w'.repo, Ref(sid, p, id, None, None, Active))
            && w'.repo == w1.repo.(refs := w'.repo.refs, next := w'.repo.next))
  {
    OpeningExactly(c, w, p);
    var (w1, sid) := PersonalSpace(c, w, p);
    IngestExactly(c, w1, p, sid, content, None, None, None);
  }

  // ---------------------------------------------------------------- proposals

  /** Proposing opens the personal space and adds one pending proposal for each text, in order; nothing else
      is different. */
  lemma ProposeExactly(c: Config, w: World, p: Principal, contents: seq<string>, expires: int)
    requires Base(c, w)
    ensures var (w1, sid) := PersonalSpace(c, w, p);
      var w' := Propose(c, w, p, contents, expires);
      && w'.store == w1.store && w'.repo == w1.repo.(proposals := w'.repo.proposals, next := w1.repo.next + |contents|)
      && (forall i :: i in w'.repo.proposals <==> i in w.repo.proposals || w1.repo.next <= i < w1.repo.next + |contents|)
      && (forall i :: i in w.repo.proposals ==> w'.repo.proposals[i] == w.repo.proposals[i])
      && (forall k :: 0 <= k < |contents| ==>
            w'.repo.proposals[w1.repo.next + k] == Proposal(sid, p, Some(contents[k]), Pending, expires))
  {
    OpeningExactly(c, w, p);
    var (w1, sid) := PersonalSpace(c, w, p);
    ProposedArePending(w1.repo, sid, p, contents, expires);
  }

  // A pending proposal of the principal that still has its text.
  predicate Offered(r: Repo, p: Principal, pid: nat) {
    && pid in r.proposals && r.proposals[pid].principal == p && r.proposals[pid].state == Pending
    && r.proposals[pid].content.Some?
  }

  // The text an approval would store.
  function OfferedText(c: Config, r: Repo, pid: nat, edited: string): string
    requires pid in r.proposals && r.proposals[pid].content.Some?
  {
    c.strip(if edited == "" then r.proposals[pid].content.value else edited)
  }

  // The approval passes all checks: an offer in time, with a text that is not blank and no secret, for an id
  // the store can take.
  predicate Approvable(c: Config, w: World, p: Principal, pid: nat, edited: string, now: int) {
    && Offered(w.repo, p, pid) && now < w.repo.proposals[pid].expires && w.repo.proposals[pid].space in w.repo.spaces
    && OfferedText(c, w.repo, pid, edited) != "" && !c.secret(OfferedText(c, w.repo, pid, edited))
    && var sid := w.repo.proposals[pid].space;
       var sc := ScopeFor(c, p, sid, w.repo.spaces[sid]);
       Takes(w.store, sc, Stable(sc, ProposalKey(pid)))
  }

  /** Approving succeeds exactly when the proposal can be approved; then it is approved with the text, and the
      text is stored under the proposal's id and referenced, if it was not already. An offer that is overdue
      expires, and any other refusal changes nothing. */
  lemma ApproveExactly(c: Config, w: World, p: Principal, pid: nat, edited: string, now: int)
    requires Base(c, w)
    ensures var (w', reply) := Approve(c, w, p, pid, edited, now);
      && (reply.error.None? <==> Approvable(c, w, p, pid, edited, now))
      && (reply.error.None? ==>
            var item, text := w.repo.proposals[pid], OfferedText(c, w.repo, pid, edited);
            var sc := ScopeFor(c, p, item.space, w.repo.spaces[item.space]);
            var id := Stable(sc, ProposalKey(pid));
            && w'.repo.proposals == w.repo.proposals[pid := item.(content := Some(text), state := Approved)]
            && Gained(w.store, w'.store, sc, id, text)
            && Referenced(w.repo, w'.repo, Ref(item.space, p, id, Some(pid), None, Active))
            && w'.repo.spaces == w.repo.spaces && w'.repo.members == w.repo.members && w'.repo.bridges == w.repo.bridges)
      && (reply.error.Some? ==>
            w' == if Offered(w.repo, p, pid) && w.repo.proposals[pid].expires <= now
                  then w.(repo := w.repo.(proposals :=
                         w.repo.proposals[pid := w.repo.proposals[pid].(content := None, state := Expired)]))
                  else w)
  {
    if Offered(w.repo, p, pid) {
      var sid, text := w.repo.proposals[pid].space, OfferedText(c, w.repo, pid, edited);
      IngestExactly(c, w, p, sid, text, Some(ProposalKey(pid)), Some(pid), None);
      if Approvable(c, w, p, pid, edited, now) {
        var id := Stable(ScopeFor(c, p, sid, w.repo.spaces[sid]), ProposalKey(pid));
        var plain := Ingest(c, w, p, sid, text, Some(ProposalKey(pid)), Some(pid), None).value;
        SameReferences(w.repo, plain.repo, Approve(c, w, p, pid, edited, now).0.repo, Ref(sid, p, id, Some(pid), None, Active));
      }
    }
  }

  /** Rejecting succeeds exactly for a pending proposal of the principal, which is then rejected and without
      text; nothing else is different. */
  lemma RejectExactly(w: World, p: Principal, pid: nat)
    ensures var (w', reply) := Reject(w, p, pid);
      var mine := pid in w.repo.proposals && w.repo.proposals[pid].principal == p && w.repo.proposals[pid].state == Pending;
      && (reply.error.None? <==> mine)
      && w' == if mine then w.(repo := w.repo.(proposals :=
                      w.repo.proposals[pid := w.repo.proposals[pid].(content := None, state := Rejected)]))
               else w
  {
  }

  /** The sweep leaves no pending proposal overdue: it expires those that were and clears their text, and no
      other proposal, nor anything else, is different. */
  lemma SweepExactly(r: Repo, now: int)
    ensures var r' := ExpireAll(r, now);
      && r' == r.(proposals := r'.proposals) && r'.proposals.Keys == r.proposals.Keys
      && (forall i :: i in r.proposals ==>
            r'.proposals[i] == if r.proposals[i].state == Pending && r.proposals[i].expires <= now
                               then r.proposals[i].(content := None, state := Expired) else r.proposals[i])
      && (forall i :: i in r'.proposals && r'.proposals[i].state == Pending ==> now < r'.proposals[i].expires)
  {
  }

  // ---------------------------------------------------------------- bridges and games

  /** A consent is taken exactly when bridges are enabled, the principal is a member of both spaces and the
      pair of kinds is allowlisted; it then replaces the one between the same ends, if any. */
  lemma ConsentExactly(c: Config, w: World, p: Principal, b: Bridge)
    requires Base(c, w)
    ensures var (w', reply) := SetBridge(c, w, p, b);
      && (reply.error.None? <==>
            && c.bridgesEnabled && (b.source, p) in w.repo.members && (b.target, p) in w.repo.members
            && b.source in w.repo.spaces && b.target in w.repo.spaces
            && (w.repo.spaces[b.source].kind, w.repo.spaces[b.target].kind) in c.allowlist)
      && (reply.error.Some? ==> w' == w)
      && (reply.error.None? ==>
            && w' == w.(repo := w.repo.(bridges := w'.repo.bridges))
            && forall x :: x in w'.repo.bridges <==>
                 x == b.(principal := p) || (x in w.repo.bridges && !SameEnds(x, b.(principal := p))))
  {
    if SetBridge(c, w, p, b).1.error.None? { PutBridgeKeeps(c, w.repo, w.repo.bridges, b.(principal := p)); }
  }

  /** A game space is given to services only: the one the service has under that name, or a new one with what
      was asked for. */
  lemma CreateGameExactly(w: World, p: Principal, service: bool, s: Space)
    requires SpacesOk(w.repo)
    ensures var (w', reply) := CreateGame(w, p, service, s);
      && (reply.error.None? <==> service)
      && (if service && !exists i: nat :: IsGame(w.repo.spaces, p, s.name, i) then
            exists sid: nat :: sid !in w.repo.spaces
              && w'.repo.spaces == w.repo.spaces[sid := s.(kind := Game, owner := p)]
              && w'.repo.members == w.repo.members + {(sid, p)}
              && w' == w.(repo := w.repo.(spaces := w'.repo.spaces, members := w'.repo.members, next := w'.repo.next))
          else w' == w)
  {
    if service && !exists i: nat :: IsGame(w.repo.spaces, p, s.name, i) {
      assert w.repo.next !in w.repo.spaces;
    }
  }

  /** An event is taken from a service in its own game space; one already remembered there changes nothing,
      and a new one is stored under its external id and referenced. */
  lemma GameEventExactly(c: Config, w: World, p: Principal, service: bool, sid: nat, k: Key, content: string)
    requires Base(c, w)
    ensures var (w', reply) := GameEvent(c, w, p, service, sid, k, content);
      var allowed := service && (sid, p) in w.repo.members && sid in w.repo.spaces && w.repo.spaces[sid].kind.Game?;
      if !allowed then w' == w && reply.error == Some(AccessDenied)
      else if exists i: nat :: IsExternal(w.repo.refs, p, sid, k, i) then w' == w && reply.error.None?
      else
        var sc := ScopeFor(c, p, sid, w.repo.spaces[sid]);
        var id := Stable(sc, k);
        && (reply.error.None? <==> Takes(w.store, sc, id))
        && (reply.error.Some? ==> w' == w)
        && (reply.error.None? ==>
              && Gained(w.store, w'.store, sc, id, content)
              && Referenced(w.repo, w'.repo, Ref(sid, p, id, None, Some(k), Active))
              && w'.repo == w.repo.(refs := w'.repo.refs, next := w'.repo.next))
  {
    if (sid, p) in w.repo.members {
      IngestExactly(c, w, p, sid, content, Some(k), None, Some(k));
    }
  }

  // ---------------------------------------------------------------- capture

  // Whatever the personal space has no reference for under a key that is no proposal's was never stored.
  lemma UnseenIsNew(c: Config, w: World, p: Principal, sid: nat, k: Key)
    requires Base(c, w) && IsPersonal(w.repo.spaces, p, sid) && !k.ProposalKey?
    requires FindExternal(w.repo.refs, p, sid, k).None?
    ensures !Known(w, Stable(ScopeOf(c, w.repo.spaces, sid), k))
  {
    var id := Stable(ScopeOf(c, w.repo.spaces, sid), k);
    assert Remembered(c, w, sid, k);
    if i :| i in w.repo.refs && w.repo.refs[i].space == sid && w.repo.refs[i].record == id && w.repo.refs[i].external == Some(k) {
      assert RefOk(c, w.repo, w.repo.refs[i]) && IsExternal(w.repo.refs, p, sid, k, i);
    }
  }

  // The space remembers the key.
  ghost predicate Remembers(r: Repo, p: Principal, sid: nat, k: Key) {
    exists i: nat :: IsExternal(r.refs, p, sid, k, i)
  }

  // The text is stored, as it is, under the key's id in the space.
  ghost predicate StoredAs(c: Config, w: World, p: Principal, sid: nat, k: Key, text: string) {
    sid in w.repo.spaces &&
    var sc := ScopeFor(c, p, sid, w.repo.spaces[sid]);
    Has(w.store, sc, Stable(sc, k)) && w.store.rows[Stable(sc, k)] == Row(sc.subject, sc.workspace, text, false)
  }

  // What is there stays there.
  ghost predicate Kept(w: World, w': World) {
    && (forall id :: id in w.store.rows ==> id in w'.store.rows && w'.store.rows[id] == w.store.rows[id])
    && RefsKept(w.repo, w'.repo) && w'.repo.spaces == w.repo.spaces
  }

  lemma KeptTwice(w: World, w1: World, w': World)
    requires Kept(w, w1) && Kept(w1, w')
    ensures Kept(w, w')
  {
    KeptTransitive(w.repo, w1.repo, w'.repo);
  }

  lemma RemembersStays(w: World, w': World, p: Principal, sid: nat, k: Key)
    requires Kept(w, w') && Remembers(w.repo, p, sid, k)
    ensures Remembers(w'.repo, p, sid, k)
  {
    var i: nat :| IsExternal(w.repo.refs, p, sid, k, i);
    assert IsExternal(w'.repo.refs, p, sid, k, i);
  }

  // One record added under a key the personal space does not remember.
  lemma AddKeyed(c: Config, w: World, p: Principal, sid: nat, content: string, k: Key)
    requires Base(c, w) && IsPersonal(w.repo.spaces, p, sid) && !k.ProposalKey?
    requires FindExternal(w.repo.refs, p, sid, k).None?
    ensures var (w1, e) := AddApproved(c, w, p, sid, content, Some(k));
      && (e.None? <==> !c.secret(content)) && (e.Some? ==> e == Some(Conflict) && w1 == w)
      && (e.None? ==>
            && Base(c, w1) && Kept(w, w1) && StoredAs(c, w1, p, sid, k, content) && Remembers(w1.repo, p, sid, k)
            && forall o :: Remembers(w1.repo, p, sid, o) ==> o == k || Remembers(w.repo, p, sid, o))
  {
    UnseenIsNew(c, w, p, sid, k);
    IngestExactly(c, w, p, sid, content, Some(k), None, Some(k));
    if !c.secret(content) {
      AddApprovedKeeps(c, w, p, sid, content, Some(k));
      var w1 := AddApproved(c, w, p, sid, content, Some(k)).0;
      var id, n := IngestEffect(c, w, p, sid, content, Some(k), None, Some(k));
      assert n !in w.repo.refs by { assert n in w.repo.refs ==> Known(w, id); }
      assert IsExternal(w1.repo.refs, p, sid, k, n);
      forall o | Remembers(w1.repo, p, sid, o) && o != k
        ensures Remembers(w.repo, p, sid, o)
      {
        var i: nat :| IsExternal(w1.repo.refs, p, sid, o, i);
        assert i != n && IsExternal(w.repo.refs, p, sid, o, i);
      }
    }
  }

  function KeyAt(sid: nat, todo: seq<(string, string)>, n: nat): Key
    requires n < |todo|
  {
    AutoKey(sid, todo[n].1)
  }

  // Candidate n is the first of its normal form.
  predicate FirstOf(todo: seq<(string, string)>, n: nat) {
    n < |todo| && forall m :: 0 <= m < n ==> todo[m].1 != todo[n].1
  }

  // What a capture that ends well has done for candidate n: it is remembered, and if it was not before and is
  // the first of its normal form, its own text is stored.
  ghost predicate Captured(c: Config, w: World, w': World, p: Principal, sid: nat, todo: seq<(string, string)>, n: nat)
    requires n < |todo|
  {
    && Remembers(w'.repo, p, sid, KeyAt(sid, todo, n))
    && (FirstOf(todo, n) && !Remembers(w.repo, p, sid, KeyAt(sid, todo, n)) ==>
          StoredAs(c, w', p, sid, KeyAt(sid, todo, n), todo[n].0))
  }

  ghost predicate AllCaptured(c: Config, w: World, w': World, p: Principal, sid: nat, todo: seq<(string, string)>) {
    forall n :: 0 <= n < |todo| ==> Captured(c, w, w', p, sid, todo, n)
  }

  ghost predicate IsKeyOf(sid: nat, todo: seq<(string, string)>, k: Key) {
    exists n :: 0 <= n < |todo| && KeyAt(sid, todo, n) == k
  }

  // The keys answered are those that were not remembered.
  ghost predicate AnswersNew(r: Repo, p: Principal, sid: nat, todo: seq<(string, string)>, captured: seq<Key>) {
    forall k :: k in captured <==> !Remembers(r, p, sid, k) && IsKeyOf(sid, todo, k)
  }

  predicate HasSecret(c: Config, todo: seq<(string, string)>) {
    exists n :: 0 <= n < |todo| && c.secret(todo[n].0)
  }

  lemma CapturedMore(c: Config, w: World, w1: World, w': World, p: Principal, sid: nat, todo: seq<(string, string)>)
    requires todo != [] && Kept(w, w1) && Kept(w1, w') && Remembers(w1.repo, p, sid, KeyAt(sid, todo, 0))
    requires forall o :: Remembers(w1.repo, p, sid, o) ==> o == KeyAt(sid, todo, 0) || Remembers(w.repo, p, sid, o)
    requires !Remembers(w.repo, p, sid, KeyAt(sid, todo, 0)) ==> StoredAs(c, w1, p, sid, KeyAt(sid, todo, 0), todo[0].0)
    requires AllCaptured(c, w1, w', p, sid, todo[1..])
    ensures AllCaptured(c, w, w', p, sid, todo)
  {
    forall n | 0 <= n < |todo|
      ensures Captured(c, w, w', p, sid, todo, n)
    {
      if n == 0 {
        RemembersStays(w1, w', p, sid, KeyAt(sid, todo, 0));
      } else {
        assert Captured(c, w1, w', p, sid, todo[1..], n - 1) && todo[1..][n - 1] == todo[n];
        if FirstOf(todo, n) {
          assert todo[0].1 != todo[n].1;
          assert forall m :: 0 <= m < n - 1 ==> todo[1..][m] == todo[m + 1];
          assert FirstOf(todo[1..], n - 1);
        }
      }
    }
  }

  lemma AnswersMore(r: Repo, r1: Repo, p: Principal, sid: nat, todo: seq<(string, string)>, captured: seq<Key>)
    requires todo != [] && AnswersNew(r1, p, sid, todo[1..], captured)
    requires forall o :: Remembers(r1, p, sid, o) <==> o == KeyAt(sid, todo, 0) || Remembers(r, p, sid, o)
    ensures var k := KeyAt(sid, todo, 0);
      AnswersNew(r, p, sid, todo, if Remembers(r, p, sid, k) then captured else [k] + captured)
  {
    var k0 := KeyAt(sid, todo, 0);
    forall k
      ensures IsKeyOf(sid, todo, k) <==> k == k0 || IsKeyOf(sid, todo[1..], k)
    {
      if n :| 0 <= n < |todo| && KeyAt(sid, todo, n) == k {
        if n > 0 { assert KeyAt(sid, todo[1..], n - 1) == k; }
      }
      if n :| 0 <= n < |todo| - 1 && KeyAt(sid, todo[1..], n) == k { assert KeyAt(sid, todo, n + 1) == k; }
      if k == k0 { assert KeyAt(sid, todo, 0) == k; }
    }
  }

  lemma {:induction false} CaptureAllExactly(c: Config, w: World, p: Principal, sid: nat, todo: seq<(string, string)>)
    requires Base(c, w) && IsPersonal(w.repo.spaces, p, sid)
    ensures var (w', reply) := CaptureAll(c, w, p, sid, todo);
      && Kept(w, w')
      && (reply.error.Some? ==> reply.error == Some(Conflict) && HasSecret(c, todo))
      && (!HasSecret(c, todo) ==> reply.error.None?)
      && (reply.error.None? ==> AllCaptured(c, w, w', p, sid, todo) && AnswersNew(w.repo, p, sid, todo, reply.captured))
    decreases |todo|
  {
    if todo != [] {
      var k, rest := KeyAt(sid, todo, 0), todo[1..];
      SecretTail(c, todo);
      var w1 := w;
      if FindExternal(w.repo.refs, p, sid, k).None? {
        AddKeyed(c, w, p, sid, todo[0].0, k);
        w1 := AddApproved(c, w, p, sid, todo[0].0, Some(k)).0;
      }
      if FindExternal(w.repo.refs, p, sid, k).Some? || !c.secret(todo[0].0) {
        CaptureAllExactly(c, w1, p, sid, rest);
        var (w', reply) := CaptureAll(c, w1, p, sid, rest);
        KeptTwice(w, w1, w');
        if reply.error.None? {
          RememberedMore(w, w1, p, sid, k);
          CapturedMore(c, w, w1, w', p, sid, todo);
          AnswersMore(w.repo, w1.repo, p, sid, todo, reply.captured);
        }
      }
    }
  }

  lemma SecretTail(c: Config, todo: seq<(string, string)>)
    requires todo != []
    ensures HasSecret(c, todo) <==> c.secret(todo[0].0) || HasSecret(c, todo[1..])
  {
    if n :| 0 <= n < |todo| && c.secret(todo[n].0) { if n > 0 { assert c.secret(todo[1..][n - 1].0); } }
    if n :| 0 <= n < |todo| - 1 && c.secret(todo[1..][n].0) { assert c.secret(todo[n + 1].0); }
  }

  lemma RememberedMore(w: World, w1: World, p: Principal, sid: nat, k: Key)
    requires Kept(w, w1) && Remembers(w1.repo, p, sid, k)
    requires forall o :: Remembers(w1.repo, p, sid, o) ==> o == k || Remembers(w.repo, p, sid, o)
    ensures forall o :: Remembers(w1.repo, p, sid, o) <==> o == k || Remembers(w.repo, p, sid, o)
  {
    forall o | Remembers(w.repo, p, sid, o)
      ensures Remembers(w1.repo, p, sid, o)
    {
      RemembersStays(w, w1, p, sid, o);
    }
  }

  /** A capture without a secret ends well: then every candidate is remembered in the personal space, those
      that were not are answered, and of each normal form not remembered before the first text is stored. */
  lemma CaptureExactly(c: Config, w: World, p: Principal, todo: seq<(string, string)>)
    requires Base(c, w)
    ensures var (w1, sid) := PersonalSpace(c, w, p);
      var (w', reply) := Capture(c, w, p, todo);
      && Kept(w1, w')
      && (reply.error.Some? ==> reply.error == Some(Conflict) && HasSecret(c, todo))
      && (!HasSecret(c, todo) ==> reply.error.None?)
      && (reply.error.None? ==> AllCaptured(c, w1, w', p, sid, todo) && AnswersNew(w.repo, p, sid, todo, reply.captured))
  {
    PersonalSpaceKeeps(c, w, p);
    var (w1, sid) := PersonalSpace(c, w, p);
    CaptureAllExactly(c, w1, p, sid, todo);
    assert forall k :: Remembers(w1.repo, p, sid, k) <==> Remembers(w.repo, p, sid, k);
  }

  // ---------------------------------------------------------------- import

  type Item = (string, Option<Key>)

  predicate Blank(c: Config, item: Item) {
    c.strip(item.0) == ""
  }

  // How many items with text name no external id.
  function Unnamed(c: Config, items: seq<Item>): nat {
    if items == [] then 0 else (if !Blank(c, items[0]) && items[0].1.None? then 1 else 0) + Unnamed(c, items[1..])
  }

  // Item n is the first with text under its external id.
  predicate FirstNamed(c: Config, items: seq<Item>, n: nat) {
    n < |items| && forall m :: 0 <= m < n && !Blank(c, items[m]) ==> items[m].1 != items[n].1
  }

  function IdIn(c: Config, w: World, p: Principal, sid: nat, k: Key): RecordId
    requires sid in w.repo.spaces
  {
    Stable(ScopeFor(c, p, sid, w.repo.spaces[sid]), k)
  }

  // An item is refused when its text is a secret, or the store has its id for another partition.
  predicate Refused(c: Config, w: World, p: Principal, sid: nat, item: Item)
    requires sid in w.repo.spaces
  {
    !Blank(c, item) &&
    (c.secret(item.0)
     || (item.1.Some? && !Takes(w.store, ScopeFor(c, p, sid, w.repo.spaces[sid]), IdIn(c, w, p, sid, item.1.value))))
  }

  // What an import that ends well has done for item n: without an external id its text has a record of its
  // own; with one its record is there, is remembered unless the id is a proposal's, and has the item's text
  // if it was neither remembered nor there before and the item is the first.
  ghost predicate Taken(c: Config, w: World, w': World, p: Principal, sid: nat, items: seq<Item>, n: nat)
    requires n < |items| && sid in w.repo.spaces && sid in w'.repo.spaces
  {
    !Blank(c, items[n]) ==>
      var sc := ScopeFor(c, p, sid, w'.repo.spaces[sid]);
      match items[n].1
      case None =>
        var id := Random(w.store.next + Unnamed(c, items[..n]));
        id !in w.store.rows && id in w'.store.rows && w'.store.rows[id] == Row(sc.subject, sc.workspace, items[n].0, false)
      case Some(k) =>
        && (!k.ProposalKey? ==> Remembers(w'.repo, p, sid, k))
        && (FirstNamed(c, items, n) && !Remembers(w.repo, p, sid, k) ==>
              && Has(w'.store, sc, Stable(sc, k))
              && (IdIn(c, w, p, sid, k) !in w.store.rows ==> StoredAs(c, w', p, sid, k, items[n].0)))
  }

  ghost predicate AllTaken(c: Config, w: World, w': World, p: Principal, sid: nat, items: seq<Item>)
    requires sid in w.repo.spaces && sid in w'.repo.spaces
  {
    forall n :: 0 <= n < |items| ==> Taken(c, w, w', p, sid, items, n)
  }

  ghost predicate SomeRefused(c: Config, w: World, p: Principal, sid: nat, items: seq<Item>)
    requires sid in w.repo.spaces
  {
    exists n :: 0 <= n < |items| && Refused(c, w, p, sid, items[n])
  }

  // What one added item leaves.
  ghost predicate ItemAdded(c: Config, w: World, w1: World, p: Principal, sid: nat, item: Item)
    requires sid in w.repo.spaces
  {
    var id := if item.1.Some? then IdIn(c, w, p, sid, item.1.value) else Random(w.store.next);
    && Kept(w, w1) && Gained(w.store, w1.store, ScopeFor(c, p, sid, w.repo.spaces[sid]), id, item.0)
    && w1.store.next == w.store.next + (if item.1.None? then 1 else 0)
    && (item.1.None? ==> id !in w.store.rows)
    && (item.1.Some? ==> Has(w1.store, ScopeFor(c, p, sid, w.repo.spaces[sid]), id))
    && (item.1.Some? && !item.1.value.ProposalKey? ==> Remembers(w1.repo, p, sid, item.1.value))
    && forall o :: Remembers(w1.repo, p, sid, o) ==> item.1 == Some(o) || Remembers(w.repo, p, sid, o)
  }

  lemma AddItem(c: Config, w: World, p: Principal, sid: nat, item: Item)
    requires Base(c, w) && IsPersonal(w.repo.spaces, p, sid) && !Blank(c, item)
    requires item.1.Some? ==> FindExternal(w.repo.refs, p, sid, item.1.value).None?
    ensures var (w1, e) := AddApproved(c, w, p, sid, item.0, item.1);
      && (e.None? <==> !Refused(c, w, p, sid, item))
      && (e.Some? ==> w1 == w && e == Some(if c.secret(item.0) then Conflict else ProviderFailed))
      && (e.None? ==> ItemAdded(c, w, w1, p, sid, item))
  {
    IngestExactly(c, w, p, sid, item.0, item.1, None, item.1);
    if !Refused(c, w, p, sid, item) {
      var w1 := AddApproved(c, w, p, sid, item.0, item.1).0;
      var id, n := IngestEffect(c, w, p, sid, item.0, item.1, None, item.1);
      forall o | Remembers(w1.repo, p, sid, o) && item.1 != Some(o)
        ensures Remembers(w.repo, p, sid, o)
      {
        var i: nat :| IsExternal(w1.repo.refs, p, sid, o, i);
        assert IsExternal(w.repo.refs, p, sid, o, i);
      }
      if item.1.Some? && !item.1.value.ProposalKey? {
        UnseenIsNew(c, w, p, sid, item.1.value);
        assert n !in w.repo.refs by { assert n in w.repo.refs ==> Known(w, id); }
        assert IsExternal(w1.repo.refs, p, sid, item.1.value, n);
      }
    }
  }

  // The head is taken, and what the rest does does not take it back.
  lemma HeadTaken(c: Config, w: World, w1: World, w': World, p: Principal, sid: nat, items: seq<Item>)
    requires items != [] && sid in w.repo.spaces && Kept(w1, w') && w1.repo.spaces == w.repo.spaces
    requires !Blank(c, items[0]) ==>
      if items[0].1.Some? && Remembers(w.repo, p, sid, items[0].1.value) then w1 == w
      else ItemAdded(c, w, w1, p, sid, items[0])
    ensures Taken(c, w, w', p, sid, items, 0)
  {
    assert items[..0] == [];
    if !Blank(c, items[0]) && items[0].1.Some? && !items[0].1.value.ProposalKey? {
      RemembersStays(w1, w', p, sid, items[0].1.value);
    }
  }

  lemma TailTaken(c: Config, w: World, w1: World, w': World, p: Principal, sid: nat, items: seq<Item>, n: nat)
    requires 0 < n < |items| && sid in w.repo.spaces && w1.repo.spaces == w.repo.spaces == w'.repo.spaces && Kept(w, w1)
    requires if Blank(c, items[0]) || (items[0].1.Some? && Remembers(w.repo, p, sid, items[0].1.value)) then w1 == w
             else ItemAdded(c, w, w1, p, sid, items[0])
    requires Taken(c, w1, w', p, sid, items[1..], n - 1)
    ensures Taken(c, w, w', p, sid, items, n)
  {
    assert items[1..][n - 1] == items[n] && items[..n][1..] == items[1..][..n - 1] && items[..n][0] == items[0];
    if FirstNamed(c, items, n) {
      assert forall m :: 0 <= m < n - 1 ==> items[1..][m] == items[m + 1];
      assert FirstNamed(c, items[1..], n - 1);
    }
  }

  lemma RefusedTail(c: Config, w: World, w1: World, p: Principal, sid: nat, items: seq<Item>)
    requires items != [] && sid in w.repo.spaces && Kept(w, w1)
    requires w1 == w || ItemAdded(c, w, w1, p, sid, items[0])
    ensures SomeRefused(c, w1, p, sid, items[1..]) ==> SomeRefused(c, w, p, sid, items)
  {
    if n :| 0 <= n < |items| - 1 && Refused(c, w1, p, sid, items[1..][n]) {
      assert Refused(c, w, p, sid, items[n + 1]);
    }
  }

  lemma {:induction false} SettledImport(c: Config, w: World, p: Principal, sid: nat, items: seq<Item>)
    requires Base(c, w) && Settled(c, w, p, sid)
    ensures var (w', reply) := Import(c, w, p, items);
      && Kept(w, w')
      && (reply.error.Some? ==> SomeRefused(c, w, p, sid, items))
      && (reply.error.None? ==> AllTaken(c, w, w', p, sid, items))
    decreases |items|
  {
    if items != [] {
      var item, rest, w1 := items[0], items[1..], w;
      SettledOpens(c, w, p, sid);
      var seen := item.1.Some? && FindExternal(w.repo.refs, p, sid, item.1.value).Some?;
      if !Blank(c, item) && !seen {
        AddItem(c, w, p, sid, item);
        w1 := AddApproved(c, w, p, sid, item.0, item.1).0;
        AddApprovedKeeps(c, w, p, sid, item.0, item.1);
        IngestLeavesNoLegacy(c, w, p, sid, item.0, item.1);
      }
      if Blank(c, item) || seen || !Refused(c, w, p, sid, item) {
        SettledImport(c, w1, p, sid, rest);
        var w' := Import(c, w1, p, rest).0;
        KeptTwice(w, w1, w');
        RefusedTail(c, w, w1, p, sid, items);
        if Import(c, w1, p, rest).1.error.None? {
          HeadTaken(c, w, w1, w', p, sid, items);
          forall n | 0 < n < |items|
            ensures Taken(c, w, w', p, sid, items, n)
          {
            assert Taken(c, w1, w', p, sid, rest, n - 1);
            TailTaken(c, w, w1, w', p, sid, items, n);
          }
        }
      } else {
        assert Refused(c, w, p, sid, items[0]);
      }
    }
  }

  /** An import with text opens the personal space. It fails only if some item is refused, a secret or an id
      of another partition; when it ends well every item with text is taken. What was there stays as it was. */
  lemma ImportExactly(c: Config, w: World, p: Principal, items: seq<Item>)
    requires Base(c, w) && !AllBlank(c, items)
    ensures var (w1, sid) := PersonalSpace(c, w, p);
      var (w', reply) := Import(c, w, p, items);
      && Kept(w1, w')
      && (reply.error.Some? ==> SomeRefused(c, w1, p, sid, items))
      && (reply.error.None? ==> AllTaken(c, w1, w', p, sid, items))
  {
    var (w1, sid) := PersonalSpace(c, w, p);
    PersonalSpaceKeeps(c, w, p);
    OpeningMigratesAll(c, w, p);
    ImportOpens(c, w, p, items);
    SettledImport(c, w1, p, sid, items);
  }
}
