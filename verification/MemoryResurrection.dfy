/** When a purged record comes back: exactly which calls store it again, whatever the state they are made
    in, and what therefore makes purging final. */
module MemoryResurrection {
  import opened Memory
  import opened MemoryInvariant
  import opened MemoryRuns
  import opened MemoryLaws

  // A purged reference whose record is in the store.
  ghost predicate Resurrected(w: World, i: nat) {
    i in w.repo.refs && w.repo.refs[i].status.Purged? && w.repo.refs[i].record in w.store.rows
  }

  ghost predicate PurgedGone(w: World) {
    forall i :: i in w.repo.refs && w.repo.refs[i].status.Purged? ==> w.repo.refs[i].record !in w.store.rows
  }

  predicate PurgedUnder(w: World, i: nat, id: RecordId) {
    i in w.repo.refs && w.repo.refs[i].status.Purged? && w.repo.refs[i].record == id
  }

  // Some purged reference, of whatever space, names the id that space `sid` derives from the key.
  ghost predicate PurgedKey(c: Config, w: World, sid: nat, k: Key)
    requires sid in w.repo.spaces
  {
    exists i :: PurgedUnder(w, i, Stable(ScopeOf(c, w.repo.spaces, sid), k))
  }

  lemma GoneOrBack(w: World)
    ensures PurgedGone(w) <==> !exists i :: Resurrected(w, i)
  {
    if !PurgedGone(w) {
      var i :| i in w.repo.refs && w.repo.refs[i].status.Purged? && w.repo.refs[i].record in w.store.rows;
      assert Resurrected(w, i);
    }
    if i :| Resurrected(w, i) { assert !PurgedGone(w); }
  }

  // ---------------------------------------------------------------- storing one record

  /** Storing a record brings a purged one back exactly when a purged reference names the id the record
      is stored under. */
  lemma StoringResurrectsExactly(c: Config, w: World, p: Principal, sid: nat, content: string, key: Option<Key>,
                                 pid: Option<nat>, ext: Option<Key>)
    requires Base(c, w) && PurgedGone(w) && Owns(w.repo.spaces, p, sid)
    requires Ingest(c, w, p, sid, content, key, pid, ext).Some?
    ensures PurgedGone(Ingest(c, w, p, sid, content, key, pid, ext).value) <==>
            !(key.Some? && PurgedKey(c, w, sid, key.value))
  {
    var w' := Ingest(c, w, p, sid, content, key, pid, ext).value;
    var id, n := IngestEffect(c, w, p, sid, content, key, pid, ext);
    forall i
      ensures Resurrected(w', i) <==> PurgedUnder(w, i, id)
    {
      assert n !in w.repo.refs ==> w'.repo.refs[n].status.Active?;
    }
    assert forall i :: i in w.repo.refs ==> Known(w, w.repo.refs[i].record) && IdOk(w, w.repo.refs[i].record);
    GoneOrBack(w');
  }

  // The id of a purged record is free, so the store takes it.
  lemma PurgedKeyStores(c: Config, w: World, p: Principal, sid: nat, content: string, k: Key, pid: Option<nat>, ext: Option<Key>)
    requires PurgedGone(w) && Owns(w.repo.spaces, p, sid) && PurgedKey(c, w, sid, k)
    ensures Ingest(c, w, p, sid, content, Some(k), pid, ext).Some?
  {
  }

  // ---------------------------------------------------------------- the calls that store

  ghost predicate EventResurrects(c: Config, w: World, p: Principal, service: bool, sid: nat, k: Key) {
    && service && GetSpace(w.repo, p, sid).Some? && w.repo.spaces[sid].kind.Game?
    && FindExternal(w.repo.refs, p, sid, k).None? && PurgedKey(c, w, sid, k)
  }

  lemma EventResurrectsExactly(c: Config, w: World, p: Principal, service: bool, sid: nat, k: Key, content: string)
    requires Base(c, w) && PurgedGone(w)
    ensures PurgedGone(GameEvent(c, w, p, service, sid, k, content).0) <==> !EventResurrects(c, w, p, service, sid, k)
  {
    if service && GetSpace(w.repo, p, sid).Some? && w.repo.spaces[sid].kind.Game? && FindExternal(w.repo.refs, p, sid, k).None? {
      if PurgedKey(c, w, sid, k) { PurgedKeyStores(c, w, p, sid, content, k, None, Some(k)); }
      if Ingest(c, w, p, sid, content, Some(k), None, Some(k)).Some? {
        StoringResurrectsExactly(c, w, p, sid, content, Some(k), None, Some(k));
      }
    }
  }

  function ApprovedText(c: Config, w: World, pid: nat, edited: string): string
    requires pid in w.repo.proposals && w.repo.proposals[pid].content.Some?
  {
    c.strip(if edited != "" then edited else w.repo.proposals[pid].content.value)
  }

  // The approval passes every check before it stores.
  predicate ApprovalStores(c: Config, w: World, p: Principal, pid: nat, edited: string, now: int) {
    && pid in w.repo.proposals && w.repo.proposals[pid].principal == p && w.repo.proposals[pid].state.Pending?
    && w.repo.proposals[pid].content.Some? && now < w.repo.proposals[pid].expires
    && ApprovedText(c, w, pid, edited) != "" && !c.secret(ApprovedText(c, w, pid, edited))
    && GetSpace(w.repo, p, w.repo.proposals[pid].space).Some?
  }

  ghost predicate ApprovalResurrects(c: Config, w: World, p: Principal, pid: nat, edited: string, now: int) {
    ApprovalStores(c, w, p, pid, edited, now) && PurgedKey(c, w, w.repo.proposals[pid].space, ProposalKey(pid))
  }

  lemma ApprovalResurrectsExactly(c: Config, w: World, p: Principal, pid: nat, edited: string, now: int)
    requires Base(c, w) && PurgedGone(w)
    ensures PurgedGone(Approve(c, w, p, pid, edited, now).0) <==> !ApprovalResurrects(c, w, p, pid, edited, now)
  {
    if ApprovalStores(c, w, p, pid, edited, now) {
      var sid, text := w.repo.proposals[pid].space, ApprovedText(c, w, pid, edited);
      if PurgedKey(c, w, sid, ProposalKey(pid)) { PurgedKeyStores(c, w, p, sid, text, ProposalKey(pid), Some(pid), None); }
      if Ingest(c, w, p, sid, text, Some(ProposalKey(pid)), Some(pid), None).Some? {
        StoringResurrectsExactly(c, w, p, sid, text, Some(ProposalKey(pid)), Some(pid), None);
      }
    }
  }

  // ---------------------------------------------------------------- imports

  // Item n is reached, has text that may be stored, and its key is one the space does not remember
  // although a purged reference names its id.
  ghost predicate ItemResurrects(c: Config, w: World, p: Principal, items: seq<(string, Option<Key>)>, n: nat) {
    && n < |items| && Import(c, w, p, items[..n]).1.error.None?
    && KeyResurrects(c, PersonalSpace(c, w, p).0, p, PersonalSpace(c, w, p).1, items[n])
  }

  ghost predicate KeyResurrects(c: Config, w: World, p: Principal, sid: nat, item: (string, Option<Key>))
    requires sid in w.repo.spaces
  {
    && c.strip(item.0) != "" && !c.secret(item.0) && item.1.Some?
    && FindExternal(w.repo.refs, p, sid, item.1.value).None? && PurgedKey(c, w, sid, item.1.value)
  }

  ghost predicate ImportResurrects(c: Config, w: World, p: Principal, items: seq<(string, Option<Key>)>) {
    exists n: nat :: ItemResurrects(c, w, p, items, n)
  }

  lemma OpeningKeepsGone(c: Config, w: World, p: Principal)
    requires Base(c, w)
    ensures PurgedGone(PersonalSpace(c, w, p).0) <==> PurgedGone(w)
  {
    OpeningMigratesAll(c, w, p);
    PersonalSpaceKeeps(c, w, p);
  }

  lemma AddResurrectsExactly(c: Config, w: World, p: Principal, sid: nat, content: string, ext: Option<Key>)
    requires Base(c, w) && PurgedGone(w) && Owns(w.repo.spaces, p, sid)
    requires ext.Some? ==> FindExternal(w.repo.refs, p, sid, ext.value).None?
    ensures PurgedGone(AddApproved(c, w, p, sid, content, ext).0) <==>
            !(!c.secret(content) && ext.Some? && PurgedKey(c, w, sid, ext.value))
  {
    if !c.secret(content) {
      if ext.Some? && PurgedKey(c, w, sid, ext.value) { PurgedKeyStores(c, w, p, sid, content, ext.value, None, ext); }
      if Ingest(c, w, p, sid, content, ext, None, ext).Some? {
        StoringResurrectsExactly(c, w, p, sid, content, ext, None, ext);
      }
    }
  }

  // A record that is back stays back while the import goes on.
  lemma {:induction false} ImportKeepsBack(c: Config, w: World, p: Principal, items: seq<(string, Option<Key>)>)
    requires Base(c, w) && !PurgedGone(w)
    ensures !PurgedGone(Import(c, w, p, items).0)
    decreases |items|
  {
    if items != [] {
      if c.strip(items[0].0) == "" {
        ImportKeepsBack(c, w, p, items[1..]);
      } else {
        PersonalSpaceKeeps(c, w, p);
        OpeningKeepsGone(c, w, p);
        var (w1, sid) := PersonalSpace(c, w, p);
        if items[0].1.Some? && FindExternal(w1.repo.refs, p, sid, items[0].1.value).Some? {
          ImportKeepsBack(c, w1, p, items[1..]);
        } else {
          var w2 := AddApproved(c, w1, p, sid, items[0].0, items[0].1).0;
          AddApprovedKeeps(c, w1, p, sid, items[0].0, items[0].1);
          AddKeepsBack(c, w1, p, sid, items[0].0, items[0].1);
          ImportKeepsBack(c, w2, p, items[1..]);
        }
      }
    }
  }

  lemma AddKeepsBack(c: Config, w: World, p: Principal, sid: nat, content: string, ext: Option<Key>)
    requires Base(c, w) && !PurgedGone(w) && Owns(w.repo.spaces, p, sid)
    ensures !PurgedGone(AddApproved(c, w, p, sid, content, ext).0)
  {
    var i :| i in w.repo.refs && w.repo.refs[i].status.Purged? && w.repo.refs[i].record in w.store.rows;
    if Ingest(c, w, p, sid, content, ext, None, ext).Some? {
      var _, _ := IngestEffect(c, w, p, sid, content, ext, None, ext);
      assert i in Ingest(c, w, p, sid, content, ext, None, ext).value.repo.refs;
    }
  }

  // Whether a later item resurrects is the same before and after an item that does not.
  lemma SameKeys(c: Config, w: World, p: Principal, sid: nat, head: (string, Option<Key>), item: (string, Option<Key>))
    requires Base(c, w) && IsPersonal(w.repo.spaces, p, sid)
    requires head.1.Some? ==> FindExternal(w.repo.refs, p, sid, head.1.value).None?
    requires AddApproved(c, w, p, sid, head.0, head.1).1.None?
    requires !(head.1.Some? && PurgedKey(c, w, sid, head.1.value))
    ensures var w2 := AddApproved(c, w, p, sid, head.0, head.1).0;
      sid in w2.repo.spaces && (KeyResurrects(c, w2, p, sid, item) <==> KeyResurrects(c, w, p, sid, item))
  {
    var w2 := AddApproved(c, w, p, sid, head.0, head.1).0;
    var id, n := IngestEffect(c, w, p, sid, head.0, head.1, None, head.1);
    if item.1.Some? {
      var k := item.1.value;
      var stable := Stable(ScopeOf(c, w.repo.spaces, sid), k);
      assert forall i :: PurgedUnder(w2, i, stable) <==> PurgedUnder(w, i, stable);
      if FindExternal(w.repo.refs, p, sid, k).Some? {
        assert IsExternal(w2.repo.refs, p, sid, k, FindExternal(w.repo.refs, p, sid, k).value);
      } else if FindExternal(w2.repo.refs, p, sid, k).Some? {
        var m := FindExternal(w2.repo.refs, p, sid, k).value;
        assert IsExternal(w2.repo.refs, p, sid, k, m) && !IsExternal(w.repo.refs, p, sid, k, m);
      }
    }
  }

  /** An import brings a purged record back exactly when it reaches an item that does. */
  lemma {:induction false} ImportResurrectsExactly(c: Config, w: World, p: Principal, items: seq<(string, Option<Key>)>)
    requires Base(c, w) && PurgedGone(w)
    ensures PurgedGone(Import(c, w, p, items).0) <==> !ImportResurrects(c, w, p, items)
    decreases |items|
  {
    if items != [] {
      PersonalSpaceKeeps(c, w, p);
      OpeningMigratesAll(c, w, p);
      OpeningKeepsGone(c, w, p);
      var (w1, sid) := PersonalSpace(c, w, p);
      if c.strip(items[0].0) == "" {
        SkippedHead(c, w, w, p, items);
        ImportResurrectsExactly(c, w, p, items[1..]);
      } else if items[0].1.Some? && FindExternal(w1.repo.refs, p, sid, items[0].1.value).Some? {
        SkippedHead(c, w, w1, p, items);
        ImportResurrectsExactly(c, w1, p, items[1..]);
      } else {
        AddResurrectsExactly(c, w1, p, sid, items[0].0, items[0].1);
        AddApprovedKeeps(c, w1, p, sid, items[0].0, items[0].1);
        var (w2, e) := AddApproved(c, w1, p, sid, items[0].0, items[0].1);
        if KeyResurrects(c, w1, p, sid, items[0]) {
          PurgedKeyStores(c, w1, p, sid, items[0].0, items[0].1.value, None, items[0].1);
          ImportKeepsBack(c, w2, p, items[1..]);
          assert items[..0] == [] && ItemResurrects(c, w, p, items, 0);
        } else if e.None? {
          StoredHead(c, w, p, items);
          ImportResurrectsExactly(c, w2, p, items[1..]);
        } else {
          FailedHead(c, w, p, items);
        }
      }
    }
  }

  // The prefix of the rest is the rest of the prefix.
  lemma PrefixTail(items: seq<(string, Option<Key>)>, n: nat)
    requires n < |items|
    ensures items[..n + 1][1..] == items[1..][..n] && items[..n + 1][0] == items[0]
  {
  }

  // The head does not resurrect, so some item does exactly when one of the others does.
  lemma TailResurrects(c: Config, w: World, w1: World, p: Principal, items: seq<(string, Option<Key>)>)
    requires items != [] && !ItemResurrects(c, w, p, items, 0)
    requires forall n: nat :: ItemResurrects(c, w, p, items, n + 1) <==> ItemResurrects(c, w1, p, items[1..], n)
    ensures ImportResurrects(c, w, p, items) <==> ImportResurrects(c, w1, p, items[1..])
  {
    if n: nat :| ItemResurrects(c, w, p, items, n) {
      assert n > 0;
      assert ItemResurrects(c, w1, p, items[1..], n - 1);
    }
    if n: nat :| ItemResurrects(c, w1, p, items[1..], n) { assert ItemResurrects(c, w, p, items, n + 1); }
  }

  // A blank or remembered head: the import goes on from w or from the opened space.
  lemma SkippedHead(c: Config, w: World, w1: World, p: Principal, items: seq<(string, Option<Key>)>)
    requires items != [] && PersonalSpace(c, w1, p) == PersonalSpace(c, w, p)
    requires c.strip(items[0].0) == "" || (items[0].1.Some?
               && FindExternal(PersonalSpace(c, w, p).0.repo.refs, p, PersonalSpace(c, w, p).1, items[0].1.value).Some?)
    requires w1 == if c.strip(items[0].0) == "" then w else PersonalSpace(c, w, p).0
    ensures ImportResurrects(c, w, p, items) <==> ImportResurrects(c, w1, p, items[1..])
  {
    forall n: nat
      ensures ItemResurrects(c, w, p, items, n + 1) <==> ItemResurrects(c, w1, p, items[1..], n)
    {
      if n + 1 < |items| { PrefixTail(items, n); }
    }
    TailResurrects(c, w, w1, p, items);
  }

  // A head that is stored under a key no purged record had.
  lemma StoredHead(c: Config, w: World, p: Principal, items: seq<(string, Option<Key>)>)
    requires Base(c, w) && items != [] && c.strip(items[0].0) != ""
    requires var (w1, sid) := PersonalSpace(c, w, p);
      && (items[0].1.Some? ==> FindExternal(w1.repo.refs, p, sid, items[0].1.value).None?)
      && AddApproved(c, w1, p, sid, items[0].0, items[0].1).1.None?
      && !KeyResurrects(c, w1, p, sid, items[0])
    ensures var (w1, sid) := PersonalSpace(c, w, p);
      ImportResurrects(c, w, p, items) <==>
      ImportResurrects(c, AddApproved(c, w1, p, sid, items[0].0, items[0].1).0, p, items[1..])
  {
    var (w1, sid) := PersonalSpace(c, w, p);
    var w2 := AddApproved(c, w1, p, sid, items[0].0, items[0].1).0;
    PersonalSpaceKeeps(c, w, p);
    AddApprovedKeeps(c, w1, p, sid, items[0].0, items[0].1);
    PersonalFound(w2.repo, p);
    PersonalSpaceKeeps(c, w2, p);
    forall n: nat
      ensures ItemResurrects(c, w, p, items, n + 1) <==> ItemResurrects(c, w2, p, items[1..], n)
    {
      if n + 1 < |items| {
        PrefixTail(items, n);
        SameKeys(c, w1, p, sid, items[0], items[n + 1]);
        OpenedKeys(c, w2, p, sid, items[n + 1]);
      }
    }
    TailResurrects(c, w, w2, p, items);
  }

  lemma OpenedKeys(c: Config, w: World, p: Principal, sid: nat, item: (string, Option<Key>))
    requires Base(c, w) && IsPersonal(w.repo.spaces, p, sid)
    ensures PersonalSpace(c, w, p).1 == sid
    ensures KeyResurrects(c, PersonalSpace(c, w, p).0, p, sid, item) <==> KeyResurrects(c, w, p, sid, item)
  {
    PersonalFound(w.repo, p);
    var w1 := PersonalSpace(c, w, p).0;
    if item.1.Some? {
      var stable := Stable(ScopeOf(c, w.repo.spaces, sid), item.1.value);
      assert forall i :: PurgedUnder(w1, i, stable) <==> PurgedUnder(w, i, stable);
    }
  }

  // A head that is refused: the import ends there.
  lemma FailedHead(c: Config, w: World, p: Principal, items: seq<(string, Option<Key>)>)
    requires items != [] && c.strip(items[0].0) != ""
    requires var (w1, sid) := PersonalSpace(c, w, p);
      && (items[0].1.Some? ==> FindExternal(w1.repo.refs, p, sid, items[0].1.value).None?)
      && AddApproved(c, w1, p, sid, items[0].0, items[0].1).1.Some?
      && !KeyResurrects(c, w1, p, sid, items[0])
    ensures !ImportResurrects(c, w, p, items)
  {
    forall n: nat
      ensures !ItemResurrects(c, w, p, items, n)
    {
      if 0 < n < |items| { PrefixTail(items, n - 1); }
    }
  }

  // ---------------------------------------------------------------- calls that never do

  // A personal space remembers every key but a proposal's.
  lemma PersonalKeysRemembered(c: Config, w: World, p: Principal, sid: nat, k: Key)
    requires Base(c, w) && IsPersonal(w.repo.spaces, p, sid) && !k.ProposalKey?
    requires FindExternal(w.repo.refs, p, sid, k).None?
    ensures !PurgedKey(c, w, sid, k)
  {
    var id := Stable(ScopeOf(c, w.repo.spaces, sid), k);
    assert Remembered(c, w, sid, k);
    if i :| PurgedUnder(w, i, id) {
      assert Known(w, id);
      var j :| j in w.repo.refs && w.repo.refs[j].space == sid && w.repo.refs[j].record == id && w.repo.refs[j].external == Some(k);
      assert RefOk(c, w.repo, w.repo.refs[j]);
      assert IsExternal(w.repo.refs, p, sid, k, j);
    }
  }

  lemma {:induction false} CaptureAllGone(c: Config, w: World, p: Principal, sid: nat, todo: seq<(string, string)>)
    requires Base(c, w) && PurgedGone(w) && IsPersonal(w.repo.spaces, p, sid)
    ensures PurgedGone(CaptureAll(c, w, p, sid, todo).0)
    decreases |todo|
  {
    if todo != [] {
      var key := AutoKey(sid, todo[0].1);
      if FindExternal(w.repo.refs, p, sid, key).Some? {
        CaptureAllGone(c, w, p, sid, todo[1..]);
      } else {
        PersonalKeysRemembered(c, w, p, sid, key);
        AddResurrectsExactly(c, w, p, sid, todo[0].0, Some(key));
        AddApprovedKeeps(c, w, p, sid, todo[0].0, Some(key));
        CaptureAllGone(c, AddApproved(c, w, p, sid, todo[0].0, Some(key)).0, p, sid, todo[1..]);
      }
    }
  }

  lemma {:induction false} ClaimAllGone(w: World, p: Principal, sid: nat, order: seq<RecordId>)
    requires PurgedGone(w) && forall i :: i in w.repo.refs ==> i < w.repo.next
    ensures PurgedGone(ClaimAll(w, p, sid, order).0)
    decreases |order|
  {
    if order != [] {
      AddRefGrows(w.repo, sid, p, order[0], None, None);
      ClaimAllGone(w.(repo := AddRef(w.repo, sid, p, order[0], None, None).0), p, sid, order[1..]);
    }
  }

  // Manual adding, capturing and listing stay in the personal space.
  lemma PersonalGone(c: Config, w: World, call: Call)
    requires Base(c, w) && PurgedGone(w) && (call.Adding? || call.Capturing? || call.Listing?)
    ensures PurgedGone(Step(c, w, call).0)
  {
    OpeningKeepsGone(c, w, call.p);
    PersonalSpaceKeeps(c, w, call.p);
    var (w1, sid) := PersonalSpace(c, w, call.p);
    match call
    case Adding(p, content) => AddResurrectsExactly(c, w1, p, sid, content, None);
    case Capturing(p, todo) => CaptureAllGone(c, w1, p, sid, todo);
    case Listing(p, order) => ClaimAllGone(w1, p, sid, order);
  }

  // The row of a call that passes its check is in the store, so no purged reference names it.
  lemma TargetsGone(c: Config, w: World, call: Call)
    requires Base(c, w) && PurgedGone(w) && (call.Correcting? || call.Forgetting? || call.Purging?)
    ensures PurgedGone(Step(c, w, call).0)
  {
    if Step(c, w, call).0 != w { TargetOf(c, w, call.p, call.ref); }
  }

  // Calls that change neither a status nor which records are stored.
  lemma OthersGone(c: Config, w: World, call: Call)
    requires Base(c, w) && PurgedGone(w)
    requires call.Proposing? || call.Rejecting? || call.Sweeping? || call.Consenting? || Opens(call)
    ensures PurgedGone(Step(c, w, call).0)
  {
    if call.Proposing? {
      OpeningKeepsGone(c, w, call.p);
      var (w1, sid) := PersonalSpace(c, w, call.p);
      AddProposalsSameRefs(w1.repo, sid, call.p, call.contents, call.expires);
    } else {
      SameRefs(c, w, call);
      OthersSameRows(c, w, call);
    }
  }

  lemma OthersSameRows(c: Config, w: World, call: Call)
    requires Base(c, w) && (call.Rejecting? || call.Sweeping? || call.Consenting? || Opens(call))
    ensures Step(c, w, call).0.store.rows.Keys == w.store.rows.Keys
  {
    OpeningMigratesAll(c, w, call.p);
  }

  // ---------------------------------------------------------------- every call

  /** What a call has to do to bring a purged record back: store under a key that its own space does not
      remember and whose id some purged reference names. */
  ghost predicate Resurrects(c: Config, w: World, call: Call) {
    match call
    case Approving(p, pid, edited, now) => ApprovalResurrects(c, w, p, pid, edited, now)
    case Importing(p, items) => ImportResurrects(c, w, p, items)
    case GameHappening(p, service, sid, k, content) => EventResurrects(c, w, p, service, sid, k)
    case _ => false
  }

  lemma HarmlessGone(c: Config, w: World, call: Call)
    requires Base(c, w) && PurgedGone(w) && !call.Approving? && !call.Importing? && !call.GameHappening?
    ensures PurgedGone(Step(c, w, call).0)
  {
    if call.Adding? || call.Capturing? || call.Listing? { PersonalGone(c, w, call); }
    else if call.Correcting? || call.Forgetting? || call.Purging? { TargetsGone(c, w, call); }
    else { OthersGone(c, w, call); }
  }

  /** From any sound state in which no purged record is stored, a call leads to such a state again if and
      only if it does not do that. */
  lemma StepResurrectsExactly(c: Config, w: World, call: Call)
    requires Base(c, w) && PurgedGone(w)
    ensures PurgedGone(Step(c, w, call).0) <==> !Resurrects(c, w, call)
  {
    if call.Approving? { ApprovalResurrectsExactly(c, w, call.p, call.proposal, call.edited, call.now); }
    else if call.Importing? { ImportResurrectsExactly(c, w, call.p, call.items); }
    else if call.GameHappening? {
      EventResurrectsExactly(c, w, call.p, call.service, call.sid, call.key, call.content);
    } else { HarmlessGone(c, w, call); }
  }

  // ---------------------------------------------------------------- whole runs

  ghost predicate NoneResurrects(c: Config, w: World, calls: seq<Call>)
    decreases |calls|
  {
    calls == [] || (!Resurrects(c, w, calls[0]) && NoneResurrects(c, Step(c, w, calls[0]).0, calls[1..]))
  }

  // No purged record is stored at any time of the run.
  ghost predicate AlwaysGone(c: Config, w: World, calls: seq<Call>) {
    forall n :: 0 <= n <= |calls| ==> PurgedGone(Exec(c, w, calls[..n]))
  }

  /** Purged records stay out of the store throughout a run if and only if no call of the run resurrects
      one. */
  lemma {:induction false} GoneExactlyWhenNoneResurrects(c: Config, w: World, calls: seq<Call>)
    requires Base(c, w) && PurgedGone(w) && LegalRun(c, w, calls)
    ensures AlwaysGone(c, w, calls) <==> NoneResurrects(c, w, calls)
    decreases |calls|
  {
    if calls == [] {
      assert calls[..0] == [] && Exec(c, w, []) == w;
    } else {
      var w1 := Step(c, w, calls[0]).0;
      StepKeeps(c, w, calls[0]);
      StepResurrectsExactly(c, w, calls[0]);
      forall n | 0 <= n < |calls|
        ensures Exec(c, w, calls[..n + 1]) == Exec(c, w1, calls[1..][..n])
      {
        assert calls[..n + 1][1..] == calls[1..][..n];
      }
      assert calls[..0] == [] && Exec(c, w, []) == w;
      assert calls[1..][..0] == [] && Exec(c, w1, []) == w1;
      if PurgedGone(w1) { GoneExactlyWhenNoneResurrects(c, w1, calls[1..]); }
      else { assert !PurgedGone(Exec(c, w, calls[..1])); }
      AlwaysGoneTail(c, w, calls);
    }
  }

  lemma AlwaysGoneTail(c: Config, w: World, calls: seq<Call>)
    requires calls != [] && PurgedGone(w)
    requires forall n :: 0 <= n < |calls| ==> Exec(c, w, calls[..n + 1]) == Exec(c, Step(c, w, calls[0]).0, calls[1..][..n])
    ensures AlwaysGone(c, w, calls) <==> AlwaysGone(c, Step(c, w, calls[0]).0, calls[1..])
  {
    var w1 := Step(c, w, calls[0]).0;
    assert calls[..0] == [] && Exec(c, w, []) == w;
    if AlwaysGone(c, w, calls) {
      forall n | 0 <= n <= |calls[1..]|
        ensures PurgedGone(Exec(c, w1, calls[1..][..n]))
      {
        assert PurgedGone(Exec(c, w, calls[..n + 1]));
      }
    }
    if AlwaysGone(c, w1, calls[1..]) {
      forall n | 0 <= n <= |calls|
        ensures PurgedGone(Exec(c, w, calls[..n]))
      {
        if n > 0 { assert PurgedGone(Exec(c, w1, calls[1..][..n - 1])); }
      }
    }
  }

  // ---------------------------------------------------------------- a purged reference

  /** Reference i is purged, its record is gone and so is the text of the proposal it came from. */
  ghost predicate IsPurged(w: World, i: nat) {
    && i in w.repo.refs && w.repo.refs[i].status.Purged?
    && w.repo.refs[i].record !in w.store.rows
    && (w.repo.refs[i].proposal.Some? ==>
          && w.repo.refs[i].proposal.value in w.repo.proposals
          && w.repo.proposals[w.repo.refs[i].proposal.value].content.None?)
  }

  lemma PurgedMeans(c: Config, w: World, i: nat)
    requires Base(c, w) && PurgedGone(w) && i in w.repo.refs && w.repo.refs[i].status.Purged?
    ensures IsPurged(w, i)
  {
    assert RefOk(c, w.repo, w.repo.refs[i]);
  }

  /** A successful purge does purge. */
  lemma PurgePurges(c: Config, w: World, p: Principal, i: nat)
    requires Base(c, w) && Purge(c, w, p, i).1.error.None?
    ensures IsPurged(Purge(c, w, p, i).0, i)
  {
    TargetOf(c, w, p, i);
    assert RefOk(c, w.repo, w.repo.refs[i]);
  }

  // Only correcting, forgetting and purging change a status.
  lemma StatusStays(c: Config, w: World, call: Call, i: nat)
    requires Base(c, w) && i in w.repo.refs && !call.Correcting? && !call.Forgetting? && !call.Purging?
    ensures i in Step(c, w, call).0.repo.refs && Step(c, w, call).0.repo.refs[i].status == w.repo.refs[i].status
  {
    if Stores(call) { StoresRefsKept(c, w, call); }
    else if call.Proposing? { ProposeRefsKept(c, w, call.p, call.contents, call.expires); }
    else { SameRefs(c, w, call); }
  }

  // A call on a purged reference changes nothing, and is refused.
  lemma PurgedRefuses(c: Config, w: World, call: Call, i: nat)
    requires IsPurged(w, i) && (call.Correcting? || call.Forgetting? || call.Purging?) && call.ref == i
    ensures Step(c, w, call).0 == w && Step(c, w, call).1.error.Some?
  {
  }

  // A call on another reference leaves it alone.
  lemma OtherTargets(c: Config, w: World, call: Call, i: nat)
    requires (call.Correcting? || call.Forgetting? || call.Purging?) && call.ref != i && i in w.repo.refs
    ensures i in Step(c, w, call).0.repo.refs && Step(c, w, call).0.repo.refs[i] == w.repo.refs[i]
  {
  }

  lemma StepPurged(c: Config, w: World, call: Call, i: nat)
    requires Base(c, w) && PurgedGone(w) && Legal(c, w, call) && IsPurged(w, i) && !Resurrects(c, w, call)
    ensures Base(c, Step(c, w, call).0) && PurgedGone(Step(c, w, call).0) && IsPurged(Step(c, w, call).0, i)
  {
    StepKeeps(c, w, call);
    StepResurrectsExactly(c, w, call);
    if call.Correcting? || call.Forgetting? || call.Purging? {
      if call.ref == i { PurgedRefuses(c, w, call, i); } else { OtherTargets(c, w, call, i); }
    } else {
      StatusStays(c, w, call, i);
    }
    PurgedMeans(c, Step(c, w, call).0, i);
  }

  /** Purge is final as long as nothing resurrects: after any such run a purged reference is still purged,
      its record is not in the store, the text of its proposal stays cleared, and correcting, forgetting or
      purging it is refused without any effect. */
  lemma {:induction false} PurgeLasts(c: Config, w: World, calls: seq<Call>, i: nat, call: Call)
    requires Base(c, w) && PurgedGone(w) && LegalRun(c, w, calls) && NoneResurrects(c, w, calls) && IsPurged(w, i)
    requires (call.Correcting? || call.Forgetting? || call.Purging?) && call.ref == i
    ensures var w' := Exec(c, w, calls);
      IsPurged(w', i) && Step(c, w', call).0 == w' && Step(c, w', call).1.error.Some?
    decreases |calls|
  {
    if calls == [] {
      PurgedRefuses(c, w, call, i);
    } else {
      StepPurged(c, w, calls[0], i);
      PurgeLasts(c, Step(c, w, calls[0]).0, calls[1..], i, call);
    }
  }
}
