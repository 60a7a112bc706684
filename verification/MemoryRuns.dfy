/** Runs of service calls, each taken as one atomic step, and what holds over every run. */
module MemoryRuns {
  import opened Memory
  import opened MemoryInvariant

  datatype Call =
    | Visiting(p: Principal)                                   // any call that only opens the personal space
    | Proposing(p: Principal, contents: seq<string>, expires: int)
    | Approving(p: Principal, proposal: nat, edited: string, now: int)
    | Rejecting(p: Principal, proposal: nat)
    | Sweeping(p: Principal, now: int)
    | Adding(p: Principal, content: string)
    | Capturing(p: Principal, todo: seq<(string, string)>)
    | Listing(p: Principal, order: seq<RecordId>)
    | Exporting(p: Principal, order: seq<RecordId>)
    | Correcting(p: Principal, ref: nat, content: string)
    | Forgetting(p: Principal, ref: nat)
    | Purging(p: Principal, ref: nat)
    | Importing(p: Principal, items: seq<(string, Option<Key>)>)
    | Consenting(p: Principal, bridge: Bridge)
    | CreatingGame(p: Principal, service: bool, space: Space)
    | GameHappening(p: Principal, service: bool, sid: nat, key: Key, content: string)
    | Recalling(p: Principal, allowed: bool, query: string, limit: int)
    | GameRecalling(p: Principal, service: bool, sid: nat, query: string, limit: int)

  ghost function Step(c: Config, w: World, call: Call): (World, Reply) {
    match call
    case Visiting(p) => (PersonalSpace(c, w, p).0, Done())
    case Proposing(p, contents, expires) => (Propose(c, w, p, contents, expires), Done())
    case Approving(p, pid, edited, now) => Approve(c, w, p, pid, edited, now)
    case Rejecting(p, pid) => Reject(w, p, pid)
    case Sweeping(p, now) => (w.(repo := ExpireAll(w.repo, now)), Done())
    case Adding(p, content) => AddManual(c, w, p, content)
    case Capturing(p, todo) => Capture(c, w, p, todo)
    case Listing(p, order) => Records(c, w, p, order)
    case Exporting(p, order) =>
      var (w1, sid) := PersonalSpace(c, w, p);
      (w1, Reply(None, seq(|order|, i requires 0 <= i < |order| => Shown(order[i], sid, None, Active)), []))
    case Correcting(p, i, content) => Correct(c, w, p, i, content)
    case Forgetting(p, i) => Forget(c, w, p, i)
    case Purging(p, i) => Purge(c, w, p, i)
    case Importing(p, items) => Import(c, w, p, items)
    case Consenting(p, b) => SetBridge(c, w, p, b)
    case CreatingGame(p, service, s) => CreateGame(w, p, service, s)
    case GameHappening(p, service, sid, k, content) => GameEvent(c, w, p, service, sid, k, content)
    case Recalling(p, allowed, query, limit) => Context(c, w, p, allowed, query, limit)
    case GameRecalling(p, service, sid, query, limit) =>
      var s := GetSpace(w.repo, p, sid);
      if !service || s.None? || !s.value.kind.Game? then (w, Fail(AccessDenied))
      else (w, Reply(None, Search(c, w, p, sid, query, limit), []))
  }

  // The provider's listing in a listing or exporting call is a listing of the personal partition.
  ghost predicate Legal(c: Config, w: World, call: Call) {
    call.Listing? || call.Exporting? ==>
      var (w1, sid) := PersonalSpace(c, w, call.p);
      Lists(w1.store, ScopeFor(c, call.p, sid, w1.repo.spaces[sid]), call.order)
  }

  ghost predicate LegalRun(c: Config, w: World, calls: seq<Call>)
    decreases |calls|
  {
    calls == [] || (Legal(c, w, calls[0]) && LegalRun(c, Step(c, w, calls[0]).0, calls[1..]))
  }

  ghost function Exec(c: Config, w: World, calls: seq<Call>): World
    decreases |calls|
  {
    if calls == [] then w else Exec(c, Step(c, w, calls[0]).0, calls[1..])
  }

  ghost function Replies(c: Config, w: World, calls: seq<Call>): (rs: seq<Reply>)
    ensures |rs| == |calls|
    decreases |calls|
  {
    if calls == [] then [] else [Step(c, w, calls[0]).1] + Replies(c, Step(c, w, calls[0]).0, calls[1..])
  }

  // A reply of a run is the first call's, or one of the rest of the run.
  lemma RepliesAt(c: Config, w: World, calls: seq<Call>, i: nat)
    requires i < |calls|
    ensures Replies(c, w, calls)[i] ==
            if i == 0 then Step(c, w, calls[0]).1 else Replies(c, Step(c, w, calls[0]).0, calls[1..])[i - 1]
  {
  }

  // Calls that store or list records.
  predicate Stores(call: Call) {
    call.Approving? || call.Adding? || call.Capturing? || call.Importing? || call.GameHappening? || call.Listing?
  }

  // Calls that only read, or open a space.
  predicate Opens(call: Call) {
    call.Visiting? || call.Exporting? || call.Recalling? || call.GameRecalling? || call.CreatingGame?
  }

  lemma StoresKeeps(c: Config, w: World, call: Call)
    requires Base(c, w) && Legal(c, w, call) && Stores(call)
    ensures Base(c, Step(c, w, call).0)
  {
    match call
    case Approving(p, pid, edited, now) => ApproveKeeps(c, w, p, pid, edited, now);
    case Adding(p, content) => AddManualKeeps(c, w, p, content);
    case Capturing(p, todo) => CaptureKeeps(c, w, p, todo);
    case Listing(p, order) => RecordsKeeps(c, w, p, order);
    case Importing(p, items) => ImportKeeps(c, w, p, items);
    case GameHappening(p, service, sid, k, content) => GameEventKeeps(c, w, p, service, sid, k, content);
  }

  lemma OpensKeeps(c: Config, w: World, call: Call)
    requires Base(c, w) && Opens(call)
    ensures Base(c, Step(c, w, call).0)
  {
    match call
    case CreatingGame(p, service, s) => CreateGameKeeps(c, w, p, service, s);
    case GameRecalling(_, _, _, _, _) =>
    case Visiting(p) => PersonalSpaceKeeps(c, w, p);
    case Exporting(p, _) => PersonalSpaceKeeps(c, w, p);
    case Recalling(p, _, _, _) => PersonalSpaceKeeps(c, w, p);
  }

  lemma ChangesKeeps(c: Config, w: World, call: Call)
    requires Base(c, w) && !Stores(call) && !Opens(call)
    ensures Base(c, Step(c, w, call).0)
  {
    match call
    case Proposing(p, contents, expires) => ProposeKeeps(c, w, p, contents, expires);
    case Rejecting(p, pid) => RejectKeeps(c, w, p, pid);
    case Sweeping(p, now) => SweepKeeps(c, w, now);
    case Correcting(p, i, content) => CorrectKeeps(c, w, p, i, content);
    case Forgetting(p, i) => ForgetKeeps(c, w, p, i);
    case Purging(p, i) => PurgeKeeps(c, w, p, i);
    case Consenting(p, b) => SetBridgeKeeps(c, w, p, b);
  }

  lemma StepKeeps(c: Config, w: World, call: Call)
    requires Base(c, w) && Legal(c, w, call)
    ensures Base(c, Step(c, w, call).0)
  {
    if Stores(call) { StoresKeeps(c, w, call); }
    else if Opens(call) { OpensKeeps(c, w, call); }
    else { ChangesKeeps(c, w, call); }
  }

  lemma {:induction false} RunKeeps(c: Config, w: World, calls: seq<Call>)
    requires Base(c, w) && LegalRun(c, w, calls)
    ensures Base(c, Exec(c, w, calls))
    decreases |calls|
  {
    if calls != [] {
      StepKeeps(c, w, calls[0]);
      RunKeeps(c, Step(c, w, calls[0]).0, calls[1..]);
    }
  }

  /** References index the store: over every run they are unique by space and provider record and by
      space and external id, the two unique indexes of the SQL schema. */
  lemma ReferencesUnique(c: Config, w: World, calls: seq<Call>)
    requires Fresh(w) && LegalRun(c, w, calls)
    ensures UniqueRecords(Exec(c, w, calls).repo) && UniqueExternals(Exec(c, w, calls).repo)
  {
    FreshIsBase(c, w);
    RunKeeps(c, w, calls);
    ExternalsUnique(c, Exec(c, w, calls));
  }

  lemma ExternalsUnique(c: Config, w: World)
    requires Base(c, w)
    ensures UniqueExternals(w.repo)
  {
    forall i, j | i in w.repo.refs && j in w.repo.refs && SameExternal(w.repo.refs[i], w.repo.refs[j])
      ensures i == j
    {
      assert RefOk(c, w.repo, w.repo.refs[i]) && RefOk(c, w.repo, w.repo.refs[j]);
      assert SameRecord(w.repo.refs[i], w.repo.refs[j]);
    }
  }

  // ---------------------------------------------------------------- growth

  lemma KeptTransitive(r: Repo, s: Repo, t: Repo)
    requires RefsKept(r, s) && RefsKept(s, t)
    ensures RefsKept(r, t)
  {
    forall i | i in r.refs
      ensures i in t.refs && t.refs[i] == r.refs[i]
    {
      assert i in s.refs;
    }
  }

  lemma AddApprovedRefsKept(c: Config, w: World, p: Principal, sid: nat, content: string, ext: Option<Key>)
    requires Base(c, w) && Owns(w.repo.spaces, p, sid)
    ensures RefsKept(w.repo, AddApproved(c, w, p, sid, content, ext).0.repo)
  {
    if Ingest(c, w, p, sid, content, ext, None, ext).Some? {
      var _, _ := IngestEffect(c, w, p, sid, content, ext, None, ext);
    }
  }

  lemma {:induction false} CaptureAllRefsKept(c: Config, w: World, p: Principal, sid: nat, todo: seq<(string, string)>)
    requires Base(c, w) && Owns(w.repo.spaces, p, sid)
    ensures RefsKept(w.repo, CaptureAll(c, w, p, sid, todo).0.repo)
    decreases |todo|
  {
    if todo != [] {
      var key := AutoKey(sid, todo[0].1);
      if FindExternal(w.repo.refs, p, sid, key).Some? {
        CaptureAllRefsKept(c, w, p, sid, todo[1..]);
      } else {
        var w1 := AddApproved(c, w, p, sid, todo[0].0, Some(key)).0;
        AddApprovedRefsKept(c, w, p, sid, todo[0].0, Some(key));
        AddApprovedKeeps(c, w, p, sid, todo[0].0, Some(key));
        CaptureAllRefsKept(c, w1, p, sid, todo[1..]);
        KeptTransitive(w.repo, w1.repo, CaptureAll(c, w1, p, sid, todo[1..]).0.repo);
      }
    }
  }

  lemma {:induction false} ImportRefsKept(c: Config, w: World, p: Principal, items: seq<(string, Option<Key>)>)
    requires Base(c, w)
    ensures RefsKept(w.repo, Import(c, w, p, items).0.repo)
    decreases |items|
  {
    if items != [] {
      if c.strip(items[0].0) == "" {
        ImportRefsKept(c, w, p, items[1..]);
      } else {
        PersonalSpaceKeeps(c, w, p);
        var (w1, sid) := PersonalSpace(c, w, p);
        if items[0].1.Some? && FindExternal(w1.repo.refs, p, sid, items[0].1.value).Some? {
          ImportRefsKept(c, w1, p, items[1..]);
          KeptTransitive(w.repo, w1.repo, Import(c, w1, p, items[1..]).0.repo);
        } else {
          var w2 := AddApproved(c, w1, p, sid, items[0].0, items[0].1).0;
          AddApprovedRefsKept(c, w1, p, sid, items[0].0, items[0].1);
          AddApprovedKeeps(c, w1, p, sid, items[0].0, items[0].1);
          ImportRefsKept(c, w2, p, items[1..]);
          KeptTransitive(w.repo, w2.repo, Import(c, w2, p, items[1..]).0.repo);
        }
      }
    }
  }

  lemma {:induction false} ClaimAllRefsKept(w: World, p: Principal, sid: nat, order: seq<RecordId>)
    requires forall i :: i in w.repo.refs ==> i < w.repo.next
    ensures var w' := ClaimAll(w, p, sid, order).0;
      RefsKept(w.repo, w'.repo) && w'.store == w.store && forall i :: i in w'.repo.refs ==> i < w'.repo.next
    decreases |order|
  {
    if order != [] {
      AddRefGrows(w.repo, sid, p, order[0], None, None);
      var w1 := w.(repo := AddRef(w.repo, sid, p, order[0], None, None).0);
      ClaimAllRefsKept(w1, p, sid, order[1..]);
      KeptTransitive(w.repo, w1.repo, ClaimAll(w1, p, sid, order[1..]).0.repo);
    }
  }

  lemma {:induction false} AddProposalsSameRefs(r: Repo, sid: nat, p: Principal, contents: seq<string>, expires: int)
    ensures AddProposals(r, sid, p, contents, expires).refs == r.refs
    decreases |contents|
  {
    if contents != [] {
      AddProposalsSameRefs(AddProposal(r, sid, p, contents[0], expires), sid, p, contents[1..], expires);
    }
  }

  lemma ProposeRefsKept(c: Config, w: World, p: Principal, contents: seq<string>, expires: int)
    ensures RefsKept(w.repo, Propose(c, w, p, contents, expires).repo)
  {
    var (w1, sid) := PersonalSpace(c, w, p);
    AddProposalsSameRefs(w1.repo, sid, p, contents, expires);
  }

  lemma AddManualRefsKept(c: Config, w: World, p: Principal, content: string)
    requires Base(c, w)
    ensures RefsKept(w.repo, AddManual(c, w, p, content).0.repo)
  {
    PersonalSpaceKeeps(c, w, p);
    var (w1, sid) := PersonalSpace(c, w, p);
    AddApprovedRefsKept(c, w1, p, sid, content, None);
  }

  lemma CaptureRefsKept(c: Config, w: World, p: Principal, todo: seq<(string, string)>)
    requires Base(c, w)
    ensures RefsKept(w.repo, Capture(c, w, p, todo).0.repo)
  {
    PersonalSpaceKeeps(c, w, p);
    var (w1, sid) := PersonalSpace(c, w, p);
    CaptureAllRefsKept(c, w1, p, sid, todo);
  }

  lemma RecordsRefsKept(c: Config, w: World, p: Principal, order: seq<RecordId>)
    requires Base(c, w)
    ensures RefsKept(w.repo, Records(c, w, p, order).0.repo)
  {
    PersonalSpaceKeeps(c, w, p);
    var (w1, sid) := PersonalSpace(c, w, p);
    ClaimAllRefsKept(w1, p, sid, order);
  }

  lemma GameEventRefsKept(c: Config, w: World, p: Principal, service: bool, sid: nat, k: Key, content: string)
    requires Base(c, w)
    ensures RefsKept(w.repo, GameEvent(c, w, p, service, sid, k, content).0.repo)
  {
    if GameEvent(c, w, p, service, sid, k, content).0 != w {
      var _, _ := IngestEffect(c, w, p, sid, content, Some(k), None, Some(k));
    }
  }

  lemma StoresRefsKept(c: Config, w: World, call: Call)
    requires Base(c, w) && Stores(call)
    ensures RefsKept(w.repo, Step(c, w, call).0.repo)
  {
    if call.Approving? { ApproveRefsKept(c, w, call.p, call.proposal, call.edited, call.now); }
    else if call.GameHappening? { GameEventRefsKept(c, w, call.p, call.service, call.sid, call.key, call.content); }
    else { PersonalRefsKept(c, w, call); }
  }

  lemma PersonalRefsKept(c: Config, w: World, call: Call)
    requires Base(c, w) && (call.Adding? || call.Capturing? || call.Listing? || call.Importing?)
    ensures RefsKept(w.repo, Step(c, w, call).0.repo)
  {
    match call
    case Adding(p, content) => AddManualRefsKept(c, w, p, content);
    case Capturing(p, todo) => CaptureRefsKept(c, w, p, todo);
    case Listing(p, order) => RecordsRefsKept(c, w, p, order);
    case Importing(p, items) => ImportRefsKept(c, w, p, items);
  }

  /** No call drops a reference or changes anything of it but its status. */
  lemma StepGrows(c: Config, w: World, call: Call)
    requires Base(c, w)
    ensures RefsGrow(w.repo, Step(c, w, call).0.repo)
  {
    if Stores(call) { StoresRefsKept(c, w, call); }
    else if call.Proposing? { ProposeRefsKept(c, w, call.p, call.contents, call.expires); }
    else if call.Correcting? || call.Forgetting? || call.Purging? { StatusGrows(c, w, call); }
    else { SameRefs(c, w, call); }
  }

  lemma StatusGrows(c: Config, w: World, call: Call)
    requires call.Correcting? || call.Forgetting? || call.Purging?
    ensures RefsGrow(w.repo, Step(c, w, call).0.repo)
  {
    if call.Correcting? { CorrectGrows(c, w, call.p, call.ref, call.content); }
    else if call.Forgetting? { ForgetGrows(c, w, call.p, call.ref); }
    else { PurgeGrows(c, w, call.p, call.ref); }
  }

  lemma CorrectGrows(c: Config, w: World, p: Principal, i: nat, content: string)
    ensures RefsGrow(w.repo, Correct(c, w, p, i, content).0.repo)
  {
  }

  lemma ForgetGrows(c: Config, w: World, p: Principal, i: nat)
    ensures RefsGrow(w.repo, Forget(c, w, p, i).0.repo)
  {
  }

  lemma PurgeGrows(c: Config, w: World, p: Principal, i: nat)
    ensures RefsGrow(w.repo, Purge(c, w, p, i).0.repo)
  {
  }

  lemma SameRefs(c: Config, w: World, call: Call)
    requires Opens(call) || call.Rejecting? || call.Sweeping? || call.Consenting?
    ensures Step(c, w, call).0.repo.refs == w.repo.refs
  {
  }

  lemma ApproveRefsKept(c: Config, w: World, p: Principal, pid: nat, edited: string, now: int)
    requires RefsOk(c, w.repo) && Base(c, w)
    ensures RefsKept(w.repo, Approve(c, w, p, pid, edited, now).0.repo)
  {
    if pid in w.repo.proposals && GetSpace(w.repo, p, w.repo.proposals[pid].space).Some? {
      var item := w.repo.proposals[pid];
      var content := c.strip(if edited != "" || item.content.None? then edited else item.content.value);
      if Ingest(c, w, p, item.space, content, Some(ProposalKey(pid)), Some(pid), None).Some? {
        var _, _ := IngestEffect(c, w, p, item.space, content, Some(ProposalKey(pid)), Some(pid), None);
      }
    }
  }

  // ---------------------------------------------------------------- tombstones

  // The space of a capture key remembers it.
  ghost predicate Taken(r: Repo, k: Key) {
    k.AutoKey? && exists i :: i in r.refs && r.refs[i].space == k.space && r.refs[i].external == Some(k)
  }

  lemma TakenGrows(r: Repo, r': Repo, k: Key)
    requires RefsGrow(r, r') && Taken(r, k)
    ensures Taken(r', k)
  {
    var i :| i in r.refs && r.refs[i].space == k.space && r.refs[i].external == Some(k);
    assert i in r'.refs;
  }

  ghost predicate NoRepeats(ks: seq<Key>) {
    forall i, j :: 0 <= i < j < |ks| ==> ks[i] != ks[j]
  }

  lemma {:induction false} CaptureAllTakes(c: Config, w: World, p: Principal, sid: nat, todo: seq<(string, string)>)
    requires Base(c, w) && IsPersonal(w.repo.spaces, p, sid)
    ensures var (w', reply) := CaptureAll(c, w, p, sid, todo);
      && (forall k :: k in reply.captured ==> !Taken(w.repo, k) && Taken(w'.repo, k))
      && NoRepeats(reply.captured)
    decreases |todo|
  {
    if todo != [] {
      var key := AutoKey(sid, todo[0].1);
      if FindExternal(w.repo.refs, p, sid, key).Some? {
        CaptureAllTakes(c, w, p, sid, todo[1..]);
      } else {
        var (w1, e) := AddApproved(c, w, p, sid, todo[0].0, Some(key));
        AddApprovedKeeps(c, w, p, sid, todo[0].0, Some(key));
        AddApprovedRefsKept(c, w, p, sid, todo[0].0, Some(key));
        if e.None? {
          NotTaken(c, w, p, sid, key);
          StoredIsTaken(c, w, p, sid, todo[0].0, key);
          CaptureAllTakes(c, w1, p, sid, todo[1..]);
          CaptureAllRefsKept(c, w1, p, sid, todo[1..]);
          var (w', rest) := CaptureAll(c, w1, p, sid, todo[1..]);
          TakenGrows(w1.repo, w'.repo, key);
          forall k | k in rest.captured
            ensures !Taken(w.repo, k) && k != key
          {
            if Taken(w.repo, k) { TakenGrows(w.repo, w1.repo, k); }
          }
        }
      }
    }
  }

  lemma NotTaken(c: Config, w: World, p: Principal, sid: nat, key: Key)
    requires Base(c, w) && IsPersonal(w.repo.spaces, p, sid) && key.AutoKey? && key.space == sid
    requires FindExternal(w.repo.refs, p, sid, key).None?
    ensures !Taken(w.repo, key)
  {
    if Taken(w.repo, key) {
      var i :| i in w.repo.refs && w.repo.refs[i].space == sid && w.repo.refs[i].external == Some(key);
      assert RefOk(c, w.repo, w.repo.refs[i]);
      assert IsExternal(w.repo.refs, p, sid, key, i);
    }
  }

  lemma StoredIsTaken(c: Config, w: World, p: Principal, sid: nat, content: string, key: Key)
    requires Base(c, w) && IsPersonal(w.repo.spaces, p, sid) && key.AutoKey? && key.space == sid
    requires FindExternal(w.repo.refs, p, sid, key).None?
    requires AddApproved(c, w, p, sid, content, Some(key)).1.None?
    ensures Taken(AddApproved(c, w, p, sid, content, Some(key)).0.repo, key)
  {
    var w' := AddApproved(c, w, p, sid, content, Some(key)).0;
    AddApprovedKeeps(c, w, p, sid, content, Some(key));
    var id, n := IngestEffect(c, w, p, sid, content, Some(key), None, Some(key));
    assert Remembered(c, w', sid, key);
    assert Known(w', id);
  }

  lemma CaptureTakes(c: Config, w: World, call: Call)
    requires Base(c, w)
    ensures var (w', reply) := Step(c, w, call);
      && (forall k :: k in reply.captured ==> !Taken(w.repo, k) && Taken(w'.repo, k))
      && NoRepeats(reply.captured)
  {
    if call.Capturing? {
      PersonalSpaceKeeps(c, w, call.p);
      var (w1, sid) := PersonalSpace(c, w, call.p);
      assert forall k :: Taken(w.repo, k) ==> Taken(w1.repo, k);
      CaptureAllTakes(c, w1, call.p, sid, call.todo);
    } else {
      OnlyCaptureCaptures(c, w, call);
    }
  }

  lemma OnlyCaptureCaptures(c: Config, w: World, call: Call)
    requires !call.Capturing?
    ensures Step(c, w, call).1.captured == []
  {
    if call.Importing? { ImportCapturesNothing(c, w, call.p, call.items); }
  }

  lemma {:induction false} ImportCapturesNothing(c: Config, w: World, p: Principal, items: seq<(string, Option<Key>)>)
    ensures Import(c, w, p, items).1.captured == []
    decreases |items|
  {
    if items != [] {
      var (w1, sid) := PersonalSpace(c, w, p);
      ImportCapturesNothing(c, w, p, items[1..]);
      ImportCapturesNothing(c, w1, p, items[1..]);
      ImportCapturesNothing(c, AddApproved(c, w1, p, sid, items[0].0, items[0].1).0, p, items[1..]);
    }
  }

  lemma {:induction false} TakenStays(c: Config, w: World, calls: seq<Call>, k: Key, j: nat)
    requires Base(c, w) && LegalRun(c, w, calls) && Taken(w.repo, k) && j < |calls|
    ensures k !in Replies(c, w, calls)[j].captured
    decreases |calls|
  {
    RepliesAt(c, w, calls, j);
    if j == 0 {
      CaptureTakes(c, w, calls[0]);
    } else {
      StepKeeps(c, w, calls[0]);
      StepGrows(c, w, calls[0]);
      TakenGrows(w.repo, Step(c, w, calls[0]).0.repo, k);
      TakenStays(c, Step(c, w, calls[0]).0, calls[1..], k, j - 1);
    }
  }

  /** Tombstones: over a whole run automatic capture stores a normalized text at most once per personal
      space, whatever is forgotten or purged in between. */
  lemma {:induction false} CapturedAtMostOnce(c: Config, w: World, calls: seq<Call>, i: nat, j: nat, k: Key)
    requires Base(c, w) && LegalRun(c, w, calls) && i <= j < |calls|
    requires k in Replies(c, w, calls)[i].captured && k in Replies(c, w, calls)[j].captured
    ensures i == j && NoRepeats(Replies(c, w, calls)[i].captured)
    decreases |calls|
  {
    RepliesAt(c, w, calls, i);
    RepliesAt(c, w, calls, j);
    StepKeeps(c, w, calls[0]);
    if i > 0 {
      CapturedAtMostOnce(c, Step(c, w, calls[0]).0, calls[1..], i - 1, j - 1, k);
    } else {
      CaptureTakes(c, w, calls[0]);
      if j > 0 { TakenStays(c, Step(c, w, calls[0]).0, calls[1..], k, j - 1); }
    }
  }
}
