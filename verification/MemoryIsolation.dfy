/** Principals do not see or change each other's memory, and a bridge opens only what its owner agreed
    to last. */
module MemoryIsolation {
  import opened Memory
  import opened MemoryInvariant
  import opened MemoryRuns

  /** Everything the memory holds of one principal but the proposals: the stored records under the
      pseudonym, the references, the spaces and the bridge consents. */
  datatype Holdings = Holdings(rows: map<RecordId, Row>, refs: map<nat, Ref>, spaces: map<nat, Space>, bridges: set<Bridge>)

  function HoldingsOf(w: World, p: Principal): Holdings {
    Holdings(RowsOf(w.store.rows, p), RefsOf(w.repo.refs, p),
             map i | i in w.repo.spaces && w.repo.spaces[i].owner == p :: w.repo.spaces[i],
             set b | b in w.repo.bridges && b.principal == p)
  }

  function RowsOf(rows: map<RecordId, Row>, p: Principal): map<RecordId, Row> {
    map id | id in rows && rows[id].user == Pseudonym(p) :: rows[id]
  }

  function RefsOf(refs: map<nat, Ref>, p: Principal): map<nat, Ref> {
    map i | i in refs && refs[i].principal == p :: refs[i]
  }

  // One row changes, before and after another subject's.
  lemma RowApart(rows: map<RecordId, Row>, rows': map<RecordId, Row>, id: RecordId, p: Principal)
    requires forall o :: o != id ==> (o in rows <==> o in rows') && (o in rows ==> rows'[o] == rows[o])
    requires id in rows ==> rows[id].user != Pseudonym(p)
    requires id in rows' ==> rows'[id].user != Pseudonym(p)
    ensures RowsOf(rows', p) == RowsOf(rows, p)
  {
  }

  // One reference changes, before and after another principal's.
  lemma RefApart(refs: map<nat, Ref>, refs': map<nat, Ref>, n: nat, p: Principal)
    requires forall o :: o != n ==> (o in refs <==> o in refs') && (o in refs ==> refs'[o] == refs[o])
    requires n in refs ==> refs[n].principal != p
    requires n in refs' ==> refs'[n].principal != p
    ensures RefsOf(refs', p) == RefsOf(refs, p)
  {
  }

  function ProposalsOf(r: Repo, p: Principal): map<nat, Proposal> {
    map i | i in r.proposals && r.proposals[i].principal == p :: r.proposals[i]
  }

  // What a call of q does to the holdings and the proposals of p, the sweep aside.
  ghost predicate Apart(w: World, w': World, p: Principal) {
    HoldingsOf(w', p) == HoldingsOf(w, p) && ProposalsOf(w'.repo, p) == ProposalsOf(w.repo, p)
  }

  // ---------------------------------------------------------------- the parts of a call

  lemma PersonalSpaceApart(c: Config, w: World, q: Principal, p: Principal)
    requires Base(c, w) && q != p
    ensures Apart(w, PersonalSpace(c, w, q).0, p)
  {
    PersonalFound(w.repo, q);
    PersonalSpaceKeeps(c, w, q);
    var w' := PersonalSpace(c, w, q).0;
    assert HoldingsOf(w', p).rows == HoldingsOf(w, p).rows;
    assert HoldingsOf(w', p).spaces == HoldingsOf(w, p).spaces;
  }

  lemma IngestApart(c: Config, w: World, q: Principal, p: Principal, sid: nat, content: string, key: Option<Key>,
                    pid: Option<nat>, ext: Option<Key>)
    requires Base(c, w) && q != p && Owns(w.repo.spaces, q, sid)
    requires Ingest(c, w, q, sid, content, key, pid, ext).Some?
    ensures Apart(w, Ingest(c, w, q, sid, content, key, pid, ext).value, p)
  {
    var w' := Ingest(c, w, q, sid, content, key, pid, ext).value;
    var id, n := IngestEffect(c, w, q, sid, content, key, pid, ext);
    assert n in w.repo.refs ==> RefOk(c, w.repo, w.repo.refs[n]);
    RowApart(w.store.rows, w'.store.rows, id, p);
    RefApart(w.repo.refs, w'.repo.refs, n, p);
  }

  lemma AddApprovedApart(c: Config, w: World, q: Principal, p: Principal, sid: nat, content: string, ext: Option<Key>)
    requires Base(c, w) && q != p && Owns(w.repo.spaces, q, sid)
    ensures Apart(w, AddApproved(c, w, q, sid, content, ext).0, p)
  {
    if Ingest(c, w, q, sid, content, ext, None, ext).Some? {
      IngestApart(c, w, q, p, sid, content, ext, None, ext);
    }
  }

  lemma {:induction false} CaptureAllApart(c: Config, w: World, q: Principal, p: Principal, sid: nat, todo: seq<(string, string)>)
    requires Base(c, w) && q != p && Owns(w.repo.spaces, q, sid)
    ensures Apart(w, CaptureAll(c, w, q, sid, todo).0, p)
    decreases |todo|
  {
    if todo != [] {
      var key := AutoKey(sid, todo[0].1);
      if FindExternal(w.repo.refs, q, sid, key).Some? {
        CaptureAllApart(c, w, q, p, sid, todo[1..]);
      } else {
        AddApprovedApart(c, w, q, p, sid, todo[0].0, Some(key));
        AddApprovedKeeps(c, w, q, sid, todo[0].0, Some(key));
        CaptureAllApart(c, AddApproved(c, w, q, sid, todo[0].0, Some(key)).0, q, p, sid, todo[1..]);
      }
    }
  }

  lemma {:induction false} ImportApart(c: Config, w: World, q: Principal, p: Principal, items: seq<(string, Option<Key>)>)
    requires Base(c, w) && q != p
    ensures Apart(w, Import(c, w, q, items).0, p)
    decreases |items|
  {
    if items != [] {
      if c.strip(items[0].0) == "" {
        ImportApart(c, w, q, p, items[1..]);
      } else {
        PersonalSpaceKeeps(c, w, q);
        PersonalSpaceApart(c, w, q, p);
        var (w1, sid) := PersonalSpace(c, w, q);
        if items[0].1.Some? && FindExternal(w1.repo.refs, q, sid, items[0].1.value).Some? {
          ImportApart(c, w1, q, p, items[1..]);
        } else {
          AddApprovedApart(c, w1, q, p, sid, items[0].0, items[0].1);
          AddApprovedKeeps(c, w1, q, sid, items[0].0, items[0].1);
          ImportApart(c, AddApproved(c, w1, q, sid, items[0].0, items[0].1).0, q, p, items[1..]);
        }
      }
    }
  }

  lemma {:induction false} ClaimAllApart(w: World, q: Principal, p: Principal, sid: nat, order: seq<RecordId>)
    requires q != p && forall i :: i in w.repo.refs ==> i < w.repo.next
    ensures Apart(w, ClaimAll(w, q, sid, order).0, p)
    decreases |order|
  {
    if order != [] {
      var w1 := w.(repo := AddRef(w.repo, sid, q, order[0], None, None).0);
      AddRefGrows(w.repo, sid, q, order[0], None, None);
      assert HoldingsOf(w1, p).refs == HoldingsOf(w, p).refs;
      ClaimAllApart(w1, q, p, sid, order[1..]);
    }
  }

  lemma {:induction false} AddProposalsApart(r: Repo, sid: nat, q: Principal, p: Principal, contents: seq<string>, expires: int)
    requires q != p && forall i :: i in r.proposals ==> i < r.next
    ensures var r' := AddProposals(r, sid, q, contents, expires);
      && ProposalsOf(r', p) == ProposalsOf(r, p) && r' == r.(proposals := r'.proposals, next := r'.next)
    decreases |contents|
  {
    if contents != [] {
      var r1 := AddProposal(r, sid, q, contents[0], expires);
      assert ProposalsOf(r1, p) == ProposalsOf(r, p);
      AddProposalsApart(r1, sid, q, p, contents[1..], expires);
    }
  }

  lemma TransitionApart(w: World, q: Principal, p: Principal, pid: nat, to: ProposalState, content: Option<string>)
    requires q != p && Transition(w.repo, q, pid, to, content).Some?
    ensures Apart(w, w.(repo := Transition(w.repo, q, pid, to, content).value), p)
  {
    var r' := Transition(w.repo, q, pid, to, content).value;
    assert ProposalsOf(r', p) == ProposalsOf(w.repo, p);
  }

  lemma ApproveApart(c: Config, w: World, q: Principal, p: Principal, pid: nat, edited: string, now: int)
    requires Base(c, w) && q != p
    ensures Apart(w, Approve(c, w, q, pid, edited, now).0, p)
  {
    var w' := Approve(c, w, q, pid, edited, now).0;
    if w' != w {
      var item := w.repo.proposals[pid];
      if item.expires <= now {
        TransitionApart(w, q, p, pid, Expired, None);
      } else {
        var content := c.strip(if edited != "" then edited else item.content.value);
        IngestApart(c, w, q, p, item.space, content, Some(ProposalKey(pid)), Some(pid), None);
        var w1 := Ingest(c, w, q, item.space, content, Some(ProposalKey(pid)), Some(pid), None).value;
        TransitionApart(w1, q, p, pid, Approved, Some(content));
      }
    }
  }

  // Correcting, forgetting and purging reach the caller's own reference, its row and its proposal.
  lemma TargetsApart(c: Config, w: World, call: Call, p: Principal)
    requires Base(c, w) && call.p != p && (call.Correcting? || call.Forgetting? || call.Purging?)
    ensures Apart(w, Step(c, w, call).0, p)
  {
    var w' := Step(c, w, call).0;
    if w' != w {
      TargetOf(c, w, call.p, call.ref);
      var (ref, sc) := Target(c, w, call.p, call.ref).value;
      assert RefOk(c, w.repo, ref);
      RowApart(w.store.rows, w'.store.rows, ref.record, p);
      RefApart(w.repo.refs, w'.repo.refs, call.ref, p);
      if call.Purging? { PurgeContentApart(w.repo, call.p, p, call.ref); }
    }
  }

  lemma PurgeContentApart(r: Repo, q: Principal, p: Principal, i: nat)
    requires q != p && i in r.refs && r.refs[i].principal == q
    requires r.refs[i].proposal.Some? ==> r.refs[i].proposal.value in r.proposals && r.proposals[r.refs[i].proposal.value].principal == q
    ensures ProposalsOf(PurgeContent(r, q, i), p) == ProposalsOf(r, p)
  {
  }

  lemma SetBridgeApart(c: Config, w: World, q: Principal, p: Principal, b: Bridge)
    requires Base(c, w) && q != p
    ensures Apart(w, SetBridge(c, w, q, b).0, p)
  {
    var w' := SetBridge(c, w, q, b).0;
    if w' != w {
      PutBridgeKeeps(c, w.repo, w.repo.bridges, b.(principal := q));
      assert HoldingsOf(w', p).bridges == HoldingsOf(w, p).bridges;
    }
  }

  lemma CreateGameApart(c: Config, w: World, q: Principal, p: Principal, service: bool, s: Space)
    requires Base(c, w) && q != p
    ensures Apart(w, CreateGame(w, q, service, s).0, p)
  {
    var w' := CreateGame(w, q, service, s).0;
    assert HoldingsOf(w', p).spaces == HoldingsOf(w, p).spaces;
  }

  // ---------------------------------------------------------------- whole calls

  lemma StoresApart(c: Config, w: World, call: Call, p: Principal)
    requires Base(c, w) && call.p != p && Stores(call)
    ensures Apart(w, Step(c, w, call).0, p)
  {
    PersonalSpaceApart(c, w, call.p, p);
    PersonalSpaceKeeps(c, w, call.p);
    var (w1, sid) := PersonalSpace(c, w, call.p);
    match call
    case Approving(q, pid, edited, now) => ApproveApart(c, w, q, p, pid, edited, now);
    case Adding(q, content) => AddApprovedApart(c, w1, q, p, sid, content, None);
    case Capturing(q, todo) => CaptureAllApart(c, w1, q, p, sid, todo);
    case Listing(q, order) => ClaimAllApart(w1, q, p, sid, order);
    case Importing(q, items) => ImportApart(c, w, q, p, items);
    case GameHappening(q, service, game, k, content) =>
      if Step(c, w, call).0 != w { IngestApart(c, w, q, p, game, content, Some(k), None, Some(k)); }
  }

  lemma ChangesApart(c: Config, w: World, call: Call, p: Principal)
    requires Base(c, w) && call.p != p && !Stores(call) && !Opens(call) && !call.Sweeping?
    ensures Apart(w, Step(c, w, call).0, p)
  {
    match call
    case Proposing(q, contents, expires) =>
      PersonalSpaceApart(c, w, q, p);
      PersonalSpaceKeeps(c, w, q);
      var (w1, sid) := PersonalSpace(c, w, q);
      AddProposalsApart(w1.repo, sid, q, p, contents, expires);
    case Rejecting(q, pid) =>
      if Transition(w.repo, q, pid, Rejected, None).Some? { TransitionApart(w, q, p, pid, Rejected, None); }
    case Consenting(q, b) => SetBridgeApart(c, w, q, p, b);
    case _ => TargetsApart(c, w, call, p);
  }

  lemma OpensApart(c: Config, w: World, call: Call, p: Principal)
    requires Base(c, w) && call.p != p && Opens(call)
    ensures Apart(w, Step(c, w, call).0, p)
  {
    if call.CreatingGame? { CreateGameApart(c, w, call.p, p, call.service, call.space); }
    else if !call.GameRecalling? { PersonalSpaceApart(c, w, call.p, p); }
  }

  /** A call of another principal leaves a principal's records, references, spaces and consents alone.
      The proposals change only in the expiry sweep, which every caller's listing of proposals runs over
      all of them. */
  lemma StepApart(c: Config, w: World, call: Call, p: Principal)
    requires Base(c, w) && call.p != p
    ensures var w' := Step(c, w, call).0;
      && HoldingsOf(w', p) == HoldingsOf(w, p)
      && ProposalsOf(w'.repo, p) == (if call.Sweeping? then ProposalsOf(ExpireAll(w.repo, call.now), p) else ProposalsOf(w.repo, p))
  {
    if call.Sweeping? {
    } else if Stores(call) {
      StoresApart(c, w, call, p);
    } else if Opens(call) {
      OpensApart(c, w, call, p);
    } else {
      ChangesApart(c, w, call, p);
    }
  }

  /** Personal isolation: over every run of other principals' calls nothing a principal holds changes. */
  lemma {:induction false} OthersChangeNothing(c: Config, w: World, calls: seq<Call>, p: Principal)
    requires Base(c, w) && LegalRun(c, w, calls) && forall call :: call in calls ==> call.p != p
    ensures HoldingsOf(Exec(c, w, calls), p) == HoldingsOf(w, p)
    decreases |calls|
  {
    if calls != [] {
      assert calls[0] in calls;
      StepApart(c, w, calls[0], p);
      StepKeeps(c, w, calls[0]);
      OthersChangeNothing(c, Step(c, w, calls[0]).0, calls[1..], p);
    }
  }

  // ---------------------------------------------------------------- what a caller is shown

  // The entry is a record of one of the caller's spaces, under one of the caller's references if any.
  ghost predicate ShowsOwn(c: Config, w: World, q: Principal, e: Shown) {
    && e.space in w.repo.spaces && w.repo.spaces[e.space].owner == q
    && Has(w.store, ScopeOf(c, w.repo.spaces, e.space), e.record)
    && (e.ref.Some? ==> e.ref.value in w.repo.refs && w.repo.refs[e.ref.value].principal == q)
  }

  ghost predicate AllOwn(c: Config, w: World, q: Principal, shown: seq<Shown>) {
    forall n :: 0 <= n < |shown| ==> ShowsOwn(c, w, q, shown[n])
  }

  lemma SearchShowsOwn(c: Config, w: World, q: Principal, sid: nat, query: string, limit: int)
    requires Base(c, w) && Honest(c) && Owns(w.repo.spaces, q, sid)
    ensures AllOwn(c, w, q, Search(c, w, q, sid, query, limit))
    ensures |Search(c, w, q, sid, query, limit)| <= (if limit < 0 then 0 else limit)
    ensures forall n :: 0 <= n < |Search(c, w, q, sid, query, limit)| ==> Search(c, w, q, sid, query, limit)[n].space == sid
  {
    var sc := ScopeFor(c, q, sid, w.repo.spaces[sid]);
    var ids := c.search(w.store.rows, sc, query, limit);
    assert HonestAnswer(w.store.rows, sc, limit, ids);
    assert forall n :: 0 <= n < |ids| ==> ids[n] in ids;
  }

  lemma {:induction false} ClaimAllShowsOwn(c: Config, w: World, q: Principal, sid: nat, order: seq<RecordId>)
    requires Base(c, w) && IsPersonal(w.repo.spaces, q, sid)
    requires forall id :: id in order ==> Has(w.store, ScopeOf(c, w.repo.spaces, sid), id)
    ensures AllOwn(c, ClaimAll(w, q, sid, order).0, q, ClaimAll(w, q, sid, order).1)
    decreases |order|
  {
    if order != [] {
      var (r, i) := AddRef(w.repo, sid, q, order[0], None, None);
      var w1 := w.(repo := r);
      AddRefGrows(w.repo, sid, q, order[0], None, None);
      ClaimKeeps(c, w, q, sid, order[0]);
      assert RefOk(c, r, r.refs[i]);
      ClaimAllShowsOwn(c, w1, q, sid, order[1..]);
      ClaimAllRefsKept(w1, q, sid, order[1..]);
      ClaimAllSpaces(w1, q, sid, order[1..]);
      var (w', shown) := ClaimAll(w, q, sid, order);
      assert order[0] in order && ShowsOwn(c, w', q, shown[0]);
      assert shown[1..] == ClaimAll(w1, q, sid, order[1..]).1;
      assert forall n :: 0 < n < |shown| ==> shown[n] == shown[1..][n - 1];
    }
  }

  lemma {:induction false} ClaimAllSpaces(w: World, q: Principal, sid: nat, order: seq<RecordId>)
    ensures ClaimAll(w, q, sid, order).0.repo.spaces == w.repo.spaces
    ensures ClaimAll(w, q, sid, order).0.repo.bridges == w.repo.bridges
    decreases |order|
  {
    if order != [] {
      ClaimAllSpaces(w.(repo := AddRef(w.repo, sid, q, order[0], None, None).0), q, sid, order[1..]);
    }
  }

  // ---------------------------------------------------------------- bridges

  // A bridge of p that is open into the target.
  predicate Opening(r: Repo, b: Bridge, p: Principal, source: nat, target: nat) {
    && b in r.bridges && b.source == source && b.target == target && b.principal == p
    && b.sourceConsented && b.targetConsented
    && (source, p) in r.members && (target, p) in r.members
  }

  ghost predicate Open(r: Repo, p: Principal, source: nat, target: nat) {
    exists b :: Opening(r, b, p, source, target)
  }

  lemma {:induction false} ActiveBridgesOpen(r: Repo, bs: seq<Bridge>, p: Principal, target: nat)
    requires forall b :: b in bs ==> b in r.bridges
    ensures forall s :: s in ActiveBridges(r, bs, p, target) ==> Open(r, p, s, target)
    ensures forall b :: b in bs && Opening(r, b, p, b.source, target) ==> b.source in ActiveBridges(r, bs, p, target)
    decreases |bs|
  {
    if bs != [] {
      ActiveBridgesOpen(r, bs[1..], p, target);
      assert bs[0] in bs;
      if Opening(r, bs[0], p, bs[0].source, target) { assert Open(r, p, bs[0].source, target); }
      assert forall b :: b in bs ==> b == bs[0] || b in bs[1..];
    }
  }

  lemma {:induction false} ExtendShows(c: Config, w: World, p: Principal, sources: seq<nat>, target: nat, query: string, limit: int, found: seq<Shown>)
    requires Base(c, w) && Honest(c) && |found| < limit && AllOwn(c, w, p, found)
    requires forall s :: s in sources ==> Open(w.repo, p, s, target)
    ensures var all := Extend(c, w, p, sources, query, limit, found);
      && |found| <= |all| <= limit && all[..|found|] == found && AllOwn(c, w, p, all)
      && forall n :: |found| <= n < |all| ==> Open(w.repo, p, all[n].space, target)
    decreases |sources|
  {
    if sources != [] && sources[0] in w.repo.spaces {
      assert sources[0] in sources;
      var part := Search(c, w, p, sources[0], query, limit - |found|);
      SearchShowsOwn(c, w, p, sources[0], query, limit - |found|);
      var more := found + part;
      assert forall n :: |found| <= n < |more| ==> more[n] == part[n - |found|];
      assert forall n :: 0 <= n < |found| ==> more[n] == found[n];
      if limit - |more| > 0 {
        ExtendShows(c, w, p, sources[1..], target, query, limit, more);
        var all := Extend(c, w, p, sources[1..], query, limit, more);
        assert forall n :: 0 <= n < |more| ==> all[n] == all[..|more|][n];
        assert all[..|found|] == more[..|found|];
      }
    }
  }

  /** Bridges: what a principal's context holds is the search of the personal space, then records of
      spaces with an open bridge into it, each of an operator-allowed pair of kinds, at most `limit` in
      all. */
  lemma ContextAnswer(c: Config, w: World, p: Principal, query: string, limit: int)
    requires Base(c, w) && Honest(c)
    ensures var (w', reply) := Context(c, w, p, true, query, limit);
      var target := PersonalSpace(c, w, p).1;
      && target in w'.repo.spaces
      && var own := Search(c, w', p, target, query, limit);
      && |reply.shown| <= (if limit < 0 then 0 else limit)
      && |own| <= |reply.shown| && reply.shown[..|own|] == own
      && AllOwn(c, w', p, reply.shown)
      && forall n :: |own| <= n < |reply.shown| ==>
           Bridged(c, w'.repo, p, reply.shown[n].space, target)
  {
    PersonalSpaceKeeps(c, w, p);
    var (w1, target) := PersonalSpace(c, w, p);
    var own := Search(c, w1, p, target, query, limit);
    SearchShowsOwn(c, w1, p, target, query, limit);
    assert own[..|own|] == own;
    if c.bridgesEnabled && limit - |own| > 0 {
      var sources := ActiveBridges(w1.repo, w1.repo.bridges, p, target);
      ActiveBridgesOpen(w1.repo, w1.repo.bridges, p, target);
      ExtendShows(c, w1, p, sources, target, query, limit, own);
      var all := Extend(c, w1, p, sources, query, limit, own);
      forall n | |own| <= n < |all|
        ensures Bridged(c, w1.repo, p, all[n].space, target)
      {
        OpenIsAllowed(c, w1.repo, p, all[n].space, target);
      }
    }
  }

  ghost predicate Bridged(c: Config, r: Repo, p: Principal, source: nat, target: nat) {
    && c.bridgesEnabled && Open(r, p, source, target)
    && source in r.spaces && target in r.spaces && (r.spaces[source].kind, r.spaces[target].kind) in c.allowlist
  }

  lemma OpenIsAllowed(c: Config, r: Repo, p: Principal, source: nat, target: nat)
    requires BridgesOk(c, r) && Open(r, p, source, target)
    ensures Bridged(c, r, p, source, target)
  {
    var b :| Opening(r, b, p, source, target);
    assert BridgeOk(c, r, b);
  }

  lemma ListingShowsOwn(c: Config, w: World, q: Principal, order: seq<RecordId>)
    requires Base(c, w) && Legal(c, w, Listing(q, order))
    ensures AllOwn(c, Records(c, w, q, order).0, q, Records(c, w, q, order).1.shown)
    ensures AllOwn(c, Step(c, w, Exporting(q, order)).0, q, Step(c, w, Exporting(q, order)).1.shown)
  {
    PersonalSpaceKeeps(c, w, q);
    var (w1, sid) := PersonalSpace(c, w, q);
    ClaimAllShowsOwn(c, w1, q, sid, order);
    assert forall n :: 0 <= n < |order| ==> order[n] in order;
  }

  lemma RecallingShowsOwn(c: Config, w: World, call: Call)
    requires Base(c, w) && Honest(c) && (call.Recalling? || call.GameRecalling?)
    ensures AllOwn(c, Step(c, w, call).0, call.p, Step(c, w, call).1.shown)
  {
    if call.Recalling? {
      if call.allowed { ContextAnswer(c, w, call.p, call.query, call.limit); }
    } else if Owns(w.repo.spaces, call.p, call.sid) {
      SearchShowsOwn(c, w, call.p, call.sid, call.query, call.limit);
    }
  }

  /** A caller is only ever shown records of the caller's own spaces, and its own references. */
  lemma ShownIsOwn(c: Config, w: World, call: Call)
    requires Base(c, w) && Honest(c) && Legal(c, w, call)
    ensures AllOwn(c, Step(c, w, call).0, call.p, Step(c, w, call).1.shown)
  {
    if call.Recalling? || call.GameRecalling? { RecallingShowsOwn(c, w, call); }
    else if call.Listing? { ListingShowsOwn(c, w, call.p, call.order); }
    else if call.Exporting? { ListingShowsOwn(c, w, call.p, call.order); }
    else { OthersShowNothing(c, w, call); }
  }

  predicate Shows(call: Call) {
    call.Listing? || call.Exporting? || call.Recalling? || call.GameRecalling?
  }

  lemma OthersShowNothing(c: Config, w: World, call: Call)
    requires !Shows(call)
    ensures Step(c, w, call).1.shown == []
  {
    if call.Importing? {
      ImportShowsNothing(c, w, call.p, call.items);
    } else if call.Capturing? {
      var (w1, sid) := PersonalSpace(c, w, call.p);
      CaptureShowsNothing(c, w1, call.p, sid, call.todo);
    }
  }

  lemma {:induction false} CaptureShowsNothing(c: Config, w: World, p: Principal, sid: nat, todo: seq<(string, string)>)
    requires sid in w.repo.spaces
    ensures CaptureAll(c, w, p, sid, todo).1.shown == []
    decreases |todo|
  {
    if todo != [] {
      CaptureShowsNothing(c, w, p, sid, todo[1..]);
      CaptureShowsNothing(c, AddApproved(c, w, p, sid, todo[0].0, Some(AutoKey(sid, todo[0].1))).0, p, sid, todo[1..]);
    }
  }

  lemma {:induction false} ImportShowsNothing(c: Config, w: World, p: Principal, items: seq<(string, Option<Key>)>)
    ensures Import(c, w, p, items).1.shown == []
    decreases |items|
  {
    if items != [] {
      var (w1, sid) := PersonalSpace(c, w, p);
      ImportShowsNothing(c, w, p, items[1..]);
      ImportShowsNothing(c, w1, p, items[1..]);
      ImportShowsNothing(c, AddApproved(c, w1, p, sid, items[0].0, items[0].1).0, p, items[1..]);
    }
  }

  /** Personal isolation, the reading half: in every run no call of another principal shows a record or a
      reference the principal holds. */
  lemma {:induction false} OthersSeeNothing(c: Config, w: World, calls: seq<Call>, i: nat, e: Shown, p: Principal)
    requires Base(c, w) && Honest(c) && LegalRun(c, w, calls) && i < |calls|
    requires calls[i].p != p && e in Replies(c, w, calls)[i].shown
    ensures var held := HoldingsOf(Exec(c, w, calls[..i + 1]), p);
      e.record !in held.rows && e.space !in held.spaces && (e.ref.Some? ==> e.ref.value !in held.refs)
    decreases |calls|
  {
    RepliesAt(c, w, calls, i);
    PrefixExec(c, w, calls, i);
    if i == 0 {
      ShownIsOwn(c, w, calls[0]);
      assert ShowsOwn(c, Step(c, w, calls[0]).0, calls[0].p, e);
    } else {
      StepKeeps(c, w, calls[0]);
      OthersSeeNothing(c, Step(c, w, calls[0]).0, calls[1..], i - 1, e, p);
    }
  }

  lemma PrefixExec(c: Config, w: World, calls: seq<Call>, i: nat)
    requires i < |calls|
    ensures Exec(c, w, calls[..i + 1]) ==
            if i == 0 then Step(c, w, calls[0]).0 else Exec(c, Step(c, w, calls[0]).0, calls[1..][..i])
  {
    assert calls[..i + 1][1..] == calls[1..][..i] && calls[..i + 1][0] == calls[0];
  }

  // ---------------------------------------------------------------- the latest consent

  // The call sets the bridge to b, or to some consent between the same ends.
  predicate Gives(call: Call, reply: Reply, b: Bridge) {
    call.Consenting? && reply.error.None? && call.bridge.(principal := call.p) == b
  }

  predicate Overrides(call: Call, reply: Reply, b: Bridge) {
    call.Consenting? && reply.error.None? && SameEnds(call.bridge.(principal := call.p), b)
  }

  ghost predicate GaveLast(calls: seq<Call>, replies: seq<Reply>, b: Bridge, n: int)
    requires |calls| == |replies|
  {
    && 0 <= n < |calls| && Gives(calls[n], replies[n], b)
    && forall m :: n < m < |calls| ==> !Overrides(calls[m], replies[m], b)
  }

  ghost predicate NeverOverridden(calls: seq<Call>, replies: seq<Reply>, b: Bridge)
    requires |calls| == |replies|
  {
    forall m :: 0 <= m < |calls| ==> !Overrides(calls[m], replies[m], b)
  }

  ghost predicate GivenLast(calls: seq<Call>, replies: seq<Reply>, b: Bridge)
    requires |calls| == |replies|
  {
    exists n :: GaveLast(calls, replies, b, n)
  }

  lemma {:induction false} CaptureAllBridges(c: Config, w: World, p: Principal, sid: nat, todo: seq<(string, string)>)
    requires sid in w.repo.spaces
    ensures CaptureAll(c, w, p, sid, todo).0.repo.bridges == w.repo.bridges
    decreases |todo|
  {
    if todo != [] {
      CaptureAllBridges(c, w, p, sid, todo[1..]);
      CaptureAllBridges(c, AddApproved(c, w, p, sid, todo[0].0, Some(AutoKey(sid, todo[0].1))).0, p, sid, todo[1..]);
    }
  }

  lemma {:induction false} ImportBridges(c: Config, w: World, p: Principal, items: seq<(string, Option<Key>)>)
    ensures Import(c, w, p, items).0.repo.bridges == w.repo.bridges
    decreases |items|
  {
    if items != [] {
      var (w1, sid) := PersonalSpace(c, w, p);
      var w2 := AddApproved(c, w1, p, sid, items[0].0, items[0].1).0;
      assert w1.repo.bridges == w.repo.bridges && w2.repo.bridges == w.repo.bridges;
      ImportBridges(c, w, p, items[1..]);
      ImportBridges(c, w1, p, items[1..]);
      ImportBridges(c, w2, p, items[1..]);
    }
  }

  lemma {:induction false} AddProposalsBridges(r: Repo, sid: nat, p: Principal, contents: seq<string>, expires: int)
    ensures AddProposals(r, sid, p, contents, expires).bridges == r.bridges
    decreases |contents|
  {
    if contents != [] { AddProposalsBridges(AddProposal(r, sid, p, contents[0], expires), sid, p, contents[1..], expires); }
  }

  // No call but a successful consent touches the bridges.
  lemma BridgesStay(c: Config, w: World, call: Call)
    requires call.Consenting? ==> Step(c, w, call).1.error.Some?
    ensures Step(c, w, call).0.repo.bridges == w.repo.bridges
  {
    var (w1, sid) := PersonalSpace(c, w, call.p);
    match call
    case Capturing(p, todo) => CaptureAllBridges(c, w1, p, sid, todo);
    case Importing(p, items) => ImportBridges(c, w, p, items);
    case Listing(p, order) => ClaimAllSpaces(w1, p, sid, order);
    case Proposing(p, contents, expires) => AddProposalsBridges(w1.repo, sid, p, contents, expires);
    case _ => OtherBridgesStay(c, w, call);
  }

  lemma OtherBridgesStay(c: Config, w: World, call: Call)
    requires !call.Capturing? && !call.Importing? && !call.Listing? && !call.Proposing?
    requires call.Consenting? ==> Step(c, w, call).1.error.Some?
    ensures Step(c, w, call).0.repo.bridges == w.repo.bridges
  {
  }

  lemma ConsentSets(c: Config, w: World, call: Call, b: Bridge)
    requires Base(c, w) && call.Consenting? && Step(c, w, call).1.error.None?
    ensures b in Step(c, w, call).0.repo.bridges <==>
            Gives(call, Step(c, w, call).1, b) || (b in w.repo.bridges && !Overrides(call, Step(c, w, call).1, b))
  {
    PutBridgeKeeps(c, w.repo, w.repo.bridges, call.bridge.(principal := call.p));
  }

  /** The stored consents are the latest ones: after a run a consent is stored exactly when some call gave
      it and no later one changed it, or it was there and no call changed it. */
  lemma {:induction false} ConsentIsLatest(c: Config, w: World, calls: seq<Call>, b: Bridge)
    requires Base(c, w) && LegalRun(c, w, calls)
    ensures b in Exec(c, w, calls).repo.bridges <==>
            GivenLast(calls, Replies(c, w, calls), b) || (b in w.repo.bridges && NeverOverridden(calls, Replies(c, w, calls), b))
    decreases |calls|
  {
    if calls != [] {
      var (w1, reply) := Step(c, w, calls[0]);
      var rest := Replies(c, w1, calls[1..]);
      StepKeeps(c, w, calls[0]);
      ConsentIsLatest(c, w1, calls[1..], b);
      if calls[0].Consenting? && reply.error.None? { ConsentSets(c, w, calls[0], b); }
      else { BridgesStay(c, w, calls[0]); }
      assert Replies(c, w, calls) == [reply] + rest;
      LatestSplits(calls, [reply] + rest, b);
    }
  }

  // The first call of a run and the others.
  lemma LatestSplits(calls: seq<Call>, replies: seq<Reply>, b: Bridge)
    requires |calls| == |replies| && calls != []
    ensures NeverOverridden(calls, replies, b) <==> !Overrides(calls[0], replies[0], b) && NeverOverridden(calls[1..], replies[1..], b)
    ensures GivenLast(calls, replies, b) <==>
            GivenLast(calls[1..], replies[1..], b) || (Gives(calls[0], replies[0], b) && NeverOverridden(calls[1..], replies[1..], b))
  {
    if NeverOverridden(calls, replies, b) {
      assert forall m :: 0 <= m < |calls| - 1 ==> calls[1..][m] == calls[m + 1] && replies[1..][m] == replies[m + 1];
    }
    if GivenLast(calls, replies, b) {
      var n :| GaveLast(calls, replies, b, n);
      assert forall m :: 0 <= m < |calls| - 1 ==> calls[1..][m] == calls[m + 1] && replies[1..][m] == replies[m + 1];
      if n > 0 { assert GaveLast(calls[1..], replies[1..], b, n - 1); }
    }
    if GivenLast(calls[1..], replies[1..], b) {
      var n :| GaveLast(calls[1..], replies[1..], b, n);
      assert forall m :: 0 < m < |calls| ==> calls[1..][m - 1] == calls[m] && replies[1..][m - 1] == replies[m];
      assert GaveLast(calls, replies, b, n + 1);
    }
    if NeverOverridden(calls[1..], replies[1..], b) {
      assert forall m :: 0 < m < |calls| ==> calls[1..][m - 1] == calls[m] && replies[1..][m - 1] == replies[m];
      if Gives(calls[0], replies[0], b) { assert GaveLast(calls, replies, b, 0); }
    }
  }

  /** After any run from a fresh memory, a record of another space than the personal one is in a context
      only if bridges are enabled, the pair of kinds is allowlisted, the principal is a member of both
      spaces and the last consent given for the two spaces has both sides true. */
  lemma BridgedByLatestConsent(c: Config, w: World, calls: seq<Call>, p: Principal, query: string, limit: int, n: nat)
    requires Fresh(w) && Honest(c) && LegalRun(c, w, calls)
    requires n < |Context(c, Exec(c, w, calls), p, true, query, limit).1.shown|
    requires Context(c, Exec(c, w, calls), p, true, query, limit).1.shown[n].space != PersonalSpace(c, Exec(c, w, calls), p).1
    ensures var (w', reply) := Context(c, Exec(c, w, calls), p, true, query, limit);
      var source, target := reply.shown[n].space, PersonalSpace(c, Exec(c, w, calls), p).1;
      && Bridged(c, w'.repo, p, source, target)
      && (source, p) in w'.repo.members && (target, p) in w'.repo.members
      && GivenLast(calls, Replies(c, w, calls), Bridge(source, target, p, true, true))
  {
    var now := Exec(c, w, calls);
    FreshIsBase(c, w);
    RunKeeps(c, w, calls);
    ContextAnswer(c, now, p, query, limit);
    var (w', reply) := Context(c, now, p, true, query, limit);
    var source, target := reply.shown[n].space, PersonalSpace(c, now, p).1;
    PersonalSpaceKeeps(c, now, p);
    SearchSpace(c, w', p, target, query, limit);
    var own := Search(c, w', p, target, query, limit);
    assert own == reply.shown[..|own|];
    assert forall m :: 0 <= m < |own| ==> reply.shown[m].space == own[m].space;
    BridgesStay(c, now, Recalling(p, true, query, limit));
    var b :| Opening(w'.repo, b, p, source, target);
    assert b == Bridge(source, target, p, true, true);
    ConsentIsLatest(c, w, calls, b);
  }

  lemma SearchSpace(c: Config, w: World, p: Principal, sid: nat, query: string, limit: int)
    requires sid in w.repo.spaces
    ensures forall n :: 0 <= n < |Search(c, w, p, sid, query, limit)| ==> Search(c, w, p, sid, query, limit)[n].space == sid
  {
  }
}
