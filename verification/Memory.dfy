/** The governed memory as values: the repository, the record store, and every call the service
    makes on them, as functions from one state to the next. */
module Memory {
  type Principal = string

  datatype Option<+T> = None | Some(value: T)

  datatype Kind = Personal | Game

  // Workspace and context names: the id of a space, or text chosen by an operator or a game.
  datatype Label = SpaceLabel(space: nat) | TextLabel(text: string)

  // The HMAC of a principal, or a user name as it was given.
  datatype Subject = Pseudonym(principal: Principal) | RawUser(text: string)

  datatype Scope = Scope(namespace: string, workspace: Label, context: Label, subject: Subject)

  // What a stored record id is derived from: a proposal id, the HMAC of a captured text in its space,
  // or an id given from outside.
  datatype Key = ProposalKey(id: nat) | AutoKey(space: nat, text: string) | NamedKey(text: string)

  // gen_random_uuid(), or uuid5 over the scope and the key.
  datatype RecordId = Random(n: nat) | Stable(scope: Scope, key: Key)

  // Absent world, campaign and player ids are "".
  datatype Space = Space(kind: Kind, owner: Principal, name: string, namespace: string,
                         world: string, campaign: string, player: string)

  datatype ProposalState = Pending | Approved | Rejected | Expired

  datatype Proposal = Proposal(space: nat, principal: Principal, content: Option<string>,
                               state: ProposalState, expires: int)

  datatype Status = Active | Forgotten | Purged

  datatype Ref = Ref(space: nat, principal: Principal, record: RecordId, proposal: Option<nat>,
                     external: Option<Key>, status: Status)

  datatype Bridge = Bridge(source: nat, target: nat, principal: Principal,
                           sourceConsented: bool, targetConsented: bool)

  // `next` is the source of fresh ids.
  datatype Repo = Repo(spaces: map<nat, Space>, members: set<(nat, Principal)>,
                       proposals: map<nat, Proposal>, refs: map<nat, Ref>, bridges: seq<Bridge>, next: nat)

  datatype Row = Row(user: Subject, namespace: Label, content: string, forgotten: bool)

  datatype Store = Store(rows: map<RecordId, Row>, next: nat)

  datatype World = World(repo: Repo, store: Store)

  /** The operator's configuration, with the secret patterns, the trimming of text and the ranking of a
      text search left open. */
  datatype Config = Config(namespace: string, context: string, secret: string -> bool, strip: string -> string,
                           search: (map<RecordId, Row>, Scope, string, int) -> seq<RecordId>,
                           bridgesEnabled: bool, allowlist: set<(Kind, Kind)>)

  datatype Error = AccessDenied | Conflict | ProviderFailed

  // ---------------------------------------------------------------- scopes

  function ScopeFor(c: Config, p: Principal, sid: nat, s: Space): Scope {
    if s.kind.Personal? then Scope(s.namespace, SpaceLabel(sid), TextLabel(c.context), Pseudonym(p))
    else Scope(s.namespace,
               if s.world != "" then TextLabel(s.world) else SpaceLabel(sid),
               if s.campaign != "" then TextLabel(s.campaign) else SpaceLabel(sid),
               if s.player != "" then RawUser(s.player) else Pseudonym(p))
  }

  predicate InPartition(row: Row, sc: Scope) {
    row.user == sc.subject && row.namespace == sc.workspace
  }

  // ---------------------------------------------------------------- repository

  // Space `sid` is p's personal one.
  predicate IsPersonal(spaces: map<nat, Space>, p: Principal, sid: nat) {
    sid in spaces && spaces[sid].kind.Personal? && spaces[sid].owner == p
  }

  ghost function FindPersonal(spaces: map<nat, Space>, p: Principal): Option<nat> {
    if exists i: nat :: IsPersonal(spaces, p, i) then var i: nat :| IsPersonal(spaces, p, i); Some(i) else None
  }

  predicate IsGame(spaces: map<nat, Space>, p: Principal, name: string, sid: nat) {
    sid in spaces && spaces[sid].kind.Game? && spaces[sid].owner == p && spaces[sid].name == name
  }

  ghost function FindGame(spaces: map<nat, Space>, p: Principal, name: string): Option<nat> {
    if exists i: nat :: IsGame(spaces, p, name, i) then var i: nat :| IsGame(spaces, p, name, i); Some(i) else None
  }

  function NewSpace(r: Repo, s: Space): Repo {
    r.(spaces := r.spaces[r.next := s], members := r.members + {(r.next, s.owner)}, next := r.next + 1)
  }

  ghost function EnsurePersonal(namespace: string, r: Repo, p: Principal): (res: (Repo, nat))
    ensures res.1 in res.0.spaces
  {
    match FindPersonal(r.spaces, p)
    case Some(i) => (r, i)
    case None => (NewSpace(r, Space(Personal, p, "Personal", namespace, "", "", "")), r.next)
  }

  function GetSpace(r: Repo, p: Principal, sid: nat): Option<Space> {
    if (sid, p) in r.members && sid in r.spaces then Some(r.spaces[sid]) else None
  }

  function AddProposal(r: Repo, sid: nat, p: Principal, content: string, expires: int): Repo {
    r.(proposals := r.proposals[r.next := Proposal(sid, p, Some(content), Pending, expires)], next := r.next + 1)
  }

  function Transition(r: Repo, p: Principal, pid: nat, to: ProposalState, content: Option<string>): Option<Repo> {
    if pid !in r.proposals || r.proposals[pid].principal != p || !r.proposals[pid].state.Pending? then None
    else
      var kept := if to.Rejected? || to.Expired? then None else content;
      Some(r.(proposals := r.proposals[pid := r.proposals[pid].(content := kept, state := to)]))
  }

  predicate Overdue(item: Proposal, now: int) {
    item.state.Pending? && item.expires <= now
  }

  function ExpireAll(r: Repo, now: int): Repo {
    r.(proposals := map i | i in r.proposals ::
      if Overdue(r.proposals[i], now) then r.proposals[i].(content := None, state := Expired) else r.proposals[i])
  }

  predicate IsRef(refs: map<nat, Ref>, sid: nat, rec: RecordId, i: nat) {
    i in refs && refs[i].space == sid && refs[i].record == rec
  }

  ghost function FindRef(refs: map<nat, Ref>, sid: nat, rec: RecordId): Option<nat> {
    if exists i: nat :: IsRef(refs, sid, rec, i) then var i: nat :| IsRef(refs, sid, rec, i); Some(i) else None
  }

  ghost function AddRef(r: Repo, sid: nat, p: Principal, rec: RecordId, pid: Option<nat>, ext: Option<Key>): (res: (Repo, nat))
    ensures res.1 in res.0.refs
  {
    match FindRef(r.refs, sid, rec)
    case Some(i) => (r, i)
    case None => (r.(refs := r.refs[r.next := Ref(sid, p, rec, pid, ext, Active)], next := r.next + 1), r.next)
  }

  predicate IsExternal(refs: map<nat, Ref>, p: Principal, sid: nat, k: Key, i: nat) {
    i in refs && refs[i].principal == p && refs[i].space == sid && refs[i].external == Some(k)
  }

  ghost function FindExternal(refs: map<nat, Ref>, p: Principal, sid: nat, k: Key): (found: Option<nat>)
    ensures found.Some? ==> IsExternal(refs, p, sid, k, found.value)
  {
    if exists i: nat :: IsExternal(refs, p, sid, k, i) then var i: nat :| IsExternal(refs, p, sid, k, i); Some(i) else None
  }

  function GetRef(r: Repo, p: Principal, i: nat): Option<Ref> {
    if i in r.refs && r.refs[i].principal == p then Some(r.refs[i]) else None
  }

  function SetStatus(r: Repo, p: Principal, i: nat, status: Status): Repo {
    if GetRef(r, p, i).None? then r else r.(refs := r.refs[i := r.refs[i].(status := status)])
  }

  function PurgeContent(r: Repo, p: Principal, i: nat): Repo {
    var ref := GetRef(r, p, i);
    var cleared :=
      if ref.Some? && ref.value.proposal.Some? && ref.value.proposal.value in r.proposals
      then r.(proposals := r.proposals[ref.value.proposal.value := r.proposals[ref.value.proposal.value].(content := None)])
      else r;
    SetStatus(cleared, p, i, Purged)
  }

  // Python dicts keep a key's place when its value is replaced.
  function PutBridge(bs: seq<Bridge>, b: Bridge): seq<Bridge> {
    if bs == [] then [b]
    else if SameEnds(bs[0], b) then [b] + bs[1..]
    else [bs[0]] + PutBridge(bs[1..], b)
  }

  predicate SameEnds(a: Bridge, b: Bridge) {
    a.source == b.source && a.target == b.target && a.principal == b.principal
  }

  function ActiveBridges(r: Repo, bs: seq<Bridge>, p: Principal, target: nat): seq<nat> {
    if bs == [] then []
    else
      var b, rest := bs[0], ActiveBridges(r, bs[1..], p, target);
      if b.principal == p && b.target == target && b.sourceConsented && b.targetConsented
         && (b.source, p) in r.members && (b.target, p) in r.members
      then [b.source] + rest else rest
  }

  // ---------------------------------------------------------------- store

  function LegacyNamespaces(): set<string> {
    {"user", "general", "projects", "code", "infrastructure"}
  }

  predicate IsLegacy(row: Row, p: Principal, sc: Scope) {
    && row.user == RawUser(p)
    && row.namespace.TextLabel? && row.namespace.text in LegacyNamespaces()
    && !InPartition(row, sc)
  }

  function Migrate(st: Store, p: Principal, sc: Scope): Store {
    st.(rows := map id | id in st.rows ::
      if IsLegacy(st.rows[id], p, sc) then st.rows[id].(user := sc.subject, namespace := sc.workspace) else st.rows[id])
  }

  // INSERT, or the row already there; None when the id belongs to another partition.
  function AddRow(st: Store, sc: Scope, content: string, key: Option<Key>): Option<(Store, RecordId)> {
    var row := Row(sc.subject, sc.workspace, content, false);
    match key
    case None => Some((Store(st.rows[Random(st.next) := row], st.next + 1), Random(st.next)))
    case Some(k) =>
      var id := Stable(sc, k);
      if id !in st.rows then Some((st.(rows := st.rows[id := row]), id))
      else if InPartition(st.rows[id], sc) then Some((st, id))
      else None
  }

  predicate Has(st: Store, sc: Scope, id: RecordId) {
    id in st.rows && InPartition(st.rows[id], sc)
  }

  function CorrectRow(st: Store, id: RecordId, content: string): Store
    requires id in st.rows
  {
    st.(rows := st.rows[id := st.rows[id].(content := content, forgotten := false)])
  }

  function ForgetRow(st: Store, id: RecordId): Store
    requires id in st.rows
  {
    st.(rows := st.rows[id := st.rows[id].(forgotten := true)])
  }

  function PurgeRow(st: Store, id: RecordId): Store {
    st.(rows := st.rows - {id})
  }

  // ---------------------------------------------------------------- service calls

  // One entry of an answer: a record, the space it came from, the reference and status shown.
  datatype Shown = Shown(record: RecordId, space: nat, ref: Option<nat>, status: Status)

  /** What a call answers: an error, or the records it shows, the keys it captured, the reference it made. */
  datatype Reply = Reply(error: Option<Error>, shown: seq<Shown>, captured: seq<Key>)

  function Fail(e: Error): Reply { Reply(Some(e), [], []) }

  function Done(): Reply { Reply(None, [], []) }

  ghost function PersonalSpace(c: Config, w: World, p: Principal): (res: (World, nat))
    ensures res.1 in res.0.repo.spaces
  {
    var (r, sid) := EnsurePersonal(c.namespace, w.repo, p);
    (World(r, Migrate(w.store, p, ScopeFor(c, p, sid, r.spaces[sid]))), sid)
  }

  // provider.ingest followed by add_record_ref.
  ghost function Ingest(c: Config, w: World, p: Principal, sid: nat, content: string, key: Option<Key>,
                        pid: Option<nat>, ext: Option<Key>): Option<World>
    requires sid in w.repo.spaces
  {
    match AddRow(w.store, ScopeFor(c, p, sid, w.repo.spaces[sid]), content, key)
    case None => None
    case Some((st, id)) => Some(World(AddRef(w.repo, sid, p, id, pid, ext).0, st))
  }

  ghost function AddApproved(c: Config, w: World, p: Principal, sid: nat, content: string, ext: Option<Key>): (World, Option<Error>)
    requires sid in w.repo.spaces
  {
    if c.secret(content) then (w, Some(Conflict))
    else
      var existing := if ext.Some? then FindExternal(w.repo.refs, p, sid, ext.value) else None;
      if existing.Some? && Has(w.store, ScopeFor(c, p, sid, w.repo.spaces[sid]), w.repo.refs[existing.value].record) then (w, None)
      else match Ingest(c, w, p, sid, content, ext, None, ext)
        case None => (w, Some(ProviderFailed))
        case Some(w') => (w', None)
  }

  ghost function AddManual(c: Config, w: World, p: Principal, content: string): (World, Reply) {
    if c.secret(content) then (w, Fail(Conflict))
    else
      var (w1, sid) := PersonalSpace(c, w, p);
      var (w2, e) := AddApproved(c, w1, p, sid, content, None);
      (w2, Reply(e, [], []))
  }

  ghost function Propose(c: Config, w: World, p: Principal, contents: seq<string>, expires: int): World {
    var (w1, sid) := PersonalSpace(c, w, p);
    w1.(repo := AddProposals(w1.repo, sid, p, contents, expires))
  }

  function AddProposals(r: Repo, sid: nat, p: Principal, contents: seq<string>, expires: int): Repo
    decreases |contents|
  {
    if contents == [] then r
    else AddProposals(AddProposal(r, sid, p, contents[0], expires), sid, p, contents[1..], expires)
  }

  ghost function Approve(c: Config, w: World, p: Principal, pid: nat, edited: string, now: int): (World, Reply) {
    var r := w.repo;
    if pid !in r.proposals || r.proposals[pid].principal != p || !r.proposals[pid].state.Pending?
       || r.proposals[pid].content.None? then (w, Fail(Conflict))
    else
      var item := r.proposals[pid];
      if item.expires <= now then
        (w.(repo := Transition(r, p, pid, Expired, None).value), Fail(Conflict))
      else
        var content := c.strip(if edited != "" then edited else item.content.value);
        if content == "" || c.secret(content) then (w, Fail(Conflict))
        else if GetSpace(r, p, item.space).None? then (w, Fail(AccessDenied))
        else match Ingest(c, w, p, item.space, content, Some(ProposalKey(pid)), Some(pid), None)
          case None => (w, Fail(ProviderFailed))
          case Some(w1) =>
            (match Transition(w1.repo, p, pid, Approved, Some(content))
             case None => (w1, Fail(Conflict))
             case Some(r2) => (w1.(repo := r2), Done()))
  }

  ghost function Reject(w: World, p: Principal, pid: nat): (World, Reply) {
    match Transition(w.repo, p, pid, Rejected, None)
    case None => (w, Fail(Conflict))
    case Some(r) => (w.(repo := r), Done())
  }

  // The loop of add_automatic_candidates over (content, normalized content) pairs.
  ghost function CaptureAll(c: Config, w: World, p: Principal, sid: nat, todo: seq<(string, string)>): (World, Reply)
    requires sid in w.repo.spaces
    ensures sid in CaptureAll(c, w, p, sid, todo).0.repo.spaces
    decreases |todo|
  {
    if todo == [] then (w, Done())
    else
      var (content, key) := (todo[0].0, AutoKey(sid, todo[0].1));
      if FindExternal(w.repo.refs, p, sid, key).Some? then CaptureAll(c, w, p, sid, todo[1..])
      else
        var (w1, e) := AddApproved(c, w, p, sid, content, Some(key));
        if e.Some? then (w1, Reply(e, [], []))
        else
          var (w2, rest) := CaptureAll(c, w1, p, sid, todo[1..]);
          (w2, rest.(captured := [key] + rest.captured))
  }

  ghost function Capture(c: Config, w: World, p: Principal, todo: seq<(string, string)>): (World, Reply) {
    var (w1, sid) := PersonalSpace(c, w, p);
    CaptureAll(c, w1, p, sid, todo)
  }

  // The loop of records() over the provider's listing.
  ghost function ClaimAll(w: World, p: Principal, sid: nat, order: seq<RecordId>): (World, seq<Shown>)
    decreases |order|
  {
    if order == [] then (w, [])
    else
      var (r, i) := AddRef(w.repo, sid, p, order[0], None, None);
      var (w', rest) := ClaimAll(w.(repo := r), p, sid, order[1..]);
      var status := if order[0] in w.store.rows && w.store.rows[order[0]].forgotten then Forgotten
                    else r.refs[i].status;
      (w', [Shown(order[0], sid, Some(i), status)] + rest)
  }

  // A listing of a partition, forgotten records included, in any order.
  ghost predicate Lists(st: Store, sc: Scope, order: seq<RecordId>) {
    && (forall id :: id in order <==> Has(st, sc, id))
    && (forall i, j :: 0 <= i < j < |order| ==> order[i] != order[j])
  }

  ghost function Records(c: Config, w: World, p: Principal, order: seq<RecordId>): (World, Reply) {
    var (w1, sid) := PersonalSpace(c, w, p);
    var (w2, shown) := ClaimAll(w1, p, sid, order);
    (w2, Reply(None, shown, []))
  }

  // _record_target: the reference and the scope of its space.
  function Target(c: Config, w: World, p: Principal, i: nat): Option<(Ref, Scope)> {
    match GetRef(w.repo, p, i)
    case None => None
    case Some(ref) =>
      (match GetSpace(w.repo, p, ref.space)
       case None => None
       case Some(s) => Some((ref, ScopeFor(c, p, ref.space, s))))
  }

  ghost function Correct(c: Config, w: World, p: Principal, i: nat, content: string): (World, Reply) {
    if c.secret(content) then (w, Fail(Conflict))
    else match Target(c, w, p, i)
      case None => (w, Fail(AccessDenied))
      case Some((ref, sc)) =>
        if !Has(w.store, sc, ref.record) then (w, Fail(ProviderFailed))
        else (World(SetStatus(w.repo, p, i, Active), CorrectRow(w.store, ref.record, content)), Done())
  }

  ghost function Forget(c: Config, w: World, p: Principal, i: nat): (World, Reply) {
    match Target(c, w, p, i)
    case None => (w, Fail(AccessDenied))
    case Some((ref, sc)) =>
      if !Has(w.store, sc, ref.record) then (w, Fail(ProviderFailed))
      else (World(SetStatus(w.repo, p, i, Forgotten), ForgetRow(w.store, ref.record)), Done())
  }

  ghost function Purge(c: Config, w: World, p: Principal, i: nat): (World, Reply) {
    match Target(c, w, p, i)
    case None => (w, Fail(AccessDenied))
    case Some((ref, sc)) =>
      if !Has(w.store, sc, ref.record) then (w, Fail(ProviderFailed))
      else (World(PurgeContent(w.repo, p, i), PurgeRow(w.store, ref.record)), Done())
  }

  // The loop of import_personal over (content, external id) pairs.
  ghost function Import(c: Config, w: World, p: Principal, items: seq<(string, Option<Key>)>): (World, Reply)
    decreases |items|
  {
    if items == [] then (w, Done())
    else if c.strip(items[0].0) == "" then Import(c, w, p, items[1..])
    else
      var (w1, sid) := PersonalSpace(c, w, p);
      if items[0].1.Some? && FindExternal(w1.repo.refs, p, sid, items[0].1.value).Some?
      then Import(c, w1, p, items[1..])
      else
        var (w2, e) := AddApproved(c, w1, p, sid, items[0].0, items[0].1);
        if e.Some? then (w2, Reply(e, [], [])) else Import(c, w2, p, items[1..])
  }

  ghost function SetBridge(c: Config, w: World, p: Principal, b: Bridge): (World, Reply) {
    var source, target := GetSpace(w.repo, p, b.source), GetSpace(w.repo, p, b.target);
    if !c.bridgesEnabled || source.None? || target.None?
       || (source.value.kind, target.value.kind) !in c.allowlist then (w, Fail(AccessDenied))
    else (w.(repo := w.repo.(bridges := PutBridge(w.repo.bridges, b.(principal := p)))), Done())
  }

  ghost function CreateGame(w: World, p: Principal, service: bool, s: Space): (World, Reply) {
    if !service then (w, Fail(AccessDenied))
    else if FindGame(w.repo.spaces, p, s.name).Some? then (w, Done())
    else (w.(repo := NewSpace(w.repo, s.(kind := Game, owner := p))), Done())
  }

  ghost function GameEvent(c: Config, w: World, p: Principal, service: bool, sid: nat, k: Key, content: string): (World, Reply) {
    var s := GetSpace(w.repo, p, sid);
    if !service || s.None? || !s.value.kind.Game? then (w, Fail(AccessDenied))
    else if FindExternal(w.repo.refs, p, sid, k).Some? then (w, Done())
    else match Ingest(c, w, p, sid, content, Some(k), None, Some(k))
      case None => (w, Fail(ProviderFailed))
      case Some(w') => (w', Done())
  }

  // context_load in the scope of one space.
  function Search(c: Config, w: World, p: Principal, sid: nat, query: string, limit: int): (found: seq<Shown>)
    requires sid in w.repo.spaces
  {
    var ids := c.search(w.store.rows, ScopeFor(c, p, sid, w.repo.spaces[sid]), query, limit);
    seq(|ids|, i requires 0 <= i < |ids| => Shown(ids[i], sid, None, Active))
  }

  /** A provider that searches the partition it is asked for, skips forgotten records and respects its
      limit. */
  ghost predicate Honest(c: Config) {
    forall rows, sc, query, limit :: HonestAnswer(rows, sc, limit, c.search(rows, sc, query, limit))
  }

  ghost predicate HonestAnswer(rows: map<RecordId, Row>, sc: Scope, limit: int, ids: seq<RecordId>) {
    && |ids| <= (if limit < 0 then 0 else limit)
    && (forall id :: id in ids ==> id in rows && InPartition(rows[id], sc) && !rows[id].forgotten)
  }

  // The bridge loop of context().
  function Extend(c: Config, w: World, p: Principal, sources: seq<nat>, query: string, limit: int, found: seq<Shown>): seq<Shown>
    decreases |sources|
  {
    if sources == [] || sources[0] !in w.repo.spaces then found
    else
      var more := found + Search(c, w, p, sources[0], query, limit - |found|);
      if limit - |more| <= 0 then more else Extend(c, w, p, sources[1..], query, limit, more)
  }

  ghost function Context(c: Config, w: World, p: Principal, allowed: bool, query: string, limit: int): (World, Reply) {
    if !allowed then (w, Done())
    else
      var (w1, target) := PersonalSpace(c, w, p);
      var own := Search(c, w1, p, target, query, limit);
      if !c.bridgesEnabled || limit - |own| <= 0 then (w1, Reply(None, own, []))
      else
        var all := Extend(c, w1, p, ActiveBridges(w1.repo, w1.repo.bridges, p, target), query, limit, own);
        (w1, Reply(None, if |all| <= limit then all else all[..limit], []))
  }
}
