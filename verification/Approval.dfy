/** Approving, rejecting and expiring one proposal concurrently: any number of tasks, each a chain of
    atomic repository and store operations that may interleave with the others at every await, and that
    may stop at any of them. */
module Approval {
  import opened Memory
  import opened MemoryInvariant
  import MemoryRuns

  datatype Job = Approver(edited: string) | Rejecter | Sweeper

  /** Where a task waits. `won` says that its transition of the proposal succeeded, `row` and `ref` that
      it has stored the record and made the reference. */
  datatype Phase =
    | Begin
    | Expiring(who: Principal)
    | Fetched(text: string)
    | Placed(text: string)
    | Ingested(text: string, id: RecordId)
    | Referenced(text: string)
    | Over(won: bool, row: bool, ref: bool, text: string)

  datatype Task = Task(p: Principal, job: Job, phase: Phase)

  datatype State = State(w: World, tasks: seq<Task>)

  // A cancelled operation may or may not have taken effect.
  datatype Event = Advance(task: nat, now: int) | Cancel(task: nat, now: int, sent: bool)

  predicate HasRow(t: Task) {
    t.phase.Ingested? || t.phase.Referenced? || (t.phase.Over? && t.phase.row)
  }

  predicate HasRef(t: Task) {
    t.phase.Referenced? || (t.phase.Over? && t.phase.ref)
  }

  predicate Won(t: Task) {
    t.phase.Over? && t.phase.won
  }

  function TextOf(t: Task): string {
    match t.phase
    case Begin => ""
    case Expiring(_) => ""
    case Fetched(text) => text
    case Placed(text) => text
    case Ingested(text, _) => text
    case Referenced(text) => text
    case Over(_, _, _, text) => text
  }

  function Stop(t: Task, won: bool): Task {
    t.(phase := Over(won, HasRow(t), HasRef(t), TextOf(t)))
  }

  // get_proposal and the checks before the first write of approve_proposal.
  function Fetch(c: Config, r: Repo, t: Task, pid: nat, edited: string, now: int): Task {
    if pid !in r.proposals || r.proposals[pid].principal != t.p || !r.proposals[pid].state.Pending?
       || r.proposals[pid].content.None? then Stop(t, false)
    else if r.proposals[pid].expires <= now then t.(phase := Expiring(t.p))
    else
      var text := c.strip(if edited != "" then edited else r.proposals[pid].content.value);
      if text == "" || c.secret(text) then Stop(t, false) else t.(phase := Fetched(text))
  }

  // transition_proposal, the last operation of a task.
  function Move(w: World, pid: nat, t: Task, who: Principal, to: ProposalState, content: Option<string>): (World, Task) {
    match Transition(w.repo, who, pid, to, content)
    case None => (w, Stop(t, false))
    case Some(r) => (w.(repo := r), Stop(t, true))
  }

  /** One operation of a task. The space of a proposal never changes, so it is read where it is used. */
  ghost function TaskStep(c: Config, w: World, pid: nat, t: Task, now: int): (World, Task) {
    match t.phase
    case Begin =>
      (match t.job
       case Approver(edited) => (w, Fetch(c, w.repo, t, pid, edited, now))
       case Rejecter => Move(w, pid, t, t.p, Rejected, None)
       case Sweeper =>
         if pid in w.repo.proposals && Overdue(w.repo.proposals[pid], now)
         then (w, t.(phase := Expiring(w.repo.proposals[pid].principal)))
         else (w, Stop(t, false)))
    case Expiring(who) => Move(w, pid, t, who, Expired, None)
    case Fetched(text) =>
      if pid !in w.repo.proposals || GetSpace(w.repo, t.p, w.repo.proposals[pid].space).None? then (w, Stop(t, false))
      else (w, t.(phase := Placed(text)))
    case Placed(text) =>
      if pid !in w.repo.proposals || w.repo.proposals[pid].space !in w.repo.spaces then (w, Stop(t, false))
      else
        var sid := w.repo.proposals[pid].space;
        (match AddRow(w.store, ScopeFor(c, t.p, sid, w.repo.spaces[sid]), text, Some(ProposalKey(pid)))
         case None => (w, Stop(t, false))
         case Some((st, id)) => (w.(store := st), t.(phase := Ingested(text, id))))
    case Ingested(text, id) =>
      if pid !in w.repo.proposals then (w, Stop(t, false))
      else
        var (r, _) := AddRef(w.repo, w.repo.proposals[pid].space, t.p, id, Some(pid), None);
        (w.(repo := r), t.(phase := Referenced(text)))
    case Referenced(text) => Move(w, pid, t, t.p, Approved, Some(text))
    case Over(_, _, _, _) => (w, t)
  }

  ghost function Work(c: Config, pid: nat, s: State, i: nat, now: int): State
    requires i < |s.tasks|
  {
    var (w, t) := TaskStep(c, s.w, pid, s.tasks[i], now);
    State(w, s.tasks[i := t])
  }

  function Halt(s: State, i: nat): State
    requires i < |s.tasks|
  {
    if s.tasks[i].phase.Over? then s else s.(tasks := s.tasks[i := Stop(s.tasks[i], false)])
  }

  ghost function Next(c: Config, pid: nat, s: State, e: Event): State {
    if e.task >= |s.tasks| then s
    else
      match e
      case Advance(i, now) => Work(c, pid, s, i, now)
      case Cancel(i, now, sent) => Halt(if sent then Work(c, pid, s, i, now) else s, i)
  }

  ghost function Run(c: Config, pid: nat, s: State, events: seq<Event>): State
    decreases |events|
  {
    if events == [] then s else Run(c, pid, Next(c, pid, s, events[0]), events[1..])
  }

  // ---------------------------------------------------------------- one task alone

  ghost function Steps(c: Config, w: World, pid: nat, t: Task, now: int, n: nat): (World, Task)
    decreases n
  {
    if n == 0 then (w, t) else var (w1, t1) := TaskStep(c, w, pid, t, now); Steps(c, w1, pid, t1, now, n - 1)
  }

  lemma {:induction false} OverStays(c: Config, w: World, pid: nat, t: Task, now: int, n: nat)
    requires t.phase.Over?
    ensures Steps(c, w, pid, t, now, n) == (w, t)
    decreases n
  {
    if n > 0 { OverStays(c, w, pid, t, now, n - 1); }
  }

  // The last three operations: store, reference, transition.
  lemma StoringAlone(c: Config, w: World, pid: nat, t: Task, now: int)
    requires t.phase.Placed? && pid in w.repo.proposals && w.repo.proposals[pid].space in w.repo.spaces
    requires w.repo.proposals[pid].principal == t.p && w.repo.proposals[pid].state.Pending?
    ensures var (w3, t3) := Steps(c, w, pid, t, now, 3);
      && t3.phase.Over?
      && match Ingest(c, w, t.p, w.repo.proposals[pid].space, t.phase.text, Some(ProposalKey(pid)), Some(pid), None)
         case None => w3 == w && !t3.phase.won
         case Some(w1) => t3.phase.won && t3.phase.ref
                          && Transition(w1.repo, t.p, pid, Approved, Some(t.phase.text)) == Some(w3.repo) && w3.store == w1.store
  {
    var (w1, t1) := TaskStep(c, w, pid, t, now);
    if t1.phase.Over? {
      OverStays(c, w1, pid, t1, now, 2);
    } else {
      var (w2, t2) := TaskStep(c, w1, pid, t1, now);
      var (w3, t3) := TaskStep(c, w2, pid, t2, now);
      OverStays(c, w3, pid, t3, now, 0);
      assert Steps(c, w2, pid, t2, now, 1) == (w3, t3);
      assert Steps(c, w1, pid, t1, now, 2) == (w3, t3);
    }
  }

  /** A task with nobody beside it does what the atomic call does: the interleaved model and the atomic
      one agree on undisturbed runs. */
  lemma AloneIsApprove(c: Config, w: World, p: Principal, pid: nat, edited: string, now: int)
    ensures var (w', reply) := Approve(c, w, p, pid, edited, now);
      var (w5, t5) := Steps(c, w, pid, Task(p, Approver(edited), Begin), now, 5);
      && w5 == w' && t5.phase.Over?
      && (reply.error.None? <==> t5.phase.won && t5.phase.ref)
  {
    var t := Task(p, Approver(edited), Begin);
    var (w1, t1) := TaskStep(c, w, pid, t, now);
    if t1.phase.Over? {
      OverStays(c, w1, pid, t1, now, 4);
    } else {
      var (w2, t2) := TaskStep(c, w1, pid, t1, now);
      if t2.phase.Over? {
        OverStays(c, w2, pid, t2, now, 3);
      } else {
        StoringAlone(c, w2, pid, t2, now);
      }
      assert Steps(c, w1, pid, t1, now, 4) == Steps(c, w2, pid, t2, now, 3);
    }
    assert Steps(c, w, pid, t, now, 5) == Steps(c, w1, pid, t1, now, 4);
  }

  /** Rejecting is one operation, the atomic one. */
  lemma AloneIsReject(c: Config, w: World, p: Principal, pid: nat, now: int)
    ensures var (w', reply) := Reject(w, p, pid);
      var (w1, t1) := Steps(c, w, pid, Task(p, Rejecter, Begin), now, 1);
      w1 == w' && t1.phase.Over? && (reply.error.None? <==> Won(t1))
  {
    var (w1, t1) := TaskStep(c, w, pid, Task(p, Rejecter, Begin), now);
    OverStays(c, w1, pid, t1, now, 0);
  }

  /** The sweep of one proposal, undisturbed, expires it exactly when it is pending and overdue, whoever it
      belongs to. */
  lemma AloneIsSweep(c: Config, w: World, p: Principal, pid: nat, now: int)
    ensures var (w2, t2) := Steps(c, w, pid, Task(p, Sweeper, Begin), now, 2);
      var swept := ExpireAll(w.repo, now).proposals;
      && t2.phase.Over? && w2.store == w.store && w2.repo == w.repo.(proposals := w2.repo.proposals)
      && w2.repo.proposals == (if pid in w.repo.proposals then w.repo.proposals[pid := swept[pid]] else w.repo.proposals)
      && (Won(t2) <==> pid in w.repo.proposals && w.repo.proposals[pid].state == Pending && w.repo.proposals[pid].expires <= now)
  {
    var (w1, t1) := TaskStep(c, w, pid, Task(p, Sweeper, Begin), now);
    var (w2, t2) := TaskStep(c, w1, pid, t1, now);
    assert Steps(c, w1, pid, t1, now, 1) == Steps(c, w2, pid, t2, now, 0) == (w2, t2);
    if pid in w.repo.proposals { assert w.repo.proposals[pid := w.repo.proposals[pid]] == w.repo.proposals; }
  }

  // ---------------------------------------------------------------- the invariant

  function IdOf(c: Config, r: Repo, pid: nat): RecordId
    requires pid in r.proposals && r.proposals[pid].space in r.spaces
  {
    Stable(ScopeFor(c, r.proposals[pid].principal, r.proposals[pid].space, r.spaces[r.proposals[pid].space]), ProposalKey(pid))
  }

  /** The start: a pending proposal in a sound memory and tasks that have done nothing. The proposal's record
      may be there already, as an import may have used the proposal's id as its external id. */
  ghost predicate Start(c: Config, pid: nat, s: State) {
    && Base(c, s.w) && pid in s.w.repo.proposals && s.w.repo.proposals[pid].state.Pending?
    && s.w.repo.proposals[pid].space in s.w.repo.spaces
    && forall t :: t in s.tasks ==> t.phase.Begin?
  }

  ghost predicate IsPending(w: World, pid: nat) {
    pid in w.repo.proposals && w.repo.proposals[pid].state.Pending?
  }

  /** Every state that atomic calls reach from a fresh memory is such a start for each of its pending
      proposals. */
  lemma ReachedStatesStart(c: Config, w: World, calls: seq<MemoryRuns.Call>, pid: nat, tasks: seq<Task>)
    requires Fresh(w) && MemoryRuns.LegalRun(c, w, calls)
    requires IsPending(MemoryRuns.Exec(c, w, calls), pid)
    requires forall t :: t in tasks ==> t.phase.Begin?
    ensures Start(c, pid, State(MemoryRuns.Exec(c, w, calls), tasks))
  {
    FreshIsBase(c, w);
    MemoryRuns.RunKeeps(c, w, calls);
  }

  function Outcome(t: Task): ProposalState {
    match t.job
    case Approver(_) => if HasRow(t) then Approved else Expired
    case Rejecter => Rejected
    case Sweeper => Expired
  }

  predicate TaskOk(t: Task, owner: Principal, id: RecordId) {
    && (HasRow(t) ==> t.job.Approver? && t.p == owner)
    && (t.phase.Fetched? || t.phase.Placed? ==> t.job.Approver? && t.p == owner)
    && (t.phase.Expiring? ==> !t.job.Rejecter?)
    && (t.phase.Ingested? ==> t.phase.id == id)
    && (HasRef(t) ==> HasRow(t))
    && (Won(t) && HasRow(t) ==> HasRef(t))
    && (Won(t) && t.job.Rejecter? ==> t.p == owner)
  }

  ghost predicate SomeRow(tasks: seq<Task>) { exists i :: 0 <= i < |tasks| && HasRow(tasks[i]) }
  ghost predicate SomeRef(tasks: seq<Task>) { exists i :: 0 <= i < |tasks| && HasRef(tasks[i]) }
  ghost predicate SomeWon(tasks: seq<Task>) { exists i :: 0 <= i < |tasks| && Won(tasks[i]) }

  // Some task stored this text.
  ghost predicate SomeText(tasks: seq<Task>, text: string) {
    exists i :: 0 <= i < |tasks| && HasRow(tasks[i]) && TextOf(tasks[i]) == text
  }

  ghost predicate Frame(pid: nat, w0: World, w: World) {
    && w.repo.spaces == w0.repo.spaces && w.repo.members == w0.repo.members && w.repo.bridges == w0.repo.bridges
    && pid in w0.repo.proposals && pid in w.repo.proposals
    && w.repo.proposals == w0.repo.proposals[pid := w.repo.proposals[pid]]
    && w.repo.proposals[pid] == w0.repo.proposals[pid].(state := w.repo.proposals[pid].state, content := w.repo.proposals[pid].content)
  }

  // The store holds what it held and the proposal's record if some task got past storing it. The record is
  // the one found there, or has some task's text.
  ghost predicate RowsInv(id: RecordId, sc: Scope, rows0: map<RecordId, Row>, rows: map<RecordId, Row>, tasks: seq<Task>) {
    && (forall o :: o in rows0 ==> o in rows && rows[o] == rows0[o])
    && (forall o :: o in rows ==> o in rows0 || o == id)
    && (id in rows <==> id in rows0 || SomeRow(tasks))
    && (SomeRow(tasks) ==> InPartition(rows[id], sc))
    && (id in rows && id !in rows0 ==> SomeText(tasks, rows[id].content))
  }

  // The references are the old ones and perhaps one, the proposal's.
  ghost predicate RefsInv(id: RecordId, pid: nat, sid: nat, owner: Principal, r0: Repo, r: Repo, tasks: seq<Task>) {
    && RefsKept(r0, r) && UniqueRecords(r) && (forall i :: i in r.refs ==> i < r.next)
    && (forall i :: i in r.refs && i !in r0.refs ==> r.refs[i] == Ref(sid, owner, id, Some(pid), None, Active))
    && (FindRef(r.refs, sid, id).Some? <==> FindRef(r0.refs, sid, id).Some? || SomeRef(tasks))
  }

  ghost predicate TasksInv(tasks: seq<Task>, owner: Principal, id: RecordId) {
    forall i :: 0 <= i < |tasks| ==> TaskOk(tasks[i], owner, id)
  }

  // Nobody has won and the proposal is as it was, or one task has and the proposal says so.
  ghost predicate WinnerInv(item0: Proposal, item: Proposal, tasks: seq<Task>) {
    && (!SomeWon(tasks) ==> item == item0)
    && (forall i, j :: 0 <= i < |tasks| && 0 <= j < |tasks| && Won(tasks[i]) && Won(tasks[j]) ==> i == j)
    && (forall i :: 0 <= i < |tasks| && Won(tasks[i]) ==> Decides(tasks[i], item))
  }

  predicate Decides(t: Task, item: Proposal) {
    item.state == Outcome(t) && item.content == (if Outcome(t).Approved? then Some(TextOf(t)) else None)
  }

  ghost predicate Inv(c: Config, pid: nat, w0: World, s: State) {
    && pid in w0.repo.proposals && w0.repo.proposals[pid].space in w0.repo.spaces
    && w0.repo.proposals[pid].state.Pending?
    && Frame(pid, w0, s.w)
    && var id, owner, sid := IdOf(c, w0.repo, pid), w0.repo.proposals[pid].principal, w0.repo.proposals[pid].space;
    && RowsInv(id, id.scope, w0.store.rows, s.w.store.rows, s.tasks)
    && RefsInv(id, pid, sid, owner, w0.repo, s.w.repo, s.tasks)
    && WinnerInv(w0.repo.proposals[pid], s.w.repo.proposals[pid], s.tasks)
    && TasksInv(s.tasks, owner, id)
  }

  lemma StartInv(c: Config, pid: nat, s: State)
    requires Start(c, pid, s)
    ensures Inv(c, pid, s.w, s)
  {
  }

  // ---------------------------------------------------------------- the invariant is kept

  // A task only gains: a row, a reference, a win; its text stays once it has stored it.
  predicate Gains(t: Task, t': Task) {
    && (HasRow(t) ==> HasRow(t') && TextOf(t') == TextOf(t)) && (HasRef(t) ==> HasRef(t')) && !Won(t)
  }

  lemma Updated(tasks: seq<Task>, i: nat, t': Task)
    requires i < |tasks| && Gains(tasks[i], t')
    ensures SomeRow(tasks[i := t']) <==> SomeRow(tasks) || HasRow(t')
    ensures SomeRef(tasks[i := t']) <==> SomeRef(tasks) || HasRef(t')
    ensures SomeWon(tasks[i := t']) <==> SomeWon(tasks) || Won(t')
    ensures forall text :: SomeText(tasks, text) ==> SomeText(tasks[i := t'], text)
    ensures HasRow(t') ==> SomeText(tasks[i := t'], TextOf(t'))
  {
    var tasks' := tasks[i := t'];
    assert tasks'[i] == t' && forall j :: 0 <= j < |tasks| && j != i ==> tasks'[j] == tasks[j];
    if SomeRow(tasks) {
      var j :| 0 <= j < |tasks| && HasRow(tasks[j]);
      assert HasRow(tasks'[j]);
    }
    if SomeRef(tasks) {
      var j :| 0 <= j < |tasks| && HasRef(tasks[j]);
      assert HasRef(tasks'[j]);
    }
    if SomeWon(tasks) {
      var j :| 0 <= j < |tasks| && Won(tasks[j]);
      assert Won(tasks'[j]);
    }
    forall text | SomeText(tasks, text)
      ensures SomeText(tasks', text)
    {
      var j :| 0 <= j < |tasks| && HasRow(tasks[j]) && TextOf(tasks[j]) == text;
      assert HasRow(tasks'[j]) && TextOf(tasks'[j]) == text;
    }
  }

  lemma RowsStay(id: RecordId, sc: Scope, rows0: map<RecordId, Row>, rows: map<RecordId, Row>, tasks: seq<Task>, i: nat, t': Task)
    requires RowsInv(id, sc, rows0, rows, tasks) && i < |tasks| && Gains(tasks[i], t') && HasRow(t') == HasRow(tasks[i])
    ensures RowsInv(id, sc, rows0, rows, tasks[i := t'])
  {
    Updated(tasks, i, t');
  }

  lemma RefsStay(id: RecordId, pid: nat, sid: nat, owner: Principal, r0: Repo, r: Repo, r': Repo, tasks: seq<Task>, i: nat, t': Task)
    requires RefsInv(id, pid, sid, owner, r0, r, tasks) && i < |tasks| && Gains(tasks[i], t') && HasRef(t') == HasRef(tasks[i])
    requires r'.refs == r.refs && r'.next == r.next
    ensures RefsInv(id, pid, sid, owner, r0, r', tasks[i := t'])
  {
    Updated(tasks, i, t');
  }

  lemma WinnerStays(item0: Proposal, item: Proposal, tasks: seq<Task>, i: nat, t': Task)
    requires WinnerInv(item0, item, tasks) && i < |tasks| && Gains(tasks[i], t') && !Won(t')
    ensures WinnerInv(item0, item, tasks[i := t'])
  {
    Updated(tasks, i, t');
  }

  // A step that changes nothing but where its task waits.
  lemma QuietInv(c: Config, pid: nat, w0: World, s: State, i: nat, t': Task)
    requires Inv(c, pid, w0, s) && i < |s.tasks| && Gains(s.tasks[i], t') && !Won(t')
    requires HasRow(t') == HasRow(s.tasks[i]) && HasRef(t') == HasRef(s.tasks[i])
    requires TaskOk(t', w0.repo.proposals[pid].principal, IdOf(c, w0.repo, pid))
    ensures Inv(c, pid, w0, s.(tasks := s.tasks[i := t']))
  {
    var id, owner, item := IdOf(c, w0.repo, pid), w0.repo.proposals[pid].principal, w0.repo.proposals[pid];
    RowsStay(id, id.scope, w0.store.rows, s.w.store.rows, s.tasks, i, t');
    RefsStay(id, pid, item.space, owner, w0.repo, s.w.repo, s.w.repo, s.tasks, i, t');
    WinnerStays(item, s.w.repo.proposals[pid], s.tasks, i, t');
  }

  // The transition: it succeeds only while nobody has won.
  lemma MoveInv(c: Config, pid: nat, w0: World, s: State, i: nat, who: Principal, to: ProposalState, content: Option<string>)
    requires Inv(c, pid, w0, s) && i < |s.tasks| && !s.tasks[i].phase.Over?
    requires to == Outcome(s.tasks[i]) && (s.tasks[i].job.Rejecter? ==> who == s.tasks[i].p)
    requires to.Approved? ==> HasRef(s.tasks[i]) && content == Some(TextOf(s.tasks[i]))
    ensures var (w', t') := Move(s.w, pid, s.tasks[i], who, to, content);
      Inv(c, pid, w0, State(w', s.tasks[i := t']))
  {
    var (w', t') := Move(s.w, pid, s.tasks[i], who, to, content);
    if Won(t') {
      var id, item := IdOf(c, w0.repo, pid), w0.repo.proposals[pid];
      RowsStay(id, id.scope, w0.store.rows, s.w.store.rows, s.tasks, i, t');
      RefsStay(id, pid, item.space, item.principal, w0.repo, s.w.repo, w'.repo, s.tasks, i, t');
      FirstWins(item, s.w.repo.proposals[pid], w'.repo.proposals[pid], s.tasks, i, t');
      assert Frame(pid, w0, w');
    } else {
      QuietInv(c, pid, w0, s, i, t');
    }
  }

  lemma FirstWins(item0: Proposal, item: Proposal, item': Proposal, tasks: seq<Task>, i: nat, t': Task)
    requires WinnerInv(item0, item, tasks) && item.state.Pending?
    requires i < |tasks| && Gains(tasks[i], t') && Won(t') && Decides(t', item')
    ensures WinnerInv(item0, item', tasks[i := t'])
  {
    Updated(tasks, i, t');
    assert forall j :: 0 <= j < |tasks| ==> !Won(tasks[j]);
  }

  lemma StoreInv(c: Config, pid: nat, w0: World, s: State, i: nat, now: int)
    requires Inv(c, pid, w0, s) && i < |s.tasks| && s.tasks[i].phase.Placed?
    ensures Inv(c, pid, w0, Work(c, pid, s, i, now))
  {
    var (w', t') := TaskStep(c, s.w, pid, s.tasks[i], now);
    var id, item := IdOf(c, w0.repo, pid), w0.repo.proposals[pid];
    assert ScopeFor(c, s.tasks[i].p, item.space, w0.repo.spaces[item.space]) == id.scope;
    if HasRow(t') {
      Updated(s.tasks, i, t');
      assert RowsInv(id, id.scope, w0.store.rows, w'.store.rows, s.tasks[i := t']);
      RefsStay(id, pid, item.space, item.principal, w0.repo, s.w.repo, w'.repo, s.tasks, i, t');
      WinnerStays(item, s.w.repo.proposals[pid], s.tasks, i, t');
    } else {
      QuietInv(c, pid, w0, s, i, t');
    }
  }

  lemma ReferInv(c: Config, pid: nat, w0: World, s: State, i: nat, now: int)
    requires Inv(c, pid, w0, s) && i < |s.tasks| && s.tasks[i].phase.Ingested?
    ensures Inv(c, pid, w0, Work(c, pid, s, i, now))
  {
    var (w', t') := TaskStep(c, s.w, pid, s.tasks[i], now);
    var id, item := IdOf(c, w0.repo, pid), w0.repo.proposals[pid];
    RowsStay(id, id.scope, w0.store.rows, s.w.store.rows, s.tasks, i, t');
    WinnerStays(item, s.w.repo.proposals[pid], s.tasks, i, t');
    RefGained(id, pid, item.space, item.principal, w0.repo, s.w.repo, s.tasks, i, t');
    AddRefGrows(s.w.repo, item.space, item.principal, id, Some(pid), None);
  }

  lemma RefGained(id: RecordId, pid: nat, sid: nat, owner: Principal, r0: Repo, r: Repo, tasks: seq<Task>, i: nat, t': Task)
    requires RefsInv(id, pid, sid, owner, r0, r, tasks) && i < |tasks| && Gains(tasks[i], t') && HasRef(t')
    ensures RefsInv(id, pid, sid, owner, r0, AddRef(r, sid, owner, id, Some(pid), None).0, tasks[i := t'])
  {
    Updated(tasks, i, t');
    AddRefGrows(r, sid, owner, id, Some(pid), None);
    AddRefUnique(r, sid, owner, id, Some(pid), None);
    var (r', n) := AddRef(r, sid, owner, id, Some(pid), None);
    assert IsRef(r'.refs, sid, id, n);
  }

  lemma WorkInv(c: Config, pid: nat, w0: World, s: State, i: nat, now: int)
    requires Inv(c, pid, w0, s) && i < |s.tasks|
    ensures Inv(c, pid, w0, Work(c, pid, s, i, now))
  {
    var t := s.tasks[i];
    match t.phase
    case Placed(_) => StoreInv(c, pid, w0, s, i, now);
    case Ingested(_, _) => ReferInv(c, pid, w0, s, i, now);
    case Referenced(text) => MoveInv(c, pid, w0, s, i, t.p, Approved, Some(text));
    case Expiring(who) => MoveInv(c, pid, w0, s, i, who, Expired, None);
    case Fetched(_) => QuietInv(c, pid, w0, s, i, TaskStep(c, s.w, pid, t, now).1);
    case Over(_, _, _, _) => assert s.tasks[i := t] == s.tasks;
    case Begin =>
      if t.job.Rejecter? { MoveInv(c, pid, w0, s, i, t.p, Rejected, None); }
      else { QuietInv(c, pid, w0, s, i, TaskStep(c, s.w, pid, t, now).1); }
  }

  lemma HaltInv(c: Config, pid: nat, w0: World, s: State, i: nat)
    requires Inv(c, pid, w0, s) && i < |s.tasks|
    ensures Inv(c, pid, w0, Halt(s, i))
  {
    if !s.tasks[i].phase.Over? { QuietInv(c, pid, w0, s, i, Stop(s.tasks[i], false)); }
  }

  /** Every operation of every task keeps the invariant, and so does every cancellation, whether or not
      the operation took effect. */
  lemma StepInv(c: Config, pid: nat, w0: World, s: State, e: Event)
    requires Inv(c, pid, w0, s)
    ensures Inv(c, pid, w0, Next(c, pid, s, e))
  {
    if e.task < |s.tasks| {
      if e.Advance? || e.sent { WorkInv(c, pid, w0, s, e.task, e.now); }
      if e.Cancel? { HaltInv(c, pid, w0, if e.sent then Work(c, pid, s, e.task, e.now) else s, e.task); }
    }
  }

  lemma {:induction false} RunInv(c: Config, pid: nat, w0: World, s: State, events: seq<Event>)
    requires Inv(c, pid, w0, s)
    ensures Inv(c, pid, w0, Run(c, pid, s, events))
    decreases |events|
  {
    if events != [] {
      StepInv(c, pid, w0, s, events[0]);
      RunInv(c, pid, w0, Next(c, pid, s, events[0]), events[1..]);
    }
  }

  // ---------------------------------------------------------------- results over whole runs

  /** At most one task's transition of the proposal ever succeeds, and the proposal is in the state, and
      has the text, that task gave it; while none has, it is untouched. */
  lemma AtMostOneWins(c: Config, pid: nat, s: State, events: seq<Event>)
    requires Start(c, pid, s)
    ensures var s' := Run(c, pid, s, events);
      && pid in s'.w.repo.proposals
      && (forall i, j :: 0 <= i < |s'.tasks| && 0 <= j < |s'.tasks| && Won(s'.tasks[i]) && Won(s'.tasks[j]) ==> i == j)
      && (forall i :: 0 <= i < |s'.tasks| && Won(s'.tasks[i]) ==> Decides(s'.tasks[i], s'.w.repo.proposals[pid]))
      && (!SomeWon(s'.tasks) ==> s'.w.repo.proposals[pid] == s.w.repo.proposals[pid])
  {
    StartInv(c, pid, s);
    RunInv(c, pid, s.w, s, events);
  }

  // The number of operations of a run that change the proposal.
  ghost function Transitions(c: Config, pid: nat, s: State, events: seq<Event>): nat
    decreases |events|
  {
    if events == [] then 0
    else
      var s1 := Next(c, pid, s, events[0]);
      var rest := Transitions(c, pid, s1, events[1..]);
      if pid in s.w.repo.proposals && pid in s1.w.repo.proposals && s1.w.repo.proposals[pid] == s.w.repo.proposals[pid]
      then rest else rest + 1
  }

  // The proposal stays, or leaves the pending state for good.
  predicate Moves(item: Proposal, item': Proposal) {
    item' == item || (item.state.Pending? && !item'.state.Pending?)
  }

  lemma WorkTerminal(c: Config, pid: nat, s: State, i: nat, now: int)
    requires pid in s.w.repo.proposals && i < |s.tasks|
    ensures var s1 := Work(c, pid, s, i, now);
      pid in s1.w.repo.proposals && Moves(s.w.repo.proposals[pid], s1.w.repo.proposals[pid])
  {
  }

  lemma StepTerminal(c: Config, pid: nat, s: State, e: Event)
    requires pid in s.w.repo.proposals
    ensures var s1 := Next(c, pid, s, e);
      pid in s1.w.repo.proposals && Moves(s.w.repo.proposals[pid], s1.w.repo.proposals[pid])
  {
    if e.task < |s.tasks| && (e.Advance? || e.sent) { WorkTerminal(c, pid, s, e.task, e.now); }
  }

  /** A proposal leaves the pending state at most once, exactly once when it ends in another one, and a
      terminal state never changes. */
  lemma {:induction false} TerminalStays(c: Config, pid: nat, s: State, events: seq<Event>)
    requires pid in s.w.repo.proposals
    ensures var s' := Run(c, pid, s, events);
      var pending := s.w.repo.proposals[pid].state.Pending?;
      && pid in s'.w.repo.proposals
      && (!pending ==> s'.w.repo.proposals[pid] == s.w.repo.proposals[pid] && Transitions(c, pid, s, events) == 0)
      && (pending ==> Transitions(c, pid, s, events) == if s'.w.repo.proposals[pid].state.Pending? then 0 else 1)
    decreases |events|
  {
    if events != [] {
      StepTerminal(c, pid, s, events[0]);
      TerminalStays(c, pid, Next(c, pid, s, events[0]), events[1..]);
    }
  }

  /** A successful approval leaves the record and one reference to it, which is the approval's own and active
      unless there was one. */
  lemma SuccessStoresBoth(c: Config, pid: nat, s: State, events: seq<Event>, i: nat)
    requires Start(c, pid, s) && i < |Run(c, pid, s, events).tasks|
    requires var t := Run(c, pid, s, events).tasks[i]; Won(t) && HasRow(t)
    ensures var s' := Run(c, pid, s, events);
      var id, sid := IdOf(c, s.w.repo, pid), s.w.repo.proposals[pid].space;
      && pid in s'.w.repo.proposals && s'.w.repo.proposals[pid].state.Approved?
      && s'.w.repo.proposals[pid].content == Some(TextOf(s'.tasks[i]))
      && Has(s'.w.store, id.scope, id)
      && FindRef(s'.w.repo.refs, sid, id).Some?
      && var n := FindRef(s'.w.repo.refs, sid, id).value;
        if FindRef(s.w.repo.refs, sid, id).Some? then FindRef(s.w.repo.refs, sid, id) == Some(n)
        else s'.w.repo.refs[n] == Ref(sid, s.w.repo.proposals[pid].principal, id, Some(pid), None, Active)
  {
    StartInv(c, pid, s);
    RunInv(c, pid, s.w, s, events);
    var s' := Run(c, pid, s, events);
    var id, sid := IdOf(c, s.w.repo, pid), s.w.repo.proposals[pid].space;
    assert TaskOk(s'.tasks[i], s.w.repo.proposals[pid].principal, id);
    assert HasRef(s'.tasks[i]) && SomeRef(s'.tasks) && SomeRow(s'.tasks);
    var n := FindRef(s'.w.repo.refs, sid, id).value;
    assert IsRef(s'.w.repo.refs, sid, id, n);
    if FindRef(s.w.repo.refs, sid, id).Some? {
      var m := FindRef(s.w.repo.refs, sid, id).value;
      assert IsRef(s'.w.repo.refs, sid, id, m) && SameRecord(s'.w.repo.refs[m], s'.w.repo.refs[n]);
    } else {
      assert n in s.w.repo.refs ==> IsRef(s.w.repo.refs, sid, id, n);
    }
  }

  /** However many tasks there are, they store one record at most and make one reference at most, and they
      leave every other record and reference as it was. */
  lemma OneRecordOneReference(c: Config, pid: nat, s: State, events: seq<Event>)
    requires Start(c, pid, s)
    ensures var s' := Run(c, pid, s, events);
      var id := IdOf(c, s.w.repo, pid);
      && s'.w.store.rows - {id} == s.w.store.rows - {id} && (id in s.w.store.rows ==> s'.w.store.rows == s.w.store.rows)
      && RefsKept(s.w.repo, s'.w.repo)
      && (forall i, j :: i in s'.w.repo.refs && j in s'.w.repo.refs && i !in s.w.repo.refs && j !in s.w.repo.refs ==> i == j)
      && (forall i :: i in s'.w.repo.refs && i !in s.w.repo.refs ==> s'.w.repo.refs[i].record == id)
  {
    StartInv(c, pid, s);
    RunInv(c, pid, s.w, s, events);
    var s' := Run(c, pid, s, events);
    forall i, j | i in s'.w.repo.refs && j in s'.w.repo.refs && i !in s.w.repo.refs && j !in s.w.repo.refs
      ensures i == j
    {
      assert SameRecord(s'.w.repo.refs[i], s'.w.repo.refs[j]);
    }
  }

  /** Whatever becomes of the proposal, its record is stored exactly when it was before or some approver got
      past storing it, and referenced exactly when it was before or some approver got past that. */
  lemma StoredExactlyWhenIngested(c: Config, pid: nat, s: State, events: seq<Event>)
    requires Start(c, pid, s)
    ensures var s' := Run(c, pid, s, events);
      var id, sid := IdOf(c, s.w.repo, pid), s.w.repo.proposals[pid].space;
      && (id in s'.w.store.rows <==> id in s.w.store.rows || SomeRow(s'.tasks))
      && (FindRef(s'.w.repo.refs, sid, id).Some? <==> FindRef(s.w.repo.refs, sid, id).Some? || SomeRef(s'.tasks))
  {
    StartInv(c, pid, s);
    RunInv(c, pid, s.w, s, events);
  }

  // What an approver would store: its edit, or the proposal's text.
  predicate Contends(c: Config, item: Proposal, p: Principal, job: Job, text: string) {
    && job.Approver? && p == item.principal && item.content.Some?
    && text == c.strip(if job.edited != "" then job.edited else item.content.value)
    && text != "" && !c.secret(text)
  }

  predicate HasText(t: Task) {
    t.phase.Fetched? || t.phase.Placed? || HasRow(t)
  }

  // Every task is the one it was at the start, and its text is the one it then contended with.
  ghost predicate TextsFrom(c: Config, item: Proposal, tasks0: seq<Task>, tasks: seq<Task>) {
    |tasks| == |tasks0| && forall i :: 0 <= i < |tasks| ==> TextFrom(c, item, tasks0[i], tasks[i])
  }

  predicate TextFrom(c: Config, item: Proposal, t0: Task, t: Task) {
    t.p == t0.p && t.job == t0.job && (HasText(t) ==> Contends(c, item, t.p, t.job, TextOf(t)))
  }

  predicate SameOffer(item: Proposal, now: Proposal) {
    now.principal == item.principal && (now.state.Pending? ==> now.content == item.content)
  }

  lemma TaskTexts(c: Config, pid: nat, item: Proposal, w: World, t0: Task, t: Task, now: int)
    requires TextFrom(c, item, t0, t) && pid in w.repo.proposals && SameOffer(item, w.repo.proposals[pid])
    ensures TextFrom(c, item, t0, TaskStep(c, w, pid, t, now).1)
  {
  }

  lemma {:induction false} RunTexts(c: Config, pid: nat, item: Proposal, tasks0: seq<Task>, s: State, events: seq<Event>)
    requires TextsFrom(c, item, tasks0, s.tasks) && pid in s.w.repo.proposals && SameOffer(item, s.w.repo.proposals[pid])
    ensures TextsFrom(c, item, tasks0, Run(c, pid, s, events).tasks)
    decreases |events|
  {
    if events != [] {
      var s1 := Next(c, pid, s, events[0]);
      StepTerminal(c, pid, s, events[0]);
      StepTexts(c, pid, item, tasks0, s, events[0]);
      RunTexts(c, pid, item, tasks0, s1, events[1..]);
    }
  }

  lemma StepTexts(c: Config, pid: nat, item: Proposal, tasks0: seq<Task>, s: State, e: Event)
    requires TextsFrom(c, item, tasks0, s.tasks) && pid in s.w.repo.proposals && SameOffer(item, s.w.repo.proposals[pid])
    ensures TextsFrom(c, item, tasks0, Next(c, pid, s, e).tasks)
    ensures pid in Next(c, pid, s, e).w.repo.proposals && SameOffer(item, Next(c, pid, s, e).w.repo.proposals[pid])
  {
    StepTerminal(c, pid, s, e);
    if e.task < |s.tasks| && (e.Advance? || e.sent) {
      TaskTexts(c, pid, item, s.w, tasks0[e.task], s.tasks[e.task], e.now);
      TaskKeepsOffer(c, s.w, pid, s.tasks[e.task], e.now);
    }
  }

  lemma TaskKeepsOffer(c: Config, w: World, pid: nat, t: Task, now: int)
    requires pid in w.repo.proposals
    ensures var r := TaskStep(c, w, pid, t, now).0.repo;
      pid in r.proposals && r.proposals[pid].principal == w.repo.proposals[pid].principal
  {
  }

  // After the run a successful approval, if there is one, has its text in the store.
  ghost predicate StoresApproved(c: Config, pid: nat, s: State, events: seq<Event>)
    requires pid in s.w.repo.proposals && s.w.repo.proposals[pid].space in s.w.repo.spaces
  {
    var s' := Run(c, pid, s, events);
    var id := IdOf(c, s.w.repo, pid);
    forall i :: 0 <= i < |s'.tasks| && Won(s'.tasks[i]) && HasRow(s'.tasks[i]) ==>
      id in s'.w.store.rows && s'.w.store.rows[id].content == TextOf(s'.tasks[i])
  }

  ghost predicate SomeContender(c: Config, item: Proposal, tasks: seq<Task>) {
    exists i, text :: ContendsAt(c, item, tasks, i, text)
  }

  predicate ContendsAt(c: Config, item: Proposal, tasks: seq<Task>, i: int, text: string) {
    0 <= i < |tasks| && Contends(c, item, tasks[i].p, tasks[i].job, text)
  }

  // Two approvers would store different texts.
  ghost predicate Rivals(c: Config, item: Proposal, tasks: seq<Task>) {
    exists i, j, a, b :: RivalsAt(c, item, tasks, i, j, a, b)
  }

  predicate RivalsAt(c: Config, item: Proposal, tasks: seq<Task>, i: int, j: int, a: string, b: string) {
    && 0 <= i < |tasks| && 0 <= j < |tasks| && a != b
    && Contends(c, item, tasks[i].p, tasks[i].job, a) && Contends(c, item, tasks[j].p, tasks[j].job, b)
  }

  // An approver would store another text than the one found under the proposal's id.
  ghost predicate Stale(c: Config, pid: nat, w: World, tasks: seq<Task>)
    requires pid in w.repo.proposals && w.repo.proposals[pid].space in w.repo.spaces
  {
    var id := IdOf(c, w.repo, pid);
    Has(w.store, id.scope, id) &&
    exists i, text :: ContendsAt(c, w.repo.proposals[pid], tasks, i, text) && text != w.store.rows[id].content
  }

  // Two texts compete: those of two approvers, or an approver's and the one found.
  ghost predicate TextsCompete(c: Config, pid: nat, w: World, tasks: seq<Task>)
    requires pid in w.repo.proposals && w.repo.proposals[pid].space in w.repo.spaces
  {
    if IdOf(c, w.repo, pid) in w.store.rows then Stale(c, pid, w, tasks) else Rivals(c, w.repo.proposals[pid], tasks)
  }

  // With no competing text, the stored text is the winning approver's.
  lemma TextStored(c: Config, pid: nat, s: State, s': State, i: nat)
    requires Start(c, pid, s) && !TextsCompete(c, pid, s.w, s.tasks)
    requires Inv(c, pid, s.w, s') && TextsFrom(c, s.w.repo.proposals[pid], s.tasks, s'.tasks)
    requires i < |s'.tasks| && HasRow(s'.tasks[i])
    ensures var id := IdOf(c, s.w.repo, pid);
      id in s'.w.store.rows && s'.w.store.rows[id].content == TextOf(s'.tasks[i])
  {
    var id, item, text := IdOf(c, s.w.repo, pid), s.w.repo.proposals[pid], TextOf(s'.tasks[i]);
    assert SomeRow(s'.tasks) && TextFrom(c, item, s.tasks[i], s'.tasks[i]);
    if id in s.w.store.rows {
      assert ContendsAt(c, item, s.tasks, i, text);
    } else {
      var j :| 0 <= j < |s'.tasks| && HasRow(s'.tasks[j]) && TextOf(s'.tasks[j]) == s'.w.store.rows[id].content;
      assert TextFrom(c, item, s.tasks[j], s'.tasks[j]);
      assert text == TextOf(s'.tasks[j]) || RivalsAt(c, item, s.tasks, i, j, text, TextOf(s'.tasks[j]));
    }
  }

  lemma WithoutRivals(c: Config, pid: nat, s: State, events: seq<Event>)
    requires Start(c, pid, s) && !TextsCompete(c, pid, s.w, s.tasks)
    ensures StoresApproved(c, pid, s, events)
  {
    var s' := Run(c, pid, s, events);
    StartInv(c, pid, s);
    RunInv(c, pid, s.w, s, events);
    StartTexts(c, pid, s);
    RunTexts(c, pid, s.w.repo.proposals[pid], s.tasks, s, events);
    forall i | 0 <= i < |s'.tasks| && Won(s'.tasks[i]) && HasRow(s'.tasks[i])
      ensures var id := IdOf(c, s.w.repo, pid);
        id in s'.w.store.rows && s'.w.store.rows[id].content == TextOf(s'.tasks[i])
    {
      TextStored(c, pid, s, s', i);
    }
  }

  lemma StartTexts(c: Config, pid: nat, s: State)
    requires Start(c, pid, s)
    ensures TextsFrom(c, s.w.repo.proposals[pid], s.tasks, s.tasks)
  {
    assert forall i :: 0 <= i < |s.tasks| ==> s.tasks[i] in s.tasks;
  }

  // ---------------------------------------------------------------- two interleavings

  lemma {:induction false} RunConcat(c: Config, pid: nat, s: State, a: seq<Event>, b: seq<Event>)
    ensures Run(c, pid, s, a + b) == Run(c, pid, Run(c, pid, s, a), b)
    decreases |a|
  {
    if a == [] {
      assert a + b == b;
    } else {
      assert (a + b)[1..] == a[1..] + b;
      RunConcat(c, pid, Next(c, pid, s, a[0]), a[1..], b);
    }
  }

  function Four(i: nat, now: int): seq<Event> {
    [Advance(i, now), Advance(i, now)] + [Advance(i, now), Advance(i, now)]
  }

  lemma RunTwo(c: Config, pid: nat, s: State, a: Event, b: Event)
    ensures Run(c, pid, s, [a, b]) == Next(c, pid, Next(c, pid, s, a), b)
  {
    var s1 := Next(c, pid, s, a);
    assert [a, b][1..] == [b] && [b][1..] == [];
    assert Run(c, pid, s1, [b]) == Run(c, pid, Next(c, pid, s1, b), []);
  }

  // Approver i can prepare its text now.
  ghost predicate Prepares(c: Config, pid: nat, s: State, i: nat, now: int, text: string) {
    && pid in s.w.repo.proposals && i < |s.tasks|
    && var item, t := s.w.repo.proposals[pid], s.tasks[i];
    && t.phase.Begin? && t.job.Approver? && t.p == item.principal
    && item.state.Pending? && item.content.Some? && now < item.expires
    && text == c.strip(if t.job.edited != "" then t.job.edited else item.content.value)
    && text != "" && !c.secret(text)
    && GetSpace(s.w.repo, t.p, item.space).Some?
  }

  // The first approver to store does store its text; a later one finds the record there.
  lemma ApproverStores(c: Config, pid: nat, s: State, i: nat, now: int, text: string)
    requires Prepares(c, pid, s, i, now, text)
    requires var id := IdOf(c, s.w.repo, pid); id in s.w.store.rows ==> InPartition(s.w.store.rows[id], id.scope)
    ensures var s' := Run(c, pid, s, Four(i, now));
      var id := IdOf(c, s.w.repo, pid);
      && s'.tasks == s.tasks[i := s.tasks[i].(phase := Referenced(text))]
      && s'.w.repo == s.w.repo.(refs := s'.w.repo.refs, next := s'.w.repo.next)
      && s'.w.store.rows == (if id in s.w.store.rows then s.w.store.rows
                             else s.w.store.rows[id := Row(id.scope.subject, id.scope.workspace, text, false)])
  {
    var a := Advance(i, now);
    var s1 := Next(c, pid, s, a);
    var s2 := Next(c, pid, s1, a);
    var s3 := Next(c, pid, s2, a);
    assert s2.tasks == s.tasks[i := s.tasks[i].(phase := Placed(text))] && s2.w == s.w;
    RunTwo(c, pid, s, a, a);
    RunTwo(c, pid, s2, a, a);
    RunConcat(c, pid, s, [a, a], [a, a]);
    assert s3.tasks == s.tasks[i := s.tasks[i].(phase := Ingested(text, IdOf(c, s.w.repo, pid)))];
    assert Next(c, pid, s3, a).tasks == s.tasks[i := s.tasks[i].(phase := Referenced(text))];
  }

  ghost predicate SomeRejecter(item: Proposal, tasks: seq<Task>) {
    exists i :: 0 <= i < |tasks| && tasks[i].p == item.principal && tasks[i].job.Rejecter?
  }

  // The run ends with the proposal rejected and its record in the store.
  ghost predicate RejectedYetStored(c: Config, pid: nat, s: State, events: seq<Event>)
    requires pid in s.w.repo.proposals && s.w.repo.proposals[pid].space in s.w.repo.spaces
  {
    var s' := Run(c, pid, s, events);
    && pid in s'.w.repo.proposals && s'.w.repo.proposals[pid].state.Rejected?
    && IdOf(c, s.w.repo, pid) in s'.w.store.rows
  }

  lemma RunOne(c: Config, pid: nat, s: State, e: Event)
    ensures Run(c, pid, s, [e]) == Next(c, pid, s, e)
  {
    assert [e][1..] == [];
  }

  lemma RejectionOvertakes(c: Config, pid: nat, s: State, i: nat, j: nat, text: string)
    requires Start(c, pid, s) && ContendsAt(c, s.w.repo.proposals[pid], s.tasks, i, text)
    requires IdOf(c, s.w.repo, pid) !in s.w.store.rows
    requires j < |s.tasks| && s.tasks[j].p == s.w.repo.proposals[pid].principal && s.tasks[j].job.Rejecter?
    ensures RejectedYetStored(c, pid, s, Four(i, s.w.repo.proposals[pid].expires - 1) + [Advance(j, 0)])
  {
    var now := s.w.repo.proposals[pid].expires - 1;
    assert s.tasks[i] in s.tasks && s.tasks[j] in s.tasks;
    var s1 := Run(c, pid, s, Four(i, now));
    ApproverStores(c, pid, s, i, now, text);
    RunConcat(c, pid, s, Four(i, now), [Advance(j, 0)]);
    RunOne(c, pid, s1, Advance(j, 0));
  }

  // A record found under the proposal's id is there whatever becomes of the proposal.
  lemma RejectionFindsRecord(c: Config, pid: nat, s: State, j: nat)
    requires Start(c, pid, s) && IdOf(c, s.w.repo, pid) in s.w.store.rows
    requires j < |s.tasks| && s.tasks[j].p == s.w.repo.proposals[pid].principal && s.tasks[j].job.Rejecter?
    ensures RejectedYetStored(c, pid, s, [Advance(j, 0)])
  {
    assert s.tasks[j] in s.tasks;
    RunOne(c, pid, s, Advance(j, 0));
  }

  lemma RejectedYetStoredNeedsBoth(c: Config, pid: nat, s: State, events: seq<Event>)
    requires Start(c, pid, s) && RejectedYetStored(c, pid, s, events)
    ensures IdOf(c, s.w.repo, pid) in s.w.store.rows || SomeContender(c, s.w.repo.proposals[pid], s.tasks)
    ensures SomeRejecter(s.w.repo.proposals[pid], s.tasks)
  {
    var s' := Run(c, pid, s, events);
    StartInv(c, pid, s);
    RunInv(c, pid, s.w, s, events);
    StartTexts(c, pid, s);
    RunTexts(c, pid, s.w.repo.proposals[pid], s.tasks, s, events);
    if IdOf(c, s.w.repo, pid) !in s.w.store.rows { StoredNeedsContender(c, pid, s, s'); }
    RejectedNeedsRejecter(c, pid, s, s');
  }

  lemma StoredNeedsContender(c: Config, pid: nat, s: State, s': State)
    requires Inv(c, pid, s.w, s') && TextsFrom(c, s.w.repo.proposals[pid], s.tasks, s'.tasks) && SomeRow(s'.tasks)
    ensures SomeContender(c, s.w.repo.proposals[pid], s.tasks)
  {
    var item := s.w.repo.proposals[pid];
    var i :| 0 <= i < |s'.tasks| && HasRow(s'.tasks[i]);
    assert TextFrom(c, item, s.tasks[i], s'.tasks[i]) && ContendsAt(c, item, s.tasks, i, TextOf(s'.tasks[i]));
  }

  lemma RejectedNeedsRejecter(c: Config, pid: nat, s: State, s': State)
    requires Inv(c, pid, s.w, s') && TextsFrom(c, s.w.repo.proposals[pid], s.tasks, s'.tasks)
    requires s'.w.repo.proposals[pid].state.Rejected?
    ensures SomeRejecter(s.w.repo.proposals[pid], s.tasks)
  {
    var id, item := IdOf(c, s.w.repo, pid), s.w.repo.proposals[pid];
    var j :| 0 <= j < |s'.tasks| && Won(s'.tasks[j]);
    assert TextFrom(c, item, s.tasks[j], s'.tasks[j]) && TaskOk(s'.tasks[j], item.principal, id);
    assert Decides(s'.tasks[j], s'.w.repo.proposals[pid]);
  }

  /** Rejected implies nothing in the store in every run exactly when there is no rejecter, or else no
      approver with something to store and no record found: one of each is enough for a rejected proposal's
      text to be stored. */
  lemma RejectedStoresNothingExactly(c: Config, pid: nat, s: State)
    requires Start(c, pid, s)
    ensures var item := s.w.repo.proposals[pid];
      (forall events :: !RejectedYetStored(c, pid, s, events)) <==>
      !(SomeRejecter(item, s.tasks) && (SomeContender(c, item, s.tasks) || IdOf(c, s.w.repo, pid) in s.w.store.rows))
  {
    var item := s.w.repo.proposals[pid];
    if SomeRejecter(item, s.tasks) {
      var j :| 0 <= j < |s.tasks| && s.tasks[j].p == item.principal && s.tasks[j].job.Rejecter?;
      if IdOf(c, s.w.repo, pid) in s.w.store.rows {
        RejectionFindsRecord(c, pid, s, j);
      } else if SomeContender(c, item, s.tasks) {
        var i, text :| ContendsAt(c, item, s.tasks, i, text);
        RejectionOvertakes(c, pid, s, i, j, text);
      }
    }
    forall events | RejectedYetStored(c, pid, s, events)
      ensures SomeRejecter(item, s.tasks)
      ensures SomeContender(c, item, s.tasks) || IdOf(c, s.w.repo, pid) in s.w.store.rows
    {
      RejectedYetStoredNeedsBoth(c, pid, s, events);
    }
  }

  // An approver that meets the other text in the store and goes on to win.
  lemma ApprovedOverOther(c: Config, pid: nat, w0: World, s: State, j: nat, text: string)
    requires pid in w0.repo.proposals && w0.repo.proposals[pid].space in w0.repo.spaces
    requires Prepares(c, pid, s, j, w0.repo.proposals[pid].expires - 1, text)
    requires s.w.repo.proposals[pid] == w0.repo.proposals[pid] && s.w.repo.spaces == w0.repo.spaces
    requires var id := IdOf(c, w0.repo, pid); Has(s.w.store, id.scope, id) && s.w.store.rows[id].content != text
    ensures var now := w0.repo.proposals[pid].expires - 1;
      var id, s' := IdOf(c, w0.repo, pid), Run(c, pid, s, Four(j, now) + [Advance(j, now)]);
      && j < |s'.tasks| && Won(s'.tasks[j]) && HasRow(s'.tasks[j]) && TextOf(s'.tasks[j]) == text
      && id in s'.w.store.rows && s'.w.store.rows[id].content != text
  {
    var now := w0.repo.proposals[pid].expires - 1;
    ApproverStores(c, pid, s, j, now, text);
    RunConcat(c, pid, s, Four(j, now), [Advance(j, now)]);
    RunOne(c, pid, Run(c, pid, s, Four(j, now)), Advance(j, now));
  }

  /** Two approvers with different edits: the one that stores first loses the transition, so the approved
      text is not the stored one. */
  lemma ApprovedTextDiffers(c: Config, pid: nat, s: State, i: nat, j: nat, first: string, second: string)
    requires Start(c, pid, s) && RivalsAt(c, s.w.repo.proposals[pid], s.tasks, i, j, first, second)
    requires IdOf(c, s.w.repo, pid) !in s.w.store.rows
    ensures var now := s.w.repo.proposals[pid].expires - 1;
      !StoresApproved(c, pid, s, Four(i, now) + (Four(j, now) + [Advance(j, now)]))
  {
    var now := s.w.repo.proposals[pid].expires - 1;
    assert s.tasks[i] in s.tasks && s.tasks[j] in s.tasks;
    var s1 := Run(c, pid, s, Four(i, now));
    ApproverStores(c, pid, s, i, now, first);
    ApprovedOverOther(c, pid, s.w, s1, j, second);
    RunConcat(c, pid, s, Four(i, now), Four(j, now) + [Advance(j, now)]);
  }

  lemma StaleTextDiffers(c: Config, pid: nat, s: State, j: nat, text: string)
    requires Start(c, pid, s) && ContendsAt(c, s.w.repo.proposals[pid], s.tasks, j, text)
    requires var id := IdOf(c, s.w.repo, pid); Has(s.w.store, id.scope, id) && s.w.store.rows[id].content != text
    ensures var now := s.w.repo.proposals[pid].expires - 1;
      !StoresApproved(c, pid, s, Four(j, now) + [Advance(j, now)])
  {
    assert s.tasks[j] in s.tasks;
    ApprovedOverOther(c, pid, s.w, s, j, text);
  }

  /** The text of a successful approval is the stored text in every run exactly when no two texts compete:
      no two approvers bring different ones, or, where a record is found under the proposal's id, none
      brings another than the record's. */
  lemma ApprovedTextIsStoredExactly(c: Config, pid: nat, s: State)
    requires Start(c, pid, s)
    ensures (forall events :: StoresApproved(c, pid, s, events)) <==> !TextsCompete(c, pid, s.w, s.tasks)
  {
    if !TextsCompete(c, pid, s.w, s.tasks) {
      forall events
        ensures StoresApproved(c, pid, s, events)
      {
        WithoutRivals(c, pid, s, events);
      }
    } else if IdOf(c, s.w.repo, pid) in s.w.store.rows {
      var id := IdOf(c, s.w.repo, pid);
      var j, text :| ContendsAt(c, s.w.repo.proposals[pid], s.tasks, j, text) && text != s.w.store.rows[id].content;
      StaleTextDiffers(c, pid, s, j, text);
    } else {
      var i, j, a, b :| RivalsAt(c, s.w.repo.proposals[pid], s.tasks, i, j, a, b);
      ApprovedTextDiffers(c, pid, s, i, j, a, b);
    }
  }
}
