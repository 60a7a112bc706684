/** The in-memory repository and the record store as objects whose methods update their fields. */
module MemoryRepository {
  import opened Memory
  import opened MemoryInvariant

  class InMemoryMemoryRepository {
    var spaces: map<nat, Space>
    var memberships: set<(nat, Principal)>
    var proposals: map<nat, Proposal>
    var references: map<nat, Ref>
    var bridges: seq<Bridge>
    var next: nat

    ghost function Contents(): Repo
      reads this
    {
      Repo(spaces, memberships, proposals, references, bridges, next)
    }

    ghost predicate Valid()
      reads this
    {
      && SpacesOk(Contents()) && UniqueRecords(Contents())
      && (forall i :: i in references ==> i < next)
    }

    constructor ()
      ensures Valid() && Contents() == Repo(map[], {}, map[], map[], [], 0)
    {
      spaces, memberships, proposals, references, bridges, next := map[], {}, map[], map[], [], 0;
    }

    method EnsurePersonalSpace(p: Principal, namespace: string) returns (sid: nat)
      requires Valid()
      modifies this
      ensures Valid()
      ensures (Contents(), sid) == EnsurePersonal(namespace, old(Contents()), p)
    {
      var todo := spaces.Keys;
      while todo != {}
        invariant todo <= spaces.Keys
        invariant forall i: nat :: IsPersonal(spaces, p, i) ==> i in todo
      {
        var i: nat :| i in todo;
        if IsPersonal(spaces, p, i) {
          PersonalFound(Contents(), p);
          return i;
        }
        todo := todo - {i};
      }
      sid := next;
      spaces, memberships, next :=
        spaces[next := Space(Personal, p, "Personal", namespace, "", "", "")], memberships + {(next, p)}, next + 1;
      assert forall q, i: nat :: IsPersonal(spaces, q, i) && i != sid ==> IsPersonal(old(spaces), q, i);
    }

    // The answer is one of the caller's game spaces of that name, or a new one.
    method CreateGameSpace(p: Principal, s: Space) returns (sid: nat)
      requires Valid()
      modifies this
      ensures Valid()
      ensures Contents() == if FindGame(old(spaces), p, s.name).Some? then old(Contents())
                            else NewSpace(old(Contents()), s.(kind := Game, owner := p))
      ensures IsGame(spaces, p, s.name, sid)
    {
      var todo := spaces.Keys;
      while todo != {}
        invariant todo <= spaces.Keys
        invariant forall i: nat :: IsGame(spaces, p, s.name, i) ==> i in todo
      {
        var i: nat :| i in todo;
        if IsGame(spaces, p, s.name, i) { return i; }
        todo := todo - {i};
      }
      sid := next;
      spaces, memberships, next := spaces[next := s.(kind := Game, owner := p)], memberships + {(next, p)}, next + 1;
      assert forall q, i: nat :: IsPersonal(spaces, q, i) ==> IsPersonal(old(spaces), q, i);
    }

    method GetSpace(p: Principal, sid: nat) returns (s: Option<Space>)
      ensures s == Memory.GetSpace(Contents(), p, sid)
    {
      s := if (sid, p) in memberships && sid in spaces then Some(spaces[sid]) else None;
    }

    method AddProposal(sid: nat, p: Principal, content: string, expires: int) returns (pid: nat)
      requires Valid()
      modifies this
      ensures Valid()
      ensures Contents() == Memory.AddProposal(old(Contents()), sid, p, content, expires) && pid == old(next)
    {
      pid := next;
      proposals, next := proposals[next := Proposal(sid, p, Some(content), Pending, expires)], next + 1;
    }

    method TransitionProposal(p: Principal, pid: nat, to: ProposalState, content: Option<string>) returns (done: bool)
      modifies `proposals
      ensures done == Transition(old(Contents()), p, pid, to, content).Some?
      ensures Contents() == if done then Transition(old(Contents()), p, pid, to, content).value else old(Contents())
    {
      if pid !in proposals || proposals[pid].principal != p || !proposals[pid].state.Pending? { return false; }
      var kept := if to == Rejected || to == Expired then None else content;
      proposals := proposals[pid := proposals[pid].(content := kept, state := to)];
      return true;
    }

    /** Each overdue pending proposal is expired, one transition at a time; the answer counts them. */
    method ExpireProposals(now: int) returns (expired: nat)
      modifies `proposals
      ensures Contents() == ExpireAll(old(Contents()), now)
      ensures expired == |set i | i in old(proposals) && Overdue(old(proposals)[i], now)|
    {
      ghost var was := proposals;
      ghost var gone: set<nat> := {};
      expired := 0;
      var todo := proposals.Keys;
      while todo != {}
        invariant todo <= was.Keys && gone <= was.Keys - todo && expired == |gone|
        invariant proposals.Keys == was.Keys && Contents() == old(Contents()).(proposals := proposals)
        invariant forall i :: i in todo ==> proposals[i] == was[i]
        invariant forall i :: i in was && i !in todo ==>
          (i in gone <==> Overdue(was[i], now))
          && proposals[i] == (if Overdue(was[i], now) then was[i].(content := None, state := Expired) else was[i])
      {
        var i: nat :| i in todo;
        var item := proposals[i];
        if item.state == Pending && item.expires <= now {
          var _ := TransitionProposal(item.principal, i, Expired, None);
          expired := expired + 1;
          gone := gone + {i};
        }
        todo := todo - {i};
      }
      assert gone == set i | i in was && Overdue(was[i], now);
      assert proposals == ExpireAll(old(Contents()), now).proposals;
    }

    method AddRecordRef(sid: nat, p: Principal, id: RecordId, pid: Option<nat>, ext: Option<Key>) returns (ref: nat)
      requires Valid()
      modifies this
      ensures Valid()
      ensures (Contents(), ref) == AddRef(old(Contents()), sid, p, id, pid, ext)
    {
      var todo := references.Keys;
      while todo != {}
        invariant todo <= references.Keys
        invariant forall i: nat :: IsRef(references, sid, id, i) ==> i in todo
      {
        var i: nat :| i in todo;
        if IsRef(references, sid, id, i) {
          OnlyRef(Contents(), sid, id, i);
          return i;
        }
        todo := todo - {i};
      }
      AddRefUnique(Contents(), sid, p, id, pid, ext);
      ref := next;
      references, next := references[next := Ref(sid, p, id, pid, ext, Active)], next + 1;
    }

    method GetRecordRef(p: Principal, i: nat) returns (ref: Option<Ref>)
      ensures ref == GetRef(Contents(), p, i)
    {
      ref := if i in references && references[i].principal == p then Some(references[i]) else None;
    }

    method FindExternalRef(p: Principal, sid: nat, k: Key) returns (found: Option<nat>)
      ensures found.Some? ==> IsExternal(references, p, sid, k, found.value)
      ensures found.None? ==> forall i: nat :: !IsExternal(references, p, sid, k, i)
      ensures UniqueExternals(Contents()) ==> found == FindExternal(references, p, sid, k)
    {
      var todo := references.Keys;
      while todo != {}
        invariant todo <= references.Keys
        invariant forall i: nat :: IsExternal(references, p, sid, k, i) ==> i in todo
      {
        var i: nat :| i in todo;
        if IsExternal(references, p, sid, k, i) {
          if UniqueExternals(Contents()) { OnlyExternal(Contents(), p, sid, k, i); }
          return Some(i);
        }
        todo := todo - {i};
      }
      found := None;
    }

    // The references of the space that are not purged, by the record they name.
    method ListRecordRefs(p: Principal, sid: nat) returns (byRecord: map<RecordId, nat>)
      requires Valid()
      ensures forall id :: id in byRecord ==> IsRef(references, sid, id, byRecord[id])
      ensures forall i :: i in references && Listed(references[i], p, sid) ==> references[i].record in byRecord
    {
      byRecord := map[];
      var todo := references.Keys;
      while todo != {}
        invariant todo <= references.Keys
        invariant forall id :: id in byRecord ==> IsRef(references, sid, id, byRecord[id])
        invariant forall i :: i in references && i !in todo && Listed(references[i], p, sid) ==> references[i].record in byRecord
      {
        var i: nat :| i in todo;
        if Listed(references[i], p, sid) {
          byRecord := byRecord[references[i].record := i];
        }
        todo := todo - {i};
      }
    }

    method SetRecordStatus(p: Principal, i: nat, status: Status)
      requires Valid()
      modifies `references
      ensures Valid()
      ensures Contents() == SetStatus(old(Contents()), p, i, status)
      ensures RefsGrow(old(Contents()), Contents()) && references.Keys == old(references.Keys)
      ensures forall j :: j in references && j != i ==> references[j] == old(references[j])
    {
      if i in references && references[i].principal == p {
        references := references[i := references[i].(status := status)];
        StatusUnique(old(Contents()), Contents());
      }
    }

    method PurgeRecordContent(p: Principal, i: nat)
      requires Valid()
      modifies `references, `proposals
      ensures Valid()
      ensures Contents() == PurgeContent(old(Contents()), p, i)
      ensures RefsGrow(old(Contents()), Contents()) && references.Keys == old(references.Keys)
      ensures forall j :: j in references && j != i ==> references[j] == old(references[j])
    {
      if i in references && references[i].principal == p && references[i].proposal != None {
        var pid := references[i].proposal.value;
        if pid in proposals {
          proposals := proposals[pid := proposals[pid].(content := None)];
        }
      }
      SetRecordStatus(p, i, Purged);
    }

    // A dict keeps a key's place when its value is replaced, and a new key goes last.
    method SetBridgeConsent(b: Bridge)
      requires Valid()
      modifies `bridges
      ensures Valid()
      ensures bridges == PutBridge(old(bridges), b)
    {
      bridges := PutBridge(bridges, b);
    }

    method ActiveBridges(p: Principal, target: nat) returns (sources: seq<nat>)
      ensures sources == Memory.ActiveBridges(Contents(), bridges, p, target)
    {
      sources := [];
      for k := 0 to |bridges|
        invariant Memory.ActiveBridges(Contents(), bridges, p, target)
                  == sources + Memory.ActiveBridges(Contents(), bridges[k..], p, target)
      {
        var b := bridges[k];
        assert bridges[k..][1..] == bridges[k + 1..];
        if b.principal == p && b.target == target && b.sourceConsented && b.targetConsented
           && (b.source, p) in memberships && (b.target, p) in memberships {
          sources := sources + [b.source];
        }
      }
    }
  }

  predicate Listed(ref: Ref, p: Principal, sid: nat) {
    ref.principal == p && ref.space == sid && ref.status != Purged
  }

  lemma OnlyRef(r: Repo, sid: nat, id: RecordId, i: nat)
    requires UniqueRecords(r) && IsRef(r.refs, sid, id, i)
    ensures FindRef(r.refs, sid, id) == Some(i)
  {
    var j := FindRef(r.refs, sid, id).value;
    assert IsRef(r.refs, sid, id, j) && SameRecord(r.refs[i], r.refs[j]);
  }

  lemma OnlyExternal(r: Repo, p: Principal, sid: nat, k: Key, i: nat)
    requires UniqueExternals(r) && IsExternal(r.refs, p, sid, k, i)
    ensures FindExternal(r.refs, p, sid, k) == Some(i)
  {
    var j := FindExternal(r.refs, p, sid, k).value;
    assert SameExternal(r.refs[i], r.refs[j]);
  }

  /** The table of stored records. Each method is one SQL statement of the store. */
  class RecordStore {
    var rows: map<RecordId, Row>
    var next: nat

    ghost function Contents(): Store
      reads this
    {
      Store(rows, next)
    }

    constructor ()
      ensures Contents() == Store(map[], 0)
    {
      rows, next := map[], 0;
    }

    /** Inserts a record, or answers the one already stored under the id; None when the id belongs to
        another partition. A stored record is never overwritten. */
    method Add(sc: Scope, content: string, key: Option<Key>) returns (id: Option<RecordId>)
      modifies this
      ensures match AddRow(old(Contents()), sc, content, key)
        case None => id.None? && Contents() == old(Contents())
        case Some((st, new_)) => id == Some(new_) && Contents() == st
    {
      var row := Row(sc.subject, sc.workspace, content, false);
      if key.None? {
        id := Some(Random(next));
        rows, next := rows[Random(next) := row], next + 1;
      } else {
        var stable := Stable(sc, key.value);
        if stable !in rows {
          rows := rows[stable := row];
          id := Some(stable);
        } else {
          id := if InPartition(rows[stable], sc) then Some(stable) else None;
        }
      }
    }

    // Every row of the partition once, forgotten ones included.
    method ListRecords(sc: Scope) returns (order: seq<RecordId>)
      ensures Lists(Contents(), sc, order)
    {
      order := [];
      var todo := rows.Keys;
      while todo != {}
        invariant todo <= rows.Keys
        invariant forall id :: id in order ==> Has(Contents(), sc, id) && id !in todo
        invariant forall id :: Has(Contents(), sc, id) && id !in todo ==> id in order
        invariant forall i, j :: 0 <= i < j < |order| ==> order[i] != order[j]
      {
        var id :| id in todo;
        if InPartition(rows[id], sc) { order := order + [id]; }
        todo := todo - {id};
      }
    }

    method Correct(sc: Scope, id: RecordId, content: string) returns (done: bool)
      modifies `rows
      ensures done == Has(old(Contents()), sc, id)
      ensures Contents() == if done then CorrectRow(old(Contents()), id, content) else old(Contents())
      ensures done ==> Has(Contents(), sc, id) && rows[id].content == content && !rows[id].forgotten
      ensures rows - {id} == old(rows) - {id}
    {
      done := id in rows && InPartition(rows[id], sc);
      if done { rows := rows[id := rows[id].(content := content, forgotten := false)]; }
    }

    method Forget(sc: Scope, id: RecordId) returns (done: bool)
      modifies `rows
      ensures done == Has(old(Contents()), sc, id)
      ensures Contents() == if done then ForgetRow(old(Contents()), id) else old(Contents())
      ensures done ==> Has(Contents(), sc, id) && rows[id].content == old(rows[id].content) && rows[id].forgotten
      ensures rows - {id} == old(rows) - {id}
    {
      done := id in rows && InPartition(rows[id], sc);
      if done { rows := rows[id := rows[id].(forgotten := true)]; }
    }

    method Purge(sc: Scope, id: RecordId) returns (done: bool)
      modifies `rows
      ensures done == Has(old(Contents()), sc, id)
      ensures Contents() == if done then PurgeRow(old(Contents()), id) else old(Contents())
      ensures !Has(Contents(), sc, id) && (done <==> rows.Keys != old(rows.Keys))
      ensures rows - {id} == old(rows) - {id}
    {
      done := id in rows && InPartition(rows[id], sc);
      if done { rows := rows - {id}; }
    }

    method MigrateLegacy(p: Principal, sc: Scope)
      modifies `rows
      ensures Contents() == Migrate(old(Contents()), p, sc)
      ensures rows.Keys == old(rows.Keys)
      ensures forall id :: id in rows ==>
        && rows[id].content == old(rows[id].content) && rows[id].forgotten == old(rows[id].forgotten)
        && !IsLegacy(rows[id], p, sc)
        && (Has(Contents(), sc, id) <==> Has(old(Contents()), sc, id) || IsLegacy(old(rows[id]), p, sc))
        && (!IsLegacy(old(rows[id]), p, sc) ==> rows[id] == old(rows[id]))
    {
      rows := map id | id in rows ::
        if IsLegacy(rows[id], p, sc) then rows[id].(user := sc.subject, namespace := sc.workspace) else rows[id];
    }
  }
}
