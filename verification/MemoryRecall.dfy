/** What a context is made of: the search of every space that should be asked. */
module MemoryRecall {
  import opened Memory
  import opened MemoryInvariant
  import opened MemoryIsolation
  import opened MemoryRuns

  // From position `a` on the entries show, in order, what the provider finds in space `s` within the
  // limit that is left.
  ghost predicate AskedAt(c: Config, w: World, p: Principal, s: nat, query: string, limit: int, shown: seq<Shown>, a: nat) {
    s in w.repo.spaces &&
    var ids := c.search(w.store.rows, ScopeFor(c, p, s, w.repo.spaces[s]), query, limit - a);
    && a + |ids| <= |shown|
    && forall n :: 0 <= n < |ids| ==> shown[a + n] == Shown(ids[n], s, None, Active)
  }

  ghost predicate Asked(c: Config, w: World, p: Principal, s: nat, query: string, limit: int, shown: seq<Shown>) {
    exists a: nat :: AskedAt(c, w, p, s, query, limit, shown, a)
  }

  // More entries behind them leave the entries in place.
  lemma AskedStays(c: Config, w: World, p: Principal, s: nat, query: string, limit: int, shown: seq<Shown>, more: seq<Shown>, a: nat)
    requires AskedAt(c, w, p, s, query, limit, shown, a) && shown <= more
    ensures AskedAt(c, w, p, s, query, limit, more, a)
  {
  }

  lemma {:induction false} ExtendGrows(c: Config, w: World, p: Principal, sources: seq<nat>, query: string, limit: int, found: seq<Shown>)
    ensures found <= Extend(c, w, p, sources, query, limit, found)
    decreases |sources|
  {
    if sources != [] && sources[0] in w.repo.spaces {
      var more := found + Search(c, w, p, sources[0], query, limit - |found|);
      ExtendGrows(c, w, p, sources[1..], query, limit, more);
    }
  }

  lemma {:induction false} ExtendAsks(c: Config, w: World, p: Principal, sources: seq<nat>, query: string, limit: int, found: seq<Shown>)
    requires forall s :: s in sources ==> s in w.repo.spaces
    requires |Extend(c, w, p, sources, query, limit, found)| < limit
    ensures forall s :: s in sources ==> Asked(c, w, p, s, query, limit, Extend(c, w, p, sources, query, limit, found))
    decreases |sources|
  {
    if sources != [] {
      var all := Extend(c, w, p, sources, query, limit, found);
      var more := found + Search(c, w, p, sources[0], query, limit - |found|);
      assert sources[0] in sources && AskedAt(c, w, p, sources[0], query, limit, more, |found|);
      ExtendGrows(c, w, p, sources[1..], query, limit, more);
      if limit - |more| > 0 {
        ExtendAsks(c, w, p, sources[1..], query, limit, more);
      }
      AskedStays(c, w, p, sources[0], query, limit, more, all, |found|);
      assert forall s :: s in sources ==> s == sources[0] || s in sources[1..];
    }
  }

  /** A context is complete: it starts with what the search of the personal space finds, and unless it is
      full, it shows what the search of every space with an open bridge finds, each within what the limit
      still allowed. */
  lemma ContextAsksAll(c: Config, w: World, p: Principal, query: string, limit: int)
    requires Base(c, w)
    ensures var (w', reply) := Context(c, w, p, true, query, limit);
      var target := PersonalSpace(c, w, p).1;
      && reply.error.None?
      && AskedAt(c, w', p, target, query, limit, reply.shown, 0)
      && (|reply.shown| < limit ==>
            forall s :: Open(w'.repo, p, s, target) ==> Asked(c, w', p, s, query, limit, reply.shown))
  {
    var (w1, target) := PersonalSpace(c, w, p);
    PersonalSpaceKeeps(c, w, p);
    var own := Search(c, w1, p, target, query, limit);
    if c.bridgesEnabled && limit - |own| > 0 {
      var sources := ActiveBridges(w1.repo, w1.repo.bridges, p, target);
      var all := Extend(c, w1, p, sources, query, limit, own);
      ActiveBridgesOpen(w1.repo, w1.repo.bridges, p, target);
      ExtendGrows(c, w1, p, sources, query, limit, own);
      assert forall s :: s in sources ==> Open(w1.repo, p, s, target);
      assert forall s :: Open(w1.repo, p, s, target) ==> s in w1.repo.spaces by { OpenExists(c, w1.repo, p, target); }
      if |all| < limit {
        ExtendAsks(c, w1, p, sources, query, limit, own);
        OpenIsSource(w1.repo, p, target);
      }
    } else {
      OpenNeedsBridges(c, w1.repo, p, target);
    }
  }

  lemma OpenExists(c: Config, r: Repo, p: Principal, target: nat)
    requires BridgesOk(c, r)
    ensures forall s :: Open(r, p, s, target) ==> s in r.spaces
  {
    forall s | Open(r, p, s, target)
      ensures s in r.spaces
    {
      OpenIsAllowed(c, r, p, s, target);
    }
  }

  lemma OpenNeedsBridges(c: Config, r: Repo, p: Principal, target: nat)
    requires BridgesOk(c, r)
    ensures forall s :: Open(r, p, s, target) ==> c.bridgesEnabled
  {
    forall s | Open(r, p, s, target)
      ensures c.bridgesEnabled
    {
      OpenIsAllowed(c, r, p, s, target);
    }
  }

  lemma OpenIsSource(r: Repo, p: Principal, target: nat)
    ensures forall s :: Open(r, p, s, target) ==> s in ActiveBridges(r, r.bridges, p, target)
  {
    ActiveBridgesOpen(r, r.bridges, p, target);
    forall s | Open(r, p, s, target)
      ensures s in ActiveBridges(r, r.bridges, p, target)
    {
      var b :| Opening(r, b, p, s, target);
      assert b in r.bridges && Opening(r, b, p, b.source, target);
    }
  }

  /** Retrieval that is switched off shows nothing and opens nothing. */
  lemma SwitchedOffShowsNothing(c: Config, w: World, p: Principal, query: string, limit: int)
    ensures Context(c, w, p, false, query, limit) == (w, Reply(None, [], []))
  {
  }

  /** The search of a game space is answered to its service exactly, and then shows just what the provider
      finds there. */
  lemma GameRecallExactly(c: Config, w: World, p: Principal, service: bool, sid: nat, query: string, limit: int)
    ensures var (w', reply) := Step(c, w, GameRecalling(p, service, sid, query, limit));
      && w' == w
      && (reply.error.None? <==> service && (sid, p) in w.repo.members && sid in w.repo.spaces && w.repo.spaces[sid].kind.Game?)
      && (reply.error.None? ==>
            && AskedAt(c, w, p, sid, query, limit, reply.shown, 0)
            && |reply.shown| == |c.search(w.store.rows, ScopeFor(c, p, sid, w.repo.spaces[sid]), query, limit)|)
      && (reply.error.Some? ==> reply == Reply(Some(AccessDenied), [], []))
  {
  }

  /** An export shows every record of the personal space once. */
  lemma ExportShowsAll(c: Config, w: World, p: Principal, order: seq<RecordId>)
    requires Base(c, w) && Legal(c, w, Exporting(p, order))
    ensures var (w', reply) := Step(c, w, Exporting(p, order));
      var sid := PersonalSpace(c, w, p).1;
      && reply.error.None? && sid in w'.repo.spaces && |reply.shown| == |order|
      && (forall n :: 0 <= n < |order| ==> reply.shown[n].record == order[n] && reply.shown[n].space == sid)
      && (forall id :: id in order <==> Has(w'.store, ScopeFor(c, p, sid, w'.repo.spaces[sid]), id))
      && (forall i, j :: 0 <= i < j < |order| ==> order[i] != order[j])
  {
  }
}
