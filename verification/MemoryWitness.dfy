/** Two runs in which a purged record comes back: each drops one of the conditions under which purging
    is final. */
module MemoryWitness {
  import opened Memory
  import opened MemoryInvariant
  import opened MemoryRuns
  import opened MemoryResurrection

  // Two calls in a row.
  lemma {:induction false} ExecSnoc(c: Config, w: World, calls: seq<Call>, call: Call)
    requires LegalRun(c, w, calls) && Legal(c, Exec(c, w, calls), call)
    ensures Exec(c, w, calls + [call]) == Step(c, Exec(c, w, calls), call).0 && LegalRun(c, w, calls + [call])
    decreases |calls|
  {
    if calls == [] {
      assert (calls + [call])[1..] == [];
    } else {
      assert (calls + [call])[1..] == calls[1..] + [call];
      ExecSnoc(c, Step(c, w, calls[0]).0, calls[1..], call);
    }
  }

  function Empty(): World {
    World(Repo(map[], {}, map[], map[], [], 0), Store(map[], 0))
  }

  // ---------------------------------------------------------------- two game spaces, one scope

  const FIRST := Space(Game, "service", "first", "game", "world", "campaign", "player")
  const SECOND := FIRST.(name := "second")
  const EVENT := NamedKey("event")
  const EVENT_ID := Stable(Scope("game", TextLabel("world"), TextLabel("campaign"), RawUser("player")), EVENT)
  const EVENT_ROW := Row(RawUser("player"), TextLabel("world"), "text", false)
  const EVENT_REF := Ref(0, "service", EVENT_ID, None, Some(EVENT), Active)

  function Game1(): World {
    World(Repo(map[0 := FIRST], {(0, "service")}, map[], map[], [], 1), Store(map[], 0))
  }

  function Game2(): World {
    World(Game1().repo.(refs := map[1 := EVENT_REF], next := 2), Store(map[EVENT_ID := EVENT_ROW], 0))
  }

  function Game3(): World {
    World(Game1().repo.(refs := map[1 := EVENT_REF.(status := Purged)], next := 2), Store(map[], 0))
  }

  function Game4(): World {
    World(Repo(map[0 := FIRST, 2 := SECOND], {(0, "service"), (2, "service")}, map[],
               map[1 := EVENT_REF.(status := Purged)], [], 3), Store(map[], 0))
  }

  lemma GameStep1(c: Config)
    ensures Step(c, Empty(), CreatingGame("service", true, FIRST)).0 == Game1()
  {
    assert FindGame(Empty().repo.spaces, "service", "first").None?;
  }

  lemma GameStep2(c: Config)
    ensures Step(c, Game1(), GameHappening("service", true, 0, EVENT, "text")).0 == Game2()
  {
    assert FindExternal(Game1().repo.refs, "service", 0, EVENT).None?;
    assert FindRef(Game1().repo.refs, 0, EVENT_ID).None?;
    assert GetSpace(Game1().repo, "service", 0) == Some(FIRST);
  }

  lemma GameStep3(c: Config)
    ensures Step(c, Game2(), Purging("service", 1)).0 == Game3()
  {
    assert GetSpace(Game2().repo, "service", 0) == Some(FIRST);
    assert Has(Game2().store, EVENT_ID.scope, EVENT_ID);
  }

  lemma GameStep4(c: Config)
    ensures Step(c, Game3(), CreatingGame("service", true, SECOND)).0 == Game4()
  {
    assert FindGame(Game3().repo.spaces, "service", "second").None?;
  }

  lemma GameStep5(c: Config)
    ensures Resurrected(Step(c, Game4(), GameHappening("service", true, 2, EVENT, "text")).0, 1)
  {
    assert FindExternal(Game4().repo.refs, "service", 2, EVENT).None?;
    assert FindRef(Game4().repo.refs, 2, EVENT_ID).None?;
    assert GetSpace(Game4().repo, "service", 2) == Some(SECOND);
  }

  function GameRun(): seq<Call> {
    [CreatingGame("service", true, FIRST), GameHappening("service", true, 0, EVENT, "text"), Purging("service", 1),
     CreatingGame("service", true, SECOND), GameHappening("service", true, 2, EVENT, "text")]
  }

  /** Two game spaces with the same scope: the event purged in one is stored again through the other. */
  lemma SharedScopeResurrects(c: Config)
    ensures Fresh(Empty()) && LegalRun(c, Empty(), GameRun())
    ensures Resurrected(Exec(c, Empty(), GameRun()), 1)
    ensures forall call :: call in GameRun() ==> !call.Importing? && (call.GameHappening? ==> !call.key.ProposalKey?)
  {
    GameStep1(c);
    GameStep2(c);
    GameStep3(c);
    GameStep4(c);
    GameStep5(c);
    var calls := GameRun();
    ExecSnoc(c, Empty(), [], calls[0]);
    ExecThen(c, Empty(), [calls[0]], Game1(), calls[1], calls[2]);
    ExecThen(c, Empty(), [calls[0], calls[1], calls[2]], Game3(), calls[3], calls[4]);
    assert [] + [calls[0]] == [calls[0]] && [calls[0]] + [calls[1], calls[2]] == [calls[0], calls[1], calls[2]];
    assert [calls[0], calls[1], calls[2]] + [calls[3], calls[4]] == calls;
  }

  // Two calls after a run that is known.
  lemma ExecThen(c: Config, w: World, calls: seq<Call>, w1: World, a: Call, b: Call)
    requires LegalRun(c, w, calls) && Exec(c, w, calls) == w1
    requires Legal(c, w1, a) && Legal(c, Step(c, w1, a).0, b)
    ensures LegalRun(c, w, calls + [a, b]) && Exec(c, w, calls + [a, b]) == Step(c, Step(c, w1, a).0, b).0
  {
    ExecSnoc(c, w, calls, a);
    ExecSnoc(c, w, calls + [a], b);
    assert calls + [a] + [b] == calls + [a, b];
  }

  // ---------------------------------------------------------------- an external id that is a proposal id

  function Home(c: Config): Space { Space(Personal, "alice", "Personal", c.namespace, "", "", "") }

  function ProposalId(c: Config): RecordId {
    Stable(Scope(c.namespace, SpaceLabel(0), TextLabel(c.context), Pseudonym("alice")), ProposalKey(1))
  }

  function Personal0(c: Config): World {
    World(Repo(map[0 := Home(c)], {(0, "alice")}, map[], map[], [], 1), Store(map[], 0))
  }

  function Personal1(c: Config): World {
    World(Repo(map[0 := Home(c)], {(0, "alice")}, map[1 := Proposal(0, "alice", Some("text"), Pending, 1)],
               map[], [], 2), Store(map[], 0))
  }

  function Personal2(c: Config): World {
    World(Repo(map[0 := Home(c)], {(0, "alice")},
               map[1 := Proposal(0, "alice", Some(c.strip("text")), Approved, 1)],
               map[2 := Ref(0, "alice", ProposalId(c), Some(1), None, Active)], [], 3),
          Store(map[ProposalId(c) := Row(Pseudonym("alice"), SpaceLabel(0), c.strip("text"), false)], 0))
  }

  function Personal3(c: Config): World {
    World(Repo(map[0 := Home(c)], {(0, "alice")},
               map[1 := Proposal(0, "alice", None, Approved, 1)],
               map[2 := Ref(0, "alice", ProposalId(c), Some(1), None, Purged)], [], 3),
          Store(map[], 0))
  }

  lemma PersonalStep1(c: Config)
    ensures Step(c, Empty(), Proposing("alice", ["text"], 1)).0 == Personal1(c)
  {
    assert FindPersonal(Empty().repo.spaces, "alice").None?;
    assert NewSpace(Empty().repo, Home(c)) == Personal0(c).repo by {
      assert map[][0 := Home(c)] == map[0 := Home(c)] && {} + {(0, "alice")} == {(0, "alice")};
    }
    assert EnsurePersonal(c.namespace, Empty().repo, "alice") == (Personal0(c).repo, 0);
    assert PersonalSpace(c, Empty(), "alice") == (Personal0(c), 0);
    assert ["text"][1..] == [];
    assert AddProposals(Personal1(c).repo, 0, "alice", [], 1) == Personal1(c).repo;
    assert AddProposal(Personal0(c).repo, 0, "alice", "text", 1) == Personal1(c).repo;
  }

  predicate Storable(c: Config) {
    c.strip("text") != "" && !c.secret(c.strip("text")) && !c.secret("text")
  }

  lemma PersonalStep2(c: Config)
    requires Storable(c)
    ensures Step(c, Personal1(c), Approving("alice", 1, "", 0)).0 == Personal2(c)
  {
    assert FindRef(Personal1(c).repo.refs, 0, ProposalId(c)).None?;
    assert GetSpace(Personal1(c).repo, "alice", 0) == Some(Home(c));
  }

  lemma PersonalStep3(c: Config)
    ensures Step(c, Personal2(c), Purging("alice", 2)).0 == Personal3(c)
  {
    assert GetSpace(Personal2(c).repo, "alice", 0) == Some(Home(c));
    assert Has(Personal2(c).store, ProposalId(c).scope, ProposalId(c));
  }

  function Personal4(c: Config): World {
    World(Personal3(c).repo, Store(map[ProposalId(c) := Row(Pseudonym("alice"), SpaceLabel(0), "text", false)], 0))
  }

  // The personal space is there and nothing is legacy.
  lemma PersonalIsOpen(c: Config, w: World)
    requires w == Personal3(c) || w == Personal4(c)
    ensures PersonalSpace(c, w, "alice") == (w, 0)
  {
    assert IsPersonal(w.repo.spaces, "alice", 0);
    assert forall j: nat :: IsPersonal(w.repo.spaces, "alice", j) ==> j == 0;
    assert Migrate(w.store, "alice", ScopeFor(c, "alice", 0, Home(c))).rows == w.store.rows;
  }

  lemma PersonalStep4(c: Config)
    requires Storable(c)
    ensures Step(c, Personal3(c), Importing("alice", [("text", Some(ProposalKey(1)))])).0 == Personal4(c)
    ensures Resurrected(Personal4(c), 2)
  {
    var w := Personal3(c);
    PersonalIsOpen(c, w);
    assert FindExternal(w.repo.refs, "alice", 0, ProposalKey(1)).None?;
    assert IsRef(w.repo.refs, 0, ProposalId(c), 2);
    var back := AddApproved(c, w, "alice", 0, "text", Some(ProposalKey(1)));
    assert back == (Personal4(c), None);
    assert [("text", Some(ProposalKey(1)))][1..] == [];
    assert Import(c, back.0, "alice", []).0 == back.0;
  }

  lemma ExecFour(c: Config, w: World, w2: World, c0: Call, c1: Call, c2: Call, c3: Call)
    requires Legal(c, w, c0) && Legal(c, Step(c, w, c0).0, c1) && Step(c, Step(c, w, c0).0, c1).0 == w2
    requires Legal(c, w2, c2) && Legal(c, Step(c, w2, c2).0, c3)
    ensures LegalRun(c, w, [c0, c1, c2, c3]) && Exec(c, w, [c0, c1, c2, c3]) == Step(c, Step(c, w2, c2).0, c3).0
  {
    assert LegalRun(c, w, [c0, c1]) && Exec(c, w, [c0, c1]) == w2 by {
      ExecThen(c, w, [], w, c0, c1);
      assert [] + [c0, c1] == [c0, c1];
    }
    ExecThen(c, w, [c0, c1], w2, c2, c3);
    assert [c0, c1] + [c2, c3] == [c0, c1, c2, c3];
  }

  function ProposalRun(): seq<Call> {
    [Proposing("alice", ["text"], 1), Approving("alice", 1, "", 0), Purging("alice", 2),
     Importing("alice", [("text", Some(ProposalKey(1)))])]
  }

  /** An external id that is a proposal id: importing under it stores the purged record of that proposal
      again. */
  lemma ProposalIdResurrects(c: Config)
    requires Storable(c)
    ensures Fresh(Empty()) && LegalRun(c, Empty(), ProposalRun())
    ensures Exec(c, Empty(), ProposalRun()) == Personal4(c) && Resurrected(Exec(c, Empty(), ProposalRun()), 2)
    ensures forall call :: call in ProposalRun() ==> !call.CreatingGame?
  {
    PersonalStep1(c);
    PersonalStep2(c);
    PersonalStep3(c);
    PersonalStep4(c);
    assert Step(c, Step(c, Empty(), Proposing("alice", ["text"], 1)).0, Approving("alice", 1, "", 0)).0 == Personal2(c);
    ExecFour(c, Empty(), Personal2(c), Proposing("alice", ["text"], 1), Approving("alice", 1, "", 0),
             Purging("alice", 2), Importing("alice", [("text", Some(ProposalKey(1)))]));
  }

  /** After that run records() shows the record that came back, and shows it as purged. */
  lemma ListedAsPurged(c: Config)
    requires Storable(c)
    ensures var w := Exec(c, Empty(), ProposalRun());
      && Legal(c, w, Listing("alice", [ProposalId(c)]))
      && Records(c, w, "alice", [ProposalId(c)]).1.shown == [Shown(ProposalId(c), 0, Some(2), Purged)]
  {
    ProposalIdResurrects(c);
    ShownAsPurged(c);
  }

  lemma ShownAsPurged(c: Config)
    ensures var w := Personal4(c);
      && Legal(c, w, Listing("alice", [ProposalId(c)]))
      && Records(c, w, "alice", [ProposalId(c)]).1.shown == [Shown(ProposalId(c), 0, Some(2), Purged)]
  {
    var w := Personal4(c);
    PersonalIsOpen(c, w);
    assert IsRef(w.repo.refs, 0, ProposalId(c), 2);
    assert AddRef(w.repo, 0, "alice", ProposalId(c), None, None) == (w.repo, 2);
    assert [ProposalId(c)][1..] == [];
    assert ClaimAll(w, "alice", 0, []) == (w, []);
  }
}
