/** Resolving an experience to a registered model. */
module Profiles {
  import opened Text

  // The capabilities are the names that are neither missing nor switched off.
  datatype Model = Model(enabled: bool, backend: string, priority: int, capabilities: set<string>)

  datatype Backend = Backend(enabled: bool)

  // Absent model and capability are "".
  datatype Profile = Profile(auto: bool, model: string, capability: string)

  // Models and profiles in the order of the document.
  datatype Document = Document(backends: map<string, Backend>, models: seq<(string, Model)>, profiles: seq<(string, Profile)>)

  ghost predicate Valid(d: Document) {
    && (forall i, j :: 0 <= i < j < |d.models| ==> d.models[i].0 != d.models[j].0)
    && (forall i, j :: 0 <= i < j < |d.profiles| ==> d.profiles[i].0 != d.profiles[j].0)
  }

  function Lookup<V>(entries: seq<(string, V)>, id: string): Option<V> {
    if entries == [] then None
    else if entries[0].0 == id then Some(entries[0].1)
    else Lookup(entries[1..], id)
  }

  lemma {:induction false} LookupFinds<V>(entries: seq<(string, V)>, id: string)
    requires forall i, j :: 0 <= i < j < |entries| ==> entries[i].0 != entries[j].0
    ensures forall v :: (id, v) in entries <==> Lookup(entries, id) == Some(v)
    decreases |entries|
  {
    if entries != [] {
      LookupFinds(entries[1..], id);
      forall v
        ensures (id, v) in entries <==> Lookup(entries, id) == Some(v)
      {
        assert (id, v) in entries <==> (id, v) == entries[0] || (id, v) in entries[1..];
        assert forall j :: 0 < j < |entries| ==> entries[j].0 != entries[0].0;
      }
    }
  }

  // ---------------------------------------------------------------- candidates

  predicate Backed(d: Document, m: Model) {
    m.enabled && m.backend in d.backends && d.backends[m.backend].enabled
  }

  predicate Capable(m: Model, capability: string) {
    capability == "" || capability in m.capabilities
  }

  // The key (-priority, id) of a is not above that of b.
  predicate Before(a: (string, Model), b: (string, Model)) {
    a.1.priority > b.1.priority || (a.1.priority == b.1.priority && Leq(a.0, b.0))
  }

  function Insert(e: (string, Model), sorted: seq<(string, Model)>): seq<(string, Model)> {
    if sorted == [] || Before(e, sorted[0]) then [e] + sorted else [sorted[0]] + Insert(e, sorted[1..])
  }

  // sorted(candidates, key=...)
  function Candidates(d: Document, models: seq<(string, Model)>, capability: string): seq<(string, Model)> {
    if models == [] then []
    else
      var rest := Candidates(d, models[1..], capability);
      if Backed(d, models[0].1) && Capable(models[0].1, capability) then Insert(models[0], rest) else rest
  }

  lemma BeforeTotal(a: (string, Model), b: (string, Model))
    ensures Before(a, b) || Before(b, a)
    ensures Before(a, b) && Before(b, a) ==> a.0 == b.0
  {
    LeqTotal(a.0, b.0);
  }

  lemma BeforeTransitive(a: (string, Model), b: (string, Model), c: (string, Model))
    requires Before(a, b) && Before(b, c)
    ensures Before(a, c)
  {
    if a.1.priority == b.1.priority == c.1.priority { LeqTransitive(a.0, b.0, c.0); }
  }

  predicate Sorted(s: seq<(string, Model)>) {
    forall i :: 0 < i < |s| ==> Before(s[0], s[i])
  }

  predicate AllSorted(s: seq<(string, Model)>)
    decreases |s|
  {
    s == [] || (Sorted(s) && AllSorted(s[1..]))
  }

  lemma {:induction false} InsertSorts(e: (string, Model), s: seq<(string, Model)>)
    requires AllSorted(s)
    ensures AllSorted(Insert(e, s)) && multiset(Insert(e, s)) == multiset{e} + multiset(s)
    decreases |s|
  {
    if s == [] {
      assert Insert(e, s)[1..] == [];
    } else if Before(e, s[0]) {
      var r := Insert(e, s);
      assert r[1..] == s;
      forall i | 0 < i < |r| ensures Before(r[0], r[i]) { if i > 1 { BeforeTransitive(e, s[0], s[i - 1]); } }
    } else {
      InsertSorts(e, s[1..]);
      var rest := Insert(e, s[1..]);
      var r := Insert(e, s);
      BeforeTotal(e, s[0]);
      assert r[1..] == rest;
      assert s == [s[0]] + s[1..];
      forall i | 0 < i < |r|
        ensures Before(r[0], r[i])
      {
        assert r[i] in multiset(rest);
        assert r[i] == e || r[i] in s[1..];
      }
    }
  }

  lemma {:induction false} CandidatesAre(d: Document, models: seq<(string, Model)>, capability: string)
    ensures AllSorted(Candidates(d, models, capability))
    ensures forall e :: e in Candidates(d, models, capability) <==> e in models && Backed(d, e.1) && Capable(e.1, capability)
    decreases |models|
  {
    if models != [] {
      CandidatesAre(d, models[1..], capability);
      var rest := Candidates(d, models[1..], capability);
      InsertSorts(models[0], rest);
      assert models == [models[0]] + models[1..];
      forall e
        ensures e in Insert(models[0], rest) <==> e == models[0] || e in rest
      {
        assert e in Insert(models[0], rest) <==> e in multiset(Insert(models[0], rest));
        assert e in rest <==> e in multiset(rest);
      }
    }
  }

  // ---------------------------------------------------------------- availability and resolution

  function ExperienceAvailable(d: Document, p: Profile): bool {
    if p.auto then Candidates(d, d.models, "") != []
    else if p.model != "" then
      var m := Lookup(d.models, p.model);
      m.Some? && Backed(d, m.value) && Capable(m.value, p.capability)
    else Candidates(d, d.models, p.capability) != []
  }

  datatype Result = Resolved(profile: string, model: string) | Unknown | Unavailable

  // _select_model
  function SelectModel(d: Document, p: Profile): Option<string> {
    if p.model != "" then
      var m := Lookup(d.models, p.model);
      if m.None? || !m.value.enabled || !Capable(m.value, p.capability) then None else Some(p.model)
    else
      var found := Candidates(d, d.models, p.capability);
      if found == [] then None else Some(found[0].0)
  }

  const PREFERRED: seq<string> := ["chat", "code", "story", "agent"]

  function FirstPreferred(d: Document, ids: seq<string>): Option<string> {
    if ids == [] then None
    else
      var p := Lookup(d.profiles, ids[0]);
      if p.Some? && ExperienceAvailable(d, p.value) then Some(ids[0]) else FirstPreferred(d, ids[1..])
  }

  function FirstAvailable(d: Document, profiles: seq<(string, Profile)>): Option<string> {
    if profiles == [] then None
    else if !profiles[0].1.auto && ExperienceAvailable(d, profiles[0].1) then Some(profiles[0].0)
    else FirstAvailable(d, profiles[1..])
  }

  // _resolve_auto, where `decision` is the profile the router decided on.
  function ResolveAuto(d: Document, decision: string): Option<string> {
    if Lookup(d.profiles, decision).Some? then Some(decision)
    else
      var preferred := FirstPreferred(d, PREFERRED);
      if preferred.Some? then preferred else FirstAvailable(d, d.profiles)
  }

  function Finish(d: Document, id: string, p: Profile, required: string): Result {
    match SelectModel(d, p)
    case None => Unavailable
    case Some(modelId) =>
      var m := Lookup(d.models, modelId);
      if m.None? || m.value.backend !in d.backends || !d.backends[m.value.backend].enabled || !Capable(m.value, required)
      then Unavailable else Resolved(id, modelId)
  }

  function Through(d: Document, id: string, p: Profile, decision: string, required: string): Result {
    if !p.auto then Finish(d, id, p, required)
    else
      match ResolveAuto(d, decision)
      case None => Unavailable
      case Some(chosen) =>
        var q := Lookup(d.profiles, chosen);
        if q.None? then Unavailable else Finish(d, chosen, q.value, required)
  }

  // An absent override or required capability is "".
  function Resolve(d: Document, requested: string, decision: string, override: string, required: string): Result {
    if override != "" then
      var p := Lookup(d.profiles, override);
      if p.None? then Unknown else Through(d, override, p.value, decision, required)
    else if Lookup(d.profiles, requested).Some? then
      Through(d, requested, Lookup(d.profiles, requested).value, decision, required)
    else if Lookup(d.models, requested).Some? then
      Finish(d, requested, Profile(false, requested, required), required)
    else Unknown
  }

  // ---------------------------------------------------------------- results

  /** Availability is exact: an experience that is not automatic is available if and only if resolving it
      succeeds. */
  lemma AvailableExactlyWhenResolved(d: Document, id: string, decision: string)
    requires Valid(d) && Lookup(d.profiles, id).Some? && !Lookup(d.profiles, id).value.auto
    ensures ExperienceAvailable(d, Lookup(d.profiles, id).value) <==> Resolve(d, id, decision, "", "").Resolved?
  {
    var p := Lookup(d.profiles, id).value;
    if SelectModel(d, p).Some? { SelectionIsSound(d, p); }
  }

  // A selected model exists, and is backed if it was not pinned.
  lemma SelectionIsSound(d: Document, p: Profile)
    requires Valid(d) && SelectModel(d, p).Some?
    ensures var m := Lookup(d.models, SelectModel(d, p).value);
      m.Some? && m.value.enabled && Capable(m.value, p.capability) && (p.model == "" ==> Backed(d, m.value))
  {
    if p.model == "" {
      CandidatesAre(d, d.models, p.capability);
      var first := Candidates(d, d.models, p.capability)[0];
      assert first in d.models;
      LookupFinds(d.models, first.0);
      assert (first.0, first.1) in d.models;
    }
  }

  // The first of all models that qualify, by falling priority and then by id.
  ghost predicate IsBest(d: Document, capability: string, id: string) {
    exists m :: (id, m) in d.models && Backed(d, m) && Capable(m, capability)
      && forall e :: e in d.models && Backed(d, e.1) && Capable(e.1, capability) ==> Before((id, m), e)
  }

  /** An experience without a pinned model resolves to the first qualifying model by falling priority and
      id, and to nothing exactly when no model qualifies. */
  lemma UnpinnedIsBest(d: Document, p: Profile)
    requires p.model == ""
    ensures SelectModel(d, p).Some? ==> IsBest(d, p.capability, SelectModel(d, p).value)
    ensures SelectModel(d, p).None? <==> forall e :: e in d.models ==> !(Backed(d, e.1) && Capable(e.1, p.capability))
  {
    CandidatesAre(d, d.models, p.capability);
    var found := Candidates(d, d.models, p.capability);
    if found != [] {
      var first := found[0];
      assert first in found;
      forall e | e in d.models && Backed(d, e.1) && Capable(e.1, p.capability)
        ensures Before(first, e)
      {
        assert e in found;
        BeforeTotal(first, first);
      }
      assert (first.0, first.1) in d.models;
    }
  }

  /** The best model has the highest priority of those that qualify, and the least id among those of its
      priority. */
  lemma BestIsFirst(d: Document, capability: string, id: string, other: (string, Model))
    requires IsBest(d, capability, id) && other in d.models
    requires other.1.enabled && other.1.backend in d.backends && d.backends[other.1.backend].enabled
    requires capability == "" || capability in other.1.capabilities
    ensures exists m ::
      (id, m) in d.models && (m.priority > other.1.priority || (m.priority == other.1.priority && Leq(id, other.0)))
  {
    var m :| (id, m) in d.models && Backed(d, m) && Capable(m, capability)
      && forall e :: e in d.models && Backed(d, e.1) && Capable(e.1, capability) ==> Before((id, m), e);
    assert Backed(d, other.1) && Capable(other.1, capability);
  }

  lemma BestIsUnique(d: Document, capability: string, a: string, b: string)
    requires IsBest(d, capability, a) && IsBest(d, capability, b)
    ensures a == b
  {
    var m :| (a, m) in d.models && Backed(d, m) && Capable(m, capability)
      && forall e :: e in d.models && Backed(d, e.1) && Capable(e.1, capability) ==> Before((a, m), e);
    var n :| (b, n) in d.models && Backed(d, n) && Capable(n, capability)
      && forall e :: e in d.models && Backed(d, e.1) && Capable(e.1, capability) ==> Before((b, n), e);
    BeforeTotal((a, m), (b, n));
  }

  /** The choice does not depend on the order of the catalog. */
  lemma OrderIrrelevant(d: Document, e: Document, p: Profile)
    requires p.model == "" && d.backends == e.backends && forall entry :: entry in d.models <==> entry in e.models
    ensures SelectModel(d, p) == SelectModel(e, p)
  {
    UnpinnedIsBest(d, p);
    UnpinnedIsBest(e, p);
    if SelectModel(d, p).Some? && SelectModel(e, p).Some? {
      var id := SelectModel(e, p).value;
      var m :| (id, m) in e.models && Backed(e, m) && Capable(m, p.capability)
        && forall o :: o in e.models && Backed(e, o.1) && Capable(o.1, p.capability) ==> Before((id, m), o);
      assert (id, m) in d.models && Backed(d, m);
      assert IsBest(d, p.capability, id);
      BestIsUnique(d, p.capability, SelectModel(d, p).value, id);
    }
  }

  // ---------------------------------------------------------------- the automatic experience

  /** An automatic resolution that succeeds was available. */
  lemma AutoResolvedIsAvailable(d: Document, id: string, decision: string)
    requires Valid(d) && Lookup(d.profiles, id).Some? && Lookup(d.profiles, id).value.auto
    requires Resolve(d, id, decision, "", "").Resolved?
    ensures ExperienceAvailable(d, Lookup(d.profiles, id).value)
  {
    var chosen := ResolveAuto(d, decision).value;
    var q := Lookup(d.profiles, chosen).value;
    SelectionIsSound(d, q);
    var modelId := SelectModel(d, q).value;
    var m := Lookup(d.models, modelId).value;
    LookupFinds(d.models, modelId);
    assert (modelId, m) in d.models && Backed(d, m);
    CandidatesAre(d, d.models, "");
    assert (modelId, m) in Candidates(d, d.models, "");
  }

  lemma {:induction false} FirstAvailableWorks(d: Document, profiles: seq<(string, Profile)>)
    requires FirstAvailable(d, profiles).Some?
    ensures exists p :: (FirstAvailable(d, profiles).value, p) in profiles && !p.auto && ExperienceAvailable(d, p)
    decreases |profiles|
  {
    if !(!profiles[0].1.auto && ExperienceAvailable(d, profiles[0].1)) {
      FirstAvailableWorks(d, profiles[1..]);
      var p :| (FirstAvailable(d, profiles).value, p) in profiles[1..] && !p.auto && ExperienceAvailable(d, p);
      assert (FirstAvailable(d, profiles).value, p) in profiles;
    } else {
      assert (profiles[0].0, profiles[0].1) in profiles;
    }
  }

  lemma {:induction false} FirstPreferredWorks(d: Document, ids: seq<string>)
    requires FirstPreferred(d, ids).Some?
    ensures var p := Lookup(d.profiles, FirstPreferred(d, ids).value); p.Some? && ExperienceAvailable(d, p.value)
    decreases |ids|
  {
    var p := Lookup(d.profiles, ids[0]);
    if !(p.Some? && ExperienceAvailable(d, p.value)) { FirstPreferredWorks(d, ids[1..]); }
  }

  // The experience can select a model that is backed, taken as one that is not automatic.
  predicate Selectable(d: Document, p: Profile) {
    ExperienceAvailable(d, p.(auto := false))
  }

  // The experience an automatic route ends at can be served.
  predicate RouteServed(d: Document, decision: string) {
    var chosen := ResolveAuto(d, decision);
    chosen.Some? && Lookup(d.profiles, chosen.value).Some? && Selectable(d, Lookup(d.profiles, chosen.value).value)
  }

  /** An automatic experience resolves if and only if its route ends at an experience whose own model, or a
      capable one, is there. */
  lemma AutoResolvesExactly(d: Document, id: string, decision: string)
    requires Valid(d) && Lookup(d.profiles, id).Some? && Lookup(d.profiles, id).value.auto
    ensures Resolve(d, id, decision, "", "").Resolved? <==> RouteServed(d, decision)
  {
    var chosen := ResolveAuto(d, decision);
    if chosen.Some? && Lookup(d.profiles, chosen.value).Some? {
      var q := Lookup(d.profiles, chosen.value).value;
      if SelectModel(d, q).Some? { SelectionIsSound(d, q); }
    }
  }

  lemma {:induction false} FirstPreferredNone(d: Document, ids: seq<string>)
    ensures FirstPreferred(d, ids).None? <==>
            forall i :: 0 <= i < |ids| ==> !AvailableUnder(d, ids[i])
    decreases |ids|
  {
    if ids != [] {
      FirstPreferredNone(d, ids[1..]);
      assert forall i :: 0 < i < |ids| ==> ids[i] == ids[1..][i - 1];
      assert forall i :: 0 <= i < |ids[1..]| ==> ids[1..][i] == ids[i + 1];
    }
  }

  predicate AvailableUnder(d: Document, id: string) {
    Lookup(d.profiles, id).Some? && ExperienceAvailable(d, Lookup(d.profiles, id).value)
  }

  lemma {:induction false} FirstAvailableNone(d: Document, profiles: seq<(string, Profile)>)
    ensures FirstAvailable(d, profiles).None? <==>
            forall i :: 0 <= i < |profiles| ==> profiles[i].1.auto || !ExperienceAvailable(d, profiles[i].1)
    decreases |profiles|
  {
    if profiles != [] {
      FirstAvailableNone(d, profiles[1..]);
      assert forall i :: 0 < i < |profiles| ==> profiles[i] == profiles[1..][i - 1];
      assert forall i :: 0 <= i < |profiles[1..]| ==> profiles[1..][i] == profiles[i + 1];
    }
  }

  /** The route ends nowhere exactly when the router's decision is no experience of the document, no
      preferred experience is available, and no experience that is not automatic is. */
  lemma RouteEndsNowhereExactly(d: Document, decision: string)
    ensures ResolveAuto(d, decision).None? <==>
            && Lookup(d.profiles, decision).None?
            && (forall i :: 0 <= i < |PREFERRED| ==> !AvailableUnder(d, PREFERRED[i]))
            && (forall i :: 0 <= i < |d.profiles| ==> d.profiles[i].1.auto || !ExperienceAvailable(d, d.profiles[i].1))
  {
    FirstPreferredNone(d, PREFERRED);
    FirstAvailableNone(d, d.profiles);
  }

  /** When the router's decision is no experience of the document, the fallback resolves exactly when there
      is one and, if it is itself automatic, it can be served. */
  lemma FallbackResolves(d: Document, id: string, decision: string)
    requires Valid(d) && Lookup(d.profiles, id).Some? && Lookup(d.profiles, id).value.auto
    requires Lookup(d.profiles, decision).None?
    ensures Resolve(d, id, decision, "", "").Resolved? <==>
            && ResolveAuto(d, decision).Some?
            && var q := Lookup(d.profiles, ResolveAuto(d, decision).value);
               q.Some? && (q.value.auto ==> Selectable(d, q.value))
  {
    AutoResolvesExactly(d, id, decision);
    if ResolveAuto(d, decision).Some? {
      var chosen := ResolveAuto(d, decision).value;
      if FirstPreferred(d, PREFERRED).Some? {
        FirstPreferredWorks(d, PREFERRED);
      } else {
        FirstAvailableWorks(d, d.profiles);
        var p :| (chosen, p) in d.profiles && !p.auto && ExperienceAvailable(d, p);
        LookupFinds(d.profiles, chosen);
      }
    }
  }

  /** Advertising an automatic experience as available is exact if and only if, whenever some model is
      enabled and backed, its route can be served. */
  lemma AutoAvailabilityExact(d: Document, id: string, decision: string)
    requires Valid(d) && Lookup(d.profiles, id).Some? && Lookup(d.profiles, id).value.auto
    ensures (ExperienceAvailable(d, Lookup(d.profiles, id).value) <==> Resolve(d, id, decision, "", "").Resolved?)
            <==> ((exists e :: e in d.models && Backed(d, e.1)) ==> RouteServed(d, decision))
  {
    AutoResolvesExactly(d, id, decision);
    if Resolve(d, id, decision, "", "").Resolved? { AutoResolvedIsAvailable(d, id, decision); }
    CandidatesAre(d, d.models, "");
    var found := Candidates(d, d.models, "");
    if found != [] { assert found[0] in found; }
    assert forall e :: e in d.models && Backed(d, e.1) ==> e in found;
  }

  /** The converse fails: the automatic experience counts as available when any model is, but the router's
      decision may need a capability none has. */
  lemma AutoAvailableMayFail()
    ensures var model := Model(true, "local", 0, {"image"});
      var d := Document(map["local" := Backend(true)], [("m", model)], [("auto", Profile(true, "", "")), ("chat", Profile(false, "", "chat"))]);
      && Valid(d)
      && ExperienceAvailable(d, Profile(true, "", ""))
      && Resolve(d, "auto", "chat", "", "") == Unavailable
  {
    var model := Model(true, "local", 0, {"image"});
    var d := Document(map["local" := Backend(true)], [("m", model)], [("auto", Profile(true, "", "")), ("chat", Profile(false, "", "chat"))]);
    assert d.models[1..] == [] && d.profiles[1..] == [("chat", Profile(false, "", "chat"))];
    assert Candidates(d, [], "") == [] && Candidates(d, [], "chat") == [];
    assert Candidates(d, d.models, "") == Insert(("m", model), []);
    assert Candidates(d, d.models, "chat") == [];
    assert Lookup(d.profiles, "auto") == Some(Profile(true, "", ""));
    assert Lookup(d.profiles[1..], "chat") == Some(Profile(false, "", "chat"));
    assert Lookup(d.profiles, "chat") == Some(Profile(false, "", "chat"));
  }

  // ---------------------------------------------------------------- resolution in general

  // The model an experience selects: its own, if enabled and capable, or the best one.
  ghost predicate Picks(d: Document, p: Profile, id: string) {
    if p.model == "" then IsBest(d, p.capability, id)
    else id == p.model && exists m :: (id, m) in d.models && m.enabled && Capable(m, p.capability)
  }

  // The selected model can serve what is required: its backend is there and enabled, and it is capable.
  ghost predicate Serves(d: Document, p: Profile, required: string, id: string) {
    Picks(d, p, id) && exists m :: (id, m) in d.models && Backed(d, m) && Capable(m, required)
  }

  lemma PicksExactly(d: Document, p: Profile, id: string)
    requires Valid(d)
    ensures SelectModel(d, p) == Some(id) <==> Picks(d, p, id)
  {
    LookupFinds(d.models, id);
    if p.model == "" {
      UnpinnedIsBest(d, p);
      if IsBest(d, p.capability, id) {
        var m :| (id, m) in d.models && Backed(d, m) && Capable(m, p.capability)
          && forall e :: e in d.models && Backed(d, e.1) && Capable(e.1, p.capability) ==> Before((id, m), e);
        assert (id, m).1 == m;
        BestIsUnique(d, p.capability, SelectModel(d, p).value, id);
      }
    } else {
      LookupFinds(d.models, p.model);
    }
  }

  lemma FinishExactly(d: Document, x: string, p: Profile, required: string, profile: string, id: string)
    requires Valid(d)
    ensures Finish(d, x, p, required) == Resolved(profile, id) <==> profile == x && Serves(d, p, required, id)
    ensures !Finish(d, x, p, required).Unknown?
  {
    PicksExactly(d, p, id);
    LookupFinds(d.models, id);
    if SelectModel(d, p) == Some(id) {
      SelectionIsSound(d, p);
      var m := Lookup(d.models, id).value;
      assert (id, m) in d.models;
    }
  }

  // The experience is available under its own name.
  ghost predicate Offered(d: Document, id: string) {
    exists p :: (id, p) in d.profiles && ExperienceAvailable(d, p)
  }

  ghost predicate NonePreferred(d: Document) {
    forall i :: 0 <= i < |PREFERRED| ==> !Offered(d, PREFERRED[i])
  }

  // Experience i of the document is the first available one that is not automatic.
  ghost predicate FirstOffered(d: Document, i: nat) {
    && i < |d.profiles| && !d.profiles[i].1.auto && ExperienceAvailable(d, d.profiles[i].1)
    && forall j :: 0 <= j < i ==> d.profiles[j].1.auto || !ExperienceAvailable(d, d.profiles[j].1)
  }

  ghost predicate FirstPreference(d: Document, i: nat) {
    i < |PREFERRED| && Offered(d, PREFERRED[i]) && forall j :: 0 <= j < i ==> !Offered(d, PREFERRED[j])
  }

  /** Where an automatic experience leads: to the decision if it is an experience, else to the first available
      one of the preferred, else to the first available one of the document. */
  ghost predicate RoutesTo(d: Document, decision: string, chosen: string) {
    if exists p :: (decision, p) in d.profiles then chosen == decision
    else if NonePreferred(d) then exists i: nat :: FirstOffered(d, i) && d.profiles[i].0 == chosen
    else exists i: nat :: FirstPreference(d, i) && PREFERRED[i] == chosen
  }

  lemma OfferedExactly(d: Document, id: string)
    requires Valid(d)
    ensures Offered(d, id) <==> Lookup(d.profiles, id).Some? && ExperienceAvailable(d, Lookup(d.profiles, id).value)
  {
    LookupFinds(d.profiles, id);
    if Lookup(d.profiles, id).Some? { assert (id, Lookup(d.profiles, id).value) in d.profiles; }
  }

  lemma {:induction false} PreferredExactly(d: Document, k: nat)
    requires Valid(d) && k <= |PREFERRED|
    ensures FirstPreferred(d, PREFERRED[k..]).None? <==> forall i :: k <= i < |PREFERRED| ==> !Offered(d, PREFERRED[i])
    ensures FirstPreferred(d, PREFERRED[k..]).Some? ==>
      exists i :: k <= i < |PREFERRED| && FirstFrom(d, k, i) && FirstPreferred(d, PREFERRED[k..]) == Some(PREFERRED[i])
    decreases |PREFERRED| - k
  {
    if k < |PREFERRED| {
      assert PREFERRED[k..][0] == PREFERRED[k] && PREFERRED[k..][1..] == PREFERRED[k + 1..];
      OfferedExactly(d, PREFERRED[k]);
      PreferredExactly(d, k + 1);
      if Offered(d, PREFERRED[k]) {
        assert FirstFrom(d, k, k);
      } else if FirstPreferred(d, PREFERRED[k + 1..]).Some? {
        var i :| k + 1 <= i < |PREFERRED| && FirstFrom(d, k + 1, i) && FirstPreferred(d, PREFERRED[k + 1..]) == Some(PREFERRED[i]);
        assert FirstFrom(d, k, i);
      }
    }
  }

  ghost predicate FirstFrom(d: Document, k: int, i: int)
    requires 0 <= k && i < |PREFERRED|
  {
    k <= i && Offered(d, PREFERRED[i]) && forall j :: k <= j < i ==> !Offered(d, PREFERRED[j])
  }

  lemma {:induction false} AvailableFrom(d: Document, k: nat)
    requires k <= |d.profiles|
    requires forall j :: 0 <= j < k ==> d.profiles[j].1.auto || !ExperienceAvailable(d, d.profiles[j].1)
    ensures FirstAvailable(d, d.profiles[k..]).None? <==> forall i: nat :: !FirstOffered(d, i)
    ensures FirstAvailable(d, d.profiles[k..]).Some? ==>
      exists i: nat :: FirstOffered(d, i) && FirstAvailable(d, d.profiles[k..]) == Some(d.profiles[i].0)
    decreases |d.profiles| - k
  {
    if k < |d.profiles| {
      assert d.profiles[k..][0] == d.profiles[k] && d.profiles[k..][1..] == d.profiles[k + 1..];
      if !d.profiles[k].1.auto && ExperienceAvailable(d, d.profiles[k].1) { assert FirstOffered(d, k); }
      else { AvailableFrom(d, k + 1); }
    }
  }

  lemma RouteExactly(d: Document, decision: string, chosen: string)
    requires Valid(d)
    ensures ResolveAuto(d, decision) == Some(chosen) <==> RoutesTo(d, decision, chosen)
  {
    LookupFinds(d.profiles, decision);
    if Lookup(d.profiles, decision).Some? {
      assert (decision, Lookup(d.profiles, decision).value) in d.profiles;
    } else {
      assert PREFERRED[0..] == PREFERRED && d.profiles[0..] == d.profiles;
      PreferredExactly(d, 0);
      AvailableFrom(d, 0);
      if !NonePreferred(d) {
        var i :| 0 <= i < |PREFERRED| && FirstFrom(d, 0, i) && FirstPreferred(d, PREFERRED) == Some(PREFERRED[i]);
        assert FirstPreference(d, i);
      }
    }
  }

  // The experience that is to serve the request: the override, or else the one requested, or where it leads if
  // it is automatic.
  ghost predicate Asks(d: Document, requested: string, decision: string, override: string, x: string, p: Profile) {
    exists named :: (if override == "" then requested else override, named) in d.profiles
      && (if named.auto then RoutesTo(d, decision, x) && (x, p) in d.profiles
          else x == (if override == "" then requested else override) && p == named)
  }

  ghost predicate Named(d: Document, name: string) {
    exists p :: (name, p) in d.profiles
  }

  // The request names a model and no experience.
  ghost predicate AsksModel(d: Document, requested: string) {
    !Named(d, requested) && exists m :: (requested, m) in d.models
  }

  lemma ThroughExactly(d: Document, name: string, named: Profile, decision: string, required: string, x: string, id: string)
    requires Valid(d) && (name, named) in d.profiles
    ensures Through(d, name, named, decision, required) == Resolved(x, id) <==>
            if named.auto then RoutesTo(d, decision, x) && exists p :: (x, p) in d.profiles && Serves(d, p, required, id)
            else x == name && Serves(d, named, required, id)
    ensures !Through(d, name, named, decision, required).Unknown?
  {
    if named.auto {
      var chosen := ResolveAuto(d, decision);
      RouteExactly(d, decision, x);
      if chosen.Some? {
        LookupFinds(d.profiles, chosen.value);
        var q := Lookup(d.profiles, chosen.value);
        if q.Some? {
          assert (chosen.value, q.value) in d.profiles;
          FinishExactly(d, chosen.value, q.value, required, x, id);
        }
      }
    } else {
      FinishExactly(d, name, named, required, x, id);
    }
  }

  /** Resolution, exactly, for every request, override and required capability: it gives the experience that is
      to serve the request and the model it selects, if that can serve what is required; a model requested by
      name stands for itself, unless an experience has that name or an override is given. Unknown are exactly
      the names of neither. */
  lemma ResolvesExactly(d: Document, requested: string, decision: string, override: string, required: string, x: string, id: string)
    requires Valid(d)
    ensures Resolve(d, requested, decision, override, required) == Resolved(x, id) <==>
            || (exists p :: Asks(d, requested, decision, override, x, p) && Serves(d, p, required, id))
            || (override == "" && AsksModel(d, requested) && x == requested
                && Serves(d, Profile(false, requested, required), required, id))
    ensures Resolve(d, requested, decision, override, required).Unknown? <==>
            !Named(d, if override == "" then requested else override) && !(override == "" && AsksModel(d, requested))
  {
    var name := if override == "" then requested else override;
    var named := Lookup(d.profiles, name);
    LookupFinds(d.profiles, name);
    LookupFinds(d.models, requested);
    if named.Some? {
      assert (name, named.value) in d.profiles;
      ThroughExactly(d, name, named.value, decision, required, x, id);
      forall p
        ensures Asks(d, requested, decision, override, x, p) <==>
                if named.value.auto then RoutesTo(d, decision, x) && (x, p) in d.profiles else x == name && p == named.value
      {
        assert (name, named.value) in d.profiles;
      }
    } else {
      assert !Named(d, name) && forall p :: !Asks(d, requested, decision, override, x, p);
      if Lookup(d.models, requested).Some? {
        assert (requested, Lookup(d.models, requested).value) in d.models;
        FinishExactly(d, requested, Profile(false, requested, required), required, x, id);
      }
    }
  }
}
