/** The catalog commands over an overlay file: loading, validating and applying. Validation rewrites a
    model's list of capabilities into a mapping in place, and so also in the overlay where the merged
    catalog shares the model with it. */
module CatalogOverlay {
  import opened Overlay

  datatype Result = Accepted(fields: Fields) | Refused

  const VERSION := Leaf("2")

  // ---------------------------------------------------------------- the rewriting of validation

  function Capabilities(items: seq<string>): Value {
    Mapping(map c | c in items :: Mapping(map[]))
  }

  function Normal(v: Value): Value {
    if v.Mapping? && "capabilities" in v.fields && v.fields["capabilities"].List?
    then Mapping(v.fields["capabilities" := Capabilities(v.fields["capabilities"].items)])
    else v
  }

  function NormalModels(models: Fields, which: string -> bool): Fields {
    map m | m in models :: if which(m) then Normal(models[m]) else models[m]
  }

  // The document with the capabilities of the chosen models rewritten.
  function Rewrite(document: Fields, which: string -> bool): Fields {
    if "models" in document && document["models"].Mapping?
    then document["models" := Mapping(NormalModels(document["models"].fields, which))]
    else document
  }

  // The catalog as validation leaves it.
  function Normalized(catalog: Fields): Fields {
    Rewrite(catalog, m => true)
  }

  // The merged catalog holds the overlay's own mapping for the model, as the base has none to merge with.
  predicate Shared(base: Fields, m: string) {
    !("models" in base && base["models"].Mapping? && m in base["models"].fields && base["models"].fields[m].Mapping?)
  }

  // The overlay after the merged catalog was validated.
  function Rewritten(base: Fields, overlay: Fields): Fields {
    Rewrite(overlay, m => Shared(base, m))
  }

  // validate_catalog, with the conditions left open: they are about the rewritten catalog.
  function Validated(catalog: Fields, valid: Fields -> bool): Result {
    if valid(Normalized(catalog)) then Accepted(Normalized(catalog)) else Refused
  }

  // ---------------------------------------------------------------- the commands

  // dict.setdefault("version", 2)
  function WithVersion(fields: Fields): Fields {
    if "version" in fields then fields else fields["version" := VERSION]
  }

  // load_catalog
  function LoadCatalog(base: Fields, overlay: Fields, valid: Fields -> bool): Result {
    Validated(Merged(base, overlay), valid)
  }

  // The overlay a document makes of the current one.
  function Candidate(current: Fields, incoming: Fields, replace: bool): Fields {
    WithVersion(if replace then WithVersion(incoming) else Merged(current, WithVersion(incoming)))
  }

  // The overlay cmd_catalog_apply writes.
  function Apply(base: Fields, current: Fields, incoming: Fields, replace: bool, valid: Fields -> bool): Result {
    if "version" in incoming && incoming["version"] != Null && incoming["version"] != VERSION then Refused
    else
      var candidate := Candidate(current, incoming, replace);
      if Validated(Merged(base, candidate), valid).Accepted? then Accepted(Rewritten(base, candidate)) else Refused
  }

  method CatalogApply(base: Fields, current: Fields, incoming: Fields, replace: bool, valid: Fields -> bool) returns (written: Result)
    ensures written == Apply(base, current, incoming, replace, valid)
  {
    if "version" in incoming && incoming["version"] != Null && incoming["version"] != VERSION { return Refused; }
    var document := if "version" in incoming then incoming else incoming["version" := VERSION];
    var candidate := document;
    if !replace { candidate := MergeMapping(current, document); }
    if "version" !in candidate { candidate := candidate["version" := VERSION]; }
    var merged := MergeMapping(base, candidate);
    if !valid(Normalized(merged)) { return Refused; }
    written := Accepted(Rewritten(base, candidate));
  }

  // The overlay the document asks for: itself, or what it makes of the current one, with a version.
  function Asked(current: Fields, incoming: Fields, replace: bool): Fields {
    var document := if "version" in incoming then incoming else incoming["version" := Leaf("2")];
    var overlay := if replace then document else Merged(current, document);
    if "version" in overlay then overlay else overlay["version" := Leaf("2")]
  }

  /** A document is accepted exactly when it names no other version than 2 and the catalog it leads to is
      valid; loading then gives that catalog. */
  lemma AppliesExactly(base: Fields, current: Fields, incoming: Fields, replace: bool, valid: Fields -> bool)
    ensures var catalog := Normalized(Merged(base, Asked(current, incoming, replace)));
      var written := Apply(base, current, incoming, replace, valid);
      && (written.Accepted? <==>
            ("version" !in incoming || incoming["version"] == Null || incoming["version"] == Leaf("2")) && valid(catalog))
      && (written.Accepted? ==> LoadCatalog(base, written.fields, valid) == Accepted(catalog))
  {
    if Apply(base, current, incoming, replace, valid).Accepted? {
      AppliedLoads(base, current, incoming, replace, valid);
    }
  }

  /** A catalog loads exactly when base and overlay together are valid. */
  lemma LoadsExactly(base: Fields, overlay: Fields, valid: Fields -> bool, catalog: Fields)
    ensures LoadCatalog(base, overlay, valid) == Accepted(catalog) <==>
            catalog == Normalized(Merged(base, overlay)) && valid(catalog)
  {
  }

  /** Validation turns the list of capabilities of each model into a mapping with those names, each empty, and
      leaves everything else as it is. */
  lemma NormalizedExactly(catalog: Fields, m: string, k: string)
    ensures Normalized(catalog).Keys == catalog.Keys
    ensures k in catalog && (k != "models" || !catalog[k].Mapping?) ==> Normalized(catalog)[k] == catalog[k]
    ensures "models" in catalog && catalog["models"].Mapping? ==>
      var was, now := catalog["models"].fields, Normalized(catalog)["models"];
      && now.Mapping? && now.fields.Keys == was.Keys
      && (m in was ==>
            if was[m].Mapping? && "capabilities" in was[m].fields && was[m].fields["capabilities"].List? then
              && now.fields[m].Mapping? && now.fields[m].fields.Keys == was[m].fields.Keys
              && (k in was[m].fields && k != "capabilities" ==> now.fields[m].fields[k] == was[m].fields[k])
              && now.fields[m].fields["capabilities"].Mapping?
              && var names := now.fields[m].fields["capabilities"].fields;
                 (k in names <==> k in was[m].fields["capabilities"].items) && (k in names ==> names[k] == Mapping(map[]))
            else now.fields[m] == was[m])
  {
  }

  // ---------------------------------------------------------------- loading what was applied

  lemma NormalTwice(v: Value)
    ensures Normal(Normal(v)) == Normal(v)
  {
  }

  // A model of the overlay merged with the base's, rewritten before or only afterwards.
  lemma SameModel(base: Fields, overlay: Fields, which: string -> bool, m: string)
    requires m in overlay && overlay[m].Mapping? && m in base && base[m].Mapping? ==> !which(m)
    ensures var a, b := Merged(base, NormalModels(overlay, which)), Merged(base, overlay);
      (m in a <==> m in b) && (m in a ==> Normal(a[m]) == Normal(b[m]))
  {
    if m in overlay { NormalTwice(overlay[m]); }
  }

  lemma SameModels(base: Fields, overlay: Fields, which: string -> bool)
    requires forall m :: m in overlay && overlay[m].Mapping? && m in base && base[m].Mapping? ==> !which(m)
    ensures NormalModels(Merged(base, NormalModels(overlay, which)), m => true)
            == NormalModels(Merged(base, overlay), m => true)
  {
    var a, b := Merged(base, NormalModels(overlay, which)), Merged(base, overlay);
    forall m
      ensures (m in a <==> m in b) && (m in a ==> Normal(a[m]) == Normal(b[m]))
    {
      SameModel(base, overlay, which, m);
    }
    assert a.Keys == b.Keys;
  }

  lemma NormalModelsTwice(models: Fields, which: string -> bool)
    ensures NormalModels(NormalModels(models, which), which) == NormalModels(models, which)
    ensures NormalModels(NormalModels(models, which), m => true) == NormalModels(models, m => true)
  {
    forall m | m in models
      ensures Normal(Normal(models[m])) == Normal(models[m])
    {
      NormalTwice(models[m]);
    }
  }

  lemma RewritingIsNormal(base: Fields, overlay: Fields)
    ensures Normalized(Merged(base, Rewritten(base, overlay))) == Normalized(Merged(base, overlay))
  {
    if "models" in overlay && overlay["models"].Mapping? {
      var a, b := Merged(base, Rewritten(base, overlay)), Merged(base, overlay);
      var models := overlay["models"].fields;
      assert forall k :: k != "models" ==> SameAt(a, b, k);
      if "models" in base && base["models"].Mapping? {
        SameModels(base["models"].fields, models, m => Shared(base, m));
      } else {
        NormalModelsTwice(models, m => Shared(base, m));
      }
      SameButModels(a, b, m => true);
    }
  }

  // Documents that differ in nothing but their models, which are the same once rewritten.
  lemma SameButModels(a: Fields, b: Fields, which: string -> bool)
    requires forall k :: k != "models" ==> SameAt(a, b, k)
    requires "models" in a && "models" in b && a["models"].Mapping? && b["models"].Mapping?
    requires NormalModels(a["models"].fields, which) == NormalModels(b["models"].fields, which)
    ensures Rewrite(a, which) == Rewrite(b, which)
  {
    forall k
      ensures SameAt(Rewrite(a, which), Rewrite(b, which), k)
    {
      RewriteAt(a, which, k);
      RewriteAt(b, which, k);
      assert k != "models" ==> SameAt(a, b, k);
    }
    SameEverywhere(Rewrite(a, which), Rewrite(b, which));
  }

  /** An applied overlay can be loaded, and loading gives the very catalog that was validated, although
      validation has rewritten parts of the overlay in between. */
  lemma AppliedLoads(base: Fields, current: Fields, incoming: Fields, replace: bool, valid: Fields -> bool)
    requires Apply(base, current, incoming, replace, valid).Accepted?
    ensures var overlay := Apply(base, current, incoming, replace, valid).fields;
      && "version" in overlay
      && LoadCatalog(base, overlay, valid) == Accepted(Normalized(Merged(base, Candidate(current, incoming, replace))))
  {
    RewritingIsNormal(base, Candidate(current, incoming, replace));
  }

  // ---------------------------------------------------------------- what rewriting cannot hide

  /** Where both documents have a key, they agree on it or both have mappings there, alike in the same way.
      Of such documents rewriting hides no difference. */
  predicate Alike(a: Fields, b: Fields)
    decreases Mapping(a), 0
  {
    forall k :: k in a && k in b ==> AlikeValues(a[k], b[k])
  }

  predicate AlikeValues(v: Value, u: Value)
    decreases v, 1
  {
    v == u || (v.Mapping? && u.Mapping? && Alike(v.fields, u.fields))
  }

  // What rewriting leaves of a mapping.
  lemma NormalAt(v: Value, k: string)
    requires v.Mapping?
    ensures Normal(v).Mapping? && (k in Normal(v).fields <==> k in v.fields)
    ensures k in v.fields ==>
      Normal(v).fields[k] == if k == "capabilities" && v.fields[k].List? then Capabilities(v.fields[k].items) else v.fields[k]
  {
  }

  lemma NormalHidesNothing(v: Value, u: Value)
    requires AlikeValues(v, u) && Normal(v) == Normal(u)
    ensures v == u
  {
    if v.Mapping? && u.Mapping? && Alike(v.fields, u.fields) {
      forall k
        ensures SameAt(v.fields, u.fields, k)
      {
        NormalAt(v, k);
        NormalAt(u, k);
        assert k in v.fields && k in u.fields ==> AlikeValues(v.fields[k], u.fields[k]);
      }
      SameEverywhere(v.fields, u.fields);
    }
  }

  lemma NormalModelsHideNothing(a: Fields, b: Fields, which: string -> bool)
    requires Alike(a, b) && NormalModels(a, which) == NormalModels(b, which)
    ensures a == b
  {
    assert a.Keys == NormalModels(a, which).Keys && b.Keys == NormalModels(b, which).Keys;
    forall m
      ensures SameAt(a, b, m)
    {
      assert m in a <==> m in NormalModels(a, which);
      assert m in b <==> m in NormalModels(b, which);
      if m in a && m in b {
        assert AlikeValues(a[m], b[m]) && NormalModels(a, which)[m] == NormalModels(b, which)[m];
        if which(m) { NormalHidesNothing(a[m], b[m]); }
      }
    }
    SameEverywhere(a, b);
  }

  lemma RewriteHidesNothing(a: Fields, b: Fields, which: string -> bool)
    requires Alike(a, b) && Rewrite(a, which) == Rewrite(b, which)
    ensures a == b
  {
    forall k | k != "models"
      ensures SameAt(a, b, k)
    {
      RewriteAt(a, which, k);
      RewriteAt(b, which, k);
    }
    RewriteAt(a, which, "models");
    RewriteAt(b, which, "models");
    if "models" in a {
      assert AlikeValues(a["models"], b["models"]);
      if a["models"].Mapping? && b["models"].Mapping? && Alike(a["models"].fields, b["models"].fields) {
        NormalModelsHideNothing(a["models"].fields, b["models"].fields, which);
      }
    }
    SameEverywhere(a, b);
  }

  lemma RewriteAt(a: Fields, which: string -> bool, k: string)
    ensures k in Rewrite(a, which) <==> k in a
    ensures k in a ==>
      Rewrite(a, which)[k] == if k == "models" && a[k].Mapping? then Mapping(NormalModels(a[k].fields, which)) else a[k]
  {
  }

  lemma {:induction false} MergedIsAlike(base: Fields, overlay: Fields)
    ensures Alike(overlay, Merged(base, overlay))
    decreases Mapping(overlay)
  {
    forall k | k in overlay && k in Merged(base, overlay)
      ensures AlikeValues(overlay[k], Merged(base, overlay)[k])
    {
      if overlay[k].Mapping? && k in base && base[k].Mapping? { MergedIsAlike(base[k].fields, overlay[k].fields); }
    }
  }

  lemma {:induction false} SequencesAreAlike(base: Fields, first: Fields, second: Fields)
    ensures Alike(Merged(Merged(base, first), second), Merged(base, Merged(first, second)))
    decreases Mapping(second)
  {
    var left, right := Merged(Merged(base, first), second), Merged(base, Merged(first, second));
    forall k | k in left && k in right
      ensures AlikeValues(left[k], right[k])
    {
      if k in second && second[k].Mapping? && k in base && base[k].Mapping? {
        if k in first && first[k].Mapping? { SequencesAreAlike(base[k].fields, first[k].fields, second[k].fields); }
        else { MergedIsAlike(base[k].fields, second[k].fields); }
      }
    }
  }

  lemma {:induction false} TwiceIsAlike(current: Fields, incoming: Fields)
    ensures Alike(Merged(current, incoming), Merged(Merged(current, incoming), incoming))
    decreases Mapping(incoming)
  {
    var once, twice := Merged(current, incoming), Merged(Merged(current, incoming), incoming);
    forall k | k in once && k in twice
      ensures AlikeValues(once[k], twice[k])
    {
      if k in incoming && incoming[k].Mapping? {
        if k in current && current[k].Mapping? { TwiceIsAlike(current[k].fields, incoming[k].fields); }
        else { MergedIsAlike(incoming[k].fields, incoming[k].fields); }
      }
    }
  }

  // ---------------------------------------------------------------- patching

  /** Applying a document patches the effective catalog, as merging it onto the catalog before it was
      validated would, exactly when it composes with the current overlay over the base and does not null the
      version. */
  lemma ApplyPatchesExactly(base: Fields, current: Fields, incoming: Fields, valid: Fields -> bool)
    requires Apply(base, current, incoming, false, valid).Accepted?
    ensures LoadCatalog(base, Apply(base, current, incoming, false, valid).fields, valid)
            == Accepted(Normalized(Merged(Merged(base, current), WithVersion(incoming))))
        <==> Composes(base, current, WithVersion(incoming)) && !WithVersion(incoming)["version"].Null?
  {
    var document := WithVersion(incoming);
    var left, right := Merged(Merged(base, current), document), Merged(base, Merged(current, document));
    AppliedLoads(base, current, incoming, false, valid);
    SequencingExactly(base, current, document);
    if document["version"].Null? {
      NullVersionRestored(base, current, document);
    } else {
      SequencesAreAlike(base, current, document);
      if Normalized(left) == Normalized(right) { RewriteHidesNothing(left, right, m => true); }
    }
  }

  // A null would delete the version, but the overlay gets the default one.
  lemma NullVersionRestored(base: Fields, current: Fields, document: Fields)
    requires "version" in document && document["version"].Null?
    ensures Normalized(Merged(Merged(base, current), document))
            != Normalized(Merged(base, WithVersion(Merged(current, document))))
  {
    var left, right := Merged(Merged(base, current), document), Merged(base, WithVersion(Merged(current, document)));
    RewriteAt(left, m => true, "version");
    RewriteAt(right, m => true, "version");
    assert "version" !in left && "version" in right;
  }

  /** In particular applying a document with a null for an entry of the base does not delete that entry:
      the null only clears the overlay. */
  lemma BaseEntriesSurviveDeletion(base: Fields, current: Fields, incoming: Fields, valid: Fields -> bool, k: string)
    requires k in base && k in incoming && incoming[k].Null? && k != "version"
    requires Apply(base, current, incoming, false, valid).Accepted?
    ensures var loaded := LoadCatalog(base, Apply(base, current, incoming, false, valid).fields, valid);
      loaded.Accepted? && k in loaded.fields && loaded.fields[k] == Normalized(base)[k]
  {
    AppliedLoads(base, current, incoming, false, valid);
  }

  // ---------------------------------------------------------------- applying again

  // A model of the document merged onto a rewritten model of the overlay it has already been merged into.
  lemma ModelAgain(v: Value, d: Value)
    requires v.Mapping? && d.Mapping?
    requires MapsCapabilities(d) ==> MapsCapabilities(v)
    ensures Normal(Mapping(Merged(Normal(v).fields, d.fields))) == Normal(Mapping(Merged(v.fields, d.fields)))
  {
    var a, b := Merged(Normal(v).fields, d.fields), Merged(v.fields, d.fields);
    forall k
      ensures SameAt(Normal(Mapping(a)).fields, Normal(Mapping(b)).fields, k)
    {
      NormalAt(v, k);
      NormalAt(Mapping(a), k);
      NormalAt(Mapping(b), k);
    }
    assert Normal(Mapping(a)).fields.Keys == Normal(Mapping(b)).fields.Keys;
  }

  // Where the document maps a model's capabilities, the overlay it was merged into does.
  predicate Covers(models: Fields, document: Fields) {
    forall m :: m in document && MapsCapabilities(document[m]) && m in models && models[m].Mapping? ==> MapsCapabilities(models[m])
  }

  predicate MapsCapabilities(model: Value) {
    model.Mapping? && "capabilities" in model.fields && model.fields["capabilities"].Mapping?
  }

  lemma ModelsAgain(models: Fields, document: Fields, which: string -> bool)
    requires Covers(models, document)
    ensures NormalModels(Merged(NormalModels(models, which), document), which) == NormalModels(Merged(models, document), which)
  {
    var a, b := Merged(NormalModels(models, which), document), Merged(models, document);
    forall m
      ensures (m in a <==> m in b) && (m in a ==> if which(m) then Normal(a[m]) == Normal(b[m]) else a[m] == b[m])
    {
      if m in models {
        NormalTwice(models[m]);
        if m in document && document[m].Mapping? && models[m].Mapping? {
          NormalAt(models[m], "");
          ModelAgain(models[m], document[m]);
        }
      }
    }
    assert a.Keys == b.Keys;
  }

  lemma MergedCovers(current: Fields, document: Fields)
    requires "models" in document && document["models"].Mapping?
    ensures var cand := Merged(current, document);
      "models" in cand && cand["models"].Mapping? && Covers(cand["models"].fields, document["models"].fields)
  {
    var models := document["models"].fields;
    if "models" in current && current["models"].Mapping? {
      var before := current["models"].fields;
      forall m | m in models && MapsCapabilities(models[m]) && m in before && before[m].Mapping?
        ensures MapsCapabilities(Merged(before, models)[m])
      {
        assert "capabilities" in Merged(before[m].fields, models[m].fields);
      }
    }
  }

  // A document merges onto the rewritten overlay as onto the overlay, but for what rewriting changes.
  lemma RewriteThenMerge(base: Fields, current: Fields, document: Fields)
    ensures var cand := Merged(current, document);
      Rewritten(base, Merged(Rewritten(base, cand), document)) == Rewritten(base, Merged(cand, document))
  {
    var cand, which := Merged(current, document), (m: string) => Shared(base, m);
    var a, b := Merged(Rewrite(cand, which), document), Merged(cand, document);
    forall k | k != "models"
      ensures SameAt(a, b, k)
    {
      RewriteAt(cand, which, k);
    }
    RewriteAt(cand, which, "models");
    if "models" in document && document["models"].Mapping? {
      MergedCovers(current, document);
      ModelsAgain(cand["models"].fields, document["models"].fields, which);
      SameButModels(a, b, which);
    } else if "models" !in document && "models" in cand && cand["models"].Mapping? {
      NormalModelsTwice(cand["models"].fields, which);
      SameButModels(a, b, which);
    } else {
      assert SameAt(a, b, "models");
      assert a.Keys == b.Keys && a == b;
    }
  }

  // Setting a default version, rewriting and merging a document that has one do not get in each other's way.
  lemma VersionApart(base: Fields, document: Fields, overlay: Fields)
    requires "version" in document
    ensures Rewritten(base, WithVersion(overlay)) == WithVersion(Rewritten(base, overlay))
    ensures Merged(WithVersion(overlay), document) == Merged(overlay, document)
    ensures "version" in Merged(overlay, document) <==> !document["version"].Null?
    ensures "version" in Rewritten(base, overlay) <==> "version" in overlay
  {
    var a, b := Rewritten(base, WithVersion(overlay)), WithVersion(Rewritten(base, overlay));
    assert forall k :: SameAt(a, b, k);
    assert a.Keys == b.Keys;
    var c, d := Merged(WithVersion(overlay), document), Merged(overlay, document);
    assert forall k :: SameAt(c, d, k);
    assert c.Keys == d.Keys;
  }

  lemma WithVersionHidesNothing(a: Fields, b: Fields)
    requires WithVersion(a) == WithVersion(b) && ("version" in a <==> "version" in b)
    ensures a == b
  {
    if "version" !in a { assert a == WithVersion(a) - {"version"} && b == WithVersion(b) - {"version"}; }
  }

  // The overlay that applying writes, and the one that applying again does.
  lemma WrittenAgain(base: Fields, current: Fields, document: Fields)
    requires "version" in document
    ensures var merged := Merged(current, document);
      var once := Rewritten(base, WithVersion(merged));
      && once == WithVersion(Rewritten(base, merged))
      && Rewritten(base, WithVersion(Merged(once, document))) == WithVersion(Rewritten(base, Merged(merged, document)))
  {
    var merged := Merged(current, document);
    var again := Merged(Rewritten(base, merged), document);
    VersionApart(base, document, merged);
    VersionApart(base, document, Rewritten(base, merged));
    VersionApart(base, document, again);
    RewriteThenMerge(base, current, document);
  }

  lemma SameOverlayExactly(base: Fields, current: Fields, document: Fields)
    requires "version" in document
    ensures var once := Rewritten(base, WithVersion(Merged(current, document)));
      Rewritten(base, WithVersion(Merged(once, document))) == once <==> Repeats(current, document)
  {
    var merged := Merged(current, document);
    var twice := Merged(merged, document);
    WrittenAgain(base, current, document);
    TwiceExactly(current, document);
    TwiceIsAlike(current, document);
    VersionApart(base, document, current);
    VersionApart(base, document, merged);
    VersionApart(base, document, twice);
    if WithVersion(Rewritten(base, twice)) == WithVersion(Rewritten(base, merged)) {
      WithVersionHidesNothing(Rewritten(base, twice), Rewritten(base, merged));
      RewriteHidesNothing(merged, twice, m => Shared(base, m));
    }
  }

  /** Applying a document a second time leaves the overlay as it is, exactly when it repeats over the
      current overlay. */
  lemma ReapplyExactly(base: Fields, current: Fields, incoming: Fields, valid: Fields -> bool)
    requires Apply(base, current, incoming, false, valid).Accepted?
    ensures var once := Apply(base, current, incoming, false, valid);
      Apply(base, once.fields, incoming, false, valid) == once <==> Repeats(current, WithVersion(incoming))
  {
    var document := WithVersion(incoming);
    var first := Candidate(current, incoming, false);
    var once := Rewritten(base, first);
    var second := Candidate(once, incoming, false);
    SameOverlayExactly(base, current, document);
    if Rewritten(base, second) == once {
      RewritingIsNormal(base, first);
      RewritingIsNormal(base, second);
    }
  }
}
