/** Overlay documents: the recursive merge with deletion by null, and the laws it has and lacks. */
module Overlay {
  type Fields = map<string, Value>

  // Scalars and lists are leaves of a merge. Of a list only the texts of its items matter.
  datatype Value = Null | Leaf(text: string) | List(items: seq<string>) | Mapping(fields: map<string, Value>)

  // ---------------------------------------------------------------- the merge

  function Merged(base: Fields, overlay: Fields): Fields
    decreases Mapping(overlay)
  {
    map k | k in base.Keys + overlay.Keys && (k in overlay ==> !overlay[k].Null?) ::
      if k !in overlay then base[k]
      else if overlay[k].Mapping? && k in base && base[k].Mapping? then Mapping(Merged(base[k].fields, overlay[k].fields))
      else overlay[k]
  }

  method MergeMapping(base: Fields, overlay: Fields) returns (result: Fields)
    ensures result == Merged(base, overlay)
    decreases Mapping(overlay)
  {
    result := base;
    var todo := overlay.Keys;
    while todo != {}
      invariant todo <= overlay.Keys
      invariant forall k :: k in result <==>
        if k in overlay && k !in todo then k in Merged(base, overlay) else k in base
      invariant forall k :: k in result ==>
        result[k] == if k in overlay && k !in todo then Merged(base, overlay)[k] else base[k]
    {
      var key: string :| key in todo;
      var value := overlay[key];
      if value.Mapping? && key in result && result[key].Mapping? {
        var inner := MergeMapping(result[key].fields, value.fields);
        result := result[key := Mapping(inner)];
      } else if value == Null {
        result := result - {key};
      } else {
        result := result[key := value];
      }
      todo := todo - {key};
    }
  }

  // The two documents agree on one key.
  predicate SameAt(a: Fields, b: Fields, k: string) {
    (k in a <==> k in b) && (k in a ==> a[k] == b[k])
  }

  lemma SameEverywhere(a: Fields, b: Fields)
    requires forall k :: SameAt(a, b, k)
    ensures a == b
  {
    forall k
      ensures k in a <==> k in b
      ensures k in a ==> a[k] == b[k]
    {
      assert SameAt(a, b, k);
    }
    assert a.Keys == b.Keys;
  }

  // ---------------------------------------------------------------- absorbing

  /** The overlay says everything the base says: every key of the base is set by it, nothing is deleted,
      and where both hold mappings the same is true inside. */
  predicate Absorbs(base: Fields, overlay: Fields)
    decreases Mapping(overlay)
  {
    && base.Keys <= overlay.Keys
    && forall k :: k in overlay ==>
         && !overlay[k].Null?
         && (overlay[k].Mapping? && k in base && base[k].Mapping? ==> Absorbs(base[k].fields, overlay[k].fields))
  }

  lemma {:induction false} AbsorbsExactly(base: Fields, overlay: Fields)
    ensures Merged(base, overlay) == overlay <==> Absorbs(base, overlay)
    decreases Mapping(overlay)
  {
    forall k | k in overlay && overlay[k].Mapping? && k in base && base[k].Mapping?
      ensures Merged(base[k].fields, overlay[k].fields) == overlay[k].fields <==> Absorbs(base[k].fields, overlay[k].fields)
    {
      AbsorbsExactly(base[k].fields, overlay[k].fields);
    }
    if Merged(base, overlay) == overlay {
      assert forall k :: SameAt(Merged(base, overlay), overlay, k);
      assert forall k :: k in base ==> k in Merged(base, overlay) || k in overlay;
    }
    if Absorbs(base, overlay) {
      assert forall k :: SameAt(Merged(base, overlay), overlay, k);
    }
  }

  // ---------------------------------------------------------------- two overlays in sequence

  /** When two overlays may be combined before the base is known. Wherever all three are mappings: the
      second deletes only what the base lacks, and where base and second hold mappings and the first
      something else, the second says all the base says. */
  predicate Composes(base: Fields, first: Fields, second: Fields)
    decreases Mapping(second), 1
  {
    forall k :: k in second ==> ComposesAt(base, first, second, k)
  }

  predicate ComposesAt(base: Fields, first: Fields, second: Fields, k: string)
    requires k in second
    decreases Mapping(second), 0
  {
    && (second[k].Null? ==> k !in base)
    && (second[k].Mapping? && k in base && base[k].Mapping? && k in first ==>
          if first[k].Mapping? then Composes(base[k].fields, first[k].fields, second[k].fields)
          else Absorbs(base[k].fields, second[k].fields))
  }

  // All three hold mappings under the key.
  predicate ThreeMappings(base: Fields, first: Fields, second: Fields, k: string) {
    && k in second && second[k].Mapping? && k in base && base[k].Mapping? && k in first && first[k].Mapping?
  }

  // The law at one key.
  lemma SequencingAt(base: Fields, first: Fields, second: Fields, k: string)
    requires ThreeMappings(base, first, second, k) ==>
      (Merged(Merged(base[k].fields, first[k].fields), second[k].fields)
         == Merged(base[k].fields, Merged(first[k].fields, second[k].fields))
       <==> Composes(base[k].fields, first[k].fields, second[k].fields))
    ensures SameAt(Merged(Merged(base, first), second), Merged(base, Merged(first, second)), k)
            <==> (k in second ==> ComposesAt(base, first, second, k))
  {
    if k in second && second[k].Mapping? && k in base && base[k].Mapping? {
      AbsorbsExactly(base[k].fields, second[k].fields);
    }
  }

  /** The sequencing law, exactly: overlays applied one after the other do what their merge does if and
      only if they compose over the base. */
  lemma {:induction false} SequencingExactly(base: Fields, first: Fields, second: Fields)
    ensures Merged(Merged(base, first), second) == Merged(base, Merged(first, second)) <==> Composes(base, first, second)
    decreases Mapping(second)
  {
    var left, right := Merged(Merged(base, first), second), Merged(base, Merged(first, second));
    forall k
      ensures SameAt(left, right, k) <==> (k in second ==> ComposesAt(base, first, second, k))
    {
      if ThreeMappings(base, first, second, k) {
        SequencingExactly(base[k].fields, first[k].fields, second[k].fields);
      }
      SequencingAt(base, first, second, k);
    }
    if left == right { assert forall k :: SameAt(left, right, k); }
    if Composes(base, first, second) { SameEverywhere(left, right); }
  }

  /** The plain condition: the second overlay deletes nothing the base has and never meets a mapping of
      the base through something else of the first. */
  predicate Plain(base: Fields, first: Fields, second: Fields)
    decreases Mapping(second)
  {
    forall k :: k in second ==>
      && (second[k].Null? ==> k !in base)
      && (second[k].Mapping? && k in base && base[k].Mapping? && k in first ==>
            first[k].Mapping? && Plain(base[k].fields, first[k].fields, second[k].fields))
  }

  lemma {:induction false} PlainComposes(base: Fields, first: Fields, second: Fields)
    requires Plain(base, first, second)
    ensures Composes(base, first, second)
    ensures Merged(Merged(base, first), second) == Merged(base, Merged(first, second))
    decreases Mapping(second)
  {
    forall k | k in second && second[k].Mapping? && k in base && base[k].Mapping? && k in first
      ensures first[k].Mapping? && Composes(base[k].fields, first[k].fields, second[k].fields)
    {
      PlainComposes(base[k].fields, first[k].fields, second[k].fields);
    }
    SequencingExactly(base, first, second);
  }

  /** Each half of the plain condition is needed: a deletion is lost, and a replaced mapping comes back. */
  lemma BothHalvesNeeded()
    ensures var base, first, second := map["k" := Leaf("old")], map[], map["k" := Null];
      Merged(Merged(base, first), second) == map[] && Merged(base, Merged(first, second)) == base
    ensures var base, first, second :=
        map["k" := Mapping(map["a" := Leaf("old")])], map["k" := Leaf("off")], map["k" := Mapping(map["b" := Leaf("new")])];
      && Merged(Merged(base, first), second) == second
      && Merged(base, Merged(first, second)) != second
  {
    var base, first, second :=
      map["k" := Mapping(map["a" := Leaf("old")])], map["k" := Leaf("off")], map["k" := Mapping(map["b" := Leaf("new")])];
    assert Merged(map["k" := Leaf("old")], map[]) == map["k" := Leaf("old")];
    assert Merged(map[], map["k" := Null]) == map[];
    assert Merged(base, first) == first;
    assert Merged(first, second) == second;
    assert "a" in Merged(base["k"].fields, second["k"].fields);
    assert "a" !in second["k"].fields;
  }

  // ---------------------------------------------------------------- applying twice

  // No null anywhere inside.
  predicate NullFree(fields: Fields)
    decreases Mapping(fields)
  {
    forall k :: k in fields ==> !fields[k].Null? && (fields[k].Mapping? ==> NullFree(fields[k].fields))
  }

  lemma {:induction false} NullFreeExactly(fields: Fields)
    ensures Merged(fields, fields) == fields <==> NullFree(fields)
    decreases Mapping(fields)
  {
    forall k | k in fields && fields[k].Mapping?
      ensures Merged(fields[k].fields, fields[k].fields) == fields[k].fields <==> NullFree(fields[k].fields)
    {
      NullFreeExactly(fields[k].fields);
    }
    if Merged(fields, fields) == fields {
      assert forall k :: SameAt(Merged(fields, fields), fields, k);
    }
    if NullFree(fields) {
      assert forall k :: SameAt(Merged(fields, fields), fields, k);
    }
  }

  /** Where the incoming document holds a mapping, the current one holds a mapping it repeats over, or the
      incoming one has no null inside. */
  predicate Repeats(current: Fields, incoming: Fields)
    decreases Mapping(incoming)
  {
    forall k :: k in incoming && incoming[k].Mapping? ==>
      if k in current && current[k].Mapping? then Repeats(current[k].fields, incoming[k].fields)
      else NullFree(incoming[k].fields)
  }

  /** Applying the same document twice is applying it once, if and only if it repeats over the current
      one. A null nested in a mapping that was not there before is kept by the first application and acts
      as a deletion in the second. */
  lemma {:induction false} TwiceExactly(current: Fields, incoming: Fields)
    ensures Merged(Merged(current, incoming), incoming) == Merged(current, incoming) <==> Repeats(current, incoming)
    decreases Mapping(incoming)
  {
    var once := Merged(current, incoming);
    var twice := Merged(once, incoming);
    forall k
      ensures SameAt(twice, once, k) <==> (k in incoming && incoming[k].Mapping? ==>
        if k in current && current[k].Mapping? then Repeats(current[k].fields, incoming[k].fields)
        else NullFree(incoming[k].fields))
    {
      if k in incoming && incoming[k].Mapping? {
        if k in current && current[k].Mapping? { TwiceExactly(current[k].fields, incoming[k].fields); }
        else { NullFreeExactly(incoming[k].fields); }
      }
    }
    if twice == once { assert forall k :: SameAt(twice, once, k); }
    if Repeats(current, incoming) {
      assert forall k :: SameAt(twice, once, k);
      assert twice.Keys == once.Keys;
    }
  }

  lemma {:induction false} NullFreeRepeats(current: Fields, incoming: Fields)
    requires NullFree(incoming)
    ensures Repeats(current, incoming)
    ensures Merged(Merged(current, incoming), incoming) == Merged(current, incoming)
    decreases Mapping(incoming)
  {
    forall k | k in incoming && incoming[k].Mapping? && k in current && current[k].Mapping?
      ensures Repeats(current[k].fields, incoming[k].fields)
    {
      NullFreeRepeats(current[k].fields, incoming[k].fields);
    }
    TwiceExactly(current, incoming);
  }

  lemma NestedNullDoesNotRepeat()
    ensures var incoming := map["k" := Mapping(map["a" := Null])];
      && Merged(map[], incoming) == incoming
      && Merged(incoming, incoming) == map["k" := Mapping(map[])]
  {
    var inner := map["a" := Null];
    assert Merged(inner, inner) == map[];
    assert Merged(map[], map["k" := Mapping(inner)]) == map["k" := Mapping(inner)];
  }
}
