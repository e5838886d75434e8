/**
 * The search page: the list of Pals narrowed by the current filters (`filteredPals`)
 * and the vocabulary of types offered to the filter controls (`uniqueTypes`).
 */
module SearchClient {
  import opened Wrappers
  import opened Seqs
  import opened Text
  import opened PalModel
  import opened Decimal
  import opened SearchAndFilter

  /** An empty query matches every name; otherwise a case-insensitive substring test. */
  predicate MatchesSearch(pal: Pal, query: string): (b: bool)
    ensures query == "" ==> b
    ensures b ==> |query| <= |pal.name|
    ensures query <= pal.name ==> b
  {
    assert query <= pal.name ==> ToLower(query) <= ToLower(pal.name);
    query == "" || Includes(ToLower(pal.name), ToLower(query))
  }

  /** No selection matches every Pal; otherwise some type of the Pal is selected. */
  predicate MatchesTypes(pal: Pal, selectedTypes: seq<string>): (b: bool)
    ensures selectedTypes == [] ==> b
    ensures selectedTypes != [] ==> (b <==> exists t :: t in pal.types && t.name in selectedTypes)
    ensures pal.types == [] ==> (b <==> selectedTypes == [])
  {
    |selectedTypes| == 0 || exists i :: 0 <= i < |pal.types| && pal.types[i].name in selectedTypes
  }

  /** `null` matches every Pal; otherwise the rarity must be exactly the given one. */
  predicate MatchesRarity(pal: Pal, selectedRarity: Option<int>): (b: bool)
    ensures b <==> selectedRarity in {None, Some(pal.rarity)}
  {
    selectedRarity.None? || pal.rarity == selectedRarity.value
  }

  predicate Keeps(pal: Pal, query: string, selectedTypes: seq<string>, selectedRarity: Option<int>)
  {
    MatchesSearch(pal, query) && MatchesTypes(pal, selectedTypes) && MatchesRarity(pal, selectedRarity)
  }

  /**
   * `pals.filter(...)`: the Pals that pass all three tests, in their original order,
   * each as often as it occurs in `pals`.
   */
  function FilteredPals(pals: seq<Pal>, query: string, selectedTypes: seq<string>, selectedRarity: Option<int>)
    : (r: seq<Pal>)
    ensures IsSubsequence(r, pals)
    ensures forall p :: p in r <==> p in pals && Keeps(p, query, selectedTypes, selectedRarity)
    ensures forall p :: multiset(r)[p] == if Keeps(p, query, selectedTypes, selectedRarity) then multiset(pals)[p] else 0
  {
    if pals == [] then []
    else
      var rest := FilteredPals(pals[1..], query, selectedTypes, selectedRarity);
      assert pals == [pals[0]] + pals[1..];
      if Keeps(pals[0], query, selectedTypes, selectedRarity) then [pals[0]] + rest else rest
  }

  /** With no query, no selected type and no rarity, every Pal is shown. */
  lemma {:induction false} NoFiltersShowsAll(pals: seq<Pal>)
    ensures FilteredPals(pals, "", [], None) == pals
  {
    if pals != [] {
      NoFiltersShowsAll(pals[1..]);
    }
  }

  /** The type test is an OR: one selected type suffices for a Pal that passes the other tests. */
  lemma AnySelectedTypeSuffices(pals: seq<Pal>, query: string, selectedTypes: seq<string>,
                                selectedRarity: Option<int>, pal: Pal, i: nat)
    requires pal in pals && i < |pal.types| && pal.types[i].name in selectedTypes
    requires MatchesSearch(pal, query) && MatchesRarity(pal, selectedRarity)
    ensures pal in FilteredPals(pals, query, selectedTypes, selectedRarity)
  {
  }

  /** With a selection, every shown Pal has at least one selected type. */
  lemma ShownPalsHaveSelectedType(pals: seq<Pal>, query: string, selectedTypes: seq<string>,
                                  selectedRarity: Option<int>, pal: Pal)
    requires |selectedTypes| > 0
    requires pal in FilteredPals(pals, query, selectedTypes, selectedRarity)
    ensures exists i :: 0 <= i < |pal.types| && pal.types[i].name in selectedTypes
  {
  }

  /** With a rarity selected, every shown Pal has exactly that rarity. */
  lemma ShownPalsHaveSelectedRarity(pals: seq<Pal>, query: string, selectedTypes: seq<string>,
                                    rarity: int, pal: Pal)
    requires pal in FilteredPals(pals, query, selectedTypes, Some(rarity))
    ensures pal.rarity == rarity
  {
  }

  /** Queries that agree up to ASCII letter case select the same Pals. */
  lemma {:induction false} QueryIgnoresCase(pals: seq<Pal>, q1: string, q2: string,
                                            selectedTypes: seq<string>, selectedRarity: Option<int>)
    requires ToLower(q1) == ToLower(q2)
    ensures FilteredPals(pals, q1, selectedTypes, selectedRarity) == FilteredPals(pals, q2, selectedTypes, selectedRarity)
  {
    assert |q1| == |ToLower(q1)| == |ToLower(q2)| == |q2|;
    if pals != [] {
      QueryIgnoresCase(pals[1..], q1, q2, selectedTypes, selectedRarity);
    }
  }

  /** "char" and "CHAR" select the same Pals. */
  lemma CharInAnyCase(pals: seq<Pal>, selectedTypes: seq<string>, selectedRarity: Option<int>)
    ensures FilteredPals(pals, "char", selectedTypes, selectedRarity) == FilteredPals(pals, "CHAR", selectedTypes, selectedRarity)
  {
    assert ToLower("CHAR") == "char" == ToLower("char");
    QueryIgnoresCase(pals, "char", "CHAR", selectedTypes, selectedRarity);
  }

  /** Three Pals typed [fire], [water], [fire, dragon]: selecting "fire" shows the first and the third. */
  lemma FireSelectionExample(a: Pal, b: Pal, c: Pal)
    requires Names(a.types) == ["fire"] && a.rarity == 1
    requires Names(b.types) == ["water"] && b.rarity == 3
    requires Names(c.types) == ["fire", "dragon"] && c.rarity == 5
    ensures FilteredPals([a, b, c], "", ["fire"], None) == [a, c]
  {
    assert Keeps(a, "", ["fire"], None) by { assert a.types[0].name == Names(a.types)[0]; }
    assert !Keeps(b, "", ["fire"], None) by { assert b.types[0].name == Names(b.types)[0]; }
    assert Keeps(c, "", ["fire"], None) by { assert c.types[0].name == Names(c.types)[0]; }
    assert FilteredPals([c], "", ["fire"], None) == [c] by { assert [c][1..] == []; }
    assert FilteredPals([b, c], "", ["fire"], None) == [c] by { assert [b, c][1..] == [c]; }
    assert [a, b, c][1..] == [b, c];
  }

  /**
   * Moving the slider to a range other than the full scale shows only the Pals whose
   * rarity is exactly the lower bound: the upper bound never reaches the filter.
   */
  lemma {:induction false} NarrowedRangeShowsLowerBoundOnly(pals: seq<Pal>, query: string,
                                                            selectedTypes: seq<string>,
                                                            range: RarityRange, maxRarity: int)
    requires range != RarityRange(1, maxRarity)
    ensures forall p :: p in FilteredPals(pals, query, selectedTypes, RarityFilterFor(range, maxRarity)) ==> p.rarity == range.lo
    ensures forall p :: p in pals && p.rarity != range.lo ==> p !in FilteredPals(pals, query, selectedTypes, RarityFilterFor(range, maxRarity))
  {
  }

  /**
   * The page passes `setSelectedTypes` and `setSelectedRarity` as the controls'
   * callbacks, so it filters with the last values the controls sent. Those are the
   * controls' own selection and the lower bound of a narrowed range: after a
   * narrowed range only Pals of exactly that lower bound are shown.
   */
  lemma ShownPalsFollowControls(controls: FilterControls, pals: seq<Pal>, query: string)
    requires controls.Valid()
    ensures
      var shown := FilteredPals(pals, query, LastTypeFilter(controls.notifications, []),
                                LastRarityFilter(controls.notifications, None));
      && shown == FilteredPals(pals, query, controls.selectedTypes,
                               RarityFilterFor(controls.rarityRange, controls.maxRarity))
      && (controls.rarityRange != RarityRange(1, controls.maxRarity) ==>
            forall p :: p in shown ==> p.rarity == controls.rarityRange.lo)
  {
  }

  /**
   * The page mounts the filter controls without a `maxRarity`, so with the default
   * of 10: nothing is filtered yet, the parent's state is still `[]` and `null`,
   * and the slider reads "1★ - 10★".
   */
  method MountControls() returns (controls: FilterControls)
    ensures fresh(controls) && controls.Valid()
    ensures controls.maxRarity == DefaultMaxRarity
    ensures LastTypeFilter(controls.notifications, []) == [] && LastRarityFilter(controls.notifications, None) == None
    ensures !controls.ActiveFilters()
    ensures controls.Label() == "1★ - 10★"
  {
    controls := new FilterControls(DefaultMaxRarity);
    assert IntToString(1) == "1";
    assert IntToString(10) == "10";
  }

  /** All types of all Pals, Pal by Pal and, within a Pal, in the Pal's order. */
  function AllTypes(pals: seq<Pal>): (r: seq<PalType>)
    ensures forall t :: t in r <==> exists p :: p in pals && t in p.types
  {
    if pals == [] then []
    else
      assert pals == pals[..|pals| - 1] + [pals[|pals| - 1]];
      AllTypes(pals[..|pals| - 1]) + pals[|pals| - 1].types
  }

  /** The first type seen under each name, in the order the names are first seen. */
  function DistinctByName(ts: seq<PalType>): seq<PalType>
  {
    if ts == [] then []
    else
      var seen := DistinctByName(ts[..|ts| - 1]);
      var t := ts[|ts| - 1];
      if t.name in Names(seen) then seen else seen + [t]
  }

  /** The position of the first type named `name`. */
  function FirstIndex(ts: seq<PalType>, name: string): (i: nat)
    requires name in Names(ts)
    ensures i < |ts| && ts[i].name == name
    ensures forall j :: 0 <= j < i ==> ts[j].name != name
  {
    if name in Names(ts[..|ts| - 1]) then FirstIndex(ts[..|ts| - 1], name) else |ts| - 1
  }

  lemma NamesOfPrefix(ts: seq<PalType>)
    requires ts != []
    ensures Names(ts) == Names(ts[..|ts| - 1]) + [ts[|ts| - 1].name]
  {
  }

  /**
   * The vocabulary: no name twice, the same names as `ts`, each entry the
   * first type under its name, and the entries in first-seen order.
   */
  lemma {:induction false} DistinctByNameSpec(ts: seq<PalType>)
    ensures NoDuplicates(Names(DistinctByName(ts)))
    ensures forall n :: n in Names(DistinctByName(ts)) <==> n in Names(ts)
    ensures forall k :: 0 <= k < |DistinctByName(ts)| ==>
      DistinctByName(ts)[k].name in Names(ts) && DistinctByName(ts)[k] == ts[FirstIndex(ts, DistinctByName(ts)[k].name)]
    ensures forall k1, k2 :: 0 <= k1 < k2 < |DistinctByName(ts)| ==>
      FirstIndex(ts, DistinctByName(ts)[k1].name) < FirstIndex(ts, DistinctByName(ts)[k2].name)
  {
    if ts != [] {
      var prefix := ts[..|ts| - 1];
      var t := ts[|ts| - 1];
      var seen := DistinctByName(prefix);
      DistinctByNameSpec(prefix);
      NamesOfPrefix(ts);
      var r := DistinctByName(ts);
      forall k | 0 <= k < |seen|
        ensures seen[k].name in Names(ts) && FirstIndex(ts, seen[k].name) == FirstIndex(prefix, seen[k].name)
      {
        assert seen[k].name in Names(prefix);
      }
      if t.name !in Names(seen) {
        assert r == seen + [t];
        assert Names(r) == Names(seen) + [t.name];
        assert FirstIndex(ts, t.name) == |ts| - 1;
      }
    }
  }

  /** The names offered to the filter controls are exactly the type names of the Pals. */
  lemma OfferedNamesAreThePalsTypeNames(pals: seq<Pal>)
    ensures forall n :: n in Names(DistinctByName(AllTypes(pals))) <==>
      exists p, t :: p in pals && t in p.types && t.name == n
  {
    var all := AllTypes(pals);
    DistinctByNameSpec(all);
    forall n | n in Names(all)
      ensures exists p, t :: p in pals && t in p.types && t.name == n
    {
      var k :| 0 <= k < |all| && Names(all)[k] == n;
      assert all[k] in all;
    }
    forall n | exists p, t :: p in pals && t in p.types && t.name == n
      ensures n in Names(all)
    {
      var p, t :| p in pals && t in p.types && t.name == n;
      assert t in all;
      var k :| 0 <= k < |all| && all[k] == t;
      assert Names(all)[k] == n;
    }
  }

  /**
   * `uniqueTypes`: for every type of every Pal, in order, insert it into a map keyed
   * by name unless the name is already there; then list the map's values in
   * insertion order.
   */
  method UniqueTypes(pals: seq<Pal>) returns (types: seq<PalType>)
    ensures types == DistinctByName(AllTypes(pals))
  {
    var typeMap: map<string, PalType> := map[];
    var order: seq<string> := [];
    for i := 0 to |pals|
      invariant MapHolds(typeMap, order, DistinctByName(AllTypes(pals[..i])))
    {
      typeMap, order := InsertTypes(typeMap, order, AllTypes(pals[..i]), pals[i].types);
      AllTypesStep(pals, i);
    }
    assert pals[..|pals|] == pals;
    types := ValuesInOrder(typeMap, order);
    ValuesInOrderAreEntries(typeMap, order, DistinctByName(AllTypes(pals)));
  }

  /**
   * The inner `pal.types.forEach`: each type whose name is not yet a key is
   * inserted, so the map then holds the vocabulary of `seen` followed by `types`.
   */
  method InsertTypes(typeMap: map<string, PalType>, order: seq<string>, ghost seen: seq<PalType>,
                     types: seq<PalType>)
    returns (typeMap': map<string, PalType>, order': seq<string>)
    requires MapHolds(typeMap, order, DistinctByName(seen))
    ensures MapHolds(typeMap', order', DistinctByName(seen + types))
  {
    typeMap', order' := typeMap, order;
    ghost var done := seen;
    for j := 0 to |types|
      invariant done == seen + types[..j]
      invariant MapHolds(typeMap', order', DistinctByName(done))
    {
      var t := types[j];
      InsertIfAbsent(typeMap', order', done, t);
      done := done + [t];
      assert seen + types[..j + 1] == done;
      if t.name !in typeMap' {
        typeMap' := typeMap'[t.name := t];
        order' := order' + [t.name];
      }
    }
    assert types[..|types|] == types;
  }

  /** `Array.from(typeMap.values())`: the values in key insertion order. */
  function ValuesInOrder(typeMap: map<string, PalType>, order: seq<string>): (r: seq<PalType>)
    requires forall k :: 0 <= k < |order| ==> order[k] in typeMap
    ensures |r| == |order|
    ensures forall k :: 0 <= k < |order| ==> r[k] == typeMap[order[k]]
    ensures forall t :: t in r ==> t in typeMap.Values
  {
    seq(|order|, k requires 0 <= k < |order| => typeMap[order[k]])
  }

  lemma ValuesInOrderAreEntries(typeMap: map<string, PalType>, order: seq<string>, entries: seq<PalType>)
    requires MapHolds(typeMap, order, entries)
    ensures ValuesInOrder(typeMap, order) == entries
  {
  }

  lemma AllTypesStep(pals: seq<Pal>, i: nat)
    requires i < |pals|
    ensures AllTypes(pals[..i + 1]) == AllTypes(pals[..i]) + pals[i].types
  {
    assert pals[..i + 1][..i] == pals[..i];
  }

  /** One step of the inner loop: `t` is inserted exactly when its name is not yet a key. */
  lemma InsertIfAbsent(typeMap: map<string, PalType>, order: seq<string>, seen: seq<PalType>, t: PalType)
    requires MapHolds(typeMap, order, DistinctByName(seen))
    ensures t.name !in typeMap ==> MapHolds(typeMap[t.name := t], order + [t.name], DistinctByName(seen + [t]))
    ensures t.name in typeMap ==> MapHolds(typeMap, order, DistinctByName(seen + [t]))
  {
    assert (seen + [t])[..|seen|] == seen;
    var entries := DistinctByName(seen);
    if t.name !in typeMap {
      assert DistinctByName(seen + [t]) == entries + [t];
      assert Names(entries + [t]) == Names(entries) + [t.name];
    }
  }

  /**
   * The map and its insertion order hold exactly the entries of `entries`: keys in
   * order, each key mapped to its entry, no other key.
   */
  ghost predicate MapHolds(typeMap: map<string, PalType>, order: seq<string>, entries: seq<PalType>)
  {
    && order == Names(entries)
    && (forall n :: n in typeMap <==> n in order)
    && (forall k :: 0 <= k < |entries| ==> typeMap[entries[k].name] == entries[k])
  }
}
