/** `getChildrenForMaterial`: the recipe a material is built from, either its
    own or that of the catalog entry named `"<name> Blueprint"`. */
module Resolution {
  import opened Wrappers
  import opened Text
  import opened Tables

  /** The name the fallback is derived from: the name passed in, unless it is
      missing, empty or the material's own placeholder, in which case the
      catalog name of the id.  None when neither is a non-empty string. */
  function SearchName(t: Tables, matID: int, name: Option<string>): (r: Option<string>)
    ensures r.Some? ==> r.value != ""
    // a usable given name is kept
    ensures name.Some? && name.value != "" && name.value != Placeholder(matID) ==> r == name
    // otherwise the catalog name, when it is non-empty
    ensures !(name.Some? && name.value != "" && name.value != Placeholder(matID)) ==>
              (r.Some? <==> matID in t.typeIDToName && t.typeIDToName[matID] != "")
              && (r.Some? ==> r.value == t.typeIDToName[matID])
  {
    var n := if name.Some? && name.value != "" && name.value != Placeholder(matID) then name
             else Get(t.typeIDToName, matID);
    if n.Some? && n.value != "" then n else None
  }

  /** `getChildrenForMaterial(matID, name)`; None is `null`. */
  function ChildrenForMaterial(t: Tables, matID: int, name: Option<string>): (r: Option<seq<Line>>)
    // null or a non-empty list of manufacturing lines with positive quantity
    ensures r.Some? ==> |r.value| > 0 && forall l :: l in r.value ==> IsUsable(l)
    // no usable name: null, whatever recipes exist
    ensures SearchName(t, matID, name).None? ==> r.None?
    // the direct recipe takes precedence
    ensures SearchName(t, matID, name).Some? && |UsableLines(t, Some(matID))| > 0 ==>
              r == Some(UsableLines(t, Some(matID)))
    // otherwise only an exact, case-sensitive "<name> Blueprint" key can supply one
    ensures r.Some? && |UsableLines(t, Some(matID))| == 0 ==>
              exists i :: 0 <= i < |t.nameToID|
                && t.nameToID[i].0 == SearchName(t, matID, name).value + BlueprintSuffix
                && EntryId(t.nameToID[i].1).Some? && EntryId(t.nameToID[i].1).value != 0
                && r.value == UsableLines(t, EntryId(t.nameToID[i].1))
  {
    match SearchName(t, matID, name)
    case None => None
    case Some(sn) =>
      var direct := UsableLines(t, Some(matID));
      if |direct| > 0 then Some(direct)
      else match BlueprintId(t.nameToID, sn)
        case None => None
        case Some(bp) =>
          var fromBlueprint := UsableLines(t, Some(bp));
          if |fromBlueprint| == 0 then None else Some(fromBlueprint)
  }

  /** The fallback is consulted exactly when the direct recipe yields nothing,
      and answers non-null exactly when the blueprint key exists verbatim with
      a truthy id whose recipe has a usable line. */
  lemma {:induction false} FallbackMeaning(t: Tables, matID: int, name: Option<string>)
    requires SearchName(t, matID, name).Some?
    requires |UsableLines(t, Some(matID))| == 0
    ensures ChildrenForMaterial(t, matID, name).Some? <==>
              var key := SearchName(t, matID, name).value + BlueprintSuffix;
              exists i :: 0 <= i < |t.nameToID| && t.nameToID[i].0 == key
                && (forall j :: 0 <= j < i ==> t.nameToID[j].0 != key)
                && EntryId(t.nameToID[i].1).Some? && EntryId(t.nameToID[i].1).value != 0
                && |UsableLines(t, EntryId(t.nameToID[i].1))| > 0
  {
    var key := SearchName(t, matID, name).value + BlueprintSuffix;
    FirstKeyLookup(t.nameToID, key);
  }

  /** `nameToID[key]` reads the first (the only) pair with that key. */
  lemma {:induction false} FirstKeyLookup(cat: Catalog, key: string)
    ensures KeyLookup(cat, key).Some? ==>
              exists i :: 0 <= i < |cat| && cat[i].0 == key && cat[i].1 == KeyLookup(cat, key).value
                && forall j :: 0 <= j < i ==> cat[j].0 != key
    ensures forall i :: 0 <= i < |cat| && cat[i].0 == key && (forall j :: 0 <= j < i ==> cat[j].0 != key) ==>
              KeyLookup(cat, key) == Some(cat[i].1)
  {
    if KeyLookup(cat, key).Some? {
      var i := FirstKeyIndex(cat, key);
    }
    forall i | 0 <= i < |cat| && cat[i].0 == key && (forall j :: 0 <= j < i ==> cat[j].0 != key)
      ensures KeyLookup(cat, key) == Some(cat[i].1)
    {
      FirstKeyRead(cat, key, i);
    }
  }

  /** The pair a successful keyed read comes from. */
  lemma {:induction false} FirstKeyIndex(cat: Catalog, key: string) returns (i: nat)
    requires KeyLookup(cat, key).Some?
    ensures i < |cat| && cat[i].0 == key && cat[i].1 == KeyLookup(cat, key).value
    ensures forall j :: 0 <= j < i ==> cat[j].0 != key
  {
    if cat[0].0 == key {
      i := 0;
    } else {
      var tail := cat[1..];
      assert KeyLookup(cat, key) == KeyLookup(tail, key);
      var k := FirstKeyIndex(tail, key);
      i := k + 1;
      assert cat[i] == tail[k];
      forall j | 0 <= j < i ensures cat[j].0 != key {
        if j > 0 {
          assert cat[j] == tail[j - 1];
        }
      }
    }
  }

  /** On a catalog with distinct keys every pair is what a read of its own
      key returns. */
  lemma DistinctKeyLookup(cat: Catalog, i: nat)
    requires DistinctKeys(cat) && i < |cat|
    ensures KeyLookup(cat, cat[i].0) == Some(cat[i].1)
  {
    FirstKeyRead(cat, cat[i].0, i);
  }

  /** The blueprint id is read from the first pair whose key is exactly
      `"<name> Blueprint"`: that pair's id when it is truthy; none when no
      key is exactly that. */
  lemma BlueprintIdMeaning(cat: Catalog, name: string)
    ensures (forall i :: 0 <= i < |cat| ==> cat[i].0 != name + BlueprintSuffix) ==> BlueprintId(cat, name).None?
    ensures forall i :: 0 <= i < |cat| && cat[i].0 == name + BlueprintSuffix
                        && (forall j :: 0 <= j < i ==> cat[j].0 != name + BlueprintSuffix) ==>
              BlueprintId(cat, name) == Truthy(EntryId(cat[i].1))
  {
    FirstKeyLookup(cat, name + BlueprintSuffix);
  }

  /** A keyed read returns the value of the first pair with that key. */
  lemma {:induction false} FirstKeyRead(cat: Catalog, key: string, i: nat)
    requires i < |cat| && cat[i].0 == key
    requires forall j :: 0 <= j < i ==> cat[j].0 != key
    ensures KeyLookup(cat, key) == Some(cat[i].1)
  {
    if i > 0 {
      var tail := cat[1..];
      assert cat[0].0 != key;
      assert tail[i - 1] == cat[i];
      forall j | 0 <= j < i - 1 ensures tail[j].0 != key {
        assert tail[j] == cat[j + 1];
      }
      FirstKeyRead(tail, key, i - 1);
    }
  }

  /** A material that has no catalog name and is shown under its placeholder
      is a leaf even when it has a recipe of its own. */
  lemma UnnamedMaterialIsLeaf(t: Tables, matID: int)
    requires matID !in t.typeIDToName || t.typeIDToName[matID] == ""
    ensures ChildrenForMaterial(t, matID, Some(DisplayName(t, matID))).None?
    ensures ChildrenForMaterial(t, matID, None).None?
  {
  }

  /** "Widget" has no recipe; "Widget Blueprint" has the single line
      {materialTypeID: 7, quantity: 3}: resolving Widget yields that line. */
  lemma WidgetFallsBackToItsBlueprint()
    ensures var t := Tables(map[20 := [Line(7, 3, Manufacturing)]],
                            [("Widget", Bare(Some(10))), ("Widget Blueprint", Bare(Some(20)))],
                            map[10 := "Widget", 20 := "Widget Blueprint"], map[], map[]);
            ChildrenForMaterial(t, 10, Some("Widget")) == Some([Line(7, 3, Manufacturing)])
  {
    var t := Tables(map[20 := [Line(7, 3, Manufacturing)]],
                    [("Widget", Bare(Some(10))), ("Widget Blueprint", Bare(Some(20)))],
                    map[10 := "Widget", 20 := "Widget Blueprint"], map[], map[]);
    assert Placeholder(10) != "Widget" by {
      assert Placeholder(10)[0] == 'T';
    }
    assert SearchName(t, 10, Some("Widget")) == Some("Widget");
    assert "Widget" + BlueprintSuffix == "Widget Blueprint";
    assert KeyLookup(t.nameToID, "Widget Blueprint") == Some(Bare(Some(20))) by {
      assert t.nameToID[0].0 != "Widget Blueprint";
      assert t.nameToID[1..][0].0 == "Widget Blueprint";
    }
    assert Filter([Line(7, 3, Manufacturing)], IsUsable) == [Line(7, 3, Manufacturing)] by {
      assert [Line(7, 3, Manufacturing)][1..] == [];
    }
  }
}
