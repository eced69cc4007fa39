/** `lookupMaterials` of the client script: resolve the typed name against
    the catalog, retry with the blueprint suffix, and decide whether the
    "resolve all layers" step is offered. */
module Lookup {
  import opened Wrappers
  import opened Text
  import opened Tables
  import opened Resolution

  /** What the lookup shows.  `Found` carries `currentRootName`,
      `currentRootTypeID` and `currentMaterials`; the script has no
      separate "item not found" state. */
  datatype Outcome =
    | EmptyInput
    | NoMaterials
    | Found(rootName: string, rootTypeID: Option<int>, materials: seq<Line>, hasExtraLayers: bool)

  /** `matchKey`, `typeID` and `materials` after one catalog search. */
  datatype Attempt = Attempt(key: Option<string>, typeID: Option<int>, materials: seq<Line>)

  /** A search for the first key that folds to `lowered`. */
  function Search(t: Tables, lowered: string): (a: Attempt)
    ensures a.key.None? <==> forall i :: 0 <= i < |t.nameToID| ==> Lower(t.nameToID[i].0) != lowered
    ensures a.key.Some? ==> exists i :: 0 <= i < |t.nameToID| && t.nameToID[i].0 == a.key.value
                              && Lower(t.nameToID[i].0) == lowered
                              && (forall j :: 0 <= j < i ==> Lower(t.nameToID[j].0) != lowered)
                              && a.typeID == EntryId(t.nameToID[i].1)
    ensures a.materials == ManufacturingLines(t, a.typeID)
    ensures a.key.None? ==> a.typeID.None?
  {
    match FindFolded(t.nameToID, lowered)
    case None => Attempt(None, None, [])
    case Some(i) =>
      var id := EntryId(t.nameToID[i].1);
      Attempt(Some(t.nameToID[i].0), id, ManufacturingLines(t, id))
  }

  /** An attempt the script cannot show: no key, or no manufacturing lines. */
  predicate Unusable(a: Attempt) {
    a.key.None? || |a.materials| == 0
  }

  /** `materials.some(mat => !!getChildrenForMaterial(mat.materialTypeID, typeIDToName[mat.materialTypeID]))`. */
  function HasExtraLayers(t: Tables, mats: seq<Line>): (r: bool)
    ensures r <==> exists i :: 0 <= i < |mats|
                     && ChildrenForMaterial(t, mats[i].materialTypeID, Get(t.typeIDToName, mats[i].materialTypeID)).Some?
  {
    if |mats| == 0 then false
    else
      var here := ChildrenForMaterial(t, mats[0].materialTypeID, Get(t.typeIDToName, mats[0].materialTypeID)).Some?;
      var later := HasExtraLayers(t, mats[1..]);
      assert forall i :: 1 <= i < |mats| ==> mats[i] == mats[1..][i - 1];
      here || later
  }

  /** The attempt the script settles on: the direct search, replaced by the
      `"<input> Blueprint"` search when the direct one is unusable, the
      input does not end in "blueprint" and the retry finds a key. */
  function Settle(t: Tables, name: string): Attempt {
    var lowered := Lower(name);
    var first := Search(t, lowered);
    if Unusable(first) && !EndsWith(lowered, "blueprint") then
      var retry := Search(t, Lower(name + BlueprintSuffix));
      if retry.key.Some? then retry else first
    else first
  }

  /** `lookupMaterials` on the raw contents of the input field. */
  function LookupMaterials(t: Tables, input: string): (r: Outcome)
    ensures r.EmptyInput? <==> Trim(input) == ""
    // a shown root is a catalog key matching the input, or the input with
    // " Blueprint" appended, up to case
    ensures r.Found? ==> |r.materials| > 0
                         && r.materials == ManufacturingLines(t, r.rootTypeID)
                         && exists i :: 0 <= i < |t.nameToID| && t.nameToID[i].0 == r.rootName
                              && r.rootTypeID == EntryId(t.nameToID[i].1)
                              && (Lower(r.rootName) == Lower(Trim(input))
                                  || Lower(r.rootName) == Lower(Trim(input) + BlueprintSuffix))
    ensures r.Found? ==> (r.hasExtraLayers <==>
              exists i :: 0 <= i < |r.materials|
                && ChildrenForMaterial(t, r.materials[i].materialTypeID, Get(t.typeIDToName, r.materials[i].materialTypeID)).Some?)
  {
    var name := Trim(input);
    if name == "" then EmptyInput
    else
      var a := Settle(t, name);
      if Unusable(a) then NoMaterials
      else Found(a.key.value, a.typeID, a.materials, HasExtraLayers(t, a.materials))
  }

  /** A direct match with manufacturing lines is shown, whatever a
      blueprint entry would have given. */
  lemma DirectMatchWins(t: Tables, input: string, i: nat)
    requires Trim(input) != ""
    requires i < |t.nameToID| && Lower(t.nameToID[i].0) == Lower(Trim(input))
    requires forall j :: 0 <= j < i ==> Lower(t.nameToID[j].0) != Lower(Trim(input))
    requires |ManufacturingLines(t, EntryId(t.nameToID[i].1))| > 0
    ensures LookupMaterials(t, input).Found?
    ensures LookupMaterials(t, input).rootName == t.nameToID[i].0
    ensures LookupMaterials(t, input).rootTypeID == EntryId(t.nameToID[i].1)
  {
    var a := Search(t, Lower(Trim(input)));
    var k :| 0 <= k < |t.nameToID| && t.nameToID[k].0 == a.key.value
             && Lower(t.nameToID[k].0) == Lower(Trim(input))
             && (forall j :: 0 <= j < k ==> Lower(t.nameToID[j].0) != Lower(Trim(input)))
             && a.typeID == EntryId(t.nameToID[k].1);
    assert k == i;
  }

  /** When the input names nothing with a recipe and does not end in
      "blueprint", the first key matching `"<input> Blueprint"` up to case
      is used, provided its recipe has manufacturing lines. */
  lemma BlueprintRetry(t: Tables, input: string, i: nat)
    requires Trim(input) != "" && !EndsWith(Lower(Trim(input)), "blueprint")
    requires Unusable(Search(t, Lower(Trim(input))))
    requires i < |t.nameToID| && Lower(t.nameToID[i].0) == Lower(Trim(input) + BlueprintSuffix)
    requires forall j :: 0 <= j < i ==> Lower(t.nameToID[j].0) != Lower(Trim(input) + BlueprintSuffix)
    requires |ManufacturingLines(t, EntryId(t.nameToID[i].1))| > 0
    ensures LookupMaterials(t, input).Found?
    ensures LookupMaterials(t, input).rootName == t.nameToID[i].0
    ensures LookupMaterials(t, input).rootTypeID == EntryId(t.nameToID[i].1)
  {
    var a := Search(t, Lower(Trim(input) + BlueprintSuffix));
    var k :| 0 <= k < |t.nameToID| && t.nameToID[k].0 == a.key.value
             && Lower(t.nameToID[k].0) == Lower(Trim(input) + BlueprintSuffix)
             && (forall j :: 0 <= j < k ==> Lower(t.nameToID[j].0) != Lower(Trim(input) + BlueprintSuffix))
             && a.typeID == EntryId(t.nameToID[k].1);
    assert k == i;
  }

  /** "No manufacturing materials found." is shown exactly when the input is
      not blank, the direct search is unusable, and the blueprint retry is
      either not attempted or unusable too. */
  lemma NoMaterialsMeaning(t: Tables, input: string)
    ensures LookupMaterials(t, input) == NoMaterials <==>
              var name := Trim(input);
              name != "" && Unusable(Search(t, Lower(name)))
              && (EndsWith(Lower(name), "blueprint") || Unusable(Search(t, Lower(name + BlueprintSuffix))))
  {
  }

  function WidgetTables(): Tables {
    Tables(map[20 := [Line(7, 3, Manufacturing)]],
           [("Widget", Bare(Some(10))), ("Widget Blueprint", Bare(Some(20)))],
           map[10 := "Widget", 20 := "Widget Blueprint"], map[], map[])
  }

  lemma TrimWidget()
    ensures Trim("  widget ") == "widget"
  {
    assert !IsSpace('w') && !IsSpace('t');
    assert "  widget "[1..] == " widget ";
    assert " widget "[1..] == "widget ";
    assert TrimStart("  widget ") == "widget ";
    assert "widget "[..6] == "widget";
    assert TrimEnd("widget ") == "widget";
  }

  /** Strings that agree up to ASCII case fold to the same string. */
  lemma FoldAlike(a: string, b: string)
    requires |a| == |b| && forall i :: 0 <= i < |a| ==> LowerChar(a[i]) == LowerChar(b[i])
    ensures Lower(a) == Lower(b)
  {
  }

  lemma WidgetFolds(t: Tables, name: string)
    requires t == WidgetTables() && name == "widget"
    ensures Lower(name) == name && Lower(t.nameToID[0].0) == name
    ensures !EndsWith(name, "blueprint")
  {
    FoldAlike(name, name);
    FoldAlike(t.nameToID[0].0, name);
  }

  lemma WidgetBlueprintFolds(t: Tables, name: string)
    requires t == WidgetTables() && name == "widget"
    ensures Lower(t.nameToID[1].0) == Lower(name + BlueprintSuffix)
  {
    var a, b := t.nameToID[1].0, name + BlueprintSuffix;
    assert b == "widget Blueprint";
    assert LowerChar(a[0]) == LowerChar(b[0]);
    assert a[1..] == b[1..];
    FoldAlike(a, b);
  }

  lemma WidgetIsNotItsBlueprint(t: Tables, name: string)
    requires t == WidgetTables() && name == "widget"
    ensures forall j :: 0 <= j < 1 ==> Lower(t.nameToID[j].0) != Lower(name + BlueprintSuffix)
  {
    assert |Lower(t.nameToID[0].0)| == 6 && |Lower(name + BlueprintSuffix)| == 16;
  }

  lemma WidgetHasNoRecipe(t: Tables, name: string)
    requires t == WidgetTables() && name == "widget"
    ensures Unusable(Search(t, name))
  {
    WidgetFolds(t, name);
    assert FindFolded(t.nameToID, name) == Some(0);
  }

  lemma WidgetBlueprintRecipe(t: Tables)
    requires t == WidgetTables()
    ensures ManufacturingLines(t, EntryId(t.nameToID[1].1)) == [Line(7, 3, Manufacturing)]
  {
    assert [Line(7, 3, Manufacturing)][1..] == [];
  }

  /** Typing "  widget " finds "Widget Blueprint" when "Widget" itself has
      no recipe. */
  lemma WidgetLookup(t: Tables, input: string)
    requires t == WidgetTables() && input == "  widget "
    ensures LookupMaterials(t, input).Found?
    ensures LookupMaterials(t, input).rootName == "Widget Blueprint"
    ensures LookupMaterials(t, input).materials == [Line(7, 3, Manufacturing)]
  {
    TrimWidget();
    var name := Trim(input);
    assert name == "widget";
    WidgetFolds(t, name);
    WidgetHasNoRecipe(t, name);
    WidgetBlueprintFolds(t, name);
    WidgetIsNotItsBlueprint(t, name);
    WidgetBlueprintRecipe(t);
    assert Unusable(Search(t, Lower(name)));
    BlueprintRetry(t, input, 1);
  }
}
