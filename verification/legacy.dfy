/** The earlier engine inlined in the shortcode's script: its reverse map,
    its `lookupMaterials` with the "Item not found." state and the
    `hasExtraLayers` test, and `getIndentedMaterialsHTML`, which recurses
    into every component with no cycle guard.  That recursion is modelled
    with fuel, which bounds how deeply the calls nest: None means the fuel
    ran out, which for an id from which a recipe cycle is reachable happens
    for every amount of fuel (`CycleNeverFinishes`), as the script's call
    never returns there. */
module Legacy {
  import opened Wrappers
  import opened Text
  import opened Tables
  import opened Resolution

  // ---- initializeData ----

  /** `parseInt(id)` of a catalog value: a record is an object, and
      `parseInt` of an object is NaN. */
  function ParsedId(e: Entry): Option<int> {
    if e.Bare? then e.parsed else None
  }

  /** `typeIDToName[parseInt(id)] = name` for every entry in catalog order;
      an entry that parses to NaN files nothing a numeric id can read. */
  function LegacyNames(cat: Catalog): map<int, string> {
    if |cat| == 0 then map[]
    else
      var m := LegacyNames(cat[..|cat| - 1]);
      var k := ParsedId(cat[|cat| - 1].1);
      if k.Some? then m[k.value := cat[|cat| - 1].0] else m
  }

  /** The tables the inline script builds: no market-group tables. */
  function LegacyInitialize(data: seq<RecipeEntry>, cat: Catalog): (t: Tables)
    ensures t.materialMap == BuildMaterialMap(data) && t.nameToID == cat
    ensures t.typeIDToMarketGroup == map[] && t.marketGroups == map[]
    ensures forall id :: id in t.typeIDToName <==> exists i :: 0 <= i < |cat| && ParsedId(cat[i].1) == Some(id)
  {
    forall id ensures id in LegacyNames(cat) <==> exists i :: 0 <= i < |cat| && ParsedId(cat[i].1) == Some(id) {
      LegacyNamesLastWins(cat, id);
    }
    Tables(BuildMaterialMap(data), cat, LegacyNames(cat), map[], map[])
  }

  /** The later entry's name wins. */
  lemma {:induction false} LegacyNamesLastWins(cat: Catalog, id: int)
    ensures id in LegacyNames(cat) <==> exists i :: 0 <= i < |cat| && ParsedId(cat[i].1) == Some(id)
    ensures id in LegacyNames(cat) ==>
              exists i :: 0 <= i < |cat| && ParsedId(cat[i].1) == Some(id)
                && LegacyNames(cat)[id] == cat[i].0
                && forall j :: i < j < |cat| ==> ParsedId(cat[j].1) != Some(id)
  {
    if |cat| > 0 {
      var last := |cat| - 1;
      var init := cat[..last];
      assert forall i :: 0 <= i < last ==> cat[i] == init[i];
      if ParsedId(cat[last].1) == Some(id) {
        assert LegacyNames(cat)[id] == cat[last].0;
      } else {
        LegacyNamesLastWins(init, id);
        assert id in LegacyNames(cat) <==> id in LegacyNames(init);
        if id in LegacyNames(init) {
          assert LegacyNames(cat)[id] == LegacyNames(init)[id];
          var i :| 0 <= i < |init| && ParsedId(init[i].1) == Some(id)
                   && LegacyNames(init)[id] == init[i].0
                   && forall j :: i < j < |init| ==> ParsedId(init[j].1) != Some(id);
          assert forall j :: i < j < |cat| ==> ParsedId(cat[j].1) != Some(id);
        }
        if exists i :: 0 <= i < |cat| && ParsedId(cat[i].1) == Some(id) {
          var i :| 0 <= i < |cat| && ParsedId(cat[i].1) == Some(id);
          assert i < last;
        }
      }
    }
  }

  /** On a catalog of bare ids the two scripts build the same name map. */
  lemma {:induction false} NamesAgreeOnBareCatalogs(cat: Catalog)
    requires forall i :: 0 <= i < |cat| ==> cat[i].1.Bare?
    ensures LegacyNames(cat) == BuildNames(cat)
  {
    if |cat| > 0 {
      NamesAgreeOnBareCatalogs(cat[..|cat| - 1]);
    }
  }

  // ---- lookupMaterials ----

  /** What the inline lookup shows.  Unlike the later script it tells an
      unknown item from a known one without a manufacturing recipe. */
  datatype LegacyOutcome =
    | EmptyInput
    | ItemNotFound
    | NoMaterials(rootName: string, rootTypeID: int)
    | Found(rootName: string, rootTypeID: int, materials: seq<Line>, hasExtraLayers: bool)

  /** `nameToID[name + " Blueprint"] ? parseInt(…) : null`, kept only when
      truthy. */
  function LegacyBlueprintId(cat: Catalog, name: string): (r: Option<int>)
    ensures r.Some? ==> r.value != 0
    ensures r.Some? ==> exists i :: 0 <= i < |cat| && cat[i].0 == name + BlueprintSuffix && ParsedId(cat[i].1) == r
  {
    match KeyLookup(cat, name + BlueprintSuffix)
    case None => None
    case Some(e) => Truthy(ParsedId(e))
  }

  /** The inline blueprint id is read from the first pair keyed exactly
      `"<name> Blueprint"`: its parsed value when truthy; none when no key
      is exactly that. */
  lemma LegacyBlueprintIdMeaning(cat: Catalog, name: string)
    ensures (forall i :: 0 <= i < |cat| ==> cat[i].0 != name + BlueprintSuffix) ==> LegacyBlueprintId(cat, name).None?
    ensures forall i :: 0 <= i < |cat| && cat[i].0 == name + BlueprintSuffix
                        && (forall j :: 0 <= j < i ==> cat[j].0 != name + BlueprintSuffix) ==>
              LegacyBlueprintId(cat, name) == Truthy(ParsedId(cat[i].1))
  {
    FirstKeyLookup(cat, name + BlueprintSuffix);
  }

  /** `nested.some(nm => nm.activityID === 1 && nm.quantity > 0)`. */
  predicate HasUsableLine(t: Tables, id: Option<int>) {
    id.Some? && id.value in t.materialMap && exists l :: l in t.materialMap[id.value] && IsUsable(l)
  }

  /** The test applied to each root material: a usable line in its own
      recipe, or else, when it has a name, in its `"<name> Blueprint"`
      recipe. */
  predicate ExtraLayer(t: Tables, mat: Line) {
    || HasUsableLine(t, Some(mat.materialTypeID))
    || (var name := Get(t.typeIDToName, mat.materialTypeID);
        name.Some? && name.value != "" && HasUsableLine(t, LegacyBlueprintId(t.nameToID, name.value)))
  }

  /** Through the catalog: a named root material without a usable line of
      its own offers a layer exactly when the first pair keyed exactly
      `"<name> Blueprint"` parses to a truthy id with a usable line, and
      never when no key is exactly that. */
  lemma ExtraLayerMeaning(t: Tables, mat: Line)
    requires !HasUsableLine(t, Some(mat.materialTypeID))
    requires mat.materialTypeID in t.typeIDToName && t.typeIDToName[mat.materialTypeID] != ""
    ensures var key := t.typeIDToName[mat.materialTypeID] + BlueprintSuffix;
            (forall i :: 0 <= i < |t.nameToID| ==> t.nameToID[i].0 != key) ==> !ExtraLayer(t, mat)
    ensures var key := t.typeIDToName[mat.materialTypeID] + BlueprintSuffix;
            forall i :: 0 <= i < |t.nameToID| && t.nameToID[i].0 == key
                        && (forall j :: 0 <= j < i ==> t.nameToID[j].0 != key) ==>
              (ExtraLayer(t, mat) <==> HasUsableLine(t, Truthy(ParsedId(t.nameToID[i].1))))
  {
    LegacyBlueprintIdMeaning(t.nameToID, t.typeIDToName[mat.materialTypeID]);
  }

  function AnyExtraLayer(t: Tables, mats: seq<Line>): (r: bool)
    ensures r <==> exists i :: 0 <= i < |mats| && ExtraLayer(t, mats[i])
  {
    if |mats| == 0 then false
    else
      var rest := AnyExtraLayer(t, mats[1..]);
      assert forall i :: 1 <= i < |mats| ==> mats[i] == mats[1..][i - 1];
      ExtraLayer(t, mats[0]) || rest
  }

  /** `lookupMaterials` of the inline script. */
  function LegacyLookup(t: Tables, input: string): (r: LegacyOutcome)
    ensures r.EmptyInput? <==> Trim(input) == ""
    // not found: no key folds to the input, or its value parses to 0 or NaN
    ensures r.ItemNotFound? <==>
              Trim(input) != ""
              && match FindFolded(t.nameToID, Lower(Trim(input)))
                 case None => true
                 case Some(i) => Truthy(ParsedId(t.nameToID[i].1)).None?
    ensures r.NoMaterials? || r.Found? ==>
              exists i :: 0 <= i < |t.nameToID| && t.nameToID[i].0 == r.rootName
                && Lower(r.rootName) == Lower(Trim(input))
                && ParsedId(t.nameToID[i].1) == Some(r.rootTypeID) && r.rootTypeID != 0
    // and that key is the first one, in catalog order, that folds to the input
    ensures r.NoMaterials? || r.Found? ==>
              && FindFolded(t.nameToID, Lower(Trim(input))).Some?
              && var i := FindFolded(t.nameToID, Lower(Trim(input))).value;
                 i < |t.nameToID| && r.rootName == t.nameToID[i].0 && Truthy(ParsedId(t.nameToID[i].1)) == Some(r.rootTypeID)
    ensures r.NoMaterials? <==> (r.NoMaterials? || r.Found?) && |ManufacturingLines(t, Some(r.rootTypeID))| == 0
    ensures r.Found? ==> r.materials == ManufacturingLines(t, Some(r.rootTypeID)) && |r.materials| > 0
    ensures r.Found? ==> (r.hasExtraLayers <==> exists i :: 0 <= i < |r.materials| && ExtraLayer(t, r.materials[i]))
  {
    var name := Trim(input);
    if name == "" then EmptyInput
    else match FindFolded(t.nameToID, Lower(name))
      case None => ItemNotFound
      case Some(i) =>
        match Truthy(ParsedId(t.nameToID[i].1))
        case None => ItemNotFound
        case Some(id) =>
          var mats := ManufacturingLines(t, Some(id));
          if |mats| == 0 then NoMaterials(t.nameToID[i].0, id)
          else Found(t.nameToID[i].0, id, mats, AnyExtraLayer(t, mats))
  }

  /** A name that differs from a catalog key only in case, and whose entry is
      a record, is "not found": the inline script cannot read records. */
  lemma RecordsAreNotFound(t: Tables, input: string, i: nat)
    requires Trim(input) != ""
    requires i < |t.nameToID| && Lower(t.nameToID[i].0) == Lower(Trim(input))
    requires forall j :: 0 <= j < i ==> Lower(t.nameToID[j].0) != Lower(Trim(input))
    requires t.nameToID[i].1.Record?
    ensures LegacyLookup(t, input) == ItemNotFound
  {
    var r := FindFolded(t.nameToID, Lower(Trim(input)));
    assert r == Some(i);
  }

  // ---- getIndentedMaterialsHTML ----

  /** One `indented-material depth-N` element of the inline script. */
  datatype Row = Row(name: string, qty: int, depth: int)

  /** The case in which the inline expansion walks the lines of
      `"<name> Blueprint"`: no manufacturing lines of its own, a non-empty
      name, and that key's value parses to a truthy id. */
  predicate LegacyFallsBack(t: Tables, typeID: int) {
    && |ManufacturingLines(t, Some(typeID))| == 0
    && typeID in t.typeIDToName && t.typeIDToName[typeID] != ""
    && LegacyBlueprintId(t.nameToID, t.typeIDToName[typeID]).Some?
  }

  /** Through the catalog: an id without lines of its own, named `name`,
      walks the lines of the first pair keyed exactly `"<name> Blueprint"`
      when its value parses to a truthy id, and nothing otherwise. */
  lemma LegacyLinesMeaning(t: Tables, typeID: int, i: nat)
    requires |ManufacturingLines(t, Some(typeID))| == 0
    requires typeID in t.typeIDToName && t.typeIDToName[typeID] != ""
    requires i < |t.nameToID| && t.nameToID[i].0 == t.typeIDToName[typeID] + BlueprintSuffix
    requires forall j :: 0 <= j < i ==> t.nameToID[j].0 != t.typeIDToName[typeID] + BlueprintSuffix
    ensures LegacyLines(t, typeID) == ManufacturingLines(t, Truthy(ParsedId(t.nameToID[i].1)))
  {
    LegacyBlueprintIdMeaning(t.nameToID, t.typeIDToName[typeID]);
  }

  /** The lines the inline expansion walks: the manufacturing lines of the
      id, or, when there are none and the id has a name, those of its
      `"<name> Blueprint"` entry. */
  function LegacyLines(t: Tables, typeID: int): (r: seq<Line>)
    ensures forall l :: l in r ==> IsManufacturing(l)
    // no direct lines, a non-empty name and a truthy blueprint id: the blueprint's lines
    ensures LegacyFallsBack(t, typeID) ==> r == ManufacturingLines(t, LegacyBlueprintId(t.nameToID, t.typeIDToName[typeID]))
    // in every other case the id's own lines, possibly none
    ensures !LegacyFallsBack(t, typeID) ==> r == ManufacturingLines(t, Some(typeID))
  {
    var direct := ManufacturingLines(t, Some(typeID));
    if |direct| == 0 && typeID in t.typeIDToName && t.typeIDToName[typeID] != "" then
      var bp := LegacyBlueprintId(t.nameToID, t.typeIDToName[typeID]);
      if bp.Some? then ManufacturingLines(t, bp) else direct
    else direct
  }

  /** Reference definition of one level: every line, scaled, nothing
      skipped. */
  function LegacyLevel(t: Tables, lines: seq<Line>, multiplier: int, depth: int): (r: seq<Row>)
    ensures |r| == |lines|
    ensures forall i :: 0 <= i < |lines| ==>
              r[i] == Row(DisplayName(t, lines[i].materialTypeID), lines[i].quantity * multiplier, depth)
  {
    if |lines| == 0 then []
    else
      var rest := LegacyLevel(t, lines[1..], multiplier, depth);
      assert forall i :: 1 <= i < |lines| ==> lines[i] == lines[1..][i - 1];
      [Row(DisplayName(t, lines[0].materialTypeID), lines[0].quantity * multiplier, depth)] + rest
  }

  /** The rows at exactly depth `d`. */
  function RowsAt(rows: seq<Row>, d: int): seq<Row> {
    if |rows| == 0 then []
    else (if rows[0].depth == d then [rows[0]] else []) + RowsAt(rows[1..], d)
  }

  /** `getIndentedMaterialsHTML(typeID, multiplier, depth)` with `fuel`
      nested calls allowed; None when they do not suffice. */
  function LegacyExpand(t: Tables, typeID: int, multiplier: int, depth: int, fuel: nat): (r: Option<seq<Row>>)
    decreases fuel, 0, 0
  {
    if fuel == 0 then None
    else LegacyExpandLines(t, LegacyLines(t, typeID), multiplier, depth, fuel - 1)
  }

  /** The loop over one level: each line's row, then everything below it. */
  function LegacyExpandLines(t: Tables, lines: seq<Line>, multiplier: int, depth: int, fuel: nat): (r: Option<seq<Row>>)
    decreases fuel, 1, |lines|
  {
    if |lines| == 0 then Some([])
    else
      var mat := lines[0];
      var qty := mat.quantity * multiplier;
      var row := Row(DisplayName(t, mat.materialTypeID), qty, depth);
      var sub := LegacyExpand(t, mat.materialTypeID, qty, depth + 1, fuel);
      var rest := LegacyExpandLines(t, lines[1..], multiplier, depth, fuel);
      Join(row, sub, rest)
  }

  /** A line's row, the rows nested under it, then the rows of the later
      lines; None when either part did not finish. */
  function Join(row: Row, sub: Option<seq<Row>>, rest: Option<seq<Row>>): Option<seq<Row>> {
    if sub.None? || rest.None? then None else Some([row] + sub.value + rest.value)
  }

  /** Both parts, one after the other, when both finished. */
  function Concat(a: Option<seq<Row>>, b: Option<seq<Row>>): Option<seq<Row>> {
    if a.None? || b.None? then None else Some(a.value + b.value)
  }

  /** The loop is its first line's row and the rows below it, then the
      loop over the others. */
  lemma LegacyCons(t: Tables, lines: seq<Line>, multiplier: int, depth: int, fuel: nat)
    requires |lines| > 0
    ensures var y, qty := lines[0].materialTypeID, lines[0].quantity * multiplier;
            LegacyExpandLines(t, lines, multiplier, depth, fuel)
            == Join(Row(DisplayName(t, y), qty, depth), LegacyExpand(t, y, qty, depth + 1, fuel),
                    LegacyExpandLines(t, lines[1..], multiplier, depth, fuel))
  {
  }

  lemma JoinConcat(row: Row, sub: Option<seq<Row>>, a: Option<seq<Row>>, b: Option<seq<Row>>)
    ensures Concat(Join(row, sub, a), b) == Join(row, sub, Concat(a, b))
  {
    if sub.Some? && a.Some? && b.Some? {
      assert [row] + sub.value + (a.value + b.value) == ([row] + sub.value + a.value) + b.value;
    }
  }

  /** The loop over `a + b` is the loop over `a` followed by the loop over
      `b`, and finishes exactly when both do. */
  lemma {:induction false} LegacySplit(t: Tables, a: seq<Line>, b: seq<Line>, multiplier: int, depth: int, fuel: nat)
    ensures LegacyExpandLines(t, a + b, multiplier, depth, fuel)
            == Concat(LegacyExpandLines(t, a, multiplier, depth, fuel), LegacyExpandLines(t, b, multiplier, depth, fuel))
    decreases |a|
  {
    if |a| == 0 {
      assert a + b == b;
      var rb := LegacyExpandLines(t, b, multiplier, depth, fuel);
      if rb.Some? {
        assert [] + rb.value == rb.value;
      }
    } else {
      assert (a + b)[0] == a[0] && (a + b)[1..] == a[1..] + b;
      LegacySplit(t, a[1..], b, multiplier, depth, fuel);
      LegacyCons(t, a + b, multiplier, depth, fuel);
      LegacyCons(t, a, multiplier, depth, fuel);
      var y, qty := a[0].materialTypeID, a[0].quantity * multiplier;
      JoinConcat(Row(DisplayName(t, y), qty, depth), LegacyExpand(t, y, qty, depth + 1, fuel),
                 LegacyExpandLines(t, a[1..], multiplier, depth, fuel), LegacyExpandLines(t, b, multiplier, depth, fuel));
    }
  }

  /** The loop around its `i`-th line: the rows of the earlier lines, that
      line's row under the scaled quantity, then the full expansion of the
      line's id one level down under that quantity, then the rows of the
      later lines; it fails exactly when one of those parts fails. */
  lemma LegacyNestedUnderLine(t: Tables, lines: seq<Line>, multiplier: int, depth: int, fuel: nat, i: nat)
    requires i < |lines|
    ensures var y, qty := lines[i].materialTypeID, lines[i].quantity * multiplier;
            var pre := LegacyExpandLines(t, lines[..i], multiplier, depth, fuel);
            var sub := LegacyExpand(t, y, qty, depth + 1, fuel);
            var post := LegacyExpandLines(t, lines[i + 1..], multiplier, depth, fuel);
            LegacyExpandLines(t, lines, multiplier, depth, fuel)
            == if pre.None? || sub.None? || post.None? then None
               else Some(pre.value + [Row(DisplayName(t, y), qty, depth)] + sub.value + post.value)
  {
    assert lines == lines[..i] + lines[i..];
    LegacySplit(t, lines[..i], lines[i..], multiplier, depth, fuel);
    assert lines[i..][0] == lines[i] && lines[i..][1..] == lines[i + 1..];
    LegacyCons(t, lines[i..], multiplier, depth, fuel);
    var y, qty := lines[i].materialTypeID, lines[i].quantity * multiplier;
    ConcatJoin(LegacyExpandLines(t, lines[..i], multiplier, depth, fuel), Row(DisplayName(t, y), qty, depth),
               LegacyExpand(t, y, qty, depth + 1, fuel), LegacyExpandLines(t, lines[i + 1..], multiplier, depth, fuel));
  }

  lemma ConcatJoin(pre: Option<seq<Row>>, row: Row, sub: Option<seq<Row>>, post: Option<seq<Row>>)
    ensures Concat(pre, Join(row, sub, post))
            == if pre.None? || sub.None? || post.None? then None else Some(pre.value + [row] + sub.value + post.value)
  {
    if pre.Some? && sub.Some? && post.Some? {
      assert pre.value + ([row] + sub.value + post.value) == pre.value + [row] + sub.value + post.value;
    }
  }

  /** Every row lies at `depth` or below it, and the rows at `depth` are
      the id's lines, scaled and in order, whatever is nested between them. */
  lemma ExpandShape(t: Tables, typeID: int, multiplier: int, depth: int, fuel: nat)
    requires LegacyExpand(t, typeID, multiplier, depth, fuel).Some?
    ensures forall x :: x in LegacyExpand(t, typeID, multiplier, depth, fuel).value ==> x.depth >= depth
    ensures RowsAt(LegacyExpand(t, typeID, multiplier, depth, fuel).value, depth)
            == LegacyLevel(t, LegacyLines(t, typeID), multiplier, depth)
  {
    var f: nat := fuel - 1;
    var lines := LegacyLines(t, typeID);
    ExpandStep(t, lines, typeID, multiplier, depth, f);
    LinesShape(t, lines, multiplier, depth, f);
  }

  lemma {:induction false} LinesShape(t: Tables, lines: seq<Line>, multiplier: int, depth: int, fuel: nat)
    requires LegacyExpandLines(t, lines, multiplier, depth, fuel).Some?
    ensures forall x :: x in LegacyExpandLines(t, lines, multiplier, depth, fuel).value ==> x.depth >= depth
    ensures RowsAt(LegacyExpandLines(t, lines, multiplier, depth, fuel).value, depth)
            == LegacyLevel(t, lines, multiplier, depth)
    decreases fuel, |lines|
  {
    if |lines| > 0 {
      var y, qty := lines[0].materialTypeID, lines[0].quantity * multiplier;
      var row := Row(DisplayName(t, y), qty, depth);
      var sub := LegacyExpand(t, y, qty, depth + 1, fuel).value;
      var rest := LegacyExpandLines(t, lines[1..], multiplier, depth, fuel).value;
      assert LegacyExpandLines(t, lines, multiplier, depth, fuel).value == [row] + sub + rest;
      assert forall x :: x in sub ==> x.depth > depth by {
        var below := LegacyLines(t, y);
        var f: nat := fuel - 1;
        ExpandStep(t, below, y, qty, depth + 1, f);
        LinesShape(t, below, qty, depth + 1, f);
      }
      LinesShape(t, lines[1..], multiplier, depth, fuel);
      RowsStep(t, lines, multiplier, depth, row, sub, rest);
    }
  }

  lemma {:induction false} RowsAtAppend(a: seq<Row>, b: seq<Row>, d: int)
    ensures RowsAt(a + b, d) == RowsAt(a, d) + RowsAt(b, d)
  {
    if |a| == 0 {
      assert a + b == b;
    } else {
      var head := if a[0].depth == d then [a[0]] else [];
      assert (a + b)[0] == a[0] && (a + b)[1..] == a[1..] + b;
      RowsAtAppend(a[1..], b, d);
      assert RowsAt(a + b, d) == head + (RowsAt(a[1..], d) + RowsAt(b, d));
      assert RowsAt(a, d) == head + RowsAt(a[1..], d);
    }
  }

  lemma {:induction false} RowsAtDeeper(rows: seq<Row>, d: int)
    requires forall x :: x in rows ==> x.depth > d
    ensures RowsAt(rows, d) == []
  {
    if |rows| > 0 {
      RowsAtDeeper(rows[1..], d);
    }
  }

  lemma {:induction false} RowsStep(t: Tables, lines: seq<Line>, multiplier: int, depth: int,
                                    row: Row, deeper: seq<Row>, rest: seq<Row>)
    requires |lines| > 0
    requires row == Row(DisplayName(t, lines[0].materialTypeID), lines[0].quantity * multiplier, depth)
    requires forall x :: x in deeper ==> x.depth > depth
    requires RowsAt(rest, depth) == LegacyLevel(t, lines[1..], multiplier, depth)
    ensures RowsAt([row] + deeper + rest, depth) == LegacyLevel(t, lines, multiplier, depth)
  {
    RowsAtAppend([row] + deeper, rest, depth);
    RowsAtAppend([row], deeper, depth);
    RowsAtDeeper(deeper, depth);
    assert RowsAt([row], depth) == [row] by {
      assert [row][1..] == [];
    }
  }

  // ---- fuel ----

  /** More fuel never changes a finished expansion. */
  lemma ExpandFuelMonotone(t: Tables, typeID: int, multiplier: int, depth: int, fuel: nat, more: nat)
    requires fuel <= more && LegacyExpand(t, typeID, multiplier, depth, fuel).Some?
    ensures LegacyExpand(t, typeID, multiplier, depth, more) == LegacyExpand(t, typeID, multiplier, depth, fuel)
  {
    var f: nat, g: nat := fuel - 1, more - 1;
    var lines := LegacyLines(t, typeID);
    ExpandStep(t, lines, typeID, multiplier, depth, f);
    ExpandStep(t, lines, typeID, multiplier, depth, g);
    LinesFuelMonotone(t, lines, multiplier, depth, f, g);
  }

  lemma {:induction false} LinesFuelMonotone(t: Tables, lines: seq<Line>, multiplier: int, depth: int, fuel: nat, more: nat)
    requires fuel <= more && LegacyExpandLines(t, lines, multiplier, depth, fuel).Some?
    ensures LegacyExpandLines(t, lines, multiplier, depth, more) == LegacyExpandLines(t, lines, multiplier, depth, fuel)
    decreases fuel, |lines|
  {
    if |lines| > 0 {
      var y, qty := lines[0].materialTypeID, lines[0].quantity * multiplier;
      var below := LegacyLines(t, y);
      var f: nat, g: nat := fuel - 1, more - 1;
      assert LegacyExpand(t, y, qty, depth + 1, more) == LegacyExpand(t, y, qty, depth + 1, fuel) by {
        ExpandStep(t, below, y, qty, depth + 1, f);
        ExpandStep(t, below, y, qty, depth + 1, g);
        LinesFuelMonotone(t, below, qty, depth + 1, f, g);
      }
      assert LegacyExpandLines(t, lines[1..], multiplier, depth, more) == LegacyExpandLines(t, lines[1..], multiplier, depth, fuel) by {
        LinesFuelMonotone(t, lines[1..], multiplier, depth, fuel, more);
      }
    }
  }

  /** One call of the expansion is its loop over the id's lines. */
  lemma ExpandStep(t: Tables, lines: seq<Line>, x: int, multiplier: int, depth: int, fuel: nat)
    requires lines == LegacyLines(t, x)
    ensures LegacyExpand(t, x, multiplier, depth, fuel + 1) == LegacyExpandLines(t, lines, multiplier, depth, fuel)
  {
  }

  /** `next` picks, for each of its ids, a line of that id's recipe whose
      material is again one of its ids: a cycle in the recipe table. */
  ghost predicate CycleVia(t: Tables, next: map<int, Line>) {
    forall y :: CycleStep(t, next, y)
  }

  /** The line `next` picks for `y` is in `y`'s recipe and leads to an id
      `next` covers. */
  predicate CycleStep(t: Tables, next: map<int, Line>, y: int) {
    y in next ==> next[y] in LegacyLines(t, y) && next[y].materialTypeID in next
  }

  /** On a cycle the inline expansion never returns, whatever the fuel: in
      the script the awaited nested calls never come to an end. */
  lemma {:induction false} CycleNeverFinishes(t: Tables, next: map<int, Line>, x: int, multiplier: int, depth: int, fuel: nat)
    requires CycleVia(t, next) && x in next
    ensures LegacyExpand(t, x, multiplier, depth, fuel).None?
    decreases fuel
  {
    if fuel > 0 {
      var f: nat := fuel - 1;
      var l := next[x];
      assert CycleStep(t, next, x);
      assert LegacyExpand(t, l.materialTypeID, l.quantity * multiplier, depth + 1, f).None? by {
        CycleNeverFinishes(t, next, l.materialTypeID, l.quantity * multiplier, depth + 1, f);
      }
      StuckStep(t, l, x, multiplier, depth, f);
    }
  }

  /** One stuck line of an id's recipe leaves the id's expansion stuck. */
  lemma StuckStep(t: Tables, l: Line, x: int, multiplier: int, depth: int, fuel: nat)
    requires l in LegacyLines(t, x)
    requires LegacyExpand(t, l.materialTypeID, l.quantity * multiplier, depth + 1, fuel).None?
    ensures LegacyExpand(t, x, multiplier, depth, fuel + 1).None?
  {
    OneStuckLine(t, LegacyLines(t, x), l, multiplier, depth, fuel);
  }

  /** The loop fails when the call below one of its lines fails. */
  lemma {:induction false} OneStuckLine(t: Tables, lines: seq<Line>, stuck: Line, multiplier: int, depth: int, fuel: nat)
    requires stuck in lines
    requires LegacyExpand(t, stuck.materialTypeID, stuck.quantity * multiplier, depth + 1, fuel).None?
    ensures LegacyExpandLines(t, lines, multiplier, depth, fuel).None?
    decreases |lines|
  {
    if lines[0] != stuck {
      OneStuckLine(t, lines[1..], stuck, multiplier, depth, fuel);
    }
  }

  /** A rank that every recipe line strictly descends: the table is acyclic. */
  ghost predicate Ranked(t: Tables, rank: map<int, nat>) {
    forall x :: RankedAt(t, rank, x)
  }

  /** Every line of `x`'s recipe leads to a smaller rank. */
  predicate RankedAt(t: Tables, rank: map<int, nat>, x: int) {
    |LegacyLines(t, x)| > 0 ==>
      x in rank && forall l :: l in LegacyLines(t, x) ==> l.materialTypeID in rank && rank[l.materialTypeID] < rank[x]
  }

  function RankOf(rank: map<int, nat>, x: int): nat {
    if x in rank then rank[x] else 0
  }

  /** On an acyclic table the inline expansion finishes once the fuel
      exceeds the rank of the id. */
  lemma RankedFinishes(t: Tables, rank: map<int, nat>, x: int, multiplier: int, depth: int, fuel: nat)
    requires Ranked(t, rank) && fuel > RankOf(rank, x)
    ensures LegacyExpand(t, x, multiplier, depth, fuel).Some?
    decreases fuel, 0
  {
    var lines := LegacyLines(t, x);
    var f: nat := fuel - 1;
    assert LegacyExpandLines(t, lines, multiplier, depth, f).Some? by {
      RankDescends(t, rank, x);
      AllLinesFinish(t, rank, lines, RankOf(rank, x), multiplier, depth, f);
    }
    ExpandStep(t, lines, x, multiplier, depth, f);
  }

  /** Every line of `lines` leads to a rank below `bound`. */
  predicate Below(rank: map<int, nat>, lines: seq<Line>, bound: nat) {
    forall l :: l in lines ==> RankOf(rank, l.materialTypeID) < bound
  }

  lemma RankDescends(t: Tables, rank: map<int, nat>, x: int)
    requires Ranked(t, rank)
    ensures Below(rank, LegacyLines(t, x), RankOf(rank, x))
  {
    assert RankedAt(t, rank, x);
  }

  lemma {:induction false} AllLinesFinish(t: Tables, rank: map<int, nat>, lines: seq<Line>, bound: nat,
                                          multiplier: int, depth: int, fuel: nat)
    requires Ranked(t, rank) && fuel >= bound
    requires Below(rank, lines, bound)
    ensures LegacyExpandLines(t, lines, multiplier, depth, fuel).Some?
    decreases fuel, 1, |lines|
  {
    if |lines| > 0 {
      assert lines[0] in lines;
      RankedFinishes(t, rank, lines[0].materialTypeID, lines[0].quantity * multiplier, depth + 1, fuel);
      AllLinesFinish(t, rank, lines[1..], bound, multiplier, depth, fuel);
    }
  }


  // ---- resolveAllLayers ----

  /** One `component-block`: the top-level line's label, then its rows. */
  datatype LegacyBlock = LegacyBlock(name: string, qty: int, rows: seq<Row>)

  /** What the output container holds after the inline `resolveAllLayers`:
      the blocks appended so far, and whether the loop reached its end.
      A block is appended only after its expansion returns, so an
      expansion that does not return ends the run with the blocks before
      it already shown. */
  datatype LegacyLayers = LegacyLayers(blocks: seq<LegacyBlock>, finished: bool)

  /** The block of a top-level line whose expansion returned `rows`. */
  predicate LegacyBlockFor(t: Tables, mat: Line, fuel: nat, b: LegacyBlock) {
    && b.name == DisplayName(t, mat.materialTypeID) && b.qty == mat.quantity
    && LegacyExpand(t, mat.materialTypeID, mat.quantity, 1, fuel) == Some(b.rows)
  }

  /** The inline `resolveAllLayers` over the current top-level lines, each
      expanded with `fuel`. */
  function LegacyResolveAll(t: Tables, mats: seq<Line>, fuel: nat): (r: LegacyLayers)
    ensures |r.blocks| <= |mats|
    // the blocks shown are those of the leading lines, in order
    ensures forall i :: 0 <= i < |r.blocks| ==> LegacyBlockFor(t, mats[i], fuel, r.blocks[i])
    // the run stops at the first line whose expansion does not return
    ensures !r.finished ==> |r.blocks| < |mats|
                            && LegacyExpand(t, mats[|r.blocks|].materialTypeID, mats[|r.blocks|].quantity, 1, fuel).None?
    ensures r.finished <==> |r.blocks| == |mats|
    ensures r.finished <==> forall i :: 0 <= i < |mats| ==> LegacyExpand(t, mats[i].materialTypeID, mats[i].quantity, 1, fuel).Some?
  {
    if |mats| == 0 then LegacyLayers([], true)
    else
      var m := mats[0];
      match LegacyExpand(t, m.materialTypeID, m.quantity, 1, fuel)
      case None => LegacyLayers([], false)
      case Some(rows) =>
        var rest := LegacyResolveAll(t, mats[1..], fuel);
        assert forall i :: 1 <= i < |mats| ==> mats[i] == mats[1..][i - 1];
        LegacyLayers([LegacyBlock(DisplayName(t, m.materialTypeID), m.quantity, rows)] + rest.blocks, rest.finished)
  }

  /** On a cyclic recipe table the run stops at the first top-level line
      that enters the cycle: the blocks of the lines before it stay shown,
      and none after it is appended. */
  lemma StopsAtFirstCycle(t: Tables, next: map<int, Line>, mats: seq<Line>, fuel: nat, k: nat)
    requires CycleVia(t, next) && k < |mats| && mats[k].materialTypeID in next
    requires forall i :: 0 <= i < k ==> LegacyExpand(t, mats[i].materialTypeID, mats[i].quantity, 1, fuel).Some?
    ensures !LegacyResolveAll(t, mats, fuel).finished
    ensures |LegacyResolveAll(t, mats, fuel).blocks| == k
  {
    CycleNeverFinishes(t, next, mats[k].materialTypeID, mats[k].quantity, 1, fuel);
  }
}
