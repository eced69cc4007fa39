/** The three lookup tables the engine reads, as plain immutable values, and
    the table-building step of `initializeData`.

    JavaScript object keys become the keys of Dafny maps; a property read
    that yields `undefined` becomes a missing key.  The name catalog keeps
    its enumeration order (`Object.entries`/`Object.keys`) as a sequence of
    pairs; its keys are distinct, as the keys of any object are, so a keyed
    read takes the first pair with that key. */
module Tables {
  import opened Wrappers
  import opened Text

  /** The activityID of manufacturing. */
  const Manufacturing: int := 1

  /** One recipe line `{materialTypeID, quantity, activityID}`. */
  datatype Line = Line(materialTypeID: int, quantity: int, activityID: int)

  /** A catalog value: a bare id, kept as what `parseInt` makes of it (None
      is NaN), or a record `{typeID, marketGroupID}`.  A record field that is
      missing or falsy is 0 (typeID) or "" (marketGroupID); the group id is
      carried as the string `toString` gives. */
  datatype Entry = Bare(parsed: Option<int>) | Record(typeID: int, marketGroupID: string)

  /** nameToID in enumeration order. */
  type Catalog = seq<(string, Entry)>

  /** One element of the materials dataset: `parseInt(entry.typeID)` (None
      is NaN) and the entry's lines. */
  datatype RecipeEntry = RecipeEntry(typeID: Option<int>, materials: seq<Line>)

  /** The loaded tables.  `marketGroups` maps a group id to its
      `parentGroupID`, None when that field is missing. */
  datatype Tables = Tables(
    materialMap: map<int, seq<Line>>,
    nameToID: Catalog,
    typeIDToName: map<int, string>,
    typeIDToMarketGroup: map<int, string>,
    marketGroups: map<string, Option<string>>)

  // ---- initializeData: the materials table (lines 101-104) ----

  /** `materialMap[parseInt(entry.typeID)] = entry.materials` for every entry
      in order; an entry whose id parses to NaN is dropped. */
  function BuildMaterialMap(data: seq<RecipeEntry>): (m: map<int, seq<Line>>)
  {
    if |data| == 0 then map[]
    else
      var m := BuildMaterialMap(data[..|data| - 1]);
      var e := data[|data| - 1];
      if e.typeID.Some? then m[e.typeID.value := e.materials] else m
  }

  /** Later entries overwrite earlier ones: an id is a key exactly when some
      entry parses to it, and its lines are those of the last such entry. */
  lemma {:induction false} MaterialMapLastWins(data: seq<RecipeEntry>, id: int)
    ensures id in BuildMaterialMap(data) <==> exists i :: 0 <= i < |data| && data[i].typeID == Some(id)
    ensures id in BuildMaterialMap(data) ==>
              exists i :: 0 <= i < |data| && data[i].typeID == Some(id)
                && BuildMaterialMap(data)[id] == data[i].materials
                && forall j :: i < j < |data| ==> data[j].typeID != Some(id)
  {
    MaterialMapKeys(data, id);
    if id in BuildMaterialMap(data) {
      var i := MaterialMapSource(data, id);
    }
  }

  lemma {:induction false} MaterialMapKeys(data: seq<RecipeEntry>, id: int)
    ensures id in BuildMaterialMap(data) <==> exists i :: 0 <= i < |data| && data[i].typeID == Some(id)
  {
    if |data| > 0 {
      var init := data[..|data| - 1];
      MaterialMapKeys(init, id);
      if data[|data| - 1].typeID != Some(id) && exists i :: 0 <= i < |data| && data[i].typeID == Some(id) {
        var i :| 0 <= i < |data| && data[i].typeID == Some(id);
        assert i < |init| && init[i] == data[i];
      }
    }
  }

  /** The entry whose lines an id is filed with. */
  lemma {:induction false} MaterialMapSource(data: seq<RecipeEntry>, id: int) returns (i: nat)
    requires id in BuildMaterialMap(data)
    ensures i < |data| && data[i].typeID == Some(id) && BuildMaterialMap(data)[id] == data[i].materials
    ensures forall j :: i < j < |data| ==> data[j].typeID != Some(id)
  {
    var init := data[..|data| - 1];
    if data[|data| - 1].typeID == Some(id) {
      i := |data| - 1;
    } else {
      assert BuildMaterialMap(data)[id] == BuildMaterialMap(init)[id];
      i := MaterialMapSource(init, id);
      assert data[i] == init[i];
      assert forall j :: i < j < |init| ==> data[j] == init[j];
    }
  }

  // ---- initializeData: the reverse maps (lines 106-121) ----

  /** A record enters both reverse maps only when typeID and marketGroupID
      are both truthy. */
  predicate IsFullRecord(e: Entry) {
    e.Record? && e.typeID != 0 && e.marketGroupID != ""
  }

  /** The id an entry is filed under in typeIDToName: a full record's typeID,
      or a bare value's parse; anything else is `parseInt` of an object,
      which is NaN, and is not filed at all. */
  function ReverseKey(e: Entry): Option<int> {
    if IsFullRecord(e) then Some(e.typeID)
    else if e.Bare? then e.parsed
    else None
  }

  /** typeIDToName, built in catalog order. */
  function BuildNames(cat: Catalog): map<int, string> {
    if |cat| == 0 then map[]
    else
      var m := BuildNames(cat[..|cat| - 1]);
      var k := ReverseKey(cat[|cat| - 1].1);
      if k.Some? then m[k.value := cat[|cat| - 1].0] else m
  }

  /** typeIDToMarketGroup, built in catalog order. */
  function BuildGroups(cat: Catalog): map<int, string> {
    if |cat| == 0 then map[]
    else
      var m := BuildGroups(cat[..|cat| - 1]);
      var e := cat[|cat| - 1].1;
      if IsFullRecord(e) then m[e.typeID := e.marketGroupID] else m
  }

  /** Loading the three datasets yields the tables the engine reads. */
  function Initialize(data: seq<RecipeEntry>, cat: Catalog, groups: map<string, Option<string>>): (t: Tables)
    ensures t.typeIDToMarketGroup.Keys <= t.typeIDToName.Keys
  {
    GroupKeysAreNamed(cat);
    Tables(BuildMaterialMap(data), cat, BuildNames(cat), BuildGroups(cat), groups)
  }

  /** Every id with a market group also has a name: a full record files both. */
  lemma {:induction false} GroupKeysAreNamed(cat: Catalog)
    ensures BuildGroups(cat).Keys <= BuildNames(cat).Keys
  {
    if |cat| > 0 {
      GroupKeysAreNamed(cat[..|cat| - 1]);
    }
  }

  /** typeIDToName: an id is a key exactly when some catalog entry is filed
      under it, and the later entry's name wins. */
  lemma {:induction false} NamesLastWins(cat: Catalog, id: int)
    ensures id in BuildNames(cat) <==> exists i :: 0 <= i < |cat| && ReverseKey(cat[i].1) == Some(id)
    ensures id in BuildNames(cat) ==>
              exists i :: 0 <= i < |cat| && ReverseKey(cat[i].1) == Some(id)
                && BuildNames(cat)[id] == cat[i].0
                && forall j :: i < j < |cat| ==> ReverseKey(cat[j].1) != Some(id)
  {
    NamesKeys(cat, id);
    if id in BuildNames(cat) {
      var i := NamesSource(cat, id);
    }
  }

  lemma {:induction false} NamesKeys(cat: Catalog, id: int)
    ensures id in BuildNames(cat) <==> exists i :: 0 <= i < |cat| && ReverseKey(cat[i].1) == Some(id)
  {
    if |cat| > 0 {
      var init := cat[..|cat| - 1];
      NamesKeys(init, id);
      if ReverseKey(cat[|cat| - 1].1) != Some(id) && exists i :: 0 <= i < |cat| && ReverseKey(cat[i].1) == Some(id) {
        var i :| 0 <= i < |cat| && ReverseKey(cat[i].1) == Some(id);
        assert i < |init| && init[i] == cat[i];
      }
    }
  }

  /** The catalog entry whose name an id is filed with. */
  lemma {:induction false} NamesSource(cat: Catalog, id: int) returns (i: nat)
    requires id in BuildNames(cat)
    ensures i < |cat| && ReverseKey(cat[i].1) == Some(id) && BuildNames(cat)[id] == cat[i].0
    ensures forall j :: i < j < |cat| ==> ReverseKey(cat[j].1) != Some(id)
  {
    var init := cat[..|cat| - 1];
    if ReverseKey(cat[|cat| - 1].1) == Some(id) {
      i := |cat| - 1;
    } else {
      assert BuildNames(cat)[id] == BuildNames(init)[id];
      i := NamesSource(init, id);
      assert cat[i] == init[i];
      assert forall j :: i < j < |init| ==> cat[j] == init[j];
    }
  }

  /** A catalog entry that files a market group for `id`. */
  predicate FilesGroup(e: Entry, id: int) {
    IsFullRecord(e) && e.typeID == id
  }

  /** typeIDToMarketGroup holds the group of the last full record of an id. */
  lemma {:induction false} GroupsLastWins(cat: Catalog, id: int)
    ensures id in BuildGroups(cat) <==> exists i :: 0 <= i < |cat| && FilesGroup(cat[i].1, id)
    ensures id in BuildGroups(cat) ==>
              exists i :: 0 <= i < |cat| && FilesGroup(cat[i].1, id)
                && BuildGroups(cat)[id] == cat[i].1.marketGroupID
                && forall j :: i < j < |cat| ==> !FilesGroup(cat[j].1, id)
  {
    GroupsKeys(cat, id);
    if id in BuildGroups(cat) {
      var i := GroupsSource(cat, id);
    }
  }

  lemma {:induction false} GroupsKeys(cat: Catalog, id: int)
    ensures id in BuildGroups(cat) <==> exists i :: 0 <= i < |cat| && FilesGroup(cat[i].1, id)
  {
    if |cat| > 0 {
      var init := cat[..|cat| - 1];
      GroupsKeys(init, id);
      if !FilesGroup(cat[|cat| - 1].1, id) && exists i :: 0 <= i < |cat| && FilesGroup(cat[i].1, id) {
        var i :| 0 <= i < |cat| && FilesGroup(cat[i].1, id);
        assert i < |init| && init[i] == cat[i];
      }
    }
  }

  /** The full record whose group an id is filed with. */
  lemma {:induction false} GroupsSource(cat: Catalog, id: int) returns (i: nat)
    requires id in BuildGroups(cat)
    ensures i < |cat| && FilesGroup(cat[i].1, id) && BuildGroups(cat)[id] == cat[i].1.marketGroupID
    ensures forall j :: i < j < |cat| ==> !FilesGroup(cat[j].1, id)
  {
    var init := cat[..|cat| - 1];
    if FilesGroup(cat[|cat| - 1].1, id) {
      i := |cat| - 1;
    } else {
      assert BuildGroups(cat)[id] == BuildGroups(init)[id];
      i := GroupsSource(init, id);
      assert cat[i] == init[i];
      assert forall j :: i < j < |init| ==> cat[j] == init[j];
    }
  }

  // ---- reading the tables ----

  predicate IsManufacturing(l: Line) {
    l.activityID == Manufacturing
  }

  /** A line getChildrenForMaterial keeps: manufacturing, positive quantity. */
  predicate IsUsable(l: Line) {
    l.activityID == Manufacturing && l.quantity > 0
  }

  /** `materialMap[id]?.filter(m => m.activityID === 1)`, empty when absent. */
  function ManufacturingLines(t: Tables, id: Option<int>): (r: seq<Line>)
    ensures forall l :: l in r ==> IsManufacturing(l)
    ensures id.Some? && id.value in t.materialMap ==> r == Filter(t.materialMap[id.value], IsManufacturing)
    ensures id.None? || id.value !in t.materialMap ==> r == []
  {
    if id.Some? && id.value in t.materialMap then Filter(t.materialMap[id.value], IsManufacturing) else []
  }

  /** The same with `m.quantity > 0` added to the filter. */
  function UsableLines(t: Tables, id: Option<int>): (r: seq<Line>)
    ensures forall l :: l in r ==> IsUsable(l)
    ensures id.Some? && id.value in t.materialMap ==> r == Filter(t.materialMap[id.value], IsUsable)
    ensures id.None? || id.value !in t.materialMap ==> r == []
  {
    if id.Some? && id.value in t.materialMap then Filter(t.materialMap[id.value], IsUsable) else []
  }

  /** Every material id that occurs in some recipe: the finite universe the
      expansion's `seen` map draws from. */
  ghost function MaterialIds(t: Tables): set<int> {
    set k, l | k in t.materialMap && l in t.materialMap[k] :: l.materialTypeID
  }

  lemma LinesInUniverse(t: Tables, id: Option<int>)
    ensures forall l :: l in ManufacturingLines(t, id) ==> l.materialTypeID in MaterialIds(t)
    ensures forall l :: l in UsableLines(t, id) ==> l.materialTypeID in MaterialIds(t)
  {
    if id.Some? && id.value in t.materialMap {
      var ls := t.materialMap[id.value];
      forall l | l in ls ensures l.materialTypeID in MaterialIds(t) {
        var k := id.value;
        assert k in t.materialMap && l in t.materialMap[k];
      }
    }
  }

  /** The keys of a parsed object are distinct; a catalog read from JSON
      has this shape, and under it a keyed read is unambiguous. */
  predicate DistinctKeys(cat: Catalog) {
    forall i, j :: 0 <= i < j < |cat| ==> cat[i].0 != cat[j].0
  }

  /** `nameToID[key]`: exact, case-sensitive key match. */
  function KeyLookup(cat: Catalog, key: string): (r: Option<Entry>)
    ensures r.Some? <==> exists i :: 0 <= i < |cat| && cat[i].0 == key
    ensures r.Some? ==> exists i :: 0 <= i < |cat| && cat[i].0 == key && cat[i].1 == r.value
  {
    if |cat| == 0 then None
    else if cat[0].0 == key then Some(cat[0].1)
    else
      var r := KeyLookup(cat[1..], key);
      assert forall i :: 1 <= i < |cat| ==> cat[i] == cat[1..][i - 1];
      r
  }

  /** The id an entry stands for in the client script:
      `typeof e === 'object' ? e.typeID : parseInt(e)`. */
  function EntryId(e: Entry): Option<int> {
    match e
    case Bare(p) => p
    case Record(id, _) => Some(id)
  }

  /** Truthiness of a parsed id: 0 and NaN are falsy. */
  function Truthy(id: Option<int>): (r: Option<int>)
    ensures r.Some? <==> id.Some? && id.value != 0
    ensures r.Some? ==> r == id
  {
    if id.Some? && id.value != 0 then id else None
  }

  const BlueprintSuffix: string := " Blueprint"

  /** The id of the `"<name> Blueprint"` entry, when that key exists exactly
      and its id is truthy. */
  function BlueprintId(cat: Catalog, name: string): (r: Option<int>)
    ensures r.Some? ==> r.value != 0
    ensures r.Some? ==> exists i :: 0 <= i < |cat| && cat[i].0 == name + BlueprintSuffix
                                   && EntryId(cat[i].1) == r
  {
    match KeyLookup(cat, name + BlueprintSuffix)
    case None => None
    case Some(e) => Truthy(EntryId(e))
  }

  /** `Object.keys(nameToID).find(k => k.toLowerCase() === lowered)`: the
      index of the first key that folds to `lowered`. */
  function FindFolded(cat: Catalog, lowered: string): (r: Option<nat>)
    ensures r.Some? ==> r.value < |cat| && Lower(cat[r.value].0) == lowered
    ensures forall i :: 0 <= i < |cat| && (r.None? || i < r.value) ==> Lower(cat[i].0) != lowered
  {
    if |cat| == 0 then None
    else if Lower(cat[0].0) == lowered then Some(0)
    else match FindFolded(cat[1..], lowered)
      case None => None
      case Some(k) =>
        assert forall i :: 1 <= i < |cat| ==> cat[i] == cat[1..][i - 1];
        Some(k + 1)
  }

  /** `typeIDToName[id] || \`Type ID: ${id}\``. */
  function DisplayName(t: Tables, id: int): (r: string)
    ensures |r| > 0
    ensures id in t.typeIDToName && t.typeIDToName[id] != "" ==> r == t.typeIDToName[id]
    ensures !(id in t.typeIDToName && t.typeIDToName[id] != "") ==> r == Placeholder(id)
  {
    if id in t.typeIDToName && t.typeIDToName[id] != "" then t.typeIDToName[id] else Placeholder(id)
  }
}
