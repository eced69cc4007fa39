# EVE production calculator — material-expansion engine in Dafny

This project is a Dafny model of the engine behind the EVE Online
production-calculator shortcode. The user types an item name. The engine
finds the item in a name catalog and lists its manufacturing materials
(activity 1). On request it expands every material recursively into its
own components, and it copies totals per material name in three modes:
`all`, `leaf` and `parent`.

The model covers two scripts.

- The client script `includes/js/production-logic.js`. Its parts:
  - the tax-field sanitiser and the HTML escaper;
  - the tables built by `initializeData`;
  - `isShip`, the walk up the market-group tree;
  - `getChildrenForMaterial`;
  - the seen-guarded recursion `getIndentedMaterialsHTMLUnique` with `resolveAllLayers`;
  - `lookupMaterials` with its blueprint retry;
  - `copyResolvedLayers`.
- The older engine inlined in `eve-production-calculator.php`. Its parts:
  - its reverse name map;
  - `lookupMaterials`, which keeps "Item not found." apart from "No manufacturing materials found.";
  - its `hasExtraLayers` test;
  - the unguarded recursion `getIndentedMaterialsHTML` with `resolveAllLayers`.

All tables are immutable values (`Tables.Tables`). The name catalog is a
sequence of (name, entry) pairs in enumeration order. An entry is a bare
id, kept as `parseInt` gives it for a decimal value, or a record `{typeID, marketGroupID}`.
The HTML the expansion writes is replaced by the sequence of material
nodes it contains, in document order. Each node carries what the copy step
reads back: name, quantity, depth, `has-child`/`is-child` and the ship
flag. The copy step is modelled over that node sequence.

Modules, in dependency order:

- `Wrappers`: `Option`, map reads, filtering.
- `Text`: `trim`, ASCII case folding, `endsWith`, decimal rendering and `parseInt`.
- `Sanitize` and `Escape`: the two string helpers.
- `Tables`: the data model and the table building.
- `Taxonomy`: `isShip`.
- `Resolution`: `getChildrenForMaterial`.
- `Expansion`: the recursion and `resolveAllLayers`.
- `Lookup`: `lookupMaterials`.
- `Aggregate`: `copyResolvedLayers`.
- `Legacy`: the inline PHP engine.

Behaviour of the scripts worth noting:

- **The seen set.** The client script keeps one `seen` map for the whole
  `resolveAllLayers` run. It checks the map for the id being entered, not
  for each child. An id entered once, anywhere, is shown one level deep
  every later time. This is not a per-path or per-branch visited set.
  See `Expansion.RepeatedTopIsShallow` and `Expansion.CycleStopsAfterOneRepeat`.
- **Not found versus no recipe.** The client script does not tell an
  unknown name from a known item without a recipe: both give "No
  manufacturing materials found.". Only the inline PHP engine keeps the
  two apart.
- **Missing parent group.** `isShip` does not answer false on a chain
  whose parent reference points outside the table. The walk stops on the
  missing id and answers by whether that id is "4".
- **Unscaled top-level nodes.** A top-level node of `resolveAllLayers`
  carries the recipe line's quantity unscaled and unfiltered, so it is not
  guaranteed positive.
- **Mode name.** The "intermediate" aggregation mode is called `parent` in
  the code.

## Model

| member | source | states |
|---|---|---|
| Sanitize.Sanitize | eve-production-calculator/includes/js/production-logic.js:17-28 | the sanitised value holds only digits and dots, at most one dot, and never starts with a dot |
| Sanitize.SanitizeMeaning | eve-production-calculator/includes/js/production-logic.js:17-28 | for every input, the result is the digits before the first '.' or ',' (or "0" when there are none), then '.' and every later digit when a separator exists; so only the first comma becomes a dot |
| Sanitize.SanitizeIdempotent | eve-production-calculator/includes/js/production-logic.js:43-50 | sanitising a sanitised value changes nothing, so the input handler writes back at most once |
| Escape.EscapeHtml | eve-production-calculator/includes/js/production-logic.js:66-74 | null gives ""; the output holds no raw `<`, `>`, `"` or `'` |
| Escape.EscapeIsPerCharacter | eve-production-calculator/includes/js/production-logic.js:68-73 | the five global passes, ampersand first, equal escaping each character once on its own: no entity is escaped twice |
| Escape.EscapeRoundTrip | eve-production-calculator/includes/js/production-logic.js:66-74 | decoding the five entities gives the original text back |
| Text.Trim | eve-production-calculator/includes/js/production-logic.js:213 | the trimmed name is a slice of the input with only white space cut on either side, and it neither starts nor ends with white space |
| Text.Lower | eve-production-calculator/includes/js/production-logic.js:235 | case folding keeps the length and folds each character on its own |
| Text.IntToStringRoundTrip | eve-production-calculator/includes/js/production-logic.js:364 | `parseInt` of the decimal text of a quantity, as written into `data-qty`, is that quantity |
| Tables.MaterialMapLastWins | eve-production-calculator/includes/js/production-logic.js:101-104 | an id is a key of materialMap exactly when some dataset entry parses to it, and it holds the lines of the last such entry |
| Tables.NamesLastWins | eve-production-calculator/includes/js/production-logic.js:110-120 | an id is a key of typeIDToName exactly when a full record or a parsable bare value files it, and it holds the name of the last such catalog entry |
| Tables.GroupsLastWins | eve-production-calculator/includes/js/production-logic.js:111-113 | an id has a market group exactly when a record with truthy typeID and marketGroupID files it, and the last such record's group wins |
| Tables.Initialize | eve-production-calculator/includes/js/production-logic.js:111-113 | every id with a market group also has a name |
| Tables.ManufacturingLines | eve-production-calculator/includes/js/production-logic.js:239 | the lines read for an id are its activity-1 lines, and none when the id is missing or not a key |
| Tables.UsableLines | eve-production-calculator/includes/js/production-logic.js:145 | the same, also keeping only positive quantities |
| Tables.KeyLookup | eve-production-calculator/includes/js/production-logic.js:151 | a keyed catalog read succeeds exactly when the key occurs verbatim, and returns that pair's entry |
| Tables.BlueprintId | eve-production-calculator/includes/js/production-logic.js:150-156 | the blueprint id is a non-zero id of an entry whose key is exactly `"<name> Blueprint"` |
| Tables.FindFolded | eve-production-calculator/includes/js/production-logic.js:236 | the match is the first key, in catalog order, whose case-folded form equals the folded input; no key matches when none folds to it |
| Tables.DisplayName | eve-production-calculator/includes/js/production-logic.js:191 | a material shows its catalog name when that is non-empty, otherwise `Type ID: <id>` |
| Taxonomy.IsShip | eve-production-calculator/includes/js/production-logic.js:127-129 | a missing or empty group id, or one that is not a key of marketGroups, is not a ship |
| Taxonomy.IsShipMeaning | eve-production-calculator/includes/js/production-logic.js:127-138 | a group is a ship exactly when it is a key, is not "None", and the chain of parents from it stops on "4", where a chain stops at a group without an entry, without a parent, or whose parent is "None" |
| Taxonomy.WalkSound | eve-production-calculator/includes/js/production-logic.js:131-136 | a walk that finishes has followed a chain of parent links from its start to the group it answers by |
| Taxonomy.WalkComplete | eve-production-calculator/includes/js/production-logic.js:131-136 | every stopping chain is followed to its end by the walk |
| Taxonomy.ChainBound | eve-production-calculator/includes/js/production-logic.js:132-136 | a stopping chain visits at most one more group than the table holds, so the walk's iteration bound loses no finishing walk |
| Taxonomy.IsShipExample | eve-production-calculator/includes/js/production-logic.js:127-138 | group 1361, under 391 under the root 4, is a ship |
| Taxonomy.CyclicChainNeverFinishes | eve-production-calculator/includes/js/production-logic.js:132-136 | on two groups that are each other's parent the walk never stops |
| Taxonomy.CyclicChainIsNotShip | eve-production-calculator/includes/js/production-logic.js:132-137 | on such a cycle the model answers false where the script does not return |
| Resolution.SearchName | eve-production-calculator/includes/js/production-logic.js:141-143 | a given name that is non-empty and not the id's `Type ID: <id>` placeholder is the search name; otherwise the search name is the id's catalog name, present exactly when that name exists and is non-empty; a search name is never empty |
| Resolution.ChildrenForMaterial | eve-production-calculator/includes/js/production-logic.js:140-164 | the result is null or a non-empty list of activity-1 lines with positive quantity; it is null without a usable name; a non-empty direct recipe is returned as is; otherwise only an exact `"<name> Blueprint"` key with a truthy id can supply the lines |
| Resolution.FallbackMeaning | eve-production-calculator/includes/js/production-logic.js:150-163 | when the direct recipe yields nothing, the result is non-null exactly when the first exact `"<name> Blueprint"` key has a truthy id whose recipe has a usable line |
| Resolution.DistinctKeyLookup | eve-production-calculator/includes/js/production-logic.js:151 | on a catalog whose keys are pairwise distinct, a keyed read of any pair's key returns that pair's entry |
| Resolution.BlueprintIdMeaning | eve-production-calculator/includes/js/production-logic.js:150-156 | the blueprint id comes from the first pair keyed exactly `"<name> Blueprint"`: that entry's id when truthy, and none when no key is exactly that |
| Resolution.FirstKeyLookup | eve-production-calculator/includes/js/production-logic.js:151 | a keyed read returns the entry of the first pair with that key, and any such first pair is what it returns |
| Resolution.UnnamedMaterialIsLeaf | eve-production-calculator/includes/js/production-logic.js:141-143 | a material without a catalog name, shown under its placeholder, has no children even when it has a recipe |
| Resolution.WidgetFallsBackToItsBlueprint | eve-production-calculator/includes/js/production-logic.js:140-164 | "Widget" without a recipe resolves to the single line {7, 3} of "Widget Blueprint" |
| Expansion.ExpansionLines | eve-production-calculator/includes/js/production-logic.js:170-181 | a call walks the id's own activity-1 lines, except exactly when it has none, a non-empty name and a truthy `"<name> Blueprint"` id: then it walks that id's activity-1 lines |
| Expansion.ExpansionLinesMeaning | eve-production-calculator/includes/js/production-logic.js:170-181 | for an id without lines and with a name, the lines walked are those of the truthy id of the first pair keyed exactly `"<name> Blueprint"` |
| Expansion.LineNode | eve-production-calculator/includes/js/production-logic.js:186-200 | a line gives a node exactly when quantity × multiplier is positive; the node carries that product, the depth, the display name, `has-child` exactly when the material has children, and the ship flag |
| Expansion.Enter | eve-production-calculator/includes/js/production-logic.js:166-208 | the entered id is recorded in seen, which grows only within the recipe universe; all nodes lie at the call's depth or below with a positive quantity and a name; the nodes at the call's own depth are its lines, scaled and skipped as above, in recipe order |
| Expansion.ExpandLines | eve-production-calculator/includes/js/production-logic.js:186-205 | the loop keeps the same three facts for any list of lines |
| Expansion.ExpandLinesSplit | eve-production-calculator/includes/js/production-logic.js:186-205 | the loop over two runs of lines is the loop over the first, then the loop over the second from the seen set the first left |
| Expansion.NestedUnderLine | eve-production-calculator/includes/js/production-logic.js:186-205 | around each shown line the loop emits the earlier lines' nodes, the line's node, then, when it has children and the loop descends, the full call one level down on its id under its quantity, entered with the seen set the earlier siblings left, then the later lines' nodes |
| Expansion.NestedUnderEntered | eve-production-calculator/includes/js/production-logic.js:166-205 | the same for a call: under each shown line of its recipe it nests the call on that line's id exactly when the line has children and the call's own id was not seen on entry |
| Expansion.EnteredIsSeen | eve-production-calculator/includes/js/production-logic.js:166-205 | every line the loop descends into has its id in the seen set the loop leaves |
| Expansion.SeenOnlyByEntering | eve-production-calculator/includes/js/production-logic.js:166-205 | an id the loop adds to seen was added by the call below one of its lines with children, entered from the seen set the earlier lines left |
| Expansion.EnterSeenMeaning | eve-production-calculator/includes/js/production-logic.js:166-205 | a call adds to seen its own id and only what the calls below its lines with children add, and it adds anything else only when its own id was not already seen |
| Expansion.NoDescentIsOneLevel | eve-production-calculator/includes/js/production-logic.js:202-204 | a call entered with its id already seen emits exactly its own level and records nothing |
| Expansion.LeafLevelIsOneLevel | eve-production-calculator/includes/js/production-logic.js:193-204 | a level without a `has-child` node is all the loop emits, whatever the seen set |
| Expansion.EnteringSeenIdIsShallow | eve-production-calculator/includes/js/production-logic.js:167-168 | entering an id already in seen shows its recipe one level deep and leaves seen unchanged |
| Expansion.TopNode | eve-production-calculator/includes/js/production-logic.js:287-298 | a top-level node has the display name, the line's own quantity, depth 1, and `has-child` exactly when the material has children |
| Expansion.ResolveFrom | eve-production-calculator/includes/js/production-logic.js:285-303 | one block per top-level line, in order; each block holds the line's top node, then nodes at depth 1 or below whose depth-1 level is the line's recipe scaled by its quantity; every top-level id ends up in seen |
| Expansion.ResolveAllLayers | eve-production-calculator/includes/js/production-logic.js:280-303 | a fresh run gives one block per line, each headed by that line's top node, and every element of the output has a non-empty name |
| Expansion.Flatten | eve-production-calculator/includes/js/production-logic.js:360 | the elements of the output are exactly the top node and the nested nodes of each block |
| Expansion.RepeatedTopIsShallow | eve-production-calculator/includes/js/production-logic.js:285-295 | a top-level material whose id was already in seen, or repeats an earlier top-level id, is expanded one level only, because seen is shared by the whole run |
| Expansion.DuplicateTopIsShallow | eve-production-calculator/includes/js/production-logic.js:285-295 | in a fresh run, the second occurrence of a top-level id is expanded one level only |
| Expansion.CycleStopsAfterOneRepeat | eve-production-calculator/includes/js/production-logic.js:166-208 | with A built from 3 B and B from 2 A, expanding A ×5 gives B 15, A 30, B 90 and stops, with seen = {A, B} |
| Lookup.Search | eve-production-calculator/includes/js/production-logic.js:236-239 | a search finds no key exactly when none folds to the input; otherwise it takes the first folding key, that key's id and its activity-1 lines |
| Lookup.HasExtraLayers | eve-production-calculator/includes/js/production-logic.js:259-263 | the resolve step is offered exactly when some root material has children |
| Lookup.LookupMaterials | eve-production-calculator/includes/js/production-logic.js:213-263 | blank input gives the prompt; a shown root is a catalog key equal, up to case, to the input or the input plus " Blueprint", and it has activity-1 lines; `hasExtraLayers` is as above |
| Lookup.DirectMatchWins | eve-production-calculator/includes/js/production-logic.js:235-253 | the first key matching the input up to case, when it has activity-1 lines, is what is shown |
| Lookup.BlueprintRetry | eve-production-calculator/includes/js/production-logic.js:240-248 | when the direct search is unusable and the input does not end in "blueprint", the first key matching `"<input> Blueprint"` is shown if it has lines |
| Lookup.NoMaterialsMeaning | eve-production-calculator/includes/js/production-logic.js:240-253 | "No manufacturing materials found." appears exactly when the input is not blank, the direct search is unusable, and the retry is skipped or unusable too |
| Lookup.WidgetLookup | eve-production-calculator/includes/js/production-logic.js:235-257 | typing "  widget " shows "Widget Blueprint" with its line {7, 3} when "Widget" has no recipe |
| Aggregate.AccumulateMeaning | eve-production-calculator/includes/js/production-logic.js:362-367 | the copied map has an entry for exactly the names set, holding the sum of their quantities |
| Aggregate.AccumulateDistinct | eve-production-calculator/includes/js/production-logic.js:386-388 | each name has one entry |
| Aggregate.AccumulateOrder | eve-production-calculator/includes/js/production-logic.js:386-388 | entries come in first-seen order |
| Aggregate.AccumulatePrefix | eve-production-calculator/includes/js/production-logic.js:333-356 | the entries set by a first loop come first, in the same order, after later loops |
| Aggregate.CurrentItems | eve-production-calculator/includes/js/production-logic.js:319-328 | the fallback sets every top-level line with a non-zero quantity under its display name, and nothing else |
| Aggregate.TopNonShipItems | eve-production-calculator/includes/js/production-logic.js:333-341 | the first parent loop sets every non-ship top-level line with a non-zero quantity, and nothing else |
| Aggregate.CurrentTotals | eve-production-calculator/includes/js/production-logic.js:319-328 | the fallback's total for a name is the sum of the quantities of the top-level lines shown as it, and the name is set exactly when one of them has a non-zero quantity |
| Aggregate.NonShipTotals | eve-production-calculator/includes/js/production-logic.js:333-341 | the first parent loop's total for a name is the sum over the non-ship top-level lines shown as it, set exactly when one of them has a non-zero quantity |
| Aggregate.ScaledTotals | eve-production-calculator/includes/js/production-logic.js:350-355 | one ship's components add, for a name, the ship's quantity (zero counting as one) times the summed quantity of its components shown as it, and set it exactly when one of them is |
| Aggregate.ShipTotals | eve-production-calculator/includes/js/production-logic.js:343-356 | the second parent loop's total for a name sums, over the ship lines, each ship's scale times its components shown as it |
| Aggregate.FallbackModeMeaning | eve-production-calculator/includes/js/production-logic.js:358-370 | `all` before resolving has an entry for exactly the names of top-level lines with a non-zero quantity, holding the sum over the lines shown as it |
| Aggregate.ParentModeMeaning | eve-production-calculator/includes/js/production-logic.js:330-356 | `parent` has an entry for exactly the names of non-ship top-level lines with a non-zero quantity and of ship components, holding the non-ship lines' quantity plus the ships' scaled component quantities |
| Aggregate.CopyResolvedLayers | eve-production-calculator/includes/js/production-logic.js:313-389 | names are distinct; `all` with no elements, and `leaf` with no `is-child` element, copy the top-level lines; `parent` lists the non-ship top-level names first |
| Aggregate.NodeItemsExact | eve-production-calculator/includes/js/production-logic.js:362-367 | reading named elements back gives each element's own name and quantity, in order |
| Aggregate.TotalOfNodes | eve-production-calculator/includes/js/production-logic.js:362-367 | the quantities read for a name sum to the quantities of the elements with that name |
| Aggregate.AllModeMeaning | eve-production-calculator/includes/js/production-logic.js:358-367 | `all` over resolved elements has an entry for exactly the names shown, holding the sum over every element with that name at any depth |
| Aggregate.LeafModeMeaning | eve-production-calculator/includes/js/production-logic.js:372-383 | `leaf` does the same over the elements without children |
| Aggregate.ResolvedOutputIsReadable | eve-production-calculator/includes/js/production-logic.js:358-367 | every element `resolveAllLayers` writes is counted by `all` |
| Aggregate.ParentWithoutShips | eve-production-calculator/includes/js/production-logic.js:330-356 | with no ship among the top-level lines, `parent` copies what `all` copies before resolving |
| Aggregate.ShipAddsScaledComponents | eve-production-calculator/includes/js/production-logic.js:343-356 | a ship top-level line is never copied itself; it adds each of its immediate components, in order, scaled by its quantity, with a zero quantity counting as one |
| Legacy.LegacyInitialize | eve-production-calculator/eve-production-calculator.php:51-65 | the inline tables share the materials map and catalog; an id is named exactly when some catalog value parses to it; there are no market-group tables |
| Legacy.LegacyNamesLastWins | eve-production-calculator/eve-production-calculator.php:62-64 | an id is named exactly when some catalog value parses to it, and the last such entry's name wins |
| Legacy.NamesAgreeOnBareCatalogs | eve-production-calculator/eve-production-calculator.php:59-65 | on a catalog of bare ids the inline and the client reverse maps are equal |
| Legacy.LegacyBlueprintId | eve-production-calculator/eve-production-calculator.php:113-115 | the blueprint id is non-zero and is the parsed value of the exact `"<name> Blueprint"` key |
| Legacy.AnyExtraLayer | eve-production-calculator/eve-production-calculator.php:104-118 | true exactly when some root material has a usable line in its own recipe, or, when named, in its `"<name> Blueprint"` recipe |
| Legacy.LegacyBlueprintIdMeaning | eve-production-calculator/eve-production-calculator.php:113-115 | the blueprint id is the parsed value of the first pair keyed exactly `"<name> Blueprint"` when truthy, and none when no key is exactly that |
| Legacy.ExtraLayerMeaning | eve-production-calculator/eve-production-calculator.php:106-117 | a named root material without a usable line of its own offers a layer exactly when the first `"<name> Blueprint"` pair parses to a truthy id with a usable line, and never when there is no such key |
| Legacy.LegacyLookup | eve-production-calculator/eve-production-calculator.php:68-118 | blank input gives the prompt; "Item not found." exactly when no key folds to the input or the first key, in catalog order, that folds to it has a value parsing to 0 or NaN; otherwise the root is that first key with its parsed id; "No manufacturing materials found." exactly when the root has no activity-1 lines; `hasExtraLayers` as above |
| Legacy.RecordsAreNotFound | eve-production-calculator/eve-production-calculator.php:86-92 | a name whose entry is a record is "not found", since `parseInt` of an object is NaN |
| Legacy.LegacyLines | eve-production-calculator/eve-production-calculator.php:131-139 | the expansion walks the id's own activity-1 lines, except exactly when it has none, a non-empty name and a `"<name> Blueprint"` value parsing to a truthy id: then it walks that id's activity-1 lines |
| Legacy.LegacyLinesMeaning | eve-production-calculator/eve-production-calculator.php:131-139 | for an id without lines and with a name, the lines walked are those of the parsed truthy id of the first pair keyed exactly `"<name> Blueprint"` |
| Legacy.LegacyLevel | eve-production-calculator/eve-production-calculator.php:144-149 | one level is one row per line, with the display name, quantity × multiplier and the depth, in recipe order |
| Legacy.ExpandShape | eve-production-calculator/eve-production-calculator.php:130-153 | a finished expansion lies at its depth or below, and the rows at its depth are its lines, scaled and in order, whatever is nested between them |
| Legacy.LegacySplit | eve-production-calculator/eve-production-calculator.php:144-151 | the loop over two runs of lines gives the rows of the first then those of the second, and fails exactly when either fails |
| Legacy.LegacyNestedUnderLine | eve-production-calculator/eve-production-calculator.php:144-151 | around each line the loop gives the earlier lines' rows, the line's row, the full expansion of its id one level down under the scaled quantity, then the later lines' rows; it fails exactly when one of them fails |
| Legacy.ExpandFuelMonotone | eve-production-calculator/eve-production-calculator.php:130-153 | more fuel never changes a finished expansion |
| Legacy.CycleNeverFinishes | eve-production-calculator/eve-production-calculator.php:144-151 | on a cycle in the recipe table the unguarded recursion never returns, whatever the fuel |
| Legacy.RankedFinishes | eve-production-calculator/eve-production-calculator.php:144-151 | on a table ranked so that every line descends, the recursion finishes once the fuel exceeds the rank |
| Legacy.LegacyResolveAll | eve-production-calculator/eve-production-calculator.php:155-170 | the blocks shown are those of the leading top-level lines, in order, each labelled with the line's display name and quantity and holding its expansion; the run stops at the first line whose expansion does not return, with the earlier blocks already shown, and it reaches the end exactly when every line's expansion returns |
| Legacy.StopsAtFirstCycle | eve-production-calculator/eve-production-calculator.php:160-169 | when the expansions of the first k lines return and line k enters a recipe cycle, exactly k blocks are shown and the run does not reach the end |

## Left out

- Loading and memoisation: the fetches, the async `initializeData` caching and `await` are left out. The tables are parameters that are already loaded.
- The DOM, event listeners, `beforeinput`, paste and `execCommand`, show/hide toggling and clipboard writes are left out. `copyResolvedLayers` is modelled up to the name→quantity map it would copy.
- The blur clamp of the tax fields is left out: it parses floating-point numbers with `Number`.
- `toLocaleString` formatting is left out: it is locale-dependent. Quantities are exact integers, so quantities above 2^53 and non-integer quantities from the data are not modelled.
- Text.Lower: folds ASCII letters only; Unicode `toLowerCase` is not modelled.
- NaN-keyed entries are left out. In the script, a dataset entry whose typeID does not parse is stored under the key "NaN", and a later read with a NaN id would find it. The model drops such entries, and a NaN id reads nothing.
- Bare catalog values are assumed to be decimal. The client's reverse map parses them with `parseInt(value, 10)`, while its lookup, its blueprint reads and the whole inline script call `parseInt(value)` without a radix. The model stores one parse per entry, so a value such as `"0x1A"`, which the two calls read as 0 and 26, is not modelled; `Legacy.NamesAgreeOnBareCatalogs` relies on this.
- A catalog record whose `typeID` is missing or falsy is modelled as typeID 0. Its `marketGroupID`, when missing or falsy, is modelled as "".
- Taxonomy.IsShip: on a cyclic parent chain the script's loop never ends. The model stops after one more iteration than there are groups and answers false, as `Taxonomy.CyclicChainIsNotShip` states.
- Legacy.LegacyExpand: the unguarded recursion is bounded by a fuel parameter that counts how deeply the calls nest, not the depth of the JavaScript call stack, and running out of fuel is `None`. `Legacy.CycleNeverFinishes` and `Legacy.RankedFinishes` say when fuel suffices.
- Legacy.LegacyResolveAll: an expansion that never returns is modelled as running out of fuel, and the loop stops at that line with the earlier blocks already appended. How it fails in the browser is not modelled. `getIndentedMaterialsHTML` is `async`: if every nested call on the way into the cycle runs without returning first (a recipe A = [A]), the call stack overflows and the resulting `RangeError` rejects the promise of `resolveAllLayers`. If some nested call returns first (A = [B, A] with B a leaf), each `await` unwinds the stack, the calls resume one microtask at a time without end, and the promise never settles. The `<h4>` header written before the loop is not modelled either.
- Duplicate catalog keys are not excluded. The keys of the script's catalog object are distinct, while the model's catalog is any sequence of pairs and a keyed read returns the first pair with the key. `Resolution.DistinctKeyLookup` states that on a catalog whose keys are distinct (`Tables.DistinctKeys`) the read returns the entry of whichever pair carries the key.
- The attribute text of the elements is left out. A name containing `"` or `&` is written into `data-name` unescaped, and the browser's attribute parsing of such names is not modelled. The copy step reads back the name the expansion wrote.
- The recursive output container keeps only the latest resolve. Each `resolveAllLayers` run is modelled on its own, from a fresh seen set.
- `includes/production-ui.php`, the WordPress hooks and the PHP output buffering are static markup and glue, and are not part of this model.
