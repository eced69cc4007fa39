/** The recursive expansion of the client script:
    `getIndentedMaterialsHTMLUnique` and `resolveAllLayers`.

    The HTML the script assembles is replaced by the sequence of material
    nodes it contains, in document order; each node carries what the
    aggregation later reads back (`data-name`, `data-qty`, the `depth-N`,
    `has-child`/`is-child` classes and `data-isship`).  The `seen` map is a
    single set for the whole run, threaded through every call and returned
    from it. */
module Expansion {
  import opened Wrappers
  import opened Text
  import opened Tables
  import opened Taxonomy
  import opened Resolution

  /** One `indented-material` element. */
  datatype Node = Node(name: string, qty: int, depth: int, hasChild: bool, isShip: bool)

  /** The nodes a call emits and the `seen` set after it. */
  datatype Run = Run(nodes: seq<Node>, seen: set<int>)

  /** `isShip(typeIDToMarketGroup[id])`. */
  function ShipFlag(t: Tables, id: int): bool {
    IsShip(t.marketGroups, Get(t.typeIDToMarketGroup, id))
  }

  /** The case in which a call walks the lines of `"<name> Blueprint"`:
      the id has no manufacturing lines of its own, a non-empty name, and
      that key carries a truthy id. */
  predicate FallsBack(t: Tables, typeID: int) {
    && |ManufacturingLines(t, Some(typeID))| == 0
    && typeID in t.typeIDToName && t.typeIDToName[typeID] != ""
    && BlueprintId(t.nameToID, t.typeIDToName[typeID]).Some?
  }

  /** The lines a call expands: the manufacturing lines of the id, or, when
      there are none and the id has a name, those of `"<name> Blueprint"`.
      Unlike `ChildrenForMaterial`, non-positive quantities are kept here. */
  function ExpansionLines(t: Tables, typeID: int): (r: seq<Line>)
    ensures forall l :: l in r ==> IsManufacturing(l) && l.materialTypeID in MaterialIds(t)
    // no direct lines, a non-empty name and a truthy blueprint id: the blueprint's lines
    ensures FallsBack(t, typeID) ==> r == ManufacturingLines(t, BlueprintId(t.nameToID, t.typeIDToName[typeID]))
    // in every other case the id's own lines, possibly none
    ensures !FallsBack(t, typeID) ==> r == ManufacturingLines(t, Some(typeID))
  {
    var direct := ManufacturingLines(t, Some(typeID));
    LinesInUniverse(t, Some(typeID));
    if |direct| == 0 && typeID in t.typeIDToName && t.typeIDToName[typeID] != "" then
      var bp := BlueprintId(t.nameToID, t.typeIDToName[typeID]);
      LinesInUniverse(t, bp);
      if bp.Some? then ManufacturingLines(t, bp) else direct
    else direct
  }

  /** Through the catalog: an id without lines of its own, named `name`,
      walks the lines of the first pair keyed exactly `"<name> Blueprint"`
      when that pair's id is truthy, and nothing otherwise. */
  lemma ExpansionLinesMeaning(t: Tables, typeID: int, i: nat)
    requires |ManufacturingLines(t, Some(typeID))| == 0
    requires typeID in t.typeIDToName && t.typeIDToName[typeID] != ""
    requires i < |t.nameToID| && t.nameToID[i].0 == t.typeIDToName[typeID] + BlueprintSuffix
    requires forall j :: 0 <= j < i ==> t.nameToID[j].0 != t.typeIDToName[typeID] + BlueprintSuffix
    ensures ExpansionLines(t, typeID) == ManufacturingLines(t, Truthy(EntryId(t.nameToID[i].1)))
  {
    BlueprintIdMeaning(t.nameToID, t.typeIDToName[typeID]);
  }

  /** The node a recipe line becomes at `depth` under `multiplier`, or None
      when its scaled quantity is not positive and the line is skipped. */
  function LineNode(t: Tables, mat: Line, multiplier: int, depth: int): (r: Option<Node>)
    ensures r.Some? <==> mat.quantity * multiplier > 0
    ensures r.Some? ==> r.value.qty == mat.quantity * multiplier && r.value.depth == depth
                        && r.value.name == DisplayName(t, mat.materialTypeID)
                        && (r.value.hasChild <==> ChildrenForMaterial(t, mat.materialTypeID, Some(r.value.name)).Some?)
                        && r.value.isShip == ShipFlag(t, mat.materialTypeID)
  {
    var qty := mat.quantity * multiplier;
    if qty <= 0 then None
    else
      var name := DisplayName(t, mat.materialTypeID);
      var children := ChildrenForMaterial(t, mat.materialTypeID, Some(name));
      Some(Node(name, qty, depth, children.Some?, ShipFlag(t, mat.materialTypeID)))
  }

  /** Reference definition of one level: every line in recipe order, scaled,
      with the skipped lines left out, and nothing below it. */
  function LevelNodes(t: Tables, lines: seq<Line>, multiplier: int, depth: int): seq<Node> {
    if |lines| == 0 then []
    else
      var head := match LineNode(t, lines[0], multiplier, depth)
        case None => []
        case Some(n) => [n];
      head + LevelNodes(t, lines[1..], multiplier, depth)
  }

  /** The nodes at exactly depth `d`, in order. */
  function AtDepth(nodes: seq<Node>, d: int): (r: seq<Node>)
    ensures forall n :: n in r ==> n in nodes && n.depth == d
  {
    if |nodes| == 0 then []
    else (if nodes[0].depth == d then [nodes[0]] else []) + AtDepth(nodes[1..], d)
  }

  /** The termination measure: ids of the recipe universe not yet seen, plus
      one for an id outside the universe that is about to be entered. */
  ghost function Unseen(t: Tables, typeID: int, seen: set<int>): nat {
    |MaterialIds(t) - seen| + (if typeID in MaterialIds(t) || typeID in seen then 0 else 1)
  }

  /** `getIndentedMaterialsHTMLUnique(typeID, multiplier, depth, seen)`. */
  function Enter(t: Tables, typeID: int, multiplier: int, depth: int, seen: set<int>): (r: Run)
    // the entered id is recorded, and nothing outside the recipe universe is added
    ensures seen + {typeID} <= r.seen <= seen + {typeID} + MaterialIds(t)
    ensures forall n :: n in r.nodes ==> n.depth >= depth && n.qty > 0 && n.name != ""
    // this call's own level, in recipe order
    ensures AtDepth(r.nodes, depth) == LevelNodes(t, ExpansionLines(t, typeID), multiplier, depth)
    decreases Unseen(t, typeID, seen), 1, 0
  {
    var lines := ExpansionLines(t, typeID);
    RemoveOne(MaterialIds(t), seen, typeID);
    ExpandLines(t, lines, multiplier, depth, typeID !in seen, seen + {typeID})
  }

  /** The loop of `getIndentedMaterialsHTMLUnique` over `lines`;
      `descend` is `!alreadySeen` of the enclosing call. */
  function ExpandLines(t: Tables, lines: seq<Line>, multiplier: int, depth: int, descend: bool, seen: set<int>): (r: Run)
    requires forall l :: l in lines ==> l.materialTypeID in MaterialIds(t)
    ensures seen <= r.seen <= seen + MaterialIds(t)
    ensures forall n :: n in r.nodes ==> n.depth >= depth && n.qty > 0 && n.name != ""
    ensures AtDepth(r.nodes, depth) == LevelNodes(t, lines, multiplier, depth)
    decreases |MaterialIds(t) - seen| + (if descend then 1 else 0), 0, |lines|
  {
    if |lines| == 0 then Run([], seen)
    else
      var mat := lines[0];
      match LineNode(t, mat, multiplier, depth)
      case None =>
        LevelSkip(t, lines, multiplier, depth);
        ExpandLines(t, lines[1..], multiplier, depth, descend, seen)
      case Some(node) =>
        var sub := if node.hasChild && descend then Enter(t, mat.materialTypeID, node.qty, depth + 1, seen) else Run([], seen);
        SubsetCard(MaterialIds(t) - sub.seen, MaterialIds(t) - seen);
        var rest := ExpandLines(t, lines[1..], multiplier, depth, descend, sub.seen);
        RunStep(t, lines, multiplier, depth, seen, MaterialIds(t), node, sub, rest);
        Run([node] + sub.nodes + rest.nodes, rest.seen)
  }

  /** The run of a line that became `node`, followed by what was emitted
      below it and by the run of the later lines, keeps the loop's contract. */
  lemma RunStep(t: Tables, lines: seq<Line>, multiplier: int, depth: int, seen: set<int>, universe: set<int>,
                node: Node, sub: Run, rest: Run)
    requires |lines| > 0 && LineNode(t, lines[0], multiplier, depth) == Some(node)
    requires seen <= sub.seen <= seen + universe && sub.seen <= rest.seen <= sub.seen + universe
    requires forall n :: n in sub.nodes ==> n.depth >= depth + 1 && n.qty > 0 && n.name != ""
    requires forall n :: n in rest.nodes ==> n.depth >= depth && n.qty > 0 && n.name != ""
    requires AtDepth(rest.nodes, depth) == LevelNodes(t, lines[1..], multiplier, depth)
    ensures seen <= rest.seen <= seen + universe
    ensures forall n :: n in [node] + sub.nodes + rest.nodes ==> n.depth >= depth && n.qty > 0 && n.name != ""
    ensures AtDepth([node] + sub.nodes + rest.nodes, depth) == LevelNodes(t, lines, multiplier, depth)
  {
    LevelStep(t, lines, multiplier, depth, node, sub.nodes, rest.nodes);
  }

  /** The level of `[node] + deeper + rest` is the level of `lines` when
      `node` is what the first line becomes and `rest` carries the others. */
  lemma {:induction false} LevelStep(t: Tables, lines: seq<Line>, multiplier: int, depth: int,
                                     node: Node, deeper: seq<Node>, rest: seq<Node>)
    requires |lines| > 0 && LineNode(t, lines[0], multiplier, depth) == Some(node)
    requires forall n :: n in deeper ==> n.depth > depth
    requires AtDepth(rest, depth) == LevelNodes(t, lines[1..], multiplier, depth)
    ensures AtDepth([node] + deeper + rest, depth) == LevelNodes(t, lines, multiplier, depth)
  {
    AtDepthAppend([node] + deeper, rest, depth);
    AtDepthAppend([node], deeper, depth);
    AtDepthDeeper(deeper, depth);
    assert AtDepth([node], depth) == [node] by {
      assert [node][1..] == [];
    }
  }

  lemma {:induction false} LevelSkip(t: Tables, lines: seq<Line>, multiplier: int, depth: int)
    requires |lines| > 0 && LineNode(t, lines[0], multiplier, depth).None?
    ensures LevelNodes(t, lines, multiplier, depth) == LevelNodes(t, lines[1..], multiplier, depth)
  {
  }

  lemma RemoveOne(u: set<int>, seen: set<int>, x: int)
    ensures x in u && x !in seen ==> |u - (seen + {x})| + 1 == |u - seen|
    ensures x !in u || x in seen ==> u - (seen + {x}) == u - seen
  {
    if x in u && x !in seen {
      assert u - seen == (u - (seen + {x})) + {x};
    }
  }

  lemma {:induction false} AtDepthAppend(a: seq<Node>, b: seq<Node>, d: int)
    ensures AtDepth(a + b, d) == AtDepth(a, d) + AtDepth(b, d)
  {
    if |a| == 0 {
      assert a + b == b;
    } else {
      assert (a + b)[1..] == a[1..] + b;
      AtDepthAppend(a[1..], b, d);
    }
  }

  lemma {:induction false} AtDepthDeeper(nodes: seq<Node>, d: int)
    requires forall n :: n in nodes ==> n.depth > d
    ensures AtDepth(nodes, d) == []
  {
    if |nodes| > 0 {
      AtDepthDeeper(nodes[1..], d);
    }
  }

  // ---- what is nested under a node ----

  /** Lines that all lie in the recipe universe. */
  ghost predicate InUniverse(t: Tables, lines: seq<Line>) {
    forall l :: l in lines ==> l.materialTypeID in MaterialIds(t)
  }

  /** What one line contributes to the loop, and the seen set after it:
      nothing when it is skipped; otherwise its node, followed by the call
      one level down when it has children and the loop may descend. */
  function Head(t: Tables, l: Line, multiplier: int, depth: int, descend: bool, seen: set<int>): Run
    requires l.materialTypeID in MaterialIds(t)
  {
    match LineNode(t, l, multiplier, depth)
    case None => Run([], seen)
    case Some(node) =>
      var sub := if node.hasChild && descend then Enter(t, l.materialTypeID, node.qty, depth + 1, seen) else Run([], seen);
      Run([node] + sub.nodes, sub.seen)
  }

  /** The loop is its first line's contribution, then the loop over the
      others from the seen set that line left. */
  lemma {:induction false} ExpandCons(t: Tables, lines: seq<Line>, multiplier: int, depth: int, descend: bool, seen: set<int>)
    requires InUniverse(t, lines) && |lines| > 0
    ensures lines[0].materialTypeID in MaterialIds(t) && InUniverse(t, lines[1..])
    ensures var h := Head(t, lines[0], multiplier, depth, descend, seen);
            var rest := ExpandLines(t, lines[1..], multiplier, depth, descend, h.seen);
            ExpandLines(t, lines, multiplier, depth, descend, seen) == Run(h.nodes + rest.nodes, rest.seen)
  {
    assert lines[0] in lines;
    assert forall l :: l in lines[1..] ==> l in lines;
  }

  lemma AppendAssoc(a: seq<Node>, b: seq<Node>, c: seq<Node>)
    ensures a + (b + c) == (a + b) + c
  {
  }

  lemma UniverseParts(t: Tables, a: seq<Line>, b: seq<Line>)
    requires InUniverse(t, a + b)
    ensures InUniverse(t, a) && InUniverse(t, b)
    ensures |a| > 0 ==> (a + b)[0] == a[0] && (a + b)[1..] == a[1..] + b && |a + b| > 0
  {
    assert forall l :: l in a ==> l in a + b;
    assert forall l :: l in b ==> l in a + b;
    if |a| > 0 {
      assert (a + b)[1..] == a[1..] + b;
    }
  }

  /** The loop over `a + b` is the loop over `a`, then the loop over `b`
      from the seen set that `a` left. */
  lemma {:induction false} ExpandLinesSplit(t: Tables, a: seq<Line>, b: seq<Line>, multiplier: int, depth: int,
                                            descend: bool, seen: set<int>)
    requires InUniverse(t, a + b)
    ensures InUniverse(t, a) && InUniverse(t, b)
    ensures var ra := ExpandLines(t, a, multiplier, depth, descend, seen);
            var rb := ExpandLines(t, b, multiplier, depth, descend, ra.seen);
            ExpandLines(t, a + b, multiplier, depth, descend, seen) == Run(ra.nodes + rb.nodes, rb.seen)
    decreases |a|
  {
    UniverseParts(t, a, b);
    if |a| == 0 {
      assert a + b == b;
    } else {
      var h := Head(t, a[0], multiplier, depth, descend, seen);
      ExpandCons(t, a + b, multiplier, depth, descend, seen);
      ExpandCons(t, a, multiplier, depth, descend, seen);
      ExpandLinesSplit(t, a[1..], b, multiplier, depth, descend, h.seen);
      var ra := ExpandLines(t, a[1..], multiplier, depth, descend, h.seen);
      var rb := ExpandLines(t, b, multiplier, depth, descend, ra.seen);
      AppendAssoc(h.nodes, ra.nodes, rb.nodes);
    }
  }

  /** The loop around its `i`-th line, when that line is shown as `node`:
      the nodes of the earlier lines; then `node`; then, when it has
      children and the loop may descend, the call one level down on the
      line's id under `node`'s quantity, entered with the seen set the
      earlier siblings left; then the later lines, from the seen set that
      call left. */
  lemma NestedUnderLine(t: Tables, lines: seq<Line>, multiplier: int, depth: int, descend: bool, seen: set<int>,
                        i: nat, node: Node)
    requires InUniverse(t, lines)
    requires i < |lines| && LineNode(t, lines[i], multiplier, depth) == Some(node)
    ensures InUniverse(t, lines[..i]) && InUniverse(t, lines[i + 1..])
    ensures var pre := ExpandLines(t, lines[..i], multiplier, depth, descend, seen);
            var sub := if node.hasChild && descend then Enter(t, lines[i].materialTypeID, node.qty, depth + 1, pre.seen)
                       else Run([], pre.seen);
            var post := ExpandLines(t, lines[i + 1..], multiplier, depth, descend, sub.seen);
            ExpandLines(t, lines, multiplier, depth, descend, seen) == Run(pre.nodes + [node] + sub.nodes + post.nodes, post.seen)
  {
    var pre := AroundLine(t, lines, multiplier, depth, descend, seen, i);
    var sub := if node.hasChild && descend then Enter(t, lines[i].materialTypeID, node.qty, depth + 1, pre.seen)
               else Run([], pre.seen);
    var post := ExpandLines(t, lines[i + 1..], multiplier, depth, descend, sub.seen);
    HeadShown(t, lines[i], multiplier, depth, descend, pre.seen, node);
    AppendAssoc4(pre.nodes, [node], sub.nodes, post.nodes);
  }

  lemma HeadShown(t: Tables, l: Line, multiplier: int, depth: int, descend: bool, seen: set<int>, node: Node)
    requires l.materialTypeID in MaterialIds(t) && LineNode(t, l, multiplier, depth) == Some(node)
    ensures var sub := if node.hasChild && descend then Enter(t, l.materialTypeID, node.qty, depth + 1, seen) else Run([], seen);
            Head(t, l, multiplier, depth, descend, seen) == Run([node] + sub.nodes, sub.seen)
  {
  }

  lemma AppendAssoc4(a: seq<Node>, b: seq<Node>, c: seq<Node>, d: seq<Node>)
    ensures a + (b + c + d) == a + b + c + d
  {
  }

  /** The loop split around its `i`-th line: the earlier lines, that
      line's contribution, then the later lines. */
  lemma AroundLine(t: Tables, lines: seq<Line>, multiplier: int, depth: int, descend: bool, seen: set<int>, i: nat)
      returns (pre: Run)
    requires InUniverse(t, lines) && i < |lines|
    ensures InUniverse(t, lines[..i]) && InUniverse(t, lines[i + 1..]) && lines[i].materialTypeID in MaterialIds(t)
    ensures pre == ExpandLines(t, lines[..i], multiplier, depth, descend, seen)
    ensures var h := Head(t, lines[i], multiplier, depth, descend, pre.seen);
            var post := ExpandLines(t, lines[i + 1..], multiplier, depth, descend, h.seen);
            ExpandLines(t, lines, multiplier, depth, descend, seen) == Run(pre.nodes + (h.nodes + post.nodes), post.seen)
  {
    assert lines == lines[..i] + lines[i..];
    ExpandLinesSplit(t, lines[..i], lines[i..], multiplier, depth, descend, seen);
    pre := ExpandLines(t, lines[..i], multiplier, depth, descend, seen);
    ExpandCons(t, lines[i..], multiplier, depth, descend, pre.seen);
    assert lines[i..][0] == lines[i] && lines[i..][1..] == lines[i + 1..];
  }

  /** Every line the loop descends into has its id recorded in seen. */
  lemma EnteredIsSeen(t: Tables, lines: seq<Line>, multiplier: int, depth: int, seen: set<int>, i: nat, node: Node)
    requires InUniverse(t, lines)
    requires i < |lines| && LineNode(t, lines[i], multiplier, depth) == Some(node) && node.hasChild
    ensures lines[i].materialTypeID in ExpandLines(t, lines, multiplier, depth, true, seen).seen
  {
    NestedUnderLine(t, lines, multiplier, depth, true, seen, i, node);
  }

  /** Conversely the seen set grows only by entering: an id the loop adds
      was added by the call below one of its lines with children, entered
      from the seen set the earlier lines left. */
  lemma {:induction false} SeenOnlyByEntering(t: Tables, lines: seq<Line>, multiplier: int, depth: int, descend: bool,
                                              seen: set<int>, x: int) returns (i: nat, node: Node)
    requires InUniverse(t, lines)
    requires x in ExpandLines(t, lines, multiplier, depth, descend, seen).seen && x !in seen
    ensures i < |lines| && LineNode(t, lines[i], multiplier, depth) == Some(node) && node.hasChild && descend
    ensures InUniverse(t, lines[..i])
    ensures x in Enter(t, lines[i].materialTypeID, node.qty, depth + 1,
                       ExpandLines(t, lines[..i], multiplier, depth, descend, seen).seen).seen
    decreases |lines|
  {
    ExpandCons(t, lines, multiplier, depth, descend, seen);
    var h := Head(t, lines[0], multiplier, depth, descend, seen);
    if x in h.seen {
      i, node := 0, LineNode(t, lines[0], multiplier, depth).value;
      assert lines[..0] == [];
    } else {
      var k, n := SeenOnlyByEntering(t, lines[1..], multiplier, depth, descend, h.seen, x);
      i, node := k + 1, n;
      assert lines[1..][k] == lines[i];
      PrefixAfterHead(t, lines, multiplier, depth, descend, seen, k);
    }
  }

  /** A call adds to seen its own id and what the calls below its lines
      with children add; and it descends only when its id was not seen. */
  lemma EnterSeenMeaning(t: Tables, typeID: int, multiplier: int, depth: int, seen: set<int>, x: int)
      returns (i: nat, node: Node)
    requires x in Enter(t, typeID, multiplier, depth, seen).seen && x !in seen && x != typeID
    ensures typeID !in seen
    ensures var lines := ExpansionLines(t, typeID);
            && i < |lines| && LineNode(t, lines[i], multiplier, depth) == Some(node) && node.hasChild
            && InUniverse(t, lines[..i])
            && x in Enter(t, lines[i].materialTypeID, node.qty, depth + 1,
                          ExpandLines(t, lines[..i], multiplier, depth, true, seen + {typeID}).seen).seen
  {
    var lines := ExpansionLines(t, typeID);
    EnterUnfold(t, typeID, multiplier, depth, seen);
    i, node := SeenOnlyByEntering(t, lines, multiplier, depth, typeID !in seen, seen + {typeID}, x);
  }

  /** What a call nests under the `i`-th line of its recipe, shown as
      `node`: when the node has children and the call's own id was not
      seen on entry, the call one level down on that line's id under the
      node's quantity, entered with the seen set the earlier siblings left
      (starting from `seen` plus the call's own id); otherwise nothing. */
  lemma NestedUnderEntered(t: Tables, typeID: int, multiplier: int, depth: int, seen: set<int>, i: nat, node: Node)
    requires i < |ExpansionLines(t, typeID)| && LineNode(t, ExpansionLines(t, typeID)[i], multiplier, depth) == Some(node)
    ensures var lines := ExpansionLines(t, typeID);
            && InUniverse(t, lines[..i]) && InUniverse(t, lines[i + 1..])
            && var descend := typeID !in seen;
               var pre := ExpandLines(t, lines[..i], multiplier, depth, descend, seen + {typeID});
               var sub := if node.hasChild && descend then Enter(t, lines[i].materialTypeID, node.qty, depth + 1, pre.seen)
                          else Run([], pre.seen);
               var post := ExpandLines(t, lines[i + 1..], multiplier, depth, descend, sub.seen);
               Enter(t, typeID, multiplier, depth, seen) == Run(pre.nodes + [node] + sub.nodes + post.nodes, post.seen)
  {
    EnterUnfold(t, typeID, multiplier, depth, seen);
    NestedUnderLine(t, ExpansionLines(t, typeID), multiplier, depth, typeID !in seen, seen + {typeID}, i, node);
  }

  /** The loop over the first `k + 1` lines continues, after the first,
      as the loop over the next `k`. */
  lemma PrefixAfterHead(t: Tables, lines: seq<Line>, multiplier: int, depth: int, descend: bool, seen: set<int>, k: nat)
    requires InUniverse(t, lines) && k < |lines|
    ensures lines[0].materialTypeID in MaterialIds(t) && InUniverse(t, lines[..k + 1]) && InUniverse(t, lines[1..][..k])
    ensures var h := Head(t, lines[0], multiplier, depth, descend, seen);
            ExpandLines(t, lines[..k + 1], multiplier, depth, descend, seen).seen
            == ExpandLines(t, lines[1..][..k], multiplier, depth, descend, h.seen).seen
  {
    assert forall l :: l in lines[..k + 1] ==> l in lines;
    ExpandCons(t, lines[..k + 1], multiplier, depth, descend, seen);
    assert lines[..k + 1][0] == lines[0] && lines[..k + 1][1..] == lines[1..][..k];
  }

  /** A line whose scaled quantity is not positive adds nothing, and the
      later lines continue from the seen set the earlier ones left. */
  lemma SkippedLine(t: Tables, lines: seq<Line>, multiplier: int, depth: int, descend: bool, seen: set<int>, i: nat)
    requires InUniverse(t, lines)
    requires i < |lines| && LineNode(t, lines[i], multiplier, depth).None?
    ensures InUniverse(t, lines[..i]) && InUniverse(t, lines[i + 1..])
    ensures var pre := ExpandLines(t, lines[..i], multiplier, depth, descend, seen);
            var post := ExpandLines(t, lines[i + 1..], multiplier, depth, descend, pre.seen);
            ExpandLines(t, lines, multiplier, depth, descend, seen) == Run(pre.nodes + post.nodes, post.seen)
  {
    var pre := AroundLine(t, lines, multiplier, depth, descend, seen, i);
    var post := ExpandLines(t, lines[i + 1..], multiplier, depth, descend, pre.seen);
    assert [] + post.nodes == post.nodes;
  }

  // ---- resolveAllLayers ----

  /** One `component-block`: the top-level material's node, then what
      expanding it emitted. */
  datatype Block = Block(top: Node, nested: seq<Node>)

  /** The blocks so far and the shared `seen` set. */
  datatype Layers = Layers(blocks: seq<Block>, seen: set<int>)

  /** The depth-1 node of a top-level material: its quantity is the recipe
      line's own, unscaled and unfiltered. */
  function TopNode(t: Tables, mat: Line): (n: Node)
    ensures n.name == DisplayName(t, mat.materialTypeID) && n.qty == mat.quantity && n.depth == 1
    ensures n.hasChild <==> ChildrenForMaterial(t, mat.materialTypeID, Some(n.name)).Some?
  {
    var name := DisplayName(t, mat.materialTypeID);
    Node(name, mat.quantity, 1, ChildrenForMaterial(t, mat.materialTypeID, Some(name)).Some?, ShipFlag(t, mat.materialTypeID))
  }

  /** A block as `resolveAllLayers` builds it for `mat`: the top node, then
      an expansion whose nodes sit at depth 1 or below with readable names
      and whose own level is `mat`'s recipe scaled by its quantity. */
  predicate BlockFor(t: Tables, mat: Line, b: Block) {
    && b.top == TopNode(t, mat)
    && (forall n :: n in b.nested ==> n.depth >= 1 && n.name != "")
    && AtDepth(b.nested, 1) == LevelNodes(t, ExpansionLines(t, mat.materialTypeID), mat.quantity, 1)
  }

  /** The loop of `resolveAllLayers` from a given `seen` set. */
  function ResolveFrom(t: Tables, mats: seq<Line>, seen: set<int>): (r: Layers)
    ensures |r.blocks| == |mats|
    ensures seen <= r.seen
    ensures forall i :: 0 <= i < |mats| ==> mats[i].materialTypeID in r.seen && BlockFor(t, mats[i], r.blocks[i])
    decreases |mats|
  {
    if |mats| == 0 then Layers([], seen)
    else
      var mat := mats[0];
      var sub := Enter(t, mat.materialTypeID, mat.quantity, 1, seen);
      var rest := ResolveFrom(t, mats[1..], sub.seen);
      var first := Block(TopNode(t, mat), sub.nodes);
      FirstBlock(t, mat, sub.nodes);
      ConsAll(mats, first, rest.blocks, (m: Line, b: Block) => m.materialTypeID in rest.seen && BlockFor(t, m, b));
      Layers([first] + rest.blocks, rest.seen)
  }

  /** A relation that holds of the head pair and, shifted by one, of every
      later pair holds pointwise of the whole sequences. */
  lemma ConsAll<A, B>(xs: seq<A>, y: B, ys: seq<B>, p: (A, B) -> bool)
    requires |xs| > 0 && |ys| == |xs| - 1 && p(xs[0], y)
    requires forall i :: 0 <= i < |ys| ==> p(xs[1..][i], ys[i])
    ensures forall i :: 0 <= i < |xs| ==> p(xs[i], ([y] + ys)[i])
  {
    forall i | 0 <= i < |xs|
      ensures p(xs[i], ([y] + ys)[i])
    {
      if i > 0 {
        assert xs[i] == xs[1..][i - 1] && ([y] + ys)[i] == ys[i - 1];
      }
    }
  }

  lemma FirstBlock(t: Tables, mat: Line, nodes: seq<Node>)
    requires forall n :: n in nodes ==> n.depth >= 1 && n.qty > 0 && n.name != ""
    requires AtDepth(nodes, 1) == LevelNodes(t, ExpansionLines(t, mat.materialTypeID), mat.quantity, 1)
    ensures BlockFor(t, mat, Block(TopNode(t, mat), nodes))
  {
  }

  /** `resolveAllLayers` over the current top-level materials, with a fresh
      `seen` map for the run. */
  function ResolveAllLayers(t: Tables, mats: seq<Line>): (r: seq<Block>)
    ensures |r| == |mats|
    ensures forall i :: 0 <= i < |mats| ==> r[i].top == TopNode(t, mats[i])
    // every element of the output carries a name the aggregation can read
    ensures forall n :: n in Flatten(r) ==> n.name != ""
  {
    ResolveFrom(t, mats, {}).blocks
  }

  /** The `.indented-material` elements of the output in document order:
      each block's top node followed by its nested nodes. */
  function Flatten(blocks: seq<Block>): (r: seq<Node>)
    ensures forall n :: n in r <==> exists i :: 0 <= i < |blocks| && (n == blocks[i].top || n in blocks[i].nested)
  {
    if |blocks| == 0 then []
    else
      var rest := Flatten(blocks[1..]);
      assert forall i :: 1 <= i < |blocks| ==> blocks[i] == blocks[1..][i - 1];
      [blocks[0].top] + blocks[0].nested + rest
  }

  // ---- what the shared seen set does ----

  /** A loop that may not descend emits its level and records nothing. */
  lemma {:induction false} NoDescentIsOneLevel(t: Tables, lines: seq<Line>, multiplier: int, depth: int, seen: set<int>)
    requires forall l :: l in lines ==> l.materialTypeID in MaterialIds(t)
    ensures ExpandLines(t, lines, multiplier, depth, false, seen) == Run(LevelNodes(t, lines, multiplier, depth), seen)
  {
    if |lines| > 0 {
      NoDescentIsOneLevel(t, lines[1..], multiplier, depth, seen);
    }
  }

  /** A level without a has-child node is all the loop emits, whatever the
      seen set. */
  lemma {:induction false} LeafLevelIsOneLevel(t: Tables, lines: seq<Line>, multiplier: int, depth: int, descend: bool, seen: set<int>)
    requires forall l :: l in lines ==> l.materialTypeID in MaterialIds(t)
    requires forall n :: n in LevelNodes(t, lines, multiplier, depth) ==> !n.hasChild
    ensures ExpandLines(t, lines, multiplier, depth, descend, seen) == Run(LevelNodes(t, lines, multiplier, depth), seen)
  {
    if |lines| > 0 {
      match LineNode(t, lines[0], multiplier, depth)
      case None =>
        LevelSkip(t, lines, multiplier, depth);
        LeafLevelIsOneLevel(t, lines[1..], multiplier, depth, descend, seen);
      case Some(node) =>
        assert LevelNodes(t, lines, multiplier, depth) == [node] + LevelNodes(t, lines[1..], multiplier, depth);
        LeafLevelIsOneLevel(t, lines[1..], multiplier, depth, descend, seen);
        StayOnLevel(t, lines, multiplier, depth, descend, seen, node);
    }
  }

  /** A line the loop does not descend into adds its node and nothing else. */
  lemma StayOnLevel(t: Tables, lines: seq<Line>, multiplier: int, depth: int, descend: bool, seen: set<int>, node: Node)
    requires forall l :: l in lines ==> l.materialTypeID in MaterialIds(t)
    requires |lines| > 0 && LineNode(t, lines[0], multiplier, depth) == Some(node) && !(node.hasChild && descend)
    ensures var rest := ExpandLines(t, lines[1..], multiplier, depth, descend, seen);
            ExpandLines(t, lines, multiplier, depth, descend, seen) == Run([node] + rest.nodes, rest.seen)
  {
    assert [node] + [] == [node];
  }

  /** Entering an id that is already in the seen set shows its recipe one
      level deep and leaves the set as it was. */
  lemma EnteringSeenIdIsShallow(t: Tables, typeID: int, multiplier: int, depth: int, seen: set<int>)
    requires typeID in seen
    ensures Enter(t, typeID, multiplier, depth, seen) == Run(LevelNodes(t, ExpansionLines(t, typeID), multiplier, depth), seen)
  {
    assert seen + {typeID} == seen;
    NoDescentIsOneLevel(t, ExpansionLines(t, typeID), multiplier, depth, seen);
  }

  /** The seen set spans the whole run: a top-level material whose id was
      entered before (by an earlier block, or anywhere below it) is expanded
      one level only. */
  lemma {:induction false} RepeatedTopIsShallow(t: Tables, mats: seq<Line>, seen: set<int>, j: nat, mat: Line)
    requires j < |mats| && mats[j] == mat
    requires mat.materialTypeID in seen || exists i :: 0 <= i < j && mats[i].materialTypeID == mat.materialTypeID
    ensures ResolveFrom(t, mats, seen).blocks[j].nested == LevelNodes(t, ExpansionLines(t, mat.materialTypeID), mat.quantity, 1)
    decreases j
  {
    if j == 0 {
      FirstRepeated(t, mats, seen);
      assert ResolveFrom(t, mats, seen).blocks[j].nested == LevelNodes(t, ExpansionLines(t, mat.materialTypeID), mat.quantity, 1);
    } else {
      var after := RepeatedLater(t, mats, seen, j, mat);
      RepeatedTopIsShallow(t, mats[1..], after, j - 1, mat);
      assert ResolveFrom(t, mats, seen).blocks[j].nested == LevelNodes(t, ExpansionLines(t, mat.materialTypeID), mat.quantity, 1);
    }
  }

  /** A repeated material after the first is the same repeated material of
      the later lines, resolved with the ids the first block has seen. */
  lemma RepeatedLater(t: Tables, mats: seq<Line>, seen: set<int>, j: nat, mat: Line) returns (after: set<int>)
    requires 0 < j < |mats| && mats[j] == mat
    requires mat.materialTypeID in seen || exists i :: 0 <= i < j && mats[i].materialTypeID == mat.materialTypeID
    ensures mats[1..][j - 1] == mat
    ensures mat.materialTypeID in after || exists i :: 0 <= i < j - 1 && mats[1..][i].materialTypeID == mat.materialTypeID
    ensures ResolveFrom(t, mats, seen).blocks[j] == ResolveFrom(t, mats[1..], after).blocks[j - 1]
  {
    after := Enter(t, mats[0].materialTypeID, mats[0].quantity, 1, seen).seen;
    LaterBlock(t, mats, seen, j);
    SeenOrRepeated(mats, seen, after, j);
  }

  lemma LaterBlock(t: Tables, mats: seq<Line>, seen: set<int>, j: nat)
    requires 0 < j < |mats|
    ensures var sub := Enter(t, mats[0].materialTypeID, mats[0].quantity, 1, seen);
            ResolveFrom(t, mats, seen).blocks[j] == ResolveFrom(t, mats[1..], sub.seen).blocks[j - 1]
  {
    ResolveUnfold(t, mats, seen);
  }

  lemma FirstRepeated(t: Tables, mats: seq<Line>, seen: set<int>)
    requires |mats| > 0 && mats[0].materialTypeID in seen
    ensures ResolveFrom(t, mats, seen).blocks[0].nested
            == LevelNodes(t, ExpansionLines(t, mats[0].materialTypeID), mats[0].quantity, 1)
  {
    ResolveUnfold(t, mats, seen);
    EnteringSeenIdIsShallow(t, mats[0].materialTypeID, mats[0].quantity, 1, seen);
  }

  /** An id that was seen, or repeats an earlier material, is still seen or
      repeated once the first material has been entered. */
  lemma SeenOrRepeated(mats: seq<Line>, seen: set<int>, after: set<int>, j: nat)
    requires 0 < j < |mats| && seen + {mats[0].materialTypeID} <= after
    requires mats[j].materialTypeID in seen || exists i :: 0 <= i < j && mats[i].materialTypeID == mats[j].materialTypeID
    ensures mats[1..][j - 1].materialTypeID in after
            || exists i :: 0 <= i < j - 1 && mats[1..][i].materialTypeID == mats[1..][j - 1].materialTypeID
  {
    assert mats[1..][j - 1] == mats[j];
    if mats[j].materialTypeID !in after {
      var i :| 0 <= i < j && mats[i].materialTypeID == mats[j].materialTypeID;
      assert i > 0;
      assert mats[1..][i - 1] == mats[i];
    }
  }

  /** One step of the loop: the first block, then the later ones from the
      seen set the first expansion left. */
  lemma {:induction false} ResolveUnfold(t: Tables, mats: seq<Line>, seen: set<int>)
    requires |mats| > 0
    ensures var sub := Enter(t, mats[0].materialTypeID, mats[0].quantity, 1, seen);
            ResolveFrom(t, mats, seen).blocks == [Block(TopNode(t, mats[0]), sub.nodes)] + ResolveFrom(t, mats[1..], sub.seen).blocks
  {
  }

  /** The same, for a fresh run. */
  lemma DuplicateTopIsShallow(t: Tables, mats: seq<Line>, i: nat, j: nat)
    requires i < j < |mats| && mats[i].materialTypeID == mats[j].materialTypeID
    ensures ResolveAllLayers(t, mats)[j].nested
            == LevelNodes(t, ExpansionLines(t, mats[j].materialTypeID), mats[j].quantity, 1)
  {
    RepeatedTopIsShallow(t, mats, {}, j, mats[j]);
  }

  // ---- a cyclic recipe table ----

  /** A (id 1) is built from 3 B; B (id 2) is built from 2 A. */
  function CycleTables(): Tables {
    Tables(map[1 := [Line(2, 3, Manufacturing)], 2 := [Line(1, 2, Manufacturing)]],
           [("A", Bare(Some(1))), ("B", Bare(Some(2)))],
           map[1 := "A", 2 := "B"], map[], map[])
  }

  lemma CycleLevel(id: int, other: int, name: string, qty: int, multiplier: int, depth: int)
    requires (id, other, name, qty) == (1, 2, "B", 3) || (id, other, name, qty) == (2, 1, "A", 2)
    requires multiplier > 0
    ensures LineNode(CycleTables(), Line(other, qty, Manufacturing), multiplier, depth)
            == Some(Node(name, qty * multiplier, depth, true, false))
    ensures ExpansionLines(CycleTables(), id) == [Line(other, qty, Manufacturing)]
  {
    var t := CycleTables();
    var l := Line(other, qty, Manufacturing);
    assert [l][1..] == [];
    assert Placeholder(other) != name by {
      assert Placeholder(other)[0] == 'T';
    }
    var lo := Line(id, if qty == 3 then 2 else 3, Manufacturing);
    assert [lo][1..] == [];
    assert UsableLines(t, Some(other)) == [lo];
  }

  /** A one-line loop that descends: the node, then the call below it. */
  lemma DescendOneLine(t: Tables, l: Line, multiplier: int, depth: int, seen: set<int>, node: Node)
    requires l.materialTypeID in MaterialIds(t)
    requires LineNode(t, l, multiplier, depth) == Some(node) && node.hasChild
    ensures var sub := Enter(t, l.materialTypeID, node.qty, depth + 1, seen);
            ExpandLines(t, [l], multiplier, depth, true, seen) == Run([node] + sub.nodes, sub.seen)
  {
    assert [l][1..] == [];
    var sub := Enter(t, l.materialTypeID, node.qty, depth + 1, seen);
    GoDown(t, [l], multiplier, depth, seen, node);
    assert ExpandLines(t, [], multiplier, depth, true, sub.seen) == Run([], sub.seen);
    assert [node] + sub.nodes + [] == [node] + sub.nodes;
  }

  /** A line the loop descends into adds its node, then the call below it. */
  lemma GoDown(t: Tables, lines: seq<Line>, multiplier: int, depth: int, seen: set<int>, node: Node)
    requires forall l :: l in lines ==> l.materialTypeID in MaterialIds(t)
    requires |lines| > 0 && LineNode(t, lines[0], multiplier, depth) == Some(node) && node.hasChild
    ensures var sub := Enter(t, lines[0].materialTypeID, node.qty, depth + 1, seen);
            var rest := ExpandLines(t, lines[1..], multiplier, depth, true, sub.seen);
            ExpandLines(t, lines, multiplier, depth, true, seen) == Run([node] + sub.nodes + rest.nodes, rest.seen)
  {
  }

  lemma CycleUniverse(t: Tables)
    requires t == CycleTables()
    ensures 1 in MaterialIds(t) && 2 in MaterialIds(t)
  {
    assert Line(2, 3, Manufacturing) in t.materialMap[1];
    assert Line(1, 2, Manufacturing) in t.materialMap[2];
  }

  /** The second A, already seen: its B is shown at depth 3 and not entered. */
  lemma CycleInner(t: Tables, seen: set<int>)
    requires t == CycleTables() && seen == {1, 2}
    ensures Enter(t, 1, 30, 3, seen) == Run([Node("B", 90, 3, true, false)], seen)
  {
    CycleLevel(1, 2, "B", 3, 30, 3);
    EnteringSeenIdIsShallow(t, 1, 30, 3, seen);
    assert LevelNodes(t, [Line(2, 3, Manufacturing)], 30, 3) == [Node("B", 90, 3, true, false)];
  }

  /** B entered with A seen: A is shown at depth 2 and entered once more. */
  lemma CycleMiddle(t: Tables, seen: set<int>)
    requires t == CycleTables() && seen == {1}
    ensures Enter(t, 2, 15, 2, seen) == Run([Node("A", 30, 2, true, false), Node("B", 90, 3, true, false)], {1, 2})
  {
    CycleUniverse(t);
    CycleLevel(2, 1, "A", 2, 15, 2);
    CycleInner(t, {1, 2});
    DescendOneLine(t, Line(1, 2, Manufacturing), 15, 2, {1, 2}, Node("A", 30, 2, true, false));
    assert seen + {2} == {1, 2};
  }

  /** Expanding A under multiplier 5 descends A -> B -> A and then stops:
      the second A is already seen, so its B is shown but not entered. */
  lemma CycleStopsAfterOneRepeat(t: Tables, seen: set<int>)
    requires t == CycleTables() && seen == {}
    ensures Enter(t, 1, 5, 1, seen)
            == Run([Node("B", 15, 1, true, false), Node("A", 30, 2, true, false), Node("B", 90, 3, true, false)], {1, 2})
  {
    CycleOuter(t, seen);
    CycleMiddle(t, {1});
  }

  /** A entered first: B is shown at depth 1 and entered. */
  lemma CycleOuter(t: Tables, seen: set<int>)
    requires t == CycleTables() && seen == {}
    ensures Enter(t, 1, 5, 1, seen) == Run([Node("B", 15, 1, true, false)] + Enter(t, 2, 15, 2, {1}).nodes, Enter(t, 2, 15, 2, {1}).seen)
  {
    var lines := [Line(2, 3, Manufacturing)];
    CycleUniverse(t);
    CycleLevel(1, 2, "B", 3, 5, 1);
    EnterUnfold(t, 1, 5, 1, seen);
    assert seen + {1} == {1};
    DescendOneLine(t, lines[0], 5, 1, {1}, Node("B", 15, 1, true, false));
  }

  lemma {:induction false} EnterUnfold(t: Tables, typeID: int, multiplier: int, depth: int, seen: set<int>)
    ensures Enter(t, typeID, multiplier, depth, seen)
            == ExpandLines(t, ExpansionLines(t, typeID), multiplier, depth, typeID !in seen, seen + {typeID})
  {
  }
}
