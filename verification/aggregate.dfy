/** `copyResolvedLayers`: the three copy modes, modelled over the node
    sequence the expansion emits and the current top-level lines.  The
    result is the contents of `allMap` in insertion order; the text the
    script puts on the clipboard is one "<name> x<qty>" line per entry,
    and nothing is copied when the map is empty. */
module Aggregate {
  import opened Wrappers
  import opened Text
  import opened Tables
  import opened Resolution
  import opened Expansion

  /** One `allMap.set(name, (allMap.get(name) || 0) + qty)`. */
  type Item = (string, int)

  /** The entries of `allMap`, in insertion order. */
  type Tally = seq<Item>

  datatype Mode = Parent | All | Leaf

  // ---- the insertion-ordered map ----

  function Keys(c: Tally): (r: seq<string>)
    ensures |r| == |c| && forall i :: 0 <= i < |c| ==> r[i] == c[i].0
  {
    if |c| == 0 then [] else [c[0].0] + Keys(c[1..])
  }

  /** `allMap.get(name)`. */
  function Find(c: Tally, name: string): Option<int> {
    if |c| == 0 then None
    else if c[0].0 == name then Some(c[0].1)
    else Find(c[1..], name)
  }

  /** `allMap.set(name, (allMap.get(name) || 0) + qty)`: an existing entry
      is updated in place, a new one goes to the end. */
  function Add(c: Tally, name: string, qty: int): (r: Tally) {
    if |c| == 0 then [(name, qty)]
    else if c[0].0 == name then [(name, c[0].1 + qty)] + c[1..]
    else [c[0]] + Add(c[1..], name, qty)
  }

  /** The map after setting every item in order. */
  function Accumulate(items: seq<Item>): Tally {
    if |items| == 0 then []
    else Add(Accumulate(items[..|items| - 1]), items[|items| - 1].0, items[|items| - 1].1)
  }

  // ---- reference definitions ----

  /** The sum of the quantities given for `name`. */
  function Total(items: seq<Item>, name: string): int {
    if |items| == 0 then 0
    else Total(items[..|items| - 1], name) + (if items[|items| - 1].0 == name then items[|items| - 1].1 else 0)
  }

  predicate Mentions(items: seq<Item>, name: string) {
    exists i :: 0 <= i < |items| && items[i].0 == name
  }

  predicate Distinct(s: seq<string>) {
    forall i, j :: 0 <= i < j < |s| ==> s[i] != s[j]
  }

  lemma {:induction false} FindKeys(c: Tally, name: string)
    ensures Find(c, name).Some? <==> name in Keys(c)
  {
    if |c| > 0 {
      FindKeys(c[1..], name);
      assert Keys(c) == [c[0].0] + Keys(c[1..]);
    }
  }

  lemma {:induction false} AddFind(c: Tally, name: string, qty: int, other: string)
    ensures Find(Add(c, name, qty), other) ==
              if other == name then Some((if Find(c, name).Some? then Find(c, name).value else 0) + qty)
              else Find(c, other)
  {
    if |c| > 0 && c[0].0 != name {
      AddFind(c[1..], name, qty, other);
    }
  }

  lemma {:induction false} AddKeys(c: Tally, name: string, qty: int)
    ensures Keys(Add(c, name, qty)) == if name in Keys(c) then Keys(c) else Keys(c) + [name]
  {
    if |c| > 0 {
      AddKeys(c[1..], name, qty);
      assert Keys(c) == [c[0].0] + Keys(c[1..]);
      if c[0].0 == name {
        assert Keys(Add(c, name, qty)) == [name] + Keys(c[1..]);
      } else {
        assert Keys(Add(c, name, qty)) == [c[0].0] + Keys(Add(c[1..], name, qty));
      }
    }
  }

  lemma {:induction false} TotalAbsent(items: seq<Item>, name: string)
    requires !Mentions(items, name)
    ensures Total(items, name) == 0
  {
    if |items| > 0 {
      var init := items[..|items| - 1];
      assert !Mentions(init, name) by {
        forall i | 0 <= i < |init| ensures init[i].0 != name {
          assert init[i] == items[i];
        }
      }
      TotalAbsent(init, name);
    }
  }

  /** The map holds an entry for exactly the names mentioned, and its value
      is the sum of their quantities. */
  lemma {:induction false} AccumulateMeaning(items: seq<Item>, name: string)
    ensures Find(Accumulate(items), name) == if Mentions(items, name) then Some(Total(items, name)) else None
  {
    if |items| > 0 {
      var init := items[..|items| - 1];
      var last := items[|items| - 1];
      AccumulateMeaning(init, name);
      AddFind(Accumulate(init), last.0, last.1, name);
      assert Mentions(items, name) <==> Mentions(init, name) || last.0 == name by {
        if Mentions(items, name) && last.0 != name {
          var i :| 0 <= i < |items| && items[i].0 == name;
          assert init[i] == items[i];
        }
        if Mentions(init, name) {
          var i :| 0 <= i < |init| && init[i].0 == name;
          assert items[i] == init[i];
        }
      }
      if last.0 == name && !Mentions(init, name) {
        TotalAbsent(init, name);
      }
    }
  }

  /** Each name has one entry. */
  lemma {:induction false} AccumulateDistinct(items: seq<Item>)
    ensures Distinct(Keys(Accumulate(items)))
  {
    if |items| > 0 {
      var init := items[..|items| - 1];
      var last := items[|items| - 1];
      AccumulateDistinct(init);
      AddKeys(Accumulate(init), last.0, last.1);
    }
  }

  /** The entries of a prefix of the items come first, in the same order. */
  lemma {:induction false} AccumulatePrefix(a: seq<Item>, b: seq<Item>)
    ensures Keys(Accumulate(a)) <= Keys(Accumulate(a + b))
    decreases |b|
  {
    if |b| > 0 {
      var ab := a + b;
      var init := b[..|b| - 1];
      var last := ab[|ab| - 1];
      assert ab[..|ab| - 1] == a + init;
      assert Accumulate(ab) == Add(Accumulate(a + init), last.0, last.1);
      AccumulatePrefix(a, init);
      var before := Keys(Accumulate(a + init));
      AddKeys(Accumulate(a + init), last.0, last.1);
      assert before <= Keys(Accumulate(ab));
    } else {
      assert a + b == a;
    }
  }

  /** The position of the first item naming `name`. */
  function FirstMention(items: seq<Item>, name: string): (r: nat)
    requires Mentions(items, name)
    ensures r < |items| && items[r].0 == name
    ensures forall i :: 0 <= i < r ==> items[i].0 != name
  {
    if items[0].0 == name then 0
    else
      assert Mentions(items[1..], name) by {
        var i :| 0 <= i < |items| && items[i].0 == name;
        assert items[1..][i - 1] == items[i];
      }
      var k := FirstMention(items[1..], name);
      assert forall i :: 1 <= i <= k ==> items[i] == items[1..][i - 1];
      k + 1
  }

  /** Entries are in first-seen order: an earlier entry's name was first
      mentioned before a later entry's. */
  lemma {:induction false} AccumulateOrder(items: seq<Item>, i: nat, j: nat)
    requires i < j < |Accumulate(items)|
    ensures Mentions(items, Keys(Accumulate(items))[i]) && Mentions(items, Keys(Accumulate(items))[j])
    ensures FirstMention(items, Keys(Accumulate(items))[i]) < FirstMention(items, Keys(Accumulate(items))[j])
  {
    var ks := Keys(Accumulate(items));
    AccumulateMeaning(items, ks[i]);
    AccumulateMeaning(items, ks[j]);
    FindKeys(Accumulate(items), ks[i]);
    FindKeys(Accumulate(items), ks[j]);
    var init := items[..|items| - 1];
    var last := items[|items| - 1];
    AddKeys(Accumulate(init), last.0, last.1);
    var ki := Keys(Accumulate(init));
    MentionsOfInit(items, ks[i]);
    MentionsOfInit(items, ks[j]);
    if j < |ki| {
      AccumulateOrder(init, i, j);
    } else {
      // the last entry is new: its name is mentioned only by the last item
      assert ks[j] == last.0 && last.0 !in ki;
      AccumulateMeaning(init, last.0);
      FindKeys(Accumulate(init), last.0);
      AccumulateMeaning(init, ks[i]);
      FindKeys(Accumulate(init), ks[i]);
      assert ks[i] == ki[i];
    }
  }

  /** A name mentioned in all items but the last is first mentioned there. */
  lemma MentionsOfInit(items: seq<Item>, name: string)
    requires |items| > 0
    ensures var init := items[..|items| - 1];
            Mentions(init, name) ==> Mentions(items, name) && FirstMention(items, name) == FirstMention(init, name)
    ensures var init := items[..|items| - 1];
            Mentions(items, name) && !Mentions(init, name) ==> FirstMention(items, name) == |items| - 1
  {
    var init := items[..|items| - 1];
    if Mentions(init, name) {
      var k := FirstMention(init, name);
      assert items[k] == init[k];
      assert forall i :: 0 <= i < k ==> items[i] == init[i];
    }
    if Mentions(items, name) && !Mentions(init, name) {
      var k := FirstMention(items, name);
    }
  }

  // ---- what each mode sets ----

  /** `copyFromCurrentMaterials`: every top-level line under its display
      name, skipping a zero quantity (`!qty`). */
  function CurrentItems(t: Tables, mats: seq<Line>): (r: seq<Item>)
    ensures |r| <= |mats|
    // every line with a non-zero quantity is set, and nothing else
    ensures forall i :: 0 <= i < |mats| && mats[i].quantity != 0 ==>
              (DisplayName(t, mats[i].materialTypeID), mats[i].quantity) in r
    ensures forall x :: x in r ==> x.1 != 0 && exists i :: 0 <= i < |mats| && x == (DisplayName(t, mats[i].materialTypeID), mats[i].quantity)
  {
    if |mats| == 0 then []
    else
      var m := mats[0];
      var rest := CurrentItems(t, mats[1..]);
      assert forall i :: 1 <= i < |mats| ==> mats[i] == mats[1..][i - 1];
      (if m.quantity == 0 then [] else [(DisplayName(t, m.materialTypeID), m.quantity)]) + rest
  }

  /** The first loop of the parent mode: non-ship top-level lines only. */
  function TopNonShipItems(t: Tables, mats: seq<Line>): (r: seq<Item>)
    ensures |r| <= |mats|
    // every non-ship line with a non-zero quantity is set, and nothing else
    ensures forall i :: 0 <= i < |mats| && mats[i].quantity != 0 && !ShipFlag(t, mats[i].materialTypeID) ==>
              (DisplayName(t, mats[i].materialTypeID), mats[i].quantity) in r
    ensures forall x :: x in r ==>
              x.1 != 0 && exists i :: 0 <= i < |mats| && !ShipFlag(t, mats[i].materialTypeID)
                                      && x == (DisplayName(t, mats[i].materialTypeID), mats[i].quantity)
  {
    if |mats| == 0 then []
    else
      var m := mats[0];
      var here := if ShipFlag(t, m.materialTypeID) || m.quantity == 0 then [] else [(DisplayName(t, m.materialTypeID), m.quantity)];
      var rest := TopNonShipItems(t, mats[1..]);
      assert forall i :: 1 <= i < |mats| ==> mats[i] == mats[1..][i - 1];
      here + rest
  }

  /** One ship's immediate components: `(c.quantity || 0) * (mat.quantity || 1)`,
      skipping a zero product. */
  function ScaledChildren(t: Tables, children: seq<Line>, shipQty: int): seq<Item> {
    if |children| == 0 then []
    else
      var c := children[0];
      var q := c.quantity * (if shipQty == 0 then 1 else shipQty);
      (if q == 0 then [] else [(DisplayName(t, c.materialTypeID), q)]) + ScaledChildren(t, children[1..], shipQty)
  }

  /** The second loop of the parent mode: the components of each ship
      top-level line, in order; a ship without components adds nothing. */
  function ShipChildItems(t: Tables, mats: seq<Line>): seq<Item> {
    if |mats| == 0 then []
    else
      var m := mats[0];
      var here := if !ShipFlag(t, m.materialTypeID) then []
                  else match ChildrenForMaterial(t, m.materialTypeID, Some(DisplayName(t, m.materialTypeID)))
                    case None => []
                    case Some(cs) => ScaledChildren(t, cs, m.quantity);
      here + ShipChildItems(t, mats[1..])
  }

  /** What the `all` and `leaf` modes read from a list of elements:
      `data-name`, and `parseInt(data-qty, 10)` of the quantity the
      expansion wrote there; an element without a name or with an
      unparsable quantity is skipped. */
  function NodeItems(nodes: seq<Node>): seq<Item> {
    if |nodes| == 0 then []
    else
      var n := nodes[0];
      var qty := ParseInt(IntToString(n.qty));
      (if n.name == "" || qty.None? then [] else [(n.name, qty.value)]) + NodeItems(nodes[1..])
  }

  /** `.indented-material.is-child`: the elements without children. */
  function Leaves(nodes: seq<Node>): (r: seq<Node>)
    ensures forall n :: n in r <==> n in nodes && !n.hasChild
  {
    if |nodes| == 0 then []
    else (if nodes[0].hasChild then [] else [nodes[0]]) + Leaves(nodes[1..])
  }

  /** `copyResolvedLayers(mode)`.  `mats` is `currentMaterials`; `nodes` are
      the `.indented-material` elements of the resolved output, empty when
      the layers were not resolved. */
  function CopyResolvedLayers(t: Tables, mode: Mode, mats: seq<Line>, nodes: seq<Node>): (r: Tally)
    ensures Distinct(Keys(r))
    // without resolved elements `all` copies the top-level lines
    ensures mode == All && |nodes| == 0 ==> r == Accumulate(CurrentItems(t, mats))
    ensures mode == Leaf && |Leaves(nodes)| == 0 ==> r == Accumulate(CurrentItems(t, mats))
    // `parent` lists the non-ship top-level names first
    ensures mode == Parent ==> Keys(Accumulate(TopNonShipItems(t, mats))) <= Keys(r)
  {
    var items := match mode
      case Parent =>
        if |mats| == 0 then [] else TopNonShipItems(t, mats) + ShipChildItems(t, mats)
      case All =>
        if |nodes| > 0 then NodeItems(nodes) else if |mats| == 0 then [] else CurrentItems(t, mats)
      case Leaf =>
        var leaves := Leaves(nodes);
        if |leaves| == 0 then (if |mats| == 0 then [] else CurrentItems(t, mats)) else NodeItems(leaves);
    AccumulateDistinct(items);
    AccumulatePrefix(TopNonShipItems(t, mats), ShipChildItems(t, mats));
    Accumulate(items)
  }

  // ---- properties of the modes ----

  /** Every node as its name and quantity, in order. */
  function Pairs(nodes: seq<Node>): (r: seq<Item>)
    ensures |r| == |nodes|
    ensures forall i :: 0 <= i < |nodes| ==> r[i] == (nodes[i].name, nodes[i].qty)
  {
    if |nodes| == 0 then []
    else
      var rest := Pairs(nodes[1..]);
      assert forall i :: 1 <= i < |nodes| ==> nodes[i] == nodes[1..][i - 1];
      [(nodes[0].name, nodes[0].qty)] + rest
  }

  /** Reading the elements back loses nothing: every named element
      contributes its own name and quantity, in order. */
  lemma {:induction false} NodeItemsExact(nodes: seq<Node>)
    requires forall n :: n in nodes ==> n.name != ""
    ensures NodeItems(nodes) == Pairs(nodes)
  {
    if |nodes| > 0 {
      assert nodes[0] in nodes;
      NodeItemsCons(nodes);
      assert forall n :: n in nodes[1..] ==> n in nodes;
      NodeItemsExact(nodes[1..]);
    }
  }

  /** A named element reads back as its own name and quantity. */
  lemma {:induction false} NodeItemsCons(nodes: seq<Node>)
    requires |nodes| > 0 && nodes[0].name != ""
    ensures NodeItems(nodes) == [(nodes[0].name, nodes[0].qty)] + NodeItems(nodes[1..])
  {
    IntToStringRoundTrip(nodes[0].qty);
  }

  /** The quantity of the named nodes. */
  function NodeTotal(nodes: seq<Node>, name: string): int {
    if |nodes| == 0 then 0
    else NodeTotal(nodes[..|nodes| - 1], name) + (if nodes[|nodes| - 1].name == name then nodes[|nodes| - 1].qty else 0)
  }

  /** Items that pair up with the nodes one by one total alike. */
  lemma {:induction false} PointwiseTotal(items: seq<Item>, nodes: seq<Node>, name: string)
    requires |items| == |nodes| && forall i :: 0 <= i < |nodes| ==> items[i] == (nodes[i].name, nodes[i].qty)
    ensures Total(items, name) == NodeTotal(nodes, name)
  {
    if |nodes| > 0 {
      PointwiseTotal(items[..|items| - 1], nodes[..|nodes| - 1], name);
    }
  }

  lemma TotalOfNodes(nodes: seq<Node>, name: string)
    requires forall n :: n in nodes ==> n.name != ""
    ensures Total(NodeItems(nodes), name) == NodeTotal(nodes, name)
    ensures Mentions(NodeItems(nodes), name) <==> exists n :: n in nodes && n.name == name
  {
    NodeItemsExact(nodes);
    PointwiseTotal(NodeItems(nodes), nodes, name);
    if exists n :: n in nodes && n.name == name {
      var n :| n in nodes && n.name == name;
      var i :| 0 <= i < |nodes| && nodes[i] == n;
      assert NodeItems(nodes)[i].0 == name;
    }
  }

  /** `all` over resolved elements: one entry per name shown anywhere in
      the output, holding the sum over every element with that name. */
  lemma AllModeMeaning(t: Tables, mats: seq<Line>, nodes: seq<Node>, name: string)
    requires |nodes| > 0 && forall n :: n in nodes ==> n.name != ""
    ensures Find(CopyResolvedLayers(t, All, mats, nodes), name) ==
              if exists n :: n in nodes && n.name == name then Some(NodeTotal(nodes, name)) else None
  {
    AccumulateMeaning(NodeItems(nodes), name);
    TotalOfNodes(nodes, name);
  }

  /** `leaf` over resolved elements: the same, counting only the elements
      without children. */
  lemma LeafModeMeaning(t: Tables, mats: seq<Line>, nodes: seq<Node>, name: string)
    requires |Leaves(nodes)| > 0 && forall n :: n in nodes ==> n.name != ""
    ensures Find(CopyResolvedLayers(t, Leaf, mats, nodes), name) ==
              if exists n :: n in nodes && !n.hasChild && n.name == name then Some(NodeTotal(Leaves(nodes), name)) else None
  {
    AccumulateMeaning(NodeItems(Leaves(nodes)), name);
    TotalOfNodes(Leaves(nodes), name);
  }

  /** The output of `resolveAllLayers` is always readable in full. */
  lemma ResolvedOutputIsReadable(t: Tables, mats: seq<Line>, name: string)
    requires |mats| > 0
    ensures var nodes := Flatten(ResolveAllLayers(t, mats));
            Find(CopyResolvedLayers(t, All, mats, nodes), name) ==
              if exists n :: n in nodes && n.name == name then Some(NodeTotal(nodes, name)) else None
  {
    var blocks := ResolveAllLayers(t, mats);
    assert blocks[0].top in Flatten(blocks);
    AllModeMeaning(t, mats, Flatten(blocks), name);
  }

  /** With no ship among the top-level lines, `parent` copies what `all`
      copies before the layers are resolved. */
  lemma {:induction false} ParentWithoutShips(t: Tables, mats: seq<Line>)
    requires forall i :: 0 <= i < |mats| ==> !ShipFlag(t, mats[i].materialTypeID)
    ensures CopyResolvedLayers(t, Parent, mats, []) == CopyResolvedLayers(t, All, mats, [])
  {
    NoShipsItems(t, mats);
    assert TopNonShipItems(t, mats) + [] == TopNonShipItems(t, mats);
  }

  lemma {:induction false} NoShipsItems(t: Tables, mats: seq<Line>)
    requires forall i :: 0 <= i < |mats| ==> !ShipFlag(t, mats[i].materialTypeID)
    ensures TopNonShipItems(t, mats) == CurrentItems(t, mats)
    ensures ShipChildItems(t, mats) == []
  {
    if |mats| > 0 {
      assert forall i :: 1 <= i < |mats| ==> mats[i] == mats[1..][i - 1];
      NoShipsItems(t, mats[1..]);
    }
  }

  /** A ship hull among the top-level lines is never copied itself: it
      adds its immediate components, each scaled by the hull's quantity
      (a zero quantity counting as one), and none of them is skipped. */
  lemma {:induction false} ShipAddsScaledComponents(t: Tables, ship: Line)
    requires ShipFlag(t, ship.materialTypeID)
    ensures TopNonShipItems(t, [ship]) == []
    ensures var cs := ChildrenForMaterial(t, ship.materialTypeID, Some(DisplayName(t, ship.materialTypeID)));
            var items := ShipChildItems(t, [ship]);
            && (cs.None? ==> items == [])
            && (cs.Some? ==>
                  |items| == |cs.value|
                  && forall i :: 0 <= i < |items| ==>
                       items[i] == (DisplayName(t, cs.value[i].materialTypeID),
                                    cs.value[i].quantity * (if ship.quantity == 0 then 1 else ship.quantity)))
  {
    var cs := ChildrenForMaterial(t, ship.materialTypeID, Some(DisplayName(t, ship.materialTypeID)));
    assert [ship][1..] == [];
    if cs.Some? {
      ScaledExact(t, cs.value, ship.quantity);
      assert ShipChildItems(t, [ship]) == ScaledChildren(t, cs.value, ship.quantity) + [];
    }
  }

  lemma {:induction false} ScaledExact(t: Tables, children: seq<Line>, shipQty: int)
    requires forall c :: c in children ==> c.quantity > 0
    ensures |ScaledChildren(t, children, shipQty)| == |children|
    ensures forall i :: 0 <= i < |children| ==>
              ScaledChildren(t, children, shipQty)[i]
              == (DisplayName(t, children[i].materialTypeID), children[i].quantity * (if shipQty == 0 then 1 else shipQty))
  {
    if |children| > 0 {
      var f := if shipQty == 0 then 1 else shipQty;
      assert children[0].quantity * f != 0;
      ScaledExact(t, children[1..], shipQty);
      assert forall i :: 1 <= i < |children| ==> children[i] == children[1..][i - 1];
    }
  }

  // ---- the totals the top-level modes copy ----

  lemma {:induction false} TotalAppend(a: seq<Item>, b: seq<Item>, name: string)
    ensures Total(a + b, name) == Total(a, name) + Total(b, name)
    decreases |b|
  {
    if |b| == 0 {
      assert a + b == a;
    } else {
      var ab := a + b;
      assert ab[..|ab| - 1] == a + b[..|b| - 1] && ab[|ab| - 1] == b[|b| - 1];
      TotalAppend(a, b[..|b| - 1], name);
    }
  }

  lemma MentionsAppend(a: seq<Item>, b: seq<Item>, name: string)
    ensures Mentions(a + b, name) <==> Mentions(a, name) || Mentions(b, name)
  {
    if Mentions(a + b, name) {
      var i :| 0 <= i < |a + b| && (a + b)[i].0 == name;
      if i >= |a| {
        assert b[i - |a|] == (a + b)[i];
      }
    }
    if Mentions(b, name) {
      var i :| 0 <= i < |b| && b[i].0 == name;
      assert (a + b)[|a| + i] == b[i];
    }
    if Mentions(a, name) {
      var i :| 0 <= i < |a| && a[i].0 == name;
      assert (a + b)[i] == a[i];
    }
  }

  /** The summed quantity of the top-level lines shown as `name`. */
  function LinesQty(t: Tables, mats: seq<Line>, name: string): int {
    if |mats| == 0 then 0
    else (if DisplayName(t, mats[0].materialTypeID) == name then mats[0].quantity else 0) + LinesQty(t, mats[1..], name)
  }

  /** Some top-level line with a non-zero quantity is shown as `name`. */
  predicate ShownLine(t: Tables, mats: seq<Line>, name: string) {
    exists i :: 0 <= i < |mats| && mats[i].quantity != 0 && DisplayName(t, mats[i].materialTypeID) == name
  }

  /** The same two, over the top-level lines that are not ships. */
  function NonShipQty(t: Tables, mats: seq<Line>, name: string): int {
    if |mats| == 0 then 0
    else
      (if !ShipFlag(t, mats[0].materialTypeID) && DisplayName(t, mats[0].materialTypeID) == name then mats[0].quantity else 0)
      + NonShipQty(t, mats[1..], name)
  }

  predicate ShownNonShip(t: Tables, mats: seq<Line>, name: string) {
    exists i :: 0 <= i < |mats| && mats[i].quantity != 0 && !ShipFlag(t, mats[i].materialTypeID)
                && DisplayName(t, mats[i].materialTypeID) == name
  }

  /** The immediate components the parent mode reads for a top-level line:
      those of a ship with children, and none otherwise. */
  function ShipComponents(t: Tables, m: Line): (r: seq<Line>)
    ensures forall c :: c in r ==> c.quantity > 0
  {
    if !ShipFlag(t, m.materialTypeID) then []
    else match ChildrenForMaterial(t, m.materialTypeID, Some(DisplayName(t, m.materialTypeID)))
      case None => []
      case Some(cs) => cs
  }

  /** The summed quantity of the recipe lines shown as `name`. */
  function ComponentQty(t: Tables, cs: seq<Line>, name: string): int {
    if |cs| == 0 then 0
    else (if DisplayName(t, cs[0].materialTypeID) == name then cs[0].quantity else 0) + ComponentQty(t, cs[1..], name)
  }

  /** `mat.quantity || 1`. */
  function ShipScale(q: int): int {
    if q == 0 then 1 else q
  }

  /** Over the ship lines: the quantity of their components shown as
      `name`, each ship's share multiplied by its own scale. */
  function ShipQty(t: Tables, mats: seq<Line>, name: string): int {
    if |mats| == 0 then 0
    else ComponentQty(t, ShipComponents(t, mats[0]), name) * ShipScale(mats[0].quantity) + ShipQty(t, mats[1..], name)
  }

  /** Some ship line has a component shown as `name`. */
  predicate ShownComponent(t: Tables, mats: seq<Line>, name: string) {
    exists i, c :: 0 <= i < |mats| && c in ShipComponents(t, mats[i]) && DisplayName(t, c.materialTypeID) == name
  }

  lemma TotalSingle(x: Item, name: string)
    ensures Total([x], name) == if x.0 == name then x.1 else 0
    ensures Mentions([x], name) <==> x.0 == name
  {
    assert [x][..0] == [];
  }

  /** The item a top-level line sets, if any, followed by those of the
      later lines. */
  lemma CurrentCons(t: Tables, mats: seq<Line>)
    requires |mats| > 0
    ensures var m := mats[0];
            CurrentItems(t, mats) == (if m.quantity == 0 then [] else [(DisplayName(t, m.materialTypeID), m.quantity)])
                                     + CurrentItems(t, mats[1..])
    ensures var m := mats[0];
            TopNonShipItems(t, mats)
            == (if ShipFlag(t, m.materialTypeID) || m.quantity == 0 then [] else [(DisplayName(t, m.materialTypeID), m.quantity)])
               + TopNonShipItems(t, mats[1..])
  {
  }

  lemma ShownLineShift(t: Tables, mats: seq<Line>, name: string)
    requires |mats| > 0
    ensures ShownLine(t, mats, name) <==>
              (mats[0].quantity != 0 && DisplayName(t, mats[0].materialTypeID) == name) || ShownLine(t, mats[1..], name)
  {
    assert forall i :: 1 <= i < |mats| ==> mats[i] == mats[1..][i - 1];
  }

  lemma NonShipShift(t: Tables, mats: seq<Line>, name: string)
    requires |mats| > 0
    ensures ShownNonShip(t, mats, name) <==>
              (mats[0].quantity != 0 && !ShipFlag(t, mats[0].materialTypeID) && DisplayName(t, mats[0].materialTypeID) == name)
              || ShownNonShip(t, mats[1..], name)
  {
    assert forall i :: 1 <= i < |mats| ==> mats[i] == mats[1..][i - 1];
  }

  lemma ComponentShift(t: Tables, mats: seq<Line>, name: string)
    requires |mats| > 0
    ensures ShownComponent(t, mats, name) <==>
              (exists c :: c in ShipComponents(t, mats[0]) && DisplayName(t, c.materialTypeID) == name)
              || ShownComponent(t, mats[1..], name)
  {
    if ShownComponent(t, mats[1..], name) {
      var i, c :| 0 <= i < |mats[1..]| && c in ShipComponents(t, mats[1..][i]) && DisplayName(t, c.materialTypeID) == name;
      assert mats[1..][i] == mats[i + 1];
      assert c in ShipComponents(t, mats[i + 1]);
    }
    if ShownComponent(t, mats, name) {
      var i, c :| 0 <= i < |mats| && c in ShipComponents(t, mats[i]) && DisplayName(t, c.materialTypeID) == name;
      if i > 0 {
        assert mats[1..][i - 1] == mats[i];
      }
    }
  }

  /** An item list that sets at most one name ahead of `rest`. */
  lemma ConsTotals(head: seq<Item>, rest: seq<Item>, name: string)
    requires |head| <= 1
    ensures Total(head + rest, name) == (if |head| == 1 && head[0].0 == name then head[0].1 else 0) + Total(rest, name)
    ensures Mentions(head + rest, name) <==> (|head| == 1 && head[0].0 == name) || Mentions(rest, name)
  {
    TotalAppend(head, rest, name);
    MentionsAppend(head, rest, name);
    if |head| == 1 {
      TotalSingle(head[0], name);
      assert head == [head[0]];
    }
  }

  lemma {:induction false} CurrentTotal(t: Tables, mats: seq<Line>, name: string)
    ensures Total(CurrentItems(t, mats), name) == LinesQty(t, mats, name)
  {
    if |mats| > 0 {
      var m := mats[0];
      CurrentCons(t, mats);
      CurrentTotal(t, mats[1..], name);
      ConsTotals(if m.quantity == 0 then [] else [(DisplayName(t, m.materialTypeID), m.quantity)], CurrentItems(t, mats[1..]), name);
    }
  }

  lemma {:induction false} CurrentMentions(t: Tables, mats: seq<Line>, name: string)
    ensures Mentions(CurrentItems(t, mats), name) <==> ShownLine(t, mats, name)
  {
    if |mats| > 0 {
      var m := mats[0];
      CurrentCons(t, mats);
      CurrentMentions(t, mats[1..], name);
      ShownLineShift(t, mats, name);
      ConsTotals(if m.quantity == 0 then [] else [(DisplayName(t, m.materialTypeID), m.quantity)], CurrentItems(t, mats[1..]), name);
    }
  }

  /** The fallback counts every top-level line once: the total set for a
      name is the sum over the lines shown as it, and it is set exactly
      when one of them has a non-zero quantity. */
  lemma CurrentTotals(t: Tables, mats: seq<Line>, name: string)
    ensures Total(CurrentItems(t, mats), name) == LinesQty(t, mats, name)
    ensures Mentions(CurrentItems(t, mats), name) <==> ShownLine(t, mats, name)
  {
    CurrentTotal(t, mats, name);
    CurrentMentions(t, mats, name);
  }

  lemma {:induction false} NonShipTotal(t: Tables, mats: seq<Line>, name: string)
    ensures Total(TopNonShipItems(t, mats), name) == NonShipQty(t, mats, name)
  {
    if |mats| > 0 {
      var m := mats[0];
      CurrentCons(t, mats);
      NonShipTotal(t, mats[1..], name);
      ConsTotals(if ShipFlag(t, m.materialTypeID) || m.quantity == 0 then [] else [(DisplayName(t, m.materialTypeID), m.quantity)],
                 TopNonShipItems(t, mats[1..]), name);
    }
  }

  lemma {:induction false} NonShipMentions(t: Tables, mats: seq<Line>, name: string)
    ensures Mentions(TopNonShipItems(t, mats), name) <==> ShownNonShip(t, mats, name)
  {
    if |mats| > 0 {
      var m := mats[0];
      CurrentCons(t, mats);
      NonShipMentions(t, mats[1..], name);
      NonShipShift(t, mats, name);
      ConsTotals(if ShipFlag(t, m.materialTypeID) || m.quantity == 0 then [] else [(DisplayName(t, m.materialTypeID), m.quantity)],
                 TopNonShipItems(t, mats[1..]), name);
    }
  }

  /** The first parent loop likewise counts every non-ship line once. */
  lemma NonShipTotals(t: Tables, mats: seq<Line>, name: string)
    ensures Total(TopNonShipItems(t, mats), name) == NonShipQty(t, mats, name)
    ensures Mentions(TopNonShipItems(t, mats), name) <==> ShownNonShip(t, mats, name)
  {
    NonShipTotal(t, mats, name);
    NonShipMentions(t, mats, name);
  }

  /** One component ahead of the rest, scaled. */
  lemma ScaledCons(t: Tables, cs: seq<Line>, shipQty: int)
    requires |cs| > 0 && cs[0].quantity > 0
    ensures ScaledChildren(t, cs, shipQty)
            == [(DisplayName(t, cs[0].materialTypeID), cs[0].quantity * ShipScale(shipQty))] + ScaledChildren(t, cs[1..], shipQty)
  {
    assert cs[0].quantity * ShipScale(shipQty) != 0;
  }

  lemma {:induction false} ScaledTotal(t: Tables, cs: seq<Line>, shipQty: int, name: string)
    requires forall c :: c in cs ==> c.quantity > 0
    ensures Total(ScaledChildren(t, cs, shipQty), name) == ComponentQty(t, cs, name) * ShipScale(shipQty)
  {
    if |cs| > 0 {
      var c, k := cs[0], ShipScale(shipQty);
      assert c in cs;
      assert forall x :: x in cs[1..] ==> x in cs;
      ScaledTotal(t, cs[1..], shipQty, name);
      ScaledCons(t, cs, shipQty);
      ConsTotals([(DisplayName(t, c.materialTypeID), c.quantity * k)], ScaledChildren(t, cs[1..], shipQty), name);
      var here := DisplayName(t, c.materialTypeID) == name;
      assert ComponentQty(t, cs, name) == (if here then c.quantity else 0) + ComponentQty(t, cs[1..], name);
      Distribute(here, c.quantity, ComponentQty(t, cs[1..], name), k, Total(ScaledChildren(t, cs[1..], shipQty), name),
                 ComponentQty(t, cs, name), Total(ScaledChildren(t, cs, shipQty), name));
    }
  }

  /** The inductive step of `ScaledTotal`, over plain numbers: `total` is
      the share `q * k` (when shown) plus the rest's total `b * k`. */
  lemma Distribute(here: bool, q: int, b: int, k: int, restTotal: int, sum: int, total: int)
    requires restTotal == b * k
    requires sum == (if here then q else 0) + b
    requires total == (if here then q * k else 0) + restTotal
    ensures total == sum * k
  {
    if here {
      assert (q + b) * k == q * k + b * k;
    }
  }

  lemma {:induction false} ScaledMentions(t: Tables, cs: seq<Line>, shipQty: int, name: string)
    requires forall c :: c in cs ==> c.quantity > 0
    ensures Mentions(ScaledChildren(t, cs, shipQty), name) <==> exists c :: c in cs && DisplayName(t, c.materialTypeID) == name
  {
    if |cs| > 0 {
      var c := cs[0];
      assert c in cs;
      assert forall x :: x in cs[1..] ==> x in cs;
      ScaledMentions(t, cs[1..], shipQty, name);
      ScaledCons(t, cs, shipQty);
      ConsTotals([(DisplayName(t, c.materialTypeID), c.quantity * ShipScale(shipQty))], ScaledChildren(t, cs[1..], shipQty), name);
      if exists x :: x in cs && DisplayName(t, x.materialTypeID) == name {
        var x :| x in cs && DisplayName(t, x.materialTypeID) == name;
        var j :| 0 <= j < |cs| && cs[j] == x;
        if j > 0 {
          assert cs[1..][j - 1] == x;
        }
      }
    }
  }

  /** One ship's components, scaled: the total for a name is the ship's
      scale times the summed quantity of the components shown as it, and
      none of them is skipped. */
  lemma ScaledTotals(t: Tables, cs: seq<Line>, shipQty: int, name: string)
    requires forall c :: c in cs ==> c.quantity > 0
    ensures Total(ScaledChildren(t, cs, shipQty), name) == ComponentQty(t, cs, name) * ShipScale(shipQty)
    ensures Mentions(ScaledChildren(t, cs, shipQty), name) <==> exists c :: c in cs && DisplayName(t, c.materialTypeID) == name
  {
    ScaledTotal(t, cs, shipQty, name);
    ScaledMentions(t, cs, shipQty, name);
  }

  /** The second parent loop: the total for a name sums, over the ship
      lines, their scale times their components shown as it. */
  lemma {:induction false} ShipTotals(t: Tables, mats: seq<Line>, name: string)
    ensures Total(ShipChildItems(t, mats), name) == ShipQty(t, mats, name)
    ensures Mentions(ShipChildItems(t, mats), name) <==> ShownComponent(t, mats, name)
  {
    if |mats| > 0 {
      var m := mats[0];
      var cs := ShipComponents(t, m);
      var here := ScaledChildren(t, cs, m.quantity);
      assert ShipChildItems(t, mats) == here + ShipChildItems(t, mats[1..]) by {
        assert ScaledChildren(t, [], m.quantity) == [];
      }
      ShipTotals(t, mats[1..], name);
      ScaledTotals(t, cs, m.quantity, name);
      TotalAppend(here, ShipChildItems(t, mats[1..]), name);
      MentionsAppend(here, ShipChildItems(t, mats[1..]), name);
      ComponentShift(t, mats, name);
    }
  }

  /** `all` before the layers are resolved: one entry per name of a
      top-level line with a non-zero quantity, holding the sum over the
      lines shown as it, repeats included. */
  lemma {:induction false} FallbackModeMeaning(t: Tables, mats: seq<Line>, name: string)
    ensures Find(CopyResolvedLayers(t, All, mats, []), name) ==
              if ShownLine(t, mats, name) then Some(LinesQty(t, mats, name)) else None
  {
    AccumulateMeaning(CurrentItems(t, mats), name);
    CurrentTotals(t, mats, name);
  }

  /** Both parent loops together: the total for a name is the non-ship
      lines' quantity plus the ships' scaled component quantities, and the
      name is set when either loop sets it. */
  lemma ParentTotals(t: Tables, mats: seq<Line>, name: string)
    ensures Total(TopNonShipItems(t, mats) + ShipChildItems(t, mats), name) == NonShipQty(t, mats, name) + ShipQty(t, mats, name)
    ensures Mentions(TopNonShipItems(t, mats) + ShipChildItems(t, mats), name) <==>
              ShownNonShip(t, mats, name) || ShownComponent(t, mats, name)
  {
    TotalAppend(TopNonShipItems(t, mats), ShipChildItems(t, mats), name);
    MentionsAppend(TopNonShipItems(t, mats), ShipChildItems(t, mats), name);
    NonShipTotals(t, mats, name);
    ShipTotals(t, mats, name);
  }

  /** `parent`: one entry per name of a non-ship top-level line or of a
      ship's immediate component, holding the non-ship lines' quantity
      plus the ships' scaled component quantities for that name. */
  lemma ParentModeMeaning(t: Tables, mats: seq<Line>, nodes: seq<Node>, name: string)
    ensures Find(CopyResolvedLayers(t, Parent, mats, nodes), name).Some? <==>
              ShownNonShip(t, mats, name) || ShownComponent(t, mats, name)
    ensures Find(CopyResolvedLayers(t, Parent, mats, nodes), name).Some? ==>
              Find(CopyResolvedLayers(t, Parent, mats, nodes), name).value == NonShipQty(t, mats, name) + ShipQty(t, mats, name)
  {
    var items := TopNonShipItems(t, mats) + ShipChildItems(t, mats);
    ParentTotals(t, mats, name);
    TallyOfItems(CopyResolvedLayers(t, Parent, mats, nodes), items, name) by {
      ParentItems(t, mats, nodes);
    }
  }

  /** A tally built from `items` finds a name exactly when the items
      mention it, holding their total. */
  lemma TallyOfItems(c: Tally, items: seq<Item>, name: string)
    requires c == Accumulate(items)
    ensures Find(c, name) == if Mentions(items, name) then Some(Total(items, name)) else None
  {
    AccumulateMeaning(items, name);
  }

  /** `parent` sets the items of its first loop, then those of its second. */
  lemma ParentItems(t: Tables, mats: seq<Line>, nodes: seq<Node>)
    ensures CopyResolvedLayers(t, Parent, mats, nodes) == Accumulate(TopNonShipItems(t, mats) + ShipChildItems(t, mats))
  {
    if |mats| == 0 {
      assert TopNonShipItems(t, mats) + ShipChildItems(t, mats) == [];
    }
  }
}
