/** `isShip`: does a market group belong, through its chain of parents, to
    the root group "4" (ship hulls)?  The walk follows `parentGroupID` until
    it reads the "None" sentinel or a group without an entry, and answers by
    the last group it stood on. */
module Taxonomy {
  import opened Wrappers

  /** group id -> parentGroupID (None when the field is missing). */
  type Groups = map<string, Option<string>>

  const HullRoot: string := "4"
  const Sentinel: string := "None"

  /** The walk's loop from `cur` (which is not the sentinel): the id of the
      last group stood on, or None when `fuel` iterations did not finish. */
  function LastVisited(g: Groups, cur: string, fuel: nat): Option<string>
    decreases fuel
  {
    if fuel == 0 then None
    else if cur !in g || g[cur].None? || g[cur].value == Sentinel then Some(cur)
    else LastVisited(g, g[cur].value, fuel - 1)
  }

  /** `isShip(marketGroupID)`.  None stands for an undefined argument.  A
      chain that visits no group twice has at most |g| + 1 members, so
      |g| + 1 iterations finish every walk that finishes at all; on a cyclic
      chain the script's loop never ends and this model answers false. */
  function IsShip(g: Groups, marketGroupID: Option<string>): (r: bool)
    ensures marketGroupID.None? || marketGroupID.value == "" || marketGroupID.value !in g ==> !r
  {
    if marketGroupID.None? || marketGroupID.value == "" || marketGroupID.value !in g then false
    else if marketGroupID.value == Sentinel then false
    else LastVisited(g, marketGroupID.value, |g| + 1) == Some(HullRoot)
  }

  // ---- the chain, stated relationally ----

  /** One iteration: from `a` the walk moves on to `b`. */
  predicate Step(g: Groups, a: string, b: string) {
    a in g && g[a] == Some(b) && b != Sentinel
  }

  /** The walk stops on `a`. */
  predicate Stops(g: Groups, a: string) {
    a !in g || g[a].None? || g[a] == Some(Sentinel)
  }

  /** `path` lists the groups the walk stands on, first to last. */
  ghost predicate IsChain(g: Groups, path: seq<string>) {
    && |path| > 0
    && (forall i :: 0 <= i < |path| - 1 ==> Step(g, path[i], path[i + 1]))
    && Stops(g, path[|path| - 1])
  }

  lemma {:induction false} WalkSound(g: Groups, cur: string, fuel: nat)
    requires LastVisited(g, cur, fuel).Some?
    ensures exists path :: IsChain(g, path) && path[0] == cur && |path| <= fuel
                           && path[|path| - 1] == LastVisited(g, cur, fuel).value
    decreases fuel
  {
    if Stops(g, cur) {
      assert IsChain(g, [cur]);
    } else {
      var next := g[cur].value;
      WalkSound(g, next, fuel - 1);
      var rest :| IsChain(g, rest) && rest[0] == next && |rest| <= fuel - 1
                  && rest[|rest| - 1] == LastVisited(g, next, fuel - 1).value;
      var path := [cur] + rest;
      assert forall i :: 1 <= i < |path| ==> path[i] == rest[i - 1];
      assert IsChain(g, path);
    }
  }

  lemma {:induction false} WalkComplete(g: Groups, path: seq<string>, fuel: nat)
    requires IsChain(g, path) && |path| <= fuel
    ensures LastVisited(g, path[0], fuel) == Some(path[|path| - 1])
    decreases |path|
  {
    if |path| > 1 {
      assert Step(g, path[0], path[1]);
      var rest := path[1..];
      assert forall i :: 0 <= i < |rest| ==> rest[i] == path[i + 1];
      assert IsChain(g, rest);
      WalkComplete(g, rest, fuel - 1);
    }
  }

  /** Along a chain, equal groups have equal successors: a repeat at i < j
      repeats again `k` steps later. */
  lemma {:induction false} ChainRepeats(g: Groups, path: seq<string>, i: nat, j: nat, k: nat)
    requires IsChain(g, path)
    requires i < j && j + k < |path|
    ensures path[i] == path[j] ==> path[i + k] == path[j + k]
    decreases k
  {
    if k > 0 {
      ChainRepeats(g, path, i, j, k - 1);
      assert Step(g, path[i + k - 1], path[i + k]);
      assert Step(g, path[j + k - 1], path[j + k]);
    }
  }

  /** The groups a chain passes through before its last one are distinct. */
  lemma {:induction false} ChainDistinct(g: Groups, path: seq<string>, i: nat, j: nat)
    requires IsChain(g, path)
    requires i < j < |path| - 1
    ensures path[i] != path[j]
  {
    var last := |path| - 1;
    var k := last - j;
    ChainRepeats(g, path, i, j, k);
    assert Step(g, path[i + k], path[i + k + 1]);
  }

  lemma {:induction false} DistinctCard(s: seq<string>)
    requires forall i, j :: 0 <= i < j < |s| ==> s[i] != s[j]
    ensures |set x | x in s| == |s|
  {
    if |s| > 0 {
      var init := s[..|s| - 1];
      DistinctCard(init);
      assert (set x | x in s) == (set x | x in init) + {s[|s| - 1]};
      assert s[|s| - 1] !in (set x | x in init);
    }
  }

  /** Pigeonhole: a chain that stops has at most |g| + 1 members, so the
      bound `IsShip` walks with loses no finishing walk. */
  lemma {:induction false} ChainBound(g: Groups, path: seq<string>)
    requires IsChain(g, path)
    ensures |path| <= |g| + 1
  {
    var init := path[..|path| - 1];
    forall i, j | 0 <= i < j < |init| ensures init[i] != init[j] {
      ChainDistinct(g, path, i, j);
    }
    DistinctCard(init);
    assert (set x | x in init) <= g.Keys by {
      forall x | x in init ensures x in g {
        var i :| 0 <= i < |init| && init[i] == x;
        assert Step(g, path[i], path[i + 1]);
      }
    }
    assert |set x | x in init| <= |g.Keys| by {
      SubsetCard((set x | x in init), g.Keys);
    }
  }

  /** `isShip` is true exactly when the market group is a key, is not the
      sentinel itself, and the walk from it stops on the hull root "4". */
  lemma IsShipMeaning(g: Groups, marketGroupID: string)
    ensures IsShip(g, Some(marketGroupID)) <==>
              marketGroupID != "" && marketGroupID in g && marketGroupID != Sentinel
              && exists path :: IsChain(g, path) && path[0] == marketGroupID && path[|path| - 1] == HullRoot
  {
    if marketGroupID != "" && marketGroupID in g && marketGroupID != Sentinel {
      if IsShip(g, Some(marketGroupID)) {
        WalkSound(g, marketGroupID, |g| + 1);
      }
      if exists path :: IsChain(g, path) && path[0] == marketGroupID && path[|path| - 1] == HullRoot {
        var path :| IsChain(g, path) && path[0] == marketGroupID && path[|path| - 1] == HullRoot;
        ChainBound(g, path);
        WalkComplete(g, path, |g| + 1);
      }
    }
  }

  /** A hull three levels below the root. */
  lemma IsShipExample()
    ensures IsShip(map["4" := Some("None"), "391" := Some("4"), "1361" := Some("391"), "9" := Some("None")], Some("1361"))
  {
    var g: Groups := map["4" := Some("None"), "391" := Some("4"), "1361" := Some("391"), "9" := Some("None")];
    var path := ["1361", "391", "4"];
    assert Step(g, path[0], path[1]) && Step(g, path[1], path[2]);
    assert IsChain(g, path);
    IsShipMeaning(g, "1361");
  }

  /** Two groups that are each other's parent: no iteration bound finishes
      the walk (the script's loop never ends). */
  lemma {:induction false} CyclicChainNeverFinishes(g: Groups, a: string, b: string, fuel: nat)
    requires a in g && b in g && g[a] == Some(b) && g[b] == Some(a)
    requires a != Sentinel && b != Sentinel
    ensures LastVisited(g, a, fuel).None? && LastVisited(g, b, fuel).None?
    decreases fuel
  {
    if fuel > 0 {
      CyclicChainNeverFinishes(g, a, b, fuel - 1);
    }
  }

  /** On such a cycle the model answers false where the script hangs. */
  lemma CyclicChainIsNotShip(g: Groups, a: string, b: string)
    requires a in g && b in g && g[a] == Some(b) && g[b] == Some(a)
    requires a != Sentinel && b != Sentinel
    ensures !IsShip(g, Some(a))
  {
    CyclicChainNeverFinishes(g, a, b, |g| + 1);
  }
}
