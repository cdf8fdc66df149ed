/**
  What the walk of packages/core/src/extract/suggest.ts misses: nothing within the depth bound, as
  long as it does not run out of nodes. Every value it was looking for then gets its drafts.
*/
module WalkedPaths {
  import opened Prelude
  import opened Json
  import opened JsonPath
  import opened JsonPathEvaluation
  import opened JsonPathMatches
  import opened PathSuggestions

  lemma EntriesAreSteps(value: Json, k: nat)
    requires k < |Entries(value)|
    ensures |Entries(value)| == |Steps(value)|
    ensures Entries(value)[k].step == Steps(value)[k] && Entries(value)[k].value == ChildrenOf(value)[k]
  {
  }

  lemma {:induction false} NodesGrow(value: Json, path: seq<Step>, depth: nat, nodes: nat, expected: Json -> bool)
    ensures nodes <= Walk(value, path, depth, nodes, expected).nodes
    decreases Left(depth), 0
  {
    if depth <= MAX_WALK_DEPTH && nodes < MAX_NODES {
      AllNodesGrow(Entries(value), path, depth + 1, nodes + 1, expected);
    }
  }

  lemma {:induction false} AllNodesGrow(entries: seq<Entry>, path: seq<Step>, depth: nat, nodes: nat,
                                        expected: Json -> bool)
    ensures nodes <= WalkAll(entries, path, depth, nodes, expected).nodes
    decreases Left(depth), |entries| + 1
  {
    if entries != [] {
      var front, last := entries[..|entries| - 1], entries[|entries| - 1];
      AllNodesGrow(front, path, depth, nodes, expected);
      NodesGrow(last.value, path + [last.step], depth, WalkAll(front, path, depth, nodes, expected).nodes, expected);
    }
  }

  /** The walk of the `k`-th entry, and that what it hits is kept. */
  lemma {:induction false} EntryIsWalked(entries: seq<Entry>, path: seq<Step>, depth: nat, nodes: nat,
                                         expected: Json -> bool, k: nat, hit: Hit) returns (used: nat)
    requires k < |entries| && WalkAll(entries, path, depth, nodes, expected).nodes < MAX_NODES
    ensures Walk(entries[k].value, path + [entries[k].step], depth, used, expected).nodes < MAX_NODES
    ensures hit in Walk(entries[k].value, path + [entries[k].step], depth, used, expected).hits ==>
      hit in WalkAll(entries, path, depth, nodes, expected).hits
    decreases |entries|
  {
    var front, last := entries[..|entries| - 1], entries[|entries| - 1];
    used := WalkAll(front, path, depth, nodes, expected).nodes;
    if k < |front| {
      NodesGrow(last.value, path + [last.step], depth, used, expected);
      used := EntryIsWalked(front, path, depth, nodes, expected, k, hit);
    }
  }

  /** The walk of a child, and that what it hits is kept. */
  lemma ChildIsWalked(value: Json, path: seq<Step>, depth: nat, nodes: nat, expected: Json -> bool, k: nat, hit: Hit)
    returns (used: nat)
    requires k < |Steps(value)| && depth < MAX_WALK_DEPTH
    requires Walk(value, path, depth, nodes, expected).nodes < MAX_NODES
    ensures Walk(ChildrenOf(value)[k], path + [Steps(value)[k]], depth + 1, used, expected).nodes < MAX_NODES
    ensures hit in Walk(ChildrenOf(value)[k], path + [Steps(value)[k]], depth + 1, used, expected).hits ==>
      hit in Walk(value, path, depth, nodes, expected).hits
  {
    NodesGrow(value, path, depth, nodes, expected);
    assert |Entries(value)| == |Steps(value)|;
    EntriesAreSteps(value, k);
    used := EntryIsWalked(Entries(value), path, depth + 1, nodes + 1, expected, k, hit);
  }

  lemma FirstMoved<T>(a: seq<T>, b: seq<T>)
    requires b != []
    ensures a + [b[0]] + b[1..] == a + b
  {
  }

  /** From any value the walk enters, it hits every expected value below that is not an array. */
  lemma {:induction false} WalkReaches(value: Json, path: seq<Step>, depth: nat, nodes: nat, expected: Json -> bool,
                                       rest: seq<Step>, found: Json)
    requires Resolve(value, rest) == Some(found) && depth + |rest| <= MAX_WALK_DEPTH
    requires !found.Array? && expected(found) && Walk(value, path, depth, nodes, expected).nodes < MAX_NODES
    ensures Hit(path + rest, found) in Walk(value, path, depth, nodes, expected).hits
    decreases |rest|
  {
    if rest == [] {
      NodesGrow(value, path, depth, nodes, expected);
      assert path + rest == path;
    } else {
      var k, child := Position(value, rest[0]), Child(value, rest[0]).value;
      var used := ChildIsWalked(value, path, depth, nodes, expected, k, Hit(path + rest, found));
      WalkReaches(child, path + [rest[0]], depth + 1, used, expected, rest[1..], found);
      FirstMoved(path, rest);
    }
  }

  lemma {:induction false} HitsAreExpected(value: Json, path: seq<Step>, depth: nat, nodes: nat,
                                           expected: Json -> bool, hit: Hit)
    requires hit in Walk(value, path, depth, nodes, expected).hits
    ensures !hit.value.Array? && expected(hit.value)
    decreases Left(depth), 0
  {
    if hit in WalkAll(Entries(value), path, depth + 1, nodes + 1, expected).hits {
      AllHitsAreExpected(Entries(value), path, depth + 1, nodes + 1, expected, hit);
    }
  }

  lemma {:induction false} AllHitsAreExpected(entries: seq<Entry>, path: seq<Step>, depth: nat, nodes: nat,
                                              expected: Json -> bool, hit: Hit)
    requires hit in WalkAll(entries, path, depth, nodes, expected).hits
    ensures !hit.value.Array? && expected(hit.value)
    decreases Left(depth), |entries| + 1
  {
    var front, last := entries[..|entries| - 1], entries[|entries| - 1];
    if hit in WalkAll(front, path, depth, nodes, expected).hits {
      AllHitsAreExpected(front, path, depth, nodes, expected, hit);
    } else {
      var used := WalkAll(front, path, depth, nodes, expected).nodes;
      HitsAreExpected(last.value, path + [last.step], depth, used, expected, hit);
    }
  }

  /**
    A walk that ends below MAX_NODES has hit exactly the expected values at paths of at most
    MAX_WALK_DEPTH steps, arrays aside.
  */
  lemma WalkHitsExactly(root: Json, expected: Json -> bool, hit: Hit)
    requires WellFormed(root) && Walk(root, [], 0, 0, expected).nodes < MAX_NODES
    ensures hit in Walk(root, [], 0, 0, expected).hits <==>
      && |hit.path| <= MAX_WALK_DEPTH && Resolve(root, hit.path) == Some(hit.value)
      && !hit.value.Array? && expected(hit.value)
  {
    WalkHitsFrom(root, 0, expected, hit);
  }

  lemma WalkHitsFrom(root: Json, top: nat, expected: Json -> bool, hit: Hit)
    requires WellFormed(root) && top == 0 && Walk(root, [], top, top, expected).nodes < MAX_NODES
    ensures hit in Walk(root, [], top, top, expected).hits <==>
      && |hit.path| <= MAX_WALK_DEPTH && Resolve(root, hit.path) == Some(hit.value)
      && !hit.value.Array? && expected(hit.value)
  {
    if hit in Walk(root, [], top, top, expected).hits {
      WalkFinds(root, root, [], top, expected);
      HitsAreExpected(root, [], top, top, expected, hit);
    }
    if && |hit.path| <= MAX_WALK_DEPTH && Resolve(root, hit.path) == Some(hit.value)
       && !hit.value.Array? && expected(hit.value)
    {
      WalkReaches(root, [], top, top, expected, hit.path, hit.value);
      assert [] + hit.path == hit.path;
    }
  }

  /** What is offered for a path: the shorthand of the key it ends in, if that is a name, and the path itself. */
  lemma DraftsAre(path: seq<Step>, draft: Draft)
    ensures draft in PathDrafts(path) <==>
      match draft
      case Shorthand(leaf) => path != [] && path[|path| - 1] == Key(leaf) && IsName(leaf)
      case ConcreteDraft(expression) => Concrete(path) == Some(expression)
  {
  }

  /**
    Every expected value the walk has room for is offered under an expression that evaluates to it
    alone, if its path can be printed, and under the shorthand of its key as well.
  */
  lemma EveryPathIsOffered(root: Json, expected: Json -> bool, path: seq<Step>, value: Json)
    requires WellFormed(root) && Walk(root, [], 0, 0, expected).nodes < MAX_NODES
    requires |path| <= MAX_WALK_DEPTH && Resolve(root, path) == Some(value) && !value.Array? && expected(value)
    ensures Hit(path, value) in Walk(root, [], 0, 0, expected).hits
    ensures Concrete(path).Some? ==>
      && ConcreteDraft(Concrete(path).value) in PathDrafts(path)
      && Parse(Concrete(path).value).Parsed?
      && Evaluate(Parse(Concrete(path).value).segments, root) == [value]
    ensures path != [] && path[|path| - 1].Key? && IsName(path[|path| - 1].name) ==>
      Shorthand(path[|path| - 1].name) in PathDrafts(path)
  {
    WalkHitsExactly(root, expected, Hit(path, value));
    if Concrete(path).Some? {
      PrintedPathFindsItsValue(path, root);
    }
  }
}
