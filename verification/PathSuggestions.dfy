/**
  packages/core/src/extract/suggest.ts: the JSON walk and the path drafts it emits. `expected` stands
  for the price test of `jsonValuePrice`, which never holds of an array.
*/
module PathSuggestions {
  import opened Prelude
  import opened Json
  import opened JsonPath
  import opened JsonPathEvaluation

  /** A place where the walk found the expected price. */
  datatype Hit = Hit(path: seq<Step>, value: Json)
  datatype Entry = Entry(step: Step, value: Json)
  datatype Walked = Walked(hits: seq<Hit>, nodes: nat)

  function ArrayEntries(items: seq<Json>): seq<Entry> {
    seq(|items|, i requires 0 <= i < |items| => Entry(At(i), items[i]))
  }

  function ObjectEntries(fields: seq<Field>): seq<Entry> {
    seq(|fields|, i requires 0 <= i < |fields| => Entry(Key(fields[i].key), fields[i].value))
  }

  /** `value.entries()` of an array, `Object.entries` of an object. */
  function Entries(value: Json): seq<Entry> {
    match value
    case Array(items) => ArrayEntries(items)
    case Object(fields) => ObjectEntries(fields)
    case _ => []
  }

  function Walk(value: Json, path: seq<Step>, depth: nat, nodes: nat, expected: Json -> bool): Walked
    decreases Left(depth), 0
  {
    if depth > MAX_WALK_DEPTH || nodes >= MAX_NODES then Walked([], nodes)
    else
      var rest := WalkAll(Entries(value), path, depth + 1, nodes + 1, expected);
      Walked((if !value.Array? && expected(value) then [Hit(path, value)] else []) + rest.hits, rest.nodes)
  }

  function WalkAll(entries: seq<Entry>, path: seq<Step>, depth: nat, nodes: nat, expected: Json -> bool): Walked
    decreases Left(depth), |entries| + 1
  {
    if entries == [] then Walked([], nodes)
    else
      var last := entries[|entries| - 1];
      var front := WalkAll(entries[..|entries| - 1], path, depth, nodes, expected);
      var next := Walk(last.value, path + [last.step], depth, front.nodes, expected);
      Walked(front.hits + next.hits, next.nodes)
  }

  class WalkState {
    var nodes: nat
    var hits: seq<Hit>
    constructor ()
      ensures nodes == 0 && hits == []
    {
      nodes, hits := 0, [];
    }
  }

  method WalkJsonValue(value: Json, path: seq<Step>, depth: nat, state: WalkState, expected: Json -> bool)
    modifies state
    ensures var w := Walk(value, path, depth, old(state.nodes), expected);
      state.hits == old(state.hits) + w.hits && state.nodes == w.nodes
    decreases Left(depth), 0
  {
    if depth > MAX_WALK_DEPTH || state.nodes >= MAX_NODES {
      return;
    }
    state.nodes := state.nodes + 1;
    if !value.Array? && expected(value) {
      state.hits := state.hits + [Hit(path, value)];
    }
    WalkEntries(Entries(value), path, depth + 1, state, expected);
  }

  method WalkEntries(entries: seq<Entry>, path: seq<Step>, depth: nat, state: WalkState, expected: Json -> bool)
    modifies state
    ensures var w := WalkAll(entries, path, depth, old(state.nodes), expected);
      state.hits == old(state.hits) + w.hits && state.nodes == w.nodes
    decreases Left(depth), 1
  {
    for i := 0 to |entries|
      invariant var w := WalkAll(entries[..i], path, depth, old(state.nodes), expected);
        state.hits == old(state.hits) + w.hits && state.nodes == w.nodes
    {
      WalkJsonValue(entries[i].value, path + [entries[i].step], depth, state, expected);
      assert entries[..i + 1][..i] == entries[..i];
    }
    assert entries[..|entries|] == entries;
  }

  // ----- Drafts -----

  /** What `pathDrafts` emits for one hit: the shorthand of the leaf, then the concrete path. */
  datatype Draft = Shorthand(leaf: string) | ConcreteDraft(expression: string)

  function Expression(draft: Draft): string {
    match draft
    case Shorthand(leaf) => "$.." + leaf
    case ConcreteDraft(expression) => expression
  }

  function PathDrafts(path: seq<Step>): seq<Draft> {
    (if path != [] && path[|path| - 1].Key? && IsName(path[|path| - 1].name) then
       [Shorthand(path[|path| - 1].name)]
     else [])
    + (if Concrete(path).Some? then [ConcreteDraft(Concrete(path).value)] else [])
  }

  // ----- Every draft reads the value it was emitted for -----

  lemma EntryIsChild(value: Json, k: nat)
    requires WellFormed(value) && k < |Entries(value)|
    ensures Child(value, Entries(value)[k].step) == Some(Entries(value)[k].value)
    ensures WellFormed(Entries(value)[k].value)
  {
    match value
    case Array(_) =>
    case Object(fields) => LookupAt(fields, k);
    case _ =>
  }

  lemma {:induction false} ResolveAppend(value: Json, path: seq<Step>, step: Step)
    requires Resolve(value, path).Some?
    ensures Resolve(value, path + [step]) == Child(Resolve(value, path).value, step)
    decreases |path|
  {
    if path != [] {
      ResolveAppend(Child(value, path[0]).value, path[1..], step);
      assert (path + [step])[1..] == path[1..] + [step];
    } else {
      assert [step][1..] == [];
    }
  }

  /** Where a hit of the walk lies. */
  ghost predicate Found(root: Json, hit: Hit) {
    |hit.path| <= MAX_WALK_DEPTH && Resolve(root, hit.path) == Some(hit.value)
  }

  ghost predicate AllFound(root: Json, hits: seq<Hit>) {
    forall k :: 0 <= k < |hits| ==> Found(root, hits[k])
  }

  /** Each entry lies one step below `path`. */
  ghost predicate Lead(root: Json, entries: seq<Entry>, path: seq<Step>) {
    forall k :: 0 <= k < |entries| ==>
      WellFormed(entries[k].value) && Resolve(root, path + [entries[k].step]) == Some(entries[k].value)
  }

  lemma EntriesLead(root: Json, value: Json, path: seq<Step>)
    requires Resolve(root, path) == Some(value) && WellFormed(value)
    ensures Lead(root, Entries(value), path)
  {
    forall k | 0 <= k < |Entries(value)|
      ensures WellFormed(Entries(value)[k].value)
      ensures Resolve(root, path + [Entries(value)[k].step]) == Some(Entries(value)[k].value)
    {
      EntryIsChild(value, k);
      ResolveAppend(root, path, Entries(value)[k].step);
    }
  }

  lemma {:induction false} WalkFinds(root: Json, value: Json, path: seq<Step>, nodes: nat, expected: Json -> bool)
    requires Resolve(root, path) == Some(value) && WellFormed(value)
    ensures AllFound(root, Walk(value, path, |path|, nodes, expected).hits)
    decreases Left(|path|), 0
  {
    if |path| <= MAX_WALK_DEPTH && nodes < MAX_NODES {
      EntriesLead(root, value, path);
      WalkAllFinds(root, Entries(value), path, nodes + 1, expected);
    }
  }

  lemma {:induction false} WalkAllFinds(root: Json, entries: seq<Entry>, path: seq<Step>, nodes: nat,
                                        expected: Json -> bool)
    requires Lead(root, entries, path)
    ensures AllFound(root, WalkAll(entries, path, |path| + 1, nodes, expected).hits)
    decreases Left(|path| + 1), |entries| + 1
  {
    if entries != [] {
      var front, last := entries[..|entries| - 1], entries[|entries| - 1];
      WalkAllFinds(root, front, path, nodes, expected);
      var used := WalkAll(front, path, |path| + 1, nodes, expected).nodes;
      WalkFinds(root, last.value, path + [last.step], used, expected);
    }
  }

  /** A draft reads the value it was emitted for: always when concrete, and with a single match when shorthand. */
  ghost predicate Reads(root: Json, draft: Draft, value: Json) {
    var parsed := Parse(Expression(draft));
    && parsed.Parsed?
    && (draft.ConcreteDraft? || |Evaluate(parsed.segments, root)| == 1 ==> Evaluate(parsed.segments, root) == [value])
  }

  lemma DraftsOfFoundHit(root: Json, hit: Hit, draft: Draft)
    requires Found(root, hit) && draft in PathDrafts(hit.path)
    ensures Reads(root, draft, hit.value)
  {
    if draft.ConcreteDraft? {
      PrintedPathFindsItsValue(hit.path, root);
    } else {
      SoleShorthandMatch(root, hit.path, draft.leaf);
    }
  }

  /**
    Whatever the walk of a document emits reads back what the walk was looking at: the concrete path
    evaluates to exactly that value, and the shorthand does too whenever it has a single match.
  */
  lemma DraftsReadTheirValue(root: Json, expected: Json -> bool, hit: Hit, draft: Draft)
    requires WellFormed(root)
    requires hit in Walk(root, [], 0, 0, expected).hits && draft in PathDrafts(hit.path)
    ensures Reads(root, draft, hit.value)
  {
    WalkFinds(root, root, [], 0, expected);
    DraftsOfFoundHit(root, hit, draft);
  }

  /** The walk visits at most MAX_NODES values of one document. */
  lemma {:induction false} WalkIsBounded(value: Json, path: seq<Step>, depth: nat, nodes: nat, expected: Json -> bool)
    requires nodes <= MAX_NODES
    ensures nodes <= Walk(value, path, depth, nodes, expected).nodes <= MAX_NODES
    ensures |Walk(value, path, depth, nodes, expected).hits| <= Walk(value, path, depth, nodes, expected).nodes - nodes
    decreases Left(depth), 0
  {
    if depth <= MAX_WALK_DEPTH && nodes < MAX_NODES {
      WalkAllIsBounded(Entries(value), path, depth + 1, nodes + 1, expected);
    }
  }

  lemma {:induction false} WalkAllIsBounded(entries: seq<Entry>, path: seq<Step>, depth: nat, nodes: nat,
                                            expected: Json -> bool)
    requires nodes <= MAX_NODES
    ensures nodes <= WalkAll(entries, path, depth, nodes, expected).nodes <= MAX_NODES
    ensures var walked := WalkAll(entries, path, depth, nodes, expected); |walked.hits| <= walked.nodes - nodes
    decreases Left(depth), |entries| + 1
  {
    if entries != [] {
      var front, last := entries[..|entries| - 1], entries[|entries| - 1];
      WalkAllIsBounded(front, path, depth, nodes, expected);
      WalkIsBounded(
        last.value, path + [last.step], depth, WalkAll(front, path, depth, nodes, expected).nodes, expected);
    }
  }
}
