/** `evaluateJsonPath` of packages/core/src/extract/json-path.ts: the capped evaluator and its uncapped meaning. */
module JsonPathEvaluation {
  import opened Prelude
  import opened Json
  import opened JsonPath
  import opened Sequences

  // ----- The meaning, without a cap on nodes -----

  function Values(fields: seq<Field>): seq<Json> {
    seq(|fields|, i requires 0 <= i < |fields| => fields[i].value)
  }

  /** `childrenOf`. */
  function ChildrenOf(node: Json): seq<Json> {
    match node
    case Array(items) => items
    case Object(fields) => Values(fields)
    case _ => []
  }

  function Own(node: Json, name: string): seq<Json> {
    if node.Object? && Lookup(node.fields, name).Some? then [Lookup(node.fields, name).value] else []
  }

  function Left(depth: nat): nat { if depth > MAX_WALK_DEPTH then 0 else MAX_WALK_DEPTH + 1 - depth }

  /** Everything named `name` below a node, in document order, down to the depth bound. */
  function DescendMeaning(node: Json, name: string, depth: nat): seq<Json>
    decreases Left(depth), 0
  {
    if depth > MAX_WALK_DEPTH then [] else Own(node, name) + DescendAll(ChildrenOf(node), name, depth + 1)
  }

  function DescendAll(nodes: seq<Json>, name: string, depth: nat): seq<Json>
    decreases Left(depth), |nodes| + 1
  {
    if nodes == [] then []
    else DescendAll(nodes[..|nodes| - 1], name, depth) + DescendMeaning(nodes[|nodes| - 1], name, depth)
  }

  function SegmentMeaning(segment: Segment, node: Json): seq<Json> {
    match segment
    case Property(name) => Own(node, name)
    case Index(index) => if node.Array? && index < |node.items| then [node.items[index]] else []
    case Wildcard => ChildrenOf(node)
    case Descend(name) => DescendMeaning(node, name, 0)
  }

  function FlatMap(f: Json -> seq<Json>, nodes: seq<Json>): seq<Json> {
    if nodes == [] then [] else FlatMap(f, nodes[..|nodes| - 1]) + f(nodes[|nodes| - 1])
  }

  function MeaningOf(segment: Segment): Json -> seq<Json> { (node: Json) => SegmentMeaning(segment, node) }

  function SegmentAll(segment: Segment, nodes: seq<Json>): seq<Json> { FlatMap(MeaningOf(segment), nodes) }

  function Meaning(segments: seq<Segment>, nodes: seq<Json>): seq<Json>
    decreases |segments|
  {
    if segments == [] then nodes else Meaning(segments[1..], SegmentAll(segments[0], nodes))
  }

  // ----- The evaluator -----

  function Cap(s: seq<Json>): (r: seq<Json>)
    ensures |r| <= MAX_NODES && r <= s
  {
    if |s| > MAX_NODES then s[..MAX_NODES] else s
  }

  lemma CapAppend(a: seq<Json>, b: seq<Json>)
    ensures Cap(Cap(a) + b) == Cap(a + b)
  {
  }

  lemma CapFull(a: seq<Json>, b: seq<Json>)
    requires |Cap(a)| >= MAX_NODES
    ensures Cap(a + b) == Cap(a)
  {
  }

  /** What the loop over segments computes. */
  function Capped(segments: seq<Segment>, current: seq<Json>): seq<Json>
    decreases |segments|
  {
    if segments == [] then current
    else
      var next := Cap(SegmentAll(segments[0], current));
      if next == [] then [] else Capped(segments[1..], next)
  }

  function Evaluate(segments: seq<Segment>, value: Json): seq<Json> { Capped(segments, [value]) }

  /** The `out` array that the evaluator's helpers push into. */
  class Matches {
    var items: seq<Json>
    constructor ()
      ensures items == []
    {
      items := [];
    }
  }

  method PushAll(values: seq<Json>, out: Matches)
    requires |out.items| <= MAX_NODES
    modifies out
    ensures out.items == Cap(old(out.items) + values)
  {
    for i := 0 to |values|
      invariant out.items == Cap(old(out.items) + values[..i])
    {
      var before := old(out.items) + values[..i];
      if |out.items| >= MAX_NODES {
        CapFull(before, values[i..]);
        assert before + values[i..] == old(out.items) + values;
        return;
      }
      out.items := out.items + [values[i]];
      CapAppend(before, [values[i]]);
      assert before + [values[i]] == old(out.items) + values[..i + 1];
    }
    assert values[..|values|] == values;
  }

  method DescendInto(node: Json, name: string, out: Matches, depth: nat)
    requires |out.items| <= MAX_NODES
    modifies out
    ensures out.items == Cap(old(out.items) + DescendMeaning(node, name, depth))
    decreases Left(depth), 0
  {
    if depth > MAX_WALK_DEPTH || |out.items| >= MAX_NODES {
      DescendStops(out.items, node, name, depth);
      return;
    }
    ghost var before := out.items;
    if node.Object? && Lookup(node.fields, name).Some? {
      out.items := out.items + [Lookup(node.fields, name).value];
    }
    OwnIsPushed(before, out.items, node, name);
    DescendEach(ChildrenOf(node), name, out, depth + 1);
    OwnFirst(before, node, name, depth);
  }

  lemma DescendStops(items: seq<Json>, node: Json, name: string, depth: nat)
    requires |items| <= MAX_NODES && (depth > MAX_WALK_DEPTH || |items| >= MAX_NODES)
    ensures Cap(items + DescendMeaning(node, name, depth)) == items
  {
    if depth > MAX_WALK_DEPTH {
      assert items + [] == items;
    } else {
      CapFull(items, DescendMeaning(node, name, depth));
    }
  }

  lemma OwnIsPushed(before: seq<Json>, items: seq<Json>, node: Json, name: string)
    requires items == if node.Object? && Lookup(node.fields, name).Some? then before + [Lookup(node.fields, name).value]
                      else before
    ensures items == before + Own(node, name)
  {
  }

  lemma OwnFirst(before: seq<Json>, node: Json, name: string, depth: nat)
    requires depth <= MAX_WALK_DEPTH
    ensures before + Own(node, name) + DescendAll(ChildrenOf(node), name, depth + 1)
         == before + DescendMeaning(node, name, depth)
  {
    Associative(before, Own(node, name), DescendAll(ChildrenOf(node), name, depth + 1));
  }

  /** The loop over the entries of an array or the values of an object. */
  method DescendEach(children: seq<Json>, name: string, out: Matches, depth: nat)
    requires |out.items| <= MAX_NODES
    modifies out
    ensures out.items == Cap(old(out.items) + DescendAll(children, name, depth))
    decreases Left(depth), 1
  {
    ghost var base := out.items;
    assert base + [] == base;
    for i := 0 to |children|
      invariant |out.items| <= MAX_NODES
      invariant out.items == Cap(base + DescendAll(children[..i], name, depth))
    {
      DescendInto(children[i], name, out, depth);
      DescendAllSnoc(base, children, i, name, depth);
    }
    assert children[..|children|] == children;
  }

  lemma DescendAllSnoc(base: seq<Json>, nodes: seq<Json>, i: nat, name: string, depth: nat)
    requires i < |nodes|
    ensures Cap(Cap(base + DescendAll(nodes[..i], name, depth)) + DescendMeaning(nodes[i], name, depth))
         == Cap(base + DescendAll(nodes[..i + 1], name, depth))
  {
    var all, last := DescendAll(nodes[..i], name, depth), DescendMeaning(nodes[i], name, depth);
    CapAppend(base + all, last);
    Associative(base, all, last);
    assert DescendAll(nodes[..i + 1], name, depth) == all + last by { assert nodes[..i + 1][..i] == nodes[..i]; }
  }

  method ApplySegment(segment: Segment, node: Json, out: Matches)
    requires |out.items| < MAX_NODES
    modifies out
    ensures out.items == Cap(old(out.items) + SegmentMeaning(segment, node))
  {
    match segment
    case Property(name) =>
      if node.Object? && Lookup(node.fields, name).Some? {
        out.items := out.items + [Lookup(node.fields, name).value];
      }
    case Index(index) =>
      if node.Array? && index < |node.items| {
        out.items := out.items + [node.items[index]];
      }
    case Wildcard => PushAll(ChildrenOf(node), out);
    case Descend(name) => DescendInto(node, name, out, 0);
  }

  /** One turn of the outer loop: the nodes one segment leads to. */
  method ApplyToAll(segment: Segment, current: seq<Json>) returns (next: seq<Json>)
    ensures next == Cap(SegmentAll(segment, current))
  {
    var out := new Matches();
    for i := 0 to |current|
      invariant fresh(out) && out.items == Cap(SegmentAll(segment, current[..i]))
    {
      if |out.items| >= MAX_NODES {
        ApplyStops(segment, current, i);
        return out.items;
      }
      ApplySegment(segment, current[i], out);
      ApplyNext(segment, current, i);
    }
    assert current[..|current|] == current;
    next := out.items;
  }

  lemma ApplyStops(segment: Segment, current: seq<Json>, i: nat)
    requires i <= |current| && |Cap(SegmentAll(segment, current[..i]))| >= MAX_NODES
    ensures Cap(SegmentAll(segment, current)) == Cap(SegmentAll(segment, current[..i]))
  {
    SegmentAllSplit(segment, current, i);
    CapFull(SegmentAll(segment, current[..i]), SegmentAll(segment, current[i..]));
  }

  lemma ApplyNext(segment: Segment, current: seq<Json>, i: nat)
    requires i < |current|
    ensures Cap(Cap(SegmentAll(segment, current[..i])) + SegmentMeaning(segment, current[i]))
      == Cap(SegmentAll(segment, current[..i + 1]))
  {
    CapAppend(SegmentAll(segment, current[..i]), SegmentMeaning(segment, current[i]));
    FlatMapSnoc(MeaningOf(segment), current[..i], current[i]);
    assert current[..i + 1] == current[..i] + [current[i]];
  }

  method EvaluateJsonPath(segments: seq<Segment>, value: Json) returns (r: seq<Json>)
    ensures r == Evaluate(segments, value)
  {
    var current := [value];
    for i := 0 to |segments|
      invariant Evaluate(segments, value) == Capped(segments[i..], current)
    {
      var next := ApplyToAll(segments[i], current);
      assert segments[i..][1..] == segments[i + 1..];
      if next == [] {
        return [];
      }
      current := next;
    }
    r := current;
  }

  lemma FlatMapSnoc(f: Json -> seq<Json>, front: seq<Json>, last: Json)
    ensures FlatMap(f, front + [last]) == FlatMap(f, front) + f(last)
  {
    assert (front + [last])[..|front|] == front;
  }

  lemma {:induction false} FlatMapAppend(f: Json -> seq<Json>, a: seq<Json>, b: seq<Json>)
    ensures FlatMap(f, a + b) == FlatMap(f, a) + FlatMap(f, b)
  {
    if b == [] {
      assert a + b == a;
    } else {
      var front, last := b[..|b| - 1], b[|b| - 1];
      FlatMapAppend(f, a, front);
      assert (a + b)[..|a + b| - 1] == a + front;
      Associative(FlatMap(f, a), FlatMap(f, front), f(last));
    }
  }

  lemma SegmentAllSplit(segment: Segment, nodes: seq<Json>, k: nat)
    requires k <= |nodes|
    ensures SegmentAll(segment, nodes) == SegmentAll(segment, nodes[..k]) + SegmentAll(segment, nodes[k..])
  {
    assert nodes[..k] + nodes[k..] == nodes;
    FlatMapAppend(MeaningOf(segment), nodes[..k], nodes[k..]);
  }

  lemma SegmentAllOne(segment: Segment, node: Json)
    ensures SegmentAll(segment, [node]) == SegmentMeaning(segment, node)
  {
    FlatMapSnoc(MeaningOf(segment), [], node);
    assert [] + [node] == [node];
  }

  // ----- The capped evaluator refines the meaning -----

  lemma {:induction false} CappedIsPrefix(segments: seq<Segment>, current: seq<Json>, full: seq<Json>)
    requires current <= full
    ensures Capped(segments, current) <= Meaning(segments, full)
    decreases |segments|
  {
    if segments != [] {
      SegmentAllSplit(segments[0], full, |current|);
      assert full[..|current|] == current;
      CappedIsPrefix(segments[1..], Cap(SegmentAll(segments[0], current)), SegmentAll(segments[0], full));
    }
  }

  lemma {:induction false} CappedIsSmall(segments: seq<Segment>, current: seq<Json>)
    requires |current| <= MAX_NODES
    ensures |Capped(segments, current)| <= MAX_NODES
    decreases |segments|
  {
    if segments != [] {
      CappedIsSmall(segments[1..], Cap(SegmentAll(segments[0], current)));
    }
  }

  /** Every stage of the meaning fits under the cap. */
  predicate Fits(segments: seq<Segment>, nodes: seq<Json>)
    decreases |segments|
  {
    |nodes| <= MAX_NODES && (segments != [] ==> Fits(segments[1..], SegmentAll(segments[0], nodes)))
  }

  lemma {:induction false} CappedIsExact(segments: seq<Segment>, nodes: seq<Json>)
    requires Fits(segments, nodes)
    ensures Capped(segments, nodes) == Meaning(segments, nodes)
    decreases |segments|
  {
    if segments != [] {
      CappedIsExact(segments[1..], SegmentAll(segments[0], nodes));
      if SegmentAll(segments[0], nodes) == [] {
        NothingFromNothing(segments[1..]);
      }
    }
  }

  lemma {:induction false} NothingFromNothing(segments: seq<Segment>)
    ensures Meaning(segments, []) == []
    decreases |segments|
  {
    if segments != [] {
      NothingFromNothing(segments[1..]);
    }
  }

  /**
    The evaluator returns at most MAX_NODES values, always the first ones of what the path means,
    and all of them when no stage overflows the cap.
  */
  lemma EvaluatorRefinesMeaning(segments: seq<Segment>, value: Json)
    ensures |Evaluate(segments, value)| <= MAX_NODES
    ensures Evaluate(segments, value) <= Meaning(segments, [value])
    ensures Fits(segments, [value]) ==> Evaluate(segments, value) == Meaning(segments, [value])
  {
    CappedIsSmall(segments, [value]);
    CappedIsPrefix(segments, [value], [value]);
    if Fits(segments, [value]) {
      CappedIsExact(segments, [value]);
    }
  }

  // ----- Concrete paths -----

  lemma StepMeaning(step: Step, value: Json)
    ensures var child := Child(value, step);
      Cap(SegmentAll(SegmentOf(step), [value])) == if child.Some? then [child.value] else []
  {
    SegmentAllOne(SegmentOf(step), value);
  }

  lemma {:induction false} ConcretePathMeaning(path: seq<Step>, value: Json)
    ensures Evaluate(SegmentsOf(path), value) ==
      if Resolve(value, path).Some? then [Resolve(value, path).value] else []
    decreases |path|
  {
    if path != [] {
      var child := Child(value, path[0]);
      assert SegmentsOf(path)[1..] == SegmentsOf(path[1..]);
      StepMeaning(path[0], value);
      if child.Some? {
        ConcretePathMeaning(path[1..], child.value);
      }
    }
  }

  /**
    For every document and every path into it that `concretePath` can print: the printed text parses,
    and evaluating it finds exactly the one value at that path, and nothing when there is none.
  */
  lemma PrintedPathFindsItsValue(path: seq<Step>, value: Json)
    requires Concrete(path).Some?
    ensures var parsed := Parse(Concrete(path).value);
      parsed.Parsed? && Evaluate(parsed.segments, value) ==
        if Resolve(value, path).Some? then [Resolve(value, path).value] else []
  {
    ParseUndoesPrint(path);
    ConcretePathMeaning(path, value);
  }

  // ----- The `$..leaf` shorthand -----

  lemma {:induction false} DescendAllHas(nodes: seq<Json>, k: nat, name: string, depth: nat, w: Json)
    requires k < |nodes| && w in DescendMeaning(nodes[k], name, depth)
    ensures w in DescendAll(nodes, name, depth)
    decreases |nodes|
  {
    if k < |nodes| - 1 {
      DescendAllHas(nodes[..|nodes| - 1], k, name, depth, w);
    }
  }

  lemma ChildIsAmongChildren(node: Json, step: Step)
    requires Child(node, step).Some?
    ensures exists k :: 0 <= k < |ChildrenOf(node)| && ChildrenOf(node)[k] == Child(node, step).value
  {
    match step
    case At(index) => assert ChildrenOf(node)[index] == Child(node, step).value;
    case Key(name) =>
      LookupFinds(node.fields, name);
      var k :| && 0 <= k < |node.fields| && node.fields[k].key == name
               && node.fields[k].value == Lookup(node.fields, name).value;
      assert ChildrenOf(node)[k] == Child(node, step).value;
  }

  /** A value within the depth bound is among the matches of its own key. */
  lemma {:induction false} DescendFinds(node: Json, path: seq<Step>, leaf: string, depth: nat)
    requires path != [] && path[|path| - 1] == Key(leaf) && Resolve(node, path).Some?
    requires depth + |path| <= MAX_WALK_DEPTH + 1
    ensures Resolve(node, path).value in DescendMeaning(node, leaf, depth)
    decreases |path|
  {
    var child := Child(node, path[0]);
    if |path| == 1 {
      assert Resolve(child.value, path[1..]) == Some(child.value);
      assert Own(node, leaf) == [child.value];
    } else {
      assert path[1..][|path[1..]| - 1] == Key(leaf);
      DescendFinds(child.value, path[1..], leaf, depth + 1);
      DescendThroughChild(node, path[0], leaf, depth, Resolve(node, path).value);
    }
  }

  lemma DescendThroughChild(node: Json, step: Step, leaf: string, depth: nat, w: Json)
    requires Child(node, step).Some? && depth <= MAX_WALK_DEPTH
    requires w in DescendMeaning(Child(node, step).value, leaf, depth + 1)
    ensures w in DescendMeaning(node, leaf, depth)
  {
    ChildIsAmongChildren(node, step);
    var k :| 0 <= k < |ChildrenOf(node)| && ChildrenOf(node)[k] == Child(node, step).value;
    DescendAllHas(ChildrenOf(node), k, leaf, depth + 1, w);
  }

  /** When `$..leaf` has exactly one match, it is the value at any path within the bound that ends in `leaf`. */
  lemma SoleShorthandMatch(value: Json, path: seq<Step>, leaf: string)
    requires path != [] && path[|path| - 1] == Key(leaf) && |path| <= MAX_WALK_DEPTH
    requires IsName(leaf) && Resolve(value, path).Some?
    ensures var parsed := Parse("$.." + leaf);
      && parsed.Parsed? && Evaluate(parsed.segments, value) != []
      && (|Evaluate(parsed.segments, value)| == 1 ==> Evaluate(parsed.segments, value) == [Resolve(value, path).value])
  {
    ParseUndoesShorthand(leaf);
    DescendFinds(value, path, leaf, 0);
    DescendEvaluates(value, leaf);
    SoleMember(DescendMeaning(value, leaf, 0), Resolve(value, path).value);
  }

  lemma DescendEvaluates(value: Json, leaf: string)
    ensures Evaluate([Descend(leaf)], value) == Cap(DescendMeaning(value, leaf, 0))
  {
    SegmentAllOne(Descend(leaf), value);
    var next := Cap(DescendMeaning(value, leaf, 0));
    assert Capped([Descend(leaf)][1..], next) == next;
  }

  lemma SoleMember(all: seq<Json>, w: Json)
    requires w in all
    ensures Cap(all) != []
    ensures |Cap(all)| == 1 ==> Cap(all) == [w]
  {
  }
}
