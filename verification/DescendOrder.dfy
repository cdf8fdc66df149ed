/**
  The order in which `descend` of packages/core/src/extract/json-path.ts finds its matches. An
  object's own match is pushed before anything below the object's fields, so a match further
  down is overtaken by one that stands behind it in the document.
*/
module DescendOrder {
  import opened Prelude
  import opened Json
  import opened JsonPath
  import opened JsonPathEvaluation
  import opened JsonPathMatches
  import opened Sequences
  import opened Branches

  /** `a` stands before `b` in the document: it contains it, or comes first where they part. */
  ghost predicate DocumentBefore(node: Json, a: seq<Step>, b: seq<Step>)
    decreases |a|
  {
    && b != []
    && if a == [] then true
       else if a[0] != b[0] then StepBefore(node, a[0], b[0])
       else Child(node, a[0]).Some? && DocumentBefore(Child(node, a[0]).value, a[1..], b[1..])
  }

  /** What `$..name` matches. */
  predicate IsNamed(value: Json, name: string, p: seq<Step>) {
    PieceMatches(Descend(name), p) && Resolve(value, p).Some?
  }

  /** An object on the way to `b` has the name itself, in a field behind the one that leads on to `b`. */
  ghost predicate Overtaken(value: Json, name: string, q: seq<Step>, b: seq<Step>) {
    && |b| >= |q| + 2 && b[..|q|] == q
    && IsNamed(value, name, b) && IsNamed(value, name, q + [Key(name)])
    && StepBefore(Reached(value, q), b[|q|], Key(name))
  }

  /** `a` ends at an object on the way to `b`, in a field behind the one that leads on to `b`. */
  ghost predicate EndsBehind(node: Json, a: seq<Step>, b: seq<Step>)
    decreases |a|
  {
    && a != [] && |b| > 1
    && if |a| == 1 then StepBefore(node, b[0], a[0])
       else a[0] == b[0] && Child(node, a[0]).Some? && EndsBehind(Child(node, a[0]).value, a[1..], b[1..])
  }

  /** Where the search and the document disagree on the order of two matches. */
  lemma {:induction false} DisagreeIff(node: Json, a: seq<Step>, b: seq<Step>)
    requires a != [] && b != [] && a[|a| - 1] == b[|b| - 1] && Resolve(node, a).Some? && Resolve(node, b).Some?
    ensures Before(node, a, b) && !DocumentBefore(node, a, b) <==> EndsBehind(node, a, b)
    decreases |a|
  {
    assert a[0] != b[0] ==> Position(node, a[0]) != Position(node, b[0]);
    if |a| > 1 && |b| > 1 && a[0] == b[0] {
      DisagreeIff(Child(node, a[0]).value, a[1..], b[1..]);
    }
  }

  /** The same, by the path to the object. */
  lemma {:induction false} EndsBehindAt(node: Json, q: seq<Step>, step: Step, b: seq<Step>)
    requires Resolve(node, q).Some?
    ensures EndsBehind(node, q + [step], b) <==>
      |b| >= |q| + 2 && b[..|q|] == q && StepBefore(Reached(node, q), b[|q|], step)
    decreases |q|
  {
    var a := q + [step];
    if q != [] {
      assert a[0] == q[0] && a[1..] == q[1..] + [step];
      EndsBehindAt(Child(node, q[0]).value, q[1..], step, b[if b == [] then 0 else 1..]);
      if b != [] {
        FrontMatches(q, b);
      }
    }
  }

  lemma FrontMatches<T>(q: seq<T>, b: seq<T>)
    requires q != [] && b != []
    ensures |b| >= |q| ==> (b[..|q|] == q <==> b[0] == q[0] && b[1..][..|q| - 1] == q[1..])
  {
    if |b| >= |q| {
      assert b[..|q|] == [b[0]] + b[1..][..|q| - 1] && q == [q[0]] + q[1..];
    }
  }

  lemma {:induction false} FrontResolves(node: Json, q: seq<Step>, step: Step)
    requires Resolve(node, q + [step]).Some?
    ensures Resolve(node, q).Some?
  {
    ResolveJoined(node, q, [step]);
  }

  /** The paths to the matches of `$..name`, each once, in the order their values are found. */
  ghost predicate ListsPaths(value: Json, name: string, paths: seq<seq<Step>>, found: seq<Json>) {
    && (forall p :: p in paths <==> IsNamed(value, name, p))
    && Lead(value, paths, found)
    && (forall i, j :: 0 <= i < j < |paths| ==> paths[i] != paths[j])
  }

  ghost predicate InDocumentOrder(value: Json, paths: seq<seq<Step>>) {
    forall i, j :: 0 <= i < j < |paths| ==> DocumentBefore(value, paths[i], paths[j])
  }

  lemma SortedAreDistinct(value: Json, paths: seq<seq<Step>>, i: nat, j: nat)
    requires Sorted(value, paths) && i < j < |paths|
    ensures paths[i] != paths[j] && !Before(value, paths[j], paths[i])
  {
    assert Before(value, paths[i], paths[j]);
    BeforeIsAsymmetric(value, paths[i], paths[j]);
  }

  lemma NamedIff(value: Json, name: string, bound: nat, p: seq<Step>)
    requires bound == MAX_WALK_DEPTH + 1
    ensures Ends(value, name, bound, p) <==> IsNamed(value, name, p)
  {
  }

  /** The depth is a parameter here, so that the search is not unfolded. */
  lemma DescendLists(value: Json, name: string, depth: nat, paths: seq<seq<Step>>)
    requires WellFormed(value) && depth == 0 && paths == DescendPieces(value, name, depth)
    ensures ListsPaths(value, name, paths, DescendMeaning(value, name, depth)) && Sorted(value, paths)
  {
    forall p ensures p in paths <==> IsNamed(value, name, p) {
      DescendPiecesIff(value, name, depth, p);
      NamedIff(value, name, Left(depth), p);
    }
    DescendPiecesLead(value, name, depth);
    DescendPiecesSorted(value, name, depth);
    forall i, j | 0 <= i < j < |paths| ensures paths[i] != paths[j] {
      SortedAreDistinct(value, paths, i, j);
    }
  }

  lemma DescendIsEvaluated(value: Json, name: string, depth: nat)
    requires Fits([Descend(name)], [value]) && depth == 0
    ensures Evaluate([Descend(name)], value) == DescendMeaning(value, name, depth)
  {
    SegmentAllOne(Descend(name), value);
    DescendEvaluates(value, name);
  }

  lemma PairOvertaken(value: Json, name: string, a: seq<Step>, b: seq<Step>)
    requires IsNamed(value, name, a) && IsNamed(value, name, b)
    requires Before(value, a, b) && !DocumentBefore(value, a, b)
    ensures Overtaken(value, name, a[..|a| - 1], b)
  {
    var q := a[..|a| - 1];
    assert a == q + [Key(name)];
    DisagreeIff(value, a, b);
    FrontResolves(value, q, Key(name));
    EndsBehindAt(value, q, Key(name), b);
  }

  lemma OvertakenPair(value: Json, name: string, q: seq<Step>, b: seq<Step>)
    requires Overtaken(value, name, q, b)
    ensures Before(value, q + [Key(name)], b) && !DocumentBefore(value, q + [Key(name)], b)
  {
    FrontResolves(value, q, Key(name));
    EndsBehindAt(value, q, Key(name), b);
    DisagreeIff(value, q + [Key(name)], b);
  }

  lemma PairIsOutOfOrder(value: Json, paths: seq<seq<Step>>, a: seq<Step>, b: seq<Step>)
    requires Sorted(value, paths) && a in paths && b in paths
    requires Before(value, a, b) && !DocumentBefore(value, a, b)
    ensures !InDocumentOrder(value, paths)
  {
    var i := PlaceIn(paths, a);
    var j := PlaceIn(paths, b);
    if j < i {
      SortedAreDistinct(value, paths, j, i);
    } else {
      BeforeIsAsymmetric(value, a, b);
    }
  }

  ghost predicate AnyOvertaken(value: Json, name: string) {
    exists q, b :: Overtaken(value, name, q, b)
  }

  lemma PairsAreInOrder(value: Json, name: string, paths: seq<seq<Step>>)
    requires Sorted(value, paths) && (forall p :: p in paths ==> IsNamed(value, name, p))
    requires !AnyOvertaken(value, name)
    ensures InDocumentOrder(value, paths)
  {
    forall i, j | 0 <= i < j < |paths| ensures DocumentBefore(value, paths[i], paths[j]) {
      assert paths[i] in paths && paths[j] in paths && Before(value, paths[i], paths[j]);
      if !DocumentBefore(value, paths[i], paths[j]) {
        PairOvertaken(value, name, paths[i], paths[j]);
      }
    }
  }

  lemma OvertakenIsOutOfOrder(value: Json, name: string, paths: seq<seq<Step>>)
    requires Sorted(value, paths) && (forall p :: IsNamed(value, name, p) ==> p in paths)
    requires AnyOvertaken(value, name)
    ensures !InDocumentOrder(value, paths)
  {
    var q, b :| Overtaken(value, name, q, b);
    OvertakenPair(value, name, q, b);
    PairIsOutOfOrder(value, paths, q + [Key(name)], b);
  }

  lemma SortedOrderIff(value: Json, name: string, paths: seq<seq<Step>>)
    requires Sorted(value, paths) && (forall p :: p in paths <==> IsNamed(value, name, p))
    ensures InDocumentOrder(value, paths) <==> !AnyOvertaken(value, name)
  {
    if AnyOvertaken(value, name) {
      OvertakenIsOutOfOrder(value, name, paths);
    } else {
      PairsAreInOrder(value, name, paths);
    }
  }

  lemma DescendOrderIff(value: Json, name: string, depth: nat) returns (paths: seq<seq<Step>>)
    requires WellFormed(value) && depth == 0
    ensures ListsPaths(value, name, paths, DescendMeaning(value, name, depth))
    ensures InDocumentOrder(value, paths) <==> !AnyOvertaken(value, name)
  {
    paths := DescendPieces(value, name, depth);
    DescendLists(value, name, depth, paths);
    SortedOrderIff(value, name, paths);
  }

  /**
    `$..name` returns its matches in document order exactly if no object on the way to a match has
    the name in a field behind the one that leads on to that match.
  */
  lemma DocumentOrderIff(value: Json, name: string) returns (paths: seq<seq<Step>>)
    requires WellFormed(value) && Fits([Descend(name)], [value])
    ensures ListsPaths(value, name, paths, Evaluate([Descend(name)], value))
    ensures InDocumentOrder(value, paths) <==> !AnyOvertaken(value, name)
  {
    paths := DescendOrderIff(value, name, 0);
    DescendIsEvaluated(value, name, 0);
  }

  lemma NamedBehind(key: string, u: Json, name: string, v: Json, depth: nat)
    requires depth <= MAX_WALK_DEPTH && key != name
    ensures DescendMeaning(Object([Field(key, u), Field(name, v)]), name, depth)
      == [v] + (DescendMeaning(u, name, depth + 1) + DescendMeaning(v, name, depth + 1))
  {
    var node := Object([Field(key, u), Field(name, v)]);
    NamedSecond(key, u, name, v);
    DescendMeaningJoins(node, name, depth);
    JoinTwo(MeaningsBelow(ChildrenOf(node), name, depth + 1));
    assert ChildrenOf(node)[0] == u && ChildrenOf(node)[1] == v;
  }

  lemma NamedSecond(key: string, u: Json, name: string, v: Json)
    requires key != name
    ensures Child(Object([Field(key, u), Field(name, v)]), Key(name)) == Some(v)
    ensures StepBefore(Object([Field(key, u), Field(name, v)]), Key(key), Key(name))
  {
    var fields := [Field(key, u), Field(name, v)];
    assert fields[1..] == [Field(name, v)];
    assert Lookup(fields[1..], name) == Some(v);
  }

  lemma NothingBelowText(s: string, name: string, depth: nat)
    ensures DescendMeaning(Text(s), name, depth) == []
  {
  }

  lemma TextNamedBehind(key: string, u: Json, name: string, s: string, depth: nat)
    requires depth <= MAX_WALK_DEPTH && key != name
    ensures DescendMeaning(Object([Field(key, u), Field(name, Text(s))]), name, depth)
      == [Text(s)] + DescendMeaning(u, name, depth + 1)
  {
    NamedBehind(key, u, name, Text(s), depth);
    NothingBelowText(s, name, depth + 1);
  }

  /** Such a document: an earlier field holds a match, and the object has one of its own behind it. */
  lemma DocumentOrderIsNotKept(key: string, name: string, s: string, t: string)
    requires key != name
    ensures var inner := Object([Field(key, Text(t)), Field(name, Text(s))]);
      var value := Object([Field(key, inner), Field(name, Text(t))]);
      && Evaluate([Descend(name)], value) == [Text(t), Text(s)]
      && DocumentBefore(value, [Key(key), Key(name)], [Key(name)])
  {
    var inner := Object([Field(key, Text(t)), Field(name, Text(s))]);
    var value := Object([Field(key, inner), Field(name, Text(t))]);
    TextNamedBehind(key, inner, name, t, 0);
    TextNamedBehind(key, Text(t), name, s, 1);
    NothingBelowText(t, name, 2);
    DescendEvaluates(value, name);
    NamedSecond(key, inner, name, Text(t));
  }
}
