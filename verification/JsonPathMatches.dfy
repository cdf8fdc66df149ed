/**
  What a path of packages/core/src/extract/json-path.ts finds, said by concrete paths alone: one
  value for each way to cut a concrete path into pieces that match the segments one by one.
*/
module JsonPathMatches {
  import opened Prelude
  import opened Json
  import opened JsonPath
  import opened JsonPathEvaluation
  import opened Branches
  import opened Sequences

  // ----- Which concrete paths a segment matches -----

  /** A key, a position, any one step, or any steps within the depth bound that end in the name. */
  predicate PieceMatches(segment: Segment, piece: seq<Step>) {
    match segment
    case Property(name) => piece == [Key(name)]
    case Index(index) => piece == [At(index)]
    case Wildcard => |piece| == 1
    case Descend(name) => 1 <= |piece| <= MAX_WALK_DEPTH + 1 && piece[|piece| - 1] == Key(name)
  }

  /** The steps out of a value, in document order. */
  function Steps(node: Json): (steps: seq<Step>)
    ensures |steps| == |ChildrenOf(node)|
  {
    match node
    case Array(items) => seq(|items|, i requires 0 <= i < |items| => At(i))
    case Object(fields) => seq(|fields|, i requires 0 <= i < |fields| => Key(fields[i].key))
    case _ => []
  }

  /** Where the key of a field stands. */
  function KeyPosition(fields: seq<Field>, name: string): (k: nat)
    requires Lookup(fields, name).Some?
    ensures k < |fields| && fields[k].key == name && Lookup(fields, name) == Some(fields[k].value)
  {
    if fields[0].key == name then 0 else 1 + KeyPosition(fields[1..], name)
  }

  /** Where a step stands among the steps out of a value. */
  function Position(node: Json, step: Step): (k: nat)
    requires Child(node, step).Some?
    ensures k < |Steps(node)| && Steps(node)[k] == step && ChildrenOf(node)[k] == Child(node, step).value
  {
    match step
    case At(index) => index
    case Key(name) => KeyPosition(node.fields, name)
  }

  lemma StepLeadsToChild(node: Json, k: nat)
    requires WellFormed(node) && k < |Steps(node)|
    ensures Child(node, Steps(node)[k]) == Some(ChildrenOf(node)[k]) && Position(node, Steps(node)[k]) == k
    ensures WellFormed(ChildrenOf(node)[k])
  {
    if node.Object? {
      LookupAt(node.fields, k);
    }
  }

  predicate StepBefore(node: Json, a: Step, b: Step) {
    Child(node, a).Some? && Child(node, b).Some? && Position(node, a) < Position(node, b)
  }

  /** The order of two matches of one segment: one that ends here comes first, then document order. */
  ghost predicate Before(node: Json, a: seq<Step>, b: seq<Step>)
    decreases |a|
  {
    && a != [] && b != []
    && if |a| == 1 && |b| > 1 then true
       else if |a| > 1 && |b| == 1 then false
       else if a[0] != b[0] then StepBefore(node, a[0], b[0])
       else |a| > 1 && Child(node, a[0]).Some? && Before(Child(node, a[0]).value, a[1..], b[1..])
  }

  lemma {:induction false} BeforeIsAsymmetric(node: Json, a: seq<Step>, b: seq<Step>)
    requires Before(node, a, b)
    ensures !Before(node, b, a)
    decreases |a|
  {
    if |a| > 1 && |b| > 1 && a[0] == b[0] {
      BeforeIsAsymmetric(Child(node, a[0]).value, a[1..], b[1..]);
    }
  }

  // ----- The matches of one segment, listed -----

  function OwnPiece(node: Json, name: string): seq<seq<Step>> {
    if Child(node, Key(name)).Some? then [[Key(name)]] else []
  }

  function DescendPieces(node: Json, name: string, depth: nat): seq<seq<Step>>
    decreases Left(depth), 0
  {
    if depth > MAX_WALK_DEPTH then []
    else OwnPiece(node, name) + Branched(Steps(node), PiecesBelow(node, name, depth + 1))
  }

  function PiecesBelow(node: Json, name: string, depth: nat): (below: seq<seq<seq<Step>>>)
    ensures |below| == |Steps(node)|
    decreases Left(depth), 1
  {
    seq(|Steps(node)|, l requires 0 <= l < |Steps(node)| => DescendPieces(ChildrenOf(node)[l], name, depth))
  }

  function MeaningsBelow(nodes: seq<Json>, name: string, depth: nat): seq<seq<Json>> {
    seq(|nodes|, l requires 0 <= l < |nodes| => DescendMeaning(nodes[l], name, depth))
  }

  lemma {:induction false} DescendAllJoins(nodes: seq<Json>, k: nat, name: string, depth: nat)
    requires k <= |nodes|
    ensures DescendAll(nodes[..k], name, depth) == JoinTo(MeaningsBelow(nodes, name, depth), k)
    decreases k
  {
    if k > 0 {
      DescendAllJoins(nodes, k - 1, name, depth);
      assert nodes[..k][..k - 1] == nodes[..k - 1];
    }
  }

  lemma DescendMeaningJoins(node: Json, name: string, depth: nat)
    requires depth <= MAX_WALK_DEPTH
    ensures DescendMeaning(node, name, depth)
      == Own(node, name) + JoinTo(MeaningsBelow(ChildrenOf(node), name, depth + 1), |ChildrenOf(node)|)
  {
    DescendAllJoins(ChildrenOf(node), |ChildrenOf(node)|, name, depth + 1);
    assert ChildrenOf(node)[..|ChildrenOf(node)|] == ChildrenOf(node);
  }

  /** The pieces lead to the values, one by one. */
  ghost predicate Lead(node: Json, pieces: seq<seq<Step>>, values: seq<Json>) {
    |pieces| == |values| && forall i :: 0 <= i < |pieces| ==> Resolve(node, pieces[i]) == Some(values[i])
  }

  lemma StepResolves(node: Json, step: Step, rest: seq<Step>)
    ensures Resolve(node, [step] + rest) ==
      if Child(node, step).None? then None else Resolve(Child(node, step).value, rest)
  {
    assert ([step] + rest)[1..] == rest;
  }

  lemma OneStepResolves(node: Json, step: Step)
    ensures Resolve(node, [step]) == Child(node, step)
  {
    StepResolves(node, step, []);
    assert [step] + [] == [step];
  }

  lemma OwnLeads(node: Json, name: string)
    ensures Lead(node, OwnPiece(node, name), Own(node, name))
  {
    OneStepResolves(node, Key(name));
  }

  lemma LeadAppend(node: Json, a: seq<seq<Step>>, x: seq<Json>, b: seq<seq<Step>>, y: seq<Json>)
    requires Lead(node, a, x) && Lead(node, b, y)
    ensures Lead(node, a + b, x + y)
  {
  }

  /** If what lies below each step leads to values there, what is branched leads to them from here. */
  lemma BranchedLead(node: Json, below: seq<seq<seq<Step>>>, values: seq<seq<Json>>)
    requires WellFormed(node) && |below| == |values| == |Steps(node)|
    requires forall l :: 0 <= l < |below| ==> Lead(ChildrenOf(node)[l], below[l], values[l])
    ensures Lead(node, Branched(Steps(node), below), JoinTo(values, |values|))
  {
    BranchedLength(Steps(node), below, values);
    forall i | 0 <= i < |Branched(Steps(node), below)|
      ensures Resolve(node, Branched(Steps(node), below)[i]) == Some(JoinTo(values, |values|)[i])
    {
      var l, j := BranchedLinesUp(Steps(node), below, values, i);
      StepLeadsToChild(node, l);
      StepResolves(node, Steps(node)[l], below[l][j]);
    }
  }

  lemma {:induction false} DescendPiecesLead(node: Json, name: string, depth: nat)
    requires WellFormed(node)
    ensures Lead(node, DescendPieces(node, name, depth), DescendMeaning(node, name, depth))
    decreases Left(depth)
  {
    if depth <= MAX_WALK_DEPTH {
      var children, below := ChildrenOf(node), PiecesBelow(node, name, depth + 1);
      var values := MeaningsBelow(children, name, depth + 1);
      forall l | 0 <= l < |below| ensures Lead(children[l], below[l], values[l]) {
        StepLeadsToChild(node, l);
        DescendPiecesLead(children[l], name, depth + 1);
      }
      BranchedLead(node, below, values);
      OwnLeads(node, name);
      LeadAppend(node, OwnPiece(node, name), Own(node, name), Branched(Steps(node), below), JoinTo(values, |values|));
      DescendMeaningJoins(node, name, depth);
    }
  }

  /** A path from `node` that ends in the name, of at most `bound` steps. */
  predicate Ends(node: Json, name: string, bound: nat, p: seq<Step>) {
    1 <= |p| <= bound && p[|p| - 1] == Key(name) && Resolve(node, p).Some?
  }

  /** Such a path ends here, or goes on below a child. */
  lemma EndsByStep(node: Json, name: string, bound: nat, p: seq<Step>)
    requires WellFormed(node) && bound > 0
    ensures Ends(node, name, bound, p) <==>
      || (p == [Key(name)] && Child(node, Key(name)).Some?)
      || (p != [] && exists l :: && 0 <= l < |Steps(node)| && Steps(node)[l] == p[0]
                                 && Ends(ChildrenOf(node)[l], name, bound - 1, p[1..]))
  {
    if p != [] {
      assert p == [p[0]] + p[1..];
      StepResolves(node, p[0], p[1..]);
      assert Child(node, p[0]).Some? ==> Steps(node)[Position(node, p[0])] == p[0];
      if l :| && 0 <= l < |Steps(node)| && Steps(node)[l] == p[0]
              && Ends(ChildrenOf(node)[l], name, bound - 1, p[1..]) {
        StepLeadsToChild(node, l);
      }
    }
  }

  lemma {:induction false} DescendPiecesIff(node: Json, name: string, depth: nat, p: seq<Step>)
    requires WellFormed(node)
    ensures p in DescendPieces(node, name, depth) <==> Ends(node, name, Left(depth), p)
    decreases Left(depth)
  {
    if depth <= MAX_WALK_DEPTH {
      var below := PiecesBelow(node, name, depth + 1);
      InBranched(Steps(node), below, p);
      if p != [] {
        forall l | 0 <= l < |below|
          ensures p[1..] in below[l] <==> Ends(ChildrenOf(node)[l], name, Left(depth + 1), p[1..])
        {
          StepLeadsToChild(node, l);
          DescendPiecesIff(ChildrenOf(node)[l], name, depth + 1, p[1..]);
        }
      }
      EndsByStep(node, name, Left(depth), p);
    }
  }

  ghost predicate Sorted(node: Json, pieces: seq<seq<Step>>) {
    forall i, j :: 0 <= i < j < |pieces| ==> Before(node, pieces[i], pieces[j])
  }

  /** Sorted below each step, sorted from here. */
  lemma BranchedSorted(node: Json, below: seq<seq<seq<Step>>>)
    requires WellFormed(node) && |below| == |Steps(node)|
    requires forall l :: 0 <= l < |below| ==> [] !in below[l] && Sorted(ChildrenOf(node)[l], below[l])
    ensures Sorted(node, Branched(Steps(node), below))
  {
    var pieces := Branched(Steps(node), below);
    forall i, k | 0 <= i < k < |pieces| ensures Before(node, pieces[i], pieces[k]) {
      var l, j, m, h := BranchedInOrder(Steps(node), below, i, k);
      assert below[l][j] in below[l] && below[m][h] in below[m];
      BranchesOrdered(node, l, below[l][j], m, below[m][h]);
    }
  }

  lemma BranchesOrdered(node: Json, l: nat, a: seq<Step>, m: nat, b: seq<Step>)
    requires WellFormed(node) && l <= m < |Steps(node)| && a != [] && b != []
    requires l == m ==> Before(ChildrenOf(node)[l], a, b)
    ensures Before(node, [Steps(node)[l]] + a, [Steps(node)[m]] + b)
  {
    StepLeadsToChild(node, l);
    StepLeadsToChild(node, m);
    assert ([Steps(node)[l]] + a)[1..] == a && ([Steps(node)[m]] + b)[1..] == b;
  }

  lemma NoEmptyPiece(node: Json, name: string, depth: nat)
    requires WellFormed(node)
    ensures [] !in DescendPieces(node, name, depth)
  {
    DescendPiecesIff(node, name, depth, []);
  }

  lemma {:induction false} DescendPiecesSorted(node: Json, name: string, depth: nat)
    requires WellFormed(node)
    ensures Sorted(node, DescendPieces(node, name, depth))
    decreases Left(depth)
  {
    if depth <= MAX_WALK_DEPTH {
      var below := PiecesBelow(node, name, depth + 1);
      forall l | 0 <= l < |below| ensures [] !in below[l] && Sorted(ChildrenOf(node)[l], below[l]) {
        StepLeadsToChild(node, l);
        NoEmptyPiece(ChildrenOf(node)[l], name, depth + 1);
        DescendPiecesSorted(ChildrenOf(node)[l], name, depth + 1);
      }
      BranchedSorted(node, below);
      OwnPieceFirst(node, name, below);
    }
  }

  lemma OwnPieceFirst(node: Json, name: string, below: seq<seq<seq<Step>>>)
    requires |below| == |Steps(node)| && Sorted(node, Branched(Steps(node), below))
    requires forall l :: 0 <= l < |below| ==> [] !in below[l]
    ensures Sorted(node, OwnPiece(node, name) + Branched(Steps(node), below))
  {
    forall p | p in Branched(Steps(node), below) ensures |p| > 1 {
      InBranched(Steps(node), below, p);
      var l :| 0 <= l < |below| && p[1..] in below[l];
      assert p[1..] != [];
    }
  }

  function Pieces(segment: Segment, node: Json): seq<seq<Step>> {
    match segment
    case Property(name) => if Child(node, Key(name)).Some? then [[Key(name)]] else []
    case Index(index) => if Child(node, At(index)).Some? then [[At(index)]] else []
    case Wildcard => seq(|Steps(node)|, i requires 0 <= i < |Steps(node)| => [Steps(node)[i]])
    case Descend(name) => DescendPieces(node, name, 0)
  }

  lemma PiecesLead(segment: Segment, node: Json)
    requires WellFormed(node)
    ensures Lead(node, Pieces(segment, node), SegmentMeaning(segment, node))
  {
    match segment
    case Property(name) => OwnLeads(node, name);
    case Index(index) => OneStepResolves(node, At(index));
    case Wildcard =>
      forall k | 0 <= k < |Steps(node)| ensures Resolve(node, [Steps(node)[k]]) == Some(ChildrenOf(node)[k]) {
        StepLeadsToChild(node, k);
        OneStepResolves(node, Steps(node)[k]);
      }
    case Descend(name) => DescendPiecesLead(node, name, 0);
  }

  lemma PiecesIff(segment: Segment, node: Json, p: seq<Step>)
    requires WellFormed(node)
    ensures p in Pieces(segment, node) <==> PieceMatches(segment, p) && Resolve(node, p).Some?
  {
    if |p| == 1 {
      OneStepResolves(node, p[0]);
      assert p == [p[0]];
    }
    match segment
    case Property(name) =>
    case Index(index) =>
    case Wildcard => WildcardIff(node, p);
    case Descend(name) => DescendPiecesIff(node, name, 0, p);
  }

  lemma WildcardIff(node: Json, p: seq<Step>)
    requires WellFormed(node)
    ensures p in Pieces(Wildcard, node) <==> |p| == 1 && Resolve(node, p).Some?
  {
    if p in Pieces(Wildcard, node) {
      var k :| 0 <= k < |Steps(node)| && Pieces(Wildcard, node)[k] == p;
      StepLeadsToChild(node, k);
      OneStepResolves(node, Steps(node)[k]);
    }
    if |p| == 1 && Resolve(node, p).Some? {
      assert p == [p[0]];
      OneStepResolves(node, p[0]);
      assert Pieces(Wildcard, node)[Position(node, p[0])] == p;
    }
  }

  lemma PiecesSorted(segment: Segment, node: Json)
    requires WellFormed(node)
    ensures Sorted(node, Pieces(segment, node))
  {
    match segment
    case Property(_) =>
    case Index(_) =>
    case Wildcard =>
      forall i, j | 0 <= i < j < |Steps(node)| ensures Before(node, [Steps(node)[i]], [Steps(node)[j]]) {
        StepLeadsToChild(node, i);
        StepLeadsToChild(node, j);
      }
    case Descend(name) => DescendPiecesSorted(node, name, 0);
  }

  // ----- The matches of a path -----

  /** One piece of a concrete path for each segment. */
  type Match = seq<seq<Step>>

  function Joined(m: Match): seq<Step> {
    if m == [] then [] else m[0] + Joined(m[1..])
  }

  ghost predicate PiecesMatch(segments: seq<Segment>, m: Match) {
    |m| == |segments| && forall i :: 0 <= i < |m| ==> PieceMatches(segments[i], m[i])
  }

  /** The pieces match the segments one by one, and joined they lead to a value. */
  ghost predicate IsMatch(segments: seq<Segment>, node: Json, m: Match) {
    PiecesMatch(segments, m) && Resolve(node, Joined(m)).Some?
  }

  function Reached(node: Json, p: seq<Step>): Json {
    if Resolve(node, p).Some? then Resolve(node, p).value else Null
  }

  /** Matches are ordered by the first piece in which they differ. */
  ghost predicate MatchBefore(node: Json, m: Match, n: Match)
    decreases |m|
  {
    && m != [] && n != []
    && if m[0] != n[0] then Before(node, m[0], n[0]) else MatchBefore(Reached(node, m[0]), m[1..], n[1..])
  }

  lemma {:induction false} ResolveJoined(node: Json, p: seq<Step>, rest: seq<Step>)
    ensures Resolve(node, p + rest) ==
      if Resolve(node, p).None? then None else Resolve(Resolve(node, p).value, rest)
    decreases |p|
  {
    if p == [] {
      assert p + rest == rest;
    } else {
      assert (p + rest)[1..] == p[1..] + rest;
      if Child(node, p[0]).Some? {
        ResolveJoined(Child(node, p[0]).value, p[1..], rest);
      }
    }
  }

  lemma {:induction false} ResolveKeepsWellFormed(node: Json, p: seq<Step>)
    requires WellFormed(node)
    ensures WellFormed(Reached(node, p))
    decreases |p|
  {
    if p != [] && Child(node, p[0]).Some? {
      StepLeadsToChild(node, Position(node, p[0]));
      ResolveKeepsWellFormed(Child(node, p[0]).value, p[1..]);
    }
  }

  lemma {:induction false} MatchBeforeIsAsymmetric(node: Json, m: Match, n: Match)
    requires MatchBefore(node, m, n)
    ensures !MatchBefore(node, n, m)
    decreases |m|
  {
    if m[0] != n[0] {
      BeforeIsAsymmetric(node, m[0], n[0]);
    } else {
      MatchBeforeIsAsymmetric(Reached(node, m[0]), m[1..], n[1..]);
    }
  }

  function Matches(segments: seq<Segment>, node: Json): seq<Match>
    decreases |segments|, 0
  {
    if segments == [] then [[]] else Branched(Pieces(segments[0], node), MatchesBehind(segments, node))
  }

  /** The matches of the other segments behind each piece of the first. */
  function MatchesBehind(segments: seq<Segment>, node: Json): (behind: seq<seq<Match>>)
    requires segments != []
    ensures |behind| == |Pieces(segments[0], node)|
    decreases |segments| - 1, 1
  {
    var pieces := Pieces(segments[0], node);
    seq(|pieces|, l requires 0 <= l < |pieces| => Matches(segments[1..], Reached(node, pieces[l])))
  }

  ghost predicate MatchesLead(node: Json, matches: seq<Match>, values: seq<Json>) {
    |matches| == |values| && forall i :: 0 <= i < |matches| ==> Resolve(node, Joined(matches[i])) == Some(values[i])
  }

  lemma {:induction false} MeaningAppend(segments: seq<Segment>, a: seq<Json>, b: seq<Json>)
    ensures Meaning(segments, a + b) == Meaning(segments, a) + Meaning(segments, b)
    decreases |segments|
  {
    if segments != [] {
      FlatMapAppend(MeaningOf(segments[0]), a, b);
      MeaningAppend(segments[1..], SegmentAll(segments[0], a), SegmentAll(segments[0], b));
    }
  }

  function Meanings(segments: seq<Segment>, values: seq<Json>): seq<seq<Json>> {
    seq(|values|, l requires 0 <= l < |values| => Meaning(segments, [values[l]]))
  }

  lemma MeaningSnoc(segments: seq<Segment>, values: seq<Json>, k: nat)
    requires 0 < k <= |values|
    ensures Meaning(segments, values[..k]) == Meaning(segments, values[..k - 1]) + Meaning(segments, [values[k - 1]])
  {
    assert values[..k] == values[..k - 1] + [values[k - 1]];
    MeaningAppend(segments, values[..k - 1], [values[k - 1]]);
  }

  lemma MeaningJoins(segments: seq<Segment>, values: seq<Json>)
    ensures Meaning(segments, values) == JoinTo(Meanings(segments, values), |values|)
  {
    var n, lists := |values|, Meanings(segments, values);
    var sums := seq(n + 1, k requires 0 <= k <= n => Meaning(segments, values[..k]));
    NothingFromNothing(segments);
    forall k | 0 <= k < n ensures sums[k + 1] == sums[k] + lists[k] {
      MeaningSnoc(segments, values, k + 1);
    }
    JoinsUp(sums, lists, n);
    assert values[..n] == values;
  }

  /** What a path means from a node, by the nodes its first segment leads to. */
  lemma MeaningByFirst(segments: seq<Segment>, node: Json, values: seq<Json>)
    requires segments != [] && values == SegmentMeaning(segments[0], node)
    ensures Meaning(segments, [node]) == JoinTo(Meanings(segments[1..], values), |values|)
  {
    SegmentAllOne(segments[0], node);
    MeaningJoins(segments[1..], values);
  }

  lemma {:induction false} MatchesLeadTo(segments: seq<Segment>, node: Json)
    requires WellFormed(node)
    ensures MatchesLead(node, Matches(segments, node), Meaning(segments, [node]))
    decreases |segments|
  {
    if segments != [] {
      var pieces, values := Pieces(segments[0], node), SegmentMeaning(segments[0], node);
      PiecesLead(segments[0], node);
      forall l | 0 <= l < |pieces|
        ensures MatchesLead(values[l], MatchesBehind(segments, node)[l], Meanings(segments[1..], values)[l])
      {
        ResolveKeepsWellFormed(node, pieces[l]);
        MatchesLeadTo(segments[1..], values[l]);
      }
      BehindLead(node, pieces, MatchesBehind(segments, node), values, Meanings(segments[1..], values));
      MeaningByFirst(segments, node, values);
    }
  }

  lemma BehindLead(node: Json, pieces: seq<seq<Step>>, behind: seq<seq<Match>>, from: seq<Json>, values: seq<seq<Json>>)
    requires |pieces| == |behind| == |values| && Lead(node, pieces, from)
    requires forall l :: 0 <= l < |pieces| ==> MatchesLead(from[l], behind[l], values[l])
    ensures MatchesLead(node, Branched(pieces, behind), JoinTo(values, |values|))
  {
    BranchedLength(pieces, behind, values);
    forall i | 0 <= i < |Branched(pieces, behind)|
      ensures Resolve(node, Joined(Branched(pieces, behind)[i])) == Some(JoinTo(values, |values|)[i])
    {
      var l, j := BranchedLinesUp(pieces, behind, values, i);
      JoinedBehind(pieces[l], behind[l][j]);
      ResolveJoined(node, pieces[l], Joined(behind[l][j]));
    }
  }

  lemma JoinedBehind(piece: seq<Step>, m: Match)
    ensures Joined([piece] + m) == piece + Joined(m)
  {
    assert ([piece] + m)[1..] == m;
  }

  lemma IsMatchByPiece(segments: seq<Segment>, node: Json, m: Match)
    requires WellFormed(node) && segments != []
    ensures IsMatch(segments, node, m) <==>
      && m != [] && m[0] in Pieces(segments[0], node)
      && IsMatch(segments[1..], Reached(node, m[0]), m[1..])
  {
    if m != [] {
      PiecesIff(segments[0], node, m[0]);
      ResolveJoined(node, m[0], Joined(m[1..]));
      PiecesMatchByPiece(segments, m);
    }
  }

  lemma PiecesMatchByPiece(segments: seq<Segment>, m: Match)
    requires segments != [] && m != []
    ensures PiecesMatch(segments, m) <==> PieceMatches(segments[0], m[0]) && PiecesMatch(segments[1..], m[1..])
  {
    if PieceMatches(segments[0], m[0]) && PiecesMatch(segments[1..], m[1..]) {
      forall i | 0 <= i < |m| ensures PieceMatches(segments[i], m[i]) {
        if i > 0 {
          assert PieceMatches(segments[1..][i - 1], m[1..][i - 1]);
        }
      }
    }
  }

  lemma {:induction false} MatchesIff(segments: seq<Segment>, node: Json, m: Match)
    requires WellFormed(node)
    ensures m in Matches(segments, node) <==> IsMatch(segments, node, m)
    decreases |segments|
  {
    if segments != [] {
      var pieces, behind := Pieces(segments[0], node), MatchesBehind(segments, node);
      InBranched(pieces, behind, m);
      IsMatchByPiece(segments, node, m);
      if m != [] {
        forall l | 0 <= l < |pieces|
          ensures m[1..] in behind[l] <==> IsMatch(segments[1..], Reached(node, pieces[l]), m[1..])
        {
          ResolveKeepsWellFormed(node, pieces[l]);
          MatchesIff(segments[1..], Reached(node, pieces[l]), m[1..]);
        }
      }
    }
  }

  ghost predicate InOrder(node: Json, matches: seq<Match>) {
    forall i, j :: 0 <= i < j < |matches| ==> MatchBefore(node, matches[i], matches[j])
  }

  lemma {:induction false} MatchesInOrder(segments: seq<Segment>, node: Json)
    requires WellFormed(node)
    ensures InOrder(node, Matches(segments, node))
    decreases |segments|
  {
    if segments != [] {
      var pieces, behind := Pieces(segments[0], node), MatchesBehind(segments, node);
      PiecesSorted(segments[0], node);
      forall l | 0 <= l < |pieces| ensures InOrder(Reached(node, pieces[l]), behind[l]) {
        ResolveKeepsWellFormed(node, pieces[l]);
        MatchesInOrder(segments[1..], Reached(node, pieces[l]));
      }
      BehindInOrder(node, pieces, behind);
    }
  }

  lemma BehindInOrder(node: Json, pieces: seq<seq<Step>>, behind: seq<seq<Match>>)
    requires WellFormed(node) && |pieces| == |behind| && Sorted(node, pieces)
    requires forall l :: 0 <= l < |pieces| ==> InOrder(Reached(node, pieces[l]), behind[l])
    ensures InOrder(node, Branched(pieces, behind))
  {
    var matches := Branched(pieces, behind);
    forall i, k | 0 <= i < k < |matches| ensures MatchBefore(node, matches[i], matches[k]) {
      var l, j, m, h := BranchedInOrder(pieces, behind, i, k);
      BehindOrdered(node, pieces, l, behind[l][j], m, behind[m][h]);
    }
  }

  lemma BehindOrdered(node: Json, pieces: seq<seq<Step>>, l: nat, a: Match, m: nat, b: Match)
    requires WellFormed(node) && Sorted(node, pieces) && l <= m < |pieces|
    requires l == m ==> MatchBefore(Reached(node, pieces[l]), a, b)
    ensures MatchBefore(node, [pieces[l]] + a, [pieces[m]] + b)
  {
    if l < m {
      assert Before(node, pieces[l], pieces[m]);
      if pieces[l] == pieces[m] {
        BeforeIsAsymmetric(node, pieces[l], pieces[m]);
      }
    } else {
      assert ([pieces[l]] + a)[1..] == a && ([pieces[m]] + b)[1..] == b;
    }
  }

  // ----- What the evaluator finds -----

  /** All matches, each once, in the order of their pieces. */
  ghost predicate ListsMatches(segments: seq<Segment>, value: Json, matches: seq<Match>) {
    && (forall m :: m in matches <==> IsMatch(segments, value, m))
    && InOrder(value, matches)
  }

  /**
    The evaluator finds the value of every match, each once and in order: the first ones always, and
    all of them where no stage overflows the cap.
  */
  lemma EvaluateFindsTheMatches(segments: seq<Segment>, value: Json) returns (matches: seq<Match>)
    requires WellFormed(value)
    ensures ListsMatches(segments, value, matches)
    ensures |Evaluate(segments, value)| <= |matches|
    ensures forall i :: 0 <= i < |Evaluate(segments, value)| ==>
      Resolve(value, Joined(matches[i])) == Some(Evaluate(segments, value)[i])
    ensures Fits(segments, [value]) ==> |Evaluate(segments, value)| == |matches|
  {
    matches := Matches(segments, value);
    forall m ensures m in matches <==> IsMatch(segments, value, m) {
      MatchesIff(segments, value, m);
    }
    MatchesInOrder(segments, value);
    MatchesLeadTo(segments, value);
    EvaluatorRefinesMeaning(segments, value);
  }

  /** In an ordered list of matches each stands once. */
  lemma StandsOnce(value: Json, matches: seq<Match>, i: nat, j: nat)
    requires WellFormed(value) && InOrder(value, matches) && i < j < |matches|
    ensures matches[i] != matches[j] && !MatchBefore(value, matches[j], matches[i])
  {
    assert MatchBefore(value, matches[i], matches[j]);
    MatchBeforeIsAsymmetric(value, matches[i], matches[j]);
  }

  lemma SameAt(segments: seq<Segment>, value: Json, a: seq<Match>, b: seq<Match>, k: nat)
    requires WellFormed(value) && ListsMatches(segments, value, a) && ListsMatches(segments, value, b)
    requires k < |a| && k <= |b| && forall i :: 0 <= i < k ==> a[i] == b[i]
    ensures k < |b| && a[k] == b[k]
  {
    var l := FoundAgain(segments, value, a, b, k);
    var n := FoundAgain(segments, value, b, a, k);
    if l > k && n > k {
      assert MatchBefore(value, a[k], a[n]);
      StandsOnce(value, b, k, l);
    }
  }

  lemma FoundAgain(segments: seq<Segment>, value: Json, a: seq<Match>, b: seq<Match>, k: nat) returns (l: nat)
    requires WellFormed(value) && ListsMatches(segments, value, a) && ListsMatches(segments, value, b)
    requires k < |a| && k <= |b| && forall i :: 0 <= i < k ==> a[i] == b[i]
    ensures k <= l < |b| && b[l] == a[k]
  {
    assert a[k] in a && a[k] in b;
    l :| 0 <= l < |b| && b[l] == a[k];
    if l < k {
      StandsOnce(value, a, l, k);
    }
  }

  lemma {:induction false} SameUpTo(segments: seq<Segment>, value: Json, a: seq<Match>, b: seq<Match>, k: nat)
    requires WellFormed(value) && ListsMatches(segments, value, a) && ListsMatches(segments, value, b)
    requires k <= |a|
    ensures k <= |b| && forall i :: 0 <= i < k ==> a[i] == b[i]
  {
    if k > 0 {
      SameUpTo(segments, value, a, b, k - 1);
      SameAt(segments, value, a, b, k - 1);
    }
  }

  /** There is only one such list. */
  lemma MatchesAreListedOnce(segments: seq<Segment>, value: Json, a: seq<Match>, b: seq<Match>)
    requires WellFormed(value) && ListsMatches(segments, value, a) && ListsMatches(segments, value, b)
    ensures a == b
  {
    SameUpTo(segments, value, a, b, |a|);
    SameUpTo(segments, value, b, a, |b|);
  }
}
