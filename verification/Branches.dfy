/** Sequences of sequences joined end to end: where the elements of the pieces end up. */
module Branches {
  import opened Sequences

  lemma {:induction false} JoinGrows<T>(lists: seq<seq<T>>, l: nat, n: nat)
    requires l <= n <= |lists|
    ensures JoinTo(lists, l) <= JoinTo(lists, n)
    decreases n
  {
    if l < n {
      JoinGrows(lists, l, n - 1);
    }
  }

  /** The place of an element of a piece in the joined sequence. */
  lemma PlaceOf<T>(lists: seq<seq<T>>, n: nat, l: nat, j: nat)
    requires l < n <= |lists| && j < |lists[l]|
    ensures |JoinTo(lists, l)| + j < |JoinTo(lists, l + 1)| <= |JoinTo(lists, n)|
    ensures JoinTo(lists, n)[|JoinTo(lists, l)| + j] == lists[l][j]
  {
    JoinGrows(lists, l + 1, n);
    assert JoinTo(lists, l + 1) == JoinTo(lists, l) + lists[l];
  }

  /** Every element of the joined sequence stands at such a place. */
  lemma {:induction false} PieceOf<T>(lists: seq<seq<T>>, n: nat, i: nat) returns (l: nat, j: nat)
    requires n <= |lists| && i < |JoinTo(lists, n)|
    ensures l < n && j < |lists[l]| && lists[l][j] == JoinTo(lists, n)[i] && i == |JoinTo(lists, l)| + j
    decreases n
  {
    if i < |JoinTo(lists, n - 1)| {
      l, j := PieceOf(lists, n - 1, i);
    } else {
      l, j := n - 1, i - |JoinTo(lists, n - 1)|;
    }
  }

  lemma InJoined<T>(lists: seq<seq<T>>, n: nat, x: T)
    requires n <= |lists|
    ensures x in JoinTo(lists, n) <==> exists l :: 0 <= l < n && x in lists[l]
  {
    if x in JoinTo(lists, n) {
      var i :| 0 <= i < |JoinTo(lists, n)| && JoinTo(lists, n)[i] == x;
      var l, j := PieceOf(lists, n, i);
    }
    if l :| 0 <= l < n && x in lists[l] {
      var j :| 0 <= j < |lists[l]| && lists[l][j] == x;
      PlaceOf(lists, n, l, j);
    }
  }

  /** Of two elements the one that comes first is in an earlier piece, or earlier in the same one. */
  lemma PiecesInOrder<T>(lists: seq<seq<T>>, n: nat, i: nat, k: nat) returns (l: nat, j: nat, m: nat, h: nat)
    requires n <= |lists| && i < k < |JoinTo(lists, n)|
    ensures l < n && j < |lists[l]| && lists[l][j] == JoinTo(lists, n)[i]
    ensures m < n && h < |lists[m]| && lists[m][h] == JoinTo(lists, n)[k]
    ensures l < m || (l == m && j < h)
  {
    l, j := PieceOf(lists, n, i);
    m, h := PieceOf(lists, n, k);
    if m < l {
      PlaceOf(lists, n, m, h);
      JoinGrows(lists, m + 1, l);
    }
  }

  lemma {:induction false} SameLengths<T, U>(a: seq<seq<T>>, b: seq<seq<U>>, n: nat)
    requires n <= |a| && n <= |b| && forall l :: 0 <= l < n ==> |a[l]| == |b[l]|
    ensures |JoinTo(a, n)| == |JoinTo(b, n)|
  {
    if n > 0 {
      SameLengths(a, b, n - 1);
    }
  }

  /** Pieces of the same lengths line up. */
  lemma LineUp<T, U>(a: seq<seq<T>>, b: seq<seq<U>>, n: nat, i: nat) returns (l: nat, j: nat)
    requires n <= |a| && n <= |b| && forall l :: 0 <= l < n ==> |a[l]| == |b[l]|
    requires i < |JoinTo(a, n)|
    ensures |JoinTo(a, n)| == |JoinTo(b, n)|
    ensures l < n && j < |a[l]| && JoinTo(a, n)[i] == a[l][j] && JoinTo(b, n)[i] == b[l][j]
  {
    l, j := PieceOf(a, n, i);
    SameLengths(a, b, l);
    SameLengths(a, b, n);
    PlaceOf(b, n, l, j);
  }

  /** What grows by one piece after the other is what is joined from them. */
  lemma {:induction false} JoinsUp<T>(sums: seq<seq<T>>, lists: seq<seq<T>>, n: nat)
    requires n < |sums| && n <= |lists| && sums[0] == []
    requires forall k :: 0 <= k < n ==> sums[k + 1] == sums[k] + lists[k]
    ensures sums[n] == JoinTo(lists, n)
  {
    if n > 0 {
      JoinsUp(sums, lists, n - 1);
      assert sums[n - 1 + 1] == sums[n - 1] + lists[n - 1];
    }
  }

  lemma JoinTwo<T>(lists: seq<seq<T>>)
    requires |lists| == 2
    ensures JoinTo(lists, 2) == lists[0] + lists[1]
  {
    assert JoinTo(lists, 1) == [] + lists[0];
  }

  lemma PlaceIn<T>(s: seq<T>, x: T) returns (i: nat)
    requires x in s
    ensures i < |s| && s[i] == x
  {
    i :| 0 <= i < |s| && s[i] == x;
  }

  /** A step in front of every sequence. */
  function Prefixed<T>(step: T, pieces: seq<seq<T>>): (r: seq<seq<T>>)
    ensures |r| == |pieces| && forall i :: 0 <= i < |r| ==> r[i] == [step] + pieces[i]
  {
    seq(|pieces|, i requires 0 <= i < |pieces| => [step] + pieces[i])
  }

  lemma InPrefixed<T>(step: T, pieces: seq<seq<T>>, p: seq<T>)
    ensures p in Prefixed(step, pieces) <==> p != [] && p[0] == step && p[1..] in pieces
  {
    if p in Prefixed(step, pieces) {
      var i :| 0 <= i < |pieces| && Prefixed(step, pieces)[i] == p;
      assert p[1..] == pieces[i];
    }
    if p != [] && p[0] == step && p[1..] in pieces {
      var i :| 0 <= i < |pieces| && pieces[i] == p[1..];
      assert Prefixed(step, pieces)[i] == p;
    }
  }

  /** What starts with the `l`-th step and goes on with one of its `below`, for all `l` in order. */
  function Branched<T>(steps: seq<T>, below: seq<seq<seq<T>>>): (r: seq<seq<T>>)
    requires |steps| == |below|
  {
    JoinTo(seq(|steps|, l requires 0 <= l < |steps| => Prefixed(steps[l], below[l])), |steps|)
  }

  lemma InBranched<T>(steps: seq<T>, below: seq<seq<seq<T>>>, p: seq<T>)
    requires |steps| == |below|
    ensures p in Branched(steps, below) <==>
      p != [] && exists l :: 0 <= l < |steps| && steps[l] == p[0] && p[1..] in below[l]
  {
    var lists := seq(|steps|, l requires 0 <= l < |steps| => Prefixed(steps[l], below[l]));
    InJoined(lists, |steps|, p);
    forall l | 0 <= l < |steps| ensures p in lists[l] <==> p != [] && p[0] == steps[l] && p[1..] in below[l] {
      InPrefixed(steps[l], below[l], p);
    }
  }

  lemma BranchedInOrder<T>(steps: seq<T>, below: seq<seq<seq<T>>>, i: nat, k: nat)
    returns (l: nat, j: nat, m: nat, h: nat)
    requires |steps| == |below| && i < k < |Branched(steps, below)|
    ensures l < |steps| && j < |below[l]| && Branched(steps, below)[i] == [steps[l]] + below[l][j]
    ensures m < |steps| && h < |below[m]| && Branched(steps, below)[k] == [steps[m]] + below[m][h]
    ensures l < m || (l == m && j < h)
  {
    var lists := seq(|steps|, l requires 0 <= l < |steps| => Prefixed(steps[l], below[l]));
    l, j, m, h := PiecesInOrder(lists, |steps|, i, k);
  }

  /** What is joined from values listed below each step lines up with what is branched. */
  lemma BranchedLinesUp<T, U>(steps: seq<T>, below: seq<seq<seq<T>>>, values: seq<seq<U>>, i: nat)
    returns (l: nat, j: nat)
    requires |steps| == |below| == |values| && forall l :: 0 <= l < |steps| ==> |below[l]| == |values[l]|
    requires i < |Branched(steps, below)|
    ensures |Branched(steps, below)| == |JoinTo(values, |steps|)|
    ensures l < |steps| && j < |below[l]| && Branched(steps, below)[i] == [steps[l]] + below[l][j]
    ensures JoinTo(values, |steps|)[i] == values[l][j]
  {
    var lists := seq(|steps|, l requires 0 <= l < |steps| => Prefixed(steps[l], below[l]));
    l, j := LineUp(lists, values, |steps|, i);
  }

  lemma BranchedLength<T, U>(steps: seq<T>, below: seq<seq<seq<T>>>, values: seq<seq<U>>)
    requires |steps| == |below| == |values| && forall l :: 0 <= l < |steps| ==> |below[l]| == |values[l]|
    ensures |Branched(steps, below)| == |JoinTo(values, |steps|)|
  {
    SameLengths(seq(|steps|, l requires 0 <= l < |steps| => Prefixed(steps[l], below[l])), values, |steps|);
  }
}
