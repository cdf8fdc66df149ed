/** Filtering a sequence, and the regrouping and cutting of joined ones, proved once for the other modules. */
module Sequences {
  lemma Regroup<T>(a: seq<T>, b: seq<T>, c: seq<T>, d: seq<T>)
    ensures a + (b + (c + d)) == a + b + c + d
    ensures a + (b + c + d) == a + b + c + d
    ensures a + (b + c) + d == a + b + (c + d)
  {
  }

  lemma Associative<T>(a: seq<T>, b: seq<T>, c: seq<T>)
    ensures a + b + c == a + (b + c)
  {
  }

  /** The middle piece, or the start of it. */
  lemma CutOf<T>(before: seq<T>, piece: seq<T>, rest: seq<T>, n: nat)
    requires n <= |piece|
    ensures (before + piece + rest)[|before|..|before| + n] == piece[..n] && piece[..n] + piece[n..] == piece
    ensures forall k :: 0 <= k < |piece| ==> (before + piece + rest)[|before| + k] == piece[k]
  {
  }

  lemma DropPrefix<T>(s: seq<T>, from: nat, a: seq<T>, b: seq<T>)
    requires from <= |s| && s[from..] == a + b
    ensures from + |a| <= |s| && s[from + |a|..] == b && s == s[..from] + a + b
  {
    assert s[from + |a|..] == s[from..][|a|..];
    assert s == s[..from] + s[from..];
  }

  /** The first `n` pieces joined. */
  function JoinTo<T>(pieces: seq<seq<T>>, n: nat): seq<T>
    requires n <= |pieces|
  {
    if n == 0 then [] else JoinTo(pieces, n - 1) + pieces[n - 1]
  }

  lemma {:induction false} JoinFront<T>(pieces: seq<seq<T>>, rest: seq<seq<T>>, n: nat)
    requires 0 < n <= |pieces| && |rest| == |pieces| - 1
    requires forall k :: 0 <= k < |rest| ==> rest[k] == pieces[k + 1]
    ensures JoinTo(pieces, n) == pieces[0] + JoinTo(rest, n - 1)
    decreases n
  {
    if n > 1 {
      JoinFront(pieces, rest, n - 1);
      assert pieces[n - 1] == rest[n - 2];
      Associative(pieces[0], JoinTo(rest, n - 2), rest[n - 2]);
    }
  }

  function Filter<T(!new)>(s: seq<T>, p: T -> bool): (r: seq<T>)
    ensures forall x :: x in r <==> x in s && p(x)
  {
    if s == [] then []
    else if p(s[|s| - 1]) then Filter(s[..|s| - 1], p) + [s[|s| - 1]]
    else Filter(s[..|s| - 1], p)
  }

  lemma FilterSnoc<T(!new)>(s: seq<T>, x: T, p: T -> bool)
    ensures Filter(s + [x], p) == Filter(s, p) + if p(x) then [x] else []
  {
    assert (s + [x])[..|s|] == s;
  }
}
