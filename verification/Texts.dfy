/** JavaScript's white space, and `String.prototype.split` by one character with its inverse. */
module Texts {
  /** `\s` in a regular expression, which is also what `String.prototype.trim` removes. */
  predicate IsSpace(c: char) {
    || '\t' <= c <= '\r' || c == ' ' || c == '\U{00A0}' || c == '\U{1680}' || '\U{2000}' <= c <= '\U{200A}'
    || c == '\U{2028}' || c == '\U{2029}' || c == '\U{202F}' || c == '\U{205F}' || c == '\U{3000}' || c == '\U{FEFF}'
  }

  function TrimStart(s: string): string { if s != [] && IsSpace(s[0]) then TrimStart(s[1..]) else s }

  /** The first position of a character, or the length. */
  function IndexOf(s: string, c: char): (k: nat)
    ensures k <= |s| && c !in s[..k] && (k < |s| ==> s[k] == c)
  {
    if s == [] || s[0] == c then 0 else 1 + IndexOf(s[1..], c)
  }

  function Split(s: string, c: char): (pieces: seq<string>)
    ensures pieces != []
  {
    var k := IndexOf(s, c);
    if k == |s| then [s] else [s[..k]] + Split(s[k + 1..], c)
  }

  function Join(pieces: seq<string>, c: char): string
    requires pieces != []
  {
    if |pieces| == 1 then pieces[0] else pieces[0] + [c] + Join(pieces[1..], c)
  }

  predicate Free(s: string, c: char) { c !in s }

  predicate AllFree(pieces: seq<string>, c: char) { forall i :: 0 <= i < |pieces| ==> Free(pieces[i], c) }

  lemma {:induction false} IndexOfAppend(a: string, b: string, c: char)
    requires Free(a, c) && (b == [] || b[0] == c)
    ensures IndexOf(a + b, c) == |a|
  {
    if a == [] {
      assert a + b == b;
    } else {
      assert (a + b)[0] == a[0] && (a + b)[1..] == a[1..] + b;
      IndexOfAppend(a[1..], b, c);
    }
  }

  lemma {:induction false} SplitUndoesJoin(pieces: seq<string>, c: char)
    requires pieces != [] && AllFree(pieces, c)
    ensures Split(Join(pieces, c), c) == pieces
  {
    assert Free(pieces[0], c);
    if |pieces| == 1 {
      assert pieces[0] + [] == pieces[0];
      IndexOfAppend(pieces[0], [], c);
    } else {
      var rest := Join(pieces[1..], c);
      var s := pieces[0] + ([c] + rest);
      assert Join(pieces, c) == s;
      IndexOfAppend(pieces[0], [c] + rest, c);
      assert s[..|pieces[0]|] == pieces[0] && s[|pieces[0]| + 1..] == rest;
      SplitUndoesJoin(pieces[1..], c);
    }
  }

  lemma {:induction false} JoinUndoesSplit(s: string, c: char)
    ensures Join(Split(s, c), c) == s && AllFree(Split(s, c), c)
  {
    var k := IndexOf(s, c);
    if k < |s| {
      JoinUndoesSplit(s[k + 1..], c);
      var rest := Split(s[k + 1..], c);
      assert Split(s, c)[1..] == rest;
      assert s == s[..k] + [c] + s[k + 1..];
    }
  }

  /** What no piece and no separator has, the joined text does not have. */
  lemma {:induction false} JoinFree(pieces: seq<string>, c: char, d: char)
    requires pieces != [] && c != d && AllFree(pieces, d)
    ensures Free(Join(pieces, c), d)
  {
    assert Free(pieces[0], d);
    if |pieces| > 1 { JoinFree(pieces[1..], c, d); }
  }
}
