/**
  Which paths can be written for packages/core/src/extract/json-path.ts at all, and which of them
  `concretePath` of suggest.ts gives up on.
*/
module PathWriting {
  import opened Prelude
  import opened Digits
  import opened Json
  import opened JsonPath
  import opened PathGrammar
  import opened Sequences
  import opened Branches
  import Texts

  predicate Apostrophe(name: string) { '\'' in name }
  predicate QuoteMark(name: string) { '"' in name }

  /** A key that can be written: some kind of quote does not occur in it. */
  predicate Writable(step: Step) { step.Key? ==> !(Apostrophe(step.name) && QuoteMark(step.name)) }

  /** A key that is printed: no quote of either kind occurs in it. */
  predicate Printed(step: Step) { step.Key? ==> !Apostrophe(step.name) && !QuoteMark(step.name) }

  lemma NamesAreUnquoted(name: string)
    requires PlainName(name)
    ensures !Apostrophe(name) && !QuoteMark(name)
  {
  }

  lemma PrintableIff(step: Step)
    ensures Printable(step) <==> Printed(step)
  {
    if step.Key? {
      PlainNameIff(step.name);
      if PlainName(step.name) {
        NamesAreUnquoted(step.name);
      }
    }
  }

  /** `concretePath` prints a path exactly if none of its keys holds a quote. */
  lemma PrintsIff(path: seq<Step>)
    ensures Concrete(path).Some? <==> forall k :: 0 <= k < |path| ==> Printed(path[k])
  {
    forall k | 0 <= k < |path| ensures Printable(path[k]) <==> Printed(path[k]) {
      PrintableIff(path[k]);
    }
  }

  // ----- Writing with either kind of quote -----

  function Write(step: Step): string {
    match step
    case At(index) => "[" + NatText(index) + "]"
    case Key(name) =>
      if PlainName(name) then "." + name
      else if Apostrophe(name) then "[\"" + name + "\"]"
      else "['" + name + "']"
  }

  lemma WriteSpells(step: Step)
    requires Writable(step)
    ensures Spells(SegmentOf(step), Write(step))
  {
    match step
    case At(index) =>
      NatTextValue(index);
      var digits, text := NatText(index), Write(step);
      assert Holds(text, digits, 1, |text| - 1);
      assert Bracketed(text, digits);
    case Key(name) =>
      if !PlainName(name) {
        assert Write(step)[2..2 + |name|] == name;
        assert Quoted(Write(step), name);
      }
  }

  function Pieces(path: seq<Step>): (texts: seq<string>)
    ensures |texts| == |path| && forall k :: 0 <= k < |path| ==> texts[k] == Write(path[k])
  {
    seq(|path|, k requires 0 <= k < |path| => Write(path[k]))
  }

  function WrittenAs(path: seq<Step>): string { "$" + JoinTo(Pieces(path), |path|) }

  /** Where the pieces of a written path begin. */
  function Cuts(path: seq<Step>): (cuts: seq<nat>)
    ensures |cuts| == |path| + 1 && forall k :: 0 <= k <= |path| ==> cuts[k] == 1 + |JoinTo(Pieces(path), k)|
  {
    seq(|path| + 1, k requires 0 <= k <= |path| => 1 + |JoinTo(Pieces(path), k)|)
  }

  /** A piece of a joined text, cut out again. */
  lemma CutAgain(texts: seq<string>, n: nat, k: nat, source: string)
    requires k < n <= |texts| && source == "$" + JoinTo(texts, n)
    ensures 1 + |JoinTo(texts, k)| + |texts[k]| == 1 + |JoinTo(texts, k + 1)| <= |source|
    ensures source[1 + |JoinTo(texts, k)|..1 + |JoinTo(texts, k + 1)|] == texts[k]
  {
    JoinGrows(texts, k + 1, n);
    assert JoinTo(texts, k + 1) == JoinTo(texts, k) + texts[k];
    assert forall i :: 0 <= i < |texts[k]| ==> JoinTo(texts, n)[|JoinTo(texts, k)| + i] == texts[k][i];
  }

  lemma WrittenDivides(path: seq<Step>)
    requires forall k :: 0 <= k < |path| ==> Writable(path[k])
    ensures Divides(WrittenAs(path), SegmentsOf(path), Cuts(path))
  {
    forall k | 0 <= k < |path| ensures Covers(WrittenAs(path), SegmentsOf(path), Cuts(path), k) {
      WriteSpells(path[k]);
      CutAgain(Pieces(path), |path|, k, WrittenAs(path));
    }
  }

  lemma WriteEnds(step: Step)
    ensures Write(step) != [] && !Texts.IsSpace(Write(step)[|Write(step)| - 1])
  {
  }

  lemma WrittenIsTrimmed(path: seq<Step>)
    ensures Trim(WrittenAs(path)) == WrittenAs(path)
  {
    var source := WrittenAs(path);
    if path != [] {
      WriteEnds(path[|path| - 1]);
      var last := Pieces(path)[|path| - 1];
      assert source == "$" + (JoinTo(Pieces(path), |path| - 1) + last);
      assert source[|source| - 1] == last[|last| - 1];
    }
    NothingToTrim(source);
  }

  lemma SpelledIsWritable(step: Step, text: string)
    requires Spells(SegmentOf(step), text)
    ensures Writable(step)
  {
    if step.Key? && PlainName(step.name) {
      NamesAreUnquoted(step.name);
    }
  }

  /** Some text is read as the steps of a path exactly if no key of it holds quotes of both kinds. */
  lemma WritableIff(path: seq<Step>)
    ensures (exists text :: Parse(text) == Parsed(SegmentsOf(path)))
      <==> forall k :: 0 <= k < |path| ==> Writable(path[k])
  {
    if text :| Parse(text) == Parsed(SegmentsOf(path)) {
      ParseIff(text, SegmentsOf(path));
      var cuts :| Divides(Trim(text), SegmentsOf(path), cuts);
      forall k | 0 <= k < |path| ensures Writable(path[k]) {
        assert Covers(Trim(text), SegmentsOf(path), cuts, k);
        SpelledIsWritable(path[k], Trim(text)[cuts[k]..cuts[k + 1]]);
      }
    }
    if forall k :: 0 <= k < |path| ==> Writable(path[k]) {
      WrittenDivides(path);
      WrittenIsTrimmed(path);
      ParseIff(WrittenAs(path), SegmentsOf(path));
      assert Parse(WrittenAs(path)) == Parsed(SegmentsOf(path));
    }
  }

  /**
    `concretePath` answers null just where a path cannot be written, as its comment says, exactly if
    some key of the path holds both kinds of quote or none holds any. A lone kind makes it give up
    on a path that can be written.
  */
  lemma NullMeansUnwritableIff(path: seq<Step>)
    ensures (Concrete(path).None? <==> !exists text :: Parse(text) == Parsed(SegmentsOf(path)))
      <==> ((exists k :: 0 <= k < |path| && !Writable(path[k])) || forall k :: 0 <= k < |path| ==> Printed(path[k]))
  {
    PrintsIff(path);
    WritableIff(path);
    assert forall k :: 0 <= k < |path| && !Writable(path[k]) ==> !Printed(path[k]);
  }

  /** The shortest such path: one key with an apostrophe in it. */
  lemma ApostropheIsGivenUp(name: string)
    requires Apostrophe(name) && !QuoteMark(name)
    ensures Concrete([Key(name)]) == None
    ensures Parse("$[\"" + name + "\"]") == Parsed([Property(name)])
  {
    var path := [Key(name)];
    PrintsIff(path);
    assert !Printed(path[0]);
    if PlainName(name) {
      NamesAreUnquoted(name);
    }
    WrittenDivides(path);
    WrittenIsTrimmed(path);
    ParseIff(WrittenAs(path), SegmentsOf(path));
    assert JoinTo(Pieces(path), 1) == [] + Pieces(path)[0];
    assert WrittenAs(path) == "$[\"" + name + "\"]";
    assert SegmentsOf(path) == [Property(name)];
  }
}
