/** packages/core/src/extract/json-path.ts: the parser, and `concretePath` of suggest.ts as its printer. */
module JsonPath {
  import opened Prelude
  import opened Digits
  import opened Json
  import opened Sequences
  import Texts

  datatype Segment = Property(name: string) | Index(index: nat) | Wildcard | Descend(name: string)

  datatype PathError =
    | NoExpression
    | MustStartWithDollar
    | UnterminatedQuote(open: nat)
    | UnclosedBracket(open: nat)
    | TextAfterQuotedKey(open: nat)
    | UnsupportedBracket(inner: string)
    | UnexpectedCharacter(index: nat)
    | DescendNeedsName
    | DotNeedsName(index: nat)

  datatype Parsed = Parsed(segments: seq<Segment>) | Invalid(error: PathError)
  datatype SegmentRead = Read(end: nat, segment: Segment) | Unread(error: PathError)

  // ----- Characters -----

  predicate IsNameStart(c: char) { 'A' <= c <= 'Z' || 'a' <= c <= 'z' || c == '_' || c == '$' }
  predicate IsNameChar(c: char) { IsNameStart(c) || IsDigit(c) || c == '-' }

  /** `JSON_NAME`, which is also what `readName` accepts. */
  predicate IsName(s: string) {
    s != [] && IsNameStart(s[0]) && forall i :: 0 <= i < |s| ==> IsNameChar(s[i])
  }

  function TrimEnd(s: string): string {
    if s != [] && Texts.IsSpace(s[|s| - 1]) then TrimEnd(s[..|s| - 1]) else s
  }

  function Trim(s: string): string { TrimEnd(Texts.TrimStart(s)) }

  /** `source.indexOf(c, from)`. */
  function IndexOf(source: string, c: char, from: nat): (r: Option<nat>)
    ensures r.Some? ==> from <= r.value < |source| && source[r.value] == c && c !in source[from..r.value]
    ensures r.None? && from <= |source| ==> c !in source[from..]
    decreases |source| - from
  {
    if from >= |source| then None
    else if source[from] == c then Some(from)
    else IndexOf(source, c, from + 1)
  }

  function CharAt(source: string, i: nat): Option<char> { if i < |source| then Some(source[i]) else None }

  // ----- Reading one segment -----

  /** The first position from `i` on that holds no name character. */
  function NameEnd(source: string, i: nat): (e: nat)
    requires i <= |source|
    ensures i <= e <= |source| && (forall k :: i <= k < e ==> IsNameChar(source[k]))
    ensures e < |source| ==> !IsNameChar(source[e])
    decreases |source| - i
  {
    if i < |source| && IsNameChar(source[i]) then NameEnd(source, i + 1) else i
  }

  /** `readName`: the end of the name that starts at `start`, or None. */
  function NameFrom(source: string, start: nat): Option<nat> {
    if start >= |source| || !IsNameStart(source[start]) then None else Some(NameEnd(source, start + 1))
  }

  method ReadName(source: string, start: nat) returns (end: Option<nat>)
    ensures end == NameFrom(source, start)
  {
    if start >= |source| || !IsNameStart(source[start]) {
      return None;
    }
    var e := start + 1;
    while e < |source| && IsNameChar(source[e])
      invariant start < e <= |source| && NameEnd(source, e) == NameEnd(source, start + 1)
    {
      e := e + 1;
    }
    end := Some(e);
  }

  function ReadQuoted(source: string, open: nat, quote: char): SegmentRead
    requires open + 2 <= |source|
  {
    var quoteEnd := IndexOf(source, quote, open + 2);
    if quoteEnd.None? then Unread(UnterminatedQuote(open))
    else
      var close := IndexOf(source, ']', quoteEnd.value + 1);
      if close.None? then Unread(UnclosedBracket(open))
      else if Trim(source[quoteEnd.value + 1..close.value]) != [] then Unread(TextAfterQuotedKey(open))
      else Read(close.value + 1, Property(source[open + 2..quoteEnd.value]))
  }

  function ReadBracket(source: string, open: nat): SegmentRead
    requires open < |source|
  {
    var first := CharAt(source, open + 1);
    if first == Some('\'') || first == Some('"') then ReadQuoted(source, open, first.value)
    else
      var close := IndexOf(source, ']', open + 1);
      if close.None? then Unread(UnclosedBracket(open))
      else
        ReadInner(Trim(source[open + 1..close.value]), close.value + 1)
  }

  /** What stands between unquoted brackets. */
  function ReadInner(inner: string, end: nat): SegmentRead {
    if inner == "*" then Read(end, Wildcard)
    else if inner != [] && AllDigits(inner) then Read(end, Index(NatValue(inner)))
    else Unread(UnsupportedBracket(inner))
  }

  /** One turn of the loop of `parseJsonPath`. */
  function ReadSegment(source: string, index: nat): (r: SegmentRead)
    requires index < |source|
    ensures r.Read? ==> index < r.end <= |source|
  {
    if source[index] == '[' then ReadBracket(source, index)
    else if source[index] != '.' then Unread(UnexpectedCharacter(index))
    else if CharAt(source, index + 1) == Some('.') then
      var name := NameFrom(source, index + 2);
      if name.None? then Unread(DescendNeedsName) else Read(name.value, Descend(source[index + 2..name.value]))
    else if CharAt(source, index + 1) == Some('*') then Read(index + 2, Wildcard)
    else
      var name := NameFrom(source, index + 1);
      if name.None? then Unread(DotNeedsName(index)) else Read(name.value, Property(source[index + 1..name.value]))
  }

  function Prepend(segments: seq<Segment>, rest: Parsed): Parsed {
    if rest.Parsed? then Parsed(segments + rest.segments) else rest
  }

  /** The segments from a position on. */
  function ParseFrom(source: string, index: nat): Parsed
    decreases |source| - index
  {
    if index >= |source| then Parsed([])
    else
      var r := ReadSegment(source, index);
      if r.Unread? then Invalid(r.error) else Prepend([r.segment], ParseFrom(source, r.end))
  }

  function Parse(expression: string): Parsed {
    var source := Trim(expression);
    if source == [] then Invalid(NoExpression)
    else if source[0] != '$' then Invalid(MustStartWithDollar)
    else ParseFrom(source, 1)
  }

  method ParseJsonPath(expression: string) returns (r: Parsed)
    ensures r == Parse(expression)
  {
    var source := Trim(expression);
    if source == [] {
      return Invalid(NoExpression);
    }
    if source[0] != '$' {
      return Invalid(MustStartWithDollar);
    }
    var segments: seq<Segment> := [];
    var index := 1;
    while index < |source|
      invariant 1 <= index <= |source|
      invariant Parse(expression) == Prepend(segments, ParseFrom(source, index))
    {
      var segment := ReadSegment(source, index);
      if segment.Unread? {
        return Invalid(segment.error);
      }
      segments := segments + [segment.segment];
      index := segment.end;
    }
    r := Parsed(segments);
  }

  // ----- Printing -----

  predicate Printable(step: Step) {
    step.Key? ==> IsName(step.name) || ('\'' !in step.name && '"' !in step.name)
  }

  function PrintStep(step: Step): string {
    match step
    case At(index) => "[" + NatText(index) + "]"
    case Key(name) => if IsName(name) then "." + name else "['" + name + "']"
  }

  function StepTexts(path: seq<Step>): seq<string> {
    seq(|path|, i requires 0 <= i < |path| => PrintStep(path[i]))
  }

  function PrintSteps(path: seq<Step>): string { JoinTo(StepTexts(path), |path|) }

  function Written(path: seq<Step>): string { "$" + PrintSteps(path) }

  /** `concretePath`: None when a key holds a quote and is no plain name. */
  function Concrete(path: seq<Step>): Option<string> {
    if forall k :: 0 <= k < |path| ==> Printable(path[k]) then Some(Written(path)) else None
  }

  method ConcretePath(path: seq<Step>) returns (r: Option<string>)
    ensures r == Concrete(path)
  {
    var expression := "$";
    ghost var texts := StepTexts(path);
    for i := 0 to |path|
      invariant forall k :: 0 <= k < i ==> Printable(path[k])
      invariant expression == "$" + JoinTo(texts, i)
    {
      var text := WriteStep(path[i]);
      if text.None? {
        return None;
      }
      Associative("$", JoinTo(texts, i), texts[i]);
      expression := expression + text.value;
    }
    r := Some(expression);
  }

  /** The body of that loop: what one segment adds, or None. */
  method WriteStep(step: Step) returns (text: Option<string>)
    ensures text == if Printable(step) then Some(PrintStep(step)) else None
  {
    if step.At? {
      text := Some("[" + NatText(step.index) + "]");
    } else if IsName(step.name) {
      text := Some("." + step.name);
    } else if '\'' in step.name || '"' in step.name {
      text := None;
    } else {
      text := Some("['" + step.name + "']");
    }
  }

  function SegmentOf(step: Step): Segment {
    match step
    case Key(name) => Property(name)
    case At(index) => Index(index)
  }

  function SegmentsOf(path: seq<Step>): seq<Segment> {
    seq(|path|, i requires 0 <= i < |path| => SegmentOf(path[i]))
  }

  // ----- The parser undoes the printer -----

  lemma {:induction false} IndexOfIs(source: string, c: char, from: nat, at: nat)
    requires from <= at < |source| && source[at] == c && forall k :: from <= k < at ==> source[k] != c
    ensures IndexOf(source, c, from) == Some(at)
    decreases at - from
  {
    if from < at {
      IndexOfIs(source, c, from + 1, at);
    }
  }

  lemma {:induction false} NameEndIs(source: string, i: nat, e: nat)
    requires i <= e <= |source| && (forall k :: i <= k < e ==> IsNameChar(source[k]))
    requires e < |source| ==> !IsNameChar(source[e])
    ensures NameEnd(source, i) == e
    decreases e - i
  {
    if i < e {
      NameEndIs(source, i + 1, e);
    }
  }

  /** A printed step is followed by nothing or by the `.` or `[` of the next one. */
  predicate StepEnds(rest: string) { rest == "" || !IsNameChar(rest[0]) }

  lemma ReadsPrintedName(before: string, name: string, rest: string)
    requires IsName(name) && StepEnds(rest)
    ensures NameFrom(before + name + rest, |before|) == Some(|before| + |name|)
  {
    var source := before + name + rest;
    assert forall k :: |before| <= k < |before| + |name| ==> source[k] == name[k - |before|];
    NameEndIs(source, |before| + 1, |before| + |name|);
  }

  lemma ReadsPrintedKey(before: string, name: string, rest: string)
    requires '\'' !in name && !IsName(name)
    ensures ReadSegment(before + ("['" + name + "']") + rest, |before|) == Read(|before| + |name| + 4, Property(name))
  {
    var source := before + ("['" + name + "']") + rest;
    var open := |before|;
    assert source[open] == '[' && source[open + 1] == '\'';
    forall k | open + 2 <= k < open + 2 + |name| ensures source[k] != '\'' {
      assert source[k] == name[k - open - 2];
      assert name[k - open - 2] in name;
    }
    assert source[open + 2 + |name|] == '\'' && source[open + 3 + |name|] == ']';
    IndexOfIs(source, '\'', open + 2, open + 2 + |name|);
    IndexOfIs(source, ']', open + 3 + |name|, open + 3 + |name|);
    assert source[open + 3 + |name|..open + 3 + |name|] == [];
    assert source[open + 2..open + 2 + |name|] == name;
  }

  lemma ReadsDigits(index: nat, end: nat)
    ensures ReadInner(Trim(NatText(index)), end) == Read(end, Index(index))
  {
    DigitsAreTrimmed(NatText(index));
    NatTextValue(index);
  }

  lemma NothingToTrim(s: string)
    requires s != [] && !Texts.IsSpace(s[0]) && !Texts.IsSpace(s[|s| - 1])
    ensures Trim(s) == s
  {
    assert Texts.TrimStart(s) == s;
  }

  lemma DigitsAreTrimmed(s: string)
    requires s != [] && AllDigits(s)
    ensures Trim(s) == s && s != "*"
  {
    assert IsDigit(s[0]) && IsDigit(s[|s| - 1]);
    NothingToTrim(s);
  }

  lemma BracketCloses(before: string, digits: string, rest: string)
    requires digits != [] && AllDigits(digits)
    ensures var source, open := before + ("[" + digits + "]") + rest, |before|;
      && source[open] == '[' && source[open + 1] == digits[0]
      && IndexOf(source, ']', open + 1) == Some(open + 1 + |digits|) && source[open + 1..open + 1 + |digits|] == digits
  {
    var source, open := before + ("[" + digits + "]") + rest, |before|;
    forall k | open + 1 <= k < open + 1 + |digits| ensures source[k] != ']' {
      assert source[k] == digits[k - open - 1];
    }
    IndexOfIs(source, ']', open + 1, open + 1 + |digits|);
  }

  lemma ReadsInner(source: string, open: nat, close: nat)
    requires open + 1 < |source| && source[open] == '[' && source[open + 1] != '\'' && source[open + 1] != '"'
    requires IndexOf(source, ']', open + 1) == Some(close)
    ensures ReadSegment(source, open) == ReadInner(Trim(source[open + 1..close]), close + 1)
  {
  }

  lemma ReadsPrintedIndex(before: string, index: nat, rest: string)
    ensures ReadSegment(before + ("[" + NatText(index) + "]") + rest, |before|)
         == Read(|before| + |NatText(index)| + 2, Index(index))
  {
    var digits, open := NatText(index), |before|;
    BracketCloses(before, digits, rest);
    var source, close := before + ("[" + digits + "]") + rest, open + 1 + |digits|;
    ReadsInner(source, open, close);
    assert Trim(source[open + 1..close]) == Trim(digits);
    ReadsDigits(index, close + 1);
  }

  lemma ReadsPrintedStep(before: string, step: Step, rest: string)
    requires Printable(step) && StepEnds(rest)
    ensures ReadSegment(before + PrintStep(step) + rest, |before|)
      == Read(|before| + |PrintStep(step)|, SegmentOf(step))
  {
    match step
    case At(index) => ReadsPrintedIndex(before, index, rest);
    case Key(name) =>
      if IsName(name) {
        var source := before + PrintStep(step) + rest;
        assert source == (before + ".") + name + rest;
        ReadsPrintedName(before + ".", name, rest);
        assert source[|before|] == '.' && source[|before| + 1] == name[0];
        assert source[|before| + 1..|before| + 1 + |name|] == name;
      } else {
        ReadsPrintedKey(before, name, rest);
      }
  }

  /** PrintSteps peels the last step; parsing meets the first one first. */
  lemma PrintStepsFront(path: seq<Step>)
    requires path != []
    ensures PrintSteps(path) == PrintStep(path[0]) + PrintSteps(path[1..])
  {
    JoinFront(StepTexts(path), StepTexts(path[1..]), |path|);
  }

  lemma PrintedStepsEnd(path: seq<Step>)
    ensures StepEnds(PrintSteps(path))
  {
    if path != [] {
      PrintStepsFront(path);
    }
  }

  lemma ParseOne(source: string, index: nat, end: nat, segment: Segment, rest: seq<Segment>)
    requires index < |source| && ReadSegment(source, index) == Read(end, segment)
    requires ParseFrom(source, end) == Parsed(rest)
    ensures ParseFrom(source, index) == Parsed([segment] + rest)
  {
  }

  lemma ReadsStepAt(source: string, index: nat, step: Step, text: string)
    requires index < |source| && source[index..] == PrintStep(step) + text && Printable(step) && StepEnds(text)
    ensures ReadSegment(source, index) == Read(index + |PrintStep(step)|, SegmentOf(step))
  {
    DropPrefix(source, index, PrintStep(step), text);
    ReadsPrintedStep(source[..index], step, text);
  }

  lemma ReadsNextStep(source: string, index: nat, path: seq<Step>) returns (end: nat)
    requires path != [] && forall k :: 0 <= k < |path| ==> Printable(path[k])
    requires index <= |source| && source[index..] == PrintSteps(path)
    ensures index < end <= |source| && source[end..] == PrintSteps(path[1..])
    ensures ReadSegment(source, index) == Read(end, SegmentOf(path[0]))
  {
    end := index + |PrintStep(path[0])|;
    PrintStepsFront(path);
    PrintedStepsEnd(path[1..]);
    ReadsStepAt(source, index, path[0], PrintSteps(path[1..]));
    DropPrefix(source, index, PrintStep(path[0]), PrintSteps(path[1..]));
  }

  lemma SegmentsOfFront(path: seq<Step>)
    requires path != []
    ensures SegmentsOf(path) == [SegmentOf(path[0])] + SegmentsOf(path[1..])
  {
  }

  lemma {:induction false} ParsesPrintedSteps(source: string, index: nat, path: seq<Step>)
    requires forall k :: 0 <= k < |path| ==> Printable(path[k])
    requires index <= |source| && source[index..] == PrintSteps(path)
    ensures ParseFrom(source, index) == Parsed(SegmentsOf(path))
    decreases |path|
  {
    if path != [] {
      var end := ReadsNextStep(source, index, path);
      ParsesPrintedSteps(source, end, path[1..]);
      ParseOne(source, index, end, SegmentOf(path[0]), SegmentsOf(path[1..]));
      SegmentsOfFront(path);
    }
  }

  lemma PrintStepEnds(step: Step)
    ensures var text := PrintStep(step); text != [] && !Texts.IsSpace(text[|text| - 1])
  {
    if step.Key? && IsName(step.name) {
      assert IsNameChar(step.name[|step.name| - 1]);
    }
  }

  lemma LastOf(a: string, b: string, c: string)
    requires c != []
    ensures (a + (b + c))[|a| + |b| + |c| - 1] == c[|c| - 1]
  {
  }

  /** A printed path starts and ends with characters `trim` keeps. */
  lemma PrintedPathIsTrimmed(path: seq<Step>)
    ensures Trim("$" + PrintSteps(path)) == "$" + PrintSteps(path)
  {
    if path == [] {
      NothingToTrim("$" + PrintSteps(path));
    } else {
      PrintStepEnds(path[|path| - 1]);
      LastOf("$", JoinTo(StepTexts(path), |path| - 1), StepTexts(path)[|path| - 1]);
      NothingToTrim("$" + PrintSteps(path));
    }
  }

  /** `parseJsonPath` gives back exactly the steps `concretePath` was asked to print. */
  lemma ParseUndoesPrint(path: seq<Step>)
    requires Concrete(path).Some?
    ensures Parse(Concrete(path).value) == Parsed(SegmentsOf(path))
  {
    PrintedPathIsTrimmed(path);
    ParsesPrintedSteps("$" + PrintSteps(path), 1, path);
  }

  /** The shorthand `pathDrafts` prints for a leaf parses to one descend. */
  lemma ParseUndoesShorthand(leaf: string)
    requires IsName(leaf)
    ensures Parse("$.." + leaf) == Parsed([Descend(leaf)])
  {
    var text := "$.." + leaf;
    assert IsNameChar(leaf[|leaf| - 1]) && text[|text| - 1] == leaf[|leaf| - 1];
    assert Trim(text) == text by {
      assert Texts.TrimStart(text) == text;
    }
    assert text == "$.." + leaf + "";
    ReadsPrintedName("$..", leaf, "");
    assert text[3..] == leaf;
    assert ReadSegment(text, 1) == Read(|text|, Descend(leaf));
    assert ParseFrom(text, |text|) == Parsed([]);
  }

  /** No other spelling comes out: distinct printable paths print differently. */
  lemma PrintIsInjective(a: seq<Step>, b: seq<Step>)
    requires Concrete(a).Some? && Concrete(a) == Concrete(b)
    ensures a == b
  {
    ParseUndoesPrint(a);
    ParseUndoesPrint(b);
    forall k | 0 <= k < |a| ensures a[k] == b[k] {
      assert SegmentsOf(a)[k] == SegmentsOf(b)[k];
    }
  }
}
