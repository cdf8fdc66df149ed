/**
  Which texts packages/core/src/extract/json-path.ts reads as a path, and as which one: a dollar
  sign and behind it one spelling for each segment. The parser reads exactly these.
*/
module PathGrammar {
  import opened Prelude
  import opened Digits
  import opened Json
  import opened JsonPath
  import Texts

  predicate Letter(c: char) { 'a' <= c <= 'z' || 'A' <= c <= 'Z' || c == '_' || c == '$' }

  /** A name written without quotes. */
  predicate PlainName(s: string) {
    s != [] && Letter(s[0]) && forall i :: 0 <= i < |s| ==> Letter(s[i]) || '0' <= s[i] <= '9' || s[i] == '-'
  }

  predicate Blank(s: string, from: nat, to: nat)
    requires to <= |s|
  {
    forall i :: from <= i < to ==> Texts.IsSpace(s[i])
  }

  /** `inner` between brackets, with any white space around it. */
  ghost predicate Bracketed(text: string, inner: string) {
    && |text| >= 2 && text[0] == '[' && text[|text| - 1] == ']'
    && exists a: nat, b: nat :: Holds(text, inner, a, b)
  }

  ghost predicate Holds(text: string, inner: string, a: nat, b: nat) {
    1 <= a <= b < |text| && text[a..b] == inner && Blank(text, 1, a) && Blank(text, b, |text| - 1)
  }

  /** A key in quotes of either kind that it does not contain itself. */
  predicate Quoted(text: string, key: string) {
    && |text| >= |key| + 4 && text[0] == '[' && text[|text| - 1] == ']'
    && (text[1] == '"' || text[1] == '\'') && text[1] !in key
    && text[2..2 + |key|] == key && text[2 + |key|] == text[1] && Blank(text, 3 + |key|, |text| - 1)
  }

  /** The spellings of a segment. */
  ghost predicate Spells(segment: Segment, text: string) {
    match segment
    case Property(name) => (PlainName(name) && text == "." + name) || Quoted(text, name)
    case Index(index) => exists digits ::
      digits != [] && AllDigits(digits) && NatValue(digits) == index && Bracketed(text, digits)
    case Wildcard => text == ".*" || Bracketed(text, "*")
    case Descend(name) => PlainName(name) && text == ".." + name
  }

  /** The cuts divide the text behind the dollar sign into one spelling for each segment. */
  ghost predicate Divides(source: string, segments: seq<Segment>, cuts: seq<nat>) {
    && |cuts| == |segments| + 1 && cuts[0] == 1 && cuts[|segments|] == |source|
    && forall k :: 0 <= k < |segments| ==> Covers(source, segments, cuts, k)
  }

  ghost predicate Covers(source: string, segments: seq<Segment>, cuts: seq<nat>, k: nat)
    requires k < |segments| && |cuts| == |segments| + 1
  {
    cuts[k] < cuts[k + 1] <= |source| && Spells(segments[k], source[cuts[k]..cuts[k + 1]])
  }

  // ----- Names and white space -----

  lemma PlainNameIff(s: string)
    ensures PlainName(s) <==> IsName(s)
  {
  }

  /** What `trim` leaves of a text. */
  lemma {:induction false} TrimStartFrom(s: string) returns (a: nat)
    ensures a <= |s| && Texts.TrimStart(s) == s[a..] && Blank(s, 0, a) && (a < |s| ==> !Texts.IsSpace(s[a]))
  {
    if s != [] && Texts.IsSpace(s[0]) {
      var rest := TrimStartFrom(s[1..]);
      a := rest + 1;
      assert s[1..][rest..] == s[a..];
      assert forall i :: 1 <= i < a ==> s[i] == s[1..][i - 1];
    } else {
      a := 0;
    }
  }

  lemma {:induction false} TrimEndAt(s: string) returns (b: nat)
    ensures b <= |s| && TrimEnd(s) == s[..b] && Blank(s, b, |s|) && (b > 0 ==> !Texts.IsSpace(s[b - 1]))
  {
    if s != [] && Texts.IsSpace(s[|s| - 1]) {
      b := TrimEndAt(s[..|s| - 1]);
      assert s[..|s| - 1][..b] == s[..b];
    } else {
      b := |s|;
    }
  }

  lemma TrimParts(s: string) returns (a: nat, b: nat)
    ensures a <= b <= |s| && Trim(s) == s[a..b] && Blank(s, 0, a) && Blank(s, b, |s|)
    ensures a < b ==> !Texts.IsSpace(s[a]) && !Texts.IsSpace(s[b - 1])
  {
    a := TrimStartFrom(s);
    var n := TrimEndAt(s[a..]);
    b := a + n;
    assert s[a..][..n] == s[a..b];
    assert forall i :: b <= i < |s| ==> s[i] == s[a..][i - a];
  }

  /** White space around a text that neither starts nor ends with any is what `trim` takes off. */
  lemma TrimIs(s: string, a: nat, b: nat)
    requires a < b <= |s| && Blank(s, 0, a) && Blank(s, b, |s|)
    requires !Texts.IsSpace(s[a]) && !Texts.IsSpace(s[b - 1])
    ensures Trim(s) == s[a..b]
  {
    var c, d := TrimParts(s);
    assert c <= a && b <= d;
  }

  lemma TrimIsEmpty(s: string)
    ensures Trim(s) == [] <==> Blank(s, 0, |s|)
  {
    var a, b := TrimParts(s);
  }

  // ----- One segment -----

  /** `s` is what stands between the first and the last character of `text`. */
  ghost predicate Inside(text: string, s: string) {
    |text| == |s| + 2 && forall i :: 0 <= i < |s| ==> text[i + 1] == s[i]
  }

  lemma InsideSlice(text: string, s: string, a: nat, b: nat)
    requires Inside(text, s) && a <= b <= |s|
    ensures text[a + 1..b + 1] == s[a..b]
  {
  }

  lemma InsideBrackets(source: string, open: nat, close: nat)
    requires open < close < |source|
    ensures Inside(source[open..close + 1], source[open + 1..close])
    ensures source[open..close + 1][0] == source[open] && source[open..close + 1][close - open] == source[close]
  {
  }

  lemma ReadNameSpells(source: string, index: nat, end: nat)
    requires NameFrom(source, index) == Some(end)
    ensures index < end <= |source| && PlainName(source[index..end])
  {
    PlainNameIff(source[index..end]);
  }

  /** A name ends where no more name characters follow. */
  lemma SpellsReadName(source: string, index: nat, end: nat)
    requires index < end <= |source| && PlainName(source[index..end])
    requires end < |source| ==> source[end] == '.' || source[end] == '['
    ensures NameFrom(source, index) == Some(end)
  {
    PlainNameIff(source[index..end]);
    assert forall k :: index <= k < end ==> source[k] == source[index..end][k - index];
    NameEndIs(source, index + 1, end);
  }

  /** What is read between unquoted brackets. */
  lemma InsideSpells(text: string, s: string)
    requires Inside(text, s) && text[0] == '[' && text[|text| - 1] == ']'
    ensures Bracketed(text, Trim(s))
  {
    var a, b := TrimParts(s);
    InsideSlice(text, s, a, b);
    assert forall i :: 1 <= i < |text| - 1 ==> text[i] == s[i - 1];
    assert Holds(text, Trim(s), a + 1, b + 1);
  }

  lemma SpellsInside(text: string, s: string, inner: string)
    requires Inside(text, s) && Bracketed(text, inner)
    requires inner != [] && !Texts.IsSpace(inner[0]) && !Texts.IsSpace(inner[|inner| - 1])
    ensures inner == Trim(s)
  {
    var a: nat, b: nat :| Holds(text, inner, a, b);
    InsideSlice(text, s, a - 1, b - 1);
    assert forall i :: 1 <= i < |text| - 1 ==> text[i] == s[i - 1];
    assert s[a - 1] == inner[0] && s[b - 2] == inner[|inner| - 1];
    TrimIs(s, a - 1, b - 1);
  }

  lemma Shifted(source: string, index: nat, end: nat, text: string, a: nat, b: nat)
    requires index <= end <= |source| && text == source[index..end] && a <= b <= |text|
    ensures text[a..b] == source[index + a..index + b]
  {
    assert forall k :: a <= k < b ==> text[k] == source[index + k];
  }

  lemma QuotedReadSpells(source: string, open: nat, quote: char, end: nat, segment: Segment)
    requires open + 2 <= |source| && source[open] == '[' && source[open + 1] == quote && (quote == '"' || quote == '\'')
    requires ReadQuoted(source, open, quote) == Read(end, segment)
    ensures open < end <= |source| && segment.Property? && Quoted(source[open..end], segment.name)
  {
    var quoteEnd := IndexOf(source, quote, open + 2).value;
    var close := IndexOf(source, ']', quoteEnd + 1).value;
    var key, text := source[open + 2..quoteEnd], source[open..end];
    Shifted(source, open, end, text, 2, 2 + |key|);
    TrimIsEmpty(source[quoteEnd + 1..close]);
    assert forall i :: quoteEnd + 1 <= i < close ==> source[i] == source[quoteEnd + 1..close][i - quoteEnd - 1];
  }

  lemma BracketReadSpells(source: string, open: nat, end: nat, segment: Segment)
    requires open < |source| && source[open] == '[' && ReadBracket(source, open) == Read(end, segment)
    ensures open < end <= |source| && Spells(segment, source[open..end])
  {
    var first := CharAt(source, open + 1);
    if first == Some('\'') || first == Some('"') {
      QuotedReadSpells(source, open, first.value, end, segment);
    } else {
      var close := IndexOf(source, ']', open + 1).value;
      InsideBrackets(source, open, close);
      InsideSpells(source[open..end], source[open + 1..close]);
    }
  }

  /** Whatever is read as a segment is a spelling of it. */
  lemma ReadSpells(source: string, index: nat, end: nat, segment: Segment)
    requires index < |source| && ReadSegment(source, index) == Read(end, segment)
    ensures index < end <= |source| && Spells(segment, source[index..end])
  {
    if source[index] == '[' {
      BracketReadSpells(source, index, end, segment);
    } else if CharAt(source, index + 1) == Some('.') {
      ReadNameSpells(source, index + 2, end);
      assert source[index..end] == ".." + source[index + 2..end];
    } else if CharAt(source, index + 1) == Some('*') {
      assert source[index..end] == ".*";
    } else {
      ReadNameSpells(source, index + 1, end);
      assert source[index..end] == "." + source[index + 1..end];
    }
  }

  /** Where the quote of a quoted key ends, and the bracket behind it. */
  lemma QuoteEnds(source: string, open: nat, end: nat, key: string, text: string)
    requires open < end <= |source| && text == source[open..end] && Quoted(text, key)
    ensures source[open] == '[' && source[open + 1] == text[1]
    ensures IndexOf(source, text[1], open + 2) == Some(open + 2 + |key|)
    ensures source[open + 2..open + 2 + |key|] == key
  {
    Shifted(source, open, end, text, 2, 2 + |key|);
    assert forall k :: open + 2 <= k < open + 2 + |key| ==> source[k] == key[k - open - 2];
    assert source[open + 2 + |key|] == text[2 + |key|];
    IndexOfIs(source, text[1], open + 2, open + 2 + |key|);
  }

  lemma BlankIn(source: string, open: nat, end: nat, text: string, a: nat, b: nat)
    requires open <= end <= |source| && text == source[open..end] && b <= |text| && Blank(text, a, b)
    ensures Blank(source, open + a, open + b)
  {
    assert forall k :: a <= k < b ==> source[open + k] == text[k];
  }

  lemma BlankIsTrimmed(source: string, a: nat, b: nat)
    requires a <= b <= |source| && Blank(source, a, b)
    ensures Trim(source[a..b]) == []
  {
    TrimIsEmpty(source[a..b]);
  }

  lemma BracketEnds(source: string, from: nat, close: nat)
    requires from <= close < |source| && Blank(source, from, close) && source[close] == ']'
    ensures IndexOf(source, ']', from) == Some(close) && Trim(source[from..close]) == []
  {
    IndexOfIs(source, ']', from, close);
    BlankIsTrimmed(source, from, close);
  }

  lemma QuotedIsRead(source: string, open: nat, end: nat, key: string)
    requires open < end <= |source| && Quoted(source[open..end], key)
    ensures ReadSegment(source, open) == Read(end, Property(key))
  {
    QuoteEnds(source, open, end, key, source[open..end]);
    BlankIn(source, open, end, source[open..end], 3 + |key|, end - open - 1);
    BracketEnds(source, open + 3 + |key|, end - 1);
  }

  /** Neither a bracket nor a quote stands in a text that is blank around `inner`. */
  lemma NothingCloses(text: string, inner: string, c: char)
    requires Bracketed(text, inner) && c !in inner && !Texts.IsSpace(c)
    ensures forall k :: 1 <= k < |text| - 1 ==> text[k] != c
  {
    var a: nat, b: nat :| Holds(text, inner, a, b);
    forall k | 1 <= k < |text| - 1 ensures text[k] != c {
      if a <= k < b {
        assert text[k] == inner[k - a];
      }
    }
  }

  lemma BracketedIsRead(source: string, open: nat, end: nat, inner: string)
    requires open < end <= |source| && Bracketed(source[open..end], inner)
    requires inner != [] && (inner == "*" || AllDigits(inner))
    ensures ReadSegment(source, open) == ReadInner(inner, end)
  {
    var text, close := source[open..end], end - 1;
    NothingCloses(text, inner, ']');
    NothingCloses(text, inner, '"');
    NothingCloses(text, inner, '\'');
    assert forall k :: open < k < close ==> source[k] == text[k - open];
    assert source[open] == text[0] && source[close] == text[close - open];
    IndexOfIs(source, ']', open + 1, close);
    InsideBrackets(source, open, close);
    assert inner == "*" || (IsDigit(inner[0]) && IsDigit(inner[|inner| - 1]));
    SpellsInside(text, source[open + 1..close], inner);
  }

  lemma NameIsRead(source: string, index: nat, end: nat, dots: string, name: string)
    requires index < end <= |source| && PlainName(name) && source[index..end] == dots + name
    requires dots == "." || dots == ".."
    requires end < |source| ==> source[end] == '.' || source[end] == '['
    ensures ReadSegment(source, index) == Read(end, if dots == "." then Property(name) else Descend(name))
  {
    var text := source[index..end];
    Shifted(source, index, end, text, |dots|, |text|);
    assert text[|dots|..] == name;
    assert source[index] == text[0] && source[index + 1] == text[1] && text[|dots|] == name[0];
    SpellsReadName(source, index + |dots|, end);
  }

  /** Every spelling of a segment is read as it, up to where the next one starts. */
  lemma SpellsRead(source: string, index: nat, end: nat, segment: Segment)
    requires index < end <= |source| && Spells(segment, source[index..end])
    requires end < |source| ==> source[end] == '.' || source[end] == '['
    ensures ReadSegment(source, index) == Read(end, segment)
  {
    var text := source[index..end];
    match segment
    case Property(name) =>
      if Quoted(text, name) {
        QuotedIsRead(source, index, end, name);
      } else {
        NameIsRead(source, index, end, ".", name);
      }
    case Index(n) =>
      var digits :| digits != [] && AllDigits(digits) && NatValue(digits) == n && Bracketed(text, digits);
      BracketedIsRead(source, index, end, digits);
    case Wildcard =>
      if Bracketed(text, "*") {
        BracketedIsRead(source, index, end, "*");
      } else {
        assert source[index] == text[0] && source[index + 1] == text[1];
      }
    case Descend(name) => NameIsRead(source, index, end, "..", name);
  }

  // ----- The whole text -----

  /** Spellings from a position on. */
  ghost predicate DividesFrom(source: string, index: nat, segments: seq<Segment>, cuts: seq<nat>) {
    && |cuts| == |segments| + 1 && cuts[0] == index && cuts[|segments|] == |source|
    && forall k :: 0 <= k < |segments| ==> Covers(source, segments, cuts, k)
  }

  lemma SpellingStarts(segment: Segment, text: string)
    requires Spells(segment, text)
    ensures text != [] && (text[0] == '.' || text[0] == '[')
  {
  }

  lemma {:induction false} ParseDivides(source: string, index: nat, segments: seq<Segment>) returns (cuts: seq<nat>)
    requires index <= |source| && ParseFrom(source, index) == Parsed(segments)
    ensures DividesFrom(source, index, segments, cuts)
    decreases |source| - index
  {
    if index == |source| {
      cuts := [index];
    } else {
      var r := ReadSegment(source, index);
      ReadSpells(source, index, r.end, r.segment);
      var rest := ParseFrom(source, r.end).segments;
      var more := ParseDivides(source, r.end, rest);
      cuts := [index] + more;
      OneCutMore(source, index, r.segment, rest, r.end, more);
    }
  }

  lemma OneCutMore(source: string, index: nat, segment: Segment, rest: seq<Segment>, end: nat, more: seq<nat>)
    requires index < end <= |source| && Spells(segment, source[index..end]) && DividesFrom(source, end, rest, more)
    ensures DividesFrom(source, index, [segment] + rest, [index] + more)
  {
    var segments, cuts := [segment] + rest, [index] + more;
    forall k | 0 <= k < |segments| ensures Covers(source, segments, cuts, k) {
      assert k > 0 ==> Covers(source, rest, more, k - 1);
    }
  }

  lemma NextStarts(source: string, index: nat, segments: seq<Segment>, cuts: seq<nat>)
    requires DividesFrom(source, index, segments, cuts) && segments != [] && cuts[1] < |source|
    ensures source[cuts[1]] == '.' || source[cuts[1]] == '['
  {
    assert Covers(source, segments, cuts, 0);
    assert Covers(source, segments, cuts, 1);
    SpellingStarts(segments[1], source[cuts[1]..cuts[2]]);
  }

  lemma {:induction false} DividesParse(source: string, index: nat, segments: seq<Segment>, cuts: seq<nat>)
    requires DividesFrom(source, index, segments, cuts)
    ensures index <= |source| && ParseFrom(source, index) == Parsed(segments)
    decreases |segments|
  {
    if segments != [] {
      assert Covers(source, segments, cuts, 0);
      if cuts[1] < |source| {
        NextStarts(source, index, segments, cuts);
      }
      SpellsRead(source, index, cuts[1], segments[0]);
      forall k | 0 <= k < |segments[1..]| ensures Covers(source, segments[1..], cuts[1..], k) {
        assert Covers(source, segments, cuts, k + 1);
      }
      DividesParse(source, cuts[1], segments[1..], cuts[1..]);
      ParseOne(source, index, cuts[1], segments[0], segments[1..]);
      assert segments == [segments[0]] + segments[1..];
    }
  }

  /**
    A text is read as these segments exactly if, white space around it aside, it is a dollar sign and
    behind it one spelling of each of them. Everything else is an error.
  */
  lemma ParseIff(expression: string, segments: seq<Segment>)
    ensures Parse(expression) == Parsed(segments) <==>
      && Trim(expression) != [] && Trim(expression)[0] == '$'
      && exists cuts :: Divides(Trim(expression), segments, cuts)
  {
    var source := Trim(expression);
    if Parse(expression) == Parsed(segments) {
      var cuts := ParseDivides(source, 1, segments);
      assert Divides(source, segments, cuts);
    }
    if source != [] && source[0] == '$' && exists cuts :: Divides(source, segments, cuts) {
      var cuts :| Divides(source, segments, cuts);
      DividesParse(source, 1, segments, cuts);
    }
  }
}
