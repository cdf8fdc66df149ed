/** `readJsonLiteral` of packages/core/src/extract/json-documents.ts, against the grammar of JSON text (RFC 8259). */
module JsonDocuments {
  import opened Prelude
  import opened Digits
  import opened Sequences

  const MAX_DOCUMENT_CHARS := 2_000_000

  datatype JsonLiteralRead = JsonLiteralRead(end: nat, value: string)

  // ----- The scanner, one character at a time -----

  /** `depth` and `quote` of the loop; `Escape` is the turn the loop skips after a backslash. */
  datatype Scan = Outside(depth: int) | Inside(depth: int, quote: char) | Escape(depth: int, quote: char) | Closed

  datatype Brackets = Brackets(open: char, close: char)

  function BracketsFor(open: char): Brackets { Brackets(open, if open == '{' then '}' else ']') }

  function Take(s: Scan, c: char, b: Brackets): Scan {
    match s
    case Closed => Closed
    case Escape(depth, quote) => Inside(depth, quote)
    case Inside(depth, quote) =>
      if c == '\\' then Escape(depth, quote) else if c == quote then Outside(depth) else s
    case Outside(depth) =>
      if c == '"' || c == '\'' then Inside(depth, c)
      else if c == b.open then Outside(depth + 1)
      else if c == b.close then (if depth - 1 == 0 then Closed else Outside(depth - 1))
      else s
  }

  function TakeAll(s: Scan, text: string, b: Brackets): Scan {
    if text == "" then s else Take(TakeAll(s, text[..|text| - 1], b), text[|text| - 1], b)
  }

  /** Where the scan first closes, if it does before `limit`. */
  function ScanFrom(source: string, i: nat, limit: nat, s: Scan, b: Brackets): Option<nat>
    requires limit <= |source|
    decreases limit - i
  {
    if s == Closed then Some(i)
    else if i >= limit then None
    else ScanFrom(source, i + 1, limit, Take(s, source[i], b), b)
  }

  function Limit(source: string, start: nat): nat {
    if |source| < start + MAX_DOCUMENT_CHARS then |source| else start + MAX_DOCUMENT_CHARS
  }

  /** Behind the end of the source there is no literal. */
  function Literal(source: string, start: nat): (r: Option<JsonLiteralRead>) {
    if start >= |source| then None
    else
      var end := ScanFrom(source, start, Limit(source, start), Outside(0), BracketsFor(source[start]));
      if end.Some? && start <= end.value <= |source| then Some(JsonLiteralRead(end.value, source[start..end.value]))
      else None
  }

  method ReadJsonLiteral(source: string, start: nat) returns (r: Option<JsonLiteralRead>)
    ensures r == Literal(source, start)
  {
    if start >= |source| {
      return None;  // the loop has no turn
    }
    var open := source[start];
    var close := if open == '{' then '}' else ']';
    var limit := Limit(source, start);
    var depth := 0;
    var quote: Option<char> := None;
    var index := start;
    ghost var b := BracketsFor(open);
    while index < limit
      invariant start <= index
      invariant ScanFrom(source, start, limit, Outside(0), b)
             == ScanFrom(source, index, limit, if quote.Some? then Inside(depth, quote.value) else Outside(depth), b)
    {
      var c := source[index];
      if quote.Some? {
        if c == '\\' {
          index := index + 1;
        } else if c == quote.value {
          quote := None;
        }
        index := index + 1;
        continue;
      }
      if c == '"' || c == '\'' {
        quote := Some(c);
        index := index + 1;
        continue;
      }
      if c == open {
        depth := depth + 1;
      } else if c == close {
        depth := depth - 1;
        if depth == 0 {
          return Some(JsonLiteralRead(index + 1, source[start..index + 1]));
        }
      }
      index := index + 1;
    }
    r := None;
  }

  // ----- JSON text -----

  /** One character of a string, section 7 of RFC 8259: as it is, or escaped. */
  datatype StringPart = Plain(c: char) | Escaped(c: char) | Hex(digits: string)

  /** A JSON text with every blank kept: an element or a member stands between the commas around it. */
  datatype JsonText =
    | WordText(word: string)
    | NumberText(number: string)
    | StringText(parts: seq<StringPart>)
    | ArrayText(blank: string, elements: seq<Element>)
    | ObjectText(blank: string, members: seq<Member>)
  datatype Element = Element(before: string, value: JsonText, after: string)
  datatype Member = Member(before: string, key: seq<StringPart>, beforeColon: string, element: Element)

  predicate IsBlank(s: string) { forall i :: 0 <= i < |s| ==> s[i] in " \t\n\r" }
  predicate IsHex(c: char) { IsDigit(c) || 'a' <= c <= 'f' || 'A' <= c <= 'F' }

  predicate PartOk(p: StringPart) {
    match p
    case Plain(c) => c >= ' ' && c != '"' && c != '\\'
    case Escaped(c) => c in "\"\\/bfnrt"
    case Hex(digits) => |digits| == 4 && forall i :: 0 <= i < 4 ==> IsHex(digits[i])
  }

  predicate PartsOk(parts: seq<StringPart>) { forall k :: 0 <= k < |parts| ==> PartOk(parts[k]) }

  predicate NumberOk(s: string) { s != "" && forall i :: 0 <= i < |s| ==> IsDigit(s[i]) || s[i] in "+-.eE" }

  predicate IsJson(t: JsonText) {
    match t
    case WordText(word) => word in ["true", "false", "null"]
    case NumberText(number) => NumberOk(number)
    case StringText(parts) => PartsOk(parts)
    case ArrayText(blank, elements) => IsBlank(blank) && forall k :: 0 <= k < |elements| ==> ElementOk(elements[k])
    case ObjectText(blank, members) => IsBlank(blank) && forall k :: 0 <= k < |members| ==> MemberOk(members[k])
  }

  predicate ElementOk(e: Element) { IsBlank(e.before) && IsJson(e.value) && IsBlank(e.after) }

  predicate MemberOk(m: Member) {
    IsBlank(m.before) && PartsOk(m.key) && IsBlank(m.beforeColon) && ElementOk(m.element)
  }

  function PartText(p: StringPart): string {
    match p
    case Plain(c) => [c]
    case Escaped(c) => ['\\', c]
    case Hex(digits) => "\\u" + digits
  }

  function PartsText(parts: seq<StringPart>): string {
    if parts == [] then "" else PartsText(parts[..|parts| - 1]) + PartText(parts[|parts| - 1])
  }

  function QuotedText(parts: seq<StringPart>): string { "\"" + PartsText(parts) + "\"" }

  function TextOf(t: JsonText): string {
    match t
    case WordText(word) => word
    case NumberText(number) => number
    case StringText(parts) => QuotedText(parts)
    case ArrayText(blank, elements) => "[" + (if elements == [] then blank else ElementsText(elements)) + "]"
    case ObjectText(blank, members) => "{" + (if members == [] then blank else MembersText(members)) + "}"
  }

  function ElementText(e: Element): string { e.before + TextOf(e.value) + e.after }

  function MemberText(m: Member): string {
    m.before + QuotedText(m.key) + m.beforeColon + ":" + ElementText(m.element)
  }

  function ElementsText(elements: seq<Element>): string
    requires elements != []
  {
    var last := ElementText(elements[|elements| - 1]);
    if |elements| == 1 then last else ElementsText(elements[..|elements| - 1]) + "," + last
  }

  function MembersText(members: seq<Member>): string
    requires members != []
  {
    var last := MemberText(members[|members| - 1]);
    if |members| == 1 then last else MembersText(members[..|members| - 1]) + "," + last
  }

  // ----- JSON text leaves the scanner where it was -----

  lemma {:induction false} TakeAppend(s: Scan, a: string, c: string, b: Brackets)
    ensures TakeAll(s, a + c, b) == TakeAll(TakeAll(s, a, b), c, b)
    decreases |c|
  {
    if c == "" {
      assert a + c == a;
    } else {
      TakeAppend(s, a, c[..|c| - 1], b);
      assert (a + c)[..|a + c| - 1] == a + c[..|c| - 1];
    }
  }

  ghost predicate Real(b: Brackets) { b == Brackets('{', '}') || b == Brackets('[', ']') }

  /** A text that takes the scanner from an open literal back to the same place. */
  ghost predicate Neutral(text: string, depth: int, b: Brackets) { TakeAll(Outside(depth), text, b) == Outside(depth) }

  lemma NeutralAppend(a: string, c: string, depth: int, b: Brackets)
    requires Neutral(a, depth, b) && Neutral(c, depth, b)
    ensures Neutral(a + c, depth, b)
  {
    TakeAppend(Outside(depth), a, c, b);
  }

  predicate Inert(c: char) { c !in "\"'{}[]" }

  lemma {:induction false} InertIsNeutral(text: string, depth: int, b: Brackets)
    requires Real(b) && forall i :: 0 <= i < |text| ==> Inert(text[i])
    ensures Neutral(text, depth, b)
  {
    if text != "" {
      InertIsNeutral(text[..|text| - 1], depth, b);
      assert Inert(text[|text| - 1]);
    }
  }

  lemma EscapeStaysInside(c: char, depth: int, b: Brackets)
    ensures TakeAll(Inside(depth, '"'), ['\\', c], b) == Inside(depth, '"')
  {
    TakeAppend(Inside(depth, '"'), ['\\'], [c], b);
    TakeOne(Inside(depth, '"'), '\\', b);
    TakeOne(Escape(depth, '"'), c, b);
    assert ['\\'] + [c] == ['\\', c];
  }

  lemma PartStaysInside(p: StringPart, depth: int, b: Brackets)
    requires PartOk(p)
    ensures TakeAll(Inside(depth, '"'), PartText(p), b) == Inside(depth, '"')
  {
    var s := Inside(depth, '"');
    match p
    case Plain(c) =>
      assert [c][..0] == "";
    case Escaped(c) =>
      EscapeStaysInside(c, depth, b);
    case Hex(digits) =>
      TakeAppend(s, "\\u", digits, b);
      EscapeStaysInside('u', depth, b);
      assert "\\u" == ['\\', 'u'];
      HexStaysInside(digits, depth, b);
  }

  lemma {:induction false} HexStaysInside(digits: string, depth: int, b: Brackets)
    requires forall i :: 0 <= i < |digits| ==> IsHex(digits[i])
    ensures TakeAll(Inside(depth, '"'), digits, b) == Inside(depth, '"')
  {
    if digits != "" {
      HexStaysInside(digits[..|digits| - 1], depth, b);
      assert IsHex(digits[|digits| - 1]);
    }
  }

  lemma {:induction false} PartsStayInside(parts: seq<StringPart>, depth: int, b: Brackets)
    requires PartsOk(parts)
    ensures TakeAll(Inside(depth, '"'), PartsText(parts), b) == Inside(depth, '"')
  {
    if parts != [] {
      var front := parts[..|parts| - 1];
      PartsStayInside(front, depth, b);
      PartStaysInside(parts[|parts| - 1], depth, b);
      TakeAppend(Inside(depth, '"'), PartsText(front), PartText(parts[|parts| - 1]), b);
    }
  }

  lemma QuotedIsNeutral(parts: seq<StringPart>, depth: int, b: Brackets)
    requires PartsOk(parts)
    ensures Neutral(QuotedText(parts), depth, b)
  {
    var s := Outside(depth);
    assert "\""[..0] == "";
    TakeAppend(s, "\"", PartsText(parts), b);
    PartsStayInside(parts, depth, b);
    TakeAppend(s, "\"" + PartsText(parts), "\"", b);
  }

  /** A bracketed group around a neutral text is neutral inside a literal, and closes one at depth zero. */
  lemma GroupIsNeutral(inner: string, group: Brackets, depth: int, b: Brackets)
    requires Real(b) && Real(group) && depth >= 1
    requires Neutral(inner, if group == b then depth + 1 else depth, b)
    ensures Neutral([group.open] + inner + [group.close], depth, b)
  {
    TakeOne(Outside(depth), group.open, b);
    TakeAppend(Outside(depth), [group.open], inner, b);
    TakeAppend(Outside(depth), [group.open] + inner, [group.close], b);
    TakeOne(TakeAll(Outside(depth), [group.open] + inner, b), group.close, b);
  }

  lemma TakeOne(s: Scan, c: char, b: Brackets)
    ensures TakeAll(s, [c], b) == Take(s, c, b)
  {
    assert [c][..0] == "";
  }

  lemma {:induction false} TextIsNeutral(t: JsonText, depth: int, b: Brackets)
    requires IsJson(t) && Real(b) && depth >= 1
    ensures Neutral(TextOf(t), depth, b)
    decreases t, 1
  {
    match t
    case WordText(word) => InertIsNeutral(word, depth, b);
    case NumberText(number) => InertIsNeutral(number, depth, b);
    case StringText(parts) => QuotedIsNeutral(parts, depth, b);
    case ArrayText(_, _) =>
      InsideIsNeutral(t, if Brackets('[', ']') == b then depth + 1 else depth, b);
      GroupIsNeutral(InsideOf(t), Brackets('[', ']'), depth, b);
    case ObjectText(_, _) =>
      InsideIsNeutral(t, if Brackets('{', '}') == b then depth + 1 else depth, b);
      GroupIsNeutral(InsideOf(t), Brackets('{', '}'), depth, b);
  }

  /** What stands between the brackets of an array or an object. */
  function InsideOf(t: JsonText): string
    requires t.ArrayText? || t.ObjectText?
  {
    match t
    case ArrayText(blank, elements) => if elements == [] then blank else ElementsText(elements)
    case ObjectText(blank, members) => if members == [] then blank else MembersText(members)
  }

  lemma {:induction false} InsideIsNeutral(t: JsonText, depth: int, b: Brackets)
    requires (t.ArrayText? || t.ObjectText?) && IsJson(t) && Real(b) && depth >= 1
    ensures Neutral(InsideOf(t), depth, b)
    decreases t, 0
  {
    match t
    case ArrayText(blank, elements) =>
      InertIsNeutral(blank, depth, b);
      if elements != [] { ElementsAreNeutral(elements, depth, b); }
    case ObjectText(blank, members) =>
      InertIsNeutral(blank, depth, b);
      if members != [] { MembersAreNeutral(members, depth, b); }
  }

  lemma {:induction false} ElementIsNeutral(e: Element, depth: int, b: Brackets)
    requires ElementOk(e) && Real(b) && depth >= 1
    ensures Neutral(ElementText(e), depth, b)
    decreases e
  {
    InertIsNeutral(e.before, depth, b);
    TextIsNeutral(e.value, depth, b);
    InertIsNeutral(e.after, depth, b);
    NeutralAppend(e.before, TextOf(e.value), depth, b);
    NeutralAppend(e.before + TextOf(e.value), e.after, depth, b);
  }

  lemma {:induction false} ElementsAreNeutral(elements: seq<Element>, depth: int, b: Brackets)
    requires elements != [] && (forall k :: 0 <= k < |elements| ==> ElementOk(elements[k])) && Real(b) && depth >= 1
    ensures Neutral(ElementsText(elements), depth, b)
    decreases elements
  {
    var front, last := elements[..|elements| - 1], elements[|elements| - 1];
    ElementIsNeutral(last, depth, b);
    if front != [] {
      ElementsAreNeutral(front, depth, b);
      InertIsNeutral(",", depth, b);
      NeutralAppend(ElementsText(front), ",", depth, b);
      NeutralAppend(ElementsText(front) + ",", ElementText(last), depth, b);
    }
  }

  lemma KeyIsNeutral(m: Member, depth: int, b: Brackets)
    requires MemberOk(m) && Real(b) && depth >= 1
    ensures Neutral(m.before + QuotedText(m.key) + m.beforeColon + ":", depth, b)
  {
    var key := QuotedText(m.key);
    InertIsNeutral(m.before, depth, b);
    QuotedIsNeutral(m.key, depth, b);
    InertIsNeutral(m.beforeColon, depth, b);
    InertIsNeutral(":", depth, b);
    NeutralAppend(m.before, key, depth, b);
    NeutralAppend(m.before + key, m.beforeColon, depth, b);
    NeutralAppend(m.before + key + m.beforeColon, ":", depth, b);
  }

  lemma {:induction false} MemberIsNeutral(m: Member, depth: int, b: Brackets)
    requires MemberOk(m) && Real(b) && depth >= 1
    ensures Neutral(MemberText(m), depth, b)
    decreases m
  {
    KeyIsNeutral(m, depth, b);
    ElementIsNeutral(m.element, depth, b);
    NeutralAppend(m.before + QuotedText(m.key) + m.beforeColon + ":", ElementText(m.element), depth, b);
  }

  lemma {:induction false} MembersAreNeutral(members: seq<Member>, depth: int, b: Brackets)
    requires members != [] && (forall k :: 0 <= k < |members| ==> MemberOk(members[k])) && Real(b) && depth >= 1
    ensures Neutral(MembersText(members), depth, b)
    decreases members
  {
    var front, last := members[..|members| - 1], members[|members| - 1];
    MemberIsNeutral(last, depth, b);
    if front != [] {
      MembersAreNeutral(front, depth, b);
      InertIsNeutral(",", depth, b);
      NeutralAppend(MembersText(front), ",", depth, b);
      NeutralAppend(MembersText(front) + ",", MemberText(last), depth, b);
    }
  }

  // ----- The scanner stops exactly at the end of the text -----

  /** The scan agrees with taking the characters one by one for as long as it has not closed. */
  lemma {:induction false} ScanTakes(source: string, i: nat, j: nat, limit: nat, s: Scan, b: Brackets)
    requires i <= j <= limit <= |source| && TakeAll(s, source[i..j], b) != Closed
    ensures ScanFrom(source, i, limit, s, b) == ScanFrom(source, j, limit, TakeAll(s, source[i..j], b), b)
    decreases j
  {
    if i < j {
      assert source[i..j][..|source[i..j]| - 1] == source[i..j - 1];
      ScanTakes(source, i, j - 1, limit, s, b);
    }
  }

  lemma {:induction false} ClosedStays(a: string, c: string, b: Brackets)
    requires TakeAll(Outside(0), a, b) == Closed
    ensures TakeAll(Outside(0), a + c, b) == Closed
    decreases |c|
  {
    if c == "" {
      assert a + c == a;
    } else {
      ClosedStays(a, c[..|c| - 1], b);
      assert (a + c)[..|a + c| - 1] == a + c[..|c| - 1];
    }
  }

  /** An array or object is an opening bracket, what the scanner leaves at depth one, and the closing bracket. */
  lemma HeadIsOpen(t: JsonText) returns (head: string, b: Brackets)
    requires IsJson(t) && (t.ArrayText? || t.ObjectText?)
    ensures head != [] && Real(b) && BracketsFor(head[0]) == b && TextOf(t) == head + [b.close]
    ensures TakeAll(Outside(0), head, b) == Outside(1)
  {
    b := if t.ArrayText? then Brackets('[', ']') else Brackets('{', '}');
    head := [b.open] + InsideOf(t);
    TakeOne(Outside(0), b.open, b);
    TakeAppend(Outside(0), [b.open], InsideOf(t), b);
    InsideIsNeutral(t, 1, b);
  }

  lemma ClosesNext(source: string, j: nat, limit: nat, b: Brackets)
    requires j < limit <= |source| && Real(b) && source[j] == b.close
    ensures ScanFrom(source, j, limit, Outside(1), b) == Some(j + 1)
  {
    assert Take(Outside(1), source[j], b) == Closed;
  }

  lemma ClosesAt(source: string, start: nat, j: nat, b: Brackets)
    requires start < j < Limit(source, start) && Real(b) && BracketsFor(source[start]) == b && source[j] == b.close
    requires TakeAll(Outside(0), source[start..j], b) == Outside(1)
    ensures Literal(source, start) == Some(JsonLiteralRead(j + 1, source[start..j + 1]))
  {
    ScanTakes(source, start, j, Limit(source, start), Outside(0), b);
    ClosesNext(source, j, Limit(source, start), b);
  }

  /** Where the pieces of a source stand that has a text in it. */
  lemma PiecesOf(before: string, head: string, last: char, after: string)
    requires head != []
    ensures var source, start := before + (head + [last]) + after, |before|;
      && start + |head| < |source| && source[start] == head[0] && source[start + |head|] == last
      && source[start..start + |head|] == head && source[start..start + |head| + 1] == head + [last]
  {
  }

  lemma ClosesBehind(before: string, head: string, b: Brackets, after: string)
    requires head != [] && Real(b) && BracketsFor(head[0]) == b && |head| < MAX_DOCUMENT_CHARS
    requires TakeAll(Outside(0), head, b) == Outside(1)
    ensures Literal(before + (head + [b.close]) + after, |before|)
      == Some(JsonLiteralRead(|before| + |head| + 1, head + [b.close]))
  {
    PiecesOf(before, head, b.close, after);
    ClosesAt(before + (head + [b.close]) + after, |before|, |before| + |head|, b);
  }

  lemma StaysOpenAt(source: string, start: nat, head: string, b: Brackets)
    requires head != [] && BracketsFor(head[0]) == b && |head| >= MAX_DOCUMENT_CHARS
    requires start + |head| <= |source| && source[start] == head[0]
    requires source[start..start + MAX_DOCUMENT_CHARS] == head[..MAX_DOCUMENT_CHARS]
    requires TakeAll(Outside(0), head, b) == Outside(1)
    ensures Literal(source, start) == None
  {
    var cut, limit := head[..MAX_DOCUMENT_CHARS], start + MAX_DOCUMENT_CHARS;
    assert cut + head[MAX_DOCUMENT_CHARS..] == head;
    if TakeAll(Outside(0), cut, b) == Closed { ClosedStays(cut, head[MAX_DOCUMENT_CHARS..], b); }
    ScanTakes(source, start, limit, limit, Outside(0), b);
  }

  lemma StaysOpen(before: string, head: string, b: Brackets, after: string)
    requires head != [] && Real(b) && BracketsFor(head[0]) == b && |head| >= MAX_DOCUMENT_CHARS
    requires TakeAll(Outside(0), head, b) == Outside(1)
    ensures Literal(before + head + after, |before|) == None
  {
    CutOf(before, head, after, MAX_DOCUMENT_CHARS);
    assert (before + head + after)[|before| + 0] == head[0];
    StaysOpenAt(before + head + after, |before|, head, b);
  }

  /**
    For every JSON array or object no longer than the character limit, and whatever stands before and
    after it, the scanner returns exactly its text and the position just behind it.
  */
  lemma LiteralIsExactlyTheText(before: string, t: JsonText, after: string)
    requires IsJson(t) && (t.ArrayText? || t.ObjectText?) && |TextOf(t)| <= MAX_DOCUMENT_CHARS
    ensures var source := before + TextOf(t) + after;
      Literal(source, |before|) == Some(JsonLiteralRead(|before| + |TextOf(t)|, TextOf(t)))
  {
    var head, b := HeadIsOpen(t);
    ClosesBehind(before, head, b, after);
  }

  /** One that is longer than the limit is not returned at all, rather than cut. */
  lemma LongLiteralIsRefused(before: string, t: JsonText, after: string)
    requires IsJson(t) && (t.ArrayText? || t.ObjectText?) && |TextOf(t)| > MAX_DOCUMENT_CHARS
    ensures Literal(before + TextOf(t) + after, |before|) == None
  {
    var head, b := HeadIsOpen(t);
    StaysOpen(before, head, b, [b.close] + after);
    assert before + TextOf(t) + after == before + head + ([b.close] + after);
  }
}
