/** That the JSON texts of JsonDocuments leave nothing out: any string content, and any row of elements or members. */
module JsonTexts {
  import opened Prelude
  import opened JsonDocuments

  function Plainly(s: string): (parts: seq<StringPart>)
    ensures |parts| == |s| && forall k :: 0 <= k < |s| ==> parts[k] == Plain(s[k])
  {
    seq(|s|, k requires 0 <= k < |s| => Plain(s[k]))
  }

  /** A string of characters that need no escape is written as it is. */
  lemma {:induction false} PlainStringIsWritten(s: string)
    requires forall k :: 0 <= k < |s| ==> ' ' <= s[k] && s[k] != '"' && s[k] != '\\'
    ensures PartsOk(Plainly(s)) && PartsText(Plainly(s)) == s
  {
    if s != [] {
      var front := s[..|s| - 1];
      PlainStringIsWritten(front);
      assert Plainly(s)[..|s| - 1] == Plainly(front);
      assert s == front + [s[|s| - 1]];
    }
  }

  /** A further character may come escaped, by its own letter or by four hexadecimal digits. */
  lemma EscapeIsWritten(parts: seq<StringPart>, c: char, digits: string)
    requires PartsOk(parts) && c in "\"\\/bfnrt"
    requires |digits| == 4 && forall k :: 0 <= k < 4 ==> digits[k] in "0123456789abcdefABCDEF"
    ensures PartsOk(parts + [Escaped(c)]) && PartsText(parts + [Escaped(c)]) == PartsText(parts) + ['\\', c]
    ensures PartsOk(parts + [Hex(digits)]) && PartsText(parts + [Hex(digits)]) == PartsText(parts) + ("\\u" + digits)
  {
    assert (parts + [Escaped(c)])[..|parts|] == parts;
    assert (parts + [Hex(digits)])[..|parts|] == parts;
    forall k | 0 <= k < 4 ensures IsHex(digits[k]) {
      assert digits[k] in "0123456789abcdefABCDEF";
    }
  }

  /** A comma joins a further element to an array, and a further member to an object. */
  lemma RowGoesOn(elements: seq<Element>, e: Element, members: seq<Member>, m: Member)
    ensures ElementsText([e]) == ElementText(e) && MembersText([m]) == MemberText(m)
    ensures elements != [] ==> ElementsText(elements + [e]) == ElementsText(elements) + "," + ElementText(e)
    ensures members != [] ==> MembersText(members + [m]) == MembersText(members) + "," + MemberText(m)
  {
    assert (elements + [e])[..|elements|] == elements;
    assert (members + [m])[..|members|] == members;
  }
}
