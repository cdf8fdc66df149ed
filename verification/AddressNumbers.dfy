/** What the numbers in an address text are worth, and how they may be written: packages/core/src/net/address.ts. */
module AddressNumbers {
  import opened Prelude
  import opened Digits
  import opened Texts
  import opened Address
  import opened LiteralHosts

  // ----- Octets -----

  /** One to three digits, worth at most 255. */
  predicate IsOctet(t: string) {
    1 <= |t| <= 3 && (forall i :: 0 <= i < |t| ==> '0' <= t[i] <= '9') && NatValue(t) <= 255
  }

  /** A text is read as a dotted quad exactly if it is four octets between three dots, and then as their values. */
  lemma QuadReadIff(value: string, octets: seq<nat>)
    ensures ParseIpv4(value) == Some(octets) <==> exists a, b, c, d ::
      && IsOctet(a) && IsOctet(b) && IsOctet(c) && IsOctet(d) && value == Join([a, b, c, d], '.')
      && octets == [NatValue(a), NatValue(b), NatValue(c), NatValue(d)]
  {
    JoinUndoesSplit(value, '.');
    if ParseIpv4(value) == Some(octets) {
      var p := Split(value, '.');
      assert p == [p[0], p[1], p[2], p[3]];
      assert IsOctet(p[0]) && IsOctet(p[1]) && IsOctet(p[2]) && IsOctet(p[3]);
    }
    forall a, b, c, d |
      && IsOctet(a) && IsOctet(b) && IsOctet(c) && IsOctet(d) && value == Join([a, b, c, d], '.')
      && octets == [NatValue(a), NatValue(b), NatValue(c), NatValue(d)]
      ensures ParseIpv4(value) == Some(octets)
    {
      FourOctetsAreRead(a, b, c, d);
    }
  }

  lemma FourOctetsAreRead(a: string, b: string, c: string, d: string)
    requires IsOctet(a) && IsOctet(b) && IsOctet(c) && IsOctet(d)
    ensures ParseIpv4(Join([a, b, c, d], '.')) == Some([NatValue(a), NatValue(b), NatValue(c), NatValue(d)])
  {
    var quad := [a, b, c, d];
    QuadIsRead(quad);
    assert OctetValues(quad) == [NatValue(a), NatValue(b), NatValue(c), NatValue(d)];
  }

  // ----- Groups -----

  /** The digit `d`, in either case. */
  predicate Denotes(c: char, d: nat) {
    if d < 10 then c as int == '0' as int + d
    else d < 16 && (c as int == 'a' as int + (d - 10) || c as int == 'A' as int + (d - 10))
  }

  lemma DigitDenotes(c: char, d: nat)
    ensures Denotes(c, d) <==> IsHexDigit(c) && HexDigitValue(c) == d
  {
  }

  ghost predicate IsHexadecimal(c: char) { exists d: nat :: Denotes(c, d) }

  /** A group is one to four hexadecimal digits, whatever their case. */
  lemma GroupIff(t: string)
    ensures IsGroup(t) <==> 1 <= |t| <= 4 && forall i :: 0 <= i < |t| ==> IsHexadecimal(t[i])
  {
    forall i | 0 <= i < |t| ensures IsHexDigit(t[i]) <==> IsHexadecimal(t[i]) {
      if IsHexDigit(t[i]) {
        DigitDenotes(t[i], HexDigitValue(t[i]));
      }
      if d: nat :| Denotes(t[i], d) {
        DigitDenotes(t[i], d);
      }
    }
  }

  /** The same digit, perhaps in another case. */
  ghost predicate Alike(c: char, e: char) { exists d: nat :: Denotes(c, d) && Denotes(e, d) }

  lemma AlikeIsEqual(c: char, e: char)
    requires Alike(c, e)
    ensures IsHexDigit(c) && IsHexDigit(e) && HexDigitValue(c) == HexDigitValue(e)
  {
    var d: nat :| Denotes(c, d) && Denotes(e, d);
    DigitDenotes(c, d);
    DigitDenotes(e, d);
  }

  /** Neither the case of the digits nor zeros in front change what a group is worth. */
  lemma {:induction false} CaseDoesNotMatter(t: string, u: string)
    requires |t| == |u| && AllHex(t) && AllHex(u) && forall i :: 0 <= i < |t| ==> Alike(t[i], u[i])
    ensures HexValue(t) == HexValue(u)
  {
    if t != [] {
      CaseDoesNotMatter(t[..|t| - 1], u[..|u| - 1]);
      AlikeIsEqual(t[|t| - 1], u[|u| - 1]);
    }
  }

  lemma {:induction false} LeadingZeroDoesNotMatter(t: string)
    requires AllHex(t)
    ensures AllHex("0" + t) && HexValue("0" + t) == HexValue(t)
  {
    if t != [] {
      LeadingZeroDoesNotMatter(t[..|t| - 1]);
      assert ("0" + t)[..|t|] == "0" + t[..|t| - 1];
    } else {
      assert "0" + t == "0" && "0"[..0] == "";
    }
  }

  lemma TailForm(tail: Part)
    requires PartOk(tail) && |PartGroups(tail)| < GROUPS
    ensures var f := Compressed(Part([], None), tail);
      && FormOk(f) && FormText(f) == "::" + PartText(tail)
      && FormGroups(f) == Zeros(GROUPS - |PartGroups(tail)|) + PartGroups(tail)
  {
    var head := Part([], None);
    assert PartGroups(head) == [];
    assert PartText(head) == [];
    assert [] + "::" == "::";
  }

  /** What stands behind `::` gives the last groups. */
  lemma TailIsRead(tail: Part, text: string, groups: Groups)
    requires PartOk(tail) && text == PartText(tail) && groups == PartGroups(tail) && |groups| < GROUPS
    ensures Ipv6Groups("::" + text) == Some(Zeros(GROUPS - |groups|) + groups)
  {
    TailForm(tail);
    EveryFormIsRead(Compressed(Part([], None), tail), []);
    assert "::" + text + [] == "::" + text;
  }

  /** Every number of sixteen bits is read from its hexadecimal text, and from every spelling of it. */
  lemma GroupIsWorth(n: Group, text: string)
    requires |text| == |HexText(n)| && forall i :: 0 <= i < |text| ==> Alike(text[i], HexText(n)[i])
    ensures Ipv6Groups("::" + text) == Some(Zeros(7) + [n])
  {
    HexTextValue(n);
    forall i | 0 <= i < |text| ensures IsHexDigit(text[i]) {
      AlikeIsEqual(text[i], HexText(n)[i]);
    }
    CaseDoesNotMatter(text, HexText(n));
    var tail := Part([text], None);
    assert PartPieces(tail) == [text];
    assert PartGroups(tail) == [n];
    TailIsRead(tail, text, [n]);
  }

  lemma QuadPart(quad: seq<string>)
    requires IsQuad(quad)
    ensures var tail := Part([], Some(quad));
      PartOk(tail) && PartText(tail) == Join(quad, '.') && PartGroups(tail) == QuadGroups(OctetValues(quad))
  {
    assert PartPieces(Part([], Some(quad))) == [Join(quad, '.')];
  }

  /** A dotted quad at the end stands for two groups, its first and its third octet being the high ones. */
  lemma QuadIsWorth(quad: seq<string>, octets: seq<nat>)
    requires IsQuad(quad) && ParseIpv4(Join(quad, '.')) == Some(octets)
    ensures Ipv6Groups("::" + Join(quad, '.'))
      == Some(Zeros(6) + [256 * octets[0] + octets[1], 256 * octets[2] + octets[3]])
  {
    QuadIsRead(quad);
    QuadPart(quad);
    TailIsRead(Part([], Some(quad)), Join(quad, '.'), QuadGroups(octets));
  }
}
