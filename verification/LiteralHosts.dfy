/**
  The text of a literal address in a CONNECT request (apps/renderer/src/guarded-socks-proxy.ts), and the
  address that packages/core/src/net/address.ts reads from that text before it is dialled.
*/
module LiteralHosts {
  import opened Prelude
  import opened Digits
  import opened Texts
  import opened Address
  import opened SocksProxy

  function HexChar(d: nat): (c: char)
    requires d < 16
    ensures IsHexDigit(c) && HexDigitValue(c) == d
  {
    if d < 10 then DigitChar(d) else ('a' as int + (d - 10)) as char
  }

  /** `toString(16)`. */
  function HexText(n: nat): (s: string)
    ensures s != [] && AllHex(s)
    ensures (n < 16 ==> |s| <= 1) && (n < 256 ==> |s| <= 2) && (n < 4096 ==> |s| <= 3) && (n < 65536 ==> |s| <= 4)
  {
    if n < 16 then [HexChar(n)] else HexText(n / 16) + [HexChar(n % 16)]
  }

  lemma {:induction false} HexTextValue(n: nat)
    ensures HexValue(HexText(n)) == n
  {
    if n < 16 {
      assert HexText(n)[..0] == [];
    } else {
      HexTextValue(n / 16);
      assert HexText(n)[..|HexText(n)| - 1] == HexText(n / 16);
    }
  }

  lemma OctetTextIsShort(n: nat)
    requires n <= MAX_OCTET
    ensures IsOctetText(NatText(n)) && OctetValue(NatText(n)) == n
  {
    NatTextValue(n);
    if n >= 100 {
      var tens := n / 10;
      assert tens / 10 < 10 && |NatText(tens / 10)| == 1;
      assert |NatText(tens)| == 2;
    }
  }

  function ByteTexts(octets: seq<byte>): seq<string> {
    seq(|octets|, i requires 0 <= i < |octets| => NatText(octets[i]))
  }

  /** `readUInt16BE`. */
  function GroupOf(high: int, low: int): Group
    requires 0 <= high <= MAX_OCTET && 0 <= low <= MAX_OCTET
  {
    high * 256 + low
  }

  /** The groups of sixteen address bytes, most significant byte first. */
  function BytesGroups(bytes: seq<byte>): Groups {
    seq(|bytes| / 2, i requires 0 <= i < |bytes| / 2 => GroupOf(bytes[2 * i], bytes[2 * i + 1]))
  }

  function GroupTexts(groups: Groups): seq<string> {
    seq(|groups|, i requires 0 <= i < |groups| => HexText(groups[i]))
  }

  /** `hostname` of a literal address. */
  function HostText(host: Host): string
    requires HostOk(host) && !host.Name?
  {
    if host.Ipv4? then Join(ByteTexts(host.octets), '.') else Join(GroupTexts(BytesGroups(host.bytes)), ':')
  }

  lemma Ipv4TextNamesItsBytes(octets: seq<byte>)
    requires |octets| == OCTETS
    ensures ParseIpv4(Join(ByteTexts(octets), '.')) == Some(octets)
  {
    var quad := ByteTexts(octets);
    forall i | 0 <= i < OCTETS ensures IsOctetText(quad[i]) && OctetValue(quad[i]) == octets[i] {
      OctetTextIsShort(octets[i]);
    }
    QuadIsRead(quad);
    assert OctetValues(quad) == octets;
  }

  lemma Ipv6TextNamesItsGroups(groups: Groups)
    requires |groups| == GROUPS
    ensures var text := Join(GroupTexts(groups), ':'); ParseIpv4(text).None? && Ipv6Groups(text) == Some(groups)
  {
    var part := Part(GroupTexts(groups), None);
    forall i | 0 <= i < GROUPS ensures IsGroup(part.groups[i]) && HexValue(part.groups[i]) == groups[i] {
      HexTextValue(groups[i]);
    }
    assert PartPieces(part) == part.groups;
    assert PartGroups(part) == groups;
    EveryFormIsRead(Full(part), []);
    assert FormText(Full(part)) + [] == PartText(part);
    DotShowsQuad(part);
    assert |Split(PartText(part), '.')| == 1;
  }

  /** The address that is checked is the address of the request, byte for byte. */
  lemma LiteralNamesItsBytes(host: Host)
    requires HostOk(host) && !host.Name?
    ensures host.Ipv4? ==> ParseIpv4(HostText(host)) == Some(host.octets)
    ensures host.Ipv6? ==>
      ParseIpv4(HostText(host)).None? && Ipv6Groups(HostText(host)) == Some(BytesGroups(host.bytes))
  {
    match host
    case Ipv4(octets) => Ipv4TextNamesItsBytes(octets);
    case Ipv6(bytes) => Ipv6TextNamesItsGroups(BytesGroups(bytes));
  }
}
