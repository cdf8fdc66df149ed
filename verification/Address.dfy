/** packages/core/src/net/address.ts: reading an IPv6 address, and its text forms in section 2.2 of RFC 4291. */
module Address {
  import opened Prelude
  import opened Digits
  import opened Texts

  const OCTETS := 4
  const GROUPS := 8
  const MAX_OCTET := 255

  type Group = n: int | 0 <= n < 65536
  type Groups = seq<Group>

  // ----- Dotted quads -----

  predicate IsOctetText(t: string) { 1 <= |t| <= 3 && AllDigits(t) }

  function OctetValue(t: string): nat
    requires IsOctetText(t)
  {
    NatValue(t)
  }

  function OctetValues(texts: seq<string>): (r: seq<nat>)
    requires forall i :: 0 <= i < |texts| ==> IsOctetText(texts[i])
  {
    seq(|texts|, i requires 0 <= i < |texts| => OctetValue(texts[i]))
  }

  predicate IsQuad(texts: seq<string>) {
    && |texts| == OCTETS
    && (forall i :: 0 <= i < |texts| ==> IsOctetText(texts[i]))
    && (forall i :: 0 <= i < |texts| ==> OctetValue(texts[i]) <= MAX_OCTET)
  }

  /** `parseIpv4`. */
  function ParseIpv4(value: string): (r: Option<seq<nat>>)
    ensures r.Some? ==> |r.value| == OCTETS && forall i :: 0 <= i < OCTETS ==> r.value[i] <= MAX_OCTET
  {
    if IsQuad(Split(value, '.')) then Some(OctetValues(Split(value, '.'))) else None
  }

  // ----- Groups -----

  predicate IsHexDigit(c: char) { IsDigit(c) || 'a' <= c <= 'f' || 'A' <= c <= 'F' }

  function HexDigitValue(c: char): (d: nat)
    requires IsHexDigit(c)
    ensures d < 16
  {
    if IsDigit(c) then DigitValue(c) else if c >= 'a' then c as int - 'a' as int + 10 else c as int - 'A' as int + 10
  }

  predicate AllHex(t: string) { forall i :: 0 <= i < |t| ==> IsHexDigit(t[i]) }

  function HexValue(t: string): (n: nat)
    requires AllHex(t)
    ensures (|t| <= 1 ==> n < 16) && (|t| <= 2 ==> n < 256) && (|t| <= 3 ==> n < 4096) && (|t| <= 4 ==> n < 65536)
  {
    if t == [] then 0 else 16 * HexValue(t[..|t| - 1]) + HexDigitValue(t[|t| - 1])
  }

  /** `IPV6_GROUP_PATTERN`. */
  predicate IsGroup(t: string) { 1 <= |t| <= 4 && AllHex(t) }

  function QuadGroups(octets: seq<nat>): Groups
    requires |octets| == OCTETS && forall i :: 0 <= i < OCTETS ==> octets[i] <= MAX_OCTET
  {
    [octets[0] * 256 + octets[1], octets[2] * 256 + octets[3]]
  }

  /** The groups one piece stands for. */
  function PieceGroups(piece: string, isLast: bool): Option<Groups> {
    if isLast && '.' in piece then
      var octets := ParseIpv4(piece);
      if octets.None? then None else Some(QuadGroups(octets.value))
    else if IsGroup(piece) then Some([HexValue(piece)])
    else None
  }

  function Behind(groups: Groups, rest: Option<Groups>): Option<Groups> {
    if rest.None? then None else Some(groups + rest.value)
  }

  lemma BehindAgain(a: Groups, b: Groups, rest: Option<Groups>)
    ensures Behind(a, Behind(b, rest)) == Behind(a + b, rest)
    ensures Behind([], rest) == rest && Behind(a, Some([])) == Some(a)
  {
    if rest.Some? {
      assert a + (b + rest.value) == a + b + rest.value;
      assert [] + rest.value == rest.value;
    }
    assert a + [] == a;
  }

  function ExpandPieces(pieces: seq<string>): Option<Groups> {
    if pieces == [] then Some([])
    else
      var first := PieceGroups(pieces[0], |pieces| == 1);
      if first.None? then None else Behind(first.value, ExpandPieces(pieces[1..]))
  }

  function Expand(part: string): Option<Groups> {
    if part == [] then Some([]) else ExpandPieces(Split(part, ':'))
  }

  lemma ExpandFrom(pieces: seq<string>, index: nat)
    requires index < |pieces|
    ensures var first := PieceGroups(pieces[index], index == |pieces| - 1);
      ExpandPieces(pieces[index..])
        == if first.None? then None else Behind(first.value, ExpandPieces(pieces[index + 1..]))
  {
    assert pieces[index..][1..] == pieces[index + 1..];
  }

  /** The loop of the inner function `expand`, which stops at the first piece it cannot read. */
  method ReadPieces(pieces: seq<string>) returns (r: Option<Groups>)
    ensures r == ExpandPieces(pieces)
  {
    var groups: Groups := [];
    var index := 0;
    ghost var all := ExpandPieces(pieces);
    BehindAgain([], [], all);
    assert pieces[0..] == pieces;
    while index < |pieces|
      invariant 0 <= index <= |pieces|
      invariant all == Behind(groups, ExpandPieces(pieces[index..]))
    {
      var piece := pieces[index];
      ExpandFrom(pieces, index);
      ghost var rest := ExpandPieces(pieces[index + 1..]);
      if index == |pieces| - 1 && '.' in piece {
        var octets := ParseIpv4(piece);
        if octets.None? {
          return None;
        }
        BehindAgain(groups, QuadGroups(octets.value), rest);
        groups := groups + QuadGroups(octets.value);
      } else {
        if !IsGroup(piece) {
          return None;
        }
        BehindAgain(groups, [HexValue(piece)], rest);
        groups := groups + [HexValue(piece)];
      }
      index := index + 1;
    }
    BehindAgain(groups, [], Some([]));
    return Some(groups);
  }

  method ExpandInto(part: string) returns (r: Option<Groups>)
    ensures r == Expand(part)
  {
    if |part| == 0 {
      return Some([]);
    }
    r := ReadPieces(Split(part, ':'));
  }

  // ----- Whole addresses -----

  predicate DoubleColon(s: string, k: nat) { k + 1 < |s| && s[k] == ':' && s[k + 1] == ':' }

  /** The first position of `::`, or the length. */
  function DoubleColonAt(s: string): (k: nat)
    ensures k <= |s| && (k < |s| ==> DoubleColon(s, k))
  {
    if |s| < 2 then |s| else if DoubleColon(s, 0) then 0 else 1 + DoubleColonAt(s[1..])
  }

  /** `address.split("::")`. */
  function Halves(s: string): (halves: seq<string>)
    ensures halves != []
  {
    var k := DoubleColonAt(s);
    if k == |s| then [s] else [s[..k]] + Halves(s[k + 2..])
  }

  function Zeros(n: nat): (z: Groups)
    ensures |z| == n && forall i :: 0 <= i < n ==> z[i] == 0
  {
    seq(n, _ => 0)
  }

  function Filled(head: Groups, tail: Groups): Option<Groups> {
    var missing := GROUPS - |head| - |tail|;
    if missing < 1 then None else Some(head + Zeros(missing) + tail)
  }

  function WholeGroups(halves: seq<string>): (r: Option<Groups>)
    requires 1 <= |halves| <= 2
    ensures r.Some? ==> |r.value| == GROUPS
  {
    var head := Expand(halves[0]);
    if head.None? then None
    else if |halves| == 1 then (if |head.value| == GROUPS then head else None)
    else
      var tail := Expand(halves[1]);
      if tail.None? then None else Filled(head.value, tail.value)
  }

  /** What `parseIpv6` returns; every result has eight groups of sixteen bits. */
  function Ipv6Groups(value: string): (r: Option<Groups>)
    ensures r.Some? ==> |r.value| == GROUPS && forall i :: 0 <= i < GROUPS ==> r.value[i] < 65536
  {
    var address := value[..IndexOf(value, '%')];
    if address == [] || |Halves(address)| > 2 then None else WholeGroups(Halves(address))
  }

  method ParseIpv6(value: string) returns (r: Option<Groups>)
    ensures r == Ipv6Groups(value)
  {
    var address := Split(value, '%')[0];
    assert address == value[..IndexOf(value, '%')];
    if |address| == 0 {
      return None;
    }
    var halves := Halves(address);
    if |halves| > 2 {
      return None;
    }
    var head := ExpandInto(halves[0]);
    if head.None? {
      return None;
    }
    if |halves| == 1 {
      return if |head.value| == GROUPS then head else None;
    }
    var tail := ExpandInto(halves[1]);
    if tail.None? {
      return None;
    }
    var missing := GROUPS - |head.value| - |tail.value|;
    if missing < 1 {
      return None;
    }
    return Some(head.value + Zeros(missing) + tail.value);
  }

  // ----- The text forms -----

  /** One side of an address: groups in hexadecimal, and perhaps a dotted quad behind them. */
  datatype Part = Part(groups: seq<string>, quad: Option<seq<string>>)

  predicate PartOk(p: Part) {
    (forall i :: 0 <= i < |p.groups| ==> IsGroup(p.groups[i])) && (p.quad.Some? ==> IsQuad(p.quad.value))
  }

  function PartPieces(p: Part): seq<string>
    requires PartOk(p)
  {
    p.groups + if p.quad.Some? then [Join(p.quad.value, '.')] else []
  }

  function PartText(p: Part): string
    requires PartOk(p)
  {
    if PartPieces(p) == [] then "" else Join(PartPieces(p), ':')
  }

  /** The groups a part stands for. */
  function PartGroups(p: Part): (r: Groups)
    requires PartOk(p)
  {
    seq(|p.groups|, i requires 0 <= i < |p.groups| => HexValue(p.groups[i]))
      + if p.quad.Some? then QuadGroups(OctetValues(p.quad.value)) else []
  }

  /** The forms of section 2.2 of RFC 4291, with a quad also allowed before `::`. */
  datatype Form = Full(part: Part) | Compressed(head: Part, tail: Part)

  predicate FormOk(f: Form) {
    match f
    case Full(part) => PartOk(part) && |PartGroups(part)| == GROUPS
    case Compressed(head, tail) => PartOk(head) && PartOk(tail) && |PartGroups(head)| + |PartGroups(tail)| < GROUPS
  }

  /** In the standard a quad stands only at the very end. */
  predicate IsStandard(f: Form) { FormOk(f) && (f.Compressed? ==> f.head.quad.None?) }

  function FormText(f: Form): string
    requires FormOk(f)
  {
    match f
    case Full(part) => PartText(part)
    case Compressed(head, tail) => PartText(head) + "::" + PartText(tail)
  }

  function FormGroups(f: Form): (r: Groups)
    requires FormOk(f)
    ensures |r| == GROUPS
  {
    match f
    case Full(part) => PartGroups(part)
    case Compressed(head, tail) =>
      PartGroups(head) + Zeros(GROUPS - |PartGroups(head)| - |PartGroups(tail)|) + PartGroups(tail)
  }

  /** Nothing, or a zone id. */
  predicate IsZone(z: string) { z == [] || z[0] == '%' }

  // ----- Every form is read -----

  predicate PieceOk(t: string) { t != [] && Free(t, ':') && Free(t, '%') }

  lemma QuadIsRead(quad: seq<string>)
    requires IsQuad(quad)
    ensures ParseIpv4(Join(quad, '.')) == Some(OctetValues(quad))
    ensures PieceOk(Join(quad, '.')) && '.' in Join(quad, '.')
  {
    forall c: char | !IsDigit(c) ensures AllFree(quad, c) {
      forall i | 0 <= i < |quad| ensures Free(quad[i], c) { assert IsOctetText(quad[i]); }
    }
    SplitUndoesJoin(quad, '.');
    JoinFree(quad, '.', ':');
    JoinFree(quad, '.', '%');
    assert Join(quad, '.') == quad[0] + ['.'] + Join(quad[1..], '.');
  }

  lemma PiecesAreOk(p: Part)
    requires PartOk(p)
    ensures forall i :: 0 <= i < |PartPieces(p)| ==> PieceOk(PartPieces(p)[i])
  {
    if p.quad.Some? { QuadIsRead(p.quad.value); }
    forall i | 0 <= i < |p.groups| ensures PieceOk(p.groups[i]) { assert IsGroup(p.groups[i]); }
  }

  lemma QuadPieceIsRead(quad: seq<string>)
    requires IsQuad(quad)
    ensures ExpandPieces([Join(quad, '.')]) == Some(QuadGroups(OctetValues(quad)))
  {
    QuadIsRead(quad);
    var pieces, groups := [Join(quad, '.')], QuadGroups(OctetValues(quad));
    assert pieces[1..] == [];
    BehindAgain(groups, [], Some([]));
  }

  lemma Prepended(group: string, rest: Part)
    requires IsGroup(group) && PartOk(rest)
    ensures var p := Part([group] + rest.groups, rest.quad);
      PartOk(p) && PartPieces(p) == [group] + PartPieces(rest) && PartGroups(p) == [HexValue(group)] + PartGroups(rest)
  {
    var p := Part([group] + rest.groups, rest.quad);
    forall i | 0 <= i < |p.groups| ensures IsGroup(p.groups[i]) {
      if i > 0 { assert p.groups[i] == rest.groups[i - 1]; }
    }
  }

  lemma {:induction false} PiecesAreRead(p: Part)
    requires PartOk(p)
    ensures ExpandPieces(PartPieces(p)) == Some(PartGroups(p))
    decreases |p.groups|
  {
    if p.groups == [] && p.quad.Some? {
      QuadPieceIsRead(p.quad.value);
      assert PartPieces(p) == [Join(p.quad.value, '.')];
      assert PartGroups(p) == QuadGroups(OctetValues(p.quad.value));
    } else if p.groups == [] {
      assert PartPieces(p) == [] && PartGroups(p) == [];
    } else {
      var group, rest := p.groups[0], Part(p.groups[1..], p.quad);
      PiecesAreRead(rest);
      Prepended(group, rest);
      assert p == Part([group] + rest.groups, rest.quad);
      assert '.' !in group;
      assert PieceGroups(group, |PartPieces(p)| == 1) == Some([HexValue(group)]);
    }
  }

  ghost predicate NoDouble(s: string) { forall k: nat :: !DoubleColon(s, k) }

  /** No `::` inside, and no colon at either end. */
  ghost predicate Closed(s: string) {
    NoDouble(s) && (s != [] ==> s[0] != ':' && s[|s| - 1] != ':')
  }

  lemma {:induction false} JoinIsClosed(pieces: seq<string>)
    requires pieces != [] && forall i :: 0 <= i < |pieces| ==> PieceOk(pieces[i])
    ensures Closed(Join(pieces, ':')) && Join(pieces, ':') != []
  {
    assert PieceOk(pieces[0]);
    if |pieces| > 1 {
      var rest := Join(pieces[1..], ':');
      JoinIsClosed(pieces[1..]);
      var s := pieces[0] + [':'] + rest;
      forall k: nat ensures !DoubleColon(s, k) {
        if k > |pieces[0]| { assert !DoubleColon(rest, k - |pieces[0]| - 1); }
      }
    }
  }

  lemma PartIsRead(p: Part)
    requires PartOk(p)
    ensures Expand(PartText(p)) == Some(PartGroups(p))
    ensures Closed(PartText(p)) && Free(PartText(p), '%') && (PartText(p) == [] ==> PartGroups(p) == [])
  {
    var pieces := PartPieces(p);
    PiecesAreOk(p);
    PiecesAreRead(p);
    if pieces != [] {
      forall i | 0 <= i < |pieces| ensures Free(pieces[i], ':') && Free(pieces[i], '%') { assert PieceOk(pieces[i]); }
      SplitUndoesJoin(pieces, ':');
      JoinFree(pieces, ':', '%');
      JoinIsClosed(pieces);
    }
  }

  lemma {:induction false} FirstDouble(head: string, tail: string)
    requires NoDouble(head) && (head != [] ==> head[|head| - 1] != ':')
    ensures DoubleColonAt(head + "::" + tail) == |head|
  {
    var s := head + "::" + tail;
    if head == [] {
      assert DoubleColon(s, 0);
    } else {
      assert !DoubleColon(head, 0) && !DoubleColon(s, 0);
      assert s[1..] == head[1..] + "::" + tail;
      forall k: nat ensures !DoubleColon(head[1..], k) { assert !DoubleColon(head, k + 1); }
      FirstDouble(head[1..], tail);
    }
  }

  lemma {:induction false} NoneAt(s: string)
    requires NoDouble(s)
    ensures DoubleColonAt(s) == |s|
  {
    if |s| >= 2 {
      assert !DoubleColon(s, 0);
      forall k: nat ensures !DoubleColon(s[1..], k) { assert !DoubleColon(s, k + 1); }
      NoneAt(s[1..]);
    }
  }

  lemma HalvesOf(head: string, tail: string)
    requires Closed(head) && Closed(tail)
    ensures Halves(head) == [head] && Halves(head + "::" + tail) == [head, tail]
  {
    var s := head + "::" + tail;
    NoneAt(head);
    NoneAt(tail);
    FirstDouble(head, tail);
    assert s[..|head|] == head && s[|head| + 2..] == tail;
  }

  lemma FormHalves(f: Form)
    requires FormOk(f)
    ensures Halves(FormText(f)) == if f.Full? then [PartText(f.part)] else [PartText(f.head), PartText(f.tail)]
  {
    match f
    case Full(part) =>
      PartIsRead(part);
      HalvesOf(PartText(part), []);
    case Compressed(head, tail) =>
      PartIsRead(head);
      PartIsRead(tail);
      HalvesOf(PartText(head), PartText(tail));
  }

  lemma FullIsOk(part: Part)
    requires PartOk(part) && |PartGroups(part)| == GROUPS
    ensures FormOk(Full(part)) && FormGroups(Full(part)) == PartGroups(part) && FormText(Full(part)) == PartText(part)
  {
  }

  lemma CompressedIsOk(head: Part, tail: Part)
    requires PartOk(head) && PartOk(tail) && Filled(PartGroups(head), PartGroups(tail)).Some?
    ensures var f := Compressed(head, tail);
      && FormOk(f) && FormText(f) == PartText(head) + "::" + PartText(tail)
      && FormGroups(f) == Filled(PartGroups(head), PartGroups(tail)).value
  {
  }

  lemma PartsAreWhole(head: Part, tail: Part)
    requires PartOk(head) && PartOk(tail)
    ensures |PartGroups(head)| == GROUPS ==> WholeGroups([PartText(head)]) == Some(PartGroups(head))
    ensures WholeGroups([PartText(head), PartText(tail)]) == Filled(PartGroups(head), PartGroups(tail))
  {
    PartIsRead(head);
    PartIsRead(tail);
  }

  lemma FormIsWhole(f: Form)
    requires FormOk(f)
    ensures |Halves(FormText(f))| <= 2 && WholeGroups(Halves(FormText(f))) == Some(FormGroups(f))
  {
    FormHalves(f);
    match f
    case Full(part) =>
      PartsAreWhole(part, part);
      FullIsOk(part);
    case Compressed(head, tail) =>
      PartsAreWhole(head, tail);
      CompressedIsOk(head, tail);
  }

  lemma FormIsPlain(f: Form)
    requires FormOk(f)
    ensures FormText(f) != [] && Free(FormText(f), '%')
  {
    match f
    case Full(part) => PartIsRead(part);
    case Compressed(head, tail) =>
      PartIsRead(head);
      PartIsRead(tail);
  }

  /** Every form is read as the groups it stands for, with or without a zone id. */
  lemma EveryFormIsRead(f: Form, zone: string)
    requires FormOk(f) && IsZone(zone)
    ensures Ipv6Groups(FormText(f) + zone) == Some(FormGroups(f))
  {
    FormIsWhole(f);
    FormIsPlain(f);
    IndexOfAppend(FormText(f), zone, '%');
    assert (FormText(f) + zone)[..|FormText(f)|] == FormText(f);
  }

  // ----- Nothing else is read -----

  lemma QuadOf(piece: string) returns (p: Part)
    requires '.' in piece && ExpandPieces([piece]).Some?
    ensures PartOk(p) && PartPieces(p) == [piece] && PartGroups(p) == ExpandPieces([piece]).value
  {
    var quad := Split(piece, '.');
    p := Part([], Some(quad));
    JoinUndoesSplit(piece, '.');
    QuadPieceIsRead(quad);
    assert PartGroups(p) == QuadGroups(OctetValues(quad));
  }

  lemma {:induction false} PiecesOf(pieces: seq<string>) returns (p: Part)
    requires ExpandPieces(pieces).Some?
    ensures PartOk(p) && PartPieces(p) == pieces && PartGroups(p) == ExpandPieces(pieces).value
  {
    if pieces == [] {
      p := Part([], None);
    } else if |pieces| == 1 && '.' in pieces[0] {
      p := QuadOf(pieces[0]);
      assert pieces == [pieces[0]];
    } else {
      var rest := PiecesOf(pieces[1..]);
      p := Part([pieces[0]] + rest.groups, rest.quad);
      Prepended(pieces[0], rest);
    }
  }

  lemma PartOf(text: string) returns (p: Part)
    requires Expand(text).Some?
    ensures PartOk(p) && PartText(p) == text && PartGroups(p) == Expand(text).value
  {
    if text == [] {
      p := Part([], None);
    } else {
      p := PiecesOf(Split(text, ':'));
      JoinUndoesSplit(text, ':');
    }
  }

  lemma HalvesJoined(s: string)
    ensures |Halves(s)| == 1 ==> s == Halves(s)[0]
    ensures |Halves(s)| == 2 ==> s == Halves(s)[0] + "::" + Halves(s)[1]
  {
    var k := DoubleColonAt(s);
    if k < |s| {
      HalvesOne(s[k + 2..]);
      JoinedAt(s, k);
    }
  }

  lemma JoinedAt(s: string, k: nat)
    requires DoubleColon(s, k)
    ensures s == s[..k] + "::" + s[k + 2..]
  {
  }

  lemma HalvesOne(s: string)
    ensures |Halves(s)| == 1 ==> Halves(s) == [s]
  {
  }

  lemma FormOfOne(text: string) returns (f: Form)
    requires WholeGroups([text]).Some?
    ensures FormOk(f) && FormGroups(f) == WholeGroups([text]).value && FormText(f) == text
  {
    var part := PartOf(text);
    FullIsOk(part);
    f := Full(part);
  }

  lemma FormOfTwo(before: string, after: string) returns (f: Form)
    requires WholeGroups([before, after]).Some?
    ensures FormOk(f) && FormGroups(f) == WholeGroups([before, after]).value && FormText(f) == before + "::" + after
  {
    var head := PartOf(before);
    var tail := PartOf(after);
    CompressedIsOk(head, tail);
    f := Compressed(head, tail);
  }

  lemma FormOfHalves(s: string) returns (f: Form)
    requires |Halves(s)| <= 2 && WholeGroups(Halves(s)).Some?
    ensures FormOk(f) && FormGroups(f) == WholeGroups(Halves(s)).value && FormText(f) == s
  {
    var halves := Halves(s);
    HalvesJoined(s);
    if |halves| == 1 {
      assert halves == [halves[0]];
      f := FormOfOne(halves[0]);
    } else {
      assert halves == [halves[0], halves[1]];
      f := FormOfTwo(halves[0], halves[1]);
    }
  }

  lemma ZoneOf(value: string, k: nat)
    requires k <= |value| && (k < |value| ==> value[k] == '%')
    ensures IsZone(value[k..]) && value == value[..k] + value[k..]
  {
  }

  lemma FormOf(value: string) returns (f: Form, zone: string)
    requires Ipv6Groups(value).Some?
    ensures FormOk(f) && IsZone(zone) && value == FormText(f) + zone && FormGroups(f) == Ipv6Groups(value).value
  {
    var k := IndexOf(value, '%');
    ZoneOf(value, k);
    zone := value[k..];
    f := FormOfHalves(value[..k]);
  }

  /** `parseIpv6` reads exactly the texts of those forms: the standard ones, and those with a quad before `::`. */
  lemma ReadsExactlyTheForms(value: string, groups: Groups)
    ensures Ipv6Groups(value) == Some(groups)
      <==> exists f, zone :: FormOk(f) && IsZone(zone) && value == FormText(f) + zone && groups == FormGroups(f)
  {
    if Ipv6Groups(value) == Some(groups) {
      var f, zone := FormOf(value);
    }
    forall f, zone | FormOk(f) && IsZone(zone) && value == FormText(f) + zone && groups == FormGroups(f)
      ensures Ipv6Groups(value) == Some(groups)
    {
      EveryFormIsRead(f, zone);
    }
  }

  // ----- What is read beyond the standard -----

  lemma {:induction false} JoinHas(pieces: seq<string>, c: char, i: nat, d: char)
    requires i < |pieces| && d in pieces[i]
    ensures d in Join(pieces, c)
  {
    if i > 0 { JoinHas(pieces[1..], c, i - 1, d); }
  }

  lemma DotShowsQuad(p: Part)
    requires PartOk(p)
    ensures '.' in PartText(p) <==> p.quad.Some?
  {
    var pieces := PartPieces(p);
    if p.quad.Some? {
      QuadIsRead(p.quad.value);
      JoinHas(pieces, ':', |pieces| - 1, '.');
    } else if pieces != [] {
      forall i | 0 <= i < |pieces| ensures Free(pieces[i], '.') { assert IsGroup(p.groups[i]); }
      JoinFree(pieces, ':', '.');
    }
  }

  /** A text is read outside the standard exactly if a quad stands before its `::`, with no second, standard reading. */
  lemma NonStandardIff(f: Form)
    requires FormOk(f)
    ensures (exists g :: IsStandard(g) && FormText(g) == FormText(f)) <==> IsStandard(f)
  {
    forall g | IsStandard(g) && FormText(g) == FormText(f)
      ensures IsStandard(f)
    {
      if f.Compressed? {
        FormHalves(f);
        FormHalves(g);
        DotShowsQuad(f.head);
        if g.Compressed? { DotShowsQuad(g.head); }
      }
    }
  }

  /** Such texts exist: `1.2.3.4::` and its like. */
  lemma QuadBeforeZerosIsRead(quad: seq<string>)
    requires IsQuad(quad)
    ensures Ipv6Groups(Join(quad, '.') + "::") == Some(QuadGroups(OctetValues(quad)) + Zeros(6))
  {
    var head, tail := Part([], Some(quad)), Part([], None);
    var f := Compressed(head, tail);
    assert PartPieces(head) == [Join(quad, '.')] && PartText(tail) == [];
    assert PartGroups(head) == QuadGroups(OctetValues(quad)) && PartGroups(tail) == [];
    CompressedIsOk(head, tail);
    EveryFormIsRead(f, []);
    assert FormText(f) + [] == Join(quad, '.') + "::";
    assert FormGroups(f) == QuadGroups(OctetValues(quad)) + Zeros(6);
  }
}
