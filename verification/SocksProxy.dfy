/**
  apps/renderer/src/guarded-socks-proxy.ts: the byte reader, and the handshake that reads from it
  (RFC 1928). How the bytes are cut into chunks, and when a resolved read resumes the handshake, is
  the environment's.
*/
module SocksProxy {
  import opened Prelude
  import opened Sequences

  type byte = b: int | 0 <= b < 256

  const SOCKS_VERSION: byte := 5
  const NO_AUTHENTICATION: byte := 0
  const CONNECT_COMMAND: byte := 1
  const IPV4_ADDRESS_TYPE: byte := 1
  const DOMAIN_ADDRESS_TYPE: byte := 3
  const IPV6_ADDRESS_TYPE: byte := 4
  const MAX_HANDSHAKE_BYTES := 1024
  const MAX_HOSTNAME_BYTES := 253

  // ----- The reader -----

  /** What a call on the reader settles: nothing yet, a read resolved, or a read rejected. */
  datatype Settled = Unsettled | Resolved(value: seq<byte>) | Rejected

  /** The closure variables of `createReader`; `dead` once the socket is destroyed. */
  datatype ReaderState = ReaderState(buffered: seq<byte>, pending: Option<nat>, dead: bool)

  /** `consume`. */
  function ConsumeStep(r: ReaderState): (ReaderState, Settled) {
    if r.pending.Some? && |r.buffered| >= r.pending.value then
      (r.(pending := None, buffered := r.buffered[r.pending.value..]), Resolved(r.buffered[..r.pending.value]))
    else (r, Unsettled)
  }

  function RejectStep(r: ReaderState): (ReaderState, Settled) {
    (r.(pending := None), if r.pending.Some? then Rejected else Unsettled)
  }

  function DataStep(r: ReaderState, chunk: seq<byte>): (ReaderState, Settled) {
    var t := r.(buffered := r.buffered + chunk);
    if |t.buffered| > MAX_HANDSHAKE_BYTES then (RejectStep(t).0.(dead := true), RejectStep(t).1) else ConsumeStep(t)
  }

  function ReadStep(r: ReaderState, length: nat): (ReaderState, Settled) {
    if length < 1 || length > MAX_HANDSHAKE_BYTES || r.pending.Some? then (r, Rejected)
    else ConsumeStep(r.(pending := Some(length)))
  }

  class Reader {
    var buffered: seq<byte>
    var pending: Option<nat>
    var destroyed: bool
    ghost var received: seq<byte>
    ghost var delivered: seq<byte>   // the values of all resolved reads, joined

    /** Nothing is lost, repeated or reordered, and a pending read really lacks bytes. */
    ghost predicate Valid()
      reads this
    {
      && received == delivered + buffered
      && (pending.Some? ==> 1 <= pending.value <= MAX_HANDSHAKE_BYTES && |buffered| < pending.value)
    }

    ghost function View(): ReaderState
      reads this
    {
      ReaderState(buffered, pending, destroyed)
    }

    constructor ()
      ensures Valid() && received == [] && View() == ReaderState([], None, false)
    {
      buffered, pending, destroyed := [], None, false;
      received, delivered := [], [];
    }

    /** The handler of `data` events: consume what a pending read asks for, or give up on too much. */
    method OnData(chunk: seq<byte>) returns (r: Settled)
      requires Valid() && !destroyed
      modifies this
      ensures Valid() && received == old(received) + chunk
      ensures delivered == old(delivered) + if r.Resolved? then r.value else []
      ensures (View(), r) == DataStep(old(View()), chunk)
    {
      received := received + chunk;
      buffered := buffered + chunk;
      if |buffered| > MAX_HANDSHAKE_BYTES {
        r := RejectPending();
        destroyed := true;
        return;
      }
      if pending.None? || |buffered| < pending.value {
        return Unsettled;
      }
      var length := pending.value;
      pending := None;
      r := Resolved(buffered[..length]);
      delivered := delivered + buffered[..length];
      buffered := buffered[length..];
    }

    /** `rejectPending`, which is all an error, the end of the stream or `close` does to the reader. */
    method RejectPending() returns (r: Settled)
      modifies this`pending
      ensures (View(), r) == RejectStep(old(View()))
    {
      r := if pending.Some? then Rejected else Unsettled;
      pending := None;
    }

    method Read(length: nat) returns (r: Settled)
      requires Valid()
      modifies this`buffered, this`pending, this`delivered
      ensures Valid()
      ensures delivered == old(delivered) + if r.Resolved? then r.value else []
      ensures (View(), r) == ReadStep(old(View()), length)
    {
      if length < 1 || length > MAX_HANDSHAKE_BYTES || pending.Some? {
        return Rejected;
      }
      if |buffered| >= length {
        r := Resolved(buffered[..length]);
        delivered := delivered + buffered[..length];
        buffered := buffered[length..];
      } else {
        pending := Some(length);
        r := Unsettled;
      }
    }

    /** The timer of a pending read. */
    method OnTimeout() returns (r: Settled)
      requires Valid() && pending.Some?
      modifies this`pending, this`destroyed
      ensures Valid() && r == Rejected && View() == RejectStep(old(View())).0.(dead := true)
    {
      r := RejectPending();
      destroyed := true;
    }
  }

  // ----- The protocol -----

  datatype Host = Ipv4(octets: seq<byte>) | Ipv6(bytes: seq<byte>) | Name(bytes: seq<byte>)
  datatype Target = Target(host: Host, port: nat)

  datatype Refusal =
    | BadVersion | BadMethodCount | NoAcceptableMethod | MalformedRequest | CommandNotSupported
    | AddressTypeNotSupported | BadHostnameLength | NulInHostname | PortIsZero

  /** Where `negotiate` and `readTarget` wait: each of the first eight is one `reader.read`. */
  datatype Phase =
    | Greeting | Methods(count: nat) | Header
    | Ipv4Address | Ipv6Address | NameLength | NameBytes(length: nat) | Port(host: Host)
    | Connected(target: Target)
    | Refused(reason: Refusal)

  /** The length of the read a phase waits for; zero when it waits for none. */
  function Need(phase: Phase): nat {
    match phase
    case Greeting => 2
    case Methods(count) => count
    case Header => 4
    case Ipv4Address => 4
    case Ipv6Address => 16
    case NameLength => 1
    case NameBytes(length) => length
    case Port(_) => 2
    case Connected(_) => 0
    case Refused(_) => 0
  }

  /** The code from one read to the next. */
  function Feed(phase: Phase, bytes: seq<byte>): (next: Phase)
    requires Need(phase) > 0 && |bytes| == Need(phase)
    ensures Need(next) <= MAX_HANDSHAKE_BYTES
  {
    match phase
    case Greeting =>
      if bytes[0] != SOCKS_VERSION then Refused(BadVersion)
      else if bytes[1] < 1 || bytes[1] > 32 then Refused(BadMethodCount)
      else Methods(bytes[1])
    case Methods(_) => if NO_AUTHENTICATION in bytes then Header else Refused(NoAcceptableMethod)
    case Header =>
      if bytes[0] != SOCKS_VERSION || bytes[2] != 0 then Refused(MalformedRequest)
      else if bytes[1] != CONNECT_COMMAND then Refused(CommandNotSupported)
      else if bytes[3] == IPV4_ADDRESS_TYPE then Ipv4Address
      else if bytes[3] == IPV6_ADDRESS_TYPE then Ipv6Address
      else if bytes[3] == DOMAIN_ADDRESS_TYPE then NameLength
      else Refused(AddressTypeNotSupported)
    case Ipv4Address => Port(Ipv4(bytes))
    case Ipv6Address => Port(Ipv6(bytes))
    case NameLength =>
      if bytes[0] < 1 || bytes[0] > MAX_HOSTNAME_BYTES then Refused(BadHostnameLength) else NameBytes(bytes[0])
    case NameBytes(_) => if 0 in bytes then Refused(NulInHostname) else Port(Name(bytes))
    case Port(host) =>
      var port := (bytes[0] as int) * 256 + bytes[1] as int;
      if port == 0 then Refused(PortIsZero) else Connected(Target(host, port))
  }

  /** What a whole stream of bytes leads to from a phase, and the bytes behind it. */
  function Decode(phase: Phase, stream: seq<byte>): (Phase, seq<byte>)
    decreases |stream|
  {
    if Need(phase) == 0 || |stream| < Need(phase) then (phase, stream)
    else Decode(Feed(phase, stream[..Need(phase)]), stream[Need(phase)..])
  }

  // ----- The handshake over chunks -----

  /**
    `inbox` is a read that has resolved and not yet resumed the handshake; `threw` once a read it waited for was
    rejected, which ends it.
  */
  datatype State = State(
    phase: Phase, inbox: Option<seq<byte>>, reader: ReaderState, received: seq<byte>, threw: bool)

  datatype Event =
    | Data(chunk: seq<byte>)
    | Resume
    | Expire   // the timer of the pending read
    | Fail     // an error or the end of the socket

  predicate Enabled(s: State, e: Event) {
    match e
    case Data(_) => !s.reader.dead
    case Resume => s.inbox.Some? && Need(s.phase) > 0 && |s.inbox.value| == Need(s.phase)
    case Expire => s.reader.pending.Some?
    case Fail => true
  }

  /** A step of the reader, and the read it may settle. */
  function Settling(s: State, step: (ReaderState, Settled)): State {
    s.(
      reader := step.0,
      inbox := if step.1.Resolved? then Some(step.1.value) else s.inbox,
      threw := s.threw || step.1.Rejected?)
  }

  /** `reader.read` for the phase just entered. */
  function Ask(s: State): State {
    if Need(s.phase) == 0 then s else Settling(s, ReadStep(s.reader, Need(s.phase)))
  }

  function Next(s: State, e: Event): State {
    if !Enabled(s, e) then s else
    match e
    case Data(chunk) => Settling(s.(received := s.received + chunk), DataStep(s.reader, chunk))
    case Resume => Ask(s.(phase := Feed(s.phase, s.inbox.value), inbox := None))
    case Expire => Settling(s, (RejectStep(s.reader).0.(dead := true), Rejected))
    case Fail => Settling(s, RejectStep(s.reader))
  }

  function Init(): State { Ask(State(Greeting, None, ReaderState([], None, false), [], false)) }

  /** The state after the first `n` events. */
  function RunTo(events: seq<Event>, n: nat): State
    requires n <= |events|
  {
    if n == 0 then Init() else Next(RunTo(events, n - 1), events[n - 1])
  }

  function Run(events: seq<Event>): State { RunTo(events, |events|) }

  /** The bytes the handshake has not looked at yet. */
  function Unseen(s: State): seq<byte> { (if s.inbox.Some? then s.inbox.value else []) + s.reader.buffered }

  ghost predicate Inv(s: State) {
    && Need(s.phase) <= MAX_HANDSHAKE_BYTES
    && Decode(s.phase, Unseen(s)) == Decode(Greeting, s.received)
    && (s.inbox.Some? ==> s.reader.pending.None? && Need(s.phase) > 0 && |s.inbox.value| == Need(s.phase))
    && (s.reader.pending.Some? ==> s.reader.pending.value == Need(s.phase) && |s.reader.buffered| < Need(s.phase))
    && (!s.threw && s.inbox.None? && s.reader.pending.None? ==> Need(s.phase) == 0)
    && (s.threw ==> s.inbox.None? && s.reader.pending.None? && Need(s.phase) > 0)
  }

  /** No resolved read has still to resume the handshake, and none it waited for was rejected. */
  predicate AtRest(s: State) { s.inbox.None? && !s.threw }

  /** More bytes only continue what a stream has led to. */
  lemma {:induction false} DecodeAppend(phase: Phase, stream: seq<byte>, more: seq<byte>)
    ensures var (p, rest) := Decode(phase, stream);
      Decode(phase, stream + more) == Decode(p, rest + more)
    decreases |stream|
  {
    var n := Need(phase);
    if n != 0 && |stream| >= n {
      assert (stream + more)[..n] == stream[..n] && (stream + more)[n..] == stream[n..] + more;
      DecodeAppend(Feed(phase, stream[..n]), stream[n..], more);
    }
  }

  /** A phase and its unseen bytes stand for the whole stream, also when more bytes arrive. */
  lemma DecodeContinues(phase: Phase, unseen: seq<byte>, received: seq<byte>, chunk: seq<byte>)
    requires Decode(phase, unseen) == Decode(Greeting, received)
    ensures Decode(phase, unseen + chunk) == Decode(Greeting, received + chunk)
  {
    DecodeAppend(phase, unseen, chunk);
    DecodeAppend(Greeting, received, chunk);
  }

  lemma AskKeepsUnseen(s: State)
    requires s.inbox.None? && s.reader.pending.None? && Need(s.phase) <= MAX_HANDSHAKE_BYTES
    ensures Unseen(Ask(s)) == s.reader.buffered
  {
  }

  lemma DataKeepsUnseen(s: State, chunk: seq<byte>)
    requires s.inbox.Some? ==> s.reader.pending.None?
    ensures Unseen(Settling(s, DataStep(s.reader, chunk))) == Unseen(s) + chunk
  {
    var t := s.reader.(buffered := s.reader.buffered + chunk);
    if |t.buffered| <= MAX_HANDSHAKE_BYTES && t.pending.Some? && |t.buffered| >= t.pending.value {
      assert t.buffered[..t.pending.value] + t.buffered[t.pending.value..] == t.buffered;
    }
  }

  lemma DataKeepsInv(s: State, chunk: seq<byte>)
    requires Inv(s) && !s.reader.dead
    ensures Inv(Next(s, Data(chunk)))
  {
    DecodeContinues(s.phase, Unseen(s), s.received, chunk);
    DataKeepsUnseen(s, chunk);
    var t := Next(s, Data(chunk));
    assert Unseen(t) == Unseen(s) + chunk;
  }

  lemma ResumeKeepsInv(s: State)
    requires Inv(s) && Enabled(s, Resume)
    ensures Inv(Next(s, Resume))
  {
    var n, fed := Need(s.phase), s.(phase := Feed(s.phase, s.inbox.value), inbox := None);
    assert Unseen(s)[..n] == s.inbox.value && Unseen(s)[n..] == s.reader.buffered;
    AskKeepsUnseen(fed);
  }

  lemma {:induction false} RunKeepsInv(events: seq<Event>, n: nat)
    requires n <= |events|
    ensures Inv(RunTo(events, n))
  {
    if n > 0 {
      RunKeepsInv(events, n - 1);
      var s, e := RunTo(events, n - 1), events[n - 1];
      if Enabled(s, e) {
        match e {
          case Data(chunk) => DataKeepsInv(s, chunk);
          case Resume => ResumeKeepsInv(s);
          case Expire =>
          case Fail =>
        }
      }
    }
  }

  /** More unread bytes than a handshake may have. */
  predicate Overflows(s: State, e: Event) {
    e.Data? && Enabled(s, e) && |s.reader.buffered| + |e.chunk| > MAX_HANDSHAKE_BYTES
  }

  /** What destroys the socket. */
  predicate Kills(s: State, e: Event) { Overflows(s, e) || (e.Expire? && Enabled(s, e)) }

  /** What rejects the read the handshake waits for. */
  predicate Rejects(s: State, e: Event) { s.reader.pending.Some? && (Kills(s, e) || e.Fail?) }

  /** One of the first `n` events did. */
  predicate Killed(events: seq<Event>, n: nat)
    requires n <= |events|
  {
    n > 0 && (Killed(events, n - 1) || Kills(RunTo(events, n - 1), events[n - 1]))
  }

  predicate Thrown(events: seq<Event>, n: nat)
    requires n <= |events|
  {
    n > 0 && (Thrown(events, n - 1) || Rejects(RunTo(events, n - 1), events[n - 1]))
  }

  lemma KillsIff(s: State, e: Event)
    ensures Next(s, e).reader.dead <==> s.reader.dead || Kills(s, e)
  {
  }

  lemma RejectsIff(s: State, e: Event)
    requires Inv(s)
    ensures Next(s, e).threw <==> s.threw || Rejects(s, e)
  {
  }

  lemma {:induction false} DeadTo(events: seq<Event>, n: nat)
    requires n <= |events|
    ensures RunTo(events, n).reader.dead <==> Killed(events, n)
  {
    if n > 0 {
      DeadTo(events, n - 1);
      KillsIff(RunTo(events, n - 1), events[n - 1]);
    }
  }

  lemma {:induction false} ThrewTo(events: seq<Event>, n: nat)
    requires n <= |events|
    ensures RunTo(events, n).threw <==> Thrown(events, n)
  {
    if n > 0 {
      ThrewTo(events, n - 1);
      RunKeepsInv(events, n - 1);
      RejectsIff(RunTo(events, n - 1), events[n - 1]);
    }
  }

  /** Over every run the reader is dead exactly if a timer fired or too many bytes were unread. */
  lemma DeadIff(events: seq<Event>)
    ensures Run(events).reader.dead <==> Killed(events, |events|)
  {
    DeadTo(events, |events|);
  }

  /**
    Over every run the handshake has thrown exactly if one of these, an error or the end of the socket met a pending
    read; it is then not connected, and never will be. Otherwise it is at rest whenever no resolved read is outstanding.
  */
  lemma ThrewIff(events: seq<Event>)
    ensures Run(events).threw <==> Thrown(events, |events|)
    ensures Thrown(events, |events|) ==> !Run(events).phase.Connected?
    ensures Run(events).inbox.None? && !Thrown(events, |events|) ==> AtRest(Run(events))
  {
    ThrewTo(events, |events|);
    if Run(events).threw { ThrownWaits(events); }
  }

  lemma ThrownWaits(events: seq<Event>)
    requires Run(events).threw
    ensures Need(Run(events).phase) > 0
  {
    RunKeepsInv(events, |events|);
  }

  /**
    However the stream is cut into chunks: once the handshake has ended, it ended the way the received
    bytes as one stream decide, and `remaining()` holds exactly the bytes behind it; while it waits for
    a read, it waits where those bytes lead.
  */
  lemma ChunksDoNotMatter(events: seq<Event>)
    ensures var s := Run(events);
      AtRest(s) ==> Decode(Greeting, s.received) == (s.phase, s.reader.buffered)
  {
    RunKeepsInv(events, |events|);
    var s := Run(events);
    if AtRest(s) {
      assert Unseen(s) == s.reader.buffered;
    }
  }

  // ----- Encoding -----

  function EncodeGreeting(methods: seq<byte>): seq<byte>
    requires 1 <= |methods| <= 32
  {
    [SOCKS_VERSION, |methods|] + methods
  }

  predicate HostOk(host: Host) {
    match host
    case Ipv4(octets) => |octets| == 4
    case Ipv6(bytes) => |bytes| == 16
    case Name(bytes) => 1 <= |bytes| <= MAX_HOSTNAME_BYTES && 0 !in bytes
  }

  function EncodeHost(host: Host): seq<byte>
    requires HostOk(host)
  {
    match host
    case Ipv4(octets) => [IPV4_ADDRESS_TYPE] + octets
    case Ipv6(bytes) => [IPV6_ADDRESS_TYPE] + bytes
    case Name(bytes) => [DOMAIN_ADDRESS_TYPE, |bytes|] + bytes
  }

  predicate TargetOk(t: Target) { HostOk(t.host) && 1 <= t.port < 65536 }

  const CONNECT_START: seq<byte> := [SOCKS_VERSION, CONNECT_COMMAND, 0]

  /** A CONNECT request, section 4 of RFC 1928. */
  function EncodeConnect(t: Target): seq<byte>
    requires TargetOk(t)
  {
    CONNECT_START + EncodeHost(t.host) + [t.port / 256, t.port % 256]
  }

  predicate Offers(methods: seq<byte>) { 1 <= |methods| <= 32 && NO_AUTHENTICATION in methods }

  lemma DecodeOne(phase: Phase, bytes: seq<byte>, rest: seq<byte>)
    requires Need(phase) > 0 && |bytes| == Need(phase)
    ensures Decode(phase, bytes + rest) == Decode(Feed(phase, bytes), rest)
  {
    assert (bytes + rest)[..|bytes|] == bytes && (bytes + rest)[|bytes|..] == rest;
  }

  lemma DecodesPort(host: Host, port: nat, rest: seq<byte>)
    requires 1 <= port < 65536
    ensures Decode(Port(host), [port / 256, port % 256] + rest) == (Connected(Target(host, port)), rest)
  {
    DecodeOne(Port(host), [port / 256, port % 256], rest);
  }

  lemma DecodesAddress(host: Host, rest: seq<byte>)
    requires HostOk(host) && !host.Name?
    ensures Decode(Header, CONNECT_START + EncodeHost(host) + rest) == Decode(Port(host), rest)
  {
    var kind := EncodeHost(host)[0];
    var bytes := EncodeHost(host)[1..];
    assert CONNECT_START + EncodeHost(host) + rest == (CONNECT_START + [kind]) + (bytes + rest);
    DecodeOne(Header, CONNECT_START + [kind], bytes + rest);
    DecodeOne(if host.Ipv4? then Ipv4Address else Ipv6Address, bytes, rest);
  }

  lemma DecodesName(bytes: seq<byte>, rest: seq<byte>)
    requires HostOk(Name(bytes))
    ensures Decode(Header, CONNECT_START + EncodeHost(Name(bytes)) + rest) == Decode(Port(Name(bytes)), rest)
  {
    var header := CONNECT_START + [DOMAIN_ADDRESS_TYPE];
    assert CONNECT_START + EncodeHost(Name(bytes)) + rest == header + ([|bytes|] + (bytes + rest));
    DecodeOne(Header, header, [|bytes|] + (bytes + rest));
    DecodeOne(NameLength, [|bytes|], bytes + rest);
    DecodeOne(NameBytes(|bytes|), bytes, rest);
  }

  lemma GreetingDecodes(methods: seq<byte>, request: seq<byte>)
    requires Offers(methods)
    ensures Decode(Greeting, EncodeGreeting(methods) + request) == Decode(Header, request)
  {
    Associative([SOCKS_VERSION, |methods|], methods, request);
    DecodeOne(Greeting, [SOCKS_VERSION, |methods|], methods + request);
    DecodeOne(Methods(|methods|), methods, request);
  }

  lemma RequestDecodes(t: Target, early: seq<byte>)
    requires TargetOk(t)
    ensures Decode(Header, EncodeConnect(t) + early) == (Connected(t), early)
  {
    var port := [t.port / 256, t.port % 256];
    Associative(CONNECT_START + EncodeHost(t.host), port, early);
    if t.host.Name? { DecodesName(t.host.bytes, port + early); } else { DecodesAddress(t.host, port + early); }
    DecodesPort(t.host, t.port, early);
  }

  /** A greeting that offers no authentication and a CONNECT request decode to their target; all later bytes stay. */
  lemma ConnectRoundTrip(methods: seq<byte>, t: Target, early: seq<byte>)
    requires Offers(methods) && TargetOk(t)
    ensures Decode(Greeting, EncodeGreeting(methods) + EncodeConnect(t) + early) == (Connected(t), early)
  {
    Associative(EncodeGreeting(methods), EncodeConnect(t), early);
    GreetingDecodes(methods, EncodeConnect(t) + early);
    RequestDecodes(t, early);
  }

  /** So over any chunking of such a stream the tunnel opens to that target and hands on every byte that came early. */
  lemma TunnelReceivesEveryEarlyByte(events: seq<Event>, methods: seq<byte>, t: Target, early: seq<byte>)
    requires Offers(methods) && TargetOk(t)
    requires Run(events).received == EncodeGreeting(methods) + EncodeConnect(t) + early
    requires AtRest(Run(events))
    ensures Run(events).phase == Connected(t) && Run(events).reader.buffered == early
  {
    ChunksDoNotMatter(events);
    ConnectRoundTrip(methods, t, early);
  }

  // ----- Nothing else is accepted -----

  /** What a phase that waits has led to once a tunnel is open: it read what it waits for and was not refused. */
  lemma StepOf(phase: Phase, stream: seq<byte>, t: Target, rest: seq<byte>) returns (bytes: seq<byte>, tail: seq<byte>)
    requires Decode(phase, stream) == (Connected(t), rest) && Need(phase) > 0
    ensures |bytes| == Need(phase) && stream == bytes + tail
    ensures Decode(Feed(phase, bytes), tail) == (Connected(t), rest) && !Feed(phase, bytes).Refused?
  {
    bytes, tail := stream[..Need(phase)], stream[Need(phase)..];
  }

  lemma PortOf(host: Host, stream: seq<byte>, t: Target, rest: seq<byte>)
    requires Decode(Port(host), stream) == (Connected(t), rest)
    ensures t.host == host && 1 <= t.port < 65536 && stream == [t.port / 256, t.port % 256] + rest
  {
    var bytes, tail := StepOf(Port(host), stream, t, rest);
    var port := (bytes[0] as int) * 256 + bytes[1] as int;
    assert Feed(Port(host), bytes) == Connected(Target(host, port));
    assert t == Target(host, port) && tail == rest;
    assert port / 256 == bytes[0] && port % 256 == bytes[1];
    assert bytes == [bytes[0], bytes[1]];
  }

  lemma NameOf(stream: seq<byte>, t: Target, rest: seq<byte>)
    requires Decode(NameLength, stream) == (Connected(t), rest)
    ensures TargetOk(t) && t.host.Name?
    ensures stream == EncodeHost(t.host)[1..] + [t.port / 256, t.port % 256] + rest
  {
    var length, tail := StepOf(NameLength, stream, t, rest);
    var n := length[0];
    assert Feed(NameLength, length) == NameBytes(n);
    var bytes, more := StepOf(NameBytes(n), tail, t, rest);
    assert Feed(NameBytes(n), bytes) == Port(Name(bytes));
    PortOf(Name(bytes), more, t, rest);
    assert EncodeHost(t.host)[1..] == length + bytes;
    Regroup(length, bytes, [t.port / 256, t.port % 256], rest);
  }

  lemma AddressOf(stream: seq<byte>, isV4: bool, t: Target, rest: seq<byte>)
    requires Decode(if isV4 then Ipv4Address else Ipv6Address, stream) == (Connected(t), rest)
    ensures TargetOk(t) && (if isV4 then t.host.Ipv4? else t.host.Ipv6?)
    ensures stream == EncodeHost(t.host)[1..] + [t.port / 256, t.port % 256] + rest
  {
    var bytes, tail := StepOf(if isV4 then Ipv4Address else Ipv6Address, stream, t, rest);
    PortOf(if isV4 then Ipv4(bytes) else Ipv6(bytes), tail, t, rest);
  }

  function AddressPhase(kind: byte): Phase {
    if kind == DOMAIN_ADDRESS_TYPE then NameLength else if kind == IPV4_ADDRESS_TYPE then Ipv4Address else Ipv6Address
  }

  lemma KindOf(stream: seq<byte>, t: Target, rest: seq<byte>) returns (kind: byte, tail: seq<byte>)
    requires Decode(Header, stream) == (Connected(t), rest)
    ensures kind in {IPV4_ADDRESS_TYPE, IPV6_ADDRESS_TYPE, DOMAIN_ADDRESS_TYPE}
    ensures stream == CONNECT_START + [kind] + tail
    ensures Decode(AddressPhase(kind), tail) == (Connected(t), rest)
  {
    var header;
    header, tail := StepOf(Header, stream, t, rest);
    kind := header[3];
    assert header == CONNECT_START + [kind];
  }

  lemma AddressAndPortOf(kind: byte, stream: seq<byte>, t: Target, rest: seq<byte>)
    requires kind in {IPV4_ADDRESS_TYPE, IPV6_ADDRESS_TYPE, DOMAIN_ADDRESS_TYPE}
    requires Decode(AddressPhase(kind), stream) == (Connected(t), rest)
    ensures TargetOk(t) && [kind] + stream == EncodeHost(t.host) + [t.port / 256, t.port % 256] + rest
  {
    if kind == DOMAIN_ADDRESS_TYPE {
      NameOf(stream, t, rest);
    } else {
      AddressOf(stream, kind == IPV4_ADDRESS_TYPE, t, rest);
    }
    var host := EncodeHost(t.host);
    assert host == [kind] + host[1..];
    Regroup([kind], host[1..], [t.port / 256, t.port % 256], rest);
  }

  lemma RequestOf(stream: seq<byte>, t: Target, rest: seq<byte>)
    requires Decode(Header, stream) == (Connected(t), rest)
    ensures TargetOk(t) && stream == EncodeConnect(t) + rest
  {
    var kind, tail := KindOf(stream, t, rest);
    AddressAndPortOf(kind, tail, t, rest);
    Associative(CONNECT_START, [kind], tail);
    Regroup(CONNECT_START, EncodeHost(t.host), [t.port / 256, t.port % 256], rest);
  }

  lemma CountOf(stream: seq<byte>, t: Target, rest: seq<byte>) returns (count: byte, tail: seq<byte>)
    requires Decode(Greeting, stream) == (Connected(t), rest)
    ensures 1 <= count <= 32 && stream == [SOCKS_VERSION, count] + tail
    ensures Decode(Methods(count), tail) == (Connected(t), rest)
  {
    var start;
    start, tail := StepOf(Greeting, stream, t, rest);
    count := start[1];
    assert start == [SOCKS_VERSION, count];
  }

  lemma MethodsOf(stream: seq<byte>, count: nat, t: Target, rest: seq<byte>)
    returns (methods: seq<byte>, request: seq<byte>)
    requires 1 <= count <= 32 && Decode(Methods(count), stream) == (Connected(t), rest)
    ensures |methods| == count && Offers(methods) && stream == methods + request
    ensures Decode(Header, request) == (Connected(t), rest)
  {
    methods, request := StepOf(Methods(count), stream, t, rest);
  }

  lemma GreetingOf(stream: seq<byte>, t: Target, rest: seq<byte>) returns (methods: seq<byte>)
    requires Decode(Greeting, stream) == (Connected(t), rest)
    ensures Offers(methods) && TargetOk(t) && stream == EncodeGreeting(methods) + EncodeConnect(t) + rest
  {
    var count, tail := CountOf(stream, t, rest);
    var request;
    methods, request := MethodsOf(tail, count, t, rest);
    RequestOf(request, t, rest);
    Regroup([SOCKS_VERSION, count], methods, EncodeConnect(t), rest);
  }

  /** The handshake opens a tunnel for exactly the streams that start with a greeting and a CONNECT request. */
  lemma ConnectsIff(stream: seq<byte>, t: Target, rest: seq<byte>)
    ensures Decode(Greeting, stream) == (Connected(t), rest)
      <==> TargetOk(t)
           && exists methods :: Offers(methods) && stream == EncodeGreeting(methods) + EncodeConnect(t) + rest
  {
    if Decode(Greeting, stream) == (Connected(t), rest) {
      var methods := GreetingOf(stream, t, rest);
    } else if TargetOk(t) {
      forall methods | Offers(methods)
        ensures stream != EncodeGreeting(methods) + EncodeConnect(t) + rest
      {
        if stream == EncodeGreeting(methods) + EncodeConnect(t) + rest { ConnectRoundTrip(methods, t, rest); }
      }
    }
  }
}
