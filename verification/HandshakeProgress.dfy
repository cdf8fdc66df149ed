/**
  That the handshake of apps/renderer/src/guarded-socks-proxy.ts gets somewhere: what a single read answers,
  and that resolved reads always carry it to where the received bytes lead.
*/
module HandshakeProgress {
  import opened Prelude
  import opened SocksProxy

  /**
    A read is refused exactly if it asks for nothing, for more than a handshake may buffer, or while
    another one is pending, and then leaves the reader alone. Otherwise it takes its bytes off the
    front of the buffer, or waits while they are not all there.
  */
  lemma ReadAnswers(r: ReaderState, length: nat)
    ensures var (t, settled) := ReadStep(r, length);
      && (settled == Rejected <==> !(1 <= length <= MAX_HANDSHAKE_BYTES && r.pending.None?))
      && (settled == Rejected ==> t == r)
      && (settled.Resolved? ==>
            |settled.value| == length && r.buffered == settled.value + t.buffered && t == r.(buffered := t.buffered))
      && (settled.Unsettled? ==> |r.buffered| < length && t == r.(pending := Some(length)))
  {
  }

  function Resumes(n: nat): seq<Event> { seq(n, i => Resume) }

  lemma {:induction false} SamePrefix(events: seq<Event>, more: seq<Event>, n: nat)
    requires n <= |events|
    ensures RunTo(events + more, n) == RunTo(events, n)
  {
    if n > 0 {
      SamePrefix(events, more, n - 1);
    }
  }

  lemma RunSnoc(events: seq<Event>, e: Event)
    ensures Run(events + [e]) == Next(Run(events), e)
  {
    SamePrefix(events, [e], |events|);
  }

  /**
    What the socket does to the handshake: bytes arrive until it is destroyed, which too many unread
    ones do at once; a timer, an error or the end of the stream rejects a pending read, and does
    nothing where none is pending.
  */
  lemma SocketIsHeard(events: seq<Event>, chunk: seq<byte>)
    ensures var s, t := Run(events), Run(events + [Data(chunk)]);
      && (!s.reader.dead ==>
            && t.received == s.received + chunk
            && (t.reader.dead <==> |s.reader.buffered| + |chunk| > MAX_HANDSHAKE_BYTES))
      && (s.reader.dead ==> t == s)
    ensures var s, t, u := Run(events), Run(events + [Expire]), Run(events + [Fail]);
      && (s.reader.pending.Some? ==> t.threw && t.reader.dead && u.threw && u.reader.dead == s.reader.dead)
      && (s.reader.pending.None? ==> t == s && u == s)
  {
    RunSnoc(events, Data(chunk));
    RunSnoc(events, Expire);
    RunSnoc(events, Fail);
  }

  /** A resolved read always resumes the handshake: it takes bytes no one has looked at, and rejects nothing. */
  lemma ResumeGoesOn(events: seq<Event>)
    requires Run(events).inbox.Some?
    ensures var s, t := Run(events), Run(events + [Resume]);
      t.received == s.received && t.threw == s.threw && |Unseen(t)| < |Unseen(s)|
  {
    var s := Run(events);
    RunSnoc(events, Resume);
    RunKeepsInv(events, |events|);
    RejectsIff(s, Resume);
    var fed := s.(phase := Feed(s.phase, s.inbox.value), inbox := None);
    AskKeepsUnseen(fed);
    assert Next(s, Resume) == Ask(fed);
  }

  /** From every state a run reaches, some number of resumptions leaves no read resolved and unused. */
  lemma {:induction false} ComesToRest(events: seq<Event>) returns (n: nat)
    ensures var s, t := Run(events), Run(events + Resumes(n));
      t.inbox.None? && t.received == s.received && t.threw == s.threw
    decreases |Unseen(Run(events))|
  {
    if Run(events).inbox.None? {
      n := 0;
      assert events + Resumes(0) == events;
    } else {
      ResumeGoesOn(events);
      var m := ComesToRest(events + [Resume]);
      n := m + 1;
      assert events + [Resume] + Resumes(m) == events + Resumes(n);
    }
  }

  /**
    However the stream is cut into chunks and its handling interleaved: unless a read was rejected,
    the handshake goes on to open a tunnel exactly if what was received is a greeting, a CONNECT
    request and any bytes behind it; it opens to that target and still holds those bytes.
  */
  lemma TunnelOpensIff(events: seq<Event>, t: Target, early: seq<byte>) returns (n: nat)
    requires !Run(events).threw
    ensures var s := Run(events + Resumes(n));
      s.phase == Connected(t) && s.reader.buffered == early <==>
        TargetOk(t) && exists methods ::
          Offers(methods) && s.received == EncodeGreeting(methods) + EncodeConnect(t) + early
    ensures Run(events + Resumes(n)).received == Run(events).received
  {
    n := ComesToRest(events);
    var s := Run(events + Resumes(n));
    ChunksDoNotMatter(events + Resumes(n));
    ConnectsIff(s.received, t, early);
  }
}
