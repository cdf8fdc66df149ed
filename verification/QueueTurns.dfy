/**
  Whose turn it is in the queues of packages/core/src/fetch/index.ts: what each step does to the
  calls, over every run, and that every call that was made can come back.
*/
module QueueTurns {
  import opened Prelude
  import opened QueueProtocol

  /** The call waits for its turn or has it. */
  predicate Busy(s: State, c: nat) {
    c < |s.calls| && (s.calls[c].phase == Waiting || s.calls[c].phase == Running)
  }

  ghost predicate BusyUnder(s: State, c: nat, key: string) {
    Busy(s, c) && s.calls[c].queue < |s.all| && s.all[s.calls[c].queue].key == key
  }

  ghost predicate HostIsBusy(s: State, key: string) {
    exists c :: BusyUnder(s, c, key)
  }

  lemma BusyIsInQueue(s: State, c: nat)
    requires Inv(s) && Busy(s, c)
    ensures s.calls[c].queue < |s.all|
    ensures var queue := s.all[s.calls[c].queue];
      && queue.running.Some? && queue.key in s.mapped && s.mapped[queue.key] == s.calls[c].queue
  {
    assert CallOk(s, c);
    assert QueueOk(s, s.calls[c].queue);
  }

  /**
    A call made through `withDomainQueue` runs at once exactly if no other call of its host runs or
    waits, and waits otherwise. It changes no other call.
  */
  lemma EnterTakesItsTurn(events: seq<Event>, key: string)
    ensures var s := Run(Init(), events); var t := Next(s, Enter(key)); var c := |s.calls|;
      && |t.calls| == c + 1 && t.calls[..c] == s.calls
      && t.calls[c].phase == (if HostIsBusy(s, key) then Waiting else Running)
      && t.calls[c].queue < |t.all| && t.all[t.calls[c].queue].key == key
  {
    RunKeepsInv(events);
    var s := Run(Init(), events);
    EnterOpens(s, key);
    if c :| BusyUnder(s, c, key) {
      BusyIsInQueue(s, c);
    } else if key in s.mapped {
      FreeQueueIsIdle(s, key);
    }
  }

  lemma FreeQueueIsIdle(s: State, key: string)
    requires Inv(s) && key in s.mapped && !HostIsBusy(s, key)
    ensures s.mapped[key] < |s.all| && s.all[s.mapped[key]].running.None?
  {
    assert MapOk(s, key);
    var queue := s.all[s.mapped[key]];
    assert QueueOk(s, s.mapped[key]);
    if queue.running.Some? {
      assert BusyUnder(s, queue.running.value, key);
    }
  }

  /** The call that has waited longest behind another one. */
  ghost predicate IsNext(s: State, c: nat, d: nat) {
    && c < |s.calls| && d < |s.calls| && s.calls[d] == Call(s.calls[c].queue, Waiting)
    && forall e :: 0 <= e < d ==> s.calls[e] != Call(s.calls[c].queue, Waiting)
  }

  /** The head of a first-in first-out list is the earliest of its calls. */
  lemma HeadIsNext(events: seq<Event>, c: nat)
    requires c < |Run(Init(), events).calls| && Run(Init(), events).calls[c].queue < |Run(Init(), events).all|
    requires var s := Run(Init(), events); s.all[s.calls[c].queue].waiting != []
    ensures var s := Run(Init(), events); IsNext(s, c, s.all[s.calls[c].queue].waiting[0])
  {
    RunKeepsInv(events);
    var s := Run(Init(), events);
    var q := s.calls[c].queue;
    QueuesAreFifo(events, q);
    assert QueueOk(s, q);
    var waiting := s.all[q].waiting;
    forall e | 0 <= e < waiting[0] ensures s.calls[e] != Call(q, Waiting) {
      assert CallOk(s, e);
    }
  }

  /**
    When a running function settles its slot goes to the call of its queue that has waited longest,
    if any waits. No other call changes.
  */
  lemma SettleHandsOn(events: seq<Event>, c: nat)
    requires c < |Run(Init(), events).calls| && Run(Init(), events).calls[c].phase == Running
    ensures var s := Run(Init(), events); var t := Next(s, Settle(c));
      && |t.calls| == |s.calls| && t.calls[c] == s.calls[c].(phase := Finishing)
      && (forall d :: 0 <= d < |s.calls| && d != c ==>
            t.calls[d] == if IsNext(s, c, d) then s.calls[d].(phase := Running) else s.calls[d])
  {
    RunKeepsInv(events);
    var s := Run(Init(), events);
    assert CallOk(s, c);
    var q := s.calls[c].queue;
    assert QueueOk(s, q);
    assert Enabled(s, Settle(c));
    if s.all[q].waiting == [] {
      NobodyIsNext(s, c);
    } else {
      HeadIsNext(events, c);
      OnlyOneIsNext(s, c, s.all[q].waiting[0]);
    }
  }

  lemma NobodyIsNext(s: State, c: nat)
    requires Inv(s) && c < |s.calls| && s.calls[c].queue < |s.all| && s.all[s.calls[c].queue].waiting == []
    ensures forall d: nat :: !IsNext(s, c, d)
  {
    forall d: nat ensures !IsNext(s, c, d) {
      if d < |s.calls| {
        assert CallOk(s, d);
      }
    }
  }

  lemma OnlyOneIsNext(s: State, c: nat, next: nat)
    requires IsNext(s, c, next)
    ensures forall d: nat :: IsNext(s, c, d) <==> d == next
  {
  }

  /**
    A caller that resumes returns, and changes no other call. It evicts its queue exactly if that is
    still the one in the map and none of its calls runs or waits.
  */
  lemma LeaveReturns(events: seq<Event>, c: nat)
    requires c < |Run(Init(), events).calls| && Run(Init(), events).calls[c].phase == Finishing
    ensures var s := Run(Init(), events); var t := Next(s, Leave(c)); var q := s.calls[c].queue;
      && t.calls == s.calls[c := s.calls[c].(phase := Returned)] && t.all == s.all && q < |s.all|
      && (forall key :: key in t.mapped <==>
            key in s.mapped && (s.mapped[key] != q || exists d: nat :: Busy(s, d) && s.calls[d].queue == q))
  {
    RunKeepsInv(events);
    var s := Run(Init(), events);
    assert CallOk(s, c);
    var q := s.calls[c].queue;
    assert QueueOk(s, q);
    IdleIff(s, q);
    forall key | key in s.mapped ensures s.mapped[key] == q ==> key == s.all[q].key {
      assert MapOk(s, key);
    }
  }

  lemma IdleIff(s: State, q: nat)
    requires Inv(s) && q < |s.all|
    ensures Idle(s.all[q]) <==> !exists d: nat :: Busy(s, d) && s.calls[d].queue == q
  {
    assert QueueOk(s, q);
    var queue := s.all[q];
    if queue.running.Some? {
      assert Busy(s, queue.running.value) && s.calls[queue.running.value].queue == q;
    }
    if d: nat :| Busy(s, d) && s.calls[d].queue == q {
      BusyIsInQueue(s, d);
    }
  }

  // ----- Every call can come back -----

  /** How many steps a call is from having returned, at most. */
  function Steps(phase: Phase): nat {
    match phase
    case Waiting => 3
    case Running => 2
    case Finishing => 1
    case Returned => 0
  }

  function StepsLeft(calls: seq<Call>, n: nat): nat
    requires n <= |calls|
  {
    if n == 0 then 0 else StepsLeft(calls, n - 1) + Steps(calls[n - 1].phase)
  }

  lemma {:induction false} FewerSteps(a: seq<Call>, b: seq<Call>, n: nat, c: nat)
    requires n <= |a| == |b| && c < |a| && Steps(b[c].phase) < Steps(a[c].phase)
    requires forall d :: 0 <= d < |a| ==> Steps(b[d].phase) <= Steps(a[d].phase)
    ensures StepsLeft(b, n) <= StepsLeft(a, n) && (c < n ==> StepsLeft(b, n) < StepsLeft(a, n))
  {
    if n > 0 {
      FewerSteps(a, b, n - 1, c);
    }
  }

  lemma {:induction false} NoStepsLeft(calls: seq<Call>, n: nat, c: nat)
    requires c < n <= |calls| && calls[c].phase != Returned
    ensures StepsLeft(calls, n) > 0
  {
    if c < n - 1 {
      NoStepsLeft(calls, n - 1, c);
    }
  }

  /** As long as a call has not returned, some function can settle or some caller resume. */
  lemma SomeTurn(events: seq<Event>, c: nat) returns (e: Event)
    requires c < |Run(Init(), events).calls| && Run(Init(), events).calls[c].phase != Returned
    ensures !e.Enter?
    ensures var s := Run(Init(), events); var t := Next(s, e);
      |t.calls| == |s.calls| && StepsLeft(t.calls, |t.calls|) < StepsLeft(s.calls, |s.calls|)
  {
    var s := Run(Init(), events);
    RunKeepsInv(events);
    if s.calls[c].phase == Finishing {
      e := Leave(c);
      LeaveReturns(events, c);
      FewerSteps(s.calls, Next(s, e).calls, |s.calls|, c);
    } else {
      BusyIsInQueue(s, c);
      assert QueueOk(s, s.calls[c].queue);
      var r := s.all[s.calls[c].queue].running.value;
      e := Settle(r);
      SettleHandsOn(events, r);
      FewerSteps(s.calls, Next(s, e).calls, |s.calls|, r);
    }
  }

  /** `more` makes no further call, and behind it every call has returned and the map is empty. */
  ghost predicate BringsBack(events: seq<Event>, more: seq<Event>) {
    && (forall i :: 0 <= i < |more| ==> !more[i].Enter?)
    && AllBack(Run(Init(), events + more), |Run(Init(), events).calls|)
  }

  ghost predicate AllBack(t: State, n: nat) {
    |t.calls| == n && (forall c :: 0 <= c < n ==> t.calls[c].phase == Returned) && t.mapped == map[]
  }

  lemma RunOne(events: seq<Event>, e: Event)
    ensures Run(Init(), events + [e]) == Next(Run(Init(), events), e)
  {
    assert (events + [e])[..|events|] == events;
  }

  lemma OneMore(events: seq<Event>, e: Event, rest: seq<Event>)
    requires !e.Enter? && BringsBack(events + [e], rest)
    requires |Run(Init(), events + [e]).calls| == |Run(Init(), events).calls|
    ensures BringsBack(events, [e] + rest)
  {
    assert events + [e] + rest == events + ([e] + rest);
  }

  lemma NoMore(events: seq<Event>)
    requires var s := Run(Init(), events); forall c :: 0 <= c < |s.calls| ==> s.calls[c].phase == Returned
    ensures BringsBack(events, [])
  {
    assert events + [] == events;
    MapIsEmptyOnceAllReturned(events);
  }

  /**
    No call is stuck: from every state a run reaches, functions settling and callers resuming bring
    every call back, and then the map is empty.
  */
  lemma {:induction false} EveryCallComesBack(events: seq<Event>) returns (more: seq<Event>)
    ensures BringsBack(events, more)
    decreases StepsLeft(Run(Init(), events).calls, |Run(Init(), events).calls|)
  {
    var s := Run(Init(), events);
    if c :| 0 <= c < |s.calls| && s.calls[c].phase != Returned {
      var e := SomeTurn(events, c);
      RunOne(events, e);
      var rest := EveryCallComesBack(events + [e]);
      OneMore(events, e, rest);
      more := [e] + rest;
    } else {
      NoMore(events);
      more := [];
    }
  }
}
