/**
  `withDomainQueue` of packages/core/src/fetch/index.ts as a state machine. A queue is a first-in
  first-out list with one running slot; it starts its next call before the caller of the finished
  one gets to its `finally`. When a call finishes and when its caller resumes is the environment's.
*/
module QueueProtocol {
  import opened Prelude

  /** A queue ever created, for one hostname key. */
  datatype Queue = Queue(key: string, running: Option<nat>, waiting: seq<nat>)

  /** `Finishing`: the function has settled and the `finally` of `withDomainQueue` is still to run. */
  datatype Phase = Waiting | Running | Finishing | Returned
  datatype Call = Call(queue: nat, phase: Phase)

  /** `mapped` is the source's `queues` map. */
  datatype State = State(mapped: map<string, nat>, all: seq<Queue>, calls: seq<Call>)

  datatype Event = Enter(key: string) | Settle(call: nat) | Leave(call: nat)

  predicate Idle(q: Queue) { q.running.None? && q.waiting == [] }

  /** `queueFor`. */
  function QueueFor(s: State, key: string): (State, nat) {
    if key in s.mapped then (s, s.mapped[key])
    else (s.(all := s.all + [Queue(key, None, [])], mapped := s.mapped[key := |s.all|]), |s.all|)
  }

  /** `queue.add`: start at once in a free slot, otherwise wait. */
  function Add(s: State, q: nat): State
    requires q < |s.all|
  {
    var queue, call := s.all[q], |s.calls|;
    if queue.running.None? then
      s.(all := s.all[q := queue.(running := Some(call))], calls := s.calls + [Call(q, Running)])
    else
      s.(all := s.all[q := queue.(waiting := queue.waiting + [call])], calls := s.calls + [Call(q, Waiting)])
  }

  /** The running function settles: the slot goes to the call that has waited longest. */
  function SettleStep(s: State, call: nat): State
    requires call < |s.calls| && s.calls[call].queue < |s.all|
    requires forall c :: c in s.all[s.calls[call].queue].waiting ==> c < |s.calls|
  {
    var q := s.calls[call].queue;
    var queue := s.all[q];
    var calls := s.calls[call := Call(q, Finishing)];
    if queue.waiting == [] then s.(all := s.all[q := queue.(running := None)], calls := calls)
    else
      var next := queue.waiting[0];
      assert next in queue.waiting;
      s.(all := s.all[q := Queue(queue.key, Some(next), queue.waiting[1..])], calls := calls[next := Call(q, Running)])
  }

  /** The `finally`: evict the queue when it is idle and still the one in the map. */
  function LeaveStep(s: State, call: nat): State
    requires call < |s.calls| && s.calls[call].queue < |s.all|
  {
    var q := s.calls[call].queue;
    var key := s.all[q].key;
    s.(calls := s.calls[call := Call(q, Returned)],
       mapped := if Idle(s.all[q]) && key in s.mapped && s.mapped[key] == q then s.mapped - {key} else s.mapped)
  }

  predicate Enabled(s: State, e: Event) {
    match e
    case Enter(key) => key in s.mapped ==> s.mapped[key] < |s.all|
    case Settle(c) =>
      && c < |s.calls| && s.calls[c].phase == Running && s.calls[c].queue < |s.all|
      && forall d :: d in s.all[s.calls[c].queue].waiting ==> d < |s.calls|
    case Leave(c) => c < |s.calls| && s.calls[c].phase == Finishing && s.calls[c].queue < |s.all|
  }

  function Next(s: State, e: Event): State {
    if !Enabled(s, e) then s else
    match e
    case Enter(key) => var (t, q) := QueueFor(s, key); Add(t, q)
    case Settle(c) => SettleStep(s, c)
    case Leave(c) => LeaveStep(s, c)
  }

  function Init(): State { State(map[], [], []) }

  function Run(s: State, events: seq<Event>): State
    decreases |events|
  {
    if events == [] then s else Next(Run(s, events[..|events| - 1]), events[|events| - 1])
  }

  // ----- The invariant -----

  /** The slot and the list of a queue hold exactly its running and its waiting calls. */
  ghost predicate QueueOk(s: State, q: nat)
    requires q < |s.all|
  {
    var queue := s.all[q];
    && (queue.running.Some? ==> queue.running.value < |s.calls| && s.calls[queue.running.value] == Call(q, Running))
    && (forall k :: 0 <= k < |queue.waiting| ==>
          queue.waiting[k] < |s.calls| && s.calls[queue.waiting[k]] == Call(q, Waiting))
    && (forall a, b :: 0 <= a < b < |queue.waiting| ==> queue.waiting[a] != queue.waiting[b])
    && (queue.running.None? ==> queue.waiting == [])
    && (queue.running.Some? ==> queue.key in s.mapped && s.mapped[queue.key] == q)
  }

  ghost predicate CallOk(s: State, c: nat)
    requires c < |s.calls|
  {
    var call := s.calls[c];
    && call.queue < |s.all|
    && (call.phase == Running ==> s.all[call.queue].running == Some(c))
    && (call.phase == Waiting ==> c in s.all[call.queue].waiting)
  }

  ghost predicate Open(s: State, q: nat, c: nat) {
    c < |s.calls| && s.calls[c].queue == q && s.calls[c].phase != Returned
  }

  ghost predicate MapOk(s: State, key: string)
    requires key in s.mapped
  {
    && s.mapped[key] < |s.all| && s.all[s.mapped[key]].key == key
    && exists c :: Open(s, s.mapped[key], c)
  }

  ghost predicate Inv(s: State) {
    && (forall q :: 0 <= q < |s.all| ==> QueueOk(s, q))
    && (forall c :: 0 <= c < |s.calls| ==> CallOk(s, c))
    && (forall key :: key in s.mapped ==> MapOk(s, key))
  }

  /** The call of an `Enter` stands in the queue of its key. */
  lemma EnterOpens(s: State, key: string)
    requires Inv(s)
    ensures var u := Next(s, Enter(key));
      && key in u.mapped && u.mapped[key] < |u.all| && u.all[u.mapped[key]].key == key
      && Open(u, u.mapped[key], |s.calls|)
  {
    assert key in s.mapped ==> MapOk(s, key);
  }

  lemma EnterKeepsQueue(s: State, key: string, p: nat)
    requires Inv(s) && p < |Next(s, Enter(key)).all|
    ensures QueueOk(Next(s, Enter(key)), p)
  {
    EnterOpens(s, key);
    if p < |s.all| { assert QueueOk(s, p); }
  }

  lemma EnterKeepsQueues(s: State, key: string)
    requires Inv(s)
    ensures var u := Next(s, Enter(key)); forall p :: 0 <= p < |u.all| ==> QueueOk(u, p)
  {
    var u := Next(s, Enter(key));
    forall p | 0 <= p < |u.all| ensures QueueOk(u, p) { EnterKeepsQueue(s, key, p); }
  }

  lemma EnterKeepsCalls(s: State, key: string)
    requires Inv(s)
    ensures var u := Next(s, Enter(key)); forall c :: 0 <= c < |u.calls| ==> CallOk(u, c)
  {
    EnterOpens(s, key);
    var u := Next(s, Enter(key));
    forall c | 0 <= c < |u.calls| ensures CallOk(u, c) {
      if c < |s.calls| { assert CallOk(s, c); }
    }
  }

  lemma EnterKeepsInv(s: State, key: string)
    requires Inv(s)
    ensures Inv(Next(s, Enter(key)))
  {
    EnterOpens(s, key);
    EnterKeepsQueues(s, key);
    EnterKeepsCalls(s, key);
    var u := Next(s, Enter(key));
    forall k | k in u.mapped ensures MapOk(u, k) {
      if k != key {
        assert MapOk(s, k);
        var c :| Open(s, s.mapped[k], c);
        assert Open(u, u.mapped[k], c);
      }
    }
  }

  lemma SettleKeepsQueues(s: State, call: nat)
    requires Inv(s) && Enabled(s, Settle(call))
    ensures var t := SettleStep(s, call); forall p :: 0 <= p < |t.all| ==> QueueOk(t, p)
  {
    var t, q := SettleStep(s, call), s.calls[call].queue;
    assert QueueOk(s, q) && CallOk(s, call);
    forall p | 0 <= p < |t.all| ensures QueueOk(t, p) {
      assert QueueOk(s, p);
    }
  }

  lemma SettleKeepsCalls(s: State, call: nat)
    requires Inv(s) && Enabled(s, Settle(call))
    ensures var t := SettleStep(s, call); forall c :: 0 <= c < |t.calls| ==> CallOk(t, c)
  {
    var t, q := SettleStep(s, call), s.calls[call].queue;
    assert QueueOk(s, q) && CallOk(s, call);
    forall c | 0 <= c < |t.calls| ensures CallOk(t, c) {
      assert CallOk(s, c);
      if t.calls[c].phase == Waiting {
        assert c in s.all[t.calls[c].queue].waiting;
      }
    }
  }

  lemma SettleKeepsInv(s: State, call: nat)
    requires Inv(s) && Enabled(s, Settle(call))
    ensures Inv(SettleStep(s, call))
  {
    SettleKeepsQueues(s, call);
    SettleKeepsCalls(s, call);
    var t, q := SettleStep(s, call), s.calls[call].queue;
    assert QueueOk(s, q) && CallOk(s, call);
    forall k | k in t.mapped ensures MapOk(t, k) {
      assert MapOk(s, k);
      var c :| Open(s, s.mapped[k], c);
      assert Open(t, t.mapped[k], c);
    }
  }

  lemma LeaveKeepsInv(s: State, call: nat)
    requires Inv(s) && Enabled(s, Leave(call))
    ensures Inv(LeaveStep(s, call))
  {
    var t, q := LeaveStep(s, call), s.calls[call].queue;
    assert QueueOk(s, q) && CallOk(s, call);
    forall p | 0 <= p < |t.all| ensures QueueOk(t, p) {
      assert QueueOk(s, p);
    }
    forall c | 0 <= c < |t.calls| ensures CallOk(t, c) {
      assert CallOk(s, c);
    }
    forall k | k in t.mapped ensures MapOk(t, k) {
      assert MapOk(s, k);
      if s.mapped[k] == q {
        assert Open(t, q, s.all[q].running.value);
      } else {
        var c :| Open(s, s.mapped[k], c);
        assert Open(t, t.mapped[k], c);
      }
    }
  }

  lemma {:induction false} RunKeepsInv(events: seq<Event>)
    ensures Inv(Run(Init(), events))
    decreases |events|
  {
    if events != [] {
      RunKeepsInv(events[..|events| - 1]);
      var s, e := Run(Init(), events[..|events| - 1]), events[|events| - 1];
      if Enabled(s, e) {
        match e {
          case Enter(key) => EnterKeepsInv(s, key);
          case Settle(c) => SettleKeepsInv(s, c);
          case Leave(c) => LeaveKeepsInv(s, c);
        }
      }
    }
  }

  // ----- What holds over every run -----

  predicate RunsUnder(s: State, c: nat, key: string) {
    c < |s.calls| && s.calls[c].phase == Running && s.calls[c].queue < |s.all| && s.all[s.calls[c].queue].key == key
  }

  /** At most one function runs per hostname key, however often its queue was evicted and made again. */
  lemma OneFunctionPerHost(events: seq<Event>, c: nat, d: nat)
    ensures var s := Run(Init(), events);
      forall key :: RunsUnder(s, c, key) && RunsUnder(s, d, key) ==> c == d
  {
    RunKeepsInv(events);
    var s := Run(Init(), events);
    if c < |s.calls| && d < |s.calls| {
      assert CallOk(s, c) && CallOk(s, d);
      assert QueueOk(s, s.calls[c].queue) && QueueOk(s, s.calls[d].queue);
    }
  }

  /** A queue that holds or runs work is the one in the map, and a waiting call has one running before it. */
  lemma BusyQueuesAreMapped(events: seq<Event>, c: nat)
    ensures var s := Run(Init(), events);
      c < |s.calls| && (s.calls[c].phase == Waiting || s.calls[c].phase == Running) ==>
        && s.calls[c].queue < |s.all| && s.all[s.calls[c].queue].key in s.mapped
        && s.mapped[s.all[s.calls[c].queue].key] == s.calls[c].queue
        && s.all[s.calls[c].queue].running.Some?
  {
    RunKeepsInv(events);
    var s := Run(Init(), events);
    if c < |s.calls| {
      assert CallOk(s, c);
      assert QueueOk(s, s.calls[c].queue);
    }
  }

  /** The map cannot grow without bound: every entry belongs to a call that has not returned. */
  lemma MapIsEmptyOnceAllReturned(events: seq<Event>)
    ensures var s := Run(Init(), events);
      && (forall key :: key in s.mapped ==> exists c :: Open(s, s.mapped[key], c))
      && ((forall c :: 0 <= c < |s.calls| ==> s.calls[c].phase == Returned) ==> s.mapped == map[])
  {
    RunKeepsInv(events);
    var s := Run(Init(), events);
    forall key | key in s.mapped ensures exists c :: Open(s, s.mapped[key], c) {
      assert MapOk(s, key);
    }
    assert s.mapped != map[] ==> exists key :: key in s.mapped && exists c :: Open(s, s.mapped[key], c);
  }

  /** Calls start in the order they were made: a queue never holds an older call behind a newer one. */
  ghost predicate Fifo(queue: Queue) {
    && (forall a, b :: 0 <= a < b < |queue.waiting| ==> queue.waiting[a] < queue.waiting[b])
    && (queue.running.Some? ==> forall a :: 0 <= a < |queue.waiting| ==> queue.running.value < queue.waiting[a])
  }

  lemma {:induction false} QueuesAreFifo(events: seq<Event>, q: nat)
    requires q < |Run(Init(), events).all|
    ensures Fifo(Run(Init(), events).all[q])
    decreases |events|
  {
    if events != [] {
      var shorter := events[..|events| - 1];
      var s := Run(Init(), shorter);
      RunKeepsInv(shorter);
      if q < |s.all| {
        QueuesAreFifo(shorter, q);
        StepKeepsFifo(s, events[|events| - 1], q);
      }
    }
  }

  lemma StepKeepsFifo(s: State, e: Event, q: nat)
    requires Inv(s) && q < |s.all| && Fifo(s.all[q])
    ensures q < |Next(s, e).all| && Fifo(Next(s, e).all[q])
  {
    assert QueueOk(s, q);
  }
}
