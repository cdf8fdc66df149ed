/** The `queues` map of packages/core/src/fetch/index.ts and the queues in it, refining QueueProtocol. */
module DomainQueue {
  import opened Prelude
  import opened QueueProtocol

  /** A p-queue of concurrency one; `running` is its pending slot and `waiting` its backlog. */
  class PQueue {
    const index: nat
    const key: string
    var running: Option<nat>
    var waiting: seq<nat>

    constructor (index: nat, key: string)
      ensures this.index == index && View() == Queue(key, None, [])
    {
      this.index, this.key := index, key;
      running, waiting := None, [];
    }

    ghost function View(): Queue
      reads this
    {
      Queue(key, running, waiting)
    }
  }

  class DomainQueues {
    var queues: map<string, PQueue>
    var created: seq<PQueue>   // every queue ever made, and
    var calls: seq<Call>       // every call: the history the map itself forgets

    ghost predicate Known(q: PQueue)
      reads this
    {
      q.index < |created| && created[q.index] == q
    }

    ghost predicate Valid()
      reads this
    {
      && (forall i :: 0 <= i < |created| ==> created[i].index == i)
      && (forall key :: key in queues ==> Known(queues[key]))
    }

    ghost function View(): (s: State)
      reads this, created
      requires Valid()
    {
      State(
        map key | key in queues :: queues[key].index,
        seq(|created|, i requires 0 <= i < |created| reads this, created => created[i].View()),
        calls)
    }

    constructor ()
      ensures Valid() && View() == Init()
    {
      queues := map[];
      created, calls := [], [];
    }

    method QueueFor(key: string) returns (queue: PQueue)
      requires Valid()
      modifies this`queues, this`created
      ensures Valid() && Known(queue) && calls == old(calls)
      ensures old(created) <= created && (queue in old(created) || fresh(queue))
      ensures (View(), queue.index) == QueueProtocol.QueueFor(old(View()), key)
    {
      if key in queues {
        queue := queues[key];
        assert View() == old(View());
      } else {
        ghost var s := View();
        queue := new PQueue(|created|, key);
        queues := queues[key := queue];
        created := created + [queue];
        assert View().all == s.all + [Queue(key, None, [])];
        assert View().mapped == s.mapped[key := |s.all|];
      }
    }

    /** `withDomainQueue` up to its await: find the queue and add the call to it. */
    method Enter(key: string) returns (queue: PQueue, call: nat)
      requires Valid()
      modifies this, created
      ensures Valid() && Known(queue) && call == |old(calls)|
      ensures View() == Next(old(View()), Event.Enter(key))
    {
      queue := QueueFor(key);
      call := Add(queue);
    }

    method Add(queue: PQueue) returns (call: nat)
      requires Valid() && Known(queue)
      modifies this`calls, queue
      ensures Valid() && View() == QueueProtocol.Add(old(View()), queue.index) && call == |old(calls)|
    {
      ghost var s := View();
      call := |calls|;
      if queue.running.None? {
        queue.running := Some(call);
        calls := calls + [Call(queue.index, Running)];
      } else {
        queue.waiting := queue.waiting + [call];
        calls := calls + [Call(queue.index, Waiting)];
      }
      assert View().mapped == s.mapped;
      assert View().all == s.all[queue.index := queue.View()];
    }

    /** The queue's own reaction to a settled function, before the caller's. */
    method OnSettled(queue: PQueue, call: nat)
      requires Valid() && Known(queue)
      requires call < |calls| && calls[call] == Call(queue.index, Running)
      requires Enabled(View(), Settle(call))
      modifies this`calls, queue
      ensures Valid() && View() == Next(old(View()), Settle(call))
    {
      ghost var s := View();
      assert s.all[queue.index] == queue.View();
      assert forall d :: d in queue.waiting ==> d < |calls|;
      calls := calls[call := Call(queue.index, Finishing)];
      if queue.waiting == [] {
        queue.running := None;
      } else {
        var next := queue.waiting[0];
        assert next in queue.waiting;
        queue.running, queue.waiting := Some(next), queue.waiting[1..];
        calls := calls[next := Call(queue.index, Running)];
      }
      assert View().mapped == s.mapped;
      assert View().all == s.all[queue.index := queue.View()];
    }

    /** The `finally` of `withDomainQueue`. */
    method Leave(queue: PQueue, call: nat)
      requires Valid() && Known(queue)
      requires call < |calls| && calls[call] == Call(queue.index, Finishing)
      modifies this`calls, this`queues
      ensures Valid() && View() == Next(old(View()), Event.Leave(call))
    {
      ghost var s := View();
      calls := calls[call := Call(queue.index, Returned)];
      if queue.waiting == [] && queue.running.None? && queue.key in queues && queues[queue.key] == queue {
        queues := queues - {queue.key};
        assert View().mapped == s.mapped - {queue.key};
      }
      assert View().all == s.all;
    }
  }
}
