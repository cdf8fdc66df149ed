/**
  apps/renderer/src/browser-generation.ts: the manager object itself, one method per piece
  of code between two awaits. Every method refines one step of GenerationProtocol, so what
  is proved there of all runs holds of this object.
*/
module BrowserGeneration {
  import opened Prelude
  import opened GenerationProtocol

  class Generation<T> {
    const id: nat
    var handle: Option<T>
    var retired: bool
    var launch: Launch<T>
    var closePromise: Closing
    ghost var closed: seq<T>
    ghost var forced: seq<T>

    constructor (id: nat)
      ensures this.id == id
      ensures View() == Record(Scheduled, None, false, NotStarted, [], [])
    {
      this.id := id;
      handle, retired, launch, closePromise := None, false, Scheduled, NotStarted;
      closed, forced := [], [];
    }

    /** Where the generation stands among all that were ever started. */
    ghost function Position(): nat { if id == 0 then 0 else id - 1 }

    ghost function View(): Record<T>
      reads this
    {
      Record(launch, handle, retired, closePromise, closed, forced)
    }
  }

  class BrowserGenerationManager<T(==)> {
    var active: Generation?<T>
    var generations: set<Generation<T>>
    var nextId: nat
    var shutdown: bool
    ghost var started: seq<Generation<T>>   // every generation, in the order of their ids
    ghost var waiters: seq<Waiter<T>>       // every call of acquire that got past its guard

    ghost predicate Valid()
      reads this
    {
      && nextId == |started|
      && (forall i :: 0 <= i < |started| ==> started[i].id == i + 1)
      && (active != null ==> 1 <= active.id <= |started| && started[active.id - 1] == active)
      && (forall g :: g in generations ==> Known(g))
    }

    ghost predicate Known(g: Generation<T>)
      reads this
    {
      1 <= g.id <= |started| && started[g.id - 1] == g
    }

    ghost function View(): (s: State<T>)
      reads this, started
      requires Valid()
      ensures |s.all| == |started|
    {
      State(
        if active == null then None else Some(active.id - 1),
        Indices(generations),
        seq(|started|, i requires 0 <= i < |started| reads this, started => started[i].View()),
        waiters,
        shutdown)
    }

    constructor ()
      ensures Valid() && fresh(this) && View() == Init<T>()
    {
      active, generations, nextId, shutdown := null, {}, 0, false;
      started, waiters := [], [];
    }

    /** The indices of some generations in `started`. */
    ghost function Indices(some: set<Generation<T>>): set<nat>
      reads this
      requires forall g :: g in some ==> Known(g)
    {
      set g | g in some :: g.Position()
    }

    lemma IndicesIff(some: set<Generation<T>>, i: nat)
      requires Valid() && i < |started| && forall g :: g in some ==> Known(g)
      ensures i in Indices(some) <==> started[i] in some
    {
      assert started[i].id - 1 == i;
    }

    lemma IndicesWithout(some: set<Generation<T>>, g: Generation<T>)
      requires Valid() && Known(g) && forall x :: x in some ==> Known(x)
      ensures Indices(some - {g}) == Indices(some) - {g.id - 1}
    {
      forall i | i in Indices(some) + Indices(some - {g})
        ensures i in Indices(some - {g}) <==> i in Indices(some) && i != g.id - 1
      {
        assert i < |started|;
        IndicesIff(some, i);
        IndicesIff(some - {g}, i);
      }
    }

    /** `ensureClose`. The caller has already retired the generation, so a re-entrant `retire` is a no-op. */
    method EnsureClose(generation: Generation<T>, handle: T)
      modifies generation
      ensures generation.View() == CloseRecord(old(generation.View()), handle)
    {
      if generation.closePromise == NotStarted {
        generation.closed := generation.closed + [handle];
        generation.closePromise := Graceful;
      }
    }

    method Retire(generation: Generation<T>)
      requires Valid() && Known(generation)
      modifies this`active, generation
      ensures Valid() && View() == RetireOne(old(View()), generation.id - 1)
    {
      ghost var s, r := View(), generation.View();
      if generation.retired {
        assert View().all == s.all[generation.id - 1 := r];
        return;
      }
      generation.retired := true;
      if active == generation {
        active := null;
      }
      if generation.handle.Some? {
        EnsureClose(generation, generation.handle.value);
      }
      assert generation.View() == RetireRecord(r);
      assert View().all == s.all[generation.id - 1 := generation.View()];
    }

    /** `start`, up to the point where the launch microtask is queued. */
    method Start() returns (generation: Generation<T>)
      requires Valid()
      modifies this`active, this`generations, this`nextId, this`started
      ensures Valid() && fresh(generation) && Known(generation) && generation.id == |started|
      ensures old(started) + [generation] == started
      ensures View() == GenerationProtocol.Start(old(View()))
    {
      ghost var s := View();
      nextId := nextId + 1;
      generation := new Generation(nextId);
      active := generation;
      generations := generations + {generation};
      started := started + [generation];
      assert View().all == s.all + [generation.View()];
      assert View().live == s.live + {|s.all|};
    }

    method Choose(isUsable: T -> bool) returns (generation: Generation<T>)
      requires Valid()
      modifies this`active, this`generations, this`nextId, this`started, active
      ensures Valid() && Known(generation) && active == generation
      ensures View() == GenerationProtocol.Choose(old(View()),
        old(active != null && active.handle.Some? && isUsable(active.handle.value)))
    {
      if active == null || active.retired {
        generation := Start();
      } else if active.handle.Some? && !isUsable(active.handle.value) {
        Retire(active);
        generation := Start();
      } else {
        generation := active;
      }
    }

    /** `acquire` up to its await. A null answer is the error for a manager that is closed. */
    method Acquire(isUsable: T -> bool) returns (generation: Generation?<T>)
      requires Valid()
      modifies this, active
      ensures Valid()
      ensures generation == null <==> old(shutdown)
      ensures generation != null ==> Known(generation) && waiters == old(waiters) + [Waiter(generation.id - 1, Waiting)]
      ensures View() == Next(old(View()), Event.Acquire(
        old(active != null && active.handle.Some? && isUsable(active.handle.value))))
    {
      if shutdown {
        return null;
      }
      generation := Choose(isUsable);
      label chosen:
      waiters := waiters + [Waiter(generation.id - 1, Waiting)];
      assert View() == Wait(old@chosen(View()), generation.id - 1);
    }

    /** The microtask that calls `options.launch`. */
    method CallLaunch(generation: Generation<T>)
      requires Valid() && Known(generation) && generation.launch == Scheduled
      modifies generation
      ensures Valid() && View() == Next(old(View()), Event.CallLaunch(generation.id - 1))
    {
      ghost var s := View();
      generation.launch := Running;
      assert View().all == s.all[generation.id - 1 := generation.View()];
    }

    /** The fulfilment callback that `start` registers, the first reaction of the launch promise. */
    method OnLaunched(generation: Generation<T>, handle: T)
      requires Valid() && Known(generation) && generation.launch == Running
      modifies generation
      ensures Valid() && View() == Next(old(View()), LaunchFulfilled(generation.id - 1, handle))
    {
      ghost var s := View();
      generation.launch := Fulfilled(handle);
      generation.handle := Some(handle);
      if generation.retired || active != generation {
        EnsureClose(generation, handle);
      }
      assert View().all == s.all[generation.id - 1 := generation.View()];
    }

    method OnLaunchFailed(generation: Generation<T>)
      requires Valid() && Known(generation) && generation.launch == Running
      modifies this`generations, generation
      ensures Valid() && View() == Next(old(View()), LaunchRejected(generation.id - 1))
    {
      ghost var s := View();
      generation.launch := Rejected;
      Delete(generation);
      assert View().all == s.all[generation.id - 1 := generation.View()];
    }

    /** `generations.delete`. */
    method Delete(generation: Generation<T>)
      requires Valid() && Known(generation)
      modifies this`generations
      ensures Valid() && View() == old(View()).(live := old(View()).live - {generation.id - 1})
    {
      IndicesWithout(generations, generation);
      generations := generations - {generation};
    }

    /** `acquire` after its await: either the handle, or the error for a generation retired meanwhile. */
    method Resume(generation: Generation<T>, ghost w: nat) returns (result: Option<T>)
      requires Valid() && Known(generation) && generation.launch.Fulfilled?
      requires w < |waiters| && waiters[w] == Waiter(generation.id - 1, Waiting)
      modifies this`active, this`waiters, generation
      ensures Valid() && View() == Next(old(View()), Event.Resume(w))
      ensures waiters[w].outcome == if result.Some? then Returned(result.value) else Threw
    {
      if generation.retired || active != generation {
        result := None;
        Refuse(generation, w);
      } else {
        result := Some(generation.launch.value);
        HandOut(generation, w);
      }
    }

    method Refuse(generation: Generation<T>, ghost w: nat)
      requires Valid() && Known(generation) && generation.launch.Fulfilled?
      requires w < |waiters| && waiters[w] == Waiter(generation.id - 1, Waiting)
      requires generation.retired || active != generation
      modifies this`active, this`waiters, generation
      ensures Valid() && View() == ResumeStep(old(View()), w, old(generation.launch.value))
      ensures waiters == old(waiters)[w := Waiter(generation.id - 1, Threw)]
    {
      ghost var s, i := View(), generation.id - 1;
      EnsureClose(generation, generation.launch.value);
      assert View() == s.(all := s.all[i := CloseRecord(s.all[i], s.all[i].launch.value)]);
      GiveUp(generation, w);
    }

    method HandOut(generation: Generation<T>, ghost w: nat)
      requires Valid() && Known(generation) && generation.launch.Fulfilled?
      requires w < |waiters| && waiters[w] == Waiter(generation.id - 1, Waiting)
      requires !generation.retired && active == generation
      modifies this`waiters, generation
      ensures Valid() && View() == ResumeStep(old(View()), w, old(generation.launch.value))
      ensures generation.launch == old(generation.launch)
      ensures waiters == old(waiters)[w := Waiter(generation.id - 1, Returned(generation.launch.value))]
    {
      ghost var s := View();
      generation.handle := Some(generation.launch.value);
      waiters := waiters[w := Waiter(generation.id - 1, Returned(generation.launch.value))];
      assert View().all == s.all[generation.id - 1 := generation.View()];
    }

    /** The catch block of `acquire`, entered on a deadline, a failed launch or a retired generation. */
    method GiveUp(generation: Generation<T>, ghost w: nat)
      requires Valid() && Known(generation)
      requires w < |waiters| && waiters[w] == Waiter(generation.id - 1, Waiting)
      modifies this`active, this`waiters, generation
      ensures started == old(started) && generations == old(generations) && nextId == old(nextId)
      ensures Valid() && View() == Next(old(View()), Event.GiveUp(w))
      ensures waiters == old(waiters)[w := Waiter(generation.id - 1, Threw)]
    {
      ghost var s := View();
      if active == generation {
        Retire(generation);
      }
      waiters := waiters[w := Waiter(generation.id - 1, Threw)];
      assert View() == GiveUpStep(s, w);
    }

    /** `close` up to its first await. The waits that follow change no field. */
    method BeginClose()
      requires Valid()
      modifies this`shutdown, this`active, generations
      ensures Valid() && View() == Next(old(View()), Event.BeginClose)
    {
      shutdown := true;
      ghost var s := View();
      assert s.all == old(View()).all;
      RetireGenerations();
    }

    /** The loop of `close` over its snapshot of the set. */
    method RetireGenerations()
      requires Valid()
      modifies this`active, generations
      ensures Valid() && View() == RetireAll(old(View()), old(View()).live)
    {
      ghost var s := View();
      var pending := generations;
      RetireNone(s);
      assert generations - pending == {};
      while pending != {}
        invariant Progress(s, pending)
        decreases pending
      {
        var generation :| generation in pending;
        RetireNext(generation, s, pending);
        pending := pending - {generation};
      }
      assert generations - pending == generations;
    }

    /** Everything in `generations` that is no longer pending has been retired, in whatever order. */
    ghost predicate Progress(s: State<T>, pending: set<Generation<T>>)
      reads this, started
    {
      && Valid() && pending <= generations
      && View() == RetireAll(s, Indices(generations - pending))
    }

    method RetireNext(generation: Generation<T>, ghost s: State<T>, ghost pending: set<Generation<T>>)
      requires Progress(s, pending) && generation in pending
      modifies this`active, generation
      ensures Progress(s, pending - {generation})
    {
      ghost var done, g := generations - pending, generation.id - 1;
      IndicesIff(done, g);
      assert generations - (pending - {generation}) == done + {generation};
      assert Indices(done + {generation}) == Indices(done) + {g};
      Retire(generation);
      RetireAllAdds(s, Indices(done), g);
    }

    /** `closeLate` when `options.close` resolves in time, then the `finally` of `ensureClose`. */
    method OnCloseResolved(generation: Generation<T>)
      requires Valid() && Known(generation) && generation.closePromise == Graceful
      modifies this`generations, generation
      ensures Valid() && View() == Next(old(View()), CloseResolved(generation.id - 1))
    {
      Finish(generation);
    }

    /** `closeLate` when `options.close` throws, rejects or misses its deadline. */
    method OnCloseFailed(generation: Generation<T>, handle: T)
      requires Valid() && Known(generation) && generation.closePromise == Graceful
      requires generation.closed == [handle]
      modifies generation
      ensures Valid() && View() == Next(old(View()), CloseFailed(generation.id - 1))
    {
      ghost var s := View();
      generation.forced := generation.forced + [handle];
      generation.closePromise := Forced;
      assert View().all == s.all[generation.id - 1 := generation.View()];
    }

    /** `closeLate` once the forced close has resolved, failed or missed its deadline. */
    method OnForceSettled(generation: Generation<T>)
      requires Valid() && Known(generation) && generation.closePromise == Forced
      modifies this`generations, generation
      ensures Valid() && View() == Next(old(View()), ForceSettled(generation.id - 1))
    {
      Finish(generation);
    }

    method Finish(generation: Generation<T>)
      requires Valid() && Known(generation) && generation.closePromise in {Graceful, Forced}
      modifies this`generations, generation
      ensures Valid() && View() == FinishStep(old(View()), generation.id - 1)
    {
      ghost var s := View();
      generation.closePromise := Finished;
      Delete(generation);
      assert View().all == s.all[generation.id - 1 := generation.View()];
    }
  }
}
