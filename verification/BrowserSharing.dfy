/**
  What an acquire of the browser manager amounts to, over every run: when it shares the
  browser it finds, when it starts another one, and what becomes of a generation that failed.
  The statements are about records, waiters and launches alone.
*/
module BrowserSharing {
  import opened Prelude
  import opened GenerationProtocol

  /** What is left of an unretired generation once it is retired: a launched one starts to close its own handle. */
  ghost predicate RetiredFrom<T>(r: Record<T>, before: Record<T>) {
    && r.retired && r.launch == before.launch && r.handle == before.handle && r.forced == []
    && (if r.launch.Fulfilled? then r.closing == Graceful && r.closed == [r.launch.value]
        else r.closing == NotStarted && r.closed == [])
  }

  /** Nothing has changed but that the generations of `gs`, if still unretired, are now retired. */
  ghost predicate OnlyRetires<T>(s: State<T>, t: State<T>, gs: set<nat>) {
    && |t.all| >= |s.all|
    && (forall i :: 0 <= i < |s.all| && (i !in gs || s.all[i].retired) ==> t.all[i] == s.all[i])
    && (forall i :: 0 <= i < |s.all| && i in gs && !s.all[i].retired ==> RetiredFrom(t.all[i], s.all[i]))
  }

  /** A generation an acquire may wait for: unretired, and either still launching or with a usable browser. */
  ghost predicate Shareable<T>(r: Record<T>, usable: bool) {
    !r.retired && (r.launch.Fulfilled? ==> usable)
  }

  /**
    An acquire leaves every generation as it is and waits for the active one, exactly if some
    generation is shareable.
  */
  lemma AcquireSharesIff<T>(events: seq<Event<T>>, usable: bool)
    requires !Run(Init<T>(), events).aborted
    ensures var s := Run(Init<T>(), events); var t := Next(s, Acquire(usable));
      (exists g :: 0 <= g < |s.all| && Shareable(s.all[g], usable))
      <==> s.active.Some? && t == s.(waiters := s.waiters + [Waiter(s.active.value, Waiting)])
  {
    RunKeepsInv(Init<T>(), events);
    var s := Run(Init<T>(), events);
    if s.active.Some? {
      assert RecordOk(s.all[s.active.value]);
    }
  }

  /**
    Otherwise it waits for a new generation, the only one added and now the active one; of the
    others nothing has changed but that the launched and unusable one, if any, is retired.
  */
  lemma AcquireStartsOtherwise<T>(events: seq<Event<T>>, usable: bool)
    requires !Run(Init<T>(), events).aborted
    requires var s := Run(Init<T>(), events); forall g :: 0 <= g < |s.all| ==> !Shareable(s.all[g], usable)
    ensures var s := Run(Init<T>(), events); var t := Next(s, Acquire(usable)); var n := |s.all|;
      && |t.all| == n + 1 && t.all[n] == Record(Scheduled, None, false, NotStarted, [], [])
      && t.active == Some(n) && t.live == s.live + {n} && !t.aborted
      && t.waiters == s.waiters + [Waiter(n, Waiting)]
      && OnlyRetires(s, t, if s.active.Some? then {s.active.value} else {})
  {
    RunKeepsInv(Init<T>(), events);
    var s := Run(Init<T>(), events);
    if s.active.Some? {
      assert RecordOk(s.all[s.active.value]);
    }
  }

  /** On a closed manager an acquire does nothing: no generation, no waiter. */
  lemma AcquireIsRefusedWhenClosed<T>(s: State<T>, usable: bool)
    requires s.aborted
    ensures Next(s, Acquire(usable)) == s
  {
  }

  /** The call of `acquire` is suspended at its await. */
  ghost predicate Awaits<T>(s: State<T>, w: nat) {
    w < |s.waiters| && s.waiters[w].outcome == Waiting && s.waiters[w].generation < |s.all|
  }

  /**
    An acquire whose launch is fulfilled hands out that launch's own browser exactly if the
    generation has not been retired meanwhile, and throws otherwise; no generation is touched.
  */
  lemma ResumeReturnsIff<T>(events: seq<Event<T>>, w: nat)
    requires Awaits(Run(Init<T>(), events), w)
    requires var s := Run(Init<T>(), events); s.all[s.waiters[w].generation].launch.Fulfilled?
    ensures var s := Run(Init<T>(), events); var g := s.waiters[w].generation;
      Next(s, Resume(w)) == s.(waiters := s.waiters[w :=
        Waiter(g, if s.all[g].retired then Threw else Returned(s.all[g].launch.value))])
  {
    RunKeepsInv(Init<T>(), events);
    var s := Run(Init<T>(), events);
    var g := s.waiters[w].generation;
    var r := s.all[g];
    assert RecordOk(r);
    assert s.all[g := r] == s.all;
    if r.retired {
      assert CloseRecord(r, r.launch.value) == r;
    } else {
      assert r.(handle := Some(r.launch.value)) == r;
    }
  }

  /** An acquire that gives up throws, and retires its generation, whoever else is waiting for it. */
  lemma GiveUpRetires<T>(events: seq<Event<T>>, w: nat)
    requires Awaits(Run(Init<T>(), events), w)
    ensures var s := Run(Init<T>(), events); var t := Next(s, GiveUp(w)); var g := s.waiters[w].generation;
      && OnlyRetires(s, t, {g}) && |t.all| == |s.all| && t.live == s.live && t.aborted == s.aborted
      && t.active == (if s.active == Some(g) then None else s.active)
      && t.waiters == s.waiters[w := Waiter(g, Threw)]
  {
    RunKeepsInv(Init<T>(), events);
    assert RecordOk(Run(Init<T>(), events).all[Run(Init<T>(), events).waiters[w].generation]);
  }

  /** `retire` retires that generation and no other. */
  lemma RetireRetires<T>(events: seq<Event<T>>, g: nat)
    requires g < |Run(Init<T>(), events).all|
    ensures var s := Run(Init<T>(), events); var t := Next(s, Event.Retire(g));
      && OnlyRetires(s, t, {g}) && |t.all| == |s.all| && t.live == s.live && t.aborted == s.aborted
      && t.active == (if s.active == Some(g) then None else s.active)
      && t.waiters == s.waiters
  {
    RunKeepsInv(Init<T>(), events);
    assert RecordOk(Run(Init<T>(), events).all[g]);
  }

  // ----- What the environment answers -----

  /** The step changes this generation, and whether it is still in the set, and nothing else. */
  ghost predicate OnlyTouches<T>(s: State<T>, t: State<T>, g: nat) {
    && g < |s.all| == |t.all| && t.active == s.active && t.waiters == s.waiters && t.aborted == s.aborted
    && (forall i :: 0 <= i < |s.all| && i != g ==> t.all[i] == s.all[i])
  }

  /**
    A launch that is fulfilled gives its generation the handle, and starts to close it exactly if
    the generation was retired meanwhile; one that is rejected leaves the set without a handle.
  */
  lemma LaunchIsAnswered<T>(events: seq<Event<T>>, g: nat, handle: T)
    requires g < |Run(Init<T>(), events).all| && Run(Init<T>(), events).all[g].launch == Running
    ensures var s := Run(Init<T>(), events); var r := s.all[g];
      var t, u := Next(s, LaunchFulfilled(g, handle)), Next(s, LaunchRejected(g));
      && OnlyTouches(s, t, g) && t.live == s.live && OnlyTouches(s, u, g) && u.live == s.live - {g}
      && u.all[g] == Record(Rejected, None, r.retired, NotStarted, [], [])
      && t.all[g] == (
           if r.retired then Record(Fulfilled(handle), Some(handle), true, Graceful, [handle], [])
           else Record(Fulfilled(handle), Some(handle), false, NotStarted, [], []))
  {
    RunKeepsInv(Init<T>(), events);
    assert RecordOk(Run(Init<T>(), events).all[g]);
  }

  /** A close that resolves ends, and so does a forced one, whichever way it settles. */
  lemma CloseEnds<T>(events: seq<Event<T>>, g: nat)
    requires g < |Run(Init<T>(), events).all| && Run(Init<T>(), events).all[g].closing in {Graceful, Forced}
    ensures var s := Run(Init<T>(), events);
      var t := Next(s, if s.all[g].closing == Graceful then CloseResolved(g) else ForceSettled(g));
      OnlyTouches(s, t, g) && t.live == s.live - {g} && t.all[g] == s.all[g].(closing := Finished)
  {
  }

  /** A close that fails or is late forces the same handle. */
  lemma CloseIsForced<T>(events: seq<Event<T>>, g: nat)
    requires g < |Run(Init<T>(), events).all| && Run(Init<T>(), events).all[g].closing == Graceful
    ensures var s := Run(Init<T>(), events); var r := s.all[g]; var t := Next(s, CloseFailed(g));
      && OnlyTouches(s, t, g) && t.live == s.live && r.launch.Fulfilled?
      && t.all[g] == r.(closing := Forced, forced := [r.launch.value])
  {
    RunKeepsInv(Init<T>(), events);
    assert RecordOk(Run(Init<T>(), events).all[g]);
  }

  // ----- Over whole runs -----

  /** Every acquire that threw has left its generation retired. */
  ghost predicate FailedAreRetired<T>(s: State<T>) {
    forall w :: 0 <= w < |s.waiters| && s.waiters[w].outcome == Threw ==>
      s.waiters[w].generation < |s.all| && s.all[s.waiters[w].generation].retired
  }

  lemma StaysRetired<T>(s: State<T>, e: Event<T>, i: nat)
    requires Inv(s) && i < |s.all| && s.all[i].retired
    ensures i < |Next(s, e).all| && Next(s, e).all[i].retired
  {
  }

  lemma ThrewIsRetired<T>(s: State<T>, e: Event<T>, w: nat)
    requires Inv(s) && w < |Next(s, e).waiters| && Next(s, e).waiters[w].outcome == Threw
    requires w < |s.waiters| && s.waiters[w].outcome == Threw ==> s.all[s.waiters[w].generation].retired
    ensures Next(s, e).waiters[w].generation < |Next(s, e).all|
    ensures Next(s, e).all[Next(s, e).waiters[w].generation].retired
  {
    if w < |s.waiters| && s.all[s.waiters[w].generation].retired {
      StaysRetired(s, e, s.waiters[w].generation);
    }
  }

  lemma NextKeepsFailedRetired<T>(s: State<T>, e: Event<T>)
    requires Inv(s) && FailedAreRetired(s)
    ensures FailedAreRetired(Next(s, e))
  {
    var t := Next(s, e);
    forall w | 0 <= w < |t.waiters| && t.waiters[w].outcome == Threw
      ensures t.waiters[w].generation < |t.all| && t.all[t.waiters[w].generation].retired
    {
      ThrewIsRetired(s, e, w);
    }
  }

  lemma {:induction false} RunKeepsFailedRetired<T>(events: seq<Event<T>>)
    ensures FailedAreRetired(Run(Init<T>(), events))
    decreases |events|
  {
    if events != [] {
      var shorter := events[..|events| - 1];
      RunKeepsFailedRetired(shorter);
      RunKeepsInv(Init<T>(), shorter);
      NextKeepsFailedRetired(Run(Init<T>(), shorter), events[|events| - 1]);
    }
  }

  /** A generation that has failed one acquire is never given to another. */
  lemma FailedGenerationIsNotShared<T>(events: seq<Event<T>>, w: nat, usable: bool)
    requires w < |Run(Init<T>(), events).waiters| && Run(Init<T>(), events).waiters[w].outcome == Threw
    ensures var s := Run(Init<T>(), events); var t := Next(s, Acquire(usable));
      forall v :: |s.waiters| <= v < |t.waiters| ==> t.waiters[v].generation != s.waiters[w].generation
  {
    RunKeepsFailedRetired(events);
    RunKeepsInv(Init<T>(), events);
  }

  /** Nobody gives the browser up, and it is usable whenever an acquire looks at it. */
  predicate Undisturbed<T>(e: Event<T>) {
    !e.GiveUp? && !e.Retire? && !e.BeginClose? && (e.Acquire? ==> e.usable)
  }

  predicate AnyAcquire<T>(events: seq<Event<T>>) {
    exists i :: 0 <= i < |events| && events[i].Acquire?
  }

  /** At most one generation was ever started, it is unretired, and nobody waiting for it has failed. */
  ghost predicate SharesOne<T>(s: State<T>) {
    && |s.all| <= 1 && !s.aborted && (forall i :: 0 <= i < |s.all| ==> !s.all[i].retired)
    && (forall v :: 0 <= v < |s.waiters| ==> s.waiters[v].generation == 0 && s.waiters[v].outcome != Threw)
  }

  lemma NextSharesOne<T>(s: State<T>, e: Event<T>)
    requires Inv(s) && SharesOne(s) && Undisturbed(e)
    ensures SharesOne(Next(s, e))
    ensures |Next(s, e).all| == (if e.Acquire? then 1 else |s.all|)
  {
    if |s.all| == 1 {
      assert RecordOk(s.all[0]);
      assert s.active == Some(0);
    }
  }

  lemma {:induction false} RunSharesOne<T>(events: seq<Event<T>>)
    requires forall i :: 0 <= i < |events| ==> Undisturbed(events[i])
    ensures Inv(Run(Init<T>(), events)) && SharesOne(Run(Init<T>(), events))
    ensures |Run(Init<T>(), events).all| == 1 <==> AnyAcquire(events)
    decreases |events|
  {
    RunKeepsInv(Init<T>(), events);
    if events != [] {
      var shorter, last := events[..|events| - 1], |events| - 1;
      RunSharesOne(shorter);
      NextSharesOne(Run(Init<T>(), shorter), events[last]);
      assert AnyAcquire(events) <==> AnyAcquire(shorter) || events[last].Acquire? by {
        assert forall i :: 0 <= i < |shorter| ==> shorter[i] == events[i];
      }
    }
  }

  /**
    However many acquires overlap, one launch serves them all: while no one gives up, retires or
    closes and the browser stays usable, a single generation is started by the first acquire, and
    every acquire that has returned was given the handle of that one launch.
  */
  lemma OneLaunchServesAll<T>(events: seq<Event<T>>, v: nat)
    requires forall i :: 0 <= i < |events| ==> Undisturbed(events[i])
    ensures var s := Run(Init<T>(), events);
      && |s.all| == (if AnyAcquire(events) then 1 else 0)
      && (v < |s.waiters| ==>
            && |s.all| == 1 && s.waiters[v].generation == 0 && s.waiters[v].outcome != Threw
            && (s.waiters[v].outcome.Returned? ==> s.all[0].launch == Fulfilled(s.waiters[v].outcome.handle)))
  {
    RunSharesOne(events);
  }
}
