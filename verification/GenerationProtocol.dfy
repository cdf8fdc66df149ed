/**
  The browser manager as a state machine. One step is the code that runs between two
  awaits of apps/renderer/src/browser-generation.ts; which step runs next, what a launch
  or a close answers and when a deadline fires are all up to the environment.
*/
module GenerationProtocol {
  import opened Prelude

  /** A `launch` promise. `Scheduled` is `Promise.resolve().then(launch)` before its microtask has run. */
  datatype Launch<T> = Scheduled | Running | Fulfilled(value: T) | Rejected

  /** A `closePromise`: null, then the two stages of `closeLate`, then settled. */
  datatype Closing = NotStarted | Graceful | Forced | Finished

  /** One generation, with the handles that `options.close` and `options.forceClose` were called with. */
  datatype Record<T> = Record(
    launch: Launch<T>,
    handle: Option<T>,
    retired: bool,
    closing: Closing,
    closed: seq<T>,
    forced: seq<T>)

  /** A suspended or finished call of `acquire`. */
  datatype Outcome<T> = Waiting | Returned(handle: T) | Threw
  datatype Waiter<T> = Waiter(generation: nat, outcome: Outcome<T>)

  /** `all` holds every generation ever started; `live` is the source's `generations` set. */
  datatype State<T> = State(
    active: Option<nat>,
    live: set<nat>,
    all: seq<Record<T>>,
    waiters: seq<Waiter<T>>,
    aborted: bool)

  datatype Event<T> =
    | Acquire(usable: bool)
    | CallLaunch(generation: nat)
    | LaunchFulfilled(generation: nat, handle: T)
    | LaunchRejected(generation: nat)
    | Resume(waiter: nat)
    | GiveUp(waiter: nat)
    | Retire(generation: nat)
    | BeginClose
    | CloseResolved(generation: nat)
    | CloseFailed(generation: nat)
    | ForceSettled(generation: nat)

  // ----- The steps -----

  /** `ensureClose`: the `??=` calls `options.close` only when no close was started. */
  function CloseRecord<T>(r: Record<T>, handle: T): Record<T> {
    if r.closing == NotStarted then r.(closing := Graceful, closed := r.closed + [handle]) else r
  }

  /** What `retire` does to the generation itself. */
  function RetireRecord<T>(r: Record<T>): Record<T> {
    if r.retired then r
    else if r.handle.Some? then CloseRecord(r.(retired := true), r.handle.value)
    else r.(retired := true)
  }

  function RetireOne<T>(s: State<T>, g: nat): State<T>
    requires g < |s.all|
  {
    s.(all := s.all[g := RetireRecord(s.all[g])],
       active := if !s.all[g].retired && s.active == Some(g) then None else s.active)
  }

  function Start<T>(s: State<T>): State<T> {
    s.(all := s.all + [Record(Scheduled, None, false, NotStarted, [], [])],
       active := Some(|s.all|),
       live := s.live + {|s.all|})
  }

  function Wait<T>(s: State<T>, g: nat): State<T> {
    s.(waiters := s.waiters + [Waiter(g, Waiting)])
  }

  /** The generation an acquire is going to wait for; it is the active one from then on. */
  function Choose<T>(s: State<T>, usable: bool): (t: State<T>)
    ensures t.active.Some?
  {
    if s.active.None? || s.active.value >= |s.all| || s.all[s.active.value].retired then Start(s)
    else if s.all[s.active.value].handle.Some? && !usable then Start(RetireOne(s, s.active.value))
    else s
  }

  function AcquireStep<T>(s: State<T>, usable: bool): State<T> {
    if s.aborted then s else Wait(Choose(s, usable), Choose(s, usable).active.value)
  }

  function FulfilledStep<T>(s: State<T>, g: nat, handle: T): State<T>
    requires g < |s.all|
  {
    var r := s.all[g].(launch := Fulfilled(handle), handle := Some(handle));
    s.(all := s.all[g := if r.retired || s.active != Some(g) then CloseRecord(r, handle) else r])
  }

  function Settle<T>(s: State<T>, w: nat, outcome: Outcome<T>): State<T>
    requires w < |s.waiters|
  {
    s.(waiters := s.waiters[w := s.waiters[w].(outcome := outcome)])
  }

  /** The catch block of `acquire`. */
  function GiveUpStep<T>(s: State<T>, w: nat): State<T>
    requires w < |s.waiters|
    requires s.waiters[w].generation < |s.all|
  {
    var g := s.waiters[w].generation;
    Settle(if s.active == Some(g) then RetireOne(s, g) else s, w, Threw)
  }

  /** `acquire` after its await, with the launch's handle. */
  function ResumeStep<T>(s: State<T>, w: nat, handle: T): State<T>
    requires w < |s.waiters|
    requires s.waiters[w].generation < |s.all|
  {
    var g := s.waiters[w].generation;
    if s.all[g].retired || s.active != Some(g) then
      GiveUpStep(s.(all := s.all[g := CloseRecord(s.all[g], handle)]), w)
    else
      Settle(s.(all := s.all[g := s.all[g].(handle := Some(handle))]), w, Returned(handle))
  }

  /** Retires every generation of a set, in any order. */
  function RetireAll<T>(s: State<T>, gs: set<nat>): State<T> {
    s.(all := seq(|s.all|, i requires 0 <= i < |s.all| => if i in gs then RetireRecord(s.all[i]) else s.all[i]),
       active :=
         if s.active.Some? && s.active.value in gs && s.active.value < |s.all| && !s.all[s.active.value].retired
         then None else s.active)
  }

  lemma RetireAllAdds<T>(s: State<T>, gs: set<nat>, g: nat)
    requires g < |s.all| && g !in gs
    ensures RetireOne(RetireAll(s, gs), g) == RetireAll(s, gs + {g})
  {
    assert RetireOne(RetireAll(s, gs), g).all == RetireAll(s, gs + {g}).all;
  }

  lemma RetireNone<T>(s: State<T>)
    ensures RetireAll(s, {}) == s
  {
    assert RetireAll(s, {}).all == s.all;
  }

  function BeginCloseStep<T>(s: State<T>): State<T> {
    RetireAll(s.(aborted := true), s.live)
  }

  function FinishStep<T>(s: State<T>, g: nat): State<T>
    requires g < |s.all|
  {
    s.(all := s.all[g := s.all[g].(closing := Finished)], live := s.live - {g})
  }

  /** Which steps the runtime can take. A waiting acquire may give up at any time: its deadline can fire. */
  predicate Enabled<T(==)>(s: State<T>, e: Event<T>) {
    match e
    case Acquire(_) => true
    case CallLaunch(g) => g < |s.all| && s.all[g].launch == Scheduled
    case LaunchFulfilled(g, _) => g < |s.all| && s.all[g].launch == Running
    case LaunchRejected(g) => g < |s.all| && s.all[g].launch == Running
    case Resume(w) =>
      && w < |s.waiters| && s.waiters[w].outcome == Waiting
      && s.waiters[w].generation < |s.all| && s.all[s.waiters[w].generation].launch.Fulfilled?
    case GiveUp(w) =>
      w < |s.waiters| && s.waiters[w].outcome == Waiting && s.waiters[w].generation < |s.all|
    case Retire(g) => g < |s.all|
    case BeginClose => true
    case CloseResolved(g) => g < |s.all| && s.all[g].closing == Graceful
    case CloseFailed(g) => g < |s.all| && s.all[g].closing == Graceful && s.all[g].closed != []
    case ForceSettled(g) => g < |s.all| && s.all[g].closing == Forced
  }

  function Next<T(==)>(s: State<T>, e: Event<T>): State<T> {
    if !Enabled(s, e) then s else
    match e
    case Acquire(usable) => AcquireStep(s, usable)
    case CallLaunch(g) => s.(all := s.all[g := s.all[g].(launch := Running)])
    case LaunchFulfilled(g, handle) => FulfilledStep(s, g, handle)
    case LaunchRejected(g) =>
      s.(all := s.all[g := s.all[g].(launch := Rejected)], live := s.live - {g})
    case Resume(w) => ResumeStep(s, w, s.all[s.waiters[w].generation].launch.value)
    case GiveUp(w) => GiveUpStep(s, w)
    case Retire(g) => RetireOne(s, g)
    case BeginClose => BeginCloseStep(s)
    case CloseResolved(g) => FinishStep(s, g)
    case CloseFailed(g) =>
      s.(all := s.all[g := s.all[g].(closing := Forced, forced := s.all[g].forced + [s.all[g].closed[0]])])
    case ForceSettled(g) => FinishStep(s, g)
  }

  function Init<T>(): State<T> { State(None, {}, [], [], false) }

  function Run<T(==)>(s: State<T>, events: seq<Event<T>>): State<T>
    decreases |events|
  {
    if events == [] then s else Next(Run(s, events[..|events| - 1]), events[|events| - 1])
  }

  // ----- The invariant -----

  ghost predicate RecordOk<T>(r: Record<T>) {
    && r.handle == (if r.launch.Fulfilled? then Some(r.launch.value) else None)
    && (r.closing == NotStarted ==> r.closed == [] && r.forced == [])
    && (r.closing != NotStarted ==> r.retired && r.launch.Fulfilled? && r.closed == [r.launch.value])
    && (r.closing == Graceful ==> r.forced == [])
    && (r.closing == Forced ==> r.forced == r.closed)
    && (r.closing == Finished ==> r.forced == [] || r.forced == r.closed)
    && (r.retired && r.launch.Fulfilled? ==> r.closing != NotStarted)
  }

  /** Whether the launch may still produce a handle or the handle still has to be closed. */
  ghost predicate Unsettled<T>(r: Record<T>) {
    r.launch.Scheduled? || r.launch.Running? || (r.launch.Fulfilled? && r.closing != Finished)
  }

  ghost predicate Inv<T>(s: State<T>) {
    && (s.active.Some? ==> s.active.value < |s.all| && !s.all[s.active.value].retired)
    && (forall i :: 0 <= i < |s.all| ==> RecordOk(s.all[i]))
    && (forall i :: 0 <= i < |s.all| && !s.all[i].retired ==> s.active == Some(i))
    && (forall i :: i in s.live ==> i < |s.all|)
    && (forall i :: 0 <= i < |s.all| ==> (i in s.live <==> Unsettled(s.all[i])))
    && (forall w :: 0 <= w < |s.waiters| ==> s.waiters[w].generation < |s.all|)
    && (forall w :: 0 <= w < |s.waiters| && s.waiters[w].outcome.Returned? ==>
          s.all[s.waiters[w].generation].launch == Fulfilled(s.waiters[w].outcome.handle))
    && (s.aborted ==> forall i :: 0 <= i < |s.all| && !s.all[i].retired ==> s.all[i].launch.Rejected?)
  }

  lemma RetireKeepsInv<T>(s: State<T>, g: nat)
    requires Inv(s) && g < |s.all|
    ensures Inv(RetireOne(s, g))
  {
  }

  lemma StartKeepsInv<T>(s: State<T>)
    requires Inv(s) && !s.aborted
    requires s.active.None?
    ensures Inv(Start(s))
  {
  }

  lemma AcquireKeepsInv<T>(s: State<T>, usable: bool)
    requires Inv(s)
    ensures Inv(AcquireStep(s, usable))
  {
    if !s.aborted {
      if s.active.None? {
        StartKeepsInv(s);
      } else if s.all[s.active.value].handle.Some? && !usable {
        RetireKeepsInv(s, s.active.value);
        StartKeepsInv(RetireOne(s, s.active.value));
      }
    }
  }

  lemma FulfilledKeepsInv<T>(s: State<T>, g: nat, handle: T)
    requires Inv(s) && Enabled(s, LaunchFulfilled(g, handle))
    ensures Inv(FulfilledStep(s, g, handle))
  {
  }

  lemma CallLaunchKeepsInv<T>(s: State<T>, g: nat)
    requires Inv(s) && Enabled(s, CallLaunch(g))
    ensures Inv(Next(s, CallLaunch(g)))
  {
  }

  lemma RejectedKeepsInv<T>(s: State<T>, g: nat)
    requires Inv(s) && Enabled(s, LaunchRejected(g))
    ensures Inv(Next(s, LaunchRejected(g)))
  {
  }

  lemma CloseFailedKeepsInv<T>(s: State<T>, g: nat)
    requires Inv(s) && Enabled(s, CloseFailed(g))
    ensures Inv(Next(s, CloseFailed(g)))
  {
  }

  lemma GiveUpKeepsInv<T>(s: State<T>, w: nat)
    requires Inv(s) && Enabled(s, GiveUp(w))
    ensures Inv(GiveUpStep(s, w))
  {
    if s.active == Some(s.waiters[w].generation) {
      RetireKeepsInv(s, s.waiters[w].generation);
    }
  }

  lemma ResumeKeepsInv<T>(s: State<T>, w: nat)
    requires Inv(s) && Enabled(s, Resume(w))
    ensures Inv(Next(s, Resume(w)))
  {
    var g := s.waiters[w].generation;
    var handle := s.all[g].launch.value;
    assert RecordOk(s.all[g]);
    if s.all[g].retired || s.active != Some(g) {
      assert CloseRecord(s.all[g], handle) == s.all[g];
      assert s.all[g := s.all[g]] == s.all;
      GiveUpKeepsInv(s, w);
    } else {
      assert s.all[g].(handle := Some(handle)) == s.all[g];
      assert s.all[g := s.all[g]] == s.all;
    }
  }

  lemma BeginCloseKeepsInv<T>(s: State<T>)
    requires Inv(s)
    ensures Inv(BeginCloseStep(s))
  {
  }

  lemma FinishKeepsInv<T>(s: State<T>, g: nat)
    requires Inv(s) && g < |s.all| && s.all[g].closing in {Graceful, Forced}
    ensures Inv(FinishStep(s, g))
  {
  }

  lemma NextKeepsInv<T>(s: State<T>, e: Event<T>)
    requires Inv(s)
    ensures Inv(Next(s, e))
  {
    if Enabled(s, e) {
      match e {
        case Acquire(usable) => AcquireKeepsInv(s, usable);
        case CallLaunch(g) => CallLaunchKeepsInv(s, g);
        case LaunchFulfilled(g, handle) => FulfilledKeepsInv(s, g, handle);
        case LaunchRejected(g) => RejectedKeepsInv(s, g);
        case Resume(w) => ResumeKeepsInv(s, w);
        case GiveUp(w) => GiveUpKeepsInv(s, w);
        case Retire(g) => RetireKeepsInv(s, g);
        case BeginClose => BeginCloseKeepsInv(s);
        case CloseResolved(g) => FinishKeepsInv(s, g);
        case CloseFailed(g) => CloseFailedKeepsInv(s, g);
        case ForceSettled(g) => FinishKeepsInv(s, g);
      }
    }
  }

  lemma {:induction false} RunKeepsInv<T>(s: State<T>, events: seq<Event<T>>)
    requires Inv(s)
    ensures Inv(Run(s, events))
    decreases |events|
  {
    if events != [] {
      RunKeepsInv(s, events[..|events| - 1]);
      NextKeepsInv(Run(s, events[..|events| - 1]), events[|events| - 1]);
    }
  }

  // ----- Safety over every run -----

  /** A handle exists and nothing has started to close it. */
  predicate OutsideClosing<T>(r: Record<T>) { r.launch.Fulfilled? && r.closing == NotStarted }

  /** At most one generation is unretired, and it is the active one; at most one handle is outside closing. */
  lemma AtMostOneLiveHandle<T>(events: seq<Event<T>>, i: nat, j: nat)
    requires i < |Run(Init<T>(), events).all| && j < |Run(Init<T>(), events).all|
    ensures var s := Run(Init<T>(), events);
      && (!s.all[i].retired ==> s.active == Some(i))
      && (!s.all[i].retired && !s.all[j].retired ==> i == j)
      && (OutsideClosing(s.all[i]) && OutsideClosing(s.all[j]) ==> i == j)
  {
    RunKeepsInv(Init<T>(), events);
    var s := Run(Init<T>(), events);
    assert RecordOk(s.all[i]) && RecordOk(s.all[j]);
  }

  /**
    `options.close` is called at most once per generation, only on its own handle, and always
    once the generation is retired and has one; a forced close only follows a graceful one.
  */
  lemma ClosedExactlyOnceWhenRetired<T>(events: seq<Event<T>>, i: nat)
    requires i < |Run(Init<T>(), events).all|
    ensures var r := Run(Init<T>(), events).all[i];
      && (r.closed == [] || (r.launch.Fulfilled? && r.closed == [r.launch.value]))
      && (r.closed != [] <==> r.retired && r.launch.Fulfilled?)
      && (r.forced == [] || r.forced == r.closed)
  {
    RunKeepsInv(Init<T>(), events);
    assert RecordOk(Run(Init<T>(), events).all[i]);
  }

  /** A generation is in the set exactly while its launch is pending or its handle's close is unfinished. */
  lemma LiveExactlyWhileUnsettled<T>(events: seq<Event<T>>, i: nat)
    ensures var s := Run(Init<T>(), events);
      i in s.live <==>
        i < |s.all| && s.all[i].launch != Rejected && !(s.all[i].launch.Fulfilled? && s.all[i].closing == Finished)
  {
    RunKeepsInv(Init<T>(), events);
  }

  /** What a step after `close` has begun can change. */
  lemma StepAfterClose<T>(s: State<T>, e: Event<T>)
    requires Inv(s) && s.aborted
    ensures var t := Next(s, e);
      && t.aborted && |t.all| == |s.all| && |t.waiters| == |s.waiters|
      && (forall w :: 0 <= w < |t.waiters| && t.waiters[w].outcome.Returned? ==> t.waiters[w] == s.waiters[w])
      && (forall i :: 0 <= i < |t.all| && t.all[i].launch == Scheduled ==> s.all[i].launch == Scheduled)
  {
    if Enabled(s, e) && e.Resume? {
      var g := s.waiters[e.waiter].generation;
      assert RecordOk(s.all[g]);
    }
  }

  /**
    Once `close` has begun no generation is ever started and no acquire returns a handle, not even
    one that was already waiting; every handle a launch has produced is being closed.
  */
  lemma {:induction false} NothingIsHandedOutAfterClose<T>(before: seq<Event<T>>, after: seq<Event<T>>)
    ensures var s := Next(Run(Init<T>(), before), BeginClose); var t := Run(s, after);
      && t.aborted && |t.all| == |s.all| && |t.waiters| == |s.waiters| == |Run(Init<T>(), before).waiters|
      && (forall w :: 0 <= w < |t.waiters| && t.waiters[w].outcome.Returned? ==>
            t.waiters[w] == Run(Init<T>(), before).waiters[w])
      && (forall i :: 0 <= i < |t.all| && t.all[i].launch.Fulfilled? ==> t.all[i].closed == [t.all[i].launch.value])
      && (forall i :: 0 <= i < |t.all| && t.all[i].launch == Scheduled ==> s.all[i].launch == Scheduled)
    decreases |after|
  {
    RunKeepsInv(Init<T>(), before);
    NextKeepsInv(Run(Init<T>(), before), BeginClose);
    var s := Next(Run(Init<T>(), before), BeginClose);
    RunKeepsInv(s, after);
    if after != [] {
      var shorter := after[..|after| - 1];
      NothingIsHandedOutAfterClose(before, shorter);
      RunKeepsInv(s, shorter);
      StepAfterClose(Run(s, shorter), after[|after| - 1]);
    }
    forall i | 0 <= i < |Run(s, after).all|
      ensures var r := Run(s, after).all[i]; r.launch.Fulfilled? ==> r.closed == [r.launch.value]
    {
      assert RecordOk(Run(s, after).all[i]);
    }
  }

  /**
    `options.launch` itself may still be called after `close` has begun, because it runs in a
    microtask of its own. It is called for exactly the generations whose microtask was still
    queued when `close` began.
  */
  lemma LaunchCalledAfterCloseIff<T>(before: seq<Event<T>>, g: nat)
    ensures var s := Next(Run(Init<T>(), before), BeginClose);
      (exists after: seq<Event<T>> :: Enabled(Run(s, after), CallLaunch(g)))
      <==> g < |s.all| && s.all[g].launch == Scheduled
  {
    var s := Next(Run(Init<T>(), before), BeginClose);
    if g < |s.all| && s.all[g].launch == Scheduled {
      assert Run(s, []) == s;
      assert Enabled(Run(s, []), CallLaunch(g));
    }
    forall after: seq<Event<T>> | Enabled(Run(s, after), CallLaunch(g))
      ensures g < |s.all| && s.all[g].launch == Scheduled
    {
      NothingIsHandedOutAfterClose(before, after);
    }
  }

  /** The shortest run in which it is: `acquire` and `close` in one turn of the event loop. */
  lemma LaunchCalledAfterClose<T>()
    ensures var s := Run(Init<T>(), [Acquire(true), BeginClose, CallLaunch(0)]);
      s.aborted && |s.all| == 1 && s.all[0].launch == Running && s.all[0].retired
  {
    var events: seq<Event<T>> := [Acquire(true), BeginClose, CallLaunch(0)];
    assert events[..2] == [Acquire(true), BeginClose];
    assert events[..2][..1] == [Acquire(true)];
    assert events[..2][..1][..0] == [];
    assert Run(Init<T>(), []) == Init<T>();
    var first := Next(Init<T>(), Acquire(true));
    assert Run(Init<T>(), [Acquire(true)]) == first by {
      var acquire: Event<T> := Acquire(true);
      assert [acquire][..0] == [];
    }
    assert first.all[0] == Record(Scheduled, None, false, NotStarted, [], []);
    var second := Next(first, BeginClose);
    assert Run(Init<T>(), events[..2]) == second;
    assert second.all[0] == RetireRecord(first.all[0]);
  }

  // ----- Draining -----

  /** How many launch and close answers a generation still waits for, at most. */
  function Outstanding<T>(r: Record<T>): nat {
    match r.launch
    case Scheduled => 4
    case Running => 3
    case Rejected => 0
    case Fulfilled(_) =>
      match r.closing
      case NotStarted => 2
      case Graceful => 2
      case Forced => 1
      case Finished => 0
  }

  function TotalOutstanding<T>(all: seq<Record<T>>): nat {
    if all == [] then 0 else TotalOutstanding(all[..|all| - 1]) + Outstanding(all[|all| - 1])
  }

  /** The environment answers: a launch is called or settles, or a close settles. */
  predicate Answers<T(==)>(s: State<T>, e: Event<T>) {
    && Enabled(s, e)
    && (|| e.CallLaunch? || e.LaunchFulfilled? || e.LaunchRejected?
        || e.CloseResolved? || e.CloseFailed? || e.ForceSettled?)
  }

  function AnswerCount<T(==)>(s: State<T>, events: seq<Event<T>>): nat
    decreases |events|
  {
    if events == [] then 0 else
    var shorter := events[..|events| - 1];
    AnswerCount(s, shorter) + if Answers(Run(s, shorter), events[|events| - 1]) then 1 else 0
  }

  lemma StepOutstanding<T>(s: State<T>, e: Event<T>, i: nat)
    requires Inv(s) && s.aborted && i < |s.all|
    ensures |Next(s, e).all| == |s.all|
    ensures Outstanding(Next(s, e).all[i]) <= Outstanding(s.all[i])
    ensures Answers(s, e) && e.generation == i ==> Outstanding(Next(s, e).all[i]) < Outstanding(s.all[i])
  {
    StepAfterClose(s, e);
    assert RecordOk(s.all[i]);
  }

  lemma {:induction false} TotalFollows<T>(a: seq<Record<T>>, b: seq<Record<T>>, g: int)
    requires |a| == |b| && g < |a|
    requires forall i :: 0 <= i < |a| ==> Outstanding(b[i]) <= Outstanding(a[i])
    requires 0 <= g ==> Outstanding(b[g]) < Outstanding(a[g])
    ensures TotalOutstanding(b) <= TotalOutstanding(a)
    ensures 0 <= g ==> TotalOutstanding(b) < TotalOutstanding(a)
    decreases |a|
  {
    if a != [] {
      TotalFollows(a[..|a| - 1], b[..|b| - 1], if g == |a| - 1 then -1 else g);
    }
  }

  lemma {:induction false} TotalBound<T>(all: seq<Record<T>>)
    ensures TotalOutstanding(all) <= 4 * |all|
    decreases |all|
  {
    if all != [] {
      TotalBound(all[..|all| - 1]);
    }
  }

  /** An answer is taken off what is outstanding; nothing adds to it. */
  lemma AnswerIsSpent<T>(t: State<T>, e: Event<T>)
    requires Inv(t) && t.aborted
    ensures Inv(Next(t, e)) && Next(t, e).aborted
    ensures TotalOutstanding(Next(t, e).all) + (if Answers(t, e) then 1 else 0) <= TotalOutstanding(t.all)
  {
    NextKeepsInv(t, e);
    StepAfterClose(t, e);
    forall i | 0 <= i < |t.all| ensures Outstanding(Next(t, e).all[i]) <= Outstanding(t.all[i]) {
      StepOutstanding(t, e, i);
    }
    if Answers(t, e) {
      StepOutstanding(t, e, e.generation);
      TotalFollows(t.all, Next(t, e).all, e.generation);
    } else {
      TotalFollows(t.all, Next(t, e).all, -1);
    }
  }

  lemma {:induction false} AnswersAreSpent<T>(s: State<T>, events: seq<Event<T>>)
    requires Inv(s) && s.aborted
    ensures Inv(Run(s, events)) && Run(s, events).aborted
    ensures AnswerCount(s, events) + TotalOutstanding(Run(s, events).all) <= TotalOutstanding(s.all)
    decreases |events|
  {
    if events != [] {
      var shorter, e := events[..|events| - 1], events[|events| - 1];
      AnswersAreSpent(s, shorter);
      AnswerIsSpent(Run(s, shorter), e);
    }
  }

  /**
    After `close` has begun the set drains: while a generation is in it the environment still owes
    that generation an answer, and no run holds more than four answers per generation.
  */
  lemma SetDrainsAfterClose<T>(before: seq<Event<T>>, after: seq<Event<T>>)
    ensures var s := Next(Run(Init<T>(), before), BeginClose); var t := Run(s, after);
      && AnswerCount(s, after) <= 4 * |s.all|
      && (t.live != {} <==> exists e: Event<T> :: Answers(t, e))
      && (forall g :: g in t.live ==> exists e: Event<T> :: Answers(t, e) && e.generation == g)
  {
    RunKeepsInv(Init<T>(), before);
    NextKeepsInv(Run(Init<T>(), before), BeginClose);
    var s := Next(Run(Init<T>(), before), BeginClose);
    AnswersAreSpent(s, after);
    TotalBound(s.all);
    AnswersAreOwed(Run(s, after));
  }

  lemma AnswersAreOwed<T>(t: State<T>)
    requires Inv(t) && t.aborted
    ensures t.live != {} <==> exists e: Event<T> :: Answers(t, e)
    ensures forall g :: g in t.live ==> exists e: Event<T> :: Answers(t, e) && e.generation == g
  {
    forall g | g in t.live ensures exists e: Event<T> :: Answers(t, e) && e.generation == g {
      OwedAnswer(t, g);
    }
    if t.live != {} {
      var g :| g in t.live;
      OwedAnswer(t, g);
    }
    forall e: Event<T> | Answers(t, e) ensures e.generation in t.live {
      assert RecordOk(t.all[e.generation]);
    }
  }

  lemma OwedAnswer<T>(t: State<T>, g: nat)
    requires Inv(t) && t.aborted && g in t.live
    ensures exists e: Event<T> :: Answers(t, e) && e.generation == g
  {
    assert RecordOk(t.all[g]);
    var r := t.all[g];
    if r.launch.Scheduled? {
      assert Answers(t, CallLaunch(g));
    } else if r.launch.Running? {
      assert Answers(t, LaunchRejected(g));
    } else if r.closing == Graceful {
      assert Answers(t, CloseResolved(g));
    } else {
      assert Answers(t, ForceSettled(g));
    }
  }
}
