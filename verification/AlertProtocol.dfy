/**
  Alert dedupe over runs: apps/worker/src/alerting.ts for the checks of one product. An evaluation reads the dedupe
  memory and leaves triggers to send. Sending an alert and storing its memory are two awaits, so they are two steps
  here. What a channel answers, whether a write reaches the database, which check goes next and when an error or a
  killed worker ends the alerting are the environment's.
*/
module AlertProtocol {
  import opened Prelude
  import opened Decimal
  import opened AlertRules

  type Memory = map<AlertRule, AlertMemory>

  /**
    What `runPriceAlerts` still has to do for one check: `seen` is the memory its gates were evaluated on, and `sent` is
    the place in the log of its first trigger once that is delivered and not yet stored.
  */
  datatype Pending = Pending(triggers: seq<RuleTrigger>, now: int, cooldown: nat, seen: Memory, sent: Option<nat>)

  /** A delivered alert, with the cooldown its check was evaluated under, and whether its memory was stored. */
  datatype Delivered = Delivered(price: Price, at: int, cooldown: nat, stored: bool)

  datatype State = State(memory: Memory, pending: map<nat, Pending>, log: map<AlertRule, seq<Delivered>>)

  datatype Event =
    | Evaluate(check: nat, met: seq<RuleTrigger>, now: int, cooldown: nat)
    | Send(check: nat, delivered: bool)
    | Remember(check: nat, stored: bool)   // not stored: the write rejects, which ends the alerting
    | Abort(check: nat)                    // any other error, which `runAlerting` swallows, or a killed worker

  function LogOf(s: State, rule: AlertRule): seq<Delivered> { if rule in s.log then s.log[rule] else [] }

  /** The row `rememberAlert` writes. */
  function AsMemory(d: Delivered): AlertMemory { AlertMemory(Some(d.at), Some(d.price)) }

  /** The conditions some check finds met. */
  ghost predicate Possible(met: seq<RuleTrigger>) { exists input: EvaluationInput :: ConditionsMet(input) == met }

  ghost predicate Enabled(s: State, e: Event) {
    match e
    case Evaluate(check, met, _, _) => check !in s.pending && Possible(met)
    case Send(check, _) => check in s.pending && s.pending[check].triggers != [] && s.pending[check].sent.None?
    case Remember(check, _) =>
      && check in s.pending && s.pending[check].triggers != [] && s.pending[check].sent.Some?
      && s.pending[check].sent.value < |LogOf(s, s.pending[check].triggers[0].rule)|
    case Abort(check) => check in s.pending
  }

  /** On to the next trigger of a check. */
  function Advance(pending: map<nat, Pending>, check: nat): map<nat, Pending>
    requires check in pending && pending[check].triggers != []
  {
    var p := pending[check];
    if |p.triggers| == 1 then pending - {check} else pending[check := p.(triggers := p.triggers[1..], sent := None)]
  }

  ghost function SendStep(s: State, check: nat, delivered: bool): State
    requires Enabled(s, Send(check, delivered))
  {
    var p := s.pending[check];
    var rule := p.triggers[0].rule;
    var log := LogOf(s, rule);
    if !delivered then s.(pending := Advance(s.pending, check))
    else s.(
      pending := s.pending[check := p.(sent := Some(|log|))],
      log := s.log[rule := log + [Delivered(p.triggers[0].subject.price, p.now, p.cooldown, false)]])
  }

  ghost function RememberStep(s: State, check: nat, stored: bool): State
    requires Enabled(s, Remember(check, stored))
  {
    var p := s.pending[check];
    var rule, k := p.triggers[0].rule, p.sent.value;
    var log := LogOf(s, rule);
    if !stored then s.(pending := s.pending - {check})
    else State(
      s.memory[rule := AlertMemory(Some(p.now), Some(p.triggers[0].subject.price))],
      Advance(s.pending, check),
      s.log[rule := log[k := log[k].(stored := true)]])
  }

  ghost function Next(s: State, e: Event): State {
    if !Enabled(s, e) then s else
    match e
    case Evaluate(check, met, now, cooldown) =>
      var triggers := Firing(met, s.memory, now, cooldown);
      if triggers == [] then s
      else s.(pending := s.pending[check := Pending(triggers, now, cooldown, s.memory, None)])
    case Send(check, delivered) => SendStep(s, check, delivered)
    case Remember(check, stored) => RememberStep(s, check, stored)
    case Abort(check) => s.(pending := s.pending - {check})
  }

  function Init(): State { State(map[], map[], map[]) }

  ghost function Run(s: State, events: seq<Event>): State
    decreases |events|
  {
    if events == [] then s else Next(Run(s, events[..|events| - 1]), events[|events| - 1])
  }

  lemma RunSnoc(s: State, events: seq<Event>, e: Event)
    ensures Run(s, events + [e]) == Next(Run(s, events), e)
  {
    assert (events + [e])[..|events|] == events;
  }

  // ----- What holds of every run -----

  /** A delivered alert that is not stored yet is in the log, priced as its trigger. */
  ghost predicate SentOk(s: State, c: nat)
    requires c in s.pending
  {
    var p := s.pending[c];
    p.sent.Some? ==>
      && p.triggers != [] && p.sent.value < |LogOf(s, p.triggers[0].rule)|
      && LogOf(s, p.triggers[0].rule)[p.sent.value] == Delivered(p.triggers[0].subject.price, p.now, p.cooldown, false)
  }

  ghost predicate PendingOk(s: State, c: nat)
    requires c in s.pending
  {
    var p := s.pending[c];
    p.triggers != [] && Gated(p.triggers, p.seen, p.now, p.cooldown) && SentOk(s, c)
  }

  /** Two checks never wait for the write of the same alert. */
  ghost predicate SentApart(s: State, c: nat, d: nat)
    requires c in s.pending && d in s.pending
  {
    var p, q := s.pending[c], s.pending[d];
    (c != d && p.triggers != [] && q.triggers != [] && p.triggers[0].rule == q.triggers[0].rule && p.sent.Some?) ==>
      p.sent != q.sent
  }

  ghost predicate Inv(s: State) {
    && (forall c :: c in s.pending ==> PendingOk(s, c))
    && (forall c, d :: c in s.pending && d in s.pending ==> SentApart(s, c, d))
  }

  lemma RestIsGated(triggers: seq<RuleTrigger>, seen: Memory, now: int, cooldown: nat)
    requires Gated(triggers, seen, now, cooldown)
    ensures triggers != [] ==> Gated(triggers[1..], seen, now, cooldown)
    ensures triggers != [] ==> forall t :: t in triggers[1..] ==> t.rule != triggers[0].rule
  {
    forall k | triggers != [] && 0 <= k < |triggers[1..]|
      ensures Fires(triggers[1..][k], seen, now, cooldown) && triggers[1..][k].rule != triggers[0].rule
    {
      assert triggers[1..][k] == triggers[k + 1];
    }
  }

  lemma SendKeepsPending(s: State, check: nat, delivered: bool, c: nat)
    requires Inv(s) && Enabled(s, Send(check, delivered)) && c in SendStep(s, check, delivered).pending
    ensures PendingOk(SendStep(s, check, delivered), c)
  {
    var p := s.pending[check];
    assert PendingOk(s, c);
    if c == check { RestIsGated(p.triggers, p.seen, p.now, p.cooldown); }
  }

  lemma SendKeepsInv(s: State, check: nat, delivered: bool)
    requires Inv(s) && Enabled(s, Send(check, delivered))
    ensures Inv(SendStep(s, check, delivered))
  {
    forall c | c in SendStep(s, check, delivered).pending ensures PendingOk(SendStep(s, check, delivered), c) {
      SendKeepsPending(s, check, delivered, c);
    }
    SendKeepsApart(s, check, delivered);
  }

  lemma SendKeepsApart(s: State, check: nat, delivered: bool)
    requires Inv(s) && Enabled(s, Send(check, delivered))
    ensures var t := SendStep(s, check, delivered);
      forall c, d :: c in t.pending && d in t.pending ==> SentApart(t, c, d)
  {
    var t := SendStep(s, check, delivered);
    forall c, d | c in t.pending && d in t.pending ensures SentApart(t, c, d) {
      assert SentApart(s, c, d) && SentOk(s, c) && SentOk(s, d) by { assert PendingOk(s, c) && PendingOk(s, d); }
    }
  }

  /** The write of one check marks no alert another one still waits to store. */
  lemma RememberKeepsOther(s: State, check: nat, stored: bool, c: nat)
    requires Inv(s) && Enabled(s, Remember(check, stored)) && c in s.pending && c != check
    ensures c in RememberStep(s, check, stored).pending && PendingOk(RememberStep(s, check, stored), c)
  {
    assert PendingOk(s, c) && SentApart(s, c, check);
  }

  lemma RememberKeepsPending(s: State, check: nat, stored: bool, c: nat)
    requires Inv(s) && Enabled(s, Remember(check, stored)) && c in RememberStep(s, check, stored).pending
    ensures PendingOk(RememberStep(s, check, stored), c)
  {
    if c == check {
      var p := s.pending[check];
      assert PendingOk(s, c);
      RestIsGated(p.triggers, p.seen, p.now, p.cooldown);
    } else {
      RememberKeepsOther(s, check, stored, c);
    }
  }

  lemma RememberKeepsInv(s: State, check: nat, stored: bool)
    requires Inv(s) && Enabled(s, Remember(check, stored))
    ensures Inv(RememberStep(s, check, stored))
  {
    forall c | c in RememberStep(s, check, stored).pending ensures PendingOk(RememberStep(s, check, stored), c) {
      RememberKeepsPending(s, check, stored, c);
    }
    RememberKeepsApart(s, check, stored);
  }

  lemma RememberKeepsApart(s: State, check: nat, stored: bool)
    requires Inv(s) && Enabled(s, Remember(check, stored))
    ensures var t := RememberStep(s, check, stored);
      forall c, d :: c in t.pending && d in t.pending ==> SentApart(t, c, d)
  {
    var t := RememberStep(s, check, stored);
    forall c, d | c in t.pending && d in t.pending ensures SentApart(t, c, d) {
      assert SentApart(s, c, d);
    }
  }

  lemma EvaluateKeepsPending(s: State, e: Event, c: nat)
    requires Inv(s) && e.Evaluate? && Enabled(s, e) && c in Next(s, e).pending
    ensures PendingOk(Next(s, e), c)
  {
    if c in s.pending {
      assert PendingOk(s, c);
    } else {
      var input: EvaluationInput :| ConditionsMet(input) == e.met;
      ConditionsAreDistinct(input);
      FiringIsGated(e.met, s.memory, e.now, e.cooldown);
    }
  }

  lemma EvaluateKeepsInv(s: State, e: Event)
    requires Inv(s) && e.Evaluate? && Enabled(s, e)
    ensures Inv(Next(s, e))
  {
    forall c | c in Next(s, e).pending ensures PendingOk(Next(s, e), c) {
      EvaluateKeepsPending(s, e, c);
    }
    forall c, d | c in Next(s, e).pending && d in Next(s, e).pending ensures SentApart(Next(s, e), c, d) {
      assert c in s.pending && d in s.pending ==> SentApart(s, c, d);
    }
  }

  lemma AbortKeepsInv(s: State, check: nat)
    requires Inv(s)
    ensures Inv(s.(pending := s.pending - {check}))
  {
    var t := s.(pending := s.pending - {check});
    forall c | c in t.pending ensures PendingOk(t, c) {
      assert PendingOk(s, c);
    }
    forall c, d | c in t.pending && d in t.pending ensures SentApart(t, c, d) {
      assert SentApart(s, c, d);
    }
  }

  lemma NextKeepsInv(s: State, e: Event)
    requires Inv(s)
    ensures Inv(Next(s, e))
  {
    if Enabled(s, e) {
      match e {
        case Evaluate(_, _, _, _) => EvaluateKeepsInv(s, e);
        case Send(check, delivered) => SendKeepsInv(s, check, delivered);
        case Remember(check, stored) => RememberKeepsInv(s, check, stored);
        case Abort(check) => AbortKeepsInv(s, check);
      }
    }
  }

  lemma {:induction false} RunKeepsInv(events: seq<Event>)
    ensures Inv(Run(Init(), events))
    decreases |events|
  {
    if events != [] {
      RunKeepsInv(events[..|events| - 1]);
      NextKeepsInv(Run(Init(), events[..|events| - 1]), events[|events| - 1]);
    }
  }

  // ----- Accounting -----

  /** A step that delivers an alert of a rule. */
  ghost predicate Delivers(s: State, e: Event, rule: AlertRule) {
    e.Send? && e.delivered && Enabled(s, e) && s.pending[e.check].triggers[0].rule == rule
  }

  /** A step that stores the memory of one. */
  ghost predicate Stores(s: State, e: Event, rule: AlertRule) {
    e.Remember? && e.stored && Enabled(s, e) && s.pending[e.check].triggers[0].rule == rule
  }

  ghost function Deliveries(events: seq<Event>, rule: AlertRule): nat {
    if events == [] then 0
    else
      var front := events[..|events| - 1];
      Deliveries(front, rule) + if Delivers(Run(Init(), front), events[|events| - 1], rule) then 1 else 0
  }

  ghost function Writes(events: seq<Event>, rule: AlertRule): nat {
    if events == [] then 0
    else
      var front := events[..|events| - 1];
      Writes(front, rule) + if Stores(Run(Init(), front), events[|events| - 1], rule) then 1 else 0
  }

  /** Which alerts of a log are marked as stored. */
  function Marks(log: seq<Delivered>): seq<bool> { seq(|log|, k requires 0 <= k < |log| => log[k].stored) }

  function Stored(s: State, rule: AlertRule): nat { multiset(Marks(LogOf(s, rule)))[true] }

  lemma AppendUnmarked(marks: seq<bool>)
    ensures multiset(marks + [false])[true] == multiset(marks)[true]
  {
  }

  lemma SetMark(marks: seq<bool>, k: nat)
    requires k < |marks| && !marks[k]
    ensures multiset(marks[k := true])[true] == multiset(marks)[true] + 1
  {
  }

  lemma DeliveryAccounts(s: State, e: Event, rule: AlertRule)
    requires Delivers(s, e, rule)
    ensures |LogOf(Next(s, e), rule)| == |LogOf(s, rule)| + 1
    ensures Stored(Next(s, e), rule) == Stored(s, rule)
  {
    assert Marks(LogOf(Next(s, e), rule)) == Marks(LogOf(s, rule)) + [false];
    AppendUnmarked(Marks(LogOf(s, rule)));
  }

  lemma WriteAccounts(s: State, e: Event, rule: AlertRule)
    requires Inv(s) && Stores(s, e, rule)
    ensures |LogOf(Next(s, e), rule)| == |LogOf(s, rule)|
    ensures Stored(Next(s, e), rule) == Stored(s, rule) + 1
  {
    assert PendingOk(s, e.check);
    var k := s.pending[e.check].sent.value;
    assert Marks(LogOf(Next(s, e), rule)) == Marks(LogOf(s, rule))[k := true];
    SetMark(Marks(LogOf(s, rule)), k);
  }

  lemma StepAccounts(s: State, e: Event, rule: AlertRule)
    requires Inv(s)
    ensures |LogOf(Next(s, e), rule)| == |LogOf(s, rule)| + if Delivers(s, e, rule) then 1 else 0
    ensures Stored(Next(s, e), rule) == Stored(s, rule) + if Stores(s, e, rule) then 1 else 0
  {
    if Delivers(s, e, rule) {
      DeliveryAccounts(s, e, rule);
    } else if Stores(s, e, rule) {
      WriteAccounts(s, e, rule);
    } else {
      assert LogOf(Next(s, e), rule) == LogOf(s, rule);
    }
  }

  /**
    Over every run the log of a rule holds one entry for each successful send and nothing else, so a failed delivery
    leaves no trace; and as many of them are marked as stored as writes of the memory succeeded.
  */
  lemma {:induction false} LogCountsDeliveries(events: seq<Event>, rule: AlertRule)
    ensures |LogOf(Run(Init(), events), rule)| == Deliveries(events, rule)
    ensures Stored(Run(Init(), events), rule) == Writes(events, rule)
    decreases |events|
  {
    if events != [] {
      var front := events[..|events| - 1];
      LogCountsDeliveries(front, rule);
      RunKeepsInv(front);
      StepAccounts(Run(Init(), front), events[|events| - 1], rule);
    }
  }

  // ----- When an outdated memory does no harm -----

  /** What the gate asks of two alerts of one rule that follow each other. */
  predicate Follows(earlier: Delivered, later: Delivered) {
    Minor(later.price) < Minor(earlier.price) || later.at - earlier.at > later.cooldown
  }

  ghost predicate Deduped(log: seq<Delivered>) {
    forall k :: 0 < k < |log| ==> Follows(log[k - 1], log[k])
  }

  predicate NeverAlerted(memory: Option<AlertMemory>) { memory.None? || memory.value.lastAlertedAt.None? }

  /** A gate on `earlier` lets through no more than one on `current`. */
  predicate AtLeastAsStrict(earlier: Option<AlertMemory>, current: Option<AlertMemory>) {
    || NeverAlerted(current)
    || (&& !NeverAlerted(earlier)
        && earlier.value.lastAlertedAt.value >= current.value.lastAlertedAt.value
        && (earlier.value.lastAlertedPrice.Some? ==>
              && current.value.lastAlertedPrice.Some?
              && Minor(earlier.value.lastAlertedPrice.value) <= Minor(current.value.lastAlertedPrice.value)))
  }

  /** A price below another one. */
  lemma LowerPrice(price: Price) returns (lower: Price)
    ensures Minor(lower) < Minor(price)
  {
    MinorUnitsRoundTrip(Minor(price) - 1);
    lower := FromMinorUnits(Minor(price) - 1);
  }

  lemma StricterGate(earlier: Option<AlertMemory>, current: Option<AlertMemory>, price: Price, now: int, cooldown: int)
    requires AtLeastAsStrict(earlier, current) && ShouldFire(price, earlier, now, cooldown)
    ensures ShouldFire(price, current, now, cooldown)
  {
  }

  /**
    Over all prices and times, a gate evaluated on one memory lets through only what another one would, exactly when it
    is at least as strict; either memory may be absent, as before a first alert.
  */
  lemma StaleMemoryIsHarmlessIff(earlier: Option<AlertMemory>, current: Option<AlertMemory>, cooldown: int)
    ensures
      (forall price: Price, now: int ::
         ShouldFire(price, earlier, now, cooldown) ==> ShouldFire(price, current, now, cooldown))
      <==> AtLeastAsStrict(earlier, current)
  {
    if AtLeastAsStrict(earlier, current) {
      forall price: Price, now: int | ShouldFire(price, earlier, now, cooldown)
        ensures ShouldFire(price, current, now, cooldown)
      {
        StricterGate(earlier, current, price, now, cooldown);
      }
    } else {
      var at := current.value.lastAlertedAt.value;
      var price: Price := "0";
      if current.value.lastAlertedPrice.Some? {
        price := current.value.lastAlertedPrice.value;
      } else if !NeverAlerted(earlier) && earlier.value.lastAlertedPrice.Some? {
        price := LowerPrice(earlier.value.lastAlertedPrice.value);
      }
      assert ShouldFire(price, earlier, at + cooldown, cooldown);
      assert !ShouldFire(price, current, at + cooldown, cooldown);
    }
  }

  // ----- Any interleaving -----

  /** The alert of a rule delivered last, as a memory: the stored one, unless its write is outstanding or lost. */
  function LastAlert(log: seq<Delivered>): Option<AlertMemory> {
    if log == [] then None else Some(AsMemory(log[|log| - 1]))
  }

  /** An alert of the rule is only delivered on a gate at least as strict as one on the alert before it. */
  ghost predicate DeliversCurrent(s: State, e: Event, rule: AlertRule) {
    Delivers(s, e, rule) ==> AtLeastAsStrict(MemoryOf(s.pending[e.check].seen, rule), LastAlert(LogOf(s, rule)))
  }

  lemma GateIsFollows(last: Delivered, d: Delivered)
    ensures ShouldFire(d.price, Some(AsMemory(last)), d.at, d.cooldown) <==> Follows(last, d)
  {
  }

  lemma DeliveryAppends(s: State, e: Event, rule: AlertRule) returns (d: Delivered)
    requires Inv(s) && Delivers(s, e, rule)
    ensures LogOf(Next(s, e), rule) == LogOf(s, rule) + [d] && !d.stored
    ensures ShouldFire(d.price, MemoryOf(s.pending[e.check].seen, rule), d.at, d.cooldown)
  {
    var p := s.pending[e.check];
    assert PendingOk(s, e.check) && Fires(p.triggers[0], p.seen, p.now, p.cooldown);
    d := Delivered(p.triggers[0].subject.price, p.now, p.cooldown, false);
  }

  lemma AppendDeduped(log: seq<Delivered>, d: Delivered)
    requires Deduped(log) && (log != [] ==> Follows(log[|log| - 1], d))
    ensures Deduped(log + [d])
  {
  }

  lemma GateKeepsDeduped(log: seq<Delivered>, seen: Option<AlertMemory>, d: Delivered)
    requires Deduped(log) && AtLeastAsStrict(seen, LastAlert(log)) && ShouldFire(d.price, seen, d.at, d.cooldown)
    ensures Deduped(log + [d])
  {
    if log != [] {
      StricterGate(seen, LastAlert(log), d.price, d.at, d.cooldown);
      GateIsFollows(log[|log| - 1], d);
    }
    AppendDeduped(log, d);
  }

  lemma DeliveryKeepsDeduped(s: State, e: Event, rule: AlertRule)
    requires Inv(s) && Delivers(s, e, rule) && DeliversCurrent(s, e, rule) && Deduped(LogOf(s, rule))
    ensures Deduped(LogOf(Next(s, e), rule))
  {
    var d := DeliveryAppends(s, e, rule);
    GateKeepsDeduped(LogOf(s, rule), MemoryOf(s.pending[e.check].seen, rule), d);
  }

  ghost predicate DifferInStored(a: seq<Delivered>, b: seq<Delivered>) {
    |a| == |b| && forall k :: 0 <= k < |a| ==> b[k] == a[k].(stored := b[k].stored)
  }

  lemma StoringDiffers(log: seq<Delivered>, k: nat)
    requires k < |log|
    ensures DifferInStored(log, log[k := log[k].(stored := true)]) && DifferInStored(log, log)
  {
  }

  lemma SameButStored(s: State, e: Event, rule: AlertRule)
    requires !Delivers(s, e, rule)
    ensures DifferInStored(LogOf(s, rule), LogOf(Next(s, e), rule))
  {
    if Stores(s, e, rule) {
      StoringDiffers(LogOf(s, rule), s.pending[e.check].sent.value);
    } else {
      assert LogOf(Next(s, e), rule) == LogOf(s, rule);
    }
  }

  ghost predicate AllCurrent(events: seq<Event>, rule: AlertRule) {
    forall k :: 0 <= k < |events| ==> DeliversCurrent(Run(Init(), events[..k]), events[k], rule)
  }

  lemma CurrentFront(events: seq<Event>, rule: AlertRule)
    requires AllCurrent(events, rule) && events != []
    ensures AllCurrent(events[..|events| - 1], rule)
    ensures DeliversCurrent(Run(Init(), events[..|events| - 1]), events[|events| - 1], rule)
  {
    var front := events[..|events| - 1];
    forall k | 0 <= k < |front| ensures DeliversCurrent(Run(Init(), front[..k]), front[k], rule) {
      assert front[..k] == events[..k];
    }
  }

  lemma StepKeepsDeduped(s: State, e: Event, rule: AlertRule)
    requires Inv(s) && Deduped(LogOf(s, rule)) && DeliversCurrent(s, e, rule)
    ensures Deduped(LogOf(Next(s, e), rule))
  {
    if Delivers(s, e, rule) {
      DeliveryKeepsDeduped(s, e, rule);
    } else {
      SameButStored(s, e, rule);
    }
  }

  /**
    Over every run in which each alert of a rule is delivered on a gate at least as strict as one on the alert before
    it, whatever overlaps and whatever writes are lost: of two consecutive alerts the later is strictly cheaper in minor
    units or past the cooldown. `StaleMemoryIsHarmlessIff` says that a weaker gate lets a price through that is neither.
  */
  lemma {:induction false} AlertsAreDeduped(events: seq<Event>, rule: AlertRule)
    requires AllCurrent(events, rule)
    ensures Deduped(LogOf(Run(Init(), events), rule))
    decreases |events|
  {
    if events != [] {
      var front := events[..|events| - 1];
      CurrentFront(events, rule);
      AlertsAreDeduped(front, rule);
      RunKeepsInv(front);
      StepKeepsDeduped(Run(Init(), front), events[|events| - 1], rule);
    }
  }

  // ----- The stored rows -----

  /** What becomes of one trigger: not delivered, delivered and stored, or delivered while its write rejects. */
  datatype Fate = Failed | Saved | Lost

  ghost function Apply(s: State, check: nat, fate: Fate): State {
    match fate
    case Failed => Next(s, Send(check, false))
    case Saved => Next(Next(s, Send(check, true)), Remember(check, true))
    case Lost => Next(Next(s, Send(check, true)), Remember(check, false))
  }

  /** The triggers of one check, one after the other; behind a lost write nothing is enabled any more. */
  ghost function Served(s: State, check: nat, fates: seq<Fate>, n: nat): State
    requires n <= |fates|
  {
    if n == 0 then s else Apply(Served(s, check, fates, n - 1), check, fates[n - 1])
  }

  lemma {:induction false} ServedStops(s: State, check: nat, fates: seq<Fate>, i: nat, n: nat)
    requires i <= n <= |fates| && check !in Served(s, check, fates, i).pending
    ensures Served(s, check, fates, n) == Served(s, check, fates, i)
    decreases n
  {
    if i < n { ServedStops(s, check, fates, i, n - 1); }
  }

  /** `triggers` from `i` on are what a check still has to send. */
  ghost predicate Sends(s: State, check: nat, p: Pending, i: nat)
    requires i <= |p.triggers|
  {
    if i == |p.triggers| then check !in s.pending
    else check in s.pending && s.pending[check] == p.(triggers := p.triggers[i..])
  }

  lemma ApplySends(s: State, check: nat, p: Pending, i: nat, fate: Fate)
    requires p.sent.None? && i < |p.triggers| && Sends(s, check, p, i)
    ensures var t := Apply(s, check, fate);
      && (if fate == Lost then check !in t.pending else Sends(t, check, p, i + 1))
      && t.memory == if fate == Saved
           then s.memory[p.triggers[i].rule := AlertMemory(Some(p.now), Some(p.triggers[i].subject.price))]
           else s.memory
  {
    assert p.triggers[i..][1..] == p.triggers[i + 1..];
    var sent := Next(s, Send(check, true));
    assert Enabled(s, Send(check, true)) && Enabled(s, Send(check, false)) && Enabled(sent, Remember(check, true));
  }

  class AlertState {
    var rows: Memory
    ghost var protocol: State

    ghost predicate Valid()
      reads this
    {
      protocol.memory == rows
    }

    /** `runPriceAlerts` behind `loadMemory`; a write that rejects ends it. */
    method RunPriceAlerts(check: nat, input: EvaluationInput, fates: seq<Fate>)
      requires Valid() && check !in protocol.pending
      requires |fates| == |EvaluateAlerts(input, rows)|
      modifies this
      ensures Valid() && check !in protocol.pending
      ensures var start := Next(old(protocol), Evaluate(check, ConditionsMet(input), input.now, input.cooldown));
        protocol == Served(start, check, fates, |fates|)
    {
      var triggers := EvaluateAlerts(input, rows);
      ghost var p := Pending(triggers, input.now, input.cooldown, rows, None);
      protocol := Next(protocol, Evaluate(check, ConditionsMet(input), input.now, input.cooldown));
      ghost var start := protocol;
      for i := 0 to |triggers|
        invariant Valid() && protocol == Served(start, check, fates, i)
        invariant Sends(protocol, check, p, i)
      {
        ApplySends(protocol, check, p, i, fates[i]);
        protocol := Apply(protocol, check, fates[i]);
        if fates[i] != Failed {
          if fates[i] == Lost {
            ServedStops(start, check, fates, i + 1, |fates|);
            return;
          }
          rows := rows[triggers[i].rule := AlertMemory(Some(input.now), Some(triggers[i].subject.price))];
        }
      }
    }
  }
}
