/** The runs that send an alert twice: a write that is lost, and checks of one product that overlap. */
module RepeatedAlerts {
  import opened Prelude
  import opened Decimal
  import opened AlertRules
  import opened AlertProtocol
  import opened SerialAlerts

  // ----- Lost writes -----

  /** A trigger a check can find: a restock needs an observation in stock. */
  predicate CanBeMet(t: RuleTrigger) { t.rule == Restock ==> t.subject.inStock == Some(true) }

  /** What such a check finds: the rule is on, and its condition is met on this subject. */
  function Finding(t: RuleTrigger): EvaluationInput {
    MinorUnitsRoundTrip(1);
    var fall := if t.rule == DropPercent then Some((1 - Minor(t.subject.price)) * 100) else None;
    EvaluationInput(
      Some(t.subject), AlertConfig(fall, {t.rule}, Some(t.subject.price)), 0, t.subject, 0,
      Some(Observation(Some(false), FromMinorUnits(1))))
  }

  lemma FindingDrops(t: RuleTrigger)
    requires t.rule == DropPercent
    ensures var input := Finding(t); DropMet(input.config, input.latest, input.previous)
  {
    var before := Finding(t).previous.value.price;
    assert Minor(before) == 1 by { MinorUnitsRoundTrip(1); }
    FallsBy(Minor(before), Minor(t.subject.price));
  }

  lemma FallsBy(before: int, after: int)
    requires before == 1
    ensures (before - after) * 100 >= (1 - after) * 100 * before
  {
  }

  lemma FindingMeets(t: RuleTrigger)
    requires CanBeMet(t)
    ensures ConditionsMet(Finding(t)) == [t]
  {
    var input := Finding(t);
    if t.rule == DropPercent {
      FindingDrops(t);
    } else if t.rule == Target {
      assert TargetMet(input.config, input.cheapest);
    } else {
      assert RestockMet(input.latest, input.previous);
    }
  }

  lemma MetIsFound(t: RuleTrigger)
    requires Possible([t])
    ensures CanBeMet(t)
  {
    var input: EvaluationInput :| ConditionsMet(input) == [t];
    ConditionsAre(input, t);
    assert t in [t];
  }

  /** Exactly these triggers can be all that a check finds. */
  lemma MetAloneIff(t: RuleTrigger)
    ensures Possible([t]) <==> CanBeMet(t)
  {
    if CanBeMet(t) { FindingMeets(t); }
    if Possible([t]) { MetIsFound(t); }
  }

  /** A check with one trigger to send. */
  function Single(t: RuleTrigger, now: int, cooldown: nat, seen: Memory, sent: Option<nat>): Pending {
    Pending([t], now, cooldown, seen, sent)
  }

  function Unstored(t: RuleTrigger, now: int, cooldown: nat): Delivered {
    Delivered(t.subject.price, now, cooldown, false)
  }

  lemma EvaluateFinds(s: State, check: nat, t: RuleTrigger, now: int, cooldown: nat)
    requires check !in s.pending && CanBeMet(t) && Fires(t, s.memory, now, cooldown)
    ensures Next(s, Evaluate(check, [t], now, cooldown))
      == s.(pending := s.pending[check := Single(t, now, cooldown, s.memory, None)])
  {
    MetAloneIff(t);
    assert [t][1..] == [] && [t] + [] == [t];
    assert Firing([t], s.memory, now, cooldown) == [t];
  }

  lemma SendDelivers(s: State, check: nat, t: RuleTrigger, now: int, cooldown: nat, seen: Memory)
    requires check in s.pending && s.pending[check] == Single(t, now, cooldown, seen, None)
    ensures var log := LogOf(s, t.rule);
      Next(s, Send(check, true)) == s.(
        pending := s.pending[check := Single(t, now, cooldown, seen, Some(|log|))],
        log := s.log[t.rule := log + [Unstored(t, now, cooldown)]])
  {
  }

  /** A check that delivers what it finds. */
  function FindAndSend(check: nat, t: RuleTrigger, now: int, cooldown: nat): seq<Event> {
    [Evaluate(check, [t], now, cooldown), Send(check, true)]
  }

  /** A quiet state behind those two steps. */
  function Found(s: State, check: nat, t: RuleTrigger, now: int, cooldown: nat): State {
    var log := LogOf(s, t.rule);
    s.(pending := map[check := Single(t, now, cooldown, s.memory, Some(|log|))],
       log := s.log[t.rule := log + [Unstored(t, now, cooldown)]])
  }

  lemma RunIs(events: seq<Event>, e: Event, s: State, t: State)
    requires Run(Init(), events) == s && Next(s, e) == t
    ensures Run(Init(), events + [e]) == t
  {
    RunSnoc(Init(), events, e);
  }

  lemma RunTwo(events: seq<Event>, d: Event, e: Event, s: State, t: State, u: State)
    requires Run(Init(), events) == s && Next(s, d) == t && Next(t, e) == u
    ensures Run(Init(), events + [d, e]) == u
  {
    RunIs(events, d, s, t);
    RunIs(events + [d], e, t, u);
    assert events + [d] + [e] == events + [d, e];
  }

  /** A quiet state with one check evaluated. */
  function Waiting(s: State, check: nat, t: RuleTrigger, now: int, cooldown: nat): State {
    s.(pending := map[check := Single(t, now, cooldown, s.memory, None)])
  }

  lemma FirstWaits(s: State, check: nat, t: RuleTrigger, now: int, cooldown: nat)
    requires s.pending == map[] && CanBeMet(t) && Fires(t, s.memory, now, cooldown)
    ensures Next(s, Evaluate(check, [t], now, cooldown)) == Waiting(s, check, t, now, cooldown)
  {
    EvaluateFinds(s, check, t, now, cooldown);
    assert s.pending[check := Single(t, now, cooldown, s.memory, None)]
      == map[check := Single(t, now, cooldown, s.memory, None)];
  }

  lemma WaitingSends(s: State, check: nat, t: RuleTrigger, now: int, cooldown: nat)
    ensures Next(Waiting(s, check, t, now, cooldown), Send(check, true)) == Found(s, check, t, now, cooldown)
  {
    var w := Waiting(s, check, t, now, cooldown);
    SendDelivers(w, check, t, now, cooldown, s.memory);
    assert w.pending[check := Single(t, now, cooldown, s.memory, Some(|LogOf(s, t.rule)|))]
      == Found(s, check, t, now, cooldown).pending;
  }

  lemma FindAndSendDelivers(events: seq<Event>, check: nat, t: RuleTrigger, now: int, cooldown: nat)
    requires var s := Run(Init(), events); s.pending == map[] && CanBeMet(t) && Fires(t, s.memory, now, cooldown)
    ensures Run(Init(), events + FindAndSend(check, t, now, cooldown))
      == Found(Run(Init(), events), check, t, now, cooldown)
  {
    var s := Run(Init(), events);
    FirstWaits(s, check, t, now, cooldown);
    WaitingSends(s, check, t, now, cooldown);
    RunTwo(events, Evaluate(check, [t], now, cooldown), Send(check, true),
      s, Waiting(s, check, t, now, cooldown), Found(s, check, t, now, cooldown));
  }

  lemma FindAndSendIsSerial(events: seq<Event>, check: nat, t: RuleTrigger, now: int, cooldown: nat)
    requires Serial(events) && Run(Init(), events).pending == map[]
    ensures Serial(events + FindAndSend(check, t, now, cooldown))
  {
    var evaluate, send := Evaluate(check, [t], now, cooldown), Send(check, true);
    SerialSnoc(events, evaluate);
    SerialSnoc(events + [evaluate], send);
    assert events + FindAndSend(check, t, now, cooldown) == events + [evaluate] + [send];
  }

  lemma SerialSnoc(events: seq<Event>, e: Event)
    requires Serial(events) && (e.Evaluate? ==> Run(Init(), events).pending == map[])
    ensures Serial(events + [e])
  {
    var longer := events + [e];
    forall k | 0 <= k < |longer| && longer[k].Evaluate? ensures Run(Init(), longer[..k]).pending == map[] {
      assert longer[..k] == if k < |events| then events[..k] else events;
    }
  }

  predicate WritesTo(p: Pending, rule: AlertRule) { p.sent.Some? && p.triggers != [] && p.triggers[0].rule == rule }

  /** `log` is how the log of a rule began, and no write to that part of it is outstanding. */
  ghost predicate Extends(s: State, rule: AlertRule, log: seq<Delivered>) {
    && log <= LogOf(s, rule)
    && (forall c :: c in s.pending && WritesTo(s.pending[c], rule) ==> s.pending[c].sent.value >= |log|)
  }

  lemma StepExtends(s: State, e: Event, rule: AlertRule, log: seq<Delivered>)
    requires Extends(s, rule, log)
    ensures Extends(Next(s, e), rule, log)
  {
  }

  lemma {:induction false} MoreExtends(events: seq<Event>, more: seq<Event>, rule: AlertRule)
    requires Run(Init(), events).pending == map[]
    ensures Extends(Run(Init(), events + more), rule, LogOf(Run(Init(), events), rule))
    decreases |more|
  {
    if more == [] {
      assert events + more == events;
    } else {
      var front := more[..|more| - 1];
      MoreExtends(events, front, rule);
      assert events + more == events + front + [more[|more| - 1]];
      RunSnoc(Init(), events + front, more[|more| - 1]);
      StepExtends(Run(Init(), events + front), more[|more| - 1], rule, LogOf(Run(Init(), events), rule));
    }
  }

  /** The next alert of a rule, if a run goes on to deliver one, follows the last one so far. */
  ghost predicate NextFollows(events: seq<Event>, more: seq<Event>, rule: AlertRule) {
    var log, longer := LogOf(Run(Init(), events), rule), LogOf(Run(Init(), events + more), rule);
    0 < |log| < |longer| ==> Follows(log[|log| - 1], longer[|log|])
  }

  /** An unstored alert got past the memory as it still is, so it gets past it again. */
  lemma UnstoredFiresAgain(events: seq<Event>, rule: AlertRule)
    requires Serial(events) && LogOf(Run(Init(), events), rule) != []
    ensures var s := Run(Init(), events);
      var last := LogOf(s, rule)[|LogOf(s, rule)| - 1];
      !last.stored ==> ShouldFire(last.price, MemoryOf(s.memory, rule), last.at, last.cooldown)
  {
    SerialRun(events);
    var s := Run(Init(), events);
    assert RuleOk(s, rule);
    JustifiedFollows(LogOf(s, rule), |LogOf(s, rule)| - 1);
  }

  lemma SameLast(log: seq<Delivered>, longer: seq<Delivered>)
    requires log != [] && log <= longer && |log| < |longer| && log[|log| - 1].stored
    requires longer[|log| - 1].stored ==> Follows(longer[|log| - 1], longer[|log|])
    ensures Follows(log[|log| - 1], longer[|log|])
  {
    assert longer[|log| - 1] == log[|log| - 1];
  }

  lemma StoredIsFollowed(events: seq<Event>, more: seq<Event>, rule: AlertRule)
    requires Serial(events + more) && Run(Init(), events).pending == map[] && LogOf(Run(Init(), events), rule) != []
    requires var log := LogOf(Run(Init(), events), rule); log[|log| - 1].stored
    ensures NextFollows(events, more, rule)
  {
    var log, longer := LogOf(Run(Init(), events), rule), LogOf(Run(Init(), events + more), rule);
    if |log| < |longer| {
      assert log <= longer by { MoreExtends(events, more, rule); }
      SerialAlertsFollow(events + more, rule, |log|);
      SameLast(log, longer);
    }
  }

  lemma NotFollowed(events: seq<Event>, more: seq<Event>, rule: AlertRule, d: Delivered)
    requires var log := LogOf(Run(Init(), events), rule);
      log != [] && log[|log| - 1] == d && LogOf(Run(Init(), events + more), rule) == log + [d]
    ensures !NextFollows(events, more, rule)
  {
    assert !Follows(d, d);
  }

  lemma UnstoredIsRepeated(events: seq<Event>, rule: AlertRule) returns (more: seq<Event>)
    requires Serial(events) && Run(Init(), events).pending == map[] && LogOf(Run(Init(), events), rule) != []
    requires var log := LogOf(Run(Init(), events), rule); !log[|log| - 1].stored
    ensures Serial(events + more) && !NextFollows(events, more, rule)
  {
    var s := Run(Init(), events);
    var last := LogOf(s, rule)[|LogOf(s, rule)| - 1];
    UnstoredFiresAgain(events, rule);
    var t := RuleTrigger(rule, Observation(Some(true), last.price));
    more := FindAndSend(0, t, last.at, last.cooldown);
    FindAndSendDelivers(events, 0, t, last.at, last.cooldown);
    FindAndSendIsSerial(events, 0, t, last.at, last.cooldown);
    NotFollowed(events, more, rule, last);
  }

  /**
    Between checks of a serial run, and over every serial way it can go on: the next alert is sure to be strictly
    cheaper than the last one or past the cooldown if and only if the memory of the last one was stored. A lost write
    lets the very same alert through again.
  */
  lemma NextAlertFollowsIff(events: seq<Event>, rule: AlertRule)
    requires Serial(events) && Run(Init(), events).pending == map[] && LogOf(Run(Init(), events), rule) != []
    ensures var log := LogOf(Run(Init(), events), rule);
      (forall more :: Serial(events + more) ==> NextFollows(events, more, rule)) <==> log[|log| - 1].stored
  {
    var log := LogOf(Run(Init(), events), rule);
    if log[|log| - 1].stored {
      forall more | Serial(events + more) ensures NextFollows(events, more, rule) {
        StoredIsFollowed(events, more, rule);
      }
    } else {
      var more := UnstoredIsRepeated(events, rule);
    }
  }

  /** A first check whose write is lost, and a second one that starts after the first is over. */
  function LostWrite(t: RuleTrigger, now: int, later: int, cooldown: nat): seq<Event> {
    FindAndSend(1, t, now, cooldown) + [Remember(1, false)] + FindAndSend(2, t, later, cooldown)
  }

  lemma LostWriteEnds(s: State, check: nat)
    requires Enabled(s, Remember(check, false))
    ensures Next(s, Remember(check, false)) == s.(pending := s.pending - {check})
  {
  }

  lemma NotDeduped(earlier: Delivered, later: Delivered)
    requires !Follows(earlier, later)
    ensures !Deduped([earlier, later])
  {
    var log := [earlier, later];
    assert !Follows(log[1 - 1], log[1]);
  }

  /** The first of the two checks: its alert is in the log, unstored, and nothing else is left of it. */
  lemma AfterLostWrite(t: RuleTrigger, now: int, cooldown: nat)
    requires CanBeMet(t)
    ensures var events := FindAndSend(1, t, now, cooldown) + [Remember(1, false)];
      && Serial(events) && Run(Init(), events).memory == map[] && Run(Init(), events).pending == map[]
      && LogOf(Run(Init(), events), t.rule) == [Unstored(t, now, cooldown)]
  {
    var events, lost := FindAndSend(1, t, now, cooldown), Remember(1, false);
    assert [] + events == events;
    FindAndSendDelivers([], 1, t, now, cooldown);
    FindAndSendIsSerial([], 1, t, now, cooldown);
    assert LogOf(Init(), t.rule) == [];
    assert LogOf(Init(), t.rule) + [Unstored(t, now, cooldown)] == [Unstored(t, now, cooldown)];
    LostWriteEnds(Found(Init(), 1, t, now, cooldown), 1);
    RunSnoc(Init(), events, lost);
    SerialSnoc(events, lost);
  }

  /**
    The shortest such run: two checks, one after the other, find the same within the cooldown; the write of the first
    one is lost, and both send the alert.
  */
  lemma LostWriteRepeatsAnAlert(t: RuleTrigger, now: int, later: int, cooldown: nat)
    requires CanBeMet(t) && later <= now + cooldown
    ensures var log := LogOf(Run(Init(), LostWrite(t, now, later, cooldown)), t.rule);
      && Serial(LostWrite(t, now, later, cooldown))
      && log == [Unstored(t, now, cooldown), Unstored(t, later, cooldown)] && !Deduped(log)
  {
    var events := FindAndSend(1, t, now, cooldown) + [Remember(1, false)];
    AfterLostWrite(t, now, cooldown);
    FindAndSendDelivers(events, 2, t, later, cooldown);
    FindAndSendIsSerial(events, 2, t, later, cooldown);
    NotDeduped(Unstored(t, now, cooldown), Unstored(t, later, cooldown));
  }

  // ----- Checks of one product that overlap -----

  /** Two checks of one product that are evaluated before either delivers, with no write lost. */
  function Overlap(t: RuleTrigger, now: int, cooldown: nat): seq<Event> {
    [Evaluate(1, [t], now, cooldown), Evaluate(2, [t], now, cooldown), Send(1, true), Remember(1, true), Send(2, true)]
  }

  lemma RememberStores(s: State, check: nat, t: RuleTrigger, now: int, cooldown: nat)
    requires check in s.pending && LogOf(s, t.rule) == [Unstored(t, now, cooldown)]
    requires s.pending[check] == Single(t, now, cooldown, map[], Some(0))
    ensures var after := Next(s, Remember(check, true));
      LogOf(after, t.rule) == [Unstored(t, now, cooldown).(stored := true)] && after.pending == s.pending - {check}
  {
  }

  /** The state two checks leave that were evaluated one right after the other. */
  function BothWait(t: RuleTrigger, now: int, cooldown: nat): State {
    var p := Single(t, now, cooldown, map[], None);
    State(map[], map[1 := p, 2 := p], map[])
  }

  lemma SecondWaits(t: RuleTrigger, now: int, cooldown: nat)
    requires CanBeMet(t)
    ensures Next(Waiting(Init(), 1, t, now, cooldown), Evaluate(2, [t], now, cooldown)) == BothWait(t, now, cooldown)
  {
    var w, p := Waiting(Init(), 1, t, now, cooldown), Single(t, now, cooldown, map[], None);
    EvaluateFinds(w, 2, t, now, cooldown);
    assert w.pending[2 := p] == map[1 := p, 2 := p];
  }

  lemma BothAreEvaluated(t: RuleTrigger, now: int, cooldown: nat)
    requires CanBeMet(t)
    ensures Run(Init(), Overlap(t, now, cooldown)[..2]) == BothWait(t, now, cooldown)
  {
    var one, two := Evaluate(1, [t], now, cooldown), Evaluate(2, [t], now, cooldown);
    FirstWaits(Init(), 1, t, now, cooldown);
    SecondWaits(t, now, cooldown);
    RunTwo([], one, two, Init(), Waiting(Init(), 1, t, now, cooldown), BothWait(t, now, cooldown));
    assert [] + [one, two] == Overlap(t, now, cooldown)[..2];
  }

  /** The first of them has sent its alert. */
  function FirstSent(t: RuleTrigger, now: int, cooldown: nat): State {
    var p := Single(t, now, cooldown, map[], None);
    State(map[], map[1 := p.(sent := Some(0)), 2 := p], map[t.rule := [Unstored(t, now, cooldown)]])
  }

  lemma FirstSends(t: RuleTrigger, now: int, cooldown: nat)
    ensures Next(BothWait(t, now, cooldown), Send(1, true)) == FirstSent(t, now, cooldown)
  {
    var s, p := BothWait(t, now, cooldown), Single(t, now, cooldown, map[], None);
    SendDelivers(s, 1, t, now, cooldown, map[]);
    assert s.pending[1 := p.(sent := Some(0))] == FirstSent(t, now, cooldown).pending;
    assert LogOf(s, t.rule) + [Unstored(t, now, cooldown)] == [Unstored(t, now, cooldown)];
    assert s.log[t.rule := [Unstored(t, now, cooldown)]] == FirstSent(t, now, cooldown).log;
  }

  lemma AfterFirstOfTwo(t: RuleTrigger, now: int, cooldown: nat)
    requires CanBeMet(t)
    ensures var s := Run(Init(), Overlap(t, now, cooldown)[..4]);
      && LogOf(s, t.rule) == [Unstored(t, now, cooldown).(stored := true)]
      && s.pending == map[2 := Single(t, now, cooldown, map[], None)]
  {
    var e := Overlap(t, now, cooldown);
    BothAreEvaluated(t, now, cooldown);
    FirstSends(t, now, cooldown);
    RunIs(e[..2], e[2], BothWait(t, now, cooldown), FirstSent(t, now, cooldown));
    assert e[..2] + [e[2]] == e[..3] && e[..3] + [e[3]] == e[..4];
    RunSnoc(Init(), e[..3], e[3]);
    RememberStores(FirstSent(t, now, cooldown), 1, t, now, cooldown);
    assert FirstSent(t, now, cooldown).pending - {1} == map[2 := Single(t, now, cooldown, map[], None)];
  }

  /** They send the same alert twice: the second gate was evaluated on a memory that knew of no alert. */
  lemma OverlappingChecksRepeatAnAlert(t: RuleTrigger, now: int, cooldown: nat)
    requires CanBeMet(t)
    ensures var events := Overlap(t, now, cooldown);
      var log := LogOf(Run(Init(), events), t.rule);
      && |log| == 2 && log[0].stored && log[1] == log[0].(stored := false) && !Deduped(log)
      && !DeliversCurrent(Run(Init(), events[..4]), events[4], t.rule)
  {
    var events, d := Overlap(t, now, cooldown), Unstored(t, now, cooldown);
    AfterFirstOfTwo(t, now, cooldown);
    SendDelivers(Run(Init(), events[..4]), 2, t, now, cooldown, map[]);
    RunSnoc(Init(), events[..4], events[4]);
    assert events[..4] + [events[4]] == events;
    assert LogOf(Run(Init(), events), t.rule) == [d.(stored := true), d];
    NotDeduped(d.(stored := true), d);
  }
}
