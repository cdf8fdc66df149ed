/** packages/core/src/rules/index.ts: which alerts a check triggers, and the dedupe gate in front of them. */
module AlertRules {
  import opened Prelude
  import opened Decimal

  datatype AlertRule = Target | DropPercent | Restock

  datatype Observation = Observation(inStock: Option<bool>, price: Price)

  datatype AlertConfig = AlertConfig(dropPercent: Option<int>, rules: set<AlertRule>, targetPrice: Option<Price>)

  datatype AlertMemory = AlertMemory(lastAlertedAt: Option<int>, lastAlertedPrice: Option<Price>)

  datatype RuleTrigger = RuleTrigger(rule: AlertRule, subject: Observation)

  datatype EvaluationInput = EvaluationInput(
    cheapest: Option<Observation>, config: AlertConfig, cooldown: nat, latest: Observation, now: int,
    previous: Option<Observation>)

  predicate TargetMet(config: AlertConfig, cheapest: Option<Observation>) {
    config.targetPrice.Some? && cheapest.Some? && Minor(cheapest.value.price) <= Minor(config.targetPrice.value)
  }

  /** `dropMet`, by cross-multiplication. */
  predicate DropMet(config: AlertConfig, latest: Observation, previous: Option<Observation>) {
    && config.dropPercent.Some? && previous.Some?
    && var before := Minor(previous.value.price);
       before > 0 && (before - Minor(latest.price)) * 100 >= config.dropPercent.value * before
  }

  predicate RestockMet(latest: Observation, previous: Option<Observation>) {
    previous.Some? && previous.value.inStock == Some(false) && latest.inStock == Some(true)
  }

  function When(met: bool, trigger: RuleTrigger): seq<RuleTrigger> { if met then [trigger] else [] }

  /** `conditionsMet`, in the order of ALERT_RULES. */
  function ConditionsMet(input: EvaluationInput): seq<RuleTrigger> {
    var rules := input.config.rules;
    (if input.cheapest.Some? then
       When(Target in rules && TargetMet(input.config, input.cheapest), RuleTrigger(Target, input.cheapest.value))
     else [])
    + When(
        DropPercent in rules && DropMet(input.config, input.latest, input.previous),
        RuleTrigger(DropPercent, input.latest))
    + When(Restock in rules && RestockMet(input.latest, input.previous), RuleTrigger(Restock, input.latest))
  }

  predicate ShouldFire(price: Price, memory: Option<AlertMemory>, now: int, cooldown: int) {
    || memory.None? || memory.value.lastAlertedAt.None?
    || (memory.value.lastAlertedPrice.Some? && Minor(price) < Minor(memory.value.lastAlertedPrice.value))
    || now - memory.value.lastAlertedAt.value > cooldown
  }

  function MemoryOf(rows: map<AlertRule, AlertMemory>, rule: AlertRule): Option<AlertMemory> {
    if rule in rows then Some(rows[rule]) else None
  }

  predicate Fires(trigger: RuleTrigger, rows: map<AlertRule, AlertMemory>, now: int, cooldown: int) {
    ShouldFire(trigger.subject.price, MemoryOf(rows, trigger.rule), now, cooldown)
  }

  function Firing(triggers: seq<RuleTrigger>, rows: map<AlertRule, AlertMemory>, now: int, cooldown: int)
    : seq<RuleTrigger>
  {
    if triggers == [] then []
    else
      var first := if Fires(triggers[0], rows, now, cooldown) then [triggers[0]] else [];
      first + Firing(triggers[1..], rows, now, cooldown)
  }

  /** `evaluateAlerts`. */
  function EvaluateAlerts(input: EvaluationInput, rows: map<AlertRule, AlertMemory>): seq<RuleTrigger> {
    Firing(ConditionsMet(input), rows, input.now, input.cooldown)
  }

  /** No rule twice, and each one past its gate. */
  ghost predicate Gated(triggers: seq<RuleTrigger>, rows: map<AlertRule, AlertMemory>, now: int, cooldown: int) {
    && (forall k :: 0 <= k < |triggers| ==> Fires(triggers[k], rows, now, cooldown))
    && (forall a, b :: 0 <= a < b < |triggers| ==> triggers[a].rule != triggers[b].rule)
  }

  lemma {:induction false} FiringIsGated(triggers: seq<RuleTrigger>, rows: map<AlertRule, AlertMemory>, now: int,
                                         cooldown: int)
    requires forall a, b :: 0 <= a < b < |triggers| ==> triggers[a].rule != triggers[b].rule
    ensures Gated(Firing(triggers, rows, now, cooldown), rows, now, cooldown)
    ensures forall t :: t in Firing(triggers, rows, now, cooldown) ==> t in triggers
    decreases |triggers|
  {
    if triggers != [] {
      FiringIsGated(triggers[1..], rows, now, cooldown);
      forall t | t in Firing(triggers[1..], rows, now, cooldown) ensures t.rule != triggers[0].rule {
        var k :| 0 <= k < |triggers[1..]| && triggers[1..][k] == t;
        assert triggers[k + 1] == t;
      }
    }
  }

  lemma ConditionsAreDistinct(input: EvaluationInput)
    ensures var met := ConditionsMet(input); forall a, b :: 0 <= a < b < |met| ==> met[a].rule != met[b].rule
  {
  }

  lemma EvaluateIsGated(input: EvaluationInput, rows: map<AlertRule, AlertMemory>)
    ensures Gated(EvaluateAlerts(input, rows), rows, input.now, input.cooldown)
  {
    ConditionsAreDistinct(input);
    FiringIsGated(ConditionsMet(input), rows, input.now, input.cooldown);
  }

  predicate Met(input: EvaluationInput, rule: AlertRule) {
    match rule
    case Target => TargetMet(input.config, input.cheapest)
    case DropPercent => DropMet(input.config, input.latest, input.previous)
    case Restock => RestockMet(input.latest, input.previous)
  }

  /** The observation an alert is about: the cheapest listing's for a target, the checked one's otherwise. */
  function Subject(input: EvaluationInput, rule: AlertRule): Observation
    requires Met(input, rule)
  {
    if rule == Target then input.cheapest.value else input.latest
  }

  lemma {:induction false} FiringHas(triggers: seq<RuleTrigger>, rows: map<AlertRule, AlertMemory>, now: int,
                                     cooldown: int, t: RuleTrigger)
    ensures t in Firing(triggers, rows, now, cooldown) <==> t in triggers && Fires(t, rows, now, cooldown)
  {
    if triggers != [] { FiringHas(triggers[1..], rows, now, cooldown, t); }
  }

  lemma ConditionsAre(input: EvaluationInput, t: RuleTrigger)
    ensures t in ConditionsMet(input)
      <==> t.rule in input.config.rules && Met(input, t.rule) && t.subject == Subject(input, t.rule)
  {
  }

  /**
    A trigger is sent exactly if its rule is switched on, its condition is met on its own subject, and the
    memory of that very rule lets it through.
  */
  lemma TriggersExactly(input: EvaluationInput, rows: map<AlertRule, AlertMemory>, t: RuleTrigger)
    ensures t in EvaluateAlerts(input, rows)
      <==> t.rule in input.config.rules && Met(input, t.rule) && t.subject == Subject(input, t.rule)
           && ShouldFire(t.subject.price, MemoryOf(rows, t.rule), input.now, input.cooldown)
  {
    FiringHas(ConditionsMet(input), rows, input.now, input.cooldown, t);
    ConditionsAre(input, t);
  }

  // ----- The drop rule and the percentage a reader is shown -----

  /** The figure of `percentChange` shows a fall of at least `percent`. */
  predicate ShowsFall(previous: Price, latest: Price, percent: int) {
    var text := PercentChange(previous, latest);
    text.Some? && ToMinorUnits(text.value).Some? && ToMinorUnits(text.value).value <= -100 * percent
  }

  lemma TruncationKeepsTheComparison(before: int, after: int, percent: int)
    requires before > 0 && percent >= 1
    ensures (before - after) * 100 >= percent * before <==> 10 * Tenths(before, after) <= -100 * percent
  {
    var fall := (before - after) * 1000;
    if fall > 0 {
      DivAtLeast(fall, before, 10 * percent);
      assert Tenths(before, after) == -(fall / before);
      assert fall >= 10 * percent * before <==> (before - after) * 100 >= percent * before;
    } else {
      assert percent * before > 0;
    }
  }

  lemma DivAtLeast(a: int, b: int, q: int)
    requires a >= 0 && b > 0
    ensures a / b >= q <==> a >= q * b
  {
    var d := a / b;
    assert d * b <= a < d * b + b;
    if d >= q {
      assert d * b >= q * b;
    } else {
      assert d * b <= (q - 1) * b;
    }
  }

  /**
    For a drop percentage of at least one and a positive previous price the alert fires on exactly the
    prices whose displayed one-decimal change is at least that fall: one side cross-multiplies, the
    other truncates.
  */
  lemma DropAgreesWithDisplay(previous: Observation, latest: Observation, config: AlertConfig)
    requires config.dropPercent.Some? && config.dropPercent.value >= 1 && Minor(previous.price) > 0
    ensures DropMet(config, latest, Some(previous))
      <==> ShowsFall(previous.price, latest.price, config.dropPercent.value)
  {
    PercentTextValue(previous.price, latest.price);
    TruncationKeepsTheComparison(Minor(previous.price), Minor(latest.price), config.dropPercent.value);
  }

  /** The bound of one is exact: at zero and below some price shows the fall without setting the rule off. */
  lemma DropAgreesIff(percent: int)
    ensures
      (forall previous: Price, latest: Price :: Minor(previous) > 0 ==>
         (DropMet(AlertConfig(Some(percent), {}, None), Observation(None, latest), Some(Observation(None, previous)))
          <==> ShowsFall(previous, latest, percent)))
      <==> percent >= 1
  {
    var config := AlertConfig(Some(percent), {}, None);
    if percent >= 1 {
      forall previous: Price, latest: Price | Minor(previous) > 0
        ensures DropMet(config, Observation(None, latest), Some(Observation(None, previous)))
          <==> ShowsFall(previous, latest, percent)
      {
        DropAgreesWithDisplay(Observation(None, previous), Observation(None, latest), config);
      }
    } else {
      var before, after := 10000, 10001 - 100 * percent;
      MinorUnitsRoundTrip(before);
      MinorUnitsRoundTrip(after);
      var previous: Price, latest: Price := FromMinorUnits(before), FromMinorUnits(after);
      PercentTextValue(previous, latest);
      assert (after - before) * 1000 == -100000 * percent + 1000;
      assert Tenths(before, after) == -10 * percent;
      assert ShowsFall(previous, latest, percent);
      assert !DropMet(config, Observation(None, latest), Some(Observation(None, previous)));
    }
  }

  // ----- Broken watches -----

  /** `countLeadingFailures` over the runs, newest first; true stands for `ok`. */
  function LeadingFailures(ok: seq<bool>): nat {
    if ok == [] || ok[0] then 0 else 1 + LeadingFailures(ok[1..])
  }

  method CountLeadingFailures(ok: seq<bool>) returns (failures: nat)
    ensures failures == LeadingFailures(ok)
    ensures failures <= |ok| && (forall k :: 0 <= k < failures ==> !ok[k]) && (failures < |ok| ==> ok[failures])
  {
    failures := 0;
    while failures < |ok| && !ok[failures]
      invariant failures <= |ok| && LeadingFailures(ok) == failures + LeadingFailures(ok[failures..])
      invariant forall k :: 0 <= k < failures ==> !ok[k]
    {
      failures := failures + 1;
    }
  }

  predicate ShouldReportBroken(failures: nat, alreadyReported: bool, threshold: nat) {
    !alreadyReported && failures >= threshold
  }
}
