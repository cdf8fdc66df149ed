/**
  When a check sends which alert, said by prices in minor units, the stock flags and the
  remembered alert alone: what packages/core/src/rules/index.ts promises a user of each rule.
*/
module AlertConditions {
  import opened Prelude
  import opened Decimal
  import opened AlertRules

  /** The rule is switched on and has never sent an alert. */
  predicate Fresh(input: EvaluationInput, rows: map<AlertRule, AlertMemory>, rule: AlertRule) {
    rule in input.config.rules && (rule in rows ==> rows[rule].lastAlertedAt.None?)
  }

  ghost predicate Sends(input: EvaluationInput, rows: map<AlertRule, AlertMemory>, rule: AlertRule, o: Observation) {
    RuleTrigger(rule, o) in EvaluateAlerts(input, rows)
  }

  function Prices(listings: seq<Observation>): seq<Price> {
    seq(|listings|, i requires 0 <= i < |listings| => listings[i].price)
  }

  /** The observation that the caller hands over as the cheapest one. */
  function CheapestOf(listings: seq<Observation>): Option<Observation> {
    var k := Cheapest(Prices(listings));
    if k.None? then None else Some(listings[k.value])
  }

  /**
    A target alert goes out exactly if some listing costs at most the target, and it is about the
    first of the cheapest ones.
  */
  lemma TargetSentIff(input: EvaluationInput, rows: map<AlertRule, AlertMemory>, listings: seq<Observation>,
                      target: Price, o: Observation)
    requires Fresh(input, rows, Target) && input.config.targetPrice == Some(target)
    requires input.cheapest == CheapestOf(listings)
    ensures (exists p :: Sends(input, rows, Target, p))
      <==> exists i :: 0 <= i < |listings| && Minor(listings[i].price) <= Minor(target)
    ensures Sends(input, rows, Target, o) ==> exists k ::
      && 0 <= k < |listings| && o == listings[k]
      && (forall i :: 0 <= i < |listings| ==> Minor(o.price) <= Minor(listings[i].price))
      && (forall i :: 0 <= i < k ==> Minor(o.price) < Minor(listings[i].price))
  {
    if listings == [] {
      assert Prices(listings) == [];
      forall p ensures !Sends(input, rows, Target, p) {
        TriggersExactly(input, rows, RuleTrigger(Target, p));
      }
    } else {
      var k := CheapestListing(listings);
      forall p ensures Sends(input, rows, Target, p)
        <==> p == listings[k] && Minor(p.price) <= Minor(target)
      {
        TriggersExactly(input, rows, RuleTrigger(Target, p));
      }
      assert Sends(input, rows, Target, listings[k]) <==> Minor(listings[k].price) <= Minor(target);
    }
  }

  lemma CheapestListing(listings: seq<Observation>) returns (k: nat)
    requires listings != []
    ensures k < |listings| && CheapestOf(listings) == Some(listings[k])
    ensures forall i :: 0 <= i < |listings| ==> Minor(listings[k].price) <= Minor(listings[i].price)
    ensures forall i :: 0 <= i < k ==> Minor(listings[k].price) < Minor(listings[i].price)
  {
    CheapestIsFirstLeast(Prices(listings));
    k := Cheapest(Prices(listings)).value;
    forall i | 0 <= i < |listings|
      ensures Minor(listings[k].price) <= Minor(listings[i].price)
      ensures i < k ==> Minor(listings[k].price) < Minor(listings[i].price)
    {
      assert Prices(listings)[i] == listings[i].price && Prices(listings)[k] == listings[k].price;
    }
  }

  /**
    A drop alert goes out exactly if the price has fallen to at most what the percentage leaves of
    the previous one, which must have been positive. It is about the listing just checked.
  */
  lemma DropSentIff(input: EvaluationInput, rows: map<AlertRule, AlertMemory>, percent: int, o: Observation)
    requires Fresh(input, rows, DropPercent) && input.config.dropPercent == Some(percent)
    ensures Sends(input, rows, DropPercent, o) <==>
      && o == input.latest && input.previous.Some? && Minor(input.previous.value.price) > 0
      && 100 * Minor(o.price) <= (100 - percent) * Minor(input.previous.value.price)
  {
    TriggersExactly(input, rows, RuleTrigger(DropPercent, o));
    if input.previous.Some? {
      LeftOf(Minor(input.previous.value.price), Minor(input.latest.price), percent);
    }
  }

  lemma LeftOf(before: int, after: int, percent: int)
    ensures (before - after) * 100 >= percent * before <==> 100 * after <= (100 - percent) * before
  {
    assert (100 - percent) * before == 100 * before - percent * before;
  }

  /** A restock alert goes out exactly if the page said no before and says yes now; silence is neither. */
  lemma RestockSentIff(input: EvaluationInput, rows: map<AlertRule, AlertMemory>, o: Observation)
    requires Fresh(input, rows, Restock)
    ensures Sends(input, rows, Restock, o) <==>
      && o == input.latest && o.inStock == Some(true)
      && input.previous.Some? && input.previous.value.inStock == Some(false)
  {
    TriggersExactly(input, rows, RuleTrigger(Restock, o));
  }

  /** A rule without its own setting sends nothing, and neither does one that is switched off. */
  lemma UnsetRuleIsSilent(input: EvaluationInput, rows: map<AlertRule, AlertMemory>, rule: AlertRule, o: Observation)
    requires || rule !in input.config.rules || (rule == Target && input.config.targetPrice.None?)
             || (rule == DropPercent && input.config.dropPercent.None?)
    ensures !Sends(input, rows, rule, o)
  {
    TriggersExactly(input, rows, RuleTrigger(rule, o));
  }

  /**
    With an alert remembered the same one goes out again exactly if it would go out for the first
    time and its own price is below the remembered one, or more than the cooldown has passed. The
    memory of another rule does not count.
  */
  lemma RememberedSentIff(input: EvaluationInput, rows: map<AlertRule, AlertMemory>, rule: AlertRule, o: Observation,
                          at: int)
    requires rule in rows && rows[rule].lastAlertedAt == Some(at)
    ensures Sends(input, rows, rule, o) <==>
      && Sends(input, rows - {rule}, rule, o)
      && (|| input.now > at + input.cooldown
          || (rows[rule].lastAlertedPrice.Some? && Minor(o.price) < Minor(rows[rule].lastAlertedPrice.value)))
  {
    TriggersExactly(input, rows, RuleTrigger(rule, o));
    TriggersExactly(input, rows - {rule}, RuleTrigger(rule, o));
  }

  lemma OtherMemoriesDoNotCount(input: EvaluationInput, a: map<AlertRule, AlertMemory>, b: map<AlertRule, AlertMemory>,
                                rule: AlertRule, o: Observation)
    requires (rule in a <==> rule in b) && (rule in a ==> a[rule] == b[rule])
    ensures Sends(input, a, rule, o) <==> Sends(input, b, rule, o)
  {
    TriggersExactly(input, a, RuleTrigger(rule, o));
    TriggersExactly(input, b, RuleTrigger(rule, o));
  }
}
