/**
  What the alerting of one check leaves behind, trigger by trigger: a send that fails does not stop
  the others, a write that fails does, and what is remembered is what was delivered.
*/
module AlertDelivery {
  import opened Prelude
  import opened Decimal
  import opened AlertRules
  import opened AlertProtocol

  /** The write of no earlier trigger was lost. */
  predicate Reached(fates: seq<Fate>, k: nat)
    requires k <= |fates|
  {
    forall j :: 0 <= j < k ==> fates[j] != Lost
  }

  /** What a trigger adds to the log of its rule. */
  function Logged(p: Pending, t: RuleTrigger, fate: Fate): seq<Delivered> {
    if fate == Failed then [] else [Delivered(t.subject.price, p.now, p.cooldown, fate == Saved)]
  }

  function Remembered(before: Option<AlertMemory>, p: Pending, t: RuleTrigger, fate: Fate): Option<AlertMemory> {
    if fate == Saved then Some(AlertMemory(Some(p.now), Some(t.subject.price))) else before
  }

  /** The other checks are where they were. */
  ghost predicate OthersWait(s: State, t: State, check: nat) {
    t.pending - {check} == s.pending - {check}
  }

  /** What one trigger does to the log and the memory of a rule. */
  ghost predicate Takes(s: State, t: State, p: Pending, trigger: RuleTrigger, fate: Fate, rule: AlertRule) {
    if rule == trigger.rule then
      && LogOf(t, rule) == LogOf(s, rule) + Logged(p, trigger, fate)
      && MemoryOf(t.memory, rule) == Remembered(MemoryOf(s.memory, rule), p, trigger, fate)
    else Keeps(s, t, rule)
  }

  ghost predicate Keeps(s: State, t: State, rule: AlertRule) {
    LogOf(t, rule) == LogOf(s, rule) && MemoryOf(t.memory, rule) == MemoryOf(s.memory, rule)
  }

  lemma SendTakes(s: State, check: nat, p: Pending, i: nat, rule: AlertRule)
    requires p.sent.None? && i < |p.triggers| && AlertProtocol.Sends(s, check, p, i)
    ensures var t := Next(s, Send(check, true));
      && Takes(s, t, p, p.triggers[i], Lost, rule) && OthersWait(s, t, check) && check in t.pending
      && t.pending[check] == s.pending[check].(sent := Some(|LogOf(s, p.triggers[i].rule)|))
    ensures var t := Next(s, Send(check, false)); Keeps(s, t, rule) && OthersWait(s, t, check)
  {
    assert s.pending[check].triggers[0] == p.triggers[i];
    assert Enabled(s, Send(check, true)) && Enabled(s, Send(check, false));
  }

  /** The write behind a send. */
  lemma RememberTakes(s: State, check: nat, p: Pending, trigger: RuleTrigger, rule: AlertRule, stored: bool)
    requires check in s.pending && LogOf(s, trigger.rule) != []
    requires var q := s.pending[check]; var log := LogOf(s, trigger.rule);
      && q.triggers != [] && q.triggers[0] == trigger && q.now == p.now && q.cooldown == p.cooldown
      && q.sent == Some(|log| - 1) && log[|log| - 1] == Delivered(trigger.subject.price, p.now, p.cooldown, false)
    ensures var t := Next(s, Remember(check, stored)); var log := LogOf(s, trigger.rule);
      && OthersWait(s, t, check) && (rule != trigger.rule ==> Keeps(s, t, rule))
      && LogOf(t, trigger.rule)
         == log[..|log| - 1] + Logged(p, trigger, if stored then Saved else Lost)
      && MemoryOf(t.memory, trigger.rule)
         == Remembered(MemoryOf(s.memory, trigger.rule), p, trigger, if stored then Saved else Lost)
  {
    assert Enabled(s, Remember(check, stored));
    var log := LogOf(s, trigger.rule);
    assert log == log[..|log| - 1] + [log[|log| - 1]];
  }

  lemma WriteTakes(s: State, sent: State, check: nat, p: Pending, trigger: RuleTrigger, rule: AlertRule, stored: bool)
    requires Takes(s, sent, p, trigger, Lost, rule) && Takes(s, sent, p, trigger, Lost, trigger.rule)
    requires OthersWait(s, sent, check) && check in sent.pending
    requires var q := sent.pending[check];
      && q.triggers != [] && q.triggers[0] == trigger && q.now == p.now && q.cooldown == p.cooldown
      && q.sent == Some(|LogOf(s, trigger.rule)|)
    ensures var t := Next(sent, Remember(check, stored));
      Takes(s, t, p, trigger, if stored then Saved else Lost, rule) && OthersWait(s, t, check)
  {
    RememberTakes(sent, check, p, trigger, rule, stored);
    var log := LogOf(sent, trigger.rule);
    assert log[..|log| - 1] == LogOf(s, trigger.rule);
  }

  lemma TriggerIsServed(s: State, check: nat, p: Pending, i: nat, fate: Fate, rule: AlertRule)
    requires p.sent.None? && i < |p.triggers| && AlertProtocol.Sends(s, check, p, i)
    ensures Takes(s, Apply(s, check, fate), p, p.triggers[i], fate, rule)
    ensures OthersWait(s, Apply(s, check, fate), check)
  {
    SendTakes(s, check, p, i, rule);
    if fate != Failed {
      SendTakes(s, check, p, i, p.triggers[i].rule);
      WriteTakes(s, Next(s, Send(check, true)), check, p, p.triggers[i], rule, fate == Saved);
    }
  }

  /** Where the alerting of a check stands behind `n` of its triggers. */
  ghost predicate Stands(s: State, check: nat, p: Pending, fates: seq<Fate>, n: nat)
    requires n <= |fates| == |p.triggers|
  {
    if Reached(fates, n) then AlertProtocol.Sends(s, check, p, n) else check !in s.pending
  }

  /** The step over one trigger: taken while no write was lost, nothing after that. */
  ghost predicate Goes(s: State, t: State, p: Pending, fates: seq<Fate>, i: nat, rule: AlertRule)
    requires i < |fates| == |p.triggers|
  {
    if Reached(fates, i) then Takes(s, t, p, p.triggers[i], fates[i], rule) else t == s
  }

  lemma StepGoes(s: State, check: nat, p: Pending, fates: seq<Fate>, i: nat, rule: AlertRule)
    requires p.sent.None? && i < |fates| == |p.triggers| && Stands(s, check, p, fates, i)
    ensures var t := Apply(s, check, fates[i]);
      Stands(t, check, p, fates, i + 1) && OthersWait(s, t, check) && Goes(s, t, p, fates, i, rule)
  {
    if Reached(fates, i) {
      ApplySends(s, check, p, i, fates[i]);
      TriggerIsServed(s, check, p, i, fates[i], rule);
    }
  }

  lemma {:induction false} ServedStands(s: State, check: nat, p: Pending, fates: seq<Fate>, n: nat, rule: AlertRule)
    requires p.sent.None? && n <= |fates| == |p.triggers| && Stands(s, check, p, fates, 0)
    ensures Stands(Served(s, check, fates, n), check, p, fates, n)
    ensures OthersWait(s, Served(s, check, fates, n), check)
    ensures n > 0 ==> Goes(Served(s, check, fates, n - 1), Served(s, check, fates, n), p, fates, n - 1, rule)
    decreases n
  {
    if n > 0 {
      ServedStands(s, check, p, fates, n - 1, rule);
      StepGoes(Served(s, check, fates, n - 1), check, p, fates, n - 1, rule);
    }
  }

  ghost predicate DistinctRules(triggers: seq<RuleTrigger>) {
    forall a, b :: 0 <= a < b < |triggers| ==> triggers[a].rule != triggers[b].rule
  }

  /** What a rule sees of the whole row of triggers: its own, if it has one. */
  lemma {:induction false} RowOfTriggers(states: seq<State>, p: Pending, fates: seq<Fate>, n: nat, rule: AlertRule)
    requires n <= |fates| == |p.triggers| && n < |states| && DistinctRules(p.triggers)
    requires forall i :: 0 <= i < n ==> Goes(states[i], states[i + 1], p, fates, i, rule)
    ensures (forall k :: 0 <= k < n && p.triggers[k].rule == rule ==> !Reached(fates, k)) ==>
      Keeps(states[0], states[n], rule)
    ensures forall k :: 0 <= k < n && p.triggers[k].rule == rule && Reached(fates, k) ==>
      Takes(states[0], states[n], p, p.triggers[k], fates[k], rule)
    decreases n
  {
    if n > 0 {
      RowOfTriggers(states, p, fates, n - 1, rule);
      assert Goes(states[n - 1], states[n - 1 + 1], p, fates, n - 1, rule);
    }
  }

  lemma ServedTakes(s: State, check: nat, p: Pending, fates: seq<Fate>, rule: AlertRule)
    requires p.sent.None? && |fates| == |p.triggers| && Stands(s, check, p, fates, 0) && DistinctRules(p.triggers)
    ensures var t := Served(s, check, fates, |fates|);
      && check !in t.pending && OthersWait(s, t, check)
      && ((forall k :: 0 <= k < |fates| && p.triggers[k].rule == rule ==> !Reached(fates, k)) ==> Keeps(s, t, rule))
      && (forall k :: 0 <= k < |fates| && p.triggers[k].rule == rule && Reached(fates, k) ==>
            Takes(s, t, p, p.triggers[k], fates[k], rule))
  {
    var n := |fates|;
    var states := seq(n + 1, k requires 0 <= k <= n => Served(s, check, fates, k));
    forall i | 0 <= i < n ensures Goes(states[i], states[i + 1], p, fates, i, rule) {
      ServedStands(s, check, p, fates, i + 1, rule);
    }
    RowOfTriggers(states, p, fates, n, rule);
    ServedStands(s, check, p, fates, n, rule);
  }

  /**
    The alerting of one check from the evaluation of its conditions to its end. The alert of a rule
    is logged and remembered exactly if the rule triggers on the memory the check has loaded, no
    earlier write was lost, and its own send and write succeed; a lost write leaves it logged and
    not remembered. No other rule, and no other check, is touched.
  */
  lemma CheckAlerts(s: State, check: nat, input: EvaluationInput, fates: seq<Fate>, rule: AlertRule)
    requires check !in s.pending && |fates| == |EvaluateAlerts(input, s.memory)|
    ensures var triggers := EvaluateAlerts(input, s.memory);
      var t := Served(Next(s, Evaluate(check, ConditionsMet(input), input.now, input.cooldown)), check, fates, |fates|);
      var p := Pending(triggers, input.now, input.cooldown, s.memory, None);
      && t.pending == s.pending
      && ((forall k :: 0 <= k < |fates| && triggers[k].rule == rule ==> !Reached(fates, k)) ==> Keeps(s, t, rule))
      && (forall k :: 0 <= k < |fates| && triggers[k].rule == rule && Reached(fates, k) ==>
            Takes(s, t, p, triggers[k], fates[k], rule))
  {
    var triggers := EvaluateAlerts(input, s.memory);
    var start := Evaluated(s, check, input, triggers);
    EvaluateIsGated(input, s.memory);
    AlertsFrom(s, start, check, Pending(triggers, input.now, input.cooldown, s.memory, None), fates, rule);
  }

  lemma AlertsFrom(s: State, start: State, check: nat, p: Pending, fates: seq<Fate>, rule: AlertRule)
    requires p.sent.None? && |fates| == |p.triggers| && DistinctRules(p.triggers)
    requires check !in s.pending && start.log == s.log && start.memory == s.memory && OthersWait(s, start, check)
    requires AlertProtocol.Sends(start, check, p, 0)
    ensures var t := Served(start, check, fates, |fates|);
      && t.pending == s.pending
      && ((forall k :: 0 <= k < |fates| && p.triggers[k].rule == rule ==> !Reached(fates, k)) ==> Keeps(s, t, rule))
      && (forall k :: 0 <= k < |fates| && p.triggers[k].rule == rule && Reached(fates, k) ==>
            Takes(s, t, p, p.triggers[k], fates[k], rule))
  {
    ServedTakes(start, check, p, fates, rule);
    var t := Served(start, check, fates, |fates|);
    assert t.pending == t.pending - {check} == start.pending - {check} == s.pending;
  }

  lemma Evaluated(s: State, check: nat, input: EvaluationInput, triggers: seq<RuleTrigger>) returns (start: State)
    requires check !in s.pending && triggers == EvaluateAlerts(input, s.memory)
    ensures start == Next(s, Evaluate(check, ConditionsMet(input), input.now, input.cooldown))
    ensures start.log == s.log && start.memory == s.memory && OthersWait(s, start, check)
    ensures AlertProtocol.Sends(start, check, Pending(triggers, input.now, input.cooldown, s.memory, None), 0)
  {
    var e := Evaluate(check, ConditionsMet(input), input.now, input.cooldown);
    assert Possible(ConditionsMet(input));
    assert Enabled(s, e);
    start := Next(s, e);
    assert triggers[0..] == triggers;
  }
}
