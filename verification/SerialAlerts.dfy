/**
  Alert dedupe where the checks of one product alert one after the other, in any order and with any errors: what each
  alert is gated on, and how many there can be.
*/
module SerialAlerts {
  import opened Prelude
  import opened Decimal
  import opened AlertRules
  import opened AlertProtocol

  /** The alerting of one check of the product is over before that of the next one starts. */
  ghost predicate Serial(events: seq<Event>) {
    forall k :: 0 <= k < |events| && events[k].Evaluate? ==> Run(Init(), events[..k]).pending == map[]
  }

  /** The memory a log leaves: that of the last alert whose write was not lost. */
  function Remembered(log: seq<Delivered>): Option<AlertMemory> {
    if log == [] then None
    else if log[|log| - 1].stored then Some(AsMemory(log[|log| - 1]))
    else Remembered(log[..|log| - 1])
  }

  /** Each alert got past a gate on the last alert before it that was stored. */
  ghost predicate Justified(log: seq<Delivered>) {
    forall k :: 0 <= k < |log| ==> ShouldFire(log[k].price, Remembered(log[..k]), log[k].at, log[k].cooldown)
  }

  ghost predicate RuleOk(s: State, rule: AlertRule) {
    MemoryOf(s.memory, rule) == Remembered(LogOf(s, rule)) && Justified(LogOf(s, rule))
  }

  /** The triggers still to be sent were gated on the memory as it is, and a sent one is the last in its log. */
  ghost predicate FreshOk(s: State, c: nat)
    requires c in s.pending
  {
    var p := s.pending[c];
    && (forall k :: (if p.sent.Some? then 1 else 0) <= k < |p.triggers| ==>
          MemoryOf(p.seen, p.triggers[k].rule) == MemoryOf(s.memory, p.triggers[k].rule))
    && (p.sent.Some? && p.triggers != [] ==> p.sent.value == |LogOf(s, p.triggers[0].rule)| - 1)
  }

  ghost predicate SerialInv(s: State) {
    && Inv(s)
    && (forall rule :: RuleOk(s, rule))
    && (forall c :: c in s.pending ==> FreshOk(s, c))
    && (forall c, d :: c in s.pending && d in s.pending ==> c == d)
  }

  lemma AppendJustified(log: seq<Delivered>, d: Delivered)
    requires Justified(log) && !d.stored && ShouldFire(d.price, Remembered(log), d.at, d.cooldown)
    ensures Justified(log + [d]) && Remembered(log + [d]) == Remembered(log)
  {
    assert (log + [d])[..|log|] == log;
    forall k | 0 <= k < |log| + 1
      ensures var e := (log + [d])[k]; ShouldFire(e.price, Remembered((log + [d])[..k]), e.at, e.cooldown)
    {
      if k < |log| { assert (log + [d])[..k] == log[..k]; }
    }
  }

  lemma MarkLastJustified(log: seq<Delivered>)
    requires Justified(log) && log != []
    ensures var k := |log| - 1; var marked := log[k := log[k].(stored := true)];
      Justified(marked) && Remembered(marked) == Some(AsMemory(log[k]))
  {
    var k := |log| - 1;
    var marked := log[k := log[k].(stored := true)];
    forall j | 0 <= j < |marked|
      ensures ShouldFire(marked[j].price, Remembered(marked[..j]), marked[j].at, marked[j].cooldown)
    {
      assert marked[..j] == log[..j];
      assert ShouldFire(log[j].price, Remembered(log[..j]), log[j].at, log[j].cooldown);
    }
  }

  lemma SendKeepsRules(s: State, check: nat, delivered: bool, rule: AlertRule)
    requires SerialInv(s) && Enabled(s, Send(check, delivered))
    ensures RuleOk(SendStep(s, check, delivered), rule)
  {
    var p, log := s.pending[check], LogOf(s, rule);
    assert RuleOk(s, rule) && FreshOk(s, check) && PendingOk(s, check);
    if delivered && p.triggers[0].rule == rule {
      assert Fires(p.triggers[0], p.seen, p.now, p.cooldown);
      AppendJustified(log, Delivered(p.triggers[0].subject.price, p.now, p.cooldown, false));
    }
  }

  /** A stored write marks the last alert of its rule and makes it the memory. */
  lemma StoresLast(s: State, check: nat, rule: AlertRule)
    requires SerialInv(s) && Enabled(s, Remember(check, true)) && s.pending[check].triggers[0].rule == rule
    ensures var t, log := RememberStep(s, check, true), LogOf(s, rule);
      && log != [] && LogOf(t, rule) == log[|log| - 1 := log[|log| - 1].(stored := true)]
      && MemoryOf(t.memory, rule) == Some(AsMemory(log[|log| - 1]))
  {
    assert FreshOk(s, check) && PendingOk(s, check);
  }

  lemma OthersStay(s: State, check: nat, stored: bool, rule: AlertRule)
    requires Enabled(s, Remember(check, stored)) && (!stored || s.pending[check].triggers[0].rule != rule)
    ensures var t := RememberStep(s, check, stored);
      LogOf(t, rule) == LogOf(s, rule) && MemoryOf(t.memory, rule) == MemoryOf(s.memory, rule)
  {
  }

  lemma RememberKeepsRules(s: State, check: nat, stored: bool, rule: AlertRule)
    requires SerialInv(s) && Enabled(s, Remember(check, stored))
    ensures RuleOk(RememberStep(s, check, stored), rule)
  {
    assert RuleOk(s, rule);
    if stored && s.pending[check].triggers[0].rule == rule {
      StoresLast(s, check, rule);
      MarkLastJustified(LogOf(s, rule));
    } else {
      OthersStay(s, check, stored, rule);
    }
  }

  lemma AdvanceKeepsFresh(s: State, t: State, check: nat)
    requires SerialInv(s) && check in s.pending && t.pending == Advance(s.pending, check)
    requires forall rule ::
      rule != s.pending[check].triggers[0].rule ==> MemoryOf(t.memory, rule) == MemoryOf(s.memory, rule)
    ensures forall c :: c in t.pending ==> FreshOk(t, c)
  {
    var p := s.pending[check];
    assert PendingOk(s, check) && FreshOk(s, check);
    RestIsGated(p.triggers, p.seen, p.now, p.cooldown);
    forall c | c in t.pending ensures FreshOk(t, c) {
      forall k | 0 <= k < |p.triggers[1..]|
        ensures MemoryOf(p.seen, p.triggers[1..][k].rule) == MemoryOf(t.memory, p.triggers[1..][k].rule)
      {
        assert p.triggers[1..][k] == p.triggers[k + 1] && p.triggers[1..][k] in p.triggers[1..];
      }
    }
  }

  lemma SerialSend(s: State, check: nat, delivered: bool)
    requires SerialInv(s) && Enabled(s, Send(check, delivered))
    ensures SerialInv(SendStep(s, check, delivered))
  {
    var t := SendStep(s, check, delivered);
    SendKeepsInv(s, check, delivered);
    forall rule ensures RuleOk(t, rule) { SendKeepsRules(s, check, delivered, rule); }
    assert FreshOk(s, check);
    if !delivered { AdvanceKeepsFresh(s, t, check); }
  }

  lemma SerialRemember(s: State, check: nat, stored: bool)
    requires SerialInv(s) && Enabled(s, Remember(check, stored))
    ensures SerialInv(RememberStep(s, check, stored))
  {
    var t := RememberStep(s, check, stored);
    RememberKeepsInv(s, check, stored);
    forall rule ensures RuleOk(t, rule) { RememberKeepsRules(s, check, stored, rule); }
    if stored { AdvanceKeepsFresh(s, t, check); }
  }

  lemma SameRules(s: State, t: State)
    requires (forall rule :: RuleOk(s, rule)) && t.memory == s.memory && t.log == s.log
    ensures forall rule :: RuleOk(t, rule)
  {
    forall rule ensures RuleOk(t, rule) { assert RuleOk(s, rule); }
  }

  lemma SerialStep(s: State, e: Event)
    requires SerialInv(s) && (e.Evaluate? ==> s.pending == map[])
    ensures SerialInv(Next(s, e))
  {
    if Enabled(s, e) {
      match e {
        case Evaluate(_, _, _, _) =>
          EvaluateKeepsInv(s, e);
          SameRules(s, Next(s, e));
        case Send(check, delivered) => SerialSend(s, check, delivered);
        case Remember(check, stored) => SerialRemember(s, check, stored);
        case Abort(check) =>
          AbortKeepsInv(s, check);
          SameRules(s, Next(s, e));
      }
    }
  }

  lemma SerialFront(events: seq<Event>)
    requires Serial(events) && events != []
    ensures Serial(events[..|events| - 1])
    ensures events[|events| - 1].Evaluate? ==> Run(Init(), events[..|events| - 1]).pending == map[]
  {
    var front := events[..|events| - 1];
    forall k | 0 <= k < |front| && front[k].Evaluate? ensures Run(Init(), front[..k]).pending == map[] {
      assert front[..k] == events[..k];
    }
  }

  lemma {:induction false} SerialRun(events: seq<Event>)
    requires Serial(events)
    ensures SerialInv(Run(Init(), events))
    decreases |events|
  {
    if events != [] {
      SerialFront(events);
      SerialRun(events[..|events| - 1]);
      SerialStep(Run(Init(), events[..|events| - 1]), events[|events| - 1]);
    }
  }

  lemma JustifiedFollows(log: seq<Delivered>, k: nat)
    requires Justified(log) && k < |log|
    ensures ShouldFire(log[k].price, Remembered(log[..k]), log[k].at, log[k].cooldown)
    ensures 0 < k && log[k - 1].stored ==> Follows(log[k - 1], log[k])
  {
    assert 0 < k ==> log[..k][|log[..k]| - 1] == log[k - 1];
  }

  /**
    Over every serial run each delivered alert got past a gate on the last alert before it whose write was not lost; so
    it is strictly cheaper in minor units than the alert right before it, or past the cooldown, unless the write of that
    alert was lost.
  */
  lemma SerialAlertsFollow(events: seq<Event>, rule: AlertRule, k: nat)
    requires Serial(events) && k < |LogOf(Run(Init(), events), rule)|
    ensures var log := LogOf(Run(Init(), events), rule);
      && ShouldFire(log[k].price, Remembered(log[..k]), log[k].at, log[k].cooldown)
      && (0 < k && log[k - 1].stored ==> Follows(log[k - 1], log[k]))
  {
    SerialRun(events);
    assert RuleOk(Run(Init(), events), rule);
    JustifiedFollows(LogOf(Run(Init(), events), rule), k);
  }

  ghost predicate StoredAreFollowed(log: seq<Delivered>) {
    forall k :: 0 < k < |log| ==> log[k - 1].stored ==> Follows(log[k - 1], log[k])
  }

  /** The alerts from `i` up to `j` were all stored, and each came within the cooldown of the one before. */
  ghost predicate Chain(log: seq<Delivered>, i: nat, j: nat) {
    && i <= j < |log|
    && (forall k :: i <= k < j ==> log[k].stored)
    && (forall k :: i < k <= j ==> log[k].at - log[k - 1].at <= log[k].cooldown)
  }

  lemma {:induction false} ChainDescends(log: seq<Delivered>, i: nat, j: nat)
    requires Chain(log, i, j) && StoredAreFollowed(log)
    ensures Minor(log[j].price) <= Minor(log[i].price) - (j - i)
    decreases j
  {
    if i < j {
      ChainDescends(log, i, j - 1);
      assert Follows(log[j - 1], log[j]);
    }
  }

  /** So such a chain falls by at least one minor unit a step, and is no longer than its first price plus one. */
  lemma ChainIsBounded(events: seq<Event>, rule: AlertRule, i: nat, j: nat)
    requires Serial(events) && Chain(LogOf(Run(Init(), events), rule), i, j)
    ensures var log := LogOf(Run(Init(), events), rule);
      && Minor(log[j].price) <= Minor(log[i].price) - (j - i)
      && (Minor(log[j].price) >= 0 ==> j - i + 1 <= Minor(log[i].price) + 1)
  {
    var log := LogOf(Run(Init(), events), rule);
    forall k | 0 < k < |log| ensures log[k - 1].stored ==> Follows(log[k - 1], log[k]) {
      SerialAlertsFollow(events, rule, k);
    }
    ChainDescends(log, i, j);
  }
}
