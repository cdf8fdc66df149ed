/** `budgeted` of packages/core/src/extract/suggest.ts: which drafts the validation budget is spent on. */
module ValidationBudget {
  const MAX_VALIDATIONS := 40
  const RESERVED_VALIDATIONS := 12

  datatype Mode = JsonPathMode | SelectorMode
  datatype ScoredDraft = ScoredDraft(mode: Mode, expression: string, total: int)

  /** `Record<ExpressionMode, number>`. */
  datatype PerMode = PerMode(path: int, selector: int) {
    function Get(mode: Mode): int { if mode == JsonPathMode then path else selector }
    function Add(mode: Mode, n: int): PerMode {
      if mode == JsonPathMode then PerMode(path + n, selector) else PerMode(path, selector + n)
    }
  }

  function Other(mode: Mode): Mode { if mode == JsonPathMode then SelectorMode else JsonPathMode }
  function Min(a: int, b: int): int { if a < b then a else b }

  /** How many of the first `i` drafts have a mode. */
  function CountIn(drafts: seq<ScoredDraft>, i: nat, mode: Mode): nat
    requires i <= |drafts|
  {
    if i == 0 then 0 else CountIn(drafts, i - 1, mode) + if drafts[i - 1].mode == mode then 1 else 0
  }

  function Count(drafts: seq<ScoredDraft>, mode: Mode): nat { CountIn(drafts, |drafts|, mode) }

  function CountsIn(drafts: seq<ScoredDraft>, i: nat): PerMode
    requires i <= |drafts|
  {
    PerMode(CountIn(drafts, i, JsonPathMode), CountIn(drafts, i, SelectorMode))
  }

  function Counts(drafts: seq<ScoredDraft>): PerMode { CountsIn(drafts, |drafts|) }

  /** The loop's variables; `positions` are those of the taken drafts. */
  datatype Tally = Tally(unseen: PerMode, spent: PerMode, taken: seq<ScoredDraft>, positions: seq<nat>)

  predicate Full(t: Tally) { |t.taken| >= MAX_VALIDATIONS }

  /** One turn of the loop, before its `break`. */
  function Visit(t: Tally, entry: ScoredDraft, i: nat): Tally {
    var seen := t.(unseen := t.unseen.Add(entry.mode, -1));
    var held := Min(seen.unseen.Get(Other(entry.mode)), RESERVED_VALIDATIONS);
    if seen.spent.Get(entry.mode) >= MAX_VALIDATIONS - held then seen
    else seen.(spent := seen.spent.Add(entry.mode, 1), taken := seen.taken + [entry], positions := seen.positions + [i])
  }

  function Turn(t: Tally, entry: ScoredDraft, i: nat): Tally { if Full(t) then t else Visit(t, entry, i) }

  function Start(sorted: seq<ScoredDraft>): Tally { Tally(Counts(sorted), PerMode(0, 0), [], []) }

  /** The tally after the first `i` drafts. */
  function After(sorted: seq<ScoredDraft>, i: nat): Tally
    requires i <= |sorted|
  {
    if i == 0 then Start(sorted) else Turn(After(sorted, i - 1), sorted[i - 1], i - 1)
  }

  function Taken(sorted: seq<ScoredDraft>): seq<ScoredDraft> { After(sorted, |sorted|).taken }

  method Budgeted(sorted: seq<ScoredDraft>) returns (taken: seq<ScoredDraft>)
    ensures taken == Taken(sorted)
  {
    var unseen := CountModes(sorted);
    var spent := PerMode(0, 0);
    taken := [];
    ghost var positions: seq<nat> := [];
    for i := 0 to |sorted|
      invariant Tally(unseen, spent, taken, positions) == After(sorted, i)
    {
      if |taken| >= MAX_VALIDATIONS {
        StaysFull(sorted, i, |sorted|);
        return;
      }
      var mode := sorted[i].mode;
      unseen := unseen.Add(mode, -1);
      var held := Min(unseen.Get(Other(mode)), RESERVED_VALIDATIONS);
      if spent.Get(mode) >= MAX_VALIDATIONS - held {
        continue;
      }
      spent := spent.Add(mode, 1);
      taken, positions := taken + [sorted[i]], positions + [i];
    }
  }

  /** The first loop of `budgeted`. */
  method CountModes(sorted: seq<ScoredDraft>) returns (unseen: PerMode)
    ensures unseen == Counts(sorted)
  {
    unseen := PerMode(0, 0);
    for i := 0 to |sorted|
      invariant unseen == CountsIn(sorted, i)
    {
      unseen := unseen.Add(sorted[i].mode, 1);
    }
  }

  lemma {:induction false} StaysFull(sorted: seq<ScoredDraft>, i: nat, j: nat)
    requires i <= j <= |sorted| && Full(After(sorted, i))
    ensures After(sorted, j) == After(sorted, i)
    decreases j
  {
    if i < j {
      StaysFull(sorted, i, j - 1);
    }
  }

  // ----- The loop as a run -----

  predicate Step(sorted: seq<ScoredDraft>, run: seq<Tally>, k: nat) {
    k < |sorted| && |run| == |sorted| + 1 && run[k + 1] == Turn(run[k], sorted[k], k)
  }

  /** The tallies before the first turn and after each one. */
  ghost predicate IsRun(sorted: seq<ScoredDraft>, run: seq<Tally>) {
    |run| == |sorted| + 1 && run[0] == Start(sorted) && forall k: nat :: k < |sorted| ==> Step(sorted, run, k)
  }

  lemma RunOf(sorted: seq<ScoredDraft>) returns (run: seq<Tally>)
    ensures IsRun(sorted, run) && run[|sorted|] == After(sorted, |sorted|)
  {
    run := seq(|sorted| + 1, i requires 0 <= i <= |sorted| => After(sorted, i));
    forall k: nat | k < |sorted| ensures Step(sorted, run, k) {
      assert run[k + 1] == After(sorted, k + 1);
    }
  }

  // ----- The floor of each mode -----

  /**
    What the loop knows of one mode with `seen` of its drafts behind it: either all of them were
    taken, or the other mode's reservation cut it off; and it left that reservation alone.
  */
  predicate ModeOk(seen: int, spent: int, otherUnseen: int, total: int) {
    && 0 <= spent <= seen && 0 <= otherUnseen
    && spent <= MAX_VALIDATIONS - Min(otherUnseen, RESERVED_VALIDATIONS)
    && (spent < seen ==> spent >= MAX_VALIDATIONS - RESERVED_VALIDATIONS && total + otherUnseen >= MAX_VALIDATIONS)
  }

  predicate ModeHolds(t: Tally, all: PerMode, mode: Mode) {
    ModeOk(all.Get(mode) - t.unseen.Get(mode), t.spent.Get(mode), t.unseen.Get(Other(mode)), |t.taken|)
  }

  predicate TotalsOk(t: Tally, left: PerMode) {
    && 0 <= t.spent.path && 0 <= t.spent.selector && |t.taken| == t.spent.path + t.spent.selector <= MAX_VALIDATIONS
    && left.path <= t.unseen.path && left.selector <= t.unseen.selector
    && (!Full(t) ==> t.unseen == left)
  }

  /** The mode of the draft in hand has seen one more, and taken it unless the reservation stands against it. */
  lemma OwnModeOk(seen: int, spent: int, otherUnseen: int, total: int)
    requires ModeOk(seen, spent, otherUnseen, total) && spent <= total < MAX_VALIDATIONS
    ensures if spent >= MAX_VALIDATIONS - Min(otherUnseen, RESERVED_VALIDATIONS)
            then ModeOk(seen + 1, spent, otherUnseen, total)
            else ModeOk(seen + 1, spent + 1, otherUnseen, total + 1)
  {
  }

  /** For the other mode one fewer is to come; `mine` is what the mode of the draft in hand has taken. */
  lemma OtherModeOk(seen: int, spent: int, otherUnseen: int, total: int, mine: int, taken: bool)
    requires ModeOk(seen, spent, otherUnseen, total) && otherUnseen >= 1
    requires taken || (total == mine + spent < MAX_VALIDATIONS && mine >= MAX_VALIDATIONS - RESERVED_VALIDATIONS)
    ensures ModeOk(seen, spent, otherUnseen - 1, if taken then total + 1 else total)
  {
  }

  /** Whether the reservation for the other mode leaves room for a draft of this one. */
  predicate HasRoom(t: Tally, mode: Mode) {
    t.spent.Get(mode) < MAX_VALIDATIONS - Min(t.unseen.Get(Other(mode)), RESERVED_VALIDATIONS)
  }

  lemma VisitGets(t: Tally, entry: ScoredDraft, i: nat)
    ensures var u, mine, other := Visit(t, entry, i), entry.mode, Other(entry.mode);
      var more := if HasRoom(t, mine) then 1 else 0;
      && u.unseen.Get(mine) == t.unseen.Get(mine) - 1 && u.unseen.Get(other) == t.unseen.Get(other)
      && u.spent.Get(mine) == t.spent.Get(mine) + more && u.spent.Get(other) == t.spent.Get(other)
      && |u.taken| == |t.taken| + more
  {
  }

  lemma VisitKeepsMode(t: Tally, all: PerMode, entry: ScoredDraft, i: nat, mode: Mode)
    requires ModeHolds(t, all, mode) && !Full(t) && t.unseen.Get(entry.mode) > 0
    requires t.spent.Get(Other(mode)) >= 0 && |t.taken| == t.spent.Get(mode) + t.spent.Get(Other(mode))
    ensures ModeHolds(Visit(t, entry, i), all, mode)
  {
    var seen, spent := all.Get(mode) - t.unseen.Get(mode), t.spent.Get(mode);
    var otherUnseen, total := t.unseen.Get(Other(mode)), |t.taken|;
    VisitGets(t, entry, i);
    if entry.mode == mode {
      OwnModeOk(seen, spent, otherUnseen, total);
    } else {
      OtherModeOk(seen, spent, otherUnseen, total, t.spent.Get(Other(mode)), HasRoom(t, Other(mode)));
    }
  }

  lemma TurnKeepsTotals(t: Tally, left: PerMode, entry: ScoredDraft, i: nat)
    requires TotalsOk(t, left) && left.Get(entry.mode) > 0
    ensures TotalsOk(Turn(t, entry, i), left.Add(entry.mode, -1))
  {
  }

  lemma TurnKeepsMode(t: Tally, all: PerMode, left: PerMode, entry: ScoredDraft, i: nat, mode: Mode)
    requires ModeHolds(t, all, mode) && TotalsOk(t, left) && left.Get(entry.mode) > 0
    ensures ModeHolds(Turn(t, entry, i), all, mode)
  {
    if !Full(t) { VisitKeepsMode(t, all, entry, i, mode); }
  }

  lemma {:induction false} CountGrows(drafts: seq<ScoredDraft>, i: nat, j: nat, mode: Mode)
    requires i <= j <= |drafts|
    ensures CountIn(drafts, i, mode) <= CountIn(drafts, j, mode)
    decreases j
  {
    if i < j { CountGrows(drafts, i, j - 1, mode); }
  }

  function Remaining(sorted: seq<ScoredDraft>, i: nat): PerMode
    requires i <= |sorted|
  {
    PerMode(Count(sorted, JsonPathMode) - CountIn(sorted, i, JsonPathMode),
            Count(sorted, SelectorMode) - CountIn(sorted, i, SelectorMode))
  }

  lemma RemainingNext(sorted: seq<ScoredDraft>, i: nat)
    requires i < |sorted|
    ensures Remaining(sorted, i + 1) == Remaining(sorted, i).Add(sorted[i].mode, -1)
    ensures Remaining(sorted, i).Get(sorted[i].mode) > 0
  {
    CountGrows(sorted, i + 1, |sorted|, sorted[i].mode);
  }

  lemma {:induction false} TotalsHold(sorted: seq<ScoredDraft>, run: seq<Tally>, i: nat)
    requires i <= |sorted| && IsRun(sorted, run)
    ensures TotalsOk(run[i], Remaining(sorted, i))
  {
    if i == 0 {
      assert Remaining(sorted, 0) == Counts(sorted);
    } else {
      TotalsHold(sorted, run, i - 1);
      assert Step(sorted, run, i - 1);
      RemainingNext(sorted, i - 1);
      TurnKeepsTotals(run[i - 1], Remaining(sorted, i - 1), sorted[i - 1], i - 1);
    }
  }

  lemma {:induction false} ModeStays(sorted: seq<ScoredDraft>, run: seq<Tally>, i: nat, mode: Mode)
    requires i <= |sorted| && IsRun(sorted, run)
    ensures ModeHolds(run[i], run[0].unseen, mode)
  {
    if i == 0 {
      assert 0 <= run[0].unseen.Get(Other(mode));
    } else {
      ModeStays(sorted, run, i - 1, mode);
      TotalsHold(sorted, run, i - 1);
      RemainingNext(sorted, i - 1);
      assert Step(sorted, run, i - 1);
      TurnKeepsMode(run[i - 1], run[0].unseen, Remaining(sorted, i - 1), sorted[i - 1], i - 1, mode);
    }
  }

  lemma {:induction false} SameCount(a: seq<ScoredDraft>, b: seq<ScoredDraft>, i: nat, mode: Mode)
    requires i <= |a| && i <= |b| && forall k :: 0 <= k < i ==> a[k] == b[k]
    ensures CountIn(a, i, mode) == CountIn(b, i, mode)
  {
    if i > 0 { SameCount(a, b, i - 1, mode); }
  }

  lemma CountAdds(taken: seq<ScoredDraft>, entry: ScoredDraft)
    ensures Counts(taken + [entry]) == Counts(taken).Add(entry.mode, 1)
  {
    SameCount(taken, taken + [entry], |taken|, JsonPathMode);
    SameCount(taken, taken + [entry], |taken|, SelectorMode);
  }

  lemma {:induction false} SpentIsCounted(sorted: seq<ScoredDraft>, i: nat)
    requires i <= |sorted|
    ensures After(sorted, i).spent == Counts(After(sorted, i).taken)
  {
    if i > 0 {
      SpentIsCounted(sorted, i - 1);
      CountAdds(After(sorted, i - 1).taken, sorted[i - 1]);
    }
  }

  lemma {:induction false} CountTotal(drafts: seq<ScoredDraft>, i: nat)
    requires i <= |drafts|
    ensures CountIn(drafts, i, JsonPathMode) + CountIn(drafts, i, SelectorMode) == i
  {
    if i > 0 { CountTotal(drafts, i - 1); }
  }

  /** What one mode is sure to get: twelve, or half of its drafts rounded up when that is less. */
  function Floor(count: nat): nat { Min(RESERVED_VALIDATIONS, (count + 1) / 2) }

  /** The whole budget is spent when there are drafts for it, and neither mode falls below its floor. */
  lemma BudgetIsSpentFairly(sorted: seq<ScoredDraft>)
    ensures |Taken(sorted)| == Min(MAX_VALIDATIONS, |sorted|)
    ensures Count(Taken(sorted), JsonPathMode) >= Floor(Count(sorted, JsonPathMode))
    ensures Count(Taken(sorted), SelectorMode) >= Floor(Count(sorted, SelectorMode))
    ensures |sorted| <= MAX_VALIDATIONS ==> Taken(sorted) == sorted
  {
    var run := RunOf(sorted);
    TotalsHold(sorted, run, |sorted|);
    ModeStays(sorted, run, |sorted|, JsonPathMode);
    ModeStays(sorted, run, |sorted|, SelectorMode);
    SpentIsCounted(sorted, |sorted|);
    CountTotal(sorted, |sorted|);
    if |sorted| <= MAX_VALIDATIONS {
      TakenInOrder(sorted, |sorted|);
      AllPicked(sorted, After(sorted, |sorted|));
    }
  }

  // ----- Order -----

  /** `taken` picks the drafts at these positions, in order. */
  ghost predicate Picks(t: Tally, drafts: seq<ScoredDraft>, i: nat) {
    && |t.positions| == |t.taken|
    && (forall k :: 0 <= k < |t.positions| ==> t.positions[k] < i <= |drafts| && t.taken[k] == drafts[t.positions[k]])
    && (forall a, b :: 0 <= a < b < |t.positions| ==> t.positions[a] < t.positions[b])
  }

  lemma {:induction false} TakenInOrder(sorted: seq<ScoredDraft>, i: nat)
    requires i <= |sorted|
    ensures Picks(After(sorted, i), sorted, i)
  {
    if i > 0 {
      TakenInOrder(sorted, i - 1);
    }
  }

  /** The drafts taken are an order-preserving subsequence of the drafts offered. */
  lemma TakenIsSubsequence(sorted: seq<ScoredDraft>)
    ensures exists positions: seq<nat> ::
      && |positions| == |Taken(sorted)|
      && (forall k :: 0 <= k < |positions| ==> positions[k] < |sorted| && Taken(sorted)[k] == sorted[positions[k]])
      && (forall a, b :: 0 <= a < b < |positions| ==> positions[a] < positions[b])
  {
    TakenInOrder(sorted, |sorted|);
    var positions := After(sorted, |sorted|).positions;
    assert |positions| == |Taken(sorted)|;
  }

  lemma AllPicked(sorted: seq<ScoredDraft>, t: Tally)
    requires Picks(t, sorted, |sorted|) && |t.taken| == |sorted|
    ensures t.taken == sorted
  {
    forall k | 0 <= k < |sorted| ensures t.positions[k] == k {
      PositionIs(t.positions, |sorted|, k);
    }
  }

  lemma PositionIs(positions: seq<nat>, n: nat, k: nat)
    requires |positions| == n && k < n
    requires forall j :: 0 <= j < n ==> positions[j] < n
    requires forall a, b :: 0 <= a < b < n ==> positions[a] < positions[b]
    ensures positions[k] == k
  {
    AtLeast(positions, k);
    AtMost(positions, n, k);
  }

  lemma {:induction false} AtLeast(positions: seq<nat>, k: nat)
    requires k < |positions| && forall a, b :: 0 <= a < b < |positions| ==> positions[a] < positions[b]
    ensures positions[k] >= k
  {
    if k > 0 { AtLeast(positions, k - 1); }
  }

  lemma {:induction false} AtMost(positions: seq<nat>, n: nat, k: nat)
    requires k < |positions| == n && (forall a, b :: 0 <= a < b < n ==> positions[a] < positions[b])
    requires forall j :: 0 <= j < n ==> positions[j] < n
    ensures positions[k] <= k
    decreases n - k
  {
    if k < n - 1 { AtMost(positions, n, k + 1); }
  }

  // ----- The floor is exact -----

  /** The least number of its drafts a mode can get over all orders, from how many drafts each mode has. */
  function Least(own: nat, other: nat): nat { Min(own, Max(MAX_VALIDATIONS - other, Floor(own))) }

  function Max(a: int, b: int): int { if a < b then b else a }

  predicate HasCounts(sorted: seq<ScoredDraft>, mode: Mode, own: nat, other: nat) {
    Count(sorted, mode) == own && Count(sorted, Other(mode)) == other
  }

  lemma TotalsOfModes(drafts: seq<ScoredDraft>, mode: Mode)
    ensures Count(drafts, mode) + Count(drafts, Other(mode)) == |drafts|
  {
    CountTotal(drafts, |drafts|);
  }

  lemma NoMoreThanOffered(sorted: seq<ScoredDraft>, mode: Mode)
    ensures Count(Taken(sorted), mode) <= Count(sorted, mode)
  {
    var run := RunOf(sorted);
    ModeStays(sorted, run, |sorted|, mode);
    ModeStays(sorted, run, |sorted|, Other(mode));
    SpentIsCounted(sorted, |sorted|);
  }

  lemma AtLeastTheLeast(sorted: seq<ScoredDraft>, mode: Mode, own: nat, other: nat)
    requires HasCounts(sorted, mode, own, other)
    ensures Count(Taken(sorted), mode) >= Least(own, other)
  {
    BudgetIsSpentFairly(sorted);
    TotalsOfModes(sorted, mode);
    TotalsOfModes(Taken(sorted), mode);
    NoMoreThanOffered(sorted, Other(mode));
    assert Count(Taken(sorted), mode) >= Floor(own);
  }

  // ----- Stretches of drafts -----

  /** A pair of numbers, the first of them that of `mode`. */
  function Of(mode: Mode, own: int, other: int): PerMode {
    if mode == JsonPathMode then PerMode(own, other) else PerMode(other, own)
  }

  /** What the loop's decisions depend on. */
  predicate At(t: Tally, mode: Mode, unseen: int, otherUnseen: int, spent: int, otherSpent: int) {
    && t.unseen == Of(mode, unseen, otherUnseen) && t.spent == Of(mode, spent, otherSpent)
    && |t.taken| == spent + otherSpent
  }

  /** The drafts from `i` up to `j` are of one mode. */
  predicate Stretch(sorted: seq<ScoredDraft>, i: nat, j: nat, mode: Mode) {
    i <= j <= |sorted| && forall k :: i <= k < j ==> sorted[k].mode == mode
  }

  predicate PairAt(sorted: seq<ScoredDraft>, i: nat, mode: Mode, k: nat) {
    i + 2 * k + 2 <= |sorted| && sorted[i + 2 * k].mode == mode && sorted[i + 2 * k + 1].mode == Other(mode)
  }

  /** From `i` on there are `n` pairs of drafts of two modes, `mode` first. */
  predicate InTurn(sorted: seq<ScoredDraft>, i: nat, n: nat, mode: Mode) {
    i + 2 * n <= |sorted| && forall k: nat :: k < n ==> PairAt(sorted, i, mode, k)
  }

  lemma Flip(t: Tally, mode: Mode, unseen: int, otherUnseen: int, spent: int, otherSpent: int)
    requires At(t, mode, unseen, otherUnseen, spent, otherSpent)
    ensures At(t, Other(mode), otherUnseen, unseen, otherSpent, spent)
  {
  }

  /** While the budget and the other mode's reservation leave room, a draft is taken. */
  lemma TurnTakes(
    t: Tally, entry: ScoredDraft, i: nat, mode: Mode, unseen: int, otherUnseen: int, spent: int, otherSpent: int)
    requires entry.mode == mode && At(t, mode, unseen, otherUnseen, spent, otherSpent)
    requires spent + otherSpent < MAX_VALIDATIONS && spent < MAX_VALIDATIONS - Min(otherUnseen, RESERVED_VALIDATIONS)
    ensures At(Turn(t, entry, i), mode, unseen - 1, otherUnseen, spent + 1, otherSpent)
  {
  }

  lemma {:induction false} TakesAll(
    sorted: seq<ScoredDraft>, run: seq<Tally>, i: nat, n: nat, mode: Mode,
    unseen: int, otherUnseen: int, spent: int, otherSpent: int)
    requires IsRun(sorted, run) && Stretch(sorted, i, i + n, mode)
    requires At(run[i], mode, unseen, otherUnseen, spent, otherSpent)
    requires spent + n <= MAX_VALIDATIONS - Min(otherUnseen, RESERVED_VALIDATIONS)
    requires spent + otherSpent + n <= MAX_VALIDATIONS
    ensures At(run[i + n], mode, unseen - n, otherUnseen, spent + n, otherSpent)
    decreases n
  {
    if n > 0 {
      var m, k := n - 1, i + n - 1;
      TakesAll(sorted, run, i, m, mode, unseen, otherUnseen, spent, otherSpent);
      assert Step(sorted, run, k);
      TurnTakes(run[k], sorted[k], k, mode, unseen - m, otherUnseen, spent + m, otherSpent);
    }
  }

  lemma {:induction false} FullStays(sorted: seq<ScoredDraft>, run: seq<Tally>, i: nat, j: nat)
    requires i <= j <= |sorted| && IsRun(sorted, run) && Full(run[i])
    ensures run[j] == run[i]
    decreases j
  {
    if i < j {
      FullStays(sorted, run, i, j - 1);
      assert Step(sorted, run, j - 1);
    }
  }

  /** When the other mode has spent what is reserved for it, a stretch is taken until the budget is full. */
  lemma TakesUntilFull(
    sorted: seq<ScoredDraft>, run: seq<Tally>, i: nat, n: nat, mode: Mode,
    unseen: int, otherUnseen: int, spent: int, otherSpent: int)
    requires IsRun(sorted, run) && Stretch(sorted, i, i + n, mode)
    requires At(run[i], mode, unseen, otherUnseen, spent, otherSpent)
    requires Min(otherUnseen, RESERVED_VALIDATIONS) <= otherSpent && spent + otherSpent <= MAX_VALIDATIONS
    ensures var m := Min(n, MAX_VALIDATIONS - otherSpent - spent);
      At(run[i + n], mode, unseen - m, otherUnseen, spent + m, otherSpent)
  {
    var m := Min(n, MAX_VALIDATIONS - otherSpent - spent);
    TakesAll(sorted, run, i, m, mode, unseen, otherUnseen, spent, otherSpent);
    if m < n { FullStays(sorted, run, i + m, i + n); }
  }

  /** Where the reservation for `mode` has stopped the other mode, a draft of `mode` lets exactly one more through. */
  lemma PairIsTaken(
    t: Tally, d: ScoredDraft, e: ScoredDraft, i: nat, mode: Mode, unseen: int, otherUnseen: int, spent: int)
    requires d.mode == mode && e.mode == Other(mode)
    requires unseen <= RESERVED_VALIDATIONS && 0 <= spent && spent + 2 <= unseen
    requires At(t, mode, unseen, otherUnseen, spent, MAX_VALIDATIONS - unseen)
    ensures At(Turn(Turn(t, d, i), e, i + 1), mode,
               unseen - 1, otherUnseen - 1, spent + 1, MAX_VALIDATIONS - unseen + 1)
  {
    var otherSpent, u := MAX_VALIDATIONS - unseen, Turn(t, d, i);
    TurnTakes(t, d, i, mode, unseen, otherUnseen, spent, otherSpent);
    Flip(u, mode, unseen - 1, otherUnseen, spent + 1, otherSpent);
    TurnTakes(u, e, i + 1, Other(mode), otherUnseen, unseen - 1, otherSpent, spent + 1);
    Flip(Turn(u, e, i + 1), Other(mode), otherUnseen - 1, unseen - 1, otherSpent + 1, spent + 1);
  }

  lemma {:induction false} PairsAreTaken(
    sorted: seq<ScoredDraft>, run: seq<Tally>, i: nat, n: nat, mode: Mode,
    unseen: int, otherUnseen: int, spent: int, otherSpent: int)
    requires IsRun(sorted, run) && InTurn(sorted, i, n, mode)
    requires At(run[i], mode, unseen, otherUnseen, spent, otherSpent)
    requires n > 0 ==>
      0 <= spent && spent + 2 * n <= unseen <= RESERVED_VALIDATIONS && otherSpent == MAX_VALIDATIONS - unseen
    ensures At(run[i + 2 * n], mode, unseen - n, otherUnseen - n, spent + n, otherSpent + n)
    decreases n
  {
    if n > 0 {
      var m := n - 1;
      var k := i + 2 * m;
      PairsAreTaken(sorted, run, i, m, mode, unseen, otherUnseen, spent, otherSpent);
      assert PairAt(sorted, i, mode, m) && Step(sorted, run, k) && Step(sorted, run, k + 1);
      PairIsTaken(run[k], sorted[k], sorted[k + 1], k, mode, unseen - m, otherUnseen - m, spent + m);
    }
  }

  // ----- An order in which a mode gets its least -----

  /**
    The other mode's drafts up to the reservation, `early` drafts of the mode, pairs that let one more of the other mode
    through at a time, and what is left of each. `late` is how many of the mode come behind the early ones, `otherLeft`
    how many of the other mode behind its lead.
  */
  datatype Plan = Plan(early: nat, late: nat, lead: nat, otherLeft: nat, pairs: nat) {
    function Own(): nat { early + late }
    function Others(): nat { lead + otherLeft }
    function Length(): nat { Own() + Others() }
    function Turns(): nat { lead + early }
    function Rest(): nat { lead + early + 2 * pairs }
    function Last(): int { lead + early + pairs + late }

    predicate Ok() {
      && pairs <= late == Min(RESERVED_VALIDATIONS, early + late) && pairs <= otherLeft
      && lead <= MAX_VALIDATIONS - late
      && (pairs > 0 ==> early + 2 * pairs <= late)
      && (otherLeft > 0 ==> lead == MAX_VALIDATIONS - late)
    }
  }

  function ModeAt(p: Plan, mode: Mode, k: nat): Mode {
    if k < p.lead then Other(mode)
    else if k < p.Turns() then mode
    else if k < p.Rest() then (if (k - p.Turns()) % 2 == 0 then mode else Other(mode))
    else if k < p.Last() then mode
    else Other(mode)
  }

  function Drafts(p: Plan, mode: Mode): seq<ScoredDraft> {
    seq(p.Length(), k requires k >= 0 => ScoredDraft(ModeAt(p, mode, k), "$..price", 0))
  }

  predicate Follows(sorted: seq<ScoredDraft>, p: Plan, mode: Mode) {
    && |sorted| == p.Length() && p.Rest() <= p.Last() <= p.Length()
    && Stretch(sorted, 0, p.lead, Other(mode)) && Stretch(sorted, p.lead, p.Turns(), mode)
    && InTurn(sorted, p.Turns(), p.pairs, mode)
    && Stretch(sorted, p.Rest(), p.Last(), mode) && Stretch(sorted, p.Last(), p.Length(), Other(mode))
  }

  lemma DraftsAreTurns(p: Plan, mode: Mode)
    requires p.Ok()
    ensures InTurn(Drafts(p, mode), p.Turns(), p.pairs, mode)
  {
    forall k: nat | k < p.pairs ensures PairAt(Drafts(p, mode), p.Turns(), mode, k) {
      assert (2 * k) % 2 == 0 && (2 * k + 1) % 2 == 1;
    }
  }

  lemma DraftsAreStretch(p: Plan, mode: Mode, i: nat, j: nat, own: Mode)
    requires i <= j <= p.Length() && forall k: nat :: i <= k < j ==> ModeAt(p, mode, k) == own
    ensures Stretch(Drafts(p, mode), i, j, own)
  {
  }

  lemma DraftsFollow(p: Plan, mode: Mode)
    requires p.Ok()
    ensures Follows(Drafts(p, mode), p, mode)
  {
    DraftsAreTurns(p, mode);
    DraftsAreStretch(p, mode, 0, p.lead, Other(mode));
    DraftsAreStretch(p, mode, p.lead, p.Turns(), mode);
    DraftsAreStretch(p, mode, p.Rest(), p.Last(), mode);
    DraftsAreStretch(p, mode, p.Last(), p.Length(), Other(mode));
  }

  lemma {:induction false} CountStretch(sorted: seq<ScoredDraft>, i: nat, j: nat, mode: Mode, counted: Mode)
    requires Stretch(sorted, i, j, mode)
    ensures CountIn(sorted, j, counted) == CountIn(sorted, i, counted) + if counted == mode then j - i else 0
    decreases j
  {
    if i < j { CountStretch(sorted, i, j - 1, mode, counted); }
  }

  lemma {:induction false} CountInTurn(sorted: seq<ScoredDraft>, i: nat, n: nat, mode: Mode, counted: Mode)
    requires InTurn(sorted, i, n, mode)
    ensures CountIn(sorted, i + 2 * n, counted) == CountIn(sorted, i, counted) + n
    decreases n
  {
    if n > 0 {
      var m := n - 1;
      CountInTurn(sorted, i, m, mode, counted);
      assert PairAt(sorted, i, mode, m);
      assert CountIn(sorted, i + 2 * m + 2, counted) == CountIn(sorted, i + 2 * m, counted) + 1;
    }
  }

  lemma PlanCounts(sorted: seq<ScoredDraft>, p: Plan, mode: Mode, counted: Mode)
    requires Follows(sorted, p, mode)
    ensures Count(sorted, counted) == if counted == mode then p.Own() else p.Others()
  {
    CountStretch(sorted, 0, p.lead, Other(mode), counted);
    CountStretch(sorted, p.lead, p.Turns(), mode, counted);
    CountInTurn(sorted, p.Turns(), p.pairs, mode, counted);
    CountStretch(sorted, p.Rest(), p.Last(), mode, counted);
    CountStretch(sorted, p.Last(), p.Length(), Other(mode), counted);
  }

  lemma PlanStarts(sorted: seq<ScoredDraft>, run: seq<Tally>, p: Plan, mode: Mode)
    requires p.Ok() && Follows(sorted, p, mode) && IsRun(sorted, run)
    ensures At(run[p.lead], mode, p.Own(), p.otherLeft, 0, p.lead)
  {
    PlanCounts(sorted, p, mode, mode);
    PlanCounts(sorted, p, mode, Other(mode));
    assert At(run[0], Other(mode), p.Others(), p.Own(), 0, 0);
    TakesAll(sorted, run, 0, p.lead, Other(mode), p.Others(), p.Own(), 0, 0);
    Flip(run[p.lead], Other(mode), p.otherLeft, p.Own(), p.lead, 0);
  }

  lemma PlanTurns(sorted: seq<ScoredDraft>, run: seq<Tally>, p: Plan, mode: Mode)
    requires p.Ok() && Follows(sorted, p, mode) && IsRun(sorted, run)
    ensures var m := Min(p.early, MAX_VALIDATIONS - p.lead);
      At(run[p.Turns()], mode, p.Own() - m, p.otherLeft, m, p.lead)
  {
    PlanStarts(sorted, run, p, mode);
    TakesUntilFull(sorted, run, p.lead, p.early, mode, p.Own(), p.otherLeft, 0, p.lead);
  }

  /** The end of an order: what is left of the mode, then of the other one. */
  lemma EndingIsTaken(
    sorted: seq<ScoredDraft>, run: seq<Tally>, i: nat, n: nat, mode: Mode, left: int, spent: int, otherSpent: int)
    requires IsRun(sorted, run) && Stretch(sorted, i, i + n, mode)
    requires At(run[i], mode, n, left, spent, otherSpent)
    requires Min(left, RESERVED_VALIDATIONS) <= otherSpent && spent + otherSpent <= MAX_VALIDATIONS
    requires left == |sorted| - (i + n) && (left > 0 ==> spent + n + otherSpent >= MAX_VALIDATIONS)
    ensures run[|sorted|].spent.Get(mode) == Min(spent + n, MAX_VALIDATIONS - otherSpent)
  {
    TakesUntilFull(sorted, run, i, n, mode, n, left, spent, otherSpent);
    if left > 0 { FullStays(sorted, run, i + n, |sorted|); }
  }

  lemma PlanGets(sorted: seq<ScoredDraft>, run: seq<Tally>, p: Plan, mode: Mode)
    requires p.Ok() && Follows(sorted, p, mode) && IsRun(sorted, run)
    ensures run[|sorted|].spent.Get(mode) == Min(p.Own(), MAX_VALIDATIONS - p.lead - p.pairs)
  {
    PlanTurns(sorted, run, p, mode);
    if p.early + p.lead <= MAX_VALIDATIONS {
      var rest := p.late - p.pairs;
      PairsAreTaken(sorted, run, p.Turns(), p.pairs, mode, p.late, p.otherLeft, p.early, p.lead);
      EndingIsTaken(
        sorted, run, p.Rest(), rest, mode, p.otherLeft - p.pairs, p.early + p.pairs, p.lead + p.pairs);
    } else {
      FullStays(sorted, run, p.Turns(), |sorted|);
    }
  }

  function Worst(own: nat, other: nat): Plan {
    var late := Min(RESERVED_VALIDATIONS, own);
    var lead := Min(other, MAX_VALIDATIONS - late);
    Plan(own - late, late, lead, other - lead, if 2 * late < own then 0 else Min(other - lead, (2 * late - own) / 2))
  }

  lemma WorstIsOk(own: nat, other: nat)
    ensures var p := Worst(own, other);
      p.Ok() && p.Own() == own && p.Others() == other
      && Min(own, MAX_VALIDATIONS - p.lead - p.pairs) == Least(own, other)
  {
  }

  lemma WorstOrder(mode: Mode, own: nat, other: nat)
    ensures var sorted := Drafts(Worst(own, other), mode);
      HasCounts(sorted, mode, own, other) && Count(Taken(sorted), mode) == Least(own, other)
  {
    var p := Worst(own, other);
    var sorted := Drafts(p, mode);
    WorstIsOk(own, other);
    DraftsFollow(p, mode);
    PlanCounts(sorted, p, mode, mode);
    PlanCounts(sorted, p, mode, Other(mode));
    var run := RunOf(sorted);
    PlanGets(sorted, run, p, mode);
    SpentIsCounted(sorted, |sorted|);
  }

  /**
    What a mode is sure of, as a function of the two counts alone: every order gives it at least that many drafts, and
    some order gives it no more.
  */
  lemma LeastIsExact(mode: Mode, own: nat, other: nat)
    ensures forall sorted :: HasCounts(sorted, mode, own, other) ==> Count(Taken(sorted), mode) >= Least(own, other)
    ensures exists sorted :: HasCounts(sorted, mode, own, other) && Count(Taken(sorted), mode) == Least(own, other)
  {
    forall sorted | HasCounts(sorted, mode, own, other) ensures Count(Taken(sorted), mode) >= Least(own, other) {
      AtLeastTheLeast(sorted, mode, own, other);
    }
    WorstOrder(mode, own, other);
  }

  /** Twelve drafts, or all of a mode that has fewer, are guaranteed for exactly these counts. */
  lemma FloorOfTwelveIff(mode: Mode, own: nat, other: nat)
    ensures
      (forall sorted :: HasCounts(sorted, mode, own, other) ==>
         Count(Taken(sorted), mode) >= Min(RESERVED_VALIDATIONS, own))
      <==> own <= 1 || own >= 23 || other + Min(RESERVED_VALIDATIONS, own) <= MAX_VALIDATIONS
  {
    LeastIsExact(mode, own, other);
    var sorted :| HasCounts(sorted, mode, own, other) && Count(Taken(sorted), mode) == Least(own, other);
  }

  /** Twelve selectors against forty path drafts: the selectors can get six. */
  lemma TwelveSelectorsGetSix()
    ensures var sorted := Drafts(Worst(12, 40), SelectorMode);
      Count(sorted, SelectorMode) == 12 && Count(Taken(sorted), SelectorMode) == 6
  {
    WorstOrder(SelectorMode, 12, 40);
  }
}
