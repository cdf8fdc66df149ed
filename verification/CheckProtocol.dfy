/**
  Checks racing edits: apps/worker/src/check-listing.ts against packages/api/src/routers/listings.ts.
  A check loads a snapshot, fetches and extracts, and commits in one transaction that only claims
  the row while its `updatedAt` is unchanged. The interleaving, the site's answers, crashes and the
  clock are the environment's.
*/
module CheckProtocol {
  import opened Prelude
  import opened Evidence
  import opened Listings
  import opened CheckOutcome

  /** `under` is not a column: it remembers the settings the price was extracted with. */
  datatype PricePoint = PricePoint(price: string, currency: string, inStock: Option<bool>, under: Settings)

  datatype CheckRun = CheckRun(status: Status, extractorUsed: Option<string>, httpStatus: Option<nat>)

  /** PostgreSQL keeps `updated_at` in microseconds; a loaded row carries it in milliseconds. */
  datatype Row = Row(listing: Listing, updatedAtMicros: nat)
  datatype Snapshot = Snapshot(listing: Listing, updatedAtMs: nat)

  function Loaded(row: Row): Snapshot { Snapshot(row.listing, row.updatedAtMicros / 1000) }

  /** `$onUpdate(() => new Date())`: every update stamps the row with a whole millisecond. */
  function Stamp(listing: Listing, nowMs: nat): Row { Row(listing, nowMs * 1000) }

  datatype Write = Write(validators: Validators, currency: Option<string>, pricePoint: Option<PricePoint>)

  /** `buildWrite`, and the empty write `runCheck` uses for an answer without a page. */
  function BuildWrite(listing: Listing, fetched: Fetched, extraction: Option<Extraction>, currency: Option<string>,
                      outcome: Outcome): Write
  {
    if !(fetched.PageOk? || fetched.NotModified?) then Write(Validators(None, None), None, None)
    else
      var accepted := AcceptedObservation(outcome, extraction, currency);
      var validators := ValidatorUpdate(fetched, accepted.Some?);
      if accepted.None? then Write(validators, None, None)
      else Write(
        validators,
        if listing.currency.None? then Some(accepted.value.currency) else None,
        Some(PricePoint(accepted.value.extraction.price, accepted.value.currency, accepted.value.extraction.inStock,
                        listing.settings)))
  }

  /** The answer to one check, as the environment chooses it. */
  datatype Reply = Reply(fetched: Fetched, extraction: Option<Extraction>)

  /** What `runCheck` makes of a reply: the outcome and the write, both from the snapshot alone. */
  function Outcomes(snapshot: Snapshot, reply: Reply): (Outcome, Write) {
    var extraction := if reply.fetched.PageOk? then reply.extraction else None;
    var extracted := if extraction.Some? && extraction.value.Extracted? then extraction.value.currency else None;
    var currency := if extracted.Some? then extracted else snapshot.listing.currency;
    var outcome := ToCheckOutcome(reply.fetched, extraction, currency);
    (outcome, BuildWrite(snapshot.listing, reply.fetched, extraction, currency, outcome))
  }

  /** RFC 9110, section 15.4.5: a 304 answers a conditional request, which only the http path sends. */
  predicate Answerable(snapshot: Snapshot, fetched: Fetched) {
    fetched.NotModified? ==> snapshot.listing.settings.render == Http && HasValidators(snapshot.listing)
  }

  /** The columns the claiming update sets. */
  function Claimed(listing: Listing, write: Write, scheduledFor: nat): Listing {
    listing.(
      etag := if write.validators.etag.Some? then write.validators.etag else listing.etag,
      lastModified :=
        if write.validators.lastModified.Some? then write.validators.lastModified else listing.lastModified,
      currency := if write.currency.Some? then write.currency else listing.currency,
      nextCheckAt := scheduledFor)
  }

  // ----- The state machine -----

  /** `at` counts steps, so that the spans of two checks can be compared; `wrote` is the place of the price point. */
  datatype Check =
    | InFlight(snapshot: Snapshot, loadedAt: nat)
    | Persisted(snapshot: Snapshot, loadedAt: nat, committedAt: nat, wrote: Option<nat>)
    | Stale(loadedAt: nat)
    | Crashed

  datatype State = State(
    row: Row,
    pricePoints: seq<PricePoint>,
    checkRuns: seq<CheckRun>,
    checks: map<nat, Check>,
    edits: map<nat, Settings>,
    at: nat)

  datatype Event =
    | Load(check: nat)
    | Commit(check: nat, reply: Reply, scheduledFor: nat, now: nat)
    | Crash(check: nat)
    | EditLoad(edit: nat)
    | EditWrite(edit: nat, input: UpdateInput, pulledIn: Option<nat>, now: nat)
    | Touch(now: nat)   // the alerting's own update of brokenReportedAt

  predicate CommitPersists(s: State, snapshot: Snapshot) {
    s.row.updatedAtMicros / 1000 == snapshot.updatedAtMs
  }

  predicate Enabled(s: State, e: Event) {
    match e
    case Load(c) => c !in s.checks && s.row.listing.active
    case Commit(c, reply, _, _) =>
      c in s.checks && s.checks[c].InFlight? && Answerable(s.checks[c].snapshot, reply.fetched)
    case Crash(c) => c in s.checks && s.checks[c].InFlight?
    case EditLoad(edit) => edit !in s.edits
    case EditWrite(edit, _, _, _) => edit in s.edits
    case Touch(_) => true
  }

  function Updated(s: State, listing: Listing, now: nat): State {
    s.(row := Stamp(listing, now))
  }

  function CommitStep(s: State, c: nat, reply: Reply, scheduledFor: nat, now: nat): State
    requires c in s.checks && s.checks[c].InFlight?
  {
    var snapshot, loadedAt := s.checks[c].snapshot, s.checks[c].loadedAt;
    var (outcome, write) := Outcomes(snapshot, reply);
    var run := CheckRun(outcome.status, outcome.extractorUsed, outcome.httpStatus);
    if CommitPersists(s, snapshot) then
      Updated(s, Claimed(s.row.listing, write, scheduledFor), now).(
        pricePoints := s.pricePoints + (if write.pricePoint.Some? then [write.pricePoint.value] else []),
        checkRuns := s.checkRuns + [run],
        checks := s.checks[c := Persisted(snapshot, loadedAt, s.at,
          if write.pricePoint.Some? then Some(|s.pricePoints|) else None)])
    else
      s.(checkRuns := s.checkRuns + [run], checks := s.checks[c := Stale(loadedAt)])
  }

  function EditStep(s: State, loaded: Settings, input: UpdateInput, pulledIn: Option<nat>, now: nat): State {
    var patch := BuildListingUpdatePatch(loaded, input, now, pulledIn);
    if EmptyPatch(patch) then s else Updated(s, ApplyPatch(s.row.listing, patch), now)
  }

  function Step(s: State, e: Event): State
    requires Enabled(s, e)
  {
    match e
    case Load(c) => s.(checks := s.checks[c := InFlight(Loaded(s.row), s.at)])
    case Commit(c, reply, scheduledFor, now) => CommitStep(s, c, reply, scheduledFor, now)
    case Crash(c) => s.(checks := s.checks[c := Crashed])
    case EditLoad(edit) => s.(edits := s.edits[edit := s.row.listing.settings])
    case EditWrite(edit, input, pulledIn, now) =>
      EditStep(s, s.edits[edit], input, pulledIn, now).(edits := s.edits - {edit})
    case Touch(now) => Updated(s, s.row.listing, now)
  }

  function Next(s: State, e: Event): State {
    if Enabled(s, e) then Step(s, e).(at := s.at + 1) else s
  }

  /** A listing as it is inserted: no validators, `updated_at` from the database's own clock. */
  function Init(listing: Listing, updatedAtMicros: nat): State {
    State(Row(listing.(etag := None, lastModified := None), updatedAtMicros), [], [], map[], map[], 0)
  }

  function Run(s: State, events: seq<Event>): State
    decreases |events|
  {
    if events == [] then s else Next(Run(s, events[..|events| - 1]), events[|events| - 1])
  }

  /** Whether a step runs an `update` on the row, which stamps it. */
  predicate UpdatesRow(s: State, e: Event) {
    match e
    case Commit(c, _, _, _) => Enabled(s, e) && CommitPersists(s, s.checks[c].snapshot)
    case EditWrite(edit, input, pulledIn, now) =>
      edit in s.edits && !EmptyPatch(BuildListingUpdatePatch(s.edits[edit], input, now, pulledIn))
    case Touch(_) => true
    case _ => false
  }

  /** A check in flight, other than the one whose commit the step is. */
  predicate Bystander(s: State, e: Event, c: nat) {
    c in s.checks && s.checks[c].InFlight? && !(e.Commit? && e.check == c)
  }

  /** An update does not land on the very millisecond that a check in flight has loaded. */
  ghost predicate FreshStamp(s: State, e: Event) {
    UpdatesRow(s, e) ==> forall c :: Bystander(s, e, c) ==> e.now != s.checks[c].snapshot.updatedAtMs
  }

  /** The condition under which an edit from settings it loaded earlier leaves no validator behind it unbacked. */
  predicate EditIsHarmless(loaded: Settings, current: Settings, input: UpdateInput) {
    ExtractionSettingsChanged(loaded, input) || !ExtractionSettingsChanged(current, input)
  }

  predicate HarmlessStep(s: State, e: Event) {
    e.EditWrite? && e.edit in s.edits && HasValidators(s.row.listing) ==>
      EditIsHarmless(s.edits[e.edit], s.row.listing.settings, e.input)
  }

  ghost predicate FreshRun(s: State, events: seq<Event>) {
    forall k :: 0 <= k < |events| ==> FreshStamp(Run(s, events[..k]), events[k])
  }

  ghost predicate HarmlessEdits(s: State, events: seq<Event>) {
    forall k :: 0 <= k < |events| ==> HarmlessStep(Run(s, events[..k]), events[k])
  }

  // ----- The commit only claims the row it was computed from -----

  ghost predicate CheckOk(s: State, check: Check) {
    match check
    case InFlight(snapshot, loadedAt) =>
      && loadedAt < s.at
      && (CommitPersists(s, snapshot) ==> snapshot.listing == s.row.listing)
    case Persisted(_, loadedAt, committedAt, _) => loadedAt < committedAt < s.at
    case Stale(_) => true
    case Crashed => true
  }

  /** Two checks cannot both persist when each was loaded before the other committed. */
  ghost predicate PairOk(s: State, a: Check, b: Check) {
    && (a.Persisted? && b.Persisted? ==> a.committedAt < b.loadedAt || b.committedAt < a.loadedAt)
    && (a.Persisted? && b.InFlight? && b.loadedAt <= a.committedAt ==> !CommitPersists(s, b.snapshot))
  }

  ghost predicate Inv(s: State) {
    && (forall c :: c in s.checks ==> CheckOk(s, s.checks[c]))
    && (forall a, b :: a in s.checks && b in s.checks && a != b ==> PairOk(s, s.checks[a], s.checks[b]))
  }

  /** After an update on another millisecond no check in flight can claim the row any more. */
  lemma UpdateKeepsInv(s: State, listing: Listing, now: nat)
    requires Inv(s)
    requires forall c :: c in s.checks && s.checks[c].InFlight? ==> now != s.checks[c].snapshot.updatedAtMs
    ensures Inv(Updated(s, listing, now))
  {
    var t := Updated(s, listing, now);
    assert t.row.updatedAtMicros / 1000 == now;
    forall a, b | a in s.checks && b in s.checks && a != b ensures PairOk(t, s.checks[a], s.checks[b]) {
      assert PairOk(s, s.checks[a], s.checks[b]);
    }
    forall c | c in s.checks ensures CheckOk(t, s.checks[c]) {
      assert CheckOk(s, s.checks[c]);
    }
  }

  lemma CommitKeepsInv(s: State, e: Event)
    requires Inv(s) && FreshStamp(s, e) && e.Commit? && Enabled(s, e)
    ensures Inv(Next(s, e))
  {
    var t, c := Next(s, e), e.check;
    if CommitPersists(s, s.checks[c].snapshot) {
      assert t.row.updatedAtMicros / 1000 == e.now;
      assert CheckOk(s, s.checks[c]);
      forall a | a in t.checks ensures CheckOk(t, t.checks[a]) {
        assert CheckOk(s, s.checks[a]) && (a != c && s.checks[a].InFlight? ==> Bystander(s, e, a));
      }
      forall a, b | a in t.checks && b in t.checks && a != b ensures PairOk(t, t.checks[a], t.checks[b]) {
        assert PairOk(s, s.checks[a], s.checks[b]) && PairOk(s, s.checks[b], s.checks[a]);
        assert CheckOk(s, s.checks[a]) && CheckOk(s, s.checks[b]);
        assert b != c && s.checks[b].InFlight? ==> Bystander(s, e, b);
      }
    } else {
      KeepsInvWithoutUpdate(s, t, c);
    }
  }

  /** A step that leaves the row alone and ends or starts one check. */
  lemma KeepsInvWithoutUpdate(s: State, t: State, c: nat)
    requires Inv(s) && t.row == s.row && t.at == s.at + 1
    requires c in t.checks && t.checks == s.checks[c := t.checks[c]]
    requires t.checks[c].Stale? || t.checks[c].Crashed?
          || (c !in s.checks && t.checks[c] == InFlight(Loaded(s.row), s.at))
    ensures Inv(t)
  {
    forall a | a in t.checks ensures CheckOk(t, t.checks[a]) {
      if a != c { assert CheckOk(s, s.checks[a]); }
    }
    forall a, b | a in t.checks && b in t.checks && a != b ensures PairOk(t, t.checks[a], t.checks[b]) {
      if a != c && b != c { assert PairOk(s, s.checks[a], s.checks[b]); }
      if a != c { assert CheckOk(s, s.checks[a]); }
    }
  }

  lemma AtKeepsInv(s: State)
    requires Inv(s)
    ensures Inv(s.(at := s.at + 1))
  {
    var t := s.(at := s.at + 1);
    forall a | a in t.checks ensures CheckOk(t, t.checks[a]) {
      assert CheckOk(s, s.checks[a]);
    }
    forall a, b | a in t.checks && b in t.checks && a != b ensures PairOk(t, t.checks[a], t.checks[b]) {
      assert PairOk(s, s.checks[a], s.checks[b]);
    }
  }

  lemma NextKeepsInv(s: State, e: Event)
    requires Inv(s) && FreshStamp(s, e)
    ensures Inv(Next(s, e))
  {
    if Enabled(s, e) {
      var t := Next(s, e);
      match e {
        case Load(c) => KeepsInvWithoutUpdate(s, t, c);
        case Commit(_, _, _, _) => CommitKeepsInv(s, e);
        case Crash(c) => KeepsInvWithoutUpdate(s, t, c);
        case EditLoad(_) => EditsKeepInv(s, t.edits);
        case EditWrite(_, _, _, now) =>
          if UpdatesRow(s, e) {
            BystandersAreAll(s, e);
            UpdateKeepsInv(s, t.row.listing, now);
            EditsKeepInv(Updated(s, t.row.listing, now), t.edits);
          } else {
            EditsKeepInv(s, t.edits);
          }
        case Touch(now) =>
          BystandersAreAll(s, e);
          UpdateKeepsInv(s, s.row.listing, now);
          AtKeepsInv(Updated(s, s.row.listing, now));
      }
    }
  }

  lemma BystandersAreAll(s: State, e: Event)
    requires FreshStamp(s, e) && UpdatesRow(s, e) && !e.Commit?
    ensures forall c :: c in s.checks && s.checks[c].InFlight? ==> e.now != s.checks[c].snapshot.updatedAtMs
  {
    forall c | c in s.checks && s.checks[c].InFlight? ensures e.now != s.checks[c].snapshot.updatedAtMs {
      assert Bystander(s, e, c);
    }
  }

  lemma EditsKeepInv(s: State, edits: map<nat, Settings>)
    requires Inv(s)
    ensures Inv(s.(edits := edits, at := s.at + 1))
  {
    AtKeepsInv(s);
    var t, u := s.(edits := edits, at := s.at + 1), s.(at := s.at + 1);
    forall a | a in t.checks ensures CheckOk(t, t.checks[a]) {
      assert CheckOk(u, u.checks[a]);
    }
    forall a, b | a in t.checks && b in t.checks && a != b ensures PairOk(t, t.checks[a], t.checks[b]) {
      assert PairOk(u, u.checks[a], u.checks[b]);
    }
  }

  lemma {:induction false} RunKeepsInv(s: State, events: seq<Event>)
    requires Inv(s) && FreshRun(s, events)
    ensures Inv(Run(s, events))
    decreases |events|
  {
    if events != [] {
      var shorter := events[..|events| - 1];
      FreshPrefix(s, events);
      RunKeepsInv(s, shorter);
      NextKeepsInv(Run(s, shorter), events[|events| - 1]);
    }
  }

  lemma FreshPrefix(s: State, events: seq<Event>)
    requires FreshRun(s, events) && events != []
    ensures FreshRun(s, events[..|events| - 1])
    ensures FreshStamp(Run(s, events[..|events| - 1]), events[|events| - 1])
  {
    var shorter := events[..|events| - 1];
    forall k | 0 <= k < |shorter| ensures FreshStamp(Run(s, shorter[..k]), shorter[k]) {
      assert shorter[..k] == events[..k];
    }
  }

  lemma InitInv(listing: Listing, micros: nat)
    ensures Inv(Init(listing, micros))
  {
  }

  /**
    Over every interleaving in which no update lands on a millisecond a check in flight has loaded: a commit persists
    exactly when the row is still, field by field, the one the check loaded. So a recorded price carries the settings
    the listing has at that moment; a stale check adds its `check_runs` row and nothing else.
  */
  lemma CommitClaimsExactlyTheLoadedRow(listing: Listing, micros: nat, events: seq<Event>, c: nat, reply: Reply,
                                        scheduledFor: nat, now: nat)
    requires FreshRun(Init(listing, micros), events)
    requires Enabled(Run(Init(listing, micros), events), Commit(c, reply, scheduledFor, now))
    ensures var s := Run(Init(listing, micros), events);
      var t := Next(s, Commit(c, reply, scheduledFor, now));
      && |t.checkRuns| == |s.checkRuns| + 1
      && (t.checks[c].Persisted? <==> s.checks[c].snapshot == Loaded(s.row))
      && (t.checks[c].Persisted? ==> t.row.listing.settings == s.row.listing.settings)
      && (t.pricePoints == s.pricePoints ||
           (&& t.checks[c].Persisted?
            && exists p :: t.pricePoints == s.pricePoints + [p] && p.under == t.row.listing.settings))
      && (!t.checks[c].Persisted? ==>
            t == s.(checkRuns := t.checkRuns, checks := s.checks[c := Stale(s.checks[c].loadedAt)], at := s.at + 1))
  {
    InitInv(listing, micros);
    RunKeepsInv(Init(listing, micros), events);
    var s := Run(Init(listing, micros), events);
    assert CheckOk(s, s.checks[c]);
    var (outcome, write) := Outcomes(s.checks[c].snapshot, reply);
    if write.pricePoint.Some? {
      var p := write.pricePoint.value;
      assert p.under == s.checks[c].snapshot.listing.settings;
    }
  }

  /** Of two checks whose spans from load to commit overlap, at most one persists. */
  lemma OverlappingChecksPersistOnce(listing: Listing, micros: nat, events: seq<Event>, a: nat, b: nat)
    requires FreshRun(Init(listing, micros), events) && a != b
    ensures var s := Run(Init(listing, micros), events);
      a in s.checks && s.checks[a].Persisted? && b in s.checks && s.checks[b].Persisted? ==>
        s.checks[a].committedAt < s.checks[b].loadedAt || s.checks[b].committedAt < s.checks[a].loadedAt
  {
    InitInv(listing, micros);
    RunKeepsInv(Init(listing, micros), events);
    var s := Run(Init(listing, micros), events);
    if a in s.checks && b in s.checks {
      assert PairOk(s, s.checks[a], s.checks[b]);
    }
  }

  // ----- Every run and every price belongs to a check -----

  /** The checks that got as far as their transaction. */
  function Finished(checks: map<nat, Check>): set<nat> {
    set c | c in checks && (checks[c].Persisted? || checks[c].Stale?)
  }

  /** The place of the price point a check has written. */
  function WroteAt(checks: map<nat, Check>, c: nat): Option<nat> {
    if c in checks && checks[c].Persisted? then checks[c].wrote else None
  }

  ghost predicate HasWriter(s: State, k: nat) { exists c :: c in s.checks && WroteAt(s.checks, c) == Some(k) }

  /** The price point a check has written is there, and carries the settings the check had loaded. */
  ghost predicate WriteOk(s: State, c: nat) {
    var at := WroteAt(s.checks, c);
    at.Some? ==> at.value < |s.pricePoints| && s.pricePoints[at.value].under == s.checks[c].snapshot.listing.settings
  }

  ghost predicate Accounted(s: State) {
    && |s.checkRuns| == |Finished(s.checks)|
    && (forall k :: 0 <= k < |s.pricePoints| ==> HasWriter(s, k))
    && (forall c :: c in s.checks ==> WriteOk(s, c))
    && (forall c, d :: c in s.checks && d in s.checks && c != d && WroteAt(s.checks, c).Some? ==>
          WroteAt(s.checks, c) != WroteAt(s.checks, d))
  }

  /** A step that ends no check. */
  lemma SameRecords(s: State, t: State)
    requires Accounted(s) && t.checkRuns == s.checkRuns && t.pricePoints == s.pricePoints
    requires forall c :: c in s.checks ==>
      c in t.checks && (t.checks[c] == s.checks[c] || (s.checks[c].InFlight? && t.checks[c].Crashed?))
    requires forall c :: c in t.checks && c !in s.checks ==> t.checks[c].InFlight?
    ensures Accounted(t)
  {
    assert Finished(t.checks) == Finished(s.checks);
    forall k | 0 <= k < |t.pricePoints| ensures HasWriter(t, k) {
      assert HasWriter(s, k);
      var c :| c in s.checks && WroteAt(s.checks, c) == Some(k);
      assert WroteAt(t.checks, c) == Some(k);
    }
    forall c | c in t.checks ensures WriteOk(t, c) {
      assert c in s.checks ==> WriteOk(s, c);
    }
  }

  lemma CommitKeepsWriters(s: State, e: Event)
    requires Accounted(s) && e.Commit? && Enabled(s, e)
    ensures var t := Next(s, e); forall k :: 0 <= k < |t.pricePoints| ==> HasWriter(t, k)
  {
    var t, c := Next(s, e), e.check;
    forall k | 0 <= k < |t.pricePoints| ensures HasWriter(t, k) {
      if k < |s.pricePoints| {
        assert HasWriter(s, k);
        var d :| d in s.checks && WroteAt(s.checks, d) == Some(k);
        assert WroteAt(t.checks, d) == Some(k);
      } else {
        assert WroteAt(t.checks, c) == Some(k);
      }
    }
  }

  lemma CommitKeepsWrites(s: State, e: Event)
    requires Accounted(s) && e.Commit? && Enabled(s, e)
    ensures var t := Next(s, e); forall d :: d in t.checks ==> WriteOk(t, d)
  {
    var t := Next(s, e);
    forall d | d in t.checks ensures WriteOk(t, d) {
      assert WriteOk(s, d);
      if d == e.check { CommitUnderLoaded(s.checks[d].snapshot, e.reply); }
    }
  }

  lemma CommitWritesApart(s: State, e: Event, a: nat, b: nat)
    requires Accounted(s) && e.Commit? && Enabled(s, e)
    requires a in s.checks && b in s.checks && a != b && WroteAt(Next(s, e).checks, a).Some?
    ensures WroteAt(Next(s, e).checks, a) != WroteAt(Next(s, e).checks, b)
  {
    assert WriteOk(s, a) && WriteOk(s, b);
  }

  lemma CommitAccounted(s: State, e: Event)
    requires Accounted(s) && e.Commit? && Enabled(s, e)
    ensures Accounted(Next(s, e))
  {
    var t, c := Next(s, e), e.check;
    assert |t.checkRuns| == |Finished(t.checks)| by { assert Finished(t.checks) == Finished(s.checks) + {c}; }
    CommitKeepsWriters(s, e);
    CommitKeepsWrites(s, e);
    forall a, b | a in t.checks && b in t.checks && a != b && WroteAt(t.checks, a).Some?
      ensures WroteAt(t.checks, a) != WroteAt(t.checks, b)
    {
      CommitWritesApart(s, e, a, b);
    }
  }

  lemma CommitUnderLoaded(snapshot: Snapshot, reply: Reply)
    ensures var (outcome, write) := Outcomes(snapshot, reply);
      write.pricePoint.Some? ==> write.pricePoint.value.under == snapshot.listing.settings
  {
  }

  /**
    Over every run, crashes and edits included: each check that reached its transaction, persisted or stale, has
    exactly one `check_runs` row and no other check has one; each price point was written by exactly one persisted
    check, with the settings that check had loaded.
  */
  lemma {:induction false} EveryRecordHasItsCheck(listing: Listing, micros: nat, events: seq<Event>)
    ensures Accounted(Run(Init(listing, micros), events))
    decreases |events|
  {
    if events == [] {
      assert Finished(map[]) == {};
    } else {
      var s, e := Run(Init(listing, micros), events[..|events| - 1]), events[|events| - 1];
      EveryRecordHasItsCheck(listing, micros, events[..|events| - 1]);
      if Enabled(s, e) {
        if e.Commit? { CommitAccounted(s, e); } else { SameRecords(s, Next(s, e)); }
      }
    }
  }

  // ----- A crash leaves nothing behind -----

  predicate About(e: Event, c: nat) { (e.Load? || e.Commit? || e.Crash?) && e.check == c }

  /** The same run as if a check had never been started. */
  function Without(events: seq<Event>, c: nat): seq<Event> {
    if events == [] then []
    else
      var front, e := Without(events[..|events| - 1], c), events[|events| - 1];
      if About(e, c) then front else front + [e]
  }

  /** Two checks that differ at most in when they happened. */
  predicate SameCheck(a: Check, b: Check) {
    match a
    case InFlight(snapshot, _) => b.InFlight? && b.snapshot == snapshot
    case Persisted(snapshot, _, _, wrote) => b.Persisted? && b.snapshot == snapshot && b.wrote == wrote
    case Stale(_) => b.Stale?
    case Crashed => b.Crashed?
  }

  /** The stored rows and everything else but one check agree. */
  ghost predicate AgreeBut(s: State, t: State, c: nat) {
    && t.row == s.row && t.pricePoints == s.pricePoints && t.checkRuns == s.checkRuns && t.edits == s.edits
    && c !in t.checks && s.checks.Keys - {c} == t.checks.Keys
    && (forall d :: d in t.checks ==> SameCheck(s.checks[d], t.checks[d]))
  }

  /** A check whose transaction has not run: it may have crashed. */
  predicate Untold(s: State, c: nat) { c in s.checks ==> s.checks[c].InFlight? || s.checks[c].Crashed? }

  lemma OwnStepAgrees(s: State, t: State, e: Event, c: nat)
    requires AgreeBut(s, t, c) && About(e, c) && Untold(Next(s, e), c)
    ensures AgreeBut(Next(s, e), t, c)
  {
  }

  lemma OtherStepAgrees(s: State, t: State, e: Event, c: nat)
    requires AgreeBut(s, t, c) && !About(e, c)
    ensures AgreeBut(Next(s, e), Next(t, e), c)
  {
    if e.Load? || e.Commit? || e.Crash? {
      assert e.check in s.checks <==> e.check in t.checks;
      assert e.check in t.checks ==> SameCheck(s.checks[e.check], t.checks[e.check]);
    }
    assert Enabled(s, e) <==> Enabled(t, e);
  }

  /**
    A killed worker leaves the listing, its prices and its audit log exactly as if the check had never been started,
    whatever else goes on before, between and after.
  */
  lemma {:induction false} CrashLeavesNoTrace(s: State, events: seq<Event>, c: nat)
    requires c !in s.checks && Untold(Run(s, events), c)
    ensures AgreeBut(Run(s, events), Run(s, Without(events, c)), c)
    decreases |events|
  {
    if events != [] {
      var shorter, e := events[..|events| - 1], events[|events| - 1];
      CrashLeavesNoTrace(s, shorter, c);
      if About(e, c) {
        OwnStepAgrees(Run(s, shorter), Run(s, Without(shorter, c)), e, c);
      } else {
        OtherStepAgrees(Run(s, shorter), Run(s, Without(shorter, c)), e, c);
        RunSnoc(s, Without(shorter, c), e);
      }
    }
  }

  // ----- The millisecond -----

  /**
    The premise on stamps is exact: an update of any kind that lands while a check is in flight makes that check
    stale if and only if its millisecond differs from the one the check has loaded.
  */
  lemma UpdateDetectedIff(s: State, e: Event, c: nat)
    requires UpdatesRow(s, e) && Bystander(s, e, c)
    ensures !CommitPersists(Next(s, e), s.checks[c].snapshot) <==> e.now != s.checks[c].snapshot.updatedAtMs
  {
    assert Next(s, e).row.updatedAtMicros / 1000 == e.now;
  }

  /** A check under way while an edit switches the settings in the millisecond the check has loaded. */
  function MissedEdit(other: Settings, price: string): seq<Event> {
    var extraction := Extracted(price, Some("EUR"), None, "auto", High, Evidence(Singleton, Some(1), []));
    [Load(1), EditLoad(2), EditWrite(2, Resubmit(other), None, 5),
     Commit(1, Reply(PageOk(200, Some("e"), None), Some(extraction)), 9, 6)]
  }

  lemma AfterMissedEdit(listing: Listing, other: Settings)
    requires listing.active && other != listing.settings
    ensures var s := Run(Init(listing, 5000), [Load(1), EditLoad(2), EditWrite(2, Resubmit(other), None, 5)]);
      && 1 in s.checks && s.checks[1] == InFlight(Loaded(Init(listing, 5000).row), 0)
      && s.row.listing.settings == other && CommitPersists(s, s.checks[1].snapshot) && s.pricePoints == []
  {
    var s0, load, editLoad, write := Init(listing, 5000), Load(1), EditLoad(2), EditWrite(2, Resubmit(other), None, 5);
    RunSnoc(s0, [], load);
    RunSnoc(s0, [load], editLoad);
    RunSnoc(s0, [load, editLoad], write);
    assert [] + [load] == [load] && [load] + [editLoad] == [load, editLoad];
    assert [load, editLoad] + [write] == [load, editLoad, write];
    var s2 := Next(Next(s0, load), editLoad);
    assert s2.checks[1] == InFlight(Loaded(s0.row), 0) && s2.edits[2] == listing.settings;
  }

  /** What goes wrong then: the price of the old settings is recorded, with its ETag, under the new ones. */
  lemma MissedEditRecordsTheWrongPrice(listing: Listing, other: Settings, price: string)
    requires listing.active && other != listing.settings
    ensures var s := Run(Init(listing, 5000), MissedEdit(other, price));
      && s.row.listing.settings == other && s.row.listing.etag == Some("e")
      && |s.pricePoints| == 1 && s.pricePoints[0].price == price && s.pricePoints[0].under == listing.settings
  {
    var s0, e := Init(listing, 5000), MissedEdit(other, price);
    AfterMissedEdit(listing, other);
    var s := Run(s0, e[..3]);
    assert e[..3] == [Load(1), EditLoad(2), EditWrite(2, Resubmit(other), None, 5)] && e == e[..3] + [e[3]];
    RunSnoc(s0, e[..3], e[3]);
    var (outcome, write) := Outcomes(s.checks[1].snapshot, e[3].reply);
    assert write.pricePoint == Some(PricePoint(price, "EUR", None, listing.settings));
  }

  lemma RunSnoc(s: State, events: seq<Event>, e: Event)
    ensures Run(s, events + [e]) == Next(Run(s, events), e)
  {
    assert (events + [e])[..|events|] == events;
  }

  // ----- Validators are backed by a recorded price -----

  predicate Recorded(pricePoints: seq<PricePoint>, settings: Settings) {
    exists k :: 0 <= k < |pricePoints| && pricePoints[k].under == settings
  }

  predicate Backed(listing: Listing, pricePoints: seq<PricePoint>) {
    HasValidators(listing) ==> Recorded(pricePoints, listing.settings)
  }

  lemma CommitKeepsBacked(s: State, e: Event)
    requires Inv(s) && Backed(s.row.listing, s.pricePoints) && e.Commit? && Enabled(s, e)
    ensures Backed(Next(s, e).row.listing, Next(s, e).pricePoints)
  {
    var t, snapshot := Next(s, e), s.checks[e.check].snapshot;
    assert CheckOk(s, s.checks[e.check]);
    if CommitPersists(s, snapshot) {
      var (outcome, write) := Outcomes(snapshot, e.reply);
      if write.pricePoint.Some? {
        assert t.pricePoints[|s.pricePoints|].under == t.row.listing.settings;
      } else if Recorded(s.pricePoints, s.row.listing.settings) {
        assert t.pricePoints == s.pricePoints;
      }
    }
  }

  lemma EditKeepsBacked(
    row: Listing, points: seq<PricePoint>, loaded: Settings, input: UpdateInput, now: nat, pulledIn: Option<nat>)
    requires Backed(row, points) && (HasValidators(row) ==> EditIsHarmless(loaded, row.settings, input))
    ensures Backed(ApplyPatch(row, BuildListingUpdatePatch(loaded, input, now, pulledIn)), points)
  {
    if !ExtractionSettingsChanged(row.settings, input) {
      assert PatchSettings(row.settings, input) == row.settings;
    }
  }

  lemma NextKeepsBacked(s: State, e: Event)
    requires Inv(s) && Backed(s.row.listing, s.pricePoints) && HarmlessStep(s, e)
    ensures Backed(Next(s, e).row.listing, Next(s, e).pricePoints)
  {
    if Enabled(s, e) {
      match e {
        case Commit(_, _, _, _) => CommitKeepsBacked(s, e);
        case EditWrite(_, input, pulledIn, now) =>
          EditKeepsBacked(s.row.listing, s.pricePoints, s.edits[e.edit], input, now, pulledIn);
        case Load(_) =>
        case Crash(_) =>
        case EditLoad(_) =>
        case Touch(_) =>
      }
    }
  }

  lemma {:induction false} RunKeepsBacked(s: State, events: seq<Event>)
    requires Inv(s) && Backed(s.row.listing, s.pricePoints)
    requires FreshRun(s, events) && HarmlessEdits(s, events)
    ensures Backed(Run(s, events).row.listing, Run(s, events).pricePoints)
    decreases |events|
  {
    if events != [] {
      var shorter := events[..|events| - 1];
      FreshPrefix(s, events);
      forall k | 0 <= k < |shorter| ensures HarmlessStep(Run(s, shorter[..k]), shorter[k]) {
        assert shorter[..k] == events[..k];
      }
      RunKeepsInv(s, shorter);
      RunKeepsBacked(s, shorter);
      NextKeepsBacked(Run(s, shorter), events[|events| - 1]);
    }
  }

  /**
    Over every run whose edits are harmless to the row they are written to, a listing that holds a validator has a
    price recorded under its current extractor, expression, locale and render mode; so a 304 that persists is never
    the healthy check of a configuration that has never produced a price.
  */
  lemma NotModifiedIsBacked(
    listing: Listing, micros: nat, events: seq<Event>, c: nat, reply: Reply, scheduledFor: nat, now: nat)
    requires FreshRun(Init(listing, micros), events) && HarmlessEdits(Init(listing, micros), events)
    ensures var s := Run(Init(listing, micros), events);
      && (HasValidators(s.row.listing) ==> Recorded(s.pricePoints, s.row.listing.settings))
      && (&& Enabled(s, Commit(c, reply, scheduledFor, now)) && reply.fetched.NotModified?
          && CommitPersists(s, s.checks[c].snapshot) ==>
            Recorded(s.pricePoints, s.checks[c].snapshot.listing.settings))
  {
    InitInv(listing, micros);
    RunKeepsInv(Init(listing, micros), events);
    RunKeepsBacked(Init(listing, micros), events);
    var s := Run(Init(listing, micros), events);
    if Enabled(s, Commit(c, reply, scheduledFor, now)) {
      assert CheckOk(s, s.checks[c]);
    }
  }

  /**
    The premise on edits is exact. The router computes its patch from the row it loaded and writes it later without
    looking again. Whatever prices are recorded, the write keeps the listing backed if and only if the row holds no
    validator, or the patch drops them, or the input changes none of the settings the row has by then.
  */
  lemma EditKeepsBackingIff(row: Listing, loaded: Settings, input: UpdateInput, now: nat, pulledIn: Option<nat>)
    ensures
      (forall points: seq<PricePoint> :: Backed(row, points) ==>
         Backed(ApplyPatch(row, BuildListingUpdatePatch(loaded, input, now, pulledIn)), points))
      <==> !HasValidators(row) || EditIsHarmless(loaded, row.settings, input)
  {
    var after := ApplyPatch(row, BuildListingUpdatePatch(loaded, input, now, pulledIn));
    if !HasValidators(row) || EditIsHarmless(loaded, row.settings, input) {
      forall points: seq<PricePoint> | Backed(row, points) ensures Backed(after, points) {
        EditKeepsBacked(row, points, loaded, input, now, pulledIn);
      }
    } else {
      var points := [PricePoint("1", "EUR", None, row.settings)];
      assert points[0].under == row.settings && after.settings != row.settings;
      assert Backed(row, points) && !Backed(after, points);
    }
  }

  /** Two edits that overlap: both load the row, then the second one switches it to other settings. */
  function OverlappingEdits(other: Settings): seq<Event> {
    [EditLoad(1), EditLoad(2), EditWrite(2, Resubmit(other), None, 1)]
  }

  /** The commit of a check under those settings that records a price and stores an ETag. */
  function CommitBetween(strategy: string): Event {
    var extraction := Extracted("1", Some("EUR"), None, strategy, High, Evidence(Singleton, Some(1), []));
    Commit(7, Reply(PageOk(200, Some("e"), None), Some(extraction)), 9, 2)
  }

  function CheckBetween(strategy: string): seq<Event> { [Load(7), CommitBetween(strategy)] }

  /** A new listing that two edits have loaded. */
  function BothLoaded(s: State): State {
    s.(edits := map[1 := s.row.listing.settings, 2 := s.row.listing.settings], at := s.at + 2)
  }

  lemma BothLoad(s: State)
    requires s.edits == map[]
    ensures Next(Next(s, EditLoad(1)), EditLoad(2)) == BothLoaded(s)
  {
    var settings := s.row.listing.settings;
    assert s.edits[1 := settings] == map[1 := settings];
    assert map[1 := settings][2 := settings] == map[1 := settings, 2 := settings];
  }

  lemma SecondWrites(s: State, other: Settings)
    requires other != s.row.listing.settings
    ensures var t := Next(BothLoaded(s), EditWrite(2, Resubmit(other), None, 1));
      && t.row.listing.settings == other && t.row.listing.active == s.row.listing.active
      && t.pricePoints == s.pricePoints && t.checks == s.checks && t.edits == map[1 := s.row.listing.settings]
  {
    assert BothLoaded(s).edits - {2} == map[1 := s.row.listing.settings];
  }

  lemma AfterOverlappingEdits(listing: Listing, other: Settings)
    requires listing.active && other != listing.settings
    ensures FreshRun(Init(listing, 0), OverlappingEdits(other))
    ensures var s := Run(Init(listing, 0), OverlappingEdits(other));
      && s.row.listing.settings == other && s.row.listing.active && s.pricePoints == []
      && s.edits == map[1 := listing.settings] && s.checks == map[]
  {
    var s0, e := Init(listing, 0), OverlappingEdits(other);
    BothLoad(s0);
    SecondWrites(s0, other);
    RunExtends(s0, [], e[0]);
    RunExtends(s0, [e[0]], e[1]);
    RunExtends(s0, [e[0], e[1]], e[2]);
    assert [] + [e[0]] == [e[0]] && [e[0]] + [e[1]] == [e[0], e[1]] && [e[0], e[1]] + [e[2]] == e;
  }

  /** A state with one check in flight, behind its load. */
  function OnlyCheck(s: State): State {
    s.(checks := map[7 := InFlight(Loaded(s.row), s.at)], at := s.at + 1)
  }

  lemma LoadsOnly(s: State)
    requires s.checks == map[] && s.row.listing.active
    ensures Next(s, Load(7)) == OnlyCheck(s)
  {
    assert s.checks[7 := InFlight(Loaded(s.row), s.at)] == map[7 := InFlight(Loaded(s.row), s.at)];
  }

  /** What the commit computes from the page it was served. */
  lemma WritesBetween(snapshot: Snapshot, strategy: string)
    ensures var (outcome, write) := Outcomes(snapshot, CommitBetween(strategy).reply);
      && write.pricePoint == Some(PricePoint("1", "EUR", None, snapshot.listing.settings))
      && write.validators.etag == Some("e")
  {
  }

  lemma CommitsOnly(s: State, strategy: string)
    requires s.pricePoints == []
    ensures var t := Next(OnlyCheck(s), CommitBetween(strategy));
      && t.row.listing.settings == s.row.listing.settings && t.row.listing.etag == Some("e") && t.edits == s.edits
      && t.pricePoints == [PricePoint("1", "EUR", None, s.row.listing.settings)]
      && (forall c :: c in t.checks ==> t.checks[c].Persisted?)
  {
    WritesBetween(Loaded(s.row), strategy);
    assert Enabled(OnlyCheck(s), CommitBetween(strategy));
  }

  lemma AfterCheckBetween(s0: State, events: seq<Event>, other: Settings, strategy: string)
    requires FreshRun(s0, events)
    requires var s := Run(s0, events);
      && s.row.listing.settings == other && s.row.listing.active && s.pricePoints == []
      && s.checks == map[]
    ensures FreshRun(s0, events + CheckBetween(strategy))
    ensures var t := Run(s0, events + CheckBetween(strategy));
      && t.row.listing.settings == other && t.row.listing.etag == Some("e") && t.edits == Run(s0, events).edits
      && t.pricePoints == [PricePoint("1", "EUR", None, other)]
      && (forall c :: c in t.checks ==> t.checks[c].Persisted?)
  {
    var s, load, commit := Run(s0, events), Load(7), CommitBetween(strategy);
    LoadsOnly(s);
    CommitsOnly(s, strategy);
    RunExtends(s0, events, load);
    assert FreshStamp(OnlyCheck(s), commit);
    RunExtends(s0, events + [load], commit);
    assert events + [load] + [commit] == events + CheckBetween(strategy);
  }

  /** They reach an ETag under settings that never produced a price: the first edit puts its settings back. */
  lemma OverlappingEditsUnbackValidators(listing: Listing, other: Settings, strategy: string)
    requires listing.active && other != listing.settings
    ensures var events :=
        OverlappingEdits(other) + CheckBetween(strategy) + [EditWrite(1, Resubmit(listing.settings), None, 3)];
      && FreshRun(Init(listing, 0), events)
      && var s := Run(Init(listing, 0), events);
         s.row.listing.settings == listing.settings && s.row.listing.etag == Some("e")
         && !Recorded(s.pricePoints, listing.settings)
  {
    var s0, events := Init(listing, 0), OverlappingEdits(other) + CheckBetween(strategy);
    AfterOverlappingEdits(listing, other);
    AfterCheckBetween(s0, OverlappingEdits(other), other, strategy);
    var s := Run(s0, events);
    RunExtends(s0, events, EditWrite(1, Resubmit(listing.settings), None, 3));
    ResubmitRestores(listing.settings, s.row.listing, 3, None);
  }

  lemma RunExtends(s: State, events: seq<Event>, e: Event)
    requires FreshRun(s, events) && FreshStamp(Run(s, events), e)
    ensures Run(s, events + [e]) == Next(Run(s, events), e)
    ensures FreshRun(s, events + [e])
  {
    RunSnoc(s, events, e);
    var longer := events + [e];
    assert longer[..|events|] == events;
    forall k | 0 <= k < |longer| ensures FreshStamp(Run(s, longer[..k]), longer[k]) {
      if k < |events| {
        assert longer[..k] == events[..k];
      }
    }
  }
}
