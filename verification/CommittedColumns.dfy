/**
  What a check and an edit leave in the stored rows, column by column, said by the site's
  answer, the check's snapshot and the submitted input alone.
*/
module CommittedColumns {
  import opened Prelude
  import opened Evidence
  import opened Listings
  import opened CheckOutcome
  import opened CheckProtocol

  /** One price, positively identified or with nothing on the page against it. */
  predicate OnePrice(e: Extraction) {
    && e.Extracted?
    && (e.confidence == High ||
        (&& (e.evidence.count.Some? ==> e.evidence.count.value <= 1)
         && !e.evidence.kind.AggregateOffer? && !e.evidence.kind.Conflict? && !e.evidence.kind.MultipleCandidates?
         && !e.evidence.kind.NonProduct? && !e.evidence.kind.MicrodataAmbiguous?))
  }

  /** The page says what its price is in, or the listing did when the check loaded it. */
  predicate Denominated(snapshot: Snapshot, e: Extraction) {
    e.Extracted? && (e.currency.Some? || snapshot.listing.currency.Some?)
  }

  /** The site answered with a page, and its price may be recorded. */
  predicate Accepts(snapshot: Snapshot, reply: Reply) {
    && reply.fetched.PageOk? && reply.extraction.Some?
    && OnePrice(reply.extraction.value) && Denominated(snapshot, reply.extraction.value)
  }

  function CurrencyOf(snapshot: Snapshot, e: Extraction): string
    requires Denominated(snapshot, e)
  {
    if e.currency.Some? then e.currency.value else snapshot.listing.currency.value
  }

  /** A header of the answer replaces a stored validator if it is there and the answer has earned it. */
  ghost predicate Refreshed(before: Option<string>, after: Option<string>, supplied: Option<string>, earned: bool) {
    after == if earned && supplied.Some? then supplied else before
  }

  ghost predicate ValidatorsFollow(before: Listing, after: Listing, snapshot: Snapshot, reply: Reply) {
    if Accepts(snapshot, reply) || reply.fetched.NotModified? then
      && Refreshed(before.etag, after.etag, reply.fetched.etag, true)
      && Refreshed(before.lastModified, after.lastModified, reply.fetched.lastModified, true)
    else
      after.etag == before.etag && after.lastModified == before.lastModified
  }

  /** The audit row of a check: what the site answered, and whether a price came of it. */
  ghost predicate Describes(run: CheckRun, snapshot: Snapshot, reply: Reply) {
    && (run.status == StatusOk <==> Accepts(snapshot, reply) || reply.fetched.NotModified?)
    && (run.status == StatusExtractFailed <==> reply.fetched.PageOk? && !Accepts(snapshot, reply))
    && (run.status == StatusHttpError <==> reply.fetched.HttpError?)
    && (run.status == StatusNetworkError <==> reply.fetched.NetworkError?)
    && (run.status == StatusTimeout <==> reply.fetched.Timeout?)
    && (run.status == StatusRendererError <==> reply.fetched.RendererError?)
    && run.httpStatus == (
         if reply.fetched.PageOk? || reply.fetched.HttpError? then Some(reply.fetched.httpStatus)
         else if reply.fetched.NotModified? then Some(304) else None)
    && run.extractorUsed == (
         if reply.fetched.PageOk? && reply.extraction.Some? && reply.extraction.value.Extracted?
         then Some(reply.extraction.value.strategy) else None)
  }

  lemma OnePriceIff(e: Extraction)
    ensures OnePrice(e) <==> e.Extracted? && !IsAmbiguousExtraction(e.confidence, e.evidence)
  {
  }

  /** What a commit that claims its row writes, whatever happened since the check was loaded. */
  lemma PersistedColumns(s: State, c: nat, reply: Reply, scheduledFor: nat, now: nat)
    requires Enabled(s, Commit(c, reply, scheduledFor, now))
    requires s.row.updatedAtMicros / 1000 == s.checks[c].snapshot.updatedAtMs
    ensures var t := Next(s, Commit(c, reply, scheduledFor, now)); var snapshot := s.checks[c].snapshot;
      var before, after := s.row.listing, t.row.listing;
      && after.nextCheckAt == scheduledFor && t.row.updatedAtMicros == now * 1000
      && ValidatorsFollow(before, after, snapshot, reply)
      && after.currency == (if Accepts(snapshot, reply) && snapshot.listing.currency.None?
                            then reply.extraction.value.currency else before.currency)
      && after.settings == before.settings && after.active == before.active
      && after.intervalMinutes == before.intervalMinutes && after.jitterPercent == before.jitterPercent
  {
    if reply.extraction.Some? { OnePriceIff(reply.extraction.value); }
  }

  /** The price point of a claimed row carries the page's own price and stock, exactly if the price is accepted. */
  lemma PersistedPrice(s: State, c: nat, reply: Reply, scheduledFor: nat, now: nat)
    requires Enabled(s, Commit(c, reply, scheduledFor, now))
    requires s.row.updatedAtMicros / 1000 == s.checks[c].snapshot.updatedAtMs
    ensures var t := Next(s, Commit(c, reply, scheduledFor, now)); var snapshot := s.checks[c].snapshot;
      t.pricePoints ==
        if Accepts(snapshot, reply) then s.pricePoints + [PricePoint(
          reply.extraction.value.price, CurrencyOf(snapshot, reply.extraction.value),
          reply.extraction.value.inStock, snapshot.listing.settings)]
        else s.pricePoints
  {
    if reply.extraction.Some? { OnePriceIff(reply.extraction.value); }
  }

  /** A check in flight can finish with any answer, except that only a conditional request is answered by a 304. */
  lemma AnswersOfCheck(s: State, c: nat, reply: Reply, scheduledFor: nat, now: nat)
    requires c in s.checks && s.checks[c].InFlight?
    ensures var listing := s.checks[c].snapshot.listing;
      Enabled(s, Commit(c, reply, scheduledFor, now)) <==>
        (reply.fetched.NotModified? ==>
           listing.settings.render == Http && (listing.etag.Some? || listing.lastModified.Some?))
  {
  }

  /** Every finished check, stale or not, leaves one audit row that says what the site answered. */
  lemma FinishedCheckIsLogged(s: State, c: nat, reply: Reply, scheduledFor: nat, now: nat)
    requires Enabled(s, Commit(c, reply, scheduledFor, now))
    ensures var t := Next(s, Commit(c, reply, scheduledFor, now));
      && |t.checkRuns| == |s.checkRuns| + 1 && t.checkRuns[..|s.checkRuns|] == s.checkRuns
      && Describes(t.checkRuns[|s.checkRuns|], s.checks[c].snapshot, reply)
  {
    if reply.extraction.Some? { OnePriceIff(reply.extraction.value); }
  }

  /** A check whose row was edited meanwhile leaves nothing but its audit row. */
  lemma StaleCheckWritesNothing(s: State, c: nat, reply: Reply, scheduledFor: nat, now: nat)
    requires Enabled(s, Commit(c, reply, scheduledFor, now))
    requires s.row.updatedAtMicros / 1000 != s.checks[c].snapshot.updatedAtMs
    ensures var t := Next(s, Commit(c, reply, scheduledFor, now));
      t.row == s.row && t.pricePoints == s.pricePoints
  {
  }

  /**
    Over every run in which an update never lands on the millisecond a check in flight has loaded:
    a check that persists reschedules the row it was computed from, and of the other columns it
    can only refresh the validators and fill in a missing currency.
  */
  lemma CheckTouchesOnlyItsColumns(
      listing: Listing, micros: nat, events: seq<Event>, c: nat, reply: Reply, scheduledFor: nat, now: nat)
    requires FreshRun(Init(listing, micros), events)
    requires var s := Run(Init(listing, micros), events);
      && Enabled(s, Commit(c, reply, scheduledFor, now))
      && s.row.updatedAtMicros / 1000 == s.checks[c].snapshot.updatedAtMs
    ensures var s := Run(Init(listing, micros), events); var t := Next(s, Commit(c, reply, scheduledFor, now));
      var snapshot, before, after := s.checks[c].snapshot, s.row.listing, t.row.listing;
      && snapshot.listing == before
      && after == before.(nextCheckAt := scheduledFor, etag := after.etag, lastModified := after.lastModified,
                          currency := after.currency)
      && ValidatorsFollow(before, after, snapshot, reply)
      && (before.currency.Some? ==> after.currency == before.currency)
      && (Accepts(snapshot, reply) ==> after.currency == Some(t.pricePoints[|s.pricePoints|].currency)
                                       || before.currency.Some?)
      && (!Accepts(snapshot, reply) ==> after.currency == before.currency)
  {
    RunKeepsInv(Init(listing, micros), events);
    var s := Run(Init(listing, micros), events);
    assert CheckOk(s, s.checks[c]);
    PersistedColumns(s, c, reply, scheduledFor, now);
    if Accepts(s.checks[c].snapshot, reply) {
      PersistedPrice(s, c, reply, scheduledFor, now);
    }
  }

  // ----- Edits -----

  /** Some extraction setting was submitted with a value other than the one the edit had loaded. */
  predicate Resets(loaded: Settings, input: UpdateInput) {
    || input.extractor !in {None, Some(loaded.extractor)} || input.expression !in {None, Some(loaded.expression)}
    || input.locale !in {None, Some(loaded.locale)} || input.render !in {None, Some(loaded.render)}
  }

  ghost predicate Submitted<T>(before: T, after: T, supplied: Option<T>) {
    (supplied == Some(after)) || (supplied == None && after == before)
  }

  /**
    An edit writes exactly the columns that were submitted. It drops both validators, and makes the
    listing due at once, exactly if it resets a setting; otherwise the due time moves only where the
    router pulled it in.
  */
  lemma EditedColumns(s: State, edit: nat, input: UpdateInput, pulledIn: Option<nat>, now: nat)
    requires Enabled(s, EditWrite(edit, input, pulledIn, now))
    ensures var t := Next(s, EditWrite(edit, input, pulledIn, now)); var before, after := s.row.listing, t.row.listing;
      && Submitted(before.active, after.active, input.active)
      && Submitted(before.currency, after.currency, input.currency)
      && Submitted(before.intervalMinutes, after.intervalMinutes, input.intervalMinutes)
      && Submitted(before.jitterPercent, after.jitterPercent, input.jitterPercent)
      && Submitted(before.settings.extractor, after.settings.extractor, input.extractor)
      && Submitted(before.settings.expression, after.settings.expression, input.expression)
      && Submitted(before.settings.locale, after.settings.locale, input.locale)
      && Submitted(before.settings.render, after.settings.render, input.render)
      && (if Resets(s.edits[edit], input)
          then after.etag == None && after.lastModified == None && after.nextCheckAt == now
          else after.etag == before.etag && after.lastModified == before.lastModified
               && Submitted(before.nextCheckAt, after.nextCheckAt, pulledIn))
      && t.pricePoints == s.pricePoints && t.checkRuns == s.checkRuns
  {
  }

  /** An edit stamps the row exactly if it has something to write. */
  lemma EditStamps(s: State, edit: nat, input: UpdateInput, pulledIn: Option<nat>, now: nat)
    requires Enabled(s, EditWrite(edit, input, pulledIn, now))
    ensures var t := Next(s, EditWrite(edit, input, pulledIn, now));
      t.row.updatedAtMicros ==
        if pulledIn == None && input == UpdateInput(None, None, None, None, None, None, None, None)
        then s.row.updatedAtMicros else now * 1000
  {
  }
}
