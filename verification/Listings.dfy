/** The listing row, and packages/api/src/listing-insert.ts: what an edit writes to it. */
module Listings {
  import opened Prelude

  datatype Render = Http | Browser

  /** The settings a check retrieves and extracts with. */
  datatype Settings = Settings(extractor: string, expression: Option<string>, locale: Option<string>, render: Render)

  datatype Listing = Listing(
    settings: Settings,
    active: bool,
    currency: Option<string>,
    intervalMinutes: nat,
    jitterPercent: nat,
    etag: Option<string>,
    lastModified: Option<string>,
    nextCheckAt: nat)

  /** `ListingUpdateInput`: the outer None is `undefined`, an inner None is an explicit `null`. */
  datatype UpdateInput = UpdateInput(
    active: Option<bool>,
    currency: Option<Option<string>>,
    expression: Option<Option<string>>,
    extractor: Option<string>,
    intervalMinutes: Option<nat>,
    jitterPercent: Option<nat>,
    locale: Option<Option<string>>,
    render: Option<Render>)

  /** `Partial<Listing>`. */
  datatype Patch = Patch(
    input: UpdateInput,
    etag: Option<Option<string>>,
    lastModified: Option<Option<string>>,
    nextCheckAt: Option<nat>)

  function Or<T>(supplied: Option<T>, stored: T): T {
    if supplied.Some? then supplied.value else stored
  }

  /** `extractionSettingsChanged`: some extraction key was supplied with a new value. */
  predicate ExtractionSettingsChanged(settings: Settings, input: UpdateInput) {
    || (input.extractor.Some? && input.extractor.value != settings.extractor)
    || (input.expression.Some? && input.expression.value != settings.expression)
    || (input.locale.Some? && input.locale.value != settings.locale)
    || (input.render.Some? && input.render.value != settings.render)
  }

  /** `buildListingUpdatePatch`, computed from the settings the router loaded. */
  function BuildListingUpdatePatch(loaded: Settings, input: UpdateInput, now: nat, pulledIn: Option<nat>): Patch {
    if ExtractionSettingsChanged(loaded, input) then Patch(input, Some(None), Some(None), Some(now))
    else Patch(input, None, None, pulledIn)
  }

  function PatchSettings(settings: Settings, input: UpdateInput): Settings {
    Settings(
      Or(input.extractor, settings.extractor),
      Or(input.expression, settings.expression),
      Or(input.locale, settings.locale),
      Or(input.render, settings.render))
  }

  /** `tx.update(listings).set(patch)`. */
  function ApplyPatch(row: Listing, patch: Patch): Listing {
    Listing(
      PatchSettings(row.settings, patch.input),
      Or(patch.input.active, row.active),
      Or(patch.input.currency, row.currency),
      Or(patch.input.intervalMinutes, row.intervalMinutes),
      Or(patch.input.jitterPercent, row.jitterPercent),
      Or(patch.etag, row.etag),
      Or(patch.lastModified, row.lastModified),
      Or(patch.nextCheckAt, row.nextCheckAt))
  }

  /** The router skips the update when `Object.keys(patch)` is empty. */
  predicate EmptyPatch(patch: Patch) {
    && patch.etag.None? && patch.lastModified.None? && patch.nextCheckAt.None?
    && patch.input == UpdateInput(None, None, None, None, None, None, None, None)
  }

  predicate HasValidators(row: Listing) {
    row.etag.Some? || row.lastModified.Some?
  }

  /**
    An edit computed from the settings it is applied to drops both validators exactly when it
    changes one of them, and then the listing is due at once.
  */
  lemma CurrentEditInvalidatesIff(row: Listing, input: UpdateInput, now: nat, pulledIn: Option<nat>)
    ensures var after := ApplyPatch(row, BuildListingUpdatePatch(row.settings, input, now, pulledIn));
      && (after.settings != row.settings <==> ExtractionSettingsChanged(row.settings, input))
      && (after.settings != row.settings ==> !HasValidators(after) && after.nextCheckAt == now)
      && (after.settings == row.settings ==> after.etag == row.etag && after.lastModified == row.lastModified)
  {
  }

  /** Resubmits every extraction setting as loaded, the way a form that posts all its fields does. */
  function Resubmit(settings: Settings): UpdateInput {
    UpdateInput(None, None, Some(settings.expression), Some(settings.extractor), None, None, Some(settings.locale),
                Some(settings.render))
  }

  lemma ResubmitRestores(loaded: Settings, row: Listing, now: nat, pulledIn: Option<nat>)
    ensures !ExtractionSettingsChanged(loaded, Resubmit(loaded))
    ensures var after := ApplyPatch(row, BuildListingUpdatePatch(loaded, Resubmit(loaded), now, pulledIn));
      after.settings == loaded && after.etag == row.etag && after.lastModified == row.lastModified
  {
  }
}
