/**
  apps/worker/src/outcome.ts and check-persistence.ts, with the part of check-listing.ts that
  turns an answer into a write. Error texts are left out; everything a later step reads is here.
*/
module CheckOutcome {
  import opened Prelude
  import opened Evidence

  /** What the fetch layer or the renderer answers. Absent headers and empty ones are both None. */
  datatype Fetched =
    | PageOk(httpStatus: nat, etag: Option<string>, lastModified: Option<string>)
    | NotModified(etag: Option<string>, lastModified: Option<string>)
    | HttpError(httpStatus: nat)
    | NetworkError
    | Timeout
    | RendererError

  datatype Extraction =
    | Extracted(
        price: string, currency: Option<string>, inStock: Option<bool>, strategy: string,
        confidence: Confidence, evidence: ExtractionEvidence)
    | NotExtracted

  datatype Status =
    | StatusOk | StatusHttpError | StatusNetworkError | StatusTimeout | StatusRendererError | StatusExtractFailed

  datatype Outcome = Outcome(
    status: Status, recordPricePoint: bool, extractorUsed: Option<string>, httpStatus: Option<nat>)

  /** `toCheckOutcome`. */
  function ToCheckOutcome(fetched: Fetched, extraction: Option<Extraction>, currency: Option<string>): Outcome {
    match fetched
    case NotModified(_, _) => Outcome(StatusOk, false, None, Some(304))
    case HttpError(status) => Outcome(StatusHttpError, false, None, Some(status))
    case NetworkError => Outcome(StatusNetworkError, false, None, None)
    case RendererError => Outcome(StatusRendererError, false, None, None)
    case Timeout => Outcome(StatusTimeout, false, None, None)
    case PageOk(status, _, _) =>
      if extraction.None? || extraction.value.NotExtracted? then
        Outcome(StatusExtractFailed, false, None, Some(status))
      else if IsAmbiguousExtraction(extraction.value.confidence, extraction.value.evidence) then
        Outcome(StatusExtractFailed, false, Some(extraction.value.strategy), Some(status))
      else if currency.None? then
        Outcome(StatusExtractFailed, false, Some(extraction.value.strategy), Some(status))
      else
        Outcome(StatusOk, true, Some(extraction.value.strategy), Some(status))
  }

  datatype Accepted = Accepted(currency: string, extraction: Extraction)

  /** `acceptedObservation`. */
  function AcceptedObservation(outcome: Outcome, extraction: Option<Extraction>, currency: Option<string>)
    : Option<Accepted>
  {
    if outcome.recordPricePoint && extraction.Some? && extraction.value.Extracted?
       && !IsAmbiguousExtraction(extraction.value.confidence, extraction.value.evidence) && currency.Some?
    then Some(Accepted(currency.value, extraction.value))
    else None
  }

  datatype Validators = Validators(etag: Option<string>, lastModified: Option<string>)

  /** `validatorUpdate`: the columns to overwrite, None for one that is left alone. */
  function ValidatorUpdate(fetched: Fetched, acceptedPrice: bool): Validators
    requires fetched.PageOk? || fetched.NotModified?
  {
    if fetched.PageOk? && !acceptedPrice then Validators(None, None)
    else Validators(fetched.etag, fetched.lastModified)
  }

  /** The two spellings of "may this be recorded" agree on every answer. */
  lemma OutcomeAndAcceptanceAgree(fetched: Fetched, extraction: Option<Extraction>, currency: Option<string>)
    ensures var outcome := ToCheckOutcome(fetched, extraction, currency);
      && (outcome.recordPricePoint <==> AcceptedObservation(outcome, extraction, currency).Some?)
      && (outcome.recordPricePoint <==> fetched.PageOk? && outcome.status == StatusOk)
      && (outcome.status == StatusOk && !outcome.recordPricePoint <==> fetched.NotModified?)
  {
  }
}
