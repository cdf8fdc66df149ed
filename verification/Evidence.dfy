/** packages/core/src/extract/types.ts and evidence.ts: what an extraction says about itself, and the gate. */
module Evidence {
  import opened Prelude

  datatype Confidence = High | Low

  datatype EvidenceType =
    | VariantParams | SelectedSku | ExactUrl | Singleton | AggregateOffer | Pathname | QueriedUrl
    | Conflict | MultipleCandidates | NonProduct | DocumentOrder
    | SingleProductPrice | MicrodataAmbiguous | DocumentPrice | MicrodataQueriedUrl
    | PageMetadata
    | SelectorConfigured | JsonPathConfigured

  /** `count` is the candidate count; the OpenGraph and configured-expression evidence carries none. */
  datatype ExtractionEvidence = Evidence(kind: EvidenceType, count: Option<nat>, matchedParams: seq<string>)

  const CONFLICTING_EVIDENCE_TYPES := {AggregateOffer, Conflict, MultipleCandidates, NonProduct, MicrodataAmbiguous}

  predicate AmbiguousEvidence(evidence: ExtractionEvidence) {
    (evidence.count.Some? && evidence.count.value > 1) || evidence.kind in CONFLICTING_EVIDENCE_TYPES
  }

  predicate IsAmbiguousExtraction(confidence: Confidence, evidence: ExtractionEvidence) {
    confidence == Low && AmbiguousEvidence(evidence)
  }
}
