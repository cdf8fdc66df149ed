/**
  packages/core/src/extract/jsonld.ts from the match flags on: trusted variant conflicts, the six
  ranking buckets, the confidence of the winner, and the gate of evidence.ts behind them.
*/
module JsonLd {
  import opened Prelude
  import opened Evidence
  import opened Sequences

  datatype UrlMatch = NoMatch | Exact | OriginPathname

  datatype VariantContext = VariantContext(group: nat, variesBy: set<string>)

  /** What `candidateFromOffer` reads off an offer whose price parses. */
  datatype Fields = Fields(
    price: string, currency: Option<string>, availability: Option<string>, inStock: Option<bool>,
    title: Option<string>, imageUrl: Option<string>)

  /** `OfferWithProduct`; `id` is the identity of the offer object. */
  datatype Offer = Offer(
    id: nat,
    fields: Option<Fields>,
    isProduct: bool,
    aggregateOrRange: bool,
    selectedSkuMatch: bool,
    urlMatch: UrlMatch,
    variantContext: Option<VariantContext>,
    variantParameterConflict: bool,
    conflictProperties: seq<string>,
    variantParameterMatches: seq<string>,
    variantParametersTrusted: bool,
    comparableVariantProperties: set<string>)

  datatype SelectedSkuHint = SelectedSkuHint(conflict: bool, hasSku: bool)

  /** `pageUrl`: absent, or present with or without a query. */
  datatype PageUrl = NoUrl | PageUrl(hasQuery: bool)

  datatype Candidate = Candidate(fields: Fields, confidence: Confidence, evidence: ExtractionEvidence)

  // ----- Ranking -----

  /** `hasTrustedVariantConflict`. */
  predicate HasTrustedVariantConflict(candidate: Offer, candidates: seq<Offer>) {
    && candidate.variantParameterConflict
    && candidate.variantContext.Some?
    && ((exists k :: && 0 <= k < |candidate.conflictProperties|
                     && candidate.conflictProperties[k] in candidate.variantContext.value.variesBy)
        || (exists other :: other in candidates && Vouches(other, candidate)))
  }

  /** Another offer of the same variant group does match the page's variant parameters. */
  predicate Vouches(other: Offer, candidate: Offer) {
    && other.id != candidate.id
    && other.variantContext.Some? && candidate.variantContext.Some?
    && other.variantContext.value.group == candidate.variantContext.value.group
    && other.variantParameterMatches != []
  }

  function Resolve(candidate: Offer, candidates: seq<Offer>): Offer {
    candidate.(variantParameterConflict := HasTrustedVariantConflict(candidate, candidates))
  }

  function ResolveEach(some: seq<Offer>, candidates: seq<Offer>): seq<Offer> {
    if some == [] then []
    else ResolveEach(some[..|some| - 1], candidates) + [Resolve(some[|some| - 1], candidates)]
  }

  /** `addToOfferBucket`: the position of the bucket in the ranking. */
  function Bucket(o: Offer): nat {
    if o.selectedSkuMatch then 0
    else if o.urlMatch == Exact && !o.variantParameterConflict then 1
    else if o.variantParameterMatches != [] then 2
    else if o.urlMatch == Exact then 3
    else if o.urlMatch == OriginPathname then 4
    else 5
  }

  function InBucket(k: nat): Offer -> bool { (o: Offer) => Bucket(o) == k }

  function RankOffers(candidates: seq<Offer>): seq<Offer> {
    var resolved := ResolveEach(candidates, candidates);
    Filter(resolved, InBucket(0)) + Filter(resolved, InBucket(1)) + Filter(resolved, InBucket(2))
    + Filter(resolved, InBucket(3)) + Filter(resolved, InBucket(4)) + Filter(resolved, InBucket(5))
  }

  lemma BucketAdds(added: seq<Offer>, candidate: Offer, k: nat)
    ensures Filter(added + [candidate], InBucket(k))
      == Filter(added, InBucket(k)) + if Bucket(candidate) == k then [candidate] else []
  {
    FilterSnoc(added, candidate, InBucket(k));
  }

  lemma BucketsAdd(added: seq<Offer>, candidate: Offer)
    ensures forall k: nat ::
      Filter(added + [candidate], InBucket(k))
      == Filter(added, InBucket(k)) + if Bucket(candidate) == k then [candidate] else []
  {
    forall k: nat
      ensures Filter(added + [candidate], InBucket(k))
        == Filter(added, InBucket(k)) + if Bucket(candidate) == k then [candidate] else []
    {
      BucketAdds(added, candidate, k);
    }
  }

  class OfferBuckets {
    var selectedSkuMatches: seq<Offer>
    var exactUrlMatches: seq<Offer>
    var variantParameterMatches: seq<Offer>
    var conflictingExactUrlMatches: seq<Offer>
    var originPathnameMatches: seq<Offer>
    var remaining: seq<Offer>

    constructor ()
      ensures Holds([])
    {
      selectedSkuMatches, exactUrlMatches, variantParameterMatches := [], [], [];
      conflictingExactUrlMatches, originPathnameMatches, remaining := [], [], [];
    }

    /** Every offer added so far is in its own bucket, in the order of the additions. */
    ghost predicate Holds(added: seq<Offer>)
      reads this
    {
      && selectedSkuMatches == Filter(added, InBucket(0)) && exactUrlMatches == Filter(added, InBucket(1))
      && variantParameterMatches == Filter(added, InBucket(2))
      && conflictingExactUrlMatches == Filter(added, InBucket(3))
      && originPathnameMatches == Filter(added, InBucket(4)) && remaining == Filter(added, InBucket(5))
    }

    method AddToOfferBucket(candidate: Offer, ghost added: seq<Offer>)
      requires Holds(added)
      modifies this
      ensures Holds(added + [candidate])
    {
      BucketsAdd(added, candidate);
      if candidate.selectedSkuMatch {
        selectedSkuMatches := selectedSkuMatches + [candidate];
      } else if candidate.urlMatch == Exact && !candidate.variantParameterConflict {
        exactUrlMatches := exactUrlMatches + [candidate];
      } else if candidate.variantParameterMatches != [] {
        variantParameterMatches := variantParameterMatches + [candidate];
      } else if candidate.urlMatch == Exact {
        conflictingExactUrlMatches := conflictingExactUrlMatches + [candidate];
      } else if candidate.urlMatch == OriginPathname {
        originPathnameMatches := originPathnameMatches + [candidate];
      } else {
        remaining := remaining + [candidate];
      }
    }
  }

  /** The second loop of `rankOffers`, and the order its buckets are spread in. */
  method RankIntoBuckets(candidates: seq<Offer>) returns (ranked: seq<Offer>)
    ensures ranked == RankOffers(candidates)
  {
    var buckets := new OfferBuckets();
    ghost var added: seq<Offer> := [];
    for i := 0 to |candidates|
      invariant fresh(buckets)
      invariant added == ResolveEach(candidates[..i], candidates) && buckets.Holds(added)
    {
      assert candidates[..i + 1][..i] == candidates[..i];
      var candidate := Resolve(candidates[i], candidates);
      buckets.AddToOfferBucket(candidate, added);
      added := added + [candidate];
    }
    assert candidates[..|candidates|] == candidates;
    ranked := buckets.selectedSkuMatches + buckets.exactUrlMatches + buckets.variantParameterMatches
      + buckets.conflictingExactUrlMatches + buckets.originPathnameMatches + buckets.remaining;
  }

  // ----- Confidence -----

  function Selected(): Offer -> bool { (o: Offer) => o.selectedSkuMatch }
  function ExactUrlMatch(): Offer -> bool { (o: Offer) => o.urlMatch == Exact }
  function VariantMatch(): Offer -> bool { (o: Offer) => o.variantParameterMatches != [] }
  function Priced(): Offer -> bool { (o: Offer) => o.fields.Some? }

  predicate HasSelectedUrlConflict(hint: SelectedSkuHint, selected: seq<Offer>, exact: seq<Offer>) {
    hint.hasSku && (selected == [] || (exact != [] && !exists o :: o in exact && o.selectedSkuMatch))
  }

  predicate HasSelectedVariantConflict(hint: SelectedSkuHint, selected: seq<Offer>, variant: seq<Offer>) {
    variant != [] && hint.hasSku && selected != [] && !exists o :: o in variant && o.selectedSkuMatch
  }

  /** The conflict test at the head of `confidenceForJsonLd`. */
  predicate Contradicted(candidates: seq<Offer>, hint: SelectedSkuHint) {
    || hint.conflict
    || HasSelectedUrlConflict(hint, Filter(candidates, Selected()), Filter(candidates, ExactUrlMatch()))
    || HasSelectedVariantConflict(hint, Filter(candidates, Selected()), Filter(candidates, VariantMatch()))
  }

  predicate SemanticCandidatesAreComparable(winning: Offer, candidates: seq<Offer>) {
    forall o :: o in candidates && o.isProduct && SameGroup(winning, o) ==>
      forall k :: 0 <= k < |winning.variantParameterMatches| ==>
        winning.variantParameterMatches[k] in o.comparableVariantProperties
  }

  predicate SameGroup(winning: Offer, o: Offer) {
    winning.variantContext.Some? ==>
      o.variantContext.Some? && o.variantContext.value.group == winning.variantContext.value.group
  }

  function UniqueMatch(count: nat, matches: nat, kind: EvidenceType): (Confidence, ExtractionEvidence) {
    if matches == 1 then (High, Evidence(kind, Some(count), []))
    else (Low, Evidence(MultipleCandidates, Some(count), []))
  }

  /** `confidenceForJsonLd`, branch by branch. */
  function ConfidenceForJsonLd(winning: Offer, candidates: seq<Offer>, hint: SelectedSkuHint, page: PageUrl)
    : (Confidence, ExtractionEvidence)
  {
    var count := |candidates|;
    var selected := Filter(candidates, Selected());
    var exact := Filter(candidates, ExactUrlMatch());
    var variant := Filter(candidates, VariantMatch());
    if Contradicted(candidates, hint) then
      (Low, Evidence(Conflict, Some(count), []))
    else if !winning.isProduct then (Low, Evidence(NonProduct, Some(count), []))
    else if winning.aggregateOrRange then (Low, Evidence(AggregateOffer, Some(count), []))
    else if winning.variantParameterConflict then (Low, Evidence(Conflict, Some(count), []))
    else if winning.selectedSkuMatch then UniqueMatch(count, |selected|, SelectedSku)
    else if winning.urlMatch == Exact then UniqueMatch(count, |exact|, ExactUrl)
    else if winning.variantParameterMatches != [] then
      if |variant| == 1 then
        (if winning.variantParametersTrusted && SemanticCandidatesAreComparable(winning, candidates) then High else Low,
         Evidence(VariantParams, Some(count), winning.variantParameterMatches))
      else (Low, Evidence(MultipleCandidates, Some(count), []))
    else if winning.urlMatch == OriginPathname then (Low, Evidence(Pathname, Some(count), []))
    else if count > 1 then (Low, Evidence(MultipleCandidates, Some(count), []))
    else if page.PageUrl? && page.hasQuery then (Low, Evidence(QueriedUrl, Some(count), []))
    else if page.PageUrl? then (High, Evidence(Singleton, Some(count), []))
    else (Low, Evidence(DocumentOrder, Some(count), []))
  }

  function PricedOffers(offers: seq<Offer>): seq<Offer> { Filter(RankOffers(offers), Priced()) }

  /** `extractJsonLd` from the flagged offers, in document order, to the candidate it returns. */
  function ExtractJsonLd(offers: seq<Offer>, hint: SelectedSkuHint, page: PageUrl): Option<Candidate> {
    var candidates := PricedOffers(offers);
    if candidates == [] then None
    else
      var (confidence, evidence) := ConfidenceForJsonLd(candidates[0], candidates, hint, page);
      assert candidates[0] in candidates && Priced()(candidates[0]);
      Some(Candidate(candidates[0].fields.value, confidence, evidence))
  }

  predicate Recordable(c: Option<Candidate>) {
    c.Some? && !IsAmbiguousExtraction(c.value.confidence, c.value.evidence)
  }

  // ----- Order independence -----

  lemma {:induction false} FilterMultiset<T(!new)>(s: seq<T>, p: T -> bool, x: T)
    ensures multiset(Filter(s, p))[x] == if p(x) then multiset(s)[x] else 0
  {
    if s != [] {
      FilterMultiset(s[..|s| - 1], p, x);
      assert s == s[..|s| - 1] + [s[|s| - 1]];
    }
  }

  lemma FilterPermutes<T(!new)>(a: seq<T>, b: seq<T>, p: T -> bool)
    requires multiset(a) == multiset(b)
    ensures multiset(Filter(a, p)) == multiset(Filter(b, p))
    ensures |Filter(a, p)| == |Filter(b, p)|
  {
    forall x ensures multiset(Filter(a, p))[x] == multiset(Filter(b, p))[x] {
      FilterMultiset(a, p, x);
      FilterMultiset(b, p, x);
    }
    assert multiset(Filter(a, p)) == multiset(Filter(b, p));
    assert |multiset(Filter(a, p))| == |multiset(Filter(b, p))|;
  }

  lemma SameMembers<T>(a: seq<T>, b: seq<T>)
    requires multiset(a) == multiset(b)
    ensures |a| == |b| && forall x :: x in a <==> x in b
  {
    assert |multiset(a)| == |multiset(b)|;
    forall x ensures x in a <==> x in b {
      assert x in a <==> x in multiset(a);
      assert x in b <==> x in multiset(b);
    }
  }

  /** A conflict is trusted or not whatever the order of the offers. */
  lemma {:induction false} ResolveSame(some: seq<Offer>, a: seq<Offer>, b: seq<Offer>)
    requires forall x :: x in a <==> x in b
    ensures ResolveEach(some, a) == ResolveEach(some, b)
  {
    if some != [] {
      ResolveSame(some[..|some| - 1], a, b);
    }
  }

  lemma {:induction false} ResolveAppend(s: seq<Offer>, t: seq<Offer>, all: seq<Offer>)
    ensures ResolveEach(s + t, all) == ResolveEach(s, all) + ResolveEach(t, all)
  {
    if t == [] {
      assert s + t == s;
    } else {
      ResolveAppend(s, t[..|t| - 1], all);
      assert (s + t)[..|s + t| - 1] == s + t[..|t| - 1];
    }
  }

  lemma ResolveInsert(x: seq<Offer>, o: Offer, y: seq<Offer>, all: seq<Offer>)
    ensures multiset(ResolveEach(x + [o] + y, all)) == multiset(ResolveEach(x + y, all)) + multiset{Resolve(o, all)}
  {
    ResolveAppend(x, y, all);
    ResolveAppend(x + [o], y, all);
    ResolveAppend(x, [o], all);
    assert ResolveEach([o], all) == [Resolve(o, all)];
  }

  lemma CancelOne<T>(x: seq<T>, o: T, y: seq<T>, z: seq<T>)
    requires multiset(x + [o]) == multiset(y + [o] + z)
    ensures multiset(x) == multiset(y + z)
  {
    assert multiset(x) == multiset(x + [o]) - multiset{o};
    assert multiset(y + z) == multiset(y + [o] + z) - multiset{o};
  }

  lemma {:induction false} ResolvePermutes(a: seq<Offer>, b: seq<Offer>, all: seq<Offer>)
    requires multiset(a) == multiset(b)
    ensures multiset(ResolveEach(a, all)) == multiset(ResolveEach(b, all))
    decreases |a|
  {
    SameMembers(a, b);
    if a != [] {
      var x, o := a[..|a| - 1], a[|a| - 1];
      assert a == x + [o] + [];
      assert o in b;
      var k :| 0 <= k < |b| && b[k] == o;
      var y, z := b[..k], b[k + 1..];
      assert b == y + [o] + z;
      assert x + [o] == a;
      CancelOne(x, o, y, z);
      ResolvePermutes(x, y + z, all);
      ResolveInsert(x, o, [], all);
      ResolveInsert(y, o, z, all);
      assert x + [] == x;
    }
  }

  lemma RankPermutes(a: seq<Offer>, b: seq<Offer>)
    requires multiset(a) == multiset(b)
    ensures multiset(PricedOffers(a)) == multiset(PricedOffers(b))
  {
    SameMembers(a, b);
    ResolveSame(b, a, b);
    ResolvePermutes(a, b, a);
    var ra, rb := ResolveEach(a, a), ResolveEach(b, b);
    FilterPermutes(ra, rb, InBucket(0));
    FilterPermutes(ra, rb, InBucket(1));
    FilterPermutes(ra, rb, InBucket(2));
    FilterPermutes(ra, rb, InBucket(3));
    FilterPermutes(ra, rb, InBucket(4));
    FilterPermutes(ra, rb, InBucket(5));
    assert multiset(RankOffers(a)) == multiset(RankOffers(b));
    FilterPermutes(RankOffers(a), RankOffers(b), Priced());
  }

  /** Ranking loses no offer and repeats none. */
  lemma RankKeepsEveryOffer(offers: seq<Offer>)
    ensures multiset(RankOffers(offers)) == multiset(ResolveEach(offers, offers))
  {
    var r := ResolveEach(offers, offers);
    forall x ensures multiset(RankOffers(offers))[x] == multiset(r)[x] {
      FilterMultiset(r, InBucket(0), x);
      FilterMultiset(r, InBucket(1), x);
      FilterMultiset(r, InBucket(2), x);
      FilterMultiset(r, InBucket(3), x);
      FilterMultiset(r, InBucket(4), x);
      FilterMultiset(r, InBucket(5), x);
    }
  }

  ghost predicate Ordered(s: seq<Offer>) {
    forall i, j :: 0 <= i < j < |s| ==> Bucket(s[i]) <= Bucket(s[j])
  }

  lemma RankIsOrdered(offers: seq<Offer>)
    ensures Ordered(RankOffers(offers))
  {
    var r := ResolveEach(offers, offers);
    assert forall k: nat, x :: x in Filter(r, InBucket(k)) ==> Bucket(x) == k;
    var one := Filter(r, InBucket(0)) + Filter(r, InBucket(1));
    var two := one + Filter(r, InBucket(2));
    var three := two + Filter(r, InBucket(3));
    var four := three + Filter(r, InBucket(4));
    OrderedAppend(Filter(r, InBucket(0)), Filter(r, InBucket(1)), 0);
    OrderedAppend(one, Filter(r, InBucket(2)), 1);
    OrderedAppend(two, Filter(r, InBucket(3)), 2);
    OrderedAppend(three, Filter(r, InBucket(4)), 3);
    OrderedAppend(four, Filter(r, InBucket(5)), 4);
  }

  lemma OrderedAppend(s: seq<Offer>, t: seq<Offer>, k: nat)
    requires Ordered(s) && (forall x :: x in s ==> Bucket(x) <= k) && (forall x :: x in t ==> Bucket(x) == k + 1)
    ensures Ordered(s + t) && forall x :: x in s + t ==> Bucket(x) <= k + 1
  {
  }

  lemma {:induction false} FilterOrdered(s: seq<Offer>, p: Offer -> bool)
    requires Ordered(s)
    ensures Ordered(Filter(s, p))
  {
    if s != [] {
      var rest := s[..|s| - 1];
      FilterOrdered(rest, p);
      forall x | x in Filter(rest, p) ensures Bucket(x) <= Bucket(s[|s| - 1]) {
        assert x in rest;
      }
    }
  }

  /** The winner is in the best bucket that holds a priced offer. */
  lemma WinnerHasBestBucket(offers: seq<Offer>)
    requires PricedOffers(offers) != []
    ensures forall o :: o in PricedOffers(offers) ==> Bucket(PricedOffers(offers)[0]) <= Bucket(o)
  {
    RankIsOrdered(offers);
    FilterOrdered(RankOffers(offers), Priced());
  }

  /** When exactly one offer has a flag, any two that have it are the same. */
  lemma OnlyMatch(s: seq<Offer>, p: Offer -> bool, x: Offer, y: Offer)
    requires |Filter(s, p)| == 1 && x in s && p(x) && y in s && p(y)
    ensures x == y
  {
    assert x in Filter(s, p) && y in Filter(s, p);
  }

  lemma EmptyTogether(a: seq<Offer>, b: seq<Offer>, p: Offer -> bool)
    requires multiset(a) == multiset(b)
    ensures Filter(a, p) == [] <==> Filter(b, p) == []
    ensures (exists o :: o in Filter(a, p) && o.selectedSkuMatch)
      <==> (exists o :: o in Filter(b, p) && o.selectedSkuMatch)
  {
    FilterPermutes(a, b, p);
    SameMembers(Filter(a, p), Filter(b, p));
  }

  lemma ContradictionIgnoresOrder(a: seq<Offer>, b: seq<Offer>, hint: SelectedSkuHint)
    requires multiset(a) == multiset(b)
    ensures Contradicted(a, hint) <==> Contradicted(b, hint)
  {
    EmptyTogether(a, b, Selected());
    EmptyTogether(a, b, ExactUrlMatch());
    EmptyTogether(a, b, VariantMatch());
  }

  /** The confidence depends on the winner and on which offers there are, not on their order. */
  lemma ConfidenceIgnoresOrder(winning: Offer, a: seq<Offer>, b: seq<Offer>, hint: SelectedSkuHint, page: PageUrl)
    requires multiset(a) == multiset(b)
    ensures ConfidenceForJsonLd(winning, a, hint, page) == ConfidenceForJsonLd(winning, b, hint, page)
  {
    SameMembers(a, b);
    ContradictionIgnoresOrder(a, b, hint);
    FilterPermutes(a, b, Selected());
    FilterPermutes(a, b, ExactUrlMatch());
    FilterPermutes(a, b, VariantMatch());
  }

  /** How a result can pass the gate when several offers are priced: one of three flags is unique. */
  lemma RecordableCases(candidates: seq<Offer>, hint: SelectedSkuHint, page: PageUrl)
    requires |candidates| > 1
    requires var (confidence, evidence) := ConfidenceForJsonLd(candidates[0], candidates, hint, page);
      !IsAmbiguousExtraction(confidence, evidence)
    ensures
      || (Bucket(candidates[0]) == 0 && |Filter(candidates, Selected())| == 1)
      || (Bucket(candidates[0]) == 1 && |Filter(candidates, ExactUrlMatch())| == 1)
      || (Bucket(candidates[0]) == 2 && |Filter(candidates, VariantMatch())| == 1)
  {
  }

  lemma RecordableIsUnique(candidates: seq<Offer>, hint: SelectedSkuHint, page: PageUrl, o: Offer)
    requires o in candidates && Bucket(o) == Bucket(candidates[0])
    requires var (confidence, evidence) := ConfidenceForJsonLd(candidates[0], candidates, hint, page);
      !IsAmbiguousExtraction(confidence, evidence)
    ensures o == candidates[0]
  {
    var winning := candidates[0];
    if |candidates| > 1 {
      RecordableCases(candidates, hint, page);
      if Bucket(winning) == 0 {
        OnlyMatch(candidates, Selected(), winning, o);
      } else if Bucket(winning) == 1 {
        OnlyMatch(candidates, ExactUrlMatch(), winning, o);
      } else {
        OnlyMatch(candidates, VariantMatch(), winning, o);
      }
    }
  }

  /** A winner that passes the gate is picked out by a flag no other priced offer of its bucket has. */
  lemma RecordableWinnerIsUnique(offers: seq<Offer>, hint: SelectedSkuHint, page: PageUrl, o: Offer)
    requires Recordable(ExtractJsonLd(offers, hint, page))
    requires o in PricedOffers(offers) && Bucket(o) == Bucket(PricedOffers(offers)[0])
    ensures o == PricedOffers(offers)[0]
  {
    RecordableIsUnique(PricedOffers(offers), hint, page, o);
  }

  /**
    Whenever the gate lets a JSON-LD result through, every permutation of the page's offers gives the
    very same result: the same offer, so the same price, with the same confidence and evidence.
  */
  lemma RecordedResultIgnoresOrder(a: seq<Offer>, b: seq<Offer>, hint: SelectedSkuHint, page: PageUrl)
    requires multiset(a) == multiset(b)
    requires Recordable(ExtractJsonLd(a, hint, page))
    ensures ExtractJsonLd(b, hint, page) == ExtractJsonLd(a, hint, page)
    ensures PricedOffers(b) != [] && PricedOffers(b)[0] == PricedOffers(a)[0]
  {
    RankPermutes(a, b);
    var ca, cb := PricedOffers(a), PricedOffers(b);
    SameMembers(ca, cb);
    WinnerHasBestBucket(a);
    WinnerHasBestBucket(b);
    assert ca[0] in cb && cb[0] in ca;
    RecordableWinnerIsUnique(a, hint, page, cb[0]);
    ConfidenceIgnoresOrder(ca[0], ca, cb, hint, page);
  }

  /** So the verdict of the gate is the same for every permutation as well. */
  lemma GateIgnoresOrder(a: seq<Offer>, b: seq<Offer>, hint: SelectedSkuHint, page: PageUrl)
    requires multiset(a) == multiset(b)
    ensures Recordable(ExtractJsonLd(a, hint, page)) <==> Recordable(ExtractJsonLd(b, hint, page))
  {
    if Recordable(ExtractJsonLd(a, hint, page)) {
      RecordedResultIgnoresOrder(a, b, hint, page);
    }
    if Recordable(ExtractJsonLd(b, hint, page)) {
      RecordedResultIgnoresOrder(b, a, hint, page);
    }
  }

  /** The gate is what buys this: two plain product offers win in document order, and are refused. */
  lemma DocumentOrderDecidesWithoutTheGate(x: Fields, y: Fields, page: PageUrl)
    requires x != y
    ensures var hint := SelectedSkuHint(false, false);
      var a := Offer(0, Some(x), true, false, false, NoMatch, None, false, [], [], false, {});
      var b := a.(id := 1, fields := Some(y));
      && ExtractJsonLd([a, b], hint, page).Some? && ExtractJsonLd([b, a], hint, page).Some?
      && ExtractJsonLd([a, b], hint, page).value.fields != ExtractJsonLd([b, a], hint, page).value.fields
      && !Recordable(ExtractJsonLd([a, b], hint, page))
  {
    var a := Offer(0, Some(x), true, false, false, NoMatch, None, false, [], [], false, {});
    var b := a.(id := 1, fields := Some(y));
    TwoPlainOffers(a, b);
    TwoPlainOffers(b, a);
  }

  lemma PlainBucket(a: Offer, b: Offer, k: nat)
    requires Bucket(a) == Bucket(b) == 5
    ensures Filter([a, b], InBucket(k)) == if k == 5 then [a, b] else []
  {
    assert [] + [a] == [a] && [a] + [b] == [a, b];
    BucketAdds([], a, k);
    BucketAdds([a], b, k);
  }

  /** Offers without a conflict of their own stay as they are. */
  lemma PlainResolve(a: Offer, b: Offer)
    requires !HasTrustedVariantConflict(a, [a, b]) && !HasTrustedVariantConflict(b, [a, b])
    requires !a.variantParameterConflict && !b.variantParameterConflict
    ensures ResolveEach([a, b], [a, b]) == [a, b]
  {
    assert [a, b][..1] == [a] && [a][..0] == [];
    assert Resolve(a, [a, b]) == a && Resolve(b, [a, b]) == b;
    assert ResolveEach([a], [a, b]) == [a];
  }

  lemma PlainPriced(a: Offer, b: Offer)
    requires a.fields.Some? && b.fields.Some?
    ensures Filter([a, b], Priced()) == [a, b]
  {
    assert [] + [a] == [a] && [a] + [b] == [a, b];
    FilterSnoc([], a, Priced());
    FilterSnoc([a], b, Priced());
  }

  lemma PlainRank(a: Offer, b: Offer)
    requires Bucket(a) == Bucket(b) == 5 && ResolveEach([a, b], [a, b]) == [a, b]
    ensures RankOffers([a, b]) == [a, b]
  {
    PlainBucket(a, b, 0);
    PlainBucket(a, b, 1);
    PlainBucket(a, b, 2);
    PlainBucket(a, b, 3);
    PlainBucket(a, b, 4);
    PlainBucket(a, b, 5);
  }

  lemma TwoPlainOffers(a: Offer, b: Offer)
    requires Bucket(a) == Bucket(b) == 5 && a.fields.Some? && b.fields.Some?
    requires !a.variantParameterConflict && !b.variantParameterConflict
    ensures PricedOffers([a, b]) == [a, b]
  {
    PlainResolve(a, b);
    PlainRank(a, b);
    PlainPriced(a, b);
  }
}
