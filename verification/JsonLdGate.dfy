/**
  Which offer of a page wins, which result of packages/core/src/extract/jsonld.ts is
  confident and which one is recorded, said by the flags of the offers and the page's
  selected sku alone.
*/
module JsonLdGate {
  import opened Prelude
  import opened Evidence
  import opened Sequences
  import opened JsonLd

  // ----- The winner -----

  /** The page's variant parameters contradict the offer, and the page's own data confirm that they matter. */
  predicate TrustedConflict(o: Offer, offers: seq<Offer>) {
    && o.variantParameterConflict && o.variantContext.Some?
    && ((exists p :: p in o.conflictProperties && p in o.variantContext.value.variesBy)
        || (exists k :: && 0 <= k < |offers| && offers[k].id != o.id
                        && offers[k].variantContext.Some? && offers[k].variantParameterMatches != []
                        && offers[k].variantContext.value.group == o.variantContext.value.group))
  }

  /** The offers with a price, in document order, each with its variant conflict confirmed or dropped. */
  ghost predicate IsOffer(w: Offer, offers: seq<Offer>, i: int) {
    && 0 <= i < |offers| && offers[i].fields.Some?
    && w == offers[i].(variantParameterConflict := TrustedConflict(offers[i], offers))
  }

  lemma ResolvedFlag(o: Offer, offers: seq<Offer>)
    ensures Resolve(o, offers) == o.(variantParameterConflict := TrustedConflict(o, offers))
  {
    if o.variantContext.Some? {
      forall k | 0 <= k < |offers| ensures offers[k] in offers && (Vouches(offers[k], o) <==>
        && offers[k].id != o.id && offers[k].variantContext.Some? && offers[k].variantParameterMatches != []
        && offers[k].variantContext.value.group == o.variantContext.value.group)
      {
      }
    }
  }

  lemma {:induction false} ResolvedAt(some: seq<Offer>, offers: seq<Offer>)
    ensures |ResolveEach(some, offers)| == |some|
    ensures forall i :: 0 <= i < |some| ==> ResolveEach(some, offers)[i] == Resolve(some[i], offers)
  {
    if some != [] {
      ResolvedAt(some[..|some| - 1], offers);
    }
  }

  lemma ResolvedOffer(offers: seq<Offer>, i: nat)
    requires i < |offers|
    ensures |ResolveEach(offers, offers)| == |offers|
    ensures ResolveEach(offers, offers)[i]
      == offers[i].(variantParameterConflict := TrustedConflict(offers[i], offers))
  {
    ResolvedAt(offers, offers);
    ResolvedFlag(offers[i], offers);
  }

  lemma {:induction false} FilterAppend<T(!new)>(s: seq<T>, t: seq<T>, p: T -> bool)
    ensures Filter(s + t, p) == Filter(s, p) + Filter(t, p)
  {
    if t == [] {
      assert s + t == s;
    } else {
      var front, last := t[..|t| - 1], t[|t| - 1];
      FilterAppend(s, front, p);
      FilterSnoc(s + front, last, p);
      FilterSnoc(front, last, p);
      Associative(s, front, [last]);
      Associative(Filter(s, p), Filter(front, p), if p(last) then [last] else []);
      assert front + [last] == t;
    }
  }

  function PricedIn(k: nat): Offer -> bool { (o: Offer) => Bucket(o) == k && o.fields.Some? }

  lemma {:induction false} PricedOfBucket(s: seq<Offer>, k: nat)
    ensures Filter(Filter(s, InBucket(k)), Priced()) == Filter(s, PricedIn(k))
  {
    if s != [] {
      PricedOfBucket(s[..|s| - 1], k);
      FilterAppend(Filter(s[..|s| - 1], InBucket(k)), [s[|s| - 1]], Priced());
    }
  }

  ghost predicate FirstAt<T(!new)>(s: seq<T>, p: T -> bool, i: int) {
    0 <= i < |s| && p(s[i]) && forall j :: 0 <= j < i ==> !p(s[j])
  }

  /** A filtered sequence starts with the first element that passes. */
  lemma {:induction false} FilterFirst<T(!new)>(s: seq<T>, p: T -> bool) returns (i: int)
    requires Filter(s, p) != []
    ensures FirstAt(s, p, i) && s[i] == Filter(s, p)[0]
  {
    var rest := s[..|s| - 1];
    if Filter(rest, p) == [] {
      i := |rest|;
      forall j | 0 <= j < i ensures !p(s[j]) {
        assert rest[j] in rest;
      }
    } else {
      i := FilterFirst(rest, p);
    }
  }

  predicate CleanExact(o: Offer) { o.urlMatch == Exact && !o.variantParameterConflict }

  /**
    Which of two offers a page means: the one of the selected sku; then the one at the page's exact
    URL without a variant conflict; then the one that matches the variant parameters; then the
    exact URL in spite of a conflict; then the same path.
  */
  predicate Beats(a: Offer, b: Offer) {
    if a.selectedSkuMatch || b.selectedSkuMatch then !b.selectedSkuMatch
    else if CleanExact(a) || CleanExact(b) then !CleanExact(b)
    else if a.variantParameterMatches != [] || b.variantParameterMatches != [] then b.variantParameterMatches == []
    else if a.urlMatch == Exact || b.urlMatch == Exact then b.urlMatch != Exact
    else a.urlMatch == OriginPathname && b.urlMatch == NoMatch
  }

  lemma BeatsIsABetterBucket(a: Offer, b: Offer)
    ensures Beats(a, b) <==> Bucket(a) < Bucket(b)
  {
  }

  /** The priced offers are exactly those the page gives a price for. */
  lemma PricedIff(offers: seq<Offer>, w: Offer)
    ensures w in PricedOffers(offers) <==> exists i :: IsOffer(w, offers, i)
  {
    var r := ResolveEach(offers, offers);
    RankKeepsEveryOffer(offers);
    SameMembers(RankOffers(offers), r);
    ResolvedAt(offers, offers);
    if w in PricedOffers(offers) {
      assert w in r;
      var i :| 0 <= i < |r| && r[i] == w;
      ResolvedOffer(offers, i);
      assert IsOffer(w, offers, i);
    }
    if i :| IsOffer(w, offers, i) {
      ResolvedOffer(offers, i);
      assert r[i] in r;
    }
  }

  lemma PricedByBucket(offers: seq<Offer>)
    ensures var r := ResolveEach(offers, offers);
      PricedOffers(offers) == Filter(r, PricedIn(0)) + Filter(r, PricedIn(1)) + Filter(r, PricedIn(2))
        + Filter(r, PricedIn(3)) + Filter(r, PricedIn(4)) + Filter(r, PricedIn(5))
  {
    var r := ResolveEach(offers, offers);
    var two := Filter(r, InBucket(0)) + Filter(r, InBucket(1));
    var three := two + Filter(r, InBucket(2));
    var four := three + Filter(r, InBucket(3));
    var five := four + Filter(r, InBucket(4));
    FilterAppend(Filter(r, InBucket(0)), Filter(r, InBucket(1)), Priced());
    FilterAppend(two, Filter(r, InBucket(2)), Priced());
    FilterAppend(three, Filter(r, InBucket(3)), Priced());
    FilterAppend(four, Filter(r, InBucket(4)), Priced());
    FilterAppend(five, Filter(r, InBucket(5)), Priced());
    PricedOfBucket(r, 0);
    PricedOfBucket(r, 1);
    PricedOfBucket(r, 2);
    PricedOfBucket(r, 3);
    PricedOfBucket(r, 4);
    PricedOfBucket(r, 5);
  }

  lemma FirstOfSix<T>(a: seq<T>, b: seq<T>, c: seq<T>, d: seq<T>, e: seq<T>, f: seq<T>)
    requires a + b + c + d + e + f != []
    ensures var s := if a != [] then a else if b != [] then b else if c != [] then c
      else if d != [] then d else if e != [] then e else f;
      s != [] && (a + b + c + d + e + f)[0] == s[0]
  {
  }

  /** The winner heads its own bucket, as every bucket before it holds no priced offer. */
  lemma WinnerHeadsItsBucket(offers: seq<Offer>, w: Offer)
    requires PricedOffers(offers) != [] && w == PricedOffers(offers)[0]
    ensures var r := ResolveEach(offers, offers);
      Filter(r, PricedIn(Bucket(w))) != [] && Filter(r, PricedIn(Bucket(w)))[0] == w
  {
    var r := ResolveEach(offers, offers);
    PricedByBucket(offers);
    FirstOfSix(Filter(r, PricedIn(0)), Filter(r, PricedIn(1)), Filter(r, PricedIn(2)),
      Filter(r, PricedIn(3)), Filter(r, PricedIn(4)), Filter(r, PricedIn(5)));
    var k :| 0 <= k < 6 && Filter(r, PricedIn(k)) != [] && w == Filter(r, PricedIn(k))[0];
    assert w in Filter(r, PricedIn(k));
  }

  /** Nothing in the document beats the winner, and nothing before it is as good. */
  ghost predicate Wins(w: Offer, offers: seq<Offer>, i: int) {
    && IsOffer(w, offers, i)
    && (forall o, j :: IsOffer(o, offers, j) ==> !Beats(o, w) && (j < i ==> Beats(w, o)))
  }

  lemma WinnerWins(offers: seq<Offer>, w: Offer) returns (i: int)
    requires PricedOffers(offers) != [] && w == PricedOffers(offers)[0]
    ensures Wins(w, offers, i)
  {
    var r, k := ResolveEach(offers, offers), Bucket(w);
    WinnerHeadsItsBucket(offers, w);
    i := FilterFirst(r, PricedIn(k));
    ResolvedAt(offers, offers);
    ResolvedOffer(offers, i);
    WinnerHasBestBucket(offers);
    forall o, j | IsOffer(o, offers, j) ensures !Beats(o, w) && (j < i ==> Beats(w, o)) {
      ResolvedOffer(offers, j);
      assert r[j] == o;
      PricedIff(offers, o);
      BeatsIsABetterBucket(o, w);
      BeatsIsABetterBucket(w, o);
      assert j < i ==> !PricedIn(k)(r[j]);
    }
  }

  /**
    The winner is the first offer in the document that no other beats; the fields of the result are
    its own, and there is a result exactly if the page prices an offer.
  */
  lemma WinnerIs(offers: seq<Offer>, hint: SelectedSkuHint, page: PageUrl)
    ensures ExtractJsonLd(offers, hint, page).Some? <==> exists o, i :: IsOffer(o, offers, i)
    ensures ExtractJsonLd(offers, hint, page).Some? ==> exists w, i ::
      Wins(w, offers, i) && ExtractJsonLd(offers, hint, page).value.fields == w.fields.value
  {
    var priced := PricedOffers(offers);
    if priced != [] {
      PricedIff(offers, priced[0]);
      var i := WinnerWins(offers, priced[0]);
      assert priced[0] in priced;
    }
    if o, i :| IsOffer(o, offers, i) {
      PricedIff(offers, o);
    }
  }

  // ----- The gate -----

  lemma {:induction false} FilterCount<T(!new)>(s: seq<T>, p: T -> bool)
    requires s != [] && p(s[0])
    ensures |Filter(s, p)| >= 1
    ensures |Filter(s, p)| == 1 <==> forall j :: 1 <= j < |s| ==> !p(s[j])
  {
    var rest := s[..|s| - 1];
    if rest != [] {
      FilterCount(rest, p);
      assert forall j :: 1 <= j < |rest| ==> rest[j] == s[j];
    }
  }

  /** The page's selected sku is carried by an offer, and by one of those each other signal of the page singles out. */
  ghost predicate SkuAgrees(priced: seq<Offer>, hint: SelectedSkuHint) {
    && !hint.conflict
    && (hint.hasSku ==>
          && (exists o :: o in priced && o.selectedSkuMatch)
          && ((exists o :: o in priced && o.urlMatch == Exact) ==>
                exists o :: o in priced && o.urlMatch == Exact && o.selectedSkuMatch)
          && ((exists o :: o in priced && o.variantParameterMatches != []) ==>
                exists o :: o in priced && o.variantParameterMatches != [] && o.selectedSkuMatch))
  }

  /** The offer is a product's own single price, and no signal of the page speaks against it. */
  ghost predicate Sound(w: Offer, priced: seq<Offer>, hint: SelectedSkuHint) {
    SkuAgrees(priced, hint) && w.isProduct && !w.aggregateOrRange && !w.variantParameterConflict
  }

  /** Every product of the same variant group can be told apart by the parameters that matched. */
  ghost predicate ToldApart(w: Offer, priced: seq<Offer>) {
    forall j, k ::
      && 0 <= j < |priced| && 0 <= k < |w.variantParameterMatches| && priced[j].isProduct
      && (w.variantContext.None?
          || (priced[j].variantContext.Some? && priced[j].variantContext.value.group == w.variantContext.value.group))
      ==> w.variantParameterMatches[k] in priced[j].comparableVariantProperties
  }

  /** The page picks this one offer out: no other has the selected sku, or the exact URL, or matches the variant. */
  ghost predicate SingledOut(w: Offer, priced: seq<Offer>) {
    if w.selectedSkuMatch then forall j :: 1 <= j < |priced| ==> !priced[j].selectedSkuMatch
    else if w.urlMatch == Exact then forall j :: 1 <= j < |priced| ==> priced[j].urlMatch != Exact
    else
      && w.variantParameterMatches != []
      && (forall j :: 1 <= j < |priced| ==> priced[j].variantParameterMatches == [])
      && w.variantParametersTrusted && ToldApart(w, priced)
  }

  /** The page is about a single offer: it has no other, and its URL names nothing in particular. */
  ghost predicate Alone(w: Offer, priced: seq<Offer>, page: PageUrl) {
    && |priced| == 1 && !w.selectedSkuMatch && w.urlMatch == NoMatch && w.variantParameterMatches == []
    && page.PageUrl? && !page.hasQuery
  }

  lemma ContradictedIff(priced: seq<Offer>, hint: SelectedSkuHint)
    ensures Contradicted(priced, hint) <==> !SkuAgrees(priced, hint)
  {
    AnyPasses(priced, Selected());
    AnyPasses(priced, ExactUrlMatch());
    AnyPasses(priced, VariantMatch());
  }

  lemma AnyPasses(priced: seq<Offer>, p: Offer -> bool)
    ensures Filter(priced, p) != [] <==> exists o :: o in priced && p(o)
    ensures (exists o :: o in Filter(priced, p) && o.selectedSkuMatch)
      <==> exists o :: o in priced && p(o) && o.selectedSkuMatch
  {
    if Filter(priced, p) != [] {
      assert Filter(priced, p)[0] in Filter(priced, p);
    }
  }

  lemma ComparableIff(w: Offer, priced: seq<Offer>)
    ensures SemanticCandidatesAreComparable(w, priced) <==> ToldApart(w, priced)
  {
  }

  /** How often the flags of the winner occur among the priced offers. */
  ghost predicate CountedOnce(w: Offer, priced: seq<Offer>) {
    if w.selectedSkuMatch then |Filter(priced, Selected())| == 1
    else if w.urlMatch == Exact then |Filter(priced, ExactUrlMatch())| == 1
    else
      && w.variantParameterMatches != [] && |Filter(priced, VariantMatch())| == 1
      && w.variantParametersTrusted && SemanticCandidatesAreComparable(w, priced)
  }

  lemma CountedOnceIff(w: Offer, priced: seq<Offer>)
    requires priced != [] && w == priced[0]
    ensures CountedOnce(w, priced) <==> SingledOut(w, priced)
  {
    if w.selectedSkuMatch {
      FilterCount(priced, Selected());
    } else if w.urlMatch == Exact {
      FilterCount(priced, ExactUrlMatch());
    } else if w.variantParameterMatches != [] {
      FilterCount(priced, VariantMatch());
      ComparableIff(w, priced);
    }
  }

  lemma ConfidenceByCounts(w: Offer, priced: seq<Offer>, hint: SelectedSkuHint, page: PageUrl)
    requires priced != [] && w == priced[0]
    ensures var (confidence, evidence) := ConfidenceForJsonLd(w, priced, hint, page);
      var sound := !Contradicted(priced, hint) && w.isProduct && !w.aggregateOrRange && !w.variantParameterConflict;
      && (confidence == High <==> sound && (CountedOnce(w, priced) || Alone(w, priced, page)))
      && (sound && |priced| == 1 ==> evidence.count == Some(1) && evidence.kind !in CONFLICTING_EVIDENCE_TYPES)
      && evidence.count == Some(|priced|) && (!sound ==> evidence.kind in CONFLICTING_EVIDENCE_TYPES)
  {
    if |priced| == 1 {
      if w.selectedSkuMatch { FilterCount(priced, Selected()); }
      if w.urlMatch == Exact { FilterCount(priced, ExactUrlMatch()); }
      if w.variantParameterMatches != [] { FilterCount(priced, VariantMatch()); }
    }
  }

  /**
    A result is confident exactly if its offer is sound and either singled out or alone, and it is
    recorded exactly if its offer is sound and either singled out among several or the only one priced.
  */
  lemma RecordedIff(offers: seq<Offer>, hint: SelectedSkuHint, page: PageUrl)
    requires PricedOffers(offers) != []
    ensures var priced := PricedOffers(offers); var w := priced[0]; var c := ExtractJsonLd(offers, hint, page);
      && c.Some?
      && (c.value.confidence == High <==>
            Sound(w, priced, hint) && (SingledOut(w, priced) || Alone(w, priced, page)))
      && (Recordable(c) <==> Sound(w, priced, hint) && (SingledOut(w, priced) || |priced| == 1))
  {
    var priced := PricedOffers(offers);
    ConfidenceByCounts(priced[0], priced, hint, page);
    ContradictedIff(priced, hint);
    CountedOnceIff(priced[0], priced);
  }

  /** For a page with a single priced offer the flags say it alone. */
  lemma SoleOfferIsRecordedIff(offers: seq<Offer>, hint: SelectedSkuHint, page: PageUrl)
    requires |PricedOffers(offers)| == 1
    ensures var w := PricedOffers(offers)[0];
      Recordable(ExtractJsonLd(offers, hint, page)) <==>
        && w.isProduct && !w.aggregateOrRange && !w.variantParameterConflict
        && !hint.conflict && (hint.hasSku ==> w.selectedSkuMatch)
  {
    var priced := PricedOffers(offers);
    RecordedIff(offers, hint, page);
    assert priced == [priced[0]];
    assert forall o :: o in priced <==> o == priced[0];
  }

  /** What a confident result says about itself: how many offers had a price, and what singled this one out. */
  lemma EvidenceOfHigh(offers: seq<Offer>, hint: SelectedSkuHint, page: PageUrl)
    requires ExtractJsonLd(offers, hint, page).Some? && ExtractJsonLd(offers, hint, page).value.confidence == High
    ensures var w := PricedOffers(offers)[0]; var e := ExtractJsonLd(offers, hint, page).value.evidence;
      && e.count == Some(|PricedOffers(offers)|)
      && (e.kind == SelectedSku <==> w.selectedSkuMatch)
      && (e.kind == ExactUrl <==> w.urlMatch == Exact && !w.selectedSkuMatch)
      && (e.kind == VariantParams <==>
            w.variantParameterMatches != [] && w.urlMatch != Exact && !w.selectedSkuMatch)
      && (e.kind == VariantParams ==> e.matchedParams == w.variantParameterMatches)
      && e.kind in {SelectedSku, ExactUrl, VariantParams, Singleton}
  {
  }
}
