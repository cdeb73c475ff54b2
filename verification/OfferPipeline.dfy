/** From discovered candidates to ranked offers: what the dedupe of discovery gives the ranking, and
    what the views of the projection say about the site results behind them. */
module OfferPipeline {
  import opened Basics
  import opened Sorting
  import opened OfferRanking
  import D = ProductDiscovery

  // ----- distinct offers -----------------------------------------------------------------------

  /** One site result per candidate, in order, about the URL of the candidate. */
  ghost predicate ResultsFor(results: seq<SiteResult>, candidates: seq<D.Candidate>) {
    |results| == |candidates| && forall i :: 0 <= i < |results| ==> results[i].url == candidates[i].url
  }

  lemma RecordUrl(fixture: string, r: SiteResult)
    ensures OfferRecord(fixture, r).url == r.url
  {}

  /** The dedupe of discovery makes the offer URLs distinct. */
  lemma DiscoveredOffersAreDistinct(
    sources: seq<D.Source>, budget: int, results: seq<SiteResult>, fixture: string)
    requires ResultsFor(results, D.Collect(D.Shares(sources), |sources|, budget))
    ensures DistinctUrls(Records(fixture, results))
  {
    D.DiscoveryInvariants(sources, budget);
    var candidates, records := D.Collect(D.Shares(sources), |sources|, budget), Records(fixture, results);
    forall a, b | a in records && b in records && a.url == b.url ensures a == b {
      var i :| 0 <= i < |records| && records[i] == a;
      var j :| 0 <= j < |records| && records[j] == b;
      RecordUrl(fixture, results[i]);
      RecordUrl(fixture, results[j]);
      assert candidates[i].url == candidates[j].url;
      assert i == j;
    }
  }

  /** So the ranking of discovered offers does not depend on the order of the records, as long as ids
      tell the records apart. */
  lemma DiscoveredRankingIgnoresOrder(
    sources: seq<D.Source>, budget: int, results: seq<SiteResult>, fixture: string, shuffled: seq<Offer>, limit: nat)
    requires ResultsFor(results, D.Collect(D.Shares(sources), |sources|, budget))
    requires DistinctIds(Records(fixture, results)) && Permutation(Records(fixture, results), shuffled)
    ensures RankedOffers(Records(fixture, results), limit) == RankedOffers(shuffled, limit)
  {
    DiscoveredOffersAreDistinct(sources, budget, results, fixture);
    RankingIgnoresOrder(Records(fixture, results), shuffled, limit);
  }

  // ----- the results behind a view -------------------------------------------------------------

  /** A price in a known currency with no shipping fee or one in the same currency. */
  predicate Landed(r: SiteResult) {
    r.price.Some? && r.priceCurrency.Some? && (r.shipping.None? || r.shippingCurrency == r.priceCurrency)
  }

  lemma TotalIsLandedPrice(r: SiteResult)
    ensures TotalPrice(r) == if Landed(r) then Some(r.price.value + AmountOr(r.shipping)) else None
  {}

  const BEST_FIRST: seq<Option<Status>> :=
    [Some(InStock), Some(Limited), Some(Unknown), Some(OutOfStock), Some(Unavailable), None]

  /** `a` is at least as available as `b`; an unstated status comes last. */
  ghost predicate AtLeastAsAvailable(a: Option<Status>, b: Option<Status>) {
    exists i, j :: 0 <= i <= j < |BEST_FIRST| && BEST_FIRST[i] == a && BEST_FIRST[j] == b
  }

  lemma RankIsPosition(status: Option<Status>) returns (i: nat)
    ensures i < |BEST_FIRST| && BEST_FIRST[i] == status
    ensures AvailabilityRank(status) == if i < 5 then i else UNKNOWN_SORT_RANK
  {
    match status
    case Some(InStock) => i := 0; assert BEST_FIRST[0] == status;
    case Some(Limited) => i := 1; assert BEST_FIRST[1] == status;
    case Some(Unknown) => i := 2; assert BEST_FIRST[2] == status;
    case Some(OutOfStock) => i := 3; assert BEST_FIRST[3] == status;
    case Some(Unavailable) => i := 4; assert BEST_FIRST[4] == status;
    case None => i := 5; assert BEST_FIRST[5] == status;
  }

  lemma RanksOrderStatuses(a: Option<Status>, b: Option<Status>)
    requires AvailabilityRank(a) <= AvailabilityRank(b)
    ensures AtLeastAsAvailable(a, b)
  {
    var i := RankIsPosition(a);
    var j := RankIsPosition(b);
  }

  lemma {:induction false} PassingAreRecords(records: seq<Offer>)
    ensures forall o :: o in Passing(records) ==> o in records && o.completion == Pass
  {
    if records != [] { PassingAreRecords(records[1..]); }
  }

  /** The site result a listed offer was made from. */
  lemma ResultBehind(fixture: string, results: seq<SiteResult>, key: Offer -> Key, i: nat) returns (r: SiteResult)
    requires i < |Sorted(key, Passing(Records(fixture, results)))|
    ensures r in results && r.completion == Pass
    ensures Sorted(key, Passing(Records(fixture, results)))[i] == OfferRecord(fixture, r)
  {
    var records := Records(fixture, results);
    var view := Sorted(key, Passing(records));
    SortedIsOrdering(key, Passing(records));
    PermutationMembers(view, Passing(records));
    assert view[i] in Passing(records);
    PassingAreRecords(records);
    var k :| 0 <= k < |records| && records[k] == view[i];
    r := results[k];
  }

  lemma AvailabilityKeyOrders(a: Offer, b: Offer)
    requires KeyLeq(AvailabilityKey(a), AvailabilityKey(b))
    ensures a.availabilityRank <= b.availabilityRank
  {}

  /** The availability view lists the results from the most available to the least. */
  lemma AvailabilityViewIsBestFirst(fixture: string, results: seq<SiteResult>, i: nat, j: nat)
    returns (r: SiteResult, s: SiteResult)
    requires i < j < |Passing(Records(fixture, results))|
    ensures var view := Sorted(AvailabilityKey, Passing(Records(fixture, results)));
            && |view| == |Passing(Records(fixture, results))|
            && view[i] == OfferRecord(fixture, r) && view[j] == OfferRecord(fixture, s)
    ensures r in results && s in results && AtLeastAsAvailable(r.status, s.status)
  {
    var offers := Passing(Records(fixture, results));
    KeysInOrder(AvailabilityKey, offers, i, j);
    r := ResultBehind(fixture, results, AvailabilityKey, i);
    s := ResultBehind(fixture, results, AvailabilityKey, j);
    AvailabilityKeyOrders(OfferRecord(fixture, r), OfferRecord(fixture, s));
    RanksOrderStatuses(r.status, s.status);
  }

  /** The total view lists the results by price plus shipping, those whose two amounts cannot be added
      last. */
  lemma TotalViewIsCheapestFirst(fixture: string, results: seq<SiteResult>, i: nat, j: nat)
    returns (r: SiteResult, s: SiteResult)
    requires i < j < |Passing(Records(fixture, results))|
    ensures var view := Sorted(TotalKey, Passing(Records(fixture, results)));
            && |view| == |Passing(Records(fixture, results))|
            && view[i] == OfferRecord(fixture, r) && view[j] == OfferRecord(fixture, s)
    ensures r in results && s in results
    ensures Landed(s) ==> Landed(r) && r.price.value + AmountOr(r.shipping) <= s.price.value + AmountOr(s.shipping)
  {
    AmountsInOrder(Passing(Records(fixture, results)), i, j);
    r := ResultBehind(fixture, results, TotalKey, i);
    s := ResultBehind(fixture, results, TotalKey, j);
    TotalIsLandedPrice(r);
    TotalIsLandedPrice(s);
  }

  /** Least days come first in the delivery view, and an unstated number last, up to the sentinel. */
  lemma DeliveryViewIsSoonestFirst(fixture: string, results: seq<SiteResult>, i: nat, j: nat)
    returns (r: SiteResult, s: SiteResult)
    requires i < j < |Passing(Records(fixture, results))|
    ensures var view := Sorted(DeliveryKey, Passing(Records(fixture, results)));
            && |view| == |Passing(Records(fixture, results))|
            && view[i] == OfferRecord(fixture, r) && view[j] == OfferRecord(fixture, s)
    ensures r in results && s in results
    ensures r.etaMin.Some? && s.etaMin.Some? ==> r.etaMin.value <= s.etaMin.value
    ensures r.etaMin.None? && s.etaMin.Some? ==> s.etaMin.value >= UNKNOWN_SORT_RANK
  {
    var offers := Passing(Records(fixture, results));
    KeysInOrder(DeliveryKey, offers, i, j);
    r := ResultBehind(fixture, results, DeliveryKey, i);
    s := ResultBehind(fixture, results, DeliveryKey, j);
    DeliveryKeyOrders(OfferRecord(fixture, r), OfferRecord(fixture, s));
  }

  lemma DeliveryKeyOrders(a: Offer, b: Offer)
    requires KeyLeq(DeliveryKey(a), DeliveryKey(b))
    ensures a.deliveryRank <= b.deliveryRank
  {}
}
