/** Sortable product offers: the projection's four ordered views and the discovery benchmark's final
    ranking, all of them stable sorts by lexicographic keys. */
module OfferRanking {
  import opened Basics
  import opened Sorting

  const UNKNOWN_SORT_RANK := 999_999

  datatype Completion = Pass | NeedsReview | Fail

  datatype Status = InStock | Limited | Unknown | OutOfStock | Unavailable

  datatype SiteResult = SiteResult(
    target: string, siteName: string, url: string, completion: Completion,
    price: Option<real>, priceCurrency: Option<string>,
    shipping: Option<real>, shippingCurrency: Option<string>,
    status: Option<Status>, etaMin: Option<nat>, etaMax: Option<nat>)

  datatype Offer = Offer(
    id: string, siteName: string, url: string, completion: Completion,
    price: Option<real>, total: Option<real>, availabilityRank: int, deliveryRank: int, etaMax: Option<nat>)

  // ----- one record --------------------------------------------------------------------------

  function TotalPrice(r: SiteResult): Option<real> {
    if r.price.None? || r.priceCurrency.None? then None
    else if r.shipping.None? then r.price
    else if r.shippingCurrency != r.priceCurrency then None
    else Some(r.price.value + r.shipping.value)
  }

  function AvailabilityRank(status: Option<Status>): int {
    match status
    case None => UNKNOWN_SORT_RANK
    case Some(InStock) => 0
    case Some(Limited) => 1
    case Some(Unknown) => 2
    case Some(OutOfStock) => 3
    case Some(Unavailable) => 4
  }

  function DeliveryRank(etaMin: Option<nat>): int {
    if etaMin.Some? then etaMin.value else UNKNOWN_SORT_RANK
  }

  function OfferRecord(fixture: string, r: SiteResult): Offer {
    var id := "sortable-product-offer:" + fixture + ":" + r.target;
    if r.completion != Pass then
      Offer(id, r.siteName, r.url, r.completion, None, None, UNKNOWN_SORT_RANK, UNKNOWN_SORT_RANK, None)
    else
      Offer(id, r.siteName, r.url, Pass, r.price, TotalPrice(r),
            AvailabilityRank(r.status), DeliveryRank(r.etaMin), r.etaMax)
  }

  function Records(fixture: string, results: seq<SiteResult>): (r: seq<Offer>)
    ensures |r| == |results| && forall i :: 0 <= i < |r| ==> r[i] == OfferRecord(fixture, results[i])
  {
    seq(|results|, i requires 0 <= i < |results| => OfferRecord(fixture, results[i]))
  }

  // ----- keys --------------------------------------------------------------------------------

  /** The components of every key in use, in order of precedence; a key that lacks one leaves it at a
      constant. */
  datatype Key = Key(missing: bool, amount: real, first: int, second: int, site: string, url: string)

  predicate KeyLeq(a: Key, b: Key) {
    if a.missing != b.missing then b.missing
    else if a.amount != b.amount then a.amount < b.amount
    else if a.first != b.first then a.first < b.first
    else if a.second != b.second then a.second < b.second
    else if a.site != b.site then StringLeq(a.site, b.site)
    else StringLeq(a.url, b.url)
  }

  function AmountOr(x: Option<real>): real { if x.Some? then x.value else 0.0 }

  /** `delivery_eta_max_days or _UNKNOWN_SORT_RANK`: zero days count as unknown. */
  function EtaKey(days: Option<nat>): int {
    if days.Some? && days.value != 0 then days.value else UNKNOWN_SORT_RANK
  }

  function PriceKey(o: Offer): Key { Key(o.price.None?, AmountOr(o.price), 0, 0, o.siteName, "") }
  function TotalKey(o: Offer): Key { Key(o.total.None?, AmountOr(o.total), 0, 0, o.siteName, "") }
  function DeliveryKey(o: Offer): Key { Key(false, 0.0, o.deliveryRank, EtaKey(o.etaMax), o.siteName, "") }
  function AvailabilityKey(o: Offer): Key { Key(false, 0.0, o.availabilityRank, 0, o.siteName, "") }
  function RankKey(o: Offer): Key {
    Key(o.price.None?, AmountOr(o.price), o.deliveryRank, EtaKey(o.etaMax), o.siteName, o.url)
  }

  function By(key: Offer -> Key): (Offer, Offer) -> bool { (a: Offer, b: Offer) => KeyLeq(key(a), key(b)) }

  lemma KeysAreOrdered(key: Offer -> Key)
    ensures TotalPreorder(By(key))
  {
    StringOrder();
    forall a, b, c | By(key)(a, b) && By(key)(b, c) ensures By(key)(a, c) {
      KeyTransitive(key(a), key(b), key(c));
    }
  }

  lemma KeyTransitive(a: Key, b: Key, c: Key)
    requires KeyLeq(a, b) && KeyLeq(b, c)
    ensures KeyLeq(a, c)
  {
    StringOrder();
  }

  lemma KeyAntisymmetric(a: Key, b: Key)
    requires KeyLeq(a, b) && KeyLeq(b, a)
    ensures a == b
  {
    StringOrder();
  }

  // ----- the projection ----------------------------------------------------------------------

  function Ids(offers: seq<Offer>): (r: seq<string>)
    ensures |r| == |offers| && forall i :: 0 <= i < |r| ==> r[i] == offers[i].id
  {
    seq(|offers|, i requires 0 <= i < |offers| => offers[i].id)
  }

  function Passing(offers: seq<Offer>): seq<Offer> {
    if offers == [] then []
    else (if offers[0].completion == Pass then [offers[0]] else []) + Passing(offers[1..])
  }

  function Blocked(offers: seq<Offer>): seq<Offer> {
    if offers == [] then []
    else (if offers[0].completion != Pass then [offers[0]] else []) + Blocked(offers[1..])
  }

  datatype Projection = Projection(
    sortable: seq<string>, blocked: seq<string>, completion: Completion,
    byPrice: seq<string>, byTotal: seq<string>, byDelivery: seq<string>, byAvailability: seq<string>)

  function Sorted(key: Offer -> Key, offers: seq<Offer>): seq<Offer> { Sort(offers, By(key)) }

  function Project(records: seq<Offer>): Projection {
    var sortable := Passing(records);
    var blocked := Blocked(records);
    Projection(
      Ids(sortable), Ids(blocked),
      if sortable != [] && blocked == [] then Pass else if sortable != [] then NeedsReview else Fail,
      Ids(Sorted(PriceKey, sortable)), Ids(Sorted(TotalKey, sortable)),
      Ids(Sorted(DeliveryKey, sortable)), Ids(Sorted(AvailabilityKey, sortable)))
  }

  lemma {:induction false} PartitionIsComplete(records: seq<Offer>)
    ensures multiset(Passing(records)) + multiset(Blocked(records)) == multiset(records)
    ensures (forall o :: o in Passing(records) ==> o.completion == Pass)
         && forall o :: o in Blocked(records) ==> o.completion != Pass
  {
    if records != [] {
      PartitionIsComplete(records[1..]);
      assert records == [records[0]] + records[1..];
    }
  }

  /** `refs` lists the sortable offers in key order, ties in the order of the records. */
  ghost predicate IsView(refs: seq<string>, sortable: seq<Offer>, key: Offer -> Key) {
    exists offers :: IsOrdering(offers, sortable, key) && refs == Ids(offers)
  }

  ghost predicate IsOrdering(offers: seq<Offer>, sortable: seq<Offer>, key: Offer -> Key) {
    && Permutation(offers, sortable) && SortedBy(offers, By(key))
    && forall k :: TiedWith(offers, k, By(key)) == TiedWith(sortable, k, By(key))
  }

  lemma SortedIsOrdering(key: Offer -> Key, offers: seq<Offer>)
    ensures IsOrdering(Sorted(key, offers), offers, key)
  {
    KeysAreOrdered(key);
    SortCorrect(offers, By(key));
    forall k ensures TiedWith(Sorted(key, offers), k, By(key)) == TiedWith(offers, k, By(key)) {
      SortStable(offers, k, By(key));
    }
  }

  /** Records are split without loss, the verdict says which kinds there are, and each of the four
      views is a stable ordering of all sortable offers by its own key. */
  lemma ProjectionViews(records: seq<Offer>)
    ensures var p := Project(records);
            && |p.sortable| + |p.blocked| == |records|
            && (p.completion == Pass <==> records != [] && forall o :: o in records ==> o.completion == Pass)
            && (p.completion == Fail <==> forall o :: o in records ==> o.completion != Pass)
            && IsView(p.byPrice, Passing(records), PriceKey)
            && IsView(p.byTotal, Passing(records), TotalKey)
            && IsView(p.byDelivery, Passing(records), DeliveryKey)
            && IsView(p.byAvailability, Passing(records), AvailabilityKey)
  {
    var sortable := Passing(records);
    PartitionIsComplete(records);
    PartitionMembers(records);
    assert |multiset(sortable)| + |multiset(Blocked(records))| == |multiset(records)|;
    SortedIsOrdering(PriceKey, sortable);
    SortedIsOrdering(TotalKey, sortable);
    SortedIsOrdering(DeliveryKey, sortable);
    SortedIsOrdering(AvailabilityKey, sortable);
  }

  lemma PartitionMembers(records: seq<Offer>)
    ensures forall o :: o in records <==> o in Passing(records) || o in Blocked(records)
    ensures Passing(records) == [] <==> forall o :: o in records ==> o.completion != Pass
    ensures Blocked(records) == [] <==> forall o :: o in records ==> o.completion == Pass
  {
    PartitionIsComplete(records);
    forall o ensures o in records <==> o in Passing(records) || o in Blocked(records) {
      assert o in records <==> o in multiset(records);
      assert o in Passing(records) <==> o in multiset(Passing(records));
      assert o in Blocked(records) <==> o in multiset(Blocked(records));
    }
    if Passing(records) != [] { assert Passing(records)[0] in Passing(records); }
    if Blocked(records) != [] { assert Blocked(records)[0] in Blocked(records); }
  }

  lemma KeysInOrder(key: Offer -> Key, offers: seq<Offer>, i: nat, j: nat)
    requires i < j < |offers|
    ensures |Sorted(key, offers)| == |offers| && KeyLeq(key(Sorted(key, offers)[i]), key(Sorted(key, offers)[j]))
  {
    KeysAreOrdered(key);
    SortCorrect(offers, By(key));
    assert By(key)(Sorted(key, offers)[i], Sorted(key, offers)[j]);
  }

  /** `x` may come before `y` among amounts: nothing absent precedes an amount, and amounts never fall. */
  predicate AmountBefore(x: Option<real>, y: Option<real>) {
    y.Some? ==> x.Some? && x.value <= y.value
  }

  lemma KeyPutsAmounts(a: Offer, b: Offer)
    ensures KeyLeq(PriceKey(a), PriceKey(b)) ==> AmountBefore(a.price, b.price)
    ensures KeyLeq(TotalKey(a), TotalKey(b)) ==> AmountBefore(a.total, b.total)
  {}

  /** In the price and total views amounts never fall, and offers without one come last. */
  lemma AmountsInOrder(offers: seq<Offer>, i: nat, j: nat)
    requires i < j < |offers|
    ensures var view := Sorted(PriceKey, offers); |view| == |offers| && AmountBefore(view[i].price, view[j].price)
    ensures var view := Sorted(TotalKey, offers); |view| == |offers| && AmountBefore(view[i].total, view[j].total)
  {
    KeysInOrder(PriceKey, offers, i, j);
    KeysInOrder(TotalKey, offers, i, j);
    KeyPutsAmounts(Sorted(PriceKey, offers)[i], Sorted(PriceKey, offers)[j]);
    KeyPutsAmounts(Sorted(TotalKey, offers)[i], Sorted(TotalKey, offers)[j]);
  }

  // ----- the final ranking -------------------------------------------------------------------

  /** `{offer.id: offer for offer in records}`: the last record of an id wins. */
  function ById(records: seq<Offer>): (m: map<string, Offer>)
    ensures forall id :: id in m ==> m[id] in records && m[id].id == id
    ensures forall o :: o in records ==> o.id in m
  {
    if records == [] then map[]
    else ById(records[..|records| - 1])[records[|records| - 1].id := records[|records| - 1]]
  }

  function Resolve(m: map<string, Offer>, refs: seq<string>): seq<Offer> {
    if refs == [] then []
    else (if refs[0] in m then [m[refs[0]]] else []) + Resolve(m, refs[1..])
  }

  /** `_ranked_offers`: through the price view, then by the ranking key. */
  function RankedOffers(records: seq<Offer>, limit: nat): seq<Offer> {
    Take(Sorted(RankKey, Resolve(ById(records), Project(records).byPrice)), limit)
  }

  ghost predicate DistinctIds(records: seq<Offer>) {
    forall a, b :: a in records && b in records && a.id == b.id ==> a == b
  }

  ghost predicate DistinctUrls(records: seq<Offer>) {
    forall a, b :: a in records && b in records && a.url == b.url ==> a == b
  }

  lemma {:induction false} ResolveFinds(m: map<string, Offer>, offers: seq<Offer>)
    requires forall o :: o in offers ==> o.id in m && m[o.id] == o
    ensures Resolve(m, Ids(offers)) == offers
  {
    if offers != [] {
      assert offers[0] in offers;
      ResolveFinds(m, offers[1..]);
      assert Ids(offers)[1..] == Ids(offers[1..]);
      assert offers == [offers[0]] + offers[1..];
    }
  }

  lemma RankKeyIsStrict(offers: seq<Offer>)
    requires DistinctUrls(offers)
    ensures StrictOn(offers, By(RankKey))
  {
    forall a, b | a in offers && b in offers && By(RankKey)(a, b) && By(RankKey)(b, a) ensures a == b {
      KeyAntisymmetric(RankKey(a), RankKey(b));
    }
  }

  lemma DistinctFollow(records: seq<Offer>)
    requires DistinctIds(records) && DistinctUrls(records)
    ensures DistinctUrls(Passing(records))
    ensures forall o :: o in Passing(records) ==> o.id in ById(records) && ById(records)[o.id] == o
  {
    PartitionMembers(records);
  }

  /** The detour through the price view is invisible: the ranking is the sortable offers in the
      order of the ranking key, cut to the limit. */
  lemma RankingIsDirect(records: seq<Offer>, limit: nat)
    requires DistinctIds(records) && DistinctUrls(records)
    ensures RankedOffers(records, limit) == Take(Sorted(RankKey, Passing(records)), limit)
  {
    var sortable := Passing(records);
    var byPrice := Sorted(PriceKey, sortable);
    SortedIsOrdering(PriceKey, sortable);
    PermutationMembers(byPrice, sortable);
    DistinctFollow(records);
    ResolveFinds(ById(records), byPrice);
    RankKeyIsStrict(byPrice);
    KeysAreOrdered(RankKey);
    SortPermutationInvariant(byPrice, sortable, By(RankKey));
  }

  lemma {:induction false} PassingPermutes(a: seq<Offer>, b: seq<Offer>)
    requires Permutation(a, b)
    ensures Permutation(Passing(a), Passing(b))
  {
    PassingIsFlatMap(a);
    PassingIsFlatMap(b);
    FlatMapPermutes(KeepPassing, a, b);
  }

  function KeepPassing(o: Offer): seq<Offer> { if o.completion == Pass then [o] else [] }

  lemma {:induction false} PassingIsFlatMap(offers: seq<Offer>)
    ensures Passing(offers) == FlatMap(KeepPassing, offers)
  {
    if offers != [] { PassingIsFlatMap(offers[1..]); }
  }

  /** With distinct ids and offer URLs, the ranking does not depend on the order of the records. */
  lemma RankingIgnoresOrder(a: seq<Offer>, b: seq<Offer>, limit: nat)
    requires Permutation(a, b) && DistinctIds(a) && DistinctUrls(a)
    ensures RankedOffers(a, limit) == RankedOffers(b, limit)
  {
    PermutationMembers(a, b);
    RankingIsDirect(a, limit);
    RankingIsDirect(b, limit);
    PassingPermutes(a, b);
    DistinctFollow(a);
    RankKeyIsStrict(Passing(a));
    KeysAreOrdered(RankKey);
    SortPermutationInvariant(Passing(a), Passing(b), By(RankKey));
  }

  /** The ranking is the best `limit` sortable offers, best first: none left out has a smaller key
      than one that is listed. */
  lemma RankingIsBest(records: seq<Offer>, limit: nat) returns (rest: seq<Offer>)
    requires DistinctIds(records) && DistinctUrls(records)
    ensures var top := RankedOffers(records, limit);
            && Permutation(top + rest, Passing(records)) && |top| == Min(limit, |Passing(records)|)
            && SortedBy(top, By(RankKey))
            && forall x, y :: x in top && y in rest ==> KeyLeq(RankKey(x), RankKey(y))
  {
    RankingIsDirect(records, limit);
    KeysAreOrdered(RankKey);
    SortCorrect(Passing(records), By(RankKey));
    var sorted := Sorted(RankKey, Passing(records));
    var n := Min(limit, |sorted|);
    rest := sorted[n..];
    CutSorted(sorted, n, By(RankKey));
    assert RankedOffers(records, limit) == sorted[..n];
    forall x, y | x in sorted[..n] && y in rest ensures KeyLeq(RankKey(x), RankKey(y)) {
      assert By(RankKey)(x, y);
    }
  }
}
