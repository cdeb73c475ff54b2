/** When the delivery view of the projection really lists offers by their days to deliver. */
module DeliveryOrder {
  import opened Basics
  import opened Sorting
  import opened OfferRanking

  // ----- where a stable sort puts two elements -------------------------------------------------

  ghost predicate Before<T>(s: seq<T>, x: T, y: T) { exists i, j :: 0 <= i < j < |s| && s[i] == x && s[j] == y }

  lemma BeforeCons<T(!new)>(a: T, s: seq<T>, x: T, y: T)
    ensures Before([a] + s, x, y) <==> (a == x && y in s) || Before(s, x, y)
  {
    var t := [a] + s;
    assert forall i :: 0 <= i < |s| ==> t[i + 1] == s[i];
    if Before(t, x, y) {
      var i, j :| 0 <= i < j < |t| && t[i] == x && t[j] == y;
      assert t[j] == s[j - 1];
      if i > 0 { assert t[i] == s[i - 1]; }
    }
    if a == x && y in s {
      var j :| 0 <= j < |s| && s[j] == y;
      assert t[0] == x && t[j + 1] == y;
    }
    if Before(s, x, y) {
      var i, j :| 0 <= i < j < |s| && s[i] == x && s[j] == y;
      assert t[i + 1] == x && t[j + 1] == y;
    }
  }

  lemma {:induction false} TiedMembers<T(!new)>(s: seq<T>, k: T, x: T, leq: (T, T) -> bool)
    requires Tied(x, k, leq)
    ensures x in TiedWith(s, k, leq) <==> x in s
  {
    if s != [] {
      TiedMembers(s[1..], k, x, leq);
      assert s == [s[0]] + s[1..];
    }
  }

  lemma {:induction false} BeforeTied<T(!new)>(s: seq<T>, k: T, x: T, y: T, leq: (T, T) -> bool)
    requires Tied(x, k, leq) && Tied(y, k, leq)
    ensures Before(TiedWith(s, k, leq), x, y) <==> Before(s, x, y)
  {
    if s != [] {
      var rest := s[1..];
      BeforeTied(rest, k, x, y, leq);
      TiedMembers(rest, k, y, leq);
      BeforeCons(s[0], rest, x, y);
      BeforeCons(s[0], TiedWith(rest, k, leq), x, y);
      assert s == [s[0]] + rest;
      assert [] + TiedWith(rest, k, leq) == TiedWith(rest, k, leq);
    }
  }

  lemma StrictlyBefore<T(!new)>(view: seq<T>, x: T, y: T, leq: (T, T) -> bool)
    requires SortedBy(view, leq) && x in view && y in view && leq(x, y) && !leq(y, x)
    ensures Before(view, x, y)
  {
    var p :| 0 <= p < |view| && view[p] == x;
    var q :| 0 <= q < |view| && view[q] == y;
    IndexOrder(view, p, q, leq);
  }

  lemma IndexOrder<T(!new)>(view: seq<T>, p: nat, q: nat, leq: (T, T) -> bool)
    requires SortedBy(view, leq) && p < |view| && q < |view|
    requires leq(view[p], view[q]) && !leq(view[q], view[p])
    ensures p < q
  {}

  /** A view puts `x` ahead of `y` when its key comes first, or on a tie when its record does. */
  lemma ViewPlaces(key: Offer -> Key, offers: seq<Offer>, x: Offer, y: Offer)
    requires x in offers && y in offers
    ensures Before(Sorted(key, offers), x, y)
       <==> KeyLeq(key(x), key(y)) && (KeyLeq(key(y), key(x)) ==> Before(offers, x, y))
  {
    var view, leq := Sorted(key, offers), By(key);
    SortedIsOrdering(key, offers);
    PermutationMembers(view, offers);
    if Before(view, x, y) {
      var p, q :| 0 <= p < q < |view| && view[p] == x && view[q] == y;
      assert leq(view[p], view[q]);
    }
    assert leq(x, y) == KeyLeq(key(x), key(y)) && leq(y, x) == KeyLeq(key(y), key(x));
    if leq(x, y) {
      if leq(y, x) {
        KeysAreOrdered(key);
        assert Tied(x, x, leq) && Tied(y, x, leq);
        BeforeTied(view, x, x, y, leq);
        BeforeTied(offers, x, x, y, leq);
      } else {
        StrictlyBefore(view, x, y, leq);
      }
    }
  }

  // ----- any view that reads the greatest days -----------------------------------------------

  /** The greatest number of days an offer may take, an unknown number last. */
  function Days(o: Offer): int { if o.etaMax.Some? then o.etaMax.value else UNKNOWN_SORT_RANK }

  /** The key puts `days or 999_999` behind its first three components. */
  ghost predicate ReadsDays(key: Offer -> Key) { forall o :: key(o).second == EtaKey(o.etaMax) }

  predicate SamePrefix(k: Key, l: Key) { k.missing == l.missing && k.amount == l.amount && k.first == l.first }

  /** `b` may stand before `a`: by the components in front of the days, then by the days they really
      take. */
  predicate MayPrecede(key: Offer -> Key, b: Offer, a: Offer) {
    var (k, l) := (key(b), key(a));
    if SamePrefix(k, l) then Days(b) <= Days(a) else KeyLeq(k, l)
  }

  /** The first `n` offers of the view are in order, and none of those behind them belongs before one. */
  ghost predicate TopInOrder(key: Offer -> Key, view: seq<Offer>, n: nat) {
    forall p, q :: 0 <= p < q < |view| && p < n ==> MayPrecede(key, view[p], view[q])
  }

  /** What decides between offers with equal days. */
  ghost predicate TailFirst(key: Offer -> Key, offers: seq<Offer>, b: Offer, a: Offer) {
    if key(b).site != key(a).site then StringLeq(key(b).site, key(a).site)
    else if key(b).url != key(a).url then StringLeq(key(b).url, key(a).url)
    else Before(offers, b, a)
  }

  /** `b` may take longer than the zero-day offer `a`, which nothing before the days tells apart from
      it, and is listed before it: its days are below the rank of the unknown, or equal to it and what
      follows decides for it. */
  ghost predicate Overtakes(key: Offer -> Key, offers: seq<Offer>, b: Offer, a: Offer) {
    && Days(a) == 0 && Days(b) != 0 && SamePrefix(key(b), key(a))
    && (Days(b) < UNKNOWN_SORT_RANK || (Days(b) == UNKNOWN_SORT_RANK && TailFirst(key, offers, b, a)))
  }

  lemma OvertakesByKey(key: Offer -> Key, offers: seq<Offer>, b: Offer, a: Offer)
    requires ReadsDays(key) && Days(a) == 0 && Days(b) != 0 && SamePrefix(key(b), key(a))
    ensures Overtakes(key, offers, b, a)
       <==> KeyLeq(key(b), key(a)) && (KeyLeq(key(a), key(b)) ==> Before(offers, b, a))
  {
    StringOrder();
    assert key(a).second == UNKNOWN_SORT_RANK && key(b).second == Days(b);
  }

  /** The key is faithful unless the second offer takes zero days and the first does not. */
  lemma KeyIsFaithful(key: Offer -> Key, b: Offer, a: Offer)
    requires ReadsDays(key) && KeyLeq(key(b), key(a)) && !(Days(a) == 0 && Days(b) != 0)
    ensures MayPrecede(key, b, a)
  {
    assert key(a).second == EtaKey(a.etaMax) && key(b).second == EtaKey(b.etaMax);
  }

  /** None of the first `n` offers of the view overtakes any. */
  ghost predicate NoneOvertakes(key: Offer -> Key, offers: seq<Offer>, n: nat) {
    forall a, b :: a in offers && b in Take(Sorted(key, offers), n) ==> !Overtakes(key, offers, b, a)
  }

  lemma TakenAt<T>(s: seq<T>, n: nat, x: T)
    ensures x in Take(s, n) <==> exists p :: 0 <= p < |s| && p < n && s[p] == x
  {
    if x in Take(s, n) {
      var p :| 0 <= p < |Take(s, n)| && Take(s, n)[p] == x;
      assert s[p] == x;
    }
    if p :| 0 <= p < |s| && p < n && s[p] == x {
      assert Take(s, n)[p] == x;
    }
  }

  /** The top of a view is in order exactly when none of its offers overtakes a zero-day offer. */
  lemma TopInOrderExactlyWhen(key: Offer -> Key, offers: seq<Offer>, n: nat)
    requires ReadsDays(key)
    ensures TopInOrder(key, Sorted(key, offers), n) <==> NoneOvertakes(key, offers, n)
  {
    var view := Sorted(key, offers);
    if TopInOrder(key, view, n) {
      forall a, b | a in offers && b in Take(view, n) ensures !Overtakes(key, offers, b, a) {
        TakenAt(view, n, b);
        var p :| 0 <= p < |view| && p < n && view[p] == b;
        if Overtakes(key, offers, b, a) { OvertakenIsMisplaced(key, offers, n, p, a); }
      }
    } else {
      var p, q :| 0 <= p < q < |view| && p < n && !MayPrecede(key, view[p], view[q]);
      MisplacedIsOvertaken(key, offers, p, q);
      TakenAt(view, n, view[p]);
    }
  }

  lemma OvertakenIsMisplaced(key: Offer -> Key, offers: seq<Offer>, n: nat, p: nat, a: Offer)
    requires ReadsDays(key) && p < |Sorted(key, offers)| && p < n && a in offers
    requires Overtakes(key, offers, Sorted(key, offers)[p], a)
    ensures !TopInOrder(key, Sorted(key, offers), n)
  {
    var view := Sorted(key, offers);
    var b := view[p];
    SortedIsOrdering(key, offers);
    PermutationMembers(view, offers);
    OvertakesByKey(key, offers, b, a);
    ViewPlaces(key, offers, b, a);
    FirstPlace(key, offers, b, a, p, n);
  }

  /** Of several places of one offer, the first `n` hold the first of them. */
  lemma FirstPlace(key: Offer -> Key, offers: seq<Offer>, b: Offer, a: Offer, p: nat, n: nat)
    requires Before(Sorted(key, offers), b, a) && !MayPrecede(key, b, a)
    requires p < n && p < |Sorted(key, offers)| && Sorted(key, offers)[p] == b
    ensures !TopInOrder(key, Sorted(key, offers), n)
  {
    var view := Sorted(key, offers);
    var i, j :| 0 <= i < j < |view| && view[i] == b && view[j] == a;
    assert !MayPrecede(key, view[i], view[j]);
    if i >= n {
      assert p < j && !MayPrecede(key, view[p], view[j]);
    }
  }

  lemma MisplacedIsOvertaken(key: Offer -> Key, offers: seq<Offer>, p: nat, q: nat)
    requires ReadsDays(key) && p < q < |Sorted(key, offers)|
    requires !MayPrecede(key, Sorted(key, offers)[p], Sorted(key, offers)[q])
    ensures Sorted(key, offers)[q] in offers && Overtakes(key, offers, Sorted(key, offers)[p], Sorted(key, offers)[q])
  {
    var view := Sorted(key, offers);
    var b, a := view[p], view[q];
    SortedIsOrdering(key, offers);
    PermutationMembers(view, offers);
    PermutationLength(view, offers);
    KeysInOrder(key, offers, p, q);
    if !(Days(a) == 0 && Days(b) != 0) { KeyIsFaithful(key, b, a); }
    ViewPlaces(key, offers, b, a);
    assert Before(view, b, a);
    OvertakesByKey(key, offers, b, a);
  }

  // ----- the delivery view and the final ranking -----------------------------------------------

  /** By least days, then by greatest days. */
  ghost predicate InDaysOrder(view: seq<Offer>) {
    forall p, q :: 0 <= p < q < |view| ==>
      view[p].deliveryRank < view[q].deliveryRank
      || (view[p].deliveryRank == view[q].deliveryRank && Days(view[p]) <= Days(view[q]))
  }

  lemma DaysOrderIsTop(view: seq<Offer>)
    ensures InDaysOrder(view) <==> TopInOrder(DeliveryKey, view, |view|)
  {
    forall p, q | 0 <= p < q < |view|
      ensures MayPrecede(DeliveryKey, view[p], view[q])
         <==> view[p].deliveryRank < view[q].deliveryRank
              || (view[p].deliveryRank == view[q].deliveryRank && Days(view[p]) <= Days(view[q]))
    {}
  }

  /** The delivery view lists the sortable offers by their days exactly when no zero-day offer is
      overtaken; sharing a site and an order of records with an unknown one can still save it. */
  lemma DeliveryInOrderExactlyWhen(offers: seq<Offer>)
    ensures InDaysOrder(Sorted(DeliveryKey, offers))
       <==> forall a, b :: a in offers && b in offers ==> !Overtakes(DeliveryKey, offers, b, a)
  {
    var view := Sorted(DeliveryKey, offers);
    DaysOrderIsTop(view);
    TopInOrderExactlyWhen(DeliveryKey, offers, |view|);
    SortedIsOrdering(DeliveryKey, offers);
    PermutationMembers(view, offers);
    assert Take(view, |view|) == view;
  }

  lemma TopAndRest(key: Offer -> Key, offers: seq<Offer>, n: nat) returns (rest: seq<Offer>)
    ensures Take(Sorted(key, offers), n) + rest == Sorted(key, offers)
    ensures Permutation(Take(Sorted(key, offers), n) + rest, offers)
    ensures |Take(Sorted(key, offers), n)| == Min(n, |offers|)
  {
    var view := Sorted(key, offers);
    SortedIsOrdering(key, offers);
    PermutationLength(view, offers);
    rest := view[Min(n, |view|)..];
  }

  /** The final ranking lists the cheapest offers, soonest first among equal prices, and leaves out
      none that belongs before a listed one, exactly when no listed offer overtakes a sortable zero-day
      offer, listed or not. */
  lemma RankingInOrderExactlyWhen(records: seq<Offer>, limit: nat) returns (rest: seq<Offer>)
    requires DistinctIds(records) && DistinctUrls(records)
    ensures Permutation(RankedOffers(records, limit) + rest, Passing(records))
    ensures |RankedOffers(records, limit)| == Min(limit, |Passing(records)|)
    ensures TopInOrder(RankKey, RankedOffers(records, limit) + rest, limit)
       <==> forall a, b :: a in Passing(records) && b in RankedOffers(records, limit) ==>
              !Overtakes(RankKey, Passing(records), b, a)
  {
    RankingIsDirect(records, limit);
    rest := TopAndRest(RankKey, Passing(records), limit);
    TopInOrderExactlyWhen(RankKey, Passing(records), limit);
  }

  // ----- inputs on which the order fails -------------------------------------------------------

  /** Two offers of which the second has the smaller key. */
  lemma SecondComesFirst(key: Offer -> Key, x: Offer, y: Offer)
    requires !KeyLeq(key(x), key(y))
    ensures Sorted(key, [x, y]) == [y, x]
  {
    assert [x, y][1..] == [y] && [y][1..] == [];
    assert !By(key)(x, y);
    assert Sort([y], By(key)) == [y];
    assert Insert(x, [y], By(key)) == [y] + Insert(x, [], By(key));
  }

  /** A same-day offer is listed after one that may take until tomorrow. */
  lemma TomorrowBeforeToday(today: Offer, tomorrow: Offer)
    requires today.etaMax == Some(0) && tomorrow.etaMax == Some(1) && today.deliveryRank == tomorrow.deliveryRank == 0
    ensures Sorted(DeliveryKey, [today, tomorrow]) == [tomorrow, today]
    ensures !InDaysOrder(Sorted(DeliveryKey, [today, tomorrow]))
  {
    SecondComesFirst(DeliveryKey, today, tomorrow);
    assert Days([tomorrow, today][0]) == 1 && Days([tomorrow, today][1]) == 0;
  }

  /** At the same price the ranking of one offer keeps the one that may take until tomorrow and cuts
      the same-day one. */
  lemma TodayIsCut(today: Offer, tomorrow: Offer)
    requires today.completion == tomorrow.completion == Pass && today.id != tomorrow.id && today.url != tomorrow.url
    requires today.etaMax == Some(0) && tomorrow.etaMax == Some(1)
    requires today.deliveryRank == tomorrow.deliveryRank && today.price == tomorrow.price
    ensures RankedOffers([today, tomorrow], 1) == [tomorrow]
  {
    var records := [today, tomorrow];
    PassingBoth(today, tomorrow);
    RankingIsDirect(records, 1);
    SecondComesFirst(RankKey, today, tomorrow);
  }

  lemma PassingBoth(x: Offer, y: Offer)
    requires x.completion == y.completion == Pass
    ensures Passing([x, y]) == [x, y]
  {
    assert [x, y][1..] == [y] && [y][1..] == [];
    assert Passing([y]) == [y] + Passing([]);
  }

  /** Sharing the least days with an offer of unknown days does no harm by itself: with an earlier site
      the zero-day offer still comes first. */
  lemma UnknownAfterToday(today: Offer, unknown: Offer)
    requires today.etaMax == Some(0) && unknown.etaMax == None && today.deliveryRank == unknown.deliveryRank
    requires today.siteName == "a" && unknown.siteName == "b"
    ensures InDaysOrder(Sorted(DeliveryKey, [today, unknown]))
  {
    assert !StringLeq("b", "a");
    forall a, b | a in [today, unknown] && b in [today, unknown]
      ensures !Overtakes(DeliveryKey, [today, unknown], b, a) {}
    DeliveryInOrderExactlyWhen([today, unknown]);
  }
}
