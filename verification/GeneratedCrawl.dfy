/** The crawl of a generated site, entry by entry. For every page count and every depth bound the
    engine ends in the state written down here, so what a generated site covers is known exactly. */
module GeneratedCrawl {
  import opened Basics
  import opened DeepCrawl
  import opened GeneratedSite

  /** A queue entry of the crawl: what it points at, how deep, and which page linked to it. */
  datatype Hop = Hop(slug: Slug, depth: nat, from: Option<Slug>)

  /** The `k`-th entry the crawl ever queues. */
  function HopAt(n: nat, k: nat): Hop
    requires n >= 5
  {
    if k == 0 then Hop(Sitemap, 0, None)
    else if k == 1 then Hop(Feed, 1, Some(Sitemap))
    else if k == 2 then Hop(Listing1, 1, Some(Sitemap))
    else if k == 3 then Hop(Detail(n), 2, Some(Feed))
    else if k == 4 then Hop(Listing2, 2, Some(Listing1))
    else if k == 5 then Hop(Detail(1), 2, Some(Listing1))
    else if k == 6 then Hop(Detail(2), 2, Some(Listing1))
    else if k == 7 then Hop(Listing3, 3, Some(Listing2))
    else if k == 8 then Hop(Detail(3), 3, Some(Listing2))
    else if k == 9 then Hop(Detail(4), 3, Some(Listing2))
    else if k < n + 5 then Hop(Detail(k - 5), 4, Some(Listing3))
    else if k == n + 5 then Hop(Duplicate, 4, Some(Listing3))
    else if k == n + 6 then Hop(Blocked, 4, Some(Listing3))
    else if k == n + 7 then Hop(Outside, 4, Some(Listing3))
    else Hop(Loopback, 4, Some(Listing3))
  }

  /** How many entries have been queued once the first `k` pages have been expanded. */
  function QueuedBy(n: nat, k: nat): nat {
    if k == 0 then 1
    else if k == 1 then 3
    else if k == 2 then 4
    else if k <= 4 then 7
    else if k <= 7 then 10
    else n + 9
  }

  /** How many pages lie within depth `m`. */
  function Within(n: nat, m: int): nat {
    if m < 0 then 0
    else if m == 0 then 1
    else if m == 1 then 3
    else if m == 2 then 7
    else if m == 3 then 10
    else n + 5
  }

  /** How many pages of the site its depth bound lets the crawl keep. */
  function KeptCount(site: Site): nat { Within(DetailCount(site), site.maxDepth) }

  function ItemAt(site: Site, k: nat): Item {
    var hop := HopAt(DetailCount(site), k);
    Item(Url(site, hop.slug), hop.depth, if hop.from.Some? then Some(PageId(site, hop.from.value)) else None)
  }

  /** The verdict on an entry that is not kept. */
  function SkippedFor(site: Site, hop: Hop): Reason {
    if hop.slug == Loopback then PrivateNetwork
    else if hop.slug == Outside && site.allowedOrigin != "https://offsite.invalid" then OffOrigin
    else if hop.depth > site.maxDepth then MaxDepth
    else if hop.slug == Outside then UnknownPage
    else if hop.slug == Blocked then RobotsDenied
    else DuplicateCanonical
  }

  function DecisionAt(site: Site, k: nat): Decision {
    var hop := HopAt(DetailCount(site), k);
    var canonical := if OnSite(hop.slug) then Some(PageFor(site, hop.slug).canonicalUrl) else None;
    if k < KeptCount(site) then
      Decision(ItemAt(site, k), canonical, if hop.slug == Listing2 then Prioritize else Keep, FrontierPolicyAllowed)
    else
      Decision(ItemAt(site, k), canonical, Skip, SkippedFor(site, hop))
  }

  function PageAt(site: Site, k: nat): Page {
    PageFor(site, HopAt(DetailCount(site), k).slug)
  }

  function ItemRange(site: Site, from: nat, to: nat): (r: seq<Item>)
    requires from <= to
    ensures |r| == to - from && forall i :: 0 <= i < |r| ==> r[i] == ItemAt(site, from + i)
  {
    seq(to - from, i requires 0 <= i < to - from => ItemAt(site, from + i))
  }

  function DecisionRange(site: Site, k: nat): (r: seq<Decision>)
    ensures |r| == k && forall i :: 0 <= i < k ==> r[i] == DecisionAt(site, i)
  {
    seq(k, i requires 0 <= i < k => DecisionAt(site, i))
  }

  function PageRange(site: Site, k: nat): (r: seq<Page>)
    ensures |r| == k && forall i :: 0 <= i < k ==> r[i] == PageAt(site, i)
  {
    seq(k, i requires 0 <= i < k => PageAt(site, i))
  }

  function UrlsBefore(site: Site, k: nat): (r: set<string>) {
    set i | 0 <= i < k :: Url(site, HopAt(DetailCount(site), i).slug)
  }

  function Expansions(site: Site, k: nat): nat { Min(k, KeptCount(site)) }

  /** The engine's state after `k` decisions. */
  function StateAt(site: Site, k: nat): State
    requires k <= QueuedBy(DetailCount(site), Expansions(site, k))
  {
    var e := Expansions(site, k);
    State(ItemRange(site, k, QueuedBy(DetailCount(site), e)), UrlsBefore(site, e),
          DecisionRange(site, k), PageRange(site, e))
  }

  /** How many decisions the crawl makes. */
  function DecisionTotal(site: Site): nat { QueuedBy(DetailCount(site), KeptCount(site)) }

  function FinalState(site: Site): State {
    StateAt(site, DecisionTotal(site))
  }

  // ----- what the policy says about the URLs of the site --------------------------------------

  /** `full` is `site` with its pages in place, under URL rules that read its URLs as intended. */
  ghost predicate Realizes(site: Site, full: Site) {
    && full.allowedOrigin == site.allowedOrigin && full.maxDepth == site.maxDepth
    && full.maxPages >= site.generatedPageCount + 2
    && full.seeds == [Url(site, Sitemap)]
    && (forall slug :: OnSite(slug) ==>
          full.rules.origin(Url(site, slug)) == site.allowedOrigin && !full.rules.isPrivate(Url(site, slug)))
    && (forall slug :: slug in PageSlugs(DetailCount(site)) ==>
          Lookup(full, Url(site, slug)) == Some(PageFor(site, slug)))
    && full.rules.origin(Url(site, Outside)) == "https://offsite.invalid"
    && !full.rules.isPrivate(Url(site, Outside))
    && full.rules.isPrivate(Url(site, Loopback))
    && Lookup(full, Url(site, Outside)).None? && Lookup(full, Url(site, Loopback)).None?
  }

  predicate Generated(site: Site) {
    site.pages == [] && site.generatedPageCount >= 10
  }

  lemma PageSlugsAre(n: nat, slug: Slug)
    requires n >= 5
    ensures slug in PageSlugs(n) <==> OnSite(slug) && (slug.Detail? ==> 1 <= slug.index <= n)
  {
    if slug.Detail? && 1 <= slug.index <= n {
      assert Details(1, n + 1)[slug.index - 1] == slug;
    }
  }

  lemma LookupOnly(site: Site, page: Page)
    requires page in site.pages && forall p :: p in site.pages && p.url == page.url ==> p == page
    ensures Lookup(site, page.url) == Some(page)
  {
    var found := PagesByUrl(site.pages)[page.url];
    assert found in site.pages && found.url == page.url;
  }

  lemma PagesForMembers(site: Site, slugs: seq<Slug>, page: Page)
    ensures page in PagesFor(site, slugs) <==> exists slug :: slug in slugs && page == PageFor(site, slug)
  {
    var pages := PagesFor(site, slugs);
    if page in pages {
      var j :| 0 <= j < |pages| && pages[j] == page;
      assert slugs[j] in slugs;
    }
    if slug :| slug in slugs && page == PageFor(site, slug) {
      var i :| 0 <= i < |slugs| && slugs[i] == slug;
      assert pages[i] == page;
    }
  }

  lemma OnePagePerUrl(site: Site, n: nat, slug: Slug, p: Page)
    requires n >= 5 && slug in PageSlugs(n) && p in PagesFor(site, PageSlugs(n)) && p.url == Url(site, slug)
    ensures p == PageFor(site, slug)
  {
    PagesForMembers(site, PageSlugs(n), p);
    var other :| other in PageSlugs(n) && p == PageFor(site, other);
    PageSlugsAre(n, slug);
    PageSlugsAre(n, other);
    UrlInjective(site, other, slug);
  }

  /** Each page of the site is found under its own URL. */
  lemma LookupFindsPage(site: Site, slug: Slug)
    requires Generated(site) && slug in PageSlugs(DetailCount(site))
    ensures Lookup(Expanded(site), Url(site, slug)) == Some(PageFor(site, slug))
  {
    var n, page := DetailCount(site), PageFor(site, slug);
    var pages := PagesFor(site, PageSlugs(n));
    assert Expanded(site).pages == pages;
    PagesForMembers(site, PageSlugs(n), page);
    forall p | p in pages && p.url == page.url ensures p == page { OnePagePerUrl(site, n, slug, p); }
    LookupOnly(Expanded(site), page);
  }

  lemma HopsAreDistinct(n: nat, i: nat, j: nat)
    requires n >= 5 && i < j < n + 6
    ensures HopAt(n, i).slug != HopAt(n, j).slug
  {}

  lemma HopsAreOnSite(n: nat, k: nat)
    requires n >= 5 && k < n + 7
    ensures OnSite(HopAt(n, k).slug) && HopAt(n, k).slug in PageSlugs(n)
  {
    PageSlugsAre(n, HopAt(n, k).slug);
  }

  /** A page not expanded yet is not among the URLs seen. */
  lemma NotSeenBefore(site: Site, k: nat)
    requires k < DetailCount(site) + 5
    ensures Url(site, HopAt(DetailCount(site), k).slug) !in UrlsBefore(site, k)
  {
    var n := DetailCount(site);
    forall i | 0 <= i < k ensures Url(site, HopAt(n, i).slug) != Url(site, HopAt(n, k).slug) {
      HopsAreDistinct(n, i, k);
      HopsAreOnSite(n, i);
      HopsAreOnSite(n, k);
      if Url(site, HopAt(n, i).slug) == Url(site, HopAt(n, k).slug) {
        UrlInjective(site, HopAt(n, i).slug, HopAt(n, k).slug);
      }
    }
  }

  /** Expanding the `k`-th page queues exactly the entries `QueuedBy` says. */
  lemma ExpansionQueues(site: Site, k: nat)
    requires k < DetailCount(site) + 5
    ensures var n := DetailCount(site);
            && QueuedBy(n, k) <= QueuedBy(n, k + 1)
            && LinkItems(PageAt(site, k), HopAt(n, k).depth) == ItemRange(site, QueuedBy(n, k), QueuedBy(n, k + 1))
  {
    var n := DetailCount(site);
    var hop := HopAt(n, k);
    var got := LinkItems(PageAt(site, k), hop.depth);
    var want := ItemRange(site, QueuedBy(n, k), QueuedBy(n, k + 1));
    var links := Links(n, hop.slug);
    assert |got| == |links| == |want|;
    forall i | 0 <= i < |links| ensures got[i] == want[i] {
      assert got[i] == Item(Url(site, links[i]), hop.depth + 1, Some(PageId(site, hop.slug)));
      assert HopAt(n, QueuedBy(n, k) + i) == Hop(links[i], hop.depth + 1, Some(hop.slug));
    }
  }

  // ----- the run -----------------------------------------------------------------------------

  lemma KeptIffWithinDepth(site: Site, k: nat)
    requires k < DetailCount(site) + 5
    ensures k < KeptCount(site) <==> HopAt(DetailCount(site), k).depth <= site.maxDepth
  {}

  /** The engine's verdict on an entry, in terms of the site's own pages. */
  function Verdict(site: Site, slug: Slug, item: Item, seen: set<string>): Decision {
    if !OnSite(slug) then Decision(item, None, Skip, SkippedFor(site, Hop(slug, item.depth, None)))
    else
      var canonical := PageFor(site, slug).canonicalUrl;
      if item.depth > site.maxDepth then Decision(item, Some(canonical), Skip, MaxDepth)
      else if slug == Blocked then Decision(item, Some(canonical), Skip, RobotsDenied)
      else if canonical in seen then Decision(item, Some(canonical), Skip, DuplicateCanonical)
      else Decision(item, Some(canonical), if slug == Listing2 then Prioritize else Keep, FrontierPolicyAllowed)
  }

  lemma DecideIsVerdict(site: Site, full: Site, slug: Slug, item: Item, seen: set<string>)
    requires Realizes(site, full) && item.url == Url(site, slug)
    requires OnSite(slug) ==> slug in PageSlugs(DetailCount(site))
    ensures Decide(full, seen, item) == Verdict(site, slug, item, seen)
    ensures OnSite(slug) ==> Lookup(full, item.url) == Some(PageFor(site, slug))
  {}

  lemma VerdictKept(site: Site, k: nat)
    requires k < KeptCount(site)
    ensures Verdict(site, HopAt(DetailCount(site), k).slug, ItemAt(site, k), UrlsBefore(site, k)) == DecisionAt(site, k)
  {
    var hop := HopAt(DetailCount(site), k);
    HopsAreOnSite(DetailCount(site), k);
    KeptIffWithinDepth(site, k);
    NotSeenBefore(site, k);
    assert hop.slug != Blocked && hop.slug != Duplicate;
  }

  lemma DuplicateWasSeen(site: Site)
    requires KeptCount(site) == DetailCount(site) + 5
    ensures PageFor(site, Duplicate).canonicalUrl in UrlsBefore(site, KeptCount(site))
  {
    assert HopAt(DetailCount(site), 5).slug == Detail(1);
  }

  lemma VerdictSkipped(site: Site, k: nat)
    requires KeptCount(site) <= k < DecisionTotal(site)
    ensures Verdict(site, HopAt(DetailCount(site), k).slug, ItemAt(site, k), UrlsBefore(site, KeptCount(site)))
         == DecisionAt(site, k)
  {
    var n := DetailCount(site);
    if k < n + 5 {
      HopsAreOnSite(n, k);
      KeptIffWithinDepth(site, k);
    } else if site.maxDepth >= 4 {
      DuplicateWasSeen(site);
    }
  }

  lemma VerdictAt(site: Site, k: nat)
    requires k < DecisionTotal(site)
    ensures var slug := HopAt(DetailCount(site), k).slug;
            && Verdict(site, slug, ItemAt(site, k), UrlsBefore(site, Expansions(site, k))) == DecisionAt(site, k)
            && (OnSite(slug) ==> slug in PageSlugs(DetailCount(site)))
            && (k < KeptCount(site) ==> OnSite(slug))
  {
    if k < DetailCount(site) + 7 { HopsAreOnSite(DetailCount(site), k); }
    if k < KeptCount(site) { VerdictKept(site, k); } else { VerdictSkipped(site, k); }
  }

  lemma DecideAt(site: Site, full: Site, k: nat)
    requires Realizes(site, full) && k < DecisionTotal(site)
    ensures Decide(full, UrlsBefore(site, Expansions(site, k)), ItemAt(site, k)) == DecisionAt(site, k)
    ensures k < KeptCount(site) ==> Lookup(full, ItemAt(site, k).url) == Some(PageAt(site, k))
  {
    VerdictAt(site, k);
    var slug := HopAt(DetailCount(site), k).slug;
    DecideIsVerdict(site, full, slug, ItemAt(site, k), UrlsBefore(site, Expansions(site, k)));
  }

  lemma DecisionsSnoc(site: Site, k: nat)
    ensures DecisionRange(site, k) + [DecisionAt(site, k)] == DecisionRange(site, k + 1)
    ensures PageRange(site, k) + [PageAt(site, k)] == PageRange(site, k + 1)
    ensures UrlsBefore(site, k) + {Url(site, HopAt(DetailCount(site), k).slug)} == UrlsBefore(site, k + 1)
  {
    DecisionRangeSnoc(site, k);
    PageRangeSnoc(site, k);
    UrlsBeforeSnoc(site, k);
  }

  lemma DecisionRangeSnoc(site: Site, k: nat)
    ensures DecisionRange(site, k) + [DecisionAt(site, k)] == DecisionRange(site, k + 1)
  {}

  lemma PageRangeSnoc(site: Site, k: nat)
    ensures PageRange(site, k) + [PageAt(site, k)] == PageRange(site, k + 1)
  {}

  lemma UrlsBeforeSnoc(site: Site, k: nat)
    ensures UrlsBefore(site, k) + {Url(site, HopAt(DetailCount(site), k).slug)} == UrlsBefore(site, k + 1)
  {}

  lemma RangesJoin(site: Site, from: nat, mid: nat, to: nat)
    requires from < mid <= to
    ensures ItemRange(site, from, mid)[1..] + ItemRange(site, mid, to) == ItemRange(site, from + 1, to)
    ensures ItemRange(site, from, mid)[1..] == ItemRange(site, from + 1, mid)
    ensures ItemRange(site, from, mid)[0] == ItemAt(site, from)
  {}

  lemma QueueAhead(n: nat, kept: nat, k: nat)
    requires n >= 5 && kept in {0, 1, 3, 7, 10, n + 5} && k < QueuedBy(n, kept)
    ensures k < QueuedBy(n, Min(k, kept))
    ensures k + 1 <= QueuedBy(n, Min(k + 1, kept))
  {}

  /** What a decision does to the state. */
  function Apply(st: State, d: Decision, page: Option<Page>): State
    requires st.frontier != [] && (d.Kept() ==> page.Some?)
  {
    if d.Kept() then
      State(st.frontier[1..] + LinkItems(page.value, st.frontier[0].depth), st.seen + {page.value.canonicalUrl},
            st.decisions + [d], st.observed + [page.value])
    else State(st.frontier[1..], st.seen, st.decisions + [d], st.observed)
  }

  lemma StepApplies(site: Site, st: State, d: Decision, page: Option<Page>)
    requires !Halted(site, st) && Decide(site, st.seen, st.frontier[0]) == d
    requires d.Kept() ==> page.Some? && Lookup(site, st.frontier[0].url) == page
    ensures Step(site, st) == Apply(st, d, page)
  {}

  lemma ExpandedFrontier(site: Site, k: nat)
    requires k < DetailCount(site) + 5 && k < QueuedBy(DetailCount(site), k)
    ensures var n := DetailCount(site);
            && k + 1 <= QueuedBy(n, k) <= QueuedBy(n, k + 1)
            && ItemRange(site, k, QueuedBy(n, k))[1..] + LinkItems(PageAt(site, k), ItemAt(site, k).depth)
                 == ItemRange(site, k + 1, QueuedBy(n, k + 1))
            && ItemRange(site, k, QueuedBy(n, k))[0] == ItemAt(site, k)
  {
    var n := DetailCount(site);
    ExpansionQueues(site, k);
    RangesJoin(site, k, QueuedBy(n, k), QueuedBy(n, k + 1));
  }

  lemma ListKept(site: Site, k: nat)
    requires k < KeptCount(site) && k < QueuedBy(DetailCount(site), k)
    requires k + 1 <= QueuedBy(DetailCount(site), k + 1)
    ensures StateAt(site, k).frontier != [] && StateAt(site, k).frontier[0] == ItemAt(site, k)
    ensures StateAt(site, k).seen == UrlsBefore(site, k) && |StateAt(site, k).observed| == k
    ensures Apply(StateAt(site, k), DecisionAt(site, k), Some(PageAt(site, k))) == StateAt(site, k + 1)
  {
    DecisionsSnoc(site, k);
    ExpandedFrontier(site, k);
    StateWhileKeeping(site, k);
    StateWhileKeeping(site, k + 1);
    KeptPageIsItsOwn(site, k);
    ApplyKept(StateAt(site, k), StateAt(site, k + 1), DecisionAt(site, k), PageAt(site, k));
  }

  lemma StateWhileKeeping(site: Site, k: nat)
    requires k <= KeptCount(site) && k <= QueuedBy(DetailCount(site), k)
    ensures Expansions(site, k) == k
    ensures StateAt(site, k) == State(ItemRange(site, k, QueuedBy(DetailCount(site), k)), UrlsBefore(site, k),
                                      DecisionRange(site, k), PageRange(site, k))
  {}

  lemma KeptPageIsItsOwn(site: Site, k: nat)
    requires k < KeptCount(site)
    ensures PageAt(site, k).canonicalUrl == Url(site, HopAt(DetailCount(site), k).slug)
    ensures DecisionAt(site, k).Kept()
  {}

  lemma ApplyKept(st: State, next: State, d: Decision, page: Page)
    requires st.frontier != [] && d.Kept()
    requires next.frontier == st.frontier[1..] + LinkItems(page, st.frontier[0].depth)
    requires next.seen == st.seen + {page.canonicalUrl}
    requires next.decisions == st.decisions + [d] && next.observed == st.observed + [page]
    ensures Apply(st, d, Some(page)) == next
  {}

  lemma ListSkipped(site: Site, k: nat)
    requires KeptCount(site) <= k < DecisionTotal(site)
    ensures StateAt(site, k).frontier != [] && StateAt(site, k).frontier[0] == ItemAt(site, k)
    ensures StateAt(site, k).seen == UrlsBefore(site, KeptCount(site))
    ensures |StateAt(site, k).observed| == KeptCount(site)
    ensures Apply(StateAt(site, k), DecisionAt(site, k), None) == StateAt(site, k + 1)
  {
    DecisionsSnoc(site, k);
    RangesJoin(site, k, DecisionTotal(site), DecisionTotal(site));
  }

  lemma AdvanceBy(site: Site, k: nat, d: Decision, page: Option<Page>)
    requires k < DecisionTotal(site)
    requires k < QueuedBy(DetailCount(site), Expansions(site, k))
    requires k + 1 <= QueuedBy(DetailCount(site), Expansions(site, k + 1))
    requires d == DecisionAt(site, k) && page == (if k < KeptCount(site) then Some(PageAt(site, k)) else None)
    ensures StateAt(site, k).frontier != [] && StateAt(site, k).frontier[0] == ItemAt(site, k)
    ensures StateAt(site, k).seen == UrlsBefore(site, Expansions(site, k))
    ensures |StateAt(site, k).observed| <= KeptCount(site)
    ensures d.Kept() <==> k < KeptCount(site)
    ensures Apply(StateAt(site, k), d, page) == StateAt(site, k + 1)
  {
    if k < KeptCount(site) { ListKept(site, k); } else { ListSkipped(site, k); }
  }

  lemma KeptWithinBudget(site: Site, full: Site)
    requires Generated(site) && full.maxPages >= site.generatedPageCount + 2
    ensures KeptCount(site) < full.maxPages
  {}

  /** The engine's next state is the next state of the list. */
  lemma Advance(site: Site, full: Site, k: nat)
    requires Generated(site) && Realizes(site, full) && k < DecisionTotal(site)
    requires k < QueuedBy(DetailCount(site), Expansions(site, k))
    requires k + 1 <= QueuedBy(DetailCount(site), Expansions(site, k + 1))
    ensures !Halted(full, StateAt(site, k))
    ensures Step(full, StateAt(site, k)) == StateAt(site, k + 1)
  {
    var d := DecisionAt(site, k);
    var page := if k < KeptCount(site) then Some(PageAt(site, k)) else None;
    DecideAt(site, full, k);
    AdvanceBy(site, k, d, page);
    KeptWithinBudget(site, full);
    StepApplies(full, StateAt(site, k), d, page);
  }

  lemma FinalIsFinal(site: Site, full: Site)
    requires DecisionTotal(site) <= QueuedBy(DetailCount(site), Expansions(site, DecisionTotal(site)))
    ensures Run(full, FinalState(site)) == FinalState(site)
  {
    assert KeptCount(site) <= DecisionTotal(site);
    RunStops(full, FinalState(site));
  }

  lemma OneTurn(site: Site, full: Site, k: nat)
    requires Generated(site) && Realizes(site, full) && k < DecisionTotal(site)
    ensures k < QueuedBy(DetailCount(site), Expansions(site, k))
    ensures k + 1 <= QueuedBy(DetailCount(site), Expansions(site, k + 1))
    ensures Run(full, StateAt(site, k)) == Run(full, StateAt(site, k + 1))
  {
    QueueAheadAt(site, k);
    Advance(site, full, k);
    RunStep(full, StateAt(site, k), StateAt(site, k + 1));
  }

  lemma {:induction false} RunFrom(site: Site, full: Site, k: nat)
    requires Generated(site) && Realizes(site, full) && k <= DecisionTotal(site)
    requires k <= QueuedBy(DetailCount(site), Expansions(site, k))
    ensures Run(full, StateAt(site, k)) == FinalState(site)
    decreases DecisionTotal(site) - k
  {
    if k < DecisionTotal(site) {
      OneTurn(site, full, k);
      RunFrom(site, full, k + 1);
    } else {
      FinalIsFinal(site, full);
    }
  }

  lemma QueueAheadAt(site: Site, k: nat)
    requires k < DecisionTotal(site)
    ensures k < QueuedBy(DetailCount(site), Expansions(site, k))
    ensures k + 1 <= QueuedBy(DetailCount(site), Expansions(site, k + 1))
  {
    QueueAhead(DetailCount(site), KeptCount(site), k);
  }

  lemma RunStep(site: Site, st: State, next: State)
    requires !Halted(site, st) && Step(site, st) == next
    ensures Run(site, st) == Run(site, next)
  {}

  lemma RunStops(site: Site, st: State)
    requires st.frontier == []
    ensures Run(site, st) == st
  {}

  /** The crawl of a site that realizes `site` ends in the listed state, whatever its depth bound. */
  lemma CrawlIsListed(site: Site, full: Site)
    requires Generated(site) && Realizes(site, full)
    ensures Crawl(full) == FinalState(site)
  {
    assert Init(full).frontier == ItemRange(site, 0, 1);
    assert StateAt(site, 0) == Init(full);
    RunFrom(site, full, 0);
  }
}
