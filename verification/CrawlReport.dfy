/** The corpus report: all sites of a manifest are expanded and crawled in turn, and one verdict is
    drawn from the union of their pages and observations. */
module CrawlReport {
  import opened Basics
  import opened DeepCrawl
  import opened CrawlTheorems
  import opened GeneratedSite
  import opened GeneratedCrawl
  import opened GeneratedCoverage

  datatype Corpus = Corpus(decisions: seq<Decision>, observed: seq<Page>, stops: seq<StopReason>)

  datatype Failure = InsufficientPageCoverage(missing: string) | MissingFrontierDecision | StopReasonMissing

  ghost function CorpusOf(sites: seq<Site>): Corpus {
    if sites == [] then Corpus([], [], [])
    else
      var before := CorpusOf(sites[..|sites| - 1]);
      var full := Expanded(sites[|sites| - 1]);
      Corpus(before.decisions + Crawl(full).decisions, before.observed + Crawl(full).observed,
             before.stops + [Stop(full)])
  }

  method RunCorpus(sites: seq<Site>) returns (corpus: Corpus)
    ensures corpus == CorpusOf(sites)
  {
    corpus := Corpus([], [], []);
    for i := 0 to |sites|
      invariant corpus == CorpusOf(sites[..i])
    {
      var full := ExpandSiteSpec(sites[i]);
      var decisions, observed, stop, _ := RunSite(full);
      corpus := Corpus(corpus.decisions + decisions, corpus.observed + observed, corpus.stops + [stop]);
      assert sites[..i + 1][..i] == sites[..i];
    }
    assert sites[..|sites|] == sites;
  }

  ghost function AllRequired(sites: seq<Site>): set<string> {
    if sites == [] then {}
    else AllRequired(sites[..|sites| - 1]) + RequiredIds(Expanded(sites[|sites| - 1]).pages)
  }

  ghost function CoveredIds(sites: seq<Site>, corpus: Corpus): set<string> {
    ObservedIds(corpus.observed) * AllRequired(sites)
  }

  /** The checks of `_report_failure`, in its order. */
  ghost function ReportFailure(sites: seq<Site>, corpus: Corpus, minSites: int, minPages: int): Option<Failure> {
    var covered := CoveredIds(sites, corpus);
    if |sites| < minSites then Some(InsufficientPageCoverage("site_count"))
    else if |covered| < minPages || covered != AllRequired(sites) then
      Some(InsufficientPageCoverage("covered_page_count"))
    else if corpus.decisions == [] then Some(MissingFrontierDecision)
    else if |corpus.stops| < |sites| then Some(StopReasonMissing)
    else None
  }

  /** A generated site whose origin is given and read as an origin. */
  ghost predicate Readable(site: Site) { Generated(site) && ReadsOrigins(site.rules) && site.allowedOrigin != "" }

  ghost predicate AllReadable(sites: seq<Site>) { forall i :: 0 <= i < |sites| ==> Readable(sites[i]) }

  /** What makes the engine cover a readable site. */
  ghost predicate Good(site: Site) { UsableOrigin(site) && DeepEnough(site) }

  lemma ObservedIdsConcat(a: seq<Page>, b: seq<Page>)
    ensures ObservedIds(a + b) == ObservedIds(a) + ObservedIds(b)
  {
    assert forall p :: p in a + b <==> p in a || p in b;
  }

  lemma GoodSiteIsCovered(site: Site)
    requires Readable(site) && Good(site)
    ensures Covered(Expanded(site)) && Crawl(Expanded(site)).decisions != []
  {
    CoveredExactlyWhen(site);
    UsableOriginRealizes(site);
    CrawlIsListed(site, Expanded(site));
  }

  ghost predicate AllGood(sites: seq<Site>) { forall i :: 0 <= i < |sites| ==> Good(sites[i]) }

  lemma {:induction false} SitesAreVisited(sites: seq<Site>)
    requires AllReadable(sites) && AllGood(sites)
    ensures sites != [] ==> CorpusOf(sites).decisions != []
  {
    if sites != [] { GoodSiteIsCovered(sites[|sites| - 1]); }
  }

  lemma {:induction false} OneStopEach(sites: seq<Site>)
    ensures |CorpusOf(sites).stops| == |sites|
  {
    if sites != [] { OneStopEach(sites[..|sites| - 1]); }
  }

  // ----- how many pages that is --------------------------------------------------------------

  ghost predicate DistinctIds(pages: seq<Page>) {
    forall i, j :: 0 <= i < j < |pages| ==> pages[i].id != pages[j].id
  }

  lemma {:induction false} DistinctIdsCount(pages: seq<Page>)
    requires DistinctIds(pages)
    ensures |ObservedIds(pages)| == |pages|
  {
    if pages != [] {
      var front, last := pages[..|pages| - 1], pages[|pages| - 1];
      DistinctIdsCount(front);
      ObservedIdsConcat(front, [last]);
      assert pages == front + [last];
      assert ObservedIds([last]) == {last.id};
    }
  }

  /** The slugs of the pages that count: all but the last two. */
  function RequiredSlugs(n: nat): (r: seq<Slug>)
    requires n >= 5
    ensures |r| == n + 5
  {
    PageSlugs(n)[..n + 5]
  }

  lemma RequiredSlugsAre(n: nat, slug: Slug)
    requires n >= 5
    ensures slug in RequiredSlugs(n) <==> slug in PageSlugs(n) && slug != Duplicate && slug != Blocked
  {
    var all := PageSlugs(n);
    assert all == RequiredSlugs(n) + [Duplicate, Blocked];
    assert forall i :: 0 <= i < n + 5 ==> RequiredSlugs(n)[i] != Duplicate && RequiredSlugs(n)[i] != Blocked;
  }

  lemma PagesForIds(site: Site, slugs: seq<Slug>, id: string)
    ensures id in ObservedIds(PagesFor(site, slugs)) <==> exists slug :: slug in slugs && id == PageId(site, slug)
  {
    var pages := PagesFor(site, slugs);
    if id in ObservedIds(pages) {
      var i :| 0 <= i < |pages| && pages[i].id == id;
      assert slugs[i] in slugs;
    }
    if slug :| slug in slugs && id == PageId(site, slug) {
      var i :| 0 <= i < |slugs| && slugs[i] == slug;
      assert pages[i] in pages;
    }
  }

  lemma RequiredPagesAre(site: Site)
    requires Generated(site)
    ensures RequiredIds(Expanded(site).pages) == ObservedIds(PagesFor(site, RequiredSlugs(DetailCount(site))))
  {
    var slugs := RequiredSlugs(DetailCount(site));
    RequiredAre(site);
    forall slug { RequiredSlugsAre(DetailCount(site), slug); }
    forall id ensures IsRequiredId(site, id) <==> id in ObservedIds(PagesFor(site, slugs)) {
      PagesForIds(site, slugs, id);
    }
  }

  lemma RequiredSlugsDistinct(n: nat, i: nat, j: nat)
    requires n >= 5 && i < j < n + 5
    ensures PageSlugs(n)[i] != PageSlugs(n)[j]
    ensures PageSlugs(n)[i] != Duplicate && PageSlugs(n)[j] != Duplicate
  {}

  lemma RequiredCount(site: Site)
    requires Generated(site)
    ensures |RequiredIds(Expanded(site).pages)| == site.generatedPageCount
  {
    var n := DetailCount(site);
    var slugs := RequiredSlugs(n);
    RequiredPagesAre(site);
    forall i, j | 0 <= i < j < |slugs| ensures PageId(site, slugs[i]) != PageId(site, slugs[j]) {
      RequiredSlugsDistinct(n, i, j);
      if PageId(site, slugs[i]) == PageId(site, slugs[j]) { PageIdInjective(site, slugs[i], slugs[j]); }
    }
    DistinctIdsCount(PagesFor(site, slugs));
  }

  lemma NoColonInSlug(slug: Slug)
    ensures ':' !in SlugName(slug)
  {}

  lemma LongerIdsDiffer(a: Site, s: Slug, b: Site, t: Slug)
    requires |a.id| < |b.id|
    ensures PageId(a, s) != PageId(b, t)
  {
    NoColonInSlug(s);
    var x, y := PageId(a, s), PageId(b, t);
    assert y[|b.id|] == ':';
    assert |x| > |b.id| ==> x[|b.id|] == SlugName(s)[|b.id| - |a.id| - 1];
  }

  /** Pages of sites with different ids have different ids, since a slug holds no colon. */
  lemma IdsApart(a: Site, s: Slug, b: Site, t: Slug)
    requires a.id != b.id
    ensures PageId(a, s) != PageId(b, t)
  {
    if |a.id| < |b.id| {
      LongerIdsDiffer(a, s, b, t);
    } else if |b.id| < |a.id| {
      LongerIdsDiffer(b, t, a, s);
    } else {
      assert PageId(a, s)[..|a.id|] == a.id && PageId(b, t)[..|b.id|] == b.id;
    }
  }

  function PageTotal(sites: seq<Site>): int {
    if sites == [] then 0 else PageTotal(sites[..|sites| - 1]) + sites[|sites| - 1].generatedPageCount
  }

  ghost predicate DistinctSites(sites: seq<Site>) {
    forall i, j :: 0 <= i < j < |sites| ==> sites[i].id != sites[j].id
  }

  ghost predicate AllGenerated(sites: seq<Site>) { forall i :: 0 <= i < |sites| ==> Generated(sites[i]) }

  ghost predicate IsPageId(site: Site, id: string) { exists slug :: id == PageId(site, slug) }

  lemma RequiredIsPageId(site: Site, id: string)
    requires Generated(site) && id in RequiredIds(Expanded(site).pages)
    ensures IsPageId(site, id)
  {
    RequiredAre(site);
    assert IsRequiredId(site, id);
  }

  lemma {:induction false} RequiredComesFrom(sites: seq<Site>, id: string)
    requires AllGenerated(sites) && id in AllRequired(sites)
    ensures exists i :: 0 <= i < |sites| && IsPageId(sites[i], id)
  {
    var front, site := sites[..|sites| - 1], sites[|sites| - 1];
    if id in AllRequired(front) {
      RequiredComesFrom(front, id);
      var i :| 0 <= i < |front| && IsPageId(front[i], id);
      assert IsPageId(sites[i], id);
    } else {
      RequiredIsPageId(site, id);
    }
  }

  lemma RequiredApart(front: seq<Site>, site: Site)
    requires AllGenerated(front) && Generated(site) && forall i :: 0 <= i < |front| ==> front[i].id != site.id
    ensures AllRequired(front) !! RequiredIds(Expanded(site).pages)
  {
    forall id | id in AllRequired(front) ensures id !in RequiredIds(Expanded(site).pages) {
      RequiredComesFrom(front, id);
      var i :| 0 <= i < |front| && IsPageId(front[i], id);
      var s :| id == PageId(front[i], s);
      forall t { IdsApart(front[i], s, site, t); }
      if id in RequiredIds(Expanded(site).pages) { RequiredIsPageId(site, id); }
    }
  }

  lemma {:induction false} RequiredTotal(sites: seq<Site>)
    requires DistinctSites(sites) && AllGenerated(sites)
    ensures |AllRequired(sites)| == PageTotal(sites)
  {
    if sites != [] {
      var front, site := sites[..|sites| - 1], sites[|sites| - 1];
      RequiredTotal(front);
      RequiredCount(site);
      RequiredApart(front, site);
    }
  }

  // ----- which sites are covered -------------------------------------------------------------

  ghost function Observes(site: Site): set<string> { ObservedIds(Crawl(Expanded(site)).observed) }

  lemma ObservedIsPageId(site: Site, id: string)
    requires Generated(site) && id in Observes(site)
    ensures IsPageId(site, id)
  {
    var full := Expanded(site);
    var page :| page in Crawl(full).observed && page.id == id;
    DecisionsFollowPolicy(full);
    KeptPagesAreListed(full, Crawl(full).decisions);
    PagesForMembers(site, PageSlugs(DetailCount(site)), page);
  }

  lemma {:induction false} ObservedComesFrom(sites: seq<Site>, id: string)
    requires id in ObservedIds(CorpusOf(sites).observed)
    ensures exists i :: 0 <= i < |sites| && id in Observes(sites[i])
  {
    var front := sites[..|sites| - 1];
    LastIsObserved(sites);
    if id !in Observes(sites[|sites| - 1]) {
      ObservedComesFrom(front, id);
      var i :| 0 <= i < |front| && id in Observes(front[i]);
      assert id in Observes(sites[i]);
    }
  }

  lemma {:induction false} RequiredInCorpus(sites: seq<Site>, i: nat)
    requires i < |sites|
    ensures RequiredIds(Expanded(sites[i]).pages) <= AllRequired(sites)
  {
    if i < |sites| - 1 { RequiredInCorpus(sites[..|sites| - 1], i); }
  }

  lemma LastIsObserved(sites: seq<Site>)
    requires sites != []
    ensures ObservedIds(CorpusOf(sites).observed)
         == ObservedIds(CorpusOf(sites[..|sites| - 1]).observed) + Observes(sites[|sites| - 1])
  {
    ObservedIdsConcat(CorpusOf(sites[..|sites| - 1]).observed, Crawl(Expanded(sites[|sites| - 1])).observed);
  }

  lemma {:induction false} ObservedInCorpus(sites: seq<Site>, i: nat)
    requires i < |sites|
    ensures Observes(sites[i]) <= ObservedIds(CorpusOf(sites).observed)
  {
    LastIsObserved(sites);
    if i < |sites| - 1 { ObservedInCorpus(sites[..|sites| - 1], i); }
  }

  lemma {:induction false} RequiredBySite(sites: seq<Site>, id: string)
    requires id in AllRequired(sites)
    ensures exists i :: 0 <= i < |sites| && id in RequiredIds(Expanded(sites[i]).pages)
  {
    var front, site := sites[..|sites| - 1], sites[|sites| - 1];
    if id in AllRequired(front) {
      RequiredBySite(front, id);
      var i :| 0 <= i < |front| && id in RequiredIds(Expanded(front[i]).pages);
      assert id in RequiredIds(Expanded(sites[i]).pages);
    } else {
      assert id in RequiredIds(Expanded(sites[|sites| - 1]).pages);
    }
  }

  lemma SameSite(sites: seq<Site>, i: nat, j: nat, id: string)
    requires DistinctSites(sites) && i < |sites| && j < |sites| && IsPageId(sites[i], id) && IsPageId(sites[j], id)
    ensures i == j
  {
    var s :| id == PageId(sites[i], s);
    var t :| id == PageId(sites[j], t);
    if i != j { IdsApart(sites[i], s, sites[j], t); }
  }

  /** What one site's crawl misses no other site's crawl makes up for. */
  lemma OnlyItsOwnCrawlObserves(sites: seq<Site>, i: nat, id: string)
    requires DistinctSites(sites) && AllGenerated(sites) && i < |sites| && id in RequiredIds(Expanded(sites[i]).pages)
    ensures id in ObservedIds(CorpusOf(sites).observed) <==> id in Observes(sites[i])
  {
    ObservedInCorpus(sites, i);
    if id in ObservedIds(CorpusOf(sites).observed) {
      ObservedComesFrom(sites, id);
      var j :| 0 <= j < |sites| && id in Observes(sites[j]);
      ObservedIsPageId(sites[j], id);
      RequiredIsPageId(sites[i], id);
      SameSite(sites, i, j, id);
    }
  }

  ghost predicate AllCovered(sites: seq<Site>) { forall i :: 0 <= i < |sites| ==> Covered(Expanded(sites[i])) }

  /** The corpus holds every required page exactly when each site's own crawl does. */
  lemma CorpusIsCovered(sites: seq<Site>)
    requires DistinctSites(sites) && AllGenerated(sites)
    ensures AllRequired(sites) <= ObservedIds(CorpusOf(sites).observed) <==> AllCovered(sites)
  {
    if AllRequired(sites) <= ObservedIds(CorpusOf(sites).observed) {
      forall i | 0 <= i < |sites| ensures Covered(Expanded(sites[i])) {
        RequiredInCorpus(sites, i);
        forall id | id in RequiredIds(Expanded(sites[i]).pages) ensures id in Observes(sites[i]) {
          OnlyItsOwnCrawlObserves(sites, i, id);
        }
      }
    }
    if AllCovered(sites) {
      forall id | id in AllRequired(sites) ensures id in ObservedIds(CorpusOf(sites).observed) {
        RequiredBySite(sites, id);
        var i :| 0 <= i < |sites| && id in RequiredIds(Expanded(sites[i]).pages);
        assert Covered(Expanded(sites[i])) && id in Observes(sites[i]);
        ObservedInCorpus(sites, i);
      }
    }
  }

  lemma ReadableSitesAreGenerated(sites: seq<Site>)
    requires AllReadable(sites)
    ensures AllGenerated(sites)
  {}

  lemma GoodMeansCovered(sites: seq<Site>)
    requires AllReadable(sites)
    ensures AllCovered(sites) <==> AllGood(sites)
  {
    forall i | 0 <= i < |sites| ensures Covered(Expanded(sites[i])) <==> Good(sites[i]) {
      CoveredExactlyWhen(sites[i]);
    }
  }

  lemma VerdictOf(sites: seq<Site>, corpus: Corpus, minSites: int, minPages: int)
    requires |corpus.stops| == |sites| && (AllRequired(sites) <= ObservedIds(corpus.observed) ==> corpus.decisions != [])
    ensures CoveredIds(sites, corpus) == AllRequired(sites) <==> AllRequired(sites) <= ObservedIds(corpus.observed)
    ensures ReportFailure(sites, corpus, minSites, minPages)
         == if |sites| < minSites then Some(InsufficientPageCoverage("site_count"))
            else if !(AllRequired(sites) <= ObservedIds(corpus.observed)) || |AllRequired(sites)| < minPages
            then Some(InsufficientPageCoverage("covered_page_count"))
            else None
  {}

  /** A non-empty corpus of generated sites with distinct ids passes exactly when every site's origin
      is usable and its depth bound reaches far enough, and the corpus meets the manifest's two
      minimums; the required pages number the sum of the sites' page counts. When it does not pass,
      the failure is a count: the last two checks never show. */
  lemma CorpusVerdict(sites: seq<Site>, minSites: int, minPages: int)
    requires sites != [] && DistinctSites(sites) && AllReadable(sites)
    ensures CoveredIds(sites, CorpusOf(sites)) == AllRequired(sites) <==> AllGood(sites)
    ensures |AllRequired(sites)| == PageTotal(sites)
    ensures ReportFailure(sites, CorpusOf(sites), minSites, minPages)
         == if |sites| < minSites then Some(InsufficientPageCoverage("site_count"))
            else if !AllGood(sites) || PageTotal(sites) < minPages
            then Some(InsufficientPageCoverage("covered_page_count"))
            else None
  {
    ReadableSitesAreGenerated(sites);
    CorpusIsCovered(sites);
    GoodMeansCovered(sites);
    if AllGood(sites) { SitesAreVisited(sites); }
    OneStopEach(sites);
    RequiredTotal(sites);
    VerdictOf(sites, CorpusOf(sites), minSites, minPages);
  }
}
