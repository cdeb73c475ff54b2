/** When a generated site is covered: exactly for the origins and depth bounds stated here. */
module GeneratedCoverage {
  import opened Basics
  import opened Urls
  import opened DeepCrawl
  import opened GeneratedSite
  import opened GeneratedCrawl

  /** The URL questions answered as the program answers them. */
  function StandardRules(): UrlRules { UrlRules(Origin, IsPrivateNetworkUrl) }

  /** The origin is written the way the program writes origins, and its host is not private. */
  predicate UsableOrigin(site: Site) {
    && site.allowedOrigin != "" && site.rules.origin(site.allowedOrigin) == site.allowedOrigin
    && !site.rules.isPrivate(site.allowedOrigin)
  }

  // ----- reading the URLs of the site --------------------------------------------------------

  /** Appending a path to an origin changes neither its origin nor its host. */
  ghost predicate PathsKeepOrigins(rules: UrlRules) {
    forall origin, tail :: origin != "" && rules.origin(origin) == origin && StartsTail(tail) ==>
      rules.origin(origin + tail) == origin && rules.isPrivate(origin + tail) == rules.isPrivate(origin)
  }

  /** An origin is its own origin, keeps the host, and does not end in a slash. */
  ghost predicate OriginsAreClosed(rules: UrlRules) {
    forall url :: rules.origin(url) != "" ==>
      && rules.origin(rules.origin(url)) == rules.origin(url)
      && rules.isPrivate(rules.origin(url)) == rules.isPrivate(url)
      && RStripSlash(rules.origin(url)) == rules.origin(url)
  }

  /** How the two links that leave every generated site are read. */
  ghost predicate ReadsForeignLinks(rules: UrlRules) {
    && (forall tail :: StartsTail(tail) ==>
          && rules.origin("https://offsite.invalid" + tail) == "https://offsite.invalid"
          && !rules.isPrivate("https://offsite.invalid" + tail))
    && rules.isPrivate("http://127.0.0.1/admin")
  }

  /** What the crawl of a generated site needs to know about the reading of URLs. */
  ghost predicate ReadsOrigins(rules: UrlRules) {
    PathsKeepOrigins(rules) && OriginsAreClosed(rules) && ReadsForeignLinks(rules)
  }

  lemma HttpIsClean()
    ensures CleanScheme("http") && CleanScheme("https")
  {
    assert Lower("http") == "http" && Lower("https") == "https";
  }

  /** Any lower-case host name that is not localhost and does not begin with a digit makes a usable
      origin, under either scheme. */
  lemma NamedHostsAreUsable(site: Site, scheme: string, host: string)
    requires site.rules == StandardRules() && site.allowedOrigin == scheme + "://" + host
    requires scheme in {"http", "https"} && host != "" && host != "localhost" && !IsDigit(host[0])
    requires forall i :: 0 <= i < |host| ==> IsHostChar(host[i])
    ensures UsableOrigin(site)
  {
    HostIsPlain(host);
    HttpIsClean();
    NamedHostIsPublic(host);
    assert site.allowedOrigin == scheme + "://" + host + "";
    UrlOnHost(site.allowedOrigin, scheme, host, "");
  }

  lemma OutsideUrl(host: string, origin: string, tail: string)
    requires host == "offsite.invalid" && origin == "https" + "://" + host && StartsTail(tail)
    ensures Origin(origin + tail) == origin && !IsPrivateNetworkUrl(origin + tail)
  {
    HostIsPlain(host);
    HttpIsClean();
    NamedHostIsPublic(host);
    UrlOnHost(origin + tail, "https", host, tail);
  }

  lemma LoopbackUrl(host: string, url: string)
    requires host == "127.0.0.1" && url == "http" + "://" + host + "/admin"
    ensures IsPrivateNetworkUrl(url)
  {
    HostIsPlain(host);
    HttpIsClean();
    UrlOnHost(url, "http", host, "/admin");
  }

  lemma OriginExtends(origin: string, tail: string)
    requires origin != "" && Origin(origin) == origin && StartsTail(tail)
    ensures Origin(origin + tail) == origin
    ensures IsPrivateNetworkUrl(origin + tail) == IsPrivateNetworkUrl(origin)
  {
    var scheme, netloc := PartsOfOrigin(origin);
    assert IsPrivateNetworkUrl(origin) == IsPrivateHost(HostName(netloc));
    OriginOfParts(origin + tail, origin, scheme, netloc, tail);
  }

  lemma NoSlashAtEnd(origin: string, scheme: string, netloc: string)
    requires CleanNetloc(netloc) && origin == scheme + "://" + netloc
    ensures RStripSlash(origin) == origin
  {
    assert origin[|origin| - 1] == netloc[|netloc| - 1];
  }

  lemma CleanOrigin(origin: string, scheme: string, netloc: string)
    requires CleanScheme(scheme) && CleanNetloc(netloc) && origin == scheme + "://" + netloc
    ensures Origin(origin) == origin && IsPrivateNetworkUrl(origin) == IsPrivateHost(HostName(netloc))
    ensures RStripSlash(origin) == origin
  {
    OriginOfParts(origin, origin, scheme, netloc, "");
    NoSlashAtEnd(origin, scheme, netloc);
  }

  lemma OriginIsItsOwn(url: string, origin: string)
    requires origin == Origin(url) && origin != ""
    ensures Origin(origin) == origin && RStripSlash(origin) == origin
    ensures IsPrivateNetworkUrl(origin) == IsPrivateNetworkUrl(url)
  {
    var scheme, netloc := PartsOfOrigin(url);
    CleanOrigin(origin, scheme, netloc);
  }

  lemma StandardPaths()
    ensures PathsKeepOrigins(StandardRules())
  {
    forall origin, tail | origin != "" && Origin(origin) == origin && StartsTail(tail)
      ensures Origin(origin + tail) == origin
      ensures IsPrivateNetworkUrl(origin + tail) == IsPrivateNetworkUrl(origin)
    {
      OriginExtends(origin, tail);
    }
  }

  lemma StandardClosed()
    ensures OriginsAreClosed(StandardRules())
  {
    forall url | Origin(url) != ""
      ensures Origin(Origin(url)) == Origin(url) && RStripSlash(Origin(url)) == Origin(url)
      ensures IsPrivateNetworkUrl(Origin(url)) == IsPrivateNetworkUrl(url)
    {
      OriginIsItsOwn(url, Origin(url));
    }
  }

  lemma StandardForeign(rules: UrlRules, offsite: string, loopback: string)
    requires rules == StandardRules()
    requires offsite == "https://offsite.invalid" && loopback == "http://127.0.0.1/admin"
    ensures forall tail :: StartsTail(tail) ==>
      rules.origin(offsite + tail) == offsite && !rules.isPrivate(offsite + tail)
    ensures rules.isPrivate(loopback)
  {
    forall tail | StartsTail(tail)
      ensures Origin(offsite + tail) == offsite && !IsPrivateNetworkUrl(offsite + tail)
    {
      OutsideUrl("offsite.invalid", offsite, tail);
    }
    LoopbackUrl("127.0.0.1", loopback);
  }

  lemma StandardRulesReadOrigins(rules: UrlRules)
    requires rules == StandardRules()
    ensures ReadsOrigins(rules)
  {
    StandardPaths();
    StandardClosed();
    StandardForeign(rules, "https://offsite.invalid", "http://127.0.0.1/admin");
  }

  lemma OnSiteTail(site: Site, slug: Slug) returns (tail: string)
    requires OnSite(slug) && RStripSlash(site.allowedOrigin) == site.allowedOrigin
    ensures StartsTail(tail) && Url(site, slug) == site.allowedOrigin + tail
  {
    tail := "/" + site.id + "/" + SlugPath(slug);
    OriginComesFirst(site.allowedOrigin, site.id, SlugPath(slug));
  }

  lemma OriginComesFirst(origin: string, id: string, path: string)
    ensures origin + "/" + id + "/" + path == origin + ("/" + id + "/" + path)
  {}

  lemma UsableIsStripped(rules: UrlRules, origin: string)
    requires OriginsAreClosed(rules) && origin != "" && rules.origin(origin) == origin
    ensures RStripSlash(origin) == origin
  {}

  lemma OnSiteUrls(site: Site, slug: Slug)
    requires ReadsOrigins(site.rules) && UsableOrigin(site) && OnSite(slug)
    ensures site.rules.origin(Url(site, slug)) == site.allowedOrigin && !site.rules.isPrivate(Url(site, slug))
  {
    UsableIsStripped(site.rules, site.allowedOrigin);
    var tail := OnSiteTail(site, slug);
    TailKeepsOrigin(site.rules, site.allowedOrigin, tail);
  }

  lemma TailKeepsOrigin(rules: UrlRules, origin: string, tail: string)
    requires PathsKeepOrigins(rules) && origin != "" && rules.origin(origin) == origin && StartsTail(tail)
    ensures rules.origin(origin + tail) == origin && rules.isPrivate(origin + tail) == rules.isPrivate(origin)
  {}

  lemma OffSiteUrls(site: Site)
    requires ReadsOrigins(site.rules)
    ensures site.rules.origin(Url(site, Outside)) == "https://offsite.invalid"
    ensures !site.rules.isPrivate(Url(site, Outside)) && site.rules.isPrivate(Url(site, Loopback))
  {
    var tail := "/" + site.id + "/outside";
    assert Url(site, Outside) == "https://offsite.invalid" + tail;
  }

  lemma OutsideOnBase(site: Site)
    requires RStripSlash(site.allowedOrigin) == "https://offsite.invalid"
    ensures Url(site, Outside) == Base(site) + SlugPath(Outside)
  {}

  lemma AfterBase(base: string, a: string, b: string)
    requires base + a == base + b
    ensures a == b
  {
    assert (base + a)[|base|..] == a && (base + b)[|base|..] == b;
  }

  lemma OutsideIsNoPage(site: Site, page: Slug)
    requires RStripSlash(site.allowedOrigin) == "https://offsite.invalid" && OnSite(page)
    ensures Url(site, page) != Url(site, Outside)
  {
    OutsideOnBase(site);
    if Url(site, page) == Url(site, Outside) {
      AfterBase(Base(site), SlugPath(page), SlugPath(Outside));
      SlugPathInjective(page, Outside);
    }
  }

  /** The off-origin and the private link lead to no page of the site. */
  lemma OffSiteIsNoPage(site: Site, slug: Slug, page: Slug)
    requires ReadsOrigins(site.rules) && UsableOrigin(site) && !OnSite(slug) && OnSite(page)
    ensures Url(site, page) != Url(site, slug)
  {
    OffSiteUrls(site);
    OnSiteUrls(site, page);
    UsableIsStripped(site.rules, site.allowedOrigin);
    if slug == Outside && site.allowedOrigin == "https://offsite.invalid" { OutsideIsNoPage(site, page); }
  }

  lemma OffSiteHasNoPage(site: Site, slug: Slug)
    requires ReadsOrigins(site.rules) && UsableOrigin(site) && Generated(site) && !OnSite(slug)
    ensures Lookup(Expanded(site), Url(site, slug)).None?
  {
    var slugs := PageSlugs(DetailCount(site));
    var pages := PagesFor(site, slugs);
    forall j | 0 <= j < |slugs| ensures pages[j].url != Url(site, slug) {
      PageSlugsAre(DetailCount(site), slugs[j]);
      OffSiteIsNoPage(site, slug, slugs[j]);
    }
  }

  /** The policy reads every URL of a site with a usable origin as the site intends. */
  lemma UsableOriginRealizes(site: Site)
    requires Generated(site) && ReadsOrigins(site.rules) && UsableOrigin(site)
    ensures Realizes(site, Expanded(site))
  {
    OffSiteUrls(site);
    OffSiteHasNoPage(site, Outside);
    OffSiteHasNoPage(site, Loopback);
    forall slug | OnSite(slug)
      ensures site.rules.origin(Url(site, slug)) == site.allowedOrigin && !site.rules.isPrivate(Url(site, slug))
    {
      OnSiteUrls(site, slug);
    }
    forall slug | slug in PageSlugs(DetailCount(site))
      ensures Lookup(Expanded(site), Url(site, slug)) == Some(PageFor(site, slug))
    {
      LookupFindsPage(site, slug);
    }
  }

  // ----- the end-to-end results --------------------------------------------------------------

  /** Ids of the pages a site must have observed to count as covered. */
  ghost function RequiredIds(pages: seq<Page>): set<string> {
    set p | p in pages && p.required && p.robotsAllowed && !p.privateNetwork :: p.id
  }

  ghost function ObservedIds(observed: seq<Page>): set<string> { set p | p in observed :: p.id }

  ghost predicate Covered(full: Site) {
    RequiredIds(full.pages) <= ObservedIds(Crawl(full).observed)
  }

  ghost predicate IsRequiredId(site: Site, id: string) {
    exists slug :: slug in PageSlugs(DetailCount(site)) && slug != Duplicate && slug != Blocked
      && id == PageId(site, slug)
  }

  lemma RequiredAre(site: Site)
    requires Generated(site)
    ensures forall id :: id in RequiredIds(Expanded(site).pages) <==> IsRequiredId(site, id)
  {
    var slugs := PageSlugs(DetailCount(site));
    var pages := PagesFor(site, slugs);
    forall slug | slug in slugs ensures PageFor(site, slug) in pages {
      var i :| 0 <= i < |slugs| && slugs[i] == slug;
      assert pages[i] == PageFor(site, slug);
    }
    forall p | p in pages ensures exists slug :: slug in slugs && p == PageFor(site, slug) {
      var i :| 0 <= i < |pages| && pages[i] == p;
      assert slugs[i] in slugs;
    }
  }

  /** With depth to spare, every page but the duplicate and the blocked one has its place in the list. */
  lemma PlaceOf(n: nat, slug: Slug) returns (k: nat)
    requires n >= 5 && slug in PageSlugs(n) && slug != Duplicate && slug != Blocked
    ensures k < n + 5 && HopAt(n, k).slug == slug
  {
    PageSlugsAre(n, slug);
    k := if slug.Detail? then (if slug.index == n then 3 else if slug.index <= 2 then slug.index + 4 else slug.index + 5)
         else if slug == Sitemap then 0
         else if slug == Feed then 1
         else if slug == Listing1 then 2
         else if slug == Listing2 then 4
         else 7;
  }

  lemma ObservedWhenDeep(site: Site)
    requires Generated(site) && KeptCount(site) == DetailCount(site) + 5
    ensures ObservedIds(PageRange(site, KeptCount(site))) == RequiredIds(Expanded(site).pages)
  {
    var n := DetailCount(site);
    var observed := PageRange(site, n + 5);
    RequiredAre(site);
    forall id ensures id in ObservedIds(observed) <==> id in RequiredIds(Expanded(site).pages) {
      if id in ObservedIds(observed) {
        var k :| 0 <= k < |observed| && observed[k].id == id;
        HopsAreOnSite(n, k);
        assert HopAt(n, k).slug != Duplicate && HopAt(n, k).slug != Blocked;
      }
      if id in RequiredIds(Expanded(site).pages) {
        var slug :| slug in PageSlugs(n) && slug != Duplicate && slug != Blocked && id == PageId(site, slug);
        var k := PlaceOf(n, slug);
        assert observed[k] == PageFor(site, slug);
      }
    }
  }

  lemma DeepFinalState(site: Site)
    requires Generated(site) && site.maxDepth >= 4
    ensures var st := FinalState(site); var n := site.generatedPageCount;
            && st.frontier == [] && st.observed == PageRange(site, n)
            && st.decisions == DecisionRange(site, n + 4) && KeptCount(site) == n == DetailCount(site) + 5
  {}

  lemma LastFour(site: Site)
    requires Generated(site) && site.maxDepth >= 4
    ensures var n := site.generatedPageCount;
            && DecisionAt(site, n).reason == DuplicateCanonical
            && DecisionAt(site, n + 1).reason == RobotsDenied
            && DecisionAt(site, n + 2).reason
                 == (if site.allowedOrigin == "https://offsite.invalid" then UnknownPage else OffOrigin)
            && DecisionAt(site, n + 3).reason == PrivateNetwork
  {
    var n := site.generatedPageCount;
    LateReason(site, n, Duplicate);
    LateReason(site, n + 1, Blocked);
    LateReason(site, n + 2, Outside);
    LateReason(site, n + 3, Loopback);
  }

  lemma LateReason(site: Site, k: nat, slug: Slug)
    requires KeptCount(site) <= k && HopAt(DetailCount(site), k) == Hop(slug, 4, Some(Listing3)) && site.maxDepth >= 4
    ensures DecisionAt(site, k).reason
         == (match slug
             case Loopback => PrivateNetwork
             case Outside => if site.allowedOrigin == "https://offsite.invalid" then UnknownPage else OffOrigin
             case Blocked => RobotsDenied
             case _ => DuplicateCanonical)
  {}

  lemma KeptDecisions(site: Site, k: nat)
    ensures DecisionAt(site, k).Kept() <==> k < KeptCount(site)
    ensures k < KeptCount(site) ==> DecisionAt(site, k).item.url == PageAt(site, k).url
  {}

  /** All the required pages were observed, each under the entry that asked for it, and then four
      entries were skipped: the duplicate, the blocked page, the foreign link and the private one. */
  ghost predicate FullCoverage(site: Site, required: set<string>, st: State) {
    var n := site.generatedPageCount;
    && n >= 0 && st.frontier == []
    && |st.observed| == n && ObservedIds(st.observed) == required
    && |st.decisions| == n + 4
    && (forall k :: 0 <= k < n ==> st.decisions[k].Kept() && st.decisions[k].item.url == st.observed[k].url)
    && (forall k :: n <= k < n + 4 ==> !st.decisions[k].Kept())
    && st.decisions[n].reason == DuplicateCanonical
    && st.decisions[n + 1].reason == RobotsDenied
    && st.decisions[n + 2].reason
         == (if site.allowedOrigin == "https://offsite.invalid" then UnknownPage else OffOrigin)
    && st.decisions[n + 3].reason == PrivateNetwork
  }

  lemma DeepIsFullCoverage(site: Site)
    requires Generated(site) && site.maxDepth >= 4
    ensures FullCoverage(site, RequiredIds(Expanded(site).pages), FinalState(site))
  {
    DeepFinalState(site);
    LastFour(site);
    ObservedWhenDeep(site);
    forall k: nat { KeptDecisions(site, k); }
  }

  /** For every page count, a usable origin and a depth bound of at least four, the crawl of the
      expanded site exhausts its frontier with full coverage. */
  lemma EndToEnd(site: Site)
    requires Generated(site) && ReadsOrigins(site.rules) && UsableOrigin(site) && site.maxDepth >= 4
    ensures Stop(Expanded(site)) == FrontierExhausted
    ensures FullCoverage(site, RequiredIds(Expanded(site).pages), Crawl(Expanded(site)))
  {
    UsableOriginRealizes(site);
    CrawlIsListed(site, Expanded(site));
    DeepIsFullCoverage(site);
  }

  // ----- exactly when a generated site is covered ---------------------------------------------

  lemma SlugNameInjective(a: Slug, b: Slug)
    requires a != Duplicate && b != Duplicate && SlugName(a) == SlugName(b)
    ensures a == b
  {
    assert SlugName(a)[0] == SlugName(b)[0];
    if SlugPath(a) == SlugPath(b) { SlugPathInjective(a, b); }
  }

  lemma PageIdInjective(site: Site, a: Slug, b: Slug)
    requires a != Duplicate && b != Duplicate && PageId(site, a) == PageId(site, b)
    ensures a == b
  {
    assert PageId(site, a)[|site.id| + 1..] == SlugName(a);
    assert PageId(site, b)[|site.id| + 1..] == SlugName(b);
    SlugNameInjective(a, b);
  }

  lemma EarlierIdDiffers(site: Site, i: nat, k: nat)
    requires i < k < DetailCount(site) + 5
    ensures PageAt(site, i).id != PageAt(site, k).id
  {
    var n := DetailCount(site);
    HopsAreDistinct(n, i, k);
    var a, b := HopAt(n, i).slug, HopAt(n, k).slug;
    if PageId(site, a) == PageId(site, b) { PageIdInjective(site, a, b); }
  }

  lemma NotAmongEarlier(site: Site, k: nat, id: string)
    requires k < DetailCount(site) + 5 && id == PageAt(site, k).id
    ensures id !in ObservedIds(PageRange(site, k))
  {
    var earlier := PageRange(site, k);
    forall i | 0 <= i < k ensures earlier[i].id != id { EarlierIdDiffers(site, i, k); }
  }

  lemma IsRequiredAt(site: Site, k: nat, id: string)
    requires Generated(site) && k < DetailCount(site) + 5 && id == PageAt(site, k).id
    ensures IsRequiredId(site, id)
  {
    HopsAreOnSite(DetailCount(site), k);
  }

  /** A crawl stopped short by its depth bound misses the next page of the list. */
  lemma MissedWhenShallow(site: Site, k: nat)
    requires Generated(site) && k < DetailCount(site) + 5
    ensures !(RequiredIds(Expanded(site).pages) <= ObservedIds(PageRange(site, k)))
  {
    var id := PageAt(site, k).id;
    IsRequiredAt(site, k, id);
    NotAmongEarlier(site, k, id);
    RequiredAre(site);
    assert id in RequiredIds(Expanded(site).pages);
  }

  /** Under an origin the policy does not recognize as its own, the seed is skipped and that is all. */
  lemma UnusableOriginObservesNothing(site: Site)
    requires Generated(site) && ReadsOrigins(site.rules) && site.allowedOrigin != "" && !UsableOrigin(site)
    ensures Crawl(Expanded(site)).observed == [] && Crawl(Expanded(site)).frontier == []
  {
    var full := Expanded(site);
    var seed := Url(site, Sitemap);
    var tail := "/" + site.id + "/" + SlugPath(Sitemap);
    assert seed == RStripSlash(site.allowedOrigin) + tail;
    assert site.rules.isPrivate(seed) || site.rules.origin(seed) != site.allowedOrigin;
    OneSkip(full, seed);
  }

  lemma OneSkip(full: Site, seed: string)
    requires full.seeds == [seed] && full.maxPages > 0
    requires full.rules.isPrivate(seed) || full.rules.origin(seed) != full.allowedOrigin
    ensures Crawl(full).observed == [] && Crawl(full).frontier == []
  {
    var st := Init(full);
    assert !Halted(full, st);
    assert Step(full, st).frontier == [] && Step(full, st).observed == [];
    assert Run(full, Step(full, st)) == Step(full, st);
  }

  lemma SomethingIsRequired(site: Site)
    requires Generated(site)
    ensures RequiredIds(Expanded(site).pages) != {}
  {
    RequiredAre(site);
    PageSlugsAre(DetailCount(site), Sitemap);
    assert IsRequiredId(site, PageId(site, Sitemap));
  }

  predicate DeepEnough(site: Site) {
    site.maxDepth >= 4 || (site.maxDepth == 3 && site.generatedPageCount == 10)
  }

  lemma CoveredIffDeepEnough(site: Site)
    requires Generated(site)
    ensures RequiredIds(Expanded(site).pages) <= ObservedIds(FinalState(site).observed) <==> DeepEnough(site)
  {
    var k := KeptCount(site);
    assert FinalState(site).observed == PageRange(site, k);
    assert DeepEnough(site) <==> k == DetailCount(site) + 5;
    if DeepEnough(site) { ObservedWhenDeep(site); } else { MissedWhenShallow(site, k); }
  }

  /** A generated site is covered exactly when its origin is usable and its depth bound reaches the
      last pages: depth four, or three when there are only ten pages. */
  lemma CoveredExactlyWhen(site: Site)
    requires Generated(site) && ReadsOrigins(site.rules) && site.allowedOrigin != ""
    ensures Covered(Expanded(site)) <==> UsableOrigin(site) && DeepEnough(site)
  {
    if UsableOrigin(site) {
      UsableOriginRealizes(site);
      CrawlIsListed(site, Expanded(site));
      CoveredIffDeepEnough(site);
    } else {
      UnusableOriginObservesNothing(site);
      SomethingIsRequired(site);
    }
  }

  lemma SlashedIsNotStripped(s: string)
    requires s != "" && s[|s| - 1] == '/'
    ensures |RStripSlash(s)| < |s|
  {
    StripShortens(s[..|s| - 1]);
  }

  lemma {:induction false} StripShortens(s: string)
    ensures |RStripSlash(s)| <= |s|
  {
    if s != "" && s[|s| - 1] == '/' { StripShortens(s[..|s| - 1]); }
  }

  /** A trailing slash, as in `https://shop.example/`, makes the origin unusable, so the site is never
      covered: its URLs are built without the slash and then compared with it. */
  lemma TrailingSlashIsNeverCovered(site: Site)
    requires Generated(site) && site.rules == StandardRules()
    requires site.allowedOrigin != "" && site.allowedOrigin[|site.allowedOrigin| - 1] == '/'
    ensures !UsableOrigin(site) && !Covered(Expanded(site))
  {
    StandardRulesReadOrigins(site.rules);
    SlashedIsNotStripped(site.allowedOrigin);
    if UsableOrigin(site) { UsableIsStripped(site.rules, site.allowedOrigin); }
    CoveredExactlyWhen(site);
  }
}
