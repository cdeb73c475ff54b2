/** The synthetic sites `_expand_site_spec` builds, for every page count, depth bound and origin. */
module GeneratedSite {
  import opened Basics
  import opened DeepCrawl

  /** The places a generated site links to. `Outside` and `Loopback` are not pages of the site. */
  datatype Slug =
    | Sitemap | Feed | Listing1 | Listing2 | Listing3 | Detail(index: nat)
    | Duplicate | Blocked | Outside | Loopback

  function RStripSlash(s: string): string {
    if s != "" && s[|s| - 1] == '/' then RStripSlash(s[..|s| - 1]) else s
  }

  function SlugPath(slug: Slug): string {
    match slug
    case Sitemap => "sitemap.xml"
    case Feed => "feed.xml"
    case Listing1 => "listing-1"
    case Listing2 => "listing-2"
    case Listing3 => "listing-3"
    case Detail(i) => "detail-" + Dec(i)
    case Duplicate => "detail-1?ref=duplicate"
    case Blocked => "blocked"
    case Outside => "outside"
    case Loopback => "admin"
  }

  function SlugName(slug: Slug): string {
    match slug
    case Sitemap => "sitemap"
    case Feed => "feed"
    case Duplicate => "detail-1-duplicate"
    case _ => SlugPath(slug)
  }

  function Base(site: Site): string {
    RStripSlash(site.allowedOrigin) + "/" + site.id + "/"
  }

  function Url(site: Site, slug: Slug): string {
    if slug == Outside then "https://offsite.invalid/" + site.id + "/outside"
    else if slug == Loopback then "http://127.0.0.1/admin"
    else Base(site) + SlugPath(slug)
  }

  function PageId(site: Site, slug: Slug): string { site.id + ":" + SlugName(slug) }

  function DetailCount(site: Site): nat { Max(5, site.generatedPageCount - 5) }

  function UrlsOf(site: Site, slugs: seq<Slug>): (r: seq<string>)
    ensures |r| == |slugs| && forall i :: 0 <= i < |r| ==> r[i] == Url(site, slugs[i])
  {
    seq(|slugs|, i requires 0 <= i < |slugs| => Url(site, slugs[i]))
  }

  /** `Detail(from)` up to but not including `Detail(to)`. */
  function Details(from: nat, to: nat): (r: seq<Slug>)
    requires from <= to
    ensures |r| == to - from && forall i :: 0 <= i < |r| ==> r[i] == Detail(from + i)
  {
    seq(to - from, i requires 0 <= i < to - from => Detail(from + i))
  }

  /** Where the page for `slug` links to. */
  function Links(n: nat, slug: Slug): seq<Slug>
    requires n >= 5
  {
    match slug
    case Sitemap => [Feed, Listing1]
    case Feed => [Detail(n)]
    case Listing1 => [Listing2, Detail(1), Detail(2)]
    case Listing2 => [Listing3, Detail(3), Detail(4)]
    case Listing3 => Details(5, n) + [Duplicate, Blocked, Outside, Loopback]
    case _ => []
  }

  function SpecDepth(n: nat, slug: Slug): nat {
    match slug
    case Sitemap => 0
    case Feed => 1
    case Listing1 => 1
    case Listing2 => 2
    case Listing3 => 3
    case Detail(i) => if i <= 2 || i == n then 2 else 4
    case _ => 4
  }

  function PageFor(site: Site, slug: Slug): Page {
    var n := DetailCount(site);
    Page(PageId(site, slug), Url(site, slug),
         Url(site, if slug == Duplicate then Detail(1) else slug),
         SpecDepth(n, slug), UrlsOf(site, Links(n, slug)),
         slug != Duplicate && slug != Blocked, slug != Blocked, false, slug == Listing2)
  }

  function PageSlugs(n: nat): seq<Slug>
    requires n >= 5
  {
    [Sitemap, Feed, Listing1, Listing2, Listing3] + Details(1, n + 1) + [Duplicate, Blocked]
  }

  function PagesFor(site: Site, slugs: seq<Slug>): (r: seq<Page>)
    ensures |r| == |slugs| && forall i :: 0 <= i < |r| ==> r[i] == PageFor(site, slugs[i])
  {
    seq(|slugs|, i requires 0 <= i < |slugs| => PageFor(site, slugs[i]))
  }

  /** The site with its pages filled in; a site that lists its own pages is left alone. */
  function Expanded(site: Site): Site {
    if site.pages != [] then site
    else site.(seeds := [Url(site, Sitemap)],
               pages := PagesFor(site, PageSlugs(DetailCount(site))),
               maxPages := Max(site.maxPages, site.generatedPageCount + 2))
  }

  lemma PagesForConcat(site: Site, a: seq<Slug>, b: seq<Slug>)
    ensures PagesFor(site, a + b) == PagesFor(site, a) + PagesFor(site, b)
  {}

  method AppendDetails(site: Site, pages: seq<Page>) returns (longer: seq<Page>)
    ensures longer == pages + PagesFor(site, Details(1, DetailCount(site) + 1))
  {
    longer := pages;
    for index := 1 to DetailCount(site) + 1
      invariant longer == pages + PagesFor(site, Details(1, index))
    {
      PagesForConcat(site, Details(1, index), [Detail(index)]);
      assert Details(1, index + 1) == Details(1, index) + [Detail(index)];
      longer := longer + [PageFor(site, Detail(index))];
    }
  }

  lemma PagesInOrder(site: Site)
    ensures [PageFor(site, Sitemap), PageFor(site, Feed), PageFor(site, Listing1),
             PageFor(site, Listing2), PageFor(site, Listing3)]
            + PagesFor(site, Details(1, DetailCount(site) + 1))
            + [PageFor(site, Duplicate), PageFor(site, Blocked)]
         == PagesFor(site, PageSlugs(DetailCount(site)))
  {
    var fixed, tail := [Sitemap, Feed, Listing1, Listing2, Listing3], [Duplicate, Blocked];
    var details := Details(1, DetailCount(site) + 1);
    PagesForConcat(site, fixed, details);
    PagesForConcat(site, fixed + details, tail);
    PagesForFive(site, Sitemap, Feed, Listing1, Listing2, Listing3);
    PagesForTwo(site, Duplicate, Blocked);
  }

  lemma PagesForTwo(site: Site, a: Slug, b: Slug)
    ensures PagesFor(site, [a, b]) == [PageFor(site, a), PageFor(site, b)]
  {}

  lemma PagesForFive(site: Site, a: Slug, b: Slug, c: Slug, d: Slug, e: Slug)
    ensures PagesFor(site, [a, b, c, d, e])
         == [PageFor(site, a), PageFor(site, b), PageFor(site, c), PageFor(site, d), PageFor(site, e)]
  {
    PagesForTwo(site, a, b);
    PagesForTwo(site, c, d);
    PagesForConcat(site, [a, b], [c, d]);
    PagesForConcat(site, [a, b] + [c, d], [e]);
    JoinFive(a, b, c, d, e);
    JoinFive(PageFor(site, a), PageFor(site, b), PageFor(site, c), PageFor(site, d), PageFor(site, e));
    assert PagesFor(site, [e]) == [PageFor(site, e)];
  }

  lemma JoinFive<T>(a: T, b: T, c: T, d: T, e: T)
    ensures [a, b] + [c, d] + [e] == [a, b, c, d, e]
  {}

  method ExpandSiteSpec(site: Site) returns (expanded: Site)
    ensures expanded == Expanded(site)
  {
    if site.pages != [] {
      return site;
    }
    var pages := [PageFor(site, Sitemap), PageFor(site, Feed), PageFor(site, Listing1),
                  PageFor(site, Listing2), PageFor(site, Listing3)];
    pages := AppendDetails(site, pages);
    pages := pages + [PageFor(site, Duplicate), PageFor(site, Blocked)];
    PagesInOrder(site);
    expanded := site.(seeds := [Url(site, Sitemap)], pages := pages,
                      maxPages := Max(site.maxPages, site.generatedPageCount + 2));
  }

  // ----- URLs of a generated site ------------------------------------------------------------

  predicate OnSite(slug: Slug) { slug != Outside && slug != Loopback }

  lemma DetailIsNotDuplicate(i: nat)
    ensures SlugPath(Detail(i)) != SlugPath(Duplicate)
  {
    var s, t := SlugPath(Detail(i)), SlugPath(Duplicate);
    assert t[8] == '?';
    assert |s| > 8 ==> s[8] == Dec(i)[1];
  }

  lemma DetailPath(i: nat, slug: Slug)
    requires SlugPath(Detail(i)) == SlugPath(slug)
    ensures slug == Detail(i)
  {
    var s, t := SlugPath(Detail(i)), SlugPath(slug);
    DetailIsNotDuplicate(i);
    assert s[0] == t[0] == 'd';
    assert slug.Detail? || slug == Duplicate;
    if slug.Detail? {
      assert s[7..] == Dec(i) && t[7..] == Dec(slug.index);
      DecInjective(i, slug.index);
    }
  }

  lemma SlugPathInjective(a: Slug, b: Slug)
    requires SlugPath(a) == SlugPath(b)
    ensures a == b
  {
    if a.Detail? {
      DetailPath(a.index, b);
    } else if b.Detail? {
      DetailPath(b.index, a);
    } else {
      assert SlugPath(a)[0] == SlugPath(b)[0];
      assert a in {Listing1, Listing2, Listing3} && b in {Listing1, Listing2, Listing3}
        ==> SlugPath(a)[8] == SlugPath(b)[8];
    }
  }

  lemma UrlInjective(site: Site, a: Slug, b: Slug)
    requires OnSite(a) && OnSite(b) && Url(site, a) == Url(site, b)
    ensures a == b
  {
    assert Url(site, a)[|Base(site)|..] == SlugPath(a);
    assert Url(site, b)[|Base(site)|..] == SlugPath(b);
    SlugPathInjective(a, b);
  }
}
