/** A site, read by the program's own URL rules, on which the crawl is not breadth-first complete. */
module TwinSites {
  import opened Basics
  import opened Urls
  import opened DeepCrawl
  import opened CrawlTheorems
  import opened GeneratedCoverage

  const ORIGIN := "https://shop.example"

  function At(tail: string): string { ORIGIN + tail }

  function Plain(id: string, url: string, canonical: string, links: seq<string>): Page {
    Page(id, url, canonical, 0, links, true, true, false, false)
  }

  /** Two seeds with one canonical URL between them, of which only the second links on. */
  function TwinSite(rules: UrlRules): Site {
    Site("twins", ORIGIN, [At("/a"), At("/b")],
         [Plain("A", At("/a"), At("/k"), []), Plain("B", At("/b"), At("/k"), [At("/c")]),
          Plain("C", At("/c"), At("/c"), [])],
         0, 4, 12, rules)
  }

  ghost predicate ReadsShop(rules: UrlRules) {
    forall tail :: StartsTail(tail) ==> rules.origin(At(tail)) == ORIGIN && !rules.isPrivate(At(tail))
  }

  lemma UsableReadsShop(site: Site)
    requires ReadsOrigins(site.rules) && UsableOrigin(site) && site.allowedOrigin == ORIGIN
    ensures ReadsShop(site.rules)
  {
    forall tail | StartsTail(tail) ensures site.rules.origin(At(tail)) == ORIGIN && !site.rules.isPrivate(At(tail)) {
      TailKeepsOrigin(site.rules, site.allowedOrigin, tail);
    }
  }

  lemma ShopIsUsable(site: Site, host: string)
    requires site.rules == StandardRules() && site.allowedOrigin == ORIGIN && host == "shop.example"
    ensures UsableOrigin(site)
  {
    assert ORIGIN == "https" + "://" + host;
    NamedHostsAreUsable(site, "https", host);
  }

  lemma TailsDiffer()
    ensures At("/a") != At("/b") && At("/b") != At("/c") && At("/a") != At("/c") && At("/k") != At("/c")
  {
    var n := |ORIGIN|;
    assert At("/a")[n + 1] == 'a' && At("/b")[n + 1] == 'b' && At("/c")[n + 1] == 'c' && At("/k")[n + 1] == 'k';
  }

  lemma ThreePages(a: Page, b: Page, c: Page)
    requires a.url != b.url && b.url != c.url && a.url != c.url
    ensures PagesByUrl([a, b, c]) == map[a.url := a, b.url := b, c.url := c]
  {
    assert [a, b, c][..2] == [a, b] && [a, b][..1] == [a] && [a][..0] == [];
    assert PagesByUrl([a]) == map[a.url := a];
    assert PagesByUrl([a, b]) == map[a.url := a, b.url := b];
  }

  lemma TwinPages(site: Site)
    requires site == TwinSite(site.rules)
    ensures Lookup(site, At("/a")) == Some(site.pages[0]) && Lookup(site, At("/b")) == Some(site.pages[1])
    ensures Lookup(site, At("/c")) == Some(site.pages[2])
  {
    TailsDiffer();
    ThreePages(site.pages[0], site.pages[1], site.pages[2]);
  }

  lemma TwinsAreAdmissible(site: Site, depth: nat)
    requires site == TwinSite(site.rules) && ReadsShop(site.rules) && depth <= 4
    ensures Admissible(site, At("/a"), depth) && Admissible(site, At("/b"), depth) && Admissible(site, At("/c"), depth)
  {
    TwinPages(site);
    assert StartsTail("/a") && StartsTail("/b") && StartsTail("/c");
  }

  lemma TwinFirstStep(site: Site) returns (next: State)
    requires site == TwinSite(site.rules) && ReadsShop(site.rules)
    ensures !Halted(site, Init(site)) && next == Step(site, Init(site))
    ensures next.frontier == [Item(At("/b"), 0, None)] && next.seen == {At("/k")} && next.observed == [site.pages[0]]
  {
    TwinPages(site);
    TwinsAreAdmissible(site, 0);
    assert Init(site).frontier == [Item(At("/a"), 0, None), Item(At("/b"), 0, None)];
    next := Step(site, Init(site));
  }

  lemma TwinSecondStep(site: Site, st: State)
    requires site == TwinSite(site.rules) && ReadsShop(site.rules)
    requires st.frontier == [Item(At("/b"), 0, None)] && st.seen == {At("/k")} && |st.observed| == 1
    ensures !Halted(site, st) && Step(site, st).frontier == [] && Step(site, st).observed == st.observed
  {
    TwinPages(site);
    TwinsAreAdmissible(site, 0);
  }

  lemma TwoSteps(site: Site, st: State)
    requires !Halted(site, Init(site)) && st == Step(site, Init(site))
    requires !Halted(site, st) && Step(site, st).frontier == []
    ensures Crawl(site) == Step(site, st)
  {
    assert Run(site, Step(site, st)) == Step(site, st);
    assert Run(site, st) == Step(site, st);
  }

  lemma BehindTheTwin(site: Site)
    requires site == TwinSite(site.rules) && ReadsShop(site.rules)
    ensures AtDepth(site, At("/c"), 1) && Admissible(site, At("/c"), 1)
  {
    TwinPages(site);
    TwinsAreAdmissible(site, 0);
    TwinsAreAdmissible(site, 1);
    assert AtDepth(site, At("/b"), 0) && LinksTo(site, At("/b"), At("/c"));
  }

  /** The page behind the suppressed twin is reachable, admissible and within every bound, yet the crawl
      exhausts its frontier without observing it: the condition of `CompleteExactlyWhen` matters. */
  lemma MissedBehindATwin(site: Site)
    requires site == TwinSite(StandardRules())
    ensures Stop(site) == FrontierExhausted && Crawl(site).observed == [site.pages[0]]
    ensures AtDepth(site, At("/c"), 1) && Admissible(site, At("/c"), 1) && Lookup(site, At("/c")) == Some(site.pages[2])
  {
    StandardRulesReadOrigins(site.rules);
    ShopIsUsable(site, "shop.example");
    UsableReadsShop(site);
    MissedUnder(site);
  }

  lemma MissedUnder(site: Site)
    requires site == TwinSite(site.rules) && ReadsShop(site.rules)
    ensures Stop(site) == FrontierExhausted && Crawl(site).observed == [site.pages[0]]
    ensures AtDepth(site, At("/c"), 1) && Admissible(site, At("/c"), 1) && Lookup(site, At("/c")) == Some(site.pages[2])
  {
    var st := TwinFirstStep(site);
    TwinSecondStep(site, st);
    TwoSteps(site, st);
    BehindTheTwin(site);
    TwinPages(site);
  }
}
