/** The deep-crawl frontier engine: one FIFO worklist per site, with a page budget, a depth bound,
    a skip policy and suppression of canonical URLs already seen. */
module DeepCrawl {
  import opened Basics

  datatype Page = Page(
    id: string, url: string, canonicalUrl: string, depth: int, links: seq<string>,
    required: bool, robotsAllowed: bool, privateNetwork: bool, aiPrioritized: bool)

  /** The two questions the engine asks about a URL. The theorems hold for every answer to them;
      `GeneratedCoverage.StandardRules` are the ones the program computes. */
  datatype UrlRules = UrlRules(origin: string -> string, isPrivate: string -> bool)

  datatype Site = Site(
    id: string, allowedOrigin: string, seeds: seq<string>, pages: seq<Page>,
    generatedPageCount: int, maxDepth: int, maxPages: int, rules: UrlRules)

  datatype Action = Keep | Prioritize | Skip

  datatype Reason =
    | PrivateNetwork | OffOrigin | MaxDepth | UnknownPage | RobotsDenied
    | DuplicateCanonical | FrontierPolicyAllowed

  /** A frontier entry: a URL, the depth it was found at, and the page that linked to it. */
  datatype Item = Item(url: string, depth: nat, source: Option<string>)

  datatype Decision = Decision(item: Item, canonicalUrl: Option<string>, action: Action, reason: Reason)
  {
    predicate Kept() { action != Skip }
  }

  datatype StopReason = FrontierExhausted | MaxPagesReached

  datatype State = State(
    frontier: seq<Item>, seen: set<string>, decisions: seq<Decision>, observed: seq<Page>)

  // ----- skip policy -------------------------------------------------------------------------

  /** The page table: a URL listed twice stands for its last page. */
  function PagesByUrl(pages: seq<Page>): (m: map<string, Page>)
    ensures forall u :: u in m ==> m[u].url == u && m[u] in pages
    ensures forall p :: p in pages ==> p.url in m
  {
    if pages == [] then map[]
    else PagesByUrl(pages[..|pages| - 1])[pages[|pages| - 1].url := pages[|pages| - 1]]
  }

  /** Of two pages with one URL the later one stays. */
  lemma {:induction false} LaterPageStays(pages: seq<Page>, i: nat)
    requires i < |pages| && forall j :: i < j < |pages| ==> pages[j].url != pages[i].url
    ensures pages[i].url in PagesByUrl(pages) && PagesByUrl(pages)[pages[i].url] == pages[i]
  {
    if i < |pages| - 1 {
      LaterPageStays(pages[..|pages| - 1], i);
    }
  }

  function Lookup(site: Site, url: string): Option<Page> {
    var m := PagesByUrl(site.pages);
    if url in m then Some(m[url]) else None
  }

  function SkipReason(site: Site, page: Option<Page>, url: string, depth: nat): Option<Reason> {
    if site.rules.isPrivate(url) || (page.Some? && page.value.privateNetwork) then Some(PrivateNetwork)
    else if site.rules.origin(url) != site.allowedOrigin then Some(OffOrigin)
    else if depth > site.maxDepth then Some(MaxDepth)
    else if page.None? then Some(UnknownPage)
    else if !page.value.robotsAllowed then Some(RobotsDenied)
    else None
  }

  /** The policy lets `url` be crawled at `depth`. */
  predicate Admissible(site: Site, url: string, depth: nat) {
    SkipReason(site, Lookup(site, url), url, depth).None?
  }

  lemma AdmissibleHasPage(site: Site, url: string, depth: nat)
    requires Admissible(site, url, depth)
    ensures Lookup(site, url).Some? && depth <= site.maxDepth
    ensures forall d: nat :: d <= site.maxDepth ==> Admissible(site, url, d)
  {}

  // ----- one turn of the loop ----------------------------------------------------------------

  function SeedItems(seeds: seq<string>): (r: seq<Item>)
    ensures |r| == |seeds| && forall i :: 0 <= i < |r| ==> r[i] == Item(seeds[i], 0, None)
  {
    seq(|seeds|, i requires 0 <= i < |seeds| => Item(seeds[i], 0, None))
  }

  function LinkItems(page: Page, depth: nat): (r: seq<Item>)
    ensures |r| == |page.links|
    ensures forall i :: 0 <= i < |r| ==> r[i] == Item(page.links[i], depth + 1, Some(page.id))
  {
    seq(|page.links|, i requires 0 <= i < |page.links| => Item(page.links[i], depth + 1, Some(page.id)))
  }

  function Init(site: Site): State {
    State(SeedItems(site.seeds), {}, [], [])
  }

  predicate Halted(site: Site, st: State) {
    st.frontier == [] || |st.observed| >= site.maxPages
  }

  /** The decision for the head of the frontier. */
  function Decide(site: Site, seen: set<string>, item: Item): Decision {
    var page := Lookup(site, item.url);
    var canonical := if page.Some? then Some(page.value.canonicalUrl) else None;
    var skip := SkipReason(site, page, item.url, item.depth);
    if skip.Some? then Decision(item, canonical, Skip, skip.value)
    else if page.value.canonicalUrl in seen then Decision(item, canonical, Skip, DuplicateCanonical)
    else Decision(item, canonical, if page.value.aiPrioritized then Prioritize else Keep, FrontierPolicyAllowed)
  }

  function Step(site: Site, st: State): State
    requires !Halted(site, st)
  {
    var item := st.frontier[0];
    var d := Decide(site, st.seen, item);
    if d.Kept() then
      var page := Lookup(site, item.url).value;
      State(st.frontier[1..] + LinkItems(page, item.depth), st.seen + {page.canonicalUrl},
            st.decisions + [d], st.observed + [page])
    else
      State(st.frontier[1..], st.seen, st.decisions + [d], st.observed)
  }

  ghost function Unseen(site: Site, seen: set<string>): set<string> {
    (set p | p in site.pages :: p.canonicalUrl) - seen
  }

  /** Every turn either uses up an unseen canonical URL or shortens the frontier. */
  lemma StepDecreases(site: Site, st: State)
    requires !Halted(site, st)
    ensures var st' := Step(site, st);
            || Unseen(site, st'.seen) < Unseen(site, st.seen)
            || (st'.seen == st.seen && |st'.frontier| < |st.frontier|)
  {
    var item := st.frontier[0];
    if Decide(site, st.seen, item).Kept() {
      var page := Lookup(site, item.url).value;
      assert page in site.pages;
      assert page.canonicalUrl in Unseen(site, st.seen);
      assert page.canonicalUrl !in Unseen(site, Step(site, st).seen);
    }
  }

  /** The loop from `st` until it stops. */
  ghost function Run(site: Site, st: State): State
    decreases Unseen(site, st.seen), |st.frontier|
  {
    if Halted(site, st) then st
    else
      StepDecreases(site, st);
      Run(site, Step(site, st))
  }

  ghost function Crawl(site: Site): State { Run(site, Init(site)) }

  ghost function Stop(site: Site): StopReason {
    if Crawl(site).frontier == [] then FrontierExhausted else MaxPagesReached
  }

  method EnqueueLinks(frontier: seq<Item>, page: Page, depth: nat) returns (longer: seq<Item>)
    ensures longer == frontier + LinkItems(page, depth)
  {
    longer := frontier;
    for i := 0 to |page.links|
      invariant longer == frontier + LinkItems(page, depth)[..i]
    {
      longer := longer + [Item(page.links[i], depth + 1, Some(page.id))];
    }
  }

  method RunSite(site: Site)
    returns (decisions: seq<Decision>, observed: seq<Page>, stop: StopReason, remaining: nat)
    ensures decisions == Crawl(site).decisions && observed == Crawl(site).observed
    ensures stop == Stop(site) && remaining == |Crawl(site).frontier|
  {
    var pagesByUrl := PagesByUrl(site.pages);
    var frontier := SeedItems(site.seeds);
    var seen: set<string> := {};
    decisions, observed := [], [];
    stop := FrontierExhausted;
    while frontier != []
      invariant stop == FrontierExhausted
      invariant Run(site, State(frontier, seen, decisions, observed)) == Crawl(site)
      decreases Unseen(site, seen), |frontier|
    {
      ghost var before := State(frontier, seen, decisions, observed);
      var item := frontier[0];
      frontier := frontier[1..];
      if |observed| >= site.maxPages {
        frontier := [item] + frontier;
        assert before.frontier == frontier;
        stop := MaxPagesReached;
        break;
      }
      StepDecreases(site, before);
      var page := if item.url in pagesByUrl then Some(pagesByUrl[item.url]) else None;
      var skip := SkipReason(site, page, item.url, item.depth);
      if skip.Some? {
        var canonical := if page.Some? then Some(page.value.canonicalUrl) else None;
        decisions := decisions + [Decision(item, canonical, Skip, skip.value)];
        assert State(frontier, seen, decisions, observed) == Step(site, before);
        continue;
      }
      if page.value.canonicalUrl in seen {
        decisions := decisions + [Decision(item, Some(page.value.canonicalUrl), Skip, DuplicateCanonical)];
        assert State(frontier, seen, decisions, observed) == Step(site, before);
        continue;
      }
      seen := seen + {page.value.canonicalUrl};
      var action := if page.value.aiPrioritized then Prioritize else Keep;
      decisions := decisions + [Decision(item, Some(page.value.canonicalUrl), action, FrontierPolicyAllowed)];
      observed := observed + [page.value];
      frontier := EnqueueLinks(frontier, page.value, item.depth);
      assert State(frontier, seen, decisions, observed) == Step(site, before);
    }
    remaining := |frontier|;
  }
}
