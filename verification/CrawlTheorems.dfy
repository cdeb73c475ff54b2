/** What every run of the frontier engine keeps, on any link graph: conservation of queued work,
    duplicate suppression, the page budget, and exactly when the crawl is breadth-first complete. */
module CrawlTheorems {
  import opened Basics
  import opened DeepCrawl

  // ----- the queue as one sequence -----------------------------------------------------------

  function Items(decisions: seq<Decision>): (r: seq<Item>)
    ensures |r| == |decisions| && forall i :: 0 <= i < |r| ==> r[i] == decisions[i].item
  {
    seq(|decisions|, i requires 0 <= i < |decisions| => decisions[i].item)
  }

  /** What one decision put on the queue. */
  function Spawned(site: Site, d: Decision): seq<Item> {
    var page := Lookup(site, d.item.url);
    if d.Kept() && page.Some? then LinkItems(page.value, d.item.depth) else []
  }

  function AllSpawned(site: Site, decisions: seq<Decision>): seq<Item> {
    if decisions == [] then []
    else AllSpawned(site, decisions[..|decisions| - 1]) + Spawned(site, decisions[|decisions| - 1])
  }

  /** Everything ever queued, in queueing order. */
  function Enqueued(site: Site, decisions: seq<Decision>): seq<Item> {
    SeedItems(site.seeds) + AllSpawned(site, decisions)
  }

  function Queue(st: State): seq<Item> { Items(st.decisions) + st.frontier }

  function KeptPages(site: Site, decisions: seq<Decision>): seq<Page> {
    if decisions == [] then []
    else
      KeptPages(site, decisions[..|decisions| - 1]) + PageOf(site, decisions[|decisions| - 1])
  }

  /** The page a decision lets the crawl observe. */
  function PageOf(site: Site, d: Decision): seq<Page> {
    var page := Lookup(site, d.item.url);
    if d.Kept() && page.Some? then [page.value] else []
  }

  function LinkTotal(pages: seq<Page>): nat {
    if pages == [] then 0 else LinkTotal(pages[..|pages| - 1]) + |pages[|pages| - 1].links|
  }

  // ----- reachability ------------------------------------------------------------------------

  ghost predicate LinksTo(site: Site, from: string, to: string) {
    var page := Lookup(site, from);
    page.Some? && to in page.value.links
  }

  /** `url` ends a walk of `depth` links from a seed whose earlier pages are all admissible. */
  ghost predicate AtDepth(site: Site, url: string, depth: nat)
    decreases depth
  {
    if depth == 0 then url in site.seeds
    else exists v :: AtDepth(site, v, depth - 1) && Admissible(site, v, depth - 1) && LinksTo(site, v, url)
  }

  predicate HasCanonical(site: Site, url: string, canonical: string) {
    Lookup(site, url).Some? && Lookup(site, url).value.canonicalUrl == canonical
  }

  /** Some admissible walk of `depth` links ends at a page whose canonical URL is `canonical`. */
  ghost predicate CanonicalAtDepth(site: Site, canonical: string, depth: nat) {
    exists url :: AtDepth(site, url, depth) && Admissible(site, url, depth) && HasCanonical(site, url, canonical)
  }

  /** `from` links to an admissible page with the given canonical URL. */
  ghost predicate LeadsTo(site: Site, from: string, canonical: string) {
    exists w :: LinksTo(site, from, w) && Admissible(site, w, 1) && HasCanonical(site, w, canonical)
  }

  /** Of two admissible pages that share a canonical URL, each leads wherever the other leads, save
      back to that canonical URL itself. */
  ghost predicate TwinsLeadAlike(site: Site) {
    forall u, v, c, x :: AdmissibleTwins(site, u, v, c) && LeadsTo(site, v, x) && x != c ==> LeadsTo(site, u, x)
  }

  ghost predicate AdmissibleTwins(site: Site, u: string, v: string, c: string) {
    && Admissible(site, u, 0) && HasCanonical(site, u, c)
    && Admissible(site, v, 0) && HasCanonical(site, v, c)
  }

  /** Different pages of the table have different canonical URLs. */
  ghost predicate DistinctCanonicals(site: Site) {
    forall u, v, c :: HasCanonical(site, u, c) && HasCanonical(site, v, c) ==> u == v
  }

  // ----- the invariant -----------------------------------------------------------------------

  ghost predicate KeptWithin(decisions: seq<Decision>, canonical: string, depth: nat) {
    exists k :: 0 <= k < |decisions| && decisions[k].Kept()
      && decisions[k].canonicalUrl == Some(canonical) && decisions[k].item.depth <= depth
  }

  /** Depths on the queue never fall, and never run more than one level ahead of the entries from
      `n` on, which are the ones still waiting. */
  ghost predicate Layered(q: seq<Item>, n: nat) {
    && (forall i, j :: 0 <= i < j < |q| ==> q[i].depth <= q[j].depth)
    && (forall i, j :: 0 <= i < |q| && n <= j < |q| ==> q[i].depth <= q[j].depth + 1)
  }

  lemma LayeredExtend(q: seq<Item>, n: nat, more: seq<Item>)
    requires Layered(q, n) && n < |q|
    requires forall i :: 0 <= i < |more| ==> more[i].depth == q[n].depth + 1
    ensures Layered(q + more, n + 1)
  {
    var q' := q + more;
    forall i | 0 <= i < |q'| ensures q'[i].depth <= q[n].depth + 1 {
      assert i < |q| ==> q'[i] == q[i];
      assert i >= |q| ==> q'[i] == more[i - |q|];
    }
    forall i, j | 0 <= i < j < |q'| ensures q'[i].depth <= q'[j].depth {
      assert j >= |q| ==> q'[j] == more[j - |q|];
    }
    forall j | n + 1 <= j < |q'| ensures q[n].depth <= q'[j].depth {
      assert j >= |q| ==> q'[j] == more[j - |q|];
    }
  }

  ghost predicate AllAtDepth(site: Site, q: seq<Item>) {
    forall i :: 0 <= i < |q| ==> AtDepth(site, q[i].url, q[i].depth)
  }

  ghost predicate KeptEarlier(before: seq<Decision>, canonical: string) {
    exists k :: 0 <= k < |before| && before[k].Kept() && before[k].canonicalUrl == Some(canonical)
  }

  /** A decision agrees with the policy and with what was kept before it. */
  ghost predicate Justified(site: Site, before: seq<Decision>, d: Decision) {
    var page := Lookup(site, d.item.url);
    && (d.Kept() <==> (Admissible(site, d.item.url, d.item.depth) && page.Some?
                       && !KeptEarlier(before, page.value.canonicalUrl)))
    && d.canonicalUrl == (if page.Some? then Some(page.value.canonicalUrl) else None)
    && (d.action == Prioritize <==> d.Kept() && page.value.aiPrioritized)
    && d.reason == (match SkipReason(site, page, d.item.url, d.item.depth)
                    case Some(r) => r
                    case None => if d.Kept() then FrontierPolicyAllowed else DuplicateCanonical)
  }

  ghost predicate AllJustified(site: Site, ds: seq<Decision>) {
    forall i :: 0 <= i < |ds| ==> Justified(site, ds[..i], ds[i])
  }

  ghost predicate Inv(site: Site, st: State) {
    && Queue(st) == Enqueued(site, st.decisions)
    && Layered(Queue(st), |st.decisions|)
    && AllAtDepth(site, Queue(st))
    && AllJustified(site, st.decisions)
    && st.observed == KeptPages(site, st.decisions)
    && (forall c :: c in st.seen <==> KeptEarlier(st.decisions, c))
    && |st.observed| <= Max(0, site.maxPages)
  }

  lemma SeedsAreLayered(site: Site)
    ensures Layered(SeedItems(site.seeds), 0) && AllAtDepth(site, SeedItems(site.seeds))
  {}

  lemma InitInv(site: Site)
    ensures Inv(site, Init(site))
  {
    var st := Init(site);
    SeedsAreLayered(site);
    assert Queue(st) == SeedItems(site.seeds) == Enqueued(site, []);
  }

  lemma AllSpawnedSnoc(site: Site, decisions: seq<Decision>, d: Decision)
    ensures AllSpawned(site, decisions + [d]) == AllSpawned(site, decisions) + Spawned(site, d)
    ensures Items(decisions + [d]) == Items(decisions) + [d.item]
  {
    assert (decisions + [d])[..|decisions|] == decisions;
  }

  lemma PopAndPush<T>(done: seq<T>, waiting: seq<T>, more: seq<T>)
    requires waiting != []
    ensures (done + [waiting[0]]) + (waiting[1..] + more) == (done + waiting) + more
  {}

  lemma StepShape(site: Site, st: State)
    requires !Halted(site, st)
    ensures var st' := Step(site, st); var d := Decide(site, st.seen, st.frontier[0]);
            st'.decisions == st.decisions + [d] && st'.frontier == st.frontier[1..] + Spawned(site, d)
  {}

  lemma StepQueue(site: Site, st: State)
    requires !Halted(site, st)
    ensures var st' := Step(site, st); var d := Decide(site, st.seen, st.frontier[0]);
            && st'.decisions == st.decisions + [d]
            && Queue(st') == Queue(st) + Spawned(site, d)
            && Enqueued(site, st'.decisions) == Enqueued(site, st.decisions) + Spawned(site, d)
  {
    var d := Decide(site, st.seen, st.frontier[0]);
    StepShape(site, st);
    QueueSnoc(site, st.decisions, st.frontier, d);
  }

  lemma QueueSnoc(site: Site, ds: seq<Decision>, frontier: seq<Item>, d: Decision)
    requires frontier != [] && d.item == frontier[0]
    ensures Items(ds + [d]) + (frontier[1..] + Spawned(site, d)) == (Items(ds) + frontier) + Spawned(site, d)
    ensures Enqueued(site, ds + [d]) == Enqueued(site, ds) + Spawned(site, d)
  {
    AllSpawnedSnoc(site, ds, d);
    PopAndPush(Items(ds), frontier, Spawned(site, d));
    Reassociate(SeedItems(site.seeds), AllSpawned(site, ds), Spawned(site, d));
  }

  lemma StepLayered(site: Site, st: State)
    requires !Halted(site, st) && Layered(Queue(st), |st.decisions|)
    ensures Layered(Queue(Step(site, st)), |st.decisions| + 1)
  {
    StepQueue(site, st);
    var d := Decide(site, st.seen, st.frontier[0]);
    assert Queue(st)[|st.decisions|] == st.frontier[0];
    LayeredExtend(Queue(st), |st.decisions|, Spawned(site, d));
  }

  lemma StepReach(site: Site, st: State)
    requires !Halted(site, st) && AllAtDepth(site, Queue(st))
    ensures AllAtDepth(site, Queue(Step(site, st)))
  {
    StepQueue(site, st);
    var head := st.frontier[0];
    assert Queue(st)[|st.decisions|] == head;
    var d := Decide(site, st.seen, head);
    KeptIsAdmissible(site, st.seen, head);
    SpawnedReach(site, d);
    ReachConcat(site, Queue(st), Spawned(site, d));
  }

  lemma KeptIsAdmissible(site: Site, seen: set<string>, x: Item)
    ensures var d := Decide(site, seen, x);
            d.item == x && (d.Kept() ==> Admissible(site, x.url, x.depth))
  {}

  lemma ReachConcat(site: Site, a: seq<Item>, b: seq<Item>)
    requires AllAtDepth(site, a) && AllAtDepth(site, b)
    ensures AllAtDepth(site, a + b)
  {}

  lemma OneMoreLink(site: Site, from: string, to: string, depth: nat)
    requires AtDepth(site, from, depth) && Admissible(site, from, depth) && LinksTo(site, from, to)
    ensures AtDepth(site, to, depth + 1)
  {}

  lemma SpawnedReach(site: Site, d: Decision)
    requires AtDepth(site, d.item.url, d.item.depth) && (d.Kept() ==> Admissible(site, d.item.url, d.item.depth))
    ensures AllAtDepth(site, Spawned(site, d))
  {
    var new_ := Spawned(site, d);
    forall i | 0 <= i < |new_| ensures AtDepth(site, new_[i].url, new_[i].depth) {
      OneMoreLink(site, d.item.url, new_[i].url, d.item.depth);
    }
  }

  lemma StepJustified(site: Site, st: State)
    requires !Halted(site, st)
    requires AllJustified(site, st.decisions)
    requires forall c :: c in st.seen <==> KeptEarlier(st.decisions, c)
    ensures AllJustified(site, Step(site, st).decisions)
  {
    StepShape(site, st);
    var d := Decide(site, st.seen, st.frontier[0]);
    var ds := st.decisions + [d];
    assert Justified(site, st.decisions, d);
    forall i | 0 <= i < |ds| ensures Justified(site, ds[..i], ds[i]) {
      if i < |st.decisions| {
        assert ds[..i] == st.decisions[..i];
      } else {
        assert ds[..i] == st.decisions;
      }
    }
  }

  lemma KeptEarlierSnoc(ds: seq<Decision>, d: Decision, c: string)
    ensures KeptEarlier(ds + [d], c) <==> KeptEarlier(ds, c) || (d.Kept() && d.canonicalUrl == Some(c))
  {
    var all := ds + [d];
    if KeptEarlier(ds, c) {
      var k :| 0 <= k < |ds| && ds[k].Kept() && ds[k].canonicalUrl == Some(c);
      assert all[k] == ds[k];
    }
    if d.Kept() && d.canonicalUrl == Some(c) {
      assert all[|ds|] == d;
    }
  }

  lemma StepSeen(site: Site, st: State)
    requires !Halted(site, st)
    requires forall c :: c in st.seen <==> KeptEarlier(st.decisions, c)
    ensures var st' := Step(site, st); forall c :: c in st'.seen <==> KeptEarlier(st'.decisions, c)
  {
    StepShape(site, st);
    var d := Decide(site, st.seen, st.frontier[0]);
    forall c { KeptEarlierSnoc(st.decisions, d, c); }
  }

  lemma StepObserved(site: Site, st: State)
    requires !Halted(site, st) && st.observed == KeptPages(site, st.decisions)
    ensures Step(site, st).observed == KeptPages(site, Step(site, st).decisions)
  {
    var d := Decide(site, st.seen, st.frontier[0]);
    KeptPagesSnoc(site, st.decisions, d);
    StepObserves(site, st, d);
    StepShape(site, st);
  }

  lemma KeptPagesSnoc(site: Site, ds: seq<Decision>, d: Decision)
    ensures KeptPages(site, ds + [d]) == KeptPages(site, ds) + PageOf(site, d)
  {
    assert (ds + [d])[..|ds|] == ds;
  }

  lemma StepObserves(site: Site, st: State, d: Decision)
    requires !Halted(site, st) && d == Decide(site, st.seen, st.frontier[0])
    ensures Step(site, st).observed == st.observed + PageOf(site, d)
  {}

  lemma StepInv(site: Site, st: State)
    requires !Halted(site, st) && Inv(site, st)
    ensures Inv(site, Step(site, st))
  {
    StepQueue(site, st);
    StepLayered(site, st);
    StepReach(site, st);
    StepJustified(site, st);
    StepSeen(site, st);
    StepObserved(site, st);
  }

  lemma {:induction false} RunInv(site: Site, st: State)
    requires Inv(site, st)
    ensures Inv(site, Run(site, st)) && Halted(site, Run(site, st))
    decreases Unseen(site, st.seen), |st.frontier|
  {
    if !Halted(site, st) {
      StepDecreases(site, st);
      StepInv(site, st);
      RunInv(site, Step(site, st));
    }
  }

  lemma CrawlInv(site: Site)
    ensures Inv(site, Crawl(site)) && Halted(site, Crawl(site))
  {
    InitInv(site);
    RunInv(site, Init(site));
  }

  // ----- conservation ------------------------------------------------------------------------

  lemma {:induction false} SpawnedCount(site: Site, ds: seq<Decision>)
    ensures |AllSpawned(site, ds)| == LinkTotal(KeptPages(site, ds))
  {
    if ds != [] {
      var front, d := ds[..|ds| - 1], ds[|ds| - 1];
      SpawnedCount(site, front);
      var kept := KeptPages(site, front);
      if d.Kept() && Lookup(site, d.item.url).Some? {
        assert (kept + [Lookup(site, d.item.url).value])[..|kept|] == kept;
      } else {
        assert kept + [] == kept;
      }
    }
  }

  /** Nothing queued is lost or made up: the entries decided on, followed by those still waiting,
      are the seeds followed by the links of each observed page, entry by entry and in order, and the
      observed pages are those of the keep decisions. */
  lemma Conservation(site: Site)
    ensures var st := Crawl(site);
            && st.observed == KeptPages(site, st.decisions)
            && Items(st.decisions) + st.frontier == SeedItems(site.seeds) + AllSpawned(site, st.decisions)
            && |site.seeds| + LinkTotal(st.observed) == |st.decisions| + |st.frontier|
  {
    CrawlInv(site);
    var st := Crawl(site);
    SpawnedCount(site, st.decisions);
    assert |Queue(st)| == |Enqueued(site, st.decisions)|;
  }

  // ----- duplicates and budget ---------------------------------------------------------------

  lemma AllJustifiedFront(site: Site, ds: seq<Decision>)
    requires AllJustified(site, ds) && ds != []
    ensures AllJustified(site, ds[..|ds| - 1])
  {
    var front := ds[..|ds| - 1];
    forall i | 0 <= i < |front| ensures Justified(site, front[..i], front[i]) {
      assert front[..i] == ds[..i];
    }
  }

  ghost predicate DistinctCanonicalUrls(pages: seq<Page>) {
    forall i, j :: 0 <= i < j < |pages| ==> pages[i].canonicalUrl != pages[j].canonicalUrl
  }

  ghost predicate AllKeptEarlier(ds: seq<Decision>, pages: seq<Page>) {
    forall i :: 0 <= i < |pages| ==> KeptEarlier(ds, pages[i].canonicalUrl)
  }

  lemma {:induction false} KeptPagesDistinct(site: Site, ds: seq<Decision>)
    requires AllJustified(site, ds)
    ensures DistinctCanonicalUrls(KeptPages(site, ds)) && AllKeptEarlier(ds, KeptPages(site, ds))
  {
    if ds != [] {
      var front, d := ds[..|ds| - 1], ds[|ds| - 1];
      AllJustifiedFront(site, ds);
      KeptPagesDistinct(site, front);
      assert ds == front + [d] && Justified(site, front, d);
      forall c { KeptEarlierSnoc(front, d, c); }
    }
  }

  /** No canonical URL is observed twice, the page budget is kept, and the crawl reports
      MAX_PAGES_REACHED exactly when entries are still waiting, which takes a spent budget. */
  lemma BudgetAndDuplicates(site: Site)
    ensures var st := Crawl(site);
            && DistinctCanonicalUrls(st.observed)
            && |st.observed| <= Max(0, site.maxPages)
            && (Stop(site) == MaxPagesReached <==> st.frontier != [])
            && (Stop(site) == MaxPagesReached ==> |st.observed| == Max(0, site.maxPages))
  {
    CrawlInv(site);
    KeptPagesDistinct(site, Crawl(site).decisions);
  }

  /** Every decision of a crawl carries the action and reason the policy prescribes, given what
      was kept before it. */
  lemma DecisionsFollowPolicy(site: Site)
    ensures AllJustified(site, Crawl(site).decisions)
    ensures Crawl(site).observed == KeptPages(site, Crawl(site).decisions)
  {
    CrawlInv(site);
  }

  // ----- breadth-first completeness ----------------------------------------------------------

  lemma {:induction false} SpawnedIsQueued(site: Site, ds: seq<Decision>, k: nat, x: Item)
    requires k < |ds| && x in Spawned(site, ds[k])
    ensures x in AllSpawned(site, ds)
  {
    if k < |ds| - 1 {
      SpawnedIsQueued(site, ds[..|ds| - 1], k, x);
    }
  }

  ghost predicate QueuedWithin(st: State, url: string, depth: nat) {
    exists m :: 0 <= m < |Queue(st)| && Queue(st)[m].url == url && Queue(st)[m].depth <= depth
  }

  lemma LinkOfKeptIsQueued(site: Site, st: State, k: nat, url: string)
    requires Inv(site, st) && k < |st.decisions| && st.decisions[k].Kept()
    requires LinksTo(site, st.decisions[k].item.url, url)
    ensures QueuedWithin(st, url, st.decisions[k].item.depth + 1)
  {
    var d := st.decisions[k];
    var page := Lookup(site, d.item.url).value;
    var i :| 0 <= i < |page.links| && page.links[i] == url;
    var x := LinkItems(page, d.item.depth)[i];
    assert x in Spawned(site, d);
    SpawnedIsQueued(site, st.decisions, k, x);
    assert x in Enqueued(site, st.decisions);
    var m :| 0 <= m < |Queue(st)| && Queue(st)[m] == x;
  }

  lemma SeedIsQueued(site: Site, st: State, url: string)
    requires Inv(site, st) && url in site.seeds
    ensures QueuedWithin(st, url, 0)
  {
    var i :| 0 <= i < |site.seeds| && site.seeds[i] == url;
    assert Enqueued(site, st.decisions)[i] == SeedItems(site.seeds)[i];
  }

  /** All entries at depth `depth` or less have been decided on. */
  ghost predicate DecidedThrough(st: State, depth: nat) {
    st.frontier == [] || depth < st.frontier[0].depth
  }

  lemma EntryWasDecided(st: State, url: string, depth: nat) returns (m: nat)
    requires Layered(Queue(st), |st.decisions|) && DecidedThrough(st, depth) && QueuedWithin(st, url, depth)
    ensures m < |st.decisions| && st.decisions[m].item.url == url && st.decisions[m].item.depth <= depth
    ensures forall k :: 0 <= k < m ==> st.decisions[k].item.depth <= depth
  {
    var q, n := Queue(st), |st.decisions|;
    m :| 0 <= m < |q| && q[m].url == url && q[m].depth <= depth;
    assert st.frontier != [] ==> q[n] == st.frontier[0];
    assert m < n && q[m] == st.decisions[m].item;
    assert forall k :: 0 <= k < n ==> q[k] == st.decisions[k].item;
  }

  lemma DecidedEntryIsKept(site: Site, st: State, url: string, depth: nat, canonical: string)
    requires Layered(Queue(st), |st.decisions|) && AllJustified(site, st.decisions)
    requires DecidedThrough(st, depth) && QueuedWithin(st, url, depth)
    requires Admissible(site, url, depth) && HasCanonical(site, url, canonical)
    ensures KeptWithin(st.decisions, canonical, depth)
  {
    var m := EntryWasDecided(st, url, depth);
    var d := st.decisions[m];
    AdmissibleHasPage(site, url, depth);
    assert Justified(site, st.decisions[..m], d);
    if !d.Kept() {
      assert KeptEarlier(st.decisions[..m], canonical);
      var k :| 0 <= k < m && st.decisions[..m][k].Kept() && st.decisions[..m][k].canonicalUrl == Some(canonical);
      assert st.decisions[k].Kept();
    }
  }

  lemma KeptWithinLater(ds: seq<Decision>, canonical: string, depth: nat, later: nat)
    requires KeptWithin(ds, canonical, depth) && depth <= later
    ensures KeptWithin(ds, canonical, later)
  {
    var k :| 0 <= k < |ds| && ds[k].Kept() && ds[k].canonicalUrl == Some(canonical) && ds[k].item.depth <= depth;
  }

  /** A kept decision is about an admissible page, under its canonical URL. */
  ghost predicate KeptSoundly(site: Site, d: Decision) {
    Admissible(site, d.item.url, d.item.depth) && d.canonicalUrl.Some?
    && HasCanonical(site, d.item.url, d.canonicalUrl.value)
  }

  /** Seeds are queued at depth 0, and what a kept page links to is queued one level deeper. */
  ghost predicate QueueClosed(site: Site, st: State) {
    && (forall url :: url in site.seeds ==> QueuedWithin(st, url, 0))
    && (forall k, url :: 0 <= k < |st.decisions| && st.decisions[k].Kept() && LinksTo(site, st.decisions[k].item.url, url)
          ==> QueuedWithin(st, url, st.decisions[k].item.depth + 1))
    && (forall k :: 0 <= k < |st.decisions| && st.decisions[k].Kept() ==> KeptSoundly(site, st.decisions[k]))
  }

  /** Every admissible page queued within a depth that has been decided through was kept by then. */
  ghost predicate DecidedAreKept(site: Site, st: State) {
    forall url, depth: nat, c ::
      (DecidedThrough(st, depth) && QueuedWithin(st, url, depth)
       && Admissible(site, url, depth) && HasCanonical(site, url, c))
      ==> KeptWithin(st.decisions, c, depth)
  }

  lemma InvCloses(site: Site, st: State)
    requires Inv(site, st)
    ensures QueueClosed(site, st)
  {
    forall url | url in site.seeds ensures QueuedWithin(st, url, 0) { SeedIsQueued(site, st, url); }
    forall k, url | 0 <= k < |st.decisions| && st.decisions[k].Kept() && LinksTo(site, st.decisions[k].item.url, url)
      ensures QueuedWithin(st, url, st.decisions[k].item.depth + 1)
    {
      LinkOfKeptIsQueued(site, st, k, url);
    }
    forall k | 0 <= k < |st.decisions| && st.decisions[k].Kept() ensures KeptSoundly(site, st.decisions[k]) {
      assert Justified(site, st.decisions[..k], st.decisions[k]);
    }
  }

  lemma InvDecides(site: Site, st: State)
    requires Layered(Queue(st), |st.decisions|) && AllJustified(site, st.decisions)
    ensures DecidedAreKept(site, st)
  {
    forall url, depth: nat, c
      | DecidedThrough(st, depth) && QueuedWithin(st, url, depth)
        && Admissible(site, url, depth) && HasCanonical(site, url, c)
      ensures KeptWithin(st.decisions, c, depth)
    {
      DecidedEntryIsKept(site, st, url, depth, c);
    }
  }

  /** Both closure properties hold at the end of every crawl. */
  lemma CrawlCloses(site: Site)
    ensures QueueClosed(site, Crawl(site)) && DecidedAreKept(site, Crawl(site))
  {
    CrawlInv(site);
    InvCloses(site, Crawl(site));
    InvDecides(site, Crawl(site));
  }

  /** What the kept `k`-th decision leads to is kept one level deeper. */
  lemma LedToIsKept(site: Site, st: State, k: nat, canonical: string, depth: nat)
    requires QueueClosed(site, st) && DecidedAreKept(site, st) && DecidedThrough(st, depth) && depth <= site.maxDepth
    requires k < |st.decisions| && st.decisions[k].Kept() && st.decisions[k].item.depth < depth
    requires LeadsTo(site, st.decisions[k].item.url, canonical)
    ensures KeptWithin(st.decisions, canonical, depth)
  {
    var d := st.decisions[k];
    var w :| LinksTo(site, d.item.url, w) && Admissible(site, w, 1) && HasCanonical(site, w, canonical);
    assert QueuedWithin(st, w, d.item.depth + 1);
    AdmissibleHasPage(site, w, 1);
    KeptWithinLater(st.decisions, canonical, d.item.depth + 1, depth);
  }

  /** If the page `via` was kept under its canonical URL, an admissible page it links to is kept one
      level deeper, even when a page sharing that canonical URL was crawled in its place. */
  lemma NeighbourIsKept(site: Site, st: State, via: string, c: string, url: string, depth: nat, canonical: string)
    requires QueueClosed(site, st) && DecidedAreKept(site, st) && DecidedThrough(st, depth) && depth > 0
    requires TwinsLeadAlike(site) && Admissible(site, via, depth - 1) && HasCanonical(site, via, c)
    requires LinksTo(site, via, url) && KeptWithin(st.decisions, c, depth - 1)
    requires Admissible(site, url, depth) && HasCanonical(site, url, canonical)
    ensures KeptWithin(st.decisions, canonical, depth)
  {
    var k :| 0 <= k < |st.decisions| && st.decisions[k].Kept()
      && st.decisions[k].canonicalUrl == Some(c) && st.decisions[k].item.depth <= depth - 1;
    var u := st.decisions[k].item.url;
    assert KeptSoundly(site, st.decisions[k]);
    AdmissibleHasPage(site, url, depth);
    AdmissibleHasPage(site, via, depth - 1);
    AdmissibleHasPage(site, u, st.decisions[k].item.depth);
    assert AdmissibleTwins(site, u, via, c) && LeadsTo(site, via, canonical);
    if canonical == c {
      KeptWithinLater(st.decisions, c, depth - 1, depth);
    } else {
      LedToIsKept(site, st, k, canonical, depth);
    }
  }

  lemma SeedIsKept(site: Site, st: State, url: string, canonical: string)
    requires QueueClosed(site, st) && DecidedAreKept(site, st) && DecidedThrough(st, 0)
    requires url in site.seeds && Admissible(site, url, 0) && HasCanonical(site, url, canonical)
    ensures KeptWithin(st.decisions, canonical, 0)
  {
    assert QueuedWithin(st, url, 0);
  }

  /** The last page but one of an admissible walk, and its canonical URL. */
  lemma StepBefore(site: Site, url: string, depth: nat) returns (v: string, c: string)
    requires depth > 0 && AtDepth(site, url, depth)
    ensures AtDepth(site, v, depth - 1) && Admissible(site, v, depth - 1) && LinksTo(site, v, url)
    ensures HasCanonical(site, v, c)
  {
    v :| AtDepth(site, v, depth - 1) && Admissible(site, v, depth - 1) && LinksTo(site, v, url);
    c := Lookup(site, v).value.canonicalUrl;
  }

  /** The breadth-first core: once every entry of depth `depth` has been decided on, each canonical
      URL that an admissible walk of that length ends at was kept, at that depth or a smaller one. */
  lemma {:induction false} ReachedIsKept(site: Site, st: State, url: string, depth: nat, canonical: string)
    requires QueueClosed(site, st) && DecidedAreKept(site, st) && DecidedThrough(st, depth) && TwinsLeadAlike(site)
    requires AtDepth(site, url, depth) && Admissible(site, url, depth) && HasCanonical(site, url, canonical)
    ensures KeptWithin(st.decisions, canonical, depth)
    decreases depth
  {
    if depth == 0 {
      SeedIsKept(site, st, url, canonical);
    } else {
      var v, c := StepBefore(site, url, depth);
      ReachedIsKept(site, st, v, depth - 1, c);
      NeighbourIsKept(site, st, v, c, url, depth, canonical);
    }
  }

  lemma CanonicalReachedIsKept(site: Site, depth: nat, canonical: string)
    requires TwinsLeadAlike(site) && DecidedThrough(Crawl(site), depth) && CanonicalAtDepth(site, canonical, depth)
    ensures KeptWithin(Crawl(site).decisions, canonical, depth)
  {
    CrawlCloses(site);
    var url :| AtDepth(site, url, depth) && Admissible(site, url, depth) && HasCanonical(site, url, canonical);
    ReachedIsKept(site, Crawl(site), url, depth, canonical);
  }

  lemma KeptApart(site: Site, st: State, j: nat, k: nat)
    requires Inv(site, st) && j < k < |st.decisions|
    requires st.decisions[j].Kept() && st.decisions[k].Kept()
    ensures st.decisions[j].canonicalUrl != st.decisions[k].canonicalUrl
  {
    assert Justified(site, st.decisions[..j], st.decisions[j]);
    assert Justified(site, st.decisions[..k], st.decisions[k]);
    assert st.decisions[..k][j] == st.decisions[j];
  }

  lemma KeptIsReached(site: Site, st: State, k: nat)
    requires Inv(site, st) && k < |st.decisions| && st.decisions[k].Kept()
    ensures var d := st.decisions[k];
            d.canonicalUrl.Some? && CanonicalAtDepth(site, d.canonicalUrl.value, d.item.depth)
  {
    var d := st.decisions[k];
    assert Justified(site, st.decisions[..k], d);
    assert Queue(st)[k] == d.item;
    assert HasCanonical(site, d.item.url, d.canonicalUrl.value);
  }

  /** A walk shorter than the `k`-th decision would have brought its canonical URL in earlier. */
  lemma NoShorterWalk(site: Site, st: State, k: nat, shorter: nat, c: string)
    requires TwinsLeadAlike(site) && Inv(site, st) && QueueClosed(site, st) && DecidedAreKept(site, st)
    requires k < |st.decisions| && st.decisions[k].Kept() && st.decisions[k].canonicalUrl == Some(c)
    requires shorter < st.decisions[k].item.depth
    ensures !CanonicalAtDepth(site, c, shorter)
  {
    if CanonicalAtDepth(site, c, shorter) {
      assert Queue(st)[k] == st.decisions[k].item;
      assert st.frontier != [] ==> Queue(st)[|st.decisions|] == st.frontier[0];
      var url :| AtDepth(site, url, shorter) && Admissible(site, url, shorter) && HasCanonical(site, url, c);
      ReachedIsKept(site, st, url, shorter, c);
      var j :| 0 <= j < |st.decisions| && st.decisions[j].Kept()
        && st.decisions[j].canonicalUrl == Some(c) && st.decisions[j].item.depth <= shorter;
      if j < k { KeptApart(site, st, j, k); } else { KeptApart(site, st, k, j); }
    }
  }

  /** Every keep or prioritize decision is made at the length of the shortest admissible walk to
      its canonical URL, whether or not the budget later cuts the crawl short. */
  lemma ShortestDepth(site: Site, k: nat)
    requires TwinsLeadAlike(site) && k < |Crawl(site).decisions| && Crawl(site).decisions[k].Kept()
    ensures var d := Crawl(site).decisions[k];
            && d.canonicalUrl.Some?
            && CanonicalAtDepth(site, d.canonicalUrl.value, d.item.depth)
            && forall shorter: nat :: shorter < d.item.depth
                 ==> !CanonicalAtDepth(site, d.canonicalUrl.value, shorter)
  {
    CrawlInv(site);
    CrawlCloses(site);
    var st := Crawl(site);
    KeptIsReached(site, st, k);
    var d := st.decisions[k];
    var c := d.canonicalUrl.value;
    forall shorter: nat | shorter < d.item.depth ensures !CanonicalAtDepth(site, c, shorter) {
      NoShorterWalk(site, st, k, shorter, c);
    }
  }

  /** A crawl that exhausts its frontier keeps exactly the canonical URLs that some admissible walk
      from the seeds ends at. */
  lemma Completeness(site: Site, canonical: string)
    requires TwinsLeadAlike(site) && Stop(site) == FrontierExhausted
    ensures KeptEarlier(Crawl(site).decisions, canonical)
       <==> exists depth: nat :: CanonicalAtDepth(site, canonical, depth)
  {
    CrawlInv(site);
    var st := Crawl(site);
    if KeptEarlier(st.decisions, canonical) {
      var k :| 0 <= k < |st.decisions| && st.decisions[k].Kept() && st.decisions[k].canonicalUrl == Some(canonical);
      KeptIsReached(site, st, k);
    }
    if depth: nat :| CanonicalAtDepth(site, canonical, depth) {
      CanonicalReachedIsKept(site, depth, canonical);
    }
  }

  /** A crawl cut short by its budget has still kept everything strictly nearer than the entry
      that waits at the head of the frontier. */
  lemma NearerThanTheFrontier(site: Site, canonical: string, depth: nat)
    requires TwinsLeadAlike(site) && Crawl(site).frontier != [] && depth < Crawl(site).frontier[0].depth
    requires CanonicalAtDepth(site, canonical, depth)
    ensures KeptWithin(Crawl(site).decisions, canonical, depth)
  {
    CanonicalReachedIsKept(site, depth, canonical);
  }

  lemma OwnPage(site: Site, d: Decision, page: Page)
    ensures page in PageOf(site, d) <==> d.Kept() && Lookup(site, d.item.url) == Some(page)
  {}

  lemma {:induction false} ObservedIffKept(site: Site, ds: seq<Decision>, page: Page)
    ensures page in KeptPages(site, ds)
       <==> exists k :: 0 <= k < |ds| && ds[k].Kept() && Lookup(site, ds[k].item.url) == Some(page)
  {
    if ds != [] {
      var front, d := ds[..|ds| - 1], ds[|ds| - 1];
      ObservedIffKept(site, front, page);
      OwnPage(site, d, page);
      if k :| 0 <= k < |ds| && ds[k].Kept() && Lookup(site, ds[k].item.url) == Some(page) && k < |front| {
        assert front[k] == ds[k];
      }
    }
  }

  /** With one page per canonical URL, an exhausted crawl observes exactly the pages reachable from
      the seeds through admissible pages within the depth bound. */
  lemma ObservedAreReachable(site: Site, url: string)
    requires DistinctCanonicals(site) && Stop(site) == FrontierExhausted && Lookup(site, url).Some?
    ensures Lookup(site, url).value in Crawl(site).observed
       <==> exists depth: nat :: AtDepth(site, url, depth) && Admissible(site, url, depth)
  {
    CrawlInv(site);
    var st := Crawl(site);
    var page := Lookup(site, url).value;
    var c := page.canonicalUrl;
    assert HasCanonical(site, url, c);
    ObservedIffKept(site, st.decisions, page);
    Completeness(site, c);
    if page in st.observed {
      var k :| 0 <= k < |st.decisions| && st.decisions[k].Kept() && Lookup(site, st.decisions[k].item.url) == Some(page);
      assert HasCanonical(site, st.decisions[k].item.url, c);
      assert Justified(site, st.decisions[..k], st.decisions[k]) && Queue(st)[k] == st.decisions[k].item;
    }
    if depth: nat :| AtDepth(site, url, depth) && Admissible(site, url, depth) {
      assert CanonicalAtDepth(site, c, depth);
      var k :| 0 <= k < |st.decisions| && st.decisions[k].Kept() && st.decisions[k].canonicalUrl == Some(c);
      assert Justified(site, st.decisions[..k], st.decisions[k]);
      assert HasCanonical(site, st.decisions[k].item.url, c);
    }
  }

  // ----- exactly when completeness holds -------------------------------------------------------

  /** The same pages and rules under other seeds and another page budget. */
  function Seeded(site: Site, seeds: seq<string>, maxPages: int): Site { site.(seeds := seeds, maxPages := maxPages) }

  /** Whatever the seeds and the page budget, once all entries of a depth have been decided on,
      everything at the end of an admissible walk of that length has been kept. */
  ghost predicate KeepsUp(site: Site) {
    forall seeds, maxPages, canonical, depth: nat ::
      DecidedThrough(Crawl(Seeded(site, seeds, maxPages)), depth)
      && CanonicalAtDepth(Seeded(site, seeds, maxPages), canonical, depth)
      ==> KeptWithin(Crawl(Seeded(site, seeds, maxPages)).decisions, canonical, depth)
  }

  lemma SeededTwins(site: Site, seeds: seq<string>, maxPages: int)
    requires TwinsLeadAlike(site)
    ensures TwinsLeadAlike(Seeded(site, seeds, maxPages))
  {
    var s := Seeded(site, seeds, maxPages);
    forall u, v, c, x | AdmissibleTwins(s, u, v, c) && LeadsTo(s, v, x) && x != c ensures LeadsTo(s, u, x) {
      SeededLeads(site, seeds, maxPages, u, x);
      SeededLeads(site, seeds, maxPages, v, x);
      assert AdmissibleTwins(site, u, v, c);
    }
  }

  lemma SeededLeads(site: Site, seeds: seq<string>, maxPages: int, from: string, canonical: string)
    ensures LeadsTo(Seeded(site, seeds, maxPages), from, canonical) <==> LeadsTo(site, from, canonical)
  {
    var s := Seeded(site, seeds, maxPages);
    forall w
      ensures LinksTo(s, from, w) == LinksTo(site, from, w) && Admissible(s, w, 1) == Admissible(site, w, 1)
      ensures HasCanonical(s, w, canonical) == HasCanonical(site, w, canonical)
    {}
  }

  lemma {:induction false} SpawnedFrom(site: Site, ds: seq<Decision>, x: Item) returns (j: nat)
    requires x in AllSpawned(site, ds)
    ensures j < |ds| && ds[j].Kept() && x.depth == ds[j].item.depth + 1 && LinksTo(site, ds[j].item.url, x.url)
  {
    if x in Spawned(site, ds[|ds| - 1]) {
      j := |ds| - 1;
    } else {
      j := SpawnedFrom(site, ds[..|ds| - 1], x);
    }
  }

  lemma SeedOrSpawned(site: Site, st: State, k: nat)
    requires Inv(site, st) && |site.seeds| <= k < |st.decisions|
    ensures st.decisions[k].item in AllSpawned(site, st.decisions)
  {
    DecidedIsQueued(st, k);
    BehindFront(SeedItems(site.seeds), AllSpawned(site, st.decisions), k);
  }

  lemma DecidedIsQueued(st: State, k: nat)
    requires k < |st.decisions|
    ensures Queue(st)[k] == st.decisions[k].item
  {}

  lemma BehindFront<T>(a: seq<T>, b: seq<T>, k: nat)
    requires |a| <= k < |a + b|
    ensures (a + b)[k] in b
  {
    assert (a + b)[k] == b[k - |a|];
  }

  lemma SeedDecision(site: Site, st: State, k: nat)
    requires Inv(site, st) && k < |site.seeds| && k < |st.decisions|
    ensures st.decisions[k].item == Item(site.seeds[k], 0, None)
  {
    assert Queue(st)[k] == st.decisions[k].item;
    assert Enqueued(site, st.decisions)[k] == SeedItems(site.seeds)[k];
  }

  /** Seeded with two pages of one canonical URL, the crawl skips the second one. */
  lemma TwinIsSkipped(site: Site, st: State, u: string, v: string, c: string)
    requires Inv(site, st) && st.frontier == [] && site.seeds == [u, v] && AdmissibleTwins(site, u, v, c)
    ensures |st.decisions| >= 2 && st.decisions[0].item.url == u && !st.decisions[1].Kept()
  {
    assert |Queue(st)| == |st.decisions| && |Enqueued(site, st.decisions)| >= 2;
    SeedDecision(site, st, 0);
    SeedDecision(site, st, 1);
    assert Justified(site, st.decisions[..0], st.decisions[0]);
    assert Justified(site, st.decisions[..1], st.decisions[1]);
    assert st.decisions[..1][0] == st.decisions[0];
  }

  /** After two seeds, an entry within one level is linked to by a seed. */
  lemma LinkedBySeed(site: Site, st: State, k: nat) returns (j: nat)
    requires Inv(site, st) && |site.seeds| == 2 <= k < |st.decisions| && st.decisions[k].item.depth <= 1
    ensures j < 2 && st.decisions[j].Kept() && LinksTo(site, st.decisions[j].item.url, st.decisions[k].item.url)
    ensures st.decisions[k].item.depth == 1
  {
    SeedOrSpawned(site, st, k);
    j := SpawnedFrom(site, st.decisions, st.decisions[k].item);
    if j >= 2 {
      SeedOrSpawned(site, st, j);
      var i := SpawnedFrom(site, st.decisions, st.decisions[j].item);
    }
  }

  /** So nothing that only the second one leads to is kept within one level. */
  lemma MissedWithinOne(site: Site, st: State, u: string, v: string, c: string, x: string)
    requires Inv(site, st) && QueueClosed(site, st) && st.frontier == []
    requires site.seeds == [u, v] && AdmissibleTwins(site, u, v, c) && x != c && !LeadsTo(site, u, x)
    ensures !KeptWithin(st.decisions, x, 1)
  {
    TwinIsSkipped(site, st, u, v, c);
    forall k | 0 <= k < |st.decisions| && st.decisions[k].Kept() && st.decisions[k].item.depth <= 1
      ensures st.decisions[k].canonicalUrl != Some(x)
    {
      KeepMisses(site, st, u, c, x, k);
    }
  }

  lemma KeepMisses(site: Site, st: State, u: string, c: string, x: string, k: nat)
    requires Inv(site, st) && QueueClosed(site, st) && |site.seeds| == 2 <= |st.decisions| && k < |st.decisions|
    requires st.decisions[0].item.url == u && !st.decisions[1].Kept() && HasCanonical(site, u, c)
    requires st.decisions[k].Kept() && st.decisions[k].item.depth <= 1 && x != c && !LeadsTo(site, u, x)
    ensures st.decisions[k].canonicalUrl != Some(x)
  {
    assert KeptSoundly(site, st.decisions[k]);
    if k >= 2 { NotLedTo(site, st, u, x, k); } else { OneCanonical(site, u, c, st.decisions[k]); }
  }

  lemma OneCanonical(site: Site, u: string, c: string, d: Decision)
    requires KeptSoundly(site, d) && d.item.url == u && HasCanonical(site, u, c)
    ensures d.canonicalUrl == Some(c)
  {}

  lemma NotLedTo(site: Site, st: State, u: string, x: string, k: nat)
    requires Inv(site, st) && |site.seeds| == 2 <= k < |st.decisions| && KeptSoundly(site, st.decisions[k])
    requires st.decisions[k].item.depth <= 1 && st.decisions[0].item.url == u && !st.decisions[1].Kept()
    requires !LeadsTo(site, u, x)
    ensures st.decisions[k].canonicalUrl != Some(x)
  {
    var j := LinkedBySeed(site, st, k);
    assert LinksTo(site, u, st.decisions[k].item.url);
  }

  lemma DistinctPagesFit(pages: seq<Page>, all: set<string>)
    requires DistinctCanonicalUrls(pages) && forall i :: 0 <= i < |pages| ==> pages[i].canonicalUrl in all
    ensures |pages| <= |all|
  {
    DistinctFit(seq(|pages|, i requires 0 <= i < |pages| => pages[i].canonicalUrl), all);
  }

  lemma {:induction false} KeptPagesAreListed(site: Site, ds: seq<Decision>)
    ensures forall i :: 0 <= i < |KeptPages(site, ds)| ==> KeptPages(site, ds)[i] in site.pages
  {
    if ds != [] { KeptPagesAreListed(site, ds[..|ds| - 1]); }
  }

  /** A page budget beyond the number of canonical URLs is never the reason to stop. */
  lemma AmpleBudgetExhausts(site: Site)
    requires site.maxPages > |Unseen(site, {})|
    ensures Crawl(site).frontier == []
  {
    CrawlInv(site);
    var st := Crawl(site);
    KeptPagesDistinct(site, st.decisions);
    KeptPagesAreListed(site, st.decisions);
    DistinctPagesFit(st.observed, Unseen(site, {}));
  }

  /** A crawl that starts from two unlike twins misses what only the second one leads to. */
  lemma SeedTwinIsMissed(site: Site, u: string, v: string, c: string, x: string)
    requires site.seeds == [u, v] && site.maxPages > |Unseen(site, {})|
    requires AdmissibleTwins(site, u, v, c) && LeadsTo(site, v, x) && x != c && !LeadsTo(site, u, x)
    ensures DecidedThrough(Crawl(site), 1) && CanonicalAtDepth(site, x, 1)
    ensures !KeptWithin(Crawl(site).decisions, x, 1)
  {
    AmpleBudgetExhausts(site);
    CrawlInv(site);
    CrawlCloses(site);
    MissedWithinOne(site, Crawl(site), u, v, c, x);
    LedToFromSeed(site, v, x);
  }

  /** A pair of pages that violates the condition makes a crawl that misses something. */
  lemma UnlikeTwinsAreMissed(site: Site, u: string, v: string, c: string, x: string)
    requires AdmissibleTwins(site, u, v, c) && LeadsTo(site, v, x) && x != c && !LeadsTo(site, u, x)
    ensures !KeepsUp(site)
  {
    var maxPages := |Unseen(site, {})| + 1;
    var s := Seeded(site, [u, v], maxPages);
    assert Unseen(s, {}) == Unseen(site, {});
    SeededLeads(site, [u, v], maxPages, u, x);
    SeededLeads(site, [u, v], maxPages, v, x);
    assert AdmissibleTwins(s, u, v, c);
    SeedTwinIsMissed(s, u, v, c, x);
  }

  lemma LedToFromSeed(site: Site, v: string, x: string)
    requires v in site.seeds && Admissible(site, v, 0) && LeadsTo(site, v, x)
    ensures CanonicalAtDepth(site, x, 1)
  {
    var w :| LinksTo(site, v, w) && Admissible(site, w, 1) && HasCanonical(site, w, x);
    assert AtDepth(site, v, 0);
    assert AtDepth(site, w, 1);
  }

  /** The engine keeps up with every admissible walk, for all seeds and budgets, exactly when pages
      that share a canonical URL lead alike. */
  lemma CompleteExactlyWhen(site: Site)
    ensures KeepsUp(site) <==> TwinsLeadAlike(site)
  {
    if TwinsLeadAlike(site) {
      forall seeds, maxPages, canonical, depth: nat
        | DecidedThrough(Crawl(Seeded(site, seeds, maxPages)), depth)
          && CanonicalAtDepth(Seeded(site, seeds, maxPages), canonical, depth)
        ensures KeptWithin(Crawl(Seeded(site, seeds, maxPages)).decisions, canonical, depth)
      {
        SeededTwins(site, seeds, maxPages);
        CanonicalReachedIsKept(Seeded(site, seeds, maxPages), depth, canonical);
      }
    } else {
      var u, v, c, x :| AdmissibleTwins(site, u, v, c) && LeadsTo(site, v, x) && x != c && !LeadsTo(site, u, x);
      UnlikeTwinsAreMissed(site, u, v, c, x);
    }
  }
}
