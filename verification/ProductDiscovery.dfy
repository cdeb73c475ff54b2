/** Query-driven discovery: links are filtered and de-duplicated per search page and sorted, then
    collected across sources under a global budget. */
module ProductDiscovery {
  import opened Basics
  import opened Sorting

  datatype Kind = Anchor | Pattern

  datatype RawLink = RawLink(url: string, text: string, kind: Kind)

  datatype Link = Link(url: string, text: string, terms: nat, kind: Kind)

  /** The text tests on a link, which are regular expressions in the program: URL normalization against
      the page's base, the exclusion, pattern and identity filters taken together, and the number of
      matched terms. They differ from source to source. */
  datatype LinkRules = LinkRules(
    normalize: string -> Option<string>,
    wanted: (string, string) -> bool,
    matched: (string, string) -> nat)

  /** A source; `page` is what its search page yielded, absent when policy, robots or HTTP blocked it. */
  datatype Source = Source(
    allowedOrigin: string, searchUrl: string, maxCandidates: nat, rules: LinkRules, page: Option<seq<RawLink>>)

  // ----- one search page ---------------------------------------------------------------------

  /** The link `raw` turns into, unless some filter drops it. */
  function Admit(source: Source, raw: RawLink): Option<Link> {
    match source.rules.normalize(raw.url)
    case None => None
    case Some(url) =>
      if !(source.allowedOrigin <= url) || url == source.searchUrl || !source.rules.wanted(url, raw.text) then None
      else Some(Link(url, raw.text, source.rules.matched(raw.text, url), raw.kind))
  }

  predicate HasUrl(links: seq<Link>, url: string) { exists i :: 0 <= i < |links| && links[i].url == url }

  /** The admitted links, the first of each URL only. */
  function Admitted(source: Source, raws: seq<RawLink>): seq<Link> {
    if raws == [] then []
    else
      var before := Admitted(source, raws[..|raws| - 1]);
      match Admit(source, raws[|raws| - 1])
      case None => before
      case Some(link) => if HasUrl(before, link.url) then before else before + [link]
  }

  /** The sort key: more matched terms first, anchors before patterns, then by URL. */
  predicate LinkLeq(a: Link, b: Link) {
    if a.terms != b.terms then a.terms > b.terms
    else if a.kind != b.kind then a.kind == Anchor
    else StringLeq(a.url, b.url)
  }

  function Discovered(source: Source): seq<Link> {
    if source.page.None? then [] else Sort(Admitted(source, source.page.value), LinkLeq)
  }

  method DiscoverCandidateLinks(source: Source, raws: seq<RawLink>) returns (links: seq<Link>)
    ensures links == Sort(Admitted(source, raws), LinkLeq)
  {
    var candidates: seq<Link> := [];
    var seen: set<string> := {};
    for i := 0 to |raws|
      invariant candidates == Admitted(source, raws[..i])
      invariant forall u :: u in seen <==> HasUrl(candidates, u)
    {
      assert raws[..i + 1][..i] == raws[..i];
      var raw := raws[i];
      var url := source.rules.normalize(raw.url);
      if url.None? || url.value in seen { continue; }
      if !(source.allowedOrigin <= url.value) { continue; }
      if url.value == source.searchUrl { continue; }
      if !source.rules.wanted(url.value, raw.text) { continue; }
      seen := seen + {url.value};
      ghost var before := candidates;
      candidates := candidates + [Link(url.value, raw.text, source.rules.matched(raw.text, url.value), raw.kind)];
      AppendedUrls(before, candidates[|before|]);
    }
    assert raws[..|raws|] == raws;
    links := Sort(candidates, LinkLeq);
  }

  lemma AppendedUrls(before: seq<Link>, link: Link)
    ensures forall u :: HasUrl(before + [link], u) <==> HasUrl(before, u) || u == link.url
  {
    var after := before + [link];
    assert after[|before|] == link;
    assert forall i :: 0 <= i < |before| ==> after[i] == before[i];
  }

  ghost predicate DistinctUrls(links: seq<Link>) {
    forall i, j :: 0 <= i < j < |links| ==> links[i].url != links[j].url
  }

  lemma {:induction false} AdmittedAreFirsts(source: Source, raws: seq<RawLink>)
    ensures var links := Admitted(source, raws);
            && DistinctUrls(links)
            && (forall l :: l in links ==> source.allowedOrigin <= l.url && l.url != source.searchUrl)
            && (forall i :: 0 <= i < |raws| && Admit(source, raws[i]).Some? ==>
                  HasUrl(links, Admit(source, raws[i]).value.url))
  {
    if raws != [] {
      var front, last := raws[..|raws| - 1], raws[|raws| - 1];
      AdmittedAreFirsts(source, front);
      var link := Admit(source, last);
      if link.Some? { AppendedUrls(Admitted(source, front), link.value); }
      forall i | 0 <= i < |raws| && Admit(source, raws[i]).Some?
        ensures HasUrl(Admitted(source, raws), Admit(source, raws[i]).value.url)
      {
        if i < |front| { assert front[i] == raws[i]; }
      }
    }
  }

  lemma LinkOrder()
    ensures TotalPreorder(LinkLeq)
    ensures forall a, b :: LinkLeq(a, b) && LinkLeq(b, a) ==> a.url == b.url
  {
    StringOrder();
  }

  lemma DistinctByMembers(links: seq<Link>)
    requires DistinctUrls(links)
    ensures forall a, b :: a in links && b in links && a.url == b.url ==> a == b
  {}

  lemma {:induction false} DistinctFromMultiset(s: seq<Link>, t: seq<Link>)
    requires Permutation(s, t) && DistinctUrls(t)
    ensures DistinctUrls(s)
  {
    DistinctByMembers(t);
    PermutationMembers(s, t);
    forall i, j | 0 <= i < j < |s| ensures s[i].url != s[j].url {
      if s[i].url == s[j].url {
        assert s[i] in t && s[j] in t;
        MultiplicityOfPair(s, i, j);
        DistinctMultiplicity(t, s[i]);
      }
    }
  }

  lemma MultiplicityOfPair<T>(s: seq<T>, i: nat, j: nat)
    requires i < j < |s| && s[i] == s[j]
    ensures multiset(s)[s[i]] >= 2
  {
    assert s == s[..i] + [s[i]] + s[i + 1..j] + [s[j]] + s[j + 1..];
  }

  lemma {:induction false} DistinctMultiplicity(t: seq<Link>, x: Link)
    requires DistinctUrls(t)
    ensures multiset(t)[x] <= 1
  {
    if t != [] {
      DistinctMultiplicity(t[1..], x);
      assert t == [t[0]] + t[1..];
      if x == t[0] { assert x !in t[1..]; }
    }
  }

  /** One page's links: sorted by the key, each URL once, all beginning with the source's allowed
      origin, none the search page itself, and no acceptable URL left out; the order is the only one
      possible. */
  lemma DiscoveredLinks(source: Source)
    requires source.page.Some?
    ensures var links := Discovered(source); var raws := source.page.value;
            && SortedBy(links, LinkLeq) && DistinctUrls(links)
            && (forall l :: l in links ==> source.allowedOrigin <= l.url && l.url != source.searchUrl)
            && (forall i :: 0 <= i < |raws| && Admit(source, raws[i]).Some? ==>
                  HasUrl(links, Admit(source, raws[i]).value.url))
            && StrictOn(links, LinkLeq)
  {
    var raws := source.page.value;
    var admitted, links := Admitted(source, raws), Discovered(source);
    LinkOrder();
    SortCorrect(admitted, LinkLeq);
    AdmittedAreFirsts(source, raws);
    PermutationMembers(links, admitted);
    DistinctFromMultiset(links, admitted);
    DistinctByMembers(links);
    forall u | HasUrl(admitted, u) ensures HasUrl(links, u) {
      var i :| 0 <= i < |admitted| && admitted[i].url == u;
      assert admitted[i] in links;
    }
  }

  // ----- all sources -------------------------------------------------------------------------

  datatype Candidate = Candidate(url: string, source: nat, rank: nat)

  /** What one source may contribute: its first `maxCandidates` links. */
  function Offered(sources: seq<Source>, s: nat): seq<Link>
    requires s < |sources|
  {
    Take(Discovered(sources[s]), sources[s].maxCandidates)
  }

  /** The shares of all sources, in the order the sources are visited. */
  function Shares(sources: seq<Source>): seq<seq<Link>> {
    seq(|sources|, s requires 0 <= s < |sources| => Offered(sources, s))
  }

  predicate Listed(candidates: seq<Candidate>, url: string) {
    exists i :: 0 <= i < |candidates| && candidates[i].url == url
  }

  /** The inner loop: take links in turn until the budget is spent, skipping URLs already listed. */
  function CollectLinks(candidates: seq<Candidate>, links: seq<Link>, s: nat, budget: int): seq<Candidate>
    decreases |links|
  {
    if links == [] || |candidates| >= budget then candidates
    else if Listed(candidates, links[0].url) then CollectLinks(candidates, links[1..], s, budget)
    else CollectLinks(candidates + [Candidate(links[0].url, s, |candidates| + 1)], links[1..], s, budget)
  }

  function Collect(shares: seq<seq<Link>>, upTo: nat, budget: int): seq<Candidate>
    requires upTo <= |shares|
  {
    if upTo == 0 then []
    else CollectLinks(Collect(shares, upTo - 1, budget), shares[upTo - 1], upTo - 1, budget)
  }

  lemma BlockedOffersNothing(sources: seq<Source>, s: nat)
    requires s < |sources| && sources[s].page.None?
    ensures Shares(sources)[s] == []
  {}

  /** One source's turn; `seen` keeps the URLs listed so far. */
  method CollectFrom(before: seq<Candidate>, seenBefore: set<string>, links: seq<Link>, s: nat, budget: int)
    returns (candidates: seq<Candidate>, seen: set<string>)
    requires forall u :: u in seenBefore <==> Listed(before, u)
    ensures candidates == CollectLinks(before, links, s, budget)
    ensures forall u :: u in seen <==> Listed(candidates, u)
  {
    candidates, seen := before, seenBefore;
    for i := 0 to |links|
      invariant CollectLinks(candidates, links[i..], s, budget) == CollectLinks(before, links, s, budget)
      invariant forall u :: u in seen <==> Listed(candidates, u)
    {
      if |candidates| >= budget { break; }
      assert links[i..][1..] == links[i + 1..];
      if links[i].url in seen { continue; }
      seen := seen + {links[i].url};
      ListedSnoc(candidates, Candidate(links[i].url, s, |candidates| + 1));
      candidates := candidates + [Candidate(links[i].url, s, |candidates| + 1)];
    }
  }

  method DiscoverCandidates(sources: seq<Source>, budget: int) returns (candidates: seq<Candidate>)
    ensures candidates == Collect(Shares(sources), |sources|, budget)
  {
    candidates := [];
    var seen: set<string> := {};
    ghost var shares := Shares(sources);
    for s := 0 to |sources|
      invariant candidates == Collect(shares, s, budget)
      invariant forall u :: u in seen <==> Listed(candidates, u)
    {
      if sources[s].page.None? {
        BlockedOffersNothing(sources, s);
        continue;
      }
      var found := DiscoverCandidateLinks(sources[s], sources[s].page.value);
      var links := Take(found, sources[s].maxCandidates);
      assert shares[s] == links;
      candidates, seen := CollectFrom(candidates, seen, links, s, budget);
    }
  }

  lemma ListedSnoc(candidates: seq<Candidate>, c: Candidate)
    ensures forall u :: Listed(candidates + [c], u) <==> Listed(candidates, u) || u == c.url
  {
    var after := candidates + [c];
    assert after[|candidates|] == c;
    assert forall i :: 0 <= i < |candidates| ==> after[i] == candidates[i];
  }

  // ----- the same candidates, described at once ----------------------------------------------

  /** Everything offered, source after source. */
  function AllOffered(shares: seq<seq<Link>>, upTo: nat): seq<(Link, nat)>
    requires upTo <= |shares|
  {
    if upTo == 0 then [] else AllOffered(shares, upTo - 1) + Tagged(shares[upTo - 1], upTo - 1)
  }

  function Tagged(links: seq<Link>, s: nat): seq<(Link, nat)> {
    if links == [] then [] else [(links[0], s)] + Tagged(links[1..], s)
  }

  /** First occurrences by URL, ranked from 1. */
  function Firsts(offers: seq<(Link, nat)>): seq<Candidate> {
    if offers == [] then []
    else
      var before := Firsts(offers[..|offers| - 1]);
      var (link, s) := offers[|offers| - 1];
      if Listed(before, link.url) then before else before + [Candidate(link.url, s, |before| + 1)]
  }

  lemma {:induction false} FirstsGrow(a: seq<(Link, nat)>, b: seq<(Link, nat)>)
    ensures Firsts(a) <= Firsts(a + b)
  {
    if b == [] {
      assert a + b == a;
    } else {
      FirstsGrow(a, b[..|b| - 1]);
      assert (a + b)[..|a + b| - 1] == a + b[..|b| - 1];
    }
  }

  lemma FirstsSnoc(offers: seq<(Link, nat)>, link: Link, s: nat)
    ensures var before, after := Firsts(offers), Firsts(offers + [(link, s)]);
            && (Listed(before, link.url) ==> after == before)
            && (!Listed(before, link.url) ==> after == before + [Candidate(link.url, s, |before| + 1)])
  {
    assert (offers + [(link, s)])[..|offers|] == offers;
  }

  /** Past the budget nothing more is taken, neither by the loop nor by the description. */
  lemma FullStaysFull(offers: seq<(Link, nat)>, more: seq<(Link, nat)>, budget: nat)
    requires |Firsts(offers)| >= budget
    ensures Take(Firsts(offers + more), budget) == Take(Firsts(offers), budget)
  {
    FirstsGrow(offers, more);
  }

  lemma TaggedCons(offers: seq<(Link, nat)>, links: seq<Link>, s: nat)
    requires links != []
    ensures offers + Tagged(links, s) == (offers + [(links[0], s)]) + Tagged(links[1..], s)
  {}

  lemma {:induction false} CollectLinksIsFirsts(offers: seq<(Link, nat)>, links: seq<Link>, s: nat, budget: nat)
    requires |Firsts(offers)| < budget
    ensures CollectLinks(Firsts(offers), links, s, budget) == Take(Firsts(offers + Tagged(links, s)), budget)
    decreases |links|
  {
    if links == [] {
      assert offers + [] == offers;
    } else {
      var next := offers + [(links[0], s)];
      FirstsSnoc(offers, links[0], s);
      TaggedCons(offers, links, s);
      if |Firsts(next)| < budget {
        CollectLinksIsFirsts(next, links[1..], s, budget);
      } else {
        CollectStops(Firsts(next), links[1..], s, budget);
        FullStaysFull(next, Tagged(links[1..], s), budget);
      }
    }
  }

  lemma CollectStops(candidates: seq<Candidate>, links: seq<Link>, s: nat, budget: int)
    requires |candidates| >= budget
    ensures CollectLinks(candidates, links, s, budget) == candidates
  {}

  lemma CollectSourceIsFirsts(offers: seq<(Link, nat)>, links: seq<Link>, s: nat, budget: int)
    ensures CollectLinks(Take(Firsts(offers), Max(0, budget)), links, s, budget)
         == Take(Firsts(offers + Tagged(links, s)), Max(0, budget))
  {
    if |Firsts(offers)| < budget {
      CollectLinksIsFirsts(offers, links, s, budget);
    } else {
      CollectStops(Take(Firsts(offers), Max(0, budget)), links, s, budget);
      FullStaysFull(offers, Tagged(links, s), Max(0, budget));
    }
  }

  /** The nested loops with their early exit collect what the plain description says: the first
      `budget` first occurrences of everything offered. */
  lemma {:induction false} CollectIsFirsts(shares: seq<seq<Link>>, upTo: nat, budget: int)
    requires upTo <= |shares|
    ensures Collect(shares, upTo, budget) == Take(Firsts(AllOffered(shares, upTo)), Max(0, budget))
  {
    if upTo > 0 {
      CollectIsFirsts(shares, upTo - 1, budget);
      CollectSourceIsFirsts(AllOffered(shares, upTo - 1), shares[upTo - 1], upTo - 1, budget);
    }
  }

  function FromSource(candidates: seq<Candidate>, s: nat): nat {
    if candidates == [] then 0
    else FromSource(candidates[..|candidates| - 1], s) + if candidates[|candidates| - 1].source == s then 1 else 0
  }

  ghost predicate WellFormed(sources: seq<Source>, candidates: seq<Candidate>) {
    && (forall i :: 0 <= i < |candidates| ==> candidates[i].rank == i + 1)
    && (forall i, j :: 0 <= i < j < |candidates| ==> candidates[i].url != candidates[j].url)
    && (forall i :: 0 <= i < |candidates| ==>
          candidates[i].source < |sources| && sources[candidates[i].source].allowedOrigin <= candidates[i].url)
  }

  /** How one step of the inner loop, and so the whole of it, changes a well-formed list. */
  lemma CollectLinksWellFormed(
    sources: seq<Source>, candidates: seq<Candidate>, links: seq<Link>, s: nat, budget: int)
    requires WellFormed(sources, candidates) && s < |sources|
    requires forall l :: l in links ==> sources[s].allowedOrigin <= l.url
    ensures var after := CollectLinks(candidates, links, s, budget);
            && WellFormed(sources, after)
            && |after| <= Max(|candidates|, budget)
            && (forall t :: t != s ==> FromSource(after, t) == FromSource(candidates, t))
            && FromSource(after, s) <= FromSource(candidates, s) + |links|
    decreases |links|
  {
    if links != [] && |candidates| < budget {
      assert links[0] in links;
      if Listed(candidates, links[0].url) {
        CollectLinksWellFormed(sources, candidates, links[1..], s, budget);
      } else {
        var next := candidates + [Candidate(links[0].url, s, |candidates| + 1)];
        assert next[..|candidates|] == candidates;
        CollectLinksWellFormed(sources, next, links[1..], s, budget);
      }
    }
  }

  /** Nothing can come from a source before its turn. */
  ghost predicate OnlyBefore(candidates: seq<Candidate>, upTo: nat) {
    forall i :: 0 <= i < |candidates| ==> candidates[i].source < upTo
  }

  lemma {:induction false} NoneFromLater(candidates: seq<Candidate>, s: nat)
    requires OnlyBefore(candidates, s)
    ensures FromSource(candidates, s) == 0
  {
    if candidates != [] { NoneFromLater(candidates[..|candidates| - 1], s); }
  }

  lemma {:induction false} CollectLinksTags(candidates: seq<Candidate>, links: seq<Link>, s: nat, budget: int)
    requires OnlyBefore(candidates, s + 1)
    ensures OnlyBefore(CollectLinks(candidates, links, s, budget), s + 1)
    decreases |links|
  {
    if links != [] && |candidates| < budget {
      if Listed(candidates, links[0].url) {
        CollectLinksTags(candidates, links[1..], s, budget);
      } else {
        CollectLinksTags(candidates + [Candidate(links[0].url, s, |candidates| + 1)], links[1..], s, budget);
      }
    }
  }

  lemma OfferedFromOrigin(sources: seq<Source>, s: nat)
    requires s < |sources|
    ensures |Offered(sources, s)| <= sources[s].maxCandidates
    ensures forall l :: l in Offered(sources, s) ==> sources[s].allowedOrigin <= l.url
  {
    if sources[s].page.Some? { DiscoveredLinks(sources[s]); }
  }

  ghost predicate WithinLimits(sources: seq<Source>, candidates: seq<Candidate>, upTo: nat)
    requires upTo <= |sources|
  {
    forall s :: 0 <= s < upTo ==> FromSource(candidates, s) <= sources[s].maxCandidates
  }

  lemma {:induction false} CollectWellFormed(sources: seq<Source>, upTo: nat, budget: int)
    requires upTo <= |sources|
    ensures var candidates := Collect(Shares(sources), upTo, budget);
            && WellFormed(sources, candidates) && |candidates| <= Max(0, budget)
            && OnlyBefore(candidates, upTo) && WithinLimits(sources, candidates, upTo)
  {
    if upTo > 0 {
      var s := upTo - 1;
      CollectWellFormed(sources, s, budget);
      OfferedFromOrigin(sources, s);
      SourceAdded(sources, Collect(Shares(sources), s, budget), Offered(sources, s), s, budget);
    }
  }

  lemma SourceAdded(sources: seq<Source>, before: seq<Candidate>, links: seq<Link>, s: nat, budget: int)
    requires s < |sources| && |links| <= sources[s].maxCandidates
    requires forall l :: l in links ==> sources[s].allowedOrigin <= l.url
    requires WellFormed(sources, before) && OnlyBefore(before, s) && WithinLimits(sources, before, s)
    ensures var after := CollectLinks(before, links, s, budget);
            && WellFormed(sources, after) && |after| <= Max(|before|, budget)
            && OnlyBefore(after, s + 1) && WithinLimits(sources, after, s + 1)
  {
    CollectLinksWellFormed(sources, before, links, s, budget);
    NoneFromLater(before, s);
    CollectLinksTags(before, links, s, budget);
  }

  /** Across all sources: the budget and each source's own limit are kept, URLs are globally distinct,
      ranks run from 1 in order, and every URL begins with the allowed origin of the source it came from. */
  lemma DiscoveryInvariants(sources: seq<Source>, budget: int)
    ensures var candidates := Collect(Shares(sources), |sources|, budget);
            && |candidates| <= Max(0, budget)
            && WellFormed(sources, candidates)
            && WithinLimits(sources, candidates, |sources|)
            && candidates == Take(Firsts(AllOffered(Shares(sources), |sources|)), Max(0, budget))
  {
    CollectWellFormed(sources, |sources|, budget);
    CollectIsFirsts(Shares(sources), |sources|, budget);
  }
}
