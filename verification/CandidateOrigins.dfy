/** What the prefix test of product discovery says about the origin of a candidate, and what it does not. */
module CandidateOrigins {
  import opened Basics
  import opened Sorting
  import opened Urls
  import opened ProductDiscovery

  /** The origin is written the way origins are written. */
  predicate CleanOrigin(origin: string) { origin != "" && Origin(origin) == origin }

  /** A listed candidate lies on the origin of its source exactly when the URL goes on with a path,
      query or fragment, or not at all. */
  lemma CandidateOnOrigin(sources: seq<Source>, budget: int, i: nat)
    requires i < |Collect(Shares(sources), |sources|, budget)|
    ensures var c := Collect(Shares(sources), |sources|, budget)[i];
            && c.source < |sources|
            && var origin := sources[c.source].allowedOrigin;
            && origin <= c.url
            && (CleanOrigin(origin) ==> (Origin(c.url) == origin <==> StartsTail(Scrub(c.url[|origin|..]))))
  {
    DiscoveryInvariants(sources, budget);
    var c := Collect(Shares(sources), |sources|, budget)[i];
    PrefixedOnOrigin(sources[c.source].allowedOrigin, c.url);
  }

  lemma PrefixedOnOrigin(origin: string, url: string)
    requires origin <= url
    ensures CleanOrigin(origin) ==> (Origin(url) == origin <==> StartsTail(Scrub(url[|origin|..])))
  {
    var tail := url[|origin|..];
    Rejoined(origin, url, tail);
    if CleanOrigin(origin) { OnOriginExactly(origin, url, tail); }
  }

  lemma Rejoined(front: string, s: string, tail: string)
    requires front <= s && tail == s[|front|..]
    ensures s == front + tail
  {}

  lemma OnOriginExactly(origin: string, url: string, tail: string)
    requires CleanOrigin(origin) && url == origin + tail
    ensures Origin(url) == origin <==> StartsTail(Scrub(tail))
  {
    PrefixIsOriginExactly(url, origin, tail);
  }

  /** The prefix test admits other hosts: `https://host.evil/x` begins with `https://host`. */
  lemma PrefixAdmitsOtherHosts(host: string, origin: string, url: string)
    requires PlainHost(host) && origin == "https" + "://" + host && url == origin + ".evil/x"
    ensures origin <= url && CleanOrigin(origin) && Origin(url) != origin
  {
    HttpsOrigin(host, origin);
    DotIsNoDelimiter(".evil/x");
    OnOriginExactly(origin, url, ".evil/x");
  }

  /** A source that wants every link, whose search page holds the one link `url`. */
  function WideSource(origin: string, url: string): Source {
    Source(origin, "", 1, LinkRules(link => Some(link), (link, text) => true, (text, link) => 0),
           Some([RawLink(url, "", Anchor)]))
  }

  lemma OneLinkIsDiscovered(source: Source, raw: RawLink, link: Link)
    requires source.page == Some([raw]) && Admit(source, raw) == Some(link)
    ensures Discovered(source) == [link]
  {
    assert [raw][..0] == [] && Admitted(source, []) == [];
    assert Admitted(source, [raw]) == [] + [link] == [link];
    OneLinkIsSorted(link);
  }

  lemma OneLinkIsSorted(link: Link)
    ensures Sort([link], LinkLeq) == [link]
  {
    assert [link][1..] == [] && Sort([], LinkLeq) == [];
    assert Insert(link, [], LinkLeq) == [link];
  }

  lemma OneLinkIsCollected(link: Link, budget: int)
    requires budget >= 1
    ensures CollectLinks([], [link], 0, budget) == [Candidate(link.url, 0, 1)]
  {
    var one := [Candidate(link.url, 0, 1)];
    assert [link][1..] == [] && [] + one == one;
    assert CollectLinks(one, [], 0, budget) == one;
  }

  lemma OneLinkIsListed(source: Source, raw: RawLink, link: Link, budget: int)
    requires source.page == Some([raw]) && source.maxCandidates >= 1 && budget >= 1
    requires Admit(source, raw) == Some(link)
    ensures Collect(Shares([source]), 1, budget) == [Candidate(link.url, 0, 1)]
  {
    OneLinkIsDiscovered(source, raw, link);
    OneLinkIsCollected(link, budget);
    assert Shares([source])[0] == [link];
    assert Collect(Shares([source]), 0, budget) == [];
  }

  lemma WideSourceLists(origin: string, url: string, budget: int)
    requires origin <= url && url != "" && budget >= 1
    ensures Collect(Shares([WideSource(origin, url)]), 1, budget) == [Candidate(url, 0, 1)]
  {
    OneLinkIsListed(WideSource(origin, url), RawLink(url, "", Anchor), Link(url, "", 0, Anchor), budget);
  }

  /** So discovery lists a candidate of another host. */
  lemma OtherHostIsListed(host: string, origin: string, url: string, budget: int)
    requires PlainHost(host) && origin == "https" + "://" + host && url == origin + ".evil/x" && budget >= 1
    ensures Collect(Shares([WideSource(origin, url)]), 1, budget) == [Candidate(url, 0, 1)]
    ensures CleanOrigin(origin) && Origin(url) != origin
  {
    PrefixAdmitsOtherHosts(host, origin, url);
    WideSourceLists(origin, url, budget);
  }

  lemma HttpsOrigin(host: string, origin: string)
    requires PlainHost(host) && origin == "https" + "://" + host
    ensures CleanOrigin(origin)
  {
    assert Lower("https") == "https";
    OriginOfParts(origin, origin, "https", host, "");
  }

  lemma DotIsNoDelimiter(tail: string)
    requires tail != "" && tail[0] == '.'
    ensures !StartsTail(Scrub(tail))
  {}
}
