# VeraCrawl core: a verified model

This project models the parts of VeraCrawl that have loops, state or arithmetic behind them, and
proves what they promise over every input, every graph or every run. `dafny verify dfyconfig.toml`
checks everything.

- **Deep crawl** (`DeepCrawl`, `CrawlTheorems`, `TwinSites`): a FIFO worklist over a possibly cyclic link graph
  with a page budget, a depth bound, a skip policy and canonical-URL suppression. The imperative loop
  refines a step function; conservation, duplicate suppression, breadth-first completeness and
  shortest depths hold for every site. The theorems quantify over how URLs are read.
- **Generated sites** (`GeneratedSite`, `GeneratedCrawl`, `GeneratedCoverage`, `CrawlReport`, `Urls`):
  the synthetic sites the benchmark builds, for every page count, depth bound and origin. The whole
  crawl is given in closed form, and a site is covered if and only if a stated condition holds.
  `Urls` models `urlparse` far enough to show that origins are read as the sites intend.
- **Prompt redaction** (`PromptRedaction`): the depth-capped walk over a cyclic object graph with a
  shared `seen` set, and the three defences of `render`.
- **Canonical URLs and fingerprints** (`Canonicalization`, `FormCodec`, `Fingerprints`,
  `SemanticParser`): URL normalization over the form codec, simhash, bottom-k sketches, and the
  stack machine that reads start, data and end events.
- **Artifact stores** (`ArtifactStores`, `Utf8`): the two-dictionary store over a byte port answers
  every sequence of operations as the in-memory store does.
- **Agents** (`ToolGateway`, `RunController`, `CredentialLifecycle`): quotas and audit log, bounded
  recovery, exactly-once cleanup.
- **Discovery and offers** (`ProductDiscovery`, `CandidateOrigins`, `OfferRanking`, `DeliveryOrder`,
  `OfferPipeline`), **metrics** (`QualityMetrics`,
  `RepairAccounting`, `GeneratedRuns`).

Objects whose methods update fields are classes here, loops are loops, and each such method is proved
equal to a specification function about which the theorems are stated. Exceptions are `None`, a
failure constructor or a flag. `Sorting` models Python's stable `sorted` and is shared, as is `Basics`.

## Where the code and its documentation, or its promise, part

- `canonicalize_url` is not idempotent on every URL, for two reasons. `quote` encodes the percent sign
  again, so `https://host/a b` changes twice (`Canonicalization.BlankIsRequoted`). And a host loses its
  brackets (crawler_optimization.py:290-295), so `https://[::1]/` becomes `https://::1/`, which is refused
  (`Canonicalization.LoopbackAddressIsRefused`, `TwoColonsAreRefused`). `IdempotentExactlyWhen` is the
  exact condition for both together. Sections 2.3 and 6.2.2.1 of RFC 3986 say which characters never
  need encoding, and section 3.2.2 that the brackets belong to the host.
- The crawl is breadth-first complete, for all seeds and budgets, if and only if any two admissible
  pages that share a canonical URL lead to the same admissible canonical URLs, that one aside
  (`CrawlTheorems.CompleteExactlyWhen`); `TwinSites.MissedBehindATwin` is an input that fails.
- A generated site whose `allowed_origin` is not in the form `_origin` produces or names a private host
  is never covered: its own seed is skipped (`GeneratedCoverage.CoveredExactlyWhen`). A trailing slash
  is such a case (`GeneratedCoverage.TrailingSlashIsNeverCovered`).
- A comment in `run_controller.py` expects a last decision of ABANDON; the code records whatever
  `decide` returns (`RunController.LastDecisionMayMoveOn`).
- The text of `render` says that the walk does not descend into arbitrary objects; the code does, and
  the model follows the code.
- The depth cap refuses some contexts without any credential (`PromptRedaction.DeepContextIsRefused`),
  but only ones with at least twelve containers or objects (`PromptRedaction.SmallGraphsAreExact`), and
  without sharing exactly those with a walk of twelve edges (`PromptRedaction.UnsharedIsExact`). With
  sharing it depends on the order of elements (`PromptRedaction.OrderDecides`).
- `__exit__` has no guard of its own: the callback runs once per exit call, so only the `with`
  statement makes that once (`CredentialLifecycle.AnyCallSequence`).
- Zero days to deliver sort as unknown, so neither the delivery view (offer_projection.py:91-101) nor the
  final ranking (product_discovery.py:666-676) need list offers by their days, and the ranking can cut the
  faster of two. `DeliveryOrder.DeliveryInOrderExactlyWhen` and `DeliveryOrder.RankingInOrderExactlyWhen`
  say when they are in order.
- The prefix test of discovery is not an origin test (`CandidateOrigins.OtherHostIsListed`).

## Model

| member | source | states |
|---|---|---|
| `DeepCrawl.PagesByUrl` | src/veracrawl/benchmarks/deep_crawl.py:126 | the page table: every listed URL is in it, under a page of that URL from the site |
| `DeepCrawl.LaterPageStays` | src/veracrawl/benchmarks/deep_crawl.py:126 | of two pages with one URL the later one is the one found |
| `DeepCrawl.RunSite` | src/veracrawl/benchmarks/deep_crawl.py:119-225 | the worklist loop with its early exit computes the run of the step function from the seeds: decisions, observed pages, stop reason and remaining count; it terminates on cyclic graphs |
| `DeepCrawl.StepDecreases` | src/veracrawl/benchmarks/deep_crawl.py:136-215 | every turn uses up an unseen canonical URL or leaves them alone and shortens the frontier, which is why the loop ends on any link graph |
| `DeepCrawl.EnqueueLinks` | src/veracrawl/benchmarks/deep_crawl.py:214-215 | the links of an observed page join the end of the queue in page order, one level deeper and tagged with the page |
| `CrawlTheorems.Conservation` | src/veracrawl/benchmarks/deep_crawl.py:129-225 | decided entries followed by waiting ones are, entry by entry, the seeds followed by the links of the observed pages; so seeds + links = decisions + remaining, and the observed pages are those of the keep decisions |
| `CrawlTheorems.BudgetAndDuplicates` | src/veracrawl/benchmarks/deep_crawl.py:136-141 | no canonical URL is observed twice, at most max(0, max_pages) pages are observed, and MAX_PAGES_REACHED is reported exactly when entries wait |
| `CrawlTheorems.DecisionsFollowPolicy` | src/veracrawl/benchmarks/deep_crawl.py:144-205 | every recorded decision carries the action and reason that the skip policy and the decisions before it prescribe |
| `CrawlTheorems.ReachedIsKept` | src/veracrawl/benchmarks/deep_crawl.py:129-225 | breadth-first core: once all entries of a depth are decided, every canonical URL at the end of an admissible walk of that length was kept, no deeper than the walk, when twins lead alike |
| `CrawlTheorems.CompleteExactlyWhen` | src/veracrawl/benchmarks/deep_crawl.py:129-225 | for all seeds and budgets everything at the end of an admissible walk is kept by the time its depth has been decided on, if and only if of two admissible pages with one canonical URL each leads to the same admissible canonical URLs, that one aside |
| `CrawlTheorems.SeedTwinIsMissed` | src/veracrawl/benchmarks/deep_crawl.py:164-182 | any pair of pages that violates the condition makes a crawl, seeded with the two and with budget to spare, that decides on the first level through and misses a canonical URL one link away |
| `CrawlTheorems.NeighbourIsKept` | src/veracrawl/benchmarks/deep_crawl.py:164-182 | an admissible link target of a page is kept one level after the canonical URL of the page, even when another page of that canonical URL was crawled in its place |
| `CrawlTheorems.ShortestDepth` | src/veracrawl/benchmarks/deep_crawl.py:136-215 | each keep or prioritize decision carries the length of the shortest admissible walk to its canonical URL, budget or not, under the same condition on twins |
| `CrawlTheorems.Completeness` | src/veracrawl/benchmarks/deep_crawl.py:129-225 | under that condition a crawl that exhausts its frontier keeps exactly the canonical URLs that an admissible walk within the depth bound ends at |
| `CrawlTheorems.ObservedAreReachable` | src/veracrawl/benchmarks/deep_crawl.py:129-225 | with distinct canonical URLs, the pages observed by an exhausted crawl are exactly those reachable from the seeds through admissible pages |
| `CrawlTheorems.NearerThanTheFrontier` | src/veracrawl/benchmarks/deep_crawl.py:138-141 | a crawl stopped by its budget has kept everything strictly nearer than the head of its frontier |
| `TwinSites.MissedBehindATwin` | src/veracrawl/benchmarks/deep_crawl.py:164-182 | a concrete site under the URL rules of the program on which the condition fails: a page one link away is reachable and admissible, and the exhausted crawl has not observed it |
| `CrawlTheorems.StepInv` | src/veracrawl/benchmarks/deep_crawl.py:136-215 | one turn keeps the invariant: queue conserved, depths sorted and spanning one level, every entry at the end of an admissible walk, every decision justified, seen URLs = kept ones |
| `CrawlTheorems.InvCloses` | src/veracrawl/benchmarks/deep_crawl.py:214-215 | seeds are queued at depth 0, what a kept page links to is queued one level deeper, and every kept decision is about an admissible page |
| `CrawlTheorems.InvDecides` | src/veracrawl/benchmarks/deep_crawl.py:143-205 | every admissible page queued within a depth that has been decided through has been kept by then |
| `GeneratedSite.ExpandSiteSpec` | src/veracrawl/benchmarks/deep_crawl.py:618-729 | the append loop builds the page list given by the slugs of the site; a site with its own pages is left alone |
| `GeneratedSite.AppendDetails` | src/veracrawl/benchmarks/deep_crawl.py:678-689 | the loop appends the detail pages 1 to n in order |
| `GeneratedSite.UrlInjective` | src/veracrawl/benchmarks/deep_crawl.py:621-631 | different pages of a generated site have different URLs, for every id, origin and page count |
| `GeneratedCrawl.ExpansionQueues` | src/veracrawl/benchmarks/deep_crawl.py:642-675 | the links of the k-th page are exactly the entries that the closed-form queue holds after it |
| `GeneratedCrawl.Advance` | src/veracrawl/benchmarks/deep_crawl.py:136-215 | one turn of the engine takes the k-th listed state to the next, for every page count and depth bound |
| `GeneratedCrawl.CrawlIsListed` | src/veracrawl/benchmarks/deep_crawl.py:119-225 | the whole crawl of a generated site, decision by decision, for every page count, depth bound and origin its policy can read |
| `GeneratedCoverage.StandardRulesReadOrigins` | src/veracrawl/benchmarks/deep_crawl.py:843-859 | `_origin` and `_is_private_network_url` read a path under an origin as that origin and host; an origin is its own and never ends in a slash; offsite.invalid is public and 127.0.0.1 private |
| `GeneratedCoverage.NamedHostsAreUsable` | src/veracrawl/benchmarks/deep_crawl.py:843-859 | every http or https origin of a host of lower-case letters, digits, dots and hyphens, not localhost and not starting with a digit, is usable under the URL tests of the program |
| `GeneratedCoverage.UsableOriginRealizes` | src/veracrawl/benchmarks/deep_crawl.py:228-244 | under a usable origin every on-site URL passes the origin and private-network tests and is found in the page table, and the two foreign links are not |
| `GeneratedCoverage.EndToEnd` | src/veracrawl/benchmarks/deep_crawl.py:618-729 | for every page count from 10, depth bound from 4 and usable origin, the crawl ends FRONTIER_EXHAUSTED, observes exactly the required pages, one per kept entry, then skips four: duplicate, robots, foreign, private |
| `GeneratedCoverage.CoveredExactlyWhen` | src/veracrawl/benchmarks/deep_crawl.py:423-433 | coverage equality holds if and only if the origin is usable and the depth bound is at least 4, or is 3 with ten pages |
| `GeneratedCoverage.TrailingSlashIsNeverCovered` | src/veracrawl/benchmarks/deep_crawl.py:621-627 | under the URL rules of the program a generated site whose allowed origin ends in a slash is never covered |
| `Urls.OriginOfParts` | src/veracrawl/benchmarks/deep_crawl.py:843-859 | origin and private-network test of scheme://netloc + path depend on scheme and netloc only |
| `Urls.PartsOfOrigin` | src/veracrawl/benchmarks/deep_crawl.py:843-847 | a non-empty origin is a clean scheme and network location of the URL |
| `CrawlReport.RunCorpus` | src/veracrawl/benchmarks/deep_crawl.py:86-99 | the loop over sites concatenates the crawls of the expanded sites in order |
| `CrawlReport.IdsApart` | src/veracrawl/benchmarks/deep_crawl.py:745 | page ids of sites with different ids differ, because no slug holds a colon |
| `CrawlReport.RequiredTotal` | src/veracrawl/benchmarks/deep_crawl.py:423-428 | the required pages of generated sites with distinct ids number the sum of their page counts |
| `CrawlReport.CorpusIsCovered` | src/veracrawl/benchmarks/deep_crawl.py:423-433 | the corpus holds every required page if and only if the crawl of each site holds its own: no site makes up for another |
| `CrawlReport.CorpusVerdict` | src/veracrawl/benchmarks/deep_crawl.py:553-594 | a corpus of generated sites with distinct ids passes if and only if every origin is usable, every depth bound is deep enough and both minimums of the manifest are met; otherwise the failure is one of the two counts, and which one is stated |
| `PromptRedaction.ContextWalk.Contains` | src/veracrawl/agents/prompt_redaction.py:69-153 | the recursive walk with its shared mutable `seen` set answers and expands as the pure scan does |
| `PromptRedaction.ContextWalk.AnyContains` | src/veracrawl/agents/prompt_redaction.py:115-117 | the short-circuiting loop over elements answers and expands as the pure scan of the list does |
| `PromptRedaction.ContextWalk.EntriesContain` | src/veracrawl/agents/prompt_redaction.py:103-114 | dictionary entries are walked key before value, stopping at the first hit |
| `PromptRedaction.ContextWalk.SlotsContain` | src/veracrawl/agents/prompt_redaction.py:143-153 | slots are walked in order, raising ones skipped |
| `PromptRedaction.ScanCompletes` | src/veracrawl/agents/prompt_redaction.py:98-153 | a scan that does not trip leaves every object it expanded with settled children, although it prunes objects still on the stack |
| `PromptRedaction.FalseIsSafe` | src/veracrawl/agents/prompt_redaction.py:69-153 | False from a top-level call means no credential is reachable by walked edges at any depth, on any heap graph |
| `PromptRedaction.TrueIsExplained` | src/veracrawl/agents/prompt_redaction.py:94-102 | True means a reachable credential or a walk of twelve edges through twelve different objects; where there is no such walk the answer is exact |
| `PromptRedaction.SmallGraphsAreExact` | src/veracrawl/agents/prompt_redaction.py:66-153 | any graph with fewer than twelve expandable objects, cyclic or not, is answered exactly |
| `PromptRedaction.SelfContainingListIsSafe` | src/veracrawl/agents/prompt_redaction.py:98-102 | a list that contains itself is answered False |
| `PromptRedaction.ExpandedOnce` | src/veracrawl/agents/prompt_redaction.py:100-124 | no object is expanded twice in a top-level call |
| `PromptRedaction.DeepContextIsRefused` | src/veracrawl/agents/prompt_redaction.py:66 | a concrete credential-free context that is refused: the cap fails closed |
| `PromptRedaction.UnsharedIsExact` | src/veracrawl/agents/prompt_redaction.py:94-153 | where no container or object is held in two places, cycles allowed, the walk trips if and only if a credential is reachable at any depth or twelve edges lead through twelve different objects |
| `PromptRedaction.OrderDecides` | src/veracrawl/agents/prompt_redaction.py:98-124 | where one is held in two places the same context can be passed or refused by the order of a list with two elements |
| `PromptRedaction.RedactedPromptContext.constructor` | src/veracrawl/agents/prompt_redaction.py:246-256 | keyword values override the context and the merged context holds the keys of both |
| `PromptRedaction.RedactedPromptContext.Render` | src/veracrawl/agents/prompt_redaction.py:295-304 | the three defences in order give exactly the specified outcome |
| `PromptRedaction.RenderedIsSafe` | src/veracrawl/agents/prompt_redaction.py:295-304 | a rendered prompt has no credential reachable from its context, no field that came out as one, and no redaction marker in its text |
| `PromptRedaction.FormatterCheckIsBackup` | src/veracrawl/agents/prompt_redaction.py:156-186 | where fields lead only where the walk goes, the check in the formatter never fires, so a refusal after the walk is a marker in the text |
| `Canonicalization.FilterPairs` | src/veracrawl/benchmarks/crawler_optimization.py:297-304 | the loop splits the parsed pairs into the kept ones, keys in lower case, and the removed keys |
| `Canonicalization.QueryOrderAndTracking` | src/veracrawl/benchmarks/crawler_optimization.py:297-305 | reordering the fields of a query and adding fields that contribute nothing leaves the canonical query alone |
| `Canonicalization.TrackingIsIgnorable` | src/veracrawl/benchmarks/crawler_optimization.py:97-112 | every form-encoded tracking parameter, blank or not, contributes nothing |
| `Canonicalization.TrackingOnlyIsNoQuery` | src/veracrawl/benchmarks/crawler_optimization.py:297-305 | a query of tracking parameters only has the canonical form of no query |
| `Canonicalization.CanonicalIgnoresOrderAndTracking` | src/veracrawl/benchmarks/crawler_optimization.py:284-322 | two absolute URLs that differ in field order and tracking parameters only have the same canonical form, one of them possibly without a query |
| `Canonicalization.QueryIsFixed` | src/veracrawl/benchmarks/crawler_optimization.py:299-305 | the canonical query is a fixed point of parsing, filtering, sorting and encoding |
| `Canonicalization.NetlocIsFixed` | src/veracrawl/benchmarks/crawler_optimization.py:290-295 | the canonical network location reads back as the same host and port and is canonical |
| `Canonicalization.ComposeSplits` | src/veracrawl/benchmarks/crawler_optimization.py:289 | an absolute URL comes apart into the parts it was composed of |
| `Canonicalization.PartsSettle` | src/veracrawl/benchmarks/crawler_optimization.py:289-306 | canonicalizing the parts of a canonical form keeps scheme, host, port and query and quotes the path once more |
| `Canonicalization.SecondPass` | src/veracrawl/benchmarks/crawler_optimization.py:284-306 | the second pass over a whole URL keeps scheme, network location and query; the path is quoted again |
| `Canonicalization.IdempotentExactlyWhen` | src/veracrawl/benchmarks/crawler_optimization.py:290-296 | for plain and bracketed hosts together: the second pass returns the same text if and only if the path uses only unreserved characters and "/:@" and the host holds no colon, or one whose tail would be printed as the port it is read as; it raises if and only if the port of the canonical form cannot be read |
| `Canonicalization.TwoColonsAreRefused` | src/veracrawl/benchmarks/crawler_optimization.py:290-295 | whatever the path and query, the canonical form of a URL whose host holds two colons, as IPv6 addresses do, cannot be canonicalized |
| `Canonicalization.LoopbackAddressIsRefused` | src/veracrawl/benchmarks/crawler_optimization.py:290-295 | a concrete input: https://[::1]/ becomes https://::1/, on which the second pass raises |
| `Canonicalization.OneColonCanStay` | src/veracrawl/benchmarks/crawler_optimization.py:290-295 | a concrete input whose host holds a colon and whose canonical form stays: https://[v1.a:81]/ becomes https://v1.a:81/ |
| `Canonicalization.BlankIsRequoted` | src/veracrawl/benchmarks/crawler_optimization.py:296 | a concrete family on which idempotence fails: https://host/a b for every plain host |
| `FormCodec.ComponentRoundTrip` | src/veracrawl/benchmarks/crawler_optimization.py:299-305 | a name or value, any Unicode text, survives quote_plus followed by unquote |
| `FormCodec.QueryRoundTrip` | src/veracrawl/benchmarks/crawler_optimization.py:299-305 | parse_qsl undoes urlencode on pairs with non-blank values |
| `Fingerprints.AddDigest` | src/veracrawl/benchmarks/crawler_optimization.py:357-358 | one digest moves each counter of the in-place vector by plus or minus one |
| `Fingerprints.ContentSimhash` | src/veracrawl/benchmarks/crawler_optimization.py:353-363 | the two loops set bit i exactly when at least as many tokens have bit i as lack it, and print the value |
| `Fingerprints.SimhashPermutes` | src/veracrawl/benchmarks/crawler_optimization.py:353-363 | texts with the same tokens in whatever order have the same simhash, the only number with the majority bits |
| `Fingerprints.PrintedSimhash` | src/veracrawl/benchmarks/crawler_optimization.py:363 | the hexadecimal form decodes to the value and has sixteen digits below 2^64 |
| `Fingerprints.GramTokens` | src/veracrawl/benchmarks/crawler_optimization.py:367-371 | each gram joins its window of tokens, and a text shorter than the window is one gram |
| `Fingerprints.MinhashIgnoresGramOrder` | src/veracrawl/benchmarks/crawler_optimization.py:366-373 | texts with the same grams in whatever order have the same minhash |
| `Fingerprints.SketchIsSmallest` | src/veracrawl/benchmarks/crawler_optimization.py:372-373 | the sketch is sorted, has min(count, grams) hashes, and nothing left out is below anything kept |
| `Fingerprints.SketchesMerge` | src/veracrawl/benchmarks/crawler_optimization.py:372-373 | the bottom k of two lists together is the bottom k of their two bottom-k sketches |
| `Fingerprints.BottomKPermutes` | src/veracrawl/benchmarks/crawler_optimization.py:372-373 | the sketch does not depend on the order of the grams |
| `SemanticParser.SemanticHtmlParser.HandleStartTag` | src/veracrawl/benchmarks/crawler_optimization.py:527-533 | a start tag numbers a node, pushes it, and lists it when semantic |
| `SemanticParser.SemanticHtmlParser.HandleData` | src/veracrawl/benchmarks/crawler_optimization.py:535-551 | text updates the innermost node on the stack and every candidate with its index |
| `SemanticParser.SemanticHtmlParser.HandleEndTag` | src/veracrawl/benchmarks/crawler_optimization.py:553-555 | an end tag pops the stack if it can |
| `SemanticParser.ParserFollowsHistory` | src/veracrawl/benchmarks/crawler_optimization.py:520-555 | after any events the stack holds the open nodes and the list the semantic ones, each with its attributes and the space-join of the stripped text received while it was innermost |
| `SemanticParser.StackAndCandidatesAgree` | src/veracrawl/benchmarks/crawler_optimization.py:535-551 | candidate indices strictly increase up to the node count, and an entry on the stack equals the candidate with its index |
| `SemanticParser.PruningShrinks` | src/veracrawl/benchmarks/crawler_optimization.py:392-409 | the original node count is the number of start tags, and the retained count is at most that and at most twelve |
| `ArtifactStores.InMemoryArtifactStore.WriteArtifact` | src/veracrawl/artifact_lifecycle/runtime.py:19-42 | write updates both dictionaries as the specification step does, or raises on text without a UTF-8 form |
| `ArtifactStores.InMemoryArtifactStore.ReadArtifact` | src/veracrawl/artifact_lifecycle/runtime.py:44-45 | read returns the stored text or nothing and changes nothing |
| `ArtifactStores.InMemoryArtifactStore.GetArtifactRef` | src/veracrawl/artifact_lifecycle/runtime.py:47-48 | get_ref returns the stored ref or nothing |
| `ArtifactStores.InMemoryArtifactStore.ListArtifactRefs` | src/veracrawl/artifact_lifecycle/runtime.py:50-51 | list_refs returns the refs in order of first write |
| `ArtifactStores.PersistedRuntimeArtifactStore.constructor` | src/veracrawl/artifact_lifecycle/persisted_runtime_artifact_store.py:47-55 | a new store is empty over a port that may already hold bytes |
| `ArtifactStores.PersistedRuntimeArtifactStore.WriteArtifact` | src/veracrawl/artifact_lifecycle/persisted_runtime_artifact_store.py:57-84 | write stores the bytes under a name the port chooses and updates both dictionaries |
| `ArtifactStores.PersistedRuntimeArtifactStore.ReadArtifact` | src/veracrawl/artifact_lifecycle/persisted_runtime_artifact_store.py:86-90 | read returns the decoded bytes; on a valid store it never fails to decode |
| `ArtifactStores.PersistedRuntimeArtifactStore.GetArtifactRef` | src/veracrawl/artifact_lifecycle/persisted_runtime_artifact_store.py:92-93 | get_ref returns the stored ref or nothing |
| `ArtifactStores.PersistedRuntimeArtifactStore.ListArtifactRefs` | src/veracrawl/artifact_lifecycle/persisted_runtime_artifact_store.py:95-96 | list_refs returns the refs in order of first write |
| `ArtifactStores.SameDomains` | src/veracrawl/artifact_lifecycle/persisted_runtime_artifact_store.py:49-55 | the two dictionaries always have the same keys |
| `ArtifactStores.StepSimulates` | src/veracrawl/artifact_lifecycle/persisted_runtime_artifact_store.py:57-96 | one operation keeps the two stores in step and gets the same answer from both |
| `ArtifactStores.RunSimulates` | src/veracrawl/artifact_lifecycle/persisted_runtime_artifact_store.py:57-96 | from any two stores in step, every sequence of operations gets the same answers |
| `ArtifactStores.StoresAgree` | src/veracrawl/artifact_lifecycle/runtime.py:19-51 | from empty stores, over every operation sequence and every naming by the port, the byte-backed store answers as the in-memory one does, retention tag aside |
| `Utf8.DecodeEncode` | src/veracrawl/artifact_lifecycle/persisted_runtime_artifact_store.py:68-90 | UTF-8 decoding undoes encoding (section 3 of RFC 3629), strictly and with replacement |
| `Utf8.EncodeDecode` | src/veracrawl/artifact_lifecycle/persisted_runtime_artifact_store.py:90 | encoding undoes decoding, so no two byte strings decode alike |
| `Utf8.EncodesIffScalar` | src/veracrawl/artifact_lifecycle/runtime.py:35 | text has a UTF-8 form exactly when it holds no surrogate |
| `ToolGateway.InMemoryToolGateway.constructor` | src/veracrawl/agents/tool_gateway.py:94-97 | a new gateway has no quota entries and an empty audit |
| `ToolGateway.InMemoryToolGateway.Execute` | src/veracrawl/agents/tool_gateway.py:116-167 | one call is one step of the policy machine and appends one audit row with its verdict; without a policy it commits and changes nothing |
| `ToolGateway.InMemoryToolGateway.Reject` | src/veracrawl/agents/tool_gateway.py:169-192 | a rejection appends its row and touches no quota |
| `ToolGateway.ActorIndependence` | src/veracrawl/agents/tool_gateway.py:116-192 | under any interleaving, the quota, audit rows and verdicts of an actor are those of its own commands on a fresh gateway |
| `ToolGateway.RejectionsDoNotCount` | src/veracrawl/agents/tool_gateway.py:121-192 | replaying only the committed commands commits all of them and ends in the same quotas up to zero entries |
| `ToolGateway.OneRowPerCommand` | src/veracrawl/agents/tool_gateway.py:150-192 | the audit has one row per command, in order |
| `ToolGateway.AuditIsGroundTruth` | src/veracrawl/agents/tool_gateway.py:121-167 | the quota of each actor is the fold over its committed audit rows |
| `ToolGateway.QuotasStayWithinCaps` | src/veracrawl/agents/tool_gateway.py:121-167 | an actor with a commit is within both caps whatever they are; without one it has spent nothing |
| `RunController.AgentRunController.RunUrl` | src/veracrawl/agents/run_controller.py:124-135 | a run starts a fresh log and ends as the specification says |
| `RunController.AgentRunController.RunWithRecovery` | src/veracrawl/agents/run_controller.py:137-189 | one attempt: gate check carrying the last signature, extraction, then success or failure handling |
| `RunController.AgentRunController.HandleFailure` | src/veracrawl/agents/run_controller.py:191-257 | the decision is appended to the trace; the run moves on only for a DIFFERENT_URL below the bound |
| `RunController.RecoveryIsBounded` | src/veracrawl/agents/run_controller.py:137-257 | for all ports: an outcome after k recoveries took k+1 attempts and gate checks, k at most the bound; check i+1 carries signature i; all decisions but a final one moved on; the final URL ends the chain of alternatives |
| `RunController.LastDecisionMayMoveOn` | src/veracrawl/agents/run_controller.py:191-257 | the decision that ends a run at the bound need not be ABANDON: whatever the port says is recorded |
| `CredentialLifecycle.AgentCredentialLifecycle.constructor` | src/veracrawl/agents/credential_lifecycle.py:112-145 | a new lifecycle is fresh, without scopes or uses |
| `CredentialLifecycle.AgentCredentialLifecycle.EnterContext` | src/veracrawl/agents/credential_lifecycle.py:206-255 | entry resolves the scopes in request order and commits state only after every step has succeeded |
| `CredentialLifecycle.AgentCredentialLifecycle.ExitContext` | src/veracrawl/agents/credential_lifecycle.py:257-321 | exit runs the callback and reports its failure only when the body did not raise |
| `CredentialLifecycle.AgentCredentialLifecycle.RecordCredentialUse` | src/veracrawl/agents/credential_lifecycle.py:158-180 | a use counts exactly while entered |
| `CredentialLifecycle.AgentCredentialLifecycle.ScopeFor` | src/veracrawl/agents/credential_lifecycle.py:182-190 | scope_for looks the ref up and raises on a missing one |
| `CredentialLifecycle.ScopesOfEntry` | src/veracrawl/agents/credential_lifecycle.py:206-255 | after a successful entry the scopes are the answers of the registry in request order, and scope_for finds exactly the requested refs, each with the answer to its last occurrence |
| `CredentialLifecycle.ScopesAreKept` | src/veracrawl/agents/credential_lifecycle.py:158-321 | whatever calls come before and after the successful entry, scopes and scope_for give what the registry of that entry answered |
| `CredentialLifecycle.NothingBeforeEntry` | src/veracrawl/agents/credential_lifecycle.py:182-190 | until an entry succeeds there are no scopes and scope_for finds nothing |
| `CredentialLifecycle.ExactlyOnceCleanup` | src/veracrawl/agents/credential_lifecycle.py:206-321 | in every `with` run the callback runs once if entry returned and never otherwise, on the scopes in request order; the count is the accepted uses; its failure is raised exactly when the body did not raise |
| `CredentialLifecycle.AnyCallSequence` | src/veracrawl/agents/credential_lifecycle.py:158-321 | under any call sequence: entered at most once, counts only while entered, one callback per exit call, so once only under `with` |
| `ProductDiscovery.DiscoverCandidateLinks` | src/veracrawl/benchmarks/product_discovery.py:428-469 | the filter and dedupe loop followed by the sort gives the first admitted link of each URL in key order |
| `ProductDiscovery.DiscoveredLinks` | src/veracrawl/benchmarks/product_discovery.py:428-469 | the links of a page are sorted by the key, distinct, begin with the allowed origin of the source, never are the search page, and no acceptable URL is left out; the order is the only one possible |
| `ProductDiscovery.CollectFrom` | src/veracrawl/benchmarks/product_discovery.py:243-259 | the inner loop with its early exit takes the unlisted links of one source until the budget is spent |
| `ProductDiscovery.DiscoverCandidates` | src/veracrawl/benchmarks/product_discovery.py:168-259 | the nested loops collect what the recursive description says |
| `ProductDiscovery.CollectIsFirsts` | src/veracrawl/benchmarks/product_discovery.py:168-259 | that is the first `budget` first occurrences by URL of everything the sources offer |
| `ProductDiscovery.DiscoveryInvariants` | src/veracrawl/benchmarks/product_discovery.py:142-259 | across all sources: the global budget and the limit of each source are kept, URLs are distinct, ranks run from 1, and each URL has the allowed origin of its own source as prefix |
| `CandidateOrigins.CandidateOnOrigin` | src/veracrawl/benchmarks/product_discovery.py:436-437 | a candidate is on the origin of its source if and only if a path, query, fragment or nothing follows the prefix |
| `CandidateOrigins.OtherHostIsListed` | src/veracrawl/benchmarks/product_discovery.py:142-259 | a concrete source whose candidates include https://host.evil/x although its allowed origin is https://host, for every plain host |
| `Urls.PrefixIsOriginExactly` | src/veracrawl/benchmarks/deep_crawl.py:843-847 | a URL that begins with an origin has it as its own origin if and only if a delimiter or nothing follows |
| `OfferRanking.PartitionIsComplete` | src/veracrawl/benchmarks/offer_projection.py:43-44 | sortable and blocked records together are the records |
| `OfferRanking.ProjectionViews` | src/veracrawl/benchmarks/offer_projection.py:43-108 | each of the four ref lists is a stable ordering of all sortable offers by its own key, and the verdict says which kinds of record there are |
| `OfferRanking.AmountsInOrder` | src/veracrawl/benchmarks/offer_projection.py:69-90 | in the price and total views amounts never fall and offers without one come last |
| `DeliveryOrder.DeliveryInOrderExactlyWhen` | src/veracrawl/benchmarks/offer_projection.py:91-101 | the delivery view lists offers by least and greatest days if and only if no zero-day offer is overtaken by one of the same least days: one of fewer days than the sentinel, or unknown and of an earlier site or record |
| `DeliveryOrder.TomorrowBeforeToday` | src/veracrawl/benchmarks/offer_projection.py:91-101 | concrete offers out of order: one that takes zero days is listed after one that may take a day |
| `DeliveryOrder.UnknownAfterToday` | src/veracrawl/benchmarks/offer_projection.py:91-101 | concrete offers in order although a zero-day one shares its least days with an unknown one: the earlier site decides |
| `DeliveryOrder.RankingInOrderExactlyWhen` | src/veracrawl/benchmarks/product_discovery.py:658-676 | the final ranking lists the offers by price, least and greatest days and cuts none that belongs before a listed one, if and only if no listed offer overtakes a sortable zero-day offer of the same price and least days |
| `DeliveryOrder.TodayIsCut` | src/veracrawl/benchmarks/product_discovery.py:666-676 | concrete offers at one price of which a ranking of length one keeps the slower |
| `DeliveryOrder.TopInOrderExactlyWhen` | src/veracrawl/benchmarks/offer_projection.py:91-101 | the same condition for the first n offers of any view that sorts by `days or 999_999` |
| `DeliveryOrder.ViewPlaces` | src/veracrawl/benchmarks/offer_projection.py:69-108 | a view lists one offer before another exactly when its key is smaller, or equal with the earlier record |
| `OfferPipeline.AvailabilityViewIsBestFirst` | src/veracrawl/benchmarks/offer_projection.py:102-108 | the availability view lists site results from in stock to unavailable, unstated last |
| `OfferPipeline.TotalViewIsCheapestFirst` | src/veracrawl/benchmarks/offer_projection.py:80-90 | the total view lists site results by price plus shipping, those last whose two amounts are missing or in different currencies |
| `OfferPipeline.DeliveryViewIsSoonestFirst` | src/veracrawl/benchmarks/offer_projection.py:91-101 | the delivery view lists site results by least days, unstated ones last up to the sentinel |
| `OfferPipeline.DiscoveredOffersAreDistinct` | src/veracrawl/benchmarks/product_discovery.py:243-259 | offers made from the candidates of discovery have distinct URLs |
| `OfferPipeline.DiscoveredRankingIgnoresOrder` | src/veracrawl/benchmarks/product_discovery.py:658-676 | so their ranking does not depend on record order, given only that ids tell records apart |
| `OfferRanking.RankingIsDirect` | src/veracrawl/benchmarks/product_discovery.py:658-676 | the detour through the price view is invisible: the ranking is the sortable offers in key order, cut to the limit |
| `OfferRanking.RankingIgnoresOrder` | src/veracrawl/benchmarks/product_discovery.py:658-676 | with distinct ids and offer URLs the ranking does not depend on record order |
| `OfferRanking.RankingIsBest` | src/veracrawl/benchmarks/product_discovery.py:658-676 | the ranking is the best `limit` sortable offers: none left out has a smaller key |
| `GeneratedRuns.RunsMultiplicity` | src/veracrawl/benchmarks/quality_metrics.py:92-108 | the nested generator loops emit each kind exactly as often as asked |
| `QualityMetrics.GenerateRecords` | src/veracrawl/benchmarks/quality_metrics.py:92-108 | the nested loops emit the runs of the seven classes, numbered from 1 |
| `QualityMetrics.GeneratedCounts` | src/veracrawl/benchmarks/quality_metrics.py:92-108 | every class is counted exactly as often as the manifest asks, a negative count as zero |
| `QualityMetrics.F1Identities` | src/veracrawl/benchmarks/quality_metrics.py:202-239 | F1 = safe(2tp, 2tp+fp+fn), lies between precision and recall, is zero exactly without true positives; recall + false negative rate = 1 |
| `QualityMetrics.RatesAreRates` | src/veracrawl/benchmarks/quality_metrics.py:202-239 | all rates lie in [0, 1], and abstain + unsupported + needs-review rates are at most 1 |
| `QualityMetrics.BuildSliceMetrics` | src/veracrawl/benchmarks/quality_metrics.py:166-184 | the loop gives the metric of each slice in order, that of the corpus first |
| `QualityMetrics.SliceWithinCorpus` | src/veracrawl/benchmarks/quality_metrics.py:187-199 | a slice never counts more of a class than the corpus |
| `QualityMetrics.SliceSizes` | src/veracrawl/benchmarks/quality_metrics.py:120-124 | slice sizes are fixed by the record count alone |
| `QualityMetrics.F1GateIsBackup` | src/veracrawl/benchmarks/quality_metrics.py:297-326 | the F1 gate is silent unless its threshold exceeds one of the two before it |
| `QualityMetrics.CriticalAtLeastCorpus` | src/veracrawl/benchmarks/quality_metrics.py:248-253 | critical precision of generated records is never below corpus precision, because criticality goes by index and true positives come first |
| `QualityMetrics.CriticalGateIsBackup` | src/veracrawl/benchmarks/quality_metrics.py:297-326 | so the critical gate is silent unless it asks for more than the precision gate |
| `RepairAccounting.GenerateCases` | src/veracrawl/benchmarks/repair_success.py:107-130 | the nested loops emit the runs of the six outcomes as numbered cases |
| `RepairAccounting.GeneratedOutcomes` | src/veracrawl/benchmarks/repair_success.py:107-164 | each outcome is attempted exactly as often as the manifest asks |
| `RepairAccounting.Conservation` | src/veracrawl/benchmarks/repair_success.py:260-303 | whatever outcomes are seeded: repairable = repaired + escalated + failed-safe + failed-unsafe (repaired includes rolled back), no bypass, every attempt finds its case, success + unresolved-critical rate at most 1 |
| `RepairAccounting.CriticalUnresolvedExactly` | src/veracrawl/benchmarks/repair_success.py:448-458 | the number of critical unresolved cases in closed form, from where the two failing runs start and end |
| `RepairAccounting.GatesOnGenerated` | src/veracrawl/benchmarks/repair_success.py:332-357 | the bypass gate never speaks on seeded outcomes, and the unresolved gate never when the outer thresholds cover the whole |
| `RepairAccounting.P95IsOrderStatistic` | src/veracrawl/benchmarks/repair_success.py:469-474 | the percentile is one of the values and the only number with rank max(1, floor(0.95 n)): that many values at or below it, fewer strictly below |
| `RepairAccounting.P95OfGenerated` | src/veracrawl/benchmarks/repair_success.py:202 | the reported latency percentile of generated attempts in closed form |
| `Sorting.SortCorrect` | src/veracrawl/benchmarks/offer_projection.py:72-78 | `sorted`: an ordered permutation of the input |
| `Sorting.SortStable` | src/veracrawl/benchmarks/offer_projection.py:72-78 | `sorted` keeps the order of ties |
| `Sorting.SortPermutationInvariant` | src/veracrawl/benchmarks/product_discovery.py:666-676 | sorting under a strict key does not depend on the order of the input |

## Left out

- DeepCrawl: the store and event calls of each decision, ref strings and report fields, which do not influence control flow; the depth recorded with an observation is the depth in the page spec, not the decision's, and is not compared with it.
- GeneratedCoverage.EndToEnd: an allowed origin equal to https://offsite.invalid is covered too, with the foreign link skipped as an unknown page instead of an off-origin one.
- CrawlReport.CorpusVerdict: the direct failure scenarios and the check for missing replay refs, which never fires because the ref is always built.
- Urls: `urlsplit` errors (unbalanced brackets, characters that NFKC turns into delimiters) and lower-casing outside ASCII.
- Canonicalization: a host that itself holds an opening bracket, which `urlsplit` admits only in a malformed location; text with lone surrogates, since a Dafny string has none.
- Canonicalization.SecondPass: what the second pass makes of a host with one colon that changes; `PartsSettle` and `SecondPass` are about hosts without one.
- PromptRedaction: attribute hooks, inherited slots and raising descriptors, which become the children of a heap node; field-name parsing and format specs, which become a parameter; `template_ref` checks.
- Fingerprints: SHA-256 and the token regular expression are parameters; nothing is claimed about collisions.
- SemanticParser: the HTML tokenizer; the model starts from start, data and end events. Selector, role and zone tables are left out as single lookups.
- ArtifactStores: pydantic validation of refs; a port that fails or returns other bytes than it was given.
- ToolGateway: timestamps, event ids and detail texts of audit rows; the recommendation wrappers.
- RunController: `SystemExit`-like exceptions; an exception of a kind the controller does not catch ends the run.
- CredentialLifecycle: a fallback error log that itself raises, and `BaseException` from the callback.
- ProductDiscovery: policy, robots, HTTP and model calls, which decide only whether a source yields a page; the regular expressions behind the link filters, which are parameters.
- OfferRanking: evidence refs and diagnostics of a record. Amounts are reals, so NaN and rounding do not occur.
- QualityMetrics: rates are exact reals rather than floats.
- RepairAccounting: token and cost totals; cost rounding.
- `score_frontier_url`, scenario tables, adapter gates, command-line modules and live aggregators: single formulas and lookups that would only add easy members.
