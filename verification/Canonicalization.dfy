/** `canonicalize_url`: lower-case scheme and host, no default port, a re-quoted path, and a query
    without tracking parameters whose pairs are sorted. */
module Canonicalization {
  import opened Basics
  import opened Urls
  import opened FormCodec
  import opened Utf8
  import opened Sorting

  const PATH_SAFE: set<char> := {'/', ':', '@'}

  const TRACKING_KEYS: set<string> := {
    "fbclid", "gclid", "msclkid", "yclid", "igshid", "mc_cid", "mc_eid",
    "sessionid", "session_id", "sid", "phpsessid", "sort", "order"
  }

  const USES_NETLOC: set<string> := {
    "", "ftp", "http", "gopher", "nntp", "telnet", "imap", "wais", "file", "mms", "https", "shttp",
    "snews", "prospero", "rtsp", "rtsps", "rtspu", "rsync", "svn", "svn+ssh", "sftp", "nfs", "git",
    "git+ssh", "ws", "wss", "itms-services"
  }

  const USES_PARAMS: set<string> := {
    "", "ftp", "hdl", "prospero", "http", "https", "shttp", "rtsp", "rtsps", "rtspu", "sip", "sips", "mms",
    "sftp", "tel"
  }

  predicate IsTracking(key: string) { key in TRACKING_KEYS || "utm_" <= key }

  // ----- the query ---------------------------------------------------------------------------

  /** The pairs that stay, keys in lower case. */
  function KeptPairs(ps: seq<Pair>): seq<Pair> {
    if ps == [] then []
    else (if IsTracking(Lower(ps[0].0)) then [] else [(Lower(ps[0].0), ps[0].1)]) + KeptPairs(ps[1..])
  }

  function RemovedKeys(ps: seq<Pair>): seq<string> {
    if ps == [] then []
    else (if IsTracking(Lower(ps[0].0)) then [ps[0].0] else []) + RemovedKeys(ps[1..])
  }

  /** Python's order on pairs of strings. */
  predicate PairLeq(a: Pair, b: Pair) {
    if a.0 != b.0 then StringLeq(a.0, b.0) else StringLeq(a.1, b.1)
  }

  function CanonicalQuery(query: string): string { UrlEncode(Sort(KeptPairs(ParseQsl(query)), PairLeq)) }

  // ----- the URL -----------------------------------------------------------------------------

  /** The path without the parameters `urlparse` cuts off its last segment. */
  function WithoutParams(scheme: string, path: string): string {
    if scheme !in USES_PARAMS || ';' !in path then path
    else
      var segment := AfterLast(path, '/');
      path[..|path| - |segment|] + segment[..IndexOf(segment, ';')]
  }

  datatype Port = NoPort | Port(number: nat) | BadPort

  function ReadPort(text: string): Port {
    if text == "" then NoPort
    else if exists i :: 0 <= i < |text| && !IsDigit(text[i]) then BadPort
    else if DecValue(text) > 65535 then BadPort
    else Port(DecValue(text))
  }

  function PortOf(netloc: string): Port { ReadPort(HostPort(netloc).1) }

  function CanonicalNetloc(scheme: string, host: string, port: Port): string {
    match port
    case Port(n) =>
      if n == 0 || (scheme == "http" && n == 80) || (scheme == "https" && n == 443) then host
      else host + ":" + Dec(n)
    case _ => host
  }

  /** `urlunparse` with no parameters and no fragment. */
  function Unparse(scheme: string, netloc: string, path: string, query: string): string {
    var rooted := if path != "" && path[0] != '/' then "/" + path else path;
    var located :=
      if netloc != "" then "//" + netloc + rooted
      else if "//" <= path then "//" + path
      else if scheme != "" && scheme in USES_NETLOC && (path == "" || path[0] == '/') then "//" + path
      else path;
    (if scheme != "" then scheme + ":" + located else located) + if query != "" then "?" + query else ""
  }

  datatype Canonical = Canonical(url: string, removed: seq<string>, host: string, path: string)

  /** What the path is quoted from. */
  function QuotedFrom(u: Split): string {
    var bare := WithoutParams(u.scheme, u.path);
    if bare != "" then bare else "/"
  }

  function Host(u: Split): string { Lower(HostName(u.netloc)) }

  function SchemeOrHttps(u: Split): string { if Lower(u.scheme) != "" then Lower(u.scheme) else "https" }

  function NetlocOf(u: Split): string { CanonicalNetloc(SchemeOrHttps(u), Host(u), PortOf(u.netloc)) }

  /** The parts of the canonical form. */
  function CanonicalParts(u: Split): Split {
    Split(SchemeOrHttps(u), NetlocOf(u),
          Quote(QuotedFrom(u), PATH_SAFE), CanonicalQuery(u.query))
  }

  function UnparseParts(u: Split): string { Unparse(u.scheme, u.netloc, u.path, u.query) }

  /** `None` stands for the ValueError of a malformed port. */
  function Canonicalize(url: string): Option<Canonical> {
    var u := UrlSplit(url);
    if PortOf(u.netloc).BadPort? then None
    else Some(Canonical(UnparseParts(CanonicalParts(u)), Sort(RemovedKeys(ParseQsl(u.query)), StringLeq),
                        Host(u), CanonicalParts(u).path))
  }

  /** What the pairs from index `i` on add to the two lists built so far. */
  predicate Accounted(parsed: seq<Pair>, i: nat, params: seq<Pair>, removed: seq<string>)
    requires i <= |parsed|
  {
    params + KeptPairs(parsed[i..]) == KeptPairs(parsed) && removed + RemovedKeys(parsed[i..]) == RemovedKeys(parsed)
  }

  lemma FilterStep(parsed: seq<Pair>, i: nat, params: seq<Pair>, removed: seq<string>)
    requires i < |parsed| && Accounted(parsed, i, params, removed)
    ensures var (key, value) := parsed[i];
            if IsTracking(Lower(key)) then Accounted(parsed, i + 1, params, removed + [key])
            else Accounted(parsed, i + 1, params + [(Lower(key), value)], removed)
  {
    var (key, value) := parsed[i];
    assert parsed[i..][1..] == parsed[i + 1..];
    if IsTracking(Lower(key)) {
      Reassociate(removed, [key], RemovedKeys(parsed[i + 1..]));
    } else {
      Reassociate(params, [(Lower(key), value)], KeptPairs(parsed[i + 1..]));
    }
  }

  /** The loop over the parsed query. */
  method FilterPairs(parsed: seq<Pair>) returns (params: seq<Pair>, removed: seq<string>)
    ensures params == KeptPairs(parsed) && removed == RemovedKeys(parsed)
  {
    params, removed := [], [];
    for i := 0 to |parsed|
      invariant Accounted(parsed, i, params, removed)
    {
      var (key, value) := parsed[i];
      var keyLower := Lower(key);
      FilterStep(parsed, i, params, removed);
      if IsTracking(keyLower) {
        removed := removed + [key];
      } else {
        params := params + [(keyLower, value)];
      }
    }
  }

  // ----- order and tracking parameters do not matter ------------------------------------------

  lemma PairOrder()
    ensures TotalPreorder(PairLeq) && Antisymmetric(PairLeq)
  {
    StringOrder();
  }

  lemma KeptCons(s: seq<Pair>)
    requires s != []
    ensures KeptPairs(s) == KeptPairs([s[0]]) + KeptPairs(s[1..])
  {
    assert KeptPairs([s[0]][1..]) == [];
  }

  lemma {:induction false} KeptConcat(a: seq<Pair>, b: seq<Pair>)
    ensures KeptPairs(a + b) == KeptPairs(a) + KeptPairs(b)
  {
    if a == [] {
      assert a + b == b;
    } else {
      KeptConcat(a[1..], b);
      assert (a + b)[1..] == a[1..] + b;
      KeptCons(a);
      KeptCons(a + b);
      Reassociate(KeptPairs([a[0]]), KeptPairs(a[1..]), KeptPairs(b));
    }
  }

  /** What one field contributes to the canonical query. */
  function KeptOfField(field: string): seq<Pair> { KeptPairs(ParseField(field)) }

  function KeptOfFields(fields: seq<string>): seq<Pair> { KeptPairs(ParseFields(fields)) }

  lemma {:induction false} KeptFieldByField(fields: seq<string>)
    ensures KeptOfFields(fields) == FlatMap(KeptOfField, fields)
  {
    if fields != [] {
      KeptFieldByField(fields[1..]);
      KeptConcat(ParseField(fields[0]), ParseFields(fields[1..]));
    }
  }

  /** A query field that contributes nothing: a tracking parameter, or one `parse_qsl` drops. */
  predicate Ignorable(field: string) { KeptOfField(field) == [] }

  lemma {:induction false} IgnorableKeepsNothing(extra: seq<string>)
    requires forall f :: f in extra ==> Ignorable(f)
    ensures FlatMap(KeptOfField, extra) == []
  {
    if extra != [] {
      assert Ignorable(extra[0]);
      IgnorableKeepsNothing(extra[1..]);
    }
  }

  predicate PlainFields(fields: seq<string>) { forall f :: f in fields ==> '&' !in f }

  /** Joined fields, which may be none at all, are parsed one by one. */
  lemma ParsedFields(fields: seq<string>)
    requires PlainFields(fields)
    ensures ParseQsl(JoinAmp(fields)) == ParseFields(fields)
  {
    if fields == [] {
      assert ParseFields([""]) == ParseField("") + ParseFields([]);
    } else {
      SplitJoin(fields);
    }
  }

  /** Reordering the fields of a query and adding ignorable ones leaves the canonical query alone.
      The query may have had no fields before. */
  lemma QueryOrderAndTracking(fields: seq<string>, extra: seq<string>, shuffled: seq<string>)
    requires PlainFields(fields) && PlainFields(shuffled) && (forall f :: f in extra ==> Ignorable(f))
    requires Permutation(shuffled, fields + extra)
    ensures CanonicalQuery(JoinAmp(shuffled)) == CanonicalQuery(JoinAmp(fields))
  {
    ParsedFields(fields);
    ParsedFields(shuffled);
    FlatMapPermutes(KeptOfField, shuffled, fields + extra);
    FlatMapConcat(KeptOfField, fields, extra);
    IgnorableKeepsNothing(extra);
    KeptFieldByField(shuffled);
    KeptFieldByField(fields);
    assert KeptOfFields(fields) + [] == KeptOfFields(fields);
    PairOrder();
    SortPermutationInvariant(KeptOfFields(shuffled), KeptOfFields(fields), PairLeq);
  }

  /** A query of ignorable fields only is as good as none. */
  lemma TrackingOnlyIsNoQuery(extra: seq<string>)
    requires PlainFields(extra) && (forall f :: f in extra ==> Ignorable(f))
    ensures CanonicalQuery(JoinAmp(extra)) == CanonicalQuery("")
  {
    assert [] + extra == extra;
    QueryOrderAndTracking([], extra, extra);
  }

  lemma TrackingPairDropped(key: string, value: string)
    requires IsTracking(Lower(key))
    ensures KeptPairs([(key, value)]) == []
  {}

  /** A form-encoded tracking parameter is ignorable. */
  lemma TrackingIsIgnorable(key: string, value: string)
    requires IsTracking(Lower(key))
    ensures Ignorable(EncodePair((key, value)))
  {
    if value == "" {
      BlankFieldDropped(key, QuotePlus(key));
    } else {
      FieldRoundTrip((key, value));
      TrackingPairDropped(key, value);
    }
  }

  lemma BlankFieldDropped(key: string, name: string)
    requires name == QuotePlus(key)
    ensures ParseField(EncodePair((key, ""))) == []
  {
    QuotedHasNoDelimiter(key, name);
    var field := name + "=";
    assert EncodePair((key, "")) == field;
    assert field[|name|] == '=' && forall j :: 0 <= j < |name| ==> field[j] == name[j];
    assert IndexOf(field, '=') == |name|;
  }

  // ----- absolute URLs -----------------------------------------------------------------------

  predicate NoBreaks(s: string) { '\t' !in s && '\r' !in s && '\n' !in s && '#' !in s }

  /** The parts of an absolute http(s) URL, none of them holding another's delimiter. */
  predicate AbsoluteParts(u: Split) {
    && u.scheme in {"http", "https"} && CleanScheme(u.scheme) && CleanNetloc(u.netloc)
    && (u.path == "" || u.path[0] == '/') && '?' !in u.path
    && NoBreaks(u.path) && NoBreaks(u.query)
  }

  function TailOf(u: Split): string { u.path + if u.query != "" then "?" + u.query else "" }

  function Compose(u: Split): string { u.scheme + "://" + u.netloc + TailOf(u) }

  lemma SplitTailOf(u: Split)
    requires AbsoluteParts(u)
    ensures Scrub(TailOf(u)) == TailOf(u) && SplitTail(TailOf(u)) == (u.path, u.query) && StartsTail(TailOf(u))
  {
    var tail := TailOf(u);
    TailIsClean(u.path, u.query, tail);
    ScrubClean(tail);
    TailComesApart(u.path, u.query, tail);
  }

  lemma TailIsClean(path: string, query: string, tail: string)
    requires NoBreaks(path) && NoBreaks(query) && tail == path + (if query != "" then "?" + query else "")
    ensures NoBreaks(tail)
  {}

  lemma TailComesApart(path: string, query: string, tail: string)
    requires NoBreaks(tail) && '?' !in path && tail == path + (if query != "" then "?" + query else "")
    ensures SplitTail(tail) == (path, query)
  {
    UntilIs(tail, {'#'}, |tail|);
    assert tail[..|tail|] == tail;
    QueryAfterMark(path, query, tail);
  }

  lemma QueryAfterMark(path: string, query: string, tail: string)
    requires '?' !in path && tail == path + (if query != "" then "?" + query else "")
    ensures var i := Until(tail, {'?'}); i == |path| && tail[..i] == path
    ensures query == if |path| < |tail| then tail[|path| + 1..] else ""
  {
    if query != "" {
      assert tail[|path|] == '?' && tail[|path| + 1..] == query;
    }
    UntilIs(tail, {'?'}, |path|);
  }

  /** An absolute URL comes apart into the parts it was composed of. */
  lemma ComposeSplits(u: Split)
    requires AbsoluteParts(u)
    ensures UrlSplit(Compose(u)) == u
  {
    SplitTailOf(u);
    SplitOfParts(u.scheme, u.netloc, TailOf(u));
  }

  lemma UnparseIsCompose(u: Split)
    requires u.scheme != "" && u.netloc != "" && u.path != "" && u.path[0] == '/'
    ensures Unparse(u.scheme, u.netloc, u.path, u.query) == Compose(u)
  {
    var q := if u.query != "" then "?" + u.query else "";
    assert u.scheme + ":" + ("//" + u.netloc + u.path) + q == u.scheme + "://" + u.netloc + (u.path + q);
  }

  /** The canonical form of a URL, and whether it has one, depends on its parts only. */
  lemma CanonicalizeAt(url: string, u: Split)
    requires UrlSplit(url) == u
    ensures Canonicalize(url).None? <==> PortOf(u.netloc).BadPort?
    ensures Canonicalize(url).Some? ==> Canonicalize(url).value.url == UnparseParts(CanonicalParts(u))
  {}

  /** Two absolute URLs that differ only in the order of their query fields and in ignorable ones
      have the same canonical form. */
  lemma CanonicalIgnoresOrderAndTracking(
    u: Split, v: Split, fields: seq<string>, extra: seq<string>, shuffled: seq<string>)
    requires PlainFields(fields) && PlainFields(shuffled) && (forall f :: f in extra ==> Ignorable(f))
    requires Permutation(shuffled, fields + extra)
    requires AbsoluteParts(u) && u.query == JoinAmp(fields)
    requires AbsoluteParts(v) && v == u.(query := JoinAmp(shuffled))
    ensures Canonicalize(Compose(u)).None? <==> Canonicalize(Compose(v)).None?
    ensures Canonicalize(Compose(u)).Some? ==> Canonicalize(Compose(u)).value.url == Canonicalize(Compose(v)).value.url
  {
    ComposeSplits(u);
    ComposeSplits(v);
    QueryOrderAndTracking(fields, extra, shuffled);
    PartsIgnoreQueryText(u, v);
    CanonicalizeFrom(Compose(u), u, CanonicalParts(u));
    CanonicalizeFrom(Compose(v), v, CanonicalParts(u));
  }

  lemma PartsIgnoreQueryText(u: Split, v: Split)
    requires v == u.(query := v.query) && CanonicalQuery(u.query) == CanonicalQuery(v.query)
    ensures CanonicalParts(u) == CanonicalParts(v)
  {}

  lemma CanonicalizeFrom(url: string, u: Split, parts: Split)
    requires UrlSplit(url) == u && CanonicalParts(u) == parts
    ensures Canonicalize(url).None? <==> PortOf(u.netloc).BadPort?
    ensures Canonicalize(url).Some? ==> Canonicalize(url).value.url == UnparseParts(parts)
  {
    CanonicalizeAt(url, u);
  }

  // ----- the second pass ---------------------------------------------------------------------

  ghost predicate SettledPairs(ps: seq<Pair>) {
    forall p :: p in ps ==> p.1 != "" && Lower(p.0) == p.0 && !IsTracking(p.0)
  }

  lemma {:induction false} KeptAreSettled(ps: seq<Pair>)
    requires forall p :: p in ps ==> p.1 != ""
    ensures SettledPairs(KeptPairs(ps))
  {
    if ps != [] {
      assert ps[0] in ps;
      LowerTwice(ps[0].0);
      KeptAreSettled(ps[1..]);
    }
  }

  lemma {:induction false} SettledAreKept(ps: seq<Pair>)
    requires SettledPairs(ps)
    ensures KeptPairs(ps) == ps
  {
    if ps != [] {
      assert ps[0] in ps;
      SettledAreKept(ps[1..]);
      assert ps == [ps[0]] + ps[1..];
    }
  }

  /** The canonical query is a fixed point of the form codec. */
  lemma QueryIsFixed(query: string)
    ensures CanonicalQuery(CanonicalQuery(query)) == CanonicalQuery(query)
  {
    var kept := KeptPairs(ParseQsl(query));
    ParsedValuesNonBlank(SplitAmp(query));
    KeptAreSettled(ParseQsl(query));
    PairOrder();
    SortCorrect(kept, PairLeq);
    var sorted := Sort(kept, PairLeq);
    PermutationMembers(sorted, kept);
    QueryRoundTrip(sorted);
    SettledAreKept(sorted);
    SortOfSorted(sorted, PairLeq);
  }

  lemma QueryIsClean(query: string)
    ensures NoBreaks(CanonicalQuery(query))
  {
    QueryAlphabet(Sort(KeptPairs(ParseQsl(query)), PairLeq));
    var q := CanonicalQuery(query);
    assert forall i :: 0 <= i < |q| ==> q[i] !in {'\t', '\r', '\n', '#'};
  }

  predicate PathSafe(c: char) { IsUnreserved(c) || c in PATH_SAFE }

  predicate AllSafe(s: string) { forall i :: 0 <= i < |s| ==> PathSafe(s[i]) }

  lemma QuoteSafeChar(c: char)
    requires PathSafe(c)
    ensures QuoteBytes(CharBytes(c), PATH_SAFE) == [c]
  {
    assert CharBytes(c) == [c as byte];
  }

  /** A character that is not safe in a path leaves a percent sign behind. */
  lemma QuoteUnsafeChar(c: char)
    requires !PathSafe(c)
    ensures '%' in QuoteBytes(CharBytes(c), PATH_SAFE)
  {
    var b := CharBytes(c)[0];
    assert b >= 0x80 || b as char == c;
    assert QuoteByte(b, PATH_SAFE)[0] == '%';
    assert QuoteBytes(CharBytes(c), PATH_SAFE)[0] == '%';
  }

  lemma {:induction false} QuoteSafe(s: string)
    ensures AllSafe(s) ==> Quote(s, PATH_SAFE) == s
    ensures !AllSafe(s) ==> '%' in Quote(s, PATH_SAFE)
  {
    if s != "" {
      QuoteSafe(s[1..]);
      if PathSafe(s[0]) { QuoteSafeChar(s[0]); } else { QuoteUnsafeChar(s[0]); }
      assert s == [s[0]] + s[1..];
      assert AllSafe(s) <==> PathSafe(s[0]) && AllSafe(s[1..]);
    }
  }

  lemma QuotedPathIsClean(s: string)
    requires s != "" && s[0] == '/'
    ensures var p := Quote(s, PATH_SAFE);
            p != "" && p[0] == '/' && '?' !in p && ';' !in p && NoBreaks(p)
  {
    QuotedAlphabet(s, PATH_SAFE);
    QuoteSafeChar('/');
    var p := Quote(s, PATH_SAFE);
    assert forall i :: 0 <= i < |p| ==> p[i] !in {'\t', '\r', '\n', '#', '?', ';'};
  }

  lemma HostWithPort(host: string, n: nat)
    requires PlainHost(host)
    ensures HostPort(host + ":" + Dec(n)) == (host, Dec(n)) && CleanNetloc(host + ":" + Dec(n))
  {
    var netloc := host + ":" + Dec(n);
    PortedText(host, n, netloc);
    UntilIs(netloc, {':'}, |host|);
    SplitsAtColon(netloc, |host|);
    assert netloc[..|host|] == host && netloc[|host| + 1..] == Dec(n);
  }

  lemma PortedText(host: string, n: nat, netloc: string)
    requires PlainHost(host) && netloc == host + ":" + Dec(n)
    ensures CleanNetloc(netloc) && '@' !in netloc && '[' !in netloc
  {
    PortTextIsLower(n);
    assert forall i :: 0 <= i < |netloc| ==>
      netloc[i] == if i < |host| then host[i] else (":" + Dec(n))[i - |host|];
  }

  lemma HostNameOf(netloc: string, host: string)
    requires PlainHost(host) && HostPort(netloc).0 == host
    ensures HostName(netloc) == host
  {
    LowerUpToZone(host);
  }

  lemma PlainNetlocIsFixed(scheme: string, host: string)
    requires PlainHost(host)
    ensures Lower(HostName(host)) == host && PortOf(host) == NoPort
  {
    HostOfPlain(host);
  }

  lemma ReadPortOfDec(n: nat)
    requires n <= 65535
    ensures ReadPort(Dec(n)) == Port(n)
  {
    DecRoundTrip(n);
    assert forall i :: 0 <= i < |Dec(n)| ==> IsDigit(Dec(n)[i]);
  }

  lemma PortedNetlocIsFixed(netloc: string, host: string, n: nat)
    requires PlainHost(host) && n <= 65535 && netloc == host + ":" + Dec(n)
    ensures CleanNetloc(netloc) && Lower(HostName(netloc)) == host && PortOf(netloc) == Port(n)
  {
    HostWithPort(host, n);
    HostNameOf(netloc, host);
    ReadPortOfDec(n);
  }

  /** The canonical network location reads back as the same host and port, and is canonical. */
  lemma NetlocIsFixed(scheme: string, host: string, port: Port, netloc: string)
    requires PlainHost(host) && (port.Port? ==> port.number <= 65535) && !port.BadPort?
    requires netloc == CanonicalNetloc(scheme, host, port)
    ensures CleanNetloc(netloc) && Lower(HostName(netloc)) == host && !PortOf(netloc).BadPort?
    ensures CanonicalNetloc(scheme, host, PortOf(netloc)) == netloc
  {
    if port.Port? && netloc == host + ":" + Dec(port.number) {
      PortedNetlocIsFixed(netloc, host, port.number);
    } else {
      PlainNetlocIsFixed(scheme, host);
    }
  }

  predicate RootedOrEmpty(path: string) { path == "" || path[0] == '/' }

  lemma BarePathRooted(scheme: string, path: string)
    requires RootedOrEmpty(path)
    ensures RootedOrEmpty(WithoutParams(scheme, path))
  {
    var segment := AfterLast(path, '/');
    assert path != "" ==> '/' in path && |segment| != |path|;
  }

  /** An absolute URL whose host is plain and whose port, if any, is well formed. */
  predicate PlainUrl(u: Split) {
    AbsoluteParts(u) && PlainHost(Host(u)) && !PortOf(u.netloc).BadPort?
  }

  lemma CanonicalPathIsClean(u: Split)
    requires RootedOrEmpty(u.path)
    ensures var p := CanonicalParts(u).path;
            p != "" && p[0] == '/' && '?' !in p && ';' !in p && NoBreaks(p)
  {
    BarePathRooted(u.scheme, u.path);
    QuotedPathIsClean(QuotedFrom(u));
  }

  lemma SchemeStays(u: Split)
    requires AbsoluteParts(u)
    ensures SchemeOrHttps(u) == u.scheme
  {
    assert Lower(u.scheme) == u.scheme;
  }

  lemma NetlocSettles(u: Split, c: Split, host: string, port: Port)
    requires PlainHost(host) && host == Host(u) && port == PortOf(u.netloc) && !port.BadPort?
    requires SchemeOrHttps(u) == u.scheme == c.scheme == SchemeOrHttps(c)
    requires c.netloc == CanonicalNetloc(u.scheme, host, port)
    ensures CleanNetloc(c.netloc) && Host(c) == host && !PortOf(c.netloc).BadPort?
    ensures NetlocOf(c) == c.netloc
  {
    PortIsSmall(u.netloc);
    NetlocIsFixed(u.scheme, host, port, c.netloc);
    assert Host(c) == Lower(HostName(c.netloc));
  }

  lemma PortIsSmall(netloc: string)
    ensures PortOf(netloc).Port? ==> PortOf(netloc).number <= 65535
  {}

  /** The canonical form of a plain URL is plain, and canonicalizing its parts again keeps the
      scheme, the host, the port and the query, and quotes the path once more. */
  lemma PartsSettle(u: Split)
    requires PlainUrl(u)
    ensures var c := CanonicalParts(u);
            && PlainUrl(c) && c.path != "" && WithoutParams(c.scheme, c.path) == c.path
            && CanonicalParts(c) == c.(path := Quote(c.path, PATH_SAFE))
  {
    CanonicalPathIsClean(u);
    SchemeStays(u);
    NetlocSettles(u, CanonicalParts(u), Host(u), PortOf(u.netloc));
    QueryIsClean(u.query);
    QueryIsFixed(u.query);
  }

  /** Canonicalizing a plain URL composes its canonical parts. */
  lemma CanonicalizeComposes(u: Split)
    requires PlainUrl(u)
    ensures Canonicalize(Compose(u)).Some? && Canonicalize(Compose(u)).value.url == Compose(CanonicalParts(u))
  {
    ComposeSplits(u);
    CanonicalizeAt(Compose(u), u);
    PartsSettle(u);
    CanonicalPathIsClean(u);
    UnparseIsCompose(CanonicalParts(u));
  }

  /** Second pass: scheme, host, port and query are fixed points; the path is quoted again. */
  lemma SecondPass(u: Split, once: string, twice: string)
    requires PlainUrl(u) && once == Compose(CanonicalParts(u))
    requires twice == Compose(CanonicalParts(u).(path := Quote(CanonicalParts(u).path, PATH_SAFE)))
    ensures Canonicalize(Compose(u)).Some? && Canonicalize(Compose(u)).value.url == once
    ensures Canonicalize(once).Some? && Canonicalize(once).value.url == twice
  {
    CanonicalizeComposes(u);
    PartsSettle(u);
    CanonicalizeComposes(CanonicalParts(u));
  }

  lemma Requoted(s: string)
    ensures Quote(Quote(s, PATH_SAFE), PATH_SAFE) == Quote(s, PATH_SAFE) <==> AllSafe(s)
  {
    var q := Quote(s, PATH_SAFE);
    QuoteSafe(s);
    RequotedIsLonger(q);
    assert '%' in q ==> !AllSafe(q);
  }

  lemma RequotedPath(u: Split)
    ensures Quote(CanonicalParts(u).path, PATH_SAFE) == CanonicalParts(u).path
       <==> AllSafe(WithoutParams(u.scheme, u.path))
  {
    Requoted(QuotedFrom(u));
    assert AllSafe("/") && AllSafe("");
  }

  lemma ComposeInjectiveInPath(u: Split, path: string)
    ensures Compose(u) == Compose(u.(path := path)) <==> u.path == path
  {
    var head := u.scheme + "://" + u.netloc;
    var q := if u.query != "" then "?" + u.query else "";
    assert Compose(u)[|head|..] == u.path + q;
    assert Compose(u.(path := path))[|head|..] == path + q;
    if u.path + q == path + q {
      assert |u.path| == |path|;
      assert (u.path + q)[..|path|] == u.path && (path + q)[..|path|] == path;
    }
  }

  // ----- exactly when the second pass changes nothing ------------------------------------------

  /** An absolute URL with a host, which may have been written in brackets, and a readable port. */
  predicate LocatedUrl(u: Split) {
    AbsoluteParts(u) && Host(u) != "" && '[' !in Host(u) && !PortOf(u.netloc).BadPort?
  }

  /** Text that can stand as a network location; a colon in it comes from a bracketed host. */
  predicate HostText(host: string) {
    CleanNetloc(host) && Lower(host) == host && '@' !in host && '[' !in host
  }

  /** A host printed without brackets and without a port that reads, the second time, as a name and a
      port which is printed in the same way. */
  predicate ReadsAsPort(scheme: string, host: string, port: Port) {
    var k := Until(host, {':'});
    && k < |host| && CanonicalNetloc(scheme, host, port) == host
    && var again := ReadPort(host[k + 1..]);
    again.Port? && CanonicalNetloc(scheme, host[..k], again) == host
  }

  /** The second pass reads the network location `netloc` as the one it is. */
  predicate Settled(scheme: string, netloc: string) {
    !PortOf(netloc).BadPort? && CanonicalNetloc(scheme, Lower(HostName(netloc)), PortOf(netloc)) == netloc
  }

  lemma LowerKeeps(s: string, c: char)
    requires c !in s && !('a' <= c <= 'z')
    ensures c !in Lower(s)
  {}

  lemma HostIsText(u: Split)
    requires CleanNetloc(u.netloc) && Host(u) != "" && '[' !in Host(u)
    ensures HostText(Host(u))
  {
    var host := HostPort(u.netloc).0;
    HostIsPart(u.netloc, host);
    var zone := Until(host, {'%'});
    forall c | c in {'/', '?', '#', '\t', '\r', '\n', '@'} ensures c !in Host(u) {
      assert c !in host[..zone] && c !in host[zone..];
      LowerKeeps(host[..zone], c);
      LowerKeeps(HostName(u.netloc), c);
    }
    LowerTwice(HostName(u.netloc));
  }

  lemma HostIsPart(netloc: string, host: string)
    requires host == HostPort(netloc).0
    ensures '@' !in host && forall c :: c in host ==> c in netloc
  {
    var hostinfo := AfterLast(netloc, '@');
    assert forall c :: c in hostinfo ==> c in netloc;
    assert forall c :: c in host ==> c in hostinfo;
  }

  lemma SplitsAtColon(netloc: string, k: nat)
    requires '@' !in netloc && '[' !in netloc && k == Until(netloc, {':'})
    ensures HostPort(netloc) == (netloc[..k], if k < |netloc| then netloc[k + 1..] else "")
  {
    UntilIs(netloc, {'@'}, |netloc|);
    UntilIs(netloc, {'['}, |netloc|);
    assert AfterLast(netloc, '@') == netloc;
  }

  lemma LowerPart(s: string, k: nat)
    requires Lower(s) == s && k <= |s|
    ensures Lower(s[..k]) == s[..k]
  {}

  lemma NamedByHost(netloc: string, host: string)
    requires HostPort(netloc).0 == host && Lower(host) == host
    ensures HostName(netloc) == host
  {
    LowerUpToZone(host);
  }

  /** How a network location without brackets or user is read. */
  lemma ReadsUpToColon(netloc: string, k: nat)
    requires '@' !in netloc && '[' !in netloc && k == Until(netloc, {':'}) && Lower(netloc) == netloc
    ensures Lower(HostName(netloc)) == netloc[..k]
    ensures PortOf(netloc) == ReadPort(if k < |netloc| then netloc[k + 1..] else "")
  {
    SplitsAtColon(netloc, k);
    LowerPart(netloc, k);
    NamedByHost(netloc, netloc[..k]);
  }

  lemma PortTextIsLower(n: nat)
    ensures Lower(":" + Dec(n)) == ":" + Dec(n)
    ensures forall c :: c in ":" + Dec(n) ==> c == ':' || IsDigit(c)
  {
    assert forall i :: 0 <= i < |Dec(n)| ==> IsDigit(Dec(n)[i]);
  }

  /** A printed port keeps the text of a host text. */
  lemma CanonicalIsText(scheme: string, host: string, port: Port, netloc: string)
    requires HostText(host) && netloc == CanonicalNetloc(scheme, host, port)
    ensures HostText(netloc)
  {
    if port.Port? && netloc == host + ":" + Dec(port.number) {
      PortTextIsLower(port.number);
      LongerText(host, ":" + Dec(port.number), netloc);
    }
  }

  lemma LongerText(host: string, more: string, netloc: string)
    requires HostText(host) && netloc == host + more && Lower(more) == more
    requires forall c :: c in more ==> c == ':' || IsDigit(c)
    ensures HostText(netloc)
  {
    assert forall c :: c in netloc ==> c in host || c in more;
    assert forall i :: 0 <= i < |netloc| ==> netloc[i] == if i < |host| then host[i] else more[i - |host|];
  }

  lemma ColonIsNoDigit(text: string)
    requires ':' in text
    ensures ReadPort(text) == BadPort
  {
    var i :| 0 <= i < |text| && text[i] == ':';
    assert !IsDigit(text[i]);
  }

  lemma SettledAtColon(scheme: string, netloc: string, k: nat)
    requires HostText(netloc) && k == Until(netloc, {':'}) && k < |netloc|
    ensures Settled(scheme, netloc)
       <==> !ReadPort(netloc[k + 1..]).BadPort? && CanonicalNetloc(scheme, netloc[..k], ReadPort(netloc[k + 1..])) == netloc
  {
    ReadsUpToColon(netloc, k);
  }

  lemma ColonHostSettles(scheme: string, host: string, port: Port, netloc: string)
    requires HostText(host) && ':' in host && netloc == CanonicalNetloc(scheme, host, port)
    ensures Settled(scheme, netloc) <==> ReadsAsPort(scheme, host, port)
  {
    var k := Until(host, {':'});
    CanonicalIsText(scheme, host, port, netloc);
    UntilIs(netloc, {':'}, k);
    SettledAtColon(scheme, netloc, k);
    if netloc == host {
      ShorterIsOther(scheme, host, k);
    } else {
      PortedTailIsBad(host, port, netloc, k);
    }
  }

  /** Without a printed port the host cannot come out again. */
  lemma ShorterIsOther(scheme: string, host: string, k: nat)
    requires k < |host|
    ensures CanonicalNetloc(scheme, host[..k], NoPort) != host
  {}

  lemma PortedTailIsBad(host: string, port: Port, netloc: string, k: nat)
    requires k < |host| && port.Port? && netloc == host + ":" + Dec(port.number)
    ensures ReadPort(netloc[k + 1..]) == BadPort
  {
    var tail := netloc[k + 1..];
    assert netloc[|host|] == ':' && tail[|host| - k - 1] == ':';
    ColonIsNoDigit(tail);
  }

  lemma NetlocSettlesExactly(scheme: string, host: string, port: Port, netloc: string)
    requires HostText(host) && netloc == CanonicalNetloc(scheme, host, port)
    requires !port.BadPort? && (port.Port? ==> port.number <= 65535)
    ensures Settled(scheme, netloc) <==> ':' !in host || ReadsAsPort(scheme, host, port)
  {
    if ':' in host {
      ColonHostSettles(scheme, host, port, netloc);
    } else {
      NetlocIsFixed(scheme, host, port, netloc);
    }
  }

  lemma LocatedComposes(u: Split)
    requires LocatedUrl(u)
    ensures AbsoluteParts(CanonicalParts(u)) && CanonicalParts(u).scheme == u.scheme
    ensures CanonicalParts(u).netloc == CanonicalNetloc(u.scheme, Host(u), PortOf(u.netloc))
    ensures Canonicalize(Compose(u)).Some? && Canonicalize(Compose(u)).value.url == Compose(CanonicalParts(u))
  {
    SchemeStays(u);
    HostIsText(u);
    CanonicalIsText(u.scheme, Host(u), PortOf(u.netloc), CanonicalParts(u).netloc);
    CanonicalPathIsClean(u);
    QueryIsClean(u.query);
    ComposeSplits(u);
    CanonicalizeAt(Compose(u), u);
    UnparseIsCompose(CanonicalParts(u));
  }

  lemma BarePathStays(scheme: string, path: string)
    requires ';' !in path
    ensures WithoutParams(scheme, path) == path
  {}

  /** What the second pass makes of the parts of the first. */
  lemma SecondParts(u: Split, c: Split)
    requires LocatedUrl(u) && c == CanonicalParts(u)
    ensures CanonicalParts(c) == Split(c.scheme, CanonicalNetloc(c.scheme, Lower(HostName(c.netloc)), PortOf(c.netloc)),
                                       Quote(c.path, PATH_SAFE), c.query)
  {
    LocatedComposes(u);
    CanonicalPathIsClean(u);
    SchemeStays(c);
    BarePathStays(c.scheme, c.path);
    QueryIsFixed(u.query);
  }

  lemma HeadOfLocation(netloc: string, tail: string)
    requires '/' !in netloc && tail != "" && tail[0] == '/'
    ensures Until(netloc + tail, {'/'}) == |netloc|
  {
    UntilIs(netloc + tail, {'/'}, |netloc|);
  }

  /** A composed URL determines its network location and its path. */
  lemma ComposeDetermines(c: Split, netloc: string, path: string)
    requires '/' !in c.netloc && '/' !in netloc && c.path != "" && path != "" && c.path[0] == '/' && path[0] == '/'
    ensures Compose(c) == Compose(c.(netloc := netloc, path := path)) <==> c.netloc == netloc && c.path == path
  {
    var d := c.(netloc := netloc, path := path);
    var head := c.scheme + "://";
    if Compose(c) == Compose(d) {
      assert Compose(c)[|head|..] == c.netloc + TailOf(c) && Compose(d)[|head|..] == netloc + TailOf(d);
      HeadOfLocation(c.netloc, TailOf(c));
      HeadOfLocation(netloc, TailOf(d));
      assert (c.netloc + TailOf(c))[..|c.netloc|] == c.netloc && (netloc + TailOf(d))[..|netloc|] == netloc;
      ComposeInjectiveInPath(c, path);
    }
  }

  lemma UnparseAlways(u: Split)
    requires u.scheme in {"http", "https"} && u.path != "" && u.path[0] == '/'
    ensures UnparseParts(u) == Compose(u)
  {
    if u.netloc == "" {
      var q := if u.query != "" then "?" + u.query else "";
      assert u.scheme + ":" + ("//" + u.path) + q == u.scheme + "://" + "" + (u.path + q);
    } else {
      UnparseIsCompose(u);
    }
  }

  /** Canonicalizing twice changes nothing exactly when the path holds only unreserved characters and
      "/:@", so that the percent signs of the first pass are not quoted again, and the host holds no
      colon, so that it is not taken for a port once its brackets are gone. The one colon that does no
      harm is followed by a port that would be printed as it is. */
  lemma IdempotentExactlyWhen(u: Split, once: string)
    requires LocatedUrl(u) && once == Compose(CanonicalParts(u))
    ensures Canonicalize(Compose(u)).Some? && Canonicalize(Compose(u)).value.url == once
    ensures Canonicalize(once).None? <==> PortOf(CanonicalParts(u).netloc).BadPort?
    ensures Canonicalize(once).Some? && Canonicalize(once).value.url == once
       <==> AllSafe(WithoutParams(u.scheme, u.path))
            && (':' !in Host(u) || ReadsAsPort(u.scheme, Host(u), PortOf(u.netloc)))
  {
    var c := CanonicalParts(u);
    LocatedComposes(u);
    ComposeSplits(c);
    CanonicalizeAt(once, c);
    RepeatedParts(u, c);
  }

  lemma RepeatedParts(u: Split, c: Split)
    requires LocatedUrl(u) && c == CanonicalParts(u)
    ensures !PortOf(c.netloc).BadPort? && UnparseParts(CanonicalParts(c)) == Compose(c)
       <==> AllSafe(WithoutParams(u.scheme, u.path))
            && (':' !in Host(u) || ReadsAsPort(u.scheme, Host(u), PortOf(u.netloc)))
  {
    var again := CanonicalNetloc(c.scheme, Lower(HostName(c.netloc)), PortOf(c.netloc));
    LocatedComposes(u);
    SecondParts(u, c);
    HostIsText(u);
    PortIsSmall(u.netloc);
    NetlocSettlesExactly(u.scheme, Host(u), PortOf(u.netloc), c.netloc);
    CanonicalPathIsClean(u);
    QuotedPathIsClean(c.path);
    RequotedPath(u);
    AgainHasNoSlash(c, again);
    UnparseAlways(CanonicalParts(c));
    ComposeDetermines(c, again, Quote(c.path, PATH_SAFE));
  }

  lemma AgainHasNoSlash(c: Split, again: string)
    requires CleanNetloc(c.netloc)
    requires again == CanonicalNetloc(c.scheme, Lower(HostName(c.netloc)), PortOf(c.netloc))
    ensures '/' !in again
  {
    NameHasNoSlash(c.netloc);
    PortAddsNoSlash(c.scheme, Lower(HostName(c.netloc)), PortOf(c.netloc));
  }

  lemma NameHasNoSlash(netloc: string)
    requires CleanNetloc(netloc)
    ensures '/' !in Lower(HostName(netloc))
  {
    var host := HostPort(netloc).0;
    HostIsPart(netloc, host);
    var zone := Until(host, {'%'});
    LowerKeeps(host[..zone], '/');
    LowerKeeps(HostName(netloc), '/');
  }

  lemma PortAddsNoSlash(scheme: string, host: string, port: Port)
    requires '/' !in host
    ensures '/' !in CanonicalNetloc(scheme, host, port)
  {
    if port.Port? { PortTextIsLower(port.number); }
  }

  /** A host with two colons, as every IPv6 address has, is refused by the second pass. */
  lemma TwoColonsAreRefused(u: Split, once: string, i: nat, j: nat)
    requires LocatedUrl(u) && once == Compose(CanonicalParts(u))
    requires i < j < |Host(u)| && Host(u)[i] == Host(u)[j] == ':'
    ensures Canonicalize(Compose(u)).Some? && Canonicalize(Compose(u)).value.url == once
    ensures Canonicalize(once).None?
  {
    IdempotentExactlyWhen(u, once);
    HostIsText(u);
    LocatedComposes(u);
    SecondColonIsBad(u.scheme, Host(u), PortOf(u.netloc), CanonicalParts(u).netloc, i, j);
  }

  lemma SecondColonIsBad(scheme: string, host: string, port: Port, netloc: string, i: nat, j: nat)
    requires HostText(host) && netloc == CanonicalNetloc(scheme, host, port)
    requires i < j < |host| && host[i] == host[j] == ':'
    ensures PortOf(netloc).BadPort?
  {
    var k := Until(host, {':'});
    CanonicalIsText(scheme, host, port, netloc);
    UntilIs(netloc, {':'}, k);
    ReadsUpToColon(netloc, k);
    assert netloc[j] == ':' && netloc[k + 1..][j - k - 1] == ':';
    ColonIsNoDigit(netloc[k + 1..]);
  }

  lemma BracketedHost(netloc: string, inner: string)
    requires netloc == "[" + inner + "]" && HostText(inner) && ']' !in inner
    ensures CleanNetloc(netloc) && HostPort(netloc) == (inner, "")
  {
    UntilIs(netloc, {'@'}, |netloc|);
    UntilIs(netloc, {'['}, 0);
    assert netloc[1..] == inner + "]";
    UntilIs(inner + "]", {']'}, |inner|);
    assert (inner + "]")[..|inner|] == inner && (inner + "]")[|inner| + 1..] == "";
  }

  lemma BracketedReads(u: Split, inner: string)
    requires HostPort(u.netloc) == (inner, "") && Lower(inner) == inner
    ensures Host(u) == inner && PortOf(u.netloc) == NoPort
  {
    NamedByHost(u.netloc, inner);
  }

  /** A URL on a bracketed host loses the brackets in the first pass. */
  lemma BracketsAreDropped(u: Split, inner: string)
    requires u == Split("https", "[" + inner + "]", "/", "") && HostText(inner) && ']' !in inner
    ensures LocatedUrl(u) && Host(u) == inner && PortOf(u.netloc) == NoPort && CanonicalParts(u).netloc == inner
  {
    HttpsIsClean();
    BracketedHost(u.netloc, inner);
    BracketedReads(u, inner);
    LocatedComposes(u);
  }

  lemma LoopbackText(inner: string)
    requires inner == "::1"
    ensures HostText(inner) && ']' !in inner && inner[0] == inner[1] == ':'
  {
    assert Lower(inner) == inner;
  }

  lemma BracketsAreRefused(u: Split, once: string, inner: string)
    requires u == Split("https", "[" + inner + "]", "/", "") && once == Compose(CanonicalParts(u))
    requires HostText(inner) && ']' !in inner && |inner| >= 2 && inner[0] == inner[1] == ':'
    ensures Canonicalize(Compose(u)).Some? && Canonicalize(Compose(u)).value.url == once
    ensures CanonicalParts(u).netloc == inner && Canonicalize(once).None?
  {
    BracketsAreDropped(u, inner);
    TwoColonsAreRefused(u, once, 0, 1);
  }

  /** `https://[::1]/` becomes `https://::1/`, which cannot be canonicalized at all. */
  lemma LoopbackAddressIsRefused(u: Split, once: string, inner: string)
    requires u == Split("https", "[" + inner + "]", "/", "") && inner == "::1" && once == Compose(CanonicalParts(u))
    ensures Canonicalize(Compose(u)).Some? && Canonicalize(Compose(u)).value.url == once
    ensures CanonicalParts(u).netloc == inner && Canonicalize(once).None?
  {
    LoopbackText(inner);
    BracketsAreRefused(u, once, inner);
  }

  lemma RootIsSafe(scheme: string, path: string)
    requires path == "/"
    ensures AllSafe(WithoutParams(scheme, path))
  {
    BarePathStays(scheme, path);
  }

  lemma BracketsCanGo(u: Split, once: string, inner: string)
    requires u == Split("https", "[" + inner + "]", "/", "") && once == Compose(CanonicalParts(u))
    requires HostText(inner) && ']' !in inner && ReadsAsPort("https", inner, NoPort)
    ensures Canonicalize(once).Some? && Canonicalize(once).value.url == once
  {
    BracketsAreDropped(u, inner);
    RootIsSafe(u.scheme, u.path);
    IdempotentExactlyWhen(u, once);
  }

  /** One colon can do no harm: `https://[v1.a:81]/` becomes `https://v1.a:81/` and stays. */
  lemma OneColonCanStay(u: Split, once: string, inner: string)
    requires u == Split("https", "[" + inner + "]", "/", "") && inner == "v1.a:81" && once == Compose(CanonicalParts(u))
    ensures Canonicalize(once).Some? && Canonicalize(once).value.url == once
  {
    FutureAddressText(inner);
    EightyOne(inner);
    BracketsCanGo(u, once, inner);
  }

  lemma FutureAddressText(inner: string)
    requires inner == "v1.a:81"
    ensures HostText(inner) && ']' !in inner
  {
    assert forall c :: c in inner ==> c in {'v', '1', '.', 'a', ':', '8'};
    PlainCharsAreHostText(inner);
  }

  lemma PlainCharsAreHostText(text: string)
    requires text != "" && forall c :: c in text ==> c in {'v', '1', '.', 'a', ':', '8'}
    ensures HostText(text)
  {
    forall i | 0 <= i < |text| ensures Lower(text)[i] == text[i] {
      assert text[i] in text;
    }
  }

  lemma EightyOne(host: string)
    requires host == "v1.a:81"
    ensures ReadsAsPort("https", host, NoPort)
  {
    UntilIs(host, {':'}, 4);
    assert host[..4] == "v1.a" && host[5..] == "81";
    assert Dec(81) == "81" by { assert Dec(8) == "8"; }
    ReadPortOfDec(81);
    assert host == host[..4] + ":" + Dec(81);
  }

  lemma PlainIsLocated(u: Split)
    requires PlainUrl(u)
    ensures LocatedUrl(u) && ':' !in Host(u)
  {}

  lemma PlainHostIsPlainUrl(u: Split)
    requires AbsoluteParts(u) && PlainHost(u.netloc)
    ensures PlainUrl(u)
  {
    HostOfPlain(u.netloc);
  }

  lemma HttpsIsClean()
    ensures CleanScheme("https")
  {
    assert Lower("https") == "https";
  }

  lemma UnsafeCharStays(scheme: string, path: string, i: nat)
    requires ';' !in path && i < |path| && !PathSafe(path[i])
    ensures !AllSafe(WithoutParams(scheme, path))
  {
    assert WithoutParams(scheme, path) == path;
  }

  lemma BlankPathIsUnsafe(path: string)
    requires path == "/a b"
    ensures !AllSafe(WithoutParams("https", path))
  {
    UnsafeCharStays("https", path, 2);
  }

  lemma BlankUrlIsPlain(host: string, u: Split)
    requires PlainHost(host) && u == Split("https", host, "/a b", "")
    ensures PlainUrl(u)
  {
    HttpsIsClean();
    PlainHostIsPlainUrl(u);
  }

  lemma UnsafeIsRequoted(u: Split, once: string)
    requires PlainUrl(u) && !AllSafe(WithoutParams(u.scheme, u.path)) && once == Compose(CanonicalParts(u))
    ensures Canonicalize(Compose(u)).Some? && Canonicalize(Compose(u)).value.url == once
    ensures Canonicalize(once).Some? && Canonicalize(once).value.url != once
  {
    PlainIsLocated(u);
    CanonicalizeComposes(u);
    SecondPassSucceeds(u, once);
    IdempotentExactlyWhen(u, once);
  }

  lemma SecondPassSucceeds(u: Split, once: string)
    requires PlainUrl(u) && once == Compose(CanonicalParts(u))
    ensures Canonicalize(once).Some?
  {
    SecondPass(u, once, Compose(CanonicalParts(u).(path := Quote(CanonicalParts(u).path, PATH_SAFE))));
  }

  /** A blank in the path is enough: canonicalizing `https://host/a b` twice gives another URL. */
  lemma BlankIsRequoted(host: string, u: Split, once: string)
    requires PlainHost(host) && u == Split("https", host, "/a b", "") && once == Compose(CanonicalParts(u))
    ensures Canonicalize(Compose(u)).Some? && Canonicalize(Compose(u)).value.url == once
    ensures Canonicalize(once).Some? && Canonicalize(once).value.url != once
  {
    BlankUrlIsPlain(host, u);
    BlankPathIsUnsafe("/a b");
    UnsafeIsRequoted(u, once);
  }

  lemma QuotedCharLength(c: char)
    ensures |QuoteBytes(CharBytes(c), PATH_SAFE)| >= 1
    ensures !PathSafe(c) ==> |QuoteBytes(CharBytes(c), PATH_SAFE)| > 1
  {
    var bs := CharBytes(c);
    assert bs[0] >= 0x80 || bs[0] as char == c;
    assert QuoteBytes(bs, PATH_SAFE) == QuoteByte(bs[0], PATH_SAFE) + QuoteBytes(bs[1..], PATH_SAFE);
  }

  lemma {:induction false} RequotedIsLonger(s: string)
    ensures |Quote(s, PATH_SAFE)| >= |s|
    ensures !AllSafe(s) ==> |Quote(s, PATH_SAFE)| > |s|
  {
    if s != "" {
      QuotedCharLength(s[0]);
      RequotedIsLonger(s[1..]);
      assert AllSafe(s) <==> PathSafe(s[0]) && AllSafe(s[1..]);
    }
  }
}
