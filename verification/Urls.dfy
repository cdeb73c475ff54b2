/** Strings as Python's `urllib.parse` takes them apart: `urlsplit`, `hostname` and `port`. */
module Urls {
  import opened Basics

  /** Index of the first character of `s` in `stops`, or `|s|`. */
  function Until(s: string, stops: set<char>): (i: nat)
    ensures i <= |s|
    ensures forall j :: 0 <= j < i ==> s[j] !in stops
    ensures i < |s| ==> s[i] in stops
  {
    if s == [] || s[0] in stops then 0 else 1 + Until(s[1..], stops)
  }

  /** The part of `s` after the last `c`; all of `s` when there is none. */
  function AfterLast(s: string, c: char): (r: string)
    ensures c !in r && |r| <= |s| && r == s[|s| - |r|..]
  {
    var i := Until(s, {c});
    if i == |s| then s else AfterLast(s[i + 1..], c)
  }

  function LowerChar(c: char): char {
    if 'A' <= c <= 'Z' then (c as int + 32) as char else c
  }

  /** ASCII lower-casing; other characters are left alone. */
  function Lower(s: string): (r: string)
    ensures |r| == |s|
    ensures forall i :: 0 <= i < |s| ==> r[i] == LowerChar(s[i])
  {
    if s == [] then [] else [LowerChar(s[0])] + Lower(s[1..])
  }

  /** Drops the characters for which `urlsplit` has no use anywhere: tab, CR and LF. */
  function Scrub(s: string): (r: string)
    ensures '\t' !in r && '\r' !in r && '\n' !in r
  {
    if s == [] then []
    else if s[0] in {'\t', '\r', '\n'} then Scrub(s[1..])
    else [s[0]] + Scrub(s[1..])
  }

  function LStrip(s: string): string {
    if s == [] || s[0] > ' ' then s else LStrip(s[1..])
  }

  predicate IsAlpha(c: char) { 'a' <= c <= 'z' || 'A' <= c <= 'Z' }
  predicate IsDigit(c: char) { '0' <= c <= '9' }
  predicate IsSchemeChar(c: char) { IsAlpha(c) || IsDigit(c) || c in {'+', '-', '.'} }

  datatype Split = Split(scheme: string, netloc: string, path: string, query: string)

  /** `urlsplit` without the fragment, on text already stripped and scrubbed. */
  function SplitScheme(s: string): (string, string) {
    var i := Until(s, {':'});
    if 0 < i < |s| && IsAlpha(s[0]) && forall j :: 0 <= j < i ==> IsSchemeChar(s[j])
    then (Lower(s[..i]), s[i + 1..])
    else ("", s)
  }

  function SplitNetloc(s: string): (string, string) {
    if |s| >= 2 && s[0] == '/' && s[1] == '/' then
      var rest := s[2..];
      var i := Until(rest, {'/', '?', '#'});
      (rest[..i], rest[i..])
    else ("", s)
  }

  /** Path and query of what follows the network location; the fragment is dropped. */
  function SplitTail(s: string): (string, string) {
    var body := s[..Until(s, {'#'})];
    var i := Until(body, {'?'});
    (body[..i], if i < |body| then body[i + 1..] else "")
  }

  function UrlSplit(url: string): Split {
    var (scheme, rest) := SplitScheme(Scrub(LStrip(url)));
    var (netloc, tail) := SplitNetloc(rest);
    var (path, query) := SplitTail(tail);
    Split(scheme, netloc, path, query)
  }

  /** The host and the text of the port, if any, of a network location. */
  function HostPort(netloc: string): (string, string) {
    var hostinfo := AfterLast(netloc, '@');
    var open := Until(hostinfo, {'['});
    if open < |hostinfo| then
      var bracketed := hostinfo[open + 1..];
      var close := Until(bracketed, {']'});
      var after := if close < |bracketed| then bracketed[close + 1..] else "";
      var colon := Until(after, {':'});
      (bracketed[..close], if colon < |after| then after[colon + 1..] else "")
    else
      var colon := Until(hostinfo, {':'});
      (hostinfo[..colon], if colon < |hostinfo| then hostinfo[colon + 1..] else "")
  }

  /** `hostname or ""`: lower-cased up to an IPv6 zone. */
  function HostName(netloc: string): string {
    var host := HostPort(netloc).0;
    var zone := Until(host, {'%'});
    Lower(host[..zone]) + host[zone..]
  }

  function Origin(url: string): string {
    var u := UrlSplit(url);
    if u.scheme == "" || u.netloc == "" then "" else u.scheme + "://" + u.netloc
  }

  predicate IsPrivateHost(host: string) {
    || host == "localhost"
    || "127." <= host || "10." <= host || "192.168." <= host || "169.254." <= host
    || exists i :: 16 <= i < 32 && "172." + Dec(i) + "." <= host
  }

  predicate IsPrivateNetworkUrl(url: string) {
    IsPrivateHost(HostName(UrlSplit(url).netloc))
  }

  // ----- facts -------------------------------------------------------------------------------

  lemma {:induction false} ScrubConcat(s: string, t: string)
    ensures Scrub(s + t) == Scrub(s) + Scrub(t)
  {
    if s == [] {
      assert s + t == t;
    } else {
      assert (s + t)[1..] == s[1..] + t;
      ScrubConcat(s[1..], t);
    }
  }

  lemma {:induction false} ScrubClean(s: string)
    requires '\t' !in s && '\r' !in s && '\n' !in s
    ensures Scrub(s) == s
  {
    if s != [] {
      ScrubClean(s[1..]);
      assert s == [s[0]] + s[1..];
    }
  }

  predicate CleanScheme(scheme: string) {
    && scheme != "" && IsAlpha(scheme[0]) && Lower(scheme) == scheme
    && forall j :: 0 <= j < |scheme| ==> IsSchemeChar(scheme[j])
  }

  predicate CleanNetloc(netloc: string) {
    && netloc != ""
    && '\t' !in netloc && '\r' !in netloc && '\n' !in netloc
    && '/' !in netloc && '?' !in netloc && '#' !in netloc
  }

  predicate StartsTail(tail: string) {
    tail == "" || tail[0] in {'/', '?', '#'}
  }

  lemma LowerTwice(s: string)
    ensures Lower(Lower(s)) == Lower(s)
  {}

  lemma SchemeIsClean(s: string)
    ensures var scheme := SplitScheme(s).0; scheme != "" ==> CleanScheme(scheme)
  {
    LowerTwice(s[..Until(s, {':'})]);
  }

  lemma NetlocIsClean(s: string)
    requires '\t' !in s && '\r' !in s && '\n' !in s
    ensures var netloc := SplitNetloc(s).0; netloc != "" ==> CleanNetloc(netloc)
  {}

  /** What `urlsplit` finds is clean, whatever it was given. */
  lemma SplitIsClean(url: string)
    ensures var u := UrlSplit(url);
            && (u.scheme != "" ==> CleanScheme(u.scheme))
            && (u.netloc != "" ==> CleanNetloc(u.netloc))
  {
    var s := Scrub(LStrip(url));
    SchemeIsClean(s);
    NetlocIsClean(SplitScheme(s).1);
  }

  lemma UntilIs(s: string, stops: set<char>, i: nat)
    requires i <= |s| && (forall j :: 0 <= j < i ==> s[j] !in stops)
    requires i == |s| || s[i] in stops
    ensures Until(s, stops) == i
  {}

  lemma SchemeOfParts(scheme: string, rest: string)
    requires CleanScheme(scheme)
    ensures SplitScheme(scheme + ":" + rest) == (scheme, rest)
  {
    var s := scheme + ":" + rest;
    UntilIs(s, {':'}, |scheme|);
    assert s[..|scheme|] == scheme;
    assert s[|scheme| + 1..] == rest;
    assert s[0] == scheme[0];
  }

  lemma NetlocOfParts(netloc: string, tail: string)
    requires CleanNetloc(netloc) && StartsTail(tail)
    ensures SplitNetloc("//" + netloc + tail) == (netloc, tail)
  {
    var s := "//" + netloc + tail;
    assert s[2..] == netloc + tail;
    UntilIs(netloc + tail, {'/', '?', '#'}, |netloc|);
    assert (netloc + tail)[..|netloc|] == netloc;
    assert (netloc + tail)[|netloc|..] == tail;
  }

  lemma ScrubOfParts(scheme: string, netloc: string, tail: string)
    requires CleanScheme(scheme) && CleanNetloc(netloc)
    ensures Scrub(LStrip(scheme + "://" + netloc + tail)) == scheme + ":" + ("//" + netloc + Scrub(tail))
  {
    var head := scheme + "://" + netloc;
    assert (head + tail)[0] == scheme[0];
    ScrubConcat(head, tail);
    ScrubClean(head);
    assert head + Scrub(tail) == scheme + ":" + ("//" + netloc + Scrub(tail));
  }

  /** A URL put together from clean parts comes apart into the same parts. */
  lemma SplitOfParts(scheme: string, netloc: string, tail: string)
    requires CleanScheme(scheme) && CleanNetloc(netloc) && StartsTail(tail)
    ensures var u := UrlSplit(scheme + "://" + netloc + tail);
            && u.scheme == scheme && u.netloc == netloc
            && (u.path, u.query) == SplitTail(Scrub(tail))
  {
    ScrubOfParts(scheme, netloc, tail);
    SchemeOfParts(scheme, "//" + netloc + Scrub(tail));
    assert tail != "" ==> Scrub(tail)[0] == tail[0];
    NetlocOfParts(netloc, Scrub(tail));
  }

  /** The origin and the private-network test of a URL look at its scheme and network location only. */
  lemma OriginOfParts(url: string, origin: string, scheme: string, netloc: string, tail: string)
    requires CleanScheme(scheme) && CleanNetloc(netloc) && StartsTail(tail)
    requires origin == scheme + "://" + netloc && url == origin + tail
    ensures Origin(url) == origin && IsPrivateNetworkUrl(url) == IsPrivateHost(HostName(netloc))
  {
    SplitOfParts(scheme, netloc, tail);
  }

  lemma PartsOfOrigin(url: string) returns (scheme: string, netloc: string)
    requires Origin(url) != ""
    ensures CleanScheme(scheme) && CleanNetloc(netloc) && Origin(url) == scheme + "://" + netloc
    ensures IsPrivateNetworkUrl(url) == IsPrivateHost(HostName(netloc))
  {
    SplitIsClean(url);
    scheme, netloc := UrlSplit(url).scheme, UrlSplit(url).netloc;
  }

  /** A network location that is nothing but a lower-case host. */
  predicate PlainHost(netloc: string) {
    && CleanNetloc(netloc) && Lower(netloc) == netloc
    && '@' !in netloc && '[' !in netloc && ':' !in netloc
  }

  /** Lower-casing up to a zone leaves lower-case text alone. */
  lemma LowerUpToZone(host: string)
    requires Lower(host) == host
    ensures var zone := Until(host, {'%'}); Lower(host[..zone]) + host[zone..] == host
  {
    var zone := Until(host, {'%'});
    assert Lower(host[..zone]) == host[..zone];
    assert host[..zone] + host[zone..] == host;
  }

  lemma HostOfPlain(netloc: string)
    requires PlainHost(netloc)
    ensures HostName(netloc) == netloc && HostPort(netloc) == (netloc, "")
  {
    UntilIs(netloc, {'@'}, |netloc|);
    UntilIs(netloc, {'['}, |netloc|);
    UntilIs(netloc, {':'}, |netloc|);
    assert netloc[..|netloc|] == netloc;
    LowerUpToZone(netloc);
  }

  lemma NamedHostIsPublic(host: string)
    requires host != "" && host != "localhost" && !IsDigit(host[0])
    ensures !IsPrivateHost(host)
  {
    forall i | 16 <= i < 32 ensures !("172." + Dec(i) + "." <= host) {
      assert ("172." + Dec(i) + ".")[0] == '1';
    }
  }

  lemma UrlOnHost(url: string, scheme: string, host: string, tail: string)
    requires url == scheme + "://" + host + tail
    requires CleanScheme(scheme) && PlainHost(host) && StartsTail(tail)
    ensures Origin(url) == scheme + "://" + host && IsPrivateNetworkUrl(url) == IsPrivateHost(host)
  {
    OriginOfParts(url, scheme + "://" + host, scheme, host, tail);
    HostOfPlain(host);
  }

  /** The characters of an ordinary host name. */
  predicate IsHostChar(c: char) { 'a' <= c <= 'z' || IsDigit(c) || c in {'.', '-'} }

  lemma HostIsPlain(host: string)
    requires host != "" && forall i :: 0 <= i < |host| ==> IsHostChar(host[i])
    ensures PlainHost(host)
  {
    assert Lower(host) == host;
  }

  // ----- URLs that merely begin with an origin -------------------------------------------------

  lemma NetlocRunsOn(netloc: string, rest: string, k: nat)
    requires CleanNetloc(netloc) && k == Until(rest, {'/', '?', '#'})
    ensures SplitNetloc("//" + netloc + rest) == (netloc + rest[..k], rest[k..])
  {
    var s := "//" + netloc + rest;
    assert s[2..] == netloc + rest;
    UntilIs(netloc + rest, {'/', '?', '#'}, |netloc| + k);
    assert (netloc + rest)[..|netloc| + k] == netloc + rest[..k];
    assert (netloc + rest)[|netloc| + k..] == rest[k..];
  }

  /** After a clean scheme and network location, the network location runs on to the next delimiter. */
  lemma SplitRunsOn(scheme: string, netloc: string, tail: string, rest: string, k: nat)
    requires CleanScheme(scheme) && CleanNetloc(netloc)
    requires rest == Scrub(tail) && k == Until(rest, {'/', '?', '#'})
    ensures var u := UrlSplit(scheme + "://" + netloc + tail); u.scheme == scheme && u.netloc == netloc + rest[..k]
  {
    ScrubOfParts(scheme, netloc, tail);
    SchemeOfParts(scheme, "//" + netloc + rest);
    NetlocRunsOn(netloc, rest, k);
  }

  lemma PrefixOfParts(url: string, origin: string, scheme: string, netloc: string, tail: string)
    requires CleanScheme(scheme) && CleanNetloc(netloc) && origin == scheme + "://" + netloc && url == origin + tail
    ensures Origin(url) == origin <==> StartsTail(Scrub(tail))
  {
    var rest := Scrub(tail);
    var k := Until(rest, {'/', '?', '#'});
    SplitRunsOn(scheme, netloc, tail, rest, k);
    OriginRunsOn(url, scheme, netloc, rest[..k]);
  }

  lemma PartsOfClean(origin: string) returns (scheme: string, netloc: string)
    requires origin != "" && Origin(origin) == origin
    ensures CleanScheme(scheme) && CleanNetloc(netloc) && origin == scheme + "://" + netloc
  {
    scheme, netloc := PartsOfOrigin(origin);
  }

  /** A URL that begins with an origin has that origin exactly when a delimiter, or nothing, follows. */
  lemma PrefixIsOriginExactly(url: string, origin: string, tail: string)
    requires origin != "" && Origin(origin) == origin && url == origin + tail
    ensures Origin(url) == origin <==> StartsTail(Scrub(tail))
  {
    var scheme, netloc := PartsOfClean(origin);
    PrefixOfParts(url, origin, scheme, netloc, tail);
  }

  lemma OriginRunsOn(url: string, scheme: string, netloc: string, more: string)
    requires scheme != "" && netloc != "" && UrlSplit(url).scheme == scheme && UrlSplit(url).netloc == netloc + more
    ensures Origin(url) == scheme + "://" + netloc <==> more == ""
  {
    assert |scheme + "://" + (netloc + more)| == |scheme + "://" + netloc| + |more|;
    if more == "" { assert netloc + more == netloc; }
  }
}
