/** The sitemap probe of the legacy package: robots.txt names sitemaps,
    sitemaps (and sitemap indexes) name URLs, URL hosts become web domains,
    and e-mail addresses on contact pages become contact domains. Every
    fetch, the XML decoding, robots.txt parsing and the e-mail regex are
    parameters. */
module Sitemaps {
  import opened Base
  import opened GoStrings
  import opened Records
  import opened Domains

  /** The parts of url.Parse's result the probe reads; None when parsing fails. */
  datatype UrlParts = UrlParts(scheme: string, host: string)
  type UrlParser = string -> Option<UrlParts>

  /** The parsed robots.txt: its declared sitemaps, and TestAgent(url, "*"). */
  datatype RobotsData = RobotsData(sitemaps: seq<string>, allows: string -> bool)

  /** http.Get of a robots.txt URL followed by robotstxt.FromResponse; None
      when either step fails. */
  type RobotsFetch = string -> Option<RobotsData>

  /** A fetched sitemap body as the two xml.Unmarshal calls see it: the
      <sitemap><loc> entries when it decodes as an index, the <url><loc>
      entries when it decodes as a URL set (None for a decoding error). */
  datatype SitemapDoc = SitemapDoc(index: Option<seq<string>>, urls: Option<seq<string>>)

  /** The GET through the proxy with status 200 and a readable body; None otherwise. */
  type SitemapFetch = string -> Option<SitemapDoc>

  /** At most this many robots.txt sitemaps are kept. */
  const RobotsSitemapCap: nat := 11
  /** An index stops once its list of found sitemaps exceeds this. */
  const IndexSitemapCap: nat := 200
  /** The crawl stops once the domain holds more sitemaps than this... */
  const CrawlSitemapCap: nat := 15
  /** ...or more sitemap URLs than this. */
  const CrawlUrlCap: nat := 10000
  /** At most this many contact pages are visited. */
  const ContactPageCap: nat := 10

  // ---------------------------------------------------------------------
  // robots.txt

  /** scheme://host, or http://host when that does not start with "http". */
  function RobotsRoot(p: UrlParts): (root: string)
    ensures HasPrefix(root, "http")
    ensures root == p.scheme + "://" + p.host || root == "http://" + p.host
    ensures HasPrefix(p.scheme + "://" + p.host, "http") ==> root == p.scheme + "://" + p.host
  {
    var r := p.scheme + "://" + p.host;
    if HasPrefix(r, "http") then r
    else
      assert ("http://" + p.host)[..4] == "http";
      "http://" + p.host
  }

  /** A sitemap row as the probe creates it: zero id and timestamps. */
  function NewSitemap(dom: string, loc: string): Sitemap
  {
    Sitemap(0, ZeroTime, ZeroTime, dom, loc)
  }

  function SitemapsOf(dom: string, locs: seq<string>): (sms: seq<Sitemap>)
    ensures |sms| == |locs|
    ensures forall i :: 0 <= i < |locs| ==> sms[i] == NewSitemap(dom, locs[i])
  {
    seq(|locs|, i requires 0 <= i < |locs| => NewSitemap(dom, locs[i]))
  }

  function Locs(sms: seq<Sitemap>): (locs: seq<string>)
    ensures |locs| == |sms|
    ensures forall i :: 0 <= i < |sms| ==> locs[i] == sms[i].loc
  {
    seq(|sms|, i requires 0 <= i < |sms| => sms[i].loc)
  }

  /** getRobotstxt: the sitemaps after the call, or the error. */
  function GetRobots(d: Domain, parse: UrlParser, robots: RobotsFetch): (r: (seq<Sitemap>, Option<Error>))
    ensures parse(d.webRedirectURLFinal).None? ==> r == (d.sitemaps, Some(UrlParseFailed))
    ensures r.1.Some? ==> r.0 == d.sitemaps
    ensures r.1.None? <==> parse(d.webRedirectURLFinal).Some?
                           && robots(RobotsRoot(parse(d.webRedirectURLFinal).value) + "/robots.txt").Some?
  {
    match parse(d.webRedirectURLFinal)
    case None => (d.sitemaps, Some(UrlParseFailed))
    case Some(p) =>
      match robots(RobotsRoot(p) + "/robots.txt")
      case None => (d.sitemaps, Some(RobotsFailed))
      case Some(data) =>
        var declared := data.sitemaps;
        var kept := if |declared| > RobotsSitemapCap then declared[..RobotsSitemapCap] else declared;
        (d.sitemaps + SitemapsOf(d.domainName, kept), None)
  }

  /** On success the declared sitemaps are appended in order, at most 11 of
      them, each a new row of the domain. */
  lemma GetRobotsAppends(d: Domain, parse: UrlParser, robots: RobotsFetch)
    requires GetRobots(d, parse, robots).1.None?
    ensures var declared := robots(RobotsRoot(parse(d.webRedirectURLFinal).value) + "/robots.txt").value.sitemaps;
            var sms := GetRobots(d, parse, robots).0;
            && |sms| == |d.sitemaps| + (if |declared| > RobotsSitemapCap then RobotsSitemapCap else |declared|)
            && sms[..|d.sitemaps|] == d.sitemaps
            && forall i :: |d.sitemaps| <= i < |sms| ==> sms[i] == NewSitemap(d.domainName, declared[i - |d.sitemaps|])
  {
    var declared := robots(RobotsRoot(parse(d.webRedirectURLFinal).value) + "/robots.txt").value.sitemaps;
    var kept := if |declared| > RobotsSitemapCap then declared[..RobotsSitemapCap] else declared;
    var sms := GetRobots(d, parse, robots).0;
    assert sms == d.sitemaps + SitemapsOf(d.domainName, kept);
    forall i | |d.sitemaps| <= i < |sms| ensures sms[i] == NewSitemap(d.domainName, declared[i - |d.sitemaps|]) {
      assert sms[i] == SitemapsOf(d.domainName, kept)[i - |d.sitemaps|];
    }
  }

  // ---------------------------------------------------------------------
  // readSitemap

  /** readSitemap's results: URLs, sitemaps found in indexes, and whether it failed. */
  datatype ReadResult = ReadResult(urls: seq<string>, sms: seq<Sitemap>, failed: bool)

  /** The loop's accumulators: subSiteMapURLs and sms. */
  datatype Acc = Acc(urls: seq<string>, sms: seq<Sitemap>)

  /** A sitemap found in an index of dom's: a new row with a ".xml" location. */
  predicate IsIndexChild(s: Sitemap, dom: string)
  {
    s == NewSitemap(dom, s.loc) && Contains(s.loc, ".xml")
  }

  predicate AllIndexChildren(sms: seq<Sitemap>, dom: string)
  {
    forall i :: 0 <= i < |sms| ==> IsIndexChild(sms[i], dom)
  }

  /** readSitemap of loc for domain dom. The source recurses without a
      depth bound; fuel stands in for one, and running out of it reads as
      a failed fetch. */
  function ReadSitemap(loc: string, dom: string, fetch: SitemapFetch, fuel: nat): (r: ReadResult)
    ensures AllIndexChildren(r.sms, dom)
    ensures fuel == 0 || fetch(loc).None? ==> r == ReadResult([], [], true)
    ensures r.failed <==> fuel == 0 || fetch(loc).None? || fetch(loc).value.urls.None?
    ensures !r.failed ==> |fetch(loc).value.urls.value| <= |r.urls|
                          && r.urls[..|fetch(loc).value.urls.value|] == fetch(loc).value.urls.value
    decreases fuel, 0
  {
    if fuel == 0 then ReadResult([], [], true)
    else
      match fetch(loc)
      case None => ReadResult([], [], true)
      case Some(doc) =>
        var sub := if doc.index.Some? && |doc.index.value| > 0
                   then ReadIndex(loc, dom, doc.index.value, fetch, fuel - 1, Acc([], []))
                   else Acc([], []);
        match doc.urls
        case None => ReadResult(sub.urls, sub.sms, true)
        case Some(us) =>
          assert (us + sub.urls)[..|us|] == us;
          ReadResult(us + sub.urls, sub.sms, false)
  }

  /** The loop over an index's entries: stop at an entry naming the index
      itself, skip entries without ".xml", record the entry, stop once more
      than 200 sitemaps are recorded, otherwise read it and keep what it
      found (its URLs only when it did not fail). */
  function ReadIndex(self: string, dom: string, locs: seq<string>, fetch: SitemapFetch, fuel: nat, acc: Acc): (r: Acc)
    ensures |acc.sms| <= |r.sms| && r.sms[..|acc.sms|] == acc.sms
    ensures |acc.urls| <= |r.urls| && r.urls[..|acc.urls|] == acc.urls
    ensures AllIndexChildren(acc.sms, dom) ==> AllIndexChildren(r.sms, dom)
    decreases fuel, 1, |locs|
  {
    if |locs| == 0 || locs[0] == self then acc
    else if !Contains(locs[0], ".xml") then ReadIndex(self, dom, locs[1..], fetch, fuel, acc)
    else
      var sms := acc.sms + [NewSitemap(dom, locs[0])];
      if |sms| > IndexSitemapCap then Acc(acc.urls, sms)
      else
        var child := ReadSitemap(locs[0], dom, fetch, fuel);
        var next := Acc(if child.failed then acc.urls else acc.urls + child.urls, sms + child.sms);
        assert next.sms[..|acc.sms|] == acc.sms;
        assert next.urls[..|acc.urls|] == acc.urls;
        ReadIndex(self, dom, locs[1..], fetch, fuel, next)
  }

  /** An entry naming the index itself ends the loop: nothing after it matters. */
  lemma {:induction false} SelfReferenceCutsOff(self: string, dom: string, locs: seq<string>, fetch: SitemapFetch,
                                               fuel: nat, acc: Acc, k: nat)
    requires k < |locs| && locs[k] == self
    ensures ReadIndex(self, dom, locs, fetch, fuel, acc) == ReadIndex(self, dom, locs[..k], fetch, fuel, acc)
    decreases k
  {
    if k > 0 && locs[0] != self {
      assert locs[..k][1..] == locs[1..][..k - 1];
      assert locs[..k][0] == locs[0];
      if !Contains(locs[0], ".xml") {
        SelfReferenceCutsOff(self, dom, locs[1..], fetch, fuel, acc, k - 1);
      } else {
        var sms := acc.sms + [NewSitemap(dom, locs[0])];
        if |sms| <= IndexSitemapCap {
          var child := ReadSitemap(locs[0], dom, fetch, fuel);
          var next := Acc(if child.failed then acc.urls else acc.urls + child.urls, sms + child.sms);
          SelfReferenceCutsOff(self, dom, locs[1..], fetch, fuel, next, k - 1);
        }
      }
    }
  }

  /** An entry without ".xml" (that is not the index itself) is as good as absent. */
  lemma {:induction false} NonXmlSkipped(self: string, dom: string, locs: seq<string>, fetch: SitemapFetch,
                                         fuel: nat, acc: Acc, k: nat)
    requires k < |locs| && locs[k] != self && !Contains(locs[k], ".xml")
    ensures ReadIndex(self, dom, locs, fetch, fuel, acc) == ReadIndex(self, dom, locs[..k] + locs[k + 1..], fetch, fuel, acc)
    decreases k
  {
    if k == 0 {
      assert locs[..0] + locs[1..] == locs[1..];
    } else if locs[0] != self {
      var rest := locs[..k] + locs[k + 1..];
      assert rest[0] == locs[0];
      assert rest[1..] == locs[1..][..k - 1] + locs[1..][k..];
      if !Contains(locs[0], ".xml") {
        NonXmlSkipped(self, dom, locs[1..], fetch, fuel, acc, k - 1);
      } else {
        var sms := acc.sms + [NewSitemap(dom, locs[0])];
        if |sms| <= IndexSitemapCap {
          var child := ReadSitemap(locs[0], dom, fetch, fuel);
          var next := Acc(if child.failed then acc.urls else acc.urls + child.urls, sms + child.sms);
          NonXmlSkipped(self, dom, locs[1..], fetch, fuel, next, k - 1);
        }
      }
    } else {
      assert (locs[..k] + locs[k + 1..])[0] == self;
    }
  }

  // ---------------------------------------------------------------------
  // getURLsFromSitemaps

  /** The loop over the sitemaps a read found: each one whose location is
      not parsed yet is appended and becomes parsed. */
  function NewSitemaps(sms: seq<Sitemap>, parsed: set<string>): (r: seq<Sitemap>)
    ensures |r| <= |sms|
    decreases |sms|
  {
    if |sms| == 0 then []
    else if sms[0].loc in parsed then NewSitemaps(sms[1..], parsed)
    else [sms[0]] + NewSitemaps(sms[1..], parsed + {sms[0].loc})
  }

  /** The appended locations are the seen-map deduplication of the found ones. */
  lemma {:induction false} NewSitemapsLocs(sms: seq<Sitemap>, parsed: set<string>)
    ensures Locs(NewSitemaps(sms, parsed)) == Dedup(Locs(sms), parsed)
    decreases |sms|
  {
    if |sms| > 0 {
      var ls := Locs(sms);
      LocsCons(sms);
      if sms[0].loc in parsed {
        NewSitemapsLocs(sms[1..], parsed);
      } else {
        var seen := parsed + {sms[0].loc};
        NewSitemapsLocs(sms[1..], seen);
        LocsCons([sms[0]] + NewSitemaps(sms[1..], seen));
      }
    }
  }

  lemma LocsCons(sms: seq<Sitemap>)
    requires |sms| > 0
    ensures Locs(sms) == [sms[0].loc] + Locs(sms[1..])
  {
  }

  /** The URLs of the sitemaps read, in the order they were read. */
  function UrlsRead(visited: seq<Sitemap>, fetch: SitemapFetch, fuel: nat): set<string>
    decreases |visited|
  {
    if |visited| == 0 then {}
    else
      var last := visited[|visited| - 1];
      UrlsRead(visited[..|visited| - 1], fetch, fuel) + ToSet(ReadSitemap(last.loc, last.domainName, fetch, fuel).urls)
  }

  /** The parsed set is the read and the appended locations, each read at
      most once, each appended at most once, none both. */
  predicate Bookkept(parsed: set<string>, added: seq<Sitemap>, visited: seq<Sitemap>)
  {
    && parsed == ToSet(Locs(visited)) + ToSet(Locs(added))
    && NoDup(Locs(visited)) && NoDup(Locs(added))
    && ToSet(Locs(visited)) !! ToSet(Locs(added))
  }

  /** urlsFound is the set of the duplicate-free sitemapURLs, which are the
      URLs of the sitemaps read. */
  predicate UrlsKept(found: set<string>, urls: seq<string>, visited: seq<Sitemap>, fetch: SitemapFetch, fuel: nat)
  {
    found == ToSet(urls) && NoDup(urls) && ToSet(urls) == UrlsRead(visited, fetch, fuel)
  }

  /** The initial sitemaps gone through so far: those read are among
      them, and every one of them is parsed. */
  predicate Progress(initial: seq<Sitemap>, processed: nat, parsed: set<string>, visited: seq<Sitemap>)
    requires processed <= |initial|
  {
    && (forall i :: 0 <= i < |visited| ==> visited[i] in initial[..processed])
    && (forall j :: 0 <= j < processed ==> initial[j].loc in parsed)
  }

  /** The loop's variables: smsParsed, urlsFound, the sitemaps appended so
      far, sitemapURLs; plus the sitemaps read, in order, and how many of the
      initial ones the loop went through. */
  datatype Crawl = Crawl(parsed: set<string>, found: set<string>, added: seq<Sitemap>,
                         urls: seq<string>, visited: seq<Sitemap>, processed: nat)

  /** The crawl's stopping condition: more than 15 sitemaps or more than
      10000 sitemap URLs. */
  predicate Capped(initial: seq<Sitemap>, c: Crawl)
  {
    |initial| + |c.added| > CrawlSitemapCap || |c.urls| > CrawlUrlCap
  }

  /** One iteration, over initial[c.processed]; true when the loop returns
      after it. The caps are checked only after a read that found URLs. */
  function CrawlStep(initial: seq<Sitemap>, c: Crawl, fetch: SitemapFetch, fuel: nat): (r: (Crawl, bool))
    requires c.processed < |initial|
    ensures r.0.processed == c.processed + 1
  {
    var sm := initial[c.processed];
    if sm.loc in c.parsed then (c.(processed := c.processed + 1), false)
    else
      var r := ReadSitemap(sm.loc, sm.domainName, fetch, fuel);
      var parsed := c.parsed + {sm.loc};
      var read := c.(parsed := parsed, visited := c.visited + [sm], processed := c.processed + 1);
      if |r.urls| == 0 then (read, false)
      else
        var next := read.(urls := c.urls + Dedup(r.urls, c.found), found := c.found + ToSet(r.urls),
                          added := c.added + NewSitemaps(r.sms, parsed), parsed := parsed + ToSet(Locs(r.sms)));
        (next, Capped(initial, next))
  }

  predicate CrawlInv(initial: seq<Sitemap>, c: Crawl, fetch: SitemapFetch, fuel: nat)
  {
    && c.processed <= |initial|
    && Bookkept(c.parsed, c.added, c.visited)
    && UrlsKept(c.found, c.urls, c.visited, fetch, fuel)
    && Progress(initial, c.processed, c.parsed, c.visited)
  }

  /** Every iteration keeps the bookkeeping and moves one sitemap on. */
  lemma CrawlStepKeeps(initial: seq<Sitemap>, c: Crawl, fetch: SitemapFetch, fuel: nat)
    requires c.processed < |initial| && CrawlInv(initial, c, fetch, fuel)
    ensures var next := CrawlStep(initial, c, fetch, fuel);
            && CrawlInv(initial, next.0, fetch, fuel)
            && next.0.processed == c.processed + 1
            && (next.1 <==> initial[c.processed].loc !in c.parsed
                            && |ReadSitemap(initial[c.processed].loc, initial[c.processed].domainName, fetch, fuel).urls| > 0
                            && Capped(initial, next.0))
  {
    var sm := initial[c.processed];
    if sm.loc in c.parsed {
      ProgressSkip(initial, c.processed, c.parsed, c.visited);
    } else {
      var r := ReadSitemap(sm.loc, sm.domainName, fetch, fuel);
      var parsed := c.parsed + {sm.loc};
      ReadOne(c.parsed, c.added, c.visited, sm);
      KeepUrls(c.found, c.urls, c.visited, sm, fetch, fuel);
      ProgressRead(initial, c.processed, c.parsed, c.visited);
      if |r.urls| == 0 {
        assert Dedup(r.urls, c.found) == [] && ToSet(r.urls) == {};
        assert c.urls + [] == c.urls;
      } else {
        AddSitemaps(parsed, c.added, c.visited + [sm], r.sms);
        ProgressGrow(initial, c.processed + 1, parsed, ToSet(Locs(r.sms)), c.visited + [sm]);
      }
    }
  }

  /** The crawl before its first iteration. */
  const NoCrawl := Crawl({}, {}, [], [], [], 0)

  /** The crawl from state c on, as a recursion: one step per initial
      sitemap, ending when they run out or right after the step that finds
      the caps exceeded. */
  function CrawlFrom(initial: seq<Sitemap>, c: Crawl, fetch: SitemapFetch, fuel: nat): (e: Crawl)
    requires c.processed <= |initial|
    ensures c.processed <= e.processed <= |initial|
    decreases |initial| - c.processed
  {
    if c.processed == |initial| then c
    else
      var next := CrawlStep(initial, c, fetch, fuel);
      if next.1 then next.0 else CrawlFrom(initial, next.0, fetch, fuel)
  }

  /** The crawl from the start keeps the bookkeeping, and stops before the
      end of the initial sitemaps only when past a cap. */
  lemma {:induction false} CrawlFromKeeps(initial: seq<Sitemap>, c: Crawl, fetch: SitemapFetch, fuel: nat)
    requires CrawlInv(initial, c, fetch, fuel)
    ensures CrawlInv(initial, CrawlFrom(initial, c, fetch, fuel), fetch, fuel)
    ensures CrawlFrom(initial, c, fetch, fuel).processed < |initial| ==> Capped(initial, CrawlFrom(initial, c, fetch, fuel))
    decreases |initial| - c.processed
  {
    if c.processed < |initial| {
      CrawlStepKeeps(initial, c, fetch, fuel);
      var next := CrawlStep(initial, c, fetch, fuel);
      if !next.1 {
        CrawlFromKeeps(initial, next.0, fetch, fuel);
      }
    }
  }

  /** getURLsFromSitemaps over the domain's sitemaps (initial). Go's range
      walks the slice as it was when the loop started, so the sitemaps
      appended on the way are recorded but not read. Besides the resulting
      sitemaps and sitemap URLs, the method reports the sitemaps it read,
      in order, and how many of the initial ones it went through. */
  method GetURLsFromSitemaps(initial: seq<Sitemap>, fetch: SitemapFetch, fuel: nat)
    returns (sitemaps: seq<Sitemap>, urls: seq<string>, visited: seq<Sitemap>, processed: nat)
    ensures processed <= |initial|
    ensures |initial| <= |sitemaps| && sitemaps[..|initial|] == initial
    ensures NoDup(urls) && ToSet(urls) == UrlsRead(visited, fetch, fuel)
    ensures Crawled(initial, processed, sitemaps[|initial|..], visited)
    ensures processed < |initial| ==> |sitemaps| > CrawlSitemapCap || |urls| > CrawlUrlCap
    ensures var e := CrawlFrom(initial, NoCrawl, fetch, fuel);
            sitemaps == initial + e.added && urls == e.urls && visited == e.visited && processed == e.processed
  {
    var c := NoCrawl;
    var stop := false;
    while c.processed < |initial| && !stop
      invariant CrawlInv(initial, c, fetch, fuel)
      invariant stop ==> Capped(initial, c)
      invariant (if stop then c else CrawlFrom(initial, c, fetch, fuel)) == CrawlFrom(initial, NoCrawl, fetch, fuel)
      decreases |initial| - c.processed
    {
      CrawlStepKeeps(initial, c, fetch, fuel);
      var next := CrawlStep(initial, c, fetch, fuel);
      c, stop := next.0, next.1;
    }
    Conclude(initial, c.processed, c.parsed, c.added, c.visited);
    sitemaps, urls, visited, processed := initial + c.added, c.urls, c.visited, c.processed;
    assert sitemaps[..|initial|] == initial && sitemaps[|initial|..] == c.added;
  }

  /** What the crawl promises about the sitemaps it read and appended: each
      read location at most once, all read ones among the initial ones gone
      through, each of those read or appended, the appended ones distinct
      and never read. */
  predicate Crawled(initial: seq<Sitemap>, processed: nat, added: seq<Sitemap>, visited: seq<Sitemap>)
    requires processed <= |initial|
  {
    && NoDup(Locs(visited))
    && (forall i :: 0 <= i < |visited| ==> visited[i] in initial[..processed])
    && (forall j :: 0 <= j < processed ==> initial[j].loc in Locs(visited) || initial[j].loc in Locs(added))
    && NoDup(Locs(added))
    && (forall i :: 0 <= i < |added| ==> added[i].loc !in Locs(visited))
  }

  lemma Conclude(initial: seq<Sitemap>, processed: nat, parsed: set<string>, added: seq<Sitemap>, visited: seq<Sitemap>)
    requires processed <= |initial|
    requires Bookkept(parsed, added, visited) && Progress(initial, processed, parsed, visited)
    ensures Crawled(initial, processed, added, visited)
  {
    forall j | 0 <= j < processed ensures initial[j].loc in Locs(visited) || initial[j].loc in Locs(added) {
      assert initial[j].loc in parsed;
    }
    forall i | 0 <= i < |added| ensures added[i].loc !in Locs(visited) {
      assert added[i].loc in ToSet(Locs(added));
    }
  }

  lemma ProgressSkip(initial: seq<Sitemap>, processed: nat, parsed: set<string>, visited: seq<Sitemap>)
    requires processed < |initial| && initial[processed].loc in parsed
    requires Progress(initial, processed, parsed, visited)
    ensures Progress(initial, processed + 1, parsed, visited)
  {
    assert initial[..processed + 1] == initial[..processed] + [initial[processed]];
  }

  lemma ProgressRead(initial: seq<Sitemap>, processed: nat, parsed: set<string>, visited: seq<Sitemap>)
    requires processed < |initial|
    requires Progress(initial, processed, parsed, visited)
    ensures Progress(initial, processed + 1, parsed + {initial[processed].loc}, visited + [initial[processed]])
  {
    assert initial[..processed + 1] == initial[..processed] + [initial[processed]];
  }

  lemma ProgressGrow(initial: seq<Sitemap>, processed: nat, parsed: set<string>, more: set<string>, visited: seq<Sitemap>)
    requires processed <= |initial|
    requires Progress(initial, processed, parsed, visited)
    ensures Progress(initial, processed, parsed + more, visited)
  {
  }

  /** Reading a sitemap whose location is not parsed keeps the bookkeeping. */
  lemma ReadOne(parsed: set<string>, added: seq<Sitemap>, visited: seq<Sitemap>, sm: Sitemap)
    requires Bookkept(parsed, added, visited) && sm.loc !in parsed
    ensures Bookkept(parsed + {sm.loc}, added, visited + [sm])
  {
    assert Locs(visited + [sm]) == Locs(visited) + [sm.loc];
    assert ToSet(Locs(visited) + [sm.loc]) == ToSet(Locs(visited)) + {sm.loc};
    NoDupConcat(Locs(visited), [sm.loc]);
  }

  /** Adding the URLs of one more read keeps urlsFound and sitemapURLs in step. */
  lemma KeepUrls(found: set<string>, urls: seq<string>, visited: seq<Sitemap>, sm: Sitemap, fetch: SitemapFetch, fuel: nat)
    requires UrlsKept(found, urls, visited, fetch, fuel)
    ensures var us := ReadSitemap(sm.loc, sm.domainName, fetch, fuel).urls;
            UrlsKept(found + ToSet(us), urls + Dedup(us, found), visited + [sm], fetch, fuel)
  {
    var us := ReadSitemap(sm.loc, sm.domainName, fetch, fuel).urls;
    AppendUnseen(urls, us);
    assert (visited + [sm])[..|visited|] == visited;
  }

  /** Appending the new sitemaps a read found keeps the bookkeeping. */
  lemma AddSitemaps(parsed: set<string>, added: seq<Sitemap>, visited: seq<Sitemap>, sms: seq<Sitemap>)
    requires Bookkept(parsed, added, visited)
    ensures Bookkept(parsed + ToSet(Locs(sms)), added + NewSitemaps(sms, parsed), visited)
  {
    var unseen := Dedup(Locs(sms), parsed);
    AddedLocs(added, sms, parsed);
    AddedParsed(parsed, added, visited, sms);
    AddedUnseen(parsed, unseen);
    AddedNoDup(Locs(added), unseen, parsed);
  }

  lemma AddedLocs(added: seq<Sitemap>, sms: seq<Sitemap>, parsed: set<string>)
    ensures Locs(added + NewSitemaps(sms, parsed)) == Locs(added) + Dedup(Locs(sms), parsed)
    ensures ToSet(Locs(added + NewSitemaps(sms, parsed))) == ToSet(Locs(added)) + ToSet(Dedup(Locs(sms), parsed))
  {
    NewSitemapsLocs(sms, parsed);
    assert Locs(added + NewSitemaps(sms, parsed)) == Locs(added) + Locs(NewSitemaps(sms, parsed));
  }

  lemma AddedParsed(parsed: set<string>, added: seq<Sitemap>, visited: seq<Sitemap>, sms: seq<Sitemap>)
    requires parsed == ToSet(Locs(visited)) + ToSet(Locs(added))
    ensures parsed + ToSet(Locs(sms)) == ToSet(Locs(visited)) + ToSet(Locs(added)) + ToSet(Dedup(Locs(sms), parsed))
  {
    DedupSet(Locs(sms), parsed);
  }

  lemma AddedUnseen(parsed: set<string>, unseen: seq<string>)
    requires forall i :: 0 <= i < |unseen| ==> unseen[i] !in parsed
    ensures ToSet(unseen) !! parsed
  {
    forall x | x in ToSet(unseen) ensures x !in parsed {
      var i :| 0 <= i < |unseen| && unseen[i] == x;
    }
  }

  lemma AddedNoDup(locs: seq<string>, unseen: seq<string>, parsed: set<string>)
    requires NoDup(locs) && NoDup(unseen) && ToSet(locs) <= parsed
    requires forall i :: 0 <= i < |unseen| ==> unseen[i] !in parsed
    ensures NoDup(locs + unseen)
  {
    forall i | 0 <= i < |unseen| ensures unseen[i] !in locs {
      assert unseen[i] !in ToSet(locs);
    }
    NoDupConcat(locs, unseen);
  }

  // ---------------------------------------------------------------------
  // Web domains

  /** An oracle applied to each trimmed string, in order: url.Parse of the
      sitemap URLs, the GET of the contact pages. */
  function OnTrimmed<T>(ss: seq<string>, f: string -> T): (rs: seq<T>)
    ensures |rs| == |ss|
    ensures forall i :: 0 <= i < |ss| ==> rs[i] == f(TrimSpace(ss[i]))
  {
    seq(|ss|, i requires 0 <= i < |ss| => f(TrimSpace(ss[i])))
  }

  /** The hosts of the URLs that parsed, in order; a URL that fails to
      parse is only logged. */
  function Hosts(ps: seq<Option<UrlParts>>): (hosts: seq<string>)
    ensures |hosts| <= |ps|
  {
    if ps == [] then []
    else
      var rest := Hosts(ps[1..]);
      match ps[0]
      case None => rest
      case Some(p) => [p.host] + rest
  }

  /** The host of every URL that parses is among the hosts. */
  lemma {:induction false} HostsKeeps(ps: seq<Option<UrlParts>>, i: nat) returns (k: nat)
    requires i < |ps| && ps[i].Some?
    ensures k < |Hosts(ps)| && Hosts(ps)[k] == ps[i].value.host
    decreases i
  {
    var rest := Hosts(ps[1..]);
    if i == 0 {
      k := 0;
    } else {
      var j := HostsKeeps(ps[1..], i - 1);
      if ps[0].Some? {
        k := j + 1;
        assert ([ps[0].value.host] + rest)[k] == rest[j];
      } else {
        k := j;
      }
    }
  }

  /** Every host is the host of some URL that parses. */
  lemma {:induction false} HostsSource(ps: seq<Option<UrlParts>>, k: nat) returns (i: nat)
    requires k < |Hosts(ps)|
    ensures i < |ps| && ps[i].Some? && ps[i].value.host == Hosts(ps)[k]
    decreases |ps|
  {
    var rest := Hosts(ps[1..]);
    if ps[0].Some? && k == 0 {
      i := 0;
    } else if ps[0].Some? {
      assert ([ps[0].value.host] + rest)[k] == rest[k - 1];
      var j := HostsSource(ps[1..], k - 1);
      i := j + 1;
    } else {
      var j := HostsSource(ps[1..], k);
      i := j + 1;
    }
  }

  /** The hosts of the sitemap URLs that url.Parse accepts once trimmed. */
  function UrlHosts(urls: seq<string>, parse: UrlParser): seq<string>
  {
    Hosts(OnTrimmed(urls, parse))
  }

  /** GetWebDomainsFromSitemap: rows for the canonical names of the sitemap
      URLs' hosts, appended to the domain's sitemap web domains. */
  function GetWebDomains(d: Domain, prior: seq<LegacyMatch>, urls: seq<string>, parse: UrlParser, lookup: SuffixLookup)
    : (web: seq<LegacyMatch>)
    ensures |prior| <= |web| && web[..|prior|] == prior
  {
    var added := LegacyRows(UrlHosts(urls, parse), lookup, d.domainName);
    assert (prior + added)[..|prior|] == prior;
    prior + added
  }

  /** One appended row per distinct name other than the probed domain, and
      every URL host whose canonical name is another domain is represented. */
  lemma WebDomainsFound(d: Domain, prior: seq<LegacyMatch>, urls: seq<string>, parse: UrlParser, lookup: SuffixLookup)
    ensures var added := GetWebDomains(d, prior, urls, parse, lookup)[|prior|..];
            && NoDup(LegacyMatchedNames(added))
            && (forall i :: 0 <= i < |added| ==> added[i].domainName == d.domainName && added[i].matched.domainName != d.domainName)
            && (forall i :: 0 <= i < |urls| && parse(TrimSpace(urls[i])).Some?
                             && NewDomain(parse(TrimSpace(urls[i])).value.host, lookup, Legacy).domain.domainName != d.domainName ==>
                  NewDomain(parse(TrimSpace(urls[i])).value.host, lookup, Legacy).domain.domainName in LegacyMatchedNames(added))
  {
    var hosts := UrlHosts(urls, parse);
    var added := GetWebDomains(d, prior, urls, parse, lookup)[|prior|..];
    assert added == LegacyRows(hosts, lookup, d.domainName);
    LegacyRowsOnce(hosts, lookup, d.domainName);
    forall i | 0 <= i < |urls| && parse(TrimSpace(urls[i])).Some?
                && NewDomain(parse(TrimSpace(urls[i])).value.host, lookup, Legacy).domain.domainName != d.domainName
      ensures NewDomain(parse(TrimSpace(urls[i])).value.host, lookup, Legacy).domain.domainName in LegacyMatchedNames(added)
    {
      var k := HostsKeeps(OnTrimmed(urls, parse), i);
      assert hosts[k] == parse(TrimSpace(urls[i])).value.host;
    }
  }

  /** Every appended row is the legacy NewDomain of some sitemap URL's host. */
  lemma WebDomainSource(d: Domain, prior: seq<LegacyMatch>, urls: seq<string>, parse: UrlParser, lookup: SuffixLookup, k: nat)
    returns (i: nat)
    requires |prior| <= k < |GetWebDomains(d, prior, urls, parse, lookup)|
    ensures i < |urls| && parse(TrimSpace(urls[i])).Some?
    ensures GetWebDomains(d, prior, urls, parse, lookup)[k].matched
            == NewDomain(parse(TrimSpace(urls[i])).value.host, lookup, Legacy).domain
  {
    var hosts := UrlHosts(urls, parse);
    var all := LegacyParseAll(hosts, lookup);
    var added := LegacyRows(hosts, lookup, d.domainName);
    assert GetWebDomains(d, prior, urls, parse, lookup)[k] == added[k - |prior|];
    LegacyRowsOnce(hosts, lookup, d.domainName);
    var m :| 0 <= m < |all| && all[m] == added[k - |prior|].matched;
    i := HostsSource(OnTrimmed(urls, parse), m);
  }

  // ---------------------------------------------------------------------
  // Contact pages

  /** A URL that mentions "contact" and that robots.txt allows for "*". */
  predicate IsContactPage(u: string, allows: string -> bool)
  {
    Contains(u, "contact") && allows(u)
  }

  function ContactCandidates(urls: seq<string>, allows: string -> bool): (cs: seq<string>)
    ensures |cs| <= |urls|
  {
    if urls == [] then []
    else
      var rest := ContactCandidates(urls[1..], allows);
      if IsContactPage(urls[0], allows) then [urls[0]] + rest else rest
  }

  /** The candidates are exactly the contact pages among the URLs. */
  lemma {:induction false} ContactCandidatesMembers(urls: seq<string>, allows: string -> bool)
    ensures forall u :: u in ContactCandidates(urls, allows) <==> u in urls && IsContactPage(u, allows)
    decreases |urls|
  {
    if urls != [] {
      ContactCandidatesMembers(urls[1..], allows);
      assert urls == [urls[0]] + urls[1..];
    }
  }

  /** Candidates are picked in URL order: those of a prefix come first. */
  lemma {:induction false} ContactCandidatesConcat(a: seq<string>, b: seq<string>, allows: string -> bool)
    ensures ContactCandidates(a + b, allows) == ContactCandidates(a, allows) + ContactCandidates(b, allows)
    decreases |a|
  {
    if a == [] {
      assert a + b == b;
    } else {
      assert (a + b)[0] == a[0] && (a + b)[1..] == a[1..] + b;
      ContactCandidatesConcat(a[1..], b, allows);
    }
  }

  /** getContactPagesFromSitemap: the candidates, cut to the first 10. */
  function ContactPages(urls: seq<string>, allows: string -> bool): (pages: seq<string>)
    ensures |pages| <= ContactPageCap
    ensures |pages| <= |ContactCandidates(urls, allows)|
    ensures |pages| == |ContactCandidates(urls, allows)| || |pages| == ContactPageCap
    ensures pages == ContactCandidates(urls, allows)[..|pages|]
    ensures forall i :: 0 <= i < |pages| ==> pages[i] in urls && IsContactPage(pages[i], allows)
    ensures pages == [] <==> forall i :: 0 <= i < |urls| ==> !IsContactPage(urls[i], allows)
  {
    var cs := ContactCandidates(urls, allows);
    ContactCandidatesMembers(urls, allows);
    assert cs != [] ==> cs[0] in cs;
    if |cs| > ContactPageCap then
      assert cs[..ContactPageCap][0] == cs[0];
      cs[..ContactPageCap]
    else cs
  }

  /** The pages are the earliest ones: once a prefix of the URLs holds 10
      candidates, whatever follows it is never visited. */
  lemma ContactPagesEarliest(a: seq<string>, b: seq<string>, allows: string -> bool)
    requires |ContactCandidates(a, allows)| >= ContactPageCap
    ensures ContactPages(a + b, allows) == ContactPages(a, allows)
  {
    ContactCandidatesConcat(a, b, allows);
    var ca := ContactCandidates(a, allows);
    assert (ca + ContactCandidates(b, allows))[..ContactPageCap] == ca[..ContactPageCap];
  }

  /** Fewer than 10 pages means every contact page among the URLs is one. */
  lemma ContactPagesComplete(urls: seq<string>, allows: string -> bool)
    requires |ContactPages(urls, allows)| < ContactPageCap
    ensures forall i :: 0 <= i < |urls| && IsContactPage(urls[i], allows) ==> urls[i] in ContactPages(urls, allows)
  {
    ContactCandidatesMembers(urls, allows);
  }

  // ---------------------------------------------------------------------
  // Contact domains

  /** A match of the e-mail expression: it always holds an '@'. */
  type EmailMatch = s: string | '@' in s witness "@"

  /** regexp.FindAllString of the e-mail expression over a page body. */
  type EmailFinder = string -> seq<EmailMatch>

  /** The GET of a contact page through the proxy with status 200 and a
      readable body; None otherwise. */
  type PageFetch = string -> Option<string>

  /** The position of the first '@'. */
  function FirstAt(s: string): (i: nat)
    requires '@' in s
    ensures i < |s| && s[i] == '@' && '@' !in s[..i]
  {
    if s[0] == '@' then 0
    else
      assert s == [s[0]] + s[1..];
      var j := FirstAt(s[1..]);
      assert s[..j + 1] == [s[0]] + s[1..][..j];
      j + 1
  }

  /** strings.Split(m, "@")[1]: the text between the first '@' and the next
      one, or the end. */
  function AfterAt(m: EmailMatch): (part: string)
    ensures '@' !in part
  {
    var rest := m[FirstAt(m) + 1..];
    if '@' in rest then rest[..FirstAt(rest)] else rest
  }

  /** The first '@' of a + "@" + b, when a has none, is the one after a. */
  lemma FirstAtAfter(a: string, b: string)
    requires '@' !in a
    ensures '@' in a + "@" + b && FirstAt(a + "@" + b) == |a|
  {
    var m := a + "@" + b;
    assert m[|a|] == '@';
    assert m[..|a|] == a;
  }

  /** The second field of local@host@tail is host. */
  lemma AfterAtSplit(local: string, host: string, tail: string)
    requires '@' !in local && '@' !in host
    ensures var m := local + "@" + host + "@" + tail;
            && '@' in m
            && AfterAt(m) == host
  {
    var m := local + "@" + host + "@" + tail;
    assert m == local + "@" + (host + "@" + tail);
    FirstAtAfter(local, host + "@" + tail);
    assert m[|local| + 1..] == host + "@" + tail;
    FirstAtAfter(host, tail);
    assert (host + "@" + tail)[..|host|] == host;
  }

  /** The second field of local@host is host. */
  lemma AfterAtSingle(local: string, host: string)
    requires '@' !in local && '@' !in host
    ensures var m := local + "@" + host;
            && '@' in m
            && AfterAt(m) == host
  {
    var m := local + "@" + host;
    FirstAtAfter(local, host);
    assert m[|local| + 1..] == host;
  }

  /** The addresses on one contact page, or none when it could not be fetched. */
  function PageMatches(body: Option<string>, find: EmailFinder): seq<EmailMatch>
  {
    match body
    case None => []
    case Some(text) => find(text)
  }

  /** The addresses on all contact pages, page by page. */
  function AllMatches(bodies: seq<Option<string>>, find: EmailFinder): seq<EmailMatch>
  {
    if bodies == [] then [] else PageMatches(bodies[0], find) + AllMatches(bodies[1..], find)
  }

  /** Every address found on a fetched page is among all addresses. */
  lemma {:induction false} AllMatchesKeeps(bodies: seq<Option<string>>, find: EmailFinder, i: nat, j: nat)
    returns (k: nat)
    requires i < |bodies| && bodies[i].Some? && j < |find(bodies[i].value)|
    ensures k < |AllMatches(bodies, find)|
    ensures AllMatches(bodies, find)[k] == find(bodies[i].value)[j]
    decreases i
  {
    var here := PageMatches(bodies[0], find);
    var rest := AllMatches(bodies[1..], find);
    assert AllMatches(bodies, find) == here + rest;
    if i == 0 {
      k := j;
    } else {
      var k' := AllMatchesKeeps(bodies[1..], find, i - 1, j);
      k := |here| + k';
      assert (here + rest)[k] == rest[k'];
    }
  }

  /** The domain part of every address. */
  function EmailNames(ms: seq<EmailMatch>): (names: seq<string>)
    ensures |names| == |ms|
    ensures forall i :: 0 <= i < |ms| ==> names[i] == AfterAt(ms[i])
  {
    seq(|ms|, i requires 0 <= i < |ms| => AfterAt(ms[i]))
  }

  /** GetContactDomainsFromSitemap: the error when there is no contact page,
      otherwise rows for the canonical names of the addresses found,
      appended to the domain's sitemap contact domains. */
  function GetContactDomains(d: Domain, prior: seq<LegacyMatch>, urls: seq<string>, allows: string -> bool,
                             fetch: PageFetch, find: EmailFinder, lookup: SuffixLookup)
    : (r: (seq<LegacyMatch>, Option<Error>))
    ensures r.1.Some? <==> forall i :: 0 <= i < |urls| ==> !IsContactPage(urls[i], allows)
    ensures r.1.Some? ==> r == (prior, Some(NoContactPages))
    ensures |prior| <= |r.0| && r.0[..|prior|] == prior
  {
    var pages := ContactPages(urls, allows);
    if pages == [] then (prior, Some(NoContactPages))
    else
      var added := LegacyRows(EmailNames(AllMatches(OnTrimmed(pages, fetch), find)), lookup, d.domainName);
      assert (prior + added)[..|prior|] == prior;
      (prior + added, None)
  }

  /** One appended row per distinct name other than the probed domain, and
      every address on a fetched contact page whose canonical name is
      another domain is represented. */
  lemma ContactDomainsFound(d: Domain, prior: seq<LegacyMatch>, urls: seq<string>, allows: string -> bool,
                            fetch: PageFetch, find: EmailFinder, lookup: SuffixLookup)
    ensures var pages := ContactPages(urls, allows);
            var added := GetContactDomains(d, prior, urls, allows, fetch, find, lookup).0[|prior|..];
            && NoDup(LegacyMatchedNames(added))
            && (forall i :: 0 <= i < |added| ==> added[i].domainName == d.domainName && added[i].matched.domainName != d.domainName)
            && (forall i, j :: 0 <= i < |pages| && fetch(TrimSpace(pages[i])).Some?
                               && 0 <= j < |find(fetch(TrimSpace(pages[i])).value)|
                               && NewDomain(AfterAt(find(fetch(TrimSpace(pages[i])).value)[j]), lookup, Legacy).domain.domainName != d.domainName ==>
                  NewDomain(AfterAt(find(fetch(TrimSpace(pages[i])).value)[j]), lookup, Legacy).domain.domainName in LegacyMatchedNames(added))
  {
    var pages := ContactPages(urls, allows);
    var bodies := OnTrimmed(pages, fetch);
    var names := EmailNames(AllMatches(bodies, find));
    var added := GetContactDomains(d, prior, urls, allows, fetch, find, lookup).0[|prior|..];
    if pages == [] {
      assert added == [];
      assert LegacyMatchedNames(added) == [];
    } else {
      assert added == LegacyRows(names, lookup, d.domainName);
      LegacyRowsOnce(names, lookup, d.domainName);
      forall i, j | 0 <= i < |pages| && fetch(TrimSpace(pages[i])).Some?
                    && 0 <= j < |find(fetch(TrimSpace(pages[i])).value)|
                    && NewDomain(AfterAt(find(fetch(TrimSpace(pages[i])).value)[j]), lookup, Legacy).domain.domainName != d.domainName
        ensures NewDomain(AfterAt(find(fetch(TrimSpace(pages[i])).value)[j]), lookup, Legacy).domain.domainName in LegacyMatchedNames(added)
      {
        var k := AllMatchesKeeps(bodies, find, i, j);
        assert names[k] == AfterAt(find(fetch(TrimSpace(pages[i])).value)[j]);
      }
    }
  }

  // ---------------------------------------------------------------------
  // GetDomainsFromSitemap

  /** The probe's network and library results. */
  datatype SitemapNet = SitemapNet(parse: UrlParser, robots: RobotsFetch, fetch: SitemapFetch,
                                   page: PageFetch, find: EmailFinder, lookup: SuffixLookup)

  /** The probe's effect: the domain, its sitemap URLs, its sitemap web and
      contact domains, and the error returned. */
  datatype SitemapProbe = SitemapProbe(d: Domain, urls: seq<string>, web: seq<LegacyMatch>,
                                       contact: seq<LegacyMatch>, err: Option<Error>)

  /** The robots.txt a successful getRobotstxt read. */
  function RobotsRead(d: Domain, net: SitemapNet): Option<RobotsData>
  {
    match net.parse(d.webRedirectURLFinal)
    case None => None
    case Some(u) => net.robots(RobotsRoot(u) + "/robots.txt")
  }

  /** GetDomainsFromSitemap: nothing happens unless the domain landed on
      the web; then LastRanSitemapParse is set, a robots.txt failure is
      returned, and otherwise the crawl, the web domains and the contact
      domains run in that order, the last one's error being returned. */
  method GetDomainsFromSitemap(d: Domain, web: seq<LegacyMatch>, contact: seq<LegacyMatch>, net: SitemapNet,
                               fuel: nat, now: Time)
    returns (p: SitemapProbe)
    ensures !d.successfulWebLanding ==> p == SitemapProbe(d, [], web, contact, Some(NotLanded))
    ensures d.successfulWebLanding ==> p.d == d.(lastRanSitemapParse := now, sitemaps := p.d.sitemaps)
    ensures d.successfulWebLanding && RobotsRead(d, net).None? ==>
              p.d.sitemaps == d.sitemaps && p.urls == [] && p.web == web && p.contact == contact
              && p.err == GetRobots(d, net.parse, net.robots).1 && p.err.Some?
    ensures d.successfulWebLanding && RobotsRead(d, net).Some? ==>
              var robotsSms := GetRobots(d, net.parse, net.robots).0;
              var contacts := GetContactDomains(d, contact, p.urls, RobotsRead(d, net).value.allows, net.page, net.find, net.lookup);
              var crawl := CrawlFrom(robotsSms, NoCrawl, net.fetch, fuel);
              && p.d.sitemaps == robotsSms + crawl.added && p.urls == crawl.urls
              && ToSet(p.urls) == UrlsRead(crawl.visited, net.fetch, fuel)
              && |robotsSms| <= |p.d.sitemaps| && p.d.sitemaps[..|robotsSms|] == robotsSms
              && NoDup(p.urls)
              && p.web == GetWebDomains(d, web, p.urls, net.parse, net.lookup)
              && p.contact == contacts.0 && p.err == contacts.1
  {
    if !d.successfulWebLanding {
      return SitemapProbe(d, [], web, contact, Some(NotLanded));
    }
    var d0 := d.(lastRanSitemapParse := now);
    var (initial, err) := GetRobots(d, net.parse, net.robots);
    if err.Some? {
      return SitemapProbe(d0, [], web, contact, err);
    }
    var sitemaps, urls, _, _ := GetURLsFromSitemaps(initial, net.fetch, fuel);
    var web' := GetWebDomains(d, web, urls, net.parse, net.lookup);
    var (contact', err') := GetContactDomains(d, contact, urls, RobotsRead(d, net).value.allows, net.page, net.find, net.lookup);
    p := SitemapProbe(d0.(sitemaps := sitemaps), urls, web', contact', err');
  }
}
