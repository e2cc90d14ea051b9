/** The redirect probe: a GET of http://<domain> through the local proxy,
    following every redirect. The client's CheckRedirect closure sees each
    hop; the hosts it collects become related domains. The HTTP exchange is
    one parameter, its outcome. */
module WebRedirect {
  import opened Base
  import opened GoStrings
  import opened Records
  import opened Domains

  /** One redirect target as CheckRedirect sees it: req.URL.Hostname() and req.URL.String(). */
  datatype Hop = Hop(hostname: string, url: string)

  /** What client.Get produced: an error, or a response reached through hops. */
  datatype GetResult = RequestError | Landed(hops: seq<Hop>)

  /** The state the CheckRedirect closure updates: the hosts map (as a set) and finalURL. */
  datatype Follow = Follow(hosts: set<string>, finalURL: string)

  /** The registrable name a hop contributes, computed with the suffix list's
      private section included (IgnorePrivate: false), when it differs from
      the probed domain. */
  function HopName(h: Hop, fullLookup: SuffixLookup, dom: string): (n: Option<string>)
    ensures n.Some? <==> fullLookup(h.hostname).Match? && fullLookup(h.hostname).sld + "." + fullLookup(h.hostname).tld != dom
  {
    match fullLookup(h.hostname)
    case Match(sld, tld, _) => if sld + "." + tld != dom then Some(sld + "." + tld) else None
    case _ => None
  }

  /** One CheckRedirect call: record the hop's name, move finalURL to the hop. */
  function CheckRedirect(st: Follow, h: Hop, fullLookup: SuffixLookup, dom: string): Follow
  {
    var n := HopName(h, fullLookup, dom);
    Follow(if n.Some? then st.hosts + {n.value} else st.hosts, h.url)
  }

  /** The closure applied to every hop in order. */
  function FollowHops(st: Follow, hops: seq<Hop>, fullLookup: SuffixLookup, dom: string): Follow
    decreases |hops|
  {
    if |hops| == 0 then st else FollowHops(CheckRedirect(st, hops[0], fullLookup, dom), hops[1..], fullLookup, dom)
  }

  /** The closure's starting state: no hosts, finalURL = https://<domain>. */
  function Start(dom: string): Follow
  {
    Follow({}, "https://" + dom)
  }

  /** The closure's state after a redirect chain: the hosts are exactly
      the names the hops contribute, and finalURL is the last hop's URL, or
      the starting one when there was no redirect. */
  lemma {:induction false} FollowHopsState(st: Follow, hops: seq<Hop>, fullLookup: SuffixLookup, dom: string)
    ensures var r := FollowHops(st, hops, fullLookup, dom);
            && (forall n :: n in r.hosts <==>
                  (n in st.hosts || exists i :: 0 <= i < |hops| && HopName(hops[i], fullLookup, dom) == Some(n)))
            && r.finalURL == (if |hops| == 0 then st.finalURL else hops[|hops| - 1].url)
    decreases |hops|
  {
    if |hops| > 0 {
      var st' := CheckRedirect(st, hops[0], fullLookup, dom);
      FollowHopsState(st', hops[1..], fullLookup, dom);
      var r := FollowHops(st, hops, fullLookup, dom);
      forall n ensures n in r.hosts <==>
                  (n in st.hosts || exists i :: 0 <= i < |hops| && HopName(hops[i], fullLookup, dom) == Some(n))
      {
        if n in r.hosts && n !in st.hosts {
          if n in st'.hosts {
            assert HopName(hops[0], fullLookup, dom) == Some(n);
          } else {
            var i :| 0 <= i < |hops[1..]| && HopName(hops[1..][i], fullLookup, dom) == Some(n);
            assert hops[1..][i] == hops[i + 1];
          }
        }
        if exists i :: 0 <= i < |hops| && HopName(hops[i], fullLookup, dom) == Some(n) {
          var i :| 0 <= i < |hops| && HopName(hops[i], fullLookup, dom) == Some(n);
          if i > 0 {
            assert hops[1..][i - 1] == hops[i];
          }
        }
      }
      if |hops| > 1 {
        assert hops[1..][|hops[1..]| - 1] == hops[|hops| - 1];
      }
    }
  }

  /** The hosts collected for a redirect chain, none of them the probed domain. */
  function RedirectHosts(hops: seq<Hop>, fullLookup: SuffixLookup, dom: string): (hs: set<string>)
    ensures dom !in hs
  {
    FollowHopsNotSelf(Start(dom), hops, fullLookup, dom);
    FollowHops(Start(dom), hops, fullLookup, dom).hosts
  }

  lemma {:induction false} FollowHopsNotSelf(st: Follow, hops: seq<Hop>, fullLookup: SuffixLookup, dom: string)
    requires dom !in st.hosts
    ensures dom !in FollowHops(st, hops, fullLookup, dom).hosts
    decreases |hops|
  {
    if |hops| > 0 {
      FollowHopsNotSelf(CheckRedirect(st, hops[0], fullLookup, dom), hops[1..], fullLookup, dom);
    }
  }

  /** NewDomain of every host, in the order the loop visits them. */
  function ParseHosts(order: seq<string>, lookup: SuffixLookup): (ps: seq<Parsed>)
    ensures |ps| == |order|
    ensures forall i :: 0 <= i < |order| ==> ps[i] == NewDomain(order[i], lookup, Current)
  {
    seq(|order|, i requires 0 <= i < |order| => NewDomain(order[i], lookup, Current))
  }

  /** The entries the loop over hosts appends: one per host that NewDomain
      parses, named canonically, stamped with now. */
  function RedirectEntries(ps: seq<Parsed>, now: Time): (ms: seq<MatchedDomain>)
    ensures |ms| <= |ps|
    ensures forall i :: 0 <= i < |ms| ==> ms[i].createdAt == now && ms[i].updatedAt == now
    decreases |ps|
  {
    if |ps| == 0 then []
    else
      var rest := RedirectEntries(ps[1..], now);
      if ps[0].err.Some? then rest else [MatchedDomain(now, now, ps[0].domain.domainName)] + rest
  }

  /** A name is appended exactly when some visited host parses to it. */
  lemma {:induction false} RedirectEntriesNames(ps: seq<Parsed>, now: Time, n: string)
    ensures (n in MatchedNames(RedirectEntries(ps, now))) <==>
            (exists i :: 0 <= i < |ps| && ps[i].err.None? && ps[i].domain.domainName == n)
    decreases |ps|
  {
    if |ps| > 0 {
      var rest := RedirectEntries(ps[1..], now);
      RedirectEntriesNames(ps[1..], now, n);
      var ms := RedirectEntries(ps, now);
      if ps[0].err.None? {
        MatchedNamesAppend([MatchedDomain(now, now, ps[0].domain.domainName)], rest);
      }
      assert MatchedNames(ms) == (if ps[0].err.Some? then [] else [ps[0].domain.domainName]) + MatchedNames(rest);
      if exists i :: 0 <= i < |ps| && ps[i].err.None? && ps[i].domain.domainName == n {
        var i :| 0 <= i < |ps| && ps[i].err.None? && ps[i].domain.domainName == n;
        if i > 0 {
          assert ps[1..][i - 1] == ps[i];
        }
      }
      if n in MatchedNames(rest) {
        var i :| 0 <= i < |ps[1..]| && ps[1..][i].err.None? && ps[1..][i].domain.domainName == n;
        assert ps[1..][i] == ps[i + 1];
      }
    }
  }

  /** What the probe does once client.Get returned, given the entries the
      loop over hosts produced. */
  function Conclude(d: Domain, res: GetResult, fullLookup: SuffixLookup, entry: Time, entries: seq<MatchedDomain>)
    : (r: (Domain, Option<Error>))
  {
    var d0 := d.(lastRanWebRedirect := entry);
    match res
    case RequestError => (d0.(successfulWebLanding := false), Some(RequestFailed))
    case Landed(hops) =>
      var st := FollowHops(Start(d.domainName), hops, fullLookup, d.domainName);
      var d1 := d0.(webRedirectURLFinal := st.finalURL);
      if |st.hosts| == 0 then (d1.(successfulWebLanding := true), None)
      else (d1.(webRedirectDomains := d.webRedirectDomains + entries), None)
  }

  /** order is the iteration order Go's map happened to use: any
      enumeration of the collected hosts. */
  predicate EnumeratesHosts(res: GetResult, order: seq<string>, fullLookup: SuffixLookup, dom: string)
  {
    res.Landed? ==> NoDup(order) && ToSet(order) == RedirectHosts(res.hops, fullLookup, dom)
  }

  /** Everything but the four fields the probe writes is left alone. */
  predicate BesidesRedirect(a: Domain, b: Domain)
  {
    a.(lastRanWebRedirect := 0, successfulWebLanding := false, webRedirectURLFinal := "", webRedirectDomains := [])
    == b.(lastRanWebRedirect := 0, successfulWebLanding := false, webRedirectURLFinal := "", webRedirectDomains := [])
  }

  /** GetRedirectDomains exactly as written. entry is the instant taken on
      entry, now the one taken before the loop over hosts. */
  function GetRedirectDomainsAsWritten(d: Domain, res: GetResult, fullLookup: SuffixLookup, lookup: SuffixLookup,
                                       order: seq<string>, entry: Time, now: Time): (r: (Domain, Option<Error>))
    requires EnumeratesHosts(res, order, fullLookup, d.domainName)
    ensures r.0.lastRanWebRedirect == entry
    ensures r.1.Some? <==> res.RequestError?
    ensures res.RequestError? ==> r == (d.(lastRanWebRedirect := entry, successfulWebLanding := false), Some(RequestFailed))
    ensures BesidesRedirect(r.0, d)
    ensures |d.webRedirectDomains| <= |r.0.webRedirectDomains|
    ensures r.0.webRedirectDomains[..|d.webRedirectDomains|] == d.webRedirectDomains
  {
    Conclude(d, res, fullLookup, entry, RedirectEntries(ParseHosts(order, lookup), now))
  }

  /** The hosts are collected with the private section of the suffix list
      and compared with the probed domain before NewDomain canonicalises
      them without it: with a list where foo.github.io splits as
      foo + github.io (private rule) and as github + io (public rules only),
      a hop to foo.github.io while probing github.io appends github.io itself. */
  lemma SelfRedirectAppended(d: Domain, fullLookup: SuffixLookup, lookup: SuffixLookup, entry: Time, now: Time)
    requires d.domainName == "github.io"
    requires fullLookup("foo.github.io") == Match("foo", "github.io", "")
    requires lookup("foo.github.io") == Match("github", "io", "foo")
    ensures var hops := [Hop("foo.github.io", "https://foo.github.io/")];
            && EnumeratesHosts(Landed(hops), ["foo.github.io"], fullLookup, d.domainName)
            && GetRedirectDomainsAsWritten(d, Landed(hops), fullLookup, lookup, ["foo.github.io"], entry, now).0.webRedirectDomains
               == d.webRedirectDomains + [MatchedDomain(now, now, "github.io")]
  {
    var hops := [Hop("foo.github.io", "https://foo.github.io/")];
    SubdomainHopHosts(fullLookup);
    assert ToSet(["foo.github.io"]) == {"foo.github.io"};
    SubdomainHopEntries(lookup, now);
  }

  lemma SubdomainHopHosts(fullLookup: SuffixLookup)
    requires fullLookup("foo.github.io") == Match("foo", "github.io", "")
    ensures RedirectHosts([Hop("foo.github.io", "https://foo.github.io/")], fullLookup, "github.io") == {"foo.github.io"}
  {
    var hops := [Hop("foo.github.io", "https://foo.github.io/")];
    assert "foo.github.io" != "github.io" by { assert "foo.github.io"[0] != "github.io"[0]; }
    assert "foo" + "." + "github.io" == "foo.github.io";
    assert HopName(hops[0], fullLookup, "github.io") == Some("foo.github.io");
    assert hops[1..] == [];
  }

  lemma SubdomainHopEntries(lookup: SuffixLookup, now: Time)
    requires lookup("foo.github.io") == Match("github", "io", "foo")
    ensures RedirectEntries(ParseHosts(["foo.github.io"], lookup), now) == [MatchedDomain(now, now, "github.io")]
  {
    SubdomainHopCanonical(lookup);
    SingleHostEntries("foo.github.io", lookup, now);
  }

  /** One host that parses gives one entry, under its canonical name. */
  lemma SingleHostEntries(host: string, lookup: SuffixLookup, now: Time)
    requires NewDomain(host, lookup, Current).err.None?
    ensures RedirectEntries(ParseHosts([host], lookup), now)
            == [MatchedDomain(now, now, NewDomain(host, lookup, Current).domain.domainName)]
  {
    var ps := ParseHosts([host], lookup);
    assert ps == [ps[0]];
    assert ps[1..] == [];
  }

  lemma SubdomainHopCanonical(lookup: SuffixLookup)
    requires lookup("foo.github.io") == Match("github", "io", "foo")
    ensures NewDomain("foo.github.io", lookup, Current).err.None?
    ensures NewDomain("foo.github.io", lookup, Current).domain.domainName == "github.io"
  {
    TrimSpaceOfTrimmed("foo.github.io");
    ToLowerOfLower("github");
    ToLowerOfLower("io");
    NewDomainOutcome("foo.github.io", lookup, Current);
  }

  /** The correction: entries whose canonical name is the probed domain are skipped. */
  function Foreign(entries: seq<MatchedDomain>, dom: string): (ms: seq<MatchedDomain>)
    ensures |ms| <= |entries|
    ensures forall i :: 0 <= i < |ms| ==> ms[i] in entries && ms[i].domainName != dom
    decreases |entries|
  {
    if |entries| == 0 then []
    else
      var rest := Foreign(entries[1..], dom);
      if entries[0].domainName == dom then rest else [entries[0]] + rest
  }

  /** Skipping the probed domain drops nothing else. */
  lemma {:induction false} ForeignKeeps(entries: seq<MatchedDomain>, dom: string, i: nat) returns (k: nat)
    requires i < |entries| && entries[i].domainName != dom
    ensures k < |Foreign(entries, dom)| && Foreign(entries, dom)[k] == entries[i]
    decreases i
  {
    if i == 0 {
      k := 0;
    } else {
      assert entries[1..][i - 1] == entries[i];
      var k' := ForeignKeeps(entries[1..], dom, i - 1);
      k := if entries[0].domainName == dom then k' else k' + 1;
    }
  }

  /** GetRedirectDomains with the probed domain kept out of its own
      redirect list, which the rest of the model uses. */
  function GetRedirectDomains(d: Domain, res: GetResult, fullLookup: SuffixLookup, lookup: SuffixLookup,
                              order: seq<string>, entry: Time, now: Time): (r: (Domain, Option<Error>))
    requires EnumeratesHosts(res, order, fullLookup, d.domainName)
    ensures r.0.lastRanWebRedirect == entry
    ensures r.1.Some? <==> res.RequestError?
    ensures res.RequestError? ==> r == (d.(lastRanWebRedirect := entry, successfulWebLanding := false), Some(RequestFailed))
    ensures BesidesRedirect(r.0, d)
    ensures |d.webRedirectDomains| <= |r.0.webRedirectDomains|
    ensures r.0.webRedirectDomains[..|d.webRedirectDomains|] == d.webRedirectDomains
  {
    var entries := Foreign(RedirectEntries(ParseHosts(order, lookup), now), d.domainName);
    Conclude(d, res, fullLookup, entry, entries)
  }

  /** Every appended entry names another domain than the probed one and is
      stamped with the instant taken before the loop. */
  lemma GetRedirectDomainsStamps(d: Domain, res: GetResult, fullLookup: SuffixLookup, lookup: SuffixLookup,
                                 order: seq<string>, entry: Time, now: Time)
    requires EnumeratesHosts(res, order, fullLookup, d.domainName)
    ensures var ws := GetRedirectDomains(d, res, fullLookup, lookup, order, entry, now).0.webRedirectDomains;
            forall i :: |d.webRedirectDomains| <= i < |ws| ==>
              ws[i].domainName != d.domainName && ws[i].createdAt == now && ws[i].updatedAt == now
  {
    var ws := GetRedirectDomains(d, res, fullLookup, lookup, order, entry, now).0.webRedirectDomains;
    var entries := Foreign(RedirectEntries(ParseHosts(order, lookup), now), d.domainName);
    if ws != d.webRedirectDomains {
      assert ws == d.webRedirectDomains + entries;
      forall i | |d.webRedirectDomains| <= i < |ws|
        ensures ws[i].domainName != d.domainName && ws[i].createdAt == now && ws[i].updatedAt == now
      {
        assert ws[i] == entries[i - |d.webRedirectDomains|];
        assert ws[i] in RedirectEntries(ParseHosts(order, lookup), now);
      }
    }
  }

  /** After a successful GET, whatever the loop over hosts produced: the
      final URL is the last hop's, or https://<domain> without redirects; a
      chain that collected no host counts as a landing and appends nothing,
      otherwise the landing flag is untouched. */
  lemma ConcludeLanded(d: Domain, hops: seq<Hop>, fullLookup: SuffixLookup, entry: Time, entries: seq<MatchedDomain>)
    ensures var r := Conclude(d, Landed(hops), fullLookup, entry, entries).0;
            && r.webRedirectURLFinal == (if |hops| == 0 then "https://" + d.domainName else hops[|hops| - 1].url)
            && ((forall i :: 0 <= i < |hops| ==> HopName(hops[i], fullLookup, d.domainName).None?) ==>
                  r.successfulWebLanding && r.webRedirectDomains == d.webRedirectDomains)
            && ((exists i :: 0 <= i < |hops| && HopName(hops[i], fullLookup, d.domainName).Some?) ==>
                  r.successfulWebLanding == d.successfulWebLanding && r.webRedirectDomains == d.webRedirectDomains + entries)
  {
    var st := FollowHops(Start(d.domainName), hops, fullLookup, d.domainName);
    FollowHopsState(Start(d.domainName), hops, fullLookup, d.domainName);
    if exists i :: 0 <= i < |hops| && HopName(hops[i], fullLookup, d.domainName).Some? {
      var i :| 0 <= i < |hops| && HopName(hops[i], fullLookup, d.domainName).Some?;
      assert HopName(hops[i], fullLookup, d.domainName).value in st.hosts;
    } else {
      assert st.hosts == {};
    }
  }

  /** The source's landing rules, for the program as written. */
  lemma GetRedirectDomainsAsWrittenLanded(d: Domain, hops: seq<Hop>, fullLookup: SuffixLookup, lookup: SuffixLookup,
                                          order: seq<string>, entry: Time, now: Time)
    requires EnumeratesHosts(Landed(hops), order, fullLookup, d.domainName)
    ensures var r := GetRedirectDomainsAsWritten(d, Landed(hops), fullLookup, lookup, order, entry, now).0;
            && r.webRedirectURLFinal == (if |hops| == 0 then "https://" + d.domainName else hops[|hops| - 1].url)
            && ((forall i :: 0 <= i < |hops| ==> HopName(hops[i], fullLookup, d.domainName).None?) ==>
                  r.successfulWebLanding && r.webRedirectDomains == d.webRedirectDomains)
            && ((exists i :: 0 <= i < |hops| && HopName(hops[i], fullLookup, d.domainName).Some?) ==>
                  r.successfulWebLanding == d.successfulWebLanding)
  {
    ConcludeLanded(d, hops, fullLookup, entry, RedirectEntries(ParseHosts(order, lookup), now));
  }

  /** The same landing rules hold of the corrected probe. */
  lemma GetRedirectDomainsLanded(d: Domain, hops: seq<Hop>, fullLookup: SuffixLookup, lookup: SuffixLookup,
                                 order: seq<string>, entry: Time, now: Time)
    requires EnumeratesHosts(Landed(hops), order, fullLookup, d.domainName)
    ensures var r := GetRedirectDomains(d, Landed(hops), fullLookup, lookup, order, entry, now).0;
            && r.webRedirectURLFinal == (if |hops| == 0 then "https://" + d.domainName else hops[|hops| - 1].url)
            && ((forall i :: 0 <= i < |hops| ==> HopName(hops[i], fullLookup, d.domainName).None?) ==>
                  r.successfulWebLanding && r.webRedirectDomains == d.webRedirectDomains)
            && ((exists i :: 0 <= i < |hops| && HopName(hops[i], fullLookup, d.domainName).Some?) ==>
                  r.successfulWebLanding == d.successfulWebLanding)
  {
    ConcludeLanded(d, hops, fullLookup, entry, Foreign(RedirectEntries(ParseHosts(order, lookup), now), d.domainName));
  }

  /** The appended names are exactly the canonical names of the collected
      hosts that NewDomain parses, other than the probed domain. */
  lemma GetRedirectDomainsAppends(d: Domain, hops: seq<Hop>, fullLookup: SuffixLookup, lookup: SuffixLookup,
                                  order: seq<string>, entry: Time, now: Time, n: string)
    requires EnumeratesHosts(Landed(hops), order, fullLookup, d.domainName)
    requires RedirectHosts(hops, fullLookup, d.domainName) != {}
    ensures var r := GetRedirectDomains(d, Landed(hops), fullLookup, lookup, order, entry, now).0;
            var added := r.webRedirectDomains[|d.webRedirectDomains|..];
            && added == EntriesFor(KeptHosts(order, lookup, Some(d.domainName)), lookup, now)
            && |added| == |set h | h in RedirectHosts(hops, fullLookup, d.domainName) && Kept(h, lookup, Some(d.domainName))|
            && (n in MatchedNames(added) <==>
                  (n != d.domainName && exists h :: h in RedirectHosts(hops, fullLookup, d.domainName)
                                                   && NewDomain(h, lookup, Current).err.None?
                                                   && NewDomain(h, lookup, Current).domain.domainName == n))
  {
    var all := RedirectEntries(ParseHosts(order, lookup), now);
    var entries := Foreign(all, d.domainName);
    var r := GetRedirectDomains(d, Landed(hops), fullLookup, lookup, order, entry, now).0;
    assert r.webRedirectDomains[|d.webRedirectDomains|..] == entries by {
      assert r.webRedirectDomains == d.webRedirectDomains + entries;
    }
    ForeignNames(all, d.domainName, n);
    HostEntryNames(order, RedirectHosts(hops, fullLookup, d.domainName), lookup, now, n);
    ForeignAsKept(order, lookup, now, d.domainName);
    KeptHostsCount(order, RedirectHosts(hops, fullLookup, d.domainName), lookup, Some(d.domainName));
  }

  /** Over an enumeration of a host set, a name is among the entries exactly
      when some host of the set parses to it. */
  lemma HostEntryNames(order: seq<string>, hosts: set<string>, lookup: SuffixLookup, now: Time, n: string)
    requires ToSet(order) == hosts
    ensures n in MatchedNames(RedirectEntries(ParseHosts(order, lookup), now)) <==>
              exists h :: h in hosts && NewDomain(h, lookup, Current).err.None?
                          && NewDomain(h, lookup, Current).domain.domainName == n
  {
    var ps := ParseHosts(order, lookup);
    RedirectEntriesNames(ps, now, n);
    if n in MatchedNames(RedirectEntries(ps, now)) {
      var i :| 0 <= i < |ps| && ps[i].err.None? && ps[i].domain.domainName == n;
      assert order[i] in hosts;
    }
    if exists h :: h in hosts && NewDomain(h, lookup, Current).err.None? && NewDomain(h, lookup, Current).domain.domainName == n {
      var h :| h in hosts && NewDomain(h, lookup, Current).err.None? && NewDomain(h, lookup, Current).domain.domainName == n;
      var i :| 0 <= i < |order| && order[i] == h;
      assert ps[i] == NewDomain(h, lookup, Current);
    }
  }

  /** Foreign keeps exactly the names other than dom. */
  lemma ForeignNames(entries: seq<MatchedDomain>, dom: string, n: string)
    ensures n in MatchedNames(Foreign(entries, dom)) <==> n != dom && n in MatchedNames(entries)
  {
    var ms := Foreign(entries, dom);
    if n in MatchedNames(ms) {
      var k :| 0 <= k < |ms| && MatchedNames(ms)[k] == n;
      assert ms[k] in entries;
      var j :| 0 <= j < |entries| && entries[j] == ms[k];
      assert MatchedNames(entries)[j] == n;
    }
    if n != dom && n in MatchedNames(entries) {
      var j :| 0 <= j < |entries| && MatchedNames(entries)[j] == n;
      var k := ForeignKeeps(entries, dom, j);
      assert MatchedNames(ms)[k] == n;
    }
  }

  /** Whether the loop over hosts appends an entry for host h: NewDomain
      parses it and, when skip names a domain, its canonical name is not
      that domain. */
  predicate Kept(h: string, lookup: SuffixLookup, skip: Option<string>)
  {
    NewDomain(h, lookup, Current).err.None?
    && (skip.None? || NewDomain(h, lookup, Current).domain.domainName != skip.value)
  }

  /** The hosts of an enumeration that get an entry, in loop order. */
  function KeptHosts(hs: seq<string>, lookup: SuffixLookup, skip: Option<string>): (ks: seq<string>)
    ensures forall i :: 0 <= i < |ks| ==> ks[i] in hs && Kept(ks[i], lookup, skip)
    decreases |hs|
  {
    if |hs| == 0 then []
    else
      var rest := KeptHosts(hs[1..], lookup, skip);
      if Kept(hs[0], lookup, skip) then [hs[0]] + rest else rest
  }

  /** The entry appended for one host: its canonical name, stamped with now. */
  function EntryFor(h: string, lookup: SuffixLookup, now: Time): MatchedDomain
  {
    MatchedDomain(now, now, NewDomain(h, lookup, Current).domain.domainName)
  }

  /** One entry per host, in order. */
  function EntriesFor(hs: seq<string>, lookup: SuffixLookup, now: Time): (ms: seq<MatchedDomain>)
    ensures |ms| == |hs|
    ensures forall i :: 0 <= i < |hs| ==> ms[i] == EntryFor(hs[i], lookup, now)
  {
    seq(|hs|, i requires 0 <= i < |hs| => EntryFor(hs[i], lookup, now))
  }

  lemma EntriesForCons(h: string, hs: seq<string>, lookup: SuffixLookup, now: Time)
    ensures EntriesFor([h] + hs, lookup, now) == [EntryFor(h, lookup, now)] + EntriesFor(hs, lookup, now)
  {
    var l := EntriesFor([h] + hs, lookup, now);
    var r := [EntryFor(h, lookup, now)] + EntriesFor(hs, lookup, now);
    assert |l| == |r|;
    forall i | 0 <= i < |l| ensures l[i] == r[i] {
      if i > 0 {
        assert ([h] + hs)[i] == hs[i - 1];
      }
    }
  }

  /** The loop as written appends one entry per host that NewDomain parses,
      in enumeration order. */
  lemma {:induction false} EntriesAsKept(order: seq<string>, lookup: SuffixLookup, now: Time)
    ensures RedirectEntries(ParseHosts(order, lookup), now) == EntriesFor(KeptHosts(order, lookup, None), lookup, now)
    decreases |order|
  {
    if |order| > 0 {
      assert ParseHosts(order, lookup)[1..] == ParseHosts(order[1..], lookup);
      EntriesAsKept(order[1..], lookup, now);
      if Kept(order[0], lookup, None) {
        EntriesForCons(order[0], KeptHosts(order[1..], lookup, None), lookup, now);
      }
    }
  }

  /** The corrected loop appends one entry per host that NewDomain parses to
      a name other than dom, in enumeration order. */
  lemma {:induction false} ForeignAsKept(order: seq<string>, lookup: SuffixLookup, now: Time, dom: string)
    ensures Foreign(RedirectEntries(ParseHosts(order, lookup), now), dom)
            == EntriesFor(KeptHosts(order, lookup, Some(dom)), lookup, now)
    decreases |order|
  {
    if |order| > 0 {
      var ps := ParseHosts(order, lookup);
      assert ps[1..] == ParseHosts(order[1..], lookup);
      ForeignAsKept(order[1..], lookup, now, dom);
      var rest := RedirectEntries(ps[1..], now);
      if ps[0].err.None? {
        var e := MatchedDomain(now, now, ps[0].domain.domainName);
        assert ([e] + rest)[1..] == rest;
        if Kept(order[0], lookup, Some(dom)) {
          EntriesForCons(order[0], KeptHosts(order[1..], lookup, Some(dom)), lookup, now);
        }
      }
    }
  }

  /** The kept hosts are, as a set, exactly the enumerated hosts that pass Kept. */
  lemma {:induction false} KeptHostsSet(hs: seq<string>, lookup: SuffixLookup, skip: Option<string>)
    ensures ToSet(KeptHosts(hs, lookup, skip)) == set h | h in hs && Kept(h, lookup, skip)
    decreases |hs|
  {
    if |hs| > 0 {
      var tl := hs[1..];
      KeptHostsSet(tl, lookup, skip);
      var rest := KeptHosts(tl, lookup, skip);
      assert forall h :: h in hs <==> h == hs[0] || h in tl by {
        assert hs == [hs[0]] + tl;
      }
      if Kept(hs[0], lookup, skip) {
        assert ToSet([hs[0]] + rest) == {hs[0]} + ToSet(rest);
      }
    }
  }

  /** Over a duplicate-free enumeration, the kept hosts are duplicate-free. */
  lemma {:induction false} KeptHostsNoDup(hs: seq<string>, lookup: SuffixLookup, skip: Option<string>)
    requires NoDup(hs)
    ensures NoDup(KeptHosts(hs, lookup, skip))
    decreases |hs|
  {
    if |hs| > 0 {
      var tl := hs[1..];
      assert NoDup(tl) by {
        forall i, j | 0 <= i < j < |tl| ensures tl[i] != tl[j] {
          assert tl[i] == hs[i + 1] && tl[j] == hs[j + 1];
        }
      }
      KeptHostsNoDup(tl, lookup, skip);
      var rest := KeptHosts(tl, lookup, skip);
      if Kept(hs[0], lookup, skip) {
        forall i | 0 <= i < |rest| ensures rest[i] !in [hs[0]] {
          var j :| 0 <= j < |tl| && tl[j] == rest[i];
          assert tl[j] == hs[j + 1];
        }
        NoDupConcat([hs[0]], rest);
      }
    }
  }

  /** How many entries a loop appends: the number of distinct hosts that pass Kept. */
  lemma KeptHostsCount(order: seq<string>, hosts: set<string>, lookup: SuffixLookup, skip: Option<string>)
    requires NoDup(order) && ToSet(order) == hosts
    ensures |KeptHosts(order, lookup, skip)| == |set h | h in hosts && Kept(h, lookup, skip)|
  {
    KeptHostsSet(order, lookup, skip);
    KeptHostsNoDup(order, lookup, skip);
    NoDupCard(KeptHosts(order, lookup, skip));
    assert (set h | h in order && Kept(h, lookup, skip)) == set h | h in hosts && Kept(h, lookup, skip);
  }

  /** As written, a chain that collected hosts appends one entry per
      collected host that NewDomain parses, the probed domain included. */
  lemma GetRedirectDomainsAsWrittenAppends(d: Domain, hops: seq<Hop>, fullLookup: SuffixLookup, lookup: SuffixLookup,
                                           order: seq<string>, entry: Time, now: Time)
    requires EnumeratesHosts(Landed(hops), order, fullLookup, d.domainName)
    requires RedirectHosts(hops, fullLookup, d.domainName) != {}
    ensures var r := GetRedirectDomainsAsWritten(d, Landed(hops), fullLookup, lookup, order, entry, now).0;
            var added := r.webRedirectDomains[|d.webRedirectDomains|..];
            && added == EntriesFor(KeptHosts(order, lookup, None), lookup, now)
            && |added| == |set h | h in RedirectHosts(hops, fullLookup, d.domainName) && Kept(h, lookup, None)|
  {
    var hosts := RedirectHosts(hops, fullLookup, d.domainName);
    var entries := RedirectEntries(ParseHosts(order, lookup), now);
    var r := GetRedirectDomainsAsWritten(d, Landed(hops), fullLookup, lookup, order, entry, now).0;
    assert r.webRedirectDomains[|d.webRedirectDomains|..] == entries by {
      assert r.webRedirectDomains == d.webRedirectDomains + entries;
    }
    EntriesAsKept(order, lookup, now);
    KeptHostsCount(order, hosts, lookup, None);
  }

  /** The correction only drops, from what the program as written appends,
      the entries named after the probed domain; everything else agrees. */
  lemma CorrectionOnlyFilters(d: Domain, res: GetResult, fullLookup: SuffixLookup, lookup: SuffixLookup,
                              order: seq<string>, entry: Time, now: Time)
    requires EnumeratesHosts(res, order, fullLookup, d.domainName)
    ensures var w := GetRedirectDomainsAsWritten(d, res, fullLookup, lookup, order, entry, now);
            var added := w.0.webRedirectDomains[|d.webRedirectDomains|..];
            GetRedirectDomains(d, res, fullLookup, lookup, order, entry, now)
              == (w.0.(webRedirectDomains := d.webRedirectDomains + Foreign(added, d.domainName)), w.1)
  {
    var entries := RedirectEntries(ParseHosts(order, lookup), now);
    var w := GetRedirectDomainsAsWritten(d, res, fullLookup, lookup, order, entry, now);
    var c := GetRedirectDomains(d, res, fullLookup, lookup, order, entry, now);
    var added := w.0.webRedirectDomains[|d.webRedirectDomains|..];
    if res.RequestError? || |FollowHops(Start(d.domainName), res.hops, fullLookup, d.domainName).hosts| == 0 {
      if res.Landed? && |order| > 0 {
        assert order[0] in ToSet(order);
      }
      assert w.0.webRedirectDomains == d.webRedirectDomains;
      assert added == [];
      assert Foreign(added, d.domainName) == [];
      assert d.webRedirectDomains + [] == d.webRedirectDomains;
      assert c.0.webRedirectDomains == d.webRedirectDomains;
    } else {
      assert w.0.webRedirectDomains == d.webRedirectDomains + entries;
      assert added == entries;
    }
  }
}
