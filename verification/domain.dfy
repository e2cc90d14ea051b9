/** The domain aggregate: canonical identity from the public-suffix lookup,
    freshness timestamps, probe results, the row store's conflict-merge rule
    and the flat warehouse row. Both the current package (domains/) and the
    legacy one (types/) are covered; they differ only in case folding. */
module Domains {
  import opened Base
  import opened GoStrings
  import opened Records

  /** What the public-suffix library answers for a name (private suffixes
      ignored): an error, no rule at all, or the second-level, top-level and
      remaining labels. The library itself is not modelled: every operation
      takes the lookup as a parameter. */
  datatype LookupResult = LookupError | NoMatch | Match(sld: string, tld: string, trd: string)

  type SuffixLookup = string -> LookupResult

  /** The current package lower-cases the parts; the legacy one keeps them as found. */
  datatype Variant = Current | Legacy

  datatype Domain = Domain(
    domainName: string,
    createdAt: Time,
    updatedAt: Time,
    nonPublicDomain: bool,
    hostname: string,
    subdomain: string,
    suffix: string,
    successfulWebLanding: bool,
    webRedirectURLFinal: string,
    lastRanWebRedirect: Time,
    lastRanDns: Time,
    lastRanCertSans: Time,
    lastRanSitemapParse: Time,
    aRecords: seq<DnsRecord>,
    aaaaRecords: seq<DnsRecord>,
    mxRecords: seq<DnsRecord>,
    soaRecords: seq<DnsRecord>,
    sitemaps: seq<Sitemap>,
    webRedirectDomains: seq<MatchedDomain>,
    certSans: seq<MatchedDomain>,
    sitemapWebDomains: seq<MatchedDomain>,
    sitemapContactDomains: seq<MatchedDomain>)

  /** &Domain{DomainName: name}: every other field at its zero value. */
  function Blank(name: string): Domain
  {
    Domain(name, ZeroTime, ZeroTime, false, "", "", "", false, "",
           ZeroTime, ZeroTime, ZeroTime, ZeroTime, [], [], [], [], [], [], [], [], [])
  }

  function Fold(v: Variant, s: string): string
  {
    match v
    case Current => ToLower(s)
    case Legacy => s
  }

  /** NewDomain returns the domain together with an error, never one alone. */
  datatype Parsed = Parsed(domain: Domain, err: Option<Error>)

  /** parseDomain: looks d's name up and fills the identity fields in place. */
  function ParseDomain(d: Domain, lookup: SuffixLookup, v: Variant): Parsed
  {
    match lookup(d.domainName)
    case LookupError => Parsed(d, Some(LookupFailed))
    case NoMatch => Parsed(d.(nonPublicDomain := true), Some(NotPublicSuffix))
    case Match(sld, tld, trd) =>
      Parsed(d.(domainName := Fold(v, sld) + "." + Fold(v, tld),
                hostname := Fold(v, sld),
                subdomain := Fold(v, trd),
                suffix := Fold(v, tld),
                nonPublicDomain := false), None)
  }

  /** NewDomain: trims the input, then classifies it by the suffix lookup.
      The domain comes back even when the error is set. */
  function NewDomain(raw: string, lookup: SuffixLookup, v: Variant): (p: Parsed)
    ensures p.err == None <==> lookup(TrimSpace(raw)).Match?
    ensures p.err.Some? ==> p.domain.domainName == TrimSpace(raw)
  {
    ParseDomain(Blank(TrimSpace(raw)), lookup, v)
  }

  /** The three outcomes of NewDomain: a lookup error leaves the trimmed
      name and the flag unset; no match flags the domain non-public and
      keeps the trimmed name; a match fills name, hostname, subdomain and
      suffix from the parts, folded for the variant. */
  lemma NewDomainOutcome(raw: string, lookup: SuffixLookup, v: Variant)
    ensures var p := NewDomain(raw, lookup, v);
            var t := TrimSpace(raw);
            && (lookup(t).LookupError? ==>
                  p.domain == Blank(t) && p.err == Some(LookupFailed) && !p.domain.nonPublicDomain)
            && (lookup(t).NoMatch? ==>
                  p.domain == Blank(t).(nonPublicDomain := true) && p.err == Some(NotPublicSuffix))
            && (lookup(t).Match? ==>
                  && p.domain.domainName == Fold(v, lookup(t).sld) + "." + Fold(v, lookup(t).tld)
                  && p.domain.hostname == Fold(v, lookup(t).sld)
                  && p.domain.subdomain == Fold(v, lookup(t).trd)
                  && p.domain.suffix == Fold(v, lookup(t).tld)
                  && !p.domain.nonPublicDomain)
  {
  }

  /** The identity invariant: a classified domain's name is hostname.suffix,
      an unclassified one carries no identity parts. */
  predicate IdentityConsistent(d: Domain)
  {
    && (!d.nonPublicDomain && d.hostname != "" ==> d.domainName == d.hostname + "." + d.suffix)
    && (d.nonPublicDomain ==> d.hostname == "" && d.subdomain == "" && d.suffix == "")
  }

  /** Whatever the lookup answers, NewDomain yields a consistent identity with
      no probe state; in the current package it is entirely lower-case. */
  lemma NewDomainConsistent(raw: string, lookup: SuffixLookup, v: Variant)
    ensures var p := NewDomain(raw, lookup, v);
            && IdentityConsistent(p.domain)
            && (p.err == None ==> p.domain.domainName == p.domain.hostname + "." + p.domain.suffix)
            && (p.err == None && v == Current ==>
                  IsLower(p.domain.domainName) && IsLower(p.domain.hostname)
                  && IsLower(p.domain.subdomain) && IsLower(p.domain.suffix))
            && p.domain.(domainName := "", nonPublicDomain := false, hostname := "", subdomain := "", suffix := "")
               == Blank("")
  {
    var p := NewDomain(raw, lookup, v);
    if p.err == None && v == Current {
      var m := lookup(TrimSpace(raw));
      ToLowerConcat(m.sld, ".");
      ToLowerConcat(m.sld + ".", m.tld);
    }
  }

  /** Leading and trailing white space never changes the outcome. */
  lemma NewDomainIgnoresSurroundingSpace(raw: string, lookup: SuffixLookup, v: Variant)
    ensures NewDomain(raw, lookup, v) == NewDomain(TrimSpace(raw), lookup, v)
  {
    TrimSpaceIdempotent(raw);
  }

  /** The current package is the legacy one followed by lower-casing the
      identity parts; failures are identical in both. */
  lemma CurrentIsLoweredLegacy(raw: string, lookup: SuffixLookup)
    ensures var c := NewDomain(raw, lookup, Current);
            var l := NewDomain(raw, lookup, Legacy);
            && c.err == l.err
            && (l.err != None ==> c == l)
            && (l.err == None ==>
                  c.domain == l.domain.(domainName := ToLower(l.domain.domainName),
                                        hostname := ToLower(l.domain.hostname),
                                        subdomain := ToLower(l.domain.subdomain),
                                        suffix := ToLower(l.domain.suffix)))
  {
    var l := NewDomain(raw, lookup, Legacy);
    if l.err == None {
      var m := lookup(TrimSpace(raw));
      ToLowerConcat(m.sld, ".");
      ToLowerConcat(m.sld + ".", m.tld);
    }
  }

  /** Re-parsing a canonical name reproduces the identity, except that the
      subdomain, no longer part of the name, comes back empty — provided the
      lookup classifies the canonical name by the same parts. */
  lemma ReparseDropsOnlySubdomain(raw: string, lookup: SuffixLookup)
    requires NewDomain(raw, lookup, Current).err == None
    requires var d := NewDomain(raw, lookup, Current).domain;
             && (forall i :: 0 <= i < |d.domainName| ==> !IsSpace(d.domainName[i]))
             && lookup(d.domainName) == Match(d.hostname, d.suffix, "")
    ensures var d := NewDomain(raw, lookup, Current).domain;
            NewDomain(d.domainName, lookup, Current) == Parsed(d.(subdomain := ""), None)
  {
    var d := NewDomain(raw, lookup, Current).domain;
    NewDomainConsistent(raw, lookup, Current);
    TrimSpaceOfTrimmed(d.domainName);
    ToLowerOfLower(d.hostname);
    ToLowerOfLower(d.suffix);
    ToLowerOfLower("");
  }

  // ---------------------------------------------------------------------
  // Freshness and the row store's insert-conflict rule

  /** The five timestamps the conflict rule merges. */
  datatype Freshness = Freshness(updatedAt: Time, webRedirect: Time, dns: Time, certSans: Time, sitemapParse: Time)

  function FreshnessOf(d: Domain): Freshness
  {
    Freshness(d.updatedAt, d.lastRanWebRedirect, d.lastRanDns, d.lastRanCertSans, d.lastRanSitemapParse)
  }

  predicate NotOlder(a: Freshness, b: Freshness)
  {
    a.updatedAt >= b.updatedAt && a.webRedirect >= b.webRedirect && a.dns >= b.dns
    && a.certSans >= b.certSans && a.sitemapParse >= b.sitemapParse
  }

  function MaxFreshness(a: Freshness, b: Freshness): Freshness
  {
    Freshness(Max(a.updatedAt, b.updatedAt), Max(a.webRedirect, b.webRedirect), Max(a.dns, b.dns),
              Max(a.certSans, b.certSans), Max(a.sitemapParse, b.sitemapParse))
  }

  /** a and b agree on every column except the five merged timestamps. */
  predicate SameBesidesFreshness(a: Domain, b: Domain)
  {
    a.(updatedAt := 0, lastRanWebRedirect := 0, lastRanDns := 0, lastRanCertSans := 0, lastRanSitemapParse := 0)
    == b.(updatedAt := 0, lastRanWebRedirect := 0, lastRanDns := 0, lastRanCertSans := 0, lastRanSitemapParse := 0)
  }

  /** ON CONFLICT (domain_name) DO UPDATE: the five timestamps become the
      greater of stored and incoming; every other stored column stays. */
  function MergeOnConflict(stored: Domain, incoming: Domain): (m: Domain)
    ensures SameBesidesFreshness(m, stored)
    ensures FreshnessOf(m) == MaxFreshness(FreshnessOf(stored), FreshnessOf(incoming))
  {
    stored.(updatedAt := Max(stored.updatedAt, incoming.updatedAt),
            lastRanWebRedirect := Max(stored.lastRanWebRedirect, incoming.lastRanWebRedirect),
            lastRanDns := Max(stored.lastRanDns, incoming.lastRanDns),
            lastRanCertSans := Max(stored.lastRanCertSans, incoming.lastRanCertSans),
            lastRanSitemapParse := Max(stored.lastRanSitemapParse, incoming.lastRanSitemapParse))
  }

  /** Replaying the same conflicting insert changes nothing more. */
  lemma MergeIdempotent(stored: Domain, incoming: Domain)
    ensures MergeOnConflict(MergeOnConflict(stored, incoming), incoming) == MergeOnConflict(stored, incoming)
  {
  }

  /** Two conflicting inserts leave the timestamps at their componentwise
      maximum, in whichever order they arrive. */
  lemma MergeOrderIrrelevant(stored: Domain, first: Domain, second: Domain)
    ensures MergeOnConflict(MergeOnConflict(stored, first), second)
         == MergeOnConflict(MergeOnConflict(stored, second), first)
    ensures NotOlder(FreshnessOf(MergeOnConflict(MergeOnConflict(stored, first), second)), FreshnessOf(first))
    ensures NotOlder(FreshnessOf(MergeOnConflict(MergeOnConflict(stored, first), second)), FreshnessOf(second))
  {
  }

  /** The row store's domains table, keyed by domain_name. */
  type DomainTable = map<string, Domain>

  /** Create with the BeforeCreate hook: insert, or merge on a name conflict. */
  function InsertDomain(rows: DomainTable, d: Domain): (t: DomainTable)
    ensures t.Keys == rows.Keys + {d.domainName}
    ensures forall n :: n in rows && n != d.domainName ==> t[n] == rows[n]
    ensures d.domainName !in rows ==> t[d.domainName] == d
    ensures d.domainName in rows ==>
              SameBesidesFreshness(t[d.domainName], rows[d.domainName])
              && FreshnessOf(t[d.domainName]) == MaxFreshness(FreshnessOf(rows[d.domainName]), FreshnessOf(d))
  {
    if d.domainName in rows then rows[d.domainName := MergeOnConflict(rows[d.domainName], d)]
    else rows[d.domainName := d]
  }

  /** Inserting a batch never makes a stored row's freshness regress. */
  lemma {:induction false} InsertAllNeverRegresses(rows: DomainTable, ds: seq<Domain>)
    ensures var t := InsertAll(rows, ds);
            forall n :: n in rows ==> n in t && NotOlder(FreshnessOf(t[n]), FreshnessOf(rows[n]))
    decreases |ds|
  {
    if |ds| > 0 {
      var next := InsertDomain(rows, ds[0]);
      InsertAllNeverRegresses(next, ds[1..]);
    }
  }

  function InsertAll(rows: DomainTable, ds: seq<Domain>): DomainTable
    decreases |ds|
  {
    if |ds| == 0 then rows else InsertAll(InsertDomain(rows, ds[0]), ds[1..])
  }

  // ---------------------------------------------------------------------
  // The flat warehouse row written by ToBQ (identical in both packages)

  datatype DomainBQ = DomainBQ(
    domainName: string,
    createdAt: Time,
    updatedAt: Time,
    nonPublicDomain: bool,
    hostname: NullString,
    subdomain: NullString,
    suffix: NullString,
    successfulWebLanding: bool,
    webRedirectURLFinal: NullString,
    lastRanWebRedirect: Time,
    lastRanDns: Time,
    lastRanCertSans: Time,
    lastRanSitemapParse: Time)

  function ToBQ(d: Domain): (b: DomainBQ)
    ensures b.hostname.valid <==> d.hostname != ""
    ensures b.subdomain.valid <==> d.subdomain != ""
    ensures b.suffix.valid <==> d.suffix != ""
    ensures b.webRedirectURLFinal.valid <==> d.webRedirectURLFinal != ""
    ensures b.hostname.stringVal == d.hostname && b.subdomain.stringVal == d.subdomain
    ensures b.suffix.stringVal == d.suffix && b.webRedirectURLFinal.stringVal == d.webRedirectURLFinal
    ensures b.domainName == d.domainName && b.nonPublicDomain == d.nonPublicDomain
    ensures b.successfulWebLanding == d.successfulWebLanding
    ensures b.createdAt == d.createdAt && b.updatedAt == d.updatedAt
    ensures b.lastRanWebRedirect == d.lastRanWebRedirect && b.lastRanDns == d.lastRanDns
    ensures b.lastRanCertSans == d.lastRanCertSans && b.lastRanSitemapParse == d.lastRanSitemapParse
  {
    DomainBQ(d.domainName, d.createdAt, d.updatedAt, d.nonPublicDomain,
             NullStringOf(d.hostname), NullStringOf(d.subdomain), NullStringOf(d.suffix),
             d.successfulWebLanding, NullStringOf(d.webRedirectURLFinal),
             d.lastRanWebRedirect, d.lastRanDns, d.lastRanCertSans, d.lastRanSitemapParse)
  }

  /** The domain with its owned collections dropped. */
  function Scalars(d: Domain): Domain
  {
    d.(aRecords := [], aaaaRecords := [], mxRecords := [], soaRecords := [], sitemaps := [],
       webRedirectDomains := [], certSans := [], sitemapWebDomains := [], sitemapContactDomains := [])
  }

  /** The flat row loses nothing but the collections: two domains get the
      same row exactly when their scalar columns agree. */
  lemma ToBQKeepsScalars(d1: Domain, d2: Domain)
    ensures ToBQ(d1) == ToBQ(d2) <==> Scalars(d1) == Scalars(d2)
  {
  }

  // ---------------------------------------------------------------------
  // Legacy related-domain rows

  /** A related-domain row of the legacy package (CertSAN, SitemapWebDomain,
      SitemapContactDomain): the probed domain's name and the whole matched
      domain. The probes leave the timestamps (and CertSAN's
      MatchedDomainName) at their zero values. */
  datatype LegacyMatch = LegacyMatch(createdAt: Time, updatedAt: Time, domainName: string, matched: Domain)

  function LegacyMatchedNames(cs: seq<LegacyMatch>): (ns: seq<string>)
    ensures |ns| == |cs|
    ensures forall i :: 0 <= i < |cs| ==> ns[i] == cs[i].matched.domainName
  {
    seq(|cs|, i requires 0 <= i < |cs| => cs[i].matched.domainName)
  }

  function DomainNames(ds: seq<Domain>): (ns: seq<string>)
    ensures |ns| == |ds|
    ensures forall i :: 0 <= i < |ds| ==> ns[i] == ds[i].domainName
  {
    seq(|ds|, i requires 0 <= i < |ds| => ds[i].domainName)
  }

  /** The legacy NewDomain of every name, parse error or not. */
  function LegacyParseAll(names: seq<string>, lookup: SuffixLookup): (ds: seq<Domain>)
    ensures |ds| == |names|
    ensures forall i :: 0 <= i < |names| ==> ds[i] == NewDomain(names[i], lookup, Legacy).domain
  {
    seq(|names|, i requires 0 <= i < |names| => NewDomain(names[i], lookup, Legacy).domain)
  }

  /** The parsed names a legacy loop considers: all but those named like the probed domain. */
  function DropNamed(ds: seq<Domain>, dom: string): (r: seq<Domain>)
    ensures forall i :: 0 <= i < |r| ==> r[i].domainName != dom && r[i] in ds
    decreases |ds|
  {
    if |ds| == 0 then []
    else
      var rest := DropNamed(ds[1..], dom);
      if ds[0].domainName == dom then rest else [ds[0]] + rest
  }

  /** A legacy loop with domsFound as seen: one row per name not seen yet. */
  function LegacyCollect(ds: seq<Domain>, dom: string, seen: set<string>): (cs: seq<LegacyMatch>)
    ensures forall i :: 0 <= i < |cs| ==> cs[i].domainName == dom && cs[i].createdAt == ZeroTime && cs[i].updatedAt == ZeroTime
    decreases |ds|
  {
    if |ds| == 0 then []
    else if ds[0].domainName in seen then LegacyCollect(ds[1..], dom, seen)
    else [LegacyMatch(ZeroTime, ZeroTime, dom, ds[0])] + LegacyCollect(ds[1..], dom, seen + {ds[0].domainName})
  }

  /** The rows' names are the seen-map deduplication of the parsed names. */
  lemma {:induction false} LegacyCollectNames(ds: seq<Domain>, dom: string, seen: set<string>)
    ensures LegacyMatchedNames(LegacyCollect(ds, dom, seen)) == Dedup(DomainNames(ds), seen)
    decreases |ds|
  {
    if |ds| > 0 {
      var next := if ds[0].domainName in seen then seen else seen + {ds[0].domainName};
      LegacyCollectNames(ds[1..], dom, next);
      assert DomainNames(ds) == [ds[0].domainName] + DomainNames(ds[1..]);
      if ds[0].domainName !in seen {
        var rest := LegacyCollect(ds[1..], dom, next);
        assert LegacyMatchedNames([LegacyMatch(ZeroTime, ZeroTime, dom, ds[0])] + rest)
               == [ds[0].domainName] + LegacyMatchedNames(rest);
      }
    }
  }

  /** Every row's matched domain is one of the parsed ones. */
  lemma {:induction false} LegacyCollectFrom(ds: seq<Domain>, dom: string, seen: set<string>)
    ensures forall i :: 0 <= i < |LegacyCollect(ds, dom, seen)| ==> LegacyCollect(ds, dom, seen)[i].matched in ds
    decreases |ds|
  {
    if |ds| > 0 {
      var next := if ds[0].domainName in seen then seen else seen + {ds[0].domainName};
      LegacyCollectFrom(ds[1..], dom, next);
      var cs := LegacyCollect(ds, dom, seen);
      var rest := LegacyCollect(ds[1..], dom, next);
      forall i | 0 <= i < |cs| ensures cs[i].matched in ds {
        if ds[0].domainName in seen || i > 0 {
          var j := if ds[0].domainName in seen then i else i - 1;
          assert cs[i] == rest[j];
          assert rest[j].matched in ds[1..];
        }
      }
    }
  }

  /** Every domain not named dom survives DropNamed. */
  lemma {:induction false} DropNamedKeeps(ds: seq<Domain>, dom: string, i: nat) returns (k: nat)
    requires i < |ds| && ds[i].domainName != dom
    ensures k < |DropNamed(ds, dom)| && DropNamed(ds, dom)[k] == ds[i]
    decreases i
  {
    if i == 0 {
      k := 0;
    } else {
      assert ds[1..][i - 1] == ds[i];
      var k' := DropNamedKeeps(ds[1..], dom, i - 1);
      k := if ds[0].domainName == dom then k' else k' + 1;
    }
  }

  /** The legacy related-domain loop over names: NewDomain of each (a parse
      error is only logged), skip the probed domain, one row per new name. */
  function LegacyRows(names: seq<string>, lookup: SuffixLookup, dom: string): seq<LegacyMatch>
  {
    LegacyCollect(DropNamed(LegacyParseAll(names, lookup), dom), dom, {})
  }

  /** The rows name distinct domains, never the probed one, each one the
      NewDomain result of some name; and every name whose NewDomain result
      is another domain is represented. */
  lemma LegacyRowsOnce(names: seq<string>, lookup: SuffixLookup, dom: string)
    ensures var rows := LegacyRows(names, lookup, dom);
            && NoDup(LegacyMatchedNames(rows))
            && (forall i :: 0 <= i < |rows| ==>
                  && rows[i].domainName == dom
                  && rows[i].matched.domainName != dom
                  && rows[i].matched in LegacyParseAll(names, lookup))
            && (forall i :: 0 <= i < |names| && NewDomain(names[i], lookup, Legacy).domain.domainName != dom ==>
                  NewDomain(names[i], lookup, Legacy).domain.domainName in LegacyMatchedNames(rows))
  {
    var rows := LegacyRows(names, lookup, dom);
    var all := LegacyParseAll(names, lookup);
    var kept := DropNamed(all, dom);
    var ns := DomainNames(kept);
    DedupComplete(ns, {});
    LegacyCollectNames(kept, dom, {});
    LegacyCollectFrom(kept, dom, {});
    forall i | 0 <= i < |rows|
      ensures rows[i].matched.domainName != dom && rows[i].matched in all
    {
      assert rows[i].matched in kept;
    }
    forall i | 0 <= i < |names| && NewDomain(names[i], lookup, Legacy).domain.domainName != dom
      ensures NewDomain(names[i], lookup, Legacy).domain.domainName in LegacyMatchedNames(rows)
    {
      var k := DropNamedKeeps(all, dom, i);
      assert ns[k] == all[i].domainName;
    }
  }
}
