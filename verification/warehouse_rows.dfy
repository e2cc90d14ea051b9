/** The warehouse row of a domain: one row per domain with its records,
    sitemaps and related domains nested as repeated structs, and the
    conversions newDomainBQ / parse between it and the domain aggregate. */
module WarehouseRows {
  import opened Base
  import opened Records
  import opened Domains

  /** ARecordBQ, AAAARecordBQ, MXRecordBQ and SOARecordBQ: the timestamps
      and the value fields; neither the id nor the owner is stored. */
  datatype RecordRow = RecordRow(createdAt: Time, updatedAt: Time, data: RDataBQ)

  /** SitemapBQ: the timestamps and a nullable location. */
  datatype SitemapRow = SitemapRow(createdAt: Time, updatedAt: Time, loc: NullString)

  /** MatchedDomainBQ */
  datatype MatchedRow = MatchedRow(createdAt: Time, updatedAt: Time, domainName: string)

  /** The nested DomainBQ of the warehouse store. */
  datatype DomainRow = DomainRow(
    createdAt: Time,
    updatedAt: Time,
    domainName: string,
    nonPublicDomain: bool,
    hostname: NullString,
    subdomain: NullString,
    suffix: NullString,
    successfulWebLanding: bool,
    webRedirectURLFinal: NullString,
    lastRanWebRedirect: Time,
    lastRanDns: Time,
    lastRanCertSans: Time,
    lastRanSitemapParse: Time,
    aRecords: seq<RecordRow>,
    aaaaRecords: seq<RecordRow>,
    mxRecords: seq<RecordRow>,
    soaRecords: seq<RecordRow>,
    sitemaps: seq<SitemapRow>,
    webRedirectDomains: seq<MatchedRow>,
    certSans: seq<MatchedRow>,
    sitemapWebDomains: seq<MatchedRow>,
    sitemapContactDomains: seq<MatchedRow>)

  // ---------------------------------------------------------------------
  // Per-record conversions

  function NewRecordRow(r: DnsRecord): RecordRow
  {
    RecordRow(r.createdAt, r.updatedAt, EncodeData(r.data))
  }

  /** parse of a record row: a new record with no id and an empty domain name. */
  function ParseRecordRow(b: RecordRow): DnsRecord
  {
    DnsRecord(0, b.createdAt, b.updatedAt, DecodeData(b.data), ByName(""))
  }

  /** A record keeps its timestamps and every value field (the SOA serial
      included, SOA's strings and serial being NULL exactly when empty or
      zero); only its id and its owner are lost. */
  lemma RecordRowRoundTrip(r: DnsRecord)
    ensures ParseRecordRow(NewRecordRow(r)) == r.(id := 0, owner := ByName(""))
    ensures r.data.SOA? ==>
              && NewRecordRow(r).data.SOABQ?
              && (NewRecordRow(r).data.ns.valid <==> r.data.ns != "")
              && (NewRecordRow(r).data.mbox.valid <==> r.data.mbox != "")
              && (NewRecordRow(r).data.serial.valid <==> r.data.serial != 0)
  {
    DataRoundTrip(r.data);
  }

  function NewSitemapRow(s: Sitemap): SitemapRow
  {
    SitemapRow(s.createdAt, s.updatedAt, NullStringOf(s.loc))
  }

  /** parse of a sitemap row: no id and no domain name. */
  function ParseSitemapRow(b: SitemapRow): Sitemap
  {
    Sitemap(0, b.createdAt, b.updatedAt, "", b.loc.stringVal)
  }

  /** A sitemap keeps its timestamps and location, the location NULL
      exactly when empty; its id and domain name are lost. */
  lemma SitemapRowRoundTrip(s: Sitemap)
    ensures NewSitemapRow(s).loc.valid <==> s.loc != ""
    ensures ParseSitemapRow(NewSitemapRow(s)) == s.(id := 0, domainName := "")
  {
  }

  function NewMatchedRow(m: MatchedDomain): MatchedRow
  {
    MatchedRow(m.createdAt, m.updatedAt, m.domainName)
  }

  function ParseMatchedRow(b: MatchedRow): MatchedDomain
  {
    MatchedDomain(b.createdAt, b.updatedAt, b.domainName)
  }

  /** A related domain survives whole, and a matched row too. */
  lemma MatchedRowRoundTrip(m: MatchedDomain, b: MatchedRow)
    ensures ParseMatchedRow(NewMatchedRow(m)) == m
    ensures NewMatchedRow(ParseMatchedRow(b)) == b
  {
  }

  // ---------------------------------------------------------------------
  // Collections, element by element in order

  function RecordRows(rs: seq<DnsRecord>): (bs: seq<RecordRow>)
    ensures |bs| == |rs| && forall i :: 0 <= i < |rs| ==> bs[i] == NewRecordRow(rs[i])
  {
    seq(|rs|, i requires 0 <= i < |rs| => NewRecordRow(rs[i]))
  }

  function ParseRecordRows(bs: seq<RecordRow>): (rs: seq<DnsRecord>)
    ensures |rs| == |bs| && forall i :: 0 <= i < |bs| ==> rs[i] == ParseRecordRow(bs[i])
  {
    seq(|bs|, i requires 0 <= i < |bs| => ParseRecordRow(bs[i]))
  }

  function SitemapRows(ss: seq<Sitemap>): (bs: seq<SitemapRow>)
    ensures |bs| == |ss| && forall i :: 0 <= i < |ss| ==> bs[i] == NewSitemapRow(ss[i])
  {
    seq(|ss|, i requires 0 <= i < |ss| => NewSitemapRow(ss[i]))
  }

  function ParseSitemapRows(bs: seq<SitemapRow>): (ss: seq<Sitemap>)
    ensures |ss| == |bs| && forall i :: 0 <= i < |bs| ==> ss[i] == ParseSitemapRow(bs[i])
  {
    seq(|bs|, i requires 0 <= i < |bs| => ParseSitemapRow(bs[i]))
  }

  function MatchedRows(ms: seq<MatchedDomain>): (bs: seq<MatchedRow>)
    ensures |bs| == |ms| && forall i :: 0 <= i < |ms| ==> bs[i] == NewMatchedRow(ms[i])
  {
    seq(|ms|, i requires 0 <= i < |ms| => NewMatchedRow(ms[i]))
  }

  function ParseMatchedRows(bs: seq<MatchedRow>): (ms: seq<MatchedDomain>)
    ensures |ms| == |bs| && forall i :: 0 <= i < |bs| ==> ms[i] == ParseMatchedRow(bs[i])
  {
    seq(|bs|, i requires 0 <= i < |bs| => ParseMatchedRow(bs[i]))
  }

  /** What a stored record list reads back as: same records, same order,
      without ids or owners. */
  function Unowned(rs: seq<DnsRecord>): (us: seq<DnsRecord>)
    ensures |us| == |rs| && forall i :: 0 <= i < |rs| ==> us[i] == rs[i].(id := 0, owner := ByName(""))
  {
    seq(|rs|, i requires 0 <= i < |rs| => rs[i].(id := 0, owner := ByName("")))
  }

  /** What a stored sitemap list reads back as: same sitemaps, same order,
      without ids or domain names. */
  function Unnamed(ss: seq<Sitemap>): (us: seq<Sitemap>)
    ensures |us| == |ss| && forall i :: 0 <= i < |ss| ==> us[i] == ss[i].(id := 0, domainName := "")
  {
    seq(|ss|, i requires 0 <= i < |ss| => ss[i].(id := 0, domainName := ""))
  }

  lemma RecordRowsRoundTrip(rs: seq<DnsRecord>)
    ensures ParseRecordRows(RecordRows(rs)) == Unowned(rs)
  {
    forall i | 0 <= i < |rs| ensures ParseRecordRows(RecordRows(rs))[i] == Unowned(rs)[i] {
      RecordRowRoundTrip(rs[i]);
    }
  }

  lemma SitemapRowsRoundTrip(ss: seq<Sitemap>)
    ensures ParseSitemapRows(SitemapRows(ss)) == Unnamed(ss)
  {
    forall i | 0 <= i < |ss| ensures ParseSitemapRows(SitemapRows(ss))[i] == Unnamed(ss)[i] {
      SitemapRowRoundTrip(ss[i]);
    }
  }

  lemma MatchedRowsRoundTrip(ms: seq<MatchedDomain>)
    ensures ParseMatchedRows(MatchedRows(ms)) == ms
  {
    forall i | 0 <= i < |ms| ensures ParseMatchedRows(MatchedRows(ms))[i] == ms[i] {
      MatchedRowRoundTrip(ms[i], MatchedRows(ms)[i]);
    }
  }

  // ---------------------------------------------------------------------
  // The domain row

  /** newDomainBQ: every column but web_redirect_url_final, which is left
      NULL; collections converted element by element. */
  function NewDomainRow(d: Domain): DomainRow
  {
    DomainRow(d.createdAt, d.updatedAt, d.domainName, d.nonPublicDomain,
              NullStringOf(d.hostname), NullStringOf(d.subdomain), NullStringOf(d.suffix),
              d.successfulWebLanding, NullString("", false),
              d.lastRanWebRedirect, d.lastRanDns, d.lastRanCertSans, d.lastRanSitemapParse,
              RecordRows(d.aRecords), RecordRows(d.aaaaRecords), RecordRows(d.mxRecords), RecordRows(d.soaRecords),
              SitemapRows(d.sitemaps), MatchedRows(d.webRedirectDomains), MatchedRows(d.certSans),
              MatchedRows(d.sitemapWebDomains), MatchedRows(d.sitemapContactDomains))
  }

  /** parse: the string values of the nullable columns (the NULL flag is
      not consulted); web_redirect_url_final is not read. */
  function ParseDomainRow(b: DomainRow): Domain
  {
    Domain(b.domainName, b.createdAt, b.updatedAt, b.nonPublicDomain,
           b.hostname.stringVal, b.subdomain.stringVal, b.suffix.stringVal,
           b.successfulWebLanding, "",
           b.lastRanWebRedirect, b.lastRanDns, b.lastRanCertSans, b.lastRanSitemapParse,
           ParseRecordRows(b.aRecords), ParseRecordRows(b.aaaaRecords), ParseRecordRows(b.mxRecords),
           ParseRecordRows(b.soaRecords), ParseSitemapRows(b.sitemaps),
           ParseMatchedRows(b.webRedirectDomains), ParseMatchedRows(b.certSans),
           ParseMatchedRows(b.sitemapWebDomains), ParseMatchedRows(b.sitemapContactDomains))
  }

  /** The scalar columns of a domain row, as the flat ToBQ row. */
  function RowScalars(b: DomainRow): DomainBQ
  {
    DomainBQ(b.domainName, b.createdAt, b.updatedAt, b.nonPublicDomain, b.hostname, b.subdomain, b.suffix,
             b.successfulWebLanding, b.webRedirectURLFinal,
             b.lastRanWebRedirect, b.lastRanDns, b.lastRanCertSans, b.lastRanSitemapParse)
  }

  /** newDomainBQ writes the scalar columns the way the domain's own ToBQ
      does, except that the final redirect URL is always NULL: so the
      hostname, subdomain and suffix columns are NULL exactly when empty. */
  lemma NewDomainRowScalars(d: Domain)
    ensures RowScalars(NewDomainRow(d)) == ToBQ(d.(webRedirectURLFinal := ""))
    ensures !NewDomainRow(d).webRedirectURLFinal.valid
  {
  }

  /** A domain survives the warehouse round trip except for its final
      redirect URL (which comes back empty), its records' ids and owners
      and its sitemaps' ids and domain names; in particular every scalar
      and timestamp is kept, and every collection keeps its length and
      order. */
  lemma DomainRowRoundTrip(d: Domain)
    ensures ParseDomainRow(NewDomainRow(d))
            == d.(webRedirectURLFinal := "",
                  aRecords := Unowned(d.aRecords), aaaaRecords := Unowned(d.aaaaRecords),
                  mxRecords := Unowned(d.mxRecords), soaRecords := Unowned(d.soaRecords),
                  sitemaps := Unnamed(d.sitemaps))
  {
    RecordRowsRoundTrip(d.aRecords);
    RecordRowsRoundTrip(d.aaaaRecords);
    RecordRowsRoundTrip(d.mxRecords);
    RecordRowsRoundTrip(d.soaRecords);
    SitemapRowsRoundTrip(d.sitemaps);
    MatchedRowsRoundTrip(d.webRedirectDomains);
    MatchedRowsRoundTrip(d.certSans);
    MatchedRowsRoundTrip(d.sitemapWebDomains);
    MatchedRowsRoundTrip(d.sitemapContactDomains);
  }

  /** Writing back what was read from a written row writes the same row. */
  lemma DomainRowStable(d: Domain)
    ensures NewDomainRow(ParseDomainRow(NewDomainRow(d))) == NewDomainRow(d)
  {
    DomainRowRoundTrip(d);
    var e := ParseDomainRow(NewDomainRow(d));
    RecordRowsStable(d.aRecords);
    RecordRowsStable(d.aaaaRecords);
    RecordRowsStable(d.mxRecords);
    RecordRowsStable(d.soaRecords);
    assert SitemapRows(Unnamed(d.sitemaps)) == SitemapRows(d.sitemaps);
  }

  lemma RecordRowsStable(rs: seq<DnsRecord>)
    ensures RecordRows(Unowned(rs)) == RecordRows(rs)
  {
  }
}
