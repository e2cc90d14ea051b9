/** The warehouse store: PutDomains writes domains with one MERGE on
    domain_name, GetDomainsByNames reads the stored rows for a list of
    names and fills in a fresh domain for each name not stored. The table
    is a sequence of rows; the query transport is left out. */
module WarehouseStore {
  import opened Base
  import opened GoStrings
  import opened Records
  import opened Domains
  import opened WarehouseRows

  // ---------------------------------------------------------------------
  // MERGE

  /** The source rows whose domain_name is n, in order. */
  function SourcesNamed(source: seq<DomainRow>, n: string): (ms: seq<DomainRow>)
    ensures |ms| <= |source|
    ensures forall i :: 0 <= i < |ms| ==> ms[i] in source && ms[i].domainName == n
  {
    if source == [] then []
    else
      var rest := SourcesNamed(source[1..], n);
      if source[0].domainName == n then [source[0]] + rest else rest
  }

  /** Every source row named n is among SourcesNamed(source, n). */
  lemma {:induction false} SourcesNamedKeeps(source: seq<DomainRow>, n: string, i: nat)
    requires i < |source| && source[i].domainName == n
    ensures source[i] in SourcesNamed(source, n)
    decreases i
  {
    if i > 0 {
      SourcesNamedKeeps(source[1..], n, i - 1);
    }
  }

  /** With no source row named n, none is selected. */
  lemma {:induction false} SourcesNamedNone(source: seq<DomainRow>, n: string)
    requires forall i :: 0 <= i < |source| ==> source[i].domainName != n
    ensures SourcesNamed(source, n) == []
    decreases |source|
  {
    if source != [] {
      assert forall i :: 0 <= i < |source[1..]| ==> source[1..][i] == source[i + 1];
      SourcesNamedNone(source[1..], n);
    }
  }

  /** A target row that more than one source row matches: BigQuery rejects
      the whole MERGE. */
  predicate Ambiguous(table: seq<DomainRow>, source: seq<DomainRow>)
  {
    exists k :: 0 <= k < |table| && |SourcesNamed(source, table[k].domainName)| > 1
  }

  /** WHEN MATCHED: updated_at and the four last_ran_* columns become the
      GREATEST of both, the nine collection columns are replaced by the
      source's, every other column is kept. */
  function MergeRow(t: DomainRow, s: DomainRow): DomainRow
  {
    t.(updatedAt := Max(t.updatedAt, s.updatedAt),
       lastRanWebRedirect := Max(t.lastRanWebRedirect, s.lastRanWebRedirect),
       lastRanDns := Max(t.lastRanDns, s.lastRanDns),
       lastRanCertSans := Max(t.lastRanCertSans, s.lastRanCertSans),
       lastRanSitemapParse := Max(t.lastRanSitemapParse, s.lastRanSitemapParse),
       aRecords := s.aRecords, aaaaRecords := s.aaaaRecords, mxRecords := s.mxRecords,
       soaRecords := s.soaRecords, sitemaps := s.sitemaps, webRedirectDomains := s.webRedirectDomains,
       certSans := s.certSans, sitemapWebDomains := s.sitemapWebDomains,
       sitemapContactDomains := s.sitemapContactDomains)
  }

  /** A target row after the MERGE: merged with its matching source row, if any. */
  function Target(t: DomainRow, source: seq<DomainRow>): DomainRow
  {
    var ms := SourcesNamed(source, t.domainName);
    if |ms| == 0 then t else MergeRow(t, ms[0])
  }

  function TableNames(table: seq<DomainRow>): set<string>
  {
    set k | 0 <= k < |table| :: table[k].domainName
  }

  /** WHEN NOT MATCHED THEN INSERT ROW: the source rows no target row matches. */
  function Unmatched(table: seq<DomainRow>, source: seq<DomainRow>): (ins: seq<DomainRow>)
    ensures |ins| <= |source|
    ensures forall i :: 0 <= i < |ins| ==> ins[i] in source && ins[i].domainName !in TableNames(table)
  {
    if source == [] then []
    else
      var rest := Unmatched(table, source[1..]);
      if source[0].domainName in TableNames(table) then rest else [source[0]] + rest
  }

  /** Every source row no target row matches is inserted. */
  lemma {:induction false} UnmatchedKeeps(table: seq<DomainRow>, source: seq<DomainRow>, i: nat)
    requires i < |source| && source[i].domainName !in TableNames(table)
    ensures source[i] in Unmatched(table, source)
    decreases i
  {
    if i > 0 {
      UnmatchedKeeps(table, source[1..], i - 1);
    }
  }

  /** The MERGE statement: the table after it, or the table unchanged and
      the error. */
  function Merge(table: seq<DomainRow>, source: seq<DomainRow>): (r: (seq<DomainRow>, Option<Error>))
    ensures r.1.Some? <==> Ambiguous(table, source)
    ensures r.1.Some? ==> r == (table, Some(MergeCardinality))
    ensures r.1.None? ==> |r.0| == |table| + |Unmatched(table, source)|
  {
    if Ambiguous(table, source) then (table, Some(MergeCardinality))
    else (seq(|table|, k requires 0 <= k < |table| => Target(table[k], source)) + Unmatched(table, source), None)
  }

  /** The five GREATEST columns of a row. */
  predicate NoRegress(before: DomainRow, after: DomainRow)
  {
    && before.updatedAt <= after.updatedAt
    && before.lastRanWebRedirect <= after.lastRanWebRedirect
    && before.lastRanDns <= after.lastRanDns
    && before.lastRanCertSans <= after.lastRanCertSans
    && before.lastRanSitemapParse <= after.lastRanSitemapParse
  }

  /** The row with the MERGE-updated columns taken from before. */
  function Unupdated(after: DomainRow, before: DomainRow): DomainRow
  {
    after.(updatedAt := before.updatedAt, lastRanWebRedirect := before.lastRanWebRedirect,
           lastRanDns := before.lastRanDns, lastRanCertSans := before.lastRanCertSans,
           lastRanSitemapParse := before.lastRanSitemapParse,
           aRecords := before.aRecords, aaaaRecords := before.aaaaRecords, mxRecords := before.mxRecords,
           soaRecords := before.soaRecords, sitemaps := before.sitemaps,
           webRedirectDomains := before.webRedirectDomains, certSans := before.certSans,
           sitemapWebDomains := before.sitemapWebDomains, sitemapContactDomains := before.sitemapContactDomains)
  }

  /** A stored row keeps its place; its timestamps never move back, and
      apart from them and the collections (scalars such as hostname and
      successful_web_landing included) nothing changes. */
  lemma MergeKeepsTargets(table: seq<DomainRow>, source: seq<DomainRow>, k: nat)
    requires k < |table| && !Ambiguous(table, source)
    ensures var after := Merge(table, source).0[k];
            && after.domainName == table[k].domainName
            && NoRegress(table[k], after)
            && Unupdated(after, table[k]) == table[k]
  {
    assert Merge(table, source).0[k] == Target(table[k], source);
  }

  /** A stored row some source row matches takes that row's collections
      and the GREATEST of the two rows' timestamps. */
  lemma MergeMatched(table: seq<DomainRow>, source: seq<DomainRow>, k: nat, i: nat)
    requires k < |table| && i < |source| && !Ambiguous(table, source)
    requires source[i].domainName == table[k].domainName
    ensures Merge(table, source).0[k] == MergeRow(table[k], source[i])
    ensures Merge(table, source).0[k].updatedAt == Max(table[k].updatedAt, source[i].updatedAt)
    ensures Merge(table, source).0[k].sitemaps == source[i].sitemaps
  {
    var ms := SourcesNamed(source, table[k].domainName);
    SourcesNamedKeeps(source, table[k].domainName, i);
    assert |ms| <= 1;
    assert ms[0] == source[i];
    assert Merge(table, source).0[k] == Target(table[k], source);
  }

  /** A stored row no source row matches is left as it is. */
  lemma MergeUntouched(table: seq<DomainRow>, source: seq<DomainRow>, k: nat)
    requires k < |table| && !Ambiguous(table, source)
    requires forall i :: 0 <= i < |source| ==> source[i].domainName != table[k].domainName
    ensures Merge(table, source).0[k] == table[k]
  {
    SourcesNamedNone(source, table[k].domainName);
    assert Merge(table, source).0[k] == Target(table[k], source);
  }

  /** The rows after the stored ones are exactly the source rows whose
      name is not stored, unchanged. */
  lemma MergeInserts(table: seq<DomainRow>, source: seq<DomainRow>, s: DomainRow)
    requires !Ambiguous(table, source)
    ensures s in Merge(table, source).0[|table|..] <==> s in source && s.domainName !in TableNames(table)
  {
    var r := Merge(table, source).0;
    assert r[|table|..] == Unmatched(table, source);
    if s in source && s.domainName !in TableNames(table) {
      var i :| 0 <= i < |source| && source[i] == s;
      UnmatchedKeeps(table, source, i);
    }
  }

  /** A row past the stored ones is an unmatched source row. */
  lemma MergeInsertedRow(table: seq<DomainRow>, source: seq<DomainRow>, j: nat)
    requires !Ambiguous(table, source) && |table| <= j < |Merge(table, source).0|
    ensures Merge(table, source).0[j] == Unmatched(table, source)[j - |table|]
    ensures Merge(table, source).0[j] in source
  {
    var updated := seq(|table|, k requires 0 <= k < |table| => Target(table[k], source));
    var ins := Unmatched(table, source);
    assert Merge(table, source).0 == updated + ins;
    assert (updated + ins)[j] == ins[j - |table|];
  }

  /** Merging the same source row twice is merging it once. */
  lemma MergeRowIdempotent(t: DomainRow, s: DomainRow)
    ensures MergeRow(MergeRow(t, s), s) == MergeRow(t, s)
  {
  }

  // ---------------------------------------------------------------------
  // PutDomains

  /** Every domain with UpdatedAt set to the one shared now. */
  function Stamp(doms: seq<Domain>, now: Time): (ds: seq<Domain>)
    ensures |ds| == |doms| && forall i :: 0 <= i < |doms| ==> ds[i] == doms[i].(updatedAt := now)
  {
    seq(|doms|, i requires 0 <= i < |doms| => doms[i].(updatedAt := now))
  }

  function DomainRows(doms: seq<Domain>): (rows: seq<DomainRow>)
    ensures |rows| == |doms| && forall i :: 0 <= i < |doms| ==> rows[i] == NewDomainRow(doms[i])
  {
    seq(|doms|, i requires 0 <= i < |doms| => NewDomainRow(doms[i]))
  }

  /** PutDomains: the callers' domains, now stamped, and the MERGE of their rows. */
  function PutDomains(table: seq<DomainRow>, doms: seq<Domain>, now: Time): (r: (seq<Domain>, seq<DomainRow>, Option<Error>))
    ensures r.0 == Stamp(doms, now)
    ensures (r.1, r.2) == Merge(table, DomainRows(r.0))
  {
    var stamped := Stamp(doms, now);
    var m := Merge(table, DomainRows(stamped));
    (stamped, m.0, m.1)
  }

  /** After a successful PutDomains a stored domain that was written has
      updated_at = max(stored, now). */
  lemma PutDomainsStampsStored(table: seq<DomainRow>, doms: seq<Domain>, now: Time, k: nat)
    requires PutDomains(table, doms, now).2.None?
    requires k < |table| && table[k].domainName in TableNames(DomainRows(doms))
    ensures PutDomains(table, doms, now).1[k].updatedAt == Max(table[k].updatedAt, now)
  {
    var source := DomainRows(Stamp(doms, now));
    var i :| 0 <= i < |doms| && DomainRows(doms)[i].domainName == table[k].domainName;
    assert source[i].domainName == table[k].domainName;
    MergeMatched(table, source, k, i);
  }

  /** Every row a successful PutDomains inserts has updated_at = now. */
  lemma PutDomainsStampsInserted(table: seq<DomainRow>, doms: seq<Domain>, now: Time, j: nat)
    requires PutDomains(table, doms, now).2.None?
    requires |table| <= j < |PutDomains(table, doms, now).1|
    ensures PutDomains(table, doms, now).1[j].updatedAt == now
  {
    var source := DomainRows(Stamp(doms, now));
    var m := Merge(table, source);
    MergeInsertedRow(table, source, j);
    var i :| 0 <= i < |source| && source[i] == m.0[j];
    assert source[i].updatedAt == now;
  }

  // ---------------------------------------------------------------------
  // GetDomainsByNames

  /** The stored rows named in names (WHERE domain_name IN UNNEST(@dns)). */
  function RowsNamed(table: seq<DomainRow>, names: seq<string>): (rows: seq<DomainRow>)
    ensures forall i :: 0 <= i < |rows| ==> rows[i] in table && rows[i].domainName in names
  {
    if table == [] then []
    else
      var rest := RowsNamed(table[1..], names);
      if table[0].domainName in names then [table[0]] + rest else rest
  }

  /** Every stored row named in names is fetched. */
  lemma {:induction false} RowsNamedKeeps(table: seq<DomainRow>, names: seq<string>, k: nat)
    requires k < |table| && table[k].domainName in names
    ensures table[k] in RowsNamed(table, names)
    decreases k
  {
    if k > 0 {
      RowsNamedKeeps(table[1..], names, k - 1);
    }
  }

  /** The fill-in loop: a name not found yet is marked found and, when
      NewDomain accepts it, its domain is appended. */
  function FillIn(names: seq<string>, found: set<string>, lookup: SuffixLookup): seq<Domain>
  {
    if names == [] then []
    else if names[0] in found then FillIn(names[1..], found, lookup)
    else
      var p := NewDomain(names[0], lookup, Current);
      var rest := FillIn(names[1..], found + {names[0]}, lookup);
      if p.err.Some? then rest else [p.domain] + rest
  }

  /** NewDomain of every name, in order. */
  function ParseAll(names: seq<string>, lookup: SuffixLookup): (ps: seq<Parsed>)
    ensures |ps| == |names| && forall i :: 0 <= i < |names| ==> ps[i] == NewDomain(names[i], lookup, Current)
  {
    seq(|names|, i requires 0 <= i < |names| => NewDomain(names[i], lookup, Current))
  }

  /** The domains of the outcomes without an error, in order. */
  function Successes(ps: seq<Parsed>): seq<Domain>
  {
    if ps == [] then []
    else (if ps[0].err.Some? then [] else [ps[0].domain]) + Successes(ps[1..])
  }

  /** The domains of the names NewDomain accepts, in order. */
  function Accepted(names: seq<string>, lookup: SuffixLookup): seq<Domain>
  {
    Successes(ParseAll(names, lookup))
  }

  /** The fill-in is: the requested names deduplicated against the found
      ones, in request order, then those NewDomain accepts. */
  lemma {:induction false} FillInIsDedupThenAccept(names: seq<string>, found: set<string>, lookup: SuffixLookup)
    ensures FillIn(names, found, lookup) == Accepted(Dedup(names, found), lookup)
    decreases |names|
  {
    if names != [] {
      if names[0] in found {
        FillInIsDedupThenAccept(names[1..], found, lookup);
      } else {
        FillInIsDedupThenAccept(names[1..], found + {names[0]}, lookup);
        var dd := Dedup(names, found);
        assert dd == [names[0]] + Dedup(names[1..], found + {names[0]});
        assert dd[1..] == Dedup(names[1..], found + {names[0]});
        assert ParseAll(dd, lookup)[1..] == ParseAll(dd[1..], lookup);
      }
    }
  }

  /** Every success comes from an outcome without error; returns its index. */
  lemma {:induction false} SuccessesSource(ps: seq<Parsed>, d: Domain) returns (i: nat)
    requires d in Successes(ps)
    ensures i < |ps| && ps[i].err.None? && ps[i].domain == d
    decreases |ps|
  {
    if ps[0].err.None? && ps[0].domain == d {
      i := 0;
    } else {
      var j := SuccessesSource(ps[1..], d);
      i := j + 1;
    }
  }

  /** Every outcome without error gives its domain. */
  lemma {:induction false} SuccessesKeeps(ps: seq<Parsed>, i: nat)
    requires i < |ps| && ps[i].err.None?
    ensures ps[i].domain in Successes(ps)
    decreases i
  {
    if i > 0 {
      SuccessesKeeps(ps[1..], i - 1);
    }
  }

  /** Every accepted domain comes from an accepted name; returns its index. */
  lemma AcceptedSource(names: seq<string>, lookup: SuffixLookup, d: Domain) returns (i: nat)
    requires d in Accepted(names, lookup)
    ensures i < |names| && NewDomain(names[i], lookup, Current).err.None?
    ensures NewDomain(names[i], lookup, Current).domain == d
  {
    i := SuccessesSource(ParseAll(names, lookup), d);
  }

  /** Every name NewDomain accepts gives its domain. */
  lemma AcceptedKeeps(names: seq<string>, lookup: SuffixLookup, i: nat)
    requires i < |names| && NewDomain(names[i], lookup, Current).err.None?
    ensures NewDomain(names[i], lookup, Current).domain in Accepted(names, lookup)
  {
    SuccessesKeeps(ParseAll(names, lookup), i);
  }

  function ParseRows(rows: seq<DomainRow>): (ds: seq<Domain>)
    ensures |ds| == |rows| && forall i :: 0 <= i < |rows| ==> ds[i] == ParseDomainRow(rows[i])
  {
    seq(|rows|, i requires 0 <= i < |rows| => ParseDomainRow(rows[i]))
  }

  /** GetDomainsByNames: the parsed stored rows, then the fill-in; a failed
      query returns only its error. The query has no ORDER BY, so the rows
      come back as fetched: the named stored rows in some order. */
  function GetDomainsByNames(table: seq<DomainRow>, names: seq<string>, fetched: seq<DomainRow>,
                             lookup: SuffixLookup, queryOk: bool)
    : (r: (seq<Domain>, Option<Error>))
    requires multiset(fetched) == multiset(RowsNamed(table, names))
    ensures !queryOk ==> r == ([], Some(QueryFailed))
    ensures queryOk ==> r.1.None? && |fetched| <= |r.0|
    ensures queryOk ==> r.0[..|fetched|] == ParseRows(fetched)
  {
    if !queryOk then ([], Some(QueryFailed))
    else
      var found := TableNames(fetched);
      var ds := ParseRows(fetched) + FillIn(names, found, lookup);
      assert ds[..|fetched|] == ParseRows(fetched);
      (ds, None)
  }

  /** Rows in another order carry the same names. */
  lemma TableNamesPerm(a: seq<DomainRow>, b: seq<DomainRow>)
    requires multiset(a) == multiset(b)
    ensures TableNames(a) == TableNames(b)
  {
    forall n | n in TableNames(a) ensures n in TableNames(b) {
      var k :| 0 <= k < |a| && a[k].domainName == n;
      assert a[k] in multiset(b);
      var j :| 0 <= j < |b| && b[j] == a[k];
    }
    forall n | n in TableNames(b) ensures n in TableNames(a) {
      var k :| 0 <= k < |b| && b[k].domainName == n;
      assert b[k] in multiset(a);
      var j :| 0 <= j < |a| && a[j] == b[k];
    }
  }

  lemma GetDomainsByNamesFillsIn(table: seq<DomainRow>, names: seq<string>, fetched: seq<DomainRow>, lookup: SuffixLookup)
    requires multiset(fetched) == multiset(RowsNamed(table, names))
    ensures var r := GetDomainsByNames(table, names, fetched, lookup, true).0;
            var rows := RowsNamed(table, names);
            && (forall k :: 0 <= k < |table| && table[k].domainName in names ==> ParseDomainRow(table[k]) in r)
            && r[|fetched|..] == Accepted(Dedup(names, TableNames(rows)), lookup)
  {
    var rows := RowsNamed(table, names);
    var r := GetDomainsByNames(table, names, fetched, lookup, true).0;
    TableNamesPerm(fetched, rows);
    FillInIsDedupThenAccept(names, TableNames(rows), lookup);
    assert r == ParseRows(fetched) + FillIn(names, TableNames(rows), lookup);
    forall k | 0 <= k < |table| && table[k].domainName in names ensures ParseDomainRow(table[k]) in r {
      RowsNamedKeeps(table, names, k);
      assert table[k] in multiset(fetched);
      var j :| 0 <= j < |fetched| && fetched[j] == table[k];
      assert r[j] == ParseDomainRow(table[k]);
    }
  }
}
