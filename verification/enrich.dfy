/** The enrichment driver, run sequentially: a batch is cut from the
    domain list by offset and limit, each domain is replaced by its stored
    record when there is one, the enabled probes whose last run is not
    newer than the cutoff run in the order DNS, redirect, cert SANs,
    sitemap, and the result is saved to the row store. The probes
    themselves are parameters. */
module Enrich {
  import opened Base
  import opened GoStrings
  import opened Domains

  datatype Config = Config(
    certSans: bool,
    dns: bool,
    sitemapWeb: bool,
    sitemapContact: bool,
    webRedirect: bool,
    limit: GoInt,
    offset: GoInt,
    nWorkers: GoInt,
    minFreshness: Time,
    outputToJson: bool)

  // ---------------------------------------------------------------------
  // Offset/limit slicing

  function Min(a: int, b: int): int
  {
    if a <= b then a else b
  }

  /** Go's int on a 64-bit platform. */
  const MaxInt: int := 0x7fff_ffff_ffff_ffff
  type GoInt = x: int | -MaxInt - 1 <= x <= MaxInt

  /** Go's two's-complement sum of two ints. */
  function WrapSum(a: GoInt, b: GoInt): (w: GoInt)
    ensures a + b <= MaxInt ==> w == a + b || a + b < -MaxInt - 1
    ensures a + b > MaxInt ==> w == a + b - 2 * (MaxInt + 1) && w < 0
  {
    var s := a + b;
    if s > MaxInt then s - 2 * (MaxInt + 1)
    else if s < -MaxInt - 1 then s + 2 * (MaxInt + 1)
    else s
  }

  /** The batch enrichDomains processes: when offset+limit (wrapped) passes
      the length, the slice ends at the length; then the list is sliced,
      and a slice Go would panic on is SliceOutOfRange. A sum that wraps
      past MaxInt is negative, so that slice panics too. */
  function SliceBatch<T>(items: seq<T>, offset: GoInt, limit: GoInt): (r: Option<seq<T>>)
    ensures r.Some? <==> 0 <= offset <= |items| && 0 <= limit && offset + limit <= MaxInt
    ensures r.Some? ==> r.value == items[offset..offset + Min(limit, |items| - offset)]
  {
    var sum := WrapSum(offset, limit);
    var high := if sum > |items| then |items| else sum;
    if 0 <= offset <= high then Some(items[offset..high]) else None
  }

  /** A limit meant as "everything" panics once the offset is positive. */
  lemma SliceBatchHugeLimit<T>(items: seq<T>)
    requires 0 < |items| <= MaxInt
    ensures SliceBatch(items, 0, MaxInt) == Some(items)
    ensures SliceBatch(items, 1, MaxInt).None?
  {
    assert items[0..|items|] == items;
  }

  /** Two consecutive pages cover exactly the page of the summed limit:
      paging by offset and limit neither skips nor repeats a domain. */
  lemma SliceBatchTiles<T>(items: seq<T>, offset: GoInt, a: GoInt, b: GoInt)
    requires 0 <= offset <= |items| && 0 <= a && 0 <= b && offset + a + b <= MaxInt
    ensures var first := SliceBatch(items, offset, a).value;
            SliceBatch(items, offset + |first|, b).Some?
            && first + SliceBatch(items, offset + |first|, b).value == SliceBatch(items, offset, a + b).value
  {
    var first := SliceBatch(items, offset, a).value;
    var mid := offset + |first|;
    var last := offset + Min(a + b, |items| - offset);
    assert first == items[offset..mid];
    assert SliceBatch(items, mid, b).value == items[mid..last];
    assert items[offset..mid] + items[mid..last] == items[offset..last];
  }

  // ---------------------------------------------------------------------
  // Freshness gating

  datatype Probe = DnsProbe | RedirectProbe | CertProbe | SitemapProbe

  /** The probes the worker may run, in the order it considers them. */
  const ProbeOrder: seq<Probe> := [DnsProbe, RedirectProbe, CertProbe, SitemapProbe]

  function Rank(p: Probe): nat
  {
    match p
    case DnsProbe => 0
    case RedirectProbe => 1
    case CertProbe => 2
    case SitemapProbe => 3
  }

  /** The four enrichment probes of the row-store domain. */
  datatype Probes = Probes(dns: Domain -> Domain, redirect: Domain -> Domain,
                           certSans: Domain -> Domain, sitemap: Domain -> Domain)

  function Apply(probes: Probes, p: Probe, d: Domain): Domain
  {
    match p
    case DnsProbe => probes.dns(d)
    case RedirectProbe => probes.redirect(d)
    case CertProbe => probes.certSans(d)
    case SitemapProbe => probes.sitemap(d)
  }

  /** The timestamp that gates a probe. */
  function LastRan(d: Domain, p: Probe): Time
  {
    match p
    case DnsProbe => d.lastRanDns
    case RedirectProbe => d.lastRanWebRedirect
    case CertProbe => d.lastRanCertSans
    case SitemapProbe => d.lastRanSitemapParse
  }

  /** The flag that enables a probe; SitemapContact enables none. */
  function Enabled(cfg: Config, p: Probe): bool
  {
    match p
    case DnsProbe => cfg.dns
    case RedirectProbe => cfg.webRedirect
    case CertProbe => cfg.certSans
    case SitemapProbe => cfg.sitemapWeb
  }

  /** The worker's test: compared in whole Unix seconds. */
  predicate Due(lastRan: Time, cutoff: Time)
  {
    UnixSeconds(lastRan) <= UnixSeconds(cutoff)
  }

  /** Considers the probes ps in turn, each against the domain as the
      earlier ones left it; returns the domain and the probes run. */
  function RunInOrder(d: Domain, ps: seq<Probe>, cfg: Config, probes: Probes): (r: (Domain, seq<Probe>))
    ensures |r.1| <= |ps|
    ensures forall i :: 0 <= i < |r.1| ==> r.1[i] in ps && Enabled(cfg, r.1[i])
    decreases |ps|
  {
    if ps == [] then (d, [])
    else
      var p := ps[0];
      if Enabled(cfg, p) && Due(LastRan(d, p), cfg.minFreshness) then
        var rest := RunInOrder(Apply(probes, p, d), ps[1..], cfg, probes);
        (rest.0, [p] + rest.1)
      else RunInOrder(d, ps[1..], cfg, probes)
  }

  /** The four gated probe calls of enrichDomainWorker. */
  function RunProbes(d: Domain, cfg: Config, probes: Probes): (r: (Domain, seq<Probe>))
  {
    RunInOrder(d, ProbeOrder, cfg, probes)
  }

  predicate RankIncreasing(ps: seq<Probe>)
  {
    forall i, j :: 0 <= i < j < |ps| ==> Rank(ps[i]) < Rank(ps[j])
  }

  /** The probes run keep the order they were considered in. */
  lemma {:induction false} RunInOrderKeepsOrder(d: Domain, ps: seq<Probe>, cfg: Config, probes: Probes)
    requires RankIncreasing(ps)
    ensures RankIncreasing(RunInOrder(d, ps, cfg, probes).1)
    decreases |ps|
  {
    if ps != [] {
      var p := ps[0];
      assert forall i :: 0 <= i < |ps[1..]| ==> Rank(p) < Rank(ps[1..][i]) by {
        forall i | 0 <= i < |ps[1..]| ensures Rank(p) < Rank(ps[1..][i]) {
          assert ps[1..][i] == ps[i + 1];
        }
      }
      assert RankIncreasing(ps[1..]) by {
        forall i, j | 0 <= i < j < |ps[1..]| ensures Rank(ps[1..][i]) < Rank(ps[1..][j]) {
          assert ps[1..][i] == ps[i + 1] && ps[1..][j] == ps[j + 1];
        }
      }
      if Enabled(cfg, p) && Due(LastRan(d, p), cfg.minFreshness) {
        RunInOrderKeepsOrder(Apply(probes, p, d), ps[1..], cfg, probes);
      } else {
        RunInOrderKeepsOrder(d, ps[1..], cfg, probes);
      }
    }
  }

  /** The worker runs DNS before redirect before cert SANs before sitemap. */
  lemma RunProbesOrdered(d: Domain, cfg: Config, probes: Probes)
    ensures RankIncreasing(RunProbes(d, cfg, probes).1)
  {
    RunInOrderKeepsOrder(d, ProbeOrder, cfg, probes);
  }

  /** Each probe stamps only its own timestamp; the other three it leaves. */
  ghost predicate StampsOwnColumn(probes: Probes)
  {
    forall p, q, d :: p != q ==> LastRan(Apply(probes, p, d), q) == LastRan(d, q)
  }

  /** With probes that stamp only their own column, a probe runs if and
      only if it is enabled and its timestamp, as the domain arrived, is
      due. */
  lemma {:induction false} RunInOrderIff(d: Domain, ps: seq<Probe>, cfg: Config, probes: Probes, p: Probe)
    requires StampsOwnColumn(probes) && NoDup(ps)
    ensures p in RunInOrder(d, ps, cfg, probes).1 <==>
              p in ps && Enabled(cfg, p) && Due(LastRan(d, p), cfg.minFreshness)
    decreases |ps|
  {
    if ps != [] {
      var q := ps[0];
      assert q !in ps[1..] by {
        forall i | 0 <= i < |ps[1..]| ensures ps[1..][i] != q {
          assert ps[1..][i] == ps[i + 1];
        }
      }
      assert NoDup(ps[1..]) by {
        forall i, j | 0 <= i < j < |ps[1..]| ensures ps[1..][i] != ps[1..][j] {
          assert ps[1..][i] == ps[i + 1] && ps[1..][j] == ps[j + 1];
        }
      }
      var next := if Enabled(cfg, q) && Due(LastRan(d, q), cfg.minFreshness) then Apply(probes, q, d) else d;
      RunInOrderIff(next, ps[1..], cfg, probes, p);
      if p != q {
        assert LastRan(next, p) == LastRan(d, p);
      }
    }
  }

  lemma ProbeOrderNoDup()
    ensures NoDup(ProbeOrder)
  {
  }

  /** enrichDomainWorker's gate: with probes that stamp only their own
      column, the DNS probe runs iff DNS is enabled and last_ran_dns is
      due, and likewise for the other three. */
  lemma RunProbesIff(d: Domain, cfg: Config, probes: Probes, p: Probe)
    requires StampsOwnColumn(probes)
    ensures p in RunProbes(d, cfg, probes).1 <==> Enabled(cfg, p) && Due(LastRan(d, p), cfg.minFreshness)
  {
    ProbeOrderNoDup();
    RunInOrderIff(d, ProbeOrder, cfg, probes, p);
  }

  /** With no probe enabled the worker saves the domain as it found it. */
  lemma {:induction false} RunInOrderDisabled(d: Domain, ps: seq<Probe>, cfg: Config, probes: Probes)
    requires forall i :: 0 <= i < |ps| ==> !Enabled(cfg, ps[i])
    ensures RunInOrder(d, ps, cfg, probes) == (d, [])
    decreases |ps|
  {
    if ps != [] {
      RunInOrderDisabled(d, ps[1..], cfg, probes);
    }
  }

  // ---------------------------------------------------------------------
  // The worker

  /** The row store read by domain_name. */
  datatype StoreRead = Found(d: Domain) | NotFound | ReadFailed

  function ReadStored(table: DomainTable, name: string, failing: string -> bool): (r: StoreRead)
    ensures r.Found? ==> name in table && r.d == table[name]
    ensures r.NotFound? <==> !failing(name) && name !in table
  {
    if failing(name) then ReadFailed
    else if name in table then Found(table[name])
    else NotFound
  }

  /** The domain the worker probes: the stored record when found, the
      queued candidate only when no record exists, and the zero domain
      when the read fails otherwise. */
  function Starting(read: StoreRead, queued: Domain): Domain
  {
    match read
    case Found(d) => d
    case NotFound => queued
    case ReadFailed => Blank("")
  }

  function Worker(table: DomainTable, queued: Domain, cfg: Config, probes: Probes, failing: string -> bool)
    : (r: (Domain, seq<Probe>))
  {
    RunProbes(Starting(ReadStored(table, queued.domainName, failing), queued), cfg, probes)
  }

  /** The queued domain is probed only when the store has no row for its
      name; a stored row wins over it. */
  lemma WorkerPrefersStored(table: DomainTable, queued: Domain, cfg: Config, probes: Probes, failing: string -> bool)
    requires !failing(queued.domainName)
    ensures queued.domainName in table ==>
              Worker(table, queued, cfg, probes, failing) == RunProbes(table[queued.domainName], cfg, probes)
    ensures queued.domainName !in table ==>
              Worker(table, queued, cfg, probes, failing) == RunProbes(queued, cfg, probes)
  {
  }

  /** gorm Save: the row with the domain's name is replaced, or inserted. */
  function Save(table: DomainTable, d: Domain): (t: DomainTable)
    ensures t.Keys == table.Keys + {d.domainName}
    ensures t[d.domainName] == d
    ensures forall n :: n in table && n != d.domainName ==> t[n] == table[n]
  {
    table[d.domainName := d]
  }

  /** The sequential batch: each domain through the worker against the
      store as the earlier ones left it; the store, the processed count and
      the JSON output. */
  datatype Batch = Batch(table: DomainTable, processed: nat, out: seq<Domain>)

  function ProcessAll(table: DomainTable, batch: seq<Domain>, cfg: Config, probes: Probes, failing: string -> bool)
    : (b: Batch)
    ensures b.processed == |batch|
    ensures |b.out| == (if cfg.outputToJson then |batch| else 0)
    decreases |batch|
  {
    if batch == [] then Batch(table, 0, [])
    else
      var before := ProcessAll(table, batch[..|batch| - 1], cfg, probes, failing);
      var d := Worker(before.table, batch[|batch| - 1], cfg, probes, failing).0;
      Batch(Save(before.table, d), before.processed + 1, before.out + (if cfg.outputToJson then [d] else []))
  }

  /** Saving never drops a row: the store after a batch has every row it
      had before. */
  lemma {:induction false} ProcessAllKeepsRows(table: DomainTable, batch: seq<Domain>, cfg: Config, probes: Probes,
                                               failing: string -> bool)
    ensures table.Keys <= ProcessAll(table, batch, cfg, probes, failing).table.Keys
    decreases |batch|
  {
    if batch != [] {
      ProcessAllKeepsRows(table, batch[..|batch| - 1], cfg, probes, failing);
    }
  }

  /** One more domain of the batch: the worker on the store the prefix left. */
  lemma ProcessAllStep(table: DomainTable, batch: seq<Domain>, i: nat, cfg: Config, probes: Probes,
                       failing: string -> bool)
    requires i < |batch|
    ensures var before := ProcessAll(table, batch[..i], cfg, probes, failing);
            var d := Worker(before.table, batch[i], cfg, probes, failing).0;
            ProcessAll(table, batch[..i + 1], cfg, probes, failing)
            == Batch(Save(before.table, d), before.processed + 1, before.out + (if cfg.outputToJson then [d] else []))
  {
    assert batch[..i + 1][..i] == batch[..i];
  }

  /** enrichDomains, sequentialised: N_TO_PROCESS is the batch length,
      NUM_PROCESSED counts one per domain from zero, and with at least one
      worker the store and JSON output are those of the batch processed in
      order. With no worker the queued domains are never taken; a negative
      worker count panics in WaitGroup.Add. */
  method EnrichDomains(table: DomainTable, domains: seq<Domain>, cfg: Config, probes: Probes, failing: string -> bool)
    returns (t: DomainTable, toProcess: nat, processed: nat, out: seq<Domain>, err: Option<Error>)
    ensures err == Some(SliceOutOfRange) <==> SliceBatch(domains, cfg.offset, cfg.limit).None?
    ensures err == Some(NegativeWorkers) <==> SliceBatch(domains, cfg.offset, cfg.limit).Some? && cfg.nWorkers < 0
    ensures err.Some? || cfg.nWorkers == 0 ==> t == table && processed == 0 && out == []
    ensures SliceBatch(domains, cfg.offset, cfg.limit).Some? ==>
              toProcess == |SliceBatch(domains, cfg.offset, cfg.limit).value|
    ensures err.None? && cfg.nWorkers > 0 ==>
              var batch := SliceBatch(domains, cfg.offset, cfg.limit).value;
              && processed == toProcess
              && Batch(t, processed, out) == ProcessAll(table, batch, cfg, probes, failing)
  {
    var sliced := SliceBatch(domains, cfg.offset, cfg.limit);
    if sliced.None? {
      return table, 0, 0, [], Some(SliceOutOfRange);
    }
    var batch := sliced.value;
    toProcess := |batch|;
    processed := 0;
    t := table;
    out := [];
    if cfg.nWorkers < 0 {
      err := Some(NegativeWorkers);
      return;
    }
    err := None;
    if cfg.nWorkers == 0 {
      return;
    }
    var i := 0;
    while i < |batch|
      invariant 0 <= i <= |batch|
      invariant processed == i
      invariant Batch(t, processed, out) == ProcessAll(table, batch[..i], cfg, probes, failing)
    {
      ProcessAllStep(table, batch, i, cfg, probes, failing);
      var d := Worker(t, batch[i], cfg, probes, failing).0;
      if cfg.outputToJson {
        out := out + [d];
      }
      t := Save(t, d);
      processed := processed + 1;
      i := i + 1;
    }
    assert batch[..i] == batch;
  }

  // ---------------------------------------------------------------------
  // The two entry points

  /** enrichDomainNames turns every name into a domain with the legacy
      NewDomain (LegacyParseAll), keeping it also when parsing failed: a
      name the suffix lookup rejects is enriched under its trimmed text. */
  lemma NamedDomainsKeepsFailures(names: seq<string>, lookup: SuffixLookup, i: nat)
    requires i < |names| && !lookup(TrimSpace(names[i])).Match?
    ensures LegacyParseAll(names, lookup)[i].domainName == TrimSpace(names[i])
  {
    assert NewDomain(names[i], lookup, Legacy).err.Some?;
  }

  method EnrichDomainNames(table: DomainTable, names: seq<string>, cfg: Config, lookup: SuffixLookup, probes: Probes,
                           failing: string -> bool)
    returns (t: DomainTable, toProcess: nat, processed: nat, out: seq<Domain>, err: Option<Error>)
    ensures err == Some(SliceOutOfRange) <==> SliceBatch(names, cfg.offset, cfg.limit).None?
    ensures err == Some(NegativeWorkers) <==> SliceBatch(names, cfg.offset, cfg.limit).Some? && cfg.nWorkers < 0
    ensures err.None? && cfg.nWorkers > 0 ==>
              var batch := SliceBatch(LegacyParseAll(names, lookup), cfg.offset, cfg.limit).value;
              && toProcess == processed == |SliceBatch(names, cfg.offset, cfg.limit).value|
              && Batch(t, processed, out) == ProcessAll(table, batch, cfg, probes, failing)
  {
    var doms := LegacyParseAll(names, lookup);
    t, toProcess, processed, out, err := EnrichDomains(table, doms, cfg, probes, failing);
  }

  /** The order in which a SELECT without ORDER BY returns the rows. */
  type RowOrder = DomainTable -> seq<string>

  /** The stored rows whose timestamp for p is not after the cutoff
      (WHERE last_ran_* <= ?), compared in full precision. */
  function Stale(table: DomainTable, names: seq<string>, p: Probe, cutoff: Time): (ds: seq<Domain>)
    ensures forall i :: 0 <= i < |ds| ==> ds[i] in table.Values && LastRan(ds[i], p) <= cutoff
  {
    if names == [] then []
    else
      var rest := Stale(table, names[1..], p, cutoff);
      if names[0] in table && LastRan(table[names[0]], p) <= cutoff then [table[names[0]]] + rest else rest
  }

  /** Every stale row is selected when the order lists every stored name. */
  lemma {:induction false} StaleKeeps(table: DomainTable, names: seq<string>, p: Probe, cutoff: Time, i: nat)
    requires i < |names| && names[i] in table && LastRan(table[names[i]], p) <= cutoff
    ensures table[names[i]] in Stale(table, names, p, cutoff)
    decreases i
  {
    if i > 0 {
      StaleKeeps(table, names[1..], p, cutoff, i - 1);
    }
  }

  /** The single-probe configuration enrichDBDomains hands to each pass:
      the paging and cutoff carry over, JSON output does not. */
  function Single(cfg: Config, p: Probe): (c: Config)
    ensures forall q :: Enabled(c, q) <==> q == p
    ensures !c.outputToJson && c.minFreshness == cfg.minFreshness
  {
    Config(p == CertProbe, p == DnsProbe, p == SitemapProbe, false, p == RedirectProbe,
           cfg.limit, cfg.offset, cfg.nWorkers, cfg.minFreshness, false)
  }

  /** One pass of enrichDBDomains for probe p: enrichDomains over the stale
      rows, with its panics. */
  function Pass(table: DomainTable, cfg: Config, p: Probe, order: RowOrder, probes: Probes, failing: string -> bool)
    : (r: (DomainTable, Option<Error>))
  {
    var sel := Stale(table, order(table), p, cfg.minFreshness);
    var batch := SliceBatch(sel, cfg.offset, cfg.limit);
    if batch.None? then (table, Some(SliceOutOfRange))
    else if cfg.nWorkers < 0 then (table, Some(NegativeWorkers))
    else if cfg.nWorkers == 0 then (table, None)
    else (ProcessAll(table, batch.value, Single(cfg, p), probes, failing).table, None)
  }

  /** enrichDBDomains: one pass per enabled probe, DNS, redirect, cert
      SANs, sitemap, each over the store the previous pass left, until a
      pass panics; returns the store, the passes started and the panic. */
  function EnrichDB(table: DomainTable, cfg: Config, order: RowOrder, probes: Probes, failing: string -> bool)
    : (r: (DomainTable, seq<Probe>, Option<Error>))
  {
    PassesFrom(table, ProbeOrder, cfg, order, probes, failing)
  }

  function PassesFrom(table: DomainTable, ps: seq<Probe>, cfg: Config, order: RowOrder, probes: Probes,
                      failing: string -> bool): (r: (DomainTable, seq<Probe>, Option<Error>))
    ensures forall i :: 0 <= i < |r.1| ==> r.1[i] in ps && Enabled(cfg, r.1[i])
    ensures table.Keys <= r.0.Keys
    ensures r.2.Some? ==> r.1 != []
    decreases |ps|
  {
    if ps == [] then (table, [], None)
    else if Enabled(cfg, ps[0]) then
      var t := Pass(table, cfg, ps[0], order, probes, failing);
      PassKeepsRows(table, cfg, ps[0], order, probes, failing);
      if t.1.Some? then (t.0, [ps[0]], t.1)
      else
        var rest := PassesFrom(t.0, ps[1..], cfg, order, probes, failing);
        (rest.0, [ps[0]] + rest.1, rest.2)
    else PassesFrom(table, ps[1..], cfg, order, probes, failing)
  }

  lemma PassKeepsRows(table: DomainTable, cfg: Config, p: Probe, order: RowOrder, probes: Probes, failing: string -> bool)
    ensures table.Keys <= Pass(table, cfg, p, order, probes, failing).0.Keys
  {
    var sel := Stale(table, order(table), p, cfg.minFreshness);
    var batch := SliceBatch(sel, cfg.offset, cfg.limit);
    if batch.Some? && cfg.nWorkers > 0 {
      ProcessAllKeepsRows(table, batch.value, Single(cfg, p), probes, failing);
    }
  }

  /** A pass runs only its own probe, whatever else the caller enabled. */
  lemma PassRunsOnlyItsProbe(d: Domain, cfg: Config, p: Probe, probes: Probes, q: Probe)
    requires q in RunProbes(d, Single(cfg, p), probes).1
    ensures q == p
  {
  }

  /** A row the pass selected for being stale is probed: full-precision
      staleness implies the worker's whole-second test. */
  lemma SelectedRowIsProbed(table: DomainTable, cfg: Config, p: Probe, probes: Probes, failing: string -> bool,
                            name: string)
    requires name in table && table[name].domainName == name && !failing(name)
    requires LastRan(table[name], p) <= cfg.minFreshness
    ensures p in Worker(table, table[name], Single(cfg, p), probes, failing).1
  {
    UnixSecondsMonotone(LastRan(table[name], p), cfg.minFreshness);
    RunInOrderStartsWith(table[name], Single(cfg, p), probes, p);
  }

  /** The first enabled, due probe in the order is run. */
  lemma RunInOrderStartsWith(d: Domain, cfg: Config, probes: Probes, p: Probe)
    requires forall q :: Enabled(cfg, q) <==> q == p
    requires Due(LastRan(d, p), cfg.minFreshness)
    ensures p in RunProbes(d, cfg, probes).1
  {
    var ps := ProbeOrder;
    var k := Rank(p);
    assert ps[k] == p;
    RunInOrderFinds(d, ps, cfg, probes, p, k);
  }

  /** When the only enabled probe sits at index k and is due, it is run. */
  lemma {:induction false} RunInOrderFinds(d: Domain, ps: seq<Probe>, cfg: Config, probes: Probes, p: Probe, k: nat)
    requires forall q :: Enabled(cfg, q) <==> q == p
    requires k < |ps| && ps[k] == p && Due(LastRan(d, p), cfg.minFreshness)
    ensures p in RunInOrder(d, ps, cfg, probes).1
    decreases k
  {
    if k > 0 {
      if ps[0] == p {
        RunInOrderFinds(d, ps, cfg, probes, p, 0);
      } else {
        assert ps[1..][k - 1] == p;
        RunInOrderFinds(d, ps[1..], cfg, probes, p, k - 1);
      }
    }
  }

  /** enrichDBDomains starts the passes of the enabled probes among DNS,
      redirect, cert SANs and sitemap, in that order, all of them unless
      one panics, which ends the run; the SitemapContact flag makes no
      pass. */
  lemma {:induction false} PassesFromOrder(table: DomainTable, ps: seq<Probe>, cfg: Config, order: RowOrder,
                                           probes: Probes, failing: string -> bool)
    ensures var r := PassesFrom(table, ps, cfg, order, probes, failing);
            && |r.1| <= |Filter(ps, cfg)| && r.1 == Filter(ps, cfg)[..|r.1|]
            && (r.2.None? ==> r.1 == Filter(ps, cfg))
    decreases |ps|
  {
    if ps != [] {
      if Enabled(cfg, ps[0]) {
        var t := Pass(table, cfg, ps[0], order, probes, failing);
        assert Filter(ps, cfg) == [ps[0]] + Filter(ps[1..], cfg);
        if t.1.None? {
          PassesFromOrder(t.0, ps[1..], cfg, order, probes, failing);
        }
      } else {
        PassesFromOrder(table, ps[1..], cfg, order, probes, failing);
      }
    }
  }

  /** With a negative worker count the first pass panics, so nothing is
      enriched; with no worker every pass leaves the store as it was. */
  lemma {:induction false} PassesFromWorkers(table: DomainTable, ps: seq<Probe>, cfg: Config, order: RowOrder,
                                             probes: Probes, failing: string -> bool)
    requires cfg.nWorkers <= 0
    ensures var r := PassesFrom(table, ps, cfg, order, probes, failing);
            && r.0 == table
            && (cfg.nWorkers < 0 ==> (if Filter(ps, cfg) == [] then r.1 == [] && r.2.None?
                                      else r.1 == [Filter(ps, cfg)[0]] && r.2.Some?))
    decreases |ps|
  {
    if ps != [] && !Enabled(cfg, ps[0]) {
      PassesFromWorkers(table, ps[1..], cfg, order, probes, failing);
    } else if ps != [] && cfg.nWorkers == 0 {
      PassesFromWorkers(table, ps[1..], cfg, order, probes, failing);
    }
  }

  /** The enabled probes of ps, in order. */
  function Filter(ps: seq<Probe>, cfg: Config): (fs: seq<Probe>)
    ensures forall p :: p in fs <==> p in ps && Enabled(cfg, p)
  {
    if ps == [] then [] else (if Enabled(cfg, ps[0]) then [ps[0]] else []) + Filter(ps[1..], cfg)
  }

  lemma EnrichDBPasses(table: DomainTable, cfg: Config, order: RowOrder, probes: Probes, failing: string -> bool)
    ensures var r := EnrichDB(table, cfg, order, probes, failing);
            && |r.1| <= |Filter(ProbeOrder, cfg)| && r.1 == Filter(ProbeOrder, cfg)[..|r.1|]
            && (r.2.None? ==> r.1 == Filter(ProbeOrder, cfg) && (forall p :: p in r.1 <==> Enabled(cfg, p)))
            && (r.2.Some? ==> r.2 == Some(SliceOutOfRange) || r.2 == Some(NegativeWorkers))
            && EnrichDB(table, cfg.(sitemapContact := !cfg.sitemapContact), order, probes, failing)
               == EnrichDB(table, cfg, order, probes, failing)
  {
    PassesFromOrder(table, ProbeOrder, cfg, order, probes, failing);
    PassesFromErrors(table, ProbeOrder, cfg, order, probes, failing);
    PassesContactBlind(table, ProbeOrder, cfg, order, probes, failing);
  }

  /** Without a worker nothing is enriched: a negative count panics in the
      first pass, a zero count leaves every pass's domains queued. */
  lemma EnrichDBWorkers(table: DomainTable, cfg: Config, order: RowOrder, probes: Probes, failing: string -> bool)
    requires cfg.nWorkers <= 0
    ensures var r := EnrichDB(table, cfg, order, probes, failing);
            && r.0 == table
            && (cfg.nWorkers == 0 ==> r.2.None? || r.2 == Some(SliceOutOfRange))
            && (cfg.nWorkers < 0 && Filter(ProbeOrder, cfg) != [] ==> r.1 == [Filter(ProbeOrder, cfg)[0]] && r.2.Some?)
  {
    PassesFromWorkers(table, ProbeOrder, cfg, order, probes, failing);
    PassesFromErrors(table, ProbeOrder, cfg, order, probes, failing);
    if cfg.nWorkers == 0 {
      PassesFromNoPanicOfWorkers(table, ProbeOrder, cfg, order, probes, failing);
    }
  }

  /** With at least zero workers only a slice can panic. */
  lemma {:induction false} PassesFromNoPanicOfWorkers(table: DomainTable, ps: seq<Probe>, cfg: Config, order: RowOrder,
                                                      probes: Probes, failing: string -> bool)
    requires cfg.nWorkers >= 0
    ensures var e := PassesFrom(table, ps, cfg, order, probes, failing).2;
            e.None? || e == Some(SliceOutOfRange)
    decreases |ps|
  {
    if ps != [] {
      if Enabled(cfg, ps[0]) {
        var t := Pass(table, cfg, ps[0], order, probes, failing);
        if t.1.None? {
          PassesFromNoPanicOfWorkers(t.0, ps[1..], cfg, order, probes, failing);
        }
      } else {
        PassesFromNoPanicOfWorkers(table, ps[1..], cfg, order, probes, failing);
      }
    }
  }

  /** A run ends only on one of enrichDomains' two panics. */
  lemma {:induction false} PassesFromErrors(table: DomainTable, ps: seq<Probe>, cfg: Config, order: RowOrder,
                                            probes: Probes, failing: string -> bool)
    ensures var e := PassesFrom(table, ps, cfg, order, probes, failing).2;
            e.None? || e == Some(SliceOutOfRange) || e == Some(NegativeWorkers)
    decreases |ps|
  {
    if ps != [] {
      if Enabled(cfg, ps[0]) {
        var t := Pass(table, cfg, ps[0], order, probes, failing);
        if t.1.None? {
          PassesFromErrors(t.0, ps[1..], cfg, order, probes, failing);
        }
      } else {
        PassesFromErrors(table, ps[1..], cfg, order, probes, failing);
      }
    }
  }

  /** No pass reads the SitemapContact flag. */
  lemma {:induction false} PassesContactBlind(table: DomainTable, ps: seq<Probe>, cfg: Config, order: RowOrder,
                                              probes: Probes, failing: string -> bool)
    ensures PassesFrom(table, ps, cfg.(sitemapContact := !cfg.sitemapContact), order, probes, failing)
            == PassesFrom(table, ps, cfg, order, probes, failing)
    decreases |ps|
  {
    var flipped := cfg.(sitemapContact := !cfg.sitemapContact);
    if ps != [] {
      assert Single(flipped, ps[0]) == Single(cfg, ps[0]);
      assert Pass(table, flipped, ps[0], order, probes, failing) == Pass(table, cfg, ps[0], order, probes, failing);
      if Enabled(cfg, ps[0]) {
        PassesContactBlind(Pass(table, cfg, ps[0], order, probes, failing).0, ps[1..], cfg, order, probes, failing);
      } else {
        PassesContactBlind(table, ps[1..], cfg, order, probes, failing);
      }
    }
  }
}
