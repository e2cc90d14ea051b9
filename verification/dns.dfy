/** The DNS probe: resolver fallback, per-type answer filtering, the
    four-query GetDNSRecords sequence, and the record rows' warehouse
    conversions. The resolver exchange is a parameter. */
module Dns {
  import opened Base
  import opened Records
  import opened Domains

  /** One resource record of an answer section, as the resolver library decodes it. */
  datatype RR =
    | RRA(ip: string)
    | RRAAAA(ipv6: string)
    | RRMX(mx: string)
    | RRSOA(ns: string, mbox: string, serial: uint32)
    | RROther

  /** Client.Exchange: question type, fully qualified name and server
      address to the answer section, or None when the exchange errs. */
  type Exchange = (RecordType, string, string) -> Option<seq<RR>>

  /** The resolver configuration read from /etc/resolv.conf. */
  datatype ResolverConfig = ResolverConfig(servers: seq<string>, port: string)

  const Fallback: string := "8.8.8.8:53"

  /** Every server address in the order queryAllServers tries them. */
  function Addresses(cfg: ResolverConfig): (addrs: seq<string>)
    ensures |addrs| == |cfg.servers| + 1
    ensures forall i :: 0 <= i < |cfg.servers| ==> addrs[i] == cfg.servers[i] + ":" + cfg.port
    ensures addrs[|cfg.servers|] == Fallback
  {
    seq(|cfg.servers|, i requires 0 <= i < |cfg.servers| => cfg.servers[i] + ":" + cfg.port) + [Fallback]
  }

  /** dns.Fqdn: a name ending in a dot is kept, any other gets one. */
  function Fqdn(name: string): (f: string)
    ensures |f| > 0 && f[|f| - 1] == '.'
    ensures f == name || f == name + "."
  {
    if |name| > 0 && name[|name| - 1] == '.' then name else name + "."
  }

  /** One exchange the probe performed. */
  datatype Question = Question(qtype: RecordType, name: string, server: string)

  /** The answer queryAllServers returns (None for its error) and the servers it contacted. */
  datatype Reply = Reply(answer: Option<seq<RR>>, tried: seq<string>)

  /** Tries addrs[i..] in order and stops at the first exchange that succeeds. */
  function TryFrom(ex: Exchange, t: RecordType, name: string, addrs: seq<string>, i: nat): (r: Reply)
    requires i <= |addrs|
    ensures |r.tried| <= |addrs| - i && r.tried == addrs[i..i + |r.tried|]
    ensures forall j :: 0 <= j < |r.tried| - 1 ==> ex(t, name, r.tried[j]).None?
    ensures r.answer.Some? ==> |r.tried| > 0 && ex(t, name, r.tried[|r.tried| - 1]) == r.answer
    ensures r.answer.None? ==> r.tried == addrs[i..] && forall j :: i <= j < |addrs| ==> ex(t, name, addrs[j]).None?
    decreases |addrs| - i
  {
    if i == |addrs| then Reply(None, [])
    else
      var a := ex(t, name, addrs[i]);
      if a.Some? then Reply(a, [addrs[i]])
      else
        var rest := TryFrom(ex, t, name, addrs, i + 1);
        assert addrs[i..i + 1 + |rest.tried|] == [addrs[i]] + addrs[i + 1..i + 1 + |rest.tried|];
        Reply(rest.answer, [addrs[i]] + rest.tried)
  }

  /** queryAllServers: the configured servers in order, then 8.8.8.8:53. */
  function QueryAllServers(cfg: ResolverConfig, ex: Exchange, t: RecordType, name: string): (r: Reply)
    ensures 1 <= |r.tried| <= |cfg.servers| + 1
  {
    TryFrom(ex, t, name, Addresses(cfg), 0)
  }

  /** The first answer wins, every server before it failed, and the error
      comes only once every configured server and then the fallback failed. */
  lemma QueryAllServersOrder(cfg: ResolverConfig, ex: Exchange, t: RecordType, name: string)
    ensures var r := QueryAllServers(cfg, ex, t, name);
            && r.tried == Addresses(cfg)[..|r.tried|]
            && (forall j :: 0 <= j < |r.tried| - 1 ==> ex(t, name, r.tried[j]).None?)
            && (r.answer.Some? ==> ex(t, name, r.tried[|r.tried| - 1]) == r.answer)
            && (r.answer.None? <==> forall j :: 0 <= j < |cfg.servers| + 1 ==> ex(t, name, Addresses(cfg)[j]).None?)
            && (r.answer.None? ==> r.tried == Addresses(cfg))
  {
    TryFromStart(ex, t, name, Addresses(cfg));
  }

  lemma TryFromStart(ex: Exchange, t: RecordType, name: string, addrs: seq<string>)
    ensures var r := TryFrom(ex, t, name, addrs, 0);
            && r.tried == addrs[..|r.tried|]
            && (r.answer.Some? ==> forall j :: 0 <= j < |r.tried| - 1 ==> ex(t, name, addrs[j]).None?)
  {
    var r := TryFrom(ex, t, name, addrs, 0);
    assert addrs[0..] == addrs;
    if r.answer.Some? {
      forall j | 0 <= j < |r.tried| - 1 ensures ex(t, name, addrs[j]).None? {
        assert addrs[j] == r.tried[j];
      }
    }
  }

  /** The fallback resolver is contacted only after every configured one failed. */
  lemma FallbackOnlyAfterConfiguredFail(cfg: ResolverConfig, ex: Exchange, t: RecordType, name: string)
    ensures var r := QueryAllServers(cfg, ex, t, name);
            |r.tried| == |cfg.servers| + 1 ==>
              forall j :: 0 <= j < |cfg.servers| ==> ex(t, name, cfg.servers[j] + ":" + cfg.port).None?
    ensures var r := QueryAllServers(cfg, ex, t, name);
            forall j :: 0 <= j < |cfg.servers| && ex(t, name, cfg.servers[j] + ":" + cfg.port).Some? ==>
              |r.tried| <= j + 1 && r.answer.Some?
  {
    var r := QueryAllServers(cfg, ex, t, name);
    var addrs := Addresses(cfg);
    QueryAllServersOrder(cfg, ex, t, name);
    forall j | 0 <= j < |cfg.servers| && ex(t, name, cfg.servers[j] + ":" + cfg.port).Some?
      ensures |r.tried| <= j + 1 && r.answer.Some?
    {
      assert addrs[j] == cfg.servers[j] + ":" + cfg.port;
      assert j < |r.tried| ==> r.tried[j] == addrs[j];
    }
    if |r.tried| == |cfg.servers| + 1 {
      forall j | 0 <= j < |cfg.servers| ensures ex(t, name, cfg.servers[j] + ":" + cfg.port).None? {
        assert r.tried[j] == addrs[j];
      }
    }
  }

  /** The value of an answer record when it has the queried type. */
  function DataOf(rr: RR, t: RecordType): (d: Option<RData>)
    ensures d.Some? ==> TypeOf(d.value) == t
  {
    match rr
    case RRA(ip) => if t == TypeA then Some(A(ip)) else None
    case RRAAAA(ip) => if t == TypeAAAA then Some(AAAA(ip)) else None
    case RRMX(mx) => if t == TypeMX then Some(MX(mx)) else None
    case RRSOA(ns, mbox, serial) => if t == TypeSOA then Some(SOA(ns, mbox, serial)) else None
    case RROther => None
  }

  /** A record row not yet saved: id and timestamps at their zero values. */
  function Unsaved(data: RData, owner: RecordOwner): DnsRecord
  {
    DnsRecord(0, ZeroTime, ZeroTime, data, owner)
  }

  /** The type-assertion loop of each Query*: keeps, in order, the answers of the queried type. */
  function FilterAnswers(answer: seq<RR>, t: RecordType, owner: RecordOwner): (rs: seq<DnsRecord>)
    ensures |rs| <= |answer|
    ensures forall i :: 0 <= i < |rs| ==> rs[i] == Unsaved(rs[i].data, owner) && TypeOf(rs[i].data) == t
  {
    if |answer| == 0 then []
    else
      var rest := FilterAnswers(answer[1..], t, owner);
      var head := DataOf(answer[0], t);
      if head.Some? then [Unsaved(head.value, owner)] + rest else rest
  }

  /** A value is among the kept records exactly when some answer of the
      queried type carries it: nothing of that type is dropped, nothing else kept. */
  lemma FilterAnswersMembers(answer: seq<RR>, t: RecordType, owner: RecordOwner, d: RData)
    ensures var rs := FilterAnswers(answer, t, owner);
            (exists i :: 0 <= i < |rs| && rs[i].data == d) <==>
            (exists i :: 0 <= i < |answer| && DataOf(answer[i], t) == Some(d))
  {
    var rs := FilterAnswers(answer, t, owner);
    if exists i :: 0 <= i < |rs| && rs[i].data == d {
      var k :| 0 <= k < |rs| && rs[k].data == d;
      var i := FilterAnswersSource(answer, t, owner, k);
    }
    if exists i :: 0 <= i < |answer| && DataOf(answer[i], t) == Some(d) {
      var i :| 0 <= i < |answer| && DataOf(answer[i], t) == Some(d);
      var k := FilterAnswersKeeps(answer, t, owner, i);
    }
  }

  /** Where an answer of the queried type ends up among the kept records. */
  lemma {:induction false} FilterAnswersKeeps(answer: seq<RR>, t: RecordType, owner: RecordOwner, i: nat) returns (k: nat)
    requires i < |answer| && DataOf(answer[i], t).Some?
    ensures var rs := FilterAnswers(answer, t, owner);
            k < |rs| && rs[k].data == DataOf(answer[i], t).value
    decreases i
  {
    var rest := FilterAnswers(answer[1..], t, owner);
    if i == 0 {
      k := 0;
    } else {
      assert answer[1..][i - 1] == answer[i];
      var k' := FilterAnswersKeeps(answer[1..], t, owner, i - 1);
      k := if DataOf(answer[0], t).Some? then k' + 1 else k';
    }
  }

  /** Which answer a kept record came from. */
  lemma {:induction false} FilterAnswersSource(answer: seq<RR>, t: RecordType, owner: RecordOwner, k: nat) returns (i: nat)
    requires k < |FilterAnswers(answer, t, owner)|
    ensures i < |answer| && DataOf(answer[i], t) == Some(FilterAnswers(answer, t, owner)[k].data)
    decreases |answer|
  {
    var rs := FilterAnswers(answer, t, owner);
    var rest := FilterAnswers(answer[1..], t, owner);
    if DataOf(answer[0], t).Some? && k == 0 {
      i := 0;
    } else {
      var k' := if DataOf(answer[0], t).Some? then k - 1 else k;
      assert rs[k] == rest[k'];
      var i' := FilterAnswersSource(answer[1..], t, owner, k');
      assert answer[1..][i'] == answer[i' + 1];
      i := i' + 1;
    }
  }

  /** FilterAnswers distributes over a split answer section, so the kept
      records are in answer order. */
  lemma {:induction false} FilterAnswersAppend(a: seq<RR>, b: seq<RR>, t: RecordType, owner: RecordOwner)
    ensures FilterAnswers(a + b, t, owner) == FilterAnswers(a, t, owner) + FilterAnswers(b, t, owner)
    decreases |a|
  {
    if |a| > 0 {
      assert (a + b)[1..] == a[1..] + b;
      FilterAnswersAppend(a[1..], b, t, owner);
    } else {
      assert a + b == b;
    }
  }

  function Slice(d: Domain, t: RecordType): seq<DnsRecord>
  {
    match t
    case TypeA => d.aRecords
    case TypeAAAA => d.aaaaRecords
    case TypeMX => d.mxRecords
    case TypeSOA => d.soaRecords
  }

  /** The domain without its four record slices and its DNS timestamp. */
  function BesidesDns(d: Domain): Domain
  {
    d.(aRecords := [], aaaaRecords := [], mxRecords := [], soaRecords := [], lastRanDns := 0)
  }

  /** One Query*: the new content of the queried type's slice, the error, the exchanges made. */
  datatype Step = Step(records: seq<DnsRecord>, err: Option<Error>, asked: seq<Question>)

  function Ask(t: RecordType, name: string, servers: seq<string>): (qs: seq<Question>)
    ensures |qs| == |servers|
    ensures forall i :: 0 <= i < |qs| ==> qs[i] == Question(t, name, servers[i])
  {
    seq(|servers|, i requires 0 <= i < |servers| => Question(t, name, servers[i]))
  }

  /** QueryA, QueryAAAA, QueryMX and QuerySOA for the domain called name,
      whose slice of type t currently holds prior. */
  function QueryType(name: string, t: RecordType, owner: RecordOwner, cfg: ResolverConfig, ex: Exchange,
                     prior: seq<DnsRecord>): (s: Step)
    ensures var r := QueryAllServers(cfg, ex, t, Fqdn(name));
            && (s.err.Some? <==> r.answer.None?)
            && (s.err.Some? ==> s.err == Some(AllServersFailed) && s.records == prior)
            && (r.answer.Some? ==> s.records == FilterAnswers(r.answer.value, t, owner))
            && s.asked == Ask(t, Fqdn(name), r.tried)
    ensures |s.asked| > 0 && AllOfType(s.asked, t) && ResolverError(s.err)
  {
    var r := QueryAllServers(cfg, ex, t, Fqdn(name));
    var asked := Ask(t, Fqdn(name), r.tried);
    if r.answer.None? then Step(prior, Some(AllServersFailed), asked)
    else Step(FilterAnswers(r.answer.value, t, owner), None, asked)
  }

  function Rank(t: RecordType): nat
  {
    match t
    case TypeA => 0
    case TypeAAAA => 1
    case TypeMX => 2
    case TypeSOA => 3
  }

  function ErrorsOf(e: Option<Error>): seq<Error>
  {
    if e.Some? then [e.value] else []
  }

  /** Whether every server fails the query of type t for d. */
  predicate Fails(d: Domain, t: RecordType, cfg: ResolverConfig, ex: Exchange)
  {
    QueryAllServers(cfg, ex, t, Fqdn(d.domainName)).answer.None?
  }

  function CountFailures(d: Domain, cfg: ResolverConfig, ex: Exchange): nat
  {
    (if Fails(d, TypeA, cfg, ex) then 1 else 0) + (if Fails(d, TypeAAAA, cfg, ex) then 1 else 0)
    + (if Fails(d, TypeMX, cfg, ex) then 1 else 0) + (if Fails(d, TypeSOA, cfg, ex) then 1 else 0)
  }

  datatype DnsOutcome = DnsOutcome(domain: Domain, errors: seq<Error>, asked: seq<Question>)

  function QTypes(qs: seq<Question>): set<RecordType>
  {
    set q <- qs :: q.qtype
  }

  /** GetDNSRecords. owner is how the records point back to the domain:
      ByName(domainName) in the current package, ById(id) in the legacy one. */
  function GetDNSRecords(d: Domain, owner: RecordOwner, now: Time, cfg: ResolverConfig, ex: Exchange): (o: DnsOutcome)
    ensures o.domain.lastRanDns == now
    ensures d.nonPublicDomain ==> o == DnsOutcome(d.(lastRanDns := now), [NonPublicDomain], [])
    ensures BesidesDns(o.domain) == BesidesDns(d)
  {
    if d.nonPublicDomain then DnsOutcome(d.(lastRanDns := now), [NonPublicDomain], [])
    else
      var sa := QueryType(d.domainName, TypeA, owner, cfg, ex, d.aRecords);
      var s4 := QueryType(d.domainName, TypeAAAA, owner, cfg, ex, d.aaaaRecords);
      var smx := QueryType(d.domainName, TypeMX, owner, cfg, ex, d.mxRecords);
      var ssoa := QueryType(d.domainName, TypeSOA, owner, cfg, ex, d.soaRecords);
      DnsOutcome(d.(lastRanDns := now, aRecords := sa.records, aaaaRecords := s4.records,
                    mxRecords := smx.records, soaRecords := ssoa.records),
                 ErrorsOf(sa.err) + ErrorsOf(s4.err) + ErrorsOf(smx.err) + ErrorsOf(ssoa.err),
                 sa.asked + s4.asked + smx.asked + ssoa.asked)
  }

  /** For a public domain: one error per record type whose query failed on every server. */
  lemma GetDNSRecordsErrorCount(d: Domain, owner: RecordOwner, now: Time, cfg: ResolverConfig, ex: Exchange)
    requires !d.nonPublicDomain
    ensures |GetDNSRecords(d, owner, now, cfg, ex).errors| == CountFailures(d, cfg, ex) <= 4
  {
    var sa := QueryType(d.domainName, TypeA, owner, cfg, ex, d.aRecords);
    var s4 := QueryType(d.domainName, TypeAAAA, owner, cfg, ex, d.aaaaRecords);
    var smx := QueryType(d.domainName, TypeMX, owner, cfg, ex, d.mxRecords);
    var ssoa := QueryType(d.domainName, TypeSOA, owner, cfg, ex, d.soaRecords);
    assert GetDNSRecords(d, owner, now, cfg, ex).errors
        == ErrorsOf(sa.err) + ErrorsOf(s4.err) + ErrorsOf(smx.err) + ErrorsOf(ssoa.err);
    assert |ErrorsOf(sa.err)| == if Fails(d, TypeA, cfg, ex) then 1 else 0;
    assert |ErrorsOf(s4.err)| == if Fails(d, TypeAAAA, cfg, ex) then 1 else 0;
    assert |ErrorsOf(smx.err)| == if Fails(d, TypeMX, cfg, ex) then 1 else 0;
    assert |ErrorsOf(ssoa.err)| == if Fails(d, TypeSOA, cfg, ex) then 1 else 0;
  }

  /** Every error a public domain's probe reports is a resolver failure. */
  lemma GetDNSRecordsErrorKinds(d: Domain, owner: RecordOwner, now: Time, cfg: ResolverConfig, ex: Exchange)
    requires !d.nonPublicDomain
    ensures var es := GetDNSRecords(d, owner, now, cfg, ex).errors;
            forall i :: 0 <= i < |es| ==> es[i] == AllServersFailed
  {
    var sa := QueryType(d.domainName, TypeA, owner, cfg, ex, d.aRecords);
    var s4 := QueryType(d.domainName, TypeAAAA, owner, cfg, ex, d.aaaaRecords);
    var smx := QueryType(d.domainName, TypeMX, owner, cfg, ex, d.mxRecords);
    var ssoa := QueryType(d.domainName, TypeSOA, owner, cfg, ex, d.soaRecords);
    OnlyResolverErrors(sa.err, s4.err, smx.err, ssoa.err);
  }

  predicate ResolverError(e: Option<Error>)
  {
    e == None || e == Some(AllServersFailed)
  }

  lemma OnlyResolverErrors(a: Option<Error>, b: Option<Error>, c: Option<Error>, f: Option<Error>)
    requires ResolverError(a) && ResolverError(b) && ResolverError(c) && ResolverError(f)
    ensures var es := ErrorsOf(a) + ErrorsOf(b) + ErrorsOf(c) + ErrorsOf(f);
            forall i :: 0 <= i < |es| ==> es[i] == AllServersFailed
  {
  }

  /** For a public domain, a type that failed on every server keeps its
      slice; any other gets exactly its filtered answers. */
  lemma GetDNSRecordsSlice(d: Domain, owner: RecordOwner, now: Time, cfg: ResolverConfig, ex: Exchange, t: RecordType)
    requires !d.nonPublicDomain
    ensures var o := GetDNSRecords(d, owner, now, cfg, ex);
            var r := QueryAllServers(cfg, ex, t, Fqdn(d.domainName));
            && (r.answer.None? ==> Slice(o.domain, t) == Slice(d, t))
            && (r.answer.Some? ==> Slice(o.domain, t) == FilterAnswers(r.answer.value, t, owner))
  {
    var s := QueryType(d.domainName, t, owner, cfg, ex, Slice(d, t));
    assert Slice(GetDNSRecords(d, owner, now, cfg, ex).domain, t) == s.records;
  }

  /** In the current package every record of a replaced slice points back
      to the probed domain by its name, is not yet saved, and is of the
      slice's type; the other fields of the domain are kept. */
  lemma GetDNSRecordsOwnedByName(d: Domain, now: Time, cfg: ResolverConfig, ex: Exchange, t: RecordType)
    requires !d.nonPublicDomain
    ensures var o := GetDNSRecords(d, ByName(d.domainName), now, cfg, ex);
            && o.domain.domainName == d.domainName
            && (QueryAllServers(cfg, ex, t, Fqdn(d.domainName)).answer.Some? ==>
                  forall r :: r in Slice(o.domain, t) ==>
                    r.owner == ByName(o.domain.domainName) && r.id == 0 && r.createdAt == ZeroTime && TypeOf(r.data) == t)
  {
    GetDNSRecordsSlice(d, ByName(d.domainName), now, cfg, ex, t);
  }

  /** For a public domain the questions go out by type, A, AAAA, MX then
      SOA, each block finished before the next begins. */
  lemma GetDNSRecordsAskOrder(d: Domain, owner: RecordOwner, now: Time, cfg: ResolverConfig, ex: Exchange)
    requires !d.nonPublicDomain
    ensures var qs := GetDNSRecords(d, owner, now, cfg, ex).asked;
            forall i, j :: 0 <= i < j < |qs| ==> Rank(qs[i].qtype) <= Rank(qs[j].qtype)
  {
    var sa := QueryType(d.domainName, TypeA, owner, cfg, ex, d.aRecords);
    var s4 := QueryType(d.domainName, TypeAAAA, owner, cfg, ex, d.aaaaRecords);
    var smx := QueryType(d.domainName, TypeMX, owner, cfg, ex, d.mxRecords);
    var ssoa := QueryType(d.domainName, TypeSOA, owner, cfg, ex, d.soaRecords);
    AskedInTypeOrder(sa.asked, s4.asked, smx.asked, ssoa.asked);
  }

  /** For a public domain every one of the four types is asked, whatever fails. */
  lemma GetDNSRecordsAsksEveryType(d: Domain, owner: RecordOwner, now: Time, cfg: ResolverConfig, ex: Exchange)
    requires !d.nonPublicDomain
    ensures QTypes(GetDNSRecords(d, owner, now, cfg, ex).asked) == {TypeA, TypeAAAA, TypeMX, TypeSOA}
  {
    var sa := QueryType(d.domainName, TypeA, owner, cfg, ex, d.aRecords);
    var s4 := QueryType(d.domainName, TypeAAAA, owner, cfg, ex, d.aaaaRecords);
    var smx := QueryType(d.domainName, TypeMX, owner, cfg, ex, d.mxRecords);
    var ssoa := QueryType(d.domainName, TypeSOA, owner, cfg, ex, d.soaRecords);
    AskedEveryType(sa.asked, s4.asked, smx.asked, ssoa.asked);
  }

  predicate AllOfType(qs: seq<Question>, t: RecordType)
  {
    forall i :: 0 <= i < |qs| ==> qs[i].qtype == t
  }

  lemma AskedEveryType(a: seq<Question>, b: seq<Question>, c: seq<Question>, e: seq<Question>)
    requires AllOfType(a, TypeA) && AllOfType(b, TypeAAAA) && AllOfType(c, TypeMX) && AllOfType(e, TypeSOA)
    requires |a| > 0 && |b| > 0 && |c| > 0 && |e| > 0
    ensures QTypes(a + b + c + e) == {TypeA, TypeAAAA, TypeMX, TypeSOA}
  {
    var qs := a + b + c + e;
    assert qs[0] == a[0] && qs[|a|] == b[0] && qs[|a| + |b|] == c[0] && qs[|a| + |b| + |c|] == e[0];
    forall q | q in qs ensures q.qtype in {TypeA, TypeAAAA, TypeMX, TypeSOA} { }
  }

  /** Four blocks of questions, one type each in rank order, are sorted by rank. */
  lemma AskedInTypeOrder(a: seq<Question>, b: seq<Question>, c: seq<Question>, e: seq<Question>)
    requires AllOfType(a, TypeA) && AllOfType(b, TypeAAAA) && AllOfType(c, TypeMX) && AllOfType(e, TypeSOA)
    ensures var qs := a + b + c + e;
            forall i, j :: 0 <= i < j < |qs| ==> Rank(qs[i].qtype) <= Rank(qs[j].qtype)
  {
    var qs := a + b + c + e;
    forall i | 0 <= i < |qs|
      ensures Rank(qs[i].qtype) == if i < |a| then 0 else if i < |a| + |b| then 1 else if i < |a| + |b| + |c| then 2 else 3
    {
      if i < |a| { assert qs[i] == a[i]; }
      else if i < |a| + |b| { assert qs[i] == b[i - |a|]; }
      else if i < |a| + |b| + |c| { assert qs[i] == c[i - |a| - |b|]; }
      else { assert qs[i] == e[i - |a| - |b| - |c|]; }
    }
  }

  // ---------------------------------------------------------------------
  // Record rows in the warehouse

  /** The owner column of a record row: domain_name (current) or domain_id (legacy). */
  datatype OwnerBQ = NameColumn(name: string) | IdColumn(id: int64)

  /** ARecordBQ, AAAARecordBQ, MXRecordBQ and SOARecordBQ. */
  datatype RecordBQ = RecordBQ(id: int64, createdAt: Time, updatedAt: Time, data: RDataBQ, owner: OwnerBQ)

  /** ToBQ: int(ID), the timestamps, the value fields (SOA's nullable), the owner. */
  function RecordToBQ(r: DnsRecord): (b: RecordBQ)
    ensures b.createdAt == r.createdAt && b.updatedAt == r.updatedAt
    ensures r.id < 0x8000_0000_0000_0000 ==> b.id == r.id
    ensures r.id >= 0x8000_0000_0000_0000 ==> b.id < 0
    ensures r.data.SOA? ==>
              && b.data.SOABQ?
              && (b.data.ns.valid <==> r.data.ns != "")
              && (b.data.mbox.valid <==> r.data.mbox != "")
              && (b.data.serial.valid <==> r.data.serial != 0)
    ensures r.owner.ByName? ==> b.owner == NameColumn(r.owner.name)
    ensures r.owner.ById? ==> b.owner.IdColumn? && (r.owner.id < 0x8000_0000_0000_0000 ==> b.owner.id == r.owner.id)
  {
    var owner := match r.owner
      case ByName(n) => NameColumn(n)
      case ById(i) => IdColumn(IntOfUint(i));
    RecordBQ(IntOfUint(r.id), r.createdAt, r.updatedAt, EncodeData(r.data), owner)
  }

  /** ToGorm of the current package's record rows (which carry domain_name):
      the id is not read back. */
  function RecordToGorm(b: RecordBQ): (r: DnsRecord)
    requires b.owner.NameColumn?
    ensures r.id == 0 && r.owner == ByName(b.owner.name)
    ensures r.createdAt == b.createdAt && r.updatedAt == b.updatedAt
  {
    DnsRecord(0, b.createdAt, b.updatedAt, DecodeData(b.data), ByName(b.owner.name))
  }

  /** A current-package record survives ToBQ then ToGorm except for its id. */
  lemma RecordRoundTrip(r: DnsRecord)
    requires r.owner.ByName?
    ensures RecordToGorm(RecordToBQ(r)) == r.(id := 0)
  {
    DataRoundTrip(r.data);
  }
}
