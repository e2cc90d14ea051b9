/** The rows a domain owns: DNS records, sitemaps and matched domains, the
    warehouse encoding of a record's value fields, and the composite-key
    upsert the row store applies to DNS records. */
module Records {
  import opened Base

  /** What a DNS row points back to: the domain's name (current package) or
      the domain's numeric id (legacy package). */
  datatype RecordOwner = ByName(name: string) | ById(id: uint64)

  /** The value fields of the four record types. */
  datatype RData =
    | A(ip: string)
    | AAAA(ipv6: string)
    | MX(mx: string)
    | SOA(ns: string, mbox: string, serial: uint32)

  datatype RecordType = TypeA | TypeAAAA | TypeMX | TypeSOA

  function TypeOf(d: RData): RecordType
  {
    match d
    case A(_) => TypeA
    case AAAA(_) => TypeAAAA
    case MX(_) => TypeMX
    case SOA(_, _, _) => TypeSOA
  }

  /** ARecord, AAAARecord, MXRecord and SOARecord: a gorm model (id and
      timestamps) plus value fields and the owning domain. */
  datatype DnsRecord = DnsRecord(id: uint64, createdAt: Time, updatedAt: Time, data: RData, owner: RecordOwner)

  /** The unique index of each record table: every value field plus the owner. */
  datatype RecordKey = RecordKey(data: RData, owner: RecordOwner)

  function Key(r: DnsRecord): RecordKey
  {
    RecordKey(r.data, r.owner)
  }

  /** One sitemap URL belonging to a domain. */
  datatype Sitemap = Sitemap(id: uint64, createdAt: Time, updatedAt: Time, domainName: string, loc: string)

  /** A related domain found by a probe (certificate SAN, redirect, sitemap link, contact e-mail). */
  datatype MatchedDomain = MatchedDomain(createdAt: Time, updatedAt: Time, domainName: string)

  function MatchedNames(ms: seq<MatchedDomain>): (names: seq<string>)
    ensures |names| == |ms|
    ensures forall i :: 0 <= i < |ms| ==> names[i] == ms[i].domainName
  {
    seq(|ms|, i requires 0 <= i < |ms| => ms[i].domainName)
  }

  lemma MatchedNamesAppend(a: seq<MatchedDomain>, b: seq<MatchedDomain>)
    ensures MatchedNames(a + b) == MatchedNames(a) + MatchedNames(b)
  {
  }

  /** Value fields as the warehouse stores them: SOA's strings and serial are nullable. */
  datatype RDataBQ =
    | ABQ(ip: string)
    | AAAABQ(ipv6: string)
    | MXBQ(mx: string)
    | SOABQ(ns: NullString, mbox: NullString, serial: NullInt64)

  function EncodeData(d: RData): (b: RDataBQ)
    ensures b.SOABQ? <==> d.SOA?
    ensures d.SOA? ==> (b.ns.valid <==> d.ns != "") && (b.mbox.valid <==> d.mbox != "")
                       && (b.serial.valid <==> d.serial != 0)
  {
    match d
    case A(ip) => ABQ(ip)
    case AAAA(ip) => AAAABQ(ip)
    case MX(mx) => MXBQ(mx)
    case SOA(ns, mbox, serial) => SOABQ(NullStringOf(ns), NullStringOf(mbox), NullInt64OfUint32(serial))
  }

  /** Reading back ignores the NULL flags and narrows the serial to 32 bits. */
  function DecodeData(b: RDataBQ): (d: RData)
    ensures d.SOA? <==> b.SOABQ?
  {
    match b
    case ABQ(ip) => A(ip)
    case AAAABQ(ip) => AAAA(ip)
    case MXBQ(mx) => MX(mx)
    case SOABQ(ns, mbox, serial) => SOA(ns.stringVal, mbox.stringVal, Uint32OfInt64(serial.int64))
  }

  /** Every value field, the SOA serial included, survives the warehouse encoding. */
  lemma DataRoundTrip(d: RData)
    ensures DecodeData(EncodeData(d)) == d
  {
  }

  /** The record tables hold at most one row per key. */
  predicate KeysUnique(table: seq<DnsRecord>)
  {
    forall i, j :: 0 <= i < j < |table| ==> Key(table[i]) != Key(table[j])
  }

  predicate HasKey(table: seq<DnsRecord>, k: RecordKey)
  {
    exists i :: 0 <= i < |table| && Key(table[i]) == k
  }

  /** Position of the first row with key k, or -1 when there is none. */
  function IndexOfKey(table: seq<DnsRecord>, k: RecordKey): (i: int)
    ensures -1 <= i < |table|
    ensures i == -1 <==> !HasKey(table, k)
    ensures i >= 0 ==> Key(table[i]) == k && forall j :: 0 <= j < i ==> Key(table[j]) != k
  {
    if |table| == 0 then -1
    else if Key(table[0]) == k then 0
    else
      var i := IndexOfKey(table[1..], k);
      if i == -1 then
        assert forall j :: 0 <= j < |table| ==> Key(table[j]) != k by {
          forall j | 0 <= j < |table| ensures Key(table[j]) != k {
            if j > 0 { assert table[j] == table[1..][j - 1]; }
          }
        }
        -1
      else
        assert table[i + 1] == table[1..][i];
        i + 1
  }

  /** INSERT ... ON CONFLICT (value fields, owner) DO UPDATE SET
      updated_at = MAX(updated_at, excluded.updated_at). */
  function UpsertRecord(table: seq<DnsRecord>, r: DnsRecord): (t: seq<DnsRecord>)
    ensures HasKey(table, Key(r)) ==> |t| == |table|
    ensures !HasKey(table, Key(r)) ==> t == table + [r]
    ensures forall i :: 0 <= i < |table| && Key(table[i]) != Key(r) ==> t[i] == table[i]
    ensures forall i :: 0 <= i < |table| && Key(table[i]) == Key(r) && KeysUnique(table) ==>
              t[i] == table[i].(updatedAt := Max(table[i].updatedAt, r.updatedAt))
    ensures forall i :: 0 <= i < |table| ==> Key(t[i]) == Key(table[i])
    ensures KeysUnique(table) ==> KeysUnique(t)
  {
    var i := IndexOfKey(table, Key(r));
    if i < 0 then table + [r]
    else table[i := table[i].(updatedAt := Max(table[i].updatedAt, r.updatedAt))]
  }

  /** Upserting every record of a batch, one after the other. */
  function UpsertAll(table: seq<DnsRecord>, rs: seq<DnsRecord>): (t: seq<DnsRecord>)
    ensures KeysUnique(table) ==> KeysUnique(t)
    ensures |t| <= |table| + |rs|
    ensures |t| >= |table|
    decreases |rs|
  {
    if |rs| == 0 then table else UpsertAll(UpsertRecord(table, rs[0]), rs[1..])
  }

  function KeySet(table: seq<DnsRecord>): set<RecordKey>
  {
    set r <- table :: Key(r)
  }

  lemma KeySetHasKey(table: seq<DnsRecord>, k: RecordKey)
    ensures k in KeySet(table) <==> HasKey(table, k)
  {
    if HasKey(table, k) {
      var i :| 0 <= i < |table| && Key(table[i]) == k;
      assert table[i] in table;
    }
  }

  /** Upserting a record adds its key and no other. */
  lemma UpsertRecordKeys(table: seq<DnsRecord>, r: DnsRecord)
    ensures KeySet(UpsertRecord(table, r)) == KeySet(table) + {Key(r)}
  {
    var t := UpsertRecord(table, r);
    if HasKey(table, Key(r)) {
      KeySetHasKey(table, Key(r));
      forall k | k in KeySet(t) ensures k in KeySet(table) {
        var x :| x in t && Key(x) == k;
        var i :| 0 <= i < |t| && t[i] == x;
        assert table[i] in table;
      }
      forall k | k in KeySet(table) ensures k in KeySet(t) {
        var x :| x in table && Key(x) == k;
        var i :| 0 <= i < |table| && table[i] == x;
        assert t[i] in t;
      }
    } else {
      assert t == table + [r];
    }
  }

  lemma KeySetCons(rs: seq<DnsRecord>)
    requires |rs| > 0
    ensures KeySet(rs) == {Key(rs[0])} + KeySet(rs[1..])
  {
    assert rs == [rs[0]] + rs[1..];
  }

  /** After upserting a batch its keys are exactly the old keys plus the batch's keys. */
  lemma {:induction false} UpsertAllKeys(table: seq<DnsRecord>, rs: seq<DnsRecord>)
    ensures KeySet(UpsertAll(table, rs)) == KeySet(table) + KeySet(rs)
    decreases |rs|
  {
    if |rs| > 0 {
      var next := UpsertRecord(table, rs[0]);
      assert UpsertAll(table, rs) == UpsertAll(next, rs[1..]);
      UpsertRecordKeys(table, rs[0]);
      UpsertAllKeys(next, rs[1..]);
      KeySetCons(rs);
    }
  }

  /** With unique keys, a table's size is the number of its keys. */
  lemma {:induction false} UniqueKeysCard(table: seq<DnsRecord>)
    requires KeysUnique(table)
    ensures |KeySet(table)| == |table|
  {
    if |table| > 0 {
      var rest := table[1..];
      UniqueKeysCard(rest);
      assert KeySet(table) == {Key(table[0])} + KeySet(rest) by {
        assert table == [table[0]] + rest;
      }
      forall i | 0 <= i < |rest| ensures Key(rest[i]) != Key(table[0]) {
        assert rest[i] == table[i + 1];
      }
      KeySetHasKey(rest, Key(table[0]));
    }
  }

  /** Resolving the same records again creates no new row: only updated_at moves. */
  lemma RediscoveryAddsNoRow(table: seq<DnsRecord>, rs: seq<DnsRecord>)
    requires KeysUnique(table)
    ensures |UpsertAll(UpsertAll(table, rs), rs)| == |UpsertAll(table, rs)|
  {
    var once := UpsertAll(table, rs);
    var twice := UpsertAll(once, rs);
    UpsertAllKeys(table, rs);
    UpsertAllKeys(once, rs);
    UniqueKeysCard(once);
    UniqueKeysCard(twice);
  }
}
