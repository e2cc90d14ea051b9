/** The certificate probe: the DNS names of the domain's TLS certificate
    become related domains. The proxy dial and the handshake are one
    parameter, their outcome. The current package replaces the list and
    carries known entries over; the legacy one appends, dedups per call and
    keeps names that failed to parse. */
module CertSans {
  import opened Base
  import opened GoStrings
  import opened Records
  import opened Domains

  /** What the proxy CONNECT and TLS handshake produced: a failure, or the
      DNS names (SANs) of the peer's first certificate. */
  datatype TlsResult = TlsFailed | Handshake(dnsNames: seq<string>)

  /** The domsFound map seeded from the prior list, keyed by name; for a
      name listed more than once the last entry wins (PriorIndexLastWins). */
  function PriorIndex(prior: seq<MatchedDomain>): (m: map<string, MatchedDomain>)
    ensures forall i :: 0 <= i < |prior| ==> prior[i].domainName in m
    ensures forall n :: n in m ==> m[n].domainName == n
    decreases |prior|
  {
    if |prior| == 0 then map[]
    else
      var init := prior[..|prior| - 1];
      var last := prior[|prior| - 1];
      assert forall i :: 0 <= i < |init| ==> init[i] == prior[i];
      PriorIndex(init)[last.domainName := last]
  }

  /** The entry a name maps to is its last occurrence in the prior list. */
  lemma {:induction false} PriorIndexLastWins(prior: seq<MatchedDomain>, i: nat)
    requires i < |prior|
    requires forall j :: i < j < |prior| ==> prior[j].domainName != prior[i].domainName
    ensures PriorIndex(prior)[prior[i].domainName] == prior[i]
    decreases |prior|
  {
    if i < |prior| - 1 {
      var init := prior[..|prior| - 1];
      assert init[i] == prior[i];
      PriorIndexLastWins(init, i);
    }
  }

  /** The canonical names the current loop keeps: SANs that parse and are not the probed domain. */
  function KeptNames(sans: seq<string>, lookup: SuffixLookup, dom: string): (ns: seq<string>)
    ensures forall i :: 0 <= i < |ns| ==> ns[i] != dom
    decreases |sans|
  {
    if |sans| == 0 then []
    else
      var p := NewDomain(sans[0], lookup, Current);
      var rest := KeptNames(sans[1..], lookup, dom);
      if p.err.Some? || p.domain.domainName == dom then rest else [p.domain.domainName] + rest
  }

  /** The entry emitted for a kept name: the remembered one with UpdatedAt
      = now, or a new one with zero timestamps. */
  function Emit(found: map<string, MatchedDomain>, name: string, now: Time): MatchedDomain
  {
    if name in found then found[name].(updatedAt := now) else MatchedDomain(ZeroTime, ZeroTime, name)
  }

  /** A new name is remembered with its zero-timestamp entry; a known one is not touched. */
  function Remember(found: map<string, MatchedDomain>, name: string): map<string, MatchedDomain>
  {
    if name in found then found else found[name := MatchedDomain(ZeroTime, ZeroTime, name)]
  }

  /** The loop over cert.DNSNames with domsFound as found, once the SANs
      that fail to parse or name the probed domain are skipped: each kept
      name is emitted, and a new one is remembered. */
  function MergeNames(names: seq<string>, found: map<string, MatchedDomain>, now: Time): (cs: seq<MatchedDomain>)
    requires forall n :: n in found ==> found[n].domainName == n
    ensures MatchedNames(cs) == names
    decreases |names|
  {
    if |names| == 0 then []
    else
      var e := Emit(found, names[0], now);
      var rest := MergeNames(names[1..], Remember(found, names[0]), now);
      MatchedNamesAppend([e], rest);
      [e] + rest
  }

  predicate SeenBefore(cs: seq<MatchedDomain>, i: int)
    requires 0 <= i < |cs|
  {
    exists j :: 0 <= j < i && cs[j].domainName == cs[i].domainName
  }

  /** Every entry whose name was known before the loop is its remembered
      entry with UpdatedAt = now. */
  predicate KnownReemitted(cs: seq<MatchedDomain>, found: map<string, MatchedDomain>, now: Time)
  {
    forall i :: 0 <= i < |cs| && cs[i].domainName in found ==> cs[i] == found[cs[i].domainName].(updatedAt := now)
  }

  /** Every entry whose name was unknown before the loop has zero CreatedAt,
      and zero UpdatedAt only at the name's first occurrence. */
  predicate NewZeroed(cs: seq<MatchedDomain>, found: map<string, MatchedDomain>, now: Time)
  {
    forall i :: 0 <= i < |cs| && cs[i].domainName !in found ==>
      cs[i].createdAt == ZeroTime && cs[i].updatedAt == (if SeenBefore(cs, i) then now else ZeroTime)
  }

  /** A name known before the loop is re-emitted from its remembered entry
      with UpdatedAt = now, every time it occurs. */
  lemma {:induction false} MergeKnown(names: seq<string>, found: map<string, MatchedDomain>, now: Time)
    requires forall n :: n in found ==> found[n].domainName == n
    ensures KnownReemitted(MergeNames(names, found, now), found, now)
    decreases |names|
  {
    if |names| > 0 {
      var found' := Remember(found, names[0]);
      RememberKeeps(found, names[0]);
      MergeKnown(names[1..], found', now);
      var cs := MergeNames(names, found, now);
      var rest := MergeNames(names[1..], found', now);
      assert cs == [Emit(found, names[0], now)] + rest;
      forall i | 0 < i < |cs| && cs[i].domainName in found
        ensures cs[i] == found[cs[i].domainName].(updatedAt := now)
      {
        assert cs[i] == rest[i - 1];
      }
    }
  }

  lemma RememberKeeps(found: map<string, MatchedDomain>, name: string)
    requires forall n :: n in found ==> found[n].domainName == n
    ensures var found' := Remember(found, name);
            && (forall n :: n in found' ==> found'[n].domainName == n)
            && (forall n :: n in found ==> n in found' && found'[n] == found[n])
            && name in found'
            && (name !in found ==> found'[name] == MatchedDomain(ZeroTime, ZeroTime, name))
            && (forall n :: n in found' && n != name ==> n in found)
  {
  }

  /** A name unknown before the loop is emitted with zero CreatedAt, and
      with zero UpdatedAt only at its first occurrence in this call. */
  lemma {:induction false} MergeNew(names: seq<string>, found: map<string, MatchedDomain>, now: Time)
    requires forall n :: n in found ==> found[n].domainName == n
    ensures NewZeroed(MergeNames(names, found, now), found, now)
    decreases |names|
  {
    if |names| > 0 {
      var found' := Remember(found, names[0]);
      RememberKeeps(found, names[0]);
      MergeNew(names[1..], found', now);
      MergeKnown(names[1..], found', now);
      var cs := MergeNames(names, found, now);
      var rest := MergeNames(names[1..], found', now);
      assert cs == [Emit(found, names[0], now)] + rest;
      forall i | 0 <= i < |cs| && cs[i].domainName !in found
        ensures cs[i].createdAt == ZeroTime && cs[i].updatedAt == (if SeenBefore(cs, i) then now else ZeroTime)
      {
        NewEntryStep(cs, rest, found, found', names[0], now, i);
      }
    }
  }

  /** One induction step of MergeNew. */
  lemma NewEntryStep(cs: seq<MatchedDomain>, rest: seq<MatchedDomain>, found: map<string, MatchedDomain>,
                     found': map<string, MatchedDomain>, name: string, now: Time, i: int)
    requires cs == [Emit(found, name, now)] + rest
    requires found' == Remember(found, name)
    requires 0 <= i < |cs| && cs[i].domainName !in found
    requires forall n :: n in found ==> found[n].domainName == n
    requires KnownReemitted(rest, found', now) && NewZeroed(rest, found', now)
    ensures cs[i].createdAt == ZeroTime && cs[i].updatedAt == (if SeenBefore(cs, i) then now else ZeroTime)
  {
    if i == 0 {
      assert !SeenBefore(cs, 0);
    } else {
      assert cs[i] == rest[i - 1];
      if cs[i].domainName == name {
        assert cs[0].domainName == name;
        assert SeenBefore(cs, i);
      } else {
        if SeenBefore(rest, i - 1) {
          var j :| 0 <= j < i - 1 && rest[j].domainName == rest[i - 1].domainName;
          assert cs[j + 1] == rest[j];
        }
        if SeenBefore(cs, i) {
          var j :| 0 <= j < i && cs[j].domainName == cs[i].domainName;
          assert rest[j - 1] == cs[j];
        }
      }
    }
  }

  /** GetCertSANs (current package). entry is the instant taken on entry,
      now the one taken after the handshake. */
  function GetCertSans(d: Domain, tls: TlsResult, lookup: SuffixLookup, entry: Time, now: Time): (r: (Domain, Option<Error>))
    ensures r.0.lastRanCertSans == entry
    ensures tls.TlsFailed? ==> r == (d.(lastRanCertSans := entry), Some(DialFailed))
    ensures tls.Handshake? ==> r.1 == None
    ensures r.0.(certSans := [], lastRanCertSans := 0) == d.(certSans := [], lastRanCertSans := 0)
  {
    var d0 := d.(lastRanCertSans := entry);
    match tls
    case TlsFailed => (d0, Some(DialFailed))
    case Handshake(sans) => (d0.(certSans := MergeNames(KeptNames(sans, lookup, d.domainName), PriorIndex(d.certSans), now)), None)
  }

  /** After a handshake the list is replaced: it names exactly the SANs
      that parse and differ from the probed domain, in certificate order,
      repeats included, so a formerly known name absent from the
      certificate is gone. */
  lemma GetCertSansReplaces(d: Domain, sans: seq<string>, lookup: SuffixLookup, entry: Time, now: Time)
    ensures var cs := GetCertSans(d, Handshake(sans), lookup, entry, now).0.certSans;
            && MatchedNames(cs) == KeptNames(sans, lookup, d.domainName)
            && |cs| == |KeptNames(sans, lookup, d.domainName)|
            && (forall i :: 0 <= i < |cs| ==> cs[i].domainName != d.domainName)
  {
    var cs := GetCertSans(d, Handshake(sans), lookup, entry, now).0.certSans;
    forall i | 0 <= i < |cs| ensures cs[i].domainName != d.domainName {
      assert MatchedNames(cs)[i] == cs[i].domainName;
    }
  }

  /** A name in the prior list keeps its last prior entry, CreatedAt
      included, with UpdatedAt = now; any other starts from zero timestamps
      and gets UpdatedAt = now when it repeats within the certificate. */
  lemma GetCertSansCarriesOver(d: Domain, sans: seq<string>, lookup: SuffixLookup, entry: Time, now: Time)
    ensures var cs := GetCertSans(d, Handshake(sans), lookup, entry, now).0.certSans;
            var prior := PriorIndex(d.certSans);
            KnownReemitted(cs, prior, now) && NewZeroed(cs, prior, now)
  {
    var prior := PriorIndex(d.certSans);
    var kept := KeptNames(sans, lookup, d.domainName);
    MergeKnown(kept, prior, now);
    MergeNew(kept, prior, now);
    assert GetCertSans(d, Handshake(sans), lookup, entry, now).0.certSans == MergeNames(kept, prior, now);
  }

  // ---------------------------------------------------------------------
  // Legacy package

  /** GetCertSANs (legacy package): prior is the domain's CertSANs list. */
  function LegacyGetCertSans(d: Domain, prior: seq<LegacyMatch>, tls: TlsResult, lookup: SuffixLookup, entry: Time)
    : (r: (Domain, seq<LegacyMatch>, Option<Error>))
    ensures r.0 == d.(lastRanCertSans := entry)
    ensures tls.TlsFailed? ==> r.1 == prior && r.2 == Some(DialFailed)
    ensures tls.Handshake? ==> r.2 == None && |prior| <= |r.1| && r.1[..|prior|] == prior
  {
    var d0 := d.(lastRanCertSans := entry);
    match tls
    case TlsFailed => (d0, prior, Some(DialFailed))
    case Handshake(sans) =>
      var added := LegacyRows(sans, lookup, d.domainName);
      assert (prior + added)[..|prior|] == prior;
      (d0, prior + added, None)
  }

  /** Each call appends each name at most once and never the probed
      domain's; every SAN whose NewDomain result is another domain is
      represented, so one that fails to parse contributes its trimmed text. */
  lemma LegacyAppendsOnce(d: Domain, prior: seq<LegacyMatch>, sans: seq<string>, lookup: SuffixLookup, entry: Time)
    ensures var added := LegacyGetCertSans(d, prior, Handshake(sans), lookup, entry).1[|prior|..];
            && NoDup(LegacyMatchedNames(added))
            && (forall i :: 0 <= i < |added| ==> added[i].matched.domainName != d.domainName && added[i].domainName == d.domainName)
            && (forall i :: 0 <= i < |sans| && NewDomain(sans[i], lookup, Legacy).err.Some?
                             && TrimSpace(sans[i]) != d.domainName ==>
                  TrimSpace(sans[i]) in LegacyMatchedNames(added))
            && (forall i :: 0 <= i < |sans| && NewDomain(sans[i], lookup, Legacy).domain.domainName != d.domainName ==>
                  NewDomain(sans[i], lookup, Legacy).domain.domainName in LegacyMatchedNames(added))
  {
    var added := LegacyGetCertSans(d, prior, Handshake(sans), lookup, entry).1[|prior|..];
    assert added == LegacyRows(sans, lookup, d.domainName);
    LegacyRowsOnce(sans, lookup, d.domainName);
  }
}
