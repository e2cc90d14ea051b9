# domwalk enrichment core in Dafny

domwalk takes a list of domain names, canonicalises each one to its
registrable name through the public-suffix list, and enriches it with
related data:

- DNS records (A, AAAA, MX, SOA);
- the names in the TLS certificate's subject alternative names;
- the domains a web request redirects through;
- the sitemap web and contact domains found through robots.txt, the
  sitemaps and the contact pages.

The results are stored in a row store (gorm on SQLite, with `ON CONFLICT`
upserts) and in a warehouse (BigQuery, with `MERGE`).

This project models the decision logic of that core as pure functions over
immutable datatypes. Every network and library result is a parameter:

- the public-suffix lookup (`SuffixLookup`);
- the DNS exchange per server (`Exchange`);
- the certificate's SAN list (`TlsResult`);
- the redirect hops of the GET (`GetResult`);
- URL parsing, and the robots.txt, sitemap and page fetches;
- the e-mail regex;
- the clock (`now`, `entry`).

Two packages of the repository are modelled side by side, sharing one
`Domain` datatype:

- the current `domains` package;
- the older `types` package, selected by `Variant.Legacy` or by functions
  prefixed `Legacy`.

Modules, one per area of the source:

| module | file | what it holds |
|---|---|---|
| `Base` | base.dfy | Option, errors, nanosecond time, Go integer conversions, nullable columns |
| `GoStrings` | gostrings.dfy | `strings.TrimSpace`, `strings.ToLower`, `strings.Contains`, dedup |
| `Records` | records.dfy | DNS records, sitemaps, matched domains, composite-key upsert |
| `Domains` | domain.dfy | the aggregate, `NewDomain` (both packages), conflict merge, flat `ToBQ` |
| `Dns` | dns.dfy | resolver fallback, answer filtering, `GetDNSRecords`, record `ToBQ`/`ToGorm` |
| `CertSans` | cert_sans.dfy | `GetCertSANs` (both packages) |
| `WebRedirect` | web_redirect.dfy | `GetRedirectDomains`, as written and corrected |
| `Sitemaps` | sitemaps.dfy | robots.txt, sitemap index reading, the crawl, web and contact domains |
| `WarehouseRows` | warehouse_rows.dfy | `newDomainBQ`/`parse` and the per-record conversions |
| `WarehouseStore` | warehouse_store.dfy | `PutDomains` MERGE, `GetDomainsByNames` |
| `Enrich` | enrich.dfy | offset/limit slicing, worker fallback, freshness gating, per-probe DB passes |

## Model

| member | source | states |
|---|---|---|
| Base.UnixSeconds | cmd/helpers.go:163-174 | `Time.Unix()` is the floor of the nanosecond time: `s*1e9 <= t < (s+1)*1e9` |
| Base.UnixSecondsMonotone | cmd/helpers.go:163-174 | comparing whole seconds never inverts an order of full-precision times |
| Base.IntOfUint | domains/dns.go:53-61 | `int(uint)` keeps values below 2^63, goes negative above, and is congruent mod 2^64 |
| Base.Uint32OfInt64 | domains/dns.go:156-167 | `uint32(int64)` is identity on [0, 2^32) and congruent mod 2^32 otherwise |
| Base.NullStringOf | domains/domain.go:64-80 | a nullable string column is Valid iff the string is non-empty, and it holds the string |
| Base.NullInt64OfUint32 | domains/dns.go:144-154 | the serial column is Valid iff the serial is non-zero, and the uint32 comes back out of it |
| GoStrings.TrimSpace | domains/domain.go:101-106 | the result is the input with its leading and trailing whitespace removed, nothing more |
| GoStrings.TrimSpaceIdempotent | domains/domain.go:101-106 | trimming twice equals trimming once |
| GoStrings.ToLower | domains/domain.go:93-98 | the result has the input's length, each ASCII capital lowered, every other character kept, and no ASCII capital left |
| GoStrings.ToLowerIdempotent | domains/domain.go:93-98 | lowering twice equals lowering once |
| GoStrings.Dedup | types/cert_sans.go:77-91 | the result has no duplicate, and each element is from the input and not already seen |
| GoStrings.DedupComplete | types/cert_sans.go:77-91 | every input element not already seen is kept by the dedup |
| GoStrings.DedupSet | types/sitemaps.go:204-238 | dedup adds exactly the input's elements to the seen set |
| Domains.NewDomain | domains/domain.go:101-106 | no error iff the lookup of the trimmed input matches; on error the name stays the trimmed input |
| Domains.NewDomainOutcome | domains/domain.go:82-99 | lookup error: blank domain with the flag clear; no match: `nonPublicDomain` set; match: name is `sld.tld` and the parts are filled in, case-folded as the package does |
| Domains.NewDomainConsistent | domains/domain.go:82-106 | on success the name is `hostname.suffix`, all four parts are lower case in the current package, and no other field is set |
| Domains.NewDomainIgnoresSurroundingSpace | domains/domain.go:101-106 | the result does not depend on surrounding whitespace |
| Domains.CurrentIsLoweredLegacy | types/domain.go:98-122 | the current parse is the legacy parse with the four name parts lowered, and both fail alike |
| Domains.ReparseDropsOnlySubdomain | domains/domain.go:82-106 | re-parsing a canonical name gives the same domain with the subdomain cleared |
| Domains.MergeOnConflict | domains/domain.go:46-62 | on a name conflict only `updated_at` and the four `last_ran_*` change, each to the max of stored and incoming |
| Domains.MergeIdempotent | domains/domain.go:52-56 | applying the conflict merge twice with the same row equals applying it once |
| Domains.MergeOrderIrrelevant | types/domain.go:46-62 | two conflicting inserts give the same row in either order, and it is no older than either |
| Domains.InsertDomain | domains/domain.go:46-62 | an insert adds the name, leaves other rows alone, and merges on conflict |
| Domains.InsertAllNeverRegresses | domains/domain.go:46-62 | after any sequence of inserts no stored freshness column has decreased |
| Domains.ToBQ | domains/domain.go:64-80 | each nullable string is Valid iff non-empty and holds the value; flags and timestamps are copied |
| Domains.ToBQKeepsScalars | types/domain.go:80-96 | two domains have the same flat row iff they agree on every scalar column |
| Domains.LegacyParseAll | types/sitemaps.go:240-261 | each name goes through the legacy `NewDomain`, keeping the result even on error |
| Domains.LegacyCollectNames | types/cert_sans.go:77-91 | the related-domain rows are the dedup of the parsed names against the names already seen |
| Domains.LegacyCollectFrom | types/cert_sans.go:77-91 | each related-domain row holds one of the parsed domains |
| Domains.LegacyRowsOnce | types/sitemaps.go:252-259 | related rows carry the probed name, never match it, hold each name once, and cover every parsed name but the probed one |
| Records.UpsertRecord | domains/dns.go:28-40 | on a composite-key conflict only `updated_at` becomes the max; otherwise the record is appended; keys stay unique |
| Records.UpsertRecordKeys | domains/dns.go:120-132 | an upsert adds exactly its record's key to the key set |
| Records.UpsertAllKeys | domains/dns.go:183-195 | a batch of upserts adds exactly the batch's keys |
| Records.UniqueKeysCard | domains/dns.go:69-81 | with unique keys there is one row per key |
| Records.RediscoveryAddsNoRow | domains/dns.go:28-40 | upserting the same records again adds no row |
| Records.EncodeData | types/dns.go:79-89 | SOA NS and MBox are Valid iff non-empty and Serial iff non-zero |
| Records.DataRoundTrip | domains/dns.go:144-167 | decoding the warehouse value fields gives back every record value, the uint32 serial included |
| Records.IndexOfKey | domains/dns.go:28-40 | the first row with the key, or -1 exactly when no row has it |
| Dns.Addresses | domains/dns.go:296-313 | the configured servers with the port, in order, then `8.8.8.8:53` |
| Dns.Fqdn | domains/dns.go:223-238 | the query name ends in a dot, appending one only when it is missing |
| Dns.TryFrom | domains/dns.go:296-313 | servers are tried in order; every one before the answering server failed; no answer means all failed |
| Dns.QueryAllServersOrder | domains/dns.go:296-313 | the servers tried form a prefix of the fallback order; the answer comes from the last one tried; none answers iff every server fails |
| Dns.FallbackOnlyAfterConfiguredFail | types/dns.go:193-210 | `8.8.8.8:53` is asked only when every configured server failed, and an answering server stops the search |
| Dns.DataOf | domains/dns.go:223-238 | an answer yields data only of the requested type |
| Dns.FilterAnswersMembers | domains/dns.go:223-289 | a record value is kept iff an answer of the requested type carries it |
| Dns.FilterAnswersAppend | types/dns.go:120-186 | filtering distributes over concatenated answers, so answer order is kept |
| Dns.QueryType | domains/dns.go:223-289 | failure iff no server answered, leaving the slice unchanged; otherwise the slice is the filtered answer tagged with the owner |
| Dns.GetDNSRecords | domains/dns.go:315-338 | `lastRanDns` is set; a non-public domain gives one error and no query; only DNS slices change |
| Dns.GetDNSRecordsErrorCount | domains/dns.go:320-337 | a public domain gets one error per failed record type, at most four |
| Dns.GetDNSRecordsErrorKinds | types/dns.go:217-234 | every error returned for a public domain is a resolver failure |
| Dns.GetDNSRecordsSlice | domains/dns.go:223-289 | per type, a failed query keeps the old slice and a successful one replaces it with the filtered answer |
| Dns.GetDNSRecordsOwnedByName | domains/dns.go:223-289 | in the current package every record of a replaced slice is unsaved, of the slice's type, and owned by the probed domain's name |
| Dns.GetDNSRecordsAskOrder | domains/dns.go:320-337 | queries go out A, then AAAA, then MX, then SOA |
| Dns.GetDNSRecordsAsksEveryType | types/dns.go:212-235 | all four record types are queried for a public domain |
| Dns.RecordToBQ | domains/dns.go:91-99 | timestamps copied, id converted with `int(uint)`, SOA columns nullable as stated, owner column from the owner |
| Dns.RecordToGorm | domains/dns.go:101-110 | id zero, owner by name, timestamps copied |
| Dns.RecordRoundTrip | domains/dns.go:42-61 | `ToGorm(ToBQ(r))` restores everything but the id |
| CertSans.PriorIndexLastWins | domains/cert_sans.go:74-77 | the prior-SAN index keeps the last entry for each name |
| CertSans.KeptNames | domains/cert_sans.go:79-97 | unparseable SANs are skipped and the probed domain never appears |
| CertSans.MergeNames | domains/cert_sans.go:79-97 | one entry per kept SAN, in certificate order, so repeats are emitted again |
| CertSans.MergeKnown | domains/cert_sans.go:92-95 | a name already known keeps its `CreatedAt` and gets `UpdatedAt = now` |
| CertSans.MergeNew | domains/cert_sans.go:86-91 | a new name starts zeroed, and a repeat of it within the call gets `UpdatedAt = now` |
| CertSans.GetCertSans | domains/cert_sans.go:17-100 | `lastRanCertSans` is set at entry; a dial failure leaves `CertSANs` untouched with an error; nothing else changes |
| CertSans.GetCertSansReplaces | domains/cert_sans.go:98 | `CertSANs` is replaced by the list of kept SAN names, so absent names are dropped |
| CertSans.GetCertSansCarriesOver | domains/cert_sans.go:74-97 | known names are carried over with `CreatedAt`; new names are zeroed |
| CertSans.LegacyGetCertSans | types/cert_sans.go:21-93 | legacy: stamp at entry, rows untouched on failure, appended to rather than replaced |
| CertSans.LegacyAppendsOnce | types/cert_sans.go:77-91 | legacy: each name appended once per call, never the probed one, and unparseable SANs kept under their trimmed name |
| WebRedirect.HopName | domains/web_redirect.go:38-49 | a hop names a host iff its private-suffix lookup matches and the registrable name differs from the probed one |
| WebRedirect.FollowHopsState | domains/web_redirect.go:38-49 | the host set is exactly the named hops, and the final URL is the last hop's URL |
| WebRedirect.RedirectHosts | domains/web_redirect.go:38-45 | the probed name is never among the collected hosts |
| WebRedirect.RedirectEntriesNames | domains/web_redirect.go:67-76 | an entry is appended for a host iff `NewDomain` parses it, stamped `now` |
| WebRedirect.GetRedirectDomainsAsWritten | domains/web_redirect.go:18-78 | as written: stamped at entry; error iff the request failed, and then only the landing flag is cleared; otherwise only the redirect fields change and the old redirect list stays as a prefix |
| WebRedirect.SelfRedirectAppended | domains/web_redirect.go:38-76 | as written, a hop to `foo.github.io` appends `github.io` to the probed `github.io` itself |
| WebRedirect.GetRedirectDomainsAsWrittenLanded | domains/web_redirect.go:55-77 | as written: the final URL is the last hop or `https://` plus the name; a chain with no foreign host sets the landing flag and appends nothing, otherwise the flag is left alone |
| WebRedirect.GetRedirectDomainsAsWrittenAppends | domains/web_redirect.go:63-76 | as written: the appended entries are one per collected host that `NewDomain` parses, in map order, as many as there are such hosts |
| WebRedirect.EntriesAsKept | domains/web_redirect.go:67-76 | the loop over hosts appends, in order, exactly one entry per host that `NewDomain` parses |
| WebRedirect.KeptHostsCount | domains/web_redirect.go:38-76 | the hosts are a map's keys, so the entries number the distinct collected hosts that pass the test |
| WebRedirect.CorrectionOnlyFilters | domains/web_redirect.go:18-78 | corrected and as-written probes agree, except that the correction drops the appended entries named after the probed domain |
| WebRedirect.GetRedirectDomains | domains/web_redirect.go:18-78 | corrected: stamped at entry; a failed request clears the landing flag and changes nothing else; otherwise the list is only appended to |
| WebRedirect.GetRedirectDomainsStamps | domains/web_redirect.go:67-76 | corrected: appended entries never name the probed domain and are stamped `now` |
| WebRedirect.GetRedirectDomainsLanded | domains/web_redirect.go:55-77 | corrected: the same final-URL and landing-flag rules as the program as written |
| WebRedirect.GetRedirectDomainsAppends | domains/web_redirect.go:63-76 | corrected: one entry per collected host that parses to a name other than the probed domain, in map order, as many as such hosts; a name is appended iff such a host parses to it |
| WebRedirect.ForeignNames | domains/web_redirect.go:68-76 | the self-entry filter removes exactly the probed name |
| WebRedirect.ForeignAsKept | domains/web_redirect.go:67-76 | corrected: the filtered loop appends one entry per host that parses to a name other than the probed one |
| Sitemaps.RobotsRoot | types/sitemaps.go:99-102 | the root is `scheme://host`, or `http://host` when that does not start with "http" |
| Sitemaps.GetRobots | types/sitemaps.go:93-121 | an unparseable landing URL or failed fetch gives an error and leaves sitemaps unchanged |
| Sitemaps.GetRobotsAppends | types/sitemaps.go:113-118 | at most 11 declared sitemaps are appended, in order, after the existing ones |
| Sitemaps.ReadSitemap | types/sitemaps.go:123-202 | a fetch or decode failure marks the read failed; a URL set's URLs come first; found children are index children of the domain |
| Sitemaps.ReadIndex | types/sitemaps.go:170-191 | reading an index only extends the found sitemaps and URLs |
| Sitemaps.SelfReferenceCutsOff | types/sitemaps.go:173-176 | an index entry equal to the index's own URL stops the remaining entries |
| Sitemaps.NonXmlSkipped | types/sitemaps.go:177-179 | an index entry without ".xml" is skipped |
| Sitemaps.NewSitemapsLocs | types/sitemaps.go:224-229 | only sitemaps not yet parsed are queued, each location once |
| Sitemaps.CrawlStepKeeps | types/sitemaps.go:205-236 | one crawl step keeps the bookkeeping invariant and moves one sitemap on; it stops the loop iff it read a new location that yielded URLs and the totals then exceed 15 sitemaps or 10000 URLs |
| Sitemaps.CrawlFromKeeps | types/sitemaps.go:204-238 | the crawl run to its end keeps the bookkeeping, and ends before the last initial sitemap only past a cap |
| Sitemaps.GetURLsFromSitemaps | types/sitemaps.go:204-238 | the results are those of the recursive crawl `CrawlFrom`, which stops right after the first read that passes a cap; the URL list has no duplicate and is exactly what the visited sitemaps yield |
| Sitemaps.GetWebDomains | types/sitemaps.go:240-261 | the prior rows are kept as a prefix |
| Sitemaps.WebDomainsFound | types/sitemaps.go:252-259 | web domains are appended once each, never the probed domain, and cover every parsed URL host |
| Sitemaps.WebDomainSource | types/sitemaps.go:242-258 | every appended web domain is the legacy parse of some URL's host |
| Sitemaps.ContactCandidatesMembers | types/sitemaps.go:333-344 | a URL is a contact candidate iff it contains "contact" and robots allows it |
| Sitemaps.ContactPages | types/sitemaps.go:333-344 | the pages are the first min(10, n) of the n candidates, in URL order; none iff no URL is a candidate |
| Sitemaps.ContactCandidatesConcat | types/sitemaps.go:333-342 | candidates keep URL order: those of two joined lists are those of the first, then those of the second |
| Sitemaps.ContactPagesEarliest | types/sitemaps.go:333-344 | once a prefix of the URLs holds 10 candidates, no later URL is visited |
| Sitemaps.ContactPagesComplete | types/sitemaps.go:333-344 | below the cap, every candidate URL is visited |
| Sitemaps.AfterAtSplit | types/sitemaps.go:315 | the domain of an e-mail match is the text between its first and second `@` |
| Sitemaps.GetContactDomains | types/sitemaps.go:263-331 | no contact page gives an error and no change; otherwise the prior rows are kept as a prefix |
| Sitemaps.ContactDomainsFound | types/sitemaps.go:319-326 | contact domains are appended once each, never the probed domain, and cover every matched address domain |
| Sitemaps.GetDomainsFromSitemap | types/sitemaps.go:75-91 | fails before any stamp when the domain has not landed; otherwise stamps the parse time, stores the robots sitemaps followed by those the crawl appended, keeps the crawl's URLs, and derives web and contact domains from them |
| WarehouseRows.RecordRowRoundTrip | stores/bq/types.go:186-272 | a record keeps its timestamps and values through the row, and SOA columns are nullable as stated; id and owner are not stored |
| WarehouseRows.SitemapRowRoundTrip | stores/bq/types.go:280-294 | the location column is Valid iff non-empty; a sitemap keeps everything but id and owner |
| WarehouseRows.MatchedRowRoundTrip | stores/bq/types.go:302-316 | matched domains convert both ways without loss |
| WarehouseRows.NewDomainRowScalars | stores/bq/types.go:35-49 | the row's scalars are the flat conversion, except that the final URL is never written |
| WarehouseRows.DomainRowRoundTrip | stores/bq/types.go:35-178 | `parse(newDomainBQ(d))` is `d` with the final URL empty and record and sitemap ids and owners cleared; all nine collections keep length and order |
| WarehouseRows.DomainRowStable | stores/bq/types.go:108-178 | converting a parsed row again gives the same row |
| WarehouseStore.Merge | stores/bq/bqstore.go:107-128 | fails, changing nothing, iff a target row matches two source rows; otherwise every unmatched source row is inserted |
| WarehouseStore.MergeKeepsTargets | stores/bq/bqstore.go:113-127 | a target keeps its name and scalars, and its timestamps never regress |
| WarehouseStore.MergeMatched | stores/bq/bqstore.go:113-127 | a matched row takes GREATEST timestamps and the incoming collections |
| WarehouseStore.MergeUntouched | stores/bq/bqstore.go:107-112 | a row with no matching source row is unchanged |
| WarehouseStore.MergeInserts | stores/bq/bqstore.go:128 | a row is inserted iff it is a source row whose name is not in the table |
| WarehouseStore.MergeRowIdempotent | stores/bq/bqstore.go:113-127 | merging the same source row twice equals merging it once |
| WarehouseStore.PutDomains | stores/bq/bqstore.go:98-139 | every input is stamped with the one `now`, then merged into the table |
| WarehouseStore.PutDomainsStampsStored | stores/bq/bqstore.go:100-117 | a stored row that is written gets `updated_at = max(stored, now)` |
| WarehouseStore.PutDomainsStampsInserted | stores/bq/bqstore.go:100-128 | a newly inserted row has `updated_at = now` |
| WarehouseStore.FillInIsDedupThenAccept | stores/bq/bqstore.go:193-203 | the fill-in is the requested names, minus those found and earlier repeats, that `NewDomain` accepts |
| WarehouseStore.AcceptedSource | stores/bq/bqstore.go:196-200 | every filled-in domain is the parse of a requested name that did not fail |
| WarehouseStore.AcceptedKeeps | stores/bq/bqstore.go:196-202 | every requested name that parses is filled in |
| WarehouseStore.GetDomainsByNames | stores/bq/bqstore.go:164-205 | a failed query gives an error and nothing; otherwise the rows as fetched, in the query's order, parsed, come first |
| WarehouseStore.GetDomainsByNamesFillsIn | stores/bq/bqstore.go:180-203 | every stored row named is returned, followed by the fill-in for the names not found |
| Enrich.SliceBatch | cmd/helpers.go:132-135 | the batch is `domains[offset:offset+min(limit, n-offset)]`; a negative offset or limit, an offset past the end, or an offset+limit past MaxInt64 panics |
| Enrich.WrapSum | cmd/helpers.go:132 | an int sum is exact unless it passes MaxInt64, and then it wraps to a negative value |
| Enrich.SliceBatchHugeLimit | cmd/helpers.go:132-135 | a limit of MaxInt64 returns everything at offset 0, and panics at offset 1 because the sum wraps |
| Enrich.SliceBatchTiles | cmd/helpers.go:132-135 | while the sums stay below MaxInt64, consecutive pages of limits a and b make the page of limit a+b |
| Enrich.RunInOrder | cmd/helpers.go:163-174 | only enabled probes run, in list order |
| Enrich.RunProbesOrdered | cmd/helpers.go:163-174 | probes run in the order DNS, redirect, cert SANs, sitemap |
| Enrich.RunProbesIff | cmd/helpers.go:163-174 | a probe runs iff it is enabled and its last run in Unix seconds is at or before the cutoff |
| Enrich.RunInOrderDisabled | cmd/helpers.go:163-174 | with every probe disabled the domain is unchanged |
| Enrich.ReadStored | cmd/helpers.go:155-162 | a found record is the stored one; not found iff the read succeeds and no row has the name |
| Enrich.WorkerPrefersStored | cmd/helpers.go:155-174 | the worker probes the stored record, and the queued candidate only when none is stored |
| Enrich.Save | cmd/helpers.go:186-189 | saving replaces or inserts the row by name and leaves other rows alone |
| Enrich.ProcessAll | cmd/helpers.go:151-196 | the processed counter ends at the batch length; JSON output has one entry per domain when enabled |
| Enrich.ProcessAllKeepsRows | cmd/helpers.go:186-189 | no stored row is removed by a batch |
| Enrich.EnrichDomains | cmd/helpers.go:131-149 | a bad slice panics before any work; a negative worker count panics after the counters are set; zero workers process nothing; otherwise the counter ends at the batch length and the store and output are those of the batch in order |
| Enrich.NamedDomainsKeepsFailures | cmd/helpers.go:60-70 | a name that fails to parse is still enriched, under its trimmed name |
| Enrich.EnrichDomainNames | cmd/helpers.go:60-70 | the same panics; with workers, every sliced name is processed once in order, failures included |
| Enrich.Stale | cmd/helpers.go:72-86 | the DB pass selects stored rows whose probe ran at or before the cutoff |
| Enrich.Single | cmd/helpers.go:72-128 | each DB pass enables exactly its own probe, with JSON output off |
| Enrich.PassRunsOnlyItsProbe | cmd/helpers.go:72-128 | a single-probe pass runs no other probe |
| Enrich.SelectedRowIsProbed | cmd/helpers.go:72-174 | a row the pass selects is due under the whole-second gate, so its probe runs |
| Enrich.EnrichDBPasses | cmd/helpers.go:72-129 | passes start in probe order among the enabled probes; without a panic all of them, otherwise a prefix ending with the pass that panicked; only the two enrichDomains panics occur; the sitemap-contact flag changes nothing |
| Enrich.EnrichDBWorkers | cmd/helpers.go:72-148 | without a worker nothing is enriched: a negative count panics in the first enabled pass, and zero leaves the store as it was |

## Left out

- Network I/O, TLS, DNS exchange, HTTP, the proxy, the public-suffix list, URL parsing, XML decoding, robots.txt parsing and the e-mail regex: foreign code; each is an oracle parameter.
- `time.Now()`: each call site takes its time as a parameter (`now`, `entry`).
- Goroutines, channels, the worker pool, `WaitGroup` and the mutexes: the model runs the batch sequentially, one domain after another in batch order. `nWorkers` only decides whether anything is processed: a negative count panics in `WaitGroup.Add`, zero leaves the queued domains untaken, and any positive count processes the whole batch.
- JSON marshalling and file output: the worker's JSON list is returned as a sequence. Marshal and write errors, and row-store save errors, are only logged in the source and are not modelled.
- Row-store `Save` is modelled as replace-or-insert by domain name (`Enrich.Save`). The gorm `Create` path with the `BeforeCreate` conflict clause is modelled on its own (`Domains.InsertDomain`).
- Sitemaps.ReadSitemap: the recursion of `readSitemap` through sitemap indexes has no bound in the source (an index A naming B naming A is not cut off). The model bounds it by a `fuel` parameter, and running out of fuel reads as a failed fetch.
- WebRedirect.GetRedirectDomains: Go's map iteration order over the collected hosts is an `order` parameter, which must list the host set exactly once each (`EnumeratesHosts`).
- CertSans.GetCertSans: the `*tls.Conn` cast failure and the index of `PeerCertificates[0]` with no certificates are not modelled. The handshake result is either a SAN list or a failure.
- Sitemaps.GetContactDomains: a failed contact-page fetch, a non-200 status and an unreadable body all read as `PageFetch` returning None. The constant proxy URL, whose parse cannot fail, is left out.
- Sitemaps.GetDomainsFromSitemap: the crawl's scratch lists (sitemap URLs, contact pages, robots data) start empty for each call.
- WarehouseStore.Merge: the MERGE statement also assigns `t.cert_org_names = s.cert_org_names` (stores/bq/bqstore.go:125). The source rows are `DomainBQ` values (stores/bq/types.go:10-33), which declare no such field. So BigQuery would plausibly reject every `PutDomains` statement (not executed). The model's row has no such column, and it models the MERGE without that assignment.
- WarehouseStore.GetDomainsByNames: a query or row-iteration failure is the `queryOk` flag. The read lock that the source leaves held on that path is not modelled.
- WarehouseStore.GetDomainsByNames: the SELECT has no ORDER BY, so the row order is the `fetched` parameter, which may be any arrangement of the stored rows named.
- Enrich.ReadStored: a failed row-store read other than "record not found" is the `failing` parameter. The source then goes on with a blank domain of the empty name, and so does the model (`Enrich.Starting`).
- Enrich.RunProbesIff: stated for probe functions that stamp only their own `lastRan` column (`StampsOwnColumn`), as the four probes do. In the worker the probes are parameters, so a probe that touched another probe's stamp could change later gates.
- Enrich.EnrichDB: the row queries (cmd/helpers.go:76, 90, 104, 118) have no ORDER BY, LIMIT or OFFSET. Their row order is an `order` parameter listing the stored names. Offset and limit slice the Go list afterwards (cmd/helpers.go:132-135), as modelled.
- Enrich.SliceBatch: Go's `int` is taken to be 64 bits wide.
- GoStrings.ToLower: folds only ASCII `A`-`Z`. Go's `strings.ToLower` folds every Unicode upper-case letter, so names with non-ASCII capitals differ.
- Domains.NewDomain: lowercases with `GoStrings.ToLower`, so it inherits the ASCII-only folding.
- Legacy DNS records are keyed by the owning domain's numeric id, taken as a parameter. The legacy `Domain` struct declares no `ID` field of its own.
- The legacy `types.MatchedDomain` declaration is not part of this model. Its shape is taken from its use in the legacy probe files.
- The worker calls the legacy package's probe methods, and a legacy redirect probe is not part of this model. The worker's probes are parameters, so any of the modelled probes can be plugged in.
- Warehouse push/pull of DNS-record tables, `GetDomains` and table management: storage glue outside the core.

## Findings

| source | as written | input that shows it | evidently intended | confidence | as-written member | corrected member |
|---|---|---|---|---|---|---|
| domains/web_redirect.go:38-76 | A hop is compared with the probed domain using the private-suffix lookup (`IgnorePrivate: false`). It is then canonicalised by `NewDomain`, which ignores private suffixes. A hop to a subdomain under a private suffix therefore passes the self check, but canonicalises back to the probed name. | Probing `github.io` with one redirect hop to `foo.github.io` appends a redirect entry named `github.io`, the probed domain itself. | The redirect list never holds the probed domain. | not executed | WebRedirect.SelfRedirectAppended | WebRedirect.GetRedirectDomainsStamps |
