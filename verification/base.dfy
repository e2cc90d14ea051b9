/** Shared vocabulary: optional values, the error kinds the enrichment code
    reports, Go's time and integer widths, and the warehouse's nullable
    column wrappers. */
module Base {

  datatype Option<T> = None | Some(value: T)

  /** The error conditions the enrichment code returns or logs. */
  datatype Error =
    | LookupFailed          // the public-suffix library returned an error
    | NotPublicSuffix       // the public-suffix library found no match
    | NonPublicDomain       // DNS probing refused for a non-public domain
    | AllServersFailed      // every configured resolver and 8.8.8.8 failed
    | RequestFailed         // the redirect-following GET failed
    | DialFailed            // proxy dial, CONNECT or TLS handshake failed
    | NotLanded             // sitemap crawl without a successful web landing
    | UrlParseFailed        // the landed URL did not parse
    | RobotsFailed          // robots.txt could not be fetched or parsed
    | NoContactPages        // no contact page survived the filters
    | SliceOutOfRange       // a Go slice expression that panics
    | MergeCardinality      // a MERGE target row matched several source rows
    | QueryFailed           // a warehouse query failed
    | NegativeWorkers       // sync.WaitGroup.Add taking the counter below zero, which panics

  /** Go's time.Time, as nanoseconds since the Unix epoch. */
  type Time = int

  const NanosPerSecond: int := 1_000_000_000

  /** The zero value of time.Time (January 1, year 1, UTC). */
  const ZeroTime: Time := -62_135_596_800 * NanosPerSecond

  function Max(a: Time, b: Time): (m: Time)
    ensures m >= a && m >= b
    ensures m == a || m == b
  {
    if a >= b then a else b
  }

  /** Go's Time.Unix(): whole seconds, rounded toward minus infinity. */
  function UnixSeconds(t: Time): (s: int)
    ensures s * NanosPerSecond <= t < (s + 1) * NanosPerSecond
  {
    t / NanosPerSecond
  }

  /** A later instant never has an earlier Unix second. */
  lemma UnixSecondsMonotone(t: Time, u: Time)
    requires t <= u
    ensures UnixSeconds(t) <= UnixSeconds(u)
  {
    MulCancel(UnixSeconds(t), UnixSeconds(u) + 1, NanosPerSecond);
  }

  lemma MulCancel(a: int, b: int, k: int)
    requires k > 0 && a * k < b * k
    ensures a < b
  {
    assert b * k - a * k == (b - a) * k;
  }

  type uint32 = x: int | 0 <= x < 0x1_0000_0000
  type uint64 = x: int | 0 <= x < 0x1_0000_0000_0000_0000
  type int64 = x: int | -0x8000_0000_0000_0000 <= x < 0x8000_0000_0000_0000

  /** Go's int(u) for a uint on a 64-bit platform: two's-complement reinterpretation. */
  function IntOfUint(u: uint64): (i: int64)
    ensures u < 0x8000_0000_0000_0000 ==> i == u
    ensures u >= 0x8000_0000_0000_0000 ==> i < 0
    ensures (i - u) % 0x1_0000_0000_0000_0000 == 0
  {
    if u < 0x8000_0000_0000_0000 then u else u - 0x1_0000_0000_0000_0000
  }

  /** Go's uint32(x) for an int64: keeps the low 32 bits. */
  function Uint32OfInt64(x: int64): (u: uint32)
    ensures 0 <= x < 0x1_0000_0000 ==> u == x
    ensures (x - u) % 0x1_0000_0000 == 0
  {
    x % 0x1_0000_0000
  }

  /** bigquery.NullString */
  datatype NullString = NullString(stringVal: string, valid: bool)

  /** bigquery.NullInt64 */
  datatype NullInt64 = NullInt64(int64: int64, valid: bool)

  /** The encoding every converter uses: NULL exactly for the empty string. */
  function NullStringOf(s: string): (n: NullString)
    ensures n.valid <==> s != ""
    ensures n.stringVal == s
  {
    NullString(s, s != "")
  }

  /** The encoding of an unsigned serial: NULL exactly for zero. */
  function NullInt64OfUint32(x: uint32): (n: NullInt64)
    ensures n.valid <==> x != 0
    ensures Uint32OfInt64(n.int64) == x
  {
    NullInt64(x, x != 0)
  }
}
