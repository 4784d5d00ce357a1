/** The per-route filters of the data plane. */
module Filters {
  import opened Bytes
  import opened DnsQuestion
  import opened DnsParser
  import opened RateLimit
  import Bloom
  import ProofOfWork

  /** The matchers give up at this length: a pattern this long never matches. */
  const MATCH_LIMIT := 128

  predicate PrefixOk(name: seq<byte>, pattern: seq<byte>) {
    pattern == [] || (|pattern| < MATCH_LIMIT && pattern <= name)
  }

  predicate SuffixOk(name: seq<byte>, pattern: seq<byte>) {
    pattern == [] || (|pattern| < MATCH_LIMIT && IsSuffix(pattern, name))
  }

  method MatchPrefix(qname: array<byte>, qnameLen: nat, prefix: seq<byte>) returns (ok: bool)
    requires qnameLen <= qname.Length
    ensures ok == PrefixOk(qname[..qnameLen], prefix)
  {
    if |prefix| == 0 {
      return true;
    }
    if |prefix| > qnameLen {
      return false;
    }
    var i := 0;
    while i < MATCH_LIMIT
      invariant 0 <= i <= MATCH_LIMIT && i <= |prefix|
      invariant qname[..i] == prefix[..i]
    {
      if i >= |prefix| {
        return true;
      }
      if qname[i] != prefix[i] {
        return false;
      }
      i := i + 1;
    }
    ok := false;
  }

  method MatchSuffix(qname: array<byte>, qnameLen: nat, suffix: seq<byte>) returns (ok: bool)
    requires qnameLen <= qname.Length
    ensures ok == SuffixOk(qname[..qnameLen], suffix)
  {
    if |suffix| == 0 {
      return true;
    }
    if |suffix| > qnameLen {
      return false;
    }
    var start := qnameLen - |suffix|;
    var i := 0;
    while i < MATCH_LIMIT
      invariant 0 <= i <= MATCH_LIMIT && i <= |suffix|
      invariant qname[start..start + i] == suffix[..i]
    {
      if i >= |suffix| {
        assert qname[..qnameLen][start..] == qname[start..qnameLen];
        return true;
      }
      if qname[start + i] != suffix[i] {
        assert qname[..qnameLen][start..][i] != suffix[i];
        return false;
      }
      i := i + 1;
    }
    ok := false;
  }

  predicate TypeAllowed(qtype: u16, mask: bv32) {
    || (qtype == 1 && mask & 0x1 != 0)
    || (qtype == 28 && mask & 0x2 != 0)
    || (qtype == 16 && mask & 0x4 != 0)
    || (qtype == 255 && mask & 0x8 != 0)
  }

  /** The clock is read by the limiter, by the proof of work and by the Bloom filter separately. */
  datatype Clock = Clock(rateNs: u64, powNs: u64, bloomNs: u64)

  /** The numeric arguments of a generated filter call. */
  datatype Args = Args(
    minLabels: byte, maxLabels: byte, minLength: u16, maxLength: u16, routeId: nat, typeMask: bv32,
    powDifficulty: byte, powWindow: u16, bloomRequired: bool, bloomSize: u32, bloomHashes: byte, bloomWindow: u16,
    qps: u32)

  predicate ShapeOk(q: Query, prefix: seq<byte>, suffix: seq<byte>, a: Args) {
    && a.minLabels <= q.depth <= a.maxLabels
    && a.minLength <= |q.name| <= a.maxLength
    && TypeAllowed(q.qtype, a.typeMask)
    && PrefixOk(q.name, prefix)
    && SuffixOk(q.name, suffix)
  }

  predicate ProofOk(q: Query, hash: bv64, a: Args, clock: Clock, words: seq<bv64>)
    requires |words| == Bloom.BLOOM_WORDS
  {
    && ProofOfWork.Allow(hash, q.id, a.powDifficulty, a.powWindow, clock.powNs / NS_PER_SEC)
    && (a.bloomRequired ==>
          Bloom.Allow(words, hash, a.bloomSize, a.bloomHashes, a.bloomWindow, clock.bloomNs / NS_PER_SEC))
  }

  /** The whole conjunction: only a query of the right shape reaches the limiter; a later refusal keeps the count. */
  function Filtered(
    q: Query, hash: bv64, prefix: seq<byte>, suffix: seq<byte>, a: Args, clock: Clock, words: seq<bv64>,
    table: seq<RateState>): (o: Outcome)
    requires |words| == Bloom.BLOOM_WORDS
    ensures |o.table| == |table|
  {
    if !ShapeOk(q, prefix, suffix, a) then Outcome(false, table)
    else
      var limited := Limit(table, a.routeId, a.qps, clock.rateNs / NS_PER_SEC);
      limited.(allowed := limited.allowed && ProofOk(q, hash, a, clock, words))
  }

  /** The chain of early returns. */
  method ApplyAppFilters(
    meta: QueryMeta, hash: bv64, prefix: seq<byte>, suffix: seq<byte>, a: Args, clock: Clock, words: seq<bv64>,
    rates: RateTable)
    returns (ok: bool)
    requires meta.Valid() && |words| == Bloom.BLOOM_WORDS
    modifies rates.entries
    ensures Outcome(ok, rates.entries[..]) ==
            Filtered(meta.Value(), hash, prefix, suffix, a, clock, words, old(rates.entries[..]))
  {
    hide TypeAllowed, PrefixOk, SuffixOk, ProofOfWork.Allow, Bloom.Allow, Limit;
    ghost var q := meta.Value();
    if meta.labelDepth < a.minLabels || meta.labelDepth > a.maxLabels {
      return false;
    }
    if meta.qnameLen < a.minLength || meta.qnameLen > a.maxLength {
      return false;
    }
    if !TypeAllowed(meta.qtype, a.typeMask) {
      return false;
    }
    var prefixOk := MatchPrefix(meta.qname, meta.qnameLen, prefix);
    if !prefixOk {
      return false;
    }
    var suffixOk := MatchSuffix(meta.qname, meta.qnameLen, suffix);
    if !suffixOk {
      return false;
    }
    assert ShapeOk(q, prefix, suffix, a);
    ok := rates.RateLimitAllow(a.routeId, a.qps, clock.rateNs);
    if !ok {
      return;
    }
    if !ProofOfWork.Allow(hash, meta.dnsId, a.powDifficulty, a.powWindow, clock.powNs / NS_PER_SEC) {
      return false;
    }
    if a.bloomRequired {
      ok := Bloom.BloomAllow(words, hash, a.bloomSize, a.bloomHashes, a.bloomWindow, clock.bloomNs / NS_PER_SEC);
    }
  }
}
