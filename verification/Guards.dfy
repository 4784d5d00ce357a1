/**
 * The data plane's own range guards, made visible: every function here is the one it shadows, except that it has no
 * result where a guard would reject. Over accepted configurations the two agree, so no guard is ever reached.
 */
module Guards {
  import opened Bytes
  import opened DnsQuestion
  import opened DomainHash
  import opened Routes
  import opened RateLimit
  import opened Filters
  import opened Codegen
  import opened DataPlane
  import opened ConfigParser
  import opened Deployment
  import opened EndToEnd
  import opened Runs
  import Bloom
  import ProofOfWork

  /** The limiter, without a result for a route id outside the table. */
  function TrapLimit(table: seq<RateState>, id: nat, qps: u32, nowSec: u64): Option<Outcome> {
    if qps > 0 && id >= |table| then None else Some(Limit(table, id, qps, nowSec))
  }

  /** The bit test, without a result for an inadmissible size, a bit beyond it, or a word outside the array. */
  function TrapTestBit(words: seq<bv64>, bit: nat, bits: nat): Option<bool>
    requires |words| == Bloom.BLOOM_WORDS
  {
    if bits == 0 || bits > Bloom.BLOOM_BITS || bit >= bits then None
    else if bit / 64 >= Bloom.BLOOM_WORDS then None
    else Some(Bloom.Test(words, bit))
  }

  /** The loop over the hash functions from k on. */
  function TrapMatch(words: seq<bv64>, hash: bv64, bits: nat, hashes: nat, bucket: u64, k: nat): Option<bool>
    requires |words| == Bloom.BLOOM_WORDS && bits > 0
    decreases Bloom.MAX_HASHES - k
  {
    if k >= Bloom.MAX_HASHES || k >= hashes then Some(true)
    else
      match TrapTestBit(words, Bloom.BitIndex(hash, k, bits, bucket), bits)
      case Some(true) => TrapMatch(words, hash, bits, hashes, bucket, k + 1)
      case other => other
  }

  function TrapBloom(words: seq<bv64>, hash: bv64, bits: nat, hashes: nat, window: u16, nowSec: u64): Option<bool>
    requires |words| == Bloom.BLOOM_WORDS
  {
    if hashes == 0 || bits < 64 || bits > Bloom.BLOOM_BITS then None
    else if window == 0 then TrapMatch(words, hash, bits, hashes, 0, 0)
    else
      var bucket := nowSec / window;
      match TrapMatch(words, hash, bits, hashes, bucket, 0)
      case Some(false) =>
        if bucket > 0 then TrapMatch(words, hash, bits, hashes, bucket - 1, 0) else Some(false)
      case other => other
  }

  /** The filter chain of a route, each filter only when the ones before it let the query pass. */
  function TrapFiltered(r: Route, id: nat, env: Env, table: seq<RateState>): Option<Outcome>
    requires |env.words| == Bloom.BLOOM_WORDS
  {
    if !RouteShape(env.query, r) then Some(Outcome(false, table))
    else
      match TrapLimit(table, id, r.qps, env.clock.rateNs / NS_PER_SEC)
      case None => None
      case Some(limited) =>
        if !limited.allowed then Some(limited)
        else if !ProofOfWork.Allow(
          env.hash, env.query.id, r.powDifficulty, r.powWindow, env.clock.powNs / NS_PER_SEC) then
          Some(limited.(allowed := false))
        else if !r.bloomEnabled then Some(limited)
        else
          match TrapBloom(
            env.words, env.hash, r.bloomSize, r.bloomHashes, r.bloomWindow, env.clock.bloomNs / NS_PER_SEC)
          case None => None
          case Some(ok) => Some(limited.(allowed := ok))
  }

  /** The whole data plane, without a result where the opcode guard or a guard of a route's filters rejects. */
  ghost function TrapRouted(cfg: Config, maps: Maps, clock: Clock, p: seq<byte>, table: seq<RateState>): Option<Flow>
    requires |maps.words| == Bloom.BLOOM_WORDS
  {
    var st := State(table, p, []);
    match Located(p)
    case None => Some(Return(Pass, st))
    case Some(o) =>
      if Be16(p, o.udp + 2) != DNS_PORT || Parsed(p, o.udp).None? then Some(Return(Pass, st))
      else
        var q := Parsed(p, o.udp).value;
        if |p| > cfg.maxPacketSize || maps.blacklisted(SourceAddress(p, o.ip)) then Some(Return(Drop, st))
        else if q.opcode > 15 then None
        else if q.opcode !in cfg.opcodes || (cfg.dropTruncated && q.truncated) then Some(Return(Drop, st))
        else
          var env := EnvOf(cfg, maps, clock, o, q);
          match Select(cfg.routes, env.hash, q.name)
          case None => Some(Return(cfg.fallThrough, st))
          case Some(i) =>
            match TrapFiltered(cfg.routes[i], i, env, table)
            case None => None
            case Some(outcome) =>
              var st' := State(outcome.table, p, [i]);
              Some(if outcome.allowed then Deliver(cfg.routes[i], env, st') else Return(Drop, st'))
  }

  // Each shadow against what it shadows.

  /** With an admissible size no bit test is refused, whatever the hash, the bucket and the configuration. */
  lemma {:induction false} MatchNeverTraps(
    words: seq<bv64>, hash: bv64, bits: nat, hashes: nat, bucket: u64, k: nat)
    requires |words| == Bloom.BLOOM_WORDS && 0 < bits <= Bloom.BLOOM_BITS
    ensures TrapMatch(words, hash, bits, hashes, bucket, k).Some?
    ensures TrapMatch(words, hash, bits, hashes, bucket, k).value <==>
            forall j :: k <= j < hashes && j < Bloom.MAX_HASHES ==>
              Bloom.Test(words, Bloom.BitIndex(hash, j, bits, bucket))
    decreases Bloom.MAX_HASHES - k
  {
    hide Bloom.Test, Bloom.BitIndex;
    if k < Bloom.MAX_HASHES && k < hashes {
      MatchNeverTraps(words, hash, bits, hashes, bucket, k + 1);
    }
  }

  /** The Bloom filter is refused exactly by its size guard. */
  lemma BloomTrapsIff(words: seq<bv64>, hash: bv64, bits: nat, hashes: nat, window: u16, nowSec: u64)
    requires |words| == Bloom.BLOOM_WORDS
    ensures TrapBloom(words, hash, bits, hashes, window, nowSec) ==
            if 1 <= hashes && 64 <= bits <= Bloom.BLOOM_BITS
            then Some(Bloom.Allow(words, hash, bits, hashes, window, nowSec)) else None
  {
    hide Bloom.Test, Bloom.BitIndex, TrapMatch;
    if 1 <= hashes && 64 <= bits <= Bloom.BLOOM_BITS {
      MatchNeverTraps(words, hash, bits, hashes, 0, 0);
      if window > 0 {
        var bucket := nowSec / window;
        MatchNeverTraps(words, hash, bits, hashes, bucket, 0);
        if bucket > 0 {
          MatchNeverTraps(words, hash, bits, hashes, bucket - 1, 0);
        }
      }
    }
  }

  /** For any route, accepted or not: a guard rejects exactly here, and otherwise nothing is changed by it. */
  lemma FilterTrapsIff(r: Route, id: nat, env: Env, table: seq<RateState>)
    requires |env.words| == Bloom.BLOOM_WORDS
    ensures var limited := Limit(table, id, r.qps, env.clock.rateNs / NS_PER_SEC);
            TrapFiltered(r, id, env, table).None? <==>
            && RouteShape(env.query, r)
            && (|| (r.qps > 0 && id >= |table|)
                || (&& limited.allowed && r.bloomEnabled
                    && ProofOfWork.Allow(
                         env.hash, env.query.id, r.powDifficulty, r.powWindow, env.clock.powNs / NS_PER_SEC)
                    && !(1 <= r.bloomHashes && 64 <= r.bloomSize <= Bloom.BLOOM_BITS)))
    ensures TrapFiltered(r, id, env, table).Some? ==>
              TrapFiltered(r, id, env, table).value == RouteFiltered(r, id, env, table)
  {
    hide TrapBloom, Bloom.Allow, ProofOfWork.Allow, RouteShape, Limit;
    BloomTrapsIff(
      env.words, env.hash, r.bloomSize, r.bloomHashes, r.bloomWindow, env.clock.bloomNs / NS_PER_SEC);
  }

  /** An accepted configuration with one counter per route: no frame reaches a guard. */
  lemma FrameNeverTraps(cfg: Config, maps: Maps, clock: Clock, p: seq<byte>, table: seq<RateState>)
    requires |maps.words| == Bloom.BLOOM_WORDS && Deployed(cfg) && |table| == |cfg.routes|
    ensures TrapRouted(cfg, maps, clock, p, table) == Some(Routed(cfg, maps, clock, p, table))
  {
    hide Parsed, Located, Select, RouteShape, TrapFiltered, RouteFiltered, Dispatch, Generated, RouteHash, Deliver;
    hide DistinctHashes, HashDomain, KnownBits;
    match Located(p)
    case None =>
    case Some(o) =>
      if Be16(p, o.udp + 2) == DNS_PORT && Parsed(p, o.udp).Some? {
        var q := Parsed(p, o.udp).value;
        ParsedName(p, o.udp);
        if Admissible(cfg, maps, p, o.ip, q) {
          RoutedIsReference(cfg, maps, clock, p, table, o, q);
          match Select(cfg.routes, RouteHash(q, cfg.algo), q.name)
          case None =>
          case Some(i) =>
            FilterTrapsIff(cfg.routes[i], i, EnvOf(cfg, maps, clock, o, q), table);
            var none: seq<nat> := [];
            assert none + [i] == [i];
        }
      }
  }

  lemma TableKeepsSize(cfg: Config, maps: Maps, frames: seq<Frame>, n: nat)
    requires |maps.words| == Bloom.BLOOM_WORDS && DistinctHashes(cfg.routes) && n <= |frames|
    ensures |TableAt(cfg, maps, frames, n)| == |cfg.routes|
  {
    hide TableAt, DistinctHashes;
    RunIsLimiterRun(cfg, maps, frames, n);
  }

  /** Over every run under an accepted configuration, no frame reaches a guard. */
  lemma RunsNeverTrap(cfg: Config, maps: Maps, frames: seq<Frame>, n: nat)
    requires |maps.words| == Bloom.BLOOM_WORDS && Deployed(cfg) && n < |frames|
    ensures var table := TableAt(cfg, maps, frames, n);
            TrapRouted(cfg, maps, frames[n].clock, frames[n].packet, table) ==
            Some(Routed(cfg, maps, frames[n].clock, frames[n].packet, table))
  {
    hide TableAt, TrapRouted, Routed;
    TableKeepsSize(cfg, maps, frames, n);
    FrameNeverTraps(cfg, maps, frames[n].clock, frames[n].packet, TableAt(cfg, maps, frames, n));
  }

  lemma SomeTypeAllowed(mask: bv32)
    requires mask != 0 && KnownBits(mask)
    ensures TypeAllowed(1, mask) || TypeAllowed(28, mask) || TypeAllowed(16, mask) || TypeAllowed(255, mask)
  {
  }

  /** The loader's clamps change nothing, so both planes use the same sizes, and some record type is let through. */
  lemma ClampsIdle(cfg: Config, i: nat)
    requires Deployed(cfg) && i < |cfg.routes|
    ensures var r := cfg.routes[i];
            && (r.bloomEnabled ==> Bloom.ClampedBits(r) == r.bloomSize && Bloom.ClampedHashes(r) == r.bloomHashes)
            && exists qtype: u16 :: TypeAllowed(qtype, r.typeMask)
  {
    hide HashDomain, DistinctHashes, TypeAllowed, KnownBits;
    SomeTypeAllowed(cfg.routes[i].typeMask);
  }
}
