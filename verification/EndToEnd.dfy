/** Results that span the configuration parser, the loader, the generated program and the data plane. */
module EndToEnd {
  import opened Bytes
  import opened DnsQuestion
  import opened DomainHash
  import opened Routes
  import opened RateLimit
  import opened Filters
  import opened Codegen
  import opened DataPlane
  import opened ConfigParser
  import opened Deployment
  import Bloom
  import ProofOfWork
  import ProgArray
  import KernelSpace
  import Checksum

  /** A query frame that is let through to routing. */
  ghost predicate Queries(cfg: Config, maps: Maps, p: seq<byte>, o: Offsets, q: Query) {
    && Located(p) == Some(o)
    && Be16(p, o.udp + 2) == DNS_PORT
    && Parsed(p, o.udp) == Some(q)
    && Admissible(cfg, maps, p, o.ip, q)
  }

  lemma RoutedIsReference(
    cfg: Config, maps: Maps, clock: Clock, p: seq<byte>, table: seq<RateState>, o: Offsets, q: Query)
    requires |maps.words| == Bloom.BLOOM_WORDS && DistinctHashes(cfg.routes) && Queries(cfg, maps, p, o, q)
    ensures Fits(EnvOf(cfg, maps, clock, o, q), State(table, p, []))
    ensures Routed(cfg, maps, clock, p, table) ==
            Reference(cfg.routes, cfg.fallThrough, EnvOf(cfg, maps, clock, o, q), State(table, p, []))
  {
    hide Parsed, Dispatch, Generated, Reference, Admissible, RouteHash;
    GeneratedMeansReference(cfg.routes, cfg.fallThrough, EnvOf(cfg, maps, clock, o, q), State(table, p, []));
  }

  // Exact names and subdomains.

  /** A query for exactly a configured domain is handled by that domain's own route, whatever else is configured. */
  lemma ExactNameReachesItsRoute(
    cfg: Config, maps: Maps, clock: Clock, p: seq<byte>, table: seq<RateState>, o: Offsets, q: Query, i: nat)
    requires |maps.words| == Bloom.BLOOM_WORDS && Deployed(cfg) && Queries(cfg, maps, p, o, q)
    requires i < |cfg.routes| && q.name == Normalized(cfg.routes[i].domain)
    ensures Fits(EnvOf(cfg, maps, clock, o, q), State(table, p, []))
    ensures Routed(cfg, maps, clock, p, table) ==
            Route1(cfg.routes[i], i, EnvOf(cfg, maps, clock, o, q), State(table, p, []))
  {
    hide Parsed, Normalized, HashDomain, RouteHash, Route1, Routed, Admissible;
    RoutedIsReference(cfg, maps, clock, p, table, o, q);
    PlanesAgree(p, o.udp, cfg.routes[i].domain, cfg.algo);
    assert cfg.routes[i].hash == RouteHash(q, cfg.algo);
    OnlyHashMatch(cfg.routes, i);
  }

  /** The same from the configuration tree: the query asks for the domain as it stands there. */
  lemma ConfiguredNameReachesItsRoute(
    node: ConfigNode, maps: Maps, clock: Clock, p: seq<byte>, table: seq<RateState>, o: Offsets, q: Query, i: nat)
    requires AllCStrings(node) && ConfigOk(node) && DistinctHashes(ConfigOf(node).routes)
    requires |maps.words| == Bloom.BLOOM_WORDS && Queries(ConfigOf(node), maps, p, o, q)
    requires i < |node.routes.value|
    requires q.name == Normalized(Truncated(node.routes.value[i].domain.value, MAX_NAME))
    ensures var cfg := ConfigOf(node);
            && Fits(EnvOf(cfg, maps, clock, o, q), State(table, p, []))
            && Routed(cfg, maps, clock, p, table) ==
               Route1(RouteOf(node.routes.value[i], DefaultsOf(node)), i,
                      EnvOf(cfg, maps, clock, o, q), State(table, p, []))
  {
    hide Parsed, Normalized, HashDomain, RouteHash, Route1, Routed, Admissible, DistinctHashes, Deployed;
    AcceptedIsDeployed(node);
    ExactNameReachesItsRoute(ConfigOf(node), maps, clock, p, table, o, q, i);
  }

  /** A name below a domain written in canonical form goes to that route, unless an exact or an earlier match exists. */
  lemma SubdomainReachesRoute(
    cfg: Config, maps: Maps, clock: Clock, p: seq<byte>, table: seq<RateState>, o: Offsets, q: Query, i: nat)
    requires |maps.words| == Bloom.BLOOM_WORDS && Deployed(cfg) && Queries(cfg, maps, p, o, q)
    requires i < |cfg.routes| && IsSuffix(cfg.routes[i].domain, q.name) && |cfg.routes[i].domain| < MATCH_LIMIT
    requires forall j :: 0 <= j < |cfg.routes| ==> cfg.routes[j].hash != RouteHash(q, cfg.algo)
    requires forall j :: 0 <= j < i ==> !SuffixOk(q.name, cfg.routes[j].domain)
    ensures Fits(EnvOf(cfg, maps, clock, o, q), State(table, p, []))
    ensures Routed(cfg, maps, clock, p, table) ==
            Route1(cfg.routes[i], i, EnvOf(cfg, maps, clock, o, q), State(table, p, []))
  {
    hide Parsed, HashDomain, RouteHash, Route1, Routed, Admissible;
    RoutedIsReference(cfg, maps, clock, p, table, o, q);
    assert BySuffix(cfg.routes, q.name, 0) == Some(i);
  }

  lemma OnlyHashMatch(routes: seq<Route>, i: nat)
    requires i < |routes| && DistinctHashes(routes)
    ensures ByHash(routes, routes[i].hash, 0) == Some(i)
  {
  }

  // The Bloom filter, from the seed in the configuration to the query on the wire.

  /** The loader's clock and the data plane's clock are at most one bucket apart. */
  predicate BucketsNear(r: Route, loaderSec: u64, nowSec: u64) {
    r.bloomWindow > 0 ==> -1 <= nowSec / r.bloomWindow - loaderSec / r.bloomWindow <= 1
  }

  lemma SeededNamePassesBloom(
    cfg: Config, words: seq<bv64>, loaderClock: seq<u64>, nowSec: u64, p: seq<byte>, udp: nat, i: nat, s: nat)
    requires |words| == Bloom.BLOOM_WORDS && Deployed(cfg) && |loaderClock| == |cfg.routes|
    requires Bloom.OnBits(words) == Bloom.SeededBits(cfg.routes, cfg.algo, loaderClock, |cfg.routes|)
    requires i < |cfg.routes| && cfg.routes[i].bloomEnabled && s < |cfg.routes[i].seeds|
    requires HashDomain(cfg.routes[i].seeds[s], cfg.algo) != 0
    requires Parsed(p, udp).Some? && Parsed(p, udp).value.name == Normalized(cfg.routes[i].seeds[s])
    requires BucketsNear(cfg.routes[i], loaderClock[i], nowSec)
    ensures var r, hash := cfg.routes[i], RouteHash(Parsed(p, udp).value, cfg.algo);
            Bloom.Allow(words, hash, r.bloomSize, r.bloomHashes, r.bloomWindow, nowSec)
  {
    hide Parsed, Normalized, HashDomain, RouteHash, Bloom.OnBits, Bloom.SeededBits, Bloom.Allow;
    PlanesAgree(p, udp, cfg.routes[i].seeds[s], cfg.algo);
    Bloom.NoFalseNegatives(words, cfg.routes, cfg.algo, loaderClock, i, s, nowSec);
  }

  /** The seeds a route of the tree asks for; without any, its domain. */
  function ConfiguredSeeds(node: RouteNode): seq<seq<byte>>
    requires Acceptable(node)
  {
    var seeds := SeedList(FiltersOf(node).seeds);
    if seeds == [] then [Truncated(node.domain.value, MAX_NAME)] else seeds
  }

  /** The same from the configuration tree, with the words that the loader seeds from it. */
  lemma ConfiguredSeedPassesBloom(
    node: ConfigNode, words: seq<bv64>, loaderClock: seq<u64>, nowSec: u64, p: seq<byte>, udp: nat, i: nat, s: nat)
    requires AllCStrings(node) && ConfigOk(node) && DistinctHashes(ConfigOf(node).routes)
    requires |words| == Bloom.BLOOM_WORDS && |loaderClock| == |node.routes.value|
    requires var cfg := ConfigOf(node);
             Bloom.OnBits(words) == Bloom.SeededBits(cfg.routes, cfg.algo, loaderClock, |cfg.routes|)
    requires i < |node.routes.value| && BloomOn(FiltersOf(node.routes.value[i]))
    requires s < |ConfiguredSeeds(node.routes.value[i])|
    requires var seed := ConfiguredSeeds(node.routes.value[i])[s];
             && HashDomain(seed, ConfigOf(node).algo) != 0
             && Parsed(p, udp).Some? && Parsed(p, udp).value.name == Normalized(seed)
    requires BucketsNear(RouteOf(node.routes.value[i], DefaultsOf(node)), loaderClock[i], nowSec)
    ensures var r := RouteOf(node.routes.value[i], DefaultsOf(node));
            Bloom.Allow(words, RouteHash(Parsed(p, udp).value, ConfigOf(node).algo),
                        BloomSize(FiltersOf(node.routes.value[i])), BloomHashes(FiltersOf(node.routes.value[i])),
                        r.bloomWindow, nowSec)
  {
    hide Parsed, Normalized, HashDomain, RouteHash, DistinctHashes, Deployed, Bloom.OnBits, Bloom.SeededBits;
    hide Bloom.Allow, Acceptable, SeedList;
    AcceptedIsDeployed(node);
    SeededNamePassesBloom(ConfigOf(node), words, loaderClock, nowSec, p, udp, i, s);
  }

  /**
   * The proofs a route asks for, as sets of known size: the name hash must be one of the hashes that pass at the
   * route's difficulty for this DNS id, by the first clock, and its bits must be on, by the second.
   */
  lemma RouteProofIff(r: Route, env: Env)
    requires |env.words| == Bloom.BLOOM_WORDS && 0 < r.powDifficulty <= 63
    requires r.bloomEnabled ==> 64 <= r.bloomSize <= 65536 && 1 <= r.bloomHashes <= 8
    ensures RouteProof(r, env) <==>
            var now := env.clock.powNs / 1_000_000_000;
            && (if r.powWindow == 0 then env.hash in ProofOfWork.PassingHashes(env.query.id, r.powDifficulty, 0)
                else
                  var b := now / r.powWindow;
                  || env.hash in ProofOfWork.PassingHashes(env.query.id, r.powDifficulty, b)
                  || (b > 0 && env.hash in ProofOfWork.PassingHashes(env.query.id, r.powDifficulty, b - 1)))
            && (r.bloomEnabled ==>
                  exists b: u64 ::
                    && Bloom.Tested(r.bloomWindow, env.clock.bloomNs / 1_000_000_000, b)
                    && forall k :: 0 <= k < r.bloomHashes ==>
                         Bloom.BitIndex(env.hash, k, r.bloomSize, b) in Bloom.OnBits(env.words))
  {
    hide ProofOfWork.Allow, ProofOfWork.PassingHashes, Bloom.Allow, Bloom.OnBits, Bloom.BitIndex, Bloom.Tested;
    ProofOfWork.AllowedHashes(
      env.hash, env.query.id, r.powDifficulty, r.powWindow, env.clock.powNs / 1_000_000_000);
    if r.bloomEnabled {
      Bloom.AllowIffSelectedOn(
        env.words, env.hash, r.bloomSize, r.bloomHashes, r.bloomWindow, env.clock.bloomNs / 1_000_000_000);
    }
  }

  // Tail calls.

  /** With a seeded array, an admitted query of a tail-call route ends in the program of the index's last user. */
  lemma TailRouteRunsItsProgram(
    routes: seq<Route>, obj: ProgArray.Object, before: map<nat, int>, i: nat, env: Env, st: State)
    requires Fits(env, st) && i < |routes| && routes[i].target.XdpProg?
    requires ProgArray.Seeded(env.programs, before, obj, routes, |routes|)
    requires forall j :: 0 <= j < |routes| ==> ProgArray.Bindable(obj, routes[j])
    ensures var f := Route1(routes[i], i, env, st);
            var last := ProgArray.LastUser(routes, routes[i].progIndex, |routes|);
            && last.Some?
            && f.Return?
            && (f.verdict == Drop || Some(f.verdict) == TailVerdict(ProgArray.Resolve(obj, routes[last.value])))
            && (RouteFiltered(routes[i], i, env, st.table).allowed ==> f.verdict.TailTo?)
  {
    hide RouteFiltered, ProgArray.Seeded, ProgArray.Resolve, ProgArray.Bindable;
    ProgArray.TailCallsBound(env.programs, before, obj, routes, i);
  }

  function TailVerdict(fd: Option<int>): Option<Verdict> {
    match fd
    case Some(n) => Some(TailTo(n))
    case None => None
  }

  // Verdicts.

  /** A refused query is dropped, an admitted one of a user-space route goes to its queue; neither packet is touched. */
  lemma RouteVerdicts(r: Route, id: nat, env: Env, st: State)
    requires Fits(env, st)
    ensures var f, o := Route1(r, id, env, st), RouteFiltered(r, id, env, st.table);
            && f.Return? && f.st.table == o.table && f.st.evaluated == st.evaluated + [id]
            && (!o.allowed ==> f.verdict == Drop && f.st.packet == st.packet)
            && (o.allowed && r.target.UserSpace? ==> f.verdict == Redirect(r.xskQueue) && f.st.packet == st.packet)
  {
    hide RouteFiltered;
  }

  // Checksums through the whole data plane.

  lemma ParsedIsFramed(p: seq<byte>, o: Offsets)
    requires Located(p) == Some(o) && HeaderOk(p, o.udp)
    ensures KernelSpace.Framed(p, o.ip, o.udp)
  {
  }

  predicate NoUdpChecksum(p: seq<byte>, udp: nat) {
    udp + 8 <= |p| && Checksum.Load16(p, udp + KernelSpace.UDP_CHECK) == 0
  }

  /** Whatever is configured, a query leaves with checksums as good as it came with, and no better unless erased. */
  lemma RoutingKeepsChecksums(cfg: Config, maps: Maps, clock: Clock, p: seq<byte>, table: seq<RateState>, o: Offsets)
    requires |maps.words| == Bloom.BLOOM_WORDS && DistinctHashes(cfg.routes)
    requires Located(p) == Some(o) && KernelSpace.Framed(p, o.ip, o.udp)
    ensures var f := Routed(cfg, maps, clock, p, table);
            && f.Return?
            && KernelSpace.Framed(f.st.packet, o.ip, o.udp)
            && (KernelSpace.IpChecksumOk(f.st.packet, o.ip, o.udp) <==> KernelSpace.IpChecksumOk(p, o.ip, o.udp))
            && (KernelSpace.UdpChecksumOk(f.st.packet, o.ip, o.udp) <==>
                KernelSpace.UdpChecksumOk(p, o.ip, o.udp) || NoUdpChecksum(f.st.packet, o.udp))
  {
    hide Parsed, Located, KernelSpace.Framed, KernelSpace.IpChecksumOk, Checksum.ChecksumOk, Select, Admissible;
    hide KernelSpace.Rewritten, KernelSpace.UdpCovered, RouteFiltered, Dispatch, Generated, RouteHash, DistinctHashes;
    if Be16(p, o.udp + 2) == DNS_PORT && Parsed(p, o.udp).Some? {
      var q := Parsed(p, o.udp).value;
      if Admissible(cfg, maps, p, o.ip, q) {
        RoutedIsReference(cfg, maps, clock, p, table, o, q);
        match Select(cfg.routes, RouteHash(q, cfg.algo), q.name)
        case None =>
        case Some(i) =>
          KernelSpace.RewriteKeepsChecksums(
            p, o.ip, o.udp, Checksum.Swap(cfg.routes[i].kernelPort), KernelSpace.NO_ADDRESS);
      }
    }
  }

  lemma NetworkOrder(p: seq<byte>, at: nat, port: u16)
    requires at + 2 <= |p| && Checksum.Load16(p, at) == Checksum.Swap(port)
    ensures Be16(p, at) == port
  {
  }

  /** A kernel-space route that admits a query leaves the configured port on the wire, in network order. */
  lemma KernelRouteSetsPort(r: Route, id: nat, env: Env, st: State)
    requires Fits(env, st) && KernelSpace.Framed(st.packet, env.ip, env.udp)
    requires r.target.KernelSpace? && RouteFiltered(r, id, env, st.table).allowed
    ensures var f := Route1(r, id, env, st);
            && f.Return? && f.verdict == Pass
            && env.udp + 4 <= |f.st.packet| && Be16(f.st.packet, env.udp + 2) == r.kernelPort
  {
    hide KernelSpace.Rewritten, KernelSpace.Framed, RouteFiltered, Checksum.Load16, Checksum.Swap;
    hide KernelSpace.IpChecksumOk, KernelSpace.UdpChecksumOk;
    var port := Checksum.Swap(r.kernelPort);
    KernelSpace.RewriteKeepsChecksums(st.packet, env.ip, env.udp, port, KernelSpace.NO_ADDRESS);
    var after := KernelSpace.Rewritten(st.packet, env.ip, env.udp, port, KernelSpace.NO_ADDRESS);
    NetworkOrder(after, env.udp + 2, r.kernelPort);
  }
}
