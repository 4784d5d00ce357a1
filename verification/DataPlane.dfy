/** The XDP entry point: from a raw frame to a verdict. */
module DataPlane {
  import opened Bytes
  import opened DnsQuestion
  import opened DnsParser
  import opened DomainHash
  import opened Routes
  import opened RateLimit
  import opened Filters
  import opened Codegen
  import opened CaseFolding
  import opened Interpreter
  import Bloom
  import Fnv
  import SipHash
  import KernelSpace
  import Checksum

  const ETH_HEADER := 14
  const DNS_PORT := 53

  /** The compile-time constants pasted into the template, and the routes. */
  datatype Config = Config(
    routes: seq<Route>, algo: Algorithm, fallThrough: Verdict, maxPacketSize: u32, opcodes: set<nat>,
    dropTruncated: bool)

  /** The maps the loader seeded; the blacklist is whatever the trie answers for a source address. */
  datatype Maps = Maps(words: seq<bv64>, programs: map<nat, int>, blacklisted: seq<byte> -> bool)

  datatype Offsets = Offsets(ip: nat, udp: nat)

  /** Ethernet, IPv4 without a fragment check, UDP: where the headers are. */
  function Located(p: seq<byte>): (o: Option<Offsets>)
    ensures o.Some? ==> o.value.ip + 20 <= o.value.udp && o.value.udp + 8 <= |p|
  {
    if |p| < ETH_HEADER + 20 || Be16(p, 12) != 0x0800 then None
    else if p[ETH_HEADER] % 16 < 5 || p[ETH_HEADER + 9] != 17 then None
    else
      var udp := ETH_HEADER + (p[ETH_HEADER] % 16) * 4;
      if udp + 8 > |p| then None else Some(Offsets(ETH_HEADER, udp))
  }

  method ParseEthIpv4Udp(packet: array<byte>) returns (o: Option<Offsets>)
    ensures o == Located(packet[..])
  {
    if ETH_HEADER > packet.Length {
      return None;
    }
    if Be16(packet[..], 12) != 0x0800 {
      return None;
    }
    if ETH_HEADER + 20 > packet.Length {
      return None;
    }
    var ihl := packet[ETH_HEADER] % 16;
    if ihl < 5 || packet[ETH_HEADER + 9] != 17 {
      return None;
    }
    if ETH_HEADER + ihl * 4 > packet.Length {
      return None;
    }
    var udp := ETH_HEADER + ihl * 4;
    if udp + 8 > packet.Length {
      return None;
    }
    o := Some(Offsets(ETH_HEADER, udp));
  }

  function SourceAddress(p: seq<byte>, ip: nat): seq<byte>
    requires ip + 20 <= |p|
  {
    p[ip + 12..ip + 16]
  }

  /** The checks before routing; an opcode above fifteen is refused although no parse yields one. */
  predicate Admissible(cfg: Config, maps: Maps, p: seq<byte>, ip: nat, q: Query)
    requires ip + 20 <= |p|
  {
    && |p| <= cfg.maxPacketSize
    && !maps.blacklisted(SourceAddress(p, ip))
    && q.opcode <= 15
    && q.opcode in cfg.opcodes
    && !(cfg.dropTruncated && q.truncated)
  }

  function EnvOf(cfg: Config, maps: Maps, clock: Clock, o: Offsets, q: Query): Env {
    Env(q, RouteHash(q, cfg.algo), clock, maps.words, maps.programs, o.ip, o.udp)
  }

  /** The verdict and the new state for a frame: anything that is not a DNS query to port 53 passes untouched. */
  ghost function Routed(cfg: Config, maps: Maps, clock: Clock, p: seq<byte>, table: seq<RateState>): Flow
    requires |maps.words| == Bloom.BLOOM_WORDS
  {
    var st := State(table, p, []);
    match Located(p)
    case None => Return(Pass, st)
    case Some(o) =>
      if Be16(p, o.udp + 2) != DNS_PORT then Return(Pass, st)
      else
        match Parsed(p, o.udp)
        case None => Return(Pass, st)
        case Some(q) =>
          if !Admissible(cfg, maps, p, o.ip, q) then Return(Drop, st)
          else Dispatch(Generated(cfg.routes, cfg.fallThrough), EnvOf(cfg, maps, clock, o, q), st)
  }

  method ComputeRouteHash(meta: QueryMeta, algo: Algorithm) returns (h: bv64)
    requires meta.Valid()
    ensures h == RouteHash(meta.Value(), algo)
  {
    hide SipHash.Hash;
    if algo.Sip? {
      h := SipHash.HashQname(meta.qname, meta.qnameLen);
      return;
    }
    h := meta.qnameHash;
  }

  /** The checks before routing, one early return after the other. */
  method GlobalPreRoute(cfg: Config, maps: Maps, packet: array<byte>, ip: nat, meta: QueryMeta) returns (ok: bool)
    requires meta.Valid() && ip + 20 <= packet.Length
    ensures ok == Admissible(cfg, maps, packet[..], ip, meta.Value())
  {
    if packet.Length > cfg.maxPacketSize {
      return false;
    }
    if maps.blacklisted(SourceAddress(packet[..], ip)) {
      return false;
    }
    if meta.opcode > 15 {
      return false;
    }
    if meta.opcode !in cfg.opcodes {
      return false;
    }
    if cfg.dropTruncated && meta.truncated {
      return false;
    }
    ok := true;
  }

  /**
   * The entry point on a real buffer: parses it, checks it, and runs the generated program on buffer and counters.
   * Only a program that does not compile has no verdict, and then nothing is touched.
   */
  method XdpRouter(
    cfg: Config, program: Program, maps: Maps, clock: Clock, packet: array<byte>, rates: RateTable)
    returns (c: Control, ghost seen: seq<nat>)
    requires |maps.words| == Bloom.BLOOM_WORDS && program == Generated(cfg.routes, cfg.fallThrough)
    modifies packet, rates.entries
    ensures FlowOf(c, State(rates.entries[..], packet[..], seen)) ==
            Routed(cfg, maps, clock, old(packet[..]), old(rates.entries[..]))
    ensures c.Undefined? ==>
              && !DistinctHashes(cfg.routes)
              && packet[..] == old(packet[..]) && rates.entries[..] == old(rates.entries[..])
  {
    hide Parsed, Located, Dispatch, Generated, RouteHash, Admissible, DistinctHashes, Compiles;
    seen := [];
    var o := ParseEthIpv4Udp(packet);
    if o.None? {
      return Returned(Pass), seen;
    }
    if Be16(packet[..], o.value.udp + 2) != DNS_PORT {
      return Returned(Pass), seen;
    }
    var meta := new QueryMeta();
    var parsed := ParseDnsQuery(packet, o.value.udp, meta);
    if !parsed {
      return Returned(Pass), seen;
    }
    var admissible := GlobalPreRoute(cfg, maps, packet, o.value.ip, meta);
    if !admissible {
      return Returned(Drop), seen;
    }
    var hash := ComputeRouteHash(meta, cfg.algo);
    var context := new Context(
      packet, meta, rates, maps.words, maps.programs, hash, clock, o.value.ip, o.value.udp);
    ghost var env, st := context.EnvNow(), context.Now();
    c := context.RunProgram(program);
    seen := context.evaluated;
    DispatchStuckIff(cfg.routes, cfg.fallThrough, env, st);
  }

  /** Dispatch has no meaning exactly when two routes share a hash, that is when the switch does not compile. */
  lemma DispatchStuckIff(routes: seq<Route>, v: Verdict, env: Env, st: State)
    requires Fits(env, st)
    ensures Dispatch(Generated(routes, v), env, st).Stuck? <==> !DistinctHashes(routes)
    ensures Compiles(Generated(routes, v)) <==> DistinctHashes(routes)
  {
    hide Generated, DistinctHashes, Compiles;
    CompilesIffDistinct(routes, v);
    if DistinctHashes(routes) {
      AtMostOneRouteEvaluated(routes, v, env, st);
    }
  }

  // Letter case.

  /** Frames that differ at most in letter case inside the labels of the question. */
  ghost predicate CaseVariants(p: seq<byte>, p': seq<byte>) {
    || p == p'
    || (&& |p| == |p'|
        && Located(p).Some?
        && var udp := Located(p).value.udp;
           && HeaderOk(p, udp)
           && p[..udp + QUESTION_OFFSET] == p'[..udp + QUESTION_OFFSET]
           && p[udp + UdpLength(p, udp)..] == p'[udp + UdpLength(p, udp)..]
           && SameButCase(QuestionBytes(p, udp), p'[udp + QUESTION_OFFSET..udp + UdpLength(p, udp)]))
  }

  lemma HeadersShared(p: seq<byte>, p': seq<byte>, udp: nat)
    requires |p| == |p'| && Located(p).Some? && udp == Located(p).value.udp && HeaderOk(p, udp)
    requires p[..udp + QUESTION_OFFSET] == p'[..udp + QUESTION_OFFSET]
    ensures Located(p') == Located(p) && HeaderOk(p', udp) && UdpLength(p', udp) == UdpLength(p, udp)
    ensures forall i :: 0 <= i < udp + QUESTION_OFFSET ==> p[i] == p'[i]
  {
    forall i | 0 <= i < udp + QUESTION_OFFSET
      ensures p[i] == p'[i]
    {
      assert p[..udp + QUESTION_OFFSET][i] == p'[..udp + QUESTION_OFFSET][i];
    }
  }

  /** The parsed query does not depend on letter case, nor does its absence. */
  lemma ParsedUpToCase(p: seq<byte>, p': seq<byte>)
    requires CaseVariants(p, p') && Located(p).Some?
    ensures Located(p') == Located(p) && Parsed(p', Located(p).value.udp) == Parsed(p, Located(p).value.udp)
  {
    if p != p' {
      var udp := Located(p).value.udp;
      HeadersShared(p, p', udp);
      var s, t := QuestionBytes(p, udp), QuestionBytes(p', udp);
      if Parsed(p, udp).Some? {
        ParsedTransfers(p, p', udp);
      }
      if Parsed(p', udp).Some? {
        SameButCaseSymmetric(s, t);
        ParsedTransfers(p', p, udp);
      }
    }
  }

  lemma ParsedTransfers(p: seq<byte>, p': seq<byte>, udp: nat)
    requires HeaderOk(p, udp) && HeaderOk(p', udp) && Parsed(p, udp).Some?
    requires SameButCase(QuestionBytes(p, udp), QuestionBytes(p', udp))
    requires forall i :: 0 <= i < udp + QUESTION_OFFSET ==> p[i] == p'[i]
    ensures Parsed(p', udp) == Parsed(p, udp)
  {
    hide Fnv.Hash, CanonicalName, SameButCase;
    var s, t := QuestionBytes(p, udp), QuestionBytes(p', udp);
    var ls :| IsQuestion(s, ls);
    EncodedIsParsed(p, udp, ls);
    var r := QuestionUpToCase(s, t, ls);
    EncodedIsParsed(p', udp, r);
    TailsEqual(s, t, ls);
  }

  lemma TailsEqual(s: seq<byte>, t: seq<byte>, ls: seq<seq<byte>>)
    requires IsQuestion(s, ls) && SameButCase(s, t)
    ensures var n := |Encode(ls)|;
            |t| == |s| && Be16(t, n) == Be16(s, n) && Be16(t, n + 2) == Be16(s, n + 2)
  {
    var n := |Encode(ls)|;
    TailEqual(s, t, ls, n);
    TailEqual(s, t, ls, n + 1);
    TailEqual(s, t, ls, n + 2);
    TailEqual(s, t, ls, n + 3);
  }

  /** Routing never looks at packet bytes beyond the query, the hash and, when rewriting, the UDP header. */
  lemma ReferenceIgnoresPayload(routes: seq<Route>, v: Verdict, env: Env, st: State, p': seq<byte>)
    requires Fits(env, st) && |p'| == |st.packet|
    requires forall i :: env.udp <= i < env.udp + 8 ==> p'[i] == st.packet[i]
    ensures var f, f' := Reference(routes, v, env, st), Reference(routes, v, env, st.(packet := p'));
            && f.Return? && f'.Return?
            && f'.verdict == f.verdict && f'.st.table == f.st.table && f'.st.evaluated == f.st.evaluated
            && |f'.st.packet| == |f.st.packet| == |p'|
            && forall i :: 0 <= i < |p'| ==>
                 || (f.st.packet[i] == st.packet[i] && f'.st.packet[i] == p'[i])
                 || (env.udp <= i < env.udp + 8 && f.st.packet[i] == f'.st.packet[i])
  {
    hide RouteFiltered, ByHash, BySuffix, KernelSpace.Rewritten;
    match Select(routes, env.hash, env.query.name)
    case None =>
    case Some(i) =>
      KernelSpace.PortRewriteIgnoresPayload(st.packet, p', env.ip, env.udp, Checksum.Swap(routes[i].kernelPort));
  }

  /**
   * Two frames that differ only in letter case inside the question's labels get the same verdict and the same state
   * change, under any configuration, and leave as frames that differ no more than they did.
   */
  lemma CaseNeverMatters(cfg: Config, maps: Maps, clock: Clock, p: seq<byte>, p': seq<byte>, table: seq<RateState>)
    requires |maps.words| == Bloom.BLOOM_WORDS && CaseVariants(p, p')
    ensures var f, f' := Routed(cfg, maps, clock, p, table), Routed(cfg, maps, clock, p', table);
            && (f.Stuck? <==> f'.Stuck?)
            && !f.Next? && !f'.Next?
            && (f.Return? ==>
                  && f'.verdict == f.verdict && f'.st.table == f.st.table && f'.st.evaluated == f.st.evaluated
                  && |f.st.packet| == |f'.st.packet| == |p| == |p'|
                  && forall i :: 0 <= i < |p| ==>
                       f.st.packet[i] == f'.st.packet[i] || (f.st.packet[i] == p[i] && f'.st.packet[i] == p'[i]))
  {
    hide Located, Parsed, Reference, Dispatch, Generated, RouteHash, DistinctHashes;
    if Located(p).Some? {
      var o := Located(p).value;
      ParsedUpToCase(p, p');
      HeadersSame(p, p');
      if Be16(p, o.udp + 2) == DNS_PORT && Parsed(p, o.udp).Some? {
        var q := Parsed(p, o.udp).value;
        if Admissible(cfg, maps, p, o.ip, q) {
          var env, st := EnvOf(cfg, maps, clock, o, q), State(table, p, []);
          if DistinctHashes(cfg.routes) {
            GeneratedMeansReference(cfg.routes, cfg.fallThrough, env, st);
            GeneratedMeansReference(cfg.routes, cfg.fallThrough, env, st.(packet := p'));
            ReferenceIgnoresPayload(cfg.routes, cfg.fallThrough, env, st, p');
          } else {
            UncompiledIsStuck(cfg.routes, cfg.fallThrough, env, st);
            UncompiledIsStuck(cfg.routes, cfg.fallThrough, env, st.(packet := p'));
          }
        }
      }
    }
  }

  lemma UncompiledIsStuck(routes: seq<Route>, v: Verdict, env: Env, st: State)
    requires Fits(env, st) && !DistinctHashes(routes)
    ensures Dispatch(Generated(routes, v), env, st) == Stuck
  {
    CompilesIffDistinct(routes, v);
  }

  lemma HeadersSame(p: seq<byte>, p': seq<byte>)
    requires CaseVariants(p, p') && Located(p).Some?
    ensures |p| == |p'| && forall i :: 0 <= i < Located(p).value.udp + 8 ==> p[i] == p'[i]
    ensures SourceAddress(p', Located(p).value.ip) == SourceAddress(p, Located(p).value.ip)
    ensures Be16(p', Located(p).value.udp + 2) == Be16(p, Located(p).value.udp + 2)
  {
    if p != p' {
      HeadersShared(p, p', Located(p).value.udp);
    }
  }
}
