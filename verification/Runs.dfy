/** Whole runs of frames: the rate limiter through the data plane, on one CPU and on several. */
module Runs {
  import opened Bytes
  import opened DnsQuestion
  import opened DomainHash
  import opened Routes
  import opened RateLimit
  import opened Filters
  import opened Codegen
  import opened DataPlane
  import opened EndToEnd
  import Bloom
  import KernelSpace

  datatype Frame = Frame(packet: seq<byte>, clock: Clock)

  function Limits(cfg: Config): (l: seq<u32>)
    ensures |l| == |cfg.routes|
  {
    seq(|cfg.routes|, i requires 0 <= i < |cfg.routes| => cfg.routes[i].qps)
  }

  /** The route whose limiter a frame reaches, if any; this does not depend on the counters. */
  ghost function Reaching(cfg: Config, maps: Maps, p: seq<byte>): (r: Option<nat>)
    ensures r.Some? ==> r.value < |cfg.routes|
  {
    match Located(p)
    case None => None
    case Some(o) =>
      if Be16(p, o.udp + 2) != DNS_PORT || Parsed(p, o.udp).None? then None
      else
        var q := Parsed(p, o.udp).value;
        if !Admissible(cfg, maps, p, o.ip, q) then None
        else
          match Select(cfg.routes, RouteHash(q, cfg.algo), q.name)
          case None => None
          case Some(i) =>
            if RouteShape(q, cfg.routes[i]) then Some(i) else None
  }

  /** The proofs a frame brings for a route hold, and the route has somewhere to deliver to. */
  ghost predicate Proves(cfg: Config, maps: Maps, frame: Frame, i: nat)
    requires |maps.words| == Bloom.BLOOM_WORDS && i < |cfg.routes|
  {
    && Located(frame.packet).Some?
    && Parsed(frame.packet, Located(frame.packet).value.udp).Some?
    && (cfg.routes[i].target.XdpProg? ==> cfg.routes[i].progIndex in maps.programs)
    && var o := Located(frame.packet).value;
       RouteProof(cfg.routes[i], EnvOf(cfg, maps, frame.clock, o, Parsed(frame.packet, o.udp).value))
  }

  ghost predicate Delivers(f: Flow, i: nat) {
    f.Return? && f.st.evaluated == [i] && f.verdict != Drop
  }

  /** The outcome of one frame for the counters: at most one limiter call, of the selected route. */
  ghost predicate Calls(cfg: Config, maps: Maps, frame: Frame, table: seq<RateState>, f: Flow) {
    && f.Return?
    && match Reaching(cfg, maps, frame.packet)
       case Some(j) => f.st.table == Limit(table, j, cfg.routes[j].qps, frame.clock.rateNs / NS_PER_SEC).table
       case None => f.st.table == table
  }

  /** One frame is at most one limiter call; it is delivered exactly when that call is allowed and its proofs hold. */
  lemma FrameIsLimiterCall(cfg: Config, maps: Maps, frame: Frame, table: seq<RateState>)
    requires |maps.words| == Bloom.BLOOM_WORDS && DistinctHashes(cfg.routes)
    ensures var f := Routed(cfg, maps, frame.clock, frame.packet, table);
            && Calls(cfg, maps, frame, table, f)
            && forall i :: 0 <= i < |cfg.routes| ==>
                 (Delivers(f, i) <==>
                  && Reaching(cfg, maps, frame.packet) == Some(i)
                  && Limit(table, i, cfg.routes[i].qps, frame.clock.rateNs / NS_PER_SEC).allowed
                  && Proves(cfg, maps, frame, i))
  {
    hide Parsed, Located, Select, Admissible, RouteShape, RouteProof, Limit, Dispatch, Generated, RouteHash;
    hide DistinctHashes, KernelSpace.Rewritten;
    var p, clock := frame.packet, frame.clock;
    match Located(p)
    case None =>
    case Some(o) =>
      if Be16(p, o.udp + 2) == DNS_PORT && Parsed(p, o.udp).Some? {
        var q := Parsed(p, o.udp).value;
        if Admissible(cfg, maps, p, o.ip, q) {
          RoutedIsReference(cfg, maps, clock, p, table, o, q);
          match Select(cfg.routes, RouteHash(q, cfg.algo), q.name)
          case None =>
          case Some(j) =>
            var none: seq<nat> := [];
            assert none + [j] == [j] && (none + [j])[0] == j;
        }
      }
  }

  /** The counters after n frames of a run that starts zeroed, with one entry per route. */
  ghost function TableAt(cfg: Config, maps: Maps, frames: seq<Frame>, n: nat): (t: seq<RateState>)
    requires |maps.words| == Bloom.BLOOM_WORDS && DistinctHashes(cfg.routes) && n <= |frames|
  {
    if n == 0 then seq(|cfg.routes|, _ => ZERO)
    else
      var before := TableAt(cfg, maps, frames, n - 1);
      FrameIsLimiterCall(cfg, maps, frames[n - 1], before);
      Routed(cfg, maps, frames[n - 1].clock, frames[n - 1].packet, before).st.table
  }

  /** The limiter calls of the first n frames. */
  ghost function CallsOf(cfg: Config, maps: Maps, frames: seq<Frame>, n: nat): (c: seq<Call>)
    requires n <= |frames|
    ensures forall i :: 0 <= i < |c| ==> c[i].route < |cfg.routes|
  {
    if n == 0 then []
    else
      CallsOf(cfg, maps, frames, n - 1) +
      match Reaching(cfg, maps, frames[n - 1].packet)
      case Some(i) => [Call(i, frames[n - 1].clock.rateNs)]
      case None => []
  }

  /** Counters evolve exactly as the limiter run over those calls says. */
  lemma {:induction false} RunIsLimiterRun(cfg: Config, maps: Maps, frames: seq<Frame>, n: nat)
    requires |maps.words| == Bloom.BLOOM_WORDS && DistinctHashes(cfg.routes) && n <= |frames|
    ensures var calls := CallsOf(cfg, maps, frames, n);
            TableAt(cfg, maps, frames, n) == TableAfter(calls, Limits(cfg), |calls|)
  {
    hide Routed, Reaching, Limit, DistinctHashes;
    if n > 0 {
      RunIsLimiterRun(cfg, maps, frames, n - 1);
      var before := CallsOf(cfg, maps, frames, n - 1);
      var frame := frames[n - 1];
      FrameIsLimiterCall(cfg, maps, frame, TableAt(cfg, maps, frames, n - 1));
      match Reaching(cfg, maps, frame.packet)
      case None =>
        assert before + [] == before;
      case Some(i) =>
        TableAfterAppend(before, Limits(cfg), Call(i, frame.clock.rateNs));
    }
  }

  function SecondOf(frame: Frame): nat {
    frame.clock.rateNs / NS_PER_SEC
  }

  ghost predicate ClockRuns(frames: seq<Frame>) {
    forall j, k :: 0 <= j < k < |frames| ==> frames[j].clock.rateNs <= frames[k].clock.rateNs
  }

  lemma {:induction false} CallClocks(cfg: Config, maps: Maps, frames: seq<Frame>, n: nat)
    requires n <= |frames| && ClockRuns(frames)
    ensures ClockMoves(CallsOf(cfg, maps, frames, n))
    ensures forall i :: 0 <= i < |CallsOf(cfg, maps, frames, n)| ==>
              n > 0 && CallsOf(cfg, maps, frames, n)[i].ns <= frames[n - 1].clock.rateNs
  {
    hide Reaching;
    if n > 0 {
      CallClocks(cfg, maps, frames, n - 1);
    }
  }

  /** The frame with number n is delivered by route i. */
  ghost predicate DeliveredAt(cfg: Config, maps: Maps, frames: seq<Frame>, i: nat, n: nat)
    requires |maps.words| == Bloom.BLOOM_WORDS && DistinctHashes(cfg.routes) && n < |frames|
  {
    Delivers(Routed(cfg, maps, frames[n].clock, frames[n].packet, TableAt(cfg, maps, frames, n)), i)
  }

  /** How many of the first n frames a route delivered in a second. */
  ghost function DeliveredIn(cfg: Config, maps: Maps, frames: seq<Frame>, i: nat, sec: nat, n: nat): nat
    requires |maps.words| == Bloom.BLOOM_WORDS && DistinctHashes(cfg.routes) && n <= |frames|
  {
    if n == 0 then 0
    else
      DeliveredIn(cfg, maps, frames, i, sec, n - 1) +
      if SecondOf(frames[n - 1]) == sec && DeliveredAt(cfg, maps, frames, i, n - 1) then 1 else 0
  }

  /** How many of the first n frames reached a route's limiter in a second. */
  ghost function Arrivals(cfg: Config, maps: Maps, frames: seq<Frame>, i: nat, sec: nat, n: nat): nat
    requires n <= |frames|
  {
    if n == 0 then 0
    else
      Arrivals(cfg, maps, frames, i, sec, n - 1) +
      if SecondOf(frames[n - 1]) == sec && Reaching(cfg, maps, frames[n - 1].packet) == Some(i) then 1 else 0
  }

  lemma {:induction false} ArrivalsAreCalls(cfg: Config, maps: Maps, frames: seq<Frame>, i: nat, sec: nat, n: nat)
    requires n <= |frames|
    ensures var calls := CallsOf(cfg, maps, frames, n);
            Arrivals(cfg, maps, frames, i, sec, n) == Reached(calls, i, sec, |calls|)
  {
    hide Reaching;
    if n > 0 {
      ArrivalsAreCalls(cfg, maps, frames, i, sec, n - 1);
      var before := CallsOf(cfg, maps, frames, n - 1);
      match Reaching(cfg, maps, frames[n - 1].packet)
      case None =>
        assert before + [] == before;
      case Some(j) =>
        ReachedAppend(before, Call(j, frames[n - 1].clock.rateNs), i, sec);
    }
  }

  /** Frame n is among the first qps arrivals of its second, and its proofs hold. */
  ghost predicate ServedAt(cfg: Config, maps: Maps, frames: seq<Frame>, i: nat, n: nat)
    requires |maps.words| == Bloom.BLOOM_WORDS && n < |frames| && i < |cfg.routes|
  {
    && Reaching(cfg, maps, frames[n].packet) == Some(i)
    && Arrivals(cfg, maps, frames, i, SecondOf(frames[n]), n) < cfg.routes[i].qps
    && Proves(cfg, maps, frames[n], i)
  }

  /** The limiter decides by arrival order alone. */
  lemma DeliveredIffServed(cfg: Config, maps: Maps, frames: seq<Frame>, i: nat, n: nat)
    requires |maps.words| == Bloom.BLOOM_WORDS && DistinctHashes(cfg.routes)
    requires i < |cfg.routes| && cfg.routes[i].qps > 0 && n < |frames| && ClockRuns(frames)
    ensures DeliveredAt(cfg, maps, frames, i, n) <==> ServedAt(cfg, maps, frames, i, n)
  {
    hide Routed, Reaching, Limit, DistinctHashes, Delivers, TableAt, TableAfter, Proves, ClockRuns;
    var frame, table := frames[n], TableAt(cfg, maps, frames, n);
    FrameIsLimiterCall(cfg, maps, frame, table);
    if Reaching(cfg, maps, frame.packet) == Some(i) {
      var calls, c := CallsOf(cfg, maps, frames, n), Call(i, frame.clock.rateNs);
      RunIsLimiterRun(cfg, maps, frames, n);
      CallClocks(cfg, maps, frames, n + 1);
      assert CallsOf(cfg, maps, frames, n + 1) == calls + [c];
      AllowedIff(calls, Limits(cfg), c);
      ArrivalsAreCalls(cfg, maps, frames, i, SecondOf(frame), n);
    }
  }

  /** A route without a limit: over every run and under any clock, a frame is delivered on its own merits alone. */
  lemma UnlimitedDelivery(cfg: Config, maps: Maps, frames: seq<Frame>, i: nat, n: nat)
    requires |maps.words| == Bloom.BLOOM_WORDS && DistinctHashes(cfg.routes)
    requires i < |cfg.routes| && cfg.routes[i].qps == 0 && n < |frames|
    ensures DeliveredAt(cfg, maps, frames, i, n) <==>
            Reaching(cfg, maps, frames[n].packet) == Some(i) && Proves(cfg, maps, frames[n], i)
  {
    hide Routed, Reaching, Limit, DistinctHashes, Delivers, TableAt, Proves;
    var table := TableAt(cfg, maps, frames, n);
    FrameIsLimiterCall(cfg, maps, frames[n], table);
    LimitEdges(table, i, 0, SecondOf(frames[n]));
  }

  /** How many of the first n frames are served in a second. */
  ghost function Served(cfg: Config, maps: Maps, frames: seq<Frame>, i: nat, sec: nat, n: nat): nat
    requires |maps.words| == Bloom.BLOOM_WORDS && n <= |frames| && i < |cfg.routes|
  {
    if n == 0 then 0
    else
      Served(cfg, maps, frames, i, sec, n - 1) +
      if SecondOf(frames[n - 1]) == sec && ServedAt(cfg, maps, frames, i, n - 1) then 1 else 0
  }

  lemma {:induction false} ServedWithinLimit(cfg: Config, maps: Maps, frames: seq<Frame>, i: nat, sec: nat, n: nat)
    requires |maps.words| == Bloom.BLOOM_WORDS && n <= |frames| && i < |cfg.routes|
    ensures Served(cfg, maps, frames, i, sec, n) <= Min(cfg.routes[i].qps, Arrivals(cfg, maps, frames, i, sec, n))
  {
    hide Reaching, Proves;
    if n > 0 {
      ServedWithinLimit(cfg, maps, frames, i, sec, n - 1);
    }
  }

  lemma {:induction false} DeliveredExactly(cfg: Config, maps: Maps, frames: seq<Frame>, i: nat, sec: nat, n: nat)
    requires |maps.words| == Bloom.BLOOM_WORDS && DistinctHashes(cfg.routes)
    requires i < |cfg.routes| && cfg.routes[i].qps > 0 && n <= |frames| && ClockRuns(frames)
    ensures DeliveredIn(cfg, maps, frames, i, sec, n) == Served(cfg, maps, frames, i, sec, n)
  {
    hide ServedAt, DeliveredAt, DistinctHashes, ClockRuns;
    if n > 0 {
      DeliveredExactly(cfg, maps, frames, i, sec, n - 1);
      DeliveredIffServed(cfg, maps, frames, i, n - 1);
    }
  }

  /**
   * For every run of one CPU with a clock that does not go back, a limited route delivers in each second exactly
   * those of the first qps frames to reach its limiter whose proofs hold, so never more than its limit, and the
   * limiter admits exactly the smaller of the limit and the frames that reach it.
   */
  lemma RouteLimitHoldsOverRuns(cfg: Config, maps: Maps, frames: seq<Frame>, i: nat, sec: nat)
    requires |maps.words| == Bloom.BLOOM_WORDS && DistinctHashes(cfg.routes)
    requires i < |cfg.routes| && cfg.routes[i].qps > 0 && ClockRuns(frames)
    ensures DeliveredIn(cfg, maps, frames, i, sec, |frames|) == Served(cfg, maps, frames, i, sec, |frames|)
    ensures DeliveredIn(cfg, maps, frames, i, sec, |frames|) <= cfg.routes[i].qps
    ensures var calls := CallsOf(cfg, maps, frames, |frames|);
            AdmittedIn(calls, Limits(cfg), i, sec, |calls|) ==
            Min(cfg.routes[i].qps, Arrivals(cfg, maps, frames, i, sec, |frames|))
  {
    hide DeliveredAt, ServedAt, DistinctHashes, ClockRuns;
    var calls := CallsOf(cfg, maps, frames, |frames|);
    DeliveredExactly(cfg, maps, frames, i, sec, |frames|);
    ServedWithinLimit(cfg, maps, frames, i, sec, |frames|);
    CallClocks(cfg, maps, frames, |frames|);
    Exact(calls, Limits(cfg), i, sec, |calls|);
    ArrivalsAreCalls(cfg, maps, frames, i, sec, |frames|);
  }

  /** How many of the first n frames a route delivered between two instants, both included. */
  ghost function DeliveredBetween(cfg: Config, maps: Maps, frames: seq<Frame>, i: nat, from: nat, to: nat, n: nat): nat
    requires |maps.words| == Bloom.BLOOM_WORDS && DistinctHashes(cfg.routes) && n <= |frames|
  {
    if n == 0 then 0
    else
      DeliveredBetween(cfg, maps, frames, i, from, to, n - 1) +
      if from <= frames[n - 1].clock.rateNs <= to && DeliveredAt(cfg, maps, frames, i, n - 1) then 1 else 0
  }

  lemma {:induction false} BetweenTwoSeconds(
    cfg: Config, maps: Maps, frames: seq<Frame>, i: nat, from: nat, to: nat, n: nat)
    requires |maps.words| == Bloom.BLOOM_WORDS && DistinctHashes(cfg.routes) && n <= |frames|
    requires from <= to <= from + 1_000_000_000
    ensures var sec := from / NS_PER_SEC;
            DeliveredBetween(cfg, maps, frames, i, from, to, n) <=
            DeliveredIn(cfg, maps, frames, i, sec, n) + DeliveredIn(cfg, maps, frames, i, sec + 1, n)
  {
    hide DeliveredAt, DistinctHashes;
    if n > 0 {
      BetweenTwoSeconds(cfg, maps, frames, i, from, to, n - 1);
    }
  }

  /** No interval of one second or less delivers more than twice the limit. */
  lemma DeliveredBurstBound(cfg: Config, maps: Maps, frames: seq<Frame>, i: nat, from: nat, to: nat)
    requires |maps.words| == Bloom.BLOOM_WORDS && DistinctHashes(cfg.routes)
    requires i < |cfg.routes| && cfg.routes[i].qps > 0 && ClockRuns(frames)
    requires from <= to <= from + 1_000_000_000
    ensures DeliveredBetween(cfg, maps, frames, i, from, to, |frames|) <= 2 * cfg.routes[i].qps as int
  {
    hide DistinctHashes, ClockRuns, DeliveredIn;
    BetweenTwoSeconds(cfg, maps, frames, i, from, to, |frames|);
    RouteLimitHoldsOverRuns(cfg, maps, frames, i, from / NS_PER_SEC);
    RouteLimitHoldsOverRuns(cfg, maps, frames, i, from / NS_PER_SEC + 1);
  }

  // Several CPUs: each has its own counters.

  /** What the CPUs deliver together in a second; runs[c] is what CPU c sees. */
  ghost function DeliveredOverall(cfg: Config, maps: Maps, runs: seq<seq<Frame>>, i: nat, sec: nat): nat
    requires |maps.words| == Bloom.BLOOM_WORDS && DistinctHashes(cfg.routes)
  {
    if runs == [] then 0
    else DeliveredIn(cfg, maps, runs[0], i, sec, |runs[0]|) + DeliveredOverall(cfg, maps, runs[1..], i, sec)
  }

  /** Together the CPUs stay within their number times the limit ... */
  lemma {:induction false} OverallBound(cfg: Config, maps: Maps, runs: seq<seq<Frame>>, i: nat, sec: nat)
    requires |maps.words| == Bloom.BLOOM_WORDS && DistinctHashes(cfg.routes)
    requires i < |cfg.routes| && cfg.routes[i].qps > 0
    requires forall c :: 0 <= c < |runs| ==> ClockRuns(runs[c])
    ensures DeliveredOverall(cfg, maps, runs, i, sec) <= |runs| * cfg.routes[i].qps as int
    decreases |runs|
  {
    hide DistinctHashes, ClockRuns, DeliveredIn, Served, AdmittedIn, Arrivals, CallsOf;
    if runs != [] {
      OverallBound(cfg, maps, runs[1..], i, sec);
      RouteLimitHoldsOverRuns(cfg, maps, runs[0], i, sec);
      OneMore(|runs| - 1, cfg.routes[i].qps);
    }
  }

  lemma OneMore(n: nat, q: nat)
    ensures n * q + q == (n + 1) * q
  {
  }

  /** ... and reach that as soon as one run reaches the limit: equal runs on n CPUs deliver n times as much. */
  lemma {:induction false} OverallScales(cfg: Config, maps: Maps, run: seq<Frame>, n: nat, i: nat, sec: nat)
    requires |maps.words| == Bloom.BLOOM_WORDS && DistinctHashes(cfg.routes)
    ensures DeliveredOverall(cfg, maps, seq(n, _ => run), i, sec) ==
            n * DeliveredIn(cfg, maps, run, i, sec, |run|)
  {
    hide DistinctHashes, DeliveredIn;
    if n > 0 {
      OverallScales(cfg, maps, run, n - 1, i, sec);
      assert seq(n, _ => run)[1..] == seq(n - 1, _ => run);
    }
  }
}
