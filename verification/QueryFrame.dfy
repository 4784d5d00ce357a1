/** Whole query frames for given labels: the sender's side of the parser. */
module QueryFrame {
  import opened Bytes
  import opened DnsQuestion
  import opened RateLimit
  import opened Filters
  import opened Codegen
  import opened DataPlane
  import Bloom
  import Fnv

  /** Labels that fit into one question. */
  predicate Askable(ls: seq<seq<byte>>) {
    1 <= |ls| <= MAX_LABELS && AreLabels(ls) && |Dotted(ls)| <= MAX_NAME
  }

  /** What a sender may choose in the headers of a query; low holds the flags of answers, which nothing reads. */
  datatype Sender = Sender(
    macs: seq<byte>, source: seq<byte>, dest: seq<byte>, options: seq<byte>, port: u16, id: u16, opcode: nat,
    authoritative: bool, truncated: bool, recursion: bool, low: byte)
  {
    predicate Valid() {
      |macs| == 12 && |source| == 4 && |dest| == 4 && |options| <= 40 && |options| % 4 == 0 && opcode < 16
    }

    function Udp(): nat {
      34 + |options|
    }
  }

  function High(n: u16): byte {
    n / 256
  }

  function Low(n: u16): byte {
    n % 256
  }

  /** Ethernet and IPv4 (section 3.1 of RFC 791). */
  function Outer(s: Sender, udpLength: u16): (h: seq<byte>)
    requires s.Valid() && udpLength < 0xff00
    ensures |h| == s.Udp()
  {
    var total := 20 + |s.options| + udpLength;
    s.macs + [8, 0] +
    [0x40 + 5 + |s.options| / 4, 0, High(total), Low(total), 0, 0, 0, 0, 64, 17, 0, 0] + s.source + s.dest + s.options
  }

  /** The first byte of the DNS flags of a query: QR clear, OPCODE, AA, TC, RD (section 4.1.1 of RFC 1035). */
  function FlagByte(s: Sender): byte
    requires s.Valid()
  {
    s.opcode * 8 + (if s.authoritative then 4 else 0) + (if s.truncated then 2 else 0) + (if s.recursion then 1 else 0)
  }

  /** UDP to port 53 without a checksum, and a DNS header with one question. */
  function Inner(s: Sender, udpLength: u16): (h: seq<byte>)
    requires s.Valid()
    ensures |h| == 20
  {
    [High(s.port), Low(s.port), 0, 53, High(udpLength), Low(udpLength), 0, 0] +
    [High(s.id), Low(s.id), FlagByte(s), s.low, 0, 1, 0, 0, 0, 0, 0, 0]
  }

  function QuestionOf(ls: seq<seq<byte>>, qtype: u16, qclass: u16): (q: seq<byte>)
    requires Askable(ls)
    ensures |q| == |Encode(ls)| + 4
  {
    Encode(ls) + [High(qtype), Low(qtype), High(qclass), Low(qclass)]
  }

  lemma {:induction false} WireLength(ls: seq<seq<byte>>)
    requires AreLabels(ls) && ls != []
    ensures |Wire(ls)| == |Dotted(ls)| + 1
  {
    if |ls| > 1 {
      WireLength(ls[..|ls| - 1]);
    } else {
      assert Wire(ls) == Wire([]) + [|ls[0]|] + ls[0] by { assert ls[..0] == []; }
    }
  }

  /** The frame with which the sender asks for these labels. */
  function FrameFrom(s: Sender, ls: seq<seq<byte>>, qtype: u16, qclass: u16): (f: seq<byte>)
    requires s.Valid() && Askable(ls)
    ensures |f| == s.Udp() + 26 + |Dotted(ls)|
  {
    WireLength(ls);
    var q := QuestionOf(ls, qtype, qclass);
    Outer(s, 20 + |q|) + (Inner(s, 20 + |q|) + q)
  }

  /** What the outer headers say, whatever follows them. */
  lemma OuterFields(s: Sender, udpLength: u16, rest: seq<byte>)
    requires s.Valid() && udpLength < 0xff00 && |rest| >= 8
    ensures var f := Outer(s, udpLength) + rest;
            && Located(f) == Some(Offsets(14, s.Udp()))
            && SourceAddress(f, 14) == s.source
  {
    var f := Outer(s, udpLength) + rest;
    assert f[12] == 8 && f[13] == 0 && f[14] == 0x45 + |s.options| / 4 && f[23] == 17;
    assert f[26..30] == s.source;
  }

  /** What the inner headers say, wherever they are. */
  lemma InnerFields(s: Sender, before: seq<byte>, q: seq<byte>)
    requires s.Valid() && 5 <= |q| < 0xfe00
    ensures var f, at := before + (Inner(s, 20 + |q|) + q), |before|;
            && Be16(f, at + 2) == DNS_PORT
            && HeaderOk(f, at) && UdpLength(f, at) == 20 + |q|
            && Be16(f, at + 8) == s.id
            && Be16(f, at + 10) / 2048 % 16 == s.opcode && (Be16(f, at + 10) / 512 % 2 == 1) == s.truncated
  {
    var h := Inner(s, 20 + |q|);
    var f, at := before + (h + q), |before|;
    assert forall i :: 0 <= i < 20 ==> f[at + i] == h[i];
    FlagFields(s);
  }

  lemma FlagFields(s: Sender)
    requires s.Valid()
    ensures FlagByte(s) < 128
    ensures var flags: int := FlagByte(s) * 256 + s.low;
            flags / 2048 % 16 == s.opcode && (flags / 512 % 2 == 1) == s.truncated
  {
    var aa, tc, rd := if s.authoritative then 1 else 0, if s.truncated then 1 else 0, if s.recursion then 1 else 0;
    var flags: int := FlagByte(s) * 256 + s.low;
    FieldAt(flags, 2048, s.opcode, 1024 * aa + 512 * tc + 256 * rd + s.low);
    FieldAt(flags, 512, 2 * (2 * s.opcode + aa) + tc, 256 * rd + s.low);
    LastBit(2 * s.opcode + aa, tc);
  }

  lemma FieldAt(n: nat, unit: nat, field: nat, below: nat)
    requires (unit == 512 || unit == 2048) && n == unit * field + below && below < unit
    ensures n / unit == field
  {
  }

  lemma LastBit(n: nat, bit: nat)
    requires bit < 2
    ensures (2 * n + bit) % 2 == bit
  {
  }

  /** Every askable label sequence is carried by a frame of every sender, which parses to exactly what was sent. */
  lemma FrameParses(s: Sender, ls: seq<seq<byte>>, qtype: u16, qclass: u16)
    requires s.Valid() && Askable(ls)
    ensures var f := FrameFrom(s, ls, qtype, qclass);
            && Located(f) == Some(Offsets(14, s.Udp()))
            && SourceAddress(f, 14) == s.source
            && Be16(f, s.Udp() + 2) == DNS_PORT
            && HeaderOk(f, s.Udp()) && IsQuestion(QuestionBytes(f, s.Udp()), ls)
            && Parsed(f, s.Udp()) ==
               Some(Query(Fnv.Hash(CanonicalName(ls)), s.id, qtype, qclass, s.opcode, s.truncated, |ls|,
                          CanonicalName(ls)))
  {
    hide Outer, Inner, Located, HeaderOk, UdpLength, Fnv.Hash, QueryOf, IsQuestion, CanonicalName, Parsed;
    hide SourceAddress;
    WireLength(ls);
    var q := QuestionOf(ls, qtype, qclass);
    var front := Outer(s, 20 + |q|);
    var f := FrameFrom(s, ls, qtype, qclass);
    OuterFields(s, 20 + |q|, Inner(s, 20 + |q|) + q);
    InnerFields(s, front, q);
    QuestionPart(f, front + Inner(s, 20 + |q|), ls, qtype, qclass, s.Udp());
    EncodedIsParsed(f, s.Udp(), ls);
    QueryFields(f, ls, s, qtype, qclass);
  }

  lemma QueryFields(f: seq<byte>, ls: seq<seq<byte>>, s: Sender, qtype: u16, qclass: u16)
    requires s.Valid() && Askable(ls) && HeaderOk(f, s.Udp())
    requires QuestionBytes(f, s.Udp()) == QuestionOf(ls, qtype, qclass) && IsQuestion(QuestionBytes(f, s.Udp()), ls)
    requires Be16(f, s.Udp() + 8) == s.id
    requires Be16(f, s.Udp() + 10) / 2048 % 16 == s.opcode && (Be16(f, s.Udp() + 10) / 512 % 2 == 1) == s.truncated
    ensures QueryOf(f, s.Udp(), ls) ==
            Query(Fnv.Hash(CanonicalName(ls)), s.id, qtype, qclass, s.opcode, s.truncated, |ls|, CanonicalName(ls))
  {
    hide HeaderOk, UdpLength, Fnv.Hash, CanonicalName, Encode;
    var q := QuestionOf(ls, qtype, qclass);
    assert Be16(q, |Encode(ls)|) == qtype && Be16(q, |Encode(ls)| + 2) == qclass;
  }

  lemma QuestionPart(
    f: seq<byte>, front: seq<byte>, ls: seq<seq<byte>>, qtype: u16, qclass: u16, udp: nat)
    requires Askable(ls) && f == front + QuestionOf(ls, qtype, qclass) && |front| == udp + 20
    requires HeaderOk(f, udp) && UdpLength(f, udp) == 20 + |QuestionOf(ls, qtype, qclass)|
    ensures QuestionBytes(f, udp) == QuestionOf(ls, qtype, qclass) && IsQuestion(QuestionBytes(f, udp), ls)
  {
    hide Encode;
  }

  // A plain sender.

  const UDP_AT := 34

  function Plain(id: u16): Sender {
    Sender([0, 0, 0, 0, 0, 0, 0, 0, 0, 0, 0, 0], [10, 0, 0, 1], [10, 0, 0, 2], [], 0xc000, id, 0, false, false, false,
           0)
  }

  function FrameOf(ls: seq<seq<byte>>, id: u16, qtype: u16): seq<byte>
    requires Askable(ls)
  {
    FrameFrom(Plain(id), ls, qtype, 1)
  }

  lemma PlainFrameParses(ls: seq<seq<byte>>, id: u16, qtype: u16)
    requires Askable(ls)
    ensures Parsed(FrameOf(ls, id, qtype), UDP_AT) ==
            Some(Query(Fnv.Hash(CanonicalName(ls)), id, qtype, 1, 0, false, |ls|, CanonicalName(ls)))
  {
    hide FrameFrom, Fnv.Hash, CanonicalName, Parsed, HeaderOk, IsQuestion, Located, SourceAddress;
    FrameParses(Plain(id), ls, qtype, 1);
  }

  // What the headers decide.

  /** Where the headers are, in raw offsets: IPv4 by its type, at least five words of header, UDP by its number. */
  lemma LocatedIff(p: seq<byte>, o: Offsets)
    ensures Located(p) == Some(o) <==>
            && |p| >= 34 && p[12] == 0x08 && p[13] == 0x00 && p[23] == 17
            && o.ip == 14 && o.udp == 14 + 4 * (p[14] % 16) && o.udp >= 34 && o.udp + 8 <= |p|
  {
  }

  /** Other protocols and ports, answers, and messages without a question or cut off pass untouched. */
  lemma OtherTrafficPasses(cfg: Config, maps: Maps, clock: Clock, p: seq<byte>, table: seq<RateState>)
    requires |maps.words| == Bloom.BLOOM_WORDS
    requires || |p| < 42
             || p[12] != 0x08 || p[13] != 0x00
             || p[23] != 17
             || (forall o :: Located(p) == Some(o) ==> Be16(p, o.udp + 2) != 53)
             || (forall o :: Located(p) == Some(o) ==> o.udp + 10 < |p| && p[o.udp + 10] >= 128)
             || (forall o :: Located(p) == Some(o) ==> o.udp + 14 <= |p| && p[o.udp + 12] == 0 && p[o.udp + 13] == 0)
             || (forall o :: Located(p) == Some(o) ==> o.udp + Be16(p, o.udp + 4) > |p|)
    ensures Routed(cfg, maps, clock, p, table) == Return(Pass, State(table, p, []))
  {
    hide Dispatch, Generated, IsQuestion;
  }

  /** A query from a blacklisted address is dropped, whoever else is configured and whatever it asks. */
  lemma BlacklistedIsDropped(
    cfg: Config, maps: Maps, clock: Clock, table: seq<RateState>, s: Sender, ls: seq<seq<byte>>, qtype: u16,
    qclass: u16)
    requires |maps.words| == Bloom.BLOOM_WORDS && s.Valid() && Askable(ls) && maps.blacklisted(s.source)
    ensures var f := FrameFrom(s, ls, qtype, qclass);
            Routed(cfg, maps, clock, f, table) == Return(Drop, State(table, f, []))
  {
    hide FrameFrom, Fnv.Hash, CanonicalName, Parsed, HeaderOk, IsQuestion, Located, SourceAddress, Dispatch, Generated;
    FrameParses(s, ls, qtype, qclass);
  }

  /** A query whose opcode is not allowed, that is truncated where that is refused, or that is too long, is dropped. */
  lemma RefusedIsDropped(
    cfg: Config, maps: Maps, clock: Clock, table: seq<RateState>, s: Sender, ls: seq<seq<byte>>, qtype: u16,
    qclass: u16)
    requires |maps.words| == Bloom.BLOOM_WORDS && s.Valid() && Askable(ls)
    requires || s.opcode !in cfg.opcodes
             || (cfg.dropTruncated && s.truncated)
             || s.Udp() + 26 + |Dotted(ls)| > cfg.maxPacketSize
    ensures var f := FrameFrom(s, ls, qtype, qclass);
            Routed(cfg, maps, clock, f, table) == Return(Drop, State(table, f, []))
  {
    hide FrameFrom, Fnv.Hash, CanonicalName, Parsed, HeaderOk, IsQuestion, Located, SourceAddress, Dispatch, Generated;
    FrameParses(s, ls, qtype, qclass);
  }

  /** Every other query is let through to routing, with the query that was sent. */
  lemma OthersAreRouted(cfg: Config, maps: Maps, s: Sender, ls: seq<seq<byte>>, qtype: u16, qclass: u16)
    requires s.Valid() && Askable(ls) && !maps.blacklisted(s.source) && s.opcode in cfg.opcodes
    requires !(cfg.dropTruncated && s.truncated) && s.Udp() + 26 + |Dotted(ls)| <= cfg.maxPacketSize
    ensures var f := FrameFrom(s, ls, qtype, qclass);
            var q := Query(Fnv.Hash(CanonicalName(ls)), s.id, qtype, qclass, s.opcode, s.truncated, |ls|,
                           CanonicalName(ls));
            14 + 20 <= |f| && Parsed(f, s.Udp()) == Some(q) && Admissible(cfg, maps, f, 14, q)
  {
    hide FrameFrom, Fnv.Hash, CanonicalName, Parsed, HeaderOk, IsQuestion, Located, SourceAddress;
    FrameParses(s, ls, qtype, qclass);
  }
}
