/** The kernel-space target: rewriting the destination of a packet in place. */
module KernelSpace {
  import opened Bytes
  import opened Checksum

  // Field offsets: from the IPv4 header and from the UDP header.
  const IP_CHECK := 10
  const IP_SADDR := 12
  const IP_DADDR := 16
  const UDP_DEST := 2
  const UDP_LEN := 4
  const UDP_CHECK := 6

  function HeaderLength(p: seq<byte>, ip: nat): nat
    requires ip < |p|
  {
    (p[ip] % 16) * 4
  }

  /** An IPv4 header of at least five words, directly followed by a UDP datagram inside the packet. */
  predicate Framed(p: seq<byte>, ip: nat, udp: nat) {
    && ip + 20 <= udp
    && udp + 8 <= |p|
    && udp == ip + HeaderLength(p, ip)
    && 8 <= Be16(p, udp + UDP_LEN)
    && udp + Be16(p, udp + UDP_LEN) <= |p|
  }

  predicate IpChecksumOk(p: seq<byte>, ip: nat, udp: nat)
    requires Framed(p, ip, udp)
  {
    ChecksumOk(p[ip..udp])
  }

  /** The pseudo-header and the datagram (RFC 768). */
  function UdpCovered(p: seq<byte>, ip: nat, udp: nat): seq<byte>
    requires Framed(p, ip, udp)
  {
    p[ip + IP_SADDR..ip + IP_DADDR] + p[ip + IP_DADDR..ip + 20] + [0, 17] + p[udp + UDP_LEN..udp + UDP_CHECK]
    + p[udp..udp + Be16(p, udp + UDP_LEN)]
  }

  /** RFC 768: an all-zero checksum means that the sender generated none. */
  predicate UdpChecksumOk(p: seq<byte>, ip: nat, udp: nat)
    requires Framed(p, ip, udp)
  {
    Load16(p, udp + UDP_CHECK) == 0 || ChecksumOk(UdpCovered(p, ip, udp))
  }

  /** Updates the checksum at check for a covered word that changes from oldv to newv. */
  function Patch(p: seq<byte>, check: nat, oldv: u16, newv: u16): (r: seq<byte>)
    requires check + 2 <= |p|
    ensures |r| == |p|
  {
    Store16(p, check, Replace(Load16(p, check), oldv, newv))
  }

  /** The two halves of a 32-bit field, high half first as the source does it. */
  function Patch32(p: seq<byte>, check: nat, at: nat, low: u16, high: u16): (r: seq<byte>)
    requires check + 2 <= |p| && at + 4 <= |p| && (check + 2 <= at || at + 4 <= check)
    ensures |r| == |p|
  {
    Patch(Patch(p, check, Load16(p, at + 2), high), check, Load16(p, at), low)
  }

  datatype Address = Address(low: u16, high: u16)

  function AddressAt(p: seq<byte>, at: nat): Address
    requires at + 4 <= |p|
  {
    Address(Load16(p, at), Load16(p, at + 2))
  }

  const NO_ADDRESS := Address(0, 0)

  function WithAddress(p: seq<byte>, ip: nat, udp: nat, addr: Address): (r: seq<byte>)
    requires ip + 20 <= udp && udp + 8 <= |p|
    ensures |r| == |p|
  {
    if addr == NO_ADDRESS || AddressAt(p, ip + IP_DADDR) == addr then p
    else
      var p1 := Patch32(p, ip + IP_CHECK, ip + IP_DADDR, addr.low, addr.high);
      var p2 := if Load16(p1, udp + UDP_CHECK) == 0 then p1
                else Patch32(p1, udp + UDP_CHECK, ip + IP_DADDR, addr.low, addr.high);
      Store16(Store16(p2, ip + IP_DADDR, addr.low), ip + IP_DADDR + 2, addr.high)
  }

  function WithPort(p: seq<byte>, udp: nat, port: u16): (r: seq<byte>)
    requires udp + 8 <= |p|
    ensures |r| == |p|
  {
    if Load16(p, udp + UDP_DEST) == port then p
    else
      var p1 := if Load16(p, udp + UDP_CHECK) == 0 then p
                else Patch(p, udp + UDP_CHECK, Load16(p, udp + UDP_DEST), port);
      Store16(p1, udp + UDP_DEST, port)
  }

  /** The packet after routing to kernel space; port and address are in network order, as host words. */
  function Rewritten(p: seq<byte>, ip: nat, udp: nat, port: u16, addr: Address): (r: seq<byte>)
    requires ip + 20 <= udp && udp + 8 <= |p|
    ensures |r| == |p|
  {
    WithPort(WithAddress(p, ip, udp, addr), udp, port)
  }

  method ReplaceU16(packet: array<byte>, check: nat, oldv: u16, newv: u16)
    requires check + 2 <= packet.Length
    modifies packet
    ensures packet[..] == Patch(old(packet[..]), check, oldv, newv)
  {
    var csum := 0xffff - Load16(packet[..], check);
    csum := csum + (0xffff - oldv);
    csum := csum + newv;
    csum := csum % 0x1_0000 + csum / 0x1_0000;
    csum := csum % 0x1_0000 + csum / 0x1_0000;
    var result: u16 := 0xffff - csum % 0x1_0000;
    assert result == Replace(Load16(packet[..], check), oldv, newv);
    hide Replace, Load16;
    packet[check] := result % 256;
    packet[check + 1] := result / 256;
    assert packet[..] == Store16(old(packet[..]), check, result);
  }

  method ReplaceU32(packet: array<byte>, check: nat, at: nat, low: u16, high: u16)
    requires check + 2 <= packet.Length && at + 4 <= packet.Length && (check + 2 <= at || at + 4 <= check)
    modifies packet
    ensures packet[..] == Patch32(old(packet[..]), check, at, low, high)
  {
    hide Replace;
    var oldLow := Load16(packet[..], at);
    ReplaceU16(packet, check, Load16(packet[..], at + 2), high);
    ReplaceU16(packet, check, oldLow, low);
  }

  method StoreField(packet: array<byte>, at: nat, v: u16)
    requires at + 2 <= packet.Length
    modifies packet
    ensures packet[..] == Store16(old(packet[..]), at, v)
  {
    packet[at] := v % 256;
    packet[at + 1] := v / 256;
  }

  method RouteKernelSpace(packet: array<byte>, ip: nat, udp: nat, port: u16, addr: Address)
    requires ip + 20 <= udp && udp + 8 <= packet.Length
    modifies packet
    ensures packet[..] == Rewritten(old(packet[..]), ip, udp, port, addr)
  {
    hide Patch, Patch32, Store16;
    if addr != NO_ADDRESS && AddressAt(packet[..], ip + IP_DADDR) != addr {
      ReplaceU32(packet, ip + IP_CHECK, ip + IP_DADDR, addr.low, addr.high);
      if Load16(packet[..], udp + UDP_CHECK) != 0 {
        ReplaceU32(packet, udp + UDP_CHECK, ip + IP_DADDR, addr.low, addr.high);
      }
      StoreField(packet, ip + IP_DADDR, addr.low);
      StoreField(packet, ip + IP_DADDR + 2, addr.high);
    }
    if Load16(packet[..], udp + UDP_DEST) != port {
      if Load16(packet[..], udp + UDP_CHECK) != 0 {
        ReplaceU16(packet, udp + UDP_CHECK, Load16(packet[..], udp + UDP_DEST), port);
      }
      StoreField(packet, udp + UDP_DEST, port);
    }
  }

  // Stores seen through slices and loads.

  lemma LoadStored(p: seq<byte>, at: nat, v: u16, i: nat)
    requires at + 2 <= |p| && i + 2 <= |p| && (i == at || i + 2 <= at || at + 2 <= i)
    ensures Load16(Store16(p, at, v), i) == if i == at then v else Load16(p, i)
  {
  }

  lemma SliceStored(p: seq<byte>, at: nat, v: u16, lo: nat, hi: nat)
    requires lo <= hi <= |p| && at + 2 <= |p|
    requires at + 2 <= lo || hi <= at || (lo <= at && at + 2 <= hi)
    ensures Store16(p, at, v)[lo..hi] ==
            if lo <= at && at + 2 <= hi then Store16(p[lo..hi], at - lo, v) else p[lo..hi]
  {
  }

  /** One store changes the host sum of an aligned slice by the change of the word. */
  lemma SliceSum(p: seq<byte>, at: nat, v: u16, lo: nat, hi: nat)
    requires lo <= hi <= |p| && at + 2 <= |p| && (at - lo) % 2 == 0
    requires at + 2 <= lo || hi <= at || (lo <= at && at + 2 <= hi)
    ensures HostSum(Store16(p, at, v)[lo..hi]) ==
            HostSum(p[lo..hi]) + if lo <= at && at + 2 <= hi then v - Load16(p, at) else 0
  {
    SliceStored(p, at, v, lo, hi);
    if lo <= at && at + 2 <= hi {
      HostSumStore(p[lo..hi], at - lo, v);
    }
  }

  /** A store at an even distance that spares the length fields keeps the framing. */
  lemma FramedStored(p: seq<byte>, ip: nat, udp: nat, at: nat, v: u16)
    requires Framed(p, ip, udp)
    requires ip + IP_CHECK <= at && at + 2 <= |p| && (at + 2 <= udp + UDP_LEN || udp + UDP_CHECK <= at)
    ensures Framed(Store16(p, at, v), ip, udp)
    ensures Be16(Store16(p, at, v), udp + UDP_LEN) == Be16(p, udp + UDP_LEN)
  {
  }

  function UdpSum(p: seq<byte>, ip: nat, udp: nat): nat
    requires Framed(p, ip, udp)
  {
    HostSum(p[ip + IP_SADDR..ip + IP_DADDR]) + HostSum(p[ip + IP_DADDR..ip + 20]) + 17 * 256
    + HostSum(p[udp + UDP_LEN..udp + UDP_CHECK]) + HostSum(p[udp..udp + Be16(p, udp + UDP_LEN)])
  }

  lemma UdpCoveredSum(p: seq<byte>, ip: nat, udp: nat)
    requires Framed(p, ip, udp)
    ensures HostSum(UdpCovered(p, ip, udp)) == UdpSum(p, ip, udp)
    ensures ChecksumOk(UdpCovered(p, ip, udp)) <==> UdpSum(p, ip, udp) % 0xffff == 0
  {
    var a, b, c := p[ip + IP_SADDR..ip + IP_DADDR], p[ip + IP_DADDR..ip + 20], [0, 17];
    var d, e := p[udp + UDP_LEN..udp + UDP_CHECK], p[udp..udp + Be16(p, udp + UDP_LEN)];
    HostSumConcat(a, b);
    HostSumConcat(a + b, c);
    HostSumConcat(a + b + c, d);
    HostSumConcat(a + b + c + d, e);
    assert HostSum(c) == 17 * 256 by { assert c[2..] == []; }
    ChecksumOkByHostSum(UdpCovered(p, ip, udp));
  }

  /** The header sum is positive: the length nibble is at least five. */
  lemma IpChecksumSum(p: seq<byte>, ip: nat, udp: nat)
    requires Framed(p, ip, udp)
    ensures IpChecksumOk(p, ip, udp) <==> HostSum(p[ip..udp]) % 0xffff == 0
  {
    var h := p[ip..udp];
    ChecksumOkByHostSum(h);
    assert h[0] == p[ip] && p[ip] > 0;
    assert HostSum(h) == Load16(h, 0) + HostSum(h[2..]);
  }

  lemma UdpSumStored(p: seq<byte>, ip: nat, udp: nat, at: nat, v: u16)
    requires Framed(p, ip, udp)
    requires at == udp + UDP_DEST || at == udp + UDP_CHECK || at == ip + IP_DADDR || at == ip + IP_DADDR + 2
             || at == ip + IP_CHECK
    ensures Framed(Store16(p, at, v), ip, udp)
    ensures UdpSum(Store16(p, at, v), ip, udp) ==
            UdpSum(p, ip, udp) + if at == ip + IP_CHECK then 0 else v - Load16(p, at)
  {
    hide HostSum, Store16, Load16;
    FramedStored(p, ip, udp, at, v);
    SliceSum(p, at, v, ip + IP_SADDR, ip + IP_DADDR);
    SliceSum(p, at, v, ip + IP_DADDR, ip + 20);
    SliceSum(p, at, v, udp + UDP_LEN, udp + UDP_CHECK);
    SliceSum(p, at, v, udp, udp + Be16(p, udp + UDP_LEN));
  }

  lemma IpSumStored(p: seq<byte>, ip: nat, udp: nat, at: nat, v: u16)
    requires Framed(p, ip, udp)
    requires at == udp + UDP_DEST || at == udp + UDP_CHECK || at == ip + IP_DADDR || at == ip + IP_DADDR + 2
             || at == ip + IP_CHECK
    ensures Framed(Store16(p, at, v), ip, udp)
    ensures HostSum(Store16(p, at, v)[ip..udp]) ==
            HostSum(p[ip..udp]) + if at < udp then v - Load16(p, at) else 0
  {
    hide HostSum, Store16, Load16;
    FramedStored(p, ip, udp, at, v);
    SliceSum(p, at, v, ip, udp);
  }

  /** Both sums, and the fields the rewrite reads. */
  datatype Ledger = Ledger(ipSum: int, udpSum: int, low: u16, high: u16, dest: u16, ipCheck: u16, udpCheck: u16)

  function LedgerOf(p: seq<byte>, ip: nat, udp: nat): Ledger
    requires Framed(p, ip, udp)
  {
    Ledger(HostSum(p[ip..udp]), UdpSum(p, ip, udp), Load16(p, ip + IP_DADDR), Load16(p, ip + IP_DADDR + 2),
           Load16(p, udp + UDP_DEST), Load16(p, ip + IP_CHECK), Load16(p, udp + UDP_CHECK))
  }

  lemma LoadsStored(p: seq<byte>, ip: nat, udp: nat, at: nat, v: u16)
    requires Framed(p, ip, udp)
    requires at == udp + UDP_DEST || at == udp + UDP_CHECK || at == ip + IP_DADDR || at == ip + IP_DADDR + 2
             || at == ip + IP_CHECK
    ensures forall i :: i in [udp + UDP_DEST, udp + UDP_CHECK, ip + IP_DADDR, ip + IP_DADDR + 2, ip + IP_CHECK] ==>
              i + 2 <= |p| && Load16(Store16(p, at, v), i) == if i == at then v else Load16(p, i)
  {
    hide Load16, Store16;
    LoadStored(p, at, v, udp + UDP_DEST);
    LoadStored(p, at, v, udp + UDP_CHECK);
    LoadStored(p, at, v, ip + IP_DADDR);
    LoadStored(p, at, v, ip + IP_DADDR + 2);
    LoadStored(p, at, v, ip + IP_CHECK);
  }

  /** What each store does to the ledger. */
  lemma LedgerStored(p: seq<byte>, ip: nat, udp: nat, at: nat, v: u16)
    requires Framed(p, ip, udp)
    requires at == udp + UDP_DEST || at == udp + UDP_CHECK || at == ip + IP_DADDR || at == ip + IP_DADDR + 2
             || at == ip + IP_CHECK
    ensures Framed(Store16(p, at, v), ip, udp)
    ensures var l := LedgerOf(p, ip, udp);
            LedgerOf(Store16(p, at, v), ip, udp) ==
            if at == udp + UDP_DEST then l.(dest := v, udpSum := l.udpSum + v - l.dest)
            else if at == udp + UDP_CHECK then l.(udpCheck := v, udpSum := l.udpSum + v - l.udpCheck)
            else if at == ip + IP_CHECK then l.(ipCheck := v, ipSum := l.ipSum + v - l.ipCheck)
            else if at == ip + IP_DADDR then
              l.(low := v, udpSum := l.udpSum + v - l.low, ipSum := l.ipSum + v - l.low)
            else l.(high := v, udpSum := l.udpSum + v - l.high, ipSum := l.ipSum + v - l.high)
  {
    hide HostSum, UdpSum, Load16, Store16;
    UdpSumStored(p, ip, udp, at, v);
    IpSumStored(p, ip, udp, at, v);
    LoadsStored(p, ip, udp, at, v);
  }

  lemma CongruentBy(x: int, y: int, q: int)
    requires x == y + 0xffff * q
    ensures x % 0xffff == 0 <==> y % 0xffff == 0
  {
    ModShift(y, q);
  }

  /** Patching a checksum for the two halves of the destination address. */
  lemma LedgerPatched(p: seq<byte>, ip: nat, udp: nat, check: nat, addr: Address) returns (q: int, c: u16)
    requires Framed(p, ip, udp) && (check == ip + IP_CHECK || check == udp + UDP_CHECK)
    ensures var l := LedgerOf(p, ip, udp);
            var r := Patch32(p, check, ip + IP_DADDR, addr.low, addr.high);
            var delta := l.low + l.high as int - addr.low - addr.high + 0xffff * q;
            && Framed(r, ip, udp)
            && LedgerOf(r, ip, udp) ==
               if check == ip + IP_CHECK then l.(ipCheck := c, ipSum := l.ipSum + delta)
               else l.(udpCheck := c, udpSum := l.udpSum + delta)
  {
    hide HostSum, UdpSum, Load16, Store16, Replace;
    var l := LedgerOf(p, ip, udp);
    var c0 := Load16(p, check);
    var c1 := Replace(c0, l.high, addr.high);
    var q1 := ReplaceMoves(c0, l.high, addr.high);
    LedgerStored(p, ip, udp, check, c1);
    var p1 := Store16(p, check, c1);
    c := Replace(c1, l.low, addr.low);
    var q2 := ReplaceMoves(c1, l.low, addr.low);
    LedgerStored(p1, ip, udp, check, c);
    q := q1 + q2;
  }

  /**
   * Routing to a new address keeps a valid IP checksum valid and an invalid one invalid. The UDP checksum becomes
   * acceptable only by becoming zero.
   */
  lemma AddressKeepsChecksums(p: seq<byte>, ip: nat, udp: nat, addr: Address)
    requires Framed(p, ip, udp)
    ensures var r := WithAddress(p, ip, udp, addr);
            && Framed(r, ip, udp)
            && (IpChecksumOk(r, ip, udp) <==> IpChecksumOk(p, ip, udp))
            && (UdpChecksumOk(r, ip, udp) <==> UdpChecksumOk(p, ip, udp) || Load16(r, udp + UDP_CHECK) == 0)
            && (Load16(p, udp + UDP_CHECK) == 0 ==> Load16(r, udp + UDP_CHECK) == 0)
            && (addr != NO_ADDRESS ==> AddressAt(r, ip + IP_DADDR) == addr)
  {
    hide HostSum, UdpSum, Load16, Store16, Patch32, ChecksumOk, IpChecksumOk;
    if addr != NO_ADDRESS && AddressAt(p, ip + IP_DADDR) != addr {
      var l := LedgerOf(p, ip, udp);
      var q1, c1 := LedgerPatched(p, ip, udp, ip + IP_CHECK, addr);
      var p1 := Patch32(p, ip + IP_CHECK, ip + IP_DADDR, addr.low, addr.high);
      var p2, q2 := p1, 0;
      if Load16(p1, udp + UDP_CHECK) != 0 {
        var c2;
        q2, c2 := LedgerPatched(p1, ip, udp, udp + UDP_CHECK, addr);
        p2 := Patch32(p1, udp + UDP_CHECK, ip + IP_DADDR, addr.low, addr.high);
      }
      LedgerStored(p2, ip, udp, ip + IP_DADDR, addr.low);
      var p3 := Store16(p2, ip + IP_DADDR, addr.low);
      LedgerStored(p3, ip, udp, ip + IP_DADDR + 2, addr.high);
      var r := Store16(p3, ip + IP_DADDR + 2, addr.high);
      assert r == WithAddress(p, ip, udp, addr);
      CongruentBy(LedgerOf(r, ip, udp).ipSum, l.ipSum, q1);
      IpChecksumSum(p, ip, udp);
      IpChecksumSum(r, ip, udp);
      if l.udpCheck != 0 {
        CongruentBy(LedgerOf(r, ip, udp).udpSum, l.udpSum, q2);
        UdpCoveredSum(p, ip, udp);
        UdpCoveredSum(r, ip, udp);
      }
    }
  }

  lemma PortKeepsChecksums(p: seq<byte>, ip: nat, udp: nat, port: u16)
    requires Framed(p, ip, udp)
    ensures var r := WithPort(p, udp, port);
            && Framed(r, ip, udp)
            && (IpChecksumOk(r, ip, udp) <==> IpChecksumOk(p, ip, udp))
            && (UdpChecksumOk(r, ip, udp) <==> UdpChecksumOk(p, ip, udp) || Load16(r, udp + UDP_CHECK) == 0)
            && (Load16(p, udp + UDP_CHECK) == 0 ==> Load16(r, udp + UDP_CHECK) == 0)
            && Load16(r, udp + UDP_DEST) == port
            && AddressAt(r, ip + IP_DADDR) == AddressAt(p, ip + IP_DADDR)
            && Load16(r, udp + UDP_CHECK) ==
               var c, dest := Load16(p, udp + UDP_CHECK), Load16(p, udp + UDP_DEST);
               if c == 0 || dest == port then c else Replace(c, dest, port)
  {
    hide HostSum, UdpSum, Load16, Store16, Replace, ChecksumOk, IpChecksumOk;
    var l := LedgerOf(p, ip, udp);
    if l.dest != port {
      var p1, q := p, 0;
      if l.udpCheck != 0 {
        q := ReplaceMoves(l.udpCheck, l.dest, port);
        LedgerStored(p, ip, udp, udp + UDP_CHECK, Replace(l.udpCheck, l.dest, port));
        p1 := Patch(p, udp + UDP_CHECK, l.dest, port);
      }
      LedgerStored(p1, ip, udp, udp + UDP_DEST, port);
      var r := Store16(p1, udp + UDP_DEST, port);
      IpChecksumSum(p, ip, udp);
      IpChecksumSum(r, ip, udp);
      if l.udpCheck != 0 {
        CongruentBy(LedgerOf(r, ip, udp).udpSum, l.udpSum, q);
        UdpCoveredSum(p, ip, udp);
        UdpCoveredSum(r, ip, udp);
      }
    }
  }

  /** The whole rewrite, for every packet, port and address: nothing but a zero can mask a corrupt datagram. */
  lemma RewriteKeepsChecksums(p: seq<byte>, ip: nat, udp: nat, port: u16, addr: Address)
    requires Framed(p, ip, udp)
    ensures var r := Rewritten(p, ip, udp, port, addr);
            && Framed(r, ip, udp)
            && (IpChecksumOk(r, ip, udp) <==> IpChecksumOk(p, ip, udp))
            && (UdpChecksumOk(r, ip, udp) <==> UdpChecksumOk(p, ip, udp) || Load16(r, udp + UDP_CHECK) == 0)
            && (Load16(p, udp + UDP_CHECK) == 0 ==> Load16(r, udp + UDP_CHECK) == 0)
            && Load16(r, udp + UDP_DEST) == port
            && (addr != NO_ADDRESS ==> AddressAt(r, ip + IP_DADDR) == addr)
  {
    hide WithAddress, WithPort, UdpChecksumOk, IpChecksumOk, Load16;
    AddressKeepsChecksums(p, ip, udp, addr);
    PortKeepsChecksums(WithAddress(p, ip, udp, addr), ip, udp, port);
  }

  /** When the generated rewrite of a checksummed query leaves it without a checksum. */
  lemma PortErasesChecksumIff(p: seq<byte>, ip: nat, udp: nat, port: u16)
    requires Framed(p, ip, udp) && Load16(p, udp + UDP_CHECK) != 0
    ensures var c: int, dest: int := Load16(p, udp + UDP_CHECK), Load16(p, udp + UDP_DEST);
            Load16(Rewritten(p, ip, udp, port, NO_ADDRESS), udp + UDP_CHECK) == 0 <==>
            dest != port && (c + dest - port) % 0xffff == 0 && !(c == 0xffff && dest == 0xffff && port == 0)
  {
    hide Load16, Replace, WithPort;
    PortKeepsChecksums(p, ip, udp, port);
    ReplaceZeroIff(Load16(p, udp + UDP_CHECK), Load16(p, udp + UDP_DEST), port);
  }

  /** When the generated rewrite makes a corrupt datagram acceptable: exactly when it erases its checksum. */
  lemma PortMasksCorruptionIff(p: seq<byte>, ip: nat, udp: nat, port: u16)
    requires Framed(p, ip, udp) && !UdpChecksumOk(p, ip, udp)
    ensures var c: int, dest: int := Load16(p, udp + UDP_CHECK), Load16(p, udp + UDP_DEST);
            var r := Rewritten(p, ip, udp, port, NO_ADDRESS);
            && Framed(r, ip, udp)
            && (UdpChecksumOk(r, ip, udp) <==>
                dest != port && (c + dest - port) % 0xffff == 0 && !(c == 0xffff && dest == 0xffff && port == 0))
  {
    hide Load16, Replace, WithPort, Framed, IpChecksumOk, ChecksumOk;
    RewriteKeepsChecksums(p, ip, udp, port, NO_ADDRESS);
    PortErasesChecksumIff(p, ip, udp, port);
  }

  /** The generated call passes no address: only the port and the UDP checksum can change. */
  lemma PortOnlyFrame(p: seq<byte>, ip: nat, udp: nat, port: u16, i: nat)
    requires ip + 20 <= udp && udp + 8 <= |p| && i < |p|
    requires !(udp + UDP_DEST <= i < udp + UDP_DEST + 2) && !(udp + UDP_CHECK <= i < udp + UDP_CHECK + 2)
    ensures Rewritten(p, ip, udp, port, NO_ADDRESS)[i] == p[i]
  {
  }

  /** The rewrite of the port depends on nothing but the UDP header. */
  lemma PortRewriteIgnoresPayload(p: seq<byte>, p': seq<byte>, ip: nat, udp: nat, port: u16)
    requires |p| == |p'| && ip + 20 <= udp && udp + 8 <= |p|
    requires forall i :: udp <= i < udp + 8 ==> p[i] == p'[i]
    ensures var r, r' := Rewritten(p, ip, udp, port, NO_ADDRESS), Rewritten(p', ip, udp, port, NO_ADDRESS);
            forall i :: 0 <= i < |p| ==>
              (r[i] == p[i] && r'[i] == p'[i]) || (udp <= i < udp + 8 && r[i] == r'[i])
  {
    hide Replace;
  }
}
