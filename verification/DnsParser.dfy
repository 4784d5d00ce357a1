/** The data plane's bounded, one-pass question parser. */
module DnsParser {
  import opened Bytes
  import opened DnsQuestion
  import Fnv

  /** Iterations of the label loop: one of them must see the terminator. */
  const LABEL_ITERATIONS := 32

  class QueryMeta {
    var qnameHash: bv64
    var dnsId: u16
    var qtype: u16
    var qclass: u16
    var opcode: nat
    var truncated: bool
    var labelDepth: nat
    var qnameLen: nat
    const qname: array<byte>

    ghost predicate Valid()
      reads this, qname
    {
      qname.Length == MAX_NAME + 1 && qnameLen <= MAX_NAME && qnameHash == Fnv.Hash(Name())
    }

    ghost function Name(): seq<byte>
      requires qname.Length == MAX_NAME + 1 && qnameLen <= MAX_NAME
      reads this, qname
    {
      qname[..qnameLen]
    }

    ghost function Value(): Query
      requires Valid()
      reads this, qname
    {
      Query(qnameHash, dnsId, qtype, qclass, opcode, truncated, labelDepth, Name())
    }

    constructor ()
      ensures Valid() && fresh(this) && fresh(qname)
    {
      qname := new byte[MAX_NAME + 1](_ => 0);
      qnameLen := 0;
      qnameHash := Fnv.OFFSET;
      dnsId, qtype, qclass, opcode, truncated, labelDepth := 0, 0, 0, 0, false, 0;
    }

    /** An empty name. */
    method Clear()
      requires qname.Length == MAX_NAME + 1
      modifies this`qnameLen, this`qnameHash, this`labelDepth
      ensures Valid() && qnameLen == 0 && labelDepth == 0
    {
      qnameLen, qnameHash, labelDepth := 0, Fnv.OFFSET, 0;
    }

    /** Stores one byte of the name and steps the hash, unless the name is full. */
    method Append(c: byte) returns (ok: bool)
      requires Valid()
      modifies this`qnameLen, this`qnameHash, qname
      ensures Valid()
      ensures ok == (old(qnameLen) < MAX_NAME)
      ensures Name() == old(Name()) + if ok then [c] else []
    {
      hide Fnv.Step;
      ok := qnameLen < MAX_NAME;
      if ok {
        Fnv.HashAppend(Fnv.OFFSET, Name(), c);
        qname[qnameLen] := c;
        qnameLen := qnameLen + 1;
        qnameHash := Fnv.Step(qnameHash, c);
        assert Name() == old(Name()) + [c];
      } else {
        assert Name() == old(Name()) + [];
      }
    }

    /** Copies len bytes, lowercased. */
    method CopyLowered(packet: array<byte>, cursor: nat, len: nat) returns (ok: bool)
      requires Valid() && cursor + len <= packet.Length && len <= MAX_LABEL_LEN
      requires packet != qname
      modifies this`qnameLen, this`qnameHash, qname
      ensures Valid()
      ensures ok == (old(qnameLen) + len <= MAX_NAME)
      ensures ok ==> Name() == old(Name()) + LowerAll(packet[cursor..cursor + len])
    {
      hide Fnv.Hash;
      ghost var start := Name();
      var j := 0;
      while j < MAX_LABEL_LEN
        invariant Valid()
        invariant 0 <= j <= len
        invariant Name() == start + LowerAll(packet[cursor..cursor + j])
      {
        if j >= len {
          break;
        }
        ghost var before := packet[cursor..cursor + j];
        ok := Append(Lower(packet[cursor + j]));
        if !ok {
          return;
        }
        assert LowerAll(packet[cursor..cursor + j + 1]) == LowerAll(before) + [Lower(packet[cursor + j])];
        j := j + 1;
      }
      ok := true;
    }

    /** A separating dot if the label is not the first, then the label. */
    method AppendLabel(packet: array<byte>, cursor: nat, len: nat) returns (ok: bool)
      requires Valid() && cursor + len <= packet.Length && 0 < len <= MAX_LABEL_LEN
      requires packet != qname
      modifies this`qnameLen, this`qnameHash, qname
      ensures Valid()
      ensures ok == (|NameWith(old(Name()), labelDepth, packet[cursor..cursor + len])| <= MAX_NAME)
      ensures ok ==> Name() == NameWith(old(Name()), labelDepth, packet[cursor..cursor + len])
    {
      hide Fnv.Hash;
      if labelDepth > 0 {
        ok := Append(DOT);
        if !ok {
          return;
        }
      }
      ok := CopyLowered(packet, cursor, len);
    }

  }

  /** The walk has read the labels done, stands at off and has built name. */
  ghost predicate Walking(s: seq<byte>, done: seq<seq<byte>>, off: nat, name: seq<byte>) {
    && AreLabels(done)
    && Wire(done) <= s
    && off == |Wire(done)|
    && name == CanonicalName(done)
    && |name| <= MAX_NAME
    && Candidate(s, done)
  }

  lemma WalkingContinues(s: seq<byte>, done: seq<seq<byte>>, off: nat, name: seq<byte>, l: seq<byte>)
    requires Walking(s, done, off, name)
    requires off < |s| && 0 < s[off] <= MAX_LABEL_LEN && off + 1 + s[off] <= |s|
    requires l == s[off + 1..off + 1 + s[off]]
    requires |NameWith(name, |done|, l)| <= MAX_NAME
    ensures Walking(s, done + [l], off + 1 + s[off], NameWith(name, |done|, l))
  {
    hide Candidate, NameWith, CanonicalName;
    CanonicalStep(done, l);
    CandidateExtends(s, done, off, l);
    WireAppend(done, l);
    assert s[..off + 1 + |l|] == s[..off] + [s[off]] + l;
  }

  /** Every rejection is justified. */
  lemma WalkingRejects(s: seq<byte>, done: seq<seq<byte>>, off: nat, name: seq<byte>)
    requires Walking(s, done, off, name)
    requires || off >= |s|
             || |done| > MAX_LABELS
             || s[off] > MAX_LABEL_LEN
             || (s[off] == 0 && (name == [] || off + 5 > |s|))
             || (s[off] > 0 && off + 1 + s[off] > |s|)
             || (s[off] > 0 && |NameWith(name, |done|, s[off + 1..off + 1 + s[off]])| > MAX_NAME)
    ensures forall ls :: !IsQuestion(s, ls)
  {
    if off < |s| && s[off] > 0 && off + 1 + s[off] <= |s| {
      CanonicalStep(done, s[off + 1..off + 1 + s[off]]);
    }
    assert name == [] ==> done == [];
    RefutedHasNoQuestion(s, done);
  }

  lemma WalkingAccepts(s: seq<byte>, done: seq<seq<byte>>, off: nat, name: seq<byte>)
    requires Walking(s, done, off, name) && |done| <= MAX_LABELS && name != []
    requires off + 5 <= |s| && s[off] == 0
    ensures IsQuestion(s, done) && |Encode(done)| == off + 1 && name == CanonicalName(done)
  {
    assert done != [];
    assert Encode(done) <= s;
  }

  lemma SubSlice(p: seq<byte>, lo: nat, hi: nat, a: nat, b: nat)
    requires lo <= a <= b <= hi <= |p|
    ensures p[lo..hi][a - lo..b - lo] == p[a..b]
  {
    forall i | 0 <= i < b - a
      ensures p[lo..hi][a - lo..b - lo][i] == p[a..b][i]
    {
      assert p[lo..hi][a - lo + i] == p[a + i];
    }
  }

  datatype Step = More | Ended | Failed

  /** One iteration of the label loop: read a length, then copy the label it announces. */
  method ReadLabel(
    meta: QueryMeta, packet: array<byte>, start: nat, dnsEnd: nat, cursor: nat, ghost done: seq<seq<byte>>)
    returns (step: Step, next: nat, ghost l: seq<byte>)
    requires meta.Valid() && meta.labelDepth == |done|
    requires start <= cursor <= dnsEnd <= packet.Length && packet != meta.qname
    requires Walking(packet[start..dnsEnd], done, cursor - start, meta.Name())
    modifies meta`qnameLen, meta`qnameHash, meta`labelDepth, meta.qname
    ensures meta.Valid()
    ensures step.Failed? ==> forall ls :: !IsQuestion(packet[start..dnsEnd], ls)
    ensures step.Ended? ==> next == cursor < dnsEnd && packet[cursor] == 0 && meta.labelDepth == |done|
    ensures step.Ended? ==> meta.Name() == old(meta.Name())
    ensures step.More? ==> cursor < next <= dnsEnd && meta.labelDepth == |done| + 1
    ensures step.More? ==> Walking(packet[start..dnsEnd], done + [l], next - start, meta.Name())
  {
    hide Fnv.Hash, Walking, IsQuestion, NameWith;
    ghost var s := packet[start..dnsEnd];
    next, l := cursor, [];
    if cursor + 1 > dnsEnd {
      WalkingRejects(s, done, cursor - start, meta.Name());
      return Failed, next, l;
    }
    var len := packet[cursor];
    assert len == s[cursor - start];
    if len == 0 {
      return Ended, next, l;
    }
    if len / 64 != 0 || len > MAX_LABEL_LEN || cursor + 1 + len > dnsEnd {
      WalkingRejects(s, done, cursor - start, meta.Name());
      return Failed, next, l;
    }
    l := packet[cursor + 1..cursor + 1 + len];
    SubSlice(packet[..], start, dnsEnd, cursor + 1, cursor + 1 + len);
    ghost var name := meta.Name();
    var copied := meta.AppendLabel(packet, cursor + 1, len);
    if !copied {
      WalkingRejects(s, done, cursor - start, name);
      return Failed, next, l;
    }
    WalkingContinues(s, done, cursor - start, name, l);
    meta.labelDepth := meta.labelDepth + 1;
    step, next := More, cursor + 1 + len;
  }

  /** The label walk from the start of the question; on success end is the index after the terminator. */
  method WalkLabels(meta: QueryMeta, packet: array<byte>, start: nat, dnsEnd: nat)
    returns (ok: bool, end: nat, ghost done: seq<seq<byte>>)
    requires meta.Valid() && meta.qnameLen == 0 && meta.labelDepth == 0
    requires start <= dnsEnd <= packet.Length && packet != meta.qname
    modifies meta`qnameLen, meta`qnameHash, meta`labelDepth, meta.qname
    ensures meta.Valid()
    ensures ok ==> end + 4 <= dnsEnd && IsQuestion(packet[start..dnsEnd], done) && end == start + |Encode(done)|
    ensures ok ==> meta.Name() == CanonicalName(done) && meta.labelDepth == |done|
    ensures !ok ==> forall ls :: !IsQuestion(packet[start..dnsEnd], ls)
  {
    hide Fnv.Hash, Walking, IsQuestion, Encode, CanonicalName;
    ghost var s := packet[start..dnsEnd];
    var cursor := start;
    var round := 0;
    var ended := false;
    done := [];
    end := start;
    WalkingStarts(s);
    while round < LABEL_ITERATIONS
      invariant 0 <= round <= LABEL_ITERATIONS && round == |done| == meta.labelDepth
      invariant meta.Valid() && start <= cursor <= dnsEnd
      invariant Walking(s, done, cursor - start, meta.Name())
    {
      var step, next;
      ghost var l;
      step, next, l := ReadLabel(meta, packet, start, dnsEnd, cursor, done);
      if step.Failed? {
        return false, end, done;
      }
      if step.Ended? {
        ended := true;
        break;
      }
      done := done + [l];
      cursor := next;
      round := round + 1;
    }
    if !ended || meta.qnameLen == 0 || cursor + 1 + 4 > dnsEnd {
      WalkingRejects(s, done, cursor - start, meta.Name());
      return false, end, done;
    }
    WalkingAccepts(s, done, cursor - start, meta.Name());
    ok, end := true, cursor + 1;
  }

  lemma WalkingStarts(s: seq<byte>)
    ensures Walking(s, [], 0, [])
  {
  }

  lemma Unparsed(p: seq<byte>, udp: nat)
    requires HeaderOk(p, udp) ==> forall ls :: !IsQuestion(QuestionBytes(p, udp), ls)
    ensures Parsed(p, udp) == None
  {
  }

  /** The fields of a parsed query, read at their places in the packet. */
  lemma ParsedFields(p: seq<byte>, udp: nat, ls: seq<seq<byte>>, end: nat)
    requires HeaderOk(p, udp) && IsQuestion(QuestionBytes(p, udp), ls)
    requires end == udp + QUESTION_OFFSET + |Encode(ls)|
    ensures end + 4 <= |p|
    ensures Parsed(p, udp) == Some(
      Query(Fnv.Hash(CanonicalName(ls)), Be16(p, udp + 8), Be16(p, end), Be16(p, end + 2),
            Be16(p, udp + 10) / 2048 % 16, Be16(p, udp + 10) / 512 % 2 == 1, |ls|, CanonicalName(ls)))
  {
    hide Fnv.Hash, CanonicalName;
    EncodedIsParsed(p, udp, ls);
  }

  /** Reads stay below the packet end; the outcome is the one the wire format dictates, both ways. */
  method ParseDnsQuery(packet: array<byte>, udp: nat, meta: QueryMeta) returns (ok: bool)
    requires meta.Valid() && packet != meta.qname
    modifies meta, meta.qname
    ensures meta.Valid()
    ensures ok == Parsed(packet[..], udp).Some?
    ensures ok ==> Some(meta.Value()) == Parsed(packet[..], udp)
  {
    hide Fnv.Hash, Parsed, IsQuestion, Encode, CanonicalName, AreLabels;
    ghost var p := packet[..];
    Rejections(p, udp);
    if udp + QUESTION_OFFSET > packet.Length {
      return false;
    }
    var dnsEnd := udp + Be16(packet[..], udp + 4);
    if dnsEnd > packet.Length || dnsEnd < udp + QUESTION_OFFSET + 5 {
      return false;
    }
    var flags := Be16(packet[..], udp + 10);
    if flags / 32768 % 2 != 0 || Be16(packet[..], udp + 12) == 0 {
      return false;
    }

    meta.dnsId := Be16(packet[..], udp + 8);
    meta.opcode := flags / 2048 % 16;
    meta.truncated := flags / 512 % 2 == 1;
    meta.Clear();

    var walked, end;
    ghost var done;
    walked, end, done := WalkLabels(meta, packet, udp + QUESTION_OFFSET, dnsEnd);
    assert QuestionBytes(p, udp) == packet[udp + QUESTION_OFFSET..dnsEnd];
    if !walked {
      Unparsed(p, udp);
      return false;
    }
    ParsedFields(p, udp, done, end);
    meta.qtype := Be16(packet[..], end);
    meta.qclass := Be16(packet[..], end + 2);
    meta.qname[meta.qnameLen] := 0;
    assert meta.Name() == CanonicalName(done);
    ok := true;
  }

  lemma Rejections(p: seq<byte>, udp: nat)
    ensures !HeaderOk(p, udp) ==> Parsed(p, udp) == None
  {
  }
}
