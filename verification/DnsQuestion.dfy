/**
 * The wire format of a DNS question (sections 3.1, 4.1.1 and 4.1.2 of RFC 1035), given by an encoder,
 * and what the data plane is to extract from it.
 */
module DnsQuestion {
  import opened Bytes
  import Fnv

  const MAX_LABEL_LEN := 63
  const MAX_LABELS := 31

  /** The question section starts after the UDP header (8 bytes) and the DNS header (12 bytes). */
  const QUESTION_OFFSET := 20

  predicate AreLabels(ls: seq<seq<byte>>) {
    forall i :: 0 <= i < |ls| ==> 1 <= |ls[i]| <= MAX_LABEL_LEN
  }

  /** Length-prefixed labels, without the terminator. */
  function Wire(ls: seq<seq<byte>>): seq<byte>
    requires AreLabels(ls)
  {
    if ls == [] then [] else Wire(ls[..|ls| - 1]) + [|ls[|ls| - 1]|] + ls[|ls| - 1]
  }

  function Encode(ls: seq<seq<byte>>): seq<byte>
    requires AreLabels(ls)
  {
    Wire(ls) + [0]
  }

  /** The labels joined by dots. */
  function Dotted(ls: seq<seq<byte>>): seq<byte> {
    if ls == [] then []
    else if |ls| == 1 then ls[0]
    else Dotted(ls[..|ls| - 1]) + [DOT] + ls[|ls| - 1]
  }

  function CanonicalName(ls: seq<seq<byte>>): seq<byte> {
    LowerAll(Dotted(ls))
  }

  /** s starts with the encoding of ls, is followed by type and class, and obeys the limits. */
  predicate IsQuestion(s: seq<byte>, ls: seq<seq<byte>>) {
    && 1 <= |ls| <= MAX_LABELS
    && AreLabels(ls)
    && |Dotted(ls)| <= MAX_NAME
    && |Encode(ls)| + 4 <= |s|
    && Encode(ls) <= s
  }

  datatype Query = Query(
    hash: bv64, id: u16, qtype: u16, qclass: u16, opcode: nat, truncated: bool, depth: nat, name: seq<byte>)

  function UdpLength(p: seq<byte>, udp: nat): u16
    requires udp + QUESTION_OFFSET <= |p|
  {
    Be16(p, udp + 4)
  }

  /** Both headers present, the UDP length inside the packet, QR clear and at least one question. */
  predicate HeaderOk(p: seq<byte>, udp: nat) {
    && udp + QUESTION_OFFSET <= |p|
    && udp + UdpLength(p, udp) <= |p|
    && UdpLength(p, udp) >= QUESTION_OFFSET + 5
    && p[udp + 10] < 128
    && Be16(p, udp + 12) != 0
  }

  /** The bytes from the question name to the end given by the UDP length. */
  function QuestionBytes(p: seq<byte>, udp: nat): seq<byte>
    requires HeaderOk(p, udp)
  {
    p[udp + QUESTION_OFFSET..udp + UdpLength(p, udp)]
  }

  function QueryOf(p: seq<byte>, udp: nat, ls: seq<seq<byte>>): Query
    requires HeaderOk(p, udp) && IsQuestion(QuestionBytes(p, udp), ls)
  {
    var s, n := QuestionBytes(p, udp), |Encode(ls)|;
    var flags := Be16(p, udp + 10);
    var name := CanonicalName(ls);
    Query(Fnv.Hash(name), Be16(p, udp + 8), Be16(s, n), Be16(s, n + 2),
          flags / 2048 % 16, flags / 512 % 2 == 1, |ls|, name)
  }

  /** What parsing must return: the unique question, if there is one. */
  ghost function Parsed(p: seq<byte>, udp: nat): Option<Query> {
    if HeaderOk(p, udp) && exists ls :: IsQuestion(QuestionBytes(p, udp), ls) then
      var ls :| IsQuestion(QuestionBytes(p, udp), ls);
      Some(QueryOf(p, udp, ls))
    else
      None
  }

  lemma {:induction false} WirePrefix(ls: seq<seq<byte>>, k: nat)
    requires AreLabels(ls) && k <= |ls|
    ensures Wire(ls[..k]) <= Wire(ls)
    decreases |ls| - k
  {
    if k == |ls| {
      assert ls[..k] == ls;
    } else {
      assert ls[..k + 1][..k] == ls[..k];
      WirePrefix(ls, k + 1);
    }
  }

  lemma {:induction false} DottedGrows(ls: seq<seq<byte>>, k: nat)
    requires k <= |ls|
    ensures |Dotted(ls[..k])| <= |Dotted(ls)|
    decreases |ls| - k
  {
    if k == |ls| {
      assert ls[..k] == ls;
    } else {
      assert ls[..k + 1][..k] == ls[..k];
      DottedGrows(ls, k + 1);
    }
  }

  lemma WireStep(ls: seq<seq<byte>>, k: nat)
    requires AreLabels(ls) && k < |ls|
    ensures Wire(ls[..k + 1]) == Wire(ls[..k]) + [|ls[k]|] + ls[k]
  {
    assert ls[..k + 1][..k] == ls[..k];
  }

  /** The byte after a known prefix of labels is a length or the terminator. */
  lemma NextByte(s: seq<byte>, ls: seq<seq<byte>>, k: nat)
    requires AreLabels(ls) && Encode(ls) <= s && k <= |ls|
    ensures |Wire(ls[..k])| < |s|
    ensures s[|Wire(ls[..k])|] == if k == |ls| then 0 else |ls[k]|
  {
    if k == |ls| {
      assert ls[..k] == ls;
      assert Encode(ls)[|Wire(ls)|] == 0;
    } else {
      WireStep(ls, k);
      WirePrefix(ls, k + 1);
      var w := Wire(ls[..k + 1]);
      assert w[|Wire(ls[..k])|] == |ls[k]|;
      assert w <= Encode(ls);
    }
  }

  /** ... and a length is followed by its label. */
  lemma NextLabel(s: seq<byte>, ls: seq<seq<byte>>, k: nat)
    requires AreLabels(ls) && Encode(ls) <= s && k < |ls|
    ensures var off := |Wire(ls[..k])|;
            off + 1 + |ls[k]| <= |s| && s[off + 1..off + 1 + |ls[k]|] == ls[k]
  {
    WireStep(ls, k);
    WirePrefix(ls, k + 1);
    var off, w := |Wire(ls[..k])|, Wire(ls[..k + 1]);
    assert w <= Encode(ls);
    assert w[off + 1..] == ls[k];
    assert s[..|w|] == w;
    assert s[off + 1..|w|] == s[..|w|][off + 1..];
  }

  lemma NextBytes(s: seq<byte>, ls: seq<seq<byte>>, done: seq<seq<byte>>)
    requires AreLabels(ls) && Encode(ls) <= s && done <= ls
    ensures AreLabels(done) && |Wire(done)| < |s|
    ensures |ls| == |done| ==> s[|Wire(done)|] == 0
    ensures |ls| > |done| ==>
              var off, l := |Wire(done)|, ls[|done|];
              s[off] == |l| && off + 1 + |l| <= |s| && s[off + 1..off + 1 + |l|] == l
  {
    assert ls[..|done|] == done;
    NextByte(s, ls, |done|);
    if |ls| > |done| {
      NextLabel(s, ls, |done|);
    }
  }

  /** Every question of s starts with the labels already read. */
  ghost predicate Candidate(s: seq<byte>, done: seq<seq<byte>>) {
    forall ls :: IsQuestion(s, ls) ==> done <= ls
  }

  lemma PrefixExtends(s: seq<byte>, ls: seq<seq<byte>>, done: seq<seq<byte>>, off: nat, l: seq<byte>)
    requires IsQuestion(s, ls) && AreLabels(done) && done <= ls
    requires off == |Wire(done)| < |s| && s[off] > 0 && off + 1 + s[off] <= |s|
    requires l == s[off + 1..off + 1 + s[off]]
    ensures done + [l] <= ls
  {
    NextBytes(s, ls, done);
  }

  lemma CandidateExtends(s: seq<byte>, done: seq<seq<byte>>, off: nat, l: seq<byte>)
    requires AreLabels(done) && Candidate(s, done)
    requires off == |Wire(done)| < |s| && s[off] > 0 && off + 1 + s[off] <= |s|
    requires l == s[off + 1..off + 1 + s[off]]
    ensures Candidate(s, done + [l])
  {
    hide IsQuestion;
    forall ls | IsQuestion(s, ls)
      ensures done + [l] <= ls
    {
      PrefixExtends(s, ls, done, off, l);
    }
  }

  /** Why each rejection of the walk is justified. */
  predicate Refuted(s: seq<byte>, done: seq<seq<byte>>)
    requires AreLabels(done)
  {
    var off := |Wire(done)|;
    || off >= |s|
    || |done| > MAX_LABELS
    || s[off] > MAX_LABEL_LEN
    || (s[off] == 0 && (done == [] || off + 5 > |s|))
    || (s[off] > 0 && off + 1 + s[off] > |s|)
    || (s[off] > 0 && |Dotted(done + [s[off + 1..off + 1 + s[off]]])| > MAX_NAME)
  }

  lemma QuestionNotRefuted(s: seq<byte>, ls: seq<seq<byte>>, done: seq<seq<byte>>)
    requires IsQuestion(s, ls) && AreLabels(done) && done <= ls
    ensures !Refuted(s, done)
  {
    NextBytes(s, ls, done);
    if |ls| == |done| {
      assert ls == done;
    } else {
      DottedGrows(ls, |done| + 1);
      assert ls[..|done| + 1] == done + [ls[|done|]];
    }
  }

  lemma RefutedHasNoQuestion(s: seq<byte>, done: seq<seq<byte>>)
    requires AreLabels(done) && Candidate(s, done) && Refuted(s, done)
    ensures forall ls :: !IsQuestion(s, ls)
  {
    forall ls | IsQuestion(s, ls)
      ensures false
    {
      QuestionNotRefuted(s, ls, done);
    }
  }

  /** The encoding is prefix-free, so a question determines its labels. */
  lemma {:induction false} QuestionsAgree(s: seq<byte>, a: seq<seq<byte>>, b: seq<seq<byte>>, k: nat)
    requires IsQuestion(s, a) && IsQuestion(s, b) && k <= |a|
    ensures k <= |b| && a[..k] == b[..k]
  {
    if k > 0 {
      QuestionsAgree(s, a, b, k - 1);
      NextBytes(s, a, a[..k - 1]);
      NextBytes(s, b, a[..k - 1]);
      assert a[..k] == a[..k - 1] + [a[k - 1]];
    }
  }

  lemma QuestionUnique(s: seq<byte>, a: seq<seq<byte>>, b: seq<seq<byte>>)
    requires IsQuestion(s, a) && IsQuestion(s, b)
    ensures a == b
  {
    QuestionsAgree(s, a, b, |a|);
    QuestionsAgree(s, b, a, |b|);
  }

  /** A packet that carries an encoded question parses to that question. */
  lemma EncodedIsParsed(p: seq<byte>, udp: nat, ls: seq<seq<byte>>)
    requires HeaderOk(p, udp) && IsQuestion(QuestionBytes(p, udp), ls)
    ensures Parsed(p, udp) == Some(QueryOf(p, udp, ls))
  {
    forall ls' | IsQuestion(QuestionBytes(p, udp), ls')
      ensures ls' == ls
    {
      QuestionUnique(QuestionBytes(p, udp), ls', ls);
    }
  }

  /** Both directions: a packet parses to q exactly when it carries the encoding of labels that make q. */
  lemma ParsedIffEncoded(p: seq<byte>, udp: nat, q: Query)
    ensures Parsed(p, udp) == Some(q) <==>
            HeaderOk(p, udp) && exists ls :: IsQuestion(QuestionBytes(p, udp), ls) && QueryOf(p, udp, ls) == q
  {
    hide IsQuestion, QueryOf;
    if HeaderOk(p, udp) {
      forall ls | IsQuestion(QuestionBytes(p, udp), ls)
        ensures Parsed(p, udp) == Some(QueryOf(p, udp, ls))
      {
        EncodedIsParsed(p, udp, ls);
      }
    }
  }

  /** The canonical name once label l is added to a name of the given depth. */
  function NameWith(name: seq<byte>, depth: nat, l: seq<byte>): seq<byte> {
    name + (if depth > 0 then [DOT] else []) + LowerAll(l)
  }

  lemma CanonicalStep(done: seq<seq<byte>>, l: seq<byte>)
    ensures CanonicalName(done + [l]) == NameWith(CanonicalName(done), |done|, l)
  {
    assert (done + [l])[..|done|] == done;
    if done == [] {
      assert CanonicalName(done) == [];
    } else {
      assert Dotted(done + [l]) == Dotted(done) + [DOT] + l;
    }
  }

  lemma WireAppend(done: seq<seq<byte>>, l: seq<byte>)
    requires AreLabels(done) && 1 <= |l| <= MAX_LABEL_LEN
    ensures AreLabels(done + [l]) && Wire(done + [l]) == Wire(done) + [|l|] + l
  {
    assert (done + [l])[..|done|] == done;
  }
}
