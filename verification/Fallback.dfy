/** What the suffix fallback takes, against what is documented: the subdomains of the configured domain. */
module Fallback {
  import opened Bytes
  import opened DnsQuestion
  import opened Labels
  import opened DomainHash
  import opened Filters
  import opened QueryFrame
  import Fnv

  lemma ParsedNameIsLower(p: seq<byte>, udp: nat)
    requires Parsed(p, udp).Some?
    ensures LowerAll(Parsed(p, udp).value.name) == Parsed(p, udp).value.name
  {
    var ls :| IsQuestion(QuestionBytes(p, udp), ls);
    EncodedIsParsed(p, udp, ls);
    LowerTwice(Dotted(ls));
  }

  lemma LowerTwice(s: seq<byte>)
    ensures LowerAll(LowerAll(s)) == LowerAll(s)
  {
  }

  lemma SuffixOfLower(d: seq<byte>, name: seq<byte>)
    requires LowerAll(name) == name && IsSuffix(d, name)
    ensures LowerAll(d) == d
  {
    forall k | 0 <= k < |d|
      ensures Lower(d[k]) == d[k]
    {
      assert name[|name| - |d|..][k] == name[|name| - |d| + k];
      assert LowerAll(name)[|name| - |d| + k] == name[|name| - |d| + k];
    }
  }

  /** A name that ends in m and in m followed by a dot: m is made of dots. */
  lemma {:induction false} OverlappingSuffixes(m: seq<byte>, name: seq<byte>, k: nat)
    requires IsSuffix(m, name) && IsSuffix(m + [DOT], name) && k < |m|
    ensures m[k] == DOT
    decreases |m| - k
  {
    var n, d := |name|, m + [DOT];
    assert name[n - |m|..][k] == name[n - |m| + k];
    assert name[n - |d|..][k + 1] == name[n - |d| + k + 1] == d[k + 1];
    if k + 1 < |m| {
      OverlappingSuffixes(m, name, k + 1);
    }
  }

  lemma TrailingDotNeverMatches(name: seq<byte>, domain: seq<byte>)
    requires domain != [] && domain[|domain| - 1] == DOT && LowerAll(domain) == domain && |domain| <= MAX_NAME
    requires IsSuffix(Normalized(domain), name)
    requires exists k :: 0 <= k < |domain| && domain[k] != DOT
    ensures !IsSuffix(domain, name)
  {
    var m := domain[..|domain| - 1];
    assert domain == m + [DOT];
    assert LowerAll(m) == m by {
      LowerAllConcat(m, [DOT]);
      assert LowerAll(domain)[..|m|] == LowerAll(m);
    }
    var k :| 0 <= k < |domain| && domain[k] != DOT;
    if IsSuffix(domain, name) {
      OverlappingSuffixes(m, name, k);
    }
  }

  // The domain as written.

  /**
   * The documented fallback for subdomains compares query names with the domain as it was written. For a name that
   * does end in the normalised domain, it works exactly when the domain was written normalised and is short enough.
   */
  lemma FallbackNeedsCanonicalDomain(name: seq<byte>, domain: seq<byte>)
    requires LowerAll(name) == name && |domain| <= MAX_NAME
    requires IsSuffix(Normalized(domain), name)
    requires exists k :: 0 <= k < |domain| && domain[k] != DOT
    ensures SuffixOk(name, domain) <==> domain == Normalized(domain) && |domain| < MATCH_LIMIT
  {
    if SuffixOk(name, domain) {
      SuffixOfLower(domain, name);
      if domain[|domain| - 1] == DOT {
        TrailingDotNeverMatches(name, domain);
      }
    }
  }

  /** So a route whose domain is written with a capital letter gets no subdomain traffic at all. */
  lemma CapitalDomainGetsNoSubdomains(p: seq<byte>, udp: nat, domain: seq<byte>)
    requires Parsed(p, udp).Some? && LowerAll(domain) != domain
    ensures !SuffixOk(Parsed(p, udp).value.name, domain)
  {
    ParsedNameIsLower(p, udp);
    if IsSuffix(domain, Parsed(p, udp).value.name) {
      SuffixOfLower(domain, Parsed(p, udp).value.name);
    }
    assert LowerAll([]) == [];
  }

  // Labels.

  /** The labels of a configured domain, up to case; one trailing dot is the root. */
  function DomainLabels(domain: seq<byte>): seq<seq<byte>> {
    LowerLabels(Split(Undotted(domain)))
  }

  /** The domain itself or a subdomain of it: the last labels are the domain's, up to case. */
  predicate Below(ls: seq<seq<byte>>, domain: seq<byte>) {
    exists k :: 0 <= k < |ls| && LowerLabels(ls[k..]) == DomainLabels(domain)
  }

  /** Some label starts at this place of the dotted name. */
  predicate StartsLabel(ls: seq<seq<byte>>, at: nat) {
    exists k :: 0 <= k < |ls| && LabelStart(ls, k) == at
  }

  /** Some label that starts there or later contains a dot byte. */
  predicate DotFrom(ls: seq<seq<byte>>, at: nat) {
    exists k :: 0 <= k < |ls| && LabelStart(ls, k) >= at && DOT in ls[k]
  }

  lemma LowerLabelsTwice(ls: seq<seq<byte>>)
    ensures LowerLabels(LowerLabels(ls)) == LowerLabels(ls)
  {
    forall i | 0 <= i < |ls|
      ensures LowerAll(LowerAll(ls[i])) == LowerAll(ls[i])
    {
      LowerTwice(ls[i]);
    }
  }

  /** The name of the last labels, when they are those of the domain. */
  lemma BelowName(ls: seq<seq<byte>>, domain: seq<byte>, k: nat)
    requires k < |ls| && LowerLabels(ls[k..]) == DomainLabels(domain)
    ensures DotFree(ls[k..]) && CanonicalName(ls[k..]) == LowerAll(Undotted(domain))
  {
    var pieces := Split(Undotted(domain));
    SplitPieces(Undotted(domain));
    LowerKeepsDots(pieces);
    LowerKeepsDots(ls[k..]);
    CanonicalIsDottedLower(ls[k..]);
    CanonicalIsDottedLower(pieces);
  }

  lemma LastByte(ls: seq<seq<byte>>)
    requires ls != [] && AreLabels(ls)
    ensures var name, l := CanonicalName(ls), ls[|ls| - 1];
            |name| > 0 && name[|name| - 1] == Lower(l[|l| - 1])
  {
  }

  /** A match that begins with a label and has no dot inside a label is a match of whole labels. */
  lemma CleanMatchIsBelow(ls: seq<seq<byte>>, domain: seq<byte>, k: nat)
    requires AreLabels(ls) && k < |ls| && DotFree(ls[k..]) && CanonicalName(ls[k..]) == domain
    ensures Below(ls, domain)
  {
    hide CanonicalName, Split;
    var rest := ls[k..];
    NameSplitsIffDotFree(rest);
    LastByte(rest);
    assert rest[|rest| - 1] == ls[|ls| - 1];
    var l := rest[|rest| - 1];
    assert l[|l| - 1] in l && l[|l| - 1] != DOT;
    assert Undotted(domain) == domain;
    LowerLabelsTwice(rest);
    assert LowerLabels(ls[k..]) == DomainLabels(domain);
  }

  /** A suffix that names labels of the question starts where they start. */
  lemma BelowStart(ls: seq<seq<byte>>, domain: seq<byte>, k: nat)
    requires AreLabels(ls) && k < |ls| && LowerLabels(ls[k..]) == DomainLabels(domain)
    requires domain != [] && IsSuffix(domain, CanonicalName(ls))
    ensures LabelStart(ls, k) == |CanonicalName(ls)| - |domain| && DotFree(ls[k..])
  {
    var name := CanonicalName(ls);
    BelowName(ls, domain, k);
    LastByte(ls);
    var l := ls[|ls| - 1];
    assert ls[k..][|ls| - 1 - k] == l;
    assert l[|l| - 1] in l && l[|l| - 1] != DOT;
    assert name[|name| - |domain|..][|domain| - 1] == name[|name| - 1];
    assert Undotted(domain) == domain;
    NameAt(ls, k);
  }

  lemma DotFromIff(ls: seq<seq<byte>>, k: nat)
    requires k < |ls|
    ensures DotFrom(ls, LabelStart(ls, k)) <==> !DotFree(ls[k..])
  {
    if DotFrom(ls, LabelStart(ls, k)) {
      var j :| 0 <= j < |ls| && LabelStart(ls, j) >= LabelStart(ls, k) && DOT in ls[j];
      if j < k {
        StartsGrow(ls, j, k);
      }
      assert ls[k..][j - k] == ls[j];
    }
    if !DotFree(ls[k..]) {
      var i :| 0 <= i < |ls[k..]| && DOT in ls[k..][i];
      assert ls[k..][i] == ls[k + i];
      if i > 0 {
        StartsGrow(ls, k, k + i);
      }
      assert LabelStart(ls, k + i) >= LabelStart(ls, k);
    }
  }

  /**
   * The fallback compares bytes, not labels. It takes a name that is not at or below the domain exactly when the
   * domain is a byte suffix that follows some other byte than a dot, or follows a dot byte inside a label, or
   * begins with a label and runs over a dot byte inside a label.
   */
  lemma FallbackIgnoresLabelBoundaries(ls: seq<seq<byte>>, domain: seq<byte>)
    requires ls != [] && AreLabels(ls) && 0 < |domain| < MATCH_LIMIT
    ensures var name := CanonicalName(ls);
            SuffixOk(name, domain) && !Below(ls, domain) <==>
            && IsSuffix(domain, name)
            && var at := |name| - |domain|;
               || (at > 0 && name[at - 1] != DOT)
               || (at > 0 && name[at - 1] == DOT && !StartsLabel(ls, at))
               || (StartsLabel(ls, at) && DotFrom(ls, at))
  {
    hide DotFree, LabelStart, DotFrom, CanonicalName;
    var name := CanonicalName(ls);
    if IsSuffix(domain, name) {
      var at := |name| - |domain|;
      if Below(ls, domain) {
        var k :| 0 <= k < |ls| && LowerLabels(ls[k..]) == DomainLabels(domain);
        BelowStart(ls, domain, k);
        NameAt(ls, k);
        DotFromIff(ls, k);
        FirstLabelStarts(ls);
      } else {
        forall k | 0 <= k < |ls| && LabelStart(ls, k) == at
          ensures DotFrom(ls, at)
        {
          NameAt(ls, k);
          DotFromIff(ls, k);
          if DotFree(ls[k..]) {
            CleanMatchIsBelow(ls, domain, k);
          }
        }
        FirstLabelStarts(ls);
      }
    }
  }

  lemma {:induction false} DottedHead(b: byte, l: seq<byte>, rest: seq<seq<byte>>)
    ensures Dotted([[b] + l] + rest) == [b] + Dotted([l] + rest)
    decreases |rest|
  {
    hide Dotted;
    if rest == [] {
      assert [[b] + l] + rest == [[b] + l] && [l] + rest == [l];
      DottedOne([b] + l);
      DottedOne(l);
    } else {
      var front, last := rest[..|rest| - 1], rest[|rest| - 1];
      DottedHead(b, l, front);
      assert [[b] + l] + rest == [[b] + l] + front + [last] && [l] + rest == [l] + front + [last];
      DottedAppend([[b] + l] + front, last);
      DottedAppend([l] + front, last);
    }
  }

  lemma LongerHead(b: byte, l: seq<byte>, rest: seq<seq<byte>>)
    requires AreLabels([l] + rest) && |l| < MAX_LABEL_LEN
    ensures AreLabels([[b] + l] + rest)
    ensures CanonicalName([[b] + l] + rest) == [Lower(b)] + CanonicalName([l] + rest)
  {
    hide Dotted;
    var ls, ds := [[b] + l] + rest, [l] + rest;
    assert ds[0] == l && ls[0] == [b] + l;
    assert forall i :: 0 < i < |ls| ==> ls[i] == ds[i];
    DottedHead(b, l, rest);
    LowerAllConcat([b], Dotted(ds));
    assert LowerAll([b]) == [Lower(b)];
  }

  lemma HeadedSuffix(c: byte, domain: seq<byte>)
    ensures IsSuffix(domain, [c] + domain) && |[c] + domain| - |domain| == 1 && ([c] + domain)[0] == c
  {
    assert ([c] + domain)[1..] == domain;
  }

  /** So an unrelated name is taken too: any byte but a dot in front of the domain, in the same label, will do. */
  lemma UnrelatedNameTaken(b: byte, l: seq<byte>, rest: seq<seq<byte>>)
    requires AreLabels([l] + rest) && |l| < MAX_LABEL_LEN && b != DOT && |CanonicalName([l] + rest)| < MATCH_LIMIT
    ensures var ls, domain := [[b] + l] + rest, CanonicalName([l] + rest);
            AreLabels(ls) && SuffixOk(CanonicalName(ls), domain) && !Below(ls, domain)
  {
    hide Below, Dotted, CanonicalName, AreLabels, IsSuffix, StartsLabel, DotFrom;
    var ls, domain := [[b] + l] + rest, CanonicalName([l] + rest);
    LongerHead(b, l, rest);
    HeadedSuffix(Lower(b), domain);
    LastByte([l] + rest);
    FallbackIgnoresLabelBoundaries(ls, domain);
  }

  lemma FirstLabelStarts(ls: seq<seq<byte>>)
    requires ls != []
    ensures StartsLabel(ls, 0) && LabelStart(ls, 0) == 0
    ensures forall k :: 0 < k < |ls| ==> LabelStart(ls, k) > 0
  {
    assert LabelStart(ls, 0) == 0;
  }

  /** The other way round: a subdomain is taken exactly when the domain is written normalised and is short enough. */
  lemma SubdomainTakenIff(ls: seq<seq<byte>>, domain: seq<byte>)
    requires AreLabels(ls) && Below(ls, domain) && |domain| <= MAX_NAME
    ensures SuffixOk(CanonicalName(ls), domain) <==> domain == Normalized(domain) && |domain| < MATCH_LIMIT
  {
    hide CanonicalName;
    var k :| 0 <= k < |ls| && LowerLabels(ls[k..]) == DomainLabels(domain);
    var rest := ls[k..];
    BelowName(ls, domain, k);
    NameAt(ls, k);
    var d := Undotted(domain);
    LastIsNoDot(rest, d);
    assert domain[|d| - 1] == d[|d| - 1];
    assert Normalized(domain) == LowerAll(d);
    LowerName(ls);
    FallbackNeedsCanonicalDomain(CanonicalName(ls), domain);
  }

  lemma LastIsNoDot(ls: seq<seq<byte>>, d: seq<byte>)
    requires ls != [] && AreLabels(ls) && DotFree(ls) && CanonicalName(ls) == LowerAll(d)
    ensures d != [] && d[|d| - 1] != DOT
  {
    hide CanonicalName;
    LastByte(ls);
    var l := ls[|ls| - 1];
    assert l[|l| - 1] in l;
  }

  lemma LowerName(ls: seq<seq<byte>>)
    ensures LowerAll(CanonicalName(ls)) == CanonicalName(ls)
  {
    LowerTwice(Dotted(ls));
  }

  // One real frame for each way of taking a name that is not below the domain b.c.

  const B_C: seq<byte> := [98, DOT, 99]

  /** The fallback for b.c takes this frame, whose labels are not below b.c. */
  ghost predicate WronglyTaken(ls: seq<seq<byte>>, id: u16, qtype: u16) {
    && Askable(ls)
    && var q := Parsed(FrameOf(ls, id, qtype), UDP_AT);
       q.Some? && SuffixOk(q.value.name, B_C) && !Below(ls, B_C)
  }

  lemma TakenName(ls: seq<seq<byte>>, id: u16, qtype: u16, name: seq<byte>, before: seq<byte>)
    requires Askable(ls) && Dotted(ls) == name == before + B_C && LowerAll(before) == before
    ensures Parsed(FrameOf(ls, id, qtype), UDP_AT).Some?
    ensures Parsed(FrameOf(ls, id, qtype), UDP_AT).value.name == CanonicalName(ls) == name
    ensures IsSuffix(B_C, name) && |name| - |B_C| == |before|
  {
    hide FrameOf, Fnv.Hash, Parsed, HeaderOk, IsQuestion;
    PlainFrameParses(ls, id, qtype);
    LowerAllConcat(before, B_C);
    assert LowerAll(B_C) == B_C;
    assert name[|before|..] == B_C;
  }

  /** Labels xb and c: another byte than a dot comes before. */
  lemma TakenInsideWord(id: u16, qtype: u16)
    ensures WronglyTaken([[120, 98], [99]], id, qtype)
  {
    hide FrameOf, Below;
    var ls: seq<seq<byte>> := [[120, 98], [99]];
    assert ls[..1] == [ls[0]];
    var name := Dotted(ls);
    assert name == [120] + B_C;
    TakenName(ls, id, qtype, name, [120]);
    assert name[0] == 120;
    FallbackIgnoresLabelBoundaries(ls, B_C);
  }

  /** Labels a.b and c: the dot that comes before is inside a label. */
  lemma TakenAtDotInsideLabel(id: u16, qtype: u16)
    ensures WronglyTaken([[97, DOT, 98], [99]], id, qtype)
  {
    hide FrameOf, Below;
    var ls: seq<seq<byte>> := [[97, DOT, 98], [99]];
    assert ls[..1] == [ls[0]];
    var name := Dotted(ls);
    assert name == ls[0] + [DOT] + ls[1] == [97, DOT, 98, DOT, 99];
    var before: seq<byte> := [97, DOT];
    assert before + B_C == [97, DOT, 98, DOT, 99];
    TakenName(ls, id, qtype, name, before);
    assert name[1] == DOT;
    assert LabelStart(ls, 0) == 0 && LabelStart(ls, 1) == 4;
    assert !StartsLabel(ls, 2);
    FallbackIgnoresLabelBoundaries(ls, B_C);
  }

  /** The single label b.c: a label of the match contains a dot. */
  lemma TakenOverDotInsideLabel(id: u16, qtype: u16)
    ensures WronglyTaken([[98, DOT, 99]], id, qtype)
  {
    hide FrameOf, Below;
    var ls: seq<seq<byte>> := [[98, DOT, 99]];
    var name := Dotted(ls);
    assert name == [] + B_C;
    TakenName(ls, id, qtype, name, []);
    assert LabelStart(ls, 0) == 0 && ls[0][1] == DOT;
    FallbackIgnoresLabelBoundaries(ls, B_C);
  }
}
