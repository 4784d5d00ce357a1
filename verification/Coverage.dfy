/** Which accepted routes some query can reach the limiter of, and which are dead. */
module Coverage {
  import opened Bytes
  import opened DnsQuestion
  import opened DomainHash
  import opened Routes
  import opened Filters
  import opened Codegen
  import opened ConfigParser
  import opened QueryFrame
  import opened Labels
  import Fallback
  import Fnv
  import Guards

  /** Some packet parses to a query of the shape the route asks for. */
  ghost predicate Reachable(r: Route) {
    exists p: seq<byte>, udp: nat :: Parsed(p, udp).Some? && RouteShape(Parsed(p, udp).value, r)
  }

  /** Some number of labels, at most 31, and some length fit together: a name of L labels has 2L-1 to 64L-1 bytes. */
  predicate RangesMeet(r: Route) {
    && r.minLabels <= MAX_LABELS
    && 2 * r.minLabels - 1 <= r.maxLength
    && r.minLength <= 64 * (if r.maxLabels < MAX_LABELS then r.maxLabels else MAX_LABELS) - 1
  }

  /** Patterns are compared with lowercased names, and only below 128 bytes. */
  predicate PatternUsable(pattern: seq<byte>) {
    |pattern| < MATCH_LIMIT && LowerAll(pattern) == pattern
  }

  lemma {:induction false} DottedBounds(ls: seq<seq<byte>>)
    requires AreLabels(ls) && ls != []
    ensures 2 * |ls| - 1 <= |Dotted(ls)| <= 64 * |ls| - 1
  {
    if |ls| > 1 {
      DottedBounds(ls[..|ls| - 1]);
    }
  }

  lemma UsablePrefix(pattern: seq<byte>, name: seq<byte>)
    requires PrefixOk(name, pattern) && LowerAll(name) == name
    ensures PatternUsable(pattern)
  {
    forall i | 0 <= i < |pattern|
      ensures Lower(pattern[i]) == pattern[i]
    {
      assert LowerAll(name)[i] == name[i];
    }
  }

  lemma UsableSuffix(pattern: seq<byte>, name: seq<byte>)
    requires SuffixOk(name, pattern) && LowerAll(name) == name
    ensures PatternUsable(pattern)
  {
    if pattern != [] {
      Fallback.SuffixOfLower(pattern, name);
    }
    assert LowerAll([]) == [];
  }

  /** What every reachable route has, with or without patterns. */
  lemma ReachableOnlyIf(r: Route)
    requires Reachable(r)
    ensures RangesMeet(r) && PatternUsable(r.prefix) && PatternUsable(r.suffix)
  {
    hide Parsed, TypeAllowed, PrefixOk, SuffixOk;
    var p: seq<byte>, udp: nat :| Parsed(p, udp).Some? && RouteShape(Parsed(p, udp).value, r);
    var ls := LabelsBehind(p, udp);
    DottedBounds(ls);
    Fallback.ParsedNameIsLower(p, udp);
    UsablePrefix(r.prefix, Parsed(p, udp).value.name);
    UsableSuffix(r.suffix, Parsed(p, udp).value.name);
  }

  lemma LabelsBehind(p: seq<byte>, udp: nat) returns (ls: seq<seq<byte>>)
    requires Parsed(p, udp).Some?
    ensures 1 <= |ls| <= MAX_LABELS && AreLabels(ls)
    ensures Parsed(p, udp).value.depth == |ls| && |Parsed(p, udp).value.name| == |Dotted(ls)|
  {
    hide Fnv.Hash;
    ls :| IsQuestion(QuestionBytes(p, udp), ls);
    EncodedIsParsed(p, udp, ls);
  }

  /** n labels that make a name of len bytes. */
  function Sample(n: nat, len: nat): (ls: seq<seq<byte>>)
    requires 1 <= n && 2 * n - 1 <= len <= 64 * n - 1
    ensures |ls| == n
  {
    if n == 1 then [seq(len, _ => 97)]
    else
      var k := if len - 2 * n + 2 < 63 then len - 2 * n + 2 else 63;
      Sample(n - 1, len - k - 1) + [seq(k, _ => 97)]
  }

  lemma {:induction false} SampleFits(n: nat, len: nat)
    requires 1 <= n && 2 * n - 1 <= len <= 64 * n - 1
    ensures AreLabels(Sample(n, len)) && |Dotted(Sample(n, len))| == len
  {
    hide Dotted;
    if n > 1 {
      var k := if len - 2 * n + 2 < 63 then len - 2 * n + 2 else 63;
      var front, last: seq<byte> := Sample(n - 1, len - k - 1), seq(k, _ => 97);
      SampleFits(n - 1, len - k - 1);
      assert Sample(n, len) == front + [last];
      DottedAppend(front, last);
    } else {
      DottedOne(seq(len, _ => 97));
    }
  }

  /** A number of labels and a length inside both ranges of the route. */
  lemma SizesExist(r: Route) returns (n: nat, len: nat)
    requires RangesMeet(r) && 1 <= r.minLabels <= r.maxLabels && 1 <= r.minLength <= r.maxLength <= 255
    ensures r.minLabels <= n <= r.maxLabels && n <= MAX_LABELS
    ensures r.minLength <= len <= r.maxLength && 2 * n - 1 <= len <= 64 * n - 1
  {
    len := if r.minLength < 2 * r.minLabels - 1 then 2 * r.minLabels - 1 else r.minLength;
    var least := (len + 64) / 64;
    n := if least < r.minLabels then r.minLabels else least;
  }

  /** An accepted route without patterns is reachable exactly when its two ranges can be met together. */
  lemma ReachableIff(r: Route, algo: Algorithm)
    requires RouteInvariant(r, algo) && r.prefix == [] && r.suffix == []
    ensures Reachable(r) <==> RangesMeet(r)
  {
    hide HashDomain, KnownBits;
    if Reachable(r) {
      ReachableOnlyIf(r);
    }
    if RangesMeet(r) {
      var n, len := SizesExist(r);
      var ls := Sample(n, len);
      SampleFits(n, len);
      Guards.SomeTypeAllowed(r.typeMask);
      var qtype: u16 :| TypeAllowed(qtype, r.typeMask);
      ShapeOfSample(r, ls, qtype);
    }
  }

  lemma ShapeOfSample(r: Route, ls: seq<seq<byte>>, qtype: u16)
    requires Askable(ls) && r.prefix == [] && r.suffix == [] && TypeAllowed(qtype, r.typeMask)
    requires r.minLabels <= |ls| <= r.maxLabels && r.minLength <= |Dotted(ls)| <= r.maxLength
    ensures Reachable(r)
  {
    hide FrameOf, Fnv.Hash, Parsed, HeaderOk, IsQuestion, TypeAllowed;
    PlainFrameParses(ls, 0, qtype);
    var f := FrameOf(ls, 0, qtype);
    assert Parsed(f, UDP_AT).Some? && RouteShape(Parsed(f, UDP_AT).value, r);
  }

  /** What an accepted route asks of a query, in plain terms; a pattern of the full 128 bytes is never met. */
  lemma ShapeIff(q: Query, r: Route, algo: Algorithm)
    requires RouteInvariant(r, algo)
    ensures RouteShape(q, r) <==>
            && r.minLabels <= q.depth && q.depth <= r.maxLabels
            && r.minLength <= |q.name| && |q.name| <= r.maxLength
            && TypeAllowed(q.qtype, r.typeMask)
            && (|r.prefix| <= 127 && |r.prefix| <= |q.name| && q.name[..|r.prefix|] == r.prefix)
            && (|r.suffix| <= 127 && |r.suffix| <= |q.name| && q.name[|q.name| - |r.suffix|..] == r.suffix)
  {
    hide TypeAllowed, HashDomain, KnownBits;
    assert q.name[..0] == [] && q.name[|q.name|..] == [];
  }
}
