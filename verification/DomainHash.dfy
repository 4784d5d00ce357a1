/** The control plane's hash of a configured domain, against the data plane's hash of a parsed name. */
module DomainHash {
  import opened Bytes
  import opened DnsQuestion
  import Fnv
  import SipHash

  datatype Algorithm = Fnv1a | Sip

  function HashName(name: seq<byte>, algo: Algorithm): bv64 {
    if algo.Sip? then SipHash.Hash(name) else Fnv.Hash(name)
  }

  /** One trailing dot is dropped. */
  function Undotted(domain: seq<byte>): seq<byte> {
    if domain != [] && domain[|domain| - 1] == DOT then domain[..|domain| - 1] else domain
  }

  function Truncated(s: seq<byte>, max: nat): seq<byte> {
    if |s| <= max then s else s[..max]
  }

  function Normalized(domain: seq<byte>): seq<byte> {
    LowerAll(Truncated(Undotted(domain), MAX_NAME))
  }

  /** Fills a buffer, terminator included, with the normalised domain. */
  method NormalizeDomain(domain: seq<byte>, out: array<byte>) returns (n: nat)
    requires NulFree(domain)
    modifies out
    ensures n <= out.Length && (out.Length > 0 ==> n < out.Length && out[n] == 0)
    ensures out.Length > 0 ==> out[..n] == LowerAll(Truncated(Undotted(domain), out.Length - 1))
    ensures out.Length == 0 ==> n == 0
  {
    n := 0;
    if out.Length == 0 {
      return;
    }
    var i := 0;
    while i < |domain| && n + 1 < out.Length
      invariant 0 <= i == n <= |Undotted(domain)| && n < out.Length
      invariant out[..n] == LowerAll(domain[..n])
    {
      if domain[i] == DOT && i + 1 == |domain| {
        break;
      }
      out[n] := Lower(domain[i]);
      n := n + 1;
      i := i + 1;
    }
    assert domain[..n] == Truncated(Undotted(domain), out.Length - 1);
    out[n] := 0;
  }

  /** Zero for a domain that normalises to nothing. */
  function HashDomain(domain: seq<byte>, algo: Algorithm): bv64 {
    var name := Normalized(domain);
    if name == [] then 0 else HashName(name, algo)
  }

  method ComputeDomainHash(domain: seq<byte>, algo: Algorithm) returns (h: bv64)
    requires NulFree(domain)
    ensures h == HashDomain(domain, algo)
  {
    hide Fnv.Hash, SipHash.Hash;
    var normalized := new byte[MAX_NAME + 1](_ => 0);
    var n := NormalizeDomain(domain, normalized);
    assert normalized[..n] == Normalized(domain);
    if n == 0 {
      return 0;
    }
    if algo.Sip? {
      h := SipHash.HashBytes(normalized, n);
    } else {
      h := Fnv.HashBytes(normalized, n);
    }
  }

  /** The hash the data plane dispatches on: recomputed for SipHash, already accumulated for FNV-1a. */
  function RouteHash(q: Query, algo: Algorithm): bv64 {
    if algo.Sip? then SipHash.Hash(q.name) else q.hash
  }

  /** A parsed name is never empty and never longer than the buffer; its running hash is its FNV hash. */
  lemma ParsedName(p: seq<byte>, udp: nat)
    requires Parsed(p, udp).Some?
    ensures var q := Parsed(p, udp).value;
            0 < |q.name| <= MAX_NAME && q.hash == Fnv.Hash(q.name) && 1 <= q.depth <= MAX_LABELS && q.opcode < 16
  {
    hide Fnv.Hash;
    var ls :| IsQuestion(QuestionBytes(p, udp), ls);
    EncodedIsParsed(p, udp, ls);
    DottedGrows(ls, 1);
  }

  /** For an exact-name query the two planes compute the same hash, under both algorithms. */
  lemma PlanesAgree(p: seq<byte>, udp: nat, domain: seq<byte>, algo: Algorithm)
    requires Parsed(p, udp).Some?
    requires Parsed(p, udp).value.name == Normalized(domain)
    ensures RouteHash(Parsed(p, udp).value, algo) == HashDomain(domain, algo)
  {
    hide Fnv.Hash, SipHash.Hash, Normalized;
    ParsedName(p, udp);
  }

  /** Upper case and one trailing dot in the configuration never change the hash. */
  lemma HashIgnoresCaseAndDot(domain: seq<byte>, algo: Algorithm)
    ensures HashDomain(LowerAll(domain), algo) == HashDomain(domain, algo)
    ensures domain != [] && domain[|domain| - 1] != DOT ==>
              HashDomain(domain + [DOT], algo) == HashDomain(domain, algo)
  {
    hide Fnv.Hash, SipHash.Hash;
    assert LowerAll(Undotted(domain)) == Undotted(LowerAll(domain));
    var cut := Truncated(Undotted(domain), MAX_NAME);
    assert Truncated(LowerAll(Undotted(domain)), MAX_NAME) == LowerAll(cut);
    assert LowerAll(LowerAll(cut)) == LowerAll(cut);
    assert Undotted(domain + [DOT]) == domain;
  }

  /** A domain that normalises to nothing, the empty one or the root, has hash zero. */
  lemma NothingHashesToZero(algo: Algorithm)
    ensures HashDomain([], algo) == 0 && HashDomain([DOT], algo) == 0
  {
    hide Fnv.Hash, SipHash.Hash;
    assert Undotted([DOT]) == [] && LowerAll([]) == [];
  }

  /** Which algorithm is which, in both planes. */
  lemma AlgorithmsNamed(domain: seq<byte>, q: Query)
    requires Normalized(domain) != []
    ensures HashDomain(domain, Fnv1a) == Fnv.Hash(Normalized(domain))
    ensures HashDomain(domain, Sip) == SipHash.Hash(Normalized(domain))
    ensures RouteHash(q, Fnv1a) == q.hash && RouteHash(q, Sip) == SipHash.Hash(q.name)
  {
  }
}
