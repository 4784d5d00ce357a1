/** The numbers of the source, written out. */
module Constants {
  import Bytes
  import DnsQuestion
  import DnsParser
  import Fnv
  import SipHash
  import Filters
  import Bloom
  import RateLimit
  import ConfigParser
  import ProgArray
  import DataPlane

  lemma DataPlaneNumbers()
    ensures DnsParser.LABEL_ITERATIONS == 32 && DnsQuestion.MAX_LABELS == 31 && DnsQuestion.MAX_LABEL_LEN == 63
    ensures Bytes.MAX_NAME == 255 && Bytes.DOT == '.' as int && DnsQuestion.QUESTION_OFFSET == 8 + 12
    ensures DataPlane.ETH_HEADER == 14 && DataPlane.DNS_PORT == 53
    ensures Filters.MATCH_LIMIT == 128 && RateLimit.NS_PER_SEC == 1_000_000_000
    ensures Bloom.BLOOM_WORDS == 1024 && Bloom.BLOOM_BITS == 1024 * 64 && Bloom.MAX_HASHES == 8
  {
  }

  lemma ControlPlaneNumbers()
    ensures ConfigParser.MAX_PATTERN == 128 && ConfigParser.MAX_PROG_NAME == 63 && ConfigParser.MAX_SEEDS == 32
    ensures ConfigParser.MAX_ROUTES == 1024 && ProgArray.PROG_ARRAY_MAX == 64
    ensures ConfigParser.DEFAULT_TYPES == 0x1 | 0x2 | 0x4
    ensures SipHash.K0 == 0x0706050403020100 && SipHash.K1 == 0x0f0e0d0c0b0a0908
  {
  }
}
