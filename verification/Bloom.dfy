/** The Bloom filter: seeded by the loader, tested by the data plane. */
module Bloom {
  import opened Bytes
  import opened Widening
  import opened Mixer
  import opened Routes
  import opened DomainHash
  import ProofOfWork

  const BLOOM_WORDS := 1024
  const BLOOM_BITS := 65536
  const MAX_HASHES := 8

  function Xor(x: bv64, y: bv64): bv64 {
    x ^ y
  }

  function HashLane(k: nat): bv64 {
    LaneWord(Word(k))
  }

  function LaneWord(w: bv64): bv64 {
    (w + 1) * 0x9e3779b97f4a7c15
  }

  function BucketLane(bucket: u64): bv64 {
    ProofOfWork.BucketWord(Word(bucket))
  }

  /** The word that the k-th hash function makes of a name hash in a time bucket. */
  function Selected(hash: bv64, k: nat, bucket: u64): bv64 {
    Mix(Xor(Xor(hash, HashLane(k)), BucketLane(bucket)))
  }

  /** The bit the k-th hash function selects. */
  function BitIndex(hash: bv64, k: nat, bits: nat, bucket: u64): (bit: nat)
    requires bits > 0
    ensures bit < bits
  {
    Value(Selected(hash, k, bucket)) % bits
  }

  /** The position of a bit inside its word. */
  function Offset(bit: nat): (off: bv64)
    ensures off < 64
  {
    WordBelow64(bit % 64);
    Word(bit % 64)
  }

  lemma WordBelow64(n: nat)
    requires n < 64
    ensures Word(n) < 64
  {
    WordValue(n);
    ValueBelow64(Word(n));
  }

  lemma ValueBelow64(w: bv64)
    requires Value(w) < 64
    ensures w < 64
  {
  }

  function WithBit(word: bv64, off: bv64): bv64
    requires off < 64
  {
    word | (1 << off)
  }

  predicate Has(word: bv64, off: bv64)
    requires off < 64
  {
    (word >> off) & 1 != 0
  }

  lemma HasWithBit(word: bv64, o: bv64, p: bv64)
    requires o < 64 && p < 64
    ensures Has(WithBit(word, o), p) <==> o == p || Has(word, p)
  {
  }

  lemma HasZero(off: bv64)
    requires off < 64
    ensures !Has(0, off)
  {
  }

  predicate Test(words: seq<bv64>, bit: nat)
    requires |words| == BLOOM_WORDS && bit < BLOOM_BITS
  {
    Has(words[bit / 64], Offset(bit))
  }

  function OnBits(words: seq<bv64>): set<nat>
    requires |words| == BLOOM_WORDS
  {
    set bit | 0 <= bit < BLOOM_BITS && Test(words, bit)
  }

  /** The bits one seed sets in one time bucket. */
  function SeedBits(hash: bv64, bits: nat, hashes: nat, bucket: u64): set<nat>
    requires bits > 0
  {
    set k | 0 <= k < hashes :: BitIndex(hash, k, bits, bucket)
  }

  lemma SetOneBit(words: seq<bv64>, bit: nat)
    requires |words| == BLOOM_WORDS && bit < BLOOM_BITS
    ensures OnBits(words[bit / 64 := WithBit(words[bit / 64], Offset(bit))]) == OnBits(words) + {bit}
  {
    hide Has, WithBit, Word;
    var after := words[bit / 64 := WithBit(words[bit / 64], Offset(bit))];
    forall b | 0 <= b < BLOOM_BITS
      ensures Test(after, b) <==> b == bit || Test(words, b)
    {
      if b / 64 == bit / 64 {
        HasWithBit(words[bit / 64], Offset(bit), Offset(b));
        if Offset(b) == Offset(bit) {
          WordInjective(b % 64, bit % 64);
        }
      }
    }
  }

  method SetBitsForSeed(words: array<bv64>, hash: bv64, bits: nat, hashes: nat, bucket: u64)
    requires words.Length == BLOOM_WORDS && 0 < bits <= BLOOM_BITS
    modifies words
    ensures OnBits(words[..]) == old(OnBits(words[..])) + SeedBits(hash, bits, hashes, bucket)
  {
    hide OnBits, WithBit, Offset, BitIndex;
    var k := 0;
    while k < hashes
      invariant 0 <= k <= hashes
      invariant OnBits(words[..]) == old(OnBits(words[..])) + SeedBits(hash, bits, k, bucket)
    {
      var bit := BitIndex(hash, k, bits, bucket);
      var idx := bit / 64;
      var off := Offset(bit);
      if idx < BLOOM_WORDS {
        SetOneBit(words[..], bit);
        ghost var before := words[..];
        words[idx] := WithBit(words[idx], off);
        assert words[..] == before[idx := WithBit(before[idx], off)];
      }
      assert SeedBits(hash, bits, k + 1, bucket) == SeedBits(hash, bits, k, bucket) + {bit};
      k := k + 1;
    }
  }

  /** The loader's clamps. */
  function ClampedBits(route: Route): nat {
    if !route.bloomEnabled then 0
    else if route.bloomSize < 64 then 64
    else if route.bloomSize > BLOOM_BITS then BLOOM_BITS
    else route.bloomSize
  }

  function ClampedHashes(route: Route): nat {
    if !route.bloomEnabled then 0
    else if route.bloomHashes == 0 then 3
    else if route.bloomHashes > MAX_HASHES then MAX_HASHES
    else route.bloomHashes
  }

  function LoaderBucket(route: Route, nowSec: u64): u64 {
    if route.bloomWindow > 0 then nowSec / route.bloomWindow else 0
  }

  /** What the first n seeds of an enabled route contribute: the loader's bucket and the one before it. */
  function RouteBits(route: Route, algo: Algorithm, bucket: u64, n: nat): set<nat>
    requires route.bloomEnabled && n <= |route.seeds|
  {
    if n == 0 then {}
    else
      var hash := HashDomain(route.seeds[n - 1], algo);
      var bits, hashes := ClampedBits(route), ClampedHashes(route);
      RouteBits(route, algo, bucket, n - 1) +
      (if hash == 0 then {} else SeedBits(hash, bits, hashes, bucket)) +
      (if hash == 0 || route.bloomWindow == 0 || bucket == 0 then {} else SeedBits(hash, bits, hashes, bucket - 1))
  }

  /** What the first n routes contribute; clock[i] is the wall clock read for route i. */
  function SeededBits(routes: seq<Route>, algo: Algorithm, clock: seq<u64>, n: nat): set<nat>
    requires n <= |routes| == |clock|
  {
    if n == 0 then {}
    else
      var route := routes[n - 1];
      SeededBits(routes, algo, clock, n - 1) +
      (if route.bloomEnabled then RouteBits(route, algo, LoaderBucket(route, clock[n - 1]), |route.seeds|) else {})
  }

  method SeedRoute(words: array<bv64>, route: Route, algo: Algorithm, nowSec: u64)
    requires words.Length == BLOOM_WORDS && route.bloomEnabled
    requires forall s :: s in route.seeds ==> NulFree(s)
    modifies words
    ensures OnBits(words[..]) ==
            old(OnBits(words[..])) + RouteBits(route, algo, LoaderBucket(route, nowSec), |route.seeds|)
  {
    hide OnBits, SeedBits, HashDomain;
    var bits, hashes := ClampedBits(route), ClampedHashes(route);
    var bucket := LoaderBucket(route, nowSec);
    for s := 0 to |route.seeds|
      invariant OnBits(words[..]) == old(OnBits(words[..])) + RouteBits(route, algo, bucket, s)
    {
      var hash := ComputeDomainHash(route.seeds[s], algo);
      if hash != 0 {
        SetBitsForSeed(words, hash, bits, hashes, bucket);
        if route.bloomWindow > 0 && bucket > 0 {
          SetBitsForSeed(words, hash, bits, hashes, bucket - 1);
        }
      }
    }
  }

  /** Seeds the whole word array; every bit is accounted for. */
  method SeedBloomMap(routes: seq<Route>, algo: Algorithm, clock: seq<u64>) returns (words: array<bv64>)
    requires |clock| == |routes|
    requires forall r, s :: r in routes && s in r.seeds ==> NulFree(s)
    ensures fresh(words) && words.Length == BLOOM_WORDS
    ensures OnBits(words[..]) == SeededBits(routes, algo, clock, |routes|)
  {
    hide OnBits, RouteBits;
    words := new bv64[BLOOM_WORDS](_ => 0);
    NoBitsOn(words[..]);
    for i := 0 to |routes|
      invariant OnBits(words[..]) == SeededBits(routes, algo, clock, i)
    {
      var route := routes[i];
      if route.bloomEnabled {
        SeedRoute(words, route, algo, clock[i]);
      }
    }
  }

  lemma NoBitsOn(words: seq<bv64>)
    requires |words| == BLOOM_WORDS && forall i :: 0 <= i < BLOOM_WORDS ==> words[i] == 0
    ensures OnBits(words) == {}
  {
    hide Has;
    forall bit | 0 <= bit < BLOOM_BITS
      ensures !Test(words, bit)
    {
      HasZero(Offset(bit));
    }
  }

  // The data plane.

  predicate BucketMatch(words: seq<bv64>, hash: bv64, bits: nat, hashes: nat, bucket: u64)
    requires |words| == BLOOM_WORDS && 0 < bits <= BLOOM_BITS
  {
    forall k :: 0 <= k < hashes && k < MAX_HASHES ==> Test(words, BitIndex(hash, k, bits, bucket))
  }

  predicate Allow(words: seq<bv64>, hash: bv64, bits: nat, hashes: nat, window: u16, nowSec: u64)
    requires |words| == BLOOM_WORDS
  {
    && hashes > 0
    && 64 <= bits <= BLOOM_BITS
    && (if window == 0 then BucketMatch(words, hash, bits, hashes, 0)
        else
          var bucket := nowSec / window;
          || BucketMatch(words, hash, bits, hashes, bucket)
          || (bucket > 0 && BucketMatch(words, hash, bits, hashes, bucket - 1)))
  }

  method TestBit(words: seq<bv64>, bit: nat, bits: nat) returns (on: bool)
    requires |words| == BLOOM_WORDS
    ensures on == (bit < bits <= BLOOM_BITS && Test(words, bit))
  {
    if bits == 0 || bits > BLOOM_BITS || bit >= bits || bit / 64 >= BLOOM_WORDS {
      return false;
    }
    on := Has(words[bit / 64], Offset(bit));
  }

  method MatchBucket(words: seq<bv64>, hash: bv64, bits: nat, hashes: nat, bucket: u64) returns (ok: bool)
    requires |words| == BLOOM_WORDS && 0 < bits <= BLOOM_BITS
    ensures ok == BucketMatch(words, hash, bits, hashes, bucket)
  {
    hide Test, BitIndex;
    var k := 0;
    while k < MAX_HASHES
      invariant 0 <= k <= MAX_HASHES
      invariant forall j :: 0 <= j < k ==> Test(words, BitIndex(hash, j, bits, bucket))
    {
      if k >= hashes {
        break;
      }
      var on := TestBit(words, BitIndex(hash, k, bits, bucket), bits);
      if !on {
        return false;
      }
      k := k + 1;
    }
    ok := true;
  }

  method BloomAllow(words: seq<bv64>, hash: bv64, bits: nat, hashes: nat, window: u16, nowSec: u64)
    returns (ok: bool)
    requires |words| == BLOOM_WORDS
    ensures ok == Allow(words, hash, bits, hashes, window, nowSec)
  {
    hide BucketMatch;
    if hashes == 0 || bits < 64 || bits > BLOOM_BITS {
      return false;
    }
    if window == 0 {
      ok := MatchBucket(words, hash, bits, hashes, 0);
      return;
    }
    var bucket := nowSec / window;
    ok := MatchBucket(words, hash, bits, hashes, bucket);
    if !ok && bucket > 0 {
      ok := MatchBucket(words, hash, bits, hashes, bucket - 1);
    }
  }

  // What seeding promises to testing.

  lemma {:induction false} RouteBitsHoldSeed(route: Route, algo: Algorithm, bucket: u64, n: nat, s: nat)
    requires route.bloomEnabled && s < n <= |route.seeds| && HashDomain(route.seeds[s], algo) != 0
    ensures var hash := HashDomain(route.seeds[s], algo);
            var bits, hashes := ClampedBits(route), ClampedHashes(route);
            && SeedBits(hash, bits, hashes, bucket) <= RouteBits(route, algo, bucket, n)
            && (route.bloomWindow > 0 && bucket > 0 ==>
                  SeedBits(hash, bits, hashes, bucket - 1) <= RouteBits(route, algo, bucket, n))
  {
    hide SeedBits, HashDomain;
    if s < n - 1 {
      RouteBitsHoldSeed(route, algo, bucket, n - 1, s);
    }
  }

  lemma {:induction false} SeededBitsHoldRoute(routes: seq<Route>, algo: Algorithm, clock: seq<u64>, n: nat, i: nat)
    requires i < n <= |routes| == |clock| && routes[i].bloomEnabled
    ensures RouteBits(routes[i], algo, LoaderBucket(routes[i], clock[i]), |routes[i].seeds|)
            <= SeededBits(routes, algo, clock, n)
  {
    hide RouteBits;
    if i < n - 1 {
      SeededBitsHoldRoute(routes, algo, clock, n - 1, i);
    }
  }

  lemma SeedBitsMatch(words: seq<bv64>, hash: bv64, bits: nat, hashes: nat, bucket: u64)
    requires |words| == BLOOM_WORDS && 0 < bits <= BLOOM_BITS
    requires SeedBits(hash, bits, hashes, bucket) <= OnBits(words)
    ensures BucketMatch(words, hash, bits, hashes, bucket)
  {
    hide BitIndex, Test;
    forall k | 0 <= k < hashes && k < MAX_HASHES
      ensures Test(words, BitIndex(hash, k, bits, bucket))
    {
      assert BitIndex(hash, k, bits, bucket) in SeedBits(hash, bits, hashes, bucket);
    }
  }

  /**
   * No false negatives, whatever other routes and seeds share the words. With a window, the data plane's bucket
   * may be the loader's or either neighbour of it.
   */
  lemma NoFalseNegatives(
    words: seq<bv64>, routes: seq<Route>, algo: Algorithm, clock: seq<u64>, i: nat, s: nat, nowSec: u64)
    requires |words| == BLOOM_WORDS && |clock| == |routes|
    requires OnBits(words) == SeededBits(routes, algo, clock, |routes|)
    requires i < |routes| && routes[i].bloomEnabled && s < |routes[i].seeds|
    requires 64 <= routes[i].bloomSize <= BLOOM_BITS && 1 <= routes[i].bloomHashes <= MAX_HASHES
    requires HashDomain(routes[i].seeds[s], algo) != 0
    requires var r := routes[i];
             r.bloomWindow > 0 ==> -1 <= nowSec / r.bloomWindow - clock[i] / r.bloomWindow <= 1
    ensures var r := routes[i];
            Allow(words, HashDomain(r.seeds[s], algo), r.bloomSize, r.bloomHashes, r.bloomWindow, nowSec)
  {
    hide RouteBits, SeededBits, SeedBits, OnBits, BucketMatch, HashDomain;
    var r := routes[i];
    var hash, bucket := HashDomain(r.seeds[s], algo), LoaderBucket(r, clock[i]);
    SeededBitsHoldRoute(routes, algo, clock, |routes|, i);
    RouteBitsHoldSeed(r, algo, bucket, |r.seeds|, s);
    SeedBitsMatch(words, hash, r.bloomSize, r.bloomHashes, bucket);
    if r.bloomWindow > 0 && bucket > 0 {
      SeedBitsMatch(words, hash, r.bloomSize, r.bloomHashes, bucket - 1);
    }
  }

  // What keeps other names out.

  /** The name hash that the k-th hash function turns into w. */
  function SelectingHash(w: bv64, k: nat, bucket: u64): bv64 {
    Xor(Xor(Unmix(w), BucketLane(bucket)), HashLane(k))
  }

  lemma XorCancels(x: bv64, a: bv64, b: bv64)
    ensures Xor(Xor(Xor(Xor(x, a), b), b), a) == x
  {
  }

  /** Each hash function is a bijection between name hashes and words, in every bucket. */
  lemma SelectedBijective(x: bv64, k: nat, bucket: u64)
    ensures SelectingHash(Selected(x, k, bucket), k, bucket) == x
    ensures Selected(SelectingHash(x, k, bucket), k, bucket) == x
  {
    hide Mix, Unmix, Xor, HashLane, BucketLane;
    MixBijective(Xor(Xor(x, HashLane(k)), BucketLane(bucket)));
    XorCancels(x, HashLane(k), BucketLane(bucket));
    MixBijective(x);
    XorCancels(Unmix(x), BucketLane(bucket), HashLane(k));
  }

  /** So for every size each word, and with it each bit, is selected by some name hash. */
  lemma EveryBitSelected(w: bv64, k: nat, bits: nat, bucket: u64)
    requires bits > 0
    ensures BitIndex(SelectingHash(w, k, bucket), k, bits, bucket) == Value(w) % bits
  {
    hide Selected, SelectingHash, Value;
    SelectedBijective(w, k, bucket);
  }

  function Unlane(x: bv64): bv64 {
    (x * 0xf1de83e19937733d) - 1
  }

  lemma UnlaneUndoes(w: bv64, y: bv64)
    requires y == (w + 1) * 0x9e3779b97f4a7c15
    ensures Unlane(y) == w
  {
  }

  lemma UnlaneLane(w: bv64)
    ensures Unlane(LaneWord(w)) == w
  {
    UnlaneUndoes(w, LaneWord(w));
  }

  lemma XorInjective(x: bv64, a: bv64, b: bv64)
    requires Xor(x, a) == Xor(x, b)
    ensures a == b
  {
  }

  lemma XorSwap(x: bv64, y: bv64)
    ensures Xor(x, y) == Xor(y, x)
  {
  }

  /** Different hash functions make different words of the same name. */
  lemma FunctionsMixApart(hash: bv64, j: nat, k: nat, bucket: u64)
    requires j < 0x1_0000_0000_0000_0000 && k < 0x1_0000_0000_0000_0000
    requires Selected(hash, j, bucket) == Selected(hash, k, bucket)
    ensures j == k
  {
    hide Mix, Xor, BucketLane, LaneWord, Unlane, Word;
    var lane := BucketLane(bucket);
    MixInjective(Xor(Xor(hash, HashLane(j)), lane), Xor(Xor(hash, HashLane(k)), lane));
    XorSwap(Xor(hash, HashLane(j)), lane);
    XorSwap(Xor(hash, HashLane(k)), lane);
    XorInjective(lane, Xor(hash, HashLane(j)), Xor(hash, HashLane(k)));
    XorInjective(hash, HashLane(j), HashLane(k));
    UnlaneLane(Word(j));
    UnlaneLane(Word(k));
    WordInjective(j, k);
  }

  /** Different buckets make different words of the same name. */
  lemma BucketsMixApart(hash: bv64, k: nat, b: u64, c: u64)
    requires Selected(hash, k, b) == Selected(hash, k, c)
    ensures b == c
  {
    hide Mix, Xor, HashLane, Word, ProofOfWork.BucketWord, ProofOfWork.Unbucket;
    var h := Xor(hash, HashLane(k));
    MixInjective(Xor(h, BucketLane(b)), Xor(h, BucketLane(c)));
    XorInjective(h, BucketLane(b), BucketLane(c));
    ProofOfWork.UnbucketBucket(Word(b));
    ProofOfWork.UnbucketBucket(Word(c));
    WordInjective(b, c);
  }

  /** Different names make different words. */
  lemma NamesMixApart(g: bv64, h: bv64, k: nat, bucket: u64)
    requires Selected(g, k, bucket) == Selected(h, k, bucket)
    ensures g == h
  {
    hide Selected, SelectingHash;
    SelectedBijective(g, k, bucket);
    SelectedBijective(h, k, bucket);
  }

  /** The buckets a test looks at. */
  predicate Tested(window: u16, nowSec: u64, b: u64) {
    if window == 0 then b == 0 else b == nowSec / window || b + 1 == nowSec / window
  }

  /**
   * What the test means for any words: a name passes exactly when, in one of the tested buckets, all bits that its
   * first eight hash functions select are on. One selected bit that is off in each of them refuses the name.
   */
  lemma AllowIffSelectedOn(words: seq<bv64>, hash: bv64, bits: nat, hashes: nat, window: u16, nowSec: u64)
    requires |words| == BLOOM_WORDS && 64 <= bits <= BLOOM_BITS && hashes > 0
    ensures Allow(words, hash, bits, hashes, window, nowSec) <==>
            exists b: u64 ::
              Tested(window, nowSec, b)
              && forall k :: 0 <= k < hashes && k < MAX_HASHES ==> BitIndex(hash, k, bits, b) in OnBits(words)
  {
    hide BitIndex, Test;
    forall b: u64
      ensures BucketMatch(words, hash, bits, hashes, b) <==>
              forall k :: 0 <= k < hashes && k < MAX_HASHES ==> BitIndex(hash, k, bits, b) in OnBits(words)
    {
    }
    var bucket: u64 := if window == 0 then 0 else nowSec / window;
    assert Tested(window, nowSec, bucket);
    assert window > 0 && bucket > 0 ==> Tested(window, nowSec, bucket - 1);
  }

  // Which bits seeding sets, without recursion.

  /** The bit is selected by some seed of the route, in the loader's bucket or, with a window, the one before. */
  ghost predicate SetByRoute(route: Route, algo: Algorithm, bucket: u64, n: nat, bit: nat)
    requires route.bloomEnabled && n <= |route.seeds|
  {
    exists s, b: u64 ::
      0 <= s < n && HashDomain(route.seeds[s], algo) != 0
      && (b == bucket || (route.bloomWindow > 0 && b + 1 == bucket))
      && bit in SeedBits(HashDomain(route.seeds[s], algo), ClampedBits(route), ClampedHashes(route), b)
  }

  lemma {:induction false} RouteBitsIff(route: Route, algo: Algorithm, bucket: u64, n: nat, bit: nat)
    requires route.bloomEnabled && n <= |route.seeds|
    ensures bit in RouteBits(route, algo, bucket, n) <==> SetByRoute(route, algo, bucket, n, bit)
  {
    hide SeedBits, HashDomain, ClampedBits, ClampedHashes;
    assert ClampedBits(route) > 0 by { ClampPositive(route); }
    if n > 0 {
      RouteBitsIff(route, algo, bucket, n - 1, bit);
      var hash, bits, hashes := HashDomain(route.seeds[n - 1], algo), ClampedBits(route), ClampedHashes(route);
      if hash != 0 && bit in SeedBits(hash, bits, hashes, bucket) {
        assert SetByRoute(route, algo, bucket, n, bit);
      }
      if hash != 0 && route.bloomWindow > 0 && bucket > 0 && bit in SeedBits(hash, bits, hashes, bucket - 1) {
        assert SetByRoute(route, algo, bucket, n, bit);
      }
    }
  }

  lemma ClampPositive(route: Route)
    requires route.bloomEnabled
    ensures ClampedBits(route) > 0
  {
  }

  /** A seeded bit is a bit of some enabled route, and nothing else is on. */
  lemma {:induction false} SeededBitsIff(routes: seq<Route>, algo: Algorithm, clock: seq<u64>, n: nat, bit: nat)
    requires n <= |routes| == |clock|
    ensures bit in SeededBits(routes, algo, clock, n) <==>
            exists i :: 0 <= i < n && routes[i].bloomEnabled
                        && SetByRoute(routes[i], algo, LoaderBucket(routes[i], clock[i]), |routes[i].seeds|, bit)
  {
    hide RouteBits, SetByRoute;
    if n > 0 {
      SeededBitsIff(routes, algo, clock, n - 1, bit);
      var r := routes[n - 1];
      if r.bloomEnabled {
        RouteBitsIff(r, algo, LoaderBucket(r, clock[n - 1]), |r.seeds|, bit);
      }
    }
  }
}
