/** The proof-of-work filter: leading zeros of the mixed name hash, DNS id and time bucket. */
module ProofOfWork {
  import opened Bytes
  import opened Widening
  import opened Mixer

  function Half(x: bv64): bv64 {
    x >> 1
  }

  function BitLength(x: bv64): nat {
    if x == 0 then 0 else 1 + BitLength(Half(x))
  }

  /** __builtin_clzll, extended to 64 at zero. */
  function LeadingZeros(x: bv64): int {
    64 - BitLength(x)
  }

  function Spread(id: u16): bv64 {
    SpreadWord(Word(id))
  }

  function SpreadWord(w: bv64): bv64 {
    w * 0x9e3779b97f4a7c15
  }

  function Bucket(bucket: u64): bv64 {
    BucketWord(Word(bucket))
  }

  function Xor(x: bv64, y: bv64): bv64 {
    x ^ y
  }

  function Mixed(hash: bv64, id: u16, bucket: u64): bv64 {
    Mix(Xor(Xor(hash, Spread(id)), Bucket(bucket)))
  }

  predicate BucketOk(hash: bv64, id: u16, difficulty: nat, bucket: u64) {
    LeadingZeros(Mixed(hash, id, bucket)) >= difficulty
  }

  /** The current bucket or the one before it; a zero window means the single bucket 0. */
  predicate Allow(hash: bv64, id: u16, difficulty: nat, window: u16, nowSec: u64) {
    || difficulty == 0
    || (window == 0 && BucketOk(hash, id, difficulty, 0))
    || (window > 0 &&
        var bucket := nowSec / window;
        BucketOk(hash, id, difficulty, bucket) || (bucket > 0 && BucketOk(hash, id, difficulty, bucket - 1)))
  }

  /** The words with at most m significant bits, listed. */
  ghost function Low(m: nat): set<bv64> {
    if m == 0 then {0} else Appended(Low(m - 1), false) + Appended(Low(m - 1), true)
  }

  ghost function Appended(words: set<bv64>, digit: bool): set<bv64> {
    set x | x in words :: Push(x, digit)
  }

  /** The bit at position 63 - j. */
  function TopBit(j: nat): bv64 {
    if j == 0 then 0x8000_0000_0000_0000 else Half(TopBit(j - 1))
  }

  function Eighth(x: bv64): bv64 {
    x >> 3
  }

  lemma ThreeHalves(x: bv64)
    ensures Half(Half(Half(x))) == Eighth(x)
  {
  }

  lemma TopBitThree(j: nat)
    ensures TopBit(j + 3) == Eighth(TopBit(j))
  {
    hide Half, Eighth;
    assert TopBit(j + 1) == Half(TopBit(j));
    assert TopBit(j + 2) == Half(TopBit(j + 1));
    assert TopBit(j + 3) == Half(TopBit(j + 2));
    ThreeHalves(TopBit(j));
  }

  function Shift9(x: bv64): bv64 {
    x >> 9
  }

  lemma ThreeEighths(x: bv64)
    ensures Eighth(Eighth(Eighth(x))) == Shift9(x)
  {
  }

  lemma TopBitNine(j: nat)
    ensures TopBit(j + 9) == Shift9(TopBit(j))
  {
    hide TopBit, Eighth, Shift9;
    TopBitThree(j);
    TopBitThree(j + 3);
    TopBitThree(j + 6);
    ThreeEighths(TopBit(j));
  }

  lemma TopBitLast()
    ensures TopBit(63) == 1
  {
    TopBitNine(0);
    TopBitNine(9);
    TopBitNine(18);
    TopBitNine(27);
    TopBitNine(36);
    TopBitNine(45);
    TopBitNine(54);
  }

  predicate Below(x: bv64, y: bv64) {
    x < y
  }

  lemma HalvesCompare(x: bv64, y: bv64)
    requires Below(Half(x), Half(y))
    ensures Below(x, y)
  {
  }

  lemma {:induction false} BitLengthBound(x: bv64, m: nat)
    requires BitLength(x) <= m <= 63
    ensures Below(x, TopBit(63 - m))
    decreases m
  {
    hide Half, Below;
    if m == 0 {
      TopBitLast();
      ZeroBelowOne();
    } else {
      HalfOfZero();
      BitLengthBound(Half(x), m - 1);
      HalvesCompare(x, TopBit(63 - m));
    }
  }

  lemma ZeroBelowOne()
    ensures Below(0, 1)
  {
  }

  lemma HalfOfZero()
    ensures Half(0) == 0
  {
  }

  lemma {:induction false} TopBitShrinks(j: nat)
    ensures TopBit(j) <= 0x8000_0000_0000_0000
  {
    if j > 0 {
      TopBitShrinks(j - 1);
    }
  }

  lemma ShortTopFree(x: bv64, m: nat)
    requires BitLength(x) <= m <= 63
    ensures TopFree(x)
  {
    BitLengthBound(x, m);
    TopBitShrinks(63 - m);
  }

  lemma PushSplits(x: bv64, digit: bool)
    requires TopFree(x)
    ensures Half(Push(x, digit)) == x && (Push(x, digit) & 1 == 1) == digit
  {
  }

  lemma PushJoins(y: bv64)
    ensures Push(Half(y), y & 1 == 1) == y
    ensures Push(0, false) == 0
  {
  }

  lemma AppendedMember(words: set<bv64>, digit: bool, y: bv64) returns (x: bv64)
    requires y in Appended(words, digit)
    ensures x in words && y == Push(x, digit)
  {
    x :| x in words && y == Push(x, digit);
  }

  lemma {:induction false} LowIsShort(y: bv64, m: nat)
    requires m <= 64 && y in Low(m)
    ensures BitLength(y) <= m
    decreases m
  {
    hide Push, Half, Appended, TopFree;
    if m > 0 {
      var digit := y in Appended(Low(m - 1), true);
      var x := AppendedMember(Low(m - 1), digit, y);
      LowIsShort(x, m - 1);
      ShortTopFree(x, m - 1);
      PushSplits(x, digit);
    }
  }

  lemma {:induction false} ShortIsLow(y: bv64, m: nat)
    requires BitLength(y) <= m
    ensures y in Low(m)
    decreases m
  {
    hide Push, Half;
    if m > 0 {
      HalfOfZero();
      PushJoins(y);
      ShortIsLow(Half(y), m - 1);
      assert y in Appended(Low(m - 1), y & 1 == 1);
    }
  }

  lemma LowIffShort(y: bv64, m: nat)
    requires m <= 64
    ensures y in Low(m) <==> BitLength(y) <= m
  {
    hide Low;
    if y in Low(m) {
      LowIsShort(y, m);
    }
    if BitLength(y) <= m {
      ShortIsLow(y, m);
    }
  }

  ghost function Image<T, U>(s: set<T>, f: T -> U): set<U> {
    set x | x in s :: f(x)
  }

  lemma {:induction false} ImageSize<T, U>(s: set<T>, f: T -> U)
    requires forall x, y :: x in s && y in s && f(x) == f(y) ==> x == y
    ensures |Image(s, f)| == |s|
  {
    if s != {} {
      var x :| x in s;
      var rest := s - {x};
      ImageSize(rest, f);
      assert Image(s, f) == Image(rest, f) + {f(x)};
    }
  }

  lemma AppendedSize(words: set<bv64>, digit: bool)
    requires forall x :: x in words ==> TopFree(x)
    ensures |Appended(words, digit)| == |words|
  {
    hide Push, Half, TopFree;
    forall x, y | x in words && y in words && Push(x, digit) == Push(y, digit)
      ensures x == y
    {
      PushSplits(x, digit);
      PushSplits(y, digit);
    }
    var f := (x: bv64) => Push(x, digit);
    ImageSize(words, f);
    assert Appended(words, digit) == Image(words, f);
  }

  lemma AppendedDigit(words: set<bv64>, digit: bool, y: bv64)
    requires forall x :: x in words ==> TopFree(x)
    requires y in Appended(words, digit)
    ensures (y & 1 == 1) == digit
  {
    hide Push, TopFree;
    var x := AppendedMember(words, digit, y);
    PushSplits(x, digit);
  }

  lemma {:induction false} LowSize(m: nat)
    requires m <= 64
    ensures |Low(m)| == Pow2(m)
  {
    hide Push, Appended, TopFree, BitLength;
    if m > 0 {
      LowSize(m - 1);
      var words := Low(m - 1);
      forall x | x in words
        ensures TopFree(x)
      {
        LowIsShort(x, m - 1);
        ShortTopFree(x, m - 1);
      }
      AppendedSize(words, false);
      AppendedSize(words, true);
      forall y | y in Appended(words, false)
        ensures y !in Appended(words, true)
      {
        AppendedDigit(words, false, y);
        if y in Appended(words, true) {
          AppendedDigit(words, true, y);
        }
      }
    }
  }

  /** The name hash that mixes to y for a given id and bucket. */
  function HashFor(y: bv64, id: u16, bucket: u64): bv64 {
    Xor(Xor(Unmix(y), Bucket(bucket)), Spread(id))
  }

  lemma XorCancels(x: bv64, a: bv64, b: bv64)
    ensures Xor(Xor(Xor(Xor(x, a), b), b), a) == x
  {
  }

  lemma MixedInverse(x: bv64, id: u16, bucket: u64)
    ensures HashFor(Mixed(x, id, bucket), id, bucket) == x
    ensures Mixed(HashFor(x, id, bucket), id, bucket) == x
  {
    hide Mix, Unmix, Xor, Spread, Bucket;
    MixBijective(Xor(Xor(x, Spread(id)), Bucket(bucket)));
    XorCancels(x, Spread(id), Bucket(bucket));
    MixBijective(x);
    XorCancels(Unmix(x), Bucket(bucket), Spread(id));
  }

  ghost function PassingHashes(id: u16, difficulty: nat, bucket: u64): set<bv64>
    requires difficulty <= 64
  {
    set y | y in Low(64 - difficulty) :: HashFor(y, id, bucket)
  }

  /** Exactly 2^(64 - d) name hashes pass at difficulty d, for every DNS id and bucket. */
  lemma PassingHashesCount(id: u16, difficulty: nat, bucket: u64)
    requires difficulty <= 64
    ensures |PassingHashes(id, difficulty, bucket)| == Pow2(64 - difficulty)
    ensures forall h :: h in PassingHashes(id, difficulty, bucket) <==> BucketOk(h, id, difficulty, bucket)
  {
    hide Mixed, HashFor, Low;
    var low := Low(64 - difficulty);
    forall h
      ensures h in PassingHashes(id, difficulty, bucket) <==> BucketOk(h, id, difficulty, bucket)
    {
      MixedInverse(h, id, bucket);
      LowIffShort(Mixed(h, id, bucket), 64 - difficulty);
      if h in PassingHashes(id, difficulty, bucket) {
        var y :| y in low && h == HashFor(y, id, bucket);
        MixedInverse(y, id, bucket);
      }
    }
    forall x, y | x in low && y in low && HashFor(x, id, bucket) == HashFor(y, id, bucket)
      ensures x == y
    {
      MixedInverse(x, id, bucket);
      MixedInverse(y, id, bucket);
    }
    var f := (y: bv64) => HashFor(y, id, bucket);
    ImageSize(low, f);
    LowSize(64 - difficulty);
    assert PassingHashes(id, difficulty, bucket) == Image(low, f);
  }

  function Unspread(x: bv64): bv64 {
    x * 0xf1de83e19937733d
  }

  lemma UnspreadUndoes(x: bv64, y: bv64)
    requires y == x * 0x9e3779b97f4a7c15
    ensures Unspread(y) == x
  {
  }

  lemma UnspreadSpread(x: bv64)
    ensures Unspread(SpreadWord(x)) == x
  {
    UnspreadUndoes(x, SpreadWord(x));
  }

  lemma XorInjective(x: bv64, a: bv64, b: bv64)
    requires Xor(x, a) == Xor(x, b)
    ensures a == b
  {
  }

  /** Distinct DNS ids always mix to distinct values. */
  lemma IdsMixApart(hash: bv64, a: u16, b: u16, bucket: u64)
    requires Mixed(hash, a, bucket) == Mixed(hash, b, bucket)
    ensures a == b
  {
    hide Mix, Xor, Bucket, SpreadWord, Unspread, Word;
    MixInjective(Xor(Xor(hash, Spread(a)), Bucket(bucket)), Xor(Xor(hash, Spread(b)), Bucket(bucket)));
    XorSwap(Xor(hash, Spread(a)), Bucket(bucket));
    XorSwap(Xor(hash, Spread(b)), Bucket(bucket));
    XorInjective(Bucket(bucket), Xor(hash, Spread(a)), Xor(hash, Spread(b)));
    XorInjective(hash, Spread(a), Spread(b));
    UnspreadSpread(Word(a));
    UnspreadSpread(Word(b));
    WordInjective(a, b);
  }

  function Unbucket(x: bv64): bv64 {
    x * 0x2040003d780970bd
  }

  function BucketWord(w: bv64): bv64 {
    w * 0x517cc1b727220a95
  }

  lemma UnbucketUndoes(x: bv64, y: bv64)
    requires y == x * 0x517cc1b727220a95
    ensures Unbucket(y) == x
  {
  }

  lemma UnbucketBucket(x: bv64)
    ensures Unbucket(BucketWord(x)) == x
  {
    UnbucketUndoes(x, BucketWord(x));
  }

  /** Distinct buckets always mix to distinct values. */
  lemma BucketsMixApart(hash: bv64, id: u16, b: u64, c: u64)
    requires Mixed(hash, id, b) == Mixed(hash, id, c)
    ensures b == c
  {
    hide Mix, Xor, Spread, BucketWord, Unbucket, Word;
    var h := Xor(hash, Spread(id));
    MixInjective(Xor(h, Bucket(b)), Xor(h, Bucket(c)));
    XorInjective(h, Bucket(b), Bucket(c));
    UnbucketBucket(Word(b));
    UnbucketBucket(Word(c));
    WordInjective(b, c);
  }

  /**
   * What the filter admits, as sets of name hashes of known size: everything at difficulty zero, the hashes that pass
   * in bucket zero without a window, and otherwise those that pass in the current bucket or the one before.
   */
  lemma AllowedHashes(hash: bv64, id: u16, difficulty: nat, window: u16, now: u64)
    requires difficulty <= 64
    ensures difficulty == 0 ==> Allow(hash, id, difficulty, window, now)
    ensures difficulty > 0 && window == 0 ==>
              (Allow(hash, id, difficulty, window, now) <==> hash in PassingHashes(id, difficulty, 0))
    ensures difficulty > 0 && window > 0 ==>
              var bucket := now / window;
              (Allow(hash, id, difficulty, window, now) <==>
               || hash in PassingHashes(id, difficulty, bucket)
               || (bucket > 0 && hash in PassingHashes(id, difficulty, bucket - 1)))
    ensures |PassingHashes(id, difficulty, 0)| == Pow2(64 - difficulty)
  {
    hide BucketOk, PassingHashes, Pow2;
    PassingHashesCount(id, difficulty, 0);
    if window > 0 {
      var bucket := now / window;
      PassingHashesCount(id, difficulty, bucket);
      if bucket > 0 {
        PassingHashesCount(id, difficulty, bucket - 1);
      }
    }
  }

  lemma XorSwap(x: bv64, y: bv64)
    ensures Xor(x, y) == Xor(y, x)
  {
  }

  lemma DivBounds(now: nat, w: nat, b: nat)
    requires w > 0
    ensures now / w == b <==> b * w <= now < (b + 1) * w
  {
    var q := now / w;
    assert q * w <= now < (q + 1) * w;
    if q < b {
      assert (q + 1) * w <= b * w;
    } else if q > b {
      assert (b + 1) * w <= q * w;
    }
  }

  /** A proof for bucket b is accepted from the start of that bucket for exactly two windows. */
  predicate Alive(b: u64, window: u16, now: u64) {
    b * window <= now < (b + 2) * window
  }

  lemma ProofLifetime(hash: bv64, id: u16, difficulty: nat, window: u16, now: u64)
    requires difficulty > 0 && window > 0
    ensures Allow(hash, id, difficulty, window, now) <==>
            exists b: u64 :: BucketOk(hash, id, difficulty, b) && Alive(b, window, now)
  {
    hide BucketOk;
    forall b: u64
      ensures Alive(b, window, now) <==> now / window == b || now / window == b + 1
    {
      DivBounds(now, window, b);
      DivBounds(now, window, b + 1);
      assert (b + 2) * window == (b + 1) * window + window;
    }
    var bucket: u64 := now / window;
    assert Alive(bucket, window, now);
    assert bucket > 0 ==> Alive(bucket - 1, window, now);
  }
}
