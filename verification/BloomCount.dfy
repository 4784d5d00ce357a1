/** How evenly the hash functions of the Bloom filter spread names over its bits. */
module BloomCount {
  import opened Bytes
  import opened Widening
  import opened ProofOfWork
  import Bloom

  /** The words of at most m bits whose j lowest bits are the number r, listed. */
  ghost function Residue(m: nat, j: nat, r: nat): set<bv64>
    requires j <= m
  {
    if j == 0 then Low(m) else Appended(Residue(m - 1, j - 1, r / 2), r % 2 == 1)
  }

  lemma HalfValue(y: bv64)
    ensures Value(y) == 2 * Value(Half(y)) + if y & 1 == 1 then 1 else 0
  {
    hide Value, Push;
    HalfTopFree(y);
    PushJoins(y);
    PushValue(Half(y), y & 1 == 1);
  }

  lemma HalfTopFree(y: bv64)
    ensures TopFree(Half(y))
  {
  }

  /** The residue modulo an even number, from the residue of the half. */
  lemma ModSplit(a: nat, b: nat, p: nat)
    requires b < 2 && p > 0
    ensures (2 * a + b) % (2 * p) == 2 * (a % p) + b
  {
    var q := a / p;
    assert a == q * p + a % p;
    assert 2 * a + b == q * (2 * p) + (2 * (a % p) + b);
    ModUnique(2 * a + b, 2 * p, q, 2 * (a % p) + b);
  }

  lemma ModUnique(n: nat, p: nat, q: nat, r: nat)
    requires p > 0 && n == q * p + r && r < p
    ensures n % p == r
  {
    assert (q + 1) * p == q * p + p;
    DivBounds(n, p, q);
    assert n == (n / p) * p + n % p;
  }

  lemma HalfOfLow(y: bv64, m: nat)
    requires 1 <= m <= 64
    ensures y in Low(m) <==> Half(y) in Low(m - 1)
  {
    hide Low, Half;
    LowIffShort(y, m);
    LowIffShort(Half(y), m - 1);
    HalfOfZero();
  }

  /** A word is in the appended set exactly when its half is in the set and its last digit is the one appended. */
  lemma AppendedIff(words: set<bv64>, digit: bool, y: bv64)
    requires forall x :: x in words ==> TopFree(x)
    ensures y in Appended(words, digit) <==> Half(y) in words && (y & 1 == 1) == digit
  {
    hide Push, Half, TopFree, Appended;
    PushJoins(y);
    if y in Appended(words, digit) {
      var x := AppendedMember(words, digit, y);
      PushSplits(x, digit);
    }
    if Half(y) in words && (y & 1 == 1) == digit {
      AppendedHolds(words, digit, Half(y));
    }
  }

  lemma AppendedHolds(words: set<bv64>, digit: bool, x: bv64)
    requires x in words
    ensures Push(x, digit) in Appended(words, digit)
  {
  }

  lemma {:induction false} ResidueIff(m: nat, j: nat, r: nat, y: bv64)
    requires j <= m <= 64 && r < Pow2(j)
    ensures y in Residue(m, j, r) <==> y in Low(m) && Value(y) % Pow2(j) == r
    decreases j
  {
    hide Low, Half, Value, TopFree;
    if j > 0 {
      var words := Residue(m - 1, j - 1, r / 2);
      ResidueIff(m - 1, j - 1, r / 2, Half(y));
      ResidueTopFree(m - 1, j - 1, r / 2);
      AppendedIff(words, r % 2 == 1, y);
      HalfOfLow(y, m);
      HalfValue(y);
      ModSplit(Value(Half(y)), if y & 1 == 1 then 1 else 0, Pow2(j - 1));
    }
  }

  lemma ResidueTopFree(m: nat, j: nat, r: nat)
    requires j <= m <= 63 && r < Pow2(j)
    ensures forall x :: x in Residue(m, j, r) ==> TopFree(x)
    decreases j, 0
  {
    hide TopFree, Low, Residue;
    forall x | x in Residue(m, j, r)
      ensures TopFree(x)
    {
      ResidueIsLow(m, j, r, x);
      LowIsShort(x, m);
      ShortTopFree(x, m);
    }
  }

  lemma {:induction false} ResidueIsLow(m: nat, j: nat, r: nat, y: bv64)
    requires j <= m <= 64 && y in Residue(m, j, r)
    ensures y in Low(m)
    decreases j
  {
    hide Low, Push, Half;
    if j > 0 {
      var x := AppendedMember(Residue(m - 1, j - 1, r / 2), r % 2 == 1, y);
      ResidueIsLow(m - 1, j - 1, r / 2, x);
      LowIsShort(x, m - 1);
      ShortTopFree(x, m - 1);
      PushSplits(x, r % 2 == 1);
      HalfOfLow(y, m);
    }
  }

  lemma {:induction false} ResidueSize(m: nat, j: nat, r: nat)
    requires j <= m <= 64 && r < Pow2(j)
    ensures |Residue(m, j, r)| == Pow2(m - j)
    decreases j
  {
    hide Low, Appended;
    if j == 0 {
      LowSize(m);
    } else {
      ResidueSize(m - 1, j - 1, r / 2);
      ResidueTopFree(m - 1, j - 1, r / 2);
      AppendedSize(Residue(m - 1, j - 1, r / 2), r % 2 == 1);
    }
  }

  lemma AllWordsLow(y: bv64)
    ensures y in Low(64)
  {
    hide Low, Half;
    LowIffShort(Half(y), 63);
    HalfTopFree(y);
    TopFreeShort(Half(y));
    HalfOfLow(y, 64);
  }

  lemma {:induction false} ValueBitLength(y: bv64, m: nat)
    requires Value(y) < Pow2(m)
    ensures BitLength(y) <= m
    decreases m
  {
    hide Value, Half;
    if y != 0 {
      HalfValue(y);
      NonZeroValue(y);
      ValueBitLength(Half(y), m - 1);
    }
  }

  lemma NonZeroValue(y: bv64)
    requires y != 0
    ensures Value(y) > 0
  {
  }

  lemma TopFreeShort(y: bv64)
    requires TopFree(y)
    ensures BitLength(y) <= 63
  {
    hide BitLength;
    assert Pow2(8) == 256 && Pow2(16) == 0x1_0000 && Pow2(24) == 0x100_0000 && Pow2(32) == 0x1_0000_0000;
    assert Pow2(40) == 0x100_0000_0000 && Pow2(48) == 0x1_0000_0000_0000 && Pow2(56) == 0x100_0000_0000_0000;
    assert Pow2(63) == 0x8000_0000_0000_0000;
    TopFreeValue(y);
    ValueBitLength(y, 63);
  }

  ghost function SelectingHashes(j: nat, bit: nat, k: nat, bucket: u64): set<bv64>
    requires j <= 64
  {
    set w | w in Residue(64, j, bit) :: Bloom.SelectingHash(w, k, bucket)
  }

  /**
   * For a filter of 2^j bits each hash function spreads the names evenly: in every bucket exactly 2^(64 - j) name
   * hashes select each bit.
   */
  lemma SelectingHashesCount(j: nat, bit: nat, k: nat, bucket: u64)
    requires j <= 64 && bit < Pow2(j)
    ensures |SelectingHashes(j, bit, k, bucket)| == Pow2(64 - j)
    ensures forall h :: h in SelectingHashes(j, bit, k, bucket) <==> Bloom.BitIndex(h, k, Pow2(j), bucket) == bit
  {
    hide Residue, Bloom.Selected, Bloom.SelectingHash, Value, Low;
    var words := Residue(64, j, bit);
    forall h
      ensures h in SelectingHashes(j, bit, k, bucket) <==> Bloom.BitIndex(h, k, Pow2(j), bucket) == bit
    {
      var w := Bloom.Selected(h, k, bucket);
      Bloom.SelectedBijective(h, k, bucket);
      ResidueIff(64, j, bit, w);
      AllWordsLow(w);
      if h in SelectingHashes(j, bit, k, bucket) {
        var x :| x in words && h == Bloom.SelectingHash(x, k, bucket);
        Bloom.SelectedBijective(x, k, bucket);
      }
    }
    forall x, y | x in words && y in words && Bloom.SelectingHash(x, k, bucket) == Bloom.SelectingHash(y, k, bucket)
      ensures x == y
    {
      Bloom.SelectedBijective(x, k, bucket);
      Bloom.SelectedBijective(y, k, bucket);
    }
    var f := (w: bv64) => Bloom.SelectingHash(w, k, bucket);
    ImageSize(words, f);
    ResidueSize(64, j, bit);
    assert SelectingHashes(j, bit, k, bucket) == Image(words, f);
  }
}
