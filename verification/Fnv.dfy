/** The FNV-1a variant both planes use (the offset is the program's own constant). */
module Fnv {
  import opened Bytes
  import opened Widening

  const OFFSET: bv64 := 1469598103934665603

  function Step(hash: bv64, c: byte): bv64 {
    StepWord(hash, Word(c))
  }

  function StepWord(hash: bv64, w: bv64): bv64 {
    (hash ^ w) * 1099511628211
  }

  function HashFrom(hash: bv64, s: seq<byte>): bv64 {
    if s == [] then hash else Step(HashFrom(hash, s[..|s| - 1]), s[|s| - 1])
  }

  function Hash(s: seq<byte>): bv64 {
    HashFrom(OFFSET, s)
  }

  lemma HashAppend(hash: bv64, s: seq<byte>, c: byte)
    ensures HashFrom(hash, s + [c]) == Step(HashFrom(hash, s), c)
  {
    assert (s + [c])[..|s|] == s;
  }

  lemma {:induction false} HashConcat(hash: bv64, s: seq<byte>, t: seq<byte>)
    ensures HashFrom(hash, s + t) == HashFrom(HashFrom(hash, s), t)
    decreases |t|
  {
    if t == [] {
      assert s + t == s;
    } else {
      var front, c := t[..|t| - 1], t[|t| - 1];
      assert s + t == (s + front) + [c];
      HashAppend(hash, s + front, c);
      HashConcat(hash, s, front);
    }
  }

  /** The control plane's loop over a byte buffer. */
  method HashBytes(data: array<byte>, len: nat) returns (hash: bv64)
    requires len <= data.Length
    ensures hash == Hash(data[..len])
  {
    hash := OFFSET;
    for i := 0 to len
      invariant hash == Hash(data[..i])
    {
      HashAppend(OFFSET, data[..i], data[i]);
      assert data[..i + 1] == data[..i] + [data[i]];
      hash := Step(hash, data[i]);
    }
  }

  /** Multiplies by the inverse of the prime modulo 2^64, then removes w. */
  function UnstepWord(next: bv64, w: bv64): bv64 {
    (next * 0xce965057aff6957b) ^ w
  }

  lemma UnstepUndoes(h: bv64, w: bv64, next: bv64)
    requires next == (h ^ w) * 1099511628211
    ensures UnstepWord(next, w) == h && UnstepWord(next, h) == w
  {
  }

  lemma UnstepStep(h: bv64, w: bv64)
    ensures UnstepWord(StepWord(h, w), w) == h && UnstepWord(StepWord(h, w), h) == w
  {
    UnstepUndoes(h, w, StepWord(h, w));
  }

  lemma StepWordInjective(g: bv64, h: bv64, w: bv64)
    requires StepWord(g, w) == StepWord(h, w)
    ensures g == h
  {
    UnstepStep(g, w);
    UnstepStep(h, w);
  }

  lemma StepWordInjectiveInWord(h: bv64, w: bv64, v: bv64)
    requires StepWord(h, w) == StepWord(h, v)
    ensures w == v
  {
    UnstepStep(h, w);
    UnstepStep(h, v);
  }

  function Times(x: bv64): bv64 {
    x * 1099511628211
  }

  lemma ProductBack(x: bv64, y: bv64)
    requires y == x * 0xce965057aff6957b
    ensures Times(y) == x
  {
  }

  lemma XorTwice(x: bv64, w: bv64, y: bv64)
    requires y == x ^ w
    ensures StepWord(y, w) == Times(x)
  {
  }

  /** For each byte a step is a bijection of the running hash: every hash is reached, and from one hash only. */
  lemma StepBijective(next: bv64, c: byte, g: bv64)
    ensures Step(g, c) == next <==> g == UnstepWord(next, Word(c))
  {
    hide StepWord, UnstepWord, Word;
    StepUnstepWord(next, Word(c));
    UnstepStep(g, Word(c));
  }

  lemma StepUnstepWord(next: bv64, w: bv64)
    ensures StepWord(UnstepWord(next, w), w) == next
  {
    hide Times, StepWord;
    var x := next * 0xce965057aff6957b;
    ProductBack(next, x);
    XorTwice(x, w, UnstepWord(next, w));
  }

  /** So a step never merges two running hashes ... */
  lemma StepInjective(g: bv64, h: bv64, c: byte)
    requires Step(g, c) == Step(h, c)
    ensures g == h
  {
    StepWordInjective(g, h, Word(c));
  }

  /** ... nor two bytes. */
  lemma StepInjectiveInByte(h: bv64, c: byte, d: byte)
    requires Step(h, c) == Step(h, d)
    ensures c == d
  {
    StepWordInjectiveInWord(h, Word(c), Word(d));
    WordInjective(c, d);
  }

  /** A common tail never merges two different running hashes. */
  lemma {:induction false} TailCancels(g: bv64, h: bv64, tail: seq<byte>)
    ensures HashFrom(g, tail) == HashFrom(h, tail) <==> g == h
    decreases |tail|
  {
    if tail != [] {
      var front, c := tail[..|tail| - 1], tail[|tail| - 1];
      TailCancels(g, h, front);
      if HashFrom(g, tail) == HashFrom(h, tail) {
        StepInjective(HashFrom(g, front), HashFrom(h, front), c);
      }
    }
  }

  /** Names of equal length that differ in exactly one byte never collide. */
  lemma NearNamesDiffer(s: seq<byte>, t: seq<byte>, k: nat)
    requires k < |s| == |t|
    requires s[..k] == t[..k] && s[k + 1..] == t[k + 1..]
    requires s[k] != t[k]
    ensures Hash(s) != Hash(t)
  {
    var p, q := s[..k], s[k + 1..];
    assert s == (p + [s[k]]) + q && t == (p + [t[k]]) + q;
    HashConcat(OFFSET, p + [s[k]], q);
    HashConcat(OFFSET, p + [t[k]], q);
    HashAppend(OFFSET, p, s[k]);
    HashAppend(OFFSET, p, t[k]);
    TailCancels(HashFrom(OFFSET, p + [s[k]]), HashFrom(OFFSET, p + [t[k]]), q);
    if Hash(s) == Hash(t) {
      StepInjectiveInByte(HashFrom(OFFSET, p), s[k], t[k]);
    }
  }

  /** Worked values, which fix the offset and the factor. */
  lemma Anchors()
    ensures Hash([]) == 1469598103934665603
    ensures Hash([97]) == 0x44bd8ad473cd9906 && Hash([97, 98]) == 0x9bac4b00c65ba4ec
  {
    var one, two: seq<byte> := [97], [97, 98];
    assert one[..0] == [] && two[..1] == one;
    assert Word(97) == 97 && Word(98) == 98;
    assert Hash(one) == StepWord(OFFSET, 97);
    assert Hash(two) == StepWord(Hash(one), 98);
  }
}
