/** SipHash-2-4 with the fixed key both planes compile in. */
module SipHash {
  import opened Bytes
  import opened Widening

  const K0: bv64 := 0x0706050403020100
  const K1: bv64 := 0x0f0e0d0c0b0a0908

  datatype Words = Words(v0: bv64, v1: bv64, v2: bv64, v3: bv64)

  // The 64-bit operations, named so that a proof can hide their bits.

  function Add(x: bv64, y: bv64): bv64 {
    x + y
  }

  function Xor(x: bv64, y: bv64): bv64 {
    x ^ y
  }

  function Or(x: bv64, y: bv64): bv64 {
    x | y
  }

  function RotL(x: bv64, b: bv64): bv64
    requires 0 < b < 64
  {
    (x << b) | (x >> (64 - b))
  }

  /** One SipRound, in the two half-round layers of section 2.2 of the SipHash paper. */
  function SipRound(w: Words): Words {
    var a0 := Add(w.v0, w.v1);
    var a2 := Add(w.v2, w.v3);
    var a1 := Xor(RotL(w.v1, 13), a0);
    var a3 := Xor(RotL(w.v3, 16), a2);
    var c0 := Add(RotL(a0, 32), a3);
    var c2 := Add(a2, a1);
    Words(c0, Xor(RotL(a1, 17), c2), RotL(c2, 32), Xor(RotL(a3, 21), c0))
  }

  function Initial(): Words {
    Words(0x736f6d6570736575 ^ K0, 0x646f72616e646f6d ^ K1, 0x6c7967656e657261 ^ K0, 0x7465646279746573 ^ K1)
  }

  /** Absorbs one message word with two rounds. */
  function Compress(w: Words, m: bv64): Words {
    var r := SipRound(SipRound(w.(v3 := Xor(w.v3, m))));
    r.(v0 := Xor(r.v0, m))
  }

  function Finalize(w: Words): bv64 {
    var r := SipRound(SipRound(SipRound(SipRound(w.(v2 := Xor(w.v2, 0xff))))));
    Xor(Xor(Xor(r.v0, r.v1), r.v2), r.v3)
  }

  function LaneShift(j: nat): (b: bv64)
    requires j < 8
    ensures b < 64
  {
    if j == 0 then 0
    else if j == 1 then 8
    else if j == 2 then 16
    else if j == 3 then 24
    else if j == 4 then 32
    else if j == 5 then 40
    else if j == 6 then 48
    else 56
  }

  function Lane(b: byte, j: nat): bv64
    requires j < 8
  {
    Word(b) << LaneShift(j)
  }

  /** Ors n bytes from off on into the little-endian lanes of acc. */
  function OrBytes(acc: bv64, s: seq<byte>, off: nat, n: nat): bv64
    requires off + n <= |s| && n <= 8
  {
    if n == 0 then acc else Or(OrBytes(acc, s, off, n - 1), Lane(s[off + n - 1], n - 1))
  }

  /** Absorbs the first n whole words of s. */
  function Absorb(w: Words, s: seq<byte>, n: nat): Words
    requires 8 * n <= |s|
  {
    if n == 0 then w else Compress(Absorb(w, s, n - 1), OrBytes(0, s, 8 * (n - 1), 8))
  }

  function Zeros(n: nat): (z: seq<byte>)
    ensures |z| == n
  {
    seq(n, _ => 0)
  }

  /** The padding of section 2.1 of the SipHash paper: zeros, then the length modulo 256. */
  function Padded(s: seq<byte>): (p: seq<byte>)
    ensures |p| == 8 * (|s| / 8 + 1)
  {
    s + Zeros(7 - |s| % 8) + [|s| % 256]
  }

  /** The reference: absorb every word of the padded message, then finalize. */
  function Hash(s: seq<byte>): bv64 {
    Finalize(Absorb(Initial(), Padded(s), |s| / 8 + 1))
  }

  /** The length, shifted into the top byte of the last word. */
  function LengthWord(len: nat): bv64 {
    Lane(len % 256, 7)
  }

  lemma LaneZero(x: bv64, j: nat)
    requires j < 8
    ensures Or(x, Lane(0, j)) == x
  {
  }

  lemma OrSwap(x: bv64, y: bv64, z: bv64)
    ensures Or(Or(x, y), z) == Or(Or(x, z), y)
    ensures Or(0, x) == x
    ensures Or(x, y) == Or(y, x)
  {
  }

  lemma {:induction false} OrBytesAccumulator(acc: bv64, s: seq<byte>, off: nat, n: nat)
    requires off + n <= |s| && n <= 8
    ensures OrBytes(acc, s, off, n) == Or(OrBytes(0, s, off, n), acc)
  {
    hide Lane, Or;
    if n == 0 {
      OrSwap(acc, 0, 0);
    } else {
      OrBytesAccumulator(acc, s, off, n - 1);
      OrSwap(OrBytes(0, s, off, n - 1), acc, Lane(s[off + n - 1], n - 1));
    }
  }

  lemma {:induction false} OrBytesSame(acc: bv64, s: seq<byte>, t: seq<byte>, off: nat, n: nat)
    requires off + n <= |s| && off + n <= |t| && n <= 8
    requires s[off..off + n] == t[off..off + n]
    ensures OrBytes(acc, s, off, n) == OrBytes(acc, t, off, n)
  {
    hide Lane, Or;
    if n > 0 {
      assert s[off..off + n][n - 1] == t[off..off + n][n - 1];
      assert s[off..off + n - 1] == s[off..off + n][..n - 1];
      assert t[off..off + n - 1] == t[off..off + n][..n - 1];
      OrBytesSame(acc, s, t, off, n - 1);
    }
  }

  lemma {:induction false} OrBytesZeros(s: seq<byte>, off: nat, r: nat, n: nat)
    requires r <= n <= 7 && off + n <= |s|
    requires forall i :: off + r <= i < off + n ==> s[i] == 0
    ensures OrBytes(0, s, off, n) == OrBytes(0, s, off, r)
  {
    hide Lane, Or;
    if r < n {
      OrBytesZeros(s, off, r, n - 1);
      LaneZero(OrBytes(0, s, off, n - 1), n - 1);
    }
  }

  lemma {:induction false} AbsorbSame(w: Words, s: seq<byte>, t: seq<byte>, n: nat)
    requires 8 * n <= |s| && 8 * n <= |t|
    requires s[..8 * n] == t[..8 * n]
    ensures Absorb(w, s, n) == Absorb(w, t, n)
  {
    hide Compress, OrBytes;
    if n > 0 {
      var k := 8 * (n - 1);
      assert s[..k] == s[..8 * n][..k] && t[..k] == t[..8 * n][..k];
      AbsorbSame(w, s, t, n - 1);
      assert s[k..k + 8] == s[..8 * n][k..] && t[k..k + 8] == t[..8 * n][k..];
      OrBytesSame(0, s, t, k, 8);
    }
  }

  /** The last padded word is the partial word with the length folded in. */
  lemma LastWord(s: seq<byte>, p: seq<byte>, off: nat, r: nat, len: byte)
    requires |s| == off + r && r < 8 && |p| == off + 8
    requires p == s + Zeros(7 - r) + [len]
    ensures OrBytes(0, p, off, 8) == OrBytes(Lane(len, 7), s, off, r)
  {
    hide Lane, Or;
    assert s[off..off + r] == p[off..off + r];
    OrBytesSame(0, s, p, off, r);
    OrBytesZeros(p, off, r, 7);
    OrBytesAccumulator(Lane(len, 7), s, off, r);
  }

  lemma PaddedShape(s: seq<byte>, q: nat, r: nat)
    requires q == |s| / 8 && r == |s| % 8
    ensures |s| == 8 * q + r && |Padded(s)| == 8 * q + 8
    ensures Padded(s) == s + Zeros(7 - r) + [|s| % 256] && s[..8 * q] == Padded(s)[..8 * q]
  {
  }

  lemma AbsorbStep(w: Words, s: seq<byte>, n: nat)
    requires 8 * (n + 1) <= |s|
    ensures Absorb(w, s, n + 1) == Compress(Absorb(w, s, n), OrBytes(0, s, 8 * n, 8))
  {
    hide Compress, OrBytes;
  }

  /** Folding the length into the partial last word is the same as padding the message. */
  lemma HashByTail(s: seq<byte>)
    ensures var q := |s| / 8;
            Hash(s) == Finalize(Compress(Absorb(Initial(), s, q), OrBytes(LengthWord(|s|), s, 8 * q, |s| % 8)))
  {
    hide Compress, Finalize, OrBytes, Initial, Lane, Absorb, Padded, Zeros;
    var q, r, p := |s| / 8, |s| % 8, Padded(s);
    PaddedShape(s, q, r);
    AbsorbSame(Initial(), s, p, q);
    AbsorbStep(Initial(), p, q);
    LastWord(s, p, 8 * q, r, |s| % 256);
  }

  /** The four words, updated in place. */
  class State {
    var v0: bv64
    var v1: bv64
    var v2: bv64
    var v3: bv64

    function Value(): Words
      reads this
    {
      Words(v0, v1, v2, v3)
    }

    constructor ()
      ensures Value() == Initial()
    {
      v0 := 0x736f6d6570736575 ^ K0;
      v1 := 0x646f72616e646f6d ^ K1;
      v2 := 0x6c7967656e657261 ^ K0;
      v3 := 0x7465646279746573 ^ K1;
    }

    /** The statement order of the source. */
    method Round()
      modifies this
      ensures Value() == SipRound(old(Value()))
    {
      hide Add, Xor, RotL;
      v0 := Add(v0, v1);
      v1 := RotL(v1, 13);
      v1 := Xor(v1, v0);
      v0 := RotL(v0, 32);
      v2 := Add(v2, v3);
      v3 := RotL(v3, 16);
      v3 := Xor(v3, v2);
      v0 := Add(v0, v3);
      v3 := RotL(v3, 21);
      v3 := Xor(v3, v0);
      v2 := Add(v2, v1);
      v1 := RotL(v1, 17);
      v1 := Xor(v1, v2);
      v2 := RotL(v2, 32);
    }

    method AbsorbWord(m: bv64)
      modifies this
      ensures Value() == Compress(old(Value()), m)
    {
      hide Xor, SipRound;
      v3 := Xor(v3, m);
      Round();
      Round();
      v0 := Xor(v0, m);
    }

    method Finish() returns (h: bv64)
      modifies this
      ensures h == Finalize(old(Value()))
    {
      hide Xor, SipRound;
      v2 := Xor(v2, 0xff);
      Round();
      Round();
      Round();
      Round();
      h := Xor(Xor(Xor(v0, v1), v2), v3);
    }
  }

  /** The control plane: an open loop over whole words, an unrolled load, then the rest. */
  method HashBytes(data: array<byte>, len: nat) returns (h: bv64)
    requires len <= data.Length
    ensures h == Hash(data[..len])
  {
    hide Hash, Compress, Finalize, LengthWord, OrBytes, Initial, Absorb;
    var v := new State();
    var off := AbsorbWhole(v, data, len);
    var b := OrRest(data, len, off, LengthWord(len));
    HashByTail(data[..len]);
    v.AbsorbWord(b);
    h := v.Finish();
  }

  method AbsorbWhole(v: State, data: array<byte>, len: nat) returns (off: nat)
    requires len <= data.Length
    modifies v
    ensures off == 8 * (len / 8)
    ensures v.Value() == Absorb(old(v.Value()), data[..len], len / 8)
  {
    hide Compress, OrBytes;
    off := 0;
    ghost var n := 0;
    while off + 8 <= len
      invariant 0 <= off == 8 * n <= len
      invariant v.Value() == Absorb(old(v.Value()), data[..len], n)
    {
      var m := UnrolledLoad(data, len, off);
      v.AbsorbWord(m);
      off, n := off + 8, n + 1;
    }
  }

  method OrRest(data: array<byte>, len: nat, off: nat, acc: bv64) returns (b: bv64)
    requires off <= len <= data.Length && len - off < 8
    ensures b == OrBytes(acc, data[..len], off, len - off)
  {
    hide Lane, Or;
    b := acc;
    for i := 0 to len - off
      invariant b == OrBytes(acc, data[..len], off, i)
    {
      b := Or(b, Lane(data[off + i], i));
    }
  }

  method UnrolledLoad(data: array<byte>, len: nat, off: nat) returns (m: bv64)
    requires off + 8 <= len <= data.Length
    ensures m == OrBytes(0, data[..len], off, 8)
  {
    hide Lane, Or;
    m := Lane(data[off], 0);
    m := Or(m, Lane(data[off + 1], 1));
    m := Or(m, Lane(data[off + 2], 2));
    m := Or(m, Lane(data[off + 3], 3));
    m := Or(m, Lane(data[off + 4], 4));
    m := Or(m, Lane(data[off + 5], 5));
    m := Or(m, Lane(data[off + 6], 6));
    m := Or(m, Lane(data[off + 7], 7));
    OrSwap(Lane(data[off], 0), 0, 0);
    ghost var s := data[..len];
    assert OrBytes(0, s, off, 1) == Lane(data[off], 0);
    assert OrBytes(0, s, off, 2) == Or(OrBytes(0, s, off, 1), Lane(s[off + 1], 1));
    assert OrBytes(0, s, off, 3) == Or(OrBytes(0, s, off, 2), Lane(s[off + 2], 2));
    assert OrBytes(0, s, off, 4) == Or(OrBytes(0, s, off, 3), Lane(s[off + 3], 3));
    assert OrBytes(0, s, off, 5) == Or(OrBytes(0, s, off, 4), Lane(s[off + 4], 4));
    assert OrBytes(0, s, off, 6) == Or(OrBytes(0, s, off, 5), Lane(s[off + 5], 5));
    assert OrBytes(0, s, off, 7) == Or(OrBytes(0, s, off, 6), Lane(s[off + 6], 6));
  }

  /** The data plane: at most 31 whole words and at most 7 tail bytes, whatever the length. */
  method HashQname(qname: array<byte>, len: nat) returns (h: bv64)
    requires len <= MAX_NAME && MAX_NAME < qname.Length
    ensures h == Hash(qname[..len])
  {
    hide Hash, Compress, Finalize, LengthWord, OrBytes, Initial, Absorb;
    var v := new State();
    AbsorbBlocks(v, qname, len);
    var b := OrTail(qname, len, (len / 8) * 8, LengthWord(len));
    HashByTail(qname[..len]);
    v.AbsorbWord(b);
    h := v.Finish();
  }

  method AbsorbBlocks(v: State, qname: array<byte>, len: nat)
    requires len <= MAX_NAME && MAX_NAME < qname.Length
    modifies v
    ensures v.Value() == Absorb(old(v.Value()), qname[..len], len / 8)
  {
    hide Compress, OrBytes;
    var blk := 0;
    while blk < 31
      invariant 0 <= blk <= 31 && 8 * blk <= len
      invariant v.Value() == Absorb(old(v.Value()), qname[..len], blk)
    {
      var off := blk * 8;
      if off + 8 > len {
        break;
      }
      var m := LoadWord(qname, len, off);
      v.AbsorbWord(m);
      blk := blk + 1;
    }
  }

  method LoadWord(qname: array<byte>, len: nat, off: nat) returns (m: bv64)
    requires off + 8 <= len <= qname.Length
    ensures m == OrBytes(0, qname[..len], off, 8)
  {
    hide Lane, Or;
    m := 0;
    for j := 0 to 8
      invariant m == OrBytes(0, qname[..len], off, j)
    {
      m := Or(m, Lane(qname[off + j], j));
    }
  }

  method OrTail(qname: array<byte>, len: nat, off: nat, acc: bv64) returns (b: bv64)
    requires off <= len <= qname.Length && len - off < 8
    ensures b == OrBytes(acc, qname[..len], off, len - off)
  {
    hide Lane, Or;
    b := acc;
    var i := 0;
    while i < 7
      invariant 0 <= i <= 7 && off + i <= len
      invariant b == OrBytes(acc, qname[..len], off, i)
    {
      if off + i >= len {
        break;
      }
      b := Or(b, Lane(qname[off + i], i));
      i := i + 1;
    }
  }
}
