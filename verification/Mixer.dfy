/** The 64-bit finalizing mixer of both planes, and its inverse. */
module Mixer {

  function Fold(x: bv64): bv64 {
    x ^ (x >> 33)
  }

  function Scale1(x: bv64): bv64 {
    x * 0xff51afd7ed558ccd
  }

  function Scale2(x: bv64): bv64 {
    x * 0xc4ceb9fe1a85ec53
  }

  function Mix(x: bv64): bv64 {
    Fold(Scale2(Fold(Scale1(Fold(x)))))
  }

  // The inverses: the fold is its own, the odd factors have inverses modulo 2^64.

  function Unscale1(x: bv64): bv64 {
    x * 0x4f74430c22a54005
  }

  function Unscale2(x: bv64): bv64 {
    x * 0x9cb4b2f8129337db
  }

  function Unmix(y: bv64): bv64 {
    Fold(Unscale1(Fold(Unscale2(Fold(y)))))
  }

  lemma FoldUndoes(x: bv64, y: bv64)
    requires y == x ^ (x >> 33)
    ensures Fold(y) == x
  {
  }

  lemma Unscale1Undoes(x: bv64, y: bv64)
    requires y == x * 0xff51afd7ed558ccd
    ensures Unscale1(y) == x
  {
  }

  lemma Unscale2Undoes(x: bv64, y: bv64)
    requires y == x * 0xc4ceb9fe1a85ec53
    ensures Unscale2(y) == x
  {
  }

  lemma Scale1Undoes(x: bv64, y: bv64)
    requires y == x * 0x4f74430c22a54005
    ensures Scale1(y) == x
  {
  }

  lemma Scale2Undoes(x: bv64, y: bv64)
    requires y == x * 0x9cb4b2f8129337db
    ensures Scale2(y) == x
  {
  }

  lemma FoldFold(x: bv64)
    ensures Fold(Fold(x)) == x
  {
    FoldUndoes(x, Fold(x));
  }

  lemma ScaleInverses(x: bv64)
    ensures Unscale1(Scale1(x)) == x && Unscale2(Scale2(x)) == x
    ensures Scale1(Unscale1(x)) == x && Scale2(Unscale2(x)) == x
  {
    assert Unscale1(Scale1(x)) == x by { Unscale1Undoes(x, Scale1(x)); }
    assert Unscale2(Scale2(x)) == x by { Unscale2Undoes(x, Scale2(x)); }
    assert Scale1(Unscale1(x)) == x by { Scale1Undoes(x, Unscale1(x)); }
    assert Scale2(Unscale2(x)) == x by { Scale2Undoes(x, Unscale2(x)); }
  }

  /** The mixer is a bijection on 64-bit words. */
  lemma MixBijective(x: bv64)
    ensures Unmix(Mix(x)) == x
    ensures Mix(Unmix(x)) == x
  {
    hide Fold, Scale1, Scale2, Unscale1, Unscale2;
    var a := Scale1(Fold(x));
    var b := Scale2(Fold(a));
    FoldFold(b);
    ScaleInverses(Fold(a));
    FoldFold(a);
    ScaleInverses(Fold(x));
    FoldFold(x);
    var c := Unscale2(Fold(x));
    var d := Unscale1(Fold(c));
    FoldFold(d);
    ScaleInverses(Fold(c));
    FoldFold(c);
    ScaleInverses(Fold(x));
  }

  lemma MixInjective(x: bv64, y: bv64)
    requires Mix(x) == Mix(y)
    ensures x == y
  {
    hide Mix, Unmix;
    MixBijective(x);
    MixBijective(y);
  }

  /** Worked values, which fix the shift distances and the factors. */
  lemma MixAnchors()
    ensures Mix(1) == 0xb456bcfc34c2cb2c && Mix(2) == 0x3abf2a20650683e7
  {
  }
}
