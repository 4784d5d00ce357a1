/** Integers as the 64-bit machine words the hashes and mixers work on. */
module Widening {

  /** Appends one binary digit. */
  function Push(w: bv64, digit: bool): bv64 {
    (w << 1) | (if digit then 1 else 0)
  }

  /** The low 64 bits of the binary expansion of n: C's conversion to uint64_t. */
  function Word(n: nat): bv64 {
    if n == 0 then 0 else Push(Word(n / 2), n % 2 == 1)
  }

  function Pow2(k: nat): (p: nat)
    ensures p > 0
  {
    if k == 0 then 1 else 2 * Pow2(k - 1)
  }

  function Value(w: bv64): (n: nat)
    ensures n < 0x1_0000_0000_0000_0000
  {
    w as nat
  }

  predicate TopFree(x: bv64) {
    x < 0x8000_0000_0000_0000
  }

  lemma DoubleValue(w: bv64)
    requires w < 0x8000_0000_0000_0000
    ensures (w << 1) as nat == 2 * (w as nat)
  {
  }

  lemma DoubleAndOneValue(w: bv64)
    requires w < 0x8000_0000_0000_0000
    ensures ((w << 1) | 1) as nat == 2 * (w as nat) + 1
  {
  }

  lemma OrZero(w: bv64)
    ensures w | 0 == w
  {
  }

  /** A word with one more digit, as a number. */
  lemma PushValue(w: bv64, digit: bool)
    requires TopFree(w)
    ensures Value(Push(w, digit)) == 2 * Value(w) + if digit then 1 else 0
  {
    if digit {
      DoubleAndOneValue(w);
    } else {
      DoubleValue(w);
      OrZero(w << 1);
    }
  }

  lemma SmallTopFree(w: bv64)
    requires Value(w) < 0x8000_0000_0000_0000
    ensures TopFree(w)
  {
  }

  lemma TopFreeValue(w: bv64)
    requires TopFree(w)
    ensures Value(w) < 0x8000_0000_0000_0000
  {
    hide Push;
    PushValue(w, false);
    assert Value(Push(w, false)) < 0x1_0000_0000_0000_0000;
  }

  /** Every 64-bit number is the value of its word. */
  lemma {:induction false} WordValue(n: nat)
    requires n < 0x1_0000_0000_0000_0000
    ensures Value(Word(n)) == n
  {
    hide Push, Value, TopFree;
    if n == 0 {
      ZeroValue();
    } else {
      WordValue(n / 2);
      SmallTopFree(Word(n / 2));
      PushValue(Word(n / 2), n % 2 == 1);
    }
  }

  lemma ZeroValue()
    ensures Value(0) == 0
  {
  }

  /** So 64-bit numbers keep their identity as words. */
  lemma WordInjective(m: nat, n: nat)
    requires m < 0x1_0000_0000_0000_0000 && n < 0x1_0000_0000_0000_0000
    requires Word(m) == Word(n)
    ensures m == n
  {
    hide Word, Value;
    WordValue(m);
    WordValue(n);
  }
}
