/** Machine words, bytes and the ASCII case folding shared by both planes. */
module Bytes {

  datatype Option<+T> = None | Some(value: T)

  type byte = b: int | 0 <= b < 0x100
  type u16 = n: int | 0 <= n < 0x1_0000
  type u32 = n: int | 0 <= n < 0x1_0000_0000
  type u64 = n: int | 0 <= n < 0x1_0000_0000_0000_0000

  const DOT: byte := 46
  const MAX_NAME := 255

  /** A C string: the terminator is not part of it. */
  predicate NulFree(s: seq<byte>) {
    forall i :: 0 <= i < |s| ==> s[i] != 0
  }

  function Lower(b: byte): byte {
    if 65 <= b <= 90 then b + 32 else b
  }

  function LowerAll(s: seq<byte>): (r: seq<byte>)
    ensures |r| == |s|
    ensures forall i :: 0 <= i < |s| ==> r[i] == Lower(s[i])
  {
    seq(|s|, i requires 0 <= i < |s| => Lower(s[i]))
  }

  lemma LowerAllConcat(a: seq<byte>, b: seq<byte>)
    ensures LowerAll(a + b) == LowerAll(a) + LowerAll(b)
  {
  }

  /** Network-order 16-bit field at offset i. */
  function Be16(s: seq<byte>, i: nat): u16
    requires i + 2 <= |s|
  {
    var high: int := s[i];
    high * 256 + s[i + 1]
  }

  predicate IsSuffix(suffix: seq<byte>, s: seq<byte>) {
    |suffix| <= |s| && s[|s| - |suffix|..] == suffix
  }

  /** A capital is lowered to the letter at its place in the alphabet; everything else stays. */
  lemma LowerIsAlphabet(i: nat, b: byte)
    requires i < 26
    ensures Lower('A' as int + i) == 'a' as int + i
    ensures b < 'A' as int || 'Z' as int < b ==> Lower(b) == b
    ensures 'A' as int + 25 == 'Z' as int && 'a' as int + 25 == 'z' as int
  {
  }
}
