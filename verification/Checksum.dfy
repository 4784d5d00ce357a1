/** Internet checksums (RFC 1071) and their incremental update (equation 3, section 3 of RFC 1624). */
module Checksum {
  import opened Bytes

  function Fold(n: nat): nat {
    n % 0x1_0000 + n / 0x1_0000
  }

  /** Folds carries until sixteen bits remain: the one's complement sum. */
  function FoldAll(n: nat): nat {
    if n < 0x1_0000 then n else FoldAll(Fold(n))
  }

  /** The sum of the 16-bit words in network order; an odd last byte is padded with zero. */
  function NetSum(s: seq<byte>): nat {
    if |s| == 0 then 0
    else if |s| == 1 then (s[0] as int) * 256
    else (s[0] as int) * 256 + s[1] + NetSum(s[2..])
  }

  /** Section 1 of RFC 1071: the one's complement sum over data and checksum is all ones. */
  predicate ChecksumOk(s: seq<byte>) {
    FoldAll(NetSum(s)) == 0xffff
  }

  /** A 16-bit field as a little-endian host loads it. */
  function Load16(s: seq<byte>, at: nat): u16
    requires at + 2 <= |s|
  {
    var high: int := s[at + 1];
    high * 256 + s[at]
  }

  function Store16(s: seq<byte>, at: nat, v: u16): (r: seq<byte>)
    requires at + 2 <= |s|
    ensures |r| == |s|
  {
    s[at := v % 256][at + 1 := v / 256]
  }

  /** The same sum over host-order words. */
  function HostSum(s: seq<byte>): nat {
    if |s| == 0 then 0
    else if |s| == 1 then s[0]
    else Load16(s, 0) + HostSum(s[2..])
  }

  /** The update the data plane applies when a covered word changes from old to new. */
  function Replace(check: u16, oldv: u16, newv: u16): u16 {
    var csum := (0xffff - check) + (0xffff - oldv) + newv;
    0xffff - Fold(Fold(csum)) % 0x1_0000
  }

  /** Two folds always suffice, so the truncation to sixteen bits drops nothing. */
  lemma TwoFoldsSuffice(check: u16, oldv: u16, newv: u16)
    ensures Fold(Fold((0xffff - check) + (0xffff - oldv) + newv)) < 0x1_0000
  {
  }

  lemma {:induction false} FoldAllIffMultiple(n: nat)
    ensures FoldAll(n) == 0xffff <==> n > 0 && n % 0xffff == 0
  {
    if n >= 0x1_0000 {
      FoldAllIffMultiple(Fold(n));
      FoldCongruent(n);
    }
  }

  lemma FoldCongruent(n: nat)
    ensures Fold(n) % 0xffff == n % 0xffff
    ensures Fold(n) == 0 <==> n == 0
  {
    var q := n / 0x1_0000;
    assert n == Fold(n) + 0xffff * q;
    ModShift(Fold(n), q);
  }

  lemma {:induction false} ModShift(x: int, q: int)
    ensures (x + 0xffff * q) % 0xffff == x % 0xffff
  {
  }

  lemma FoldMoves(n: nat)
    ensures Fold(n) == n - 0xffff * (n / 0x1_0000)
  {
  }

  lemma TwoFoldsMove(n: nat) returns (q: int)
    ensures Fold(Fold(n)) == n - 0xffff * q
  {
    hide Fold;
    FoldMoves(n);
    FoldMoves(Fold(n));
    q := n / 0x1_0000 + Fold(n) / 0x1_0000;
  }

  lemma ReplaceIsFold(check: u16, oldv: u16, newv: u16)
    ensures Replace(check, oldv, newv) == 0xffff - Fold(Fold((0xffff - check) + (0xffff - oldv) + newv))
  {
    TwoFoldsSuffice(check, oldv, newv);
    hide Fold;
  }

  /** The update moves the checksum by exactly old - new, up to a multiple of 0xffff. */
  lemma ReplaceMoves(check: u16, oldv: u16, newv: u16) returns (q: int)
    ensures Replace(check, oldv, newv) == (check as int) + oldv - newv + 0xffff * q
  {
    hide Fold, Replace;
    ReplaceIsFold(check, oldv, newv);
    q := TwoFoldsMove((0xffff - check) + (0xffff - oldv) + newv);
    q := q - 1;
  }

  /** All ones is reached only from the one input whose complement sum is zero. */
  lemma ReplaceAllOnes(check: u16, oldv: u16, newv: u16)
    ensures Replace(check, oldv, newv) == 0xffff <==> check == 0xffff && oldv == 0xffff && newv == 0
  {
    hide Fold, Replace;
    var csum: int := (0xffff - check) + (0xffff - oldv) + newv;
    FoldCongruent(csum);
    FoldCongruent(Fold(csum));
    ReplaceIsFold(check, oldv, newv);
  }

  /** Zero is reached exactly when the words cancel, but for that one input. */
  lemma ReplaceZeroIff(check: u16, oldv: u16, newv: u16)
    ensures Replace(check, oldv, newv) == 0 <==>
            (check as int + oldv - newv) % 0xffff == 0 && !(check == 0xffff && oldv == 0xffff && newv == 0)
  {
    hide Replace;
    var moved := check as int + oldv - newv;
    var q := ReplaceMoves(check, oldv, newv);
    ModShift(moved, q);
    ReplaceAllOnes(check, oldv, newv);
  }

  function Swap(x: u16): u16 {
    (x % 256) * 256 + x / 256
  }

  lemma SwapMoves(x: u16)
    ensures Swap(x) == 256 * (x as int) - 0xffff * (x / 256)
    ensures Swap(x) == 0 <==> x == 0
    ensures Swap(x) == 0xffff <==> x == 0xffff
  {
  }

  /** Congruent words are equal unless one is zero and the other all ones. */
  lemma Within(x: u16, y: u16, m: int)
    requires x == y + 0xffff * m && (x == 0xffff <==> y == 0xffff)
    ensures x == y
  {
  }

  /** Section 2(B) of RFC 1071: byte order does not matter, exactly. */
  lemma ReplaceCommutesWithSwap(check: u16, oldv: u16, newv: u16)
    ensures Replace(Swap(check), Swap(oldv), Swap(newv)) == Swap(Replace(check, oldv, newv))
  {
    hide Swap, Replace;
    var left, right := Replace(Swap(check), Swap(oldv), Swap(newv)), Replace(check, oldv, newv);
    var q := ReplaceMoves(Swap(check), Swap(oldv), Swap(newv));
    var r := ReplaceMoves(check, oldv, newv);
    SwapMoves(check);
    SwapMoves(oldv);
    SwapMoves(newv);
    SwapMoves(right);
    ReplaceAllOnes(Swap(check), Swap(oldv), Swap(newv));
    ReplaceAllOnes(check, oldv, newv);
    var m := q - check / 256 - oldv / 256 + newv / 256 - 256 * r + right / 256;
    assert left == Swap(right) + 0xffff * m;
    Within(left, Swap(right), m);
  }

  /** Undoing an update restores the checksum, except that 0xffff comes back as its twin zero. */
  lemma ReplaceUndo(check: u16, oldv: u16, newv: u16)
    ensures Replace(Replace(check, oldv, newv), newv, oldv) == if check == 0xffff then 0 else check
  {
    hide Replace;
    var mid := Replace(check, oldv, newv);
    var q := ReplaceMoves(check, oldv, newv);
    var r := ReplaceMoves(mid, newv, oldv);
    ReplaceAllOnes(check, oldv, newv);
    ReplaceAllOnes(mid, newv, oldv);
    assert Replace(mid, newv, oldv) == check + 0xffff * (q + r);
  }

  lemma {:induction false} HostSumMoves(s: seq<byte>) returns (q: nat)
    ensures HostSum(s) == 256 * NetSum(s) - 0xffff * q
    ensures HostSum(s) == 0 <==> NetSum(s) == 0
  {
    if |s| == 0 {
      q := 0;
    } else if |s| == 1 {
      q := s[0];
    } else {
      q := HostSumMoves(s[2..]);
      q := q + s[0];
    }
  }

  /** Host order or network order: the same packets are valid. */
  lemma ChecksumOkByHostSum(s: seq<byte>)
    ensures ChecksumOk(s) <==> HostSum(s) > 0 && HostSum(s) % 0xffff == 0
  {
    var h, n := HostSum(s), NetSum(s);
    FoldAllIffMultiple(n);
    var q := HostSumMoves(s);
    ScaledMultiple(h, n, q);
  }

  lemma ScaledMultiple(h: nat, n: nat, q: nat)
    requires h == 256 * n - 0xffff * q
    ensures h % 0xffff == 0 <==> n % 0xffff == 0
  {
    if n % 0xffff == 0 {
      var k := n / 0xffff;
      assert h == 0 + 0xffff * (256 * k - q);
      ModShift(0, 256 * k - q);
    }
    if h % 0xffff == 0 {
      var k := h / 0xffff;
      assert 256 * n == 0xffff * (k + q);
      assert n == 0 + 0xffff * (256 * (k + q) - n);
      ModShift(0, 256 * (k + q) - n);
    }
  }

  lemma {:induction false} HostSumConcat(a: seq<byte>, b: seq<byte>)
    requires |a| % 2 == 0
    ensures HostSum(a + b) == HostSum(a) + HostSum(b)
  {
    if a == [] {
      assert a + b == b;
    } else {
      HostSumConcat(a[2..], b);
      assert (a + b)[2..] == a[2..] + b;
    }
  }

  lemma {:induction false} HostSumStore(s: seq<byte>, at: nat, v: u16)
    requires at + 2 <= |s| && at % 2 == 0
    ensures HostSum(Store16(s, at, v)) == HostSum(s) - Load16(s, at) + v
  {
    var t := Store16(s, at, v);
    if at == 0 {
      assert t[2..] == s[2..];
    } else {
      HostSumStore(s[2..], at - 2, v);
      assert t[2..] == Store16(s[2..], at - 2, v);
    }
  }
}
