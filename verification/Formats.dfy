/** Text as the control plane prints it. */
module Formats {
  import opened Bytes

  /** The bytes of a string of ASCII characters; anything else would become a question mark. */
  function Ascii(s: string): (r: seq<byte>)
    ensures |r| == |s|
    ensures forall i :: 0 <= i < |s| ==> r[i] == if s[i] < 128 as char then s[i] as int else 63
  {
    seq(|s|, i requires 0 <= i < |s| => if s[i] < 128 as char then s[i] as int else 63)
  }

  /** Decimal digits, as %u and %zu print them. */
  function Decimal(n: nat): seq<byte> {
    if n < 10 then [48 + n] else Decimal(n / 10) + [48 + n % 10]
  }

  /** Lower-case hexadecimal digits, as %x prints them. */
  function Hex(n: nat): seq<byte> {
    if n < 16 then [HexDigit(n)] else Hex(n / 16) + [HexDigit(n % 16)]
  }

  function HexDigit(d: nat): byte
    requires d < 16
  {
    if d < 10 then 48 + d else 87 + d
  }

  /** Zero-padded on the left, as %016llx pads. */
  function Padded(digits: seq<byte>, width: nat): seq<byte> {
    if |digits| >= width then digits else seq(width - |digits|, _ => 48) + digits
  }

  /** Printing is injective. */
  lemma {:induction false} DecimalInjective(m: nat, n: nat)
    requires Decimal(m) == Decimal(n)
    ensures m == n
  {
    DecimalNonEmpty(m / 10);
    DecimalNonEmpty(n / 10);
    if m >= 10 && n >= 10 {
      var a, b := Decimal(m / 10), Decimal(n / 10);
      assert Decimal(m)[..|a|] == a && Decimal(n)[..|b|] == b;
      assert Decimal(m)[|a|] == 48 + m % 10 && Decimal(n)[|b|] == 48 + n % 10;
      DecimalInjective(m / 10, n / 10);
    }
  }

  lemma DecimalNonEmpty(n: nat)
    ensures Decimal(n) != []
  {
  }

  /** Numbers are digits. */
  lemma {:induction false} DecimalDigits(n: nat)
    ensures forall i :: 0 <= i < |Decimal(n)| ==> 48 <= Decimal(n)[i] <= 57
  {
    if n >= 10 {
      DecimalDigits(n / 10);
    }
  }

  predicate IsHexDigit(b: byte) {
    48 <= b <= 57 || 97 <= b <= 102
  }

  lemma {:induction false} HexDigits(n: nat, width: nat)
    ensures forall i :: 0 <= i < |Hex(n)| ==> IsHexDigit(Hex(n)[i])
    ensures forall i :: 0 <= i < |Padded(Hex(n), width)| ==> IsHexDigit(Padded(Hex(n), width)[i])
  {
    if n >= 16 {
      HexDigits(n / 16, 0);
    }
  }

  // Reading numbers back.

  /** The number that decimal digits denote; a leading zero would make it octal in C. */
  function DecimalValue(w: seq<byte>): Option<nat> {
    if w == [] || (|w| > 1 && w[0] == 48) then None else DigitsValue(w)
  }

  function DigitsValue(w: seq<byte>): Option<nat> {
    if w == [] then Some(0)
    else
      match DigitsValue(w[..|w| - 1])
      case None => None
      case Some(n) => if 48 <= w[|w| - 1] <= 57 then Some(10 * n + w[|w| - 1] - 48) else None
  }

  function NibbleOf(b: byte): Option<nat> {
    if 48 <= b <= 57 then Some(b - 48)
    else if 97 <= b <= 102 then Some(b - 87)
    else if 65 <= b <= 70 then Some(b - 55)
    else None
  }

  function HexValue(w: seq<byte>): Option<nat> {
    if w == [] then Some(0)
    else
      match HexValue(w[..|w| - 1])
      case None => None
      case Some(n) =>
        match NibbleOf(w[|w| - 1])
        case None => None
        case Some(d) => Some(16 * n + d)
  }

  lemma {:induction false} DigitsStep(v: seq<byte>)
    requires v != []
    ensures DigitsValue(v) ==
            match DigitsValue(v[..|v| - 1])
            case None => None
            case Some(n) => if 48 <= v[|v| - 1] <= 57 then Some(10 * n + v[|v| - 1] - 48) else None
  {
  }

  lemma {:induction false} DigitsAppend(w: seq<byte>, n: nat, d: nat)
    requires DigitsValue(w) == Some(n) && d < 10
    ensures DigitsValue(w + [48 + d]) == Some(10 * n + d)
  {
    hide DigitsValue;
    var v := w + [48 + d];
    assert v[..|v| - 1] == w && v[|v| - 1] == 48 + d;
    DigitsStep(v);
  }

  lemma {:induction false} DecimalFirst(n: nat)
    requires n > 0
    ensures Decimal(n) != [] && Decimal(n)[0] != 48
  {
    if n >= 10 {
      DecimalFirst(n / 10);
    }
  }

  lemma {:induction false} DigitsOfDecimal(n: nat)
    ensures DigitsValue(Decimal(n)) == Some(n)
  {
    if n < 10 {
      assert [] + [48 + n] == Decimal(n);
      DigitsAppend([], 0, n);
    } else {
      DigitsOfDecimal(n / 10);
      DigitsAppend(Decimal(n / 10), n / 10, n % 10);
    }
  }

  /** Reading a printed number gives the number. */
  lemma DecimalReads(n: nat)
    ensures DecimalValue(Decimal(n)) == Some(n)
  {
    DigitsOfDecimal(n);
    DecimalNonEmpty(n);
    if n > 0 {
      DecimalFirst(n);
    }
  }

  lemma {:induction false} HexAppend(w: seq<byte>, n: nat, d: nat)
    requires HexValue(w) == Some(n) && d < 16
    ensures HexValue(w + [HexDigit(d)]) == Some(16 * n + d)
  {
    assert (w + [HexDigit(d)])[..|w|] == w;
  }

  lemma {:induction false} HexReads(n: nat)
    ensures HexValue(Hex(n)) == Some(n)
  {
    if n < 16 {
      assert [] + [HexDigit(n)] == Hex(n);
      HexAppend([], 0, n);
    } else {
      HexReads(n / 16);
      HexAppend(Hex(n / 16), n / 16, n % 16);
    }
  }

  /** Zeros in front do not count. */
  lemma {:induction false} ZerosInFront(z: nat, w: seq<byte>)
    ensures HexValue(seq(z, _ => 48) + w) == HexValue(w)
  {
    var zeros: seq<byte> := seq(z, _ => 48);
    if w != [] {
      ZerosInFront(z, w[..|w| - 1]);
      assert (zeros + w)[..|zeros + w| - 1] == zeros + w[..|w| - 1];
    } else if z > 0 {
      ZerosInFront(z - 1, []);
      assert (zeros + w)[..z - 1] == seq(z - 1, _ => 48) + [];
    } else {
      assert zeros + w == w;
    }
  }

  lemma PaddedReads(n: nat, width: nat)
    ensures HexValue(Padded(Hex(n), width)) == Some(n)
  {
    HexReads(n);
    if |Hex(n)| < width {
      ZerosInFront(width - |Hex(n)|, Hex(n));
    }
  }
}
