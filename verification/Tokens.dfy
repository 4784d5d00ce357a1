/** The tokens that mark the holes of the template. */
module Tokens {
  import opened Bytes
  import opened Formats
  import opened Substitution

  const CAPITAL_Z: byte := 90

  /** What tokens are made of. */
  predicate TokenByte(b: byte) {
    65 <= b <= 90 || b == 95 || b == 47 || b == 42
  }

  predicate TokenLike(t: seq<byte>) {
    t != [] && CAPITAL_Z in t && forall i :: 0 <= i < |t| ==> TokenByte(t[i])
  }

  /** A text without a capital Z contains no token. */
  lemma NoZFree(text: seq<byte>, token: seq<byte>)
    requires TokenLike(token) && CAPITAL_Z !in text
    ensures Free(text, token)
  {
    hide Occurs;
    var z :| 0 <= z < |token| && token[z] == CAPITAL_Z;
    forall i | 0 <= i < |text|
      ensures !Occurs(text, token, i)
    {
      if Occurs(text, token, i) {
        OccursAt(text, token, i, z);
      }
    }
  }

  lemma OccursAt(text: seq<byte>, token: seq<byte>, i: nat, j: nat)
    requires Occurs(text, token, i) && j < |token|
    ensures i + j < |text| && text[i + j] == token[j]
  {
    assert text[i..i + |token|][j] == text[i + j];
  }

  function Marked(name: seq<byte>): seq<byte> {
    Ascii("__ZEREH_") + name + Ascii("__")
  }

  function Commented(t: seq<byte>): seq<byte> {
    Ascii("/*") + t + Ascii("*/")
  }

  function Name(k: nat): string
    requires k < 9
  {
    match k
    case 0 => "ROUTE_CASES"
    case 1 => "FALLBACK_RULES"
    case 2 => "MAX_PACKET_SIZE"
    case 3 => "ALLOWED_OPCODE_MASK"
    case 4 => "DROP_TRUNCATED"
    case 5 => "DEFAULT_ACTION"
    case 6 => "INLINE_CHECKSUMS"
    case 7 => "HASH_ALGO"
    case _ => "RATE_STATE_ENTRIES"
  }

  function Token(k: nat): seq<byte>
    requires k < 9
  {
    if k < 2 then Commented(Marked(Ascii(Name(k)))) else Marked(Ascii(Name(k)))
  }

  const TOKENS: seq<seq<byte>> :=
    [Token(0), Token(1), Token(2), Token(3), Token(4), Token(5), Token(6), Token(7), Token(8)]

  /** Capitals and underscores, in which no Z is followed by R at distance two. */
  predicate HoleName(s: string) {
    && |s| >= 9
    && (forall i :: 0 <= i < |s| ==> 'A' <= s[i] <= 'Z' || s[i] == '_')
    && (forall i :: 0 <= i < |s| - 2 && s[i] == 'Z' ==> s[i + 2] != 'R')
  }

  lemma NameOk(k: nat)
    requires k < 9
    ensures HoleName(Name(k))
  {
    hide HoleName;
    LiteralNames();
    SettingNames();
    OptionNames();
  }

  lemma LiteralNames()
    ensures HoleName("ROUTE_CASES") && HoleName("FALLBACK_RULES") && HoleName("MAX_PACKET_SIZE")
  {
  }

  lemma SettingNames()
    ensures HoleName("ALLOWED_OPCODE_MASK") && HoleName("DROP_TRUNCATED") && HoleName("DEFAULT_ACTION")
  {
  }

  lemma OptionNames()
    ensures HoleName("INLINE_CHECKSUMS") && HoleName("HASH_ALGO") && HoleName("RATE_STATE_ENTRIES")
  {
  }

  lemma NamesDiffer(j: nat, k: nat)
    requires j < 9 && k < 9 && j != k && |Name(j)| >= 2 && |Name(k)| >= 2
    ensures Name(j)[0] != Name(k)[0] || Name(j)[1] != Name(k)[1]
  {
  }

  /** The only Z that R follows at distance two is at z, and the two letters of the name come six bytes later. */
  predicate Named(t: seq<byte>, z: nat, a: byte, b: byte) {
    && 1 <= z && z + 8 <= |t|
    && t[z - 1] == 95
    && t[z] == CAPITAL_Z && t[z + 2] == 82 && t[z + 6] == a && t[z + 7] == b
    && (forall i :: 0 <= i < |t| - 2 && t[i] == CAPITAL_Z && t[i + 2] == 82 ==> i == z)
    && |t| >= 19
    && TokenLike(t)
  }

  lemma Brackets()
    ensures Ascii("__ZEREH_") == [95, 95, 90, 69, 82, 69, 72, 95] && Ascii("__") == [95, 95]
    ensures Ascii("/*") == [47, 42] && Ascii("*/") == [42, 47]
  {
  }

  lemma MarkedNamed(s: string)
    requires HoleName(s)
    ensures Named(Marked(Ascii(s)), 2, s[0] as int, s[1] as int)
  {
    var t := Marked(Ascii(s));
    Brackets();
    assert |t| == |s| + 10 && t[8] == s[0] as int && t[9] == s[1] as int;
    forall i | 0 <= i < |t|
      ensures TokenByte(t[i])
      ensures i < |t| - 2 && t[i] == CAPITAL_Z && t[i + 2] == 82 ==> i == 2
    {
      if 8 <= i < |s| + 8 {
        assert t[i] == s[i - 8] as int;
        if i + 2 < |s| + 8 {
          assert t[i + 2] == s[i - 6] as int;
        }
      }
    }
    assert t[2] in t;
  }

  lemma CommentedNamed(t: seq<byte>, z: nat, a: byte, b: byte)
    requires Named(t, z, a, b)
    ensures Named(Commented(t), z + 2, a, b)
  {
    Brackets();
    var c, open, close: seq<byte> := Commented(t), [47, 42], [42, 47];
    assert c == open + t + close;
    ShiftedNamed(c, open, t, close, z, a, b);
  }

  lemma ShiftedNamed(c: seq<byte>, open: seq<byte>, t: seq<byte>, close: seq<byte>, z: nat, a: byte, b: byte)
    requires c == open + t + close && open == [47, 42] && close == [42, 47] && Named(t, z, a, b)
    ensures Named(c, z + 2, a, b)
  {
    forall i | 0 <= i < |c|
      ensures TokenByte(c[i])
      ensures i < |c| - 2 && c[i] == CAPITAL_Z && c[i + 2] == 82 ==> i == z + 2
    {
      if 2 <= i < |t| + 2 {
        assert c[i] == t[i - 2];
        if i < |t| {
          assert c[i + 2] == t[i];
        }
      }
    }
    assert c[z + 2] in c;
  }

  function At(k: nat): nat {
    if k < 2 then 4 else 2
  }

  lemma TokenNamed(k: nat)
    requires k < 9
    ensures HoleName(Name(k)) && Named(Token(k), At(k), Name(k)[0] as int, Name(k)[1] as int)
  {
    hide Named, Marked, Commented, Name;
    NameOk(k);
    MarkedNamed(Name(k));
    if k < 2 {
      CommentedNamed(Marked(Ascii(Name(k))), 2, Name(k)[0] as int, Name(k)[1] as int);
    }
  }

  /** A name marks its token: two tokens with different letters do not contain each other. */
  lemma NamedFree(s: seq<byte>, t: seq<byte>, zs: nat, zt: nat, a: byte, b: byte, c: byte, d: byte)
    requires Named(s, zs, a, b) && Named(t, zt, c, d) && (a != c || b != d)
    ensures Free(s, t)
  {
    hide Occurs, TokenLike;
    forall i | 0 <= i < |s|
      ensures !Occurs(s, t, i)
    {
      if Occurs(s, t, i) {
        OccursAt(s, t, i, zt);
        OccursAt(s, t, i, zt + 2);
        OccursAt(s, t, i, zt + 6);
        OccursAt(s, t, i, zt + 7);
      }
    }
  }

  /** The nine tokens are none of each other's parts, at least 19 bytes long, and made of token bytes. */
  lemma TokensApart()
    ensures |TOKENS| == 9 && Apart(TOKENS)
    ensures forall k :: 0 <= k < 9 ==> TokenLike(TOKENS[k]) && |TOKENS[k]| >= 19
  {
    hide Named, Token, Name, Free, TokenLike;
    forall k | 0 <= k < 9
      ensures TokenLike(TOKENS[k]) && |TOKENS[k]| >= 19
    {
      TokenNamed(k);
      NamedFacts(Token(k), At(k), Name(k)[0] as int, Name(k)[1] as int);
    }
    forall j, k | 0 <= j < 9 && 0 <= k < 9 && j != k
      ensures Free(TOKENS[j], TOKENS[k])
    {
      TokenNamed(j);
      TokenNamed(k);
      NamesDiffer(j, k);
      NamedFree(Token(j), Token(k), At(j), At(k), Name(j)[0] as int, Name(j)[1] as int, Name(k)[0] as int,
                Name(k)[1] as int);
    }
  }

  lemma NamedFacts(t: seq<byte>, z: nat, a: byte, b: byte)
    requires Named(t, z, a, b)
    ensures TokenLike(t) && |t| >= 19
  {
  }

  // Templates in which no Z follows an underscore, except in the tokens.

  predicate Harmless(text: seq<byte>) {
    forall i :: 0 < i < |text| && text[i] == CAPITAL_Z ==> text[i - 1] != 95
  }

  lemma HarmlessFree(text: seq<byte>, k: nat)
    requires k < 9 && Harmless(text)
    ensures Free(text, TOKENS[k])
  {
    hide Occurs, TokenLike, Token, Name;
    TokenNamed(k);
    var t := TOKENS[k];
    forall i | 0 <= i < |text|
      ensures !Occurs(text, t, i)
    {
      if Occurs(text, t, i) {
        OccursAt(text, t, i, At(k) - 1);
        OccursAt(text, t, i, At(k));
      }
    }
  }

  lemma OutsideTokens(b: byte)
    requires !TokenByte(b)
    ensures !InSomeToken(b, TOKENS)
  {
    hide TOKENS;
    TokensApart();
  }

  /** Literal texts with a hole between each two of them. */
  function Weave(lits: seq<seq<byte>>, holes: seq<nat>): (pieces: seq<Piece>)
    requires |lits| == |holes| + 1
    ensures |pieces| == 2 * |holes| + 1
  {
    seq(2 * |holes| + 1, j requires 0 <= j < 2 * |holes| + 1 =>
      if j % 2 == 0 then Lit(lits[j / 2]) else Hole(holes[j / 2]))
  }

  /** Literal text i meets the holes next to it with bytes of no token. */
  predicate EdgesSafe(lits: seq<seq<byte>>, i: nat)
    requires i < |lits|
  {
    var text := lits[i];
    && (i > 0 ==> text != [] && !TokenByte(text[0]))
    && (i < |lits| - 1 ==> text != [] && !TokenByte(text[|text| - 1]))
  }

  lemma WeaveWellMarked(lits: seq<seq<byte>>, holes: seq<nat>)
    requires |lits| == |holes| + 1 && forall i :: 0 <= i < |holes| ==> holes[i] < 9
    requires forall i :: 0 <= i < |lits| ==> EdgesSafe(lits, i) && Harmless(lits[i])
    ensures WellMarked(Weave(lits, holes), TOKENS)
    ensures forall i :: 0 <= i < |holes| ==> Hole(holes[i]) in Weave(lits, holes)
  {
    hide Free, Harmless, TOKENS, TokenByte, InSomeToken;
    TokensApart();
    var pieces := Weave(lits, holes);
    forall j | 0 <= j < |pieces| - 1
      ensures Sealed(pieces[j], pieces[j + 1], TOKENS)
    {
      if j % 2 == 0 {
        assert EdgesSafe(lits, j / 2);
        var text := lits[j / 2];
        OutsideTokens(text[|text| - 1]);
      } else {
        assert pieces[j + 1] == Lit(lits[(j + 1) / 2]);
        assert EdgesSafe(lits, (j + 1) / 2);
        OutsideTokens(lits[(j + 1) / 2][0]);
      }
    }
    forall j, k | 0 <= j < |pieces| && pieces[j].Lit? && 0 <= k < 9
      ensures Free(pieces[j].text, TOKENS[k])
    {
      assert pieces[j].text == lits[j / 2];
      HarmlessFree(lits[j / 2], k);
    }
    forall i | 0 <= i < |holes|
      ensures Hole(holes[i]) in pieces
    {
      assert pieces[2 * i + 1] == Hole(holes[i]);
    }
  }

  /** The fixed lines between the holes: six definitions, and the end of the switch. */
  function Between(i: nat): string
    requires i < 7
  {
    match i
    case 0 => "\n#define ZEREH_ALLOWED_OPCODE_MASK ("
    case 1 => "u)\n#define ZEREH_DROP_TRUNCATED ("
    case 2 => "u)\n#define ZEREH_DEFAULT_ACTION "
    case 3 => "\n#define ZEREH_INLINE_CHECKSUMS ("
    case 4 => "u)\n#define ZEREH_HASH_ALGO ("
    case 5 => "u)\n#define ZEREH_RATE_STATE_ENTRIES "
    case _ => "\n    default:\n        break;\n    }\n\n    "
  }

  /** The template: the text before the first hole, between the definitions and the switch, and after the last hole. */
  function Template(head: seq<byte>, body: seq<byte>, tail: seq<byte>): seq<Piece> {
    Weave([head, Ascii(Between(0)), Ascii(Between(1)), Ascii(Between(2)), Ascii(Between(3)), Ascii(Between(4)),
           Ascii(Between(5)), body, Ascii(Between(6)), tail],
          [2, 3, 4, 5, 6, 7, 8, 0, 1])
  }

  /** Starts and ends outside the alphabet of tokens, and no Z follows an underscore. */
  predicate LineOk(s: string) {
    && s != []
    && s[0] in "\nu" && s[|s| - 1] in " ("
    && (forall i :: 0 < i < |s| && s[i] == 'Z' ==> s[i - 1] != '_')
  }

  lemma MaskLineOk()
    ensures LineOk("\n#define ZEREH_ALLOWED_OPCODE_MASK (")
  {
  }

  lemma TruncatedLineOk()
    ensures LineOk("u)\n#define ZEREH_DROP_TRUNCATED (")
  {
  }

  lemma ActionLineOk()
    ensures LineOk("u)\n#define ZEREH_DEFAULT_ACTION ")
  {
  }

  lemma InlineLineOk()
    ensures LineOk("\n#define ZEREH_INLINE_CHECKSUMS (")
  {
  }

  lemma HashLineOk()
    ensures LineOk("u)\n#define ZEREH_HASH_ALGO (")
  {
  }

  lemma EntriesLineOk()
    ensures LineOk("u)\n#define ZEREH_RATE_STATE_ENTRIES ")
  {
  }

  lemma SwitchEndOk()
    ensures LineOk("\n    default:\n        break;\n    }\n\n    ")
  {
  }

  lemma LinesOk(i: nat)
    requires i < 7
    ensures LineOk(Between(i))
  {
    hide LineOk;
    MaskLineOk();
    TruncatedLineOk();
    ActionLineOk();
    InlineLineOk();
    HashLineOk();
    EntriesLineOk();
    SwitchEndOk();
  }

  predicate TextOk(t: seq<byte>) {
    t != [] && Harmless(t) && !TokenByte(t[0]) && !TokenByte(t[|t| - 1])
  }

  lemma LineHarmless(s: string)
    requires LineOk(s)
    ensures TextOk(Ascii(s))
  {
  }

  /** Every template of this form is well marked, whatever else it contains. */
  lemma TemplateWellMarked(head: seq<byte>, body: seq<byte>, tail: seq<byte>)
    requires Harmless(head) && head != [] && !TokenByte(head[|head| - 1])
    requires TextOk(body)
    requires Harmless(tail) && tail != [] && !TokenByte(tail[0])
    ensures WellMarked(Template(head, body, tail), TOKENS)
    ensures Hole(0) in Template(head, body, tail) && Hole(1) in Template(head, body, tail)
  {
    hide Harmless, TokenByte, Between, Ascii, WellMarked;
    forall i | 0 <= i < 7
      ensures TextOk(Ascii(Between(i)))
    {
      LinesOk(i);
      LineHarmless(Between(i));
    }
    var lits := [head, Ascii(Between(0)), Ascii(Between(1)), Ascii(Between(2)), Ascii(Between(3)), Ascii(Between(4)),
                 Ascii(Between(5)), body, Ascii(Between(6)), tail];
    var holes: seq<nat> := [2, 3, 4, 5, 6, 7, 8, 0, 1];
    assert forall i :: 0 < i < 9 ==> TextOk(lits[i]);
    WeaveWellMarked(lits, holes);
    assert holes[7] == 0 && holes[8] == 1;
  }
}
