/** C string literals: the escaper of the code generator against the lexer of the language it emits. */
module CText {
  import opened Bytes
  import opened TextBuffer

  const QUOTE: byte := 34
  const BACKSLASH: byte := 92
  const NEWLINE: byte := 10

  function EscapeByte(c: byte): seq<byte> {
    if c == BACKSLASH || c == QUOTE then [BACKSLASH, c]
    else if c == NEWLINE then [BACKSLASH, 110]
    else if c == 13 then [BACKSLASH, 114]
    else if c == 9 then [BACKSLASH, 116]
    else [c]
  }

  function Escaped(s: seq<byte>): seq<byte> {
    if s == [] then [] else EscapeByte(s[0]) + Escaped(s[1..])
  }

  lemma {:induction false} EscapedAppend(s: seq<byte>, c: byte)
    ensures Escaped(s + [c]) == Escaped(s) + EscapeByte(c)
  {
    if s == [] {
      assert s + [c] == [c] && [c][1..] == [];
      assert Escaped([c]) == EscapeByte(c) + Escaped([]);
    } else {
      EscapedAppend(s[1..], c);
      assert (s + [c])[1..] == s[1..] + [c];
    }
  }

  method EscapeCString(text: seq<byte>) returns (out: seq<byte>)
    ensures out == Escaped(text)
  {
    hide EscapeByte;
    var sb := new Buffer(64);
    for i := 0 to |text|
      invariant sb.Valid() && fresh(sb) && fresh(sb.data)
      invariant sb.Contents() == Escaped(text[..i])
    {
      EscapedAppend(text[..i], text[i]);
      assert text[..i + 1] == text[..i] + [text[i]];
      sb.Append(EscapeByte(text[i]));
    }
    assert text[..|text|] == text;
    out := sb.Contents();
  }

  /** The simple escape sequences of C. */
  function SimpleEscape(c: byte): Option<byte> {
    if c == QUOTE || c == 39 || c == 63 || c == BACKSLASH then Some(c)
    else if c == 97 then Some(7)
    else if c == 98 then Some(8)
    else if c == 102 then Some(12)
    else if c == 110 then Some(10)
    else if c == 114 then Some(13)
    else if c == 116 then Some(9)
    else if c == 118 then Some(11)
    else None
  }

  datatype Lexed = Lexed(value: seq<byte>, rest: seq<byte>)

  /** Lexes the text after an opening quote: the literal's value and what follows the closing quote. */
  function Lex(t: seq<byte>): (l: Option<Lexed>)
    ensures l.Some? ==> |l.value.rest| < |t|
  {
    if t == [] || t[0] == NEWLINE then None
    else if t[0] == QUOTE then Some(Lexed([], t[1..]))
    else if t[0] == BACKSLASH then
      if |t| < 2 || SimpleEscape(t[1]).None? then None
      else
        match Lex(t[2..])
        case None => None
        case Some(l) => Some(l.(value := [SimpleEscape(t[1]).value] + l.value))
    else
      match Lex(t[1..])
      case None => None
      case Some(l) => Some(l.(value := [t[0]] + l.value))
  }

  lemma LexStep(c: byte, tail: seq<byte>)
    requires Lex(tail).Some?
    ensures Lex(EscapeByte(c) + tail) == Some(Lex(tail).value.(value := [c] + Lex(tail).value.value))
  {
    var t := EscapeByte(c) + tail;
    if |EscapeByte(c)| == 1 {
      assert t[1..] == tail;
    } else {
      assert t[2..] == tail && t[0] == BACKSLASH;
    }
  }

  /** The emitted literal denotes exactly the configured string, and lexing stops at its end. */
  lemma {:induction false} LexUndoesEscape(s: seq<byte>, rest: seq<byte>)
    ensures Lex(Escaped(s) + [QUOTE] + rest) == Some(Lexed(s, rest))
  {
    hide EscapeByte;
    var t := Escaped(s) + [QUOTE] + rest;
    if s == [] {
      assert t == [QUOTE] + rest && t[1..] == rest;
    } else {
      var tail := Escaped(s[1..]) + [QUOTE] + rest;
      LexUndoesEscape(s[1..], rest);
      LexStep(s[0], tail);
      assert t == EscapeByte(s[0]) + tail;
      assert s == [s[0]] + s[1..];
    }
  }

  /** Escaping is injective: different configured strings never yield the same literal. */
  lemma EscapedInjective(a: seq<byte>, b: seq<byte>)
    requires Escaped(a) == Escaped(b)
    ensures a == b
  {
    LexUndoesEscape(a, []);
    LexUndoesEscape(b, []);
  }
}
