/** Filling the template: token replacement passes against simultaneous hole filling. */
module Substitution {
  import opened Bytes
  import opened TextBuffer

  predicate Occurs(text: seq<byte>, token: seq<byte>, i: nat) {
    i + |token| <= |text| && text[i..i + |token|] == token
  }

  /** strstr: the leftmost occurrence. */
  method FindFrom(text: seq<byte>, token: seq<byte>, from: nat) returns (hit: Option<nat>)
    requires from <= |text|
    ensures hit.Some? ==> from <= hit.value && Occurs(text, token, hit.value)
    ensures hit.Some? ==> forall j :: from <= j < hit.value ==> !Occurs(text, token, j)
    ensures hit.None? ==> forall j :: from <= j ==> !Occurs(text, token, j)
  {
    var i := from;
    while i + |token| <= |text|
      invariant from <= i
      invariant forall j :: from <= j < i ==> !Occurs(text, token, j)
    {
      if text[i..i + |token|] == token {
        return Some(i);
      }
      i := i + 1;
    }
    hit := None;
  }

  /** Leftmost, non-overlapping replacement. */
  function Replaced(text: seq<byte>, token: seq<byte>, replacement: seq<byte>): seq<byte>
    requires token != []
    decreases |text|
  {
    if text == [] then []
    else if Occurs(text, token, 0) then replacement + Replaced(text[|token|..], token, replacement)
    else [text[0]] + Replaced(text[1..], token, replacement)
  }

  lemma OccursShift(text: seq<byte>, token: seq<byte>, n: nat, i: nat)
    requires n <= |text|
    ensures Occurs(text[n..], token, i) <==> Occurs(text, token, n + i)
  {
    if n + i + |token| <= |text| {
      assert text[n..][i..i + |token|] == text[n + i..n + i + |token|];
    }
  }

  /** A stretch in which no occurrence starts is copied. */
  lemma {:induction false} ReplacedSkips(text: seq<byte>, token: seq<byte>, replacement: seq<byte>, n: nat)
    requires token != [] && n <= |text|
    requires forall i :: 0 <= i < n ==> !Occurs(text, token, i)
    ensures Replaced(text, token, replacement) == text[..n] + Replaced(text[n..], token, replacement)
    decreases n
  {
    if n == 0 {
      assert text[0..] == text;
    } else {
      forall i | 0 <= i < n - 1
        ensures !Occurs(text[1..], token, i)
      {
        OccursShift(text, token, 1, i);
      }
      ReplacedSkips(text[1..], token, replacement, n - 1);
      assert !Occurs(text, token, 0);
      assert text[1..][n - 1..] == text[n..];
      assert text[..n] == [text[0]] + text[1..][..n - 1];
    }
  }

  method ReplaceAll(input: seq<byte>, token: seq<byte>, replacement: seq<byte>) returns (output: Option<seq<byte>>)
    ensures output.None? <==> token == []
    ensures token != [] ==> output == Some(Replaced(input, token, replacement))
  {
    hide Replaced, Occurs;
    if token == [] {
      return None;
    }
    var sb := new Buffer(|input| + |replacement| + 256);
    var cursor := 0;
    var hit := FindFrom(input, token, 0);
    while hit.Some?
      invariant sb.Valid() && fresh(sb) && fresh(sb.data)
      invariant 0 <= cursor <= |input|
      invariant hit.Some? ==> cursor <= hit.value && Occurs(input, token, hit.value)
      invariant hit.Some? ==> forall j :: cursor <= j < hit.value ==> !Occurs(input, token, j)
      invariant hit.None? ==> forall j :: cursor <= j ==> !Occurs(input, token, j)
      invariant Replaced(input, token, replacement) ==
                sb.Contents() + Replaced(input[cursor..], token, replacement)
      decreases |input| - cursor, hit.Some?
    {
      var at := hit.value;
      OccursBound(input, token, at);
      ReplacedStep(input, token, replacement, cursor, at);
      ghost var rest := Replaced(input[at + |token|..], token, replacement);
      Reassociate(Replaced(input, token, replacement), sb.Contents(), input[cursor..at], replacement, rest);
      sb.Append(input[cursor..at]);
      sb.Append(replacement);
      cursor := at + |token|;
      hit := FindFrom(input, token, cursor);
    }
    ReplacedEnds(input, token, replacement, cursor);
    sb.Append(input[cursor..]);
    output := Some(sb.Contents());
  }

  lemma OccursBound(text: seq<byte>, token: seq<byte>, i: nat)
    requires Occurs(text, token, i)
    ensures i + |token| <= |text|
  {
  }

  lemma ReplacedHit(text: seq<byte>, token: seq<byte>, replacement: seq<byte>)
    requires token != [] && Occurs(text, token, 0)
    ensures Replaced(text, token, replacement) == replacement + Replaced(text[|token|..], token, replacement)
  {
  }

  lemma ReplacedStep(input: seq<byte>, token: seq<byte>, replacement: seq<byte>, cursor: nat, at: nat)
    requires token != [] && cursor <= at && at + |token| <= |input| && Occurs(input, token, at)
    requires forall j :: cursor <= j < at ==> !Occurs(input, token, j)
    ensures Replaced(input[cursor..], token, replacement) ==
            input[cursor..at] + (replacement + Replaced(input[at + |token|..], token, replacement))
  {
    hide Replaced, Occurs;
    var text, n := input[cursor..], at - cursor;
    forall i | 0 <= i < n
      ensures !Occurs(text, token, i)
    {
      OccursShift(input, token, cursor, i);
    }
    ReplacedSkips(text, token, replacement, n);
    assert text[n..] == input[at..] && text[..n] == input[cursor..at];
    OccursShift(input, token, at, 0);
    ReplacedHit(input[at..], token, replacement);
    assert input[at..][|token|..] == input[at + |token|..];
  }

  lemma Reassociate(all: seq<byte>, a: seq<byte>, b: seq<byte>, c: seq<byte>, d: seq<byte>)
    requires all == a + (b + (c + d))
    ensures all == ((a + b) + c) + d
  {
  }

  lemma ReplacedEnds(input: seq<byte>, token: seq<byte>, replacement: seq<byte>, cursor: nat)
    requires token != [] && cursor <= |input|
    requires forall j :: cursor <= j ==> !Occurs(input, token, j)
    ensures Replaced(input[cursor..], token, replacement) == input[cursor..]
  {
    var text := input[cursor..];
    forall i | 0 <= i < |text|
      ensures !Occurs(text, token, i)
    {
      OccursShift(input, token, cursor, i);
    }
    ReplacedSkips(text, token, replacement, |text|);
  }

  // Texts without a token, and seams no token can cross.

  predicate Free(text: seq<byte>, token: seq<byte>) {
    forall i :: 0 <= i < |text| ==> !Occurs(text, token, i)
  }

  lemma ReplacedFree(text: seq<byte>, token: seq<byte>, replacement: seq<byte>)
    requires token != [] && Free(text, token)
    ensures Replaced(text, token, replacement) == text
  {
    ReplacedSkips(text, token, replacement, |text|);
    assert text[|text|..] == [] && text[..|text|] == text;
  }

  /** One of the two bytes at the seam is not in the token. */
  predicate SeamSafe(a: seq<byte>, b: seq<byte>, token: seq<byte>) {
    || a == [] || b == []
    || a[|a| - 1] !in token
    || b[0] !in token
  }

  lemma OccursBytes(text: seq<byte>, token: seq<byte>, i: nat)
    requires Occurs(text, token, i)
    ensures i + |token| <= |text| && forall j :: i <= j < i + |token| ==> text[j] in token
  {
    forall j | i <= j < i + |token|
      ensures text[j] in token
    {
      assert text[j] == text[i..i + |token|][j - i];
    }
  }

  /** So an occurrence that starts before the seam ends before it. */
  lemma NoneAcross(a: seq<byte>, b: seq<byte>, token: seq<byte>, i: nat)
    requires token != [] && SeamSafe(a, b, token) && i < |a|
    ensures Occurs(a + b, token, i) <==> Occurs(a, token, i)
  {
    var s, n := a + b, |a|;
    assert b != [] ==> s[n - 1] == a[n - 1] && s[n] == b[0];
    if Occurs(s, token, i) {
      OccursBytes(s, token, i);
    }
    if i + |token| <= n {
      assert s[i..i + |token|] == a[i..i + |token|];
    }
  }

  lemma FreeConcat(a: seq<byte>, b: seq<byte>, token: seq<byte>)
    requires token != [] && SeamSafe(a, b, token)
    ensures Free(a + b, token) <==> Free(a, token) && Free(b, token)
  {
    hide Occurs, SeamSafe;
    var s := a + b;
    forall i | 0 <= i < |a|
      ensures Occurs(s, token, i) <==> Occurs(a, token, i)
    {
      NoneAcross(a, b, token, i);
    }
    assert s[|a|..] == b;
    forall i | 0 <= i < |b|
      ensures Occurs(b, token, i) <==> Occurs(s, token, |a| + i)
    {
      OccursShift(s, token, |a|, i);
    }
    if !Free(b, token) {
      var i :| 0 <= i < |b| && Occurs(b, token, i);
      assert Occurs(s, token, |a| + i);
    }
    if !Free(a, token) {
      var i :| 0 <= i < |a| && Occurs(a, token, i);
      assert Occurs(s, token, i);
    }
    if !Free(s, token) {
      var i :| 0 <= i < |s| && Occurs(s, token, i);
      if i >= |a| {
        assert Occurs(b, token, i - |a|);
      }
    }
  }

  /** A pass treats the two sides of a safe seam separately. */
  lemma {:induction false} ReplacedConcat(a: seq<byte>, b: seq<byte>, token: seq<byte>, replacement: seq<byte>)
    requires token != [] && SeamSafe(a, b, token)
    ensures Replaced(a + b, token, replacement) ==
            Replaced(a, token, replacement) + Replaced(b, token, replacement)
    decreases |a|
  {
    hide Occurs, Replaced;
    var s := a + b;
    if a == [] {
      assert s == b;
      ReplacedNothing(token, replacement);
    } else {
      NoneAcross(a, b, token, 0);
      if Occurs(a, token, 0) {
        OccursBound(a, token, 0);
        ReplacedConcat(a[|token|..], b, token, replacement);
        assert s[|token|..] == a[|token|..] + b;
        ReplacedHit(s, token, replacement);
        ReplacedHit(a, token, replacement);
      } else {
        ReplacedConcat(a[1..], b, token, replacement);
        assert s[1..] == a[1..] + b;
        ReplacedMiss(s, token, replacement);
        ReplacedMiss(a, token, replacement);
      }
    }
  }

  lemma ReplacedNothing(token: seq<byte>, replacement: seq<byte>)
    requires token != []
    ensures Replaced([], token, replacement) == []
  {
  }

  lemma ReplacedMiss(text: seq<byte>, token: seq<byte>, replacement: seq<byte>)
    requires token != [] && text != [] && !Occurs(text, token, 0)
    ensures Replaced(text, token, replacement) == [text[0]] + Replaced(text[1..], token, replacement)
  {
  }

  // Templates.

  /** A template: literal text and numbered holes. */
  datatype Piece = Lit(text: seq<byte>) | Hole(k: nat)

  ghost predicate HolesKnown(pieces: seq<Piece>, n: nat) {
    forall j :: 0 <= j < |pieces| && pieces[j].Hole? ==> pieces[j].k < n
  }

  function PieceText(piece: Piece, texts: seq<seq<byte>>): seq<byte>
    requires piece.Hole? ==> piece.k < |texts|
  {
    match piece
    case Lit(text) => text
    case Hole(k) => texts[k]
  }

  /** The template with each hole filled, all at once. Filled with the tokens, it is the template as written. */
  function Fill(pieces: seq<Piece>, texts: seq<seq<byte>>): seq<byte>
    requires HolesKnown(pieces, |texts|)
  {
    if pieces == [] then [] else PieceText(pieces[0], texts) + Fill(pieces[1..], texts)
  }

  predicate InSomeToken(b: byte, tokens: seq<seq<byte>>) {
    exists k :: 0 <= k < |tokens| && b in tokens[k]
  }

  /** One side of the seam is literal text that meets it with a byte of no token. */
  predicate Sealed(a: Piece, b: Piece, tokens: seq<seq<byte>>) {
    || (a.Lit? && a.text != [] && !InSomeToken(a.text[|a.text| - 1], tokens))
    || (b.Lit? && b.text != [] && !InSomeToken(b.text[0], tokens))
  }

  /** What is asked of a template: sealed seams, and no token in literal text or inside another token. */
  ghost predicate WellMarked(pieces: seq<Piece>, tokens: seq<seq<byte>>) {
    && HolesKnown(pieces, |tokens|)
    && (forall j :: 0 <= j < |pieces| - 1 ==> Sealed(pieces[j], pieces[j + 1], tokens))
    && (forall j, k :: 0 <= j < |pieces| && pieces[j].Lit? && 0 <= k < |tokens| ==> Free(pieces[j].text, tokens[k]))
  }

  ghost predicate Apart(tokens: seq<seq<byte>>) {
    forall j, k :: 0 <= j < |tokens| && 0 <= k < |tokens| && j != k ==> Free(tokens[j], tokens[k])
  }

  /** The tokens that mark the holes and the texts that fill them. */
  datatype Fills = Fills(tokens: seq<seq<byte>>, texts: seq<seq<byte>>) {
    ghost predicate Valid() {
      |tokens| == |texts| && forall k :: 0 <= k < |tokens| ==> tokens[k] != []
    }
  }

  function EachReplaced(texts: seq<seq<byte>>, token: seq<byte>, replacement: seq<byte>): (r: seq<seq<byte>>)
    requires token != []
    ensures |r| == |texts|
    ensures forall k :: 0 <= k < |texts| ==> r[k] == Replaced(texts[k], token, replacement)
  {
    seq(|texts|, k requires 0 <= k < |texts| => Replaced(texts[k], token, replacement))
  }

  lemma FirstSeam(pieces: seq<Piece>, texts: seq<seq<byte>>, tokens: seq<seq<byte>>, k: nat)
    requires WellMarked(pieces, tokens) && |texts| == |tokens| && k < |tokens| && pieces != []
    ensures HolesKnown(pieces[1..], |texts|) && WellMarked(pieces[1..], tokens)
    ensures SeamSafe(PieceText(pieces[0], texts), Fill(pieces[1..], texts), tokens[k])
  {
    hide Free;
    var rest := pieces[1..];
    assert forall j :: 0 <= j < |rest| ==> rest[j] == pieces[j + 1];
    assert forall j :: 0 <= j < |rest| - 1 ==> Sealed(rest[j], rest[j + 1], tokens);
    if rest != [] {
      assert Sealed(pieces[0], pieces[1], tokens) && rest[0] == pieces[1];
    }
  }

  /** One pass over a well-marked template is a pass over the text in each hole. */
  lemma {:induction false} PassOverFill(
    pieces: seq<Piece>, texts: seq<seq<byte>>, tokens: seq<seq<byte>>, k: nat, replacement: seq<byte>)
    requires WellMarked(pieces, tokens) && |texts| == |tokens| && k < |tokens| && tokens[k] != []
    ensures Replaced(Fill(pieces, texts), tokens[k], replacement) ==
            Fill(pieces, EachReplaced(texts, tokens[k], replacement))
    decreases |pieces|
  {
    hide Free, SeamSafe, Sealed;
    if pieces != [] {
      FirstSeam(pieces, texts, tokens, k);
      PassOverFill(pieces[1..], texts, tokens, k, replacement);
      ReplacedConcat(PieceText(pieces[0], texts), Fill(pieces[1..], texts), tokens[k], replacement);
      if pieces[0].Lit? {
        ReplacedFree(pieces[0].text, tokens[k], replacement);
      }
    }
  }

  // The passes.

  /** The replacement passes, in the given order. */
  function Passes(text: seq<byte>, f: Fills, order: seq<nat>): seq<byte>
    requires f.Valid() && forall i :: 0 <= i < |order| ==> order[i] < |f.tokens|
    decreases |order|
  {
    if order == [] then text
    else Passes(Replaced(text, f.tokens[order[0]], f.texts[order[0]]), f, order[1..])
  }

  function UpTo(n: nat): (order: seq<nat>)
    ensures |order| == n && forall i :: 0 <= i < n ==> order[i] == i
  {
    seq(n, i => i)
  }

  lemma {:induction false} PassesAppend(text: seq<byte>, f: Fills, order: seq<nat>, k: nat)
    requires f.Valid() && k < |f.tokens| && forall i :: 0 <= i < |order| ==> order[i] < |f.tokens|
    ensures forall i :: 0 <= i < |order + [k]| ==> (order + [k])[i] < |f.tokens|
    ensures Passes(text, f, order + [k]) == Replaced(Passes(text, f, order), f.tokens[k], f.texts[k])
    decreases |order|
  {
    hide Replaced;
    if order == [] {
      assert (order + [k])[1..] == [];
    } else {
      PassesAppend(Replaced(text, f.tokens[order[0]], f.texts[order[0]]), f, order[1..], k);
      assert (order + [k])[1..] == order[1..] + [k];
    }
  }

  /** The generator's chain of passes, each over the result of the one before. */
  method FillTemplate(template: seq<byte>, f: Fills) returns (out: seq<byte>)
    requires f.Valid()
    ensures out == Passes(template, f, UpTo(|f.tokens|))
  {
    hide Replaced;
    out := template;
    for k := 0 to |f.tokens|
      invariant out == Passes(template, f, UpTo(k))
    {
      var next := ReplaceAll(out, f.tokens[k], f.texts[k]);
      PassesAppend(template, f, UpTo(k), k);
      assert UpTo(k + 1) == UpTo(k) + [k];
      out := next.value;
    }
  }

  function EachPassed(texts: seq<seq<byte>>, f: Fills, order: seq<nat>): (r: seq<seq<byte>>)
    requires f.Valid() && forall i :: 0 <= i < |order| ==> order[i] < |f.tokens|
    ensures |r| == |texts|
    ensures forall k :: 0 <= k < |texts| ==> r[k] == Passes(texts[k], f, order)
  {
    seq(|texts|, k requires 0 <= k < |texts| => Passes(texts[k], f, order))
  }

  /** Passes over a well-marked template are passes over the text in each hole. */
  lemma {:induction false} PassesOverFill(pieces: seq<Piece>, texts: seq<seq<byte>>, f: Fills, order: seq<nat>)
    requires f.Valid() && WellMarked(pieces, f.tokens) && |texts| == |f.tokens|
    requires forall i :: 0 <= i < |order| ==> order[i] < |f.tokens|
    ensures Passes(Fill(pieces, texts), f, order) == Fill(pieces, EachPassed(texts, f, order))
    decreases |order|
  {
    hide Replaced, WellMarked, Fill;
    if order == [] {
      assert EachPassed(texts, f, order) == texts;
    } else {
      var k := order[0];
      var after := EachReplaced(texts, f.tokens[k], f.texts[k]);
      PassOverFill(pieces, texts, f.tokens, k, f.texts[k]);
      PassesOverFill(pieces, after, f, order[1..]);
      assert EachPassed(after, f, order[1..]) == EachPassed(texts, f, order);
    }
  }

  lemma {:induction false} PassesFree(text: seq<byte>, f: Fills, order: seq<nat>)
    requires f.Valid() && forall i :: 0 <= i < |order| ==> order[i] < |f.tokens|
    requires forall i :: 0 <= i < |order| ==> Free(text, f.tokens[order[i]])
    ensures Passes(text, f, order) == text
    decreases |order|
  {
    hide Replaced, Free;
    if order != [] {
      ReplacedFree(text, f.tokens[order[0]], f.texts[order[0]]);
      PassesFree(text, f, order[1..]);
    }
  }

  /** The passes that come after pass k. */
  function After(order: seq<nat>, k: nat): (rest: seq<nat>)
    ensures |rest| <= |order| && forall i :: 0 <= i < |rest| ==> rest[i] in order
  {
    if order == [] then [] else if order[0] == k then order[1..] else After(order[1..], k)
  }

  /** A hole is untouched until its own pass; its text then goes through the passes that remain. */
  lemma {:induction false} TokenPasses(f: Fills, order: seq<nat>, k: nat)
    requires f.Valid() && Apart(f.tokens) && k in order
    requires forall i :: 0 <= i < |order| ==> order[i] < |f.tokens|
    ensures Passes(f.tokens[k], f, order) == Passes(f.texts[k], f, After(order, k))
    decreases |order|
  {
    hide Replaced, Free;
    var first := order[0];
    if first == k {
      ReplacedWhole(f.tokens[k], f.texts[k]);
    } else {
      ReplacedFree(f.tokens[k], f.tokens[first], f.texts[first]);
      TokenPasses(f, order[1..], k);
    }
  }

  lemma ReplacedWhole(token: seq<byte>, replacement: seq<byte>)
    requires token != []
    ensures Replaced(token, token, replacement) == replacement
  {
    assert Occurs(token, token, 0);
    assert token[|token|..] == [];
  }

  /** Every hole has its pass. */
  ghost predicate Covers(order: seq<nat>, n: nat) {
    (forall i :: 0 <= i < |order| ==> order[i] < n) && forall k :: 0 <= k < n ==> k in order
  }

  /** What ends up in each hole: its text after the passes that follow its own. */
  function Settled(f: Fills, order: seq<nat>): (r: seq<seq<byte>>)
    requires f.Valid() && forall i :: 0 <= i < |order| ==> order[i] < |f.tokens|
    ensures |r| == |f.texts|
    ensures forall k :: 0 <= k < |f.texts| ==> r[k] == Passes(f.texts[k], f, After(order, k))
  {
    seq(|f.texts|, k requires 0 <= k < |f.texts| => Passes(f.texts[k], f, After(order, k)))
  }

  /**
   * What the passes compute over a well-marked template, whatever the filling texts contain: each hole gets its
   * text, rewritten by the passes that come later.
   */
  lemma PassesSettle(pieces: seq<Piece>, f: Fills, order: seq<nat>)
    requires f.Valid() && Apart(f.tokens) && WellMarked(pieces, f.tokens) && Covers(order, |f.tokens|)
    ensures Passes(Fill(pieces, f.tokens), f, order) == Fill(pieces, Settled(f, order))
  {
    hide WellMarked, Fill, Apart, Passes;
    PassesOverFill(pieces, f.tokens, f, order);
    forall k | 0 <= k < |f.tokens|
      ensures EachPassed(f.tokens, f, order)[k] == Settled(f, order)[k]
    {
      TokenPasses(f, order, k);
    }
    assert EachPassed(f.tokens, f, order) == Settled(f, order);
  }

  ghost predicate TextsFree(f: Fills) {
    forall j, k :: 0 <= j < |f.texts| && 0 <= k < |f.tokens| ==> Free(f.texts[j], f.tokens[k])
  }

  /** So when no token occurs in a text that is filled in, the passes fill all holes as if at once, in any order. */
  lemma PassesFillSimultaneously(pieces: seq<Piece>, f: Fills, order: seq<nat>)
    requires f.Valid() && Apart(f.tokens) && WellMarked(pieces, f.tokens) && Covers(order, |f.tokens|)
    requires TextsFree(f)
    ensures Passes(Fill(pieces, f.tokens), f, order) == Fill(pieces, f.texts)
  {
    hide WellMarked, Fill, Apart, Free;
    PassesSettle(pieces, f, order);
    forall k | 0 <= k < |f.texts|
      ensures Settled(f, order)[k] == f.texts[k]
    {
      PassesFree(f.texts[k], f, After(order, k));
    }
    assert Settled(f, order) == f.texts;
  }

  lemma UpToCovers(n: nat)
    ensures Covers(UpTo(n), n)
  {
    forall k | 0 <= k < n
      ensures k in UpTo(n)
    {
      assert UpTo(n)[k] == k;
    }
  }

  lemma FilledInAnyOrder(pieces: seq<Piece>, f: Fills, order: seq<nat>)
    requires f.Valid() && Apart(f.tokens) && WellMarked(pieces, f.tokens) && Covers(order, |f.tokens|)
    requires TextsFree(f)
    ensures Passes(Fill(pieces, f.tokens), f, order) == Passes(Fill(pieces, f.tokens), f, UpTo(|f.tokens|))
  {
    hide WellMarked, Fill, Apart, TextsFree, Passes;
    UpToCovers(|f.tokens|);
    PassesFillSimultaneously(pieces, f, order);
    PassesFillSimultaneously(pieces, f, UpTo(|f.tokens|));
  }

  // Weights: how passes that rewrite a filling are told from passes that do not.

  /** The sum of a weight over the bytes of a text. */
  function Weight(s: seq<byte>, w: byte -> nat): nat {
    if s == [] then 0 else w(s[0]) + Weight(s[1..], w)
  }

  lemma {:induction false} WeightConcat(a: seq<byte>, b: seq<byte>, w: byte -> nat)
    ensures Weight(a + b, w) == Weight(a, w) + Weight(b, w)
  {
    if a == [] {
      assert a + b == b;
    } else {
      WeightConcat(a[1..], b, w);
      assert (a + b)[1..] == a[1..] + b;
    }
  }

  lemma FreeTail(text: seq<byte>, token: seq<byte>)
    requires text != []
    ensures Free(text, token) <==> !Occurs(text, token, 0) && Free(text[1..], token)
  {
    hide Occurs;
    forall i | 0 <= i < |text| - 1
      ensures Occurs(text[1..], token, i) <==> Occurs(text, token, i + 1)
    {
      OccursShift(text, token, 1, i);
    }
    if !Free(text, token) {
      var i :| 0 <= i < |text| && Occurs(text, token, i);
      if i > 0 {
        assert Occurs(text[1..], token, i - 1);
      }
    }
  }

  /** Replacing by something no lighter adds weight, and strictly so if it is heavier and there is a hit. */
  lemma {:induction false} ReplacedGrows(text: seq<byte>, token: seq<byte>, replacement: seq<byte>, w: byte -> nat)
    requires token != [] && Weight(token, w) <= Weight(replacement, w)
    ensures Weight(text, w) <= Weight(Replaced(text, token, replacement), w)
    ensures Weight(token, w) < Weight(replacement, w) && !Free(text, token) ==>
              Weight(text, w) < Weight(Replaced(text, token, replacement), w)
    decreases |text|
  {
    hide Occurs, Free;
    if text != [] {
      FreeTail(text, token);
      if Occurs(text, token, 0) {
        OccursBound(text, token, 0);
        var rest := text[|token|..];
        ReplacedGrows(rest, token, replacement, w);
        assert text == token + rest by { OccursAtStart(text, token); }
        WeightConcat(token, rest, w);
        WeightConcat(replacement, Replaced(rest, token, replacement), w);
      } else {
        ReplacedGrows(text[1..], token, replacement, w);
        WeightConcat([text[0]], Replaced(text[1..], token, replacement), w);
        assert [text[0]][1..] == [];
      }
    } else {
      NothingFree(token);
    }
  }

  /** Replacing by something shorter shortens, and strictly so if there is a hit. */
  lemma {:induction false} ReplacedShrinks(text: seq<byte>, token: seq<byte>, replacement: seq<byte>)
    requires |replacement| < |token|
    ensures |Replaced(text, token, replacement)| <= |text|
    ensures !Free(text, token) ==> |Replaced(text, token, replacement)| < |text|
    decreases |text|
  {
    hide Occurs, Free;
    if text != [] {
      FreeTail(text, token);
      if Occurs(text, token, 0) {
        OccursBound(text, token, 0);
        ReplacedShrinks(text[|token|..], token, replacement);
      } else {
        ReplacedShrinks(text[1..], token, replacement);
      }
    } else {
      NothingFree(token);
    }
  }

  lemma NothingFree(token: seq<byte>)
    ensures Free([], token)
  {
  }

  lemma OccursAtStart(text: seq<byte>, token: seq<byte>)
    requires Occurs(text, token, 0)
    ensures text == token + text[|token|..]
  {
    assert text == text[0..|token|] + text[|token|..];
  }

  lemma {:induction false} PassesGrow(text: seq<byte>, f: Fills, order: seq<nat>, w: byte -> nat)
    requires f.Valid() && forall i :: 0 <= i < |order| ==> order[i] < |f.tokens|
    requires forall k :: k in order ==> Weight(f.tokens[k], w) <= Weight(f.texts[k], w)
    ensures Weight(text, w) <= Weight(Passes(text, f, order), w)
    decreases |order|
  {
    hide Weight, Replaced;
    if order != [] {
      ReplacedGrows(text, f.tokens[order[0]], f.texts[order[0]], w);
      PassesGrow(Replaced(text, f.tokens[order[0]], f.texts[order[0]]), f, order[1..], w);
    }
  }

  lemma {:induction false} PassesShrink(text: seq<byte>, f: Fills, order: seq<nat>)
    requires f.Valid() && forall i :: 0 <= i < |order| ==> order[i] < |f.tokens|
    requires forall k :: k in order ==> |f.texts[k]| < |f.tokens[k]|
    ensures |Passes(text, f, order)| <= |text|
    ensures |Passes(text, f, order)| == |text| ==>
              forall i :: 0 <= i < |order| ==> Free(text, f.tokens[order[i]])
    decreases |order|
  {
    hide Replaced, Free;
    if order != [] {
      var k := order[0];
      var next := Replaced(text, f.tokens[k], f.texts[k]);
      ReplacedShrinks(text, f.tokens[k], f.texts[k]);
      PassesShrink(next, f, order[1..]);
      if |Passes(text, f, order)| == |text| {
        ReplacedFree(text, f.tokens[k], f.texts[k]);
      }
    }
  }

  /** Heavier texts make a heavier filling, strictly so if a hole of a strictly heavier text is there. */
  lemma {:induction false} FillGrows(
    pieces: seq<Piece>, a: seq<seq<byte>>, b: seq<seq<byte>>, w: byte -> nat, k: nat)
    requires |a| == |b| && HolesKnown(pieces, |a|) && k < |a|
    requires forall j :: 0 <= j < |a| ==> Weight(a[j], w) <= Weight(b[j], w)
    ensures Weight(Fill(pieces, a), w) <= Weight(Fill(pieces, b), w)
    ensures Hole(k) in pieces && Weight(a[k], w) < Weight(b[k], w) ==>
              Weight(Fill(pieces, a), w) < Weight(Fill(pieces, b), w)
    decreases |pieces|
  {
    hide Weight;
    if pieces != [] {
      FillGrows(pieces[1..], a, b, w, k);
      WeightConcat(PieceText(pieces[0], a), Fill(pieces[1..], a), w);
      WeightConcat(PieceText(pieces[0], b), Fill(pieces[1..], b), w);
      assert pieces == [pieces[0]] + pieces[1..];
    }
  }

  function UnitWeight(b: byte): nat {
    1
  }

  lemma {:induction false} WeightOfOnes(s: seq<byte>)
    ensures Weight(s, UnitWeight) == |s|
  {
    if s != [] {
      WeightOfOnes(s[1..]);
    }
  }
}
