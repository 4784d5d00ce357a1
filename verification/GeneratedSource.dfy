/** The generated source: what the nine passes make of the template. */
module GeneratedSource {
  import opened Bytes
  import opened Formats
  import opened Widening
  import opened CText
  import opened Substitution
  import opened Tokens
  import opened CReader
  import opened SourceText
  import opened Routes
  import opened Codegen
  import opened DomainHash
  import opened DataPlane
  import opened ConfigParser
  import opened Deployment

  /** Settings that only get into the text. */
  datatype TextSettings = TextSettings(blacklisted: u32, inlineChecksums: bool)

  /** The number whose binary digits are the opcodes below n. */
  function OpcodeMask(opcodes: set<nat>, n: nat): nat {
    if n == 0 then 0 else OpcodeMask(opcodes, n - 1) + if n - 1 in opcodes then Pow2(n - 1) else 0
  }

  function ActionName(v: Verdict): seq<byte> {
    if v == Drop then Ascii("XDP_DROP") else Ascii("XDP_PASS")
  }

  /** What the generator pastes for each token, in the order of its passes. */
  function FillsOf(cfg: Config, x: TextSettings): (f: Fills)
    ensures f.tokens == TOKENS && |f.texts| == 9
  {
    Fills(TOKENS, [
      CasesText(cfg.routes, x.blacklisted),
      RulesText(cfg.routes),
      Decimal(cfg.maxPacketSize),
      Decimal(OpcodeMask(cfg.opcodes, 16)),
      Decimal(Bit(cfg.dropTruncated)),
      ActionName(cfg.fallThrough),
      Decimal(Bit(x.inlineChecksums)),
      Decimal(Bit(cfg.algo.Sip?)),
      Decimal(if cfg.routes == [] then 1 else |cfg.routes|)])
  }

  lemma FillsValid(cfg: Config, x: TextSettings)
    ensures FillsOf(cfg, x).Valid()
  {
    TokensApart();
  }

  /** Prints the routes and runs the nine passes over the template. */
  method GenerateXdpSource(template: seq<byte>, cfg: Config, x: TextSettings) returns (source: seq<byte>)
    ensures FillsOf(cfg, x).Valid()
    ensures source == Passes(template, FillsOf(cfg, x), UpTo(9))
  {
    hide CasesText, RulesText;
    var cases := PrintCases(cfg.routes, x.blacklisted);
    var rules := PrintRules(cfg.routes);
    var texts := [
      cases, rules, Decimal(cfg.maxPacketSize), Decimal(OpcodeMask(cfg.opcodes, 16)), Decimal(Bit(cfg.dropTruncated)),
      ActionName(cfg.fallThrough), Decimal(Bit(x.inlineChecksums)), Decimal(Bit(cfg.algo.Sip?)),
      Decimal(if cfg.routes == [] then 1 else |cfg.routes|)];
    FillsValid(cfg, x);
    source := FillTemplate(template, Fills(TOKENS, texts));
  }

  function Pow10(k: nat): nat {
    if k == 0 then 1 else 10 * Pow10(k - 1)
  }

  lemma {:induction false} DecimalLength(n: nat, k: nat)
    requires n < Pow10(k)
    ensures |Decimal(n)| <= if k == 0 then 1 else k
  {
    if n >= 10 {
      DecimalLength(n / 10, k - 1);
    }
  }

  lemma DecimalShort(n: nat)
    requires n < 10_000_000_000
    ensures |Decimal(n)| <= 10
  {
    assert Pow10(5) == 100_000;
    assert Pow10(10) == 10_000_000_000;
    DecimalLength(n, 10);
  }

  lemma {:induction false} OpcodeMaskBound(opcodes: set<nat>, n: nat)
    ensures OpcodeMask(opcodes, n) < Pow2(n)
  {
    if n > 0 {
      OpcodeMaskBound(opcodes, n - 1);
    }
  }

  /** All texts but the first two are shorter than any token. */
  lemma ShortTexts(cfg: Config, x: TextSettings, k: nat)
    requires 2 <= k < 9 && |cfg.routes| < 0x1_0000_0000
    ensures |FillsOf(cfg, x).texts[k]| <= 10
  {
    hide CasesText, RulesText, Decimal, OpcodeMask, TOKENS;
    DecimalShort(cfg.maxPacketSize);
    OpcodeMaskBound(cfg.opcodes, 16);
    assert Pow2(8) == 256 && Pow2(16) == 65536;
    DecimalShort(OpcodeMask(cfg.opcodes, 16));
    DecimalShort(0);
    DecimalShort(1);
    DecimalShort(|cfg.routes|);
  }

  // Quotes: only the first two texts have any.

  function QuoteWeight(b: byte): nat {
    if b == QUOTE then 1 else 0
  }

  lemma {:induction false} NoQuoteNoWeight(s: seq<byte>)
    ensures Weight(s, QuoteWeight) == 0 <==> QUOTE !in s
  {
    if s != [] {
      NoQuoteNoWeight(s[1..]);
      assert s == [s[0]] + s[1..];
    }
  }

  lemma TokenHasNoQuote(token: seq<byte>)
    requires TokenLike(token)
    ensures Weight(token, QuoteWeight) == 0
  {
    NoQuoteNoWeight(token);
  }

  lemma {:induction false} QuoteEmitted(items: seq<Item>, i: nat)
    requires i < |items| && items[i].lexeme.Str?
    ensures QUOTE in Emit(items)
    decreases i
  {
    hide Emit;
    EmitStep(items);
    if i == 0 {
      assert ItemText(items[0])[|items[0].before|] == QUOTE;
    } else {
      assert items[1..][i - 1] == items[i];
      QuoteEmitted(items[1..], i - 1);
    }
  }

  lemma RuleQuotesDomain(r: Route, id: nat)
    ensures |TEST| < |RuleItems(r, id)| && RuleItems(r, id)[|TEST|].lexeme.Str?
  {
    hide GuardItems, ActionItems, TEST, Decimal, Escaped;
    var rest := GuardItems(r, id) + ActionItems(r, "            ") + BLOCK_END;
    assert RuleItems(r, id) == TEST + (TestEnd(r.domain) + rest);
    assert (TestEnd(r.domain) + rest)[0] == TestEnd(r.domain)[0];
  }

  /** With at least one route, the fallback text is quoted somewhere. */
  lemma RulesQuoted(routes: seq<Route>)
    requires routes != []
    ensures Weight(RulesText(routes), QuoteWeight) > 0
  {
    hide Emit, RuleItems, TEST;
    RuleQuotesDomain(routes[0], 0);
    var items := RulesItems(routes, 0);
    assert items[|TEST|] == RuleItems(routes[0], 0)[|TEST|];
    QuoteEmitted(items, |TEST|);
    NoQuoteNoWeight(Emit(items));
  }

  // When the nine passes fill the template as if at once.

  lemma {:induction false} AfterUpTo(n: nat, j: nat, k: nat)
    requires j <= k < n
    ensures After(UpTo(n)[j..], k) == UpTo(n)[k + 1..]
    decreases k - j
  {
    var order := UpTo(n)[j..];
    assert order[0] == j && order[1..] == UpTo(n)[j + 1..];
    if j < k {
      AfterUpTo(n, j + 1, k);
    }
  }

  /** The facts about the generator's texts that decide the matter. */
  ghost predicate Pasted(f: Fills) {
    && f.Valid() && f.tokens == TOKENS && |f.texts| == 9
    && (forall k :: 0 <= k < 9 ==> TokenLike(TOKENS[k]) && |TOKENS[k]| >= 19)
    && (forall k :: 2 <= k < 9 ==> |f.texts[k]| <= 10)
    && Weight(f.texts[1], QuoteWeight) > 0
  }

  /** What pass k leaves to the passes after it. */
  function Later(k: nat): (order: seq<nat>)
    requires k < 9
    ensures forall i :: 0 <= i < |order| ==> k < order[i] < 9
  {
    UpTo(9)[k + 1..]
  }

  lemma LaterHas(k: nat, i: nat)
    requires k < i < 9
    ensures i - k - 1 < |Later(k)| && Later(k)[i - k - 1] == i
  {
  }

  lemma LaterTail(k: nat)
    requires k < 8
    ensures Later(k) != [] && Later(k)[0] == k + 1 && Later(k)[1..] == Later(k + 1)
  {
  }

  lemma SettledLater(f: Fills, k: nat)
    requires f.Valid() && |f.texts| == 9 && k < 9
    ensures Settled(f, UpTo(9))[k] == Passes(f.texts[k], f, Later(k))
  {
    hide Passes;
    AfterUpTo(9, 0, k);
    assert UpTo(9)[0..] == UpTo(9);
  }

  lemma ShortIsFree(text: seq<byte>, token: seq<byte>)
    requires |text| < |token|
    ensures Free(text, token)
  {
  }

  /** No token that is replaced after hole k is filled occurs in its text. */
  ghost predicate LaterFree(f: Fills, k: nat)
    requires Pasted(f) && k < 9
  {
    forall i :: k < i < 9 ==> Free(f.texts[k], TOKENS[i])
  }

  lemma FreeSettles(f: Fills, k: nat)
    requires Pasted(f) && k < 9 && (k < 2 ==> LaterFree(f, k))
    ensures Settled(f, UpTo(9))[k] == f.texts[k]
  {
    hide Passes, Free, TokenLike, TOKENS, Settled, Weight;
    SettledLater(f, k);
    forall i | k < i < 9
      ensures Free(f.texts[k], TOKENS[i])
    {
      if k >= 2 {
        ShortIsFree(f.texts[k], TOKENS[i]);
      }
    }
    PassesFree(f.texts[k], f, Later(k));
  }

  lemma QuotesGrow(f: Fills, order: seq<nat>, text: seq<byte>)
    requires Pasted(f) && forall i :: 0 <= i < |order| ==> order[i] < 9
    ensures Weight(text, QuoteWeight) <= Weight(Passes(text, f, order), QuoteWeight)
  {
    hide Passes, TokenLike, TOKENS, Weight;
    forall i | i in order
      ensures Weight(f.tokens[i], QuoteWeight) <= Weight(f.texts[i], QuoteWeight)
    {
      TokenHasNoQuote(TOKENS[i]);
    }
    PassesGrow(text, f, order, QuoteWeight);
  }

  /** Fallback text pasted into a case text brings its quotes along, and no later pass removes a quote. */
  lemma InjectedRulesGrow(f: Fills)
    requires Pasted(f) && !Free(f.texts[0], TOKENS[1])
    ensures Weight(f.texts[0], QuoteWeight) < Weight(Settled(f, UpTo(9))[0], QuoteWeight)
  {
    hide TokenLike, TOKENS, Weight, Free, Settled, Replaced, Later;
    SettledLater(f, 0);
    var next := Replaced(f.texts[0], f.tokens[1], f.texts[1]);
    LaterTail(0);
    TokenHasNoQuote(TOKENS[1]);
    ReplacedGrows(f.texts[0], f.tokens[1], f.texts[1], QuoteWeight);
    QuotesGrow(f, Later(1), next);
  }

  /** Every other token shrinks the text it is found in, and no later pass makes up for it. */
  lemma ShrinksFrom(f: Fills, k: nat, text: seq<byte>)
    requires Pasted(f) && 1 <= k < 9
    ensures |Passes(text, f, Later(k))| <= |text|
    ensures |Passes(text, f, Later(k))| == |text| ==> forall i :: k < i < 9 ==> Free(text, TOKENS[i])
  {
    hide TokenLike, TOKENS, Weight, Free, Passes, Later;
    PassesShrink(text, f, Later(k));
    if |Passes(text, f, Later(k))| == |text| {
      forall i | k < i < 9
        ensures Free(text, TOKENS[i])
      {
        LaterHas(k, i);
      }
    }
  }

  lemma InjectedTokenShrinks(f: Fills, k: nat)
    requires Pasted(f) && k < 9 && (k == 0 ==> Free(f.texts[0], TOKENS[1]))
    ensures |Settled(f, UpTo(9))[k]| <= |f.texts[k]|
    ensures !LaterFree(f, k) ==> |Settled(f, UpTo(9))[k]| < |f.texts[k]|
  {
    hide TokenLike, TOKENS, Weight, Free, Settled, Replaced, Later, Pasted, Passes, After, UpTo;
    PastedIsValid(f);
    SettledLater(f, k);
    if k == 0 {
      RulesPassIdle(f);
      ShrinksFrom(f, 1, f.texts[0]);
    } else {
      ShrinksFrom(f, k, f.texts[k]);
    }
  }

  lemma RulesPassIdle(f: Fills)
    requires Pasted(f) && Free(f.texts[0], TOKENS[1])
    ensures Passes(f.texts[0], f, Later(0)) == Passes(f.texts[0], f, Later(1))
  {
    hide TokenLike, TOKENS, Weight, Free, Replaced, Later;
    LaterTail(0);
    ReplacedFree(f.texts[0], f.tokens[1], f.texts[1]);
  }

  lemma PastedIsValid(f: Fills)
    requires Pasted(f)
    ensures f.Valid() && f.tokens == TOKENS && |f.texts| == |TOKENS| == 9
  {
  }

  lemma QuotesNeverShrink(f: Fills, j: nat)
    requires Pasted(f) && j < 9
    ensures Weight(f.texts[j], QuoteWeight) <= Weight(Settled(f, UpTo(9))[j], QuoteWeight)
  {
    hide Pasted, Weight, Settled, Passes, Later;
    PastedIsValid(f);
    SettledLater(f, j);
    QuotesGrow(f, Later(j), f.texts[j]);
  }

  lemma LengthNeverGrows(f: Fills, j: nat)
    requires Pasted(f) && j < 9 && Free(f.texts[0], TOKENS[1])
    ensures Weight(Settled(f, UpTo(9))[j], UnitWeight) <= Weight(f.texts[j], UnitWeight)
    ensures !LaterFree(f, j) ==> Weight(Settled(f, UpTo(9))[j], UnitWeight) < Weight(f.texts[j], UnitWeight)
  {
    hide Pasted, Weight, Settled, LaterFree, Free, TOKENS, Passes, After, UpTo, Replaced;
    PastedIsValid(f);
    InjectedTokenShrinks(f, j);
    WeightOfOnes(Settled(f, UpTo(9))[j]);
    WeightOfOnes(f.texts[j]);
  }

  lemma InjectedIsNotFilled(pieces: seq<Piece>, f: Fills, k: nat)
    requires Pasted(f) && HolesKnown(pieces, 9) && k < 2 && Hole(0) in pieces && Hole(1) in pieces
    requires !LaterFree(f, k)
    ensures Fill(pieces, Settled(f, UpTo(9))) != Fill(pieces, f.texts)
  {
    hide Pasted, TOKENS, Weight, Free, Settled, Fill, LaterFree, UpTo, Passes, After, Replaced;
    PastedIsValid(f);
    var settled := Settled(f, UpTo(9));
    if !Free(f.texts[0], TOKENS[1]) {
      forall j | 0 <= j < 9
        ensures Weight(f.texts[j], QuoteWeight) <= Weight(settled[j], QuoteWeight)
      {
        QuotesNeverShrink(f, j);
      }
      InjectedRulesGrow(f);
      FillGrows(pieces, f.texts, settled, QuoteWeight, 0);
    } else {
      forall j | 0 <= j < 9
        ensures Weight(settled[j], UnitWeight) <= Weight(f.texts[j], UnitWeight)
      {
        LengthNeverGrows(f, j);
      }
      LengthNeverGrows(f, k);
      FillGrows(pieces, settled, f.texts, UnitWeight, k);
    }
  }

  /** The nine passes fill the template as if at once exactly when no later token is in the first two texts. */
  lemma PastedIff(pieces: seq<Piece>, f: Fills)
    requires Pasted(f) && WellMarked(pieces, TOKENS) && Hole(0) in pieces && Hole(1) in pieces
    ensures Passes(Fill(pieces, TOKENS), f, UpTo(9)) == Fill(pieces, f.texts) <==> LaterFree(f, 0) && LaterFree(f, 1)
  {
    hide TokenLike, TOKENS, Weight, Free, Settled, Fill, LaterFree, Passes;
    TokensApart();
    UpToCovers(9);
    PassesSettle(pieces, f, UpTo(9));
    if LaterFree(f, 0) && LaterFree(f, 1) {
      forall k | 0 <= k < 9
        ensures Settled(f, UpTo(9))[k] == f.texts[k]
      {
        FreeSettles(f, k);
      }
      assert Settled(f, UpTo(9)) == f.texts;
    } else {
      InjectedIsNotFilled(pieces, f, if LaterFree(f, 0) then 1 else 0);
    }
  }

  /** No configured string contains a token that is still to be replaced when the string has been pasted. */
  ghost predicate StringsFree(routes: seq<Route>) {
    && (forall k :: 1 <= k < 9 ==> FiltersFree(routes, TOKENS[k], 0))
    && (forall k :: 2 <= k < 9 ==> DomainsFree(routes, TOKENS[k], 0))
  }

  lemma PastedFills(cfg: Config, x: TextSettings)
    requires 1 <= |cfg.routes| < 0x1_0000_0000
    ensures Pasted(FillsOf(cfg, x))
    ensures LaterFree(FillsOf(cfg, x), 0) && LaterFree(FillsOf(cfg, x), 1) <==> StringsFree(cfg.routes)
  {
    hide TokenLike, TOKENS, Weight, Free, CasesText, RulesText, Decimal, FiltersFree, DomainsFree;
    var f := FillsOf(cfg, x);
    TokensApart();
    FillsValid(cfg, x);
    RulesQuoted(cfg.routes);
    forall k | 2 <= k < 9
      ensures |f.texts[k]| <= 10
    {
      ShortTexts(cfg, x, k);
    }
    forall k | 1 <= k < 9
      ensures Free(f.texts[0], TOKENS[k]) <==> FiltersFree(cfg.routes, TOKENS[k], 0)
      ensures Free(f.texts[1], TOKENS[k]) <==>
              DomainsFree(cfg.routes, TOKENS[k], 0) && FiltersFree(cfg.routes, TOKENS[k], 0)
    {
      CasesFreeIff(cfg.routes, x.blacklisted, TOKENS[k]);
      RulesFreeIff(cfg.routes, TOKENS[k]);
    }
  }

  /**
   * For a template with sealed holes, the generated source is the template with all holes filled at once exactly
   * when no configured prefix or suffix contains one of the last eight tokens and no domain one of the last seven.
   */
  lemma SourceIsFilledIff(pieces: seq<Piece>, cfg: Config, x: TextSettings)
    requires WellMarked(pieces, TOKENS) && Hole(0) in pieces && Hole(1) in pieces
    requires 1 <= |cfg.routes| < 0x1_0000_0000
    ensures FillsOf(cfg, x).Valid()
    ensures Passes(Fill(pieces, TOKENS), FillsOf(cfg, x), UpTo(9)) == Fill(pieces, FillsOf(cfg, x).texts) <==>
            StringsFree(cfg.routes)
  {
    hide TOKENS, FillsOf, Pasted, LaterFree, StringsFree, Fill, WellMarked, Passes;
    PastedFills(cfg, x);
    FillsValid(cfg, x);
    PastedIff(pieces, FillsOf(cfg, x));
  }

  /** The same for the program's template, whose other text holds no Z after an underscore. */
  lemma TemplateIsFilledIff(head: seq<byte>, body: seq<byte>, tail: seq<byte>, cfg: Config, x: TextSettings)
    requires Harmless(head) && head != [] && !TokenByte(head[|head| - 1])
    requires TextOk(body)
    requires Harmless(tail) && tail != [] && !TokenByte(tail[0])
    requires 1 <= |cfg.routes| < 0x1_0000_0000
    ensures FillsOf(cfg, x).Valid() && WellMarked(Template(head, body, tail), TOKENS)
    ensures var pieces := Template(head, body, tail);
            Passes(Fill(pieces, TOKENS), FillsOf(cfg, x), UpTo(9)) == Fill(pieces, FillsOf(cfg, x).texts) <==>
            StringsFree(cfg.routes)
  {
    hide TOKENS, FillsOf, StringsFree, Fill, WellMarked, Passes, Template;
    TemplateWellMarked(head, body, tail);
    SourceIsFilledIff(Template(head, body, tail), cfg, x);
  }

  /** A configuration tree in which route i asks for the given prefix. */
  function WithPrefix(node: ConfigNode, i: nat, prefix: seq<byte>): ConfigNode
    requires node.routes.Some? && i < |node.routes.value|
  {
    var r := node.routes.value[i];
    node.(routes := Some(node.routes.value[i := r.(rules := r.rules.(prefix := Some(prefix)))]))
  }

  lemma PrefixAccepted(node: RouteNode, d: Defaults, prefix: seq<byte>)
    requires Acceptable(node) && CStrings(node) && NulFree(prefix) && |prefix| <= MAX_PATTERN
    requires node.filters.Filters? ==> node.filters.rules.prefix.None?
    ensures var node' := node.(rules := node.rules.(prefix := Some(prefix)));
            Acceptable(node') && CStrings(node') && RouteOf(node', d).prefix == prefix
  {
    hide HashDomain, MaskOk, MaskOf, Restricted, SeedsOk, SeedList, InRange, Paired;
  }

  lemma HashAlgoToken()
    ensures |TOKENS| == 9 && |TOKENS[7]| == 19 && NulFree(TOKENS[7]) && !Free(TOKENS[7], TOKENS[7])
  {
    TokensApart();
    var t := TOKENS[7];
    assert t == Token(7) == Marked(Ascii("HASH_ALGO"));
    assert Occurs(t, t, 0);
  }

  /**
   * The condition matters on inputs the parser accepts: take any accepted configuration and let one route ask for
   * the prefix __ZEREH_HASH_ALGO__. It is accepted as well, and its source is not the filled template.
   */
  lemma InjectedTokenIsRewritten(pieces: seq<Piece>, node: ConfigNode, x: TextSettings, i: nat)
    requires WellMarked(pieces, TOKENS) && Hole(0) in pieces && Hole(1) in pieces
    requires AllCStrings(node) && ConfigOk(node) && i < |node.routes.value|
    requires var f := node.routes.value[i].filters; f.Filters? ==> f.rules.prefix.None?
    ensures var node' := WithPrefix(node, i, TOKENS[7]);
            && AllCStrings(node') && ConfigOk(node')
            && FillsOf(ConfigOf(node'), x).Valid()
            && Passes(Fill(pieces, TOKENS), FillsOf(ConfigOf(node'), x), UpTo(9)) !=
               Fill(pieces, FillsOf(ConfigOf(node'), x).texts)
  {
    hide TOKENS, FillsOf, Fill, WellMarked, Passes, Acceptable, RouteOf, CStrings, Free, OpcodesOf;
    HashAlgoToken();
    var node' := WithPrefix(node, i, TOKENS[7]);
    assert node.routes.value[i] in node.routes.value;
    PrefixAccepted(node.routes.value[i], DefaultsOf(node), TOKENS[7]);
    assert forall j :: 0 <= j < |node.routes.value| && j != i ==> node'.routes.value[j] in node.routes.value;
    var routes := ConfigOf(node').routes;
    assert routes[i].prefix == TOKENS[7];
    assert !FiltersFree(routes, TOKENS[7], 0);
    SourceIsFilledIff(pieces, ConfigOf(node'), x);
  }

  /** When no configured string contains any token, the order of the passes is immaterial too. */
  lemma SourceInAnyOrder(pieces: seq<Piece>, cfg: Config, x: TextSettings, order: seq<nat>)
    requires WellMarked(pieces, TOKENS) && Covers(order, 9) && 1 <= |cfg.routes| < 0x1_0000_0000
    requires forall k :: 0 <= k < 9 ==>
               FiltersFree(cfg.routes, TOKENS[k], 0) && DomainsFree(cfg.routes, TOKENS[k], 0)
    ensures FillsOf(cfg, x).Valid()
    ensures Passes(Fill(pieces, TOKENS), FillsOf(cfg, x), order) == Fill(pieces, FillsOf(cfg, x).texts)
  {
    hide TokenLike, TOKENS, Free, CasesText, RulesText, Decimal, FiltersFree, DomainsFree, WellMarked, Passes;
    hide Fill, OpcodeMask;
    var f := FillsOf(cfg, x);
    FillsValid(cfg, x);
    TokensApart();
    forall j, k | 0 <= j < 9 && 0 <= k < 9
      ensures Free(f.texts[j], TOKENS[k])
    {
      CasesFreeIff(cfg.routes, x.blacklisted, TOKENS[k]);
      RulesFreeIff(cfg.routes, TOKENS[k]);
      if j >= 2 {
        ShortTexts(cfg, x, j);
        ShortIsFree(f.texts[j], TOKENS[k]);
      }
    }
    PassesFillSimultaneously(pieces, f, order);
  }
}
