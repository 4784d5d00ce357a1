/** The generated source as a whole: its switch, its fallbacks and its constants mean the configuration. */
module SourceMeaning {
  import opened Bytes
  import opened Formats
  import opened Widening
  import opened Substitution
  import opened Tokens
  import opened Routes
  import opened Codegen
  import opened DataPlane
  import opened CReader
  import opened SourceText
  import opened PrintedMeaning
  import opened GeneratedSource
  import opened Deployment
  import opened DomainHash
  import ConfigParser
  import ProofOfWork

  const SWITCH_END: seq<Lexeme> := [Id("default"), COLON, Id("break"), SEMICOLON, RIGHT_BRACE]

  const DEFAULT_RETURN: seq<Lexeme> := [Id("return"), Id("ZEREH_DEFAULT_ACTION"), SEMICOLON]

  /** The rest of the dispatcher, from the first case on: the switch body, the blocks, the default action. */
  function ReadDispatch(ts: seq<Lexeme>): Option<(seq<Stmt>, seq<Block>, seq<Lexeme>)> {
    var (cases, end) := ReadStmts(ts);
    match Expect(end, SWITCH_END)
    case None => None
    case Some(rules) =>
      var (blocks, last) := ReadBlocks(rules);
      match Expect(last, DEFAULT_RETURN)
      case None => None
      case Some(rest) => Some((cases, blocks, rest))
  }

  /** The end of the switch as it stands in the template. */
  const SWITCH_ITEMS: seq<Item> :=
    [Item("\n    ", Word(Ascii("default")), ""), Mark(58, "\n        "), Key("break"), Mark(59, "\n    "),
     Mark(125, "\n\n    ")]

  lemma AsciiConcat(a: string, b: string)
    ensures Ascii(a + b) == Ascii(a) + Ascii(b)
  {
  }

  lemma SwitchItemsFine()
    ensures Fine(SWITCH_ITEMS)
  {
    hide LexemeOk, ItemOk;
    KeyOk("default");
    ItemsOk("\n    ", Word(Ascii("default")), "");
    KeyItemOk("break");
    MarkOk(58, "\n        ");
    MarkOk(59, "\n    ");
    MarkOk(125, "\n\n    ");
  }

  lemma SwitchEndSpelled()
    ensures Between(6) == "\n    default" + ":\n        " + "break" + ";\n    " + "}\n\n    "
  {
  }

  lemma {:induction false} EmitFive(a: Item, b: Item, c: Item, d: Item, e: Item)
    ensures Emit([a, b, c, d, e]) == ItemText(a) + ItemText(b) + ItemText(c) + ItemText(d) + ItemText(e)
  {
    hide Emit, ItemText;
    EmitNothing();
    EmitStep([e]);
    EmitStep([d, e]);
    EmitStep([c, d, e]);
    EmitStep([b, c, d, e]);
    EmitStep([a, b, c, d, e]);
    assert [e][1..] == [] && [d, e][1..] == [e] && [c, d, e][1..] == [d, e] && [b, c, d, e][1..] == [c, d, e];
    assert [a, b, c, d, e][1..] == [b, c, d, e];
  }

  lemma SpelledItems()
    ensures ItemText(Item("\n    ", Word(Ascii("default")), "")) == Ascii("\n    default")
    ensures ItemText(Mark(58, "\n        ")) == Ascii(":\n        ")
    ensures ItemText(Key("break")) == Ascii("break")
    ensures ItemText(Mark(59, "\n    ")) == Ascii(";\n    ")
    ensures ItemText(Mark(125, "\n\n    ")) == Ascii("}\n\n    ")
  {
  }

  lemma SwitchEndEmitted()
    ensures Emit(SWITCH_ITEMS) == Ascii(Between(6))
  {
    hide Emit, ItemText, Ascii, Between;
    SpelledItems();
    SwitchEndSpelled();
    EmitFive(Item("\n    ", Word(Ascii("default")), ""), Mark(58, "\n        "), Key("break"), Mark(59, "\n    "),
             Mark(125, "\n\n    "));
    AsciiConcat("\n    default", ":\n        ");
    AsciiConcat("\n    default" + ":\n        ", "break");
    AsciiConcat("\n    default" + ":\n        " + "break", ";\n    ");
    AsciiConcat("\n    default" + ":\n        " + "break" + ";\n    ", "}\n\n    ");
  }

  lemma SwitchEndLexed(more: seq<byte>)
    ensures Lexemes(Ascii(Between(6)) + more) == SWITCH_END + Lexemes(more)
  {
    hide Emit, Lexemes, Fine, Between;
    SwitchItemsFine();
    SwitchEndEmitted();
    LexItems(SWITCH_ITEMS, more);
    assert LexemesOf(SWITCH_ITEMS) == SWITCH_END;
  }

  lemma NoMoreCases(more: seq<Lexeme>)
    ensures ReadStmts(SWITCH_END + more) == ([], SWITCH_END + more)
  {
    var ts := SWITCH_END + more;
    assert ts[0] == Id("default");
    DefaultApart();
  }

  lemma DefaultApart()
    ensures Id("default") != Id("case") && Id("default") != Id("if") && Id("default") != Id("return")
    ensures Id("default") != Id("bpf_tail_call") && Id("return") != Id("if")
  {
  }

  lemma NoMoreBlocks(more: seq<Lexeme>)
    requires more != [] && more[0] == Id("return")
    ensures ReadBlocks(more) == ([], more)
  {
    hide ReadStmts, ReadNumber;
    DefaultApart();
  }

  /** What follows the fallbacks in the template: the default action is returned. */
  predicate ReturnsDefault(tail: seq<byte>) {
    DEFAULT_RETURN <= Lexemes(tail)
  }

  /** The dispatcher's text is read as the generated program, whatever follows it. */
  lemma DispatchTextReads(cfg: Config, x: TextSettings, tail: seq<byte>)
    requires forall j :: 0 <= j < |cfg.routes| ==> Fitting(cfg.routes[j], j)
    requires ReturnsDefault(tail)
    ensures var f, p := FillsOf(cfg, x), Generated(cfg.routes, cfg.fallThrough);
            ReadDispatch(Lexemes(f.texts[0] + Ascii(Between(6)) + f.texts[1] + tail)) ==
            Some((p.cases, p.fallbacks, Lexemes(tail)[3..]))
  {
    hide CasesText, RulesText, Lexemes, ReadStmts, ReadBlocks, RouteCases, FallbackRules, Fitting, Between, TOKENS;
    hide Decimal, ActionName, SWITCH_END;
    var cases, rules := CasesText(cfg.routes, x.blacklisted), RulesText(cfg.routes);
    var next := rules + tail;
    var rest := Ascii(Between(6)) + next;
    assert cases + Ascii(Between(6)) + rules + tail == cases + rest;
    CasesTextReads(cfg.routes, x.blacklisted, rest);
    SwitchEndLexed(next);
    NoMoreCases(Lexemes(next));
    assert RouteCases(cfg.routes, 0) + [] == RouteCases(cfg.routes, 0);
    ExpectRun(SWITCH_END, Lexemes(next));
    RulesTextReads(cfg.routes, tail);
    var last := Lexemes(tail);
    assert last[0] == Id("return");
    NoMoreBlocks(last);
    assert FallbackRules(cfg.routes, 0) + [] == FallbackRules(cfg.routes, 0);
  }

  // The source.

  lemma {:induction false} FillConcat(a: seq<Piece>, b: seq<Piece>, texts: seq<seq<byte>>)
    requires HolesKnown(a, |texts|) && HolesKnown(b, |texts|)
    ensures HolesKnown(a + b, |texts|) && Fill(a + b, texts) == Fill(a, texts) + Fill(b, texts)
    decreases |a|
  {
    if a == [] {
      assert a + b == b;
    } else {
      FillConcat(a[1..], b, texts);
      assert (a + b)[1..] == a[1..] + b && (a + b)[0] == a[0];
    }
  }

  lemma FillStep(pieces: seq<Piece>, texts: seq<seq<byte>>)
    requires pieces != [] && HolesKnown(pieces, |texts|)
    ensures HolesKnown(pieces[1..], |texts|)
    ensures Fill(pieces, texts) == PieceText(pieces[0], texts) + Fill(pieces[1..], texts)
  {
  }

  lemma FillEnd(middle: seq<byte>, tail: seq<byte>, texts: seq<seq<byte>>)
    requires |texts| == 9
    ensures HolesKnown([Hole(0), Lit(middle), Hole(1), Lit(tail)], 9)
    ensures Fill([Hole(0), Lit(middle), Hole(1), Lit(tail)], texts) == texts[0] + middle + texts[1] + tail
  {
    hide Fill;
    var d := [Lit(tail)];
    var c := [Hole(1)] + d;
    var b := [Lit(middle)] + c;
    var a := [Hole(0)] + b;
    FillStep(d, texts);
    assert d[1..] == [] && c[1..] == d && b[1..] == c && a[1..] == b;
    FillStep(c, texts);
    FillStep(b, texts);
    FillStep(a, texts);
    FillNothing(texts);
    assert a == [Hole(0), Lit(middle), Hole(1), Lit(tail)];
  }

  lemma FillNothing(texts: seq<seq<byte>>)
    ensures HolesKnown([], |texts|) && Fill([], texts) == []
  {
  }

  /** The template before the switch body. */
  function TemplateFront(head: seq<byte>, body: seq<byte>, tail: seq<byte>): seq<Piece> {
    Template(head, body, tail)[..15]
  }

  lemma TemplateEnds(head: seq<byte>, body: seq<byte>, tail: seq<byte>)
    ensures Template(head, body, tail) ==
            TemplateFront(head, body, tail) + [Hole(0), Lit(Ascii(Between(6))), Hole(1), Lit(tail)]
  {
    hide Between, Ascii;
    var pieces := Template(head, body, tail);
    assert pieces[15] == Hole(0) && pieces[16] == Lit(Ascii(Between(6))) && pieces[17] == Hole(1);
    assert pieces[18] == Lit(tail);
    assert pieces == pieces[..15] + [pieces[15], pieces[16], pieces[17], pieces[18]];
  }

  lemma FilledTemplate(head: seq<byte>, body: seq<byte>, tail: seq<byte>, texts: seq<seq<byte>>)
    requires |texts| == 9 && HolesKnown(Template(head, body, tail), 9)
    ensures HolesKnown(TemplateFront(head, body, tail), 9)
    ensures Fill(Template(head, body, tail), texts) ==
            Fill(TemplateFront(head, body, tail), texts) + (texts[0] + Ascii(Between(6)) + texts[1] + tail)
  {
    hide Template, Between, Ascii, Fill;
    var front := TemplateFront(head, body, tail);
    var end := [Hole(0), Lit(Ascii(Between(6))), Hole(1), Lit(tail)];
    TemplateEnds(head, body, tail);
    assert forall j :: 0 <= j < |front| ==> front[j] == (front + end)[j];
    FillConcat(front, end, texts);
    FillEnd(Ascii(Between(6)), tail, texts);
  }

  /** The text around the marked lines: the default action is returned after the fallbacks. */
  predicate Surroundings(head: seq<byte>, body: seq<byte>, tail: seq<byte>) {
    && Harmless(head) && head != [] && !TokenByte(head[|head| - 1])
    && TextOk(body)
    && Harmless(tail) && tail != [] && !TokenByte(tail[0]) && ReturnsDefault(tail)
  }

  lemma TemplateReady(head: seq<byte>, body: seq<byte>, tail: seq<byte>, cfg: Config, x: TextSettings)
    requires Surroundings(head, body, tail)
    ensures HolesKnown(Template(head, body, tail), |TOKENS|) && FillsOf(cfg, x).Valid() && |TOKENS| == 9
  {
    hide Harmless, TextOk, ReturnsDefault, Template, FillsOf, TOKENS;
    TokensApart();
    TemplateWellMarked(head, body, tail);
    FillsValid(cfg, x);
  }

  /** What the generator writes: the nine passes over the template. */
  ghost function Source(head: seq<byte>, body: seq<byte>, tail: seq<byte>, cfg: Config, x: TextSettings): seq<byte>
    requires Surroundings(head, body, tail)
  {
    TemplateReady(head, body, tail, cfg, x);
    Passes(Fill(Template(head, body, tail), TOKENS), FillsOf(cfg, x), UpTo(9))
  }

  /** The end of the source, from the switch body on, when every hole has its text. */
  function Dispatcher(tail: seq<byte>, cfg: Config, x: TextSettings): seq<byte> {
    FillsOf(cfg, x).texts[0] + Ascii(Between(6)) + FillsOf(cfg, x).texts[1] + tail
  }

  lemma SuffixOfConcat(a: seq<byte>, b: seq<byte>)
    ensures IsSuffix(b, a + b)
  {
  }

  lemma SourceEnds(head: seq<byte>, body: seq<byte>, tail: seq<byte>, cfg: Config, x: TextSettings)
    requires Surroundings(head, body, tail) && 1 <= |cfg.routes| < 0x1_0000_0000 && StringsFree(cfg.routes)
    ensures IsSuffix(Dispatcher(tail, cfg, x), Source(head, body, tail, cfg, x))
  {
    hide Harmless, TextOk, ReturnsDefault, StringsFree, FillsOf, Template, TemplateFront, Fill, Passes, Between, TOKENS;
    hide IsSuffix;
    TemplateReady(head, body, tail, cfg, x);
    TemplateIsFilledIff(head, body, tail, cfg, x);
    FilledTemplate(head, body, tail, FillsOf(cfg, x).texts);
    SuffixOfConcat(Fill(TemplateFront(head, body, tail), FillsOf(cfg, x).texts), Dispatcher(tail, cfg, x));
  }

  /**
   * From the configuration to the meaning of the generated source: when no configured string contains a token, what
   * the nine passes make of the template ends in a dispatcher that is read as the generated program.
   */
  lemma SourceMeansGenerated(head: seq<byte>, body: seq<byte>, tail: seq<byte>, cfg: Config, x: TextSettings)
    requires Surroundings(head, body, tail) && 1 <= |cfg.routes| < 0x1_0000_0000 && StringsFree(cfg.routes)
    requires forall j :: 0 <= j < |cfg.routes| ==> Fitting(cfg.routes[j], j)
    ensures IsSuffix(Dispatcher(tail, cfg, x), Source(head, body, tail, cfg, x))
    ensures var p, d := Generated(cfg.routes, cfg.fallThrough), ReadDispatch(Lexemes(Dispatcher(tail, cfg, x)));
            d.Some? && d.value.0 == p.cases && d.value.1 == p.fallbacks
  {
    hide Harmless, TextOk, ReturnsDefault, StringsFree, Fitting, FillsOf, Generated, Lexemes, ReadDispatch, Between;
    hide Source, IsSuffix;
    SourceEnds(head, body, tail, cfg, x);
    DispatchTextReads(cfg, x, tail);
  }

  /** Every accepted configuration is printed without loss. */
  lemma DeployedFits(cfg: Config)
    requires Deployed(cfg)
    ensures 1 <= |cfg.routes| < 0x1_0000_0000
    ensures forall j :: 0 <= j < |cfg.routes| ==> Fitting(cfg.routes[j], j)
  {
    hide DistinctHashes, HashDomain, ConfigParser.KnownBits;
  }

  // The constants.

  /** The verdict that the text pasted for the default action names. */
  function VerdictNamed(word: seq<byte>): Option<Verdict> {
    if word == Ascii("XDP_DROP") then Some(Drop) else if word == Ascii("XDP_PASS") then Some(Pass) else None
  }

  lemma {:induction false} OpcodeMaskBits(opcodes: set<nat>, n: nat, c: nat)
    requires c < n
    ensures OpcodeMask(opcodes, n) / Pow2(c) % 2 == 1 <==> c in opcodes
  {
    var rest := OpcodeMask(opcodes, n - 1);
    OpcodeMaskBound(opcodes, n - 1);
    if c == n - 1 {
      TopDigit(rest, Pow2(c), c in opcodes);
    } else {
      OpcodeMaskBits(opcodes, n - 1, c);
      if n - 1 in opcodes {
        HigherDigit(rest, c, n - 1);
      }
    }
  }

  lemma TopDigit(low: nat, p: nat, on: bool)
    requires low < p
    ensures (low + if on then p else 0) / p % 2 == 1 <==> on
  {
    if on {
      ProofOfWork.DivBounds(low + p, p, 1);
    } else {
      ProofOfWork.DivBounds(low, p, 0);
    }
  }

  /** A higher power of two does not change a lower digit. */
  lemma HigherDigit(m: nat, c: nat, k: nat)
    requires c < k
    ensures (m + Pow2(k)) / Pow2(c) % 2 == m / Pow2(c) % 2
  {
    hide Pow2;
    var q := PowSplits(c, k);
    DivShift(m, Pow2(c), 2 * q);
    EvenShift(m / Pow2(c), q);
  }

  lemma EvenShift(n: nat, q: nat)
    ensures (n + 2 * q) % 2 == n % 2
  {
  }

  lemma {:induction false} PowSplits(c: nat, k: nat) returns (q: nat)
    requires c < k
    ensures Pow2(k) == (2 * q) * Pow2(c)
    decreases k
  {
    if c == k - 1 {
      q := 1;
    } else {
      q := PowSplits(c, k - 1);
      q := 2 * q;
      assert Pow2(k) == 2 * Pow2(k - 1);
    }
  }

  lemma DivShift(m: nat, p: nat, j: nat)
    requires p > 0
    ensures (m + j * p) / p == m / p + j
  {
    var q := m / p;
    ProofOfWork.DivBounds(m, p, q);
    Distribute(q, j, p);
    Distribute(q + 1, j, p);
    ProofOfWork.DivBounds(m + j * p, p, q + j);
  }

  lemma Distribute(a: nat, b: nat, p: nat)
    ensures (a + b) * p == a * p + b * p
  {
  }

  /** Each constant of the template gets the setting of its name. */
  lemma ConstantsRead(cfg: Config, x: TextSettings)
    ensures var f := FillsOf(cfg, x);
            && Name(2) == "MAX_PACKET_SIZE" && DecimalValue(f.texts[2]) == Some(cfg.maxPacketSize)
            && Name(3) == "ALLOWED_OPCODE_MASK" && DecimalValue(f.texts[3]).Some?
            && (forall c :: 0 <= c < 16 ==>
                  (DecimalValue(f.texts[3]).value / Pow2(c) % 2 == 1 <==> c in cfg.opcodes))
            && Name(4) == "DROP_TRUNCATED" && DecimalValue(f.texts[4]) == Some(if cfg.dropTruncated then 1 else 0)
            && Name(5) == "DEFAULT_ACTION"
            && (cfg.fallThrough in {Pass, Drop} ==> VerdictNamed(f.texts[5]) == Some(cfg.fallThrough))
            && Name(6) == "INLINE_CHECKSUMS" && DecimalValue(f.texts[6]) == Some(if x.inlineChecksums then 1 else 0)
            && Name(7) == "HASH_ALGO" && DecimalValue(f.texts[7]) == Some(if cfg.algo.Sip? then 1 else 0)
            && Name(8) == "RATE_STATE_ENTRIES"
            && (cfg.routes != [] ==> DecimalValue(f.texts[8]) == Some(|cfg.routes|))
  {
    hide CasesText, RulesText, TOKENS, Decimal, DecimalValue, OpcodeMask, Pow2;
    DecimalReads(cfg.maxPacketSize);
    DecimalReads(OpcodeMask(cfg.opcodes, 16));
    forall c | 0 <= c < 16
      ensures OpcodeMask(cfg.opcodes, 16) / Pow2(c) % 2 == 1 <==> c in cfg.opcodes
    {
      OpcodeMaskBits(cfg.opcodes, 16, c);
    }
    DecimalReads(0);
    DecimalReads(1);
    DecimalReads(|cfg.routes|);
    VerdictsNamed(cfg.fallThrough);
  }

  lemma VerdictsNamed(v: Verdict)
    ensures v in {Pass, Drop} ==> VerdictNamed(ActionName(v)) == Some(v)
  {
    assert Ascii("XDP_DROP")[4] == 68 && Ascii("XDP_PASS")[4] == 80;
  }
}
