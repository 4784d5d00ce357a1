/** What the printed C means: reading it back gives exactly the generated statements and blocks. */
module PrintedMeaning {
  import opened Bytes
  import opened Formats
  import opened CText
  import opened Routes
  import opened Filters
  import opened Codegen
  import opened CReader
  import opened SourceText

  // Printed items are lexed as what they are.

  lemma {:induction false} LexBlank(s: string, more: seq<byte>)
    requires BlankText(s)
    ensures Lexemes(Ascii(s) + more) == Lexemes(more)
  {
    if s == "" {
      assert Ascii(s) + more == more;
    } else {
      var t := Ascii(s) + more;
      LexBlank(s[1..], more);
      assert t[1..] == Ascii(s[1..]) + more;
      assert Blank(t[0]);
    }
  }

  lemma {:induction false} WordRun(w: seq<byte>, more: seq<byte>)
    requires forall i :: 0 <= i < |w| ==> WordByte(w[i])
    requires more == [] || !WordByte(more[0])
    ensures WordLength(w + more) == |w|
  {
    if w == [] {
      assert w + more == more;
    } else {
      WordRun(w[1..], more);
      assert (w + more)[1..] == w[1..] + more;
    }
  }

  lemma LexWord(w: seq<byte>, more: seq<byte>)
    requires LexemeOk(Word(w)) && (more == [] || !WordByte(more[0]))
    ensures Lexemes(w + more) == [Word(w)] + Lexemes(more)
  {
    WordRun(w, more);
    var t := w + more;
    assert t[0] == w[0] && t[..|w|] == w && t[|w|..] == more;
  }

  lemma LexString(raw: seq<byte>, more: seq<byte>)
    requires LexemeOk(Str(raw))
    ensures Lexemes(Spelling(Str(raw)) + more) == [Str(raw)] + Lexemes(more)
  {
    hide Escaped, Lex;
    var s :| raw == Escaped(s);
    var t := Spelling(Str(raw)) + more;
    LexUndoesEscape(s, more);
    assert t[0] == QUOTE && t[1..] == Escaped(s) + [QUOTE] + more;
    assert t[1..|t| - |more| - 1] == raw;
  }

  lemma LexPunct(c: byte, more: seq<byte>)
    requires LexemeOk(Punct(c))
    ensures Lexemes([c] + more) == [Punct(c)] + Lexemes(more)
  {
    var t := [c] + more;
    assert t[0] == c && t[1..] == more;
  }

  lemma LexItem(item: Item, more: seq<byte>)
    requires ItemOk(item)
    requires item.lexeme.Word? && item.after == "" ==> more == [] || !WordByte(more[0])
    ensures Lexemes(ItemText(item) + more) == [item.lexeme] + Lexemes(more)
  {
    hide Lexemes, LexemeOk;
    var tail := Ascii(item.after) + more;
    LexBlank(item.after, more);
    LexBlank(item.before, Spelling(item.lexeme) + tail);
    assert ItemText(item) + more == Ascii(item.before) + (Spelling(item.lexeme) + tail);
    match item.lexeme
    case Word(w) =>
      if item.after == "" {
        assert tail == more;
      } else {
        assert tail[0] == Ascii(item.after)[0];
      }
      LexWord(w, tail);
    case Str(raw) => LexString(raw, tail);
    case Punct(c) => LexPunct(c, tail);
  }

  function LexemesOf(items: seq<Item>): (ts: seq<Lexeme>)
    ensures |ts| == |items| && forall i :: 0 <= i < |items| ==> ts[i] == items[i].lexeme
  {
    seq(|items|, i requires 0 <= i < |items| => items[i].lexeme)
  }

  /** Something that is not a word, or comes after white space, does not extend the word before it. */
  lemma EmitStart(items: seq<Item>, rest: seq<byte>)
    requires items != [] && ItemOk(items[0]) && (items[0].before != "" || !items[0].lexeme.Word?)
    ensures Emit(items) + rest != [] && !WordByte((Emit(items) + rest)[0])
  {
    hide Emit;
    EmitStep(items);
    var item := items[0];
    if item.before != "" {
      assert ItemText(item)[0] == Ascii(item.before)[0];
    } else {
      assert ItemText(item)[0] == Spelling(item.lexeme)[0];
    }
  }

  /** Printed text is lexed to its lexemes, whatever follows it. */
  lemma {:induction false} LexItems(items: seq<Item>, rest: seq<byte>)
    requires Fine(items)
    ensures Lexemes(Emit(items) + rest) == LexemesOf(items) + Lexemes(rest)
    decreases |items|
  {
    hide Emit, Lexemes, ItemText, ItemOk;
    if items == [] {
      EmitNothing();
      assert Emit(items) + rest == rest && LexemesOf(items) + Lexemes(rest) == Lexemes(rest);
    } else {
      var item, tail := items[0], items[1..];
      FineTail(items);
      EmitStep(items);
      var more := Emit(tail) + rest;
      assert Emit(items) + rest == ItemText(item) + more;
      assert WordEnds(items, 0);
      if item.lexeme.Word? && item.after == "" {
        assert tail[0] == items[1];
        EmitStart(tail, rest);
      }
      LexItem(item, more);
      LexItems(tail, rest);
      assert LexemesOf(items) == [item.lexeme] + LexemesOf(tail);
    }
  }

  lemma {:induction false} CommentEnds(body: seq<byte>, more: seq<byte>)
    requires 42 !in body
    ensures AfterComment(body + [42, 47] + more) == Some(more)
  {
    var t := body + [42, 47] + more;
    if body == [] {
      assert t[0] == 42 && t[1] == 47 && t[2..] == more;
    } else {
      CommentEnds(body[1..], more);
      assert t[1..] == body[1..] + [42, 47] + more && t[0] == body[0];
    }
  }

  /** The comment in front of the case texts is skipped. */
  lemma LexHead(routes: nat, blacklisted: nat, more: seq<byte>)
    ensures Lexemes(HeadText(routes, blacklisted) + more) == Lexemes(more)
  {
    hide HeadBody, Lexemes;
    var body := HeadBody(routes, blacklisted);
    var tail := Ascii("\n") + more;
    HeadHasNoStar(routes, blacklisted);
    CommentBrackets();
    var t := [47, 42] + body + [42, 47] + tail;
    assert HeadText(routes, blacklisted) + more == Ascii("    ") + t;
    Blanks();
    LexBlank("    ", t);
    LexComment(body, tail);
    LexBlank("\n", more);
  }

  lemma CommentBrackets()
    ensures Ascii("    /*") == Ascii("    ") + [47, 42] && Ascii("*/\n") == [42, 47] + Ascii("\n")
  {
  }

  lemma LexComment(body: seq<byte>, more: seq<byte>)
    requires 42 !in body
    ensures Lexemes([47, 42] + body + [42, 47] + more) == Lexemes(more)
  {
    var t := [47, 42] + body + [42, 47] + more;
    CommentEnds(body, more);
    assert t[0] == 47 && t[1] == 42 && t[2..] == body + [42, 47] + more;
  }

  lemma HeadHasNoStar(routes: nat, blacklisted: nat)
    ensures 42 !in HeadBody(routes, blacklisted)
  {
    hide Decimal;
    DecimalDigits(routes);
    DecimalDigits(blacklisted);
    HeadWords();
  }

  lemma HeadWords()
    ensures 42 !in Ascii(" Generated from YAML: ") && 42 !in Ascii(" routes, ") && 42 !in Ascii(" blacklist CIDRs ")
  {
  }

  // Lexemes are read as the statements they were printed for.

  lemma LexemesConcat(a: seq<Item>, b: seq<Item>)
    ensures LexemesOf(a + b) == LexemesOf(a) + LexemesOf(b)
  {
  }

  lemma ExpectRun(run: seq<Lexeme>, more: seq<Lexeme>)
    ensures Expect(run + more, run) == Some(more)
  {
    assert (run + more)[|run|..] == more;
  }

  lemma NumberReads(n: nat)
    ensures NumberOf(Dec(n)) == Some(n)
  {
    DecimalReads(n);
  }

  lemma HexReadsBack(digits: seq<byte>, suffix: seq<byte>)
    requires digits != []
    ensures HexOf(Word(Ascii("0x") + digits + suffix), suffix) == HexValue(digits)
  {
    var w := Ascii("0x") + digits + suffix;
    assert w[|w| - |suffix|..] == suffix;
    assert w[2..|w| - |suffix|] == digits;
  }

  lemma {:induction false} HexNonEmpty(n: nat, width: nat)
    ensures Hex(n) != [] && Padded(Hex(n), width) != []
  {
  }

  lemma LabelReads(hash: bv64)
    ensures LabelOf(Word(LabelWord(hash))) == Some(hash)
  {
    var n := hash as nat;
    PaddedReads(n, 16);
    HexNonEmpty(n, 16);
    HexReadsBack(Padded(Hex(n), 16), Ascii("ULL"));
  }

  lemma MaskReads(mask: bv32)
    ensures TypeMaskOf(Word(MaskWord(mask))) == Some(mask)
  {
    var n := mask as nat;
    HexReads(n);
    HexNonEmpty(n, 0);
    HexReadsBack(Hex(n), Ascii("u"));
  }

  lemma {:induction false} ArgsRead(args: seq<Lexeme>, more: seq<Lexeme>)
    requires args != [] && forall i :: 0 <= i < |args| ==> !args[i].Punct?
    ensures ReadArgs(LexemesOf(ArgItems(args)) + more) == Some((args, more))
  {
    var ts := LexemesOf(ArgItems(args)) + more;
    assert ts[0] == args[0];
    if |args| == 1 {
      assert ts[1] == CLOSE && ts[2..] == more && args == [args[0]];
    } else {
      var pair := [Item("", args[0], ""), Mark(44, NEXT_LINE)];
      LexemesConcat(pair, ArgItems(args[1..]));
      assert ts[1] == COMMA && ts[2..] == LexemesOf(ArgItems(args[1..])) + more;
      ArgsRead(args[1..], more);
      assert args == [args[0]] + args[1..];
    }
  }

  /** The lengths fit their parameters and the id its counter type, as they do for the program's arrays. */
  predicate Fitting(r: Route, id: nat) {
    |r.domain| < 0x1_0000 && |r.prefix| < 0x1_0000 && |r.suffix| < 0x1_0000 && id < 0x1_0000_0000
  }

  lemma ShapeReads(r: Route, id: nat)
    ensures |Arguments(r, id)| == 19
    ensures ShapeArgs(Arguments(r, id)) == Some((r.minLabels, r.maxLabels, r.minLength, r.maxLength, id))
  {
    hide NumberOf, Dec, MaskWord, Quoted, Ascii;
    NumberReads(r.minLabels);
    NumberReads(r.maxLabels);
    NumberReads(r.minLength);
    NumberReads(r.maxLength);
    NumberReads(id);
  }

  lemma ProofReads(r: Route, id: nat)
    ensures |Arguments(r, id)| == 19
    ensures ProofArgs(Arguments(r, id)) ==
            Some((r.typeMask, r.powDifficulty, r.powWindow, Bit(r.bloomEnabled), r.bloomSize, r.bloomHashes,
                  r.bloomWindow, r.qps))
  {
    hide NumberOf, TypeMaskOf, Dec, MaskWord, Quoted, Ascii, Bit;
    MaskReads(r.typeMask);
    NumberReads(r.powDifficulty);
    NumberReads(r.powWindow);
    NumberReads(Bit(r.bloomEnabled));
    NumberReads(r.bloomSize);
    NumberReads(r.bloomHashes);
    NumberReads(r.bloomWindow);
    NumberReads(r.qps);
  }

  lemma FirstArguments(r: Route, id: nat)
    ensures var args := Arguments(r, id);
            && |args| == 19 && args[0] == Id("qmeta") && args[9] == Id("route_hash")
            && args[1] == Str(Escaped(r.prefix)) && args[2] == Dec(|r.prefix|)
            && args[3] == Str(Escaped(r.suffix)) && args[4] == Dec(|r.suffix|)
  {
    hide Dec, MaskWord, Ascii, Escaped;
  }

  /** The printed arguments, taken by the position of the parameters, are those of the guard. */
  lemma CallReads(r: Route, id: nat)
    requires Fitting(r, id)
    ensures CallOf(Arguments(r, id)) == Some(GuardOf(r, id))
  {
    hide NumberOf, Dec, ShapeArgs, ProofArgs, Ascii, Escaped, Arguments;
    FirstArguments(r, id);
    NumberReads(|r.prefix|);
    NumberReads(|r.suffix|);
    ShapeReads(r, id);
    ProofReads(r, id);
  }

  lemma GuardReads(r: Route, id: nat, more: seq<Lexeme>)
    requires Fitting(r, id)
    ensures ReadStmt(LexemesOf(GuardItems(r, id)) + more) == Some((GuardOf(r, id), more))
  {
    hide ArgItems, Arguments, CallOf, GuardOf, ReadArgs, Ascii;
    var open := [Id("if"), OPEN, NOT, Id("zereh_apply_app_filters"), OPEN];
    var close := [CLOSE, LEFT_BRACE, Id("return"), Id("XDP_DROP"), SEMICOLON, RIGHT_BRACE];
    var args := Arguments(r, id);
    assert |args| == 19 by { ArgumentCount(r, id); }
    var call := LexemesOf(ArgItems(args));
    LexemesConcat(CALL, ArgItems(args));
    LexemesConcat(CALL + ArgItems(args), REFUSED);
    assert LexemesOf(CALL) == open && LexemesOf(REFUSED) == close;
    var ts := LexemesOf(GuardItems(r, id)) + more;
    assert ts == open + (call + (close + more));
    assert ts[0] == Id("if");
    ExpectRun(open, call + (close + more));
    ArgumentsOk(r, id);
    ArgsRead(args, close + more);
    CallReads(r, id);
    ExpectRun(close, more);
    WordsApart();
  }

  /** The first words of the statements differ, and so do the words after return. */
  lemma WordsApart()
    ensures Id("if") != Id("case") && Id("return") != Id("case") && Id("bpf_tail_call") != Id("case")
    ensures Id("return") != Id("if") && Id("bpf_tail_call") != Id("if") && Id("bpf_tail_call") != Id("return")
    ensures Id("bpf_redirect_map") != Id("XDP_DROP") && Id("zereh_route_kernel_space") != Id("XDP_DROP")
    ensures Id("zereh_route_kernel_space") != Id("bpf_redirect_map")
  {
  }

  lemma NumberRun(n: nat, run: seq<Lexeme>, more: seq<Lexeme>)
    ensures ReadNumber([Dec(n)] + (run + more), run) == Some((n, more))
  {
    hide NumberOf, Dec;
    NumberReads(n);
    ExpectRun(run, more);
    assert ([Dec(n)] + (run + more))[1..] == run + more;
  }

  lemma LabelItemsRead(hash: bv64, more: seq<Lexeme>)
    ensures ReadStmt(LexemesOf(LabelItems(hash)) + more) == Some((Case(hash), more))
  {
    hide LabelOf, LabelWord;
    var ts := LexemesOf(LabelItems(hash)) + more;
    assert ts[0] == Id("case") && ts[1] == Word(LabelWord(hash)) && ts[2] == COLON && ts[3..] == more;
    LabelReads(hash);
  }

  lemma RedirectReads(queue: nat, indent: string, more: seq<Lexeme>)
    ensures ReadStmt(LexemesOf(RedirectItems(queue, indent)) + more) == Some((ReturnRedirect(queue), more))
  {
    hide Dec, Ascii, ReadNumber;
    var open := [OPEN, ADDRESS, Id("xsk_map"), COMMA];
    var close := [COMMA, Id("0"), CLOSE, SEMICOLON];
    var ts := LexemesOf(RedirectItems(queue, indent)) + more;
    var number := [Dec(queue)] + (close + more);
    assert ts == [Id("return"), Id("bpf_redirect_map")] + (open + number);
    assert ts[0] == Id("return") && ts[1] == Id("bpf_redirect_map") && ts[2..] == open + number;
    ExpectRun(open, number);
    NumberRun(queue, close, more);
    WordsApart();
  }

  lemma RewriteReads(port: u16, indent: string, more: seq<Lexeme>)
    ensures ReadStmt(LexemesOf(RewriteItems(port, indent)) + more) == Some((ReturnKernel(port), more))
  {
    hide Dec, Ascii, ReadNumber;
    var open := [OPEN, Id("iph"), COMMA, Id("udp"), COMMA, Id("bpf_htons"), OPEN];
    var close := [CLOSE, COMMA, Id("0"), CLOSE, SEMICOLON];
    var ts := LexemesOf(RewriteItems(port, indent)) + more;
    var number := [Dec(port)] + (close + more);
    assert ts == [Id("return"), Id("zereh_route_kernel_space")] + (open + number);
    assert ts[0] == Id("return") && ts[1] == Id("zereh_route_kernel_space") && ts[2..] == open + number;
    ExpectRun(open, number);
    NumberRun(port, close, more);
    WordsApart();
  }

  lemma TailCallReads(index: nat, indent: string, more: seq<Lexeme>)
    ensures ReadStmt(LexemesOf(TailCallItems(index, indent)) + more) == Some((TailCall(index), more))
  {
    hide Dec, Ascii, ReadNumber;
    var open := [Id("bpf_tail_call"), OPEN, Id("ctx"), COMMA, ADDRESS, Id("prog_array"), COMMA];
    var close := [CLOSE, SEMICOLON];
    var ts := LexemesOf(TailCallItems(index, indent)) + more;
    var number := [Dec(index)] + (close + more);
    assert ts == open + number;
    assert ts[0] == Id("bpf_tail_call");
    ExpectRun(open, number);
    NumberRun(index, close, more);
    WordsApart();
  }

  lemma DropReads(indent: string, more: seq<Lexeme>)
    ensures ReadStmt(LexemesOf(DropItems(indent)) + more) == Some((ReturnDrop, more))
  {
    hide Ascii;
    var ts := LexemesOf(DropItems(indent)) + more;
    assert ts[0] == Id("return") && ts[1] == Id("XDP_DROP") && ts[2..] == [SEMICOLON] + more;
    ExpectRun([SEMICOLON], more);
    WordsApart();
  }

  // Lists of statements.

  /** Statements read first, and what is read after them. */
  function Prepend(stmts: seq<Stmt>, r: (seq<Stmt>, seq<Lexeme>)): (seq<Stmt>, seq<Lexeme>) {
    (stmts + r.0, r.1)
  }

  lemma PrependTwice(a: seq<Stmt>, b: seq<Stmt>, r: (seq<Stmt>, seq<Lexeme>))
    ensures Prepend(a, Prepend(b, r)) == Prepend(a + b, r)
  {
    assert a + (b + r.0) == a + b + r.0;
  }

  lemma StmtFirst(ts: seq<Lexeme>, stmt: Stmt, more: seq<Lexeme>)
    requires ReadStmt(ts) == Some((stmt, more))
    ensures ReadStmts(ts) == Prepend([stmt], ReadStmts(more))
  {
    hide ReadStmt;
  }

  lemma ActionReads(r: Route, indent: string, more: seq<Lexeme>)
    ensures ReadStmts(LexemesOf(ActionItems(r, indent)) + more) == Prepend(ActionOf(r), ReadStmts(more))
  {
    hide ReadStmt, ReadStmts, RedirectItems, RewriteItems, TailCallItems, DropItems;
    var ts := LexemesOf(ActionItems(r, indent)) + more;
    match r.target
    case UserSpace =>
      RedirectReads(r.xskQueue, indent, more);
      StmtFirst(ts, ReturnRedirect(r.xskQueue), more);
    case KernelSpace =>
      RewriteReads(r.kernelPort, indent, more);
      StmtFirst(ts, ReturnKernel(r.kernelPort), more);
    case XdpProg =>
      var call, drop := TailCallItems(r.progIndex, indent), DropItems(indent);
      LexemesConcat(call, drop);
      var next := LexemesOf(drop) + more;
      assert ts == LexemesOf(call) + next;
      TailCallReads(r.progIndex, indent, next);
      StmtFirst(ts, TailCall(r.progIndex), next);
      DropReads(indent, more);
      StmtFirst(next, ReturnDrop, more);
      PrependTwice([TailCall(r.progIndex)], [ReturnDrop], ReadStmts(more));
      assert [TailCall(r.progIndex)] + [ReturnDrop] == ActionOf(r);
  }

  /** The guard and the action of a route. */
  lemma GuardedReads(r: Route, id: nat, indent: string, more: seq<Lexeme>)
    requires Fitting(r, id)
    ensures ReadStmts(LexemesOf(GuardItems(r, id) + ActionItems(r, indent)) + more) ==
            Prepend([GuardOf(r, id)] + ActionOf(r), ReadStmts(more))
  {
    hide ReadStmt, ReadStmts, GuardItems, ActionItems, GuardOf, ActionOf;
    var guard, action := GuardItems(r, id), ActionItems(r, indent);
    LexemesConcat(guard, action);
    var next := LexemesOf(action) + more;
    assert LexemesOf(guard + action) + more == LexemesOf(guard) + next;
    GuardReads(r, id, next);
    StmtFirst(LexemesOf(guard) + next, GuardOf(r, id), next);
    ActionReads(r, indent, more);
    PrependTwice([GuardOf(r, id)], ActionOf(r), ReadStmts(more));
  }

  /** The text of a route's case is read as the route's case, whatever follows it. */
  lemma CaseReads(r: Route, id: nat, more: seq<Lexeme>)
    requires Fitting(r, id)
    ensures ReadStmts(LexemesOf(CaseItems(r, id)) + more) == Prepend(RouteCase(r, id), ReadStmts(more))
  {
    hide ReadStmt, ReadStmts, GuardItems, ActionItems, LabelItems, GuardOf, ActionOf;
    var start, rest := LabelItems(r.hash), GuardItems(r, id) + ActionItems(r, "        ");
    assert CaseItems(r, id) == start + rest;
    LexemesConcat(start, rest);
    var next := LexemesOf(rest) + more;
    assert LexemesOf(CaseItems(r, id)) + more == LexemesOf(start) + next;
    LabelItemsRead(r.hash, next);
    StmtFirst(LexemesOf(start) + next, Case(r.hash), next);
    GuardedReads(r, id, "        ", more);
    PrependTwice([Case(r.hash)], [GuardOf(r, id)] + ActionOf(r), ReadStmts(more));
    assert [Case(r.hash)] + ([GuardOf(r, id)] + ActionOf(r)) == RouteCase(r, id);
  }

  lemma {:induction false} CasesRead(routes: seq<Route>, i: nat, more: seq<Lexeme>)
    requires i <= |routes| && forall j :: 0 <= j < |routes| ==> Fitting(routes[j], j)
    ensures ReadStmts(LexemesOf(CasesItems(routes, i)) + more) == Prepend(RouteCases(routes, i), ReadStmts(more))
    decreases |routes| - i
  {
    hide ReadStmts, CaseItems, RouteCase;
    if i == |routes| {
      assert LexemesOf(CasesItems(routes, i)) + more == more;
      assert [] + ReadStmts(more).0 == ReadStmts(more).0;
    } else {
      var first, rest := CaseItems(routes[i], i), CasesItems(routes, i + 1);
      LexemesConcat(first, rest);
      assert LexemesOf(CasesItems(routes, i)) + more == LexemesOf(first) + (LexemesOf(rest) + more);
      CaseReads(routes[i], i, LexemesOf(rest) + more);
      CasesRead(routes, i + 1, more);
      PrependTwice(RouteCase(routes[i], i), RouteCases(routes, i + 1), ReadStmts(more));
    }
  }

  // Fallback blocks.

  lemma NoStmt(more: seq<Lexeme>)
    requires more != [] && more[0] == RIGHT_BRACE
    ensures ReadStmts(more) == ([], more)
  {
    assert more[0].Punct?;
  }

  lemma BlockOpens(domain: seq<byte>, body: seq<Lexeme>)
    requires |domain| < 0x1_0000
    ensures var ts := LexemesOf(TEST + TestEnd(domain)) + body;
            var (stmts, end) := ReadStmts(body);
            ReadBlock(ts) ==
            if end == [] || end[0] != RIGHT_BRACE then None
            else Some((IfSuffix(Escaped(domain), |domain|, stmts), end[1..]))
  {
    hide Dec, Ascii, ReadNumber, ReadStmts, Escaped;
    var open := [Id("if"), OPEN, Id("zereh_match_suffix"), OPEN, Id("qmeta"), MINUS, GREATER, Id("qname"), COMMA,
                 Id("qmeta"), MINUS, GREATER, Id("qname_len"), COMMA];
    var run := [CLOSE, CLOSE, LEFT_BRACE];
    LexemesConcat(TEST, TestEnd(domain));
    assert LexemesOf(TEST) == open;
    var pattern := [Quoted(domain), COMMA] + ([Dec(|domain|)] + (run + body));
    assert LexemesOf(TestEnd(domain)) + body == pattern;
    assert LexemesOf(TEST + TestEnd(domain)) + body == open + pattern;
    ExpectRun(open, pattern);
    assert pattern[0] == Quoted(domain) && pattern[1] == COMMA && pattern[2..] == [Dec(|domain|)] + (run + body);
    NumberRun(|domain|, run, body);
  }

  /** The text of a route's fallback is read as the route's block, whatever follows it. */
  lemma RuleReads(r: Route, id: nat, more: seq<Lexeme>)
    requires Fitting(r, id)
    ensures ReadBlock(LexemesOf(RuleItems(r, id)) + more) == Some((FallbackRule(r, id), more))
  {
    hide ReadBlock, ReadStmts, TEST, TestEnd, GuardItems, ActionItems, GuardOf, ActionOf, Escaped;
    var test, body := TEST + TestEnd(r.domain), GuardItems(r, id) + ActionItems(r, "            ");
    assert RuleItems(r, id) == test + (body + BLOCK_END);
    var end := [RIGHT_BRACE] + more;
    LexemesConcat(test, body + BLOCK_END);
    LexemesConcat(body, BLOCK_END);
    assert LexemesOf(BLOCK_END) == [RIGHT_BRACE];
    assert LexemesOf(RuleItems(r, id)) + more == LexemesOf(test) + (LexemesOf(body) + end);
    GuardedReads(r, id, "            ", end);
    NoStmt(end);
    assert [GuardOf(r, id)] + ActionOf(r) + [] == [GuardOf(r, id)] + ActionOf(r);
    BlockOpens(r.domain, LexemesOf(body) + end);
    assert end[1..] == more;
  }

  lemma {:induction false} RulesRead(routes: seq<Route>, i: nat, more: seq<Lexeme>)
    requires i <= |routes| && forall j :: 0 <= j < |routes| ==> Fitting(routes[j], j)
    ensures ReadBlocks(LexemesOf(RulesItems(routes, i)) + more) ==
            (FallbackRules(routes, i) + ReadBlocks(more).0, ReadBlocks(more).1)
    decreases |routes| - i
  {
    hide ReadBlock, RuleItems, FallbackRule;
    if i == |routes| {
      assert LexemesOf(RulesItems(routes, i)) + more == more;
      assert [] + ReadBlocks(more).0 == ReadBlocks(more).0;
    } else {
      var first, rest := RuleItems(routes[i], i), RulesItems(routes, i + 1);
      LexemesConcat(first, rest);
      assert LexemesOf(RulesItems(routes, i)) + more == LexemesOf(first) + (LexemesOf(rest) + more);
      RuleReads(routes[i], i, LexemesOf(rest) + more);
      RulesRead(routes, i + 1, more);
      var block, blocks, last := FallbackRule(routes[i], i), FallbackRules(routes, i + 1), ReadBlocks(more).0;
      assert [block] + (blocks + last) == [block] + blocks + last;
    }
  }

  // Texts.

  /** Case text: reading what is printed for a route, in front of any text, gives the route's case. */
  lemma CaseTextReads(r: Route, id: nat, rest: seq<byte>)
    requires Fitting(r, id)
    ensures ReadStmts(Lexemes(Emit(CaseItems(r, id)) + rest)) ==
            (RouteCase(r, id) + ReadStmts(Lexemes(rest)).0, ReadStmts(Lexemes(rest)).1)
  {
    hide CaseItems, Emit, Lexemes, ReadStmts, RouteCase, Fine;
    CaseFine(r, id);
    LexItems(CaseItems(r, id), rest);
    CaseReads(r, id, Lexemes(rest));
  }

  lemma RuleTextReads(r: Route, id: nat, rest: seq<byte>)
    requires Fitting(r, id)
    ensures ReadBlock(Lexemes(Emit(RuleItems(r, id)) + rest)) == Some((FallbackRule(r, id), Lexemes(rest)))
  {
    hide RuleItems, Emit, Lexemes, ReadBlock, FallbackRule, Fine;
    RuleFine(r, id);
    LexItems(RuleItems(r, id), rest);
    RuleReads(r, id, Lexemes(rest));
  }

  /** The whole text pasted into the switch is read as the generated switch body. */
  lemma CasesTextReads(routes: seq<Route>, blacklisted: nat, rest: seq<byte>)
    requires forall j :: 0 <= j < |routes| ==> Fitting(routes[j], j)
    ensures ReadStmts(Lexemes(CasesText(routes, blacklisted) + rest)) ==
            (RouteCases(routes, 0) + ReadStmts(Lexemes(rest)).0, ReadStmts(Lexemes(rest)).1)
  {
    hide CasesItems, Emit, Lexemes, ReadStmts, RouteCases, Fine, HeadText, Fitting;
    var items := CasesItems(routes, 0);
    assert CasesText(routes, blacklisted) + rest == HeadText(|routes|, blacklisted) + (Emit(items) + rest);
    LexHead(|routes|, blacklisted, Emit(items) + rest);
    CasesFine(routes, 0);
    LexItems(items, rest);
    CasesRead(routes, 0, Lexemes(rest));
  }

  lemma RulesTextReads(routes: seq<Route>, rest: seq<byte>)
    requires forall j :: 0 <= j < |routes| ==> Fitting(routes[j], j)
    ensures ReadBlocks(Lexemes(RulesText(routes) + rest)) ==
            (FallbackRules(routes, 0) + ReadBlocks(Lexemes(rest)).0, ReadBlocks(Lexemes(rest)).1)
  {
    hide RulesItems, Emit, Lexemes, ReadBlocks, FallbackRules, Fine, Fitting;
    RulesFine(routes, 0);
    LexItems(RulesItems(routes, 0), rest);
    RulesRead(routes, 0, Lexemes(rest));
  }
}
