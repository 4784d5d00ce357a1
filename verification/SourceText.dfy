/** The C text of the generated program, and which tokens can be in it. */
module SourceText {
  import opened Bytes
  import opened Formats
  import opened CText
  import opened TextBuffer
  import opened Substitution
  import opened Tokens
  import opened Routes
  import opened CReader

  /** A lexeme of the printed program with the white space around it. */
  datatype Item = Item(before: string, lexeme: Lexeme, after: string)

  function Spelling(l: Lexeme): seq<byte> {
    match l
    case Word(w) => w
    case Str(raw) => [QUOTE] + raw + [QUOTE]
    case Punct(c) => [c]
  }

  function ItemText(item: Item): seq<byte> {
    Ascii(item.before) + Spelling(item.lexeme) + Ascii(item.after)
  }

  function Emit(items: seq<Item>): seq<byte> {
    if items == [] then [] else ItemText(items[0]) + Emit(items[1..])
  }

  /** A word of fixed code, a punctuator, a number, a quoted string. */
  function Key(s: string): Item {
    Item("", Word(Ascii(s)), "")
  }

  function Mark(c: byte, after: string): Item {
    Item("", Punct(c), after)
  }

  function Dec(n: nat): Lexeme {
    Word(Decimal(n))
  }

  function Quoted(s: seq<byte>): Lexeme {
    Str(Escaped(s))
  }

  function Bit(b: bool): nat {
    if b then 1 else 0
  }

  /** Every argument of a filter call is on a line of its own. */
  const NEXT_LINE := "\n                                     "

  function ArgItems(args: seq<Lexeme>): seq<Item>
    requires args != []
  {
    if |args| == 1 then [Item("", args[0], ""), Mark(41, "")]
    else [Item("", args[0], ""), Mark(44, NEXT_LINE)] + ArgItems(args[1..])
  }

  function LabelWord(hash: bv64): seq<byte> {
    Ascii("0x") + Padded(Hex(hash as nat), 16) + Ascii("ULL")
  }

  function MaskWord(mask: bv32): seq<byte> {
    Ascii("0x") + Hex(mask as nat) + Ascii("u")
  }

  /** What the format strings are given, in the order in which they print it. */
  function Arguments(r: Route, id: nat): seq<Lexeme> {
    [Word(Ascii("qmeta")), Quoted(r.prefix), Dec(|r.prefix|), Quoted(r.suffix), Dec(|r.suffix|),
     Dec(r.minLabels), Dec(r.maxLabels), Dec(r.minLength), Dec(r.maxLength), Word(Ascii("route_hash")), Dec(id),
     Word(MaskWord(r.typeMask)), Dec(r.powDifficulty), Dec(r.powWindow), Dec(Bit(r.bloomEnabled)), Dec(r.bloomSize),
     Dec(r.bloomHashes), Dec(r.bloomWindow), Dec(r.qps)]
  }

  const CALL: seq<Item> :=
    [Item("        ", Word(Ascii("if")), " "), Mark(40, ""), Mark(33, ""), Key("zereh_apply_app_filters"), Mark(40, "")]

  const REFUSED: seq<Item> :=
    [Mark(41, " "), Mark(123, "\n"), Item("            ", Word(Ascii("return")), " "), Key("XDP_DROP"), Mark(59, "\n"),
     Item("        ", Punct(125), "\n")]

  /** The filter call of a route and what happens when it refuses. */
  function GuardItems(r: Route, id: nat): seq<Item> {
    CALL + ArgItems(Arguments(r, id)) + REFUSED
  }

  function RedirectItems(queue: nat, indent: string): seq<Item> {
    [Item(indent, Word(Ascii("return")), " "), Key("bpf_redirect_map"), Mark(40, ""), Mark(38, ""), Key("xsk_map"),
     Mark(44, " ")] +
    [Item("", Dec(queue), ""), Mark(44, " "), Key("0"), Mark(41, ""), Mark(59, "\n")]
  }

  function RewriteItems(port: nat, indent: string): seq<Item> {
    [Item(indent, Word(Ascii("return")), " "), Key("zereh_route_kernel_space"), Mark(40, ""), Key("iph"), Mark(44, " "),
     Key("udp"), Mark(44, " "), Key("bpf_htons"), Mark(40, "")] +
    [Item("", Dec(port), ""), Mark(41, ""), Mark(44, " "), Key("0"), Mark(41, ""), Mark(59, "\n")]
  }

  function TailCallItems(index: nat, indent: string): seq<Item> {
    [Item(indent, Word(Ascii("bpf_tail_call")), ""), Mark(40, ""), Key("ctx"), Mark(44, " "), Mark(38, ""),
     Key("prog_array"), Mark(44, " ")] +
    [Item("", Dec(index), ""), Mark(41, ""), Mark(59, "\n")]
  }

  function DropItems(indent: string): seq<Item> {
    [Item(indent, Word(Ascii("return")), " "), Key("XDP_DROP"), Mark(59, "\n")]
  }

  function ActionItems(r: Route, indent: string): seq<Item> {
    match r.target
    case UserSpace => RedirectItems(r.xskQueue, indent)
    case KernelSpace => RewriteItems(r.kernelPort, indent)
    case XdpProg => TailCallItems(r.progIndex, indent) + DropItems(indent)
  }

  function LabelItems(hash: bv64): seq<Item> {
    [Item("    ", Word(Ascii("case")), " "), Item("", Word(LabelWord(hash)), ""), Mark(58, "\n")]
  }

  function CaseItems(r: Route, id: nat): seq<Item> {
    LabelItems(r.hash) + GuardItems(r, id) + ActionItems(r, "        ")
  }

  const TEST: seq<Item> :=
    [Item("    ", Word(Ascii("if")), " "), Mark(40, ""), Key("zereh_match_suffix"), Mark(40, ""),
     Key("qmeta"), Mark(45, ""), Mark(62, ""), Key("qname"), Mark(44, " "),
     Key("qmeta"), Mark(45, ""), Mark(62, ""), Key("qname_len"), Mark(44, " ")]

  function TestEnd(domain: seq<byte>): seq<Item> {
    [Item("", Quoted(domain), ""), Mark(44, " "), Item("", Dec(|domain|), ""), Mark(41, ""), Mark(41, " "),
     Mark(123, "\n")]
  }

  const BLOCK_END: seq<Item> := [Item("    ", Punct(125), "\n")]

  function RuleItems(r: Route, id: nat): seq<Item> {
    TEST + TestEnd(r.domain) + GuardItems(r, id) + ActionItems(r, "            ") + BLOCK_END
  }

  /** The comment in front of the case texts. */
  function HeadBody(routes: nat, blacklisted: nat): seq<byte> {
    Ascii(" Generated from YAML: ") + Decimal(routes) + Ascii(" routes, ") + Decimal(blacklisted) +
    Ascii(" blacklist CIDRs ")
  }

  function HeadText(routes: nat, blacklisted: nat): seq<byte> {
    Ascii("    /*") + HeadBody(routes, blacklisted) + Ascii("*/\n")
  }

  /** The case texts of the routes from i on. */
  function CasesItems(routes: seq<Route>, i: nat): seq<Item>
    requires i <= |routes|
    decreases |routes| - i
  {
    if i == |routes| then [] else CaseItems(routes[i], i) + CasesItems(routes, i + 1)
  }

  function RulesItems(routes: seq<Route>, i: nat): seq<Item>
    requires i <= |routes|
    decreases |routes| - i
  {
    if i == |routes| then [] else RuleItems(routes[i], i) + RulesItems(routes, i + 1)
  }

  /** The text pasted for the switch, and the text pasted for the fallbacks. */
  function CasesText(routes: seq<Route>, blacklisted: nat): seq<byte> {
    HeadText(|routes|, blacklisted) + Emit(CasesItems(routes, 0))
  }

  function RulesText(routes: seq<Route>): seq<byte> {
    Emit(RulesItems(routes, 0))
  }

  lemma EmitNothing()
    ensures Emit([]) == []
  {
  }

  lemma EmitStep(items: seq<Item>)
    requires items != []
    ensures Emit(items) == ItemText(items[0]) + Emit(items[1..])
  {
    hide ItemText;
  }

  lemma {:induction false} EmitConcat(a: seq<Item>, b: seq<Item>)
    ensures Emit(a + b) == Emit(a) + Emit(b)
  {
    hide Emit, ItemText;
    if a == [] {
      assert a + b == b;
      EmitNothing();
    } else {
      EmitConcat(a[1..], b);
      assert (a + b)[1..] == a[1..] + b;
      EmitStep(a);
      EmitStep(a + b);
    }
  }

  /** The loop over the routes, printing into the growable buffer. */
  method PrintCases(routes: seq<Route>, blacklisted: nat) returns (out: seq<byte>)
    ensures out == CasesText(routes, blacklisted)
  {
    hide Emit, CaseItems, HeadText;
    var sb := new Buffer(2048);
    sb.Append(HeadText(|routes|, blacklisted));
    for i := 0 to |routes|
      invariant sb.Valid() && fresh(sb) && fresh(sb.data)
      invariant sb.Contents() + Emit(CasesItems(routes, i)) == CasesText(routes, blacklisted)
    {
      ghost var before := sb.Contents();
      EmitConcat(CaseItems(routes[i], i), CasesItems(routes, i + 1));
      sb.Append(Emit(CaseItems(routes[i], i)));
      assert sb.Contents() + Emit(CasesItems(routes, i + 1)) == before + Emit(CasesItems(routes, i));
    }
    EmitNothing();
    assert sb.Contents() + [] == sb.Contents();
    out := sb.Contents();
  }

  method PrintRules(routes: seq<Route>) returns (out: seq<byte>)
    ensures out == RulesText(routes)
  {
    hide Emit, RuleItems;
    var sb := new Buffer(1024);
    for i := 0 to |routes|
      invariant sb.Valid() && fresh(sb) && fresh(sb.data)
      invariant sb.Contents() + Emit(RulesItems(routes, i)) == RulesText(routes)
    {
      ghost var before := sb.Contents();
      EmitConcat(RuleItems(routes[i], i), RulesItems(routes, i + 1));
      sb.Append(Emit(RuleItems(routes[i], i)));
      assert sb.Contents() + Emit(RulesItems(routes, i + 1)) == before + Emit(RulesItems(routes, i));
    }
    EmitNothing();
    assert sb.Contents() + [] == sb.Contents();
    out := sb.Contents();
  }

  // What every printed list of items is like.

  predicate BlankText(s: string) {
    forall i :: 0 <= i < |s| ==> s[i] == ' ' || s[i] == '\n'
  }

  /** Words hold no capital Z, which every token contains; strings are spelled by the escaper. */
  ghost predicate LexemeOk(l: Lexeme) {
    match l
    case Word(w) => w != [] && forall i :: 0 <= i < |w| ==> WordByte(w[i]) && w[i] != CAPITAL_Z
    case Str(raw) => exists s :: raw == Escaped(s)
    case Punct(c) => !WordByte(c) && !Blank(c) && c != QUOTE && c != 47
  }

  ghost predicate ItemOk(item: Item) {
    BlankText(item.before) && BlankText(item.after) && LexemeOk(item.lexeme)
  }

  /** A word is followed by white space or by something that is not a word. */
  predicate WordEnds(items: seq<Item>, i: nat)
    requires i < |items|
  {
    items[i].lexeme.Word? && items[i].after == "" ==>
      i + 1 < |items| && (items[i + 1].before != "" || !items[i + 1].lexeme.Word?)
  }

  ghost predicate Fine(items: seq<Item>) {
    forall i :: 0 <= i < |items| ==> ItemOk(items[i]) && WordEnds(items, i)
  }

  lemma FineConcat(a: seq<Item>, b: seq<Item>)
    requires Fine(a) && Fine(b)
    ensures Fine(a + b)
  {
    hide ItemOk;
    var c := a + b;
    forall i | 0 <= i < |c|
      ensures ItemOk(c[i]) && WordEnds(c, i)
    {
      if i < |a| {
        assert c[i] == a[i] && WordEnds(a, i);
        assert i + 1 < |a| ==> c[i + 1] == a[i + 1];
      } else {
        assert c[i] == b[i - |a|] && WordEnds(b, i - |a|);
        assert i + 1 < |c| ==> c[i + 1] == b[i - |a| + 1];
      }
    }
  }

  lemma FineNothing()
    ensures Fine([])
  {
  }

  /** A word of fixed code. */
  predicate Keyword(s: string) {
    && s != ""
    && forall i :: 0 <= i < |s| ==> 'a' <= s[i] <= 'z' || 'A' <= s[i] < 'Z' || '0' <= s[i] <= '9' || s[i] == '_'
  }

  lemma KeyOk(s: string)
    requires Keyword(s)
    ensures LexemeOk(Word(Ascii(s)))
  {
  }

  lemma WordOk(w: seq<byte>)
    requires w != [] && forall i :: 0 <= i < |w| ==> WordByte(w[i]) && w[i] != CAPITAL_Z
    ensures LexemeOk(Word(w))
  {
  }

  lemma DecOk(n: nat)
    ensures LexemeOk(Dec(n)) && Dec(n).Word?
  {
    DecimalDigits(n);
    DecimalNonEmpty(n);
  }

  lemma QuotedOk(s: seq<byte>)
    ensures LexemeOk(Quoted(s)) && Quoted(s).Str?
  {
  }

  lemma LabelWordOk(hash: bv64)
    ensures LexemeOk(Word(LabelWord(hash)))
  {
    HexDigits(hash as nat, 16);
    assert Ascii("0x") == [48, 120] && Ascii("ULL") == [85, 76, 76];
  }

  lemma MaskWordOk(mask: bv32)
    ensures LexemeOk(Word(MaskWord(mask)))
  {
    HexDigits(mask as nat, 0);
    assert Ascii("0x") == [48, 120] && Ascii("u") == [117];
  }

  lemma ItemsOk(before: string, lexeme: Lexeme, after: string)
    requires BlankText(before) && BlankText(after) && LexemeOk(lexeme)
    ensures ItemOk(Item(before, lexeme, after))
  {
  }

  lemma MarkOk(c: byte, after: string)
    requires BlankText(after) && !WordByte(c) && !Blank(c) && c != QUOTE && c != 47
    ensures ItemOk(Mark(c, after))
  {
  }

  lemma BlankLine()
    ensures BlankText(NEXT_LINE)
  {
  }

  lemma {:induction false} ArgsFine(args: seq<Lexeme>)
    requires args != [] && forall i :: 0 <= i < |args| ==> LexemeOk(args[i])
    ensures Fine(ArgItems(args))
  {
    hide LexemeOk, ItemOk;
    ItemsOk("", args[0], "");
    if |args| == 1 {
      MarkOk(41, "");
      FinePair(Item("", args[0], ""), Mark(41, ""));
    } else {
      BlankLine();
      MarkOk(44, NEXT_LINE);
      FinePair(Item("", args[0], ""), Mark(44, NEXT_LINE));
      ArgsFine(args[1..]);
      FineConcat([Item("", args[0], ""), Mark(44, NEXT_LINE)], ArgItems(args[1..]));
    }
  }

  lemma FinePair(a: Item, b: Item)
    requires ItemOk(a) && ItemOk(b) && !b.lexeme.Word?
    ensures Fine([a, b])
  {
    hide ItemOk;
  }

  lemma KeyItemOk(s: string)
    requires Keyword(s)
    ensures ItemOk(Key(s))
  {
    KeyOk(s);
  }

  lemma CallFine()
    ensures Fine(CALL)
  {
    hide LexemeOk, ItemOk, BlankText;
    IfFine("        ");
    KeyItemOk("zereh_apply_app_filters");
    MarkOk(40, "");
    MarkOk(33, "");
  }

  lemma IfFine(indent: string)
    requires BlankText(indent)
    ensures ItemOk(Item(indent, Word(Ascii("if")), " "))
  {
    KeyOk("if");
  }

  lemma ReturnFine(indent: string)
    requires BlankText(indent)
    ensures ItemOk(Item(indent, Word(Ascii("return")), " "))
  {
    KeyOk("return");
  }

  lemma RefusedFine()
    ensures Fine(REFUSED)
  {
    hide LexemeOk, ItemOk;
    ReturnFine("            ");
    KeyItemOk("XDP_DROP");
    MarkOk(41, " ");
    MarkOk(123, "\n");
    MarkOk(59, "\n");
    ItemsOk("        ", Punct(125), "\n") by { BraceOk(); }
  }

  lemma BraceOk()
    ensures LexemeOk(Punct(125))
  {
  }

  lemma ArgumentsOk(r: Route, id: nat)
    ensures forall i :: 0 <= i < 19 ==> LexemeOk(Arguments(r, id)[i]) && !Arguments(r, id)[i].Punct?
  {
    hide LexemeOk, Dec, Quoted;
    KeyOk("qmeta");
    KeyOk("route_hash");
    QuotedOk(r.prefix);
    QuotedOk(r.suffix);
    MaskWordOk(r.typeMask);
    forall n: nat
      ensures LexemeOk(Dec(n)) && Dec(n).Word?
    {
      DecOk(n);
    }
  }

  lemma GuardFine(r: Route, id: nat)
    ensures Fine(GuardItems(r, id))
  {
    hide Fine, LexemeOk, CALL, REFUSED, ArgItems, Arguments;
    assert |Arguments(r, id)| == 19 by { ArgumentCount(r, id); }
    CallFine();
    ArgumentsOk(r, id);
    ArgsFine(Arguments(r, id));
    RefusedFine();
    FineConcat(CALL, ArgItems(Arguments(r, id)));
    FineConcat(CALL + ArgItems(Arguments(r, id)), REFUSED);
  }

  lemma ArgumentCount(r: Route, id: nat)
    ensures |Arguments(r, id)| == 19
  {
  }

  lemma DecItemOk(n: nat)
    ensures ItemOk(Item("", Dec(n), ""))
  {
    DecOk(n);
  }

  lemma RedirectFine(queue: nat, indent: string)
    requires BlankText(indent)
    ensures Fine(RedirectItems(queue, indent))
  {
    hide LexemeOk, ItemOk, BlankText, Dec;
    assert BlankText(" ") && BlankText("\n") && BlankText("") by { Blanks(); }
    ReturnFine(indent);
    KeyItemOk("bpf_redirect_map");
    KeyItemOk("xsk_map");
    KeyItemOk("0");
    DecItemOk(queue);
    MarkOk(40, "");
    MarkOk(38, "");
    MarkOk(44, " ");
    MarkOk(41, "");
    MarkOk(59, "\n");
  }

  lemma Blanks()
    ensures BlankText(" ") && BlankText("\n") && BlankText("") && BlankText("    ")
    ensures BlankText("        ") && BlankText("            ")
  {
  }

  lemma RewriteFine(port: nat, indent: string)
    requires BlankText(indent)
    ensures Fine(RewriteItems(port, indent))
  {
    hide LexemeOk, ItemOk, BlankText, Dec;
    Blanks();
    ReturnFine(indent);
    KeyItemOk("zereh_route_kernel_space");
    KeyItemOk("iph");
    KeyItemOk("udp");
    KeyItemOk("bpf_htons");
    KeyItemOk("0");
    DecItemOk(port);
    MarkOk(40, "");
    MarkOk(44, " ");
    MarkOk(41, "");
    MarkOk(59, "\n");
  }

  lemma TailCallFine(index: nat, indent: string)
    requires BlankText(indent)
    ensures Fine(TailCallItems(index, indent))
  {
    hide LexemeOk, ItemOk, BlankText, Dec;
    Blanks();
    KeyOk("bpf_tail_call");
    ItemsOk(indent, Word(Ascii("bpf_tail_call")), "");
    KeyItemOk("ctx");
    KeyItemOk("prog_array");
    DecItemOk(index);
    MarkOk(40, "");
    MarkOk(44, " ");
    MarkOk(38, "");
    MarkOk(41, "");
    MarkOk(59, "\n");
  }

  lemma DropFine(indent: string)
    requires BlankText(indent)
    ensures Fine(DropItems(indent))
  {
    hide LexemeOk, ItemOk, BlankText;
    Blanks();
    ReturnFine(indent);
    KeyItemOk("XDP_DROP");
    MarkOk(59, "\n");
  }

  lemma ActionFine(r: Route, indent: string)
    requires BlankText(indent)
    ensures Fine(ActionItems(r, indent))
  {
    hide Fine, RedirectItems, RewriteItems, TailCallItems, DropItems;
    RedirectFine(r.xskQueue, indent);
    RewriteFine(r.kernelPort, indent);
    TailCallFine(r.progIndex, indent);
    DropFine(indent);
    FineConcat(TailCallItems(r.progIndex, indent), DropItems(indent));
  }

  lemma LabelFine(hash: bv64)
    ensures Fine(LabelItems(hash))
  {
    hide LexemeOk, ItemOk, BlankText, LabelWord;
    Blanks();
    KeyOk("case");
    ItemsOk("    ", Word(Ascii("case")), " ");
    LabelWordOk(hash);
    ItemsOk("", Word(LabelWord(hash)), "");
    MarkOk(58, "\n");
  }

  lemma CaseFine(r: Route, id: nat)
    ensures Fine(CaseItems(r, id))
  {
    hide Fine, LabelItems, GuardItems, ActionItems;
    Blanks();
    LabelFine(r.hash);
    GuardFine(r, id);
    ActionFine(r, "        ");
    FineConcat(LabelItems(r.hash), GuardItems(r, id));
    FineConcat(LabelItems(r.hash) + GuardItems(r, id), ActionItems(r, "        "));
  }

  lemma TestFine()
    ensures Fine(TEST)
  {
    hide LexemeOk, ItemOk, BlankText;
    Blanks();
    IfFine("    ");
    KeyItemOk("zereh_match_suffix");
    KeyItemOk("qmeta");
    KeyItemOk("qname");
    KeyItemOk("qname_len");
    MarkOk(40, "");
    MarkOk(45, "");
    MarkOk(62, "");
    MarkOk(44, " ");
  }

  lemma TestEndFine(domain: seq<byte>)
    ensures Fine(TestEnd(domain))
  {
    hide LexemeOk, ItemOk, BlankText, Dec, Quoted;
    Blanks();
    QuotedOk(domain);
    ItemsOk("", Quoted(domain), "");
    DecOk(|domain|);
    ItemsOk("", Dec(|domain|), "");
    MarkOk(44, " ");
    MarkOk(41, "");
    MarkOk(41, " ");
    MarkOk(123, "\n");
  }

  lemma BlockEndFine()
    ensures Fine(BLOCK_END)
  {
    hide LexemeOk, ItemOk, BlankText;
    Blanks();
    BraceOk();
    ItemsOk("    ", Punct(125), "\n");
  }

  lemma RuleFine(r: Route, id: nat)
    ensures Fine(RuleItems(r, id))
  {
    hide Fine, TEST, TestEnd, GuardItems, ActionItems, BLOCK_END;
    Blanks();
    TestFine();
    TestEndFine(r.domain);
    GuardFine(r, id);
    ActionFine(r, "            ");
    BlockEndFine();
    var a := TEST + TestEnd(r.domain);
    FineConcat(TEST, TestEnd(r.domain));
    var b := a + GuardItems(r, id);
    FineConcat(a, GuardItems(r, id));
    var c := b + ActionItems(r, "            ");
    FineConcat(b, ActionItems(r, "            "));
    FineConcat(c, BLOCK_END);
  }

  lemma {:induction false} CasesFine(routes: seq<Route>, i: nat)
    requires i <= |routes|
    ensures Fine(CasesItems(routes, i))
    decreases |routes| - i
  {
    hide Fine, CaseItems;
    if i == |routes| {
      FineNothing();
    } else {
      CaseFine(routes[i], i);
      CasesFine(routes, i + 1);
      FineConcat(CaseItems(routes[i], i), CasesItems(routes, i + 1));
    }
  }

  lemma {:induction false} RulesFine(routes: seq<Route>, i: nat)
    requires i <= |routes|
    ensures Fine(RulesItems(routes, i))
    decreases |routes| - i
  {
    hide Fine, RuleItems;
    if i == |routes| {
      FineNothing();
    } else {
      RuleFine(routes[i], i);
      RulesFine(routes, i + 1);
      FineConcat(RuleItems(routes[i], i), RulesItems(routes, i + 1));
    }
  }

  // The strings that are printed.

  /** No string among the items contains the token. */
  predicate Clean(items: seq<Item>, token: seq<byte>) {
    forall i :: 0 <= i < |items| && items[i].lexeme.Str? ==> Free(items[i].lexeme.raw, token)
  }

  predicate NoStrings(items: seq<Item>) {
    forall i :: 0 <= i < |items| ==> !items[i].lexeme.Str?
  }

  lemma CleanConcat(a: seq<Item>, b: seq<Item>, token: seq<byte>)
    ensures Clean(a + b, token) <==> Clean(a, token) && Clean(b, token)
  {
    hide Free;
    var c := a + b;
    assert forall i :: 0 <= i < |a| ==> c[i] == a[i];
    assert forall i :: 0 <= i < |b| ==> c[|a| + i] == b[i];
  }

  lemma CleanCode(items: seq<Item>, token: seq<byte>)
    requires NoStrings(items)
    ensures Clean(items, token)
  {
  }

  lemma {:induction false} ArgsClean(args: seq<Lexeme>, token: seq<byte>)
    requires args != []
    ensures Clean(ArgItems(args), token) <==> forall i :: 0 <= i < |args| && args[i].Str? ==> Free(args[i].raw, token)
  {
    hide Free;
    var first := Item("", args[0], "");
    if |args| == 1 {
      assert ArgItems(args)[0] == first;
    } else {
      var pair := [first, Mark(44, NEXT_LINE)];
      ArgsClean(args[1..], token);
      CleanConcat(pair, ArgItems(args[1..]), token);
      assert pair[0] == first;
      assert args == [args[0]] + args[1..];
    }
  }

  lemma GuardClean(r: Route, id: nat, token: seq<byte>)
    ensures Clean(GuardItems(r, id), token) <==> Free(Escaped(r.prefix), token) && Free(Escaped(r.suffix), token)
  {
    hide Free, Escaped, ArgItems, MaskWord, Decimal;
    var args := Arguments(r, id);
    ArgsClean(args, token);
    assert args[1] == Quoted(r.prefix) && args[3] == Quoted(r.suffix);
    CleanCode(CALL, token);
    CleanCode(REFUSED, token);
    CleanConcat(CALL, ArgItems(args), token);
    CleanConcat(CALL + ArgItems(args), REFUSED, token);
  }

  lemma ActionClean(r: Route, indent: string, token: seq<byte>)
    ensures Clean(ActionItems(r, indent), token)
  {
    hide Decimal;
    assert NoStrings(ActionItems(r, indent));
  }

  lemma CaseClean(r: Route, id: nat, token: seq<byte>)
    ensures Clean(CaseItems(r, id), token) <==> Free(Escaped(r.prefix), token) && Free(Escaped(r.suffix), token)
  {
    hide Free, Escaped, GuardItems, ActionItems, LabelWord, Clean;
    GuardClean(r, id, token);
    ActionClean(r, "        ", token);
    CleanCode(LabelItems(r.hash), token);
    CleanConcat(LabelItems(r.hash), GuardItems(r, id), token);
    CleanConcat(LabelItems(r.hash) + GuardItems(r, id), ActionItems(r, "        "), token);
  }

  lemma TestEndClean(domain: seq<byte>, token: seq<byte>)
    ensures Clean(TestEnd(domain), token) <==> Free(Escaped(domain), token)
  {
    hide Free, Escaped, Decimal;
    assert TestEnd(domain)[0].lexeme == Quoted(domain);
  }

  lemma RuleClean(r: Route, id: nat, token: seq<byte>)
    ensures Clean(RuleItems(r, id), token) <==>
            Free(Escaped(r.domain), token) && Free(Escaped(r.prefix), token) && Free(Escaped(r.suffix), token)
  {
    hide Free, Escaped, GuardItems, ActionItems, TestEnd, Clean;
    GuardClean(r, id, token);
    ActionClean(r, "            ", token);
    TestEndClean(r.domain, token);
    CleanCode(TEST, token);
    CleanCode(BLOCK_END, token);
    var a := TEST + TestEnd(r.domain);
    CleanConcat(TEST, TestEnd(r.domain), token);
    var b := a + GuardItems(r, id);
    CleanConcat(a, GuardItems(r, id), token);
    var c := b + ActionItems(r, "            ");
    CleanConcat(b, ActionItems(r, "            "), token);
    CleanConcat(c, BLOCK_END, token);
  }

  // Tokens in printed text.

  /** Nothing a token consists of is ever escaped, so a token starts an escaped text exactly when it starts the text. */
  lemma {:induction false} EscapedPrefix(token: seq<byte>, s: seq<byte>)
    requires forall i :: 0 <= i < |token| ==> TokenByte(token[i])
    ensures token <= Escaped(s) <==> token <= s
    decreases |token|
  {
    if token != [] && s != [] {
      var e := EscapeByte(s[0]);
      assert Escaped(s) == e + Escaped(s[1..]);
      assert Escaped(s)[0] == e[0];
      if e == [s[0]] {
        EscapedPrefix(token[1..], s[1..]);
        assert Escaped(s)[1..] == Escaped(s[1..]);
        PrefixStep(token, s);
        PrefixStep(token, Escaped(s));
      }
    }
  }

  lemma PrefixStep(t: seq<byte>, s: seq<byte>)
    requires t != [] && s != []
    ensures t <= s <==> t[0] == s[0] && t[1..] <= s[1..]
  {
    if t[0] == s[0] && t[1..] <= s[1..] {
      assert t == [t[0]] + t[1..] && s == [s[0]] + s[1..];
      assert s[..|t|] == [s[0]] + s[1..][..|t| - 1];
    }
  }

  lemma OccursFirst(text: seq<byte>, token: seq<byte>)
    ensures Occurs(text, token, 0) <==> token <= text
  {
  }

  lemma {:induction false} FreeEscaped(s: seq<byte>, token: seq<byte>)
    requires TokenLike(token)
    ensures Free(Escaped(s), token) <==> Free(s, token)
  {
    hide Free, Occurs;
    if s == [] {
      NothingFree(token);
    } else {
      var e, rest := EscapeByte(s[0]), Escaped(s[1..]);
      FreeEscaped(s[1..], token);
      FreeTail(s, token);
      OccursFirst(s, token);
      if e == [s[0]] {
        EscapedPrefix(token, s);
        assert Escaped(s)[1..] == rest;
        FreeTail(Escaped(s), token);
        OccursFirst(Escaped(s), token);
      } else {
        EscapeOutsideTokens(s[0], token);
        FreeConcat(e, rest, token);
      }
    }
  }

  lemma EscapeOutsideTokens(c: byte, token: seq<byte>)
    requires TokenLike(token) && EscapeByte(c) != [c]
    ensures !TokenByte(c) && Free(EscapeByte(c), token)
    ensures forall s: seq<byte> :: SeamSafe(EscapeByte(c), s, token)
    ensures forall s: seq<byte> :: s != [] && s[0] == c ==> !(token <= s)
  {
    var e := EscapeByte(c);
    assert CAPITAL_Z !in e && !TokenByte(e[1]);
    NoZFree(e, token);
  }

  lemma PlainText(item: Item)
    requires ItemOk(item) && !item.lexeme.Str?
    ensures CAPITAL_Z !in ItemText(item)
  {
    BlankPlain(item.before);
    BlankPlain(item.after);
  }

  lemma BlankPlain(s: string)
    requires BlankText(s)
    ensures CAPITAL_Z !in Ascii(s)
  {
  }

  /** Quotes seal a string off on both sides. */
  lemma QuotedText(raw: seq<byte>, token: seq<byte>, before: seq<byte>, after: seq<byte>)
    requires TokenLike(token) && CAPITAL_Z !in before
    ensures Free(before + Spelling(Str(raw)) + after, token) <==> Free(raw, token) && Free(after, token)
  {
    hide Free;
    assert QUOTE !in token && [QUOTE][0] == QUOTE;
    var q := [QUOTE];
    NoZFree(q, token);
    NoZFree(before, token);
    FreeConcat(q, raw, token);
    FreeConcat(q + raw, q, token);
    FreeConcat(before, Spelling(Str(raw)), token);
    FreeConcat(before + Spelling(Str(raw)), after, token);
  }

  /** A token occurs in printed text exactly when it occurs in one of the strings printed there. */
  lemma {:induction false} EmitFree(before: seq<byte>, items: seq<Item>, token: seq<byte>)
    requires TokenLike(token) && Fine(items) && CAPITAL_Z !in before
    ensures Free(before + Emit(items), token) <==> Clean(items, token)
    decreases 2 * |items|
  {
    hide Free, ItemOk, TokenLike, Emit, Spelling;
    if items == [] {
      EmitNothing();
      assert before + Emit(items) == before;
      NoZFree(before, token);
    } else {
      var item, rest := items[0], items[1..];
      FineTail(items);
      EmitStep(items);
      CleanTail(items, token);
      if item.lexeme.Str? {
        StringFree(before, item, rest, token);
      } else {
        PlainText(item);
        EmitFree(before + ItemText(item), rest, token);
        assert before + Emit(items) == before + ItemText(item) + Emit(rest);
      }
    }
  }

  lemma StringFree(before: seq<byte>, item: Item, rest: seq<Item>, token: seq<byte>)
    requires TokenLike(token) && ItemOk(item) && item.lexeme.Str? && Fine(rest) && CAPITAL_Z !in before
    ensures Free(before + (ItemText(item) + Emit(rest)), token) <==>
            Free(item.lexeme.raw, token) && Clean(rest, token)
    decreases 2 * |rest| + 1
  {
    hide Free, TokenLike, Emit, Clean, Fine, LexemeOk;
    BlankPlain(item.before);
    BlankPlain(item.after);
    EmitFree(Ascii(item.after), rest, token);
    var front := before + Ascii(item.before);
    var after := Ascii(item.after) + Emit(rest);
    QuotedText(item.lexeme.raw, token, front, after);
    assert before + (ItemText(item) + Emit(rest)) == front + Spelling(item.lexeme) + after;
  }

  lemma FineTail(items: seq<Item>)
    requires Fine(items) && items != []
    ensures ItemOk(items[0]) && Fine(items[1..])
  {
    hide ItemOk;
    forall i | 0 <= i < |items| - 1
      ensures ItemOk(items[1..][i]) && WordEnds(items[1..], i)
    {
      assert items[1..][i] == items[i + 1] && WordEnds(items, i + 1);
    }
  }

  lemma CleanTail(items: seq<Item>, token: seq<byte>)
    requires items != []
    ensures Clean(items, token) <==>
            (items[0].lexeme.Str? ==> Free(items[0].lexeme.raw, token)) && Clean(items[1..], token)
  {
    hide Free;
    CleanConcat([items[0]], items[1..], token);
    assert items == [items[0]] + items[1..];
    assert [items[0]][0] == items[0];
  }

  /** No filter string of a route from i on contains the token. */
  predicate FiltersFree(routes: seq<Route>, token: seq<byte>, i: nat)
    requires i <= |routes|
  {
    forall j :: i <= j < |routes| ==> Free(routes[j].prefix, token) && Free(routes[j].suffix, token)
  }

  predicate DomainsFree(routes: seq<Route>, token: seq<byte>, i: nat)
    requires i <= |routes|
  {
    forall j :: i <= j < |routes| ==> Free(routes[j].domain, token)
  }

  lemma {:induction false} CasesClean(routes: seq<Route>, token: seq<byte>, i: nat)
    requires TokenLike(token) && i <= |routes|
    ensures Clean(CasesItems(routes, i), token) <==> FiltersFree(routes, token, i)
    decreases |routes| - i
  {
    hide Clean, CaseItems, Free, TokenLike, Escaped;
    if i == |routes| {
      CleanCode([], token);
    } else {
      CasesClean(routes, token, i + 1);
      CaseClean(routes[i], i, token);
      FreeEscaped(routes[i].prefix, token);
      FreeEscaped(routes[i].suffix, token);
      CleanConcat(CaseItems(routes[i], i), CasesItems(routes, i + 1), token);
    }
  }

  lemma {:induction false} RulesClean(routes: seq<Route>, token: seq<byte>, i: nat)
    requires TokenLike(token) && i <= |routes|
    ensures Clean(RulesItems(routes, i), token) <==> DomainsFree(routes, token, i) && FiltersFree(routes, token, i)
    decreases |routes| - i
  {
    hide Clean, RuleItems, Free, TokenLike, Escaped;
    if i == |routes| {
      CleanCode([], token);
    } else {
      RulesClean(routes, token, i + 1);
      RuleClean(routes[i], i, token);
      FreeEscaped(routes[i].domain, token);
      FreeEscaped(routes[i].prefix, token);
      FreeEscaped(routes[i].suffix, token);
      CleanConcat(RuleItems(routes[i], i), RulesItems(routes, i + 1), token);
    }
  }

  lemma HeadPlain(routes: nat, blacklisted: nat)
    ensures CAPITAL_Z !in HeadText(routes, blacklisted)
  {
    hide Decimal;
    DecimalDigits(routes);
    DecimalDigits(blacklisted);
    HeadCodePlain();
  }

  lemma HeadCodePlain()
    ensures CAPITAL_Z !in Ascii("    /*") && CAPITAL_Z !in Ascii("*/\n")
    ensures CAPITAL_Z !in Ascii(" Generated from YAML: ") && CAPITAL_Z !in Ascii(" routes, ")
    ensures CAPITAL_Z !in Ascii(" blacklist CIDRs ")
  {
  }

  /** The case texts contain a token exactly when a configured prefix or suffix does. */
  lemma CasesFreeIff(routes: seq<Route>, blacklisted: nat, token: seq<byte>)
    requires TokenLike(token)
    ensures Free(CasesText(routes, blacklisted), token) <==> FiltersFree(routes, token, 0)
  {
    hide Clean, Free, TokenLike, CasesItems, Emit, FiltersFree, Fine, HeadText;
    CasesFine(routes, 0);
    CasesClean(routes, token, 0);
    HeadPlain(|routes|, blacklisted);
    EmitFree(HeadText(|routes|, blacklisted), CasesItems(routes, 0), token);
  }

  /** The fallback texts contain a token exactly when a configured domain, prefix or suffix does. */
  lemma RulesFreeIff(routes: seq<Route>, token: seq<byte>)
    requires TokenLike(token)
    ensures Free(RulesText(routes), token) <==> DomainsFree(routes, token, 0) && FiltersFree(routes, token, 0)
  {
    hide Clean, Free, TokenLike, RulesItems, Emit, FiltersFree, DomainsFree, Fine;
    RulesFine(routes, 0);
    RulesClean(routes, token, 0);
    EmitFree([], RulesItems(routes, 0), token);
    assert [] + Emit(RulesItems(routes, 0)) == Emit(RulesItems(routes, 0));
  }
}
