/** A reader for the C that the generator prints: lexemes first, then statements and fallback blocks. */
module CReader {
  import opened Bytes
  import opened Formats
  import opened CText
  import opened Filters
  import opened Codegen

  // Lexemes.

  /** A string keeps its spelling between the quotes. */
  datatype Lexeme = Word(w: seq<byte>) | Str(raw: seq<byte>) | Punct(c: byte)

  predicate WordByte(b: byte) {
    48 <= b <= 57 || 65 <= b <= 90 || 97 <= b <= 122 || b == 95
  }

  predicate Blank(b: byte) {
    b == 32 || b == 10 || b == 9 || b == 13
  }

  /** The length of the longest run of word bytes at the start. */
  function WordLength(t: seq<byte>): (n: nat)
    ensures n <= |t|
    ensures t != [] && WordByte(t[0]) ==> n > 0
  {
    if t == [] || !WordByte(t[0]) then 0 else 1 + WordLength(t[1..])
  }

  /** What follows the end of a comment. */
  function AfterComment(t: seq<byte>): (rest: Option<seq<byte>>)
    ensures rest.Some? ==> |rest.value| < |t|
  {
    if |t| < 2 then None
    else if t[0] == 42 && t[1] == 47 then Some(t[2..])
    else AfterComment(t[1..])
  }

  /** Longest words, string literals, single punctuators; blanks and comments separate. */
  function Lexemes(t: seq<byte>): seq<Lexeme>
    decreases |t|
  {
    if t == [] then []
    else if Blank(t[0]) then Lexemes(t[1..])
    else if WordByte(t[0]) then [Word(t[..WordLength(t)])] + Lexemes(t[WordLength(t)..])
    else if t[0] == QUOTE && Lex(t[1..]).Some? then
      var rest := Lex(t[1..]).value.rest;
      [Str(t[1..|t| - |rest| - 1])] + Lexemes(rest)
    else if |t| > 1 && t[0] == 47 && t[1] == 42 && AfterComment(t[2..]).Some? then
      Lexemes(AfterComment(t[2..]).value)
    else [Punct(t[0])] + Lexemes(t[1..])
  }

  // Statements.

  function Id(s: string): Lexeme {
    Word(Ascii(s))
  }

  const OPEN := Punct(40)
  const CLOSE := Punct(41)
  const COMMA := Punct(44)
  const SEMICOLON := Punct(59)
  const COLON := Punct(58)
  const LEFT_BRACE := Punct(123)
  const RIGHT_BRACE := Punct(125)
  const NOT := Punct(33)
  const ADDRESS := Punct(38)
  const MINUS := Punct(45)
  const GREATER := Punct(62)

  /** What remains after a fixed run of lexemes. */
  function Expect(ts: seq<Lexeme>, run: seq<Lexeme>): (rest: Option<seq<Lexeme>>)
    ensures rest.Some? ==> |rest.value| + |run| == |ts|
  {
    if run <= ts then Some(ts[|run|..]) else None
  }

  function NumberOf(l: Lexeme): Option<nat> {
    if l.Word? then DecimalValue(l.w) else None
  }

  /** A hexadecimal constant with the given suffix. */
  function HexOf(l: Lexeme, suffix: seq<byte>): Option<nat> {
    if l.Word? && Ascii("0x") <= l.w && |l.w| > 2 + |suffix| && IsSuffix(suffix, l.w) then
      HexValue(l.w[2..|l.w| - |suffix|])
    else None
  }

  function LabelOf(l: Lexeme): Option<bv64> {
    match HexOf(l, Ascii("ULL"))
    case Some(n) => if n < 0x1_0000_0000_0000_0000 then Some(n as bv64) else None
    case None => None
  }

  function TypeMaskOf(l: Lexeme): Option<bv32> {
    match HexOf(l, Ascii("u"))
    case Some(n) => if n < 0x1_0000_0000 then Some(n as bv32) else None
    case None => None
  }

  /** Arguments of one lexeme each, separated by commas, up to the closing parenthesis. */
  function ReadArgs(ts: seq<Lexeme>): (r: Option<(seq<Lexeme>, seq<Lexeme>)>)
    ensures r.Some? ==> |r.value.1| < |ts|
  {
    if |ts| < 2 || ts[0].Punct? then None
    else if ts[1] == CLOSE then Some(([ts[0]], ts[2..]))
    else if ts[1] != COMMA then None
    else
      match ReadArgs(ts[2..])
      case Some((args, rest)) => Some(([ts[0]] + args, rest))
      case None => None
  }

  /** The arguments of a call of the filter function, by the position and the type of its parameters. */
  function CallOf(args: seq<Lexeme>): Option<Stmt> {
    if |args| != 19 || args[0] != Id("qmeta") || !args[1].Str? || !args[3].Str? || args[9] != Id("route_hash") then None
    else
      match (NumberOf(args[2]), NumberOf(args[4]), ShapeArgs(args), ProofArgs(args))
      case (Some(prefixLen), Some(suffixLen), Some(shape), Some(proof)) =>
        Some(DropUnless(args[1].raw, prefixLen % 0x1_0000, args[3].raw, suffixLen % 0x1_0000,
          Args(shape.0 % 256, shape.1 % 256, shape.2 % 0x1_0000, shape.3 % 0x1_0000, shape.4 % 0x1_0000_0000, proof.0,
               proof.1 % 256, proof.2 % 0x1_0000, proof.3 % 256 != 0, proof.4 % 0x1_0000_0000, proof.5 % 256,
               proof.6 % 0x1_0000, proof.7 % 0x1_0000_0000)))
      case _ => None
  }

  /** min_labels, max_labels, qname_min_len, qname_max_len and, after the hash, route_id. */
  function ShapeArgs(args: seq<Lexeme>): Option<(nat, nat, nat, nat, nat)>
    requires |args| == 19
  {
    match (NumberOf(args[5]), NumberOf(args[6]), NumberOf(args[7]), NumberOf(args[8]), NumberOf(args[10]))
    case (Some(a), Some(b), Some(c), Some(d), Some(e)) => Some((a, b, c, d, e))
    case _ => None
  }

  /** rrtype_mask, the two proof-of-work settings, the four Bloom settings and rate_limit_qps. */
  function ProofArgs(args: seq<Lexeme>): Option<(bv32, nat, nat, nat, nat, nat, nat, nat)>
    requires |args| == 19
  {
    match (TypeMaskOf(args[11]), NumberOf(args[12]), NumberOf(args[13]), NumberOf(args[14]))
    case (Some(a), Some(b), Some(c), Some(d)) =>
      (match (NumberOf(args[15]), NumberOf(args[16]), NumberOf(args[17]), NumberOf(args[18]))
       case (Some(e), Some(f), Some(g), Some(h)) => Some((a, b, c, d, e, f, g, h))
       case _ => None)
    case _ => None
  }

  /** case 0x...ULL: */
  function ReadLabel(ts: seq<Lexeme>): (r: Option<(Stmt, seq<Lexeme>)>)
    ensures r.Some? ==> |r.value.1| < |ts|
  {
    if |ts| < 3 || ts[2] != COLON then None
    else
      match LabelOf(ts[1])
      case Some(hash) => Some((Case(hash), ts[3..]))
      case None => None
  }

  /** if (!zereh_apply_app_filters(...)) { return XDP_DROP; } */
  function ReadGuard(ts: seq<Lexeme>): (r: Option<(Stmt, seq<Lexeme>)>)
    ensures r.Some? ==> |r.value.1| < |ts|
  {
    match Expect(ts, [Id("if"), OPEN, NOT, Id("zereh_apply_app_filters"), OPEN])
    case None => None
    case Some(call) =>
      match ReadArgs(call)
      case None => None
      case Some((args, tail)) =>
        match (CallOf(args), Expect(tail, [CLOSE, LEFT_BRACE, Id("return"), Id("XDP_DROP"), SEMICOLON, RIGHT_BRACE]))
        case (Some(stmt), Some(rest)) => Some((stmt, rest))
        case _ => None
  }

  /** A number followed by a fixed run. */
  function ReadNumber(ts: seq<Lexeme>, run: seq<Lexeme>): (r: Option<(nat, seq<Lexeme>)>)
    ensures r.Some? ==> |r.value.1| < |ts|
  {
    if ts == [] then None
    else
      match (NumberOf(ts[0]), Expect(ts[1..], run))
      case (Some(n), Some(rest)) => Some((n, rest))
      case _ => None
  }

  /** return XDP_DROP; or one of the two calls that deliver. */
  function ReadReturn(ts: seq<Lexeme>): (r: Option<(Stmt, seq<Lexeme>)>)
    ensures r.Some? ==> |r.value.1| < |ts|
  {
    if |ts| < 2 then None
    else if ts[1] == Id("XDP_DROP") then
      match Expect(ts[2..], [SEMICOLON])
      case Some(rest) => Some((ReturnDrop, rest))
      case None => None
    else if ts[1] == Id("bpf_redirect_map") then
      match Expect(ts[2..], [OPEN, ADDRESS, Id("xsk_map"), COMMA])
      case None => None
      case Some(number) =>
        match ReadNumber(number, [COMMA, Id("0"), CLOSE, SEMICOLON])
        case Some((queue, rest)) => Some((ReturnRedirect(queue), rest))
        case None => None
    else if ts[1] == Id("zereh_route_kernel_space") then
      match Expect(ts[2..], [OPEN, Id("iph"), COMMA, Id("udp"), COMMA, Id("bpf_htons"), OPEN])
      case None => None
      case Some(number) =>
        match ReadNumber(number, [CLOSE, COMMA, Id("0"), CLOSE, SEMICOLON])
        case Some((port, rest)) => Some((ReturnKernel(port % 0x1_0000), rest))
        case None => None
    else None
  }

  /** bpf_tail_call(ctx, &prog_array, index); */
  function ReadTailCall(ts: seq<Lexeme>): (r: Option<(Stmt, seq<Lexeme>)>)
    ensures r.Some? ==> |r.value.1| < |ts|
  {
    match Expect(ts, [Id("bpf_tail_call"), OPEN, Id("ctx"), COMMA, ADDRESS, Id("prog_array"), COMMA])
    case None => None
    case Some(number) =>
      match ReadNumber(number, [CLOSE, SEMICOLON])
      case Some((index, rest)) => Some((TailCall(index), rest))
      case None => None
  }

  function ReadStmt(ts: seq<Lexeme>): (r: Option<(Stmt, seq<Lexeme>)>)
    ensures r.Some? ==> |r.value.1| < |ts|
  {
    if ts == [] then None
    else if ts[0] == Id("case") then ReadLabel(ts)
    else if ts[0] == Id("if") then ReadGuard(ts)
    else if ts[0] == Id("return") then ReadReturn(ts)
    else if ts[0] == Id("bpf_tail_call") then ReadTailCall(ts)
    else None
  }

  /** As many statements as there are, and what follows them. */
  function ReadStmts(ts: seq<Lexeme>): (r: (seq<Stmt>, seq<Lexeme>))
    ensures |r.1| <= |ts|
    decreases |ts|
  {
    match ReadStmt(ts)
    case None => ([], ts)
    case Some((stmt, rest)) =>
      var (stmts, end) := ReadStmts(rest);
      ([stmt] + stmts, end)
  }

  // Fallback blocks.

  /** if (zereh_match_suffix(qmeta->qname, qmeta->qname_len, "...", n)) { statements } */
  function ReadBlock(ts: seq<Lexeme>): (r: Option<(Block, seq<Lexeme>)>)
    ensures r.Some? ==> |r.value.1| < |ts|
  {
    match Expect(ts, [Id("if"), OPEN, Id("zereh_match_suffix"), OPEN,
                      Id("qmeta"), MINUS, GREATER, Id("qname"), COMMA,
                      Id("qmeta"), MINUS, GREATER, Id("qname_len"), COMMA])
    case None => None
    case Some(pattern) =>
      if |pattern| < 2 || !pattern[0].Str? || pattern[1] != COMMA then None
      else
        match ReadNumber(pattern[2..], [CLOSE, CLOSE, LEFT_BRACE])
        case None => None
        case Some((len, body)) =>
          var (stmts, end) := ReadStmts(body);
          if end == [] || end[0] != RIGHT_BRACE then None
          else Some((IfSuffix(pattern[0].raw, len % 0x1_0000, stmts), end[1..]))
  }

  function ReadBlocks(ts: seq<Lexeme>): (r: (seq<Block>, seq<Lexeme>))
    ensures |r.1| <= |ts|
    decreases |ts|
  {
    match ReadBlock(ts)
    case None => ([], ts)
    case Some((block, rest)) =>
      var (blocks, end) := ReadBlocks(rest);
      ([block] + blocks, end)
  }
}
