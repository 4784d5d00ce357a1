/**
 * The code generator and the meaning of what it generates. A generated program is a switch body, which is a flat
 * statement list with case labels and C's fall-through, a list of suffix blocks, and a default verdict.
 */
module Codegen {
  import opened Bytes
  import opened CText
  import opened Routes
  import opened DnsQuestion
  import opened RateLimit
  import opened Filters
  import Bloom
  import Checksum
  import KernelSpace
  import ProofOfWork

  datatype Stmt =
    | Case(hash: bv64)
    | DropUnless(prefix: seq<byte>, prefixLen: nat, suffix: seq<byte>, suffixLen: nat, args: Args)
    | ReturnRedirect(queue: nat)
    | ReturnKernel(port: u16)
    | TailCall(index: nat)
    | ReturnDrop

  /** if (zereh_match_suffix(qname, literal, len)) { body } */
  datatype Block = IfSuffix(literal: seq<byte>, len: nat, body: seq<Stmt>)

  datatype Program = Program(cases: seq<Stmt>, fallbacks: seq<Block>, fallThrough: Verdict)

  datatype Verdict = Pass | Drop | Redirect(queue: nat) | TailTo(prog: int)

  /** What a packet brings along: the parsed query, its hash, the clock readings, the maps and the header offsets. */
  datatype Env = Env(
    query: Query, hash: bv64, clock: Clock, words: seq<bv64>, programs: map<nat, int>, ip: nat, udp: nat)

  /** What a packet can change; evaluated lists the routes whose filters were run. */
  datatype State = State(table: seq<RateState>, packet: seq<byte>, evaluated: seq<nat>)

  predicate Fits(env: Env, st: State) {
    |env.words| == Bloom.BLOOM_WORDS && env.ip + 20 <= env.udp && env.udp + 8 <= |st.packet|
  }

  /** A statement list falls off its end, returns, or has no meaning in C. */
  datatype Flow = Next(st: State) | Return(verdict: Verdict, st: State) | Stuck

  // The generator.

  function ArgsOf(r: Route, id: nat): Args {
    Args(r.minLabels, r.maxLabels, r.minLength, r.maxLength, id, r.typeMask, r.powDifficulty, r.powWindow,
         r.bloomEnabled, r.bloomSize, r.bloomHashes, r.bloomWindow, r.qps)
  }

  function ActionOf(r: Route): seq<Stmt> {
    match r.target
    case UserSpace => [ReturnRedirect(r.xskQueue)]
    case KernelSpace => [ReturnKernel(r.kernelPort)]
    case XdpProg => [TailCall(r.progIndex), ReturnDrop]
  }

  function GuardOf(r: Route, id: nat): Stmt {
    DropUnless(Escaped(r.prefix), |r.prefix|, Escaped(r.suffix), |r.suffix|, ArgsOf(r, id))
  }

  function RouteCase(r: Route, id: nat): seq<Stmt> {
    [Case(r.hash), GuardOf(r, id)] + ActionOf(r)
  }

  function FallbackRule(r: Route, id: nat): Block {
    IfSuffix(Escaped(r.domain), |r.domain|, [GuardOf(r, id)] + ActionOf(r))
  }

  /** The switch body for the routes from i on. */
  function RouteCases(routes: seq<Route>, i: nat): seq<Stmt>
    requires i <= |routes|
    decreases |routes| - i
  {
    if i == |routes| then [] else RouteCase(routes[i], i) + RouteCases(routes, i + 1)
  }

  function FallbackRules(routes: seq<Route>, i: nat): seq<Block>
    requires i <= |routes|
    decreases |routes| - i
  {
    if i == |routes| then [] else [FallbackRule(routes[i], i)] + FallbackRules(routes, i + 1)
  }

  function Generated(routes: seq<Route>, fallThrough: Verdict): Program {
    Program(RouteCases(routes, 0), FallbackRules(routes, 0), fallThrough)
  }

  method GuardStmt(r: Route, id: nat) returns (s: Stmt)
    ensures s == GuardOf(r, id)
  {
    var prefix := EscapeCString(r.prefix);
    var suffix := EscapeCString(r.suffix);
    s := DropUnless(prefix, |r.prefix|, suffix, |r.suffix|, ArgsOf(r, id));
  }

  method GenerateRouteCases(routes: seq<Route>) returns (out: seq<Stmt>)
    ensures out == RouteCases(routes, 0)
  {
    hide GuardOf, ActionOf;
    out := [];
    for i := 0 to |routes|
      invariant out + RouteCases(routes, i) == RouteCases(routes, 0)
    {
      var guard := GuardStmt(routes[i], i);
      ghost var rest := RouteCases(routes, i + 1);
      assert out + (RouteCase(routes[i], i) + rest) == (out + RouteCase(routes[i], i)) + rest;
      out := out + ([Case(routes[i].hash), guard] + ActionOf(routes[i]));
    }
  }

  method GenerateFallbackRules(routes: seq<Route>) returns (out: seq<Block>)
    ensures out == FallbackRules(routes, 0)
  {
    hide GuardOf, ActionOf, Escaped;
    out := [];
    for i := 0 to |routes|
      invariant out + FallbackRules(routes, i) == FallbackRules(routes, 0)
    {
      var domain := EscapeCString(routes[i].domain);
      var guard := GuardStmt(routes[i], i);
      ghost var rest := FallbackRules(routes, i + 1);
      assert out + ([FallbackRule(routes[i], i)] + rest) == (out + [FallbackRule(routes[i], i)]) + rest;
      out := out + [IfSuffix(domain, |routes[i].domain|, [guard] + ActionOf(routes[i]))];
    }
  }

  // The meaning of generated programs.

  /** The array a string literal denotes, cut to the length passed beside it. */
  function LiteralValue(literal: seq<byte>, len: nat): Option<seq<byte>> {
    match Lex(literal + [QUOTE])
    case Some(Lexed(value, rest)) => if rest == [] && len <= |value| then Some(value[..len]) else None
    case None => None
  }

  function ExecOne(s: Stmt, env: Env, st: State): (f: Flow)
    requires Fits(env, st)
    ensures f.Next? ==> Fits(env, f.st)
  {
    match s
    case Case(_) => Next(st)
    case DropUnless(prefix, prefixLen, suffix, suffixLen, args) =>
      (match (LiteralValue(prefix, prefixLen), LiteralValue(suffix, suffixLen))
       case (Some(pre), Some(suf)) =>
         var o := Filtered(env.query, env.hash, pre, suf, args, env.clock, env.words, st.table);
         var st' := st.(table := o.table, evaluated := st.evaluated + [args.routeId]);
         if o.allowed then Next(st') else Return(Drop, st')
       case _ => Stuck)
    case ReturnRedirect(queue) => Return(Redirect(queue), st)
    case ReturnKernel(port) =>
      Return(Pass, st.(packet :=
        KernelSpace.Rewritten(st.packet, env.ip, env.udp, Checksum.Swap(port), KernelSpace.NO_ADDRESS)))
    case TailCall(index) =>
      if index in env.programs then Return(TailTo(env.programs[index]), st) else Next(st)
    case ReturnDrop => Return(Drop, st)
  }

  function Exec(stmts: seq<Stmt>, env: Env, st: State): (f: Flow)
    requires Fits(env, st)
    ensures f.Next? ==> Fits(env, f.st)
  {
    if stmts == [] then Next(st)
    else
      match ExecOne(stmts[0], env, st)
      case Next(st') => Exec(stmts[1..], env, st')
      case f => f
  }

  /** A jump to the matching label, then C's fall-through; without a label the switch does nothing. */
  function ExecSwitch(stmts: seq<Stmt>, env: Env, st: State): (f: Flow)
    requires Fits(env, st)
    ensures f.Next? ==> Fits(env, f.st)
  {
    if stmts == [] then Next(st)
    else if stmts[0] == Case(env.hash) then Exec(stmts, env, st)
    else ExecSwitch(stmts[1..], env, st)
  }

  function ExecBlocks(blocks: seq<Block>, env: Env, st: State): (f: Flow)
    requires Fits(env, st)
  {
    if blocks == [] then Next(st)
    else
      match LiteralValue(blocks[0].literal, blocks[0].len)
      case None => Stuck
      case Some(pattern) =>
        if !SuffixOk(env.query.name, pattern) then ExecBlocks(blocks[1..], env, st)
        else
          match Exec(blocks[0].body, env, st)
          case Next(st') => ExecBlocks(blocks[1..], env, st')
          case f => f
  }

  function Labels(stmts: seq<Stmt>): seq<bv64> {
    if stmts == [] then []
    else (if stmts[0].Case? then [stmts[0].hash] else []) + Labels(stmts[1..])
  }

  /** Duplicate case labels do not compile. */
  predicate Compiles(p: Program) {
    var labels := Labels(p.cases);
    forall i, j :: 0 <= i < j < |labels| ==> labels[i] != labels[j]
  }

  function Dispatch(p: Program, env: Env, st: State): Flow
    requires Fits(env, st)
  {
    if !Compiles(p) then Stuck
    else
      match ExecSwitch(p.cases, env, st)
      case Next(st') =>
        (match ExecBlocks(p.fallbacks, env, st')
         case Next(st'') => Return(p.fallThrough, st'')
         case f => f)
      case f => f
  }

  // The reference router: no generated code, no literals, no labels.

  predicate DistinctHashes(routes: seq<Route>) {
    forall i, j :: 0 <= i < j < |routes| ==> routes[i].hash != routes[j].hash
  }

  /** The first route from i on with this hash. */
  function ByHash(routes: seq<Route>, hash: bv64, i: nat): (r: Option<nat>)
    requires i <= |routes|
    ensures r.Some? ==> i <= r.value < |routes| && routes[r.value].hash == hash
    ensures r.Some? ==> forall j :: i <= j < r.value ==> routes[j].hash != hash
    ensures r.None? ==> forall j :: i <= j < |routes| ==> routes[j].hash != hash
    decreases |routes| - i
  {
    if i == |routes| then None else if routes[i].hash == hash then Some(i) else ByHash(routes, hash, i + 1)
  }

  /** The first route from i on whose domain is a byte suffix of the name. */
  function BySuffix(routes: seq<Route>, name: seq<byte>, i: nat): (r: Option<nat>)
    requires i <= |routes|
    ensures r.Some? ==> i <= r.value < |routes| && SuffixOk(name, routes[r.value].domain)
    ensures r.Some? ==> forall j :: i <= j < r.value ==> !SuffixOk(name, routes[j].domain)
    ensures r.None? ==> forall j :: i <= j < |routes| ==> !SuffixOk(name, routes[j].domain)
    decreases |routes| - i
  {
    if i == |routes| then None else if SuffixOk(name, routes[i].domain) then Some(i) else BySuffix(routes, name, i + 1)
  }

  /** Exact name first, then configuration order. */
  function Select(routes: seq<Route>, hash: bv64, name: seq<byte>): (r: Option<nat>)
    ensures r.Some? ==> r.value < |routes|
  {
    match ByHash(routes, hash, 0)
    case Some(i) => Some(i)
    case None => BySuffix(routes, name, 0)
  }

  function Deliver(r: Route, env: Env, st: State): Flow
    requires Fits(env, st)
  {
    match r.target
    case UserSpace => Return(Redirect(r.xskQueue), st)
    case KernelSpace =>
      Return(Pass, st.(packet :=
        KernelSpace.Rewritten(st.packet, env.ip, env.udp, Checksum.Swap(r.kernelPort), KernelSpace.NO_ADDRESS)))
    case XdpProg =>
      Return(if r.progIndex in env.programs then TailTo(env.programs[r.progIndex]) else Drop, st)
  }

  /** What a route asks of a query, in the route's own terms. */
  predicate RouteShape(q: Query, r: Route) {
    && r.minLabels <= q.depth <= r.maxLabels
    && r.minLength <= |q.name| <= r.maxLength
    && TypeAllowed(q.qtype, r.typeMask)
    && PrefixOk(q.name, r.prefix)
    && SuffixOk(q.name, r.suffix)
  }

  predicate RouteProof(r: Route, env: Env)
    requires |env.words| == Bloom.BLOOM_WORDS
  {
    && ProofOfWork.Allow(env.hash, env.query.id, r.powDifficulty, r.powWindow, env.clock.powNs / NS_PER_SEC)
    && (r.bloomEnabled ==>
          Bloom.Allow(env.words, env.hash, r.bloomSize, r.bloomHashes, r.bloomWindow, env.clock.bloomNs / NS_PER_SEC))
  }

  /** Admission by route id with its own limit: counted once the shape fits, whatever the proofs say. */
  function RouteFiltered(r: Route, id: nat, env: Env, table: seq<RateState>): (o: Outcome)
    requires |env.words| == Bloom.BLOOM_WORDS
    ensures |o.table| == |table|
  {
    var limited := Limit(table, id, r.qps, env.clock.rateNs / NS_PER_SEC);
    if RouteShape(env.query, r) then Outcome(limited.allowed && RouteProof(r, env), limited.table)
    else Outcome(false, table)
  }

  function Route1(r: Route, id: nat, env: Env, st: State): Flow
    requires Fits(env, st)
  {
    var o := RouteFiltered(r, id, env, st.table);
    var st' := st.(table := o.table, evaluated := st.evaluated + [id]);
    if o.allowed then Deliver(r, env, st') else Return(Drop, st')
  }

  function Reference(routes: seq<Route>, fallThrough: Verdict, env: Env, st: State): Flow
    requires Fits(env, st)
  {
    match Select(routes, env.hash, env.query.name)
    case Some(i) => Route1(routes[i], i, env, st)
    case None => Return(fallThrough, st)
  }

  // Generated code means what the reference says.

  lemma LiteralOfEscaped(s: seq<byte>)
    ensures LiteralValue(Escaped(s), |s|) == Some(s)
  {
    LexUndoesEscape(s, []);
    assert Escaped(s) + [QUOTE] + [] == Escaped(s) + [QUOTE];
    assert s[..|s|] == s;
  }

  /** The argument list of the generated call says what the route says. */
  lemma CallMeansRoute(r: Route, id: nat, env: Env, table: seq<RateState>)
    requires |env.words| == Bloom.BLOOM_WORDS
    ensures Filtered(env.query, env.hash, r.prefix, r.suffix, ArgsOf(r, id), env.clock, env.words, table) ==
            RouteFiltered(r, id, env, table)
  {
    hide TypeAllowed, PrefixOk, SuffixOk, ProofOfWork.Allow, Bloom.Allow, Limit;
  }

  lemma ExecAction(r: Route, env: Env, st: State, rest: seq<Stmt>)
    requires Fits(env, st)
    ensures Exec(ActionOf(r) + rest, env, st) == Deliver(r, env, st)
  {
    var stmts := ActionOf(r) + rest;
    assert stmts[0] == ActionOf(r)[0];
    if r.target.XdpProg? {
      assert stmts[1..][0] == ReturnDrop;
    }
  }

  /** A guarded route always returns: nothing falls through into what follows it. */
  lemma ExecGuarded(r: Route, id: nat, env: Env, st: State, rest: seq<Stmt>)
    requires Fits(env, st)
    ensures Exec([GuardOf(r, id)] + ActionOf(r) + rest, env, st) == Route1(r, id, env, st)
  {
    hide Filtered, RouteFiltered, Escaped, LiteralValue, ActionOf, Deliver;
    var stmts := [GuardOf(r, id)] + ActionOf(r) + rest;
    LiteralOfEscaped(r.prefix);
    LiteralOfEscaped(r.suffix);
    assert stmts[0] == GuardOf(r, id) && stmts[1..] == ActionOf(r) + rest;
    CallMeansRoute(r, id, env, st.table);
    var o := RouteFiltered(r, id, env, st.table);
    ExecAction(r, env, st.(table := o.table, evaluated := st.evaluated + [id]), rest);
  }

  lemma ExecSwitchSkips(s: Stmt, rest: seq<Stmt>, env: Env, st: State)
    requires Fits(env, st) && s != Case(env.hash)
    ensures ExecSwitch([s] + rest, env, st) == ExecSwitch(rest, env, st)
  {
    assert ([s] + rest)[1..] == rest;
  }

  lemma ExecSwitchSkipsRoute(r: Route, id: nat, rest: seq<Stmt>, env: Env, st: State)
    requires Fits(env, st) && r.hash != env.hash
    ensures ExecSwitch(RouteCase(r, id) + rest, env, st) == ExecSwitch(rest, env, st)
  {
    hide ExecSwitch, Escaped;
    var guard, action := GuardOf(r, id), ActionOf(r);
    assert RouteCase(r, id) + rest == [Case(r.hash)] + ([guard] + (action + rest));
    ExecSwitchSkips(Case(r.hash), [guard] + (action + rest), env, st);
    ExecSwitchSkips(guard, action + rest, env, st);
    if r.target.XdpProg? {
      assert action + rest == [action[0]] + ([action[1]] + rest);
      ExecSwitchSkips(action[0], [action[1]] + rest, env, st);
      ExecSwitchSkips(action[1], rest, env, st);
    } else {
      assert action + rest == [action[0]] + rest;
      ExecSwitchSkips(action[0], rest, env, st);
    }
  }

  lemma ExecSwitchTakesRoute(r: Route, id: nat, rest: seq<Stmt>, env: Env, st: State)
    requires Fits(env, st) && r.hash == env.hash
    ensures ExecSwitch(RouteCase(r, id) + rest, env, st) == Route1(r, id, env, st)
  {
    hide GuardOf, ActionOf, Route1;
    var stmts := RouteCase(r, id) + rest;
    assert stmts[0] == Case(r.hash);
    assert stmts[1..] == [GuardOf(r, id)] + ActionOf(r) + rest;
    ExecGuarded(r, id, env, st, rest);
  }

  lemma {:induction false} SwitchIsByHash(routes: seq<Route>, i: nat, env: Env, st: State)
    requires i <= |routes| && Fits(env, st)
    ensures ExecSwitch(RouteCases(routes, i), env, st) ==
            match ByHash(routes, env.hash, i)
            case Some(j) => Route1(routes[j], j, env, st)
            case None => Next(st)
    decreases |routes| - i
  {
    hide RouteCase, Route1;
    if i < |routes| {
      var rest := RouteCases(routes, i + 1);
      if routes[i].hash == env.hash {
        ExecSwitchTakesRoute(routes[i], i, rest, env, st);
      } else {
        ExecSwitchSkipsRoute(routes[i], i, rest, env, st);
        SwitchIsByHash(routes, i + 1, env, st);
      }
    }
  }

  lemma {:induction false} BlocksAreBySuffix(routes: seq<Route>, i: nat, env: Env, st: State)
    requires i <= |routes| && Fits(env, st)
    ensures ExecBlocks(FallbackRules(routes, i), env, st) ==
            match BySuffix(routes, env.query.name, i)
            case Some(j) => Route1(routes[j], j, env, st)
            case None => Next(st)
    decreases |routes| - i
  {
    hide GuardOf, ActionOf, SuffixOk, LiteralValue, Escaped;
    if i < |routes| {
      var r, blocks := routes[i], FallbackRules(routes, i);
      assert blocks[0] == FallbackRule(r, i) && blocks[1..] == FallbackRules(routes, i + 1);
      LiteralOfEscaped(r.domain);
      BlocksAreBySuffix(routes, i + 1, env, st);
      ExecGuarded(r, i, env, st, []);
      assert [GuardOf(r, i)] + ActionOf(r) + [] == [GuardOf(r, i)] + ActionOf(r);
    }
  }

  lemma LabelsOfRoute(r: Route, id: nat, rest: seq<Stmt>)
    ensures Labels(RouteCase(r, id) + rest) == [r.hash] + Labels(rest)
  {
    hide Escaped;
    var stmts := RouteCase(r, id) + rest;
    assert stmts[0] == Case(r.hash) && !stmts[1].Case? && !stmts[2].Case?;
    if r.target.XdpProg? {
      assert stmts[1..][1..][1..][1..] == rest;
      assert Labels(stmts[1..][1..][1..]) == Labels(rest);
    } else {
      assert stmts[1..][1..][1..] == rest;
    }
    assert Labels(stmts[1..][1..]) == Labels(rest);
    assert Labels(stmts[1..]) == Labels(rest);
  }

  lemma {:induction false} LabelsOfRoutes(routes: seq<Route>, i: nat)
    requires i <= |routes|
    ensures var labels := Labels(RouteCases(routes, i));
            |labels| == |routes| - i && forall j :: i <= j < |routes| ==> labels[j - i] == routes[j].hash
    decreases |routes| - i
  {
    hide RouteCase;
    if i < |routes| {
      LabelsOfRoutes(routes, i + 1);
      LabelsOfRoute(routes[i], i, RouteCases(routes, i + 1));
    }
  }

  /** The generated switch compiles exactly when no two routes share a hash. */
  lemma CompilesIffDistinct(routes: seq<Route>, fallThrough: Verdict)
    ensures Compiles(Generated(routes, fallThrough)) <==> DistinctHashes(routes)
  {
    hide RouteCases, Labels;
    LabelsOfRoutes(routes, 0);
    var labels := Labels(RouteCases(routes, 0));
    forall j | 0 <= j < |routes|
      ensures labels[j] == routes[j].hash
    {
      assert labels[j - 0] == routes[j].hash;
    }
    assert forall i, j :: 0 <= i < j < |routes| ==> (labels[i] == labels[j] <==> routes[i].hash == routes[j].hash);
  }

  /** Generated code and the reference router give the same verdict and the same new state, on every packet. */
  lemma GeneratedMeansReference(routes: seq<Route>, fallThrough: Verdict, env: Env, st: State)
    requires Fits(env, st) && DistinctHashes(routes)
    ensures Dispatch(Generated(routes, fallThrough), env, st) == Reference(routes, fallThrough, env, st)
  {
    hide ExecSwitch, ExecBlocks, RouteCases, FallbackRules, Route1, ByHash, BySuffix, Compiles;
    CompilesIffDistinct(routes, fallThrough);
    SwitchIsByHash(routes, 0, env, st);
    BlocksAreBySuffix(routes, 0, env, st);
    Route1Returns(routes, env, st);
  }

  lemma Route1Returns(routes: seq<Route>, env: Env, st: State)
    requires Fits(env, st)
    ensures forall i :: 0 <= i < |routes| ==> Route1(routes[i], i, env, st).Return?
  {
  }

  /** Whatever the configuration, at most one route's filters run, and only that route's rate state can change. */
  lemma AtMostOneRouteEvaluated(routes: seq<Route>, fallThrough: Verdict, env: Env, st: State)
    requires Fits(env, st) && DistinctHashes(routes)
    ensures var f := Dispatch(Generated(routes, fallThrough), env, st);
            && f.Return?
            && |f.st.table| == |st.table|
            && (f.st.evaluated == st.evaluated ||
                exists i :: 0 <= i < |routes| && f.st.evaluated == st.evaluated + [i]
                            && forall r :: 0 <= r < |st.table| && r != i ==> f.st.table[r] == st.table[r])
            && (f.st.evaluated == st.evaluated ==> f == Return(fallThrough, st))
  {
    hide Dispatch, Generated, DistinctHashes, RouteShape, RouteProof;
    GeneratedMeansReference(routes, fallThrough, env, st);
  }

  // Route order.

  function Swapped(routes: seq<Route>, k: nat): (r: seq<Route>)
    requires k + 1 < |routes|
    ensures |r| == |routes|
  {
    routes[k := routes[k + 1]][k + 1 := routes[k]]
  }

  function Chosen(routes: seq<Route>, hash: bv64, name: seq<byte>): Option<Route> {
    match Select(routes, hash, name)
    case Some(i) => Some(routes[i])
    case None => None
  }

  lemma SuffixesNest(a: seq<byte>, b: seq<byte>, name: seq<byte>)
    requires IsSuffix(a, name) && IsSuffix(b, name) && |a| <= |b|
    ensures IsSuffix(a, b)
  {
    assert b[|b| - |a|..] == name[|name| - |b|..][|b| - |a|..] == name[|name| - |a|..];
  }

  lemma MatchingDomainsNest(a: seq<byte>, b: seq<byte>, name: seq<byte>)
    requires SuffixOk(name, a) && SuffixOk(name, b)
    ensures IsSuffix(a, b) || IsSuffix(b, a)
  {
    assert name[|name|..] == [] && a[|a|..] == [] && b[|b|..] == [];
    if |a| <= |b| {
      SuffixesNest(a, b, name);
    } else {
      SuffixesNest(b, a, name);
    }
  }

  /** Swapping neighbours neither of whose domains is a suffix of the other changes no selection. */
  lemma OrderMattersOnlyUnderNesting(routes: seq<Route>, k: nat, hash: bv64, name: seq<byte>)
    requires k + 1 < |routes| && DistinctHashes(routes)
    requires !IsSuffix(routes[k].domain, routes[k + 1].domain) && !IsSuffix(routes[k + 1].domain, routes[k].domain)
    ensures Chosen(Swapped(routes, k), hash, name) == Chosen(routes, hash, name)
  {
    if SuffixOk(name, routes[k].domain) && SuffixOk(name, routes[k + 1].domain) {
      MatchingDomainsNest(routes[k].domain, routes[k + 1].domain, name);
    }
    SwapHash(routes, k, hash);
    SwapSuffix(routes, k, name);
  }

  lemma SwapHash(routes: seq<Route>, k: nat, hash: bv64)
    requires k + 1 < |routes| && DistinctHashes(routes)
    ensures var r, r' := ByHash(routes, hash, 0), ByHash(Swapped(routes, k), hash, 0);
            && (r.None? <==> r'.None?)
            && (r.Some? ==> Swapped(routes, k)[r'.value] == routes[r.value])
  {
    var swapped := Swapped(routes, k);
    var r, r' := ByHash(routes, hash, 0), ByHash(swapped, hash, 0);
    assert swapped[k] == routes[k + 1] && swapped[k + 1] == routes[k];
    if r.Some? {
      var i := r.value;
      assert routes[i] == swapped[if i == k then k + 1 else if i == k + 1 then k else i];
    }
    if r'.Some? {
      var i := r'.value;
      assert swapped[i] == routes[if i == k then k + 1 else if i == k + 1 then k else i];
    }
  }

  lemma SwapSuffix(routes: seq<Route>, k: nat, name: seq<byte>)
    requires k + 1 < |routes|
    requires !(SuffixOk(name, routes[k].domain) && SuffixOk(name, routes[k + 1].domain))
    ensures var r, r' := BySuffix(routes, name, 0), BySuffix(Swapped(routes, k), name, 0);
            && (r.None? <==> r'.None?)
            && (r.Some? ==> Swapped(routes, k)[r'.value] == routes[r.value])
  {
    hide SuffixOk;
    var swapped := Swapped(routes, k);
    var r, r' := BySuffix(routes, name, 0), BySuffix(swapped, name, 0);
    assert swapped[k] == routes[k + 1] && swapped[k + 1] == routes[k];
    if r.Some? {
      var i := r.value;
      assert routes[i] == swapped[if i == k then k + 1 else if i == k + 1 then k else i];
    }
    if r'.Some? {
      var i := r'.value;
      assert swapped[i] == routes[if i == k then k + 1 else if i == k + 1 then k else i];
    }
  }

  /** Under nesting the order does decide: a name below the inner domain goes to whichever of the two comes first. */
  lemma NestedOrderDecides(routes: seq<Route>, k: nat, hash: bv64, name: seq<byte>)
    requires k + 1 < |routes| && routes[k] != routes[k + 1]
    requires SuffixOk(name, routes[k].domain) && SuffixOk(name, routes[k + 1].domain)
    requires forall i :: 0 <= i < |routes| ==> routes[i].hash != hash
    requires forall i :: 0 <= i < k ==> !SuffixOk(name, routes[i].domain)
    ensures Chosen(routes, hash, name) == Some(routes[k])
    ensures Chosen(Swapped(routes, k), hash, name) == Some(routes[k + 1])
  {
    hide SuffixOk;
    var swapped := Swapped(routes, k);
    assert swapped[k] == routes[k + 1] && swapped[k + 1] == routes[k];
    assert forall i :: 0 <= i < |routes| ==> swapped[i] in routes;
  }
}
