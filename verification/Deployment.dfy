/** From the configuration tree to a running data plane: parsing, code generation and seeding in one chain. */
module Deployment {
  import opened Bytes
  import opened Routes
  import opened DomainHash
  import opened ConfigParser
  import opened Codegen
  import opened DataPlane
  import Bloom

  datatype ActionNode = NoAction | BadAction | Action(verdict: Verdict)

  datatype AlgorithmNode = NoAlgorithm | BadAlgorithm | Uses(algo: Algorithm)

  /** The settings that may be given in a section, at the root, or in both places. */
  datatype Globals = Globals(defaultAction: ActionNode, maxPacketSize: Num, opcodes: OpcodesNode, dropTruncated: Flag)

  datatype ConfigNode = ConfigNode(
    section: Globals, root: Globals, kernelPort: Num, algorithm: AlgorithmNode, routes: Option<seq<RouteNode>>)

  predicate GlobalsOk(g: Globals) {
    && !g.defaultAction.BadAction?
    && InRange(g.maxPacketSize, 0xffff_ffff)
    && OpcodesOf(g.opcodes).Some?
    && !g.dropTruncated.BadFlag?
  }

  /** Every setting is well formed wherever it is given, and all of 1 to 1024 routes are acceptable. */
  predicate ConfigOk(node: ConfigNode) {
    && GlobalsOk(node.section) && GlobalsOk(node.root)
    && InRange(node.kernelPort, 0xffff)
    && !node.algorithm.BadAlgorithm?
    && node.routes.Some? && 1 <= |node.routes.value| <= MAX_ROUTES
    && forall i :: 0 <= i < |node.routes.value| ==> Acceptable(node.routes.value[i])
  }

  /** The root wins over the section, the section over the default. */
  function FallThroughOf(section: ActionNode, root: ActionNode): Verdict {
    if root.Action? then root.verdict else if section.Action? then section.verdict else Pass
  }

  function OpcodesChosen(section: OpcodesNode, root: OpcodesNode): set<nat>
    requires OpcodesOf(section).Some? && OpcodesOf(root).Some?
  {
    if !root.NoOpcodes? then OpcodesOf(root).value else OpcodesOf(section).value
  }

  function FlagOf(section: Flag, root: Flag): bool {
    if root.Is? then root.on else section.Is? && section.on
  }

  function DefaultsOf(node: ConfigNode): Defaults
    requires InRange(node.kernelPort, 0xffff)
  {
    Defaults(Or(node.kernelPort, 5302), if node.algorithm.Uses? then node.algorithm.algo else Fnv1a)
  }

  /** The configuration an acceptable tree denotes. */
  function ConfigOf(node: ConfigNode): (cfg: Config)
    requires ConfigOk(node)
    ensures |cfg.routes| == |node.routes.value|
  {
    var d := DefaultsOf(node);
    var nodes := node.routes.value;
    Config(
      routes := seq(|nodes|, i requires 0 <= i < |nodes| => RouteOf(nodes[i], d)),
      algo := d.algo,
      fallThrough := FallThroughOf(node.section.defaultAction, node.root.defaultAction),
      maxPacketSize := Or(Later(node.section.maxPacketSize, node.root.maxPacketSize), 1400),
      opcodes := OpcodesChosen(node.section.opcodes, node.root.opcodes),
      dropTruncated := FlagOf(node.section.dropTruncated, node.root.dropTruncated))
  }

  /** The global settings while they are being filled. */
  class GlobalParser {
    var fallThrough: Verdict
    var maxPacketSize: u32
    var opcodes: set<nat>
    var dropTruncated: bool

    constructor ()
      ensures fallThrough == Pass && maxPacketSize == 1400 && opcodes == {0} && !dropTruncated
    {
      fallThrough, maxPacketSize, opcodes, dropTruncated := Pass, 1400, {0}, false;
    }

    /** Overwrites what is given and stops at the first setting that is not well formed. */
    method Apply(g: Globals) returns (ok: bool)
      modifies this
      ensures ok == GlobalsOk(g)
      ensures ok ==> fallThrough == if g.defaultAction.Action? then g.defaultAction.verdict else old(fallThrough)
      ensures ok ==> maxPacketSize == Or(g.maxPacketSize, old(maxPacketSize))
      ensures ok ==> opcodes == if g.opcodes.NoOpcodes? then old(opcodes) else OpcodesOf(g.opcodes).value
      ensures ok ==> dropTruncated == if g.dropTruncated.Is? then g.dropTruncated.on else old(dropTruncated)
    {
      hide OpcodesOf;
      if g.defaultAction.BadAction? {
        return false;
      }
      if g.defaultAction.Action? {
        fallThrough := g.defaultAction.verdict;
      }
      if !InRange(g.maxPacketSize, 0xffff_ffff) {
        return false;
      }
      maxPacketSize := Or(g.maxPacketSize, maxPacketSize);
      var mask := ParseAllowedOpcodes(g.opcodes);
      if mask.None? {
        return false;
      }
      if !g.opcodes.NoOpcodes? {
        opcodes := mask.value;
      }
      if g.dropTruncated.BadFlag? {
        return false;
      }
      if g.dropTruncated.Is? {
        dropTruncated := g.dropTruncated.on;
      }
      ok := true;
    }
  }

  predicate AllCStrings(node: ConfigNode) {
    node.routes.Some? ==> forall n :: n in node.routes.value ==> CStrings(n)
  }

  /** A tree is accepted exactly when it is acceptable, and then it yields the configuration it denotes. */
  method ParseConfig(node: ConfigNode) returns (cfg: Option<Config>)
    requires AllCStrings(node)
    ensures cfg == if ConfigOk(node) then Some(ConfigOf(node)) else None
  {
    hide OpcodesOf, Acceptable, RouteOf, RouteInvariant, CStrings;
    DefaultOpcodes();
    var globals := new GlobalParser();
    var ok := globals.Apply(node.section);
    if !ok {
      return None;
    }
    ok := globals.Apply(node.root);
    if !ok || !InRange(node.kernelPort, 0xffff) || node.algorithm.BadAlgorithm? || node.routes.None? {
      return None;
    }
    var d := DefaultsOf(node);
    var routes := ParseRoutes(node.routes.value, d);
    if routes.None? {
      return None;
    }
    assert routes.value == ConfigOf(node).routes;
    cfg := Some(Config(routes.value, d.algo, globals.fallThrough, globals.maxPacketSize, globals.opcodes,
                       globals.dropTruncated));
  }

  lemma DefaultOpcodes()
    ensures OpcodesOf(NoOpcodes) == Some({0})
  {
  }

  /** A configuration that the parser accepts and whose generated program compiles. */
  predicate Deployed(cfg: Config) {
    && 1 <= |cfg.routes| <= MAX_ROUTES
    && (forall i :: 0 <= i < |cfg.routes| ==> RouteInvariant(cfg.routes[i], cfg.algo))
    && DistinctHashes(cfg.routes)
    && cfg.opcodes != {} && forall c :: c in cfg.opcodes ==> c <= 15
  }

  /** Everything the parser accepts has what the other components rely on. */
  lemma AcceptedIsDeployed(node: ConfigNode)
    requires AllCStrings(node) && ConfigOk(node) && DistinctHashes(ConfigOf(node).routes)
    ensures Deployed(ConfigOf(node))
  {
    hide OpcodesOf, Acceptable, RouteOf, RouteInvariant, DistinctHashes, CStrings;
    var cfg, d := ConfigOf(node), DefaultsOf(node);
    forall i | 0 <= i < |cfg.routes|
      ensures RouteInvariant(cfg.routes[i], cfg.algo)
    {
      assert node.routes.value[i] in node.routes.value;
      AcceptedRouteInvariant(node.routes.value[i], d);
    }
    OpcodesInRange(node.section.opcodes);
    OpcodesInRange(node.root.opcodes);
  }

  /** The whole start-up: parse, generate, seed. The contracts chain without further hypotheses. */
  method BringUp(node: ConfigNode, clock: seq<u64>) returns (cfg: Option<Config>, program: Program, words: seq<bv64>)
    requires AllCStrings(node) && (node.routes.Some? ==> |clock| == |node.routes.value|)
    ensures cfg == if ConfigOk(node) then Some(ConfigOf(node)) else None
    ensures cfg.Some? ==> program == Generated(cfg.value.routes, cfg.value.fallThrough)
    ensures cfg.Some? ==>
              && |words| == Bloom.BLOOM_WORDS
              && Bloom.OnBits(words) == Bloom.SeededBits(cfg.value.routes, cfg.value.algo, clock, |cfg.value.routes|)
    ensures cfg.Some? ==> (Compiles(program) <==> Deployed(cfg.value))
  {
    hide ConfigOk, ConfigOf, Compiles, DistinctHashes, Bloom.OnBits, Bloom.SeededBits, RouteCases, FallbackRules;
    program, words := Program([], [], Pass), [];
    cfg := ParseConfig(node);
    if cfg.None? {
      return;
    }
    var routes := cfg.value.routes;
    StringsAndCompilation(node);
    var cases := GenerateRouteCases(routes);
    var blocks := GenerateFallbackRules(routes);
    program := Program(cases, blocks, cfg.value.fallThrough);
    var seeded := Bloom.SeedBloomMap(routes, cfg.value.algo, clock);
    words := seeded[..];
  }

  lemma StringsAndCompilation(node: ConfigNode)
    requires AllCStrings(node) && ConfigOk(node)
    ensures node.routes.Some? && |ConfigOf(node).routes| == |node.routes.value|
    ensures forall r, s :: r in ConfigOf(node).routes && s in r.seeds ==> NulFree(s)
    ensures Compiles(Generated(ConfigOf(node).routes, ConfigOf(node).fallThrough)) <==> Deployed(ConfigOf(node))
  {
    hide OpcodesOf, Acceptable, RouteOf, DistinctHashes, CStrings, Compiles, Generated;
    var cfg, d := ConfigOf(node), DefaultsOf(node);
    forall r, s | r in cfg.routes && s in r.seeds
      ensures NulFree(s)
    {
      var i :| 0 <= i < |cfg.routes| && cfg.routes[i] == r;
      assert node.routes.value[i] in node.routes.value;
      AcceptedRouteInvariant(node.routes.value[i], d);
    }
    CompilesIffDistinct(cfg.routes, cfg.fallThrough);
    if DistinctHashes(cfg.routes) {
      AcceptedIsDeployed(node);
    }
  }

  // Which setting counts.

  const NO_GLOBALS := Globals(NoAction, Absent, NoOpcodes, NoFlag)

  /** Without global settings these hold. */
  lemma BareConfig(routes: seq<RouteNode>)
    requires 1 <= |routes| <= MAX_ROUTES && forall i :: 0 <= i < |routes| ==> Acceptable(routes[i])
    ensures var node := ConfigNode(NO_GLOBALS, NO_GLOBALS, Absent, NoAlgorithm, Some(routes));
            && ConfigOk(node)
            && DefaultsOf(node) == Defaults(5302, Fnv1a)
            && var cfg := ConfigOf(node);
               && cfg.algo == Fnv1a && cfg.fallThrough == Pass && cfg.maxPacketSize == 1400
               && cfg.opcodes == {0} && !cfg.dropTruncated
  {
    hide Acceptable, RouteOf;
  }

  /** A setting at the root replaces the one in the section, field by field. */
  lemma RootWins(node: ConfigNode, v: Verdict, n: u32, code: nat, on: bool)
    requires ConfigOk(node) && code <= 15
    ensures var node' := node.(root := node.root.(defaultAction := Action(v)));
            ConfigOk(node') && ConfigOf(node') == ConfigOf(node).(fallThrough := v)
    ensures var node' := node.(root := node.root.(maxPacketSize := Val(n)));
            ConfigOk(node') && ConfigOf(node') == ConfigOf(node).(maxPacketSize := n)
    ensures var node' := node.(root := node.root.(opcodes := OneOpcode(Val(code))));
            ConfigOk(node') && ConfigOf(node') == ConfigOf(node).(opcodes := {code})
    ensures var node' := node.(root := node.root.(dropTruncated := Is(on)));
            ConfigOk(node') && ConfigOf(node') == ConfigOf(node).(dropTruncated := on)
  {
    hide Acceptable, RouteOf;
  }

  /** A setting in the section counts when the root is silent. */
  lemma SectionCounts(node: ConfigNode, v: Verdict, n: u32, code: nat, on: bool)
    requires ConfigOk(node) && node.root == NO_GLOBALS && code <= 15
    ensures var node' := node.(section := Globals(Action(v), Val(n), OneOpcode(Val(code)), Is(on)));
            && ConfigOk(node')
            && ConfigOf(node') ==
               ConfigOf(node).(fallThrough := v, maxPacketSize := n, opcodes := {code}, dropTruncated := on)
  {
    hide Acceptable, RouteOf;
  }
}
