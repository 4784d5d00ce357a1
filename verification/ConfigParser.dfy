/**
 * Validation of the configuration, over an abstract tree: one node per setting, after the choice between alias keys.
 * A node that is absent, malformed or out of range is kept apart from a value.
 */
module ConfigParser {
  import opened Bytes
  import opened Routes
  import opened DomainHash

  const MAX_PATTERN := 128
  const MAX_PROG_NAME := 63
  const MAX_SEEDS := 32
  const MAX_ROUTES := 1024

  datatype Num = Absent | Bad | Val(n: u32)

  datatype Flag = NoFlag | BadFlag | Is(on: bool)

  datatype RrType = A | Aaaa | Txt | Any | Unknown

  datatype MaskNode = NoMask | BadMask | One(rr: RrType) | Many(rrs: seq<RrType>)

  datatype TypesNode = NoTypes | BadTypes | Types(allow: MaskNode, deny: MaskNode)

  /** An entry that is not a scalar is None. */
  datatype SeedsNode = NoSeeds | BadSeeds | Seeds(entries: seq<Option<seq<byte>>>)

  datatype TargetNode = NoTarget | BadTarget | Known(target: Target)

  datatype Rules = Rules(
    prefix: Option<seq<byte>>, suffix: Option<seq<byte>>, minLabels: Num, maxLabels: Num, minLength: Num,
    maxLength: Num)

  datatype FiltersNode = NoFilters | BadFilters | Filters(
    powEnabled: Flag, powDifficulty: Num, powWindow: Num, rules: Rules, qps: Num, types: TypesNode,
    bloomEnabled: Flag, bloomSize: Num, bloomHashes: Num, bloomWindow: Num, seeds: SeedsNode)

  datatype RouteNode = RouteNode(
    domain: Option<seq<byte>>, target: TargetNode, xskQueue: Num, kernelPort: Num, progIndex: Num,
    progName: Option<seq<byte>>, rules: Rules, powDifficulty: Num, allowTypes: MaskNode, filters: FiltersNode)

  predicate TextClean(text: Option<seq<byte>>) {
    text.Some? ==> NulFree(text.value)
  }

  predicate SeedsClean(node: SeedsNode) {
    node.Seeds? ==> forall i :: 0 <= i < |node.entries| ==> TextClean(node.entries[i])
  }

  /** Every scalar is a C string: it ends at its first NUL. */
  predicate CStrings(node: RouteNode) {
    && TextClean(node.domain) && TextClean(node.progName)
    && TextClean(node.rules.prefix) && TextClean(node.rules.suffix)
    && (node.filters.Filters? ==>
          && TextClean(node.filters.rules.prefix) && TextClean(node.filters.rules.suffix)
          && SeedsClean(node.filters.seeds))
  }

  datatype Defaults = Defaults(kernelPort: u16, algo: Algorithm)

  // What each field ends up as.

  predicate InRange(num: Num, max: nat) {
    num.Absent? || (num.Val? && num.n <= max)
  }

  /** A later setting replaces an earlier one. */
  function Later(first: Num, second: Num): Num {
    if second.Absent? then first else second
  }

  function Or(num: Num, default: u32): u32 {
    if num.Val? then num.n else default
  }

  function Text(node: Option<seq<byte>>, default: seq<byte>, max: nat): seq<byte> {
    if node.Some? then Truncated(node.value, max) else default
  }

  /** A range given by one end is that single value; given by none it is the default. */
  function Paired(min: Num, max: Num, lo: u32, hi: u32): (u32, u32) {
    if min.Val? && max.Val? then (min.n, max.n)
    else if min.Val? then (min.n, min.n)
    else if max.Val? then (max.n, max.n)
    else (lo, hi)
  }

  function RrMask(rr: RrType): bv32 {
    match rr
    case A => 0x1
    case Aaaa => 0x2
    case Txt => 0x4
    case Any => 0x8
    case Unknown => 0
  }

  predicate MaskOk(node: MaskNode) {
    match node
    case NoMask => true
    case BadMask => false
    case One(rr) => rr != Unknown
    case Many(rrs) => rrs != [] && Unknown !in rrs
  }

  function MaskOf(node: MaskNode, default: bv32): bv32 {
    match node
    case One(rr) => RrMask(rr)
    case Many(rrs) => MaskOfAll(rrs)
    case _ => default
  }

  function MaskOfAll(rrs: seq<RrType>): bv32 {
    if rrs == [] then 0 else MaskOfAll(rrs[..|rrs| - 1]) | RrMask(rrs[|rrs| - 1])
  }

  predicate HasType(mask: bv32, rr: RrType) {
    mask & RrMask(rr) != 0
  }

  /** A bit of the mask is set exactly when its type is listed. */
  lemma {:induction false} MaskOfAllBits(rrs: seq<RrType>, rr: RrType)
    requires rr != Unknown
    ensures HasType(MaskOfAll(rrs), rr) <==> rr in rrs
  {
    hide RrMask, HasType;
    if rrs == [] {
      NoTypeSet(rr);
    } else {
      var front, last := rrs[..|rrs| - 1], rrs[|rrs| - 1];
      MaskOfAllBits(front, rr);
      assert rrs == front + [last];
      MaskBitOr(MaskOfAll(front), last, rr);
    }
  }

  lemma NoTypeSet(rr: RrType)
    ensures !HasType(0, rr)
  {
    AndZero(RrMask(rr));
  }

  lemma MaskBitOr(mask: bv32, last: RrType, rr: RrType)
    requires rr != Unknown
    ensures HasType(mask | RrMask(last), rr) <==> HasType(mask, rr) || last == rr
  {
    match rr
    case A => FirstBit(mask, RrMask(last));
    case Aaaa => SecondBit(mask, RrMask(last));
    case Txt => ThirdBit(mask, RrMask(last));
    case Any => FourthBit(mask, RrMask(last));
  }

  lemma FirstBit(x: bv32, y: bv32)
    ensures (x | y) & 0x1 != 0 <==> x & 0x1 != 0 || y & 0x1 != 0
  {
  }

  lemma SecondBit(x: bv32, y: bv32)
    ensures (x | y) & 0x2 != 0 <==> x & 0x2 != 0 || y & 0x2 != 0
  {
  }

  lemma ThirdBit(x: bv32, y: bv32)
    ensures (x | y) & 0x4 != 0 <==> x & 0x4 != 0 || y & 0x4 != 0
  {
  }

  lemma FourthBit(x: bv32, y: bv32)
    ensures (x | y) & 0x8 != 0 <==> x & 0x8 != 0 || y & 0x8 != 0
  {
  }

  const DEFAULT_TYPES: bv32 := 0x7

  function Without(allow: bv32, deny: bv32): bv32 {
    allow & !deny
  }

  /** The allowed types minus the denied ones. */
  function Restricted(types: TypesNode, mask: bv32): bv32 {
    if types.Types? then Without(MaskOf(types.allow, mask), MaskOf(types.deny, 0)) else mask
  }

  predicate TypesNodeOk(types: TypesNode, mask: bv32) {
    && !types.BadTypes?
    && (types.Types? ==> MaskOk(types.allow) && MaskOk(types.deny) && Restricted(types, mask) != 0)
  }

  predicate SeedsOk(node: SeedsNode) {
    match node
    case NoSeeds => true
    case BadSeeds => false
    case Seeds(entries) =>
      |entries| <= MAX_SEEDS && forall i :: 0 <= i < |entries| ==> entries[i].Some? && entries[i].value != []
  }

  function SeedList(node: SeedsNode): seq<seq<byte>>
    requires SeedsOk(node)
  {
    if node.Seeds? then
      seq(|node.entries|, i requires 0 <= i < |node.entries| => Truncated(node.entries[i].value, MAX_NAME))
    else []
  }

  const NO_RULES := Rules(None, None, Absent, Absent, Absent, Absent)

  /** Filters that set nothing. */
  const EMPTY_FILTERS := Filters(
    NoFlag, Absent, Absent, NO_RULES, Absent, NoTypes, NoFlag, Absent, Absent, Absent, NoSeeds)

  function FiltersOf(node: RouteNode): (f: FiltersNode)
    requires !node.filters.BadFilters?
    ensures f.Filters?
  {
    if node.filters.Filters? then node.filters else EMPTY_FILTERS
  }

  predicate RulesOk(r: Rules) {
    && InRange(r.minLabels, 255) && InRange(r.maxLabels, 255)
    && InRange(r.minLength, 0xffff) && InRange(r.maxLength, 0xffff)
  }

  function Labels(node: RouteNode): (u32, u32)
    requires !node.filters.BadFilters?
  {
    var f := FiltersOf(node).rules;
    Paired(Later(node.rules.minLabels, f.minLabels), Later(node.rules.maxLabels, f.maxLabels), 1, 127)
  }

  function Lengths(node: RouteNode): (u32, u32)
    requires !node.filters.BadFilters?
  {
    var f := FiltersOf(node).rules;
    Paired(Later(node.rules.minLength, f.minLength), Later(node.rules.maxLength, f.maxLength), 1, 255)
  }

  function PowOn(f: FiltersNode): bool
    requires f.Filters?
  {
    f.powEnabled.Is? ==> f.powEnabled.on
  }

  function BloomOn(f: FiltersNode): bool
    requires f.Filters?
  {
    f.bloomEnabled.Is? && f.bloomEnabled.on
  }

  /** Zero stands for the default. */
  function BloomSize(f: FiltersNode): u32
    requires f.Filters?
  {
    if Or(f.bloomSize, 1024) == 0 then 1024 else Or(f.bloomSize, 1024)
  }

  function BloomHashes(f: FiltersNode): u32
    requires f.Filters?
  {
    if Or(f.bloomHashes, 3) == 0 then 3 else Or(f.bloomHashes, 3)
  }

  predicate PowNodesOk(f: FiltersNode)
    requires f.Filters?
  {
    !f.powEnabled.BadFlag? && InRange(f.powDifficulty, 255) && InRange(f.powWindow, 0xffff)
  }

  predicate BloomNodesOk(f: FiltersNode)
    requires f.Filters?
  {
    && !f.bloomEnabled.BadFlag? && InRange(f.bloomSize, 0xffff_ffff) && InRange(f.bloomHashes, 255)
    && InRange(f.bloomWindow, 0xffff)
    && SeedsOk(f.seeds)
  }

  predicate FiltersOk(f: FiltersNode, mask: bv32)
    requires f.Filters?
  {
    PowNodesOk(f) && RulesOk(f.rules) && InRange(f.qps, 0xffff_ffff) && TypesNodeOk(f.types, mask) && BloomNodesOk(f)
  }

  /** Every setting that is present is well formed and fits its field. */
  predicate WellFormed(node: RouteNode) {
    && InRange(node.xskQueue, 0xffff_ffff)
    && InRange(node.kernelPort, 0xffff)
    && InRange(node.progIndex, 0xffff_ffff)
    && RulesOk(node.rules)
    && InRange(node.powDifficulty, 255)
    && MaskOk(node.allowTypes)
    && !node.filters.BadFilters?
    && FiltersOk(FiltersOf(node), MaskOf(node.allowTypes, DEFAULT_TYPES))
  }

  /** The ranges the data plane relies on. */
  predicate InLimits(node: RouteNode)
    requires WellFormed(node)
  {
    var f := FiltersOf(node);
    && 1 <= Labels(node).0 <= Labels(node).1 <= 127
    && 1 <= Lengths(node).0 <= Lengths(node).1 <= 255
    && (PowOn(f) ==> Or(Later(node.powDifficulty, f.powDifficulty), 0) <= 63)
    && (BloomOn(f) ==> 64 <= BloomSize(f) <= 65536 && BloomHashes(f) <= 8)
  }

  predicate Acceptable(node: RouteNode) {
    node.domain.Some? && node.domain.value != [] && node.target.Known? && WellFormed(node) && InLimits(node)
  }

  /** The route an acceptable node denotes. */
  function RouteOf(node: RouteNode, d: Defaults): Route
    requires Acceptable(node)
  {
    var f := FiltersOf(node);
    var domain := Truncated(node.domain.value, MAX_NAME);
    var seeds := SeedList(f.seeds);
    Route(
      domain := domain,
      hash := HashDomain(domain, d.algo),
      target := node.target.target,
      xskQueue := Or(node.xskQueue, 0),
      kernelPort := Or(node.kernelPort, d.kernelPort),
      progIndex := Or(node.progIndex, 0),
      progName := Text(node.progName, [], MAX_PROG_NAME),
      prefix := Text(f.rules.prefix, Text(node.rules.prefix, [], MAX_PATTERN), MAX_PATTERN),
      suffix := Text(f.rules.suffix, Text(node.rules.suffix, [], MAX_PATTERN), MAX_PATTERN),
      minLabels := Labels(node).0,
      maxLabels := Labels(node).1,
      minLength := Lengths(node).0,
      maxLength := Lengths(node).1,
      typeMask := Restricted(f.types, MaskOf(node.allowTypes, DEFAULT_TYPES)),
      powEnabled := PowOn(f),
      powDifficulty := if PowOn(f) then Or(Later(node.powDifficulty, f.powDifficulty), 0) else 0,
      powWindow := if PowOn(f) then Or(f.powWindow, 0) else 0,
      bloomEnabled := BloomOn(f),
      bloomSize := if BloomOn(f) then BloomSize(f) else 0,
      bloomHashes := if BloomOn(f) then BloomHashes(f) else 0,
      bloomWindow := if BloomOn(f) then Or(f.bloomWindow, 0) else 0,
      seeds := if !BloomOn(f) then [] else if seeds == [] then [domain] else seeds,
      qps := Or(f.qps, 0))
  }

  // The parser: a record of defaults, overwritten step by step.

  /** The ends of a range and which of them were given. */
  datatype Range = Range(hasMin: bool, hasMax: bool, min: u32, max: u32)

  const UNSET := Range(false, false, 0, 0)

  function Narrowed(r: Range, min: Num, max: Num): Range {
    Range(r.hasMin || min.Val?, r.hasMax || max.Val?, Or(min, r.min), Or(max, r.max))
  }

  function Completed(r: Range, hi: u32): Range {
    if !r.hasMin && !r.hasMax then r.(min := 1, max := hi)
    else if !r.hasMax then r.(max := r.min)
    else if !r.hasMin then r.(min := r.max)
    else r
  }

  /** Completing from flags and overwritten values is pairing the later settings. */
  lemma CompletedIsPaired(min: Num, min': Num, max: Num, max': Num, hi: u32, top: nat)
    requires InRange(min, top) && InRange(min', top) && InRange(max, top) && InRange(max', top)
    ensures var r := Completed(Narrowed(Narrowed(UNSET, min, max), min', max'), hi);
            (r.min, r.max) == Paired(Later(min, min'), Later(max, max'), 1, hi)
  {
  }

  datatype PowFields = PowFields(enabled: bool, difficulty: u32, window: u32)

  function PowAfter(pow: PowFields, f: FiltersNode): PowFields
    requires f.Filters?
  {
    PowFields(if f.powEnabled.Is? then f.powEnabled.on else pow.enabled,
              Or(f.powDifficulty, pow.difficulty), Or(f.powWindow, pow.window))
  }

  datatype BloomFields = BloomFields(enabled: bool, size: u32, hashes: u32, window: u32, seeds: seq<seq<byte>>)

  function BloomAfter(bloom: BloomFields, f: FiltersNode): BloomFields
    requires f.Filters? && SeedsOk(f.seeds)
  {
    BloomFields(if f.bloomEnabled.Is? then f.bloomEnabled.on else bloom.enabled,
                Or(f.bloomSize, bloom.size), Or(f.bloomHashes, bloom.hashes), Or(f.bloomWindow, bloom.window),
                if f.seeds.Seeds? then SeedList(f.seeds) else bloom.seeds)
  }

  /** The route record while it is being filled. */
  class RouteParser {
    var prefix: seq<byte>
    var suffix: seq<byte>
    var labels: Range
    var lengths: Range
    var typeMask: bv32
    var pow: PowFields
    var bloom: BloomFields
    var qps: u32

    predicate Fresh()
      reads this
    {
      && prefix == [] && suffix == [] && labels == UNSET && lengths == UNSET && typeMask == DEFAULT_TYPES
      && pow == PowFields(true, 0, 0) && bloom == BloomFields(false, 1024, 3, 0, []) && qps == 0
    }

    constructor ()
      ensures Fresh()
    {
      prefix, suffix, labels, lengths := [], [], UNSET, UNSET;
      typeMask := DEFAULT_TYPES;
      pow := PowFields(true, 0, 0);
      bloom := BloomFields(false, 1024, 3, 0, []);
      qps := 0;
    }

    method ParseRules(rules: Rules) returns (ok: bool)
      modifies `prefix, `suffix, `labels, `lengths
      ensures ok == RulesOk(rules)
      ensures ok ==> prefix == Text(rules.prefix, old(prefix), MAX_PATTERN)
      ensures ok ==> suffix == Text(rules.suffix, old(suffix), MAX_PATTERN)
      ensures ok ==> labels == Narrowed(old(labels), rules.minLabels, rules.maxLabels)
      ensures ok ==> lengths == Narrowed(old(lengths), rules.minLength, rules.maxLength)
    {
      hide Truncated;
      if rules.prefix.Some? {
        prefix := Truncated(rules.prefix.value, MAX_PATTERN);
      }
      if rules.suffix.Some? {
        suffix := Truncated(rules.suffix.value, MAX_PATTERN);
      }
      if !InRange(rules.minLabels, 255) {
        return false;
      }
      if rules.minLabels.Val? {
        labels := labels.(hasMin := true, min := rules.minLabels.n);
      }
      if !InRange(rules.maxLabels, 255) {
        return false;
      }
      if rules.maxLabels.Val? {
        labels := labels.(hasMax := true, max := rules.maxLabels.n);
      }
      if !InRange(rules.minLength, 0xffff) {
        return false;
      }
      if rules.minLength.Val? {
        lengths := lengths.(hasMin := true, min := rules.minLength.n);
      }
      if !InRange(rules.maxLength, 0xffff) {
        return false;
      }
      if rules.maxLength.Val? {
        lengths := lengths.(hasMax := true, max := rules.maxLength.n);
      }
      ok := true;
    }

    method ParseTypes(types: TypesNode) returns (ok: bool)
      modifies `typeMask
      ensures ok == TypesNodeOk(types, old(typeMask))
      ensures ok ==> typeMask == Restricted(types, old(typeMask))
    {
      hide MaskOk, MaskOf, Without;
      if types.NoTypes? {
        return true;
      }
      if types.BadTypes? {
        return false;
      }
      var allow := ParseMask(types.allow, typeMask);
      if allow.None? {
        return false;
      }
      var deny := ParseMask(types.deny, 0);
      if deny.None? {
        return false;
      }
      typeMask := Without(allow.value, deny.value);
      ok := typeMask != 0;
    }

    method ParseSeeds(node: SeedsNode) returns (ok: bool)
      modifies `bloom
      ensures ok == SeedsOk(node)
      ensures ok ==> bloom == if node.Seeds? then old(bloom).(seeds := SeedList(node)) else old(bloom)
    {
      if node.NoSeeds? {
        return true;
      }
      if node.BadSeeds? {
        return false;
      }
      var seeds: seq<seq<byte>> := [];
      for i := 0 to |node.entries|
        invariant |seeds| == i <= MAX_SEEDS
        invariant forall j :: 0 <= j < i ==> node.entries[j].Some? && node.entries[j].value != []
        invariant forall j :: 0 <= j < i ==> seeds[j] == Truncated(node.entries[j].value, MAX_NAME)
      {
        if |seeds| >= MAX_SEEDS {
          return false;
        }
        var entry := node.entries[i];
        if entry.None? || entry.value == [] {
          return false;
        }
        seeds := seeds + [Truncated(entry.value, MAX_NAME)];
      }
      bloom := bloom.(seeds := seeds);
      ok := true;
    }

    method ParsePow(f: FiltersNode) returns (ok: bool)
      requires f.Filters?
      modifies `pow
      ensures ok == PowNodesOk(f)
      ensures ok ==> pow == PowAfter(old(pow), f)
    {
      if f.powEnabled.BadFlag? {
        return false;
      }
      if f.powEnabled.Is? {
        pow := pow.(enabled := f.powEnabled.on);
      }
      if !InRange(f.powDifficulty, 255) {
        return false;
      }
      pow := pow.(difficulty := Or(f.powDifficulty, pow.difficulty));
      if !InRange(f.powWindow, 0xffff) {
        return false;
      }
      pow := pow.(window := Or(f.powWindow, pow.window));
      ok := true;
    }

    method ParseBloom(f: FiltersNode) returns (ok: bool)
      requires f.Filters?
      modifies `bloom
      ensures ok == BloomNodesOk(f)
      ensures ok ==> bloom == BloomAfter(old(bloom), f)
    {
      hide SeedsOk, SeedList;
      if f.bloomEnabled.BadFlag? {
        return false;
      }
      if f.bloomEnabled.Is? {
        bloom := bloom.(enabled := f.bloomEnabled.on);
      }
      if !InRange(f.bloomSize, 0xffff_ffff) {
        return false;
      }
      bloom := bloom.(size := Or(f.bloomSize, bloom.size));
      if !InRange(f.bloomHashes, 255) {
        return false;
      }
      bloom := bloom.(hashes := Or(f.bloomHashes, bloom.hashes));
      if !InRange(f.bloomWindow, 0xffff) {
        return false;
      }
      bloom := bloom.(window := Or(f.bloomWindow, bloom.window));
      ok := ParseSeeds(f.seeds);
    }

    /** The filter section; an absent section is one that sets nothing. */
    method ParseFilters(f: FiltersNode) returns (ok: bool)
      requires f.Filters?
      modifies this
      ensures ok == FiltersOk(f, old(typeMask))
      ensures ok ==> prefix == Text(f.rules.prefix, old(prefix), MAX_PATTERN)
      ensures ok ==> suffix == Text(f.rules.suffix, old(suffix), MAX_PATTERN)
      ensures ok ==> labels == Narrowed(old(labels), f.rules.minLabels, f.rules.maxLabels)
      ensures ok ==> lengths == Narrowed(old(lengths), f.rules.minLength, f.rules.maxLength)
      ensures ok ==> typeMask == Restricted(f.types, old(typeMask))
      ensures ok ==> pow == PowAfter(old(pow), f)
      ensures ok ==> bloom == BloomAfter(old(bloom), f)
      ensures ok ==> qps == Or(f.qps, old(qps))
    {
      hide PowNodesOk, RulesOk, TypesNodeOk, Text, Restricted, SeedList, SeedsOk, Narrowed, PowAfter, BloomAfter;
      ok := ParsePow(f);
      if !ok {
        return;
      }
      ok := ParseRules(f.rules);
      if !ok || !InRange(f.qps, 0xffff_ffff) {
        return false;
      }
      qps := Or(f.qps, qps);
      ok := ParseTypes(f.types);
      if !ok {
        return;
      }
      ok := ParseBloom(f);
    }

    /** Completes the two ranges from the flags. */
    method CompleteRanges()
      modifies `labels, `lengths
      ensures labels == Completed(old(labels), 127) && lengths == Completed(old(lengths), 255)
    {
      if !labels.hasMin && !labels.hasMax {
        labels := labels.(min := 1, max := 127);
      } else if labels.hasMin && !labels.hasMax {
        labels := labels.(max := labels.min);
      } else if !labels.hasMin && labels.hasMax {
        labels := labels.(min := labels.max);
      }
      if !lengths.hasMin && !lengths.hasMax {
        lengths := lengths.(min := 1, max := 255);
      } else if lengths.hasMin && !lengths.hasMax {
        lengths := lengths.(max := lengths.min);
      } else if !lengths.hasMin && lengths.hasMax {
        lengths := lengths.(min := lengths.max);
      }
    }

    /** Range checks, disabled filters cleared, Bloom defaults filled in. */
    method Validate(domain: seq<byte>) returns (ok: bool)
      modifies `pow, `bloom
      ensures ok == (&& 1 <= labels.min <= labels.max <= 127
                     && 1 <= lengths.min <= lengths.max <= 255
                     && (old(pow.enabled) ==> old(pow.difficulty) <= 63)
                     && (old(bloom.enabled) ==>
                           (old(bloom.size) == 0 || 64 <= old(bloom.size) <= 65536) && old(bloom.hashes) <= 8))
      ensures ok ==> pow == if old(pow.enabled) then old(pow) else PowFields(false, 0, 0)
      ensures ok ==> bloom == if old(bloom.enabled) then BloomFilled(old(bloom), domain) else NO_BLOOM
    {
      if labels.min == 0 || labels.max == 0 || labels.min > labels.max || labels.max > 127 {
        return false;
      }
      if lengths.min == 0 || lengths.max > 255 || lengths.min > lengths.max {
        return false;
      }
      if !pow.enabled {
        pow := pow.(difficulty := 0, window := 0);
      }
      if pow.difficulty > 63 {
        return false;
      }
      if !bloom.enabled {
        bloom := bloom.(size := 0, hashes := 0, window := 0, seeds := []);
      } else {
        if bloom.size == 0 {
          bloom := bloom.(size := 1024);
        }
        if bloom.hashes == 0 {
          bloom := bloom.(hashes := 3);
        }
        if bloom.size > 65536 || bloom.size < 64 {
          return false;
        }
        if bloom.hashes > 8 {
          return false;
        }
        if |bloom.seeds| == 0 {
          bloom := bloom.(seeds := [domain]);
        }
      }
      ok := true;
    }
  }

  const NO_BLOOM := BloomFields(false, 0, 0, 0, [])

  /** Zero means the default; no seeds means the route's own domain. */
  function BloomFilled(b: BloomFields, domain: seq<byte>): BloomFields {
    b.(size := if b.size == 0 then 1024 else b.size,
       hashes := if b.hashes == 0 then 3 else b.hashes,
       seeds := if b.seeds == [] then [domain] else b.seeds)
  }

  /** One record type or a list of them, or-ed together; an unknown type or an empty list is an error. */
  method ParseMask(node: MaskNode, default: bv32) returns (mask: Option<bv32>)
    ensures mask == if MaskOk(node) then Some(MaskOf(node, default)) else None
  {
    match node
    case NoMask => mask := Some(default);
    case BadMask => mask := None;
    case One(rr) => mask := if rr == Unknown then None else Some(RrMask(rr));
    case Many(rrs) =>
      var out: bv32 := 0;
      for i := 0 to |rrs|
        invariant out == MaskOfAll(rrs[..i]) && Unknown !in rrs[..i]
      {
        if rrs[i] == Unknown {
          return None;
        }
        assert rrs[..i + 1][..i] == rrs[..i];
        out := out | RrMask(rrs[i]);
      }
      assert rrs[..|rrs|] == rrs;
      KnownMaskNonZero(rrs);
      mask := if out == 0 then None else Some(out);
  }

  lemma KnownMaskNonZero(rrs: seq<RrType>)
    requires Unknown !in rrs
    ensures MaskOfAll(rrs) == 0 <==> rrs == []
  {
    if rrs != [] {
      MaskOfAllBits(rrs, rrs[0]);
      NoTypeSet(rrs[0]);
    }
  }

  lemma AndZero(m: bv32)
    ensures 0 & m == 0
  {
  }

  predicate SectionsOk(node: RouteNode) {
    && RulesOk(node.rules) && InRange(node.powDifficulty, 255) && MaskOk(node.allowTypes)
    && !node.filters.BadFilters?
    && FiltersOk(FiltersOf(node), MaskOf(node.allowTypes, DEFAULT_TYPES))
  }

  /** The rules of the route, then its filter section, then the completed ranges. */
  method ParseSections(parser: RouteParser, node: RouteNode) returns (ok: bool)
    requires parser.Fresh()
    modifies parser
    ensures ok == SectionsOk(node)
    ensures ok ==>
              var f := FiltersOf(node);
              && parser.prefix == Text(f.rules.prefix, Text(node.rules.prefix, [], MAX_PATTERN), MAX_PATTERN)
              && parser.suffix == Text(f.rules.suffix, Text(node.rules.suffix, [], MAX_PATTERN), MAX_PATTERN)
              && (parser.labels.min, parser.labels.max) == Labels(node)
              && (parser.lengths.min, parser.lengths.max) == Lengths(node)
              && parser.typeMask == Restricted(f.types, MaskOf(node.allowTypes, DEFAULT_TYPES))
              && parser.pow == PowAfter(PowFields(true, Or(node.powDifficulty, 0), 0), f)
              && parser.bloom == BloomAfter(BloomFields(false, 1024, 3, 0, []), f)
              && parser.qps == Or(f.qps, 0)
  {
    hide MaskOk, MaskOf, Text, Restricted, FiltersOk, FiltersOf, PowAfter, BloomAfter, Completed, Paired, Narrowed;
    ok := parser.ParseRules(node.rules);
    if !ok || !InRange(node.powDifficulty, 255) {
      return false;
    }
    parser.pow := parser.pow.(difficulty := Or(node.powDifficulty, parser.pow.difficulty));
    var mask := ParseMask(node.allowTypes, parser.typeMask);
    if mask.None? || node.filters.BadFilters? {
      return false;
    }
    parser.typeMask := mask.value;
    ok := parser.ParseFilters(FiltersOf(node));
    if !ok {
      return;
    }
    parser.CompleteRanges();
    RangesCompleted(node);
  }

  lemma RangesCompleted(node: RouteNode)
    requires SectionsOk(node)
    ensures var r, f := node.rules, FiltersOf(node).rules;
            var labels := Completed(Narrowed(Narrowed(UNSET, r.minLabels, r.maxLabels), f.minLabels, f.maxLabels), 127);
            var lengths :=
              Completed(Narrowed(Narrowed(UNSET, r.minLength, r.maxLength), f.minLength, f.maxLength), 255);
            (labels.min, labels.max) == Labels(node) && (lengths.min, lengths.max) == Lengths(node)
  {
    hide Completed, Narrowed, Paired, MaskOk, MaskOf, Restricted, SeedsOk;
    var r, f := node.rules, FiltersOf(node).rules;
    CompletedIsPaired(r.minLabels, f.minLabels, r.maxLabels, f.maxLabels, 127, 255);
    CompletedIsPaired(r.minLength, f.minLength, r.maxLength, f.maxLength, 255, 0xffff);
  }

  /** A node is accepted exactly when it is acceptable, and then it yields the route it denotes. */
  method ParseRoute(node: RouteNode, d: Defaults) returns (route: Option<Route>)
    requires CStrings(node)
    ensures route == if Acceptable(node) then Some(RouteOf(node, d)) else None
  {
    hide HashDomain, MaskOk, MaskOf, Restricted, TypesNodeOk, SeedsOk, SeedList, Text, Paired, Later;
    var parser := new RouteParser();
    if node.domain.None? || node.domain.value == [] || !node.target.Known? {
      return None;
    }
    var domain := Truncated(node.domain.value, MAX_NAME);
    var hash := ComputeDomainHash(domain, d.algo);
    if || !InRange(node.xskQueue, 0xffff_ffff)
       || !InRange(node.kernelPort, 0xffff)
       || !InRange(node.progIndex, 0xffff_ffff) {
      return None;
    }
    var ok := ParseSections(parser, node);
    if !ok {
      return None;
    }
    ghost var f := FiltersOf(node);
    LaterOr(node.powDifficulty, f.powDifficulty);
    NoSeedsListed(f.seeds);
    ok := parser.Validate(domain);
    if !ok {
      return None;
    }
    route := Some(Route(
      domain, hash, node.target.target, Or(node.xskQueue, 0), Or(node.kernelPort, d.kernelPort), Or(node.progIndex, 0),
      Text(node.progName, [], MAX_PROG_NAME), parser.prefix, parser.suffix, parser.labels.min, parser.labels.max,
      parser.lengths.min, parser.lengths.max, parser.typeMask, parser.pow.enabled, parser.pow.difficulty,
      parser.pow.window, parser.bloom.enabled, parser.bloom.size, parser.bloom.hashes, parser.bloom.window,
      parser.bloom.seeds, parser.qps));
  }

  lemma LaterOr(first: Num, second: Num)
    requires !first.Bad? && !second.Bad?
    ensures Or(Later(first, second), 0) == Or(second, Or(first, 0))
  {
  }

  lemma NoSeedsListed(node: SeedsNode)
    requires SeedsOk(node)
    ensures !node.Seeds? ==> SeedList(node) == []
  {
  }

  /** What every accepted route guarantees to the code generator, the loader and the data plane. */
  predicate RouteInvariant(r: Route, algo: Algorithm) {
    && 0 < |r.domain| <= MAX_NAME
    && r.hash == HashDomain(r.domain, algo)
    && |r.prefix| <= MAX_PATTERN && |r.suffix| <= MAX_PATTERN && |r.progName| <= MAX_PROG_NAME
    && 1 <= r.minLabels <= r.maxLabels <= 127
    && 1 <= r.minLength <= r.maxLength <= 255
    && r.typeMask != 0 && KnownBits(r.typeMask)
    && r.powDifficulty <= 63
    && (r.bloomEnabled ==> 64 <= r.bloomSize <= 65536 && 1 <= r.bloomHashes <= 8 && 1 <= |r.seeds| <= MAX_SEEDS)
    && (!r.bloomEnabled ==> r.bloomSize == 0 && r.bloomHashes == 0 && r.seeds == [])
    && NulFree(r.domain) && NulFree(r.prefix) && NulFree(r.suffix) && NulFree(r.progName)
    && (forall s :: s in r.seeds ==> NulFree(s))
  }

  /** Only the four record types have bits. */
  predicate KnownBits(mask: bv32) {
    mask & 0xf == mask
  }

  lemma {:induction false} MaskOfAllKnown(rrs: seq<RrType>)
    ensures KnownBits(MaskOfAll(rrs))
  {
    if rrs != [] {
      MaskOfAllKnown(rrs[..|rrs| - 1]);
      KnownBitsOr(MaskOfAll(rrs[..|rrs| - 1]), RrMask(rrs[|rrs| - 1]));
    }
  }

  lemma KnownBitsOr(x: bv32, y: bv32)
    requires KnownBits(x) && KnownBits(y)
    ensures KnownBits(x | y)
  {
  }

  lemma KnownBitsWithout(x: bv32, y: bv32)
    requires KnownBits(x)
    ensures KnownBits(Without(x, y))
  {
  }

  lemma MaskUseful(node: MaskNode, default: bv32)
    requires MaskOk(node) && default != 0 && KnownBits(default)
    ensures MaskOf(node, default) != 0 && KnownBits(MaskOf(node, default))
  {
    if node.Many? {
      KnownMaskNonZero(node.rrs);
      MaskOfAllKnown(node.rrs);
    }
  }

  lemma DefaultTypesKnown()
    ensures KnownBits(DEFAULT_TYPES)
  {
  }

  lemma AcceptedStrings(node: RouteNode, d: Defaults)
    requires Acceptable(node) && CStrings(node)
    ensures var r := RouteOf(node, d);
            && NulFree(r.domain) && NulFree(r.prefix) && NulFree(r.suffix) && NulFree(r.progName)
            && (forall s :: s in r.seeds ==> NulFree(s))
  {
    hide HashDomain, MaskOk, MaskOf, Without, InRange, Paired;
  }

  lemma AcceptedRouteInvariant(node: RouteNode, d: Defaults)
    requires Acceptable(node) && CStrings(node)
    ensures RouteInvariant(RouteOf(node, d), d.algo)
  {
    hide HashDomain, MaskOk, MaskOf, Without, KnownBits;
    var types, mask := FiltersOf(node).types, MaskOf(node.allowTypes, DEFAULT_TYPES);
    AcceptedStrings(node, d);
    DefaultTypesKnown();
    MaskUseful(node.allowTypes, DEFAULT_TYPES);
    if types.Types? {
      MaskUseful(types.allow, mask);
      KnownBitsWithout(MaskOf(types.allow, mask), MaskOf(types.deny, 0));
    }
  }

  // The whole configuration, as far as the data plane depends on it.

  datatype OpcodesNode = NoOpcodes | BadOpcodes | OneOpcode(code: Num) | ManyOpcodes(codes: seq<Num>)

  predicate CodeOk(code: Num) {
    code.Val? && code.n <= 15
  }

  function CodeSet(codes: seq<Num>): set<nat> {
    set c | c in codes && c.Val? :: c.n
  }

  /** The mask of allowed opcodes, as the set of its bit positions. */
  method ParseAllowedOpcodes(node: OpcodesNode) returns (mask: Option<set<nat>>)
    ensures mask == OpcodesOf(node)
  {
    match node
    case NoOpcodes => mask := Some({0});
    case BadOpcodes => mask := None;
    case OneOpcode(code) =>
      mask := if CodeOk(code) then Some({code.n}) else None;
    case ManyOpcodes(codes) =>
      var out: set<nat> := {};
      for i := 0 to |codes|
        invariant forall j :: 0 <= j < i ==> CodeOk(codes[j])
        invariant out == CodeSet(codes[..i])
      {
        if !codes[i].Val? || codes[i].n > 15 {
          assert !CodeOk(codes[i]);
          return None;
        }
        assert codes[..i + 1] == codes[..i] + [codes[i]];
        out := out + {codes[i].n};
      }
      assert codes[..|codes|] == codes;
      if |codes| > 0 {
        assert codes[0] in codes;
        assert codes[0].n in out;
      }
      mask := Some(if out == {} then {0} else out);
  }

  /** Default: standard queries only, also for an empty list. */
  function OpcodesOf(node: OpcodesNode): Option<set<nat>> {
    match node
    case NoOpcodes => Some({0})
    case BadOpcodes => None
    case OneOpcode(code) => if CodeOk(code) then Some({code.n}) else None
    case ManyOpcodes(codes) =>
      if exists j :: 0 <= j < |codes| && !CodeOk(codes[j]) then None
      else if codes == [] then Some({0})
      else Some(CodeSet(codes))
  }

  lemma OpcodesInRange(node: OpcodesNode)
    requires OpcodesOf(node).Some?
    ensures OpcodesOf(node).value != {} && forall c :: c in OpcodesOf(node).value ==> c <= 15
  {
    if node.ManyOpcodes? && node.codes != [] {
      var c := node.codes[0];
      assert c in node.codes && c.Val?;
      assert c.n in OpcodesOf(node).value;
    }
  }

  /** At least one route and at most as many as there are slots; the first bad one rejects all. */
  method ParseRoutes(nodes: seq<RouteNode>, d: Defaults) returns (routes: Option<seq<Route>>)
    requires forall n :: n in nodes ==> CStrings(n)
    ensures routes.Some? <==> 1 <= |nodes| <= MAX_ROUTES && forall i :: 0 <= i < |nodes| ==> Acceptable(nodes[i])
    ensures routes.Some? ==> |routes.value| == |nodes|
    ensures routes.Some? ==> forall i :: 0 <= i < |nodes| ==> routes.value[i] == RouteOf(nodes[i], d)
    ensures routes.Some? ==> forall r :: r in routes.value ==> RouteInvariant(r, d.algo)
  {
    hide Acceptable, RouteOf, RouteInvariant;
    var out: seq<Route> := [];
    for i := 0 to |nodes|
      invariant |out| == i <= MAX_ROUTES
      invariant forall j :: 0 <= j < i ==> Acceptable(nodes[j]) && out[j] == RouteOf(nodes[j], d)
      invariant forall r :: r in out ==> RouteInvariant(r, d.algo)
    {
      if |out| >= MAX_ROUTES {
        return None;
      }
      assert nodes[i] in nodes;
      var route := ParseRoute(nodes[i], d);
      if route.None? {
        return None;
      }
      AcceptedRouteInvariant(nodes[i], d);
      out := out + [route.value];
    }
    routes := if out == [] then None else Some(out);
  }
}
