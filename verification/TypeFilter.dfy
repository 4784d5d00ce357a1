/** The record types of the configuration against the type numbers on the wire (section 3.2.2 of RFC 1035, RFC 3596). */
module TypeFilter {
  import opened Bytes
  import opened ConfigParser
  import opened Routes
  import opened DomainHash
  import opened Filters
  import opened Codegen
  import DnsQuestion

  function WireType(rr: RrType): u16
    requires rr != Unknown
  {
    match rr
    case A => 1
    case Aaaa => 28
    case Txt => 16
    case Any => 255
  }

  /** A query passes the type test exactly when its number is that of a type whose bit is set. */
  lemma TypeAllowedIff(qtype: u16, mask: bv32)
    ensures TypeAllowed(qtype, mask) <==> exists rr :: rr != Unknown && WireType(rr) == qtype && HasType(mask, rr)
  {
    assert TypeAllowed(qtype, mask) ==> qtype == 1 || qtype == 28 || qtype == 16 || qtype == 255;
    forall rr | rr != Unknown && WireType(rr) == qtype
      ensures TypeAllowed(qtype, mask) <==> HasType(mask, rr)
    {
    }
    assert WireType(A) == 1 && WireType(Aaaa) == 28 && WireType(Txt) == 16 && WireType(Any) == 255;
  }

  lemma WireTypesDiffer(a: RrType, b: RrType)
    requires a != Unknown && b != Unknown && WireType(a) == WireType(b)
    ensures a == b
  {
  }

  /** So a type passes a mask made of a list exactly when it is listed. */
  lemma ListedTypePasses(rrs: seq<RrType>, rr: RrType)
    requires rr != Unknown
    ensures TypeAllowed(WireType(rr), MaskOfAll(rrs)) <==> rr in rrs
  {
    hide TypeAllowed, HasType, MaskOfAll;
    TypeAllowedIff(WireType(rr), MaskOfAll(rrs));
    MaskOfAllBits(rrs, rr);
    forall other | other != Unknown && WireType(other) == WireType(rr)
      ensures other == rr
    {
      WireTypesDiffer(other, rr);
    }
  }

  // From the configuration.

  /** The types a node names, or the given ones when it names none. */
  function Named(node: MaskNode, otherwise: set<RrType>): set<RrType> {
    match node
    case One(rr) => {rr}
    case Many(rrs) => set rr | rr in rrs
    case _ => otherwise
  }

  /** The types a route is configured for: the last list of allowed types, without the denied ones. */
  function ConfiguredTypes(node: RouteNode): set<RrType>
    requires !node.filters.BadFilters?
  {
    var listed := Named(node.allowTypes, {A, Aaaa, Txt});
    var types := FiltersOf(node).types;
    if types.Types? then Named(types.allow, listed) - Named(types.deny, {}) else listed
  }

  /** The mask says of every type whether it is in the set. */
  ghost predicate Denotes(mask: bv32, types: set<RrType>) {
    forall rr :: rr != Unknown ==> (HasType(mask, rr) <==> rr in types)
  }

  lemma NamedDenotes(node: MaskNode, mask: bv32, types: set<RrType>)
    requires MaskOk(node) && Denotes(mask, types)
    ensures Denotes(MaskOf(node, mask), Named(node, types))
  {
    hide HasType, RrMask, MaskOfAll;
    match node
    case One(one) =>
      forall rr | rr != Unknown
        ensures HasType(RrMask(one), rr) <==> rr == one
      {
        OneTypeMask(one, rr);
      }
    case Many(rrs) =>
      forall rr | rr != Unknown
        ensures HasType(MaskOfAll(rrs), rr) <==> rr in rrs
      {
        MaskOfAllBits(rrs, rr);
      }
    case _ =>
  }

  lemma OneTypeMask(one: RrType, rr: RrType)
    requires rr != Unknown
    ensures HasType(RrMask(one), rr) <==> rr == one
  {
  }

  lemma WithoutType(allow: bv32, deny: bv32, rr: RrType)
    requires rr != Unknown
    ensures HasType(Without(allow, deny), rr) <==> HasType(allow, rr) && !HasType(deny, rr)
  {
    match rr
    case A =>
    case Aaaa =>
    case Txt =>
    case Any =>
  }

  lemma DefaultsDenote()
    ensures Denotes(DEFAULT_TYPES, {A, Aaaa, Txt}) && Denotes(0, {})
  {
  }

  /** A query meets the type test of an accepted route exactly when its type is configured and not denied. */
  lemma RouteTypes(node: RouteNode, d: Defaults, qtype: u16)
    requires Acceptable(node)
    ensures TypeAllowed(qtype, RouteOf(node, d).typeMask) <==>
            exists rr :: rr != Unknown && rr in ConfiguredTypes(node) && WireType(rr) == qtype
  {
    hide HasType, MaskOk, MaskOf, Without, Named, HashDomain, Paired, TypeAllowed, InRange;
    var types, mask := FiltersOf(node).types, MaskOf(node.allowTypes, DEFAULT_TYPES);
    var listed := Named(node.allowTypes, {A, Aaaa, Txt});
    DefaultsDenote();
    NamedDenotes(node.allowTypes, DEFAULT_TYPES, {A, Aaaa, Txt});
    if types.Types? {
      NamedDenotes(types.allow, mask, listed);
      NamedDenotes(types.deny, 0, {});
      forall rr | rr != Unknown
        ensures HasType(Restricted(types, mask), rr) <==> rr in ConfiguredTypes(node)
      {
        WithoutType(MaskOf(types.allow, mask), MaskOf(types.deny, 0), rr);
      }
    }
    assert Denotes(RouteOf(node, d).typeMask, ConfiguredTypes(node));
    TypeAllowedIff(qtype, RouteOf(node, d).typeMask);
  }
}
