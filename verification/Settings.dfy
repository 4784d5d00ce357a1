/** Each setting of the configuration reaches its own field of the route, and no other. */
module Settings {
  import opened Bytes
  import opened Routes
  import opened DomainHash
  import opened ConfigParser

  /** Settings of the route itself. */
  lemma NumberSettings(node: RouteNode, d: Defaults, n: u32)
    requires Acceptable(node)
    ensures var node' := node.(xskQueue := Val(n));
            Acceptable(node') && RouteOf(node', d) == RouteOf(node, d).(xskQueue := n)
    ensures n <= 0xffff ==>
              var node' := node.(kernelPort := Val(n));
              Acceptable(node') && RouteOf(node', d) == RouteOf(node, d).(kernelPort := n)
    ensures var node' := node.(progIndex := Val(n));
            Acceptable(node') && RouteOf(node', d) == RouteOf(node, d).(progIndex := n)
  {
    hide HashDomain, MaskOk, MaskOf, Restricted, SeedsOk, SeedList, Paired, Later;
  }

  lemma TargetSettings(node: RouteNode, d: Defaults, t: Target, name: seq<byte>)
    requires Acceptable(node)
    ensures var node' := node.(target := Known(t));
            Acceptable(node') && RouteOf(node', d) == RouteOf(node, d).(target := t)
    ensures |name| <= MAX_PROG_NAME ==>
              var node' := node.(progName := Some(name));
              Acceptable(node') && RouteOf(node', d) == RouteOf(node, d).(progName := name)
  {
    hide HashDomain, MaskOk, MaskOf, Restricted, SeedsOk, SeedList, Paired, Later;
  }

  /** The node with one more filter setting. */
  function WithFilters(node: RouteNode, f: FiltersNode): RouteNode {
    node.(filters := f)
  }

  /** Settings of the filter section that do not depend on others. */
  lemma RateSettings(node: RouteNode, d: Defaults, n: u32)
    requires Acceptable(node)
    ensures var f := FiltersOf(node);
            var node' := WithFilters(node, f.(qps := Val(n)));
            Acceptable(node') && RouteOf(node', d) == RouteOf(node, d).(qps := n)
  {
    hide HashDomain, MaskOk, MaskOf, Restricted, SeedsOk, SeedList, Paired, Later;
  }

  lemma PatternSettings(node: RouteNode, d: Defaults, text: seq<byte>)
    requires Acceptable(node) && |text| <= MAX_PATTERN
    ensures var f := FiltersOf(node);
            var node' := WithFilters(node, f.(rules := f.rules.(prefix := Some(text))));
            Acceptable(node') && RouteOf(node', d) == RouteOf(node, d).(prefix := text)
    ensures var f := FiltersOf(node);
            var node' := WithFilters(node, f.(rules := f.rules.(suffix := Some(text))));
            Acceptable(node') && RouteOf(node', d) == RouteOf(node, d).(suffix := text)
  {
    hide HashDomain, MaskOk, MaskOf, Restricted, SeedsOk, SeedList, Paired, Later;
  }

  /** Settings of the proof of work count only when it is on. */
  lemma PowSettings(node: RouteNode, d: Defaults, n: u16)
    requires Acceptable(node)
    ensures var f := FiltersOf(node);
            var node' := WithFilters(node, f.(powWindow := Val(n)));
            && Acceptable(node')
            && RouteOf(node', d) == RouteOf(node, d).(powWindow := if PowOn(f) then n else 0)
    ensures var f := FiltersOf(node);
            var node' := WithFilters(node, f.(powDifficulty := Val(n)));
            PowOn(f) && n <= 63 ==>
              Acceptable(node') && RouteOf(node', d) == RouteOf(node, d).(powDifficulty := n)
  {
    hide HashDomain, MaskOk, MaskOf, Restricted, SeedsOk, SeedList, Paired;
  }

  /** Settings of the Bloom filter count only when it is on. */
  lemma BloomSettings(node: RouteNode, d: Defaults, n: u16)
    requires Acceptable(node)
    ensures var f := FiltersOf(node);
            var node' := WithFilters(node, f.(bloomWindow := Val(n)));
            && Acceptable(node')
            && RouteOf(node', d) == RouteOf(node, d).(bloomWindow := if BloomOn(f) then n else 0)
    ensures var f := FiltersOf(node);
            var node' := WithFilters(node, f.(bloomHashes := Val(n)));
            BloomOn(f) && 1 <= n <= 8 ==>
              Acceptable(node') && RouteOf(node', d) == RouteOf(node, d).(bloomHashes := n)
    ensures var f := FiltersOf(node);
            var node' := WithFilters(node, f.(bloomSize := Val(n)));
            BloomOn(f) && 64 <= n ==>
              Acceptable(node') && RouteOf(node', d) == RouteOf(node, d).(bloomSize := n)
  {
    hide HashDomain, MaskOk, MaskOf, Restricted, SeedsOk, SeedList, Paired, Later;
  }

  /** Seeds of up to 255 bytes are taken as they are; longer ones are cut. */
  lemma SeedSettings(node: RouteNode, d: Defaults, seeds: seq<seq<byte>>)
    requires Acceptable(node) && BloomOn(FiltersOf(node)) && 1 <= |seeds| <= 32
    requires forall i :: 0 <= i < |seeds| ==> seeds[i] != []
    ensures var entries := seq(|seeds|, i requires 0 <= i < |seeds| => Some(seeds[i]));
            var node' := WithFilters(node, FiltersOf(node).(seeds := Seeds(entries)));
            && Acceptable(node')
            && |RouteOf(node', d).seeds| == |seeds|
            && RouteOf(node', d) == RouteOf(node, d).(seeds := RouteOf(node', d).seeds)
            && forall i :: 0 <= i < |seeds| ==>
                 RouteOf(node', d).seeds[i] == if |seeds[i]| <= 255 then seeds[i] else seeds[i][..255]
  {
    hide HashDomain, MaskOk, MaskOf, Restricted, Paired, Later;
  }

  /** A range setting with both ends sets both. */
  lemma RangeSettings(node: RouteNode, d: Defaults, lo: u16, hi: u16)
    requires Acceptable(node) && 1 <= lo <= hi
    ensures hi <= 127 ==>
              var f := FiltersOf(node);
              var node' := WithFilters(node, f.(rules := f.rules.(minLabels := Val(lo), maxLabels := Val(hi))));
              Acceptable(node') && RouteOf(node', d) == RouteOf(node, d).(minLabels := lo, maxLabels := hi)
    ensures hi <= 255 ==>
              var f := FiltersOf(node);
              var node' := WithFilters(node, f.(rules := f.rules.(minLength := Val(lo), maxLength := Val(hi))));
              Acceptable(node') && RouteOf(node', d) == RouteOf(node, d).(minLength := lo, maxLength := hi)
  {
    hide HashDomain, MaskOk, MaskOf, Restricted, SeedsOk, SeedList;
  }

  /** A route that sets nothing but its domain and target. */
  function Bare(domain: seq<byte>, t: Target): RouteNode {
    RouteNode(Some(domain), Known(t), Absent, Absent, Absent, None, NO_RULES, Absent, NoMask, NoFilters)
  }

  /** ... has these values, and with the Bloom filter switched on these in addition. */
  lemma BareRoute(domain: seq<byte>, t: Target, d: Defaults)
    requires 0 < |domain| <= MAX_NAME
    ensures Acceptable(Bare(domain, t))
    ensures RouteOf(Bare(domain, t), d) ==
            Route(domain, HashDomain(domain, d.algo), t, 0, d.kernelPort, 0, [], [], [], 1, 127, 1, 255, 0x7,
                  true, 0, 0, false, 0, 0, 0, [], 0)
    ensures var node := Bare(domain, t).(filters := EMPTY_FILTERS.(bloomEnabled := Is(true)));
            && Acceptable(node)
            && RouteOf(node, d) ==
               RouteOf(Bare(domain, t), d).(
                 bloomEnabled := true, bloomSize := 1024, bloomHashes := 3, seeds := [domain])
  {
    hide HashDomain;
  }

  /** The bare route with these rules, in its own section or among its filters. */
  function BareWith(domain: seq<byte>, t: Target, rules: Rules, among: bool): RouteNode {
    if among then Bare(domain, t).(filters := EMPTY_FILTERS.(rules := rules)) else Bare(domain, t).(rules := rules)
  }

  /** A range of which one end is given is that single value, at either end and in either place. */
  lemma OneEnd(domain: seq<byte>, t: Target, d: Defaults, n: u16, rules: Rules, among: bool)
    requires 0 < |domain| <= MAX_NAME && 1 <= n <= 127
    ensures rules in {NO_RULES.(minLabels := Val(n)), NO_RULES.(maxLabels := Val(n))} ==>
              var node := BareWith(domain, t, rules, among);
              Acceptable(node) && RouteOf(node, d) == RouteOf(Bare(domain, t), d).(minLabels := n, maxLabels := n)
    ensures rules in {NO_RULES.(minLength := Val(n)), NO_RULES.(maxLength := Val(n))} ==>
              var node := BareWith(domain, t, rules, among);
              Acceptable(node) && RouteOf(node, d) == RouteOf(Bare(domain, t), d).(minLength := n, maxLength := n)
  {
    hide HashDomain;
  }
}
