# Zereh: a verified model of the routing core

Zereh compiles a routing configuration into an XDP program. The program parses DNS queries on the wire, hashes the
query name, dispatches on the hash with a suffix fallback, filters by shape, rate, proof of work and Bloom membership,
and may rewrite the packet. This project models that pipeline on both sides, the control plane (configuration parser,
hashes, code generator, loader) and the data plane (frame and question parser, filters, rewrite, dispatch), and proves
that the two sides agree and that whole packets and whole runs behave as intended.

## How it is organised

| file | content |
|---|---|
| Bytes, Widening, Formats | bytes, machine words, letter case, integers as 64-bit words, printed numbers |
| Fnv, SipHash, SipHashExample, DomainHash | the two hash algorithms in both planes, domain normalisation, agreement of the planes |
| DnsQuestion, DnsParser, CaseFolding, Labels | the wire format by an encoder, the one-pass parser, questions up to letter case, names against labels |
| Mixer, ProofOfWork, Bloom, BloomCount, RateLimit, Filters | the filters of the data plane and the loader's Bloom seeding |
| Checksum, KernelSpace | Internet checksums, their incremental update, the in-place rewrite |
| TextBuffer, CText, Substitution | the growable buffer, C string literals, template filling |
| Tokens, SourceText, GeneratedSource | the nine tokens, the printed C text, the generated source |
| CReader, PrintedMeaning, SourceMeaning | a reader for the printed C, and what the printed text and the whole source mean |
| Routes, ConfigParser, Settings, TypeFilter, ProgArray | routes, validation of the configuration, its settings and record types, the tail-call array |
| Codegen, Interpreter | generated programs, their meaning, the reference router, and running them in place |
| DataPlane, QueryFrame | the entry point, and frames that carry a given question |
| Deployment | the whole configuration, and start-up from it |
| EndToEnd, Fallback, Guards, Coverage, Runs, Constants | results that span several components, and the numbers of the source |

The main results are `Runs.RouteLimitHoldsOverRuns`, `DataPlane.CaseNeverMatters`,
`Codegen.GeneratedMeansReference`, `DataPlane.XdpRouter`, `DnsParser.ParseDnsQuery`, `ProofOfWork.PassingHashesCount`,
`GeneratedSource.SourceIsFilledIff`, `SourceMeaning.SourceMeansGenerated`, `Fallback.FallbackIgnoresLabelBoundaries`, `Guards.RunsNeverTrap`,
`EndToEnd.RoutingKeepsChecksums`, `EndToEnd.ConfiguredSeedPassesBloom` and
`EndToEnd.ConfiguredNameReachesItsRoute`.

## Choices of the model

- Bytes, lengths and counters are bounded integers; 64-bit hash words and type masks are bit vectors, so wrap-around is
  exact. An opcode mask is the set of its bit positions.
- A C string is its bytes before the terminator. `tolower` is that of the C locale.
- Checksum words are loaded as a little-endian host loads them. `Checksum.ChecksumOkByHostSum` and
  `Checksum.ReplaceCommutesWithSwap` show that byte order changes nothing.
- The clock is an input. The limiter, the proof of work and the Bloom test read it separately, and the loader's wall
  clock is unrelated to it.
- A generated program is a flat statement list with case labels and fall-through, a list of suffix blocks and a default
  verdict. String literals stay escaped in it, and executing it lexes them. Duplicate case labels have no meaning, as
  they do not compile.
- A rate table is one CPU's copy of the per-route state. The Bloom words are an array for the loader, which sets bits in
  place, and a sequence for the data plane, which only reads them.

## Where the code does less than its documentation says

- `docs/developers/architecture.md:59` promises fallback matching for subdomains. The generated block compares with the
  domain as written (`control/codegen.c:360`), while query names are lowercased, and it compares bytes, not labels.
  `Fallback.SubdomainTakenIff` gives the exact condition under which it takes a subdomain,
  `Fallback.CapitalDomainGetsNoSubdomains` the failing family. `Fallback.FallbackIgnoresLabelBoundaries` says exactly
  when it takes a name that is not at or below the domain, over label sequences, because a label may itself contain a
  dot byte; `Fallback.TakenInsideWord`, `Fallback.TakenAtDotInsideLabel` and `Fallback.TakenOverDotInsideLabel` give
  a frame for each of the three ways.
- The template is filled by nine passes over the whole text, so a configured string that contains a later token is
  rewritten. `GeneratedSource.SourceIsFilledIff` gives the exact condition,
  `GeneratedSource.InjectedTokenIsRewritten` an accepted configuration that fails it.
- Label ranges up to 127 are accepted, but no parsed query has more than 31 labels. `Coverage.ReachableIff` says which
  routes without patterns some query can meet.
- The FNV offset is not the published FNV-1a offset basis, so agreement of the planes is proved, not conformance.

## Model

| member | source | states |
|---|---|---|
| Bytes.LowerIsAlphabet | xdp/dns_parser.h:39-45 | a capital becomes the letter at its place in the alphabet, everything else stays |
| Fnv.HashBytes | control/hash.c:57-68 | the byte loop computes the FNV hash that the data plane accumulates while parsing |
| Fnv.StepBijective | xdp/dns_parser.h:47-50 | for each byte a step is a bijection of the running hash: each hash is reached, from exactly one |
| Fnv.StepInjective | xdp/dns_parser.h:47-50 | a step never merges two running hashes |
| Fnv.StepInjectiveInByte | xdp/dns_parser.h:47-50 | a step never merges two bytes |
| Fnv.TailCancels | control/hash.c:57-68 | a common tail gives equal hashes exactly when the running hashes before it were equal |
| Fnv.NearNamesDiffer | xdp/dns_parser.h:47-50 | names of equal length that differ in exactly one byte have different hashes |
| Fnv.Anchors | control/hash.h:8 | worked values that fix the offset and the factor |
| SipHash.State.Round | control/hash.c:15-31 | the in-place statement order computes the two-layer round of the SipHash paper |
| SipHash.State.AbsorbWord | xdp/xdp_template.c:147-150 | one message word is absorbed with two rounds |
| SipHash.State.Finish | control/hash.c:105-111 | four finalization rounds and the fold of the four words |
| SipHash.HashByTail | control/hash.c:97-104 | folding the length into the partial last word equals hashing the zero-padded message of the paper |
| SipHash.HashBytes | control/hash.c:70-112 | the open control-plane loop computes SipHash-2-4 of any byte string |
| SipHash.HashQname | xdp/xdp_template.c:122-175 | 31 fixed blocks and 7 tail bytes compute the same SipHash-2-4 on every name of 0 to 255 bytes |
| SipHashExample.PaperExample | control/hash.c:70-112 | the worked example of the SipHash paper, which uses the same key |
| DnsQuestion.QuestionUnique | xdp/dns_parser.h:138-190 | the wire encoding determines the labels |
| DnsQuestion.RefutedHasNoQuestion | xdp/dns_parser.h:138-198 | each reason for which the walk rejects excludes every encoding |
| DnsQuestion.ParsedIffEncoded | xdp/dns_parser.h:91-215 | both directions: a packet parses to a query exactly when it carries the encoding of admissible labels that make that query |
| DnsParser.QueryMeta.Append | xdp/dns_parser.h:180-185 | one byte is stored and hashed unless 255 are stored already; the hash always is that of the stored name |
| DnsParser.QueryMeta.CopyLowered | xdp/dns_parser.h:171-186 | the label is appended lowercased, exactly when it fits |
| DnsParser.QueryMeta.AppendLabel | xdp/dns_parser.h:162-186 | a dot precedes every label but the first; success exactly when the dotted name fits |
| DnsParser.ReadLabel | xdp/dns_parser.h:138-190 | one iteration extends the labels read, stops at the terminator, or proves that there is no question |
| DnsParser.WalkLabels | xdp/dns_parser.h:135-198 | 32 iterations accept exactly the encodings of 1 to 31 labels of 1 to 63 bytes with four bytes to follow |
| DnsParser.ParseDnsQuery | xdp/dns_parser.h:91-215 | for every byte array, succeeds exactly when header and encoding are right, with exactly the encoded query; all reads in bounds |
| Labels.SplitPieces | xdp/dns_parser.h:162-186 | splitting a name at its dots yields pieces without dots that join to the name |
| Labels.NameSplitsIffDotFree | xdp/dns_parser.h:162-186 | the canonical name gives the labels back, up to case, exactly when no label contains a dot byte |
| Labels.NameDeterminesLabels | xdp/dns_parser.h:162-186 | of all label sequences with the name of a dot-free one, exactly the dot-free ones have its labels |
| Labels.MergedLabelsShareName | xdp/dns_parser.h:162-186 | two labels and the one label with a dot between them have the same name and different labels |
| DomainHash.NormalizeDomain | control/hash.c:33-55 | the buffer holds the domain lowercased, without one trailing dot, cut to the buffer, and terminated |
| DomainHash.ComputeDomainHash | control/hash.c:114-146 | the hash of the normalised domain under the chosen algorithm, zero if nothing is left |
| DomainHash.HashIgnoresCaseAndDot | control/hash.c:42-54 | letter case and one trailing dot in the configuration never change the hash |
| DomainHash.NothingHashesToZero | control/hash.c:114-146 | the empty domain and the root have hash zero |
| DomainHash.AlgorithmsNamed | control/hash.c:114-146 | which algorithm is which, in both planes |
| DomainHash.ParsedName | xdp/dns_parser.h:192-214 | a parsed name has 1 to 255 bytes, its running hash is its FNV hash, its depth is 1 to 31, its opcode below 16 |
| DomainHash.PlanesAgree | control/hash.c:114-146 | for an exact-name query the run-time hash equals the stored hash under both algorithms |
| Mixer.MixBijective | xdp/xdp_template.c:277-285 | the mixer has an inverse on both sides |
| Mixer.MixAnchors | xdp/xdp_template.c:277-285 | worked values that fix shifts and factors |
| ProofOfWork.PassingHashesCount | xdp/xdp_template.c:366-384 | for every id, bucket and difficulty d up to 64 exactly 2^(64-d) name hashes pass |
| ProofOfWork.IdsMixApart | xdp/xdp_template.c:374-375 | distinct DNS ids mix to distinct values |
| ProofOfWork.BucketsMixApart | xdp/xdp_template.c:374-375 | distinct buckets mix to distinct values, for all 64-bit buckets |
| ProofOfWork.AllowedHashes | xdp/xdp_template.c:386-414 | what is admitted, as sets of 2^(64-d) hashes: bucket zero without a window, else the current bucket and the one before; everything at difficulty zero |
| ProofOfWork.ProofLifetime | xdp/xdp_template.c:386-414 | accepted exactly when some fitting bucket started at most two windows ago |
| Bloom.SetBitsForSeed | control/loader.c:309-333 | exactly the bits that the hash functions select for the seed are added |
| Bloom.SeedRoute | control/loader.c:348-378 | exactly the bits of the route's seeds for its bucket and the one before are added |
| Bloom.SeedBloomMap | control/loader.c:335-392 | the seeded words hold exactly the bits of all enabled routes |
| Bloom.TestBit | xdp/xdp_template.c:287-307 | true exactly for a set bit below an admissible size |
| Bloom.MatchBucket | xdp/xdp_template.c:309-334 | true exactly when every one of the at most eight selected bits is set |
| Bloom.BloomAllow | xdp/xdp_template.c:336-364 | admissible sizes, then the current bucket or the one before |
| Bloom.NoFalseNegatives | control/loader.c:309-392 | every seed with a nonzero hash passes, for window zero always, else whenever the two buckets are at most one apart |
| Bloom.SelectedBijective | xdp/xdp_template.c:309-334 | each hash function is a bijection between name hashes and words, in every bucket |
| Bloom.EveryBitSelected | xdp/xdp_template.c:309-334 | for every size each bit is selected by some name |
| Bloom.NamesMixApart | xdp/xdp_template.c:325 | different names make different words |
| Bloom.FunctionsMixApart | xdp/xdp_template.c:325 | different hash functions make different words of the same name |
| Bloom.BucketsMixApart | xdp/xdp_template.c:325 | different buckets make different words of the same name |
| BloomCount.SelectingHashesCount | xdp/xdp_template.c:309-334 | for 2^j bits exactly 2^(64-j) name hashes select each bit |
| Bloom.AllowIffSelectedOn | xdp/xdp_template.c:336-364 | for any words a name passes exactly when all bits it selects in a tested bucket are on, so one bit off refuses it |
| Bloom.RouteBitsIff | control/loader.c:348-378 | the bits of a route are those of its seeds in the loader's bucket and the one before, and no others |
| Bloom.SeededBitsIff | control/loader.c:335-392 | a bit is on exactly when some enabled route set it |
| RateLimit.RateTable.RateLimitAllow | xdp/xdp_template.c:416-448 | one in-place step of the fixed-window limiter; other routes' entries untouched |
| RateLimit.Exact | xdp/xdp_template.c:434-447 | over every run, each second admits exactly the smaller of the limit and the calls that reached the limiter |
| RateLimit.ExactInNanoseconds | xdp/xdp_template.c:434-447 | the same count over an interval of a thousand million nanoseconds |
| RateLimit.LimitEdges | xdp/xdp_template.c:421-427 | without a limit every call is admitted and nothing is counted; an id outside the table is refused |
| RateLimit.UnlimitedRun | xdp/xdp_template.c:421-423 | over every run, under any clock, a route without a limit is always admitted and leaves no trace |
| RateLimit.AllowedIff | xdp/xdp_template.c:434-447 | a call is admitted exactly when fewer calls of its route than the limit came before it in its second |
| RateLimit.BurstBound | xdp/xdp_template.c:434-447 | no interval of one second or less admits more than twice the limit |
| RateLimit.OthersUntouched | xdp/xdp_template.c:429-446 | a call for one route leaves every other entry as it was |
| Checksum.TwoFoldsSuffice | xdp/xdp_template.c:189-193 | after two folds the sum has sixteen bits, for all inputs |
| Checksum.ReplaceMoves | xdp/xdp_template.c:185-195 | the update changes the checksum by old minus new modulo 0xffff |
| Checksum.ReplaceCommutesWithSwap | xdp/xdp_template.c:185-195 | swapping the bytes of all inputs swaps the bytes of the result, exactly |
| Checksum.ReplaceUndo | xdp/xdp_template.c:185-195 | updating back restores every checksum but 0xffff, which becomes zero |
| Checksum.ReplaceZeroIff | xdp/xdp_template.c:185-195 | the update yields zero exactly when the words cancel modulo 0xffff, but for one input |
| Checksum.ChecksumOkByHostSum | xdp/xdp_template.c:185-201 | validity in network order is divisibility of the positive host-order sum by 0xffff |
| KernelSpace.ReplaceU16 | xdp/xdp_template.c:185-195 | the checksum bytes are patched in place, nothing else |
| KernelSpace.ReplaceU32 | xdp/xdp_template.c:197-201 | both halves of a 32-bit field are patched |
| KernelSpace.RouteKernelSpace | xdp/xdp_template.c:542-563 | the buffer becomes the rewritten packet |
| KernelSpace.RewriteKeepsChecksums | xdp/xdp_template.c:542-563 | for every packet, port and address: IP checksum valid exactly if it was, UDP checksum acceptable exactly if it was or has become zero, new fields stored |
| KernelSpace.PortErasesChecksumIff | xdp/xdp_template.c:555-560 | exactly when the rewrite leaves a checksummed query without a checksum |
| KernelSpace.PortMasksCorruptionIff | xdp/xdp_template.c:555-560 | exactly when the rewrite makes a corrupt datagram acceptable |
| KernelSpace.PortOnlyFrame | control/codegen.c:277-283 | the generated call changes nothing but the UDP port and checksum bytes |
| KernelSpace.PortRewriteIgnoresPayload | xdp/xdp_template.c:555-560 | the rewrite depends on the UDP header alone |
| TextBuffer.Buffer.constructor | control/codegen.c:16-25 | an empty, terminated buffer |
| TextBuffer.Buffer.Reserve | control/codegen.c:35-57 | contents and terminator kept, room made, the doubling loop ends below twice the need |
| TextBuffer.Buffer.Append | control/codegen.c:59-69 | contents extended by exactly the text, terminated |
| CText.EscapeCString | control/codegen.c:165-210 | the loop emits the escaped text |
| CText.LexUndoesEscape | control/codegen.c:165-210 | lexing the emitted literal followed by any text returns the string and that text |
| CText.EscapedInjective | control/codegen.c:165-210 | different strings never give the same literal |
| Substitution.FindFrom | control/codegen.c:232 | the leftmost occurrence from a position, or none |
| Substitution.ReplaceAll | control/codegen.c:212-253 | leftmost non-overlapping replacement; an empty token is the only error |
| Substitution.ReplacedConcat | control/codegen.c:212-253 | a pass treats the two sides of a seam separately when one of the two bytes at it is not in the token |
| Substitution.PassOverFill | control/codegen.c:212-253 | one pass over a template with sealed holes is a pass over the text in each hole |
| Substitution.FillTemplate | control/codegen.c:559-620 | the chain of passes, each over the result of the one before |
| Substitution.PassesSettle | control/codegen.c:559-620 | passes in any order, whatever the texts contain: each hole ends up with its text, rewritten by the passes that come after its own |
| Substitution.PassesFillSimultaneously | control/codegen.c:559-620 | passes in any order equal one simultaneous fill when seams are sealed and no token occurs in literal text, in a filling or in another token |
| Substitution.FilledInAnyOrder | control/codegen.c:559-620 | under the same condition all orders give the same text |
| Tokens.TokensApart | control/codegen.c:559-620 | none of the nine tokens is part of another |
| Tokens.TemplateWellMarked | xdp/xdp_template.c:20-26 | every template with these definition lines and this switch has sealed holes, provided its other text has no Z after an underscore |
| SourceText.PrintCases | control/codegen.c:454-482 | the loop prints the head and every route's case text, numbers and escaped strings included |
| SourceText.PrintRules | control/codegen.c:484-504 | the loop prints every route's fallback text |
| PrintedMeaning.LexItems | control/codegen.c:298-340 | printed text is lexed to its lexemes, whatever follows it |
| PrintedMeaning.CallReads | xdp/xdp_template.c:450-468 | the printed arguments, taken by the position and type of the parameters, are those of the route's guard |
| PrintedMeaning.CaseTextReads | control/codegen.c:298-340 | reading the case text of a route in front of any text gives exactly the route's case |
| PrintedMeaning.RuleTextReads | control/codegen.c:397-450 | reading the fallback text of a route in front of any text gives exactly the route's block |
| PrintedMeaning.CasesTextReads | control/codegen.c:454-482 | the whole case text, comment included, is read as the generated switch body |
| PrintedMeaning.RulesTextReads | control/codegen.c:484-504 | the whole fallback text is read as the generated blocks |
| SourceText.FreeEscaped | control/codegen.c:165-210 | escaping neither hides nor creates a token |
| SourceText.CasesFreeIff | control/codegen.c:298-340 | a token is in the case texts exactly when it is in a configured prefix or suffix |
| SourceText.RulesFreeIff | control/codegen.c:397-450 | a token is in the fallback texts exactly when it is in a configured domain, prefix or suffix |
| GeneratedSource.GenerateXdpSource | control/codegen.c:506-630 | prints the texts and constants and runs the nine passes over the template |
| GeneratedSource.SourceIsFilledIff | control/codegen.c:559-620 | for a template with sealed holes, the source is the template filled at once exactly when no prefix or suffix contains one of the last eight tokens and no domain one of the last seven |
| GeneratedSource.TemplateIsFilledIff | xdp/xdp_template.c:573-578 | the same for the program's own template |
| GeneratedSource.SourceInAnyOrder | control/codegen.c:559-620 | when no configured string contains a token, every order of the nine passes gives the filled template |
| GeneratedSource.InjectedTokenIsRewritten | control/codegen.c:559-620 | any accepted configuration stays accepted when a route asks for a token as its prefix, and then its source is not the filled template |
| SourceMeaning.DispatchTextReads | xdp/xdp_template.c:565-581 | the text from the switch body on is read as the generated program |
| SourceMeaning.SourceMeansGenerated | control/codegen.c:506-630 | when no configured string contains a token, what the nine passes make of the template ends in a dispatcher that is read as the generated program |
| SourceMeaning.DeployedFits | control/config.h:12-19 | every accepted configuration is printed without loss |
| SourceMeaning.ConstantsRead | control/codegen.c:548-557 | each constant of the template gets the setting of its name; an opcode's bit is set exactly when it is allowed |
| Filters.MatchPrefix | xdp/xdp_template.c:220-245 | true exactly for an empty pattern or a prefix of fewer than 128 bytes |
| Filters.MatchSuffix | xdp/xdp_template.c:247-275 | true exactly for an empty pattern or a byte suffix of fewer than 128 bytes |
| Filters.ApplyAppFilters | xdp/xdp_template.c:450-506 | the early returns compute the conjunction; only a query of the right shape is counted, and a later refusal keeps the count |
| TypeFilter.TypeAllowedIff | xdp/xdp_template.c:203-218 | a query passes the type test exactly when its number is that of a type whose bit is set |
| TypeFilter.ListedTypePasses | xdp/xdp_template.c:203-218 | a type passes a mask made of a list exactly when it is listed |
| TypeFilter.RouteTypes | control/yaml_parser.c:365-388 | a query meets the type test of an accepted route exactly when its type is configured and not denied |
| Codegen.GenerateRouteCases | control/codegen.c:454-482 | one labelled, guarded case per route, in order |
| Codegen.GenerateFallbackRules | control/codegen.c:484-504 | one suffix block per route, in order |
| Codegen.CallMeansRoute | control/codegen.c:298-340 | the positional arguments of the generated call mean the route's own filter settings |
| Codegen.ExecGuarded | control/codegen.c:255-350 | a guarded route always returns what its route prescribes; nothing falls through |
| Codegen.CompilesIffDistinct | control/codegen.c:299-322 | the switch has distinct labels exactly when no two routes share a hash |
| Codegen.GeneratedMeansReference | control/codegen.c:255-504 | for every route list with distinct hashes, packet and state, the generated program gives the verdict and state of the reference router |
| Codegen.AtMostOneRouteEvaluated | xdp/xdp_template.c:565-581 | at most one route's filters run and only its counter can change; with none, the default action and no change |
| Codegen.OrderMattersOnlyUnderNesting | control/codegen.c:484-504 | swapping neighbours with unnested domains changes no selection |
| Codegen.NestedOrderDecides | control/codegen.c:484-504 | for a name that both domains match, the first of the two is selected |
| Interpreter.Context.RunStmt | xdp/xdp_template.c:450-563 | one generated statement, run in place on buffer and counters, does what it means |
| Interpreter.Context.RunFrom | control/codegen.c:298-340 | statements run in order until one returns |
| Interpreter.Context.RunSwitch | xdp/xdp_template.c:572-576 | the jump to the label of the query's hash, with fall-through |
| Interpreter.Context.RunBlocks | control/codegen.c:397-450 | the suffix blocks in order, matched on the query buffer |
| Interpreter.Context.RunProgram | xdp/xdp_template.c:565-581 | switch, blocks and default action in place equal the meaning of the program; a program that does not compile touches nothing |
| ConfigParser.ParseMask | control/yaml_parser.c:247-279 | known types or-ed together; an unknown type or an empty list is an error |
| ConfigParser.MaskOfAllBits | control/yaml_parser.c:132-150 | a mask bit is set exactly when its type is listed |
| ConfigParser.RouteParser.ParseRules | control/yaml_parser.c:461-506 | accepted exactly when all numbers fit; present settings overwrite and set their flags |
| ConfigParser.RouteParser.ParseTypes | control/yaml_parser.c:365-388 | allowed minus denied types, an error when nothing is left |
| ConfigParser.RouteParser.ParseSeeds | control/yaml_parser.c:390-425 | at most 32 non-empty seeds, each cut to 255 bytes |
| ConfigParser.RouteParser.ParsePow | control/yaml_parser.c:441-459 | the proof-of-work settings, overwritten where present |
| ConfigParser.RouteParser.ParseBloom | control/yaml_parser.c:521-555 | the Bloom settings, overwritten where present |
| ConfigParser.RouteParser.ParseFilters | control/yaml_parser.c:427-558 | the whole filter section, accepted exactly when every part is |
| ConfigParser.RouteParser.CompleteRanges | control/yaml_parser.c:731-747 | a missing end is completed from the other end or from the default |
| ConfigParser.CompletedIsPaired | control/yaml_parser.c:731-747 | completing from flags equals pairing the later of the settings |
| ConfigParser.RouteParser.Validate | control/yaml_parser.c:749-792 | accepted exactly inside the limits; disabled filters cleared, Bloom defaults and default seed filled in |
| ConfigParser.ParseRoute | control/yaml_parser.c:560-795 | accepted exactly when acceptable, and then the route the settings denote |
| Settings.NumberSettings | control/yaml_parser.c:616-638 | queue, port and index each set their own field and no other |
| Settings.TargetSettings | control/yaml_parser.c:560-640 | so do target and program name |
| Settings.RateSettings | control/yaml_parser.c:508-514 | so does the rate limit |
| Settings.PatternSettings | control/yaml_parser.c:461-474 | so do prefix and suffix, the filter section last |
| Settings.RangeSettings | control/yaml_parser.c:476-506 | so do label and length ranges |
| Settings.PowSettings | control/yaml_parser.c:441-459 | so do the proof-of-work settings when it is on |
| Settings.BloomSettings | control/yaml_parser.c:521-555 | so do the Bloom settings when it is on |
| Settings.SeedSettings | control/yaml_parser.c:390-425 | seeds of up to 255 bytes are taken as they are, longer ones cut |
| Settings.OneEnd | control/yaml_parser.c:731-747 | a range of which one end is given is that single value |
| Settings.BareRoute | control/yaml_parser.c:576-600 | the values of a route that sets nothing but domain and target |
| ConfigParser.AcceptedRouteInvariant | control/yaml_parser.c:731-792 | every accepted route has non-empty ranges, a useful type mask, a bounded difficulty, Bloom sizes in range and C strings |
| ConfigParser.ParseAllowedOpcodes | control/yaml_parser.c:281-319 | the listed opcodes up to 15; an empty list means standard queries |
| ConfigParser.OpcodesInRange | control/yaml_parser.c:281-319 | an accepted mask is non-empty and below sixteen |
| ConfigParser.ParseRoutes | control/yaml_parser.c:797-822 | 1 to 1024 routes, all acceptable, in order, each with the invariant |
| Deployment.GlobalParser.Apply | control/yaml_parser.c:824-913 | global settings overwrite one after the other; the first malformed one is an error |
| Deployment.ParseConfig | control/yaml_parser.c:944-1047 | a configuration is accepted exactly when all its parts are, and then it is the one its tree denotes |
| Deployment.BareConfig | control/config.c:6-24 | the values of a configuration without global settings |
| Deployment.RootWins | control/yaml_parser.c:857-911 | a setting at the root replaces the one in its section |
| Deployment.SectionCounts | control/yaml_parser.c:829-891 | a setting in the section counts when the root is silent |
| Deployment.AcceptedIsDeployed | control/yaml_parser.c:944-1047 | every accepted configuration with distinct hashes has what the other components rely on |
| Deployment.BringUp | control/yaml_parser.c:944-1047 | parsing, code generation and Bloom seeding chain; the program compiles exactly when the hashes are distinct |
| ProgArray.ProgMap.ResolveTailProgram | control/loader.c:394-435 | the first of the acceptable names that the object knows: the explicit name alone, else the indexed name, else the default |
| ProgArray.IndexedNamesApart | control/loader.c:419 | different indexes ask for different programs, none of them for the default |
| ProgArray.ProgMap.SeedProgArray | control/loader.c:437-487 | stops at the first route that cannot be bound; every slot holds the program of its last user so far |
| ProgArray.TailCallsBound | control/loader.c:444-484 | after success every emitted index is below 64 and bound to the program of the last route that uses it |
| CaseFolding.QuestionUpToCase | xdp/dns_parser.h:178-185 | changing letter case inside labels keeps a question a question with the same canonical name |
| DataPlane.ParseEthIpv4Udp | xdp/dns_parser.h:52-89 | the header offsets, exactly when the three headers are there |
| DataPlane.ComputeRouteHash | xdp/xdp_template.c:177-183 | recomputed for SipHash, accumulated for FNV-1a |
| DataPlane.GlobalPreRoute | xdp/xdp_template.c:508-540 | the early returns before routing compute their conjunction |
| DataPlane.XdpRouter | xdp/xdp_template.c:584-612 | on a real buffer, with the filters, the rewrite and the limiter run in place: verdict, packet and counters are those of the specification; without a verdict nothing is touched |
| DataPlane.ParsedUpToCase | xdp/dns_parser.h:39-45 | the parsed query, or its absence, does not depend on letter case |
| DataPlane.CaseNeverMatters | xdp/xdp_template.c:450-612 | frames that differ only in letter case inside labels get the same verdict and state change under any configuration |
| EndToEnd.RoutedIsReference | xdp/xdp_template.c:565-612 | a query let through to routing is routed as the reference router routes it |
| EndToEnd.ExactNameReachesItsRoute | control/hash.c:114-146 | in every deployed configuration an exact-name query is handled by its own route |
| EndToEnd.ConfiguredNameReachesItsRoute | control/yaml_parser.c:560-600 | the same from the configuration tree: a query for a domain as configured is handled by its own route |
| EndToEnd.SubdomainReachesRoute | control/codegen.c:397-421 | a name below a domain goes to the first route that takes it unless a hash matches |
| Fallback.FallbackNeedsCanonicalDomain | control/codegen.c:352-360 | the fallback takes a name that ends in the normalised domain exactly when the domain is written normalised and is shorter than 128 bytes |
| Fallback.CapitalDomainGetsNoSubdomains | control/codegen.c:352-360 | a domain written with a capital letter matches no parsed name |
| Fallback.FallbackIgnoresLabelBoundaries | xdp/xdp_template.c:247-275 | over label sequences: exactly when the fallback takes a name that is not at or below the domain |
| Fallback.UnrelatedNameTaken | xdp/xdp_template.c:247-275 | for every domain: any byte but a dot in front of it, in the same label, gives a name that is taken and not below it |
| Fallback.TakenInsideWord | xdp/xdp_template.c:247-275 | a frame whose name has another byte than a dot before the domain is taken |
| Fallback.TakenAtDotInsideLabel | xdp/xdp_template.c:247-275 | a frame in which the domain follows a dot byte inside a label is taken |
| Fallback.TakenOverDotInsideLabel | xdp/xdp_template.c:247-275 | a frame in which the match runs over a dot byte inside a label is taken |
| Fallback.SubdomainTakenIff | control/codegen.c:352-360 | a subdomain is taken exactly when the domain is written normalised and is shorter than 128 bytes |
| QueryFrame.FrameParses | xdp/dns_parser.h:52-215 | every admissible label sequence is carried by a frame of every sender, with options and flags, which parses to exactly what was sent |
| QueryFrame.LocatedIff | xdp/dns_parser.h:52-89 | the header checks in raw offsets |
| QueryFrame.OtherTrafficPasses | xdp/xdp_template.c:595-605 | other protocols and ports, answers, and messages without a question or cut off pass untouched |
| QueryFrame.BlacklistedIsDropped | xdp/xdp_template.c:508-525 | a query from a blacklisted source address is dropped |
| QueryFrame.RefusedIsDropped | xdp/xdp_template.c:518-537 | a query that is too long, truncated where refused, or of another opcode is dropped |
| QueryFrame.OthersAreRouted | xdp/xdp_template.c:508-540 | every other query is let through to routing |
| EndToEnd.SeededNamePassesBloom | xdp/xdp_template.c:336-364 | a query for a configured seed passes its route's Bloom test end to end |
| EndToEnd.ConfiguredSeedPassesBloom | control/loader.c:335-392 | the same from the configuration tree and the words that the loader seeds from it |
| EndToEnd.RouteProofIff | xdp/xdp_template.c:496-503 | the proofs a route asks for, as sets of known size, each by its own clock |
| EndToEnd.RouteVerdicts | control/codegen.c:268-276 | a refused query is dropped and an admitted one of a user-space route goes to its queue, the packet untouched |
| Guards.RunsNeverTrap | xdp/xdp_template.c:287-531 | over every run under an accepted configuration, no frame reaches the Bloom-size, bit-index, word-index, opcode or route-id rejection |
| Guards.FrameNeverTraps | xdp/xdp_template.c:287-531 | with one counter per route the data plane equals the one that has no result where a guard rejects |
| Guards.FilterTrapsIff | xdp/xdp_template.c:416-506 | for any route, accepted or not: exactly when a guard of its filters rejects |
| Guards.MatchNeverTraps | xdp/xdp_template.c:287-334 | with an admissible size no bit test is refused |
| Guards.ClampsIdle | control/loader.c:272-307 | accepted routes: the loader's clamps are the identity and some record type is let through |
| Coverage.ReachableIff | control/yaml_parser.c:749-792 | an accepted route without patterns can be met by some query exactly when its label and length ranges fit together |
| Coverage.ReachableOnlyIf | xdp/xdp_template.c:220-275 | any route that some query meets has such ranges and lower-case patterns below 128 bytes |
| Coverage.ShapeIff | xdp/xdp_template.c:470-488 | what an accepted route asks of a query, in plain terms |
| Constants.DataPlaneNumbers | xdp/xdp_template.c:36-38 | the limits of the data plane, written out |
| Constants.ControlPlaneNumbers | control/config.h:12-19 | the limits of the control plane, written out |
| EndToEnd.TailRouteRunsItsProgram | control/codegen.c:285-293 | an admitted query of a tail-call route ends in the program of the last user of its index |
| EndToEnd.ParsedIsFramed | xdp/dns_parser.h:106-118 | a frame that passes the header checks has the framing the checksum results need |
| EndToEnd.RoutingKeepsChecksums | xdp/xdp_template.c:584-612 | through the whole data plane a frame leaves with checksums as good as it came with, and no better unless erased |
| EndToEnd.KernelRouteSetsPort | control/codegen.c:277-283 | an admitted query of a kernel-space route carries the configured port in network order |
| Runs.FrameIsLimiterCall | xdp/xdp_template.c:470-506 | a frame is at most one limiter call, of the selected route, and is delivered exactly when the call is allowed and its proofs hold |
| Runs.RunIsLimiterRun | xdp/xdp_template.c:416-448 | over whole runs of frames the counters are those of the limiter run over the calls |
| Runs.RouteLimitHoldsOverRuns | xdp/xdp_template.c:416-490 | over every run with a clock that does not go back, each second delivers exactly those of the first qps arrivals whose proofs hold, and the limiter is exact |
| Runs.DeliveredIffServed | xdp/xdp_template.c:416-506 | a frame is delivered exactly when fewer than qps frames reached the limiter before it in its second and its proofs hold |
| Runs.UnlimitedDelivery | xdp/xdp_template.c:416-506 | without a limit a frame is delivered exactly when it reaches the route and its proofs hold, over every run and under any clock |
| Runs.DeliveredBurstBound | xdp/xdp_template.c:434-447 | no interval of one second or less delivers more than twice the limit |
| Runs.OverallBound | xdp/xdp_template.c:416-448 | several CPUs together deliver at most their number times the limit |
| Runs.OverallScales | xdp/xdp_template.c:416-448 | equal runs on n CPUs deliver n times as much, so the bound is reached as soon as one run reaches the limit |

## Left out

- C beyond what the generator prints: `CReader` reads the statements, calls and blocks that occur in generated text, and nothing else of the language; compilation is not modelled.
- Octal, hexadecimal and universal escapes and trigraphs in C literals: the generator emits none.
- Allocation failure and overflow of `size_t` in the buffer; `vsnprintf` appends are appends of the formatted text.
- libyaml, number and boolean scanning, and the choice between alias keys: the parser starts from one node per setting.
- Settings the data plane does not depend on (paths, interface, XDP mode), the blacklist text and its trie: the lookup is a predicate on the source address.
- libbpf loading, attaching, pinning and detaching, and failing map updates.
- The command line, compilation by clang, logging, metadata, shell scripts, systemd units and the sample applications.
- What `bpf_redirect_map` does with an empty queue: the verdict names the queue.
- Alignment of the wall clock with the boot clock: the two bucket numbers are separate inputs.
- Cryptographic strength of SipHash and of the proof of work.
- Runs.RouteLimitHoldsOverRuns: counts one CPU at a time, because the state is per CPU; Runs.OverallBound gives the bound for several.
- Coverage.ReachableIff: is exact for routes without prefix and suffix; with patterns Coverage.ReachableOnlyIf gives necessary conditions only, because whether a pattern leaves room for labels of at most 63 bytes depends on where its dots are.
- GeneratedSource.TemplateIsFilledIff: the definition lines and the end of the switch are given literally, the rest of `xdp/xdp_template.c` by the one property used of it.
