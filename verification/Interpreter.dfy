/** Running generated code on the real packet buffer, counters and query record. */
module Interpreter {
  import opened Bytes
  import opened DnsQuestion
  import opened DnsParser
  import opened RateLimit
  import opened Filters
  import opened Codegen
  import Bloom
  import Checksum
  import KernelSpace

  /** Where control goes; Undefined is a program that has no meaning in C. */
  datatype Control = Onward | Returned(verdict: Verdict) | Undefined

  /** Control and the state it leaves behind, as a flow of the generated program's meaning. */
  function FlowOf(c: Control, st: State): Flow {
    match c
    case Onward => Next(st)
    case Returned(v) => Return(v, st)
    case Undefined => Stuck
  }

  /** What one packet is handled with: the buffer, its query and header offsets, the clock and the maps. */
  class Context {
    const packet: array<byte>
    const meta: QueryMeta
    const rates: RateTable
    const words: seq<bv64>
    const programs: map<nat, int>
    const hash: bv64
    const clock: Clock
    const ip: nat
    const udp: nat
    ghost var evaluated: seq<nat>

    constructor (
      packet: array<byte>, meta: QueryMeta, rates: RateTable, words: seq<bv64>, programs: map<nat, int>, hash: bv64,
      clock: Clock, ip: nat, udp: nat)
      requires meta.Valid() && packet != meta.qname && |words| == Bloom.BLOOM_WORDS
      requires ip + 20 <= udp && udp + 8 <= packet.Length
      ensures this.packet == packet && this.meta == meta && this.rates == rates && this.words == words
      ensures Valid() && Now() == State(rates.entries[..], packet[..], [])
      ensures EnvNow() == Env(meta.Value(), hash, clock, words, programs, ip, udp)
    {
      this.packet, this.meta, this.rates, this.words := packet, meta, rates, words;
      this.programs, this.hash, this.clock, this.ip, this.udp := programs, hash, clock, ip, udp;
      evaluated := [];
    }

    ghost predicate Valid()
      reads this, packet, meta, meta.qname
    {
      && meta.Valid() && packet != meta.qname && |words| == Bloom.BLOOM_WORDS
      && ip + 20 <= udp && udp + 8 <= packet.Length
    }

    ghost function EnvNow(): Env
      requires Valid()
      reads this, packet, meta, meta.qname
    {
      Env(meta.Value(), hash, clock, words, programs, ip, udp)
    }

    ghost function Now(): State
      reads this, packet, rates.entries
    {
      State(rates.entries[..], packet[..], evaluated)
    }

    method RunStmt(s: Stmt) returns (c: Control)
      requires Valid()
      modifies packet, rates.entries, `evaluated
      ensures Valid() && EnvNow() == old(EnvNow())
      ensures FlowOf(c, Now()) == ExecOne(s, old(EnvNow()), old(Now()))
      ensures c.Undefined? ==> Now() == old(Now())
    {
      hide Filtered, LiteralValue, KernelSpace.Rewritten;
      match s
      case Case(_) =>
        c := Onward;
      case DropUnless(prefix, prefixLen, suffix, suffixLen, args) =>
        var pre, suf := LiteralValue(prefix, prefixLen), LiteralValue(suffix, suffixLen);
        if pre.None? || suf.None? {
          return Undefined;
        }
        var ok := ApplyAppFilters(meta, hash, pre.value, suf.value, args, clock, words, rates);
        assert meta.Value() == old(meta.Value());
        evaluated := evaluated + [args.routeId];
        c := if ok then Onward else Returned(Drop);
      case ReturnRedirect(queue) =>
        c := Returned(Redirect(queue));
      case ReturnKernel(port) =>
        KernelSpace.RouteKernelSpace(packet, ip, udp, Checksum.Swap(port), KernelSpace.NO_ADDRESS);
        assert meta.Value() == old(meta.Value());
        c := Returned(Pass);
      case TailCall(index) =>
        c := if index in programs then Returned(TailTo(programs[index])) else Onward;
      case ReturnDrop =>
        c := Returned(Drop);
    }

    /** The statements from i on, until one returns. */
    method RunFrom(stmts: seq<Stmt>, i: nat) returns (c: Control)
      requires Valid() && i <= |stmts|
      modifies packet, rates.entries, `evaluated
      ensures Valid() && EnvNow() == old(EnvNow())
      ensures FlowOf(c, Now()) == Exec(stmts[i..], old(EnvNow()), old(Now()))
    {
      hide ExecOne;
      var k := i;
      while k < |stmts|
        invariant i <= k <= |stmts| && Valid() && EnvNow() == old(EnvNow())
        invariant Exec(stmts[k..], EnvNow(), Now()) == Exec(stmts[i..], old(EnvNow()), old(Now()))
      {
        assert stmts[k..][0] == stmts[k] && stmts[k..][1..] == stmts[k + 1..];
        c := RunStmt(stmts[k]);
        if !c.Onward? {
          return;
        }
        k := k + 1;
      }
      c := Onward;
    }

    /** The switch: jump to the label of the query's hash, if there is one. */
    method RunSwitch(cases: seq<Stmt>) returns (c: Control)
      requires Valid()
      modifies packet, rates.entries, `evaluated
      ensures Valid() && EnvNow() == old(EnvNow())
      ensures FlowOf(c, Now()) == ExecSwitch(cases, old(EnvNow()), old(Now()))
    {
      hide Exec;
      var k := 0;
      assert cases[0..] == cases;
      while k < |cases|
        invariant 0 <= k <= |cases| && Valid() && EnvNow() == old(EnvNow()) && Now() == old(Now())
        invariant ExecSwitch(cases[k..], EnvNow(), Now()) == ExecSwitch(cases, EnvNow(), Now())
      {
        assert cases[k..][0] == cases[k] && cases[k..][1..] == cases[k + 1..];
        if cases[k] == Case(hash) {
          c := RunFrom(cases, k);
          return;
        }
        k := k + 1;
      }
      c := Onward;
    }

    /** The fallback blocks, in order. */
    method RunBlocks(blocks: seq<Block>) returns (c: Control)
      requires Valid()
      modifies packet, rates.entries, `evaluated
      ensures Valid() && EnvNow() == old(EnvNow())
      ensures FlowOf(c, Now()) == ExecBlocks(blocks, old(EnvNow()), old(Now()))
    {
      hide Exec, LiteralValue, SuffixOk;
      var k := 0;
      assert blocks[0..] == blocks;
      while k < |blocks|
        invariant 0 <= k <= |blocks| && Valid() && EnvNow() == old(EnvNow())
        invariant ExecBlocks(blocks[k..], EnvNow(), Now()) == ExecBlocks(blocks, old(EnvNow()), old(Now()))
      {
        assert blocks[k..][0] == blocks[k] && blocks[k..][1..] == blocks[k + 1..];
        var pattern := LiteralValue(blocks[k].literal, blocks[k].len);
        if pattern.None? {
          return Undefined;
        }
        var hit := MatchSuffix(meta.qname, meta.qnameLen, pattern.value);
        if hit {
          assert blocks[k].body[0..] == blocks[k].body;
          c := RunFrom(blocks[k].body, 0);
          if !c.Onward? {
            return;
          }
        }
        k := k + 1;
      }
      c := Onward;
    }

    /** Switch, blocks, default: in place, as the program means it. */
    method RunProgram(p: Program) returns (c: Control)
      requires Valid()
      modifies packet, rates.entries, `evaluated
      ensures FlowOf(c, Now()) == Dispatch(p, old(EnvNow()), old(Now()))
      ensures !Compiles(p) ==> Now() == old(Now())
    {
      hide ExecSwitch, ExecBlocks, Compiles;
      if !Compiles(p) {
        return Undefined;
      }
      c := RunSwitch(p.cases);
      if !c.Onward? {
        return;
      }
      c := RunBlocks(p.fallbacks);
      if c.Onward? {
        c := Returned(p.fallThrough);
      }
    }
  }
}
