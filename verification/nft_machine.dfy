/**
 The register machine that runs nftables rules: what a rule's expressions do to a
 packet, and what a chain of rules does, jumps included.
 */
module NftMachine {
  import opened Prelude
  import opened Octets

  datatype MetaKey = IifName | OifName | NfProto | L4Proto

  datatype Base = NetworkHeader | TransportHeader

  datatype Verdict = Return | Drop | Accept | Jump(chain: string)

  /** `Ct` loads the conntrack state; `Other` is any match this table does not use. */
  datatype Expr =
    | Meta(key: MetaKey, reg: nat)
    | Cmp(reg: nat, data: Bytes)
    | Range(reg: nat, from: Bytes, to: Bytes)
    | Payload(reg: nat, base: Base, off: nat, len: nat)
    | Lookup(reg: nat, set_: string, invert: bool)
    | Counter(name: string)
    | Ct(reg: nat)
    | Other(id: nat)
    | Done(verdict: Verdict)

  type Rule = seq<Expr>

  datatype Packet = Packet(
    iif: Bytes, oif: Bytes, nfproto: Byte, l4proto: Byte, network: Bytes, transport: Bytes,
    ctState: Bytes, others: set<nat>)

  type Sets = map<string, set<Bytes>>
  type Registers = map<nat, Bytes>

  /** The counters a run bumped, in order, and the verdict it reached, if any. */
  datatype RuleRun = RuleRun(bumps: seq<string>, verdict: Option<Verdict>)

  datatype End = FellOff | Returned | Dropped | Accepted

  datatype ChainRun = ChainRun(bumps: seq<string>, end: End)

  function MetaValue(p: Packet, key: MetaKey): Bytes {
    match key
    case IifName => p.iif
    case OifName => p.oif
    case NfProto => [p.nfproto]
    case L4Proto => [p.l4proto]
  }

  function Header(p: Packet, base: Base): Bytes {
    if base == NetworkHeader then p.network else p.transport
  }

  /** A header field, absent when the packet is too short. */
  function Field(p: Packet, base: Base, off: nat, len: nat): Option<Bytes> {
    if off + len <= |Header(p, base)| then Some(Header(p, base)[off..off + len]) else None
  }

  /** memcmp order, which is how the kernel compares register data. */
  predicate BytesLeq(a: Bytes, b: Bytes) {
    if a == [] then true
    else if b == [] then false
    else a[0] < b[0] || (a[0] == b[0] && BytesLeq(a[1..], b[1..]))
  }

  function Reg(regs: Registers, r: nat): Bytes {
    if r in regs then regs[r] else []
  }

  predicate InSet(sets: Sets, name: string, key: Bytes) {
    name in sets && key in sets[name]
  }

  /** Run one rule's expressions; a match that fails ends the rule without a verdict. */
  function RunRule(r: Rule, p: Packet, sets: Sets, regs: Registers): RuleRun {
    if r == [] then RuleRun([], None)
    else
      var rest := r[1..];
      match r[0]
      case Meta(key, reg) => RunRule(rest, p, sets, regs[reg := MetaValue(p, key)])
      case Cmp(reg, data) => if Reg(regs, reg) == data then RunRule(rest, p, sets, regs) else RuleRun([], None)
      case Range(reg, from, to) =>
        if BytesLeq(from, Reg(regs, reg)) && BytesLeq(Reg(regs, reg), to)
        then RunRule(rest, p, sets, regs) else RuleRun([], None)
      case Payload(reg, base, off, len) =>
        var f := Field(p, base, off, len);
        if f.Some? then RunRule(rest, p, sets, regs[reg := f.value]) else RuleRun([], None)
      case Lookup(reg, name, invert) =>
        if InSet(sets, name, Reg(regs, reg)) != invert then RunRule(rest, p, sets, regs) else RuleRun([], None)
      case Counter(name) =>
        var run := RunRule(rest, p, sets, regs);
        RuleRun([name] + run.bumps, run.verdict)
      case Ct(reg) => RunRule(rest, p, sets, regs[reg := p.ctState])
      case Other(id) => if id in p.others then RunRule(rest, p, sets, regs) else RuleRun([], None)
      case Done(v) => RuleRun([], Some(v))
  }

  /** Run a chain. Every rule loads what it compares, so it starts with no registers. A
      jump that returns or falls off goes on after the jump; `jumps` is how deep jumps may
      still nest (the kernel refuses tables that nest deeper). */
  function RunChain(chains: map<string, seq<Rule>>, rules: seq<Rule>, p: Packet, sets: Sets, jumps: nat): ChainRun
    decreases jumps, |rules|
  {
    if rules == [] then ChainRun([], FellOff)
    else
      var run := RunRule(rules[0], p, sets, map[]);
      match run.verdict
      case None =>
        var rest := RunChain(chains, rules[1..], p, sets, jumps);
        ChainRun(run.bumps + rest.bumps, rest.end)
      case Some(Return) => ChainRun(run.bumps, Returned)
      case Some(Drop) => ChainRun(run.bumps, Dropped)
      case Some(Accept) => ChainRun(run.bumps, Accepted)
      case Some(Jump(c)) =>
        if jumps == 0 || c !in chains then ChainRun(run.bumps, Dropped)
        else
          var sub := RunChain(chains, chains[c], p, sets, jumps - 1);
          if sub.end == Dropped || sub.end == Accepted then ChainRun(run.bumps + sub.bumps, sub.end)
          else
            var rest := RunChain(chains, rules[1..], p, sets, jumps);
            ChainRun(run.bumps + sub.bumps + rest.bumps, rest.end)
  }

  /** Running `a` then `b`. */
  function Then(a: ChainRun, b: ChainRun): ChainRun {
    if a.end == FellOff then ChainRun(a.bumps + b.bumps, b.end) else a
  }

  /** A rule that says nothing about the packet, and one that jumps to a chain that returns. */
  lemma RunPassedBy(chains: map<string, seq<Rule>>, rule: Rule, rest: seq<Rule>, p: Packet, sets: Sets, jumps: nat)
    requires RunRule(rule, p, sets, map[]) == RuleRun([], None)
    ensures RunChain(chains, [rule] + rest, p, sets, jumps) == RunChain(chains, rest, p, sets, jumps)
  {
    hide RunRule;
    assert ([rule] + rest)[1..] == rest;
  }

  lemma RunJumpTaken(chains: map<string, seq<Rule>>, rule: Rule, chain: string, bumps: seq<string>, rest: seq<Rule>,
                     p: Packet, sets: Sets, jumps: nat)
    requires jumps > 0 && chain in chains && RunRule(rule, p, sets, map[]) == RuleRun([], Some(Jump(chain)))
    requires RunChain(chains, chains[chain], p, sets, jumps - 1) == ChainRun(bumps, Returned)
    ensures var after := RunChain(chains, rest, p, sets, jumps);
            RunChain(chains, [rule] + rest, p, sets, jumps) == ChainRun(bumps + after.bumps, after.end)
  {
    hide RunRule;
    assert ([rule] + rest)[1..] == rest;
  }

  lemma {:induction false} RunAppend(chains: map<string, seq<Rule>>, a: seq<Rule>, b: seq<Rule>, p: Packet, sets: Sets, jumps: nat)
    ensures RunChain(chains, a + b, p, sets, jumps)
         == Then(RunChain(chains, a, p, sets, jumps), RunChain(chains, b, p, sets, jumps))
  {
    hide RunRule, SubRun, AfterFirst;
    if a == [] {
      assert a + b == b;
      assert [] + RunChain(chains, b, p, sets, jumps).bumps == RunChain(chains, b, p, sets, jumps).bumps;
    } else {
      assert (a + b)[1..] == a[1..] + b && (a + b)[0] == a[0];
      RunAppend(chains, a[1..], b, p, sets, jumps);
      RunFirst(chains, a, p, sets, jumps);
      RunFirst(chains, a + b, p, sets, jumps);
      ThenAfterFirst(RunRule(a[0], p, sets, map[]), SubRun(chains, a[0], p, sets, jumps),
                     RunChain(chains, a[1..], p, sets, jumps), RunChain(chains, b, p, sets, jumps));
    }
  }

  /** What the chain a rule jumps to comes to, if it jumps to one and may. */
  function SubRun(chains: map<string, seq<Rule>>, r: Rule, p: Packet, sets: Sets, jumps: nat): Option<ChainRun> {
    match RunRule(r, p, sets, map[]).verdict
    case Some(Jump(c)) => if jumps == 0 || c !in chains then None else Some(RunChain(chains, chains[c], p, sets, jumps - 1))
    case _ => None
  }

  /** The run of a rule followed by the run of the rules after it. */
  function AfterFirst(run: RuleRun, sub: Option<ChainRun>, rest: ChainRun): ChainRun {
    match run.verdict
    case None => ChainRun(run.bumps + rest.bumps, rest.end)
    case Some(Return) => ChainRun(run.bumps, Returned)
    case Some(Drop) => ChainRun(run.bumps, Dropped)
    case Some(Accept) => ChainRun(run.bumps, Accepted)
    case Some(Jump(_)) =>
      if sub.None? then ChainRun(run.bumps, Dropped)
      else if sub.value.end == Dropped || sub.value.end == Accepted then ChainRun(run.bumps + sub.value.bumps, sub.value.end)
      else ChainRun(run.bumps + sub.value.bumps + rest.bumps, rest.end)
  }

  lemma RunFirst(chains: map<string, seq<Rule>>, rules: seq<Rule>, p: Packet, sets: Sets, jumps: nat)
    requires rules != []
    ensures RunChain(chains, rules, p, sets, jumps) ==
            AfterFirst(RunRule(rules[0], p, sets, map[]), SubRun(chains, rules[0], p, sets, jumps),
                       RunChain(chains, rules[1..], p, sets, jumps))
  {
    hide RunRule;
  }

  lemma ThenAfterFirst(run: RuleRun, sub: Option<ChainRun>, a: ChainRun, b: ChainRun)
    ensures AfterFirst(run, sub, Then(a, b)) == Then(AfterFirst(run, sub, a), b)
  {
    assert run.bumps + (a.bumps + b.bumps) == run.bumps + a.bumps + b.bumps;
    if sub.Some? {
      var s := sub.value.bumps;
      assert run.bumps + s + (a.bumps + b.bumps) == run.bumps + s + a.bumps + b.bumps;
    }
  }

  /** A rule that does not match the packet. */
  predicate Passes(r: Rule, p: Packet, sets: Sets) {
    RunRule(r, p, sets, map[]) == RuleRun([], None)
  }

  lemma RunPassing(chains: map<string, seq<Rule>>, r: Rule, rest: seq<Rule>, p: Packet, sets: Sets, jumps: nat)
    requires Passes(r, p, sets)
    ensures RunChain(chains, [r] + rest, p, sets, jumps) == RunChain(chains, rest, p, sets, jumps)
  {
    assert ([r] + rest)[1..] == rest;
    assert [] + RunChain(chains, rest, p, sets, jumps).bumps == RunChain(chains, rest, p, sets, jumps).bumps;
  }

  // ---- running the common pairs of expressions -----------------------------

  lemma RunLoadCompare(key: MetaKey, data: Bytes, rest: Rule, p: Packet, sets: Sets, regs: Registers)
    ensures RunRule([Meta(key, 1), Cmp(1, data)] + rest, p, sets, regs) ==
            if MetaValue(p, key) == data then RunRule(rest, p, sets, regs[1 := MetaValue(p, key)]) else RuleRun([], None)
  {
    var r := [Meta(key, 1), Cmp(1, data)] + rest;
    assert r[1..] == [Cmp(1, data)] + rest && r[1..][1..] == rest;
  }

  lemma RunLoadLookup(key: MetaKey, name: string, rest: Rule, p: Packet, sets: Sets, regs: Registers)
    ensures RunRule([Meta(key, 1), Lookup(1, name, false)] + rest, p, sets, regs) ==
            if InSet(sets, name, MetaValue(p, key)) then RunRule(rest, p, sets, regs[1 := MetaValue(p, key)])
            else RuleRun([], None)
  {
    var r := [Meta(key, 1), Lookup(1, name, false)] + rest;
    assert r[1..] == [Lookup(1, name, false)] + rest && r[1..][1..] == rest;
  }

  lemma RunAddressLookup(off: nat, len: nat, name: string, invert: bool, rest: Rule, p: Packet, sets: Sets, regs: Registers)
    ensures var f := Field(p, NetworkHeader, off, len);
            RunRule([Payload(1, NetworkHeader, off, len), Lookup(1, name, invert)] + rest, p, sets, regs) ==
            if f.Some? && InSet(sets, name, f.value) != invert then RunRule(rest, p, sets, regs[1 := f.value])
            else RuleRun([], None)
  {
    var r := [Payload(1, NetworkHeader, off, len), Lookup(1, name, invert)] + rest;
    assert r[1..] == [Lookup(1, name, invert)] + rest && r[1..][1..] == rest;
  }

  lemma RunDone(v: Verdict, p: Packet, sets: Sets, regs: Registers)
    ensures RunRule([Done(v)], p, sets, regs) == RuleRun([], Some(v))
  {
  }

  lemma RunCountDone(name: string, v: Verdict, p: Packet, sets: Sets, regs: Registers)
    ensures RunRule([Counter(name), Done(v)], p, sets, regs) == RuleRun([name], Some(v))
  {
    var r := [Counter(name), Done(v)];
    assert r[1..] == [Done(v)];
    RunDone(v, p, sets, regs);
    assert [name] + [] == [name];
  }
}
