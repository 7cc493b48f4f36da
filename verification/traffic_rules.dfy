/**
 The traffic-accounting table: compiling class tables to rules, and proof that the
 rules classify as the table says and change no verdict.
 */
module TrafficRules {
  import opened Prelude
  import opened Octets
  import opened NftMachine

  type Port = x: int | 0 <= x < 0x10000

  datatype Dir = In | Out

  datatype PortMatch = PortMatch(proto: Byte, lo: Port, hi: Port)

  datatype N2NClass = N2NClass(name: string, ports: seq<PortMatch>, l4protos: seq<Byte>)

  const SPORT := 0
  const DPORT := 2
  const N2N_OTHER := "n2nother"
  const BACKUP := "backup"

  function CounterName(class_: string, dir: Dir): string {
    class_ + if dir == In then "_in" else "_out"
  }

  function PortBytes(p: Port): Bytes {
    [p / 256, p % 256]
  }

  // ---- the n2n chains ------------------------------------------------------

  function PortMatchExpr(lo: Port, hi: Port): Expr {
    if lo == hi then Cmp(1, PortBytes(lo)) else Range(1, PortBytes(lo), PortBytes(hi))
  }

  function PortRule(counter: string, pm: PortMatch, off: nat): Rule {
    [Meta(L4Proto, 1), Cmp(1, [pm.proto]), Payload(1, TransportHeader, off, 2), PortMatchExpr(pm.lo, pm.hi),
     Counter(counter), Done(Return)]
  }

  function ProtoRule(counter: string, proto: Byte): Rule {
    [Meta(L4Proto, 1), Cmp(1, [proto]), Counter(counter), Done(Return)]
  }

  function PortRules(counter: string, pms: seq<PortMatch>): seq<Rule> {
    if pms == [] then []
    else [PortRule(counter, pms[0], SPORT)] + ([PortRule(counter, pms[0], DPORT)] + PortRules(counter, pms[1..]))
  }

  function ProtoRules(counter: string, protos: seq<Byte>): seq<Rule> {
    if protos == [] then [] else [ProtoRule(counter, protos[0])] + ProtoRules(counter, protos[1..])
  }

  function ClassRules(c: N2NClass, dir: Dir): seq<Rule> {
    PortRules(CounterName(c.name, dir), c.ports) + ProtoRules(CounterName(c.name, dir), c.l4protos)
  }

  function ClassesRules(cs: seq<N2NClass>, dir: Dir): seq<Rule> {
    if cs == [] then [] else ClassRules(cs[0], dir) + ClassesRules(cs[1..], dir)
  }

  function OtherRule(dir: Dir): Rule {
    [Counter(CounterName(N2N_OTHER, dir)), Done(Return)]
  }

  function N2NChain(cs: seq<N2NClass>, dir: Dir): seq<Rule> {
    ClassesRules(cs, dir) + [OtherRule(dir)]
  }

  lemma {:induction false} PortRulesSnoc(counter: string, pms: seq<PortMatch>, pm: PortMatch)
    ensures PortRules(counter, pms + [pm])
         == PortRules(counter, pms) + [PortRule(counter, pm, SPORT), PortRule(counter, pm, DPORT)]
  {
    if pms != [] {
      assert (pms + [pm])[1..] == pms[1..] + [pm];
      PortRulesSnoc(counter, pms[1..], pm);
    } else {
      assert pms + [pm] == [pm] && [pm][1..] == [];
    }
  }

  lemma {:induction false} ProtoRulesSnoc(counter: string, protos: seq<Byte>, proto: Byte)
    ensures ProtoRules(counter, protos + [proto]) == ProtoRules(counter, protos) + [ProtoRule(counter, proto)]
  {
    if protos != [] {
      assert (protos + [proto])[1..] == protos[1..] + [proto];
      ProtoRulesSnoc(counter, protos[1..], proto);
    } else {
      assert protos + [proto] == [proto] && [proto][1..] == [];
    }
  }

  lemma {:induction false} ClassesRulesSnoc(cs: seq<N2NClass>, c: N2NClass, dir: Dir)
    ensures ClassesRules(cs + [c], dir) == ClassesRules(cs, dir) + ClassRules(c, dir)
  {
    if cs != [] {
      assert (cs + [c])[1..] == cs[1..] + [c];
      ClassesRulesSnoc(cs[1..], c, dir);
    } else {
      assert cs + [c] == [c] && [c][1..] == [];
    }
  }

  method ClassExprs(c: N2NClass, dir: Dir) returns (rules: seq<Rule>)
    ensures rules == ClassRules(c, dir)
  {
    var counter := CounterName(c.name, dir);
    rules := [];
    for i := 0 to |c.ports|
      invariant rules == PortRules(counter, c.ports[..i])
    {
      PortRulesSnoc(counter, c.ports[..i], c.ports[i]);
      assert c.ports[..i + 1] == c.ports[..i] + [c.ports[i]];
      rules := rules + [PortRule(counter, c.ports[i], SPORT)];
      rules := rules + [PortRule(counter, c.ports[i], DPORT)];
    }
    assert c.ports[..|c.ports|] == c.ports;
    ghost var portRules := rules;
    for i := 0 to |c.l4protos|
      invariant rules == portRules + ProtoRules(counter, c.l4protos[..i])
    {
      ProtoRulesSnoc(counter, c.l4protos[..i], c.l4protos[i]);
      assert c.l4protos[..i + 1] == c.l4protos[..i] + [c.l4protos[i]];
      rules := rules + [ProtoRule(counter, c.l4protos[i])];
    }
    assert c.l4protos[..|c.l4protos|] == c.l4protos;
  }

  /** Build an n2n chain: per class its port rules and protocol rules, then the catch-all. */
  method N2NChainExprs(cs: seq<N2NClass>, dir: Dir) returns (rules: seq<Rule>)
    ensures rules == N2NChain(cs, dir)
  {
    rules := [];
    for i := 0 to |cs|
      invariant rules == ClassesRules(cs[..i], dir)
    {
      ClassesRulesSnoc(cs[..i], cs[i], dir);
      assert cs[..i + 1] == cs[..i] + [cs[i]];
      var more := ClassExprs(cs[i], dir);
      rules := rules + more;
    }
    assert cs[..|cs|] == cs;
    rules := rules + [OtherRule(dir)];
  }

  // ---- what the n2n chains mean --------------------------------------------

  /** The big-endian number two bytes spell. */
  function PortValue(b: Bytes): int
    requires |b| == 2
  {
    (b[0] as int) * 256 + b[1] as int
  }

  function PortAt(p: Packet, off: nat): Option<int> {
    var f := Field(p, TransportHeader, off, 2);
    if f.Some? then Some(PortValue(f.value)) else None
  }

  predicate PortIn(p: Packet, off: nat, pm: PortMatch) {
    PortAt(p, off).Some? && pm.lo <= PortAt(p, off).value <= pm.hi
  }

  /** The packet is of the protocol and its source or destination port is in the range. */
  predicate MatchesPort(p: Packet, pm: PortMatch) {
    p.l4proto == pm.proto && (PortIn(p, SPORT, pm) || PortIn(p, DPORT, pm))
  }

  predicate MatchesClass(p: Packet, c: N2NClass) {
    (exists pm :: pm in c.ports && MatchesPort(p, pm)) || p.l4proto in c.l4protos
  }

  /** The name of the first class that matches, or n2nother. */
  function FirstClass(cs: seq<N2NClass>, p: Packet): string {
    if cs == [] then N2N_OTHER
    else if MatchesClass(p, cs[0]) then cs[0].name
    else FirstClass(cs[1..], p)
  }

  /** memcmp of two big-endian ports orders them as numbers. */
  lemma PortOrder(a: Bytes, b: Bytes)
    requires |a| == 2 && |b| == 2
    ensures BytesLeq(a, b) <==> PortValue(a) <= PortValue(b)
    ensures a == b <==> PortValue(a) == PortValue(b)
  {
    assert BytesLeq(a[1..], b[1..]) <==> a[1] <= b[1] by {
      assert a[1..][1..] == [] && b[1..][1..] == [];
    }
    if a[0] == b[0] && a[1] == b[1] {
      assert a == b;
    }
  }

  lemma RunPortRule(counter: string, pm: PortMatch, off: nat, p: Packet, sets: Sets)
    ensures RunRule(PortRule(counter, pm, off), p, sets, map[]) ==
            if p.l4proto == pm.proto && PortIn(p, off, pm) then RuleRun([counter], Some(Return)) else RuleRun([], None)
  {
    var r := PortRule(counter, pm, off);
    var regs: Registers := map[1 := [p.l4proto]];
    assert RunRule(r, p, sets, map[]) == RunRule(r[1..], p, sets, regs);
    if p.l4proto == pm.proto {
      assert RunRule(r[1..], p, sets, regs) == RunRule(r[1..][1..], p, sets, regs);
      assert r[1..][1..] == r[2..];
      var f := Field(p, TransportHeader, off, 2);
      if f.Some? {
        var regs2 := regs[1 := f.value];
        assert r[2..][1..] == r[3..];
        assert RunRule(r[2..], p, sets, regs) == RunRule(r[3..], p, sets, regs2);
        RunPortMatch(counter, pm, f.value, p, sets, regs2, r[3..]);
      }
    } else {
      assert RunRule(r[1..], p, sets, regs) == RuleRun([], None);
    }
  }

  lemma RunPortMatch(counter: string, pm: PortMatch, port: Bytes, p: Packet, sets: Sets, regs: Registers, r: Rule)
    requires |port| == 2 && Reg(regs, 1) == port
    requires r == [PortMatchExpr(pm.lo, pm.hi), Counter(counter), Done(Return)]
    ensures RunRule(r, p, sets, regs) ==
            if pm.lo <= PortValue(port) <= pm.hi then RuleRun([counter], Some(Return)) else RuleRun([], None)
  {
    PortOrder(PortBytes(pm.lo), port);
    PortOrder(port, PortBytes(pm.hi));
    var done := [Done(Return)];
    assert r[1..][1..] == done;
    assert RunRule(done, p, sets, regs) == RuleRun([], Some(Return));
    assert RunRule(r[1..], p, sets, regs) == RuleRun([counter] + [], Some(Return));
  }

  lemma RunProtoRule(counter: string, proto: Byte, p: Packet, sets: Sets)
    ensures RunRule(ProtoRule(counter, proto), p, sets, map[]) ==
            if p.l4proto == proto then RuleRun([counter], Some(Return)) else RuleRun([], None)
  {
    var r := ProtoRule(counter, proto);
    var regs: Registers := map[1 := [p.l4proto]];
    assert RunRule(r, p, sets, map[]) == RunRule(r[1..], p, sets, regs);
    if p.l4proto == proto {
      assert r[1..][1..] == r[2..] && r[2..][1..] == [Done(Return)];
      assert RunRule(r[1..], p, sets, regs) == RunRule(r[2..], p, sets, regs);
      assert RunRule([Done(Return)], p, sets, regs) == RuleRun([], Some(Return));
      assert RunRule(r[2..], p, sets, regs) == RuleRun([counter] + [], Some(Return));
    } else {
      assert RunRule(r[1..], p, sets, regs) == RuleRun([], None);
    }
  }

  /** A rule that counts and returns, or does not match, in front of `rest`. */
  function Stop(matches: bool, counter: string, rest: ChainRun): ChainRun {
    if matches then ChainRun([counter], Returned) else rest
  }

  lemma RunCountingRule(chains: map<string, seq<Rule>>, r: Rule, rest: seq<Rule>, matches: bool, counter: string,
                        p: Packet, sets: Sets, jumps: nat)
    requires RunRule(r, p, sets, map[]) == if matches then RuleRun([counter], Some(Return)) else RuleRun([], None)
    ensures RunChain(chains, [r] + rest, p, sets, jumps) == Stop(matches, counter, RunChain(chains, rest, p, sets, jumps))
  {
    if matches {
      assert ([r] + rest)[0] == r;
    } else {
      RunPassing(chains, r, rest, p, sets, jumps);
    }
  }

  lemma {:induction false} RunPortRules(chains: map<string, seq<Rule>>, counter: string, pms: seq<PortMatch>,
                                        p: Packet, sets: Sets, jumps: nat)
    ensures RunChain(chains, PortRules(counter, pms), p, sets, jumps) ==
            Stop(exists pm :: pm in pms && MatchesPort(p, pm), counter, ChainRun([], FellOff))
  {
    if pms != [] {
      var pm := pms[0];
      var rest := PortRules(counter, pms[1..]);
      RunPortRules(chains, counter, pms[1..], p, sets, jumps);
      RunPortRule(counter, pm, DPORT, p, sets);
      RunCountingRule(chains, PortRule(counter, pm, DPORT), rest, p.l4proto == pm.proto && PortIn(p, DPORT, pm),
                      counter, p, sets, jumps);
      RunPortRule(counter, pm, SPORT, p, sets);
      RunCountingRule(chains, PortRule(counter, pm, SPORT), [PortRule(counter, pm, DPORT)] + rest,
                      p.l4proto == pm.proto && PortIn(p, SPORT, pm), counter, p, sets, jumps);
      assert pms == [pm] + pms[1..];
      assert (exists q :: q in pms && MatchesPort(p, q)) <==>
             MatchesPort(p, pm) || exists q :: q in pms[1..] && MatchesPort(p, q);
    }
  }

  lemma {:induction false} RunProtoRules(chains: map<string, seq<Rule>>, counter: string, protos: seq<Byte>,
                                         p: Packet, sets: Sets, jumps: nat)
    ensures RunChain(chains, ProtoRules(counter, protos), p, sets, jumps) ==
            Stop(p.l4proto in protos, counter, ChainRun([], FellOff))
  {
    if protos != [] {
      RunProtoRules(chains, counter, protos[1..], p, sets, jumps);
      RunProtoRule(counter, protos[0], p, sets);
      RunCountingRule(chains, ProtoRule(counter, protos[0]), ProtoRules(counter, protos[1..]),
                      p.l4proto == protos[0], counter, p, sets, jumps);
      assert protos == [protos[0]] + protos[1..];
    }
  }

  lemma RunClassRules(chains: map<string, seq<Rule>>, c: N2NClass, dir: Dir, p: Packet, sets: Sets, jumps: nat)
    ensures RunChain(chains, ClassRules(c, dir), p, sets, jumps) ==
            Stop(MatchesClass(p, c), CounterName(c.name, dir), ChainRun([], FellOff))
  {
    var counter := CounterName(c.name, dir);
    RunPortRules(chains, counter, c.ports, p, sets, jumps);
    RunProtoRules(chains, counter, c.l4protos, p, sets, jumps);
    RunAppend(chains, PortRules(counter, c.ports), ProtoRules(counter, c.l4protos), p, sets, jumps);
  }

  /** Whatever the class table, a packet sent through an n2n chain bumps exactly one
      counter, that of the first matching class, and comes back. */
  lemma {:induction false} N2NClassifies(chains: map<string, seq<Rule>>, cs: seq<N2NClass>, dir: Dir,
                                         p: Packet, sets: Sets, jumps: nat)
    ensures RunChain(chains, N2NChain(cs, dir), p, sets, jumps) ==
            ChainRun([CounterName(FirstClass(cs, p), dir)], Returned)
  {
    if cs == [] {
      assert N2NChain(cs, dir) == [OtherRule(dir)];
      var r := OtherRule(dir);
      assert r[1..] == [Done(Return)];
      assert RunRule([Done(Return)], p, sets, map[]) == RuleRun([], Some(Return));
      assert RunRule(r, p, sets, map[]) == RuleRun([r[0].name] + [], Some(Return));
    } else {
      assert N2NChain(cs, dir) == ClassRules(cs[0], dir) + N2NChain(cs[1..], dir);
      RunClassRules(chains, cs[0], dir, p, sets, jumps);
      N2NClassifies(chains, cs[1..], dir, p, sets, jumps);
      RunAppend(chains, ClassRules(cs[0], dir), N2NChain(cs[1..], dir), p, sets, jumps);
    }
  }

  // ---- the base chains -----------------------------------------------------

  datatype Family = Family(nfproto: Byte, saddr: nat, daddr: nat, len: nat, peerSet: string, shimSet: string)

  const V4 := Family(0x02, 12, 16, 4, "peers_v4", "shim_v4")
  const V6 := Family(0x0a, 8, 24, 16, "peers_v6", "shim_v6")
  const PHYS_IFS := "phys_ifs"

  function IfKey(dir: Dir): MetaKey {
    if dir == In then IifName else OifName
  }

  function N2NChainName(dir: Dir): string {
    if dir == In then "n2n_in" else "n2n_out"
  }

  /** Incoming, the peer is the source and the shim the destination. */
  function PeerOff(f: Family, dir: Dir): nat {
    if dir == In then f.saddr else f.daddr
  }

  function ShimOff(f: Family, dir: Dir): nat {
    if dir == In then f.daddr else f.saddr
  }

  /** "lo", padded to the width of an interface name. */
  const LO: Bytes := [0x6c, 0x6f, 0, 0, 0, 0, 0, 0, 0, 0, 0, 0, 0, 0, 0, 0]

  function LoRule(dir: Dir): Rule {
    [Meta(IfKey(dir), 1), Cmp(1, LO), Done(Return)]
  }

  function BackupRule(dir: Dir, f: Family): Rule {
    [Meta(IfKey(dir), 1), Lookup(1, PHYS_IFS, false),
     Meta(NfProto, 1), Cmp(1, [f.nfproto]),
     Payload(1, NetworkHeader, ShimOff(f, dir), f.len), Lookup(1, f.shimSet, false),
     Payload(1, NetworkHeader, PeerOff(f, dir), f.len), Lookup(1, f.peerSet, true),
     Counter(CounterName(BACKUP, dir)), Done(Return)]
  }

  function JumpRule(dir: Dir, f: Family): Rule {
    [Meta(NfProto, 1), Cmp(1, [f.nfproto]),
     Payload(1, NetworkHeader, PeerOff(f, dir), f.len), Lookup(1, f.peerSet, false),
     Done(Jump(N2NChainName(dir)))]
  }

  function BaseChain(dir: Dir): seq<Rule> {
    [LoRule(dir), BackupRule(dir, V4), BackupRule(dir, V6), JumpRule(dir, V4), JumpRule(dir, V6)]
  }

  method BaseChainExprs(dir: Dir) returns (rules: seq<Rule>)
    ensures rules == BaseChain(dir)
  {
    var fams := [V4, V6];
    rules := [LoRule(dir)];
    for i := 0 to |fams|
      invariant rules == [LoRule(dir)] + seq(i, k requires 0 <= k < i => BackupRule(dir, fams[k]))
    {
      rules := rules + [BackupRule(dir, fams[i])];
    }
    for i := 0 to |fams|
      invariant rules == [LoRule(dir), BackupRule(dir, V4), BackupRule(dir, V6)]
                         + seq(i, k requires 0 <= k < i => JumpRule(dir, fams[k]))
    {
      rules := rules + [JumpRule(dir, fams[i])];
    }
  }

  predicate AddressIn(p: Packet, off: nat, f: Family, sets: Sets, name: string) {
    var a := Field(p, NetworkHeader, off, f.len);
    a.Some? && InSet(sets, name, a.value)
  }

  /** Backup traffic: over a physical interface, to or from the shim, with an outside host. */
  predicate IsBackup(p: Packet, dir: Dir, f: Family, sets: Sets) {
    && InSet(sets, PHYS_IFS, MetaValue(p, IfKey(dir)))
    && p.nfproto == f.nfproto
    && AddressIn(p, ShimOff(f, dir), f, sets, f.shimSet)
    && Field(p, NetworkHeader, PeerOff(f, dir), f.len).Some?
    && !AddressIn(p, PeerOff(f, dir), f, sets, f.peerSet)
  }

  predicate IsPeer(p: Packet, dir: Dir, f: Family, sets: Sets) {
    p.nfproto == f.nfproto && AddressIn(p, PeerOff(f, dir), f, sets, f.peerSet)
  }

  lemma RunLoRule(dir: Dir, p: Packet, sets: Sets)
    ensures RunRule(LoRule(dir), p, sets, map[]) ==
            if MetaValue(p, IfKey(dir)) == LO then RuleRun([], Some(Return)) else RuleRun([], None)
  {
    assert LoRule(dir) == [Meta(IfKey(dir), 1), Cmp(1, LO)] + [Done(Return)];
    RunLoadCompare(IfKey(dir), LO, [Done(Return)], p, sets, map[]);
    RunDone(Return, p, sets, map[1 := MetaValue(p, IfKey(dir))]);
  }

  lemma RunShimPart(dir: Dir, f: Family, r: Rule, p: Packet, sets: Sets, regs: Registers)
    requires r == [Payload(1, NetworkHeader, ShimOff(f, dir), f.len), Lookup(1, f.shimSet, false),
                   Payload(1, NetworkHeader, PeerOff(f, dir), f.len), Lookup(1, f.peerSet, true),
                   Counter(CounterName(BACKUP, dir)), Done(Return)]
    ensures RunRule(r, p, sets, regs) ==
            if AddressIn(p, ShimOff(f, dir), f, sets, f.shimSet) &&
               Field(p, NetworkHeader, PeerOff(f, dir), f.len).Some? && !AddressIn(p, PeerOff(f, dir), f, sets, f.peerSet)
            then RuleRun([CounterName(BACKUP, dir)], Some(Return)) else RuleRun([], None)
  {
    var tail := [Counter(CounterName(BACKUP, dir)), Done(Return)];
    var peer := [Payload(1, NetworkHeader, PeerOff(f, dir), f.len), Lookup(1, f.peerSet, true)] + tail;
    assert r == [Payload(1, NetworkHeader, ShimOff(f, dir), f.len), Lookup(1, f.shimSet, false)] + peer;
    RunAddressLookup(ShimOff(f, dir), f.len, f.shimSet, false, peer, p, sets, regs);
    var shim := Field(p, NetworkHeader, ShimOff(f, dir), f.len);
    if shim.Some? {
      var regs2 := regs[1 := shim.value];
      RunAddressLookup(PeerOff(f, dir), f.len, f.peerSet, true, tail, p, sets, regs2);
      var addr := Field(p, NetworkHeader, PeerOff(f, dir), f.len);
      if addr.Some? {
        RunCountDone(CounterName(BACKUP, dir), Return, p, sets, regs2[1 := addr.value]);
      }
    }
  }

  lemma RunBackupRule(dir: Dir, f: Family, p: Packet, sets: Sets)
    ensures RunRule(BackupRule(dir, f), p, sets, map[]) ==
            if IsBackup(p, dir, f, sets) then RuleRun([CounterName(BACKUP, dir)], Some(Return)) else RuleRun([], None)
  {
    var r := BackupRule(dir, f);
    var guard := [Meta(NfProto, 1), Cmp(1, [f.nfproto])];
    var shim := r[4..];
    assert r == [Meta(IfKey(dir), 1), Lookup(1, PHYS_IFS, false)] + (guard + shim);
    RunLoadLookup(IfKey(dir), PHYS_IFS, guard + shim, p, sets, map[]);
    var regs: Registers := map[1 := MetaValue(p, IfKey(dir))];
    RunLoadCompare(NfProto, [f.nfproto], shim, p, sets, regs);
    RunShimPart(dir, f, shim, p, sets, regs[1 := MetaValue(p, NfProto)]);
  }

  lemma RunJumpRule(dir: Dir, f: Family, p: Packet, sets: Sets)
    ensures RunRule(JumpRule(dir, f), p, sets, map[]) ==
            if IsPeer(p, dir, f, sets) then RuleRun([], Some(Jump(N2NChainName(dir)))) else RuleRun([], None)
  {
    var jump := [Done(Jump(N2NChainName(dir)))];
    var lookup := [Payload(1, NetworkHeader, PeerOff(f, dir), f.len), Lookup(1, f.peerSet, false)] + jump;
    assert JumpRule(dir, f) == [Meta(NfProto, 1), Cmp(1, [f.nfproto])] + lookup;
    RunLoadCompare(NfProto, [f.nfproto], lookup, p, sets, map[]);
    var regs: Registers := map[1 := MetaValue(p, NfProto)];
    RunAddressLookup(PeerOff(f, dir), f.len, f.peerSet, false, jump, p, sets, regs);
    var addr := Field(p, NetworkHeader, PeerOff(f, dir), f.len);
    if addr.Some? {
      RunDone(Jump(N2NChainName(dir)), p, sets, regs[1 := addr.value]);
    }
  }

  /** The four chains of the table, for any class table. */
  function TableChains(cs: seq<N2NClass>): map<string, seq<Rule>> {
    map["pre" := BaseChain(In), "post" := BaseChain(Out), "n2n_in" := N2NChain(cs, In), "n2n_out" := N2NChain(cs, Out)]
  }

  predicate SomeBackup(p: Packet, dir: Dir, sets: Sets) {
    IsBackup(p, dir, V4, sets) || IsBackup(p, dir, V6, sets)
  }

  predicate SomePeer(p: Packet, dir: Dir, sets: Sets) {
    IsPeer(p, dir, V4, sets) || IsPeer(p, dir, V6, sets)
  }

  /** What the table is meant to count for a packet on one of its hooks. */
  function Counted(cs: seq<N2NClass>, p: Packet, dir: Dir, sets: Sets): seq<string> {
    if MetaValue(p, IfKey(dir)) == LO then []
    else if SomeBackup(p, dir, sets) then [CounterName(BACKUP, dir)]
    else if SomePeer(p, dir, sets) then [CounterName(FirstClass(cs, p), dir)]
    else []
  }

  lemma N2NClassifiesHere(cs: seq<N2NClass>, dir: Dir, p: Packet, sets: Sets, jumps: nat)
    ensures N2NChainName(dir) in TableChains(cs)
    ensures RunChain(TableChains(cs), TableChains(cs)[N2NChainName(dir)], p, sets, jumps) ==
            ChainRun([CounterName(FirstClass(cs, p), dir)], Returned)
  {
    hide RunChain, CounterName, FirstClass, N2NChain, BaseChain;
    N2NClassifies(TableChains(cs), cs, dir, p, sets, jumps);
  }

  /** One jump rule in front of others. */
  lemma RunOneJump(cs: seq<N2NClass>, p: Packet, dir: Dir, f: Family, rest: seq<Rule>, sets: Sets, jumps: nat)
    requires jumps > 0
    ensures var name := CounterName(FirstClass(cs, p), dir);
            var after := RunChain(TableChains(cs), rest, p, sets, jumps);
            RunChain(TableChains(cs), [JumpRule(dir, f)] + rest, p, sets, jumps) ==
            if IsPeer(p, dir, f, sets) then ChainRun([name] + after.bumps, after.end) else after
  {
    hide JumpRule, IsPeer, CounterName, FirstClass, TableChains, RunChain, RunRule, N2NChainName;
    var chains := TableChains(cs);
    var rule := JumpRule(dir, f);
    RunJumpRule(dir, f, p, sets);
    if IsPeer(p, dir, f, sets) {
      N2NClassifiesHere(cs, dir, p, sets, jumps - 1);
      RunJumpTaken(chains, rule, N2NChainName(dir), [CounterName(FirstClass(cs, p), dir)], rest, p, sets, jumps);
    } else {
      RunPassedBy(chains, rule, rest, p, sets, jumps);
    }
  }

  lemma RunJumps(cs: seq<N2NClass>, p: Packet, dir: Dir, sets: Sets, jumps: nat)
    requires jumps > 0
    ensures RunChain(TableChains(cs), [JumpRule(dir, V4), JumpRule(dir, V6)], p, sets, jumps) ==
            ChainRun(if SomePeer(p, dir, sets) then [CounterName(FirstClass(cs, p), dir)] else [], FellOff)
  {
    hide JumpRule, CounterName, FirstClass, TableChains;
    var name := CounterName(FirstClass(cs, p), dir);
    var v4, v6 := JumpRule(dir, V4), JumpRule(dir, V6);
    RunOneJump(cs, p, dir, V6, [], sets, jumps);
    RunOneJump(cs, p, dir, V4, [v6], sets, jumps);
    assert [v6] + [] == [v6] && [v4] + [v6] == [v4, v6];
    assert RunChain(TableChains(cs), [], p, sets, jumps) == ChainRun([], FellOff);
    assert [name] + [] == [name];
  }

  /** On either hook, for every class table and every packet: the table counts what it is
      meant to, at most one counter, and leaves the packet to the chain's policy, accept. */
  lemma BaseChainCounts(cs: seq<N2NClass>, p: Packet, dir: Dir, sets: Sets, jumps: nat)
    requires jumps > 0
    ensures var run := RunChain(TableChains(cs), BaseChain(dir), p, sets, jumps);
            && run.bumps == Counted(cs, p, dir, sets) && |run.bumps| <= 1
            && (run.end == FellOff || run.end == Returned)
  {
    var chains := TableChains(cs);
    var backup := CounterName(BACKUP, dir);
    var b4, b6 := BackupRule(dir, V4), BackupRule(dir, V6);
    var jumpRules := [JumpRule(dir, V4), JumpRule(dir, V6)];
    assert BaseChain(dir) == [LoRule(dir)] + ([b4] + ([b6] + jumpRules));
    RunJumps(cs, p, dir, sets, jumps);
    RunBackupRule(dir, V6, p, sets);
    RunCountingRule(chains, b6, jumpRules, IsBackup(p, dir, V6, sets), backup, p, sets, jumps);
    RunBackupRule(dir, V4, p, sets);
    RunCountingRule(chains, b4, [b6] + jumpRules, IsBackup(p, dir, V4, sets), backup, p, sets, jumps);
    RunLoRule(dir, p, sets);
    if MetaValue(p, IfKey(dir)) == LO {
      assert BaseChain(dir)[0] == LoRule(dir);
    } else {
      RunPassing(chains, LoRule(dir), [b4] + ([b6] + jumpRules), p, sets, jumps);
    }
  }
}
