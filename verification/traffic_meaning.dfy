/**
 What the traffic table is meant to count, said of packets alone: addresses and ports at their
 places in the headers, interfaces, and the names of sets, chains and counters. None of the
 definitions the rules are built from is used.
 */
module TrafficMeaning {
  import opened Prelude
  import opened Octets
  import opened NftMachine
  import opened TrafficRules

  // ---- packet fields -------------------------------------------------------

  function Slice(header: Bytes, from: nat, to: nat): Option<Bytes>
    requires from <= to
  {
    if |header| >= to then Some(header[from..to]) else None
  }

  function SourceV4(p: Packet): Option<Bytes> {
    Slice(p.network, 12, 16)
  }

  function DestinationV4(p: Packet): Option<Bytes> {
    Slice(p.network, 16, 20)
  }

  function SourceV6(p: Packet): Option<Bytes> {
    Slice(p.network, 8, 24)
  }

  function DestinationV6(p: Packet): Option<Bytes> {
    Slice(p.network, 24, 40)
  }

  /** The big-endian number at an even place of the transport header. */
  function PortFrom(p: Packet, i: nat): Option<int> {
    if |p.transport| >= i + 2 then Some(256 * (p.transport[i] as int) + p.transport[i + 1] as int) else None
  }

  function SourcePort(p: Packet): Option<int> {
    PortFrom(p, 0)
  }

  function DestinationPort(p: Packet): Option<int> {
    PortFrom(p, 2)
  }

  predicate IsV4(p: Packet) {
    p.nfproto == 2
  }

  predicate IsV6(p: Packet) {
    p.nfproto == 10
  }

  predicate Listed(sets: Sets, name: string, a: Option<Bytes>) {
    a.Some? && name in sets && a.value in sets[name]
  }

  /** There is such an address, and it is not in the set. */
  predicate Unlisted(sets: Sets, name: string, a: Option<Bytes>) {
    a.Some? && !(name in sets && a.value in sets[name])
  }

  /** An interface name of fourteen zero bytes after "lo". */
  predicate IsLoopback(name: Bytes) {
    |name| == 16 && name[0] == 108 && name[1] == 111 && forall i :: 2 <= i < 16 ==> name[i] == 0
  }

  // ---- classes -------------------------------------------------------------

  /** Of the protocol, with its source or its destination port in the range. */
  predicate InRange(p: Packet, pm: PortMatch) {
    && p.l4proto == pm.proto
    && ((SourcePort(p).Some? && pm.lo <= SourcePort(p).value <= pm.hi)
        || (DestinationPort(p).Some? && pm.lo <= DestinationPort(p).value <= pm.hi))
  }

  predicate InClass(p: Packet, c: N2NClass) {
    (exists pm :: pm in c.ports && InRange(p, pm)) || p.l4proto in c.l4protos
  }

  /** The name of the first class the packet is in, or "n2nother" when it is in none. */
  ghost predicate ClassIs(cs: seq<N2NClass>, p: Packet, name: string) {
    || (exists i :: 0 <= i < |cs| && InClass(p, cs[i]) && name == cs[i].name && forall j :: 0 <= j < i ==> !InClass(p, cs[j]))
    || ((forall i :: 0 <= i < |cs| ==> !InClass(p, cs[i])) && name == "n2nother")
  }

  // ---- the two hooks -------------------------------------------------------

  /** Incoming backup traffic: over a physical interface, from no peer to the shim. */
  predicate BackupIn(p: Packet, sets: Sets) {
    && Listed(sets, "phys_ifs", Some(p.iif))
    && ((IsV4(p) && Listed(sets, "shim_v4", DestinationV4(p)) && Unlisted(sets, "peers_v4", SourceV4(p)))
        || (IsV6(p) && Listed(sets, "shim_v6", DestinationV6(p)) && Unlisted(sets, "peers_v6", SourceV6(p))))
  }

  /** Outgoing: from the shim to no peer. */
  predicate BackupOut(p: Packet, sets: Sets) {
    && Listed(sets, "phys_ifs", Some(p.oif))
    && ((IsV4(p) && Listed(sets, "shim_v4", SourceV4(p)) && Unlisted(sets, "peers_v4", DestinationV4(p)))
        || (IsV6(p) && Listed(sets, "shim_v6", SourceV6(p)) && Unlisted(sets, "peers_v6", DestinationV6(p))))
  }

  predicate FromPeer(p: Packet, sets: Sets) {
    (IsV4(p) && Listed(sets, "peers_v4", SourceV4(p))) || (IsV6(p) && Listed(sets, "peers_v6", SourceV6(p)))
  }

  predicate ToPeer(p: Packet, sets: Sets) {
    (IsV4(p) && Listed(sets, "peers_v4", DestinationV4(p))) || (IsV6(p) && Listed(sets, "peers_v6", DestinationV6(p)))
  }

  /** What is counted of a packet that comes in. */
  ghost predicate CountedIn(cs: seq<N2NClass>, p: Packet, sets: Sets, bumps: seq<string>) {
    if IsLoopback(p.iif) then bumps == []
    else if BackupIn(p, sets) then bumps == ["backup_in"]
    else if FromPeer(p, sets) then exists name :: ClassIs(cs, p, name) && bumps == [name + "_in"]
    else bumps == []
  }

  /** And of one that goes out. */
  ghost predicate CountedOut(cs: seq<N2NClass>, p: Packet, sets: Sets, bumps: seq<string>) {
    if IsLoopback(p.oif) then bumps == []
    else if BackupOut(p, sets) then bumps == ["backup_out"]
    else if ToPeer(p, sets) then exists name :: ClassIs(cs, p, name) && bumps == [name + "_out"]
    else bumps == []
  }

  // ---- the rules mean that -------------------------------------------------

  lemma FieldsAre(p: Packet)
    ensures Field(p, NetworkHeader, 12, 4) == SourceV4(p) && Field(p, NetworkHeader, 16, 4) == DestinationV4(p)
    ensures Field(p, NetworkHeader, 8, 16) == SourceV6(p) && Field(p, NetworkHeader, 24, 16) == DestinationV6(p)
    ensures PortAt(p, 0) == SourcePort(p) && PortAt(p, 2) == DestinationPort(p)
  {
  }

  lemma LoopbackIs(name: Bytes)
    ensures name == LO <==> IsLoopback(name)
  {
    if IsLoopback(name) {
      assert forall i :: 0 <= i < 16 ==> name[i] == LO[i];
    }
  }

  lemma ClassMeans(p: Packet, c: N2NClass)
    ensures MatchesClass(p, c) <==> InClass(p, c)
  {
    hide PortAt, SourcePort, DestinationPort;
    FieldsAre(p);
    forall pm | pm in c.ports ensures MatchesPort(p, pm) <==> InRange(p, pm) {
    }
  }

  lemma {:induction false} FirstClassIs(cs: seq<N2NClass>, p: Packet)
    ensures ClassIs(cs, p, FirstClass(cs, p))
  {
    hide InClass, MatchesClass;
    if cs != [] {
      ClassMeans(p, cs[0]);
      if !MatchesClass(p, cs[0]) {
        var rest, name := cs[1..], FirstClass(cs[1..], p);
        FirstClassIs(rest, p);
        if exists i :: 0 <= i < |rest| && InClass(p, rest[i]) && name == rest[i].name && forall j :: 0 <= j < i ==> !InClass(p, rest[j]) {
          var i :| 0 <= i < |rest| && InClass(p, rest[i]) && name == rest[i].name && forall j :: 0 <= j < i ==> !InClass(p, rest[j]);
          assert cs[i + 1] == rest[i];
          forall j | 0 <= j < i + 1 ensures !InClass(p, cs[j]) {
            if j > 0 {
              assert cs[j] == rest[j - 1];
            }
          }
        } else {
          forall i | 0 <= i < |cs| ensures !InClass(p, cs[i]) {
            if i > 0 {
              assert cs[i] == rest[i - 1];
            }
          }
        }
      }
    }
  }

  lemma BackupMeans(p: Packet, sets: Sets)
    ensures SomeBackup(p, In, sets) <==> BackupIn(p, sets)
    ensures SomeBackup(p, Out, sets) <==> BackupOut(p, sets)
  {
    hide Slice;
    FieldsAre(p);
  }

  lemma PeerMeans(p: Packet, sets: Sets)
    ensures SomePeer(p, In, sets) <==> FromPeer(p, sets)
    ensures SomePeer(p, Out, sets) <==> ToPeer(p, sets)
  {
    hide Slice;
    FieldsAre(p);
  }

  /** The table counts what it is meant to, for every class table and every packet: one counter at
      most on each hook, and the packet goes on. */
  lemma TableCounts(cs: seq<N2NClass>, p: Packet, sets: Sets, jumps: nat)
    requires jumps > 0
    ensures var chains := TableChains(cs);
            && "pre" in chains && "post" in chains
            && var pre, post := RunChain(chains, chains["pre"], p, sets, jumps), RunChain(chains, chains["post"], p, sets, jumps);
               && CountedIn(cs, p, sets, pre.bumps) && CountedOut(cs, p, sets, post.bumps)
               && (pre.end == FellOff || pre.end == Returned) && (post.end == FellOff || post.end == Returned)
  {
    hide RunChain, BaseChain, N2NChain, SomeBackup, SomePeer, BackupIn, BackupOut, FromPeer, ToPeer, ClassIs, FirstClass, IsLoopback;
    BaseChainCounts(cs, p, In, sets, jumps);
    BaseChainCounts(cs, p, Out, sets, jumps);
    BackupMeans(p, sets);
    PeerMeans(p, sets);
    LoopbackIs(p.iif);
    LoopbackIs(p.oif);
    FirstClassIs(cs, p);
    assert CounterName(BACKUP, In) == "backup_in" && CounterName(BACKUP, Out) == "backup_out";
  }

  /** And a node-to-node chain by itself bumps the counter of the packet's class, and returns. */
  lemma NodeToNodeCounts(cs: seq<N2NClass>, p: Packet, sets: Sets, jumps: nat)
    ensures var chains := TableChains(cs);
            && "n2n_in" in chains && "n2n_out" in chains
            && var incoming, outgoing := RunChain(chains, chains["n2n_in"], p, sets, jumps), RunChain(chains, chains["n2n_out"], p, sets, jumps);
               exists name ::
                 ClassIs(cs, p, name) && incoming == ChainRun([name + "_in"], Returned) && outgoing == ChainRun([name + "_out"], Returned)
  {
    hide RunChain, BaseChain, N2NChain, ClassIs, FirstClass;
    var chains := TableChains(cs);
    N2NClassifies(chains, cs, In, p, sets, jumps);
    N2NClassifies(chains, cs, Out, p, sets, jumps);
    FirstClassIs(cs, p);
    var name := FirstClass(cs, p);
    assert RunChain(chains, chains["n2n_in"], p, sets, jumps) == ChainRun([name + "_in"], Returned);
    assert RunChain(chains, chains["n2n_out"], p, sets, jumps) == ChainRun([name + "_out"], Returned);
  }
}
