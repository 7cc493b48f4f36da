/**
 Pending peers: addresses let in ahead of their nodes. One reconcile pass, and what holds over
 every run of passes, on any number of nodes, each reading a view that may lag behind, on a
 clock that does not go back. Times are in nanoseconds.
 */
module PendingPeers {
  import opened Prelude
  import opened Seconds

  type Name = string
  type Ip = string

  /** `ip` is None when spec.ip is missing or no address; `created` is None for a zero creation
      time; `claimedAt` is stored to the second. */
  datatype Peer = Peer(ip: Option<Ip>, created: Option<int>, ttl: int, claimedAt: Option<int>)

  function ExpiresAt(p: Peer, now: int): int {
    (if p.created.Some? then p.created.value else now) + p.ttl
  }

  /** Past its grace if claimed, past its lifetime if not. */
  predicate Outlived(p: Peer, now: int, grace: int) {
    p.ip.Some? && (if p.claimedAt.Some? then now > p.claimedAt.value + grace else now > ExpiresAt(p, now))
  }

  predicate Live(p: Peer, now: int, grace: int) {
    p.ip.Some? && !Outlived(p, now, grace)
  }

  predicate Claims(p: Peer, now: int, grace: int, nodes: set<Ip>) {
    Live(p, now, grace) && p.claimedAt.None? && p.ip.value in nodes
  }

  /** The time a peer has: the grace counts from its claim, the lifetime from its creation; one
      with neither time has only just come. */
  predicate InTime(p: Peer, now: int, grace: int) {
    match (p.claimedAt, p.created)
    case (Some(at), _) => now - at <= grace
    case (None, Some(at)) => now - at <= p.ttl
    case (None, None) => p.ttl >= 0
  }

  type Peers = map<Name, Peer>

  /** The addresses of the pending peers that are inside their lifetime or grace. */
  function LiveIps(peers: Peers, now: int, grace: int): set<Ip> {
    set n | n in peers && Live(peers[n], now, grace) :: peers[n].ip.value
  }

  function Claimants(peers: Peers, now: int, grace: int, nodes: set<Ip>): set<Name> {
    set n | n in peers && Claims(peers[n], now, grace, nodes)
  }

  function Expired(peers: Peers, now: int, grace: int): set<Name> {
    set n | n in peers && Outlived(peers[n], now, grace)
  }

  /** What the outside answers during a pass: whether the kernel write works, and for which
      objects the status patch or the delete does not. */
  datatype Faults = Faults(apply: bool, patch: set<Name>, delete: set<Name>)

  /** The pass read a copy of `n` that it deletes, and the delete works. */
  predicate Drops(view: Peers, n: Name, now: int, grace: int, f: Faults) {
    !f.apply && n in view && Outlived(view[n], now, grace) && n !in f.delete
  }

  /** The pass read a copy of `n` that it claims, and the patch works. */
  predicate Marks(view: Peers, n: Name, now: int, grace: int, nodes: set<Ip>, f: Faults) {
    !f.apply && n in view && Claims(view[n], now, grace, nodes) && n !in f.patch
  }

  /** The objects after a pass that read `view`. It patches and deletes by name. */
  function AfterPass(peers: Peers, view: Peers, now: int, grace: int, nodes: set<Ip>, f: Faults): Peers {
    map n | n in peers && !Drops(view, n, now, grace, f) ::
      if Marks(view, n, now, grace, nodes, f) then peers[n].(claimedAt := Some(Floor(now))) else peers[n]
  }

  /** What a pass does about one object: nothing, delete it, or let its address in. */
  datatype Kind = Unusable | Gone | Active(claim: bool)

  method ClassifyOne(p: Peer, now: int, nodes: set<Ip>, grace: int) returns (k: Kind)
    ensures k.Unusable? <==> p.ip.None?
    ensures k.Gone? <==> Outlived(p, now, grace)
    ensures k.Active? <==> Live(p, now, grace)
    ensures (k.Active? && k.claim) <==> Claims(p, now, grace, nodes)
    ensures k == if p.ip.None? then Unusable else if !InTime(p, now, grace) then Gone
                 else Active(p.claimedAt.None? && p.ip.value in nodes)
  {
    if p.ip.None? {
      return Unusable;
    }
    if p.claimedAt.Some? {
      if now > p.claimedAt.value + grace {
        return Gone;
      }
    } else if now > ExpiresAt(p, now) {
      return Gone;
    }
    if p.claimedAt.Some? {
      return Active(false);
    }
    return Active(p.ip.value in nodes);
  }

  /** Adding an object to those already looked at. */
  lemma OneMore(seen: Peers, name: Name, p: Peer, now: int, grace: int, nodes: set<Ip>)
    requires name !in seen
    ensures LiveIps(seen[name := p], now, grace) ==
            LiveIps(seen, now, grace) + (if Live(p, now, grace) then {p.ip.value} else {})
    ensures Claimants(seen[name := p], now, grace, nodes) ==
            Claimants(seen, now, grace, nodes) + (if Claims(p, now, grace, nodes) then {name} else {})
    ensures Expired(seen[name := p], now, grace) ==
            Expired(seen, now, grace) + (if Outlived(p, now, grace) then {name} else {})
  {
    hide Claims, Outlived;
    var all := seen[name := p];
    forall ip | ip in LiveIps(seen, now, grace) ensures ip in LiveIps(all, now, grace) {
      var n :| n in seen && Live(seen[n], now, grace) && seen[n].ip == Some(ip);
      assert all[n] == seen[n];
    }
    if Live(p, now, grace) {
      assert all[name] == p;
    }
  }

  lemma NoneSeen(now: int, grace: int, nodes: set<Ip>)
    ensures LiveIps(map[], now, grace) == {} && Claimants(map[], now, grace, nodes) == {} && Expired(map[], now, grace) == {}
  {
  }

  /** A pass whose kernel write worked lets in the nodes' addresses and those of the peers it read
      that are in time. */
  ghost predicate AppliedOk(applied: set<Ip>, view: Peers, now: int, grace: int, nodes: set<Ip>) {
    forall ip :: ip in applied <==>
      ip in nodes || exists n :: n in view && view[n].ip == Some(ip) && InTime(view[n], now, grace)
  }

  /** What it does to the object `n`, going by what it read of it: gone if it had an address and
      was not in time; claimed, to the second, if it was, had no claim and had a node's address;
      left alone otherwise, and when the call that would change it fails. */
  ghost predicate ObjectOk(was: Peers, after: Peers, n: Name, view: Peers, now: int, grace: int, nodes: set<Ip>, f: Faults) {
    var read := n in view && view[n].ip.Some? && !f.apply;
    var drop := read && !InTime(view[n], now, grace) && n !in f.delete;
    var claim := read && InTime(view[n], now, grace) && view[n].claimedAt.None? && view[n].ip.value in nodes && n !in f.patch;
    && (n in after <==> n in was && !drop)
    && (n in after ==>
          after[n] == if claim then was[n].(claimedAt := Some(now - now % 1000000000)) else was[n])
  }

  /** What the sets and the step function of a pass come to, object by object. */
  lemma PassMeans(peers: Peers, view: Peers, now: int, grace: int, nodes: set<Ip>, f: Faults)
    ensures AppliedOk(nodes + LiveIps(view, now, grace), view, now, grace, nodes)
    ensures forall n :: ObjectOk(peers, AfterPass(peers, view, now, grace, nodes, f), n, view, now, grace, nodes, f)
  {
    assert forall p :: Live(p, now, grace) <==> p.ip.Some? && InTime(p, now, grace);
    forall ip | exists n :: n in view && view[n].ip == Some(ip) && InTime(view[n], now, grace)
      ensures ip in LiveIps(view, now, grace)
    {
      var n :| n in view && view[n].ip == Some(ip) && InTime(view[n], now, grace);
      assert Live(view[n], now, grace);
    }
  }

  class Reconciler {
    const grace: int
    var peers: Peers
    var applied: set<Ip>

    constructor (grace: int)
      ensures this.grace == grace && peers == map[] && applied == {}
    {
      this.grace := grace;
      peers, applied := map[], {};
    }

    /** Sort the pending peers: addresses to let in, objects to claim, objects to delete. */
    method Classify(view: Peers, now: int, nodes: set<Ip>) returns (ips: set<Ip>, claim: set<Name>, expired: set<Name>)
      ensures ips == LiveIps(view, now, grace)
      ensures claim == Claimants(view, now, grace, nodes)
      ensures expired == Expired(view, now, grace)
    {
      hide Live, Claims, Outlived, LiveIps, Claimants, Expired;
      ips, claim, expired := {}, {}, {};
      var rest := view.Keys;
      ghost var seen: Peers := map[];
      NoneSeen(now, grace, nodes);
      while rest != {}
        invariant rest <= view.Keys && seen == view - rest
        invariant ips == LiveIps(seen, now, grace)
        invariant claim == Claimants(seen, now, grace, nodes)
        invariant expired == Expired(seen, now, grace)
        decreases |rest|
      {
        var name :| name in rest;
        var p := view[name];
        OneMore(seen, name, p, now, grace, nodes);
        assert seen[name := p] == view - (rest - {name});
        seen := seen[name := p];
        var kind := ClassifyOne(p, now, nodes, grace);
        rest := rest - {name};
        if kind.Gone? {
          expired := expired + {name};
        } else if kind.Active? {
          ips := ips + {p.ip.value};
          if kind.claim {
            claim := claim + {name};
          }
        }
      }
      assert seen == view;
    }

    /** One pass over what the informer shows: the applied set is exactly the nodes' addresses
        and those of live pending peers; if the write fails nothing else is done. */
    method ReconcileOnce(view: Peers, now: int, nodes: set<Ip>, f: Faults)
      modifies this
      ensures applied == if f.apply then old(applied) else nodes + LiveIps(view, now, grace)
      ensures peers == AfterPass(old(peers), view, now, grace, nodes, f)
      ensures !f.apply ==> AppliedOk(applied, view, now, grace, nodes)
      ensures forall n :: ObjectOk(old(peers), peers, n, view, now, grace, nodes, f)
    {
      hide AppliedOk, ObjectOk;
      PassMeans(peers, view, now, grace, nodes, f);
      var ips, claim, expired := Classify(view, now, nodes);
      if f.apply {
        assert peers == AfterPass(peers, view, now, grace, nodes, f);
        return;
      }
      applied := nodes + ips;
      var was := peers;
      peers := map n | n in was :: if n in claim && n !in f.patch then was[n].(claimedAt := Some(Floor(now))) else was[n];
      peers := peers - (expired - f.delete);
    }
  }

  // ---- runs ----------------------------------------------------------------

  /** A run alternates passes with changes from outside: objects come without a claim and go,
      and are otherwise left alone. A pass reads the objects as the first `seen` events left
      them, or as they are when there are no more than that. */
  datatype Event =
    | Pass(now: int, nodes: set<Ip>, faults: Faults, seen: nat)
    | Created(name: Name, peer: Peer)
    | Removed(name: Name)

  predicate Possible(e: Event, peers: Peers) {
    e.Created? ==> e.name !in peers && e.peer.claimedAt.None?
  }

  function After(peers: Peers, view: Peers, e: Event, grace: int): Peers {
    match e
    case Pass(now, nodes, f, _) => AfterPass(peers, view, now, grace, nodes, f)
    case Created(name, p) => peers[name := p]
    case Removed(name) => peers - {name}
  }

  /** How many events the view of event `i` shows. */
  function Shown(e: Event, i: nat): (m: nat)
    ensures m <= i
  {
    if e.Pass? && e.seen < i then e.seen else i
  }

  /** The objects after the first `i` events. */
  function StateAt(events: seq<Event>, grace: int, i: nat): Peers
    requires i <= |events|
    decreases i
  {
    if i == 0 then map[]
    else
      var e := events[i - 1];
      After(StateAt(events, grace, i - 1), StateAt(events, grace, Shown(e, i - 1)), e, grace)
  }

  /** What the pass at `k` read. */
  function ViewAt(events: seq<Event>, grace: int, k: nat): Peers
    requires k < |events|
  {
    StateAt(events, grace, Shown(events[k], k))
  }

  /** A run from nothing: every event possible, the clock not going back. */
  ghost predicate Run(events: seq<Event>, grace: int) {
    && (forall i :: 0 <= i < |events| ==> Possible(events[i], StateAt(events, grace, i)))
    && forall i, j :: 0 <= i < j < |events| && events[i].Pass? && events[j].Pass? ==> events[i].now <= events[j].now
  }

  /** The pass at `k` writes a claim on `n`: what it read of `n` had none and was inside its
      lifetime, with the address of a node. */
  predicate Sends(events: seq<Event>, grace: int, k: nat, n: Name) {
    k < |events| && events[k].Pass? && Marks(ViewAt(events, grace, k), n, events[k].now, grace, events[k].nodes, events[k].faults)
  }

  predicate Deletes(events: seq<Event>, grace: int, k: nat, n: Name) {
    k < |events| && events[k].Pass? && Drops(ViewAt(events, grace, k), n, events[k].now, grace, events[k].faults)
  }

  /** What one event does to one object. */
  lemma StepOf(events: seq<Event>, grace: int, k: nat, n: Name)
    requires Run(events, grace) && k < |events|
    ensures var before, after := StateAt(events, grace, k), StateAt(events, grace, k + 1);
            && (n in before && n in after ==>
                  after[n] == if Sends(events, grace, k, n) then before[n].(claimedAt := Some(Floor(events[k].now))) else before[n])
            && (n !in before && n in after ==> events[k] == Created(n, after[n]) && after[n].claimedAt.None?)
            && (n in before && events[k].Pass? ==> (n !in after <==> Deletes(events, grace, k, n)))
            && (n in before && n !in after ==> events[k].Pass? || events[k] == Removed(n))
            && (events[k].Created? && events[k].name == n ==> n !in before)
  {
    hide StateAt, Outlived, Claims;
    StateStep(events, grace, k);
    assert Possible(events[k], StateAt(events, grace, k));
  }

  lemma StateStep(events: seq<Event>, grace: int, k: nat)
    requires k < |events|
    ensures StateAt(events, grace, k + 1) == After(StateAt(events, grace, k), ViewAt(events, grace, k), events[k], grace)
  {
  }

  // ---- the life of one object ----------------------------------------------

  /** The object `n` of the state after `i` events was created at `c` and is that one, but for
      its claim, in every state since. */
  ghost predicate BornAt(events: seq<Event>, grace: int, n: Name, c: nat, i: nat) {
    && c < i <= |events| && events[c].Created? && events[c].name == n
    && forall j :: c < j <= i ==>
         n in StateAt(events, grace, j) && StateAt(events, grace, j)[n].(claimedAt := None) == events[c].peer
  }

  lemma {:induction false} Birth(events: seq<Event>, grace: int, n: Name, i: nat) returns (c: nat)
    requires Run(events, grace) && i <= |events| && n in StateAt(events, grace, i)
    ensures BornAt(events, grace, n, c, i)
    decreases i
  {
    hide Run, Sends, Deletes, StateAt;
    if i == 0 {
      NothingAtFirst(events, grace);
      assert false;
    }
    StepOf(events, grace, i - 1, n);
    if n in StateAt(events, grace, i - 1) {
      c := Birth(events, grace, n, i - 1);
    } else {
      c := i - 1;
    }
  }

  lemma NothingAtFirst(events: seq<Event>, grace: int)
    ensures StateAt(events, grace, 0) == map[]
  {
  }

  /** Claimed from the pass `k` on, and not before. */
  ghost predicate ClaimedFrom(events: seq<Event>, grace: int, n: Name, c: nat, k: nat, i: nat) {
    && BornAt(events, grace, n, c, i) && c < k < i && Sends(events, grace, k, n)
    && forall j :: c < j <= i ==> (StateAt(events, grace, j)[n].claimedAt.Some? <==> k < j)
  }

  lemma {:induction false} UnclaimedBefore(events: seq<Event>, grace: int, n: Name, c: nat, i: nat)
    requires Run(events, grace) && BornAt(events, grace, n, c, i) && StateAt(events, grace, i)[n].claimedAt.None?
    ensures forall j :: c < j <= i ==> StateAt(events, grace, j)[n].claimedAt.None?
    decreases i
  {
    hide Run, Sends, Deletes, StateAt;
    if c + 1 < i {
      StepOf(events, grace, i - 1, n);
      assert n in StateAt(events, grace, i - 1) && n in StateAt(events, grace, i);
      UnclaimedBefore(events, grace, n, c, i - 1);
    }
  }

  /** A claim comes from a pass, and stays as long as the object does. */
  lemma {:induction false} FirstClaim(events: seq<Event>, grace: int, n: Name, c: nat, i: nat) returns (k: nat)
    requires Run(events, grace) && BornAt(events, grace, n, c, i) && StateAt(events, grace, i)[n].claimedAt.Some?
    ensures ClaimedFrom(events, grace, n, c, k, i)
    decreases i
  {
    hide Run, Sends, Deletes, StateAt;
    StepOf(events, grace, i - 1, n);
    assert n in StateAt(events, grace, i);
    if c + 1 == i {
      StepOf(events, grace, c, n);
      assert false;
    }
    assert n in StateAt(events, grace, i - 1);
    if StateAt(events, grace, i - 1)[n].claimedAt.Some? {
      k := FirstClaim(events, grace, n, c, i - 1);
    } else {
      k := i - 1;
      UnclaimedBefore(events, grace, n, c, i - 1);
    }
  }

  // ---- claims --------------------------------------------------------------

  /** The claim of `n` in the state after `i` events was written by the pass at `k` and has not
      been touched since. */
  ghost predicate WrittenAt(events: seq<Event>, grace: int, n: Name, k: nat, i: nat) {
    && k < i <= |events| && Sends(events, grace, k, n) && n in StateAt(events, grace, i)
    && StateAt(events, grace, i)[n].claimedAt == Some(Floor(events[k].now))
    && forall j :: k < j <= i ==> n in StateAt(events, grace, j) && StateAt(events, grace, j)[n] == StateAt(events, grace, i)[n]
  }

  /** In every state of every run, a claim was written by a pass whose view of the peer was
      inside its lifetime and had a node's address; it has that pass's time to the second. With
      an up-to-date view the peer itself was unclaimed, inside its lifetime, and a node's. */
  lemma {:induction false} ClaimHasPass(events: seq<Event>, grace: int, n: Name, i: nat) returns (k: nat)
    requires Run(events, grace) && i <= |events|
    requires n in StateAt(events, grace, i) && StateAt(events, grace, i)[n].claimedAt.Some?
    ensures WrittenAt(events, grace, n, k, i)
    ensures Shown(events[k], k) == k ==>
              n in StateAt(events, grace, k) && Claims(StateAt(events, grace, k)[n], events[k].now, grace, events[k].nodes)
    decreases i
  {
    hide Run, Deletes, StateAt, Claims;
    if i == 0 {
      NothingAtFirst(events, grace);
      assert false;
    }
    StepOf(events, grace, i - 1, n);
    assert n in StateAt(events, grace, i - 1);
    if Sends(events, grace, i - 1, n) {
      k := i - 1;
    } else {
      k := ClaimHasPass(events, grace, n, i - 1);
    }
  }

  /** When a claim is written over. Its object was created at `c` and first claimed by the pass
      at `first`. A pass writes the claim again exactly when the peer its view shows is unclaimed,
      inside its lifetime and a node's, and the write works. A view that shows the object itself
      is such a one exactly when it is from before the first claim; a view from before the object
      shows an earlier one of the same name, created at some `earlier`. In particular a pass with
      an up-to-date view never writes a claim again. */
  lemma ClaimRewrittenIff(events: seq<Event>, grace: int, k: nat, n: Name) returns (c: nat, first: nat)
    requires Run(events, grace) && k < |events| && events[k].Pass?
    requires n in StateAt(events, grace, k) && StateAt(events, grace, k)[n].claimedAt.Some?
    ensures ClaimedFrom(events, grace, n, c, first, k)
    ensures var p, e, view := StateAt(events, grace, k)[n], events[k], ViewAt(events, grace, k);
            && (Sends(events, grace, k, n) ==> Shown(e, k) <= first)
            && (c < Shown(e, k) ==>
                  (Sends(events, grace, k, n) <==>
                     && Shown(e, k) <= first && !e.faults.apply && n !in e.faults.patch
                     && p.ip.Some? && p.ip.value in e.nodes && e.now <= ExpiresAt(p, e.now)))
            && (Shown(e, k) <= c ==>
                  (Sends(events, grace, k, n) <==>
                     && n in view && view[n].claimedAt.None? && !e.faults.apply && n !in e.faults.patch
                     && view[n].ip.Some? && view[n].ip.value in e.nodes && e.now <= ExpiresAt(view[n], e.now)))
            && (Shown(e, k) <= c && Sends(events, grace, k, n) ==>
                  exists earlier: nat :: earlier < Shown(e, k) && BornAt(events, grace, n, earlier, Shown(e, k)))
            && (n in StateAt(events, grace, k + 1) ==>
                  StateAt(events, grace, k + 1)[n] ==
                  p.(claimedAt := if Sends(events, grace, k, n) then Some(Floor(e.now)) else p.claimedAt))
  {
    hide StateAt, Run;
    c := Birth(events, grace, n, k);
    first := FirstClaim(events, grace, n, c, k);
    StepOf(events, grace, k, n);
    var shown := Shown(events[k], k);
    if c < shown {
      assert n in StateAt(events, grace, shown) && n in StateAt(events, grace, k);
      assert StateAt(events, grace, shown)[n].(claimedAt := None) == StateAt(events, grace, k)[n].(claimedAt := None);
      assert StateAt(events, grace, shown)[n].claimedAt.Some? <==> first < shown;
    } else if n in StateAt(events, grace, shown) {
      var earlier := Birth(events, grace, n, shown);
      assert BornAt(events, grace, n, earlier, shown);
    }
  }

  // ---- deletions -----------------------------------------------------------

  /** An event that makes a view of `n` from before it out of date. */
  predicate Touches(events: seq<Event>, grace: int, m: nat, n: Name) {
    m < |events| && (Sends(events, grace, m, n) || (events[m].Created? && events[m].name == n))
  }

  lemma {:induction false} Untouched(events: seq<Event>, grace: int, n: Name, i: nat, k: nat)
    requires Run(events, grace) && i <= k <= |events| && n in StateAt(events, grace, k)
    requires forall m: nat :: i <= m < k ==> !Touches(events, grace, m, n)
    ensures n in StateAt(events, grace, i) && StateAt(events, grace, i)[n] == StateAt(events, grace, k)[n]
    decreases k
  {
    hide Run, Sends, Deletes, StateAt;
    if i < k {
      StepOf(events, grace, k - 1, n);
      assert !Touches(events, grace, k - 1, n);
      Untouched(events, grace, n, i, k - 1);
    }
  }

  /** A pass deletes a pending peer only when it has expired without a claim, or when the pass
      that wrote its claim lies more than the grace back, or when the pass went by a view from
      before that claim was written or the object created. */
  lemma PassDeletesOnlyOutlived(events: seq<Event>, grace: int, k: nat, n: Name)
    requires Run(events, grace) && k < |events| && events[k].Pass? && n in StateAt(events, grace, k)
    ensures var p, now := StateAt(events, grace, k)[n], events[k].now;
            && (n !in StateAt(events, grace, k + 1) ==>
                  || (p.claimedAt.None? && now > ExpiresAt(p, now))
                  || (exists j: nat :: WrittenAt(events, grace, n, j, k) && now > Floor(events[j].now) + grace)
                  || (exists m: nat :: Shown(events[k], k) <= m < k && Touches(events, grace, m, n)))
            && (n in StateAt(events, grace, k + 1) ==>
                  StateAt(events, grace, k + 1)[n].(claimedAt := p.claimedAt) == p)
  {
    hide StateAt, Run, Touches;
    StepOf(events, grace, k, n);
    if n !in StateAt(events, grace, k + 1) && forall m: nat :: Shown(events[k], k) <= m < k ==> !Touches(events, grace, m, n) {
      Untouched(events, grace, n, Shown(events[k], k), k);
      var p := StateAt(events, grace, k)[n];
      if p.claimedAt.Some? {
        var j := ClaimHasPass(events, grace, n, k);
        assert WrittenAt(events, grace, n, j, k);
      }
    }
  }

  /** When a pass deletes a peer: exactly when it is outlived in the view, and the calls work. With
      a view in which the peer is as it is now, that is when it is outlived. A peer that is not
      outlived is deleted exactly when the view shows it outlived, and such a view is from before
      the object was created, or from before the claim was written that it has now. */
  lemma DeletedIff(events: seq<Event>, grace: int, k: nat, n: Name) returns (c: nat)
    requires Run(events, grace) && k < |events| && events[k].Pass? && n in StateAt(events, grace, k)
    ensures BornAt(events, grace, n, c, k)
    ensures var p, view, e := StateAt(events, grace, k)[n], ViewAt(events, grace, k), events[k];
            && (n !in StateAt(events, grace, k + 1) <==>
                  n in view && Outlived(view[n], e.now, grace) && !e.faults.apply && n !in e.faults.delete)
            && ((forall m: nat :: Shown(e, k) <= m < k ==> !Touches(events, grace, m, n)) ==>
                  (n !in StateAt(events, grace, k + 1) <==>
                     Outlived(p, e.now, grace) && !e.faults.apply && n !in e.faults.delete))
            && (n !in StateAt(events, grace, k + 1) && !Outlived(p, e.now, grace) ==>
                  || Shown(e, k) <= c
                  || exists j: nat :: Shown(e, k) <= j && WrittenAt(events, grace, n, j, k))
  {
    hide StateAt, Run, Touches, Outlived;
    c := Birth(events, grace, n, k);
    StepOf(events, grace, k, n);
    var shown := Shown(events[k], k);
    if forall m: nat :: shown <= m < k ==> !Touches(events, grace, m, n) {
      Untouched(events, grace, n, shown, k);
    }
    var p := StateAt(events, grace, k)[n];
    if n !in StateAt(events, grace, k + 1) && !Outlived(p, events[k].now, grace) && c < shown {
      assert n in StateAt(events, grace, shown) && n in StateAt(events, grace, k);
      assert StateAt(events, grace, shown)[n].(claimedAt := None) == p.(claimedAt := None);
      if p.claimedAt.None? {
        UnclaimedBefore(events, grace, n, c, k);
      } else {
        var j := ClaimHasPass(events, grace, n, k);
        assert WrittenAt(events, grace, n, j, k);
      }
    }
  }

  // ---- withdrawn addresses -------------------------------------------------

  /** The object `n` is there in every state from event `i` up to event `j`. */
  ghost predicate PresentBetween(events: seq<Event>, grace: int, n: Name, i: nat, j: nat) {
    j < |events| && forall m :: i <= m <= j ==> n in StateAt(events, grace, m)
  }

  /** No pass from `i` to `j` goes by a view from before `i`. */
  ghost predicate ViewsSince(events: seq<Event>, i: nat, j: nat) {
    forall m :: i <= m <= j && m < |events| ==> i <= Shown(events[m], m)
  }

  /** An address that was withdrawn is not let back in by passes that have seen as much: a peer
      with a creation time that one pass found outlived, and could not delete, is the same at
      every later one, and outlived in its view. */
  lemma StaysOut(events: seq<Event>, grace: int, n: Name, i: nat, j: nat)
    requires Run(events, grace) && i <= j && PresentBetween(events, grace, n, i, j) && ViewsSince(events, i, j)
    requires events[i].Pass? && events[j].Pass?
    requires StateAt(events, grace, i)[n].created.Some?
    requires Outlived(StateAt(events, grace, i)[n], events[i].now, grace)
    ensures StateAt(events, grace, j)[n] == StateAt(events, grace, i)[n]
    ensures n in ViewAt(events, grace, j) && Outlived(ViewAt(events, grace, j)[n], events[j].now, grace)
  {
    hide StateAt;
    SameUpTo(events, grace, n, i, j);
    assert n in StateAt(events, grace, Shown(events[j], j));
  }

  lemma {:induction false} SameUpTo(events: seq<Event>, grace: int, n: Name, i: nat, m: nat)
    requires Run(events, grace) && i <= m && PresentBetween(events, grace, n, i, m) && ViewsSince(events, i, m) && events[i].Pass?
    requires StateAt(events, grace, i)[n].created.Some?
    requires Outlived(StateAt(events, grace, i)[n], events[i].now, grace)
    ensures forall x :: i <= x <= m ==> StateAt(events, grace, x)[n] == StateAt(events, grace, i)[n]
    decreases m
  {
    hide StateAt;
    if m > i {
      SameUpTo(events, grace, n, i, m - 1);
      StepOf(events, grace, m - 1, n);
      assert n in StateAt(events, grace, m) && n in StateAt(events, grace, m - 1);
      assert n in StateAt(events, grace, Shown(events[m - 1], m - 1));
    }
  }

  /** When an address comes back: exactly when a pass since has written the claim anew, which
      takes a view from before the first claim, and its grace is not over. */
  lemma BackInIff(events: seq<Event>, grace: int, n: Name, i: nat, j: nat)
    requires Run(events, grace) && i <= j && PresentBetween(events, grace, n, i, j)
    requires events[i].Pass? && events[j].Pass?
    requires StateAt(events, grace, i)[n].created.Some?
    requires Outlived(StateAt(events, grace, i)[n], events[i].now, grace)
    ensures Live(StateAt(events, grace, j)[n], events[j].now, grace) <==>
            exists m: nat :: i <= m && WrittenAt(events, grace, n, m, j) && events[j].now <= Floor(events[m].now) + grace
  {
    hide StateAt, Sends;
    assert n in StateAt(events, grace, j) && n in StateAt(events, grace, i);
    var c := Birth(events, grace, n, j);
    assert c < i by {
      StepOf(events, grace, c, n);
    }
    var was, p := StateAt(events, grace, i)[n], StateAt(events, grace, j)[n];
    assert was.(claimedAt := None) == p.(claimedAt := None);
    if p.claimedAt.None? {
      UnclaimedBefore(events, grace, n, c, j);
    } else {
      var m := ClaimHasPass(events, grace, n, j);
      if i <= m {
        assert WrittenAt(events, grace, n, m, j);
      }
      assert events[i].now <= events[j].now;
    }
  }

  // ---- what an old view can do ---------------------------------------------

  const WELL := Faults(false, {}, {})

  /** A pass that has not seen the claim writes it again, with its own time. */
  lemma OldViewRewrites(n: Name, ip: Ip, grace: int) returns (events: seq<Event>)
    requires grace >= 0
    ensures Run(events, grace) && |events| == 3 && Shown(events[2], 2) == 1
    ensures n in StateAt(events, grace, 2) && StateAt(events, grace, 2)[n].claimedAt == Some(SECOND)
    ensures n in StateAt(events, grace, 3) && StateAt(events, grace, 3)[n].claimedAt == Some(5 * SECOND)
  {
    var p := Peer(Some(ip), Some(0), 60 * SECOND, None);
    events := [Created(n, p), Pass(SECOND, {ip}, WELL, 1), Pass(5 * SECOND, {ip}, WELL, 1)];
    assert StateAt(events, grace, 1) == map[n := p];
    assert StateAt(events, grace, 2) == map[n := p.(claimedAt := Some(SECOND))];
    assert StateAt(events, grace, 3) == map[n := p.(claimedAt := Some(5 * SECOND))];
  }

  /** A pass that has seen an earlier object of that name deletes the one there is now, inside
      its lifetime. */
  lemma OldViewDeletes(n: Name, ip: Ip, grace: int) returns (events: seq<Event>)
    ensures Run(events, grace) && |events| == 4 && Shown(events[3], 3) == 1
    ensures n in StateAt(events, grace, 3) && Live(StateAt(events, grace, 3)[n], events[3].now, grace)
    ensures n !in StateAt(events, grace, 4)
  {
    var p, q := Peer(Some(ip), Some(0), SECOND, None), Peer(Some(ip), Some(2 * SECOND), 60 * SECOND, None);
    events := [Created(n, p), Removed(n), Created(n, q), Pass(3 * SECOND, {}, WELL, 1)];
    assert StateAt(events, grace, 1) == map[n := p];
    assert StateAt(events, grace, 2) == map[];
    assert StateAt(events, grace, 3) == map[n := q];
  }

  /** A pass that has not seen the claim deletes the peer as expired, inside the grace of its
      claim. */
  lemma OldViewDeletesClaimed(n: Name, ip: Ip, grace: int) returns (events: seq<Event>)
    requires grace >= 2 * SECOND
    ensures Run(events, grace) && |events| == 3 && Shown(events[2], 2) == 1 && events[2].Pass?
    ensures n in StateAt(events, grace, 2) && StateAt(events, grace, 2)[n].claimedAt.Some?
    ensures Live(StateAt(events, grace, 2)[n], events[2].now, grace)
    ensures n !in StateAt(events, grace, 3)
  {
    var p := Peer(Some(ip), Some(0), 10 * SECOND, None);
    events := [Created(n, p), Pass(9 * SECOND, {ip}, WELL, 1), Pass(11 * SECOND, {ip}, WELL, 1)];
    assert StateAt(events, grace, 1) == map[n := p];
    assert StateAt(events, grace, 2) == map[n := p.(claimedAt := Some(9 * SECOND))];
  }

  /** An address withdrawn after its grace is let in again once a pass with a view from before
      the claim has written it anew. */
  lemma OldViewLetsBackIn(n: Name, ip: Ip, grace: int) returns (events: seq<Event>)
    requires 0 <= grace < 60 * SECOND
    ensures Run(events, grace) && |events| == 4 && Shown(events[3], 3) == 1 && events[2].Pass?
    ensures n in StateAt(events, grace, 2) && Outlived(StateAt(events, grace, 2)[n], events[2].now, grace)
    ensures n in StateAt(events, grace, 4) && events[3].Pass? && Live(StateAt(events, grace, 4)[n], events[3].now, grace)
  {
    var p := Peer(Some(ip), Some(0), 600 * SECOND, None);
    var stuck := Faults(false, {}, {n});
    events := [Created(n, p), Pass(SECOND, {ip}, WELL, 1), Pass(100 * SECOND, {ip}, stuck, 2), Pass(101 * SECOND, {ip}, WELL, 1)];
    var claimed := p.(claimedAt := Some(SECOND));
    assert StateAt(events, grace, 1) == map[n := p];
    assert StateAt(events, grace, 2) == map[n := claimed];
    assert StateAt(events, grace, 3) == map[n := claimed];
    assert StateAt(events, grace, 4) == map[n := p.(claimedAt := Some(101 * SECOND))];
  }
}
