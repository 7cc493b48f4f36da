/** The operator blacklist pass: which bans are enforced, which are refused, and why. */
module BlacklistReconcile {
  import opened Prelude
  import opened IntervalCodec
  import opened CidrAlgebra

  /** A ban object as read: not of the expected kind, without spec.cidr, with a text that is no
      address or prefix, or with a prefix. */
  datatype Ban = Foreign | NoCidr | Unparsed | Parsed(c: Cidr)

  datatype Reason = InvalidSpec | InvalidCidr | SelfProtect(hit: Cidr) | Enforced

  /** The two address sets of the kernel table, of canonical prefixes. */
  datatype Sets = Sets(v4: set<Cidr>, v6: set<Cidr>)

  /** The prefix with host bits cleared. */
  function Canonical(c: Cidr): (r: Cidr)
    ensures forall a :: Covers(r, a) <==> Covers(c, a)
    ensures r.v6 == c.v6
  {
    MaskedFits(c);
    var r := Cidr(c.v6, Masked(c), c.bits);
    assert forall a :: Covers(r, a) <==> Covers(c, a) by {
      forall a ensures Covers(r, a) <==> Covers(c, a) {
        MaskedCovers(c, a);
      }
    }
    r
  }

  /** The first protected prefix the two-way test finds. */
  method Intersects(prot: seq<Cidr>, proposed: Cidr) returns (hit: Option<Cidr>)
    ensures hit.Some? ==> hit.value in prot && Share(proposed, hit.value)
    ensures hit.None? ==> forall ex :: ex in prot ==> !Share(proposed, ex)
  {
    hide ContainsOrEquals, Share;
    for i := 0 to |prot|
      invariant forall j :: 0 <= j < i ==> !Share(proposed, prot[j])
    {
      TwoWayIsIntersection(proposed, prot[i]);
      if ContainsOrEquals(proposed, prot[i]) || ContainsOrEquals(prot[i], proposed) {
        return Some(prot[i]);
      }
    }
    return None;
  }

  /** A ban is enforced exactly when it is a prefix longer than /0 that shares no address with
      protected space; a refusal names a protected prefix it does share one with. */
  ghost predicate StatusOk(ban: Ban, prot: seq<Cidr>, status: Option<Reason>) {
    match ban
    case Foreign => status == None
    case NoCidr => status == Some(InvalidSpec)
    case Unparsed => status == Some(InvalidCidr)
    case Parsed(c) =>
      && status.Some?
      && (status.value.InvalidCidr? <==> c.bits == 0)
      && !status.value.InvalidSpec?
      && (status.value.SelfProtect? <==> c.bits > 0 && exists p :: p in prot && Share(c, p))
      && (status.value.SelfProtect? ==> status.value.hit in prot && Share(c, status.value.hit))
  }

  /** The canonical prefixes of the enforced bans of one family. */
  ghost function EnforcedSet(bans: seq<Ban>, statuses: seq<Option<Reason>>, v6: bool): set<Cidr>
    requires |bans| == |statuses|
  {
    set i | 0 <= i < |bans| && bans[i].Parsed? && statuses[i] == Some(Enforced) && bans[i].c.v6 == v6 :: Canonical(bans[i].c)
  }

  /** No address of the sets lies in a protected prefix. */
  ghost predicate SparesProtected(s: Sets, prot: seq<Cidr>) {
    forall c, p, a :: c in s.v4 + s.v6 && p in prot && Covers(c, a) ==> !Covers(p, a)
  }

  method JudgeBan(ban: Ban, prot: seq<Cidr>) returns (status: Option<Reason>)
    ensures StatusOk(ban, prot, status)
  {
    match ban
    case Foreign => status := None;
    case NoCidr => status := Some(InvalidSpec);
    case Unparsed => status := Some(InvalidCidr);
    case Parsed(c) =>
      if c.bits == 0 {
        return Some(InvalidCidr);
      }
      var hit := Intersects(prot, c);
      status := Some(if hit.Some? then SelfProtect(hit.value) else Enforced);
  }

  method DesiredSets(bans: seq<Ban>, prot: seq<Cidr>) returns (desired: Sets, statuses: seq<Option<Reason>>)
    ensures |statuses| == |bans| && forall i :: 0 <= i < |bans| ==> StatusOk(bans[i], prot, statuses[i])
    ensures desired.v4 == EnforcedSet(bans, statuses, false)
    ensures desired.v6 == EnforcedSet(bans, statuses, true)
  {
    hide StatusOk, Canonical;
    desired, statuses := Sets({}, {}), [];
    for i := 0 to |bans|
      invariant |statuses| == i && forall j :: 0 <= j < i ==> StatusOk(bans[j], prot, statuses[j])
      invariant desired.v4 == EnforcedSet(bans[..i], statuses, false)
      invariant desired.v6 == EnforcedSet(bans[..i], statuses, true)
    {
      var status := JudgeBan(bans[i], prot);
      EnforcedSnoc(bans[..i], statuses, bans[i], status, false);
      EnforcedSnoc(bans[..i], statuses, bans[i], status, true);
      assert bans[..i + 1] == bans[..i] + [bans[i]];
      if bans[i].Parsed? && status == Some(Enforced) {
        var c := bans[i].c;
        desired := if c.v6 then desired.(v6 := desired.v6 + {Canonical(c)}) else desired.(v4 := desired.v4 + {Canonical(c)});
      }
      statuses := statuses + [status];
    }
    assert bans[..|bans|] == bans;
  }

  lemma EnforcedSnoc(bans: seq<Ban>, statuses: seq<Option<Reason>>, ban: Ban, status: Option<Reason>, v6: bool)
    requires |bans| == |statuses|
    ensures EnforcedSet(bans + [ban], statuses + [status], v6) ==
            EnforcedSet(bans, statuses, v6) +
            (if ban.Parsed? && status == Some(Enforced) && ban.c.v6 == v6 then {Canonical(ban.c)} else {})
  {
    hide Canonical;
    var all, sts := bans + [ban], statuses + [status];
    forall c | c in EnforcedSet(bans, statuses, v6) ensures c in EnforcedSet(all, sts, v6) {
      var i :| 0 <= i < |bans| && bans[i].Parsed? && statuses[i] == Some(Enforced) && bans[i].c.v6 == v6 && Canonical(bans[i].c) == c;
      assert all[i] == bans[i] && sts[i] == statuses[i];
    }
    if ban.Parsed? && status == Some(Enforced) && ban.c.v6 == v6 {
      assert all[|bans|] == ban && sts[|bans|] == status;
    }
  }

  lemma DesiredSpares(bans: seq<Ban>, prot: seq<Cidr>, desired: Sets, statuses: seq<Option<Reason>>)
    requires |statuses| == |bans| && forall i :: 0 <= i < |bans| ==> StatusOk(bans[i], prot, statuses[i])
    requires desired.v4 == EnforcedSet(bans, statuses, false) && desired.v6 == EnforcedSet(bans, statuses, true)
    ensures SparesProtected(desired, prot)
  {
    hide Covers, Canonical;
    forall c, p, a | c in desired.v4 + desired.v6 && p in prot && Covers(c, a) ensures !Covers(p, a) {
      var i :| 0 <= i < |bans| && bans[i].Parsed? && statuses[i] == Some(Enforced) && Canonical(bans[i].c) == c;
      assert StatusOk(bans[i], prot, statuses[i]);
      assert !Share(bans[i].c, p);
      assert Covers(bans[i].c, a);
    }
  }

  class Reconciler {
    /** The sets last written without an error; None before the first write. */
    var last: Option<Sets>
    /** What the kernel sets hold, as far as this reconciler wrote them. */
    var kernel: Sets

    constructor (kernel: Sets)
      ensures last == None && this.kernel == kernel
    {
      last := None;
      this.kernel := kernel;
    }

    /** The write is made whether or not anything changed; `changed` only compares with the
        last successful write. */
    method ApplyOnce(s: Sets, writes: bool) returns (changed: bool, ok: bool)
      modifies this
      ensures ok == writes
      ensures kernel == (if writes then s else old(kernel)) && last == (if writes then Some(s) else old(last))
      ensures changed <==> writes && old(last) != Some(s)
    {
      changed := last != Some(s);
      if !writes {
        return false, false;
      }
      kernel := s;
      last := Some(s);
      return changed, true;
    }

    /** A whole pass. Whatever objects there are, the kernel sets either stay or become exactly
        the enforced bans, none of which touches a protected address. */
    method Pass(bans: seq<Ban>, prot: seq<Cidr>, writes: bool) returns (statuses: seq<Option<Reason>>, changed: bool, ok: bool)
      modifies this
      ensures |statuses| == |bans| && forall i :: 0 <= i < |bans| ==> StatusOk(bans[i], prot, statuses[i])
      ensures ok == writes && (!writes ==> kernel == old(kernel) && last == old(last))
      ensures writes ==>
                && kernel == Sets(EnforcedSet(bans, statuses, false), EnforcedSet(bans, statuses, true))
                && last == Some(kernel) && SparesProtected(kernel, prot)
                && (changed <==> old(last) != Some(kernel))
    {
      hide StatusOk, SparesProtected;
      var desired, sts := DesiredSets(bans, prot);
      DesiredSpares(bans, prot, desired, sts);
      changed, ok := ApplyOnce(desired, writes);
      statuses := sts;
    }
  }
}
