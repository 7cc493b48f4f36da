/**
 Self-heal of the blacklist drop rules in the input chain: where the missing rules go,
 and what they change for a packet.
 */
module BlacklistRule {
  import opened Prelude
  import opened Octets
  import opened NftMachine

  const SET_V4 := "blacklist_v4"
  const SET_V6 := "blacklist_v6"
  const CROWDSEC_V4 := "crowdsec_blocklist_v4"
  const CROWDSEC_V6 := "crowdsec_blocklist_v6"

  /** A rule as the kernel lists it, with the handle it gave the rule. */
  datatype ListedRule = ListedRule(handle: nat, exprs: Rule)

  function SetName(isV6: bool): string {
    if isV6 then SET_V6 else SET_V4
  }

  function DropExprs(isV6: bool): Rule {
    if isV6 then
      [Meta(NfProto, 1), Cmp(1, [0x0a]), Payload(1, NetworkHeader, 8, 16), Lookup(1, SET_V6, false), Done(Drop)]
    else
      [Meta(NfProto, 1), Cmp(1, [0x02]), Payload(1, NetworkHeader, 12, 4), Lookup(1, SET_V4, false), Done(Drop)]
  }

  // ---- what the pass looks for ---------------------------------------------

  predicate LooksUp(r: Rule, name: string) {
    exists e :: e in r && e.Lookup? && e.set_ == name
  }

  predicate MatchesCtState(r: Rule) {
    exists e :: e in r && e.Ct?
  }

  predicate LooksUpCrowdsec(r: Rule) {
    LooksUp(r, CROWDSEC_V4) || LooksUp(r, CROWDSEC_V6)
  }

  predicate Present(rs: seq<Rule>, name: string) {
    exists r :: r in rs && LooksUp(r, name)
  }

  /** Index of the first conntrack-state rule. */
  function FirstCt(rs: seq<Rule>): (i: nat)
    ensures i <= |rs| && (i < |rs| ==> MatchesCtState(rs[i])) && forall j :: 0 <= j < i ==> !MatchesCtState(rs[j])
  {
    if rs == [] || MatchesCtState(rs[0]) then 0 else 1 + FirstCt(rs[1..])
  }

  function FirstCrowdsec(rs: seq<Rule>): (i: nat)
    ensures i <= |rs| && (i < |rs| ==> LooksUpCrowdsec(rs[i])) && forall j :: 0 <= j < i ==> !LooksUpCrowdsec(rs[j])
  {
    if rs == [] || LooksUpCrowdsec(rs[0]) then 0 else 1 + FirstCrowdsec(rs[1..])
  }

  /** Where the drops belong: right after the conntrack rule, or failing that right before
      the crowdsec rule; nowhere when there is neither. */
  function InsertPoint(rs: seq<Rule>): Option<nat> {
    if FirstCt(rs) < |rs| then Some(FirstCt(rs) + 1)
    else if FirstCrowdsec(rs) < |rs| then Some(FirstCrowdsec(rs))
    else None
  }

  /** The missing drop rules, v4 before v6. */
  function Missing(rs: seq<Rule>): seq<Rule> {
    (if Present(rs, SET_V4) then [] else [DropExprs(false)]) + (if Present(rs, SET_V6) then [] else [DropExprs(true)])
  }

  /** The chain after the pass. */
  function Healed(rs: seq<Rule>): seq<Rule> {
    match InsertPoint(rs)
    case None => rs
    case Some(k) => if k <= |rs| then rs[..k] + Missing(rs) + rs[k..] else rs
  }

  // ---- the pass ------------------------------------------------------------

  function Exprs(rules: seq<ListedRule>): seq<Rule> {
    seq(|rules|, i requires 0 <= i < |rules| => rules[i].exprs)
  }

  predicate HandlesDistinct(rules: seq<ListedRule>) {
    forall i, j :: 0 <= i < j < |rules| ==> rules[i].handle != rules[j].handle
  }

  method RuleLooksUpSet(r: Rule, name: string) returns (found: bool)
    ensures found <==> LooksUp(r, name)
  {
    for i := 0 to |r|
      invariant forall j :: 0 <= j < i ==> !(r[j].Lookup? && r[j].set_ == name)
    {
      if r[i].Lookup? && r[i].set_ == name {
        return true;
      }
    }
    return false;
  }

  method RuleMatchesCtState(r: Rule) returns (found: bool)
    ensures found <==> MatchesCtState(r)
  {
    for i := 0 to |r|
      invariant forall j :: 0 <= j < i ==> !r[j].Ct?
    {
      if r[i].Ct? {
        return true;
      }
    }
    return false;
  }

  method BlacklistDropRulePresent(rules: seq<ListedRule>, name: string) returns (found: bool)
    ensures found <==> Present(Exprs(rules), name)
  {
    for i := 0 to |rules|
      invariant forall j :: 0 <= j < i ==> !LooksUp(rules[j].exprs, name)
    {
      var hit := RuleLooksUpSet(rules[i].exprs, name);
      if hit {
        assert Exprs(rules)[i] in Exprs(rules);
        return true;
      }
    }
    return false;
  }

  /** The handle to insert at, and whether to insert after it. */
  method FindBlacklistDropAnchor(rules: seq<ListedRule>) returns (handle: nat, after: bool, ok: bool)
    ensures ok <==> InsertPoint(Exprs(rules)).Some?
    ensures ok ==> exists i :: 0 <= i < |rules| && rules[i].handle == handle
                               && InsertPoint(Exprs(rules)) == Some(if after then i + 1 else i)
  {
    var rs := Exprs(rules);
    for i := 0 to |rules|
      invariant forall j :: 0 <= j < i ==> !MatchesCtState(rules[j].exprs)
    {
      var hit := RuleMatchesCtState(rules[i].exprs);
      if hit {
        assert MatchesCtState(rs[i]) && FirstCt(rs) == i;
        return rules[i].handle, true, true;
      }
    }
    assert FirstCt(rs) == |rs|;
    for i := 0 to |rules|
      invariant forall j :: 0 <= j < i ==> !LooksUpCrowdsec(rules[j].exprs)
    {
      var v4 := RuleLooksUpSet(rules[i].exprs, CROWDSEC_V4);
      var v6 := RuleLooksUpSet(rules[i].exprs, CROWDSEC_V6);
      if v4 || v6 {
        assert LooksUpCrowdsec(rs[i]) && FirstCrowdsec(rs) == i;
        return rules[i].handle, false, true;
      }
    }
    return 0, false, false;
  }

  /** The input chain as the kernel keeps it. */
  class InputChain {
    var rules: seq<ListedRule>
    var nextHandle: nat

    predicate Valid()
      reads this
    {
      HandlesDistinct(rules) && forall r :: r in rules ==> r.handle < nextHandle
    }

    constructor (rules: seq<ListedRule>, nextHandle: nat)
      requires HandlesDistinct(rules) && forall r :: r in rules ==> r.handle < nextHandle
      ensures Valid() && this.rules == rules
    {
      this.rules, this.nextHandle := rules, nextHandle;
    }

    /** NFTA_RULE_POSITION: put a rule right after, or right before, the rule with the
        handle. */
    method Insert(exprs: Rule, handle: nat, after: bool, ghost at: nat)
      requires Valid() && at < |rules| && rules[at].handle == handle
      modifies this
      ensures Valid()
      ensures var k := if after then at + 1 else at;
              rules == old(rules)[..k] + [ListedRule(old(nextHandle), exprs)] + old(rules)[k..]
    {
      var i := 0;
      while rules[i].handle != handle
        invariant i <= at
        decreases at - i
      {
        i := i + 1;
      }
      var k := if after then i + 1 else i;
      rules := rules[..k] + [ListedRule(nextHandle, exprs)] + rules[k..];
      nextHandle := nextHandle + 1;
    }

    /** Insert the missing drop rules, so that v4 comes before v6 whichever side of the
        anchor they go. */
    method EnsureBlacklistDropRules()
      requires Valid()
      modifies this
      ensures Valid() && Exprs(rules) == Healed(Exprs(old(rules)))
      ensures forall r :: r in old(rules) ==> r in rules
    {
      hide Missing, InsertPoint, DropExprs, Present, HandlesDistinct, Exprs;
      var haveV4 := BlacklistDropRulePresent(rules, SET_V4);
      var haveV6 := BlacklistDropRulePresent(rules, SET_V6);
      ghost var rs := Exprs(rules);
      if haveV4 && haveV6 {
        CompleteIsStable(rs);
        return;
      }
      var handle, after, ok := FindBlacklistDropAnchor(rules);
      if !ok {
        return;
      }
      var todo, wanted := Todo(haveV4, haveV6, after);
      WantedDrops(rs, wanted);
      ghost var at :| 0 <= at < |rules| && rules[at].handle == handle && InsertPoint(rs) == Some(if after then at + 1 else at);
      QueueAll(todo, handle, after, at, wanted);
      ExprsLength(old(rules));
    }

    /** Insert the queued drops one by one. */
    method QueueAll(todo: array<bool>, handle: nat, after: bool, ghost at: nat, ghost wanted: seq<bool>)
      requires Valid() && at < |rules| && rules[at].handle == handle
      requires 1 <= todo.Length <= 2 && |wanted| == todo.Length
      requires todo[..] == InsertionOrder(wanted, after)
      modifies this
      ensures Valid() && forall r :: r in old(rules) ==> r in rules
      ensures |Exprs(old(rules))| == |old(rules)|
      ensures Exprs(rules) == WithDrops(Exprs(old(rules)), if after then at + 1 else at, wanted)
    {
      hide DropExprs, Exprs, WithDrops, HandlesDistinct;
      assert forall j :: 0 <= j < todo.Length ==> todo[j] == todo[..][j];
      ghost var k := if after then at + 1 else at;
      ghost var was := Exprs(rules);
      ExprsLength(rules);
      ExprsInsert(rules, k, ListedRule(nextHandle, DropExprs(todo[0])));
      Insert(DropExprs(todo[0]), handle, after, at);
      if todo.Length == 2 {
        QueueSecond(todo[1], handle, after, at, was, todo[0]);
        WithTwoDrops(was, k, wanted);
      } else {
        WithOneDrop(was, k, wanted);
      }
    }

    method QueueSecond(isV6: bool, handle: nat, after: bool, ghost at: nat, ghost was: seq<Rule>, ghost first: bool)
      requires Valid() && at + 1 < |rules| && |was| + 1 == |rules| && |Exprs(rules)| == |rules|
      requires rules[if after then at else at + 1].handle == handle
      requires var k := if after then at + 1 else at;
               Exprs(rules) == was[..k] + [DropExprs(first)] + was[k..]
      modifies this
      ensures Valid() && forall r :: r in old(rules) ==> r in rules
      ensures var k := if after then at + 1 else at;
              Exprs(rules) == was[..k] + (if after then [DropExprs(isV6), DropExprs(first)] else [DropExprs(first), DropExprs(isV6)]) + was[k..]
    {
      hide DropExprs, Exprs, HandlesDistinct;
      ghost var k := if after then at + 1 else at;
      ghost var k2 := if after then k else k + 1;
      ExprsInsert(rules, k2, ListedRule(nextHandle, DropExprs(isV6)));
      InsertTwice(was, k, DropExprs(first), DropExprs(isV6));
      Insert(DropExprs(isV6), handle, after, if after then at else at + 1);
    }
  }

  lemma ExprsLength(rules: seq<ListedRule>)
    ensures |Exprs(rules)| == |rules|
  {
  }

  function Wanted(haveV4: bool, haveV6: bool): seq<bool> {
    (if haveV4 then [] else [false]) + (if haveV6 then [] else [true])
  }

  function InsertionOrder(wanted: seq<bool>, after: bool): (r: seq<bool>)
    ensures |r| == |wanted|
  {
    if after then seq(|wanted|, i requires 0 <= i < |wanted| => wanted[|wanted| - 1 - i]) else wanted
  }

  /** The families to insert, in the order of insertion: reversed when each goes right after
      the anchor, pushing the one before it down. */
  method Todo(haveV4: bool, haveV6: bool, after: bool) returns (todo: array<bool>, ghost wanted: seq<bool>)
    ensures fresh(todo) && wanted == Wanted(haveV4, haveV6) && |wanted| == todo.Length
    ensures todo[..] == InsertionOrder(wanted, after)
  {
    var n := (if haveV4 then 0 else 1) + (if haveV6 then 0 else 1);
    todo := new bool[n];
    var next := 0;
    if !haveV4 {
      todo[next] := false;
      next := next + 1;
    }
    if !haveV6 {
      todo[next] := true;
    }
    wanted := todo[..];
    if after {
      var i, j := 0, n - 1;
      while i < j
        invariant 0 <= i && j == n - 1 - i && j >= -1
        invariant forall k :: 0 <= k < n ==> todo[k] == if k < i || k > j then wanted[n - 1 - k] else wanted[k]
      {
        todo[i], todo[j] := todo[j], todo[i];
        i, j := i + 1, j - 1;
      }
    }
  }

  lemma WantedDrops(rs: seq<Rule>, wanted: seq<bool>)
    requires wanted == Wanted(Present(rs, SET_V4), Present(rs, SET_V6))
    ensures Missing(rs) == seq(|wanted|, i requires 0 <= i < |wanted| => DropExprs(wanted[i]))
  {
    hide Present, DropExprs;
  }

  function WithDrops(rs: seq<Rule>, k: nat, wanted: seq<bool>): seq<Rule>
    requires k <= |rs|
  {
    rs[..k] + seq(|wanted|, i requires 0 <= i < |wanted| => DropExprs(wanted[i])) + rs[k..]
  }

  lemma WithOneDrop(rs: seq<Rule>, k: nat, wanted: seq<bool>)
    requires k <= |rs| && |wanted| == 1
    ensures WithDrops(rs, k, wanted) == rs[..k] + [DropExprs(wanted[0])] + rs[k..]
  {
    assert seq(1, i requires 0 <= i < 1 => DropExprs(wanted[i])) == [DropExprs(wanted[0])];
  }

  lemma WithTwoDrops(rs: seq<Rule>, k: nat, wanted: seq<bool>)
    requires k <= |rs| && |wanted| == 2
    ensures WithDrops(rs, k, wanted) == rs[..k] + [DropExprs(wanted[0]), DropExprs(wanted[1])] + rs[k..]
  {
    assert seq(2, i requires 0 <= i < 2 => DropExprs(wanted[i])) == [DropExprs(wanted[0]), DropExprs(wanted[1])];
  }

  lemma ExprsInsert(rules: seq<ListedRule>, k: nat, r: ListedRule)
    requires k <= |rules|
    ensures Exprs(rules[..k] + [r] + rules[k..]) == Exprs(rules)[..k] + [r.exprs] + Exprs(rules)[k..]
  {
  }

  /** A second insertion at the same place goes before the first; one place later, after. */
  lemma InsertTwice(rs: seq<Rule>, k: nat, a: Rule, b: Rule)
    requires k <= |rs|
    ensures var once := rs[..k] + [a] + rs[k..];
            && once[..k] + [b] + once[k..] == rs[..k] + [b, a] + rs[k..]
            && once[..k + 1] + [b] + once[k + 1..] == rs[..k] + [a, b] + rs[k..]
  {
  }

  // ---- what it changes -----------------------------------------------------

  function SourceAddress(p: Packet, isV6: bool): Option<Bytes> {
    if isV6 then Field(p, NetworkHeader, 8, 16) else Field(p, NetworkHeader, 12, 4)
  }

  /** The packet is of the family and its source is in the family's blacklist set. */
  predicate Listed(p: Packet, sets: Sets, isV6: bool) {
    && p.nfproto == (if isV6 then 0x0a else 0x02)
    && SourceAddress(p, isV6).Some?
    && InSet(sets, SetName(isV6), SourceAddress(p, isV6).value)
  }

  /** The packet's source is in a set whose drop rule the chain does not have. */
  predicate ListedAndMissing(rs: seq<Rule>, p: Packet, sets: Sets) {
    (!Present(rs, SET_V4) && Listed(p, sets, false)) || (!Present(rs, SET_V6) && Listed(p, sets, true))
  }

  lemma RunDropRule(isV6: bool, p: Packet, sets: Sets)
    ensures RunRule(DropExprs(isV6), p, sets, map[]) ==
            if Listed(p, sets, isV6) then RuleRun([], Some(Drop)) else RuleRun([], None)
  {
    var proto := if isV6 then 0x0a else 0x02;
    var off, len := if isV6 then 8 else 12, if isV6 then 16 else 4;
    var lookup := [Payload(1, NetworkHeader, off, len), Lookup(1, SetName(isV6), false)] + [Done(Drop)];
    assert DropExprs(isV6) == [Meta(NfProto, 1), Cmp(1, [proto])] + lookup;
    RunLoadCompare(NfProto, [proto], lookup, p, sets, map[]);
    var regs: Registers := map[1 := MetaValue(p, NfProto)];
    RunAddressLookup(off, len, SetName(isV6), false, [Done(Drop)], p, sets, regs);
    var a := Field(p, NetworkHeader, off, len);
    if a.Some? {
      RunDone(Drop, p, sets, regs[1 := a.value]);
    }
  }

  lemma RunMissing(chains: map<string, seq<Rule>>, rs: seq<Rule>, p: Packet, sets: Sets, jumps: nat)
    ensures RunChain(chains, Missing(rs), p, sets, jumps) ==
            ChainRun([], if ListedAndMissing(rs, p, sets) then Dropped else FellOff)
  {
    RunDropRule(false, p, sets);
    RunDropRule(true, p, sets);
    var v4, v6 := DropExprs(false), DropExprs(true);
    assert [v4, v6][1..] == [v6] && [v6][1..] == [] && [v4][1..] == [];
    assert Missing(rs) == [v4, v6] || Missing(rs) == [v4] || Missing(rs) == [v6] || Missing(rs) == [];
    assert RunChain(chains, [], p, sets, jumps) == ChainRun([], FellOff);
    assert RunChain(chains, [v6], p, sets, jumps) == ChainRun([], if Listed(p, sets, true) then Dropped else FellOff);
  }

  lemma RunThree(chains: map<string, seq<Rule>>, a: seq<Rule>, b: seq<Rule>, c: seq<Rule>, p: Packet, sets: Sets, jumps: nat)
    ensures RunChain(chains, a + b + c, p, sets, jumps) ==
            Then(RunChain(chains, a, p, sets, jumps),
                 Then(RunChain(chains, b, p, sets, jumps), RunChain(chains, c, p, sets, jumps)))
  {
    assert a + b + c == a + (b + c);
    RunAppend(chains, b, c, p, sets, jumps);
    RunAppend(chains, a, b + c, p, sets, jumps);
  }

  /** The pass drops exactly the packets that reach the inserted rules with a source in a
      set whose rule was missing; every other packet runs as before. */
  lemma HealedVerdict(chains: map<string, seq<Rule>>, rs: seq<Rule>, p: Packet, sets: Sets, jumps: nat)
    requires InsertPoint(rs).Some?
    ensures var before := RunChain(chains, rs[..InsertPoint(rs).value], p, sets, jumps);
            RunChain(chains, Healed(rs), p, sets, jumps) ==
            if before.end == FellOff && ListedAndMissing(rs, p, sets) then ChainRun(before.bumps, Dropped)
            else RunChain(chains, rs, p, sets, jumps)
  {
    hide RunChain, Missing, ListedAndMissing, InsertPoint;
    InsertPointFits(rs);
    var k := InsertPoint(rs).value;
    RunThree(chains, rs[..k], Missing(rs), rs[k..], p, sets, jumps);
    RunMissing(chains, rs, p, sets, jumps);
    RunAppend(chains, rs[..k], rs[k..], p, sets, jumps);
    assert rs[..k] + rs[k..] == rs;
    var head, tail := RunChain(chains, rs[..k], p, sets, jumps), RunChain(chains, rs[k..], p, sets, jumps);
    assert [] + tail.bumps == tail.bumps && head.bumps + [] == head.bumps;
  }

  lemma InsertPointFits(rs: seq<Rule>)
    ensures InsertPoint(rs).Some? ==> InsertPoint(rs).value <= |rs|
  {
  }

  lemma DropsLookUp(isV6: bool)
    ensures LooksUp(DropExprs(isV6), SetName(isV6))
    ensures !LooksUp(DropExprs(isV6), SetName(!isV6))
    ensures !MatchesCtState(DropExprs(isV6)) && !LooksUpCrowdsec(DropExprs(isV6))
  {
    assert DropExprs(isV6)[3] in DropExprs(isV6);
  }

  lemma HealedContains(rs: seq<Rule>, r: Rule)
    requires InsertPoint(rs).Some? && (r in rs || r in Missing(rs))
    ensures r in Healed(rs)
  {
    hide Missing;
    var k := InsertPoint(rs).value;
    assert rs == rs[..k] + rs[k..];
  }

  lemma MissingHas(rs: seq<Rule>, isV6: bool)
    requires !Present(rs, SetName(isV6))
    ensures DropExprs(isV6) in Missing(rs)
  {
    hide Present, DropExprs;
  }

  lemma HealedHas(rs: seq<Rule>, isV6: bool)
    requires InsertPoint(rs).Some?
    ensures Present(Healed(rs), SetName(isV6))
  {
    hide Healed, Missing, InsertPoint, DropExprs, LooksUp, SetName;
    DropsLookUp(isV6);
    if Present(rs, SetName(isV6)) {
      var r :| r in rs && LooksUp(r, SetName(isV6));
      HealedContains(rs, r);
    } else {
      MissingHas(rs, isV6);
      HealedContains(rs, DropExprs(isV6));
    }
  }

  lemma CompleteIsStable(rs: seq<Rule>)
    requires Present(rs, SET_V4) && Present(rs, SET_V6)
    ensures Healed(rs) == rs
  {
    assert Missing(rs) == [];
  }

  /** After a pass that found an anchor both rules are there; a second pass adds nothing. */
  lemma HealedIsStable(rs: seq<Rule>)
    ensures Healed(Healed(rs)) == Healed(rs)
    ensures InsertPoint(rs).Some? ==> Present(Healed(rs), SET_V4) && Present(Healed(rs), SET_V6)
  {
    if InsertPoint(rs).Some? {
      HealedHas(rs, false);
      HealedHas(rs, true);
      CompleteIsStable(Healed(rs));
    }
  }
}
