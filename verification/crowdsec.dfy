/**
 The CrowdSec reconciler: exclusions, the per-family cap, the self-protect trip, and the
 reconciler's state over every run of ticks. Addresses are taken as already unmapped.
 */
module Crowdsec {
  import opened Prelude
  import opened IntervalCodec
  import opened CidrAlgebra
  import Powers
  import StringOrder

  const MAX_ELEMENTS: nat := 500000
  const TRIP_BUDGET: nat := 3

  type Ttl = int

  /** One family of the list; the lifetimes are aligned by position and may be fewer. */
  datatype Family = Family(prefixes: seq<Cidr>, ttls: seq<Ttl>)

  datatype Blocklist = Blocklist(v4: Family, v6: Family)

  datatype Exclusions = Exclusions(v4: seq<Cidr>, v6: seq<Cidr>)

  /** The entries of a family: each prefix with its lifetime, 0 where none was given. */
  function Pairs(f: Family): (r: seq<(Cidr, Ttl)>)
    ensures |r| == |f.prefixes|
    ensures forall i :: 0 <= i < |r| ==> r[i].0 == f.prefixes[i]
    ensures forall i :: 0 <= i < |r| ==> (i < |f.ttls| ==> r[i].1 == f.ttls[i]) && (i >= |f.ttls| ==> r[i].1 == 0)
  {
    seq(|f.prefixes|, i requires 0 <= i < |f.prefixes| =>
      (f.prefixes[i], if i < |f.ttls| then f.ttls[i] else 0))
  }

  predicate Excluded(p: Cidr, ex: seq<Cidr>) {
    exists e :: e in ex && ContainsOrEquals(e, p)
  }

  function KeptPairs(pairs: seq<(Cidr, Ttl)>, ex: seq<Cidr>): seq<(Cidr, Ttl)> {
    if pairs == [] then []
    else
      var last := pairs[|pairs| - 1];
      KeptPairs(pairs[..|pairs| - 1], ex) + (if Excluded(last.0, ex) then [] else [last])
  }

  function ExcludedCount(ps: seq<Cidr>, ex: seq<Cidr>): nat {
    if ps == [] then 0
    else ExcludedCount(ps[..|ps| - 1], ex) + (if Excluded(ps[|ps| - 1], ex) then 1 else 0)
  }

  /** Every address of `p` is one of a single exclusion's. */
  ghost predicate Inside(p: Cidr, ex: seq<Cidr>) {
    exists e :: e in ex && forall a :: Covers(p, a) ==> Covers(e, a)
  }

  lemma ExcludedIsInside(p: Cidr, ex: seq<Cidr>)
    ensures Excluded(p, ex) <==> Inside(p, ex)
  {
    hide Covers, ContainsOrEquals;
    forall e | e in ex ensures ContainsOrEquals(e, p) <==> forall a :: Covers(p, a) ==> Covers(e, a) {
      ContainsIsSubset(e, p);
    }
  }

  /** `kept` holds each entry of `all` as often as `all` does, except that those inside an
      exclusion are left out. */
  ghost predicate WithoutExcluded(kept: seq<(Cidr, Ttl)>, all: seq<(Cidr, Ttl)>, ex: seq<Cidr>) {
    forall e: (Cidr, Ttl) :: multiset(kept)[e] == if Inside(e.0, ex) then 0 else multiset(all)[e]
  }

  method IsExcluded(p: Cidr, ex: seq<Cidr>) returns (r: bool)
    ensures r <==> Excluded(p, ex)
  {
    hide ContainsOrEquals;
    for i := 0 to |ex|
      invariant forall j :: 0 <= j < i ==> !ContainsOrEquals(ex[j], p)
    {
      if ContainsOrEquals(ex[i], p) {
        return true;
      }
    }
    return false;
  }

  /** The kept entries keep their own lifetimes, however many lifetimes there are. */
  method FilterFamily(f: Family, ex: seq<Cidr>) returns (out: Family, dropped: nat)
    ensures WithoutExcluded(Pairs(out), Pairs(f), ex)
    ensures |out.prefixes| + dropped == |f.prefixes|
    ensures Pairs(out) == KeptPairs(Pairs(f), ex)
    ensures dropped == ExcludedCount(f.prefixes, ex)
  {
    hide WithoutExcluded, KeptPairs, ExcludedCount;
    out, dropped := FilterEach(f, ex);
    KeptExact(Pairs(f), ex);
    KeptAndDropped(f, ex);
  }

  lemma OneMorePair(f: Family, p: Cidr, extra: seq<Ttl>)
    requires |f.ttls| <= |f.prefixes| && |extra| <= 1 && (extra != [] ==> |f.ttls| == |f.prefixes|)
    ensures Pairs(Family(f.prefixes + [p], f.ttls + extra)) == Pairs(f) + [(p, if extra == [] then 0 else extra[0])]
  {
  }

  method FilterEach(f: Family, ex: seq<Cidr>) returns (out: Family, dropped: nat)
    ensures Pairs(out) == KeptPairs(Pairs(f), ex)
    ensures dropped == ExcludedCount(f.prefixes, ex)
  {
    hide Excluded, Pairs;
    if f.prefixes == [] {
      assert Pairs(f) == [];
      return f, 0;
    }
    var ps, ttls := f.prefixes, f.ttls;
    out, dropped := Family([], []), 0;
    for i := 0 to |ps|
      invariant Pairs(out) == KeptPairs(Pairs(f)[..i], ex)
      invariant dropped == ExcludedCount(ps[..i], ex)
      invariant |out.ttls| <= |out.prefixes| && (i <= |ttls| ==> |out.ttls| == |out.prefixes|)
    {
      var p := ps[i];
      assert ps[..i + 1][..i] == ps[..i] && Pairs(f)[..i + 1][..i] == Pairs(f)[..i];
      var excluded := IsExcluded(p, ex);
      if excluded {
        dropped := dropped + 1;
      } else {
        var extra := if i < |ttls| then [ttls[i]] else [];
        OneMorePair(out, p, extra);
        out := Family(out.prefixes + [p], out.ttls + extra);
      }
    }
    assert ps[..|ps|] == ps && Pairs(f)[..|ps|] == Pairs(f);
  }

  lemma {:induction false} KeptExact(pairs: seq<(Cidr, Ttl)>, ex: seq<Cidr>)
    ensures WithoutExcluded(KeptPairs(pairs, ex), pairs, ex)
  {
    hide Excluded, Inside;
    if pairs != [] {
      var front, last := pairs[..|pairs| - 1], pairs[|pairs| - 1];
      KeptExact(front, ex);
      ExcludedIsInside(last.0, ex);
      assert multiset(pairs) == multiset(front) + multiset{last} by { assert pairs == front + [last]; }
      var kept, tail := KeptPairs(front, ex), if Inside(last.0, ex) then [] else [last];
      assert multiset(KeptPairs(pairs, ex)) == multiset(kept) + multiset(tail);
    }
  }

  lemma KeptAndDropped(f: Family, ex: seq<Cidr>)
    ensures |KeptPairs(Pairs(f), ex)| + ExcludedCount(f.prefixes, ex) == |f.prefixes|
  {
    var pairs := Pairs(f);
    assert f.prefixes == Prefixes(pairs);
    KeptOrCounted(pairs, ex);
  }

  function Prefixes(pairs: seq<(Cidr, Ttl)>): (r: seq<Cidr>)
    ensures |r| == |pairs|
  {
    seq(|pairs|, i requires 0 <= i < |pairs| => pairs[i].0)
  }

  lemma {:induction false} KeptOrCounted(pairs: seq<(Cidr, Ttl)>, ex: seq<Cidr>)
    ensures |KeptPairs(pairs, ex)| + ExcludedCount(Prefixes(pairs), ex) == |pairs|
  {
    hide Excluded;
    if pairs != [] {
      var front := pairs[..|pairs| - 1];
      KeptOrCounted(front, ex);
      assert Prefixes(pairs)[..|front|] == Prefixes(front);
    }
  }

  method ApplyExclusions(bl: Blocklist, ex: Exclusions) returns (filtered: Blocklist, dropped: nat)
    ensures WithoutExcluded(Pairs(filtered.v4), Pairs(bl.v4), ex.v4)
    ensures WithoutExcluded(Pairs(filtered.v6), Pairs(bl.v6), ex.v6)
    ensures |filtered.v4.prefixes| + |filtered.v6.prefixes| + dropped == |bl.v4.prefixes| + |bl.v6.prefixes|
    ensures Pairs(filtered.v4) == KeptPairs(Pairs(bl.v4), ex.v4)
    ensures Pairs(filtered.v6) == KeptPairs(Pairs(bl.v6), ex.v6)
    ensures dropped == ExcludedCount(bl.v4.prefixes, ex.v4) + ExcludedCount(bl.v6.prefixes, ex.v6)
  {
    var v4, d4 := FilterFamily(bl.v4, ex.v4);
    var v6, d6 := FilterFamily(bl.v6, ex.v6);
    return Blocklist(v4, v6), d4 + d6;
  }

  // ---- the cap -------------------------------------------------------------

  type Entry = (Cidr, Ttl)

  /** In the order of their prefixes' texts. */
  predicate InOrder(pairs: seq<Entry>, text: Cidr -> string) {
    forall i, j :: 0 <= i < j < |pairs| ==> StringOrder.StrLeq(text(pairs[i].0), text(pairs[j].0))
  }

  /** `kept` is in order, and no entry that was left out comes before a kept one. */
  ghost predicate FirstOf(kept: seq<Entry>, all: seq<Entry>, text: Cidr -> string) {
    && InOrder(kept, text) && multiset(kept) <= multiset(all)
    && forall k, e :: k in kept && e in multiset(all) - multiset(kept) ==> StringOrder.StrLeq(text(k.0), text(e.0))
  }

  lemma {:induction false} InsertInOrder(pairs: seq<Entry>, x: Entry, text: Cidr -> string) returns (r: seq<Entry>)
    requires InOrder(pairs, text)
    ensures InOrder(r, text) && multiset(r) == multiset(pairs) + multiset{x}
  {
    hide StringOrder.StrLeq;
    if pairs == [] || StringOrder.StrLeq(text(x.0), text(pairs[0].0)) {
      r := [x] + pairs;
      forall j | 0 < j < |r| ensures StringOrder.StrLeq(text(x.0), text(r[j].0)) {
        if j > 1 {
          StringOrder.StrTransitive(text(x.0), text(pairs[0].0), text(pairs[j - 1].0));
        }
      }
    } else {
      var rest := InsertInOrder(pairs[1..], x, text);
      r := [pairs[0]] + rest;
      StringOrder.StrTotal(text(x.0), text(pairs[0].0));
      forall j | 0 <= j < |rest| ensures StringOrder.StrLeq(text(pairs[0].0), text(rest[j].0)) {
        assert rest[j] in multiset(rest);
        if rest[j] != x {
          assert rest[j] in pairs[1..];
        }
      }
      assert pairs == [pairs[0]] + pairs[1..];
    }
  }

  lemma {:induction false} CanBeSorted(pairs: seq<Entry>, text: Cidr -> string) returns (r: seq<Entry>)
    ensures InOrder(r, text) && multiset(r) == multiset(pairs)
  {
    r := [];
    if pairs != [] {
      var rest := CanBeSorted(pairs[1..], text);
      r := InsertInOrder(rest, pairs[0], text);
      assert pairs == [pairs[0]] + pairs[1..];
    }
  }

  lemma CutInOrder(sorted: seq<Entry>, all: seq<Entry>, n: nat, text: Cidr -> string)
    requires InOrder(sorted, text) && multiset(sorted) == multiset(all) && n <= |sorted|
    ensures FirstOf(sorted[..n], all, text)
  {
    hide StringOrder.StrLeq;
    var kept, rest := sorted[..n], sorted[n..];
    assert multiset(all) - multiset(kept) == multiset(rest) by {
      assert sorted == kept + rest;
    }
    forall k: Entry, e: Entry | k in kept && e in rest ensures StringOrder.StrLeq(text(k.0), text(e.0)) {
      OneBefore(sorted, n, k, e, text);
    }
  }

  lemma OneBefore(sorted: seq<Entry>, n: nat, k: Entry, e: Entry, text: Cidr -> string)
    requires InOrder(sorted, text) && n <= |sorted| && k in sorted[..n] && e in sorted[n..]
    ensures StringOrder.StrLeq(text(k.0), text(e.0))
  {
    hide StringOrder.StrLeq;
    var i :| 0 <= i < n && sorted[i] == k;
    var j :| n <= j < |sorted| && sorted[j] == e;
  }

  /** Sort the entries by the text of their prefixes and keep the first 500000, each with its
      lifetime. The sort is not stable: entries of one prefix may come in any order. */
  method EnforceFamily(f: Family, text: Cidr -> string) returns (out: Family, dropped: nat)
    ensures FirstOf(Pairs(out), Pairs(f), text)
    ensures multiset(Pairs(out)) <= multiset(Pairs(f))
    ensures |out.prefixes| == |out.ttls| <= 500000
    ensures |out.prefixes| + dropped == |f.prefixes|
    ensures dropped > 0 ==> |out.prefixes| == 500000
  {
    hide InOrder, FirstOf;
    var pairs := Pairs(f);
    var sorted := Sorted(pairs, text);
    assert |sorted| == |multiset(sorted)| == |multiset(pairs)| == |pairs|;
    dropped := if |sorted| > MAX_ELEMENTS then |sorted| - MAX_ELEMENTS else 0;
    var kept := sorted[..|sorted| - dropped];
    CutInOrder(sorted, pairs, |sorted| - dropped, text);
    FirstAreGiven(kept, pairs, text);
    out := Family(seq(|kept|, i requires 0 <= i < |kept| => kept[i].0), seq(|kept|, i requires 0 <= i < |kept| => kept[i].1));
    assert Pairs(out) == kept;
  }

  lemma FirstAreGiven(kept: seq<Entry>, all: seq<Entry>, text: Cidr -> string)
    requires FirstOf(kept, all, text)
    ensures multiset(kept) <= multiset(all)
  {
  }

  /** Some sorted order of the entries. */
  method Sorted(pairs: seq<Entry>, text: Cidr -> string) returns (sorted: seq<Entry>)
    ensures InOrder(sorted, text) && multiset(sorted) == multiset(pairs)
  {
    hide InOrder;
    ghost var r := CanBeSorted(pairs, text);
    sorted :| InOrder(sorted, text) && multiset(sorted) == multiset(pairs);
  }

  method EnforceCap(bl: Blocklist, text: Cidr -> string) returns (capped: Blocklist)
    ensures multiset(Pairs(capped.v4)) <= multiset(Pairs(bl.v4)) && |capped.v4.prefixes| <= 500000
    ensures multiset(Pairs(capped.v6)) <= multiset(Pairs(bl.v6)) && |capped.v6.prefixes| <= 500000
    ensures |capped.v4.prefixes| == 500000 || |capped.v4.prefixes| == |bl.v4.prefixes|
    ensures |capped.v6.prefixes| == 500000 || |capped.v6.prefixes| == |bl.v6.prefixes|
    ensures FirstOf(Pairs(capped.v4), Pairs(bl.v4), text) && FirstOf(Pairs(capped.v6), Pairs(bl.v6), text)
  {
    hide FirstOf;
    var v4, d4 := EnforceFamily(bl.v4, text);
    var v6, d6 := EnforceFamily(bl.v6, text);
    return Blocklist(v4, v6);
  }

  // ---- the self-protect test -----------------------------------------------

  method IntersectFamily(ps: seq<Cidr>, ex: seq<Cidr>) returns (n: nat)
    ensures n == ExcludedCount(ps, ex)
  {
    hide Excluded;
    n := 0;
    for i := 0 to |ps|
      invariant n == ExcludedCount(ps[..i], ex)
    {
      assert ps[..i + 1][..i] == ps[..i];
      var hit := IsExcluded(ps[i], ex);
      if hit {
        n := n + 1;
      }
    }
    assert ps[..|ps|] == ps;
  }

  function Proposed(bl: Blocklist): nat {
    |bl.v4.prefixes| + |bl.v6.prefixes|
  }

  function Intersection(bl: Blocklist, ex: Exclusions): nat {
    ExcludedCount(bl.v4.prefixes, ex.v4) + ExcludedCount(bl.v6.prefixes, ex.v6)
  }

  /** More than one in twenty of the proposed bans is excluded. */
  predicate Trips(bl: Blocklist, ex: Exclusions) {
    20 * Intersection(bl, ex) > Proposed(bl)
  }

  method ShouldSelfProtectTrip(bl: Blocklist, ex: Exclusions) returns (r: bool)
    ensures r <==> Trips(bl, ex)
  {
    var n4 := IntersectFamily(bl.v4.prefixes, ex.v4);
    var n6 := IntersectFamily(bl.v6.prefixes, ex.v6);
    var total := |bl.v4.prefixes| + |bl.v6.prefixes|;
    if total == 0 {
      assert ExcludedCount([], ex.v4) == 0 && ExcludedCount([], ex.v6) == 0;
      return false;
    }
    Ratio(n4 + n6, total);
    var ratio := (n4 + n6) as real / total as real;
    return ratio > 0.05;
  }

  lemma Ratio(n: nat, total: nat)
    requires total > 0
    ensures n as real / total as real > 0.05 <==> 20 * n > total
  {
    RatioReal(n as real / total as real, n as real, total as real);
  }

  lemma RatioReal(q: real, x: real, t: real)
    requires t > 0.0 && q * t == x
    ensures q > 0.05 <==> 20.0 * x > t
  {
    var d := q - 0.05;
    assert d * t == x - 0.05 * t;
    Sign(d, t);
  }

  lemma Sign(d: real, t: real)
    requires t > 0.0
    ensures d > 0.0 <==> d * t > 0.0
  {
  }

  /** The least power of two a double's relative error stays within. */
  const ROUNDING: real := 1.0 / 9007199254740992.0

  ghost predicate Rounds(fl: real -> real) {
    forall x :: x >= 0.0 ==> x - x * ROUNDING <= fl(x) <= x + x * ROUNDING
  }

  /** Rounding the quotient and the threshold to doubles makes no difference to the test, for
      lists of up to 2^51 entries. */
  lemma RoundedRatio(fl: real -> real, n: nat, total: nat)
    requires Rounds(fl) && 0 < total <= 2251799813685248
    ensures fl(n as real / total as real) > fl(0.05) <==> 20 * n > total
  {
    var x, t := n as real, total as real;
    var q := x / t;
    Ratio(n, total);
    if 20 * n == total {
      assert q * t == x;
      RatioEqual(q, x, t);
    } else if 20 * n > total {
      FarAbove(q, x, t);
    } else {
      FarBelow(q, x, t);
    }
  }

  lemma RatioEqual(q: real, x: real, t: real)
    requires t > 0.0 && q * t == x && 20.0 * x == t
    ensures q == 0.05
  {
    var d := q - 0.05;
    assert d * t == 0.0;
    Sign(d, t);
    Sign(-d, t);
  }

  lemma FarAbove(q: real, x: real, t: real)
    requires 1.0 <= t <= 2251799813685248.0 && q * t == x && 20.0 * x >= t + 1.0 && q >= 0.0
    ensures q - q * ROUNDING > 0.05 + 0.05 * ROUNDING
  {
    var bound := 0.05 + 0.15 * ROUNDING;
    assert bound * t < 0.05 * t + 0.05 by { assert t * ROUNDING <= 0.25; }
    var d := q - bound;
    assert d * t == x - bound * t;
    Sign(d, t);
  }

  lemma FarBelow(q: real, x: real, t: real)
    requires 1.0 <= t <= 2251799813685248.0 && q * t == x && 20.0 * x <= t - 1.0 && q >= 0.0
    ensures q + q * ROUNDING <= 0.05 - 0.05 * ROUNDING
  {
    var bound := 0.05 - 0.15 * ROUNDING;
    assert bound * t > 0.05 * t - 0.05 by { assert t * ROUNDING <= 0.25; }
    var d := bound - q;
    assert d * t == bound * t - x;
    Sign(d, t);
  }

  // ---- what may be applied -------------------------------------------------

  /** At most 500000 entries, each a fetched one that is inside no exclusion and no more often than
      it was fetched; below that number all of those. */
  ghost predicate FamilyOk(applied: Family, fetched: Family, ex: seq<Cidr>) {
    && |applied.prefixes| <= 500000
    && (forall p :: p in applied.prefixes ==> !Inside(p, ex))
    && multiset(Pairs(applied)) <= multiset(Pairs(fetched))
    && (|applied.prefixes| < 500000 ==> WithoutExcluded(Pairs(applied), Pairs(fetched), ex))
  }

  ghost predicate AppliedOk(applied: Blocklist, fetched: Blocklist, ex: Exclusions) {
    && FamilyOk(applied.v4, fetched.v4, ex.v4)
    && FamilyOk(applied.v6, fetched.v6, ex.v6)
    && 20 * Intersection(fetched, ex) <= Proposed(fetched)
  }

  lemma FamilyApplied(applied: Family, filtered: Family, fetched: Family, ex: seq<Cidr>)
    requires WithoutExcluded(Pairs(filtered), Pairs(fetched), ex)
    requires multiset(Pairs(applied)) <= multiset(Pairs(filtered)) && |applied.prefixes| <= 500000
    requires |applied.prefixes| == 500000 || |applied.prefixes| == |filtered.prefixes|
    ensures FamilyOk(applied, fetched, ex)
  {
    hide Inside;
    forall p | p in applied.prefixes ensures !Inside(p, ex) {
      var i :| 0 <= i < |applied.prefixes| && applied.prefixes[i] == p;
      var e := Pairs(applied)[i];
      assert e in multiset(Pairs(applied));
      assert multiset(Pairs(filtered))[e] > 0;
    }
    assert multiset(Pairs(filtered)) <= multiset(Pairs(fetched));
    if |applied.prefixes| < MAX_ELEMENTS {
      SubMultiset(multiset(Pairs(applied)), multiset(Pairs(filtered)));
    }
  }

  lemma SubMultiset<T>(a: multiset<T>, b: multiset<T>)
    requires a <= b && |a| == |b|
    ensures a == b
  {
    assert b == a + (b - a);
    assert |b - a| == 0;
  }

  // ---- the reconciler ------------------------------------------------------

  datatype Mode = Disabled | DryRun | Enforce

  /** What a tick came to. */
  datatype Event =
    | Skipped
    | NoInput
    | Tripped(proposed: Blocklist, exclusions: Exclusions)
    | Passed(list: Blocklist, fetched: Blocklist, exclusions: Exclusions, applied: bool)

  function TripsIn(events: seq<Event>): nat {
    if events == [] then 0
    else TripsIn(events[..|events| - 1]) + (if events[|events| - 1].Tripped? then 1 else 0)
  }

  ghost predicate EventOk(e: Event, mode: Mode) {
    match e
    case Tripped(bl, ex) => Trips(bl, ex)
    case Passed(list, fetched, ex, applied) => AppliedOk(list, fetched, ex) && (applied ==> mode.Enforce?)
    case _ => true
  }

  /** After the budget is spent every tick is skipped, and none is before. */
  ghost predicate Latched(events: seq<Event>) {
    forall i :: 0 <= i < |events| ==> (events[i].Skipped? <==> TripsIn(events[..i]) >= 3)
  }

  class Reconciler {
    const mode: Mode
    var tripCount: nat
    var quiescent: bool
    ghost var events: seq<Event>

    /** Holds in every reachable state: at most three trips ever, nothing after the third, and
        every list that passed is within the cap, free of exclusions and of fetched entries. */
    ghost predicate Valid()
      reads this
    {
      && tripCount == TripsIn(events) <= 3
      && (quiescent <==> tripCount == 3)
      && Latched(events)
      && forall e :: e in events ==> EventOk(e, mode)
    }

    constructor (mode: Mode)
      ensures Valid() && events == [] && this.mode == mode
    {
      this.mode := mode;
      tripCount, quiescent, events := 0, false, [];
    }

    /** One tick: `fetched` and `exclusions` are None when reading them failed; `applierOk`
        is what the kernel write answers, None when there is no applier; `text` is how prefixes
        are printed. What passes is, of each family, the first entries left by the exclusions. */
    method Tick(fetched: Option<Blocklist>, exclusions: Option<Exclusions>, applierOk: Option<bool>, text: Cidr -> string)
      returns (ghost event: Event)
      requires Valid()
      modifies this
      ensures Valid() && events == old(events) + [event]
      ensures old(quiescent) <==> event.Skipped?
      ensures event.NoInput? <==> !old(quiescent) && (fetched.None? || exclusions.None?)
      ensures event.Tripped? <==>
                !old(quiescent) && fetched.Some? && exclusions.Some? && Trips(fetched.value, exclusions.value)
      ensures tripCount == old(tripCount) + (if event.Tripped? then 1 else 0)
      ensures event.Passed? ==> event.fetched == fetched.value && event.exclusions == exclusions.value
      ensures event.Passed? ==> (event.applied <==> mode.Enforce? && applierOk == Some(true))
      ensures event.Passed? ==>
                && FirstAllowed(Pairs(event.list.v4), Pairs(event.fetched.v4), event.exclusions.v4, text)
                && FirstAllowed(Pairs(event.list.v6), Pairs(event.fetched.v6), event.exclusions.v6, text)
    {
      hide Trips, AppliedOk, FirstOf, FirstAllowed, WithoutExcluded;
      if quiescent {
        Record(Skipped);
        return Skipped;
      }
      if fetched.None? || exclusions.None? {
        Record(NoInput);
        return NoInput;
      }
      var bl, ex := fetched.value, exclusions.value;
      var trip := ShouldSelfProtectTrip(bl, ex);
      if trip {
        event := Tripped(bl, ex);
        RecordTrip(event);
        return;
      }
      var filtered, droppedByExclusion := ApplyExclusions(bl, ex);
      var capped := EnforceCap(filtered, text);
      var applied := mode.Enforce? && applierOk == Some(true);
      PassedOk(capped, filtered, bl, ex);
      AllowedFirst(Pairs(capped.v4), Pairs(filtered.v4), Pairs(bl.v4), ex.v4, text);
      AllowedFirst(Pairs(capped.v6), Pairs(filtered.v6), Pairs(bl.v6), ex.v6, text);
      event := Passed(capped, bl, ex, applied);
      Record(event);
    }

    method RecordTrip(ghost event: Event)
      requires Valid() && !quiescent && EventOk(event, mode) && event.Tripped?
      modifies this
      ensures Valid() && events == old(events) + [event] && tripCount == old(tripCount) + 1
    {
      hide EventOk, TripsIn, Latched;
      EventsSnoc(events, event);
      tripCount := tripCount + 1;
      events := events + [event];
      if tripCount >= TRIP_BUDGET {
        quiescent := true;
      }
    }

    /** Note the outcome of a tick that is no trip. */
    ghost method Record(event: Event)
      requires Valid() && EventOk(event, mode) && !event.Tripped?
      requires event.Skipped? <==> quiescent
      modifies this`events
      ensures Valid() && events == old(events) + [event]
    {
      hide EventOk, TripsIn, Latched;
      EventsSnoc(events, event);
      events := events + [event];
    }
  }

  lemma EventsSnoc(events: seq<Event>, e: Event)
    requires Latched(events) && (e.Skipped? <==> TripsIn(events) >= 3)
    ensures Latched(events + [e])
    ensures TripsIn(events + [e]) == TripsIn(events) + (if e.Tripped? then 1 else 0)
  {
    hide TripsIn;
    var more := events + [e];
    assert TripsIn(more) == TripsIn(events) + (if e.Tripped? then 1 else 0) by { TripsSnoc(events, e); }
    forall i | 0 <= i < |more| ensures more[i].Skipped? <==> TripsIn(more[..i]) >= 3 {
      if i < |events| {
        assert more[..i] == events[..i];
      } else {
        assert more[..i] == events;
      }
    }
  }

  lemma TripsSnoc(events: seq<Event>, e: Event)
    ensures TripsIn(events + [e]) == TripsIn(events) + (if e.Tripped? then 1 else 0)
  {
    assert (events + [e])[..|events|] == events;
  }

  /** `kept` is in order, and an entry inside no exclusion of which some were left out comes no
      earlier than any kept one. */
  ghost predicate FirstAllowed(kept: seq<Entry>, all: seq<Entry>, ex: seq<Cidr>, text: Cidr -> string) {
    && InOrder(kept, text)
    && forall k: Entry, e: Entry :: k in kept && !Inside(e.0, ex) && multiset(kept)[e] < multiset(all)[e] ==>
         StringOrder.StrLeq(text(k.0), text(e.0))
  }

  lemma AllowedFirst(kept: seq<Entry>, filtered: seq<Entry>, all: seq<Entry>, ex: seq<Cidr>, text: Cidr -> string)
    requires FirstOf(kept, filtered, text) && WithoutExcluded(filtered, all, ex)
    ensures FirstAllowed(kept, all, ex, text)
  {
    hide Inside, StringOrder.StrLeq, InOrder;
    forall k: Entry, e: Entry | k in kept && !Inside(e.0, ex) && multiset(kept)[e] < multiset(all)[e]
      ensures StringOrder.StrLeq(text(k.0), text(e.0))
    {
      assert e in multiset(filtered) - multiset(kept);
    }
  }

  lemma PassedOk(capped: Blocklist, filtered: Blocklist, bl: Blocklist, ex: Exclusions)
    requires !Trips(bl, ex)
    requires WithoutExcluded(Pairs(filtered.v4), Pairs(bl.v4), ex.v4) && WithoutExcluded(Pairs(filtered.v6), Pairs(bl.v6), ex.v6)
    requires multiset(Pairs(capped.v4)) <= multiset(Pairs(filtered.v4)) && |capped.v4.prefixes| <= 500000
    requires multiset(Pairs(capped.v6)) <= multiset(Pairs(filtered.v6)) && |capped.v6.prefixes| <= 500000
    requires |capped.v4.prefixes| == 500000 || |capped.v4.prefixes| == |filtered.v4.prefixes|
    requires |capped.v6.prefixes| == 500000 || |capped.v6.prefixes| == |filtered.v6.prefixes|
    ensures AppliedOk(capped, bl, ex)
  {
    hide FamilyOk;
    FamilyApplied(capped.v4, filtered.v4, bl.v4, ex.v4);
    FamilyApplied(capped.v6, filtered.v6, bl.v6, ex.v6);
  }

  // ---- what an applied list can still reach --------------------------------

  /** An entry that passed the exclusions shares an address with an exclusion exactly when it
      strictly contains it: only bans inside an exclusion are removed. */
  lemma SurvivorTouches(p: Cidr, e: Cidr, ex: seq<Cidr>)
    requires e in ex && !Excluded(p, ex)
    ensures Share(p, e) <==> ContainsOrEquals(p, e)
    ensures Share(p, e) ==> exists a :: Covers(p, a) && !Covers(e, a)
  {
    hide ContainsOrEquals, Covers;
    TwoWayIsIntersection(p, e);
    NotSubset(e, p);
  }

  /** Such a ban: 10.0.0.0/24 against the exclusion 10.0.0.5/32. */
  lemma WideBanSurvives() returns (ban: Cidr, e: Cidr)
    ensures ban == Cidr(false, 0x0A000000, 24) && e == Cidr(false, 0x0A000005, 32)
    ensures !Excluded(ban, [e]) && Share(ban, e)
  {
    FourBytes();
    ban, e := Cidr(false, 0x0A000000, 24), Cidr(false, 0x0A000005, 32);
    assert HostBits(ban) == 8 && HostBits(e) == 0;
    assert Covers(e, Addr(false, 0x0A000005)) && Covers(ban, Addr(false, 0x0A000005));
  }

  lemma FourBytes()
    ensures Size(4) == 0x100000000 && Powers.Pow2(8) == 256 && Powers.Pow2(0) == 1
  {
    SizeStep(3);
    SizeStep(2);
    SizeStep(1);
    SizeStep(0);
    Powers.Pow2Eight();
  }
}
