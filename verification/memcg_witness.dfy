/**
 The witness itself: its tables of pods and watches, updated in place by rescans and
 event batches. `hist` is the history of worlds the steps have seen; `Valid` holds
 between any two steps of any run.
 */
module MemcgWitness {
  import opened Prelude
  import opened MemcgModel

  const REMOVED_RETENTION := 2 * 60 * 60 * 1000
  const REMOVED_OOM_RETENTION := 24 * 60 * 60 * 1000
  const MAX_PODS := 2000
  const MAX_OVERFLOWS := 8

  /** What a watch descriptor was handed out for. Descriptors are not reused. */
  datatype Path = ParentPath(dir: string) | PodPath(uid: Uid) | ScopePath(scopeUid: Uid, id: Id)

  datatype ScopeRef = ScopeRef(uid: Uid, id: Id)

  datatype Flag = QOverflow | Ignored | Create | MovedTo | DeleteSelf | Modify

  /** An inotify event; `podUid` and `scopeId` are what the two directory-name parsers
      make of its name, `named` says that it has one. */
  datatype Event = Event(wd: Wd, mask: set<Flag>, named: bool, podUid: Option<Uid>, scopeId: Option<Id>)

  function Retention(p: Pod): Time {
    if p.counters == ZERO then REMOVED_RETENTION else REMOVED_OOM_RETENTION
  }

  predicate Expired(p: Pod, now: Time) {
    p.removed.Some? && now - p.removed.value > Retention(p)
  }

  /** `now` is `was` without some removed pods: never a live one. */
  ghost predicate OnlyRemovedGone(was: map<Uid, Pod>, now: map<Uid, Pod>) {
    && (forall uid :: uid in now ==> uid in was && now[uid] == was[uid])
    && (forall uid :: uid in was && was[uid].removed.None? ==> uid in now)
  }

  /** Of those that had to go for the cap, none was removed later than one that stayed; and
      the cap is not undercut for them. */
  ghost predicate OldestGone(was: map<Uid, Pod>, now: map<Uid, Pod>, expired: set<Uid>) {
    && (|now| <= 2000 || forall uid :: uid in now ==> now[uid].removed.None?)
    && ((exists uid :: uid in was && uid !in now && uid !in expired) ==> |now| >= 2000)
    && forall u, v :: u in was && u !in now && u !in expired && v in now && now[v].removed.Some? ==>
         was[u].removed.Some? && was[u].removed.value <= now[v].removed.value
  }

  function ExpiredOf(pods: map<Uid, Pod>, now: Time): set<Uid> {
    set uid | uid in pods && Expired(pods[uid], now)
  }

  /** A removed record stays two hours, one with a count of kills a day, in milliseconds, and
      goes earlier only to keep the cap. */
  ghost predicate KeptAsLong(was: map<Uid, Pod>, now: map<Uid, Pod>, t: Time) {
    forall uid :: uid in was && was[uid].removed.Some? ==>
      var c := was[uid].counters;
      var late := t - was[uid].removed.value > if c.oom == 0 && c.kill == 0 && c.group == 0 then 7200000 else 86400000;
      (uid in now ==> !late) && (uid !in now && |now| < 2000 ==> late)
  }

  lemma PrunedKeepsAsLong(was: map<Uid, Pod>, now: map<Uid, Pod>, t: Time)
    requires Pruned(was, now, t)
    ensures KeptAsLong(was, now, t)
  {
    forall uid | uid in was && uid !in now && |now| < 2000 ensures Expired(was[uid], t) {
      assert uid in ExpiredOf(was, t);
    }
  }

  function MarkedGone(p: Pod, now: Time): Pod {
    if p.removed.None? then p.(removed := Some(now)) else p
  }

  /** The records once every listed pod is adopted or re-read and every other one is marked gone. */
  function Found(was: map<Uid, Pod>, w: World, since: Time, sinceStep: nat, step: nat): map<Uid, Pod> {
    map uid | uid in was.Keys + w.pods.Keys ::
      if uid in w.pods then AdoptedPod(Get(was, uid), Some(w.pods[uid]), since, sinceStep, w.now, step)
      else MarkedGone(was[uid], w.now)
  }

  /** Of the records `was`, the expired ones are gone, then over the cap the oldest removed ones,
      and nothing else. */
  ghost predicate Pruned(was: map<Uid, Pod>, now: map<Uid, Pod>, t: Time) {
    && OnlyRemovedGone(was, now) && (forall uid :: uid in now ==> !Expired(now[uid], t))
    && OldestGone(was, now, ExpiredOf(was, t))
  }

  function ScopeWds(scopes: map<Id, Scope>): set<Wd> {
    set id | id in scopes && scopes[id].wd.Some? :: scopes[id].wd.value
  }

  ghost predicate ScopeRefs(uid: Uid, scopes: map<Id, Scope>, ws: map<Wd, ScopeRef>) {
    forall id :: id in scopes && scopes[id].wd.Some? ==>
      scopes[id].wd.value in ws && ws[scopes[id].wd.value] == ScopeRef(uid, id)
  }

  ghost predicate PodRefs(uid: Uid, wds: set<Wd>, wp: map<Wd, Uid>) {
    forall wd :: wd in wds ==> wd in wp && wp[wd] == uid
  }

  /** Everything mapped for other pods is still mapped the same way. */
  ghost predicate OthersKept(uid: Uid, before: map<Wd, ScopeRef>, after: map<Wd, ScopeRef>) {
    forall wd :: wd in before && before[wd].uid != uid ==> wd in after && after[wd] == before[wd]
  }

  lemma RefsKept(uid: Uid, pods: map<Uid, Pod>, before: map<Wd, ScopeRef>, after: map<Wd, ScopeRef>)
    requires OthersKept(uid, before, after)
    requires forall u :: u in pods ==> ScopeRefs(u, pods[u].scopes, before)
    ensures forall u :: u in pods && u != uid ==> ScopeRefs(u, pods[u].scopes, after)
  {
    forall u, id | u in pods && u != uid && id in pods[u].scopes && pods[u].scopes[id].wd.Some?
      ensures var wd := pods[u].scopes[id].wd.value; wd in after && after[wd] == ScopeRef(u, id)
    {
      assert ScopeRefs(u, pods[u].scopes, before);
    }
  }

  class Witness {
    var pods: map<Uid, Pod>
    var wdPod: map<Wd, Uid>
    var wdScope: map<Wd, ScopeRef>
    var wdParent: map<Wd, string>
    var parentsOn: set<string>
    var overflows: seq<Time>
    var rescanned: Time
    var initialDone: bool
    // Bookkeeping: how many locked steps there were, and which one rescanned last.
    var steps: nat
    var rescanStep: nat

    ghost var hist: History
    ghost const owner: imap<Wd, Path>

    constructor (ghost owner: imap<Wd, Path>)
      ensures Valid() && hist == [] && pods == map[] && this.owner == owner
    {
      pods, wdPod, wdScope, wdParent := map[], map[], map[], map[];
      parentsOn, overflows := {}, [];
      rescanned, initialDone, steps, rescanStep := 0, false, 0, 0;
      hist := [];
      this.owner := owner;
    }

    // ---- what always holds ---------------------------------------------------

    /** Descriptor `wd` was handed out for `path`. */
    ghost predicate For(wd: Wd, path: Path) {
      wd in owner && owner[wd] == path
    }

    ghost predicate Records()
      reads this
    {
      forall uid :: uid in pods ==> PodInv(hist, uid, pods[uid])
    }

    ghost predicate Owned(ws: map<Wd, ScopeRef>) {
      forall wd :: wd in ws ==> For(wd, ScopePath(ws[wd].uid, ws[wd].id))
    }

    /** Every watch a record or one of its containers holds maps back to it, and no
        descriptor is mapped for anything but what it was handed out for. */
    ghost predicate Watches()
      reads this
    {
      && Owned(wdScope)
      && (forall wd :: wd in wdPod ==> For(wd, PodPath(wdPod[wd])))
      && (forall wd :: wd in wdParent ==> For(wd, ParentPath(wdParent[wd])))
      && (forall uid :: uid in pods ==> ScopeRefs(uid, pods[uid].scopes, wdScope))
      && (forall uid :: uid in pods ==> PodRefs(uid, pods[uid].wds, wdPod))
    }

    /** The parents that are watched, each by one descriptor. */
    ghost predicate ParentsOnce()
      reads this`wdParent, this`parentsOn
    {
      && (forall wd :: wd in wdParent ==> wdParent[wd] in parentsOn)
      && (forall dir :: dir in parentsOn ==> exists wd :: wd in wdParent && wdParent[wd] == dir)
      && (forall v, wd :: v in wdParent && wd in wdParent && wdParent[v] == wdParent[wd] ==> v == wd)
    }

    /** A pod that existed at the last rescan and still exists is tracked as live. */
    ghost predicate RescanKept()
      reads this
    {
      && (!initialDone ==> rescanned == 0)
      && (initialDone ==>
            && rescanStep < |hist|
            && hist[rescanStep].now == rescanned
            && forall uid :: uid in hist[rescanStep].pods && uid in hist[|hist| - 1].pods ==>
                 uid in pods && pods[uid].removed.None?)
    }

    ghost predicate Valid()
      reads this
    {
      HistoryOk(hist) && steps == |hist| && Records() && Watches() && RescanKept() && ParentsOnce()
    }

    ghost predicate ScopeWdsOk(uid: Uid, d: Option<PodDir>) {
      d.Some? ==> forall id :: id in d.value.scopes && d.value.scopes[id].wd.Some? ==>
        For(d.value.scopes[id].wd.value, ScopePath(uid, id))
    }

    ghost predicate PodWdsOk(uid: Uid, d: PodDir) {
      && (d.dirWd.Some? ==> For(d.dirWd.value, PodPath(uid)))
      && (d.eventsWd.Some? ==> For(d.eventsWd.value, PodPath(uid)))
    }

    /** inotify_add_watch answers with descriptors that belong to the path asked for. */
    ghost predicate WdsOk(w: World) {
      forall uid :: uid in w.pods ==> PodWdsOk(uid, w.pods[uid]) && ScopeWdsOk(uid, Some(w.pods[uid]))
    }

    /** A pod about to be adopted whose counters cannot be read has counted nothing. */
    ghost predicate UnreadMeansZero(w: World)
      reads this
    {
      forall uid :: uid in w.pods && !(uid in pods && pods[uid].removed.None?) && !w.pods[uid].readable ==>
        w.pods[uid].truth == ZERO
    }

    /** What a step may assume of the world it finds. */
    ghost predicate Environment(w: World)
      reads this
    {
      WorldOk(w) && (hist != [] ==> WorldStep(hist[|hist| - 1], w)) && WdsOk(w) && UnreadMeansZero(w)
    }

    /** Inside a step: `w` is the world of the step. */
    ghost predicate During(w: World)
      reads this
    {
      Valid() && hist != [] && hist[|hist| - 1] == w && WdsOk(w) && UnreadMeansZero(w)
    }

    // ---- container cgroups ---------------------------------------------------

    method AdoptScopeLocked(uid: Uid, scopes: map<Id, Scope>, id: Id, d: Option<ScopeDir>)
      returns (out: map<Id, Scope>)
      requires steps > 0
      requires Owned(wdScope) && ScopeRefs(uid, scopes, wdScope)
      requires d.Some? && d.value.wd.Some? ==> For(d.value.wd.value, ScopePath(uid, id))
      modifies this`wdScope
      ensures out == if id in scopes then scopes else scopes[id := AdoptedScope(d, steps - 1)]
      ensures Owned(wdScope) && ScopeRefs(uid, out, wdScope) && OthersKept(uid, old(wdScope), wdScope)
      ensures forall wd :: wd in old(wdScope) ==> wd in wdScope && wdScope[wd] == old(wdScope)[wd]
    {
      if id in scopes {
        return scopes;
      }
      var s := AdoptedScope(d, steps - 1);
      if s.wd.Some? {
        wdScope := wdScope[s.wd.value := ScopeRef(uid, id)];
      }
      out := scopes[id := s];
    }

    method DropScopeLocked(uid: Uid, scopes: map<Id, Scope>, id: Id) returns (out: map<Id, Scope>)
      requires Owned(wdScope) && ScopeRefs(uid, scopes, wdScope) && id in scopes
      modifies this`wdScope
      ensures out == scopes - {id}
      ensures Owned(wdScope) && ScopeRefs(uid, out, wdScope) && OthersKept(uid, old(wdScope), wdScope)
    {
      if scopes[id].wd.Some? {
        wdScope := wdScope - {scopes[id].wd.value};
      }
      out := scopes - {id};
    }

    method SyncScopesLocked(uid: Uid, scopes: map<Id, Scope>, d: Option<PodDir>) returns (out: map<Id, Scope>)
      requires steps > 0
      requires Owned(wdScope) && ScopeRefs(uid, scopes, wdScope)
      requires ScopeWdsOk(uid, d)
      modifies this`wdScope
      ensures out == SyncedScopes(scopes, d, steps - 1)
      ensures Owned(wdScope) && ScopeRefs(uid, out, wdScope) && OthersKept(uid, old(wdScope), wdScope)
    {
      hide ScopeRefs, Owned, OthersKept, AdoptedScope;
      out := scopes;
      if d.None? || !d.value.listable {
        Untouched(uid, wdScope);
        return;
      }
      out := AdoptPresent(uid, scopes, d.value.scopes);
      ghost var between := wdScope;
      out := DropGone(uid, out, d.value.scopes);
      OthersKeptTwice(uid, old(wdScope), between, wdScope);
    }

    lemma Untouched(uid: Uid, m: map<Wd, ScopeRef>)
      ensures OthersKept(uid, m, m)
    {
    }

    lemma OthersKeptTwice(uid: Uid, a: map<Wd, ScopeRef>, b: map<Wd, ScopeRef>, c: map<Wd, ScopeRef>)
      requires OthersKept(uid, a, b) && OthersKept(uid, b, c)
      ensures OthersKept(uid, a, c)
    {
    }

    /** Adopt the containers that are not recorded yet. */
    method AdoptPresent(uid: Uid, scopes: map<Id, Scope>, present: map<Id, ScopeDir>) returns (out: map<Id, Scope>)
      requires steps > 0
      requires Owned(wdScope) && ScopeRefs(uid, scopes, wdScope)
      requires forall id :: id in present && present[id].wd.Some? ==> For(present[id].wd.value, ScopePath(uid, id))
      modifies this`wdScope
      ensures out.Keys == scopes.Keys + present.Keys
      ensures forall id :: id in out ==>
                out[id] == if id in scopes then scopes[id] else AdoptedScope(Some(present[id]), steps - 1)
      ensures Owned(wdScope) && ScopeRefs(uid, out, wdScope) && OthersKept(uid, old(wdScope), wdScope)
    {
      hide ScopeRefs, Owned, OthersKept, AdoptedScope;
      out := scopes;
      var todo := present.Keys;
      Untouched(uid, wdScope);
      while todo != {}
        invariant todo <= present.Keys
        invariant Owned(wdScope) && ScopeRefs(uid, out, wdScope) && OthersKept(uid, old(wdScope), wdScope)
        invariant out.Keys == scopes.Keys + (present.Keys - todo)
        invariant forall id :: id in out ==>
                    out[id] == if id in scopes then scopes[id] else AdoptedScope(Some(present[id]), steps - 1)
      {
        var id :| id in todo;
        ghost var before := wdScope;
        out := AdoptScopeLocked(uid, out, id, Some(present[id]));
        OthersKeptTwice(uid, old(wdScope), before, wdScope);
        todo := todo - {id};
      }
    }

    /** Forget the containers that are gone. */
    method DropGone(uid: Uid, scopes: map<Id, Scope>, present: map<Id, ScopeDir>) returns (out: map<Id, Scope>)
      requires Owned(wdScope) && ScopeRefs(uid, scopes, wdScope)
      modifies this`wdScope
      ensures out == scopes - (scopes.Keys - present.Keys)
      ensures Owned(wdScope) && ScopeRefs(uid, out, wdScope) && OthersKept(uid, old(wdScope), wdScope)
    {
      hide ScopeRefs, Owned, OthersKept;
      out := scopes;
      var gone := out.Keys - present.Keys;
      Untouched(uid, wdScope);
      while gone != {}
        invariant gone <= out.Keys && gone !! present.Keys
        invariant out == scopes - (scopes.Keys - present.Keys - gone)
        invariant Owned(wdScope) && ScopeRefs(uid, out, wdScope) && OthersKept(uid, old(wdScope), wdScope)
      {
        var id :| id in gone;
        ghost var before := wdScope;
        out := DropScopeLocked(uid, out, id);
        OthersKeptTwice(uid, old(wdScope), before, wdScope);
        gone := gone - {id};
      }
    }

    lemma SameWatch(uid: Uid, scopes: map<Id, Scope>, id: Id, s: Scope, ws: map<Wd, ScopeRef>)
      requires ScopeRefs(uid, scopes, ws) && id in scopes && s.wd == scopes[id].wd
      ensures ScopeRefs(uid, scopes[id := s], ws)
    {
    }

    method ReadScopesLocked(uid: Uid, scopes: map<Id, Scope>, d: Option<PodDir>)
      returns (out: map<Id, Scope>, risen: set<Id>)
      requires steps > 0
      requires Owned(wdScope) && ScopeRefs(uid, scopes, wdScope)
      modifies this`wdScope
      ensures out == RereadScopes(scopes, d, steps - 1)
      ensures risen == Risen(scopes, d)
      ensures Owned(wdScope) && ScopeRefs(uid, out, wdScope) && OthersKept(uid, old(wdScope), wdScope)
    {
      hide ScopeRefs, Owned, OthersKept;
      Untouched(uid, wdScope);
      out, risen := scopes, {};
      var todo := scopes.Keys;
      while todo != {}
        invariant todo <= scopes.Keys
        invariant Owned(wdScope) && ScopeRefs(uid, out, wdScope) && OthersKept(uid, old(wdScope), wdScope)
        invariant out.Keys == todo + ScopesKept(scopes, d)
        invariant forall id :: id in out ==>
                    out[id] == if id in todo then scopes[id] else RereadScope(scopes[id], ScopeRead(d, id), steps - 1)
        invariant risen == Risen(scopes, d) - todo
      {
        var id :| id in todo;
        todo := todo - {id};
        var c := ScopeRead(d, id);
        if c.None? {
          if d.None? || id !in d.value.scopes {
            ghost var before := wdScope;
            out := DropScopeLocked(uid, out, id);
            OthersKeptTwice(uid, old(wdScope), before, wdScope);
          }
        } else {
          if c.value.kill > out[id].counters.kill || c.value.group > out[id].counters.group {
            risen := risen + {id};
          }
          SameWatch(uid, out, id, out[id].(counters := c.value, step := steps - 1), wdScope);
          out := out[id := out[id].(counters := c.value, step := steps - 1)];
        }
      }
    }

    // ---- pods ----------------------------------------------------------------

    /** Re-read a pod: containers first, then the pod's own counters. */
    method ReadRecord(uid: Uid, was: Pod, d: Option<PodDir>, now: Time) returns (p: Pod)
      requires steps > 0
      requires Owned(wdScope) && ScopeRefs(uid, was.scopes, wdScope) && ScopeWdsOk(uid, d)
      modifies this`wdScope
      ensures p == ReadPod(was, d, now, steps - 1)
      ensures Owned(wdScope) && ScopeRefs(uid, p.scopes, wdScope) && OthersKept(uid, old(wdScope), wdScope)
    {
      hide SyncedScopes, RereadScopes, Risen, Sightings, ScopeRefs, Owned, OthersKept, ScopeWdsOk, WithCountersRead;
      var synced := SyncScopesLocked(uid, was.scopes, d);
      ghost var between := wdScope;
      var reread, risen := ReadScopesLocked(uid, synced, d);
      OthersKeptTwice(uid, old(wdScope), between, wdScope);
      p := was.(scopes := reread, pending := was.pending + risen,
                aux := was.aux.(seen := Looked(was.aux.seen, Sightings(synced, risen, steps - 1), steps - 1)));
      ReadScopesOnly(p, d, now, steps - 1);
      p := ReadCounters(p, d, now);
    }

    /** The pod's own counters, after its containers. */
    method ReadCounters(was: Pod, d: Option<PodDir>, now: Time) returns (p: Pod)
      requires steps > 0
      ensures p == WithCountersRead(was, d, now, steps - 1)
    {
      p := was;
      if d.None? || !d.value.readable {
        if p.removed.None? && d.None? {
          p := p.(removed := Some(now));
        }
        return;
      }
      var c := d.value.truth;
      if p.lastRead.None? {
        if c != ZERO {
          p := Recorded(p, Increase(p.firstSeen, now, c, {}), p.aux.firstStep, steps - 1);
        }
      } else {
        var prev := p.counters;
        if c.oom > prev.oom || c.kill > prev.kill || c.group > prev.group {
          var ids := p.pending;
          p := Recorded(p, Increase(p.lastRead.value, now, Minus(c, prev), ids), p.aux.readStep, steps - 1);
          p := Cleared(p, steps - 1);
        }
      }
      p := p.(counters := c, lastRead := Some(now), aux := p.aux.(readStep := steps - 1));
    }

    method ReadPodLocked(uid: Uid, ghost w: World, d: Option<PodDir>, now: Time)
      requires During(w) && uid in pods && pods[uid].removed.None? && d == Get(w.pods, uid) && now == w.now
      modifies this`pods, this`wdScope
      ensures During(w) && OthersKept(uid, old(wdScope), wdScope)
      ensures pods == old(pods)[uid := ReadPod(old(pods)[uid], d, now, steps - 1)]
    {
      hide PodInv, HistoryOk, ReadPod, ParentsOnce;
      ReadPodInv(hist, uid, pods[uid]);
      ReadPodFrame(pods[uid], d, now, steps - 1);
      var p := ReadRecord(uid, pods[uid], d, now);
      RefsKept(uid, pods, old(wdScope), wdScope);
      StoreRecord(uid, w, p);
    }

    /** The watches are in order once `p` is stored as the record of `uid`. */
    ghost predicate WatchesWith(uid: Uid, p: Pod)
      reads this
    {
      && Owned(wdScope)
      && (forall wd :: wd in wdPod ==> For(wd, PodPath(wdPod[wd])))
      && (forall wd :: wd in wdParent ==> For(wd, ParentPath(wdParent[wd])))
      && (forall u :: u in pods && u != uid ==> ScopeRefs(u, pods[u].scopes, wdScope))
      && (forall u :: u in pods && u != uid ==> PodRefs(u, pods[u].wds, wdPod))
      && ScopeRefs(uid, p.scopes, wdScope) && PodRefs(uid, p.wds, wdPod)
    }

    method StoreRecord(uid: Uid, ghost w: World, p: Pod)
      requires HistoryOk(hist) && steps == |hist| && hist != [] && hist[|hist| - 1] == w
      requires Records() && RescanKept() && ParentsOnce() && WdsOk(w) && UnreadMeansZero(w)
      requires WatchesWith(uid, p)
      requires PodInv(hist, uid, p) && (uid in w.pods ==> p.removed.None?)
      modifies this`pods
      ensures During(w) && pods == old(pods)[uid := p]
    {
      hide PodInv, HistoryOk, ScopeRefs, PodRefs, ParentsOnce;
      pods := pods[uid := p];
    }

    lemma NoScopes(uid: Uid, ws: map<Wd, ScopeRef>)
      ensures ScopeRefs(uid, map[], ws)
    {
    }

    /** Adoption of a pod the witness does not track as live. */
    method FreshRecord(uid: Uid, d: Option<PodDir>, now: Time) returns (p: Pod)
      requires steps > 0 && (!initialDone ==> rescanned == 0)
      requires Watches() && ScopeWdsOk(uid, d) && (d.Some? ==> PodWdsOk(uid, d.value))
      modifies this`wdScope, this`wdPod
      ensures p == FreshPod(d, rescanned, rescanStep, now, steps - 1)
      ensures WatchesWith(uid, p) && OthersKept(uid, old(wdScope), wdScope)
      ensures forall wd :: wd in old(wdPod) ==> wd in wdPod && wdPod[wd] == old(wdPod)[wd]
    {
      hide ScopeRefs, PodRefs, Owned, OthersKept, SyncedScopes, ScopeWdsOk;
      var since := if initialDone then rescanned else 0;
      p := EmptyPod(d, now, steps - 1);
      WatchPodLocked(uid, p.wds);
      NoScopes(uid, wdScope);
      var scopes := SyncScopesLocked(uid, p.scopes, d);
      RefsKept(uid, pods, old(wdScope), wdScope);
      p := p.(scopes := scopes);
      if d.None? {
        p := p.(removed := Some(now));
        return;
      }
      if !d.value.readable {
        return;
      }
      var c := d.value.truth;
      if c != ZERO {
        p := Recorded(p, Increase(since, now, c, {}), if since == 0 then steps - 1 else rescanStep, steps - 1);
      }
      p := p.(counters := c, lastRead := Some(now));
    }

    /** Start tracking a pod when it is new, and read it. */
    method AdoptLocked(uid: Uid, ghost w: World, d: Option<PodDir>, now: Time)
      requires During(w) && d == Get(w.pods, uid) && now == w.now
      requires uid in w.pods || uid in w.dead
      modifies this`pods, this`wdScope, this`wdPod
      ensures During(w) && OthersKept(uid, old(wdScope), wdScope)
      ensures forall wd :: wd in old(wdPod) ==> wd in wdPod && wdPod[wd] == old(wdPod)[wd]
      ensures pods == old(pods)[uid :=
                        AdoptedPod(Get(old(pods), uid), d, rescanned, rescanStep, now, steps - 1)]
      ensures d.Some? ==> Current(pods[uid], d.value, now)
      ensures d.None? ==> pods[uid].removed.Some?
    {
      hide During, ReadPod, FreshPod, Current;
      StepFacts(w);
      if uid in pods && pods[uid].removed.None? {
        if d.Some? {
          ReadPodCurrent(pods[uid], d.value, now, steps - 1);
        }
        ReadPodFrame(pods[uid], d, now, steps - 1);
        ReadPodLocked(uid, w, d, now);
        return;
      }
      FreshPodFrame(d, rescanned, rescanStep, now, steps - 1);
      AdoptFresh(uid, w, d, now);
    }

    method AdoptFresh(uid: Uid, ghost w: World, d: Option<PodDir>, now: Time)
      requires During(w) && d == Get(w.pods, uid) && now == w.now && steps > 0
      requires (uid in w.pods || uid in w.dead) && !(uid in pods && pods[uid].removed.None?)
      modifies this`pods, this`wdScope, this`wdPod
      ensures During(w) && OthersKept(uid, old(wdScope), wdScope)
      ensures forall wd :: wd in old(wdPod) ==> wd in wdPod && wdPod[wd] == old(wdPod)[wd]
      ensures pods == old(pods)[uid := FreshPod(d, rescanned, rescanStep, now, steps - 1)]
    {
      hide PodInv, HistoryOk, FreshPod, ParentsOnce, OthersKept, WatchesWith;
      FreshPodInv(hist, uid, rescanned, rescanStep);
      FreshPodFrame(d, rescanned, rescanStep, now, steps - 1);
      var p := FreshRecord(uid, d, now);
      StoreRecord(uid, w, p);
    }

    method WatchPodLocked(uid: Uid, wds: set<Wd>)
      requires Watches()
      requires forall wd :: wd in wds ==> For(wd, PodPath(uid))
      modifies this`wdPod
      ensures Watches() && PodRefs(uid, wds, wdPod)
      ensures wdPod.Keys == old(wdPod).Keys + wds
      ensures forall wd :: wd in old(wdPod) ==> wdPod[wd] == old(wdPod)[wd]
    {
      assert forall wd :: wd in wds && wd in wdPod ==> wdPod[wd] == uid;
      wdPod := wdPod + map wd | wd in wds :: uid;
    }

    lemma ForgetKeepsWatches(uid: Uid)
      requires Watches() && uid in pods
      ensures Owned(wdScope - ScopeWds(pods[uid].scopes))
      ensures forall u :: u in pods && u != uid ==>
                ScopeRefs(u, pods[u].scopes, wdScope - ScopeWds(pods[uid].scopes))
      ensures forall u :: u in pods && u != uid ==> PodRefs(u, pods[u].wds, wdPod - pods[uid].wds)
    {
      forall u, id | u in pods && u != uid && id in pods[u].scopes && pods[u].scopes[id].wd.Some?
        ensures pods[u].scopes[id].wd.value !in ScopeWds(pods[uid].scopes)
      {
        assert ScopeRefs(u, pods[u].scopes, wdScope) && ScopeRefs(uid, pods[uid].scopes, wdScope);
      }
      forall u, wd | u in pods && u != uid && wd in pods[u].wds ensures wd !in pods[uid].wds {
        assert PodRefs(u, pods[u].wds, wdPod) && PodRefs(uid, pods[uid].wds, wdPod);
      }
    }

    lemma RemovedIsGone(uid: Uid)
      requires Valid() && hist != [] && uid in pods && pods[uid].removed.Some?
      ensures uid !in hist[|hist| - 1].pods
    {
      assert PodInv(hist, uid, pods[uid]);
      assert WorldOk(hist[|hist| - 1]);
    }

    method ForgetLocked(uid: Uid)
      requires Valid() && uid in pods && pods[uid].removed.Some? && hist != []
      modifies this`pods, this`wdScope, this`wdPod
      ensures Valid() && pods == old(pods) - {uid}
    {
      hide PodInv, HistoryOk, ScopeRefs, PodRefs, ScopeWds, ParentsOnce;
      assert uid !in hist[|hist| - 1].pods by {
        hide Valid;
        RemovedIsGone(uid);
      }
      ForgetKeepsWatches(uid);
      var p := pods[uid];
      wdScope := wdScope - ScopeWds(p.scopes);
      wdPod := wdPod - p.wds;
      pods := pods - {uid};
    }

    // ---- pruning -------------------------------------------------------------

    /** The removed pods of `uids`, oldest removal first. */
    method OldestFirst(uids: set<Uid>) returns (order: seq<Uid>)
      requires forall uid :: uid in uids ==> uid in pods && pods[uid].removed.Some?
      ensures forall uid :: uid in order <==> uid in uids
      ensures forall i, j :: 0 <= i < j < |order| ==> order[i] != order[j]
      ensures forall i :: 0 <= i < |order| ==> order[i] in pods && pods[order[i]].removed.Some?
      ensures forall i, j :: 0 <= i < j < |order| ==>
                pods[order[i]].removed.value <= pods[order[j]].removed.value
    {
      order := [];
      var todo := uids;
      while todo != {}
        invariant todo <= uids
        invariant forall uid :: uid in order <==> uid in uids - todo
        invariant forall i :: 0 <= i < |order| ==> order[i] in uids
        invariant forall i, j :: 0 <= i < j < |order| ==> order[i] != order[j]
        invariant forall i, j :: 0 <= i < j < |order| ==>
                    pods[order[i]].removed.value <= pods[order[j]].removed.value
        invariant forall i, uid :: 0 <= i < |order| && uid in todo ==>
                    pods[order[i]].removed.value <= pods[uid].removed.value
      {
        var best :| best in todo;
        var rest := todo - {best};
        while rest != {}
          invariant best in todo && rest <= todo
          invariant forall uid :: uid in todo - rest ==> pods[best].removed.value <= pods[uid].removed.value
        {
          var uid :| uid in rest;
          if pods[uid].removed.value < pods[best].removed.value {
            best := uid;
          }
          rest := rest - {uid};
        }
        assert best !in order;
        order := order + [best];
        todo := todo - {best};
      }
    }

    /** Forget the removed pods whose retention ran out. */
    method ExpireLocked(now: Time)
      requires Valid() && hist != []
      modifies this`pods, this`wdScope, this`wdPod
      ensures Valid()
      ensures forall uid :: uid in pods <==> uid in old(pods) && !Expired(old(pods)[uid], now)
      ensures forall uid :: uid in pods ==> pods[uid] == old(pods)[uid]
    {
      hide Valid;
      ghost var was := pods;
      var todo := pods.Keys;
      while todo != {}
        invariant Valid()
        invariant todo <= pods.Keys
        invariant forall uid :: uid in pods ==> uid in was && pods[uid] == was[uid]
        invariant forall uid :: uid in was && uid !in pods ==> Expired(was[uid], now)
        invariant forall uid :: uid in pods && uid !in todo ==> !Expired(pods[uid], now)
      {
        var uid :| uid in todo;
        if pods[uid].removed.Some? && now - pods[uid].removed.value > Retention(pods[uid]) {
          ForgetLocked(uid);
        }
        todo := todo - {uid};
      }
    }

    /** Over the cap, forget removed pods, oldest first, and no more than needed. */
    method EvictLocked()
      requires Valid() && hist != []
      modifies this`pods, this`wdScope, this`wdPod
      ensures Valid()
      ensures OnlyRemovedGone(old(pods), pods) && OldestGone(old(pods), pods, {})
    {
      hide Valid, OldestGone;
      if |pods| <= MAX_PODS {
        NothingGone(pods);
        return;
      }
      ghost var was := pods;
      var order := OldestFirst(set uid | uid in pods && pods[uid].removed.Some?);
      var i := 0;
      while i < |order| && |pods| > MAX_PODS
        invariant 0 <= i <= |order| && Valid()
        invariant forall uid :: uid in pods ==> uid in was && pods[uid] == was[uid]
        invariant forall uid :: uid in was ==> (uid in pods <==> uid !in order[..i])
        invariant |pods| >= MAX_PODS
      {
        assert order[i] in pods;
        ForgetLocked(order[i]);
        i := i + 1;
      }
      EvictedOldest(was, pods, order, i);
    }

    lemma NothingGone(pods: map<Uid, Pod>)
      requires |pods| <= MAX_PODS
      ensures OldestGone(pods, pods, {})
    {
    }

    lemma EvictedOldest(was: map<Uid, Pod>, now: map<Uid, Pod>, order: seq<Uid>, i: nat)
      requires i <= |order| && |now| >= MAX_PODS && (i < |order| ==> |now| <= MAX_PODS)
      requires forall uid :: uid in order <==> uid in was && was[uid].removed.Some?
      requires forall k, l :: 0 <= k < l < |order| ==> was[order[k]].removed.value <= was[order[l]].removed.value
      requires forall uid :: uid in now ==> uid in was && now[uid] == was[uid]
      requires forall uid :: uid in was ==> (uid in now <==> uid !in order[..i])
      ensures OldestGone(was, now, {})
    {
      if i == |order| {
        assert order[..i] == order;
      }
      forall u, v | u in was && u !in now && v in now && now[v].removed.Some?
        ensures was[u].removed.Some? && was[u].removed.value <= now[v].removed.value
      {
        var k :| 0 <= k < i && order[..i][k] == u;
        assert v in order;
        var l :| 0 <= l < |order| && order[l] == v;
        assert forall m :: 0 <= m < i ==> order[..i][m] == order[m];
      }
    }

    /** Forget the removed pods whose retention ran out, then, over the cap, the removed
        pods oldest first. A live pod is never forgotten. */
    method PruneLocked(now: Time)
      requires Valid() && hist != []
      modifies this`pods, this`wdScope, this`wdPod
      ensures Valid()
      ensures OnlyRemovedGone(old(pods), pods)
      ensures forall uid :: uid in pods ==> !Expired(pods[uid], now)
      ensures OldestGone(old(pods), pods, ExpiredOf(old(pods), now))
      ensures KeptAsLong(old(pods), pods, now)
    {
      hide Valid, OldestGone, ExpiredOf, KeptAsLong;
      ghost var was := pods;
      ExpireLocked(now);
      ghost var kept := pods;
      EvictLocked();
      PrunedOldest(was, kept, pods, now);
      PrunedKeepsAsLong(was, pods, now);
    }

    lemma PrunedOldest(was: map<Uid, Pod>, kept: map<Uid, Pod>, now: map<Uid, Pod>, t: Time)
      requires forall uid :: uid in kept <==> uid in was && !Expired(was[uid], t)
      requires forall uid :: uid in kept ==> kept[uid] == was[uid]
      requires OldestGone(kept, now, {})
      ensures OldestGone(was, now, ExpiredOf(was, t))
    {
      hide Expired;
      assert forall uid :: uid in was && uid !in ExpiredOf(was, t) ==> uid in kept;
    }

    // ---- one locked step -----------------------------------------------------

    lemma RecordHasHistory(uid: Uid)
      requires uid in pods && PodInv(hist, uid, pods[uid])
      ensures hist != []
    {
      hide CountersInv, ScopesInv;
    }

    lemma HistoryGrows(w: World)
      requires Valid() && Environment(w)
      ensures HistoryOk(hist + [w])
      ensures forall uid :: uid in pods ==> PodInv(hist + [w], uid, pods[uid])
    {
      hide PodInv, HistoryOk, WorldStep, WorldOk, Watches, RescanKept, ParentsOnce, WdsOk, UnreadMeansZero;
      HistoryExtend(hist, w);
      forall uid | uid in pods ensures PodInv(hist + [w], uid, pods[uid]) {
        RecordHasHistory(uid);
        PodExtend(hist, w, uid, pods[uid]);
      }
    }

    lemma RescanKeptGrows(w: World)
      requires Valid() && Environment(w) && initialDone
      ensures forall uid :: uid in hist[rescanStep].pods && uid in w.pods ==>
                uid in pods && pods[uid].removed.None?
    {
      HistoryExtend(hist, w);
      forall uid | uid in hist[rescanStep].pods && uid in w.pods
        ensures uid in pods && pods[uid].removed.None?
      {
        hide HistoryOk, Records, Watches, ParentsOnce;
        AliveBetween(hist + [w], rescanStep, |hist| - 1, |hist|, uid);
      }
    }

    method BeginStep(ghost w: World)
      requires Valid() && Environment(w)
      modifies this`hist, this`steps
      ensures During(w) && hist == old(hist) + [w] && steps == |hist|
    {
      hide PodInv, HistoryOk, ScopeRefs, PodRefs, WorldStep, ParentsOnce;
      assert HistoryOk(hist + [w]) && forall uid :: uid in pods ==> PodInv(hist + [w], uid, pods[uid]) by {
        hide Valid, Environment;
        HistoryGrows(w);
      }
      if initialDone {
        hide Valid, Environment;
        RescanKeptGrows(w);
      }
      hist := hist + [w];
      steps := steps + 1;
    }

    lemma OneMore(parents: map<Wd, string>, wd: Wd, dir: string)
      requires wd !in parents
      ensures var more := parents[wd := dir];
              && (forall v :: v in parents ==> v in more && more[v] == parents[v]) && wd in more && more[wd] == dir
    {
    }

    method WatchParentLocked(dir: string, wd: Option<Wd>)
      requires Watches() && ParentsOnce() && (wd.Some? ==> For(wd.value, ParentPath(dir)))
      modifies this`wdParent, this`parentsOn
      ensures Watches() && ParentsOnce()
      ensures dir in parentsOn <==> dir in old(parentsOn) || wd.Some?
      ensures dir in old(parentsOn) || wd.None? ==> wdParent == old(wdParent) && parentsOn == old(parentsOn)
      ensures dir !in old(parentsOn) && wd.Some? ==>
                wdParent == old(wdParent)[wd.value := dir] && parentsOn == old(parentsOn) + {dir}
    {
      hide Owned, ScopeRefs, PodRefs;
      if dir !in parentsOn && wd.Some? {
        assert wd.value !in wdParent;
        OneMore(wdParent, wd.value, dir);
        wdParent := wdParent[wd.value := dir];
        parentsOn := parentsOn + {dir};
      }
    }

    /** A rescan that finds no kubepods cgroup: nothing is listed, only the time moves. */
    method RescanWithoutRoot(w: World)
      requires Valid() && Environment(w) && w.pods == map[]
      modifies this`hist, this`steps, this`rescanned, this`rescanStep, this`initialDone
      ensures Valid() && hist == old(hist) + [w]
      ensures initialDone && rescanned == w.now
    {
      hide PodInv, HistoryOk, ScopeRefs, PodRefs, ParentsOnce;
      BeginStep(w);
      rescanned := w.now;
      rescanStep := steps - 1;
      initialDone := true;
    }

    /** Record `p` is what adopting `uid` makes of the table `was`, and it is up to date. */
    ghost predicate AdoptedFrom(p: Option<Pod>, was: map<Uid, Pod>, uid: Uid, w: World, step: nat)
      requires uid in w.pods
      reads this`rescanned, this`rescanStep
    {
      && p == Some(AdoptedPod(Get(was, uid), Some(w.pods[uid]), rescanned, rescanStep, w.now, step))
      && Current(p.value, w.pods[uid], w.now)
    }

    lemma AdoptedLive(p: Option<Pod>, was: map<Uid, Pod>, uid: Uid, w: World, step: nat)
      requires uid in w.pods && AdoptedFrom(p, was, uid, w, step)
      ensures p.Some? && p.value.removed.None?
    {
    }

    method AdoptOne(uid: Uid, w: World)
      requires During(w) && uid in w.pods
      modifies this`pods, this`wdScope, this`wdPod
      ensures During(w) && AdoptedFrom(Get(pods, uid), old(pods), uid, w, steps - 1)
      ensures pods == old(pods)[uid := pods[uid]]
    {
      hide PodInv, HistoryOk, ScopeRefs, PodRefs, AdoptedPod, Current, ParentsOnce;
      AdoptLocked(uid, w, Some(w.pods[uid]), w.now);
    }

    /** Adopt or re-read every pod cgroup there is. */
    method AdoptAll(w: World)
      requires During(w) && steps > 0
      modifies this`pods, this`wdScope, this`wdPod
      ensures During(w)
      ensures forall uid :: uid in w.pods ==>
                AdoptedFrom(Get(pods, uid), old(pods), uid, w, steps - 1)
      ensures forall uid :: uid !in w.pods ==> Get(pods, uid) == Get(old(pods), uid)
    {
      hide During, AdoptedPod, Current;
      ghost var was := pods;
      var todo := w.pods.Keys;
      while todo != {}
        invariant During(w) && todo <= w.pods.Keys
        invariant forall uid :: uid in w.pods && uid !in todo ==>
                    AdoptedFrom(Get(pods, uid), was, uid, w, steps - 1)
        invariant forall uid :: uid in todo || uid !in w.pods ==> Get(pods, uid) == Get(was, uid)
      {
        var uid :| uid in todo;
        AdoptOne(uid, w);
        todo := todo - {uid};
      }
    }

    /** Mark the live records whose cgroup the rescan did not see. */
    method MarkVanished(w: World)
      requires During(w)
      modifies this`pods
      ensures During(w)
      ensures pods.Keys == old(pods).Keys
      ensures forall uid :: uid in pods ==>
                pods[uid] == if uid in w.pods then old(pods)[uid] else MarkedGone(old(pods)[uid], w.now)
    {
      hide PodInv, HistoryOk, ScopeRefs, PodRefs, ParentsOnce;
      forall uid | uid in pods && uid !in w.pods ensures PodInv(hist, uid, MarkedGone(pods[uid], w.now)) {
        VanishedInv(hist, uid, pods[uid], MarkedGone(pods[uid], w.now));
      }
      pods := map uid | uid in pods :: if uid in w.pods then pods[uid] else MarkedGone(pods[uid], w.now);
    }

    /** A rescan: watch the parents, adopt or re-read what is there, mark what is gone,
        prune. Afterwards every pod there is, is tracked as live and, where its counters
        could be read, the record holds the kernel's counters of now. */
    method Rescan(w: World, parents: seq<(string, Option<Wd>)>)
      requires Valid() && Environment(w)
      requires forall i :: 0 <= i < |parents| && parents[i].1.Some? ==> For(parents[i].1.value, ParentPath(parents[i].0))
      modifies this
      ensures Valid() && hist == old(hist) + [w]
      ensures initialDone && rescanned == w.now && overflows == old(overflows)
      ensures forall uid :: uid in w.pods ==>
                (uid in pods && pods[uid] == old(AdoptedPod(Get(pods, uid), Some(w.pods[uid]), rescanned, rescanStep, w.now, |hist|)) &&
                 Current(pods[uid], w.pods[uid], w.now))
      ensures forall uid :: uid in pods && uid !in w.pods ==>
                (uid in old(pods) && pods[uid] == MarkedGone(old(pods)[uid], w.now))
      ensures |pods| <= 2000 || forall uid :: uid in pods ==> pods[uid].removed.None?
      ensures Pruned(old(Found(pods, w, rescanned, rescanStep, |hist|)), pods, w.now)
    {
      hide AdoptedPod, Valid, Environment, During, Pruned, Found;
      BeginStep(w);
      WatchParents(w, parents);
      RescanPods(w);
      FinishRescan(w);
    }

    method WatchParents(ghost w: World, parents: seq<(string, Option<Wd>)>)
      requires During(w)
      requires forall i :: 0 <= i < |parents| && parents[i].1.Some? ==> For(parents[i].1.value, ParentPath(parents[i].0))
      modifies this`wdParent, this`parentsOn
      ensures During(w)
    {
      hide PodInv, HistoryOk, ScopeRefs, PodRefs, ParentsOnce;
      var i := 0;
      while i < |parents|
        invariant 0 <= i <= |parents| && During(w)
      {
        WatchParentLocked(parents[i].0, parents[i].1);
        i := i + 1;
      }
    }

    method RescanPods(w: World)
      requires During(w) && steps > 0
      modifies this`pods, this`wdScope, this`wdPod
      ensures Valid()
      ensures forall uid :: uid in w.pods ==>
                AdoptedFrom(Get(pods, uid), old(pods), uid, w, steps - 1)
      ensures forall uid :: uid in pods && uid !in w.pods ==>
                (uid in old(pods) && pods[uid] == MarkedGone(old(pods)[uid], w.now))
      ensures |pods| <= 2000 || forall uid :: uid in pods ==> pods[uid].removed.None?
      ensures Pruned(Found(old(pods), w, rescanned, rescanStep, steps - 1), pods, w.now)
    {
      hide Valid, AdoptedFrom, Found, Pruned, During;
      ghost var was := pods;
      FindPods(w);
      ghost var found := pods;
      PruneFound(w);
      AfterPruning(was, found, pods, w);
    }

    method FindPods(w: World)
      requires During(w) && steps > 0
      modifies this`pods, this`wdScope, this`wdPod
      ensures During(w) && pods == Found(old(pods), w, rescanned, rescanStep, steps - 1)
      ensures forall uid :: uid in w.pods ==> AdoptedFrom(Get(pods, uid), old(pods), uid, w, steps - 1)
    {
      hide During, AdoptedFrom, Found, MarkedGone;
      ghost var was := pods;
      AdoptAll(w);
      ghost var adopted := pods;
      MarkVanished(w);
      AllFound(was, adopted, pods, w);
    }

    method PruneFound(w: World)
      requires During(w)
      modifies this`pods, this`wdScope, this`wdPod
      ensures Valid() && Pruned(old(pods), pods, w.now)
    {
      hide During, Valid, OldestGone, OnlyRemovedGone;
      DuringIsValid(w);
      StepFacts(w);
      PruneLocked(w.now);
    }

    lemma AfterPruning(was: map<Uid, Pod>, found: map<Uid, Pod>, now: map<Uid, Pod>, w: World)
      requires steps > 0 && found == Found(was, w, rescanned, rescanStep, steps - 1) && Pruned(found, now, w.now)
      requires forall uid :: uid in w.pods ==> AdoptedFrom(Get(found, uid), was, uid, w, steps - 1)
      ensures forall uid :: uid in w.pods ==> AdoptedFrom(Get(now, uid), was, uid, w, steps - 1)
      ensures forall uid :: uid in now && uid !in w.pods ==> uid in was && now[uid] == MarkedGone(was[uid], w.now)
      ensures |now| <= 2000 || forall uid :: uid in now ==> now[uid].removed.None?
    {
      hide AdoptedPod, MarkedGone, AdoptedFrom, Pruned, OnlyRemovedGone;
      PrunedKeeps(found, now, w.now);
      forall uid | uid in w.pods ensures AdoptedFrom(Get(now, uid), was, uid, w, steps - 1) {
        AdoptedLive(Get(found, uid), was, uid, w, steps - 1);
        OneKept(found, now, uid);
      }
      forall uid | uid in now && uid !in w.pods ensures uid in was && now[uid] == MarkedGone(was[uid], w.now) {
        OneKept(found, now, uid);
      }
    }

    lemma PrunedKeeps(found: map<Uid, Pod>, now: map<Uid, Pod>, t: Time)
      requires Pruned(found, now, t)
      ensures OnlyRemovedGone(found, now)
      ensures |now| <= 2000 || forall uid :: uid in now ==> now[uid].removed.None?
    {
      hide Expired, ExpiredOf, OnlyRemovedGone;
    }

    lemma OneKept(found: map<Uid, Pod>, now: map<Uid, Pod>, uid: Uid)
      requires OnlyRemovedGone(found, now)
      ensures uid in now ==> uid in found && now[uid] == found[uid]
      ensures uid in found && found[uid].removed.None? ==> uid in now
    {
    }

    lemma AllFound(was: map<Uid, Pod>, adopted: map<Uid, Pod>, marked: map<Uid, Pod>, w: World)
      requires steps > 0
      requires forall uid :: uid in w.pods ==> AdoptedFrom(Get(adopted, uid), was, uid, w, steps - 1)
      requires forall uid :: uid !in w.pods ==> Get(adopted, uid) == Get(was, uid)
      requires marked.Keys == adopted.Keys
      requires forall uid :: uid in marked ==>
                 marked[uid] == if uid in w.pods then adopted[uid] else MarkedGone(adopted[uid], w.now)
      ensures marked == Found(was, w, rescanned, rescanStep, steps - 1)
    {
      hide AdoptedPod, MarkedGone, Current;
      var found := Found(was, w, rescanned, rescanStep, steps - 1);
      forall uid ensures uid in marked <==> uid in found {
        if uid in w.pods {
          assert Get(adopted, uid).Some?;
        } else {
          assert Get(adopted, uid) == Get(was, uid);
        }
      }
      forall uid | uid in marked ensures marked[uid] == found[uid] {
        if uid in w.pods {
          assert AdoptedFrom(Get(adopted, uid), was, uid, w, steps - 1);
        } else {
          assert Get(adopted, uid) == Get(was, uid);
        }
      }
    }

    method FinishRescan(w: World)
      requires Valid() && hist != [] && hist[|hist| - 1] == w
      requires forall uid :: uid in w.pods ==> uid in pods && pods[uid].removed.None?
      modifies this`rescanned, this`rescanStep, this`initialDone
      ensures Valid() && initialDone && rescanned == w.now
    {
      hide PodInv, HistoryOk, ScopeRefs, PodRefs, ParentsOnce;
      rescanned := w.now;
      rescanStep := steps - 1;
      initialDone := true;
    }

    // ---- inotify events ------------------------------------------------------

    /** Events are truthful: a pod directory reported deleted is gone, and a pod or container
        directory reported created existed. */
    ghost predicate EventTrue(e: Event, w: World) {
      && (DeleteSelf in e.mask ==> forall uid :: For(e.wd, PodPath(uid)) ==> uid in w.dead)
      && (e.podUid.Some? && e.wd in owner && owner[e.wd].ParentPath? ==>
            e.podUid.value in w.pods || e.podUid.value in w.dead)
      && (e.scopeId.Some? ==> forall uid :: For(e.wd, PodPath(uid)) ==> KnownAt(w, uid, e.scopeId.value))
    }

    /** What one event leaves alone: records stay, removed ones stay removed, and the
        only pod watch it may drop is its own. */
    twostate predicate EventFrame(e: Event)
      reads this
    {
      && hist == old(hist) && steps == old(steps)
      && (forall wd :: wd in old(wdParent) && !(wd == e.wd && Ignored in e.mask) ==>
            wd in wdParent && wdParent[wd] == old(wdParent)[wd])
      && (forall uid :: uid in old(pods) ==> uid in pods && (old(pods)[uid].removed.Some? ==> pods[uid].removed.Some?))
      && (forall wd :: wd in old(wdPod) && !(wd == e.wd && Ignored in e.mask) ==>
            wd in wdPod && wdPod[wd] == old(wdPod)[wd])
    }

    /** The record says what the kernel says now: the pod's counters when they can be
        read, or that it is gone. */
    predicate UpToDate(p: Pod, uid: Uid, w: World) {
      if uid in w.pods then Current(p, w.pods[uid], w.now) else p.removed.Some?
    }

    predicate TrackedUpToDate(uid: Uid, w: World)
      reads this`pods
    {
      uid in pods && UpToDate(pods[uid], uid, w)
    }

    /** Records that are up to date stay so, and a container watch stays mapped unless it is the
        event's own, or its pod's record has become up to date. */
    twostate predicate KeepsCurrent(e: Event, w: World)
      reads this
    {
      && (forall uid :: old(TrackedUpToDate(uid, w)) ==> TrackedUpToDate(uid, w))
      && (forall wd :: wd in old(wdScope) && !(wd == e.wd && Ignored in e.mask) ==>
            (wd in wdScope && wdScope[wd] == old(wdScope)[wd]) || TrackedUpToDate(old(wdScope)[wd].uid, w))
    }

    method OnOverflow(now: Time, ghost w: World)
      requires During(w)
      modifies this`overflows
      ensures During(w)
      ensures overflows == LastN(old(overflows) + [now], 8)
    {
      hide PodInv, HistoryOk, ScopeRefs, PodRefs, ParentsOnce;
      overflows := overflows + [now];
      if |overflows| > MAX_OVERFLOWS {
        overflows := overflows[|overflows| - MAX_OVERFLOWS..];
      }
    }

    /** The event says that a pod directory appeared under a watched parent. */
    predicate Creates(e: Event) {
      Ignored !in e.mask && (Create in e.mask || MovedTo in e.mask) && e.podUid.Some?
    }

    /** An event on a parent's watch: a pod that appeared is adopted, the end of the watch is
        noted, anything else is nothing to the witness. */
    method OnParentEvent(e: Event, w: World)
      requires During(w) && EventTrue(e, w) && e.wd in wdParent
      modifies this`pods, this`wdScope, this`wdPod, this`wdParent, this`parentsOn
      ensures During(w) && EventFrame(e) && KeepsCurrent(e, w)
      ensures Ignored in e.mask ==>
                wdParent == old(wdParent) - {e.wd} && parentsOn == old(parentsOn) - {old(wdParent)[e.wd]}
      ensures Ignored !in e.mask ==> wdParent == old(wdParent) && parentsOn == old(parentsOn)
      ensures !Creates(e) ==> pods == old(pods) && wdScope == old(wdScope) && wdPod == old(wdPod)
      ensures Creates(e) ==>
                var uid := e.podUid.value;
                && pods == old(pods)[uid := AdoptedPod(Get(old(pods), uid), Get(w.pods, uid), rescanned, rescanStep, w.now, steps - 1)]
                && UpToDate(pods[uid], uid, w)
    {
      hide PodInv, HistoryOk, ScopeRefs, PodRefs, AdoptedPod, Current, ParentsOnce;
      if Ignored in e.mask {
        UnwatchParent(e.wd, w);
        return;
      }
      if Create in e.mask || MovedTo in e.mask {
        if e.podUid.Some? {
          AdoptReported(e, w);
        }
      }
    }

    method UnwatchParent(wd: Wd, ghost w: World)
      requires During(w) && wd in wdParent
      modifies this`wdParent, this`parentsOn
      ensures During(w)
      ensures wdParent == old(wdParent) - {wd} && parentsOn == old(parentsOn) - {old(wdParent)[wd]}
    {
      hide PodInv, HistoryOk, ScopeRefs, PodRefs;
      assert ParentsOnce();
      forall dir | dir in parentsOn && dir != wdParent[wd]
        ensures exists v :: v in wdParent - {wd} && wdParent[v] == dir
      {
        var v :| v in wdParent && wdParent[v] == dir;
        assert v in wdParent - {wd};
      }
      parentsOn := parentsOn - {wdParent[wd]};
      wdParent := wdParent - {wd};
      assert forall v :: v in wdParent ==> v in old(wdParent) && wdParent[v] == old(wdParent)[v];
    }

    method AdoptReported(e: Event, w: World)
      requires During(w) && EventTrue(e, w) && e.wd in wdParent && Creates(e)
      modifies this`pods, this`wdScope, this`wdPod
      ensures During(w) && EventFrame(e) && KeepsCurrent(e, w)
      ensures var uid := e.podUid.value;
              && pods == old(pods)[uid := AdoptedPod(Get(old(pods), uid), Get(w.pods, uid), rescanned, rescanStep, w.now, steps - 1)]
              && UpToDate(pods[uid], uid, w)
    {
      hide PodInv, HistoryOk, ScopeRefs, PodRefs, AdoptedPod, Current, ParentsOnce;
      var uid := e.podUid.value;
      RemovedStays(uid, w);
      AdoptLocked(uid, w, Get(w.pods, uid), w.now);
      assert TrackedUpToDate(uid, w);
    }

    /** A removed record is of a pod that is gone, so adopting it again finds it gone. */
    lemma RemovedStays(uid: Uid, w: World)
      requires During(w)
      ensures uid in pods && pods[uid].removed.Some? ==>
                uid !in w.pods &&
                AdoptedPod(Get(pods, uid), Get(w.pods, uid), rescanned, rescanStep, w.now, steps - 1).removed.Some?
    {
      hide PodInv, HistoryOk, Watches, WdsOk, UnreadMeansZero, RescanKept, ReadPod, ParentsOnce;
      if uid in pods && pods[uid].removed.Some? {
        RemovedIsGone(uid);
      }
    }

    /** Store `q` as a record of a tracked pod, where only its containers, watches or
        removal mark changed. */
    method Restore(uid: Uid, ghost w: World, q: Pod)
      requires During(w) && uid in pods
      requires PodInv(hist, uid, q) && (uid in w.pods ==> q.removed.None?)
      requires ScopeRefs(uid, q.scopes, wdScope) && PodRefs(uid, q.wds, wdPod)
      modifies this`pods
      ensures During(w) && pods == old(pods)[uid := q]
    {
      hide PodInv, HistoryOk, ScopeRefs, PodRefs, ParentsOnce;
      pods := pods[uid := q];
    }

    lemma DuringIsValid(w: World)
      requires During(w)
      ensures Valid()
    {
    }

    lemma StepFacts(w: World)
      requires During(w)
      ensures hist != [] && steps == |hist| && hist[|hist| - 1] == w
    {
    }

    /** What `During` says of one record. */
    lemma RecordFacts(uid: Uid, w: World)
      requires During(w) && uid in pods
      ensures PodInv(hist, uid, pods[uid])
      ensures pods[uid].removed.Some? ==> uid !in w.pods
      ensures uid !in w.pods ==> uid in w.dead
      ensures ScopeRefs(uid, pods[uid].scopes, wdScope) && PodRefs(uid, pods[uid].wds, wdPod)
    {
      assert PodInv(hist, uid, pods[uid]);
      assert WorldOk(w);
    }

    /** The records once the container behind `wd` is forgotten, if it is still the one that
        holds the watch. */
    function WithoutScope(was: map<Uid, Pod>, ref: ScopeRef, wd: Wd): map<Uid, Pod> {
      if ref.uid in was && ref.id in was[ref.uid].scopes && was[ref.uid].scopes[ref.id].wd == Some(wd)
      then was[ref.uid := was[ref.uid].(scopes := was[ref.uid].scopes - {ref.id})] else was
    }

    /** An event on a container's watch: the end of the watch forgets that container and no
        other, a change has its pod read. */
    method OnScopeEvent(e: Event, w: World) returns (dirty: Option<Uid>)
      requires During(w) && e.wd in wdScope
      modifies this`pods, this`wdScope
      ensures During(w) && EventFrame(e) && KeepsCurrent(e, w)
      ensures Ignored in e.mask ==>
                && wdScope == old(wdScope) - {e.wd} && dirty == None
                && pods == WithoutScope(old(pods), old(wdScope)[e.wd], e.wd)
      ensures Ignored !in e.mask ==>
                && wdScope == old(wdScope) && pods == old(pods)
                && dirty == if Modify in e.mask then Some(old(wdScope)[e.wd].uid) else None
    {
      hide During;
      StepFacts(w);
      var ref := wdScope[e.wd];
      if Ignored in e.mask {
        if ref.uid in pods && ref.id in pods[ref.uid].scopes && pods[ref.uid].scopes[ref.id].wd == Some(e.wd) {
          var p := pods[ref.uid];
          var q := p.(scopes := p.scopes - {ref.id});
          ForgetScope(ref, w, q);
        }
        UnmapScope(e.wd, w);
        return None;
      }
      return if Modify in e.mask then Some(ref.uid) else None;
    }

    method ForgetScope(ref: ScopeRef, ghost w: World, q: Pod)
      requires During(w) && hist != [] && ref.uid in pods
      requires q == pods[ref.uid].(scopes := pods[ref.uid].scopes - {ref.id})
      modifies this`pods
      ensures During(w) && pods == old(pods)[ref.uid := q]
    {
      hide During, PodInv, PodRefs;
      RecordFacts(ref.uid, w);
      FewerScopesInv(hist, ref.uid, pods[ref.uid], q);
      Restore(ref.uid, w, q);
    }

    /** Unmap a container watch that no container holds any more. */
    method UnmapScope(wd: Wd, ghost w: World)
      requires During(w) && wd in wdScope
      requires var ref := wdScope[wd];
               ref.uid in pods && ref.id in pods[ref.uid].scopes ==> pods[ref.uid].scopes[ref.id].wd != Some(wd)
      modifies this`wdScope
      ensures During(w) && wdScope == old(wdScope) - {wd}
    {
      hide PodInv, HistoryOk, PodRefs, ParentsOnce;
      wdScope := wdScope - {wd};
    }

    /** A live record of the pod behind a watch. */
    predicate LiveBehind(wd: Wd, wp: map<Wd, Uid>, was: map<Uid, Pod>) {
      wd in wp && wp[wd] in was && was[wp[wd]].removed.None?
    }

    lemma StillUpToDate(p: Pod, q: Pod, uid: Uid, w: World)
      requires q == p.(wds := q.wds, removed := q.removed)
      requires q.removed == p.removed || (uid !in w.pods && q.removed.Some?)
      ensures UpToDate(p, uid, w) ==> UpToDate(q, uid, w)
    {
    }

    /** The end of a pod's watch: it is unmapped, and the pod is marked removed only if its
        directory is gone. */
    method OnPodIgnored(e: Event, w: World)
      requires During(w) && e.wd in wdPod && Ignored in e.mask
      modifies this`pods, this`wdPod
      ensures During(w) && EventFrame(e) && KeepsCurrent(e, w)
      ensures wdPod == old(wdPod) - {e.wd}
      ensures var uid := old(wdPod)[e.wd];
              pods == if uid in old(pods)
                      then var p := old(pods)[uid].(wds := old(pods)[uid].wds - {e.wd});
                           old(pods)[uid := if uid in w.pods then p else MarkedGone(p, w.now)]
                      else old(pods)
    {
      hide During, UpToDate, PodInv, ScopeRefs, PodRefs;
      StepFacts(w);
      var uid := wdPod[e.wd];
      if uid in pods {
        var p := pods[uid];
        var q := p.(wds := p.wds - {e.wd});
        if q.removed.None? && uid !in w.pods {
          q := q.(removed := Some(w.now));
        }
        RecordFacts(uid, w);
        StillUpToDate(p, q, uid, w);
        UpdatePod(uid, w, q);
      }
      UnmapPod(e.wd, w);
    }

    /** An event on a pod's watch. A pod is marked removed only when its directory is gone or is
        reported deleted; a container that appeared is adopted; a change has the pod read. */
    method OnPodEvent(e: Event, w: World) returns (dirty: Option<Uid>)
      requires During(w) && EventTrue(e, w) && e.wd in wdPod
      modifies this`pods, this`wdScope, this`wdPod
      ensures During(w) && EventFrame(e) && KeepsCurrent(e, w)
      ensures Ignored !in e.mask ==> wdPod == old(wdPod)
      ensures forall uid :: uid in pods && uid in w.pods && uid in old(pods) ==> pods[uid].removed == old(pods)[uid].removed
      ensures Ignored !in e.mask && LiveBehind(e.wd, old(wdPod), old(pods)) && DeleteSelf in e.mask ==>
                pods == old(pods)[old(wdPod)[e.wd] := old(pods)[old(wdPod)[e.wd]].(removed := Some(w.now))]
      ensures Ignored !in e.mask && LiveBehind(e.wd, old(wdPod), old(pods)) && DeleteSelf !in e.mask
              && (Create in e.mask || MovedTo in e.mask) && e.named && e.scopeId.Some? ==>
                pods == old(pods)[old(wdPod)[e.wd] :=
                          WithNewScope(old(pods)[old(wdPod)[e.wd]], old(wdPod)[e.wd], e.scopeId.value, w, steps - 1)]
      ensures ReportsModify(e) ==> pods == old(pods)
      ensures ReportsModify(e) && LiveBehind(e.wd, old(wdPod), old(pods)) ==> dirty == Some(old(wdPod)[e.wd])
      ensures dirty.Some? ==> dirty == Some(old(wdPod)[e.wd])
    {
      hide During, EventTrue;
      StepFacts(w);
      var uid := wdPod[e.wd];
      dirty := None;
      if Ignored in e.mask {
        OnPodIgnored(e, w);
        return;
      }
      if uid !in pods || pods[uid].removed.Some? {
        return;
      }
      if DeleteSelf in e.mask {
        DeletedIsDead(e, w);
        UpdatePod(uid, w, pods[uid].(removed := Some(w.now)));
        return;
      }
      if (Create in e.mask || MovedTo in e.mask) && e.named {
        if e.scopeId.Some? {
          CreatedIsKnown(e, w);
          AdoptNamedScope(uid, e.scopeId.value, w);
        }
        return;
      }
      if Modify in e.mask {
        dirty := Some(uid);
      }
    }

    /** A change of counters and nothing else. */
    predicate ReportsModify(e: Event) {
      Modify in e.mask && e.mask !! {QOverflow, Ignored, DeleteSelf, Create, MovedTo}
    }

    /** The record with a container adopted, unless it has it. */
    function WithNewScope(p: Pod, uid: Uid, id: Id, w: World, step: nat): Pod {
      if id in p.scopes then p
      else
        var d := if uid in w.pods then Get(w.pods[uid].scopes, id) else None;
        p.(scopes := p.scopes[id := AdoptedScope(d, step)])
    }

    lemma DeletedIsDead(e: Event, w: World)
      requires During(w) && EventTrue(e, w) && e.wd in wdPod && DeleteSelf in e.mask
      ensures wdPod[e.wd] in w.dead && wdPod[e.wd] !in w.pods
    {
      assert For(e.wd, PodPath(wdPod[e.wd]));
      assert WorldOk(w);
    }

    lemma CreatedIsKnown(e: Event, w: World)
      requires During(w) && EventTrue(e, w) && e.wd in wdPod && e.scopeId.Some?
      ensures KnownAt(w, wdPod[e.wd], e.scopeId.value)
    {
      assert For(e.wd, PodPath(wdPod[e.wd]));
    }

    /** Drop watches of a record, or mark it removed when its cgroup is gone. */
    method UpdatePod(uid: Uid, ghost w: World, q: Pod)
      requires During(w) && uid in pods
      requires q == pods[uid].(wds := q.wds, removed := q.removed) && q.wds <= pods[uid].wds
      requires q.removed == pods[uid].removed || uid !in w.pods
      modifies this`pods
      ensures During(w) && pods == old(pods)[uid := q]
    {
      hide During, PodInv, ScopeRefs;
      StepFacts(w);
      RecordFacts(uid, w);
      WatchesChangedInv(hist, uid, w, pods[uid], q);
      Restore(uid, w, q);
    }

    method UnmapPod(wd: Wd, ghost w: World)
      requires During(w) && wd in wdPod
      requires wdPod[wd] in pods ==> wd !in pods[wdPod[wd]].wds
      modifies this`wdPod
      ensures During(w) && wdPod == old(wdPod) - {wd}
    {
      hide PodInv, HistoryOk, ScopeRefs, ParentsOnce;
      wdPod := wdPod - {wd};
    }

    method AdoptNamedScope(uid: Uid, id: Id, w: World)
      requires During(w) && hist != [] && steps == |hist| && uid in pods && pods[uid].removed.None?
      requires KnownAt(w, uid, id)
      modifies this`pods, this`wdScope
      ensures During(w) && pods == old(pods)[uid := WithNewScope(old(pods)[uid], uid, id, w, steps - 1)]
      ensures forall wd :: wd in old(wdScope) ==> wd in wdScope && wdScope[wd] == old(wdScope)[wd]
    {
      hide PodInv, HistoryOk, PodRefs, ParentsOnce;
      var d := if uid in w.pods then Get(w.pods[uid].scopes, id) else None;
      var scopes := AdoptScopeLocked(uid, pods[uid].scopes, id, d);
      StoreScopes(uid, id, w, scopes, old(wdScope));
    }

    method StoreScopes(uid: Uid, id: Id, ghost w: World, scopes: map<Id, Scope>, ghost before: map<Wd, ScopeRef>)
      requires HistoryOk(hist) && steps == |hist| && hist != [] && hist[|hist| - 1] == w
      requires Records() && RescanKept() && ParentsOnce() && WdsOk(w) && UnreadMeansZero(w)
      requires uid in pods && pods[uid].removed.None? && KnownAt(w, uid, id)
      requires var d := if uid in w.pods then Get(w.pods[uid].scopes, id) else None;
               scopes == if id in pods[uid].scopes then pods[uid].scopes
                         else pods[uid].scopes[id := AdoptedScope(d, steps - 1)]
      requires Owned(wdScope) && ScopeRefs(uid, scopes, wdScope) && OthersKept(uid, before, wdScope)
      requires forall u :: u in pods ==> ScopeRefs(u, pods[u].scopes, before)
      requires forall u :: u in pods ==> PodRefs(u, pods[u].wds, wdPod)
      requires forall wd :: wd in wdPod ==> For(wd, PodPath(wdPod[wd]))
      requires forall wd :: wd in wdParent ==> For(wd, ParentPath(wdParent[wd]))
      modifies this`pods
      ensures During(w) && pods == old(pods)[uid := WithNewScope(old(pods)[uid], uid, id, w, steps - 1)]
    {
      hide PodInv, HistoryOk, ScopeRefs, PodRefs, OthersKept, ParentsOnce;
      RefsKept(uid, pods, before, wdScope);
      NewScopeInv(hist, uid, pods[uid], id);
      StoreRecord(uid, w, pods[uid].(scopes := scopes));
    }

    /** A descriptor watches one kind of path only. */
    lemma OneKindOfWatch(wd: Wd, w: World)
      requires During(w)
      ensures wd in wdPod ==> wd !in wdParent && wd !in wdScope
      ensures wd in wdScope ==> wd !in wdParent
    {
      assert wd in wdPod ==> For(wd, PodPath(wdPod[wd]));
      assert wd in wdParent ==> For(wd, ParentPath(wdParent[wd]));
      assert wd in wdScope ==> For(wd, ScopePath(wdScope[wd].uid, wdScope[wd].id));
    }

    method HandleEventLocked(e: Event, w: World) returns (dirty: Option<Uid>, overflow: bool)
      requires During(w) && EventTrue(e, w)
      modifies this`pods, this`wdScope, this`wdPod, this`wdParent, this`parentsOn, this`overflows
      ensures During(w) && EventFrame(e) && KeepsCurrent(e, w)
      ensures overflow <==> QOverflow in e.mask
      ensures overflows == if overflow then LastN(old(overflows) + [w.now], 8) else old(overflows)
      ensures ReportsModify(e) && LiveBehind(e.wd, old(wdPod), old(pods)) ==> dirty == Some(old(wdPod)[e.wd])
      ensures ReportsModify(e) && e.wd in old(wdScope) ==> dirty == Some(old(wdScope)[e.wd].uid)
      ensures QOverflow !in e.mask && Creates(e) && e.wd in old(wdParent) ==> TrackedUpToDate(e.podUid.value, w)
    {
      hide During, EventTrue, AdoptedPod, Current;
      dirty, overflow := None, false;
      if QOverflow in e.mask {
        OnOverflow(w.now, w);
        return None, true;
      }
      OneKindOfWatch(e.wd, w);
      if e.wd in wdParent {
        OnParentEvent(e, w);
      } else if e.wd in wdScope {
        dirty := OnScopeEvent(e, w);
      } else if e.wd in wdPod {
        dirty := OnPodEvent(e, w);
      }
    }

    /** Read the pods a batch made dirty, once each. */
    method ReadDirty(dirty: set<Uid>, w: World)
      requires During(w)
      modifies this`pods, this`wdScope
      ensures During(w) && pods.Keys == old(pods).Keys
      ensures forall uid :: uid in pods && (uid !in dirty || old(pods)[uid].removed.Some?) ==> pods[uid] == old(pods)[uid]
      ensures forall uid :: uid in pods && uid in dirty && old(pods)[uid].removed.None? ==>
                UpToDate(pods[uid], uid, w)
      ensures forall uid :: uid in pods && uid in dirty ==> TrackedUpToDate(uid, w)
      ensures forall uid :: old(TrackedUpToDate(uid, w)) ==> TrackedUpToDate(uid, w)
    {
      hide During;
      ghost var was := pods;
      var todo := dirty;
      while todo != {}
        invariant During(w) && pods.Keys == was.Keys && todo <= dirty
        invariant forall uid :: uid in pods && (uid !in dirty || uid in todo || was[uid].removed.Some?) ==> pods[uid] == was[uid]
        invariant forall uid :: uid in pods && uid in dirty && uid !in todo && was[uid].removed.None? ==>
                    UpToDate(pods[uid], uid, w)
      {
        var uid :| uid in todo;
        if uid in pods && pods[uid].removed.None? {
          ReadOne(uid, w);
        }
        todo := todo - {uid};
      }
      forall uid | uid in pods && pods[uid].removed.Some? ensures TrackedUpToDate(uid, w) {
        RemovedIsUpToDate(uid, w);
      }
    }

    method ReadOne(uid: Uid, w: World)
      requires During(w) && uid in pods && pods[uid].removed.None?
      modifies this`pods, this`wdScope
      ensures During(w) && uid in pods && pods == old(pods)[uid := pods[uid]] && UpToDate(pods[uid], uid, w)
    {
      hide During, ReadPod, Current;
      StepFacts(w);
      ReadPodFrame(pods[uid], Get(w.pods, uid), w.now, steps - 1);
      if uid in w.pods {
        ReadPodCurrent(pods[uid], w.pods[uid], w.now, steps - 1);
      }
      ReadPodLocked(uid, w, Get(w.pods, uid), w.now);
    }

    /** No earlier event of the batch ends the watch of event `i`: after that there are none on it. */
    ghost predicate WatchHolds(events: seq<Event>, i: nat)
      requires i < |events|
    {
      forall j :: 0 <= j < i && events[j].wd == events[i].wd ==> Ignored !in events[j].mask
    }

    /** Event `i` reports a change of a tracked pod's counters, through the pod's own watch. */
    ghost predicate ReportsPod(events: seq<Event>, i: nat, wp: map<Wd, Uid>, was: map<Uid, Pod>, uid: Uid) {
      && i < |events| && WatchHolds(events, i) && ReportsModify(events[i])
      && events[i].wd in wp && wp[events[i].wd] == uid && uid in was
    }

    /** It reports one of a container of a tracked pod, through the container's watch. */
    ghost predicate ReportsScope(events: seq<Event>, i: nat, ws: map<Wd, ScopeRef>, was: map<Uid, Pod>, uid: Uid) {
      && i < |events| && WatchHolds(events, i) && ReportsModify(events[i])
      && events[i].wd in ws && ws[events[i].wd].uid == uid && uid in was
    }

    /** It reports that the pod's directory appeared under a watched parent. */
    ghost predicate ReportsCreation(events: seq<Event>, i: nat, wr: map<Wd, string>, uid: Uid) {
      && i < |events| && WatchHolds(events, i) && QOverflow !in events[i].mask && Creates(events[i])
      && events[i].wd in wr && events[i].podUid == Some(uid)
    }

    /** One of the events reports something about the pod. */
    ghost predicate Reported(events: seq<Event>, i: nat, wp: map<Wd, Uid>, ws: map<Wd, ScopeRef>, wr: map<Wd, string>,
                             was: map<Uid, Pod>, uid: Uid)
    {
      ReportsPod(events, i, wp, was, uid) || ReportsScope(events, i, ws, was, uid) || ReportsCreation(events, i, wr, uid)
    }

    /** What is kept of the watches the batch found in place, from event `k` on. */
    ghost predicate WatchesHold(events: seq<Event>, k: nat, wp: map<Wd, Uid>, ws: map<Wd, ScopeRef>, wr: map<Wd, string>,
                                was: map<Uid, Pod>, w: World)
      reads this
    {
      && (forall uid :: uid in was ==> uid in pods)
      && forall i: nat :: k <= i < |events| && WatchHolds(events, i) ==>
           var wd := events[i].wd;
           && (wd in wp ==> wd in wdPod && wdPod[wd] == wp[wd])
           && (wd in wr ==> wd in wdParent && wdParent[wd] == wr[wd])
           && (wd in ws ==> (wd in wdScope && wdScope[wd] == ws[wd]) || TrackedUpToDate(ws[wd].uid, w))
    }

    lemma AllWatchesHold(events: seq<Event>, w: World)
      ensures WatchesHold(events, 0, wdPod, wdScope, wdParent, pods, w)
    {
    }

    lemma RemovedIsUpToDate(uid: Uid, w: World)
      requires During(w) && uid in pods && pods[uid].removed.Some?
      ensures TrackedUpToDate(uid, w)
    {
      hide During;
      RecordFacts(uid, w);
    }

    /** One event of a batch: the watches hold on, and the pod it reports is up to date or marked
        for reading. */
    method ApplyEvent(events: seq<Event>, k: nat, w: World, ghost wp: map<Wd, Uid>, ghost ws: map<Wd, ScopeRef>,
                      ghost wr: map<Wd, string>, ghost was: map<Uid, Pod>)
      returns (dirty: Option<Uid>, overflow: bool)
      requires k < |events| && During(w) && EventTrue(events[k], w) && WatchesHold(events, k, wp, ws, wr, was, w)
      modifies this`pods, this`wdScope, this`wdPod, this`wdParent, this`parentsOn, this`overflows
      ensures During(w) && hist == old(hist) && WatchesHold(events, k + 1, wp, ws, wr, was, w)
      ensures overflow <==> QOverflow in events[k].mask
      ensures forall uid :: old(TrackedUpToDate(uid, w)) ==> TrackedUpToDate(uid, w)
      ensures forall uid :: uid in old(pods) ==> uid in pods
      ensures forall uid :: Reported(events, k, wp, ws, wr, was, uid) ==>
                TrackedUpToDate(uid, w) || (dirty == Some(uid) && uid in pods)
    {
      hide During, EventTrue, Current, UpToDate;
      dirty, overflow := HandleEventLocked(events[k], w);
      forall uid | Reported(events, k, wp, ws, wr, was, uid)
        ensures TrackedUpToDate(uid, w) || (dirty == Some(uid) && uid in pods)
      {
        if ReportsPod(events, k, wp, was, uid) && old(pods)[uid].removed.Some? {
          RemovedIsUpToDate(uid, w);
        }
      }
    }

    method ApplyEvents(events: seq<Event>, w: World) returns (dirty: set<Uid>, overflow: bool)
      requires During(w) && forall i :: 0 <= i < |events| ==> EventTrue(events[i], w)
      modifies this`pods, this`wdScope, this`wdPod, this`wdParent, this`parentsOn, this`overflows
      ensures During(w) && hist == old(hist) && forall uid :: uid in old(pods) ==> uid in pods
      ensures overflow <==> exists i :: 0 <= i < |events| && QOverflow in events[i].mask
      ensures forall i: nat, uid :: i < |events| && Reported(events, i, old(wdPod), old(wdScope), old(wdParent), old(pods), uid) ==>
                TrackedUpToDate(uid, w) || (uid in dirty && uid in pods)
    {
      hide During, EventTrue, UpToDate, Reported, WatchesHold;
      ghost var was, wp, ws, wr := pods, wdPod, wdScope, wdParent;
      AllWatchesHold(events, w);
      dirty, overflow := {}, false;
      var k := 0;
      while k < |events|
        invariant forall uid :: uid in was ==> uid in pods
        invariant 0 <= k <= |events| && During(w) && hist == old(hist) && WatchesHold(events, k, wp, ws, wr, was, w)
        invariant overflow <==> exists i :: 0 <= i < k && QOverflow in events[i].mask
        invariant forall i: nat, uid :: i < k && Reported(events, i, wp, ws, wr, was, uid) ==>
                    TrackedUpToDate(uid, w) || (uid in dirty && uid in pods)
      {
        var d, o := ApplyEvent(events, k, w, wp, ws, wr, was);
        dirty := dirty + if d.Some? then {d.value} else {};
        overflow := overflow || o;
        k := k + 1;
      }
    }

    /** One batch of events, then one read of each pod it touched. A pod of which the batch
        reports a change of counters, its own or a container's, or which it reports created, is
        up to date afterwards: live with the kernel's counters of now, or marked gone. */
    method HandleEvents(events: seq<Event>, w: World) returns (overflow: bool)
      requires Valid() && Environment(w) && forall i :: 0 <= i < |events| ==> EventTrue(events[i], w)
      modifies this`pods, this`wdScope, this`wdPod, this`wdParent, this`parentsOn, this`overflows, this`hist, this`steps
      ensures Valid() && hist == old(hist) + [w]
      ensures overflow <==> exists i :: 0 <= i < |events| && QOverflow in events[i].mask
      ensures forall i: nat, uid :: i < |events| && Reported(events, i, old(wdPod), old(wdScope), old(wdParent), old(pods), uid) ==>
                TrackedUpToDate(uid, w)
    {
      hide During, EventTrue, Environment, Valid, Reported, UpToDate;
      var dirty;
      BeginStep(w);
      ghost var was, wp, ws, wr := pods, wdPod, wdScope, wdParent;
      dirty, overflow := ApplyEvents(events, w);
      assert forall i: nat, uid :: i < |events| && Reported(events, i, wp, ws, wr, was, uid) ==>
          TrackedUpToDate(uid, w) || (uid in dirty && uid in pods);
      ReadDirty(dirty, w);
      DuringIsValid(w);
    }

    /** What the witness publishes of a pod: its counters and its recent increases. */
    method Published(uid: Uid) returns (increases: seq<Increase>, counters: Counters)
      requires Valid() && uid in pods
      ensures PublishedRight(hist, uid, pods[uid].aux.log, increases, counters)
    {
      PublishedIsRight(hist, uid, pods[uid]);
      increases, counters := pods[uid].increases, pods[uid].counters;
    }
  }
}
