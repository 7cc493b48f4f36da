/**
 The pod records of the out-of-memory witness and the per-pod steps that update
 them, with the kernel's side of the story as an explicit history of worlds.

 A `World` is what the cgroup file system holds at one locked step of the witness
 (one rescan or one event batch). A history is the sequence of those worlds.
 */
module MemcgModel {
  import opened Prelude

  type Uid = string
  type Id = string
  type Wd = int
  // Unix milliseconds. The clock is positive, so 0 can stand for "unknown".
  type Time = nat

  const MAX_INCREASES := 16

  datatype Counters = Counters(oom: nat, kill: nat, group: nat)

  const ZERO := Counters(0, 0, 0)

  function Plus(a: Counters, b: Counters): Counters {
    Counters(a.oom + b.oom, a.kill + b.kill, a.group + b.group)
  }

  /** Subtraction that stops at zero, field by field. */
  function Minus(a: Counters, b: Counters): Counters {
    Counters(
      if a.oom < b.oom then 0 else a.oom - b.oom,
      if a.kill < b.kill then 0 else a.kill - b.kill,
      if a.group < b.group then 0 else a.group - b.group)
  }

  predicate Leq(a: Counters, b: Counters) {
    a.oom <= b.oom && a.kill <= b.kill && a.group <= b.group
  }

  predicate Rose(prev: Counters, c: Counters) {
    c.oom > prev.oom || c.kill > prev.kill || c.group > prev.group
  }

  predicate KillRose(prev: Counters, c: Counters) {
    c.kill > prev.kill || c.group > prev.group
  }

  // ---- the kernel's side ---------------------------------------------------

  /** One container cgroup: what the kernel counted, whether memory.events can be
      read, and what inotify_add_watch would answer for it. */
  datatype ScopeDir = ScopeDir(truth: Counters, readable: bool, wd: Option<Wd>)

  datatype PodDir = PodDir(
    truth: Counters, readable: bool, listable: bool,
    scopes: map<Id, ScopeDir>, dirWd: Option<Wd>, eventsWd: Option<Wd>)

  /** `dead` holds every pod whose cgroup existed once and is gone, `gone` every container
      cgroup that existed once and is gone. */
  datatype World = World(now: Time, pods: map<Uid, PodDir>, dead: set<Uid>, gone: set<(Uid, Id)>)

  type History = seq<World>

  /** The container's cgroup exists. */
  predicate Present(w: World, uid: Uid, id: Id) {
    uid in w.pods && id in w.pods[uid].scopes
  }

  /** It existed and is gone, by itself or with its pod. */
  predicate Lost(w: World, uid: Uid, id: Id) {
    uid in w.dead || (uid, id) in w.gone
  }

  ghost predicate WorldOk(w: World) {
    && w.now > 0 && w.pods.Keys !! w.dead
    && forall uid, id :: Present(w, uid, id) ==> (uid, id) !in w.gone
  }

  /** A pod's containers between two worlds: a container that is gone stays away, and the
      counters of one that stays do not fall. */
  ghost predicate ScopesStep(a: World, b: World, uid: Uid)
    requires uid in a.pods && uid in b.pods
  {
    && a.gone <= b.gone
    && forall id :: id in a.pods[uid].scopes ==>
         if id in b.pods[uid].scopes then Leq(a.pods[uid].scopes[id].truth, b.pods[uid].scopes[id].truth)
         else (uid, id) in b.gone
  }

  /** What may happen between two steps: time does not go back, a removed pod or container
      cgroup does not come back, and a live cgroup's counters do not fall. */
  ghost predicate WorldStep(a: World, b: World) {
    && WorldOk(b)
    && a.now <= b.now
    && a.dead <= b.dead
    && a.gone <= b.gone
    && a.pods.Keys - b.pods.Keys <= b.dead
    && (forall uid :: uid in a.pods && uid in b.pods ==> Leq(a.pods[uid].truth, b.pods[uid].truth))
    && forall uid :: uid in a.pods && uid in b.pods ==> ScopesStep(a, b, uid)
  }

  ghost predicate ContainersOk(h: History) {
    && (forall i, j :: 0 <= i <= j < |h| ==> h[i].gone <= h[j].gone)
    && forall i, j, uid :: 0 <= i <= j < |h| && uid in h[i].pods && uid in h[j].pods ==> ScopesStep(h[i], h[j], uid)
  }

  ghost predicate HistoryOk(h: History) {
    && (forall i :: 0 <= i < |h| ==> WorldOk(h[i]))
    && (forall i, j :: 0 <= i <= j < |h| ==> h[i].now <= h[j].now && h[i].dead <= h[j].dead)
    && (forall i, j, uid :: 0 <= i <= j < |h| && uid in h[i].pods ==> uid in h[j].pods || uid in h[j].dead)
    && (forall i, j, uid :: 0 <= i <= j < |h| && uid in h[i].pods && uid in h[j].pods ==>
          Leq(h[i].pods[uid].truth, h[j].pods[uid].truth))
    && ContainersOk(h)
  }

  lemma HistoryExtend(h: History, w: World)
    requires HistoryOk(h) && WorldOk(w)
    requires h != [] ==> WorldStep(h[|h| - 1], w)
    ensures HistoryOk(h + [w])
  {
    hide WorldOk, WorldStep, Leq, ContainersOk;
    ContainersExtend(h, w);
    var g := h + [w];
    assert forall i :: 0 <= i < |h| ==> g[i] == h[i];
    forall i | 0 <= i < |h|
      ensures h[i].now <= w.now && h[i].dead <= w.dead
      ensures forall uid :: uid in h[i].pods ==> uid in w.pods || uid in w.dead
      ensures forall uid :: uid in h[i].pods && uid in w.pods ==> Leq(h[i].pods[uid].truth, w.pods[uid].truth)
    {
      ReachesNext(h, w, i);
    }
    LeqSelf();
  }

  lemma ReachesNext(h: History, w: World, i: nat)
    requires HistoryOk(h) && i < |h| && WorldOk(w) && WorldStep(h[|h| - 1], w)
    ensures h[i].now <= w.now && h[i].dead <= w.dead
    ensures forall uid :: uid in h[i].pods ==> uid in w.pods || uid in w.dead
    ensures forall uid :: uid in h[i].pods && uid in w.pods ==> Leq(h[i].pods[uid].truth, w.pods[uid].truth)
  {
    var l := |h| - 1;
    assert h[i].now <= h[l].now && h[i].dead <= h[l].dead;
    forall uid | uid in h[i].pods
      ensures uid in w.pods || uid in w.dead
      ensures uid in w.pods ==> Leq(h[i].pods[uid].truth, w.pods[uid].truth)
    {
      assert uid in h[l].pods || uid in h[l].dead;
    }
  }

  lemma ContainersExtend(h: History, w: World)
    requires HistoryOk(h) && WorldOk(w) && (h != [] ==> WorldStep(h[|h| - 1], w))
    ensures ContainersOk(h + [w])
  {
    hide ScopesStep;
    var g := h + [w];
    forall i | 0 <= i < |h| ensures h[i].gone <= w.gone {
      assert h[i].gone <= h[|h| - 1].gone;
    }
    forall i, uid | 0 <= i < |g| && uid in g[i].pods && uid in w.pods ensures ScopesStep(g[i], w, uid) {
      if i < |h| {
        AliveUntil(h, w, i, uid);
        ScopesStepTwice(h[i], h[|h| - 1], w, uid);
      } else {
        ScopesStepSelf(w, uid);
      }
    }
  }

  lemma AliveUntil(h: History, w: World, i: nat, uid: Uid)
    requires HistoryOk(h) && i < |h| && WorldStep(h[|h| - 1], w) && uid in h[i].pods && uid in w.pods
    ensures uid in h[|h| - 1].pods && ScopesStep(h[i], h[|h| - 1], uid) && ScopesStep(h[|h| - 1], w, uid)
  {
    hide ScopesStep;
  }

  lemma ScopesStepSelf(w: World, uid: Uid)
    requires uid in w.pods
    ensures ScopesStep(w, w, uid)
  {
  }

  lemma ScopesStepTwice(a: World, b: World, c: World, uid: Uid)
    requires uid in a.pods && uid in b.pods && uid in c.pods && WorldOk(c)
    requires ScopesStep(a, b, uid) && ScopesStep(b, c, uid)
    ensures ScopesStep(a, c, uid)
  {
    forall id | id in a.pods[uid].scopes
      ensures if id in c.pods[uid].scopes then Leq(a.pods[uid].scopes[id].truth, c.pods[uid].scopes[id].truth)
              else (uid, id) in c.gone
    {
      if id in c.pods[uid].scopes {
        assert Present(c, uid, id);
      }
    }
  }

  lemma LeqSelf()
    ensures forall c: Counters :: Leq(c, c)
  {
  }

  /** The kernel's count for a pod at step `i`; zero while the cgroup does not exist. */
  ghost function K(h: History, i: nat, uid: Uid): Counters {
    if i < |h| && uid in h[i].pods then h[i].pods[uid].truth else ZERO
  }

  /** Over a stretch that ends with the pod alive, the kernel's count never falls,
      and the pod is alive throughout if it was at the start. */
  lemma KMonotone(h: History, i: nat, j: nat, uid: Uid)
    requires HistoryOk(h) && i <= j < |h| && uid in h[j].pods
    ensures Leq(K(h, i, uid), K(h, j, uid))
  {
  }

  lemma AliveBetween(h: History, i: nat, m: nat, j: nat, uid: Uid)
    requires HistoryOk(h) && i <= m <= j < |h| && uid in h[i].pods && uid in h[j].pods
    ensures uid in h[m].pods
  {
    assert h[m].dead <= h[j].dead;
  }

  /** What a read of one container's counters yields: zero when it cannot be read. */
  ghost function SeenScope(w: World, uid: Uid, id: Id): Counters {
    if uid in w.pods && id in w.pods[uid].scopes && w.pods[uid].scopes[id].readable
    then w.pods[uid].scopes[id].truth else ZERO
  }

  predicate Readable(w: World, uid: Uid, id: Id) {
    Present(w, uid, id) && w.pods[uid].scopes[id].readable
  }

  /** A rise of a container as one record of its pod came to know it: the step the record
      adopted the container at, the step of its last read before, and the step of the read
      that found more. */
  datatype Sighting = Sighting(adopted: nat, from: nat, at: nat)

  /** The container was there at all three steps; it had been read at `from` or adopted there;
      and at `at` its own kill counters were above what that read gave, and above the baseline
      taken at adoption. */
  ghost predicate SightingTrue(h: History, uid: Uid, id: Id, s: Sighting) {
    && s.adopted <= s.from < s.at < |h|
    && Present(h[s.adopted], uid, id) && Present(h[s.from], uid, id) && Readable(h[s.at], uid, id)
    && (s.from == s.adopted || Readable(h[s.from], uid, id))
    && KillRose(SeenScope(h[s.from], uid, id), h[s.at].pods[uid].scopes[id].truth)
    && KillRose(SeenScope(h[s.adopted], uid, id), h[s.at].pods[uid].scopes[id].truth)
  }

  /** What the reads of one record saw: how each container was last seen to rise, and the steps
      the record was read at. */
  datatype Sights = Sights(rises: map<Id, Sighting>, looks: set<nat>)

  /** No read of the record between the two steps could read the container. */
  ghost predicate UnreadBetween(h: History, uid: Uid, id: Id, looks: set<nat>, from: nat, to: nat) {
    forall i :: i in looks && from < i < to && i < |h| ==> !Readable(h[i], uid, id)
  }

  /** A rise of the container was seen at a step from `since` up to `until`, above what the last
      read before that step gave. */
  ghost predicate SeenIn(h: History, uid: Uid, id: Id, seen: Sights, since: nat, until: nat) {
    && id in seen.rises && since <= seen.rises[id].at <= until && SightingTrue(h, uid, id, seen.rises[id])
    && UnreadBetween(h, uid, id, seen.looks, seen.rises[id].from, seen.rises[id].at)
  }

  // ---- the witness's records -----------------------------------------------

  datatype Increase = Increase(after: Time, at: Time, delta: Counters, ids: set<Id>)

  /** `step` and `adopted` serve the proofs: the step of the last read kept in `counters`, and
      the step of adoption. */
  datatype Scope = Scope(counters: Counters, wd: Option<Wd>, step: nat, adopted: nat)

  /** One recorded increase with the steps its two times come from, the step from which on the
      containers it names were seen to rise, and those sightings. */
  datatype Entry = Entry(inc: Increase, from: nat, to: nat, since: nat, seen: Sights)

  /** What serves the proofs only: every increase ever recorded, the steps of adoption and
      last read, the step the pending containers were last cleared at, and how each of them
      was last seen to rise. */
  datatype Aux = Aux(firstStep: nat, readStep: nat, log: seq<Entry>, cleared: nat, seen: Sights)

  datatype Pod = Pod(
    firstSeen: Time, lastRead: Option<Time>, removed: Option<Time>, counters: Counters,
    increases: seq<Increase>, wds: set<Wd>, watched: bool,
    scopes: map<Id, Scope>, pending: set<Id>, aux: Aux)

  function Wds(o: Option<Wd>): set<Wd> {
    if o.Some? then {o.value} else {}
  }

  function AdoptedScope(d: Option<ScopeDir>, step: nat): Scope {
    match d
    case None => Scope(ZERO, None, step, step)
    case Some(s) => Scope(if s.readable then s.truth else ZERO, s.wd, step, step)
  }

  /** Adopt the container cgroups that appeared, forget those that are gone. A
      directory that cannot be listed changes nothing. */
  function SyncedScopes(scopes: map<Id, Scope>, d: Option<PodDir>, step: nat): map<Id, Scope> {
    if d.None? || !d.value.listable then scopes
    else map id | id in d.value.scopes ::
           if id in scopes then scopes[id] else AdoptedScope(Some(d.value.scopes[id]), step)
  }

  function ScopeRead(d: Option<PodDir>, id: Id): Option<Counters> {
    if d.Some? && id in d.value.scopes && d.value.scopes[id].readable
    then Some(d.value.scopes[id].truth) else None
  }

  /** The containers whose own kill counters rose since their last read. */
  function Risen(scopes: map<Id, Scope>, d: Option<PodDir>): set<Id> {
    set id | id in scopes && ScopeRead(d, id).Some? && KillRose(scopes[id].counters, ScopeRead(d, id).value)
  }

  function ScopesKept(scopes: map<Id, Scope>, d: Option<PodDir>): set<Id> {
    if d.None? then {} else scopes.Keys * d.value.scopes.Keys
  }

  function RereadScope(s: Scope, r: Option<Counters>, step: nat): Scope {
    if r.Some? then s.(counters := r.value, step := step) else s
  }

  function RereadScopes(scopes: map<Id, Scope>, d: Option<PodDir>, step: nat): map<Id, Scope> {
    map id | id in ScopesKept(scopes, d) :: RereadScope(scopes[id], ScopeRead(d, id), step)
  }

  function Sightings(scopes: map<Id, Scope>, risen: set<Id>, step: nat): map<Id, Sighting> {
    map id | id in risen * scopes.Keys :: Sighting(scopes[id].adopted, scopes[id].step, step)
  }

  function Looked(seen: Sights, rises: map<Id, Sighting>, step: nat): Sights {
    Sights(seen.rises + rises, seen.looks + {step})
  }

  /** The container half of a pod read. */
  function WithScopesRead(p: Pod, d: Option<PodDir>, step: nat): Pod {
    var synced := SyncedScopes(p.scopes, d, step);
    p.(scopes := RereadScopes(synced, d, step), pending := p.pending + Risen(synced, d),
       aux := p.aux.(seen := Looked(p.aux.seen, Sightings(synced, Risen(synced, d), step), step)))
  }

  function Recorded(p: Pod, inc: Increase, from: nat, to: nat): Pod {
    p.(increases := LastN(p.increases + [inc], MAX_INCREASES),
       aux := p.aux.(log := p.aux.log + [Entry(inc, from, to, p.aux.cleared, p.aux.seen)]))
  }

  /** The pending containers have been named. */
  function Cleared(p: Pod, step: nat): Pod {
    p.(pending := {}, aux := p.aux.(cleared := step))
  }

  /** The pod half of a pod read: `d` is the pod's directory, if it still exists. */
  function WithCountersRead(p: Pod, d: Option<PodDir>, now: Time, step: nat): Pod {
    if d.None? then
      if p.removed.None? then p.(removed := Some(now)) else p
    else if !d.value.readable then p
    else
      var c := d.value.truth;
      var q :=
        if p.lastRead.None? then
          if c == ZERO then p else Recorded(p, Increase(p.firstSeen, now, c, {}), p.aux.firstStep, step)
        else if Rose(p.counters, c) then
          Cleared(Recorded(p, Increase(p.lastRead.value, now, Minus(c, p.counters), p.pending), p.aux.readStep, step), step)
        else p;
      q.(counters := c, lastRead := Some(now), aux := q.aux.(readStep := step))
  }

  function ReadPod(p: Pod, d: Option<PodDir>, now: Time, step: nat): Pod {
    WithCountersRead(WithScopesRead(p, d, step), d, now, step)
  }

  /** A record as adoption creates it, before its counters are read. */
  function EmptyPod(d: Option<PodDir>, now: Time, step: nat): Pod {
    Pod(now, None, None, ZERO, [],
        if d.Some? then Wds(d.value.dirWd) + Wds(d.value.eventsWd) else {},
        d.Some? && d.value.eventsWd.Some?, map[], {}, Aux(step, step, [], step, Sights(map[], {})))
  }

  /** Adoption. `since` is the previous rescan's time, 0 before the first rescan ends,
      and `sinceStep` the step of that rescan. */
  function FreshPod(d: Option<PodDir>, since: Time, sinceStep: nat, now: Time, step: nat): Pod {
    var e := EmptyPod(d, now, step);
    var p := e.(scopes := SyncedScopes(e.scopes, d, step));
    if d.None? then p.(removed := Some(now))
    else if !d.value.readable then p
    else
      var c := d.value.truth;
      var q := if c == ZERO then p
               else Recorded(p, Increase(since, now, c, {}), if since == 0 then step else sinceStep, step);
      q.(counters := c, lastRead := Some(now))
  }

  /** The record adoption leaves: a live one is re-read, anything else starts afresh. */
  function AdoptedPod(was: Option<Pod>, d: Option<PodDir>, since: Time, sinceStep: nat, now: Time, step: nat): Pod {
    if was.Some? && was.value.removed.None? then ReadPod(was.value, d, now, step)
    else FreshPod(d, since, sinceStep, now, step)
  }

  // ---- what holds of every record ------------------------------------------

  function Sum(log: seq<Entry>): Counters {
    if log == [] then ZERO else Plus(Sum(log[..|log| - 1]), log[|log| - 1].inc.delta)
  }

  function Incs(log: seq<Entry>): seq<Increase> {
    seq(|log|, i requires 0 <= i < |log| => log[i].inc)
  }

  /** The increase is exactly what the kernel counter rose by between the two steps its
      times name. With `after` 0 it is everything counted up to `at`. Every container
      it names was seen to rise above its adoption baseline by then, and not before `since`. */
  ghost predicate EntryExact(h: History, uid: Uid, e: Entry) {
    && e.from <= e.to < |h|
    && uid in h[e.to].pods
    && e.inc.at == h[e.to].now
    && e.inc.after <= e.inc.at
    && e.inc.delta != ZERO
    && (e.inc.after == 0 ==> e.from == e.to && e.inc.delta == K(h, e.to, uid))
    && (e.inc.after != 0 ==>
          e.inc.after == h[e.from].now && Plus(K(h, e.from, uid), e.inc.delta) == K(h, e.to, uid))
    && e.since <= e.to
    && forall id :: id in e.inc.ids ==> SeenIn(h, uid, id, e.seen, e.since, e.to)
  }

  ghost predicate LogExact(h: History, uid: Uid, log: seq<Entry>) {
    forall k :: 0 <= k < |log| ==> EntryExact(h, uid, log[k])
  }

  /** Increases follow one another without overlap and without a gap in the count, and a rise
      that one of them named a container for is behind the next: it is not named twice. */
  ghost predicate LogChained(h: History, uid: Uid, log: seq<Entry>) {
    && (log != [] ==> log[0].inc.after == 0 || K(h, log[0].from, uid) == ZERO)
    && (forall k :: 0 < k < |log| ==>
          && log[k - 1].to <= log[k].from
          && log[k - 1].inc.at <= log[k].inc.after
          && log[k].inc.after != 0
          && log[k - 1].since <= log[k].since
          && (log[k - 1].inc.ids != {} ==> log[k - 1].to <= log[k].since)
          && K(h, log[k - 1].to, uid) == K(h, log[k].from, uid))
  }

  ghost predicate CountersInv(h: History, uid: Uid, p: Pod) {
    var log := p.aux.log;
    && LogExact(h, uid, log)
    && LogChained(h, uid, log)
    && Sum(log) == p.counters
    && p.increases == LastN(Incs(log), MAX_INCREASES)
    && p.aux.firstStep < |h|
    && p.aux.cleared < |h|
    && (log != [] ==>
          && log[|log| - 1].since <= p.aux.cleared
          && (log[|log| - 1].inc.ids != {} ==> log[|log| - 1].to <= p.aux.cleared))
    && p.firstSeen == h[p.aux.firstStep].now
    && (p.lastRead.None? ==> log == [] && K(h, p.aux.firstStep, uid) == ZERO)
    && (p.lastRead.Some? ==>
          && p.aux.firstStep <= p.aux.readStep < |h|
          && uid in h[p.aux.firstStep].pods
          && uid in h[p.aux.readStep].pods
          && p.lastRead.value == h[p.aux.readStep].now
          && p.counters == K(h, p.aux.readStep, uid)
          && (log != [] ==> log[|log| - 1].to <= p.aux.readStep)
          && (log != [] && log[0].inc.after == 0 ==> log[0].to == p.aux.firstStep))
  }

  /** The container exists or is gone for good. */
  predicate KnownAt(w: World, uid: Uid, id: Id) {
    Present(w, uid, id) || Lost(w, uid, id)
  }

  /** The stored counters of a container are those of its last read, or of its adoption when
      it could not be read since. */
  ghost predicate ScopeSeen(h: History, uid: Uid, id: Id, s: Scope, looks: set<nat>) {
    && LastSeen(h, uid, id, s.adopted, looks, s.step)
    && s.counters == SeenScope(h[s.step], uid, id)
    && KnownAt(h[s.adopted], uid, id) && KnownAt(h[s.step], uid, id)
  }

  /** The last step at which a read of the record could read the container, or its adoption. */
  ghost predicate LastSeen(h: History, uid: Uid, id: Id, adopted: nat, looks: set<nat>, i: nat) {
    && adopted <= i < |h|
    && (i == adopted || (i in looks && Readable(h[i], uid, id)))
    && UnreadBetween(h, uid, id, looks, i, |h|)
  }

  ghost predicate ScopesInv(h: History, uid: Uid, p: Pod)
    requires h != []
  {
    && (forall id :: id in p.scopes ==> ScopeSeen(h, uid, id, p.scopes[id], p.aux.seen.looks))
    && (forall i :: i in p.aux.seen.looks ==> i < |h|)
    && p.aux.cleared < |h|
    && (forall id :: id in p.pending ==> SeenIn(h, uid, id, p.aux.seen, p.aux.cleared, |h| - 1))
  }

  ghost predicate PodInv(h: History, uid: Uid, p: Pod) {
    && h != []
    && CountersInv(h, uid, p)
    && ScopesInv(h, uid, p)
    && (uid in h[|h| - 1].pods || uid in h[|h| - 1].dead)
    && (p.removed.Some? ==> uid in h[|h| - 1].dead)
    && (uid in h[p.aux.firstStep].pods || uid in h[|h| - 1].dead)
  }

  // ---- time passing --------------------------------------------------------

  lemma SeenInExtend(h: History, w: World, uid: Uid, id: Id, seen: Sights, since: nat, until: nat, until': nat)
    requires SeenIn(h, uid, id, seen, since, until) && until <= until'
    ensures SeenIn(h + [w], uid, id, seen, since, until')
  {
  }

  lemma EntryExtend(h: History, w: World, uid: Uid, e: Entry)
    requires EntryExact(h, uid, e)
    ensures EntryExact(h + [w], uid, e)
    ensures K(h + [w], e.from, uid) == K(h, e.from, uid) && K(h + [w], e.to, uid) == K(h, e.to, uid)
  {
    forall id | id in e.inc.ids ensures SeenIn(h + [w], uid, id, e.seen, e.since, e.to) {
      SeenInExtend(h, w, uid, id, e.seen, e.since, e.to, e.to);
    }
  }

  lemma CountersExtend(h: History, w: World, uid: Uid, p: Pod)
    requires CountersInv(h, uid, p)
    ensures CountersInv(h + [w], uid, p)
  {
    hide LogExact, LogChained, K;
    LogExtend(h, w, uid, p.aux.log);
    KExtend(h, w, uid, p.aux.firstStep);
    if p.lastRead.Some? {
      KExtend(h, w, uid, p.aux.readStep);
    }
  }

  lemma KExtend(h: History, w: World, uid: Uid, i: nat)
    requires i < |h|
    ensures K(h + [w], i, uid) == K(h, i, uid)
  {
  }

  lemma LogExtend(h: History, w: World, uid: Uid, log: seq<Entry>)
    requires LogExact(h, uid, log) && LogChained(h, uid, log)
    ensures LogExact(h + [w], uid, log) && LogChained(h + [w], uid, log)
  {
    hide EntryExact, K;
    forall k | 0 <= k < |log|
      ensures EntryExact(h + [w], uid, log[k])
      ensures K(h + [w], log[k].from, uid) == K(h, log[k].from, uid)
      ensures K(h + [w], log[k].to, uid) == K(h, log[k].to, uid)
    {
      EntryExtend(h, w, uid, log[k]);
    }
  }

  /** A record that held before the world moved on holds after it. */
  lemma PodExtend(h: History, w: World, uid: Uid, p: Pod)
    requires PodInv(h, uid, p) && WorldStep(h[|h| - 1], w)
    ensures PodInv(h + [w], uid, p)
  {
    hide CountersInv, ScopesInv, WorldStep;
    CountersBound(h, uid, p);
    CountersExtend(h, w, uid, p);
    ScopesExtend(h, w, uid, p);
    StepDead(h[|h| - 1], w, uid);
  }

  lemma StepDead(a: World, b: World, uid: Uid)
    requires WorldStep(a, b)
    ensures a.dead <= b.dead && (uid in a.pods ==> uid in b.pods || uid in b.dead)
  {
  }

  lemma ScopesExtend(h: History, w: World, uid: Uid, p: Pod)
    requires h != [] && ScopesInv(h, uid, p)
    ensures ScopesInv(h + [w], uid, p)
  {
    hide SeenIn;
    forall id | id in p.pending ensures SeenIn(h + [w], uid, id, p.aux.seen, p.aux.cleared, |h|) {
      SeenInExtend(h, w, uid, id, p.aux.seen, p.aux.cleared, |h| - 1, |h|);
    }
  }

  // ---- reading -------------------------------------------------------------

  ghost predicate ScopesSeen(h: History, uid: Uid, scopes: map<Id, Scope>, looks: set<nat>) {
    && (forall i :: i in looks ==> i < |h|)
    && forall id :: id in scopes ==> ScopeSeen(h, uid, id, scopes[id], looks)
  }

  lemma SyncedSeen(h: History, uid: Uid, scopes: map<Id, Scope>, looks: set<nat>)
    requires h != [] && ScopesSeen(h, uid, scopes, looks)
    ensures ScopesSeen(h, uid, SyncedScopes(scopes, Get(h[|h| - 1].pods, uid), |h| - 1), looks)
  {
  }

  lemma RereadSeen(h: History, uid: Uid, scopes: map<Id, Scope>, looks: set<nat>)
    requires h != [] && ScopesSeen(h, uid, scopes, looks)
    ensures ScopesSeen(h, uid, RereadScopes(scopes, Get(h[|h| - 1].pods, uid), |h| - 1), looks + {|h| - 1})
  {
    hide ScopeSeen, RereadScope, ScopeRead;
    var d := Get(h[|h| - 1].pods, uid);
    var reread := RereadScopes(scopes, d, |h| - 1);
    forall id | id in reread ensures ScopeSeen(h, uid, id, reread[id], looks + {|h| - 1}) {
      RereadOne(h, uid, id, scopes[id], looks);
    }
  }

  lemma RereadOne(h: History, uid: Uid, id: Id, s: Scope, looks: set<nat>)
    requires h != [] && ScopeSeen(h, uid, id, s, looks)
    ensures ScopeSeen(h, uid, id, RereadScope(s, ScopeRead(Get(h[|h| - 1].pods, uid), id), |h| - 1), looks + {|h| - 1})
  {
  }

  /** A container that exists at a step existed at every earlier step at which it was known. */
  lemma KnownWasPresent(h: History, uid: Uid, id: Id, i: nat, j: nat)
    requires HistoryOk(h) && i <= j < |h| && KnownAt(h[i], uid, id) && Present(h[j], uid, id)
    ensures Present(h[i], uid, id)
    ensures Leq(h[i].pods[uid].scopes[id].truth, h[j].pods[uid].scopes[id].truth)
  {
    assert h[i].dead <= h[j].dead && h[i].gone <= h[j].gone && WorldOk(h[j]);
    assert uid in h[i].pods;
    assert ScopesStep(h[i], h[j], uid);
  }

  /** A container that a read finds risen was really seen to rise: above what the record last
      read of it and above the baseline the record took when it adopted the container. */
  lemma RisenRose(h: History, n: nat, uid: Uid, scopes: map<Id, Scope>, looks: set<nat>, id: Id, s: Scope)
    requires |h| == n + 1 && id in scopes && s == scopes[id] && id in Risen(scopes, Get(h[n].pods, uid))
    requires HistoryOk(h) && ScopesSeen(h, uid, scopes, looks)
    ensures SightingTrue(h, uid, id, Sighting(s.adopted, s.step, n))
    ensures UnreadBetween(h, uid, id, looks + {n}, s.step, n)
  {
    hide HistoryOk;
    KnownWasPresent(h, uid, id, s.adopted, n);
    KnownWasPresent(h, uid, id, s.step, n);
    KnownWasPresent(h, uid, id, s.adopted, s.step);
  }

  lemma ScopesReadInv(h: History, uid: Uid, p: Pod)
    requires HistoryOk(h) && h != [] && ScopesInv(h, uid, p)
    ensures ScopesInv(h, uid, WithScopesRead(p, Get(h[|h| - 1].pods, uid), |h| - 1))
  {
    hide SyncedScopes, RereadScopes, Risen, SightingTrue, ScopeSeen, HistoryOk;
    var n := |h| - 1;
    var d := Get(h[n].pods, uid);
    var synced := SyncedScopes(p.scopes, d, n);
    var looks := p.aux.seen.looks;
    SyncedSeen(h, uid, p.scopes, looks);
    RereadSeen(h, uid, synced, looks);
    RisenTracked(synced, d);
    forall id | id in Risen(synced, d)
      ensures SightingTrue(h, uid, id, Sighting(synced[id].adopted, synced[id].step, n))
      ensures UnreadBetween(h, uid, id, looks + {n}, synced[id].step, n)
    {
      RisenRose(h, n, uid, synced, looks, id, synced[id]);
    }
    forall id | id in p.pending && id !in Risen(synced, d)
      ensures SeenIn(h, uid, id, Looked(p.aux.seen, Sightings(synced, Risen(synced, d), n), n), p.aux.cleared, n)
    {
      SeenStill(h, uid, id, p.aux.seen, Sightings(synced, Risen(synced, d), n), p.aux.cleared);
    }
  }

  lemma SeenStill(h: History, uid: Uid, id: Id, seen: Sights, rises: map<Id, Sighting>, since: nat)
    requires h != [] && SeenIn(h, uid, id, seen, since, |h| - 1) && id !in rises
    ensures SeenIn(h, uid, id, Looked(seen, rises, |h| - 1), since, |h| - 1)
  {
    hide SightingTrue, Readable;
  }

  lemma RisenTracked(scopes: map<Id, Scope>, d: Option<PodDir>)
    ensures Risen(scopes, d) <= scopes.Keys
  {
  }

  /** The counters' invariant does not look at containers, watches or removal. */
  lemma CountersFrame(h: History, uid: Uid, p: Pod, q: Pod)
    requires CountersInv(h, uid, p)
    requires q.firstSeen == p.firstSeen && q.lastRead == p.lastRead && q.counters == p.counters
    requires q.increases == p.increases && q.aux == p.aux.(seen := q.aux.seen)
    ensures CountersInv(h, uid, q)
  {
  }

  lemma IncsAppend(log: seq<Entry>, e: Entry)
    ensures LastN(LastN(Incs(log), MAX_INCREASES) + [e.inc], MAX_INCREASES)
         == LastN(Incs(log + [e]), MAX_INCREASES)
  {
    assert Incs(log + [e]) == Incs(log) + [e.inc];
  }

  /** Appending one exact, later increase keeps a chained log chained. */
  lemma ChainAppend(h: History, uid: Uid, log: seq<Entry>, e: Entry)
    requires LogExact(h, uid, log)
    requires LogChained(h, uid, log) && EntryExact(h, uid, e)
    requires log == [] ==> e.inc.after == 0 || K(h, e.from, uid) == ZERO
    requires log != [] ==>
               var l := log[|log| - 1];
               && l.to <= e.from && l.inc.at <= e.inc.after && e.inc.after != 0
               && l.since <= e.since && (l.inc.ids != {} ==> l.to <= e.since)
               && K(h, l.to, uid) == K(h, e.from, uid)
    ensures LogExact(h, uid, log + [e]) && LogChained(h, uid, log + [e])
  {
    hide EntryExact, K;
    var g := log + [e];
    assert forall k :: 0 <= k < |log| ==> g[k] == log[k];
    forall k | 0 < k < |g|
      ensures g[k - 1].to <= g[k].from && g[k - 1].inc.at <= g[k].inc.after && g[k].inc.after != 0
      ensures g[k - 1].since <= g[k].since && (g[k - 1].inc.ids != {} ==> g[k - 1].to <= g[k].since)
      ensures K(h, g[k - 1].to, uid) == K(h, g[k].from, uid)
    {
      if k < |log| {
        assert g[k - 1] == log[k - 1] && g[k] == log[k];
      }
    }
  }

  lemma LogTotal(h: History, uid: Uid, log: seq<Entry>)
    requires log != []
    requires LogExact(h, uid, log)
    requires LogChained(h, uid, log)
    ensures Sum(log) == K(h, log[|log| - 1].to, uid)
  {
    var n := |log| - 1;
    var front := log[..n];
    assert EntryExact(h, uid, log[n]);
    if n > 0 {
      assert forall k :: 0 <= k < |front| ==> front[k] == log[k];
      LogTotal(h, uid, front);
    } else {
      assert Sum(front) == ZERO;
    }
  }

  /** Recording an exact increase whose end the counters have reached. */
  lemma RecordedInv(h: History, uid: Uid, p: Pod, e: Entry, q: Pod)
    requires CountersInv(h, uid, p) && EntryExact(h, uid, e)
    requires p.lastRead.Some? || p.aux.log == []
    requires p.aux.log == [] ==> e.inc.after == 0 || K(h, e.from, uid) == ZERO
    requires e.inc.after == 0 ==> e.to == p.aux.firstStep
    requires p.aux.log != [] ==> e.from == p.aux.readStep && e.inc.after == p.lastRead.value
    requires HistoryOk(h) && e.to < |h| && p.aux.firstStep <= e.to && uid in h[p.aux.firstStep].pods
    requires q.firstSeen == p.firstSeen && q.lastRead == Some(h[e.to].now)
    requires q.counters == K(h, e.to, uid)
    requires q.increases == LastN(p.increases + [e.inc], MAX_INCREASES)
    requires e.since == p.aux.cleared
    requires q.aux == Aux(p.aux.firstStep, e.to, p.aux.log + [e], q.aux.cleared, q.aux.seen)
    requires q.aux.cleared == e.to || (q.aux.cleared == p.aux.cleared && e.inc.ids == {})
    ensures CountersInv(h, uid, q)
  {
    hide LogExact, LogChained, K, Sum, Incs;
    var log := p.aux.log;
    if log != [] {
      LogTotal(h, uid, log);
      LastEntry(h, uid, log);
    }
    assert e.from <= e.to && e.inc.after <= e.inc.at by { assert EntryExact(h, uid, e); }
    ChainAppend(h, uid, log, e);
    LogTotal(h, uid, log + [e]);
    IncsAppend(log, e);
    ChainHead(h, uid, log, e);
  }

  lemma LastEntry(h: History, uid: Uid, log: seq<Entry>)
    requires log != [] && LogExact(h, uid, log)
    ensures var l := log[|log| - 1]; l.to < |h| && l.inc.at == h[l.to].now
  {
    assert EntryExact(h, uid, log[|log| - 1]);
  }

  lemma ChainHead(h: History, uid: Uid, log: seq<Entry>, e: Entry)
    requires LogExact(h, uid, log + [e])
    ensures (log + [e])[0] == if log == [] then e else log[0]
    ensures (log + [e])[|log|] == e
  {
  }

  /** A read that finds the counters where they were only moves the read forward. */
  lemma QuietReadInv(h: History, uid: Uid, p: Pod, q: Pod)
    requires HistoryOk(h) && h != [] && CountersInv(h, uid, p)
    requires p.aux.firstStep < |h| && uid in h[p.aux.firstStep].pods && uid in h[|h| - 1].pods
    requires K(h, |h| - 1, uid) == p.counters
    requires q == p.(lastRead := Some(h[|h| - 1].now), aux := p.aux.(readStep := |h| - 1))
    ensures CountersInv(h, uid, q)
  {
  }

  /** The increase a read records is exact. */
  lemma ReadEntryExact(h: History, uid: Uid, p: Pod, e: Entry)
    requires HistoryOk(h) && h != [] && CountersInv(h, uid, p) && ScopesInv(h, uid, p)
    requires uid in h[|h| - 1].pods
    requires e.to == |h| - 1 && e.inc.at == h[e.to].now && e.since == p.aux.cleared && e.seen == p.aux.seen
    requires p.lastRead.None? ==>
               && e.from == p.aux.firstStep && e.inc.after == p.firstSeen && e.inc.ids == {}
               && e.inc.delta == K(h, e.to, uid) && e.inc.delta != ZERO
    requires p.lastRead.Some? ==>
               && e.from == p.aux.readStep && e.inc.after == p.lastRead.value && e.inc.ids == p.pending
               && Rose(p.counters, K(h, e.to, uid)) && e.inc.delta == Minus(K(h, e.to, uid), p.counters)
    ensures EntryExact(h, uid, e)
  {
    hide HistoryOk, CountersInv, ScopesInv, EntryExact, SeenIn, K;
    LastReadFacts(h, uid, p);
    if p.lastRead.Some? {
      PendingSeen(h, uid, p);
    }
    SpanExact(h, uid, e);
  }

  /** What the counters' invariant says of the last read, or of the first sight if there is none. */
  lemma LastReadFacts(h: History, uid: Uid, p: Pod)
    requires CountersInv(h, uid, p)
    ensures p.aux.cleared < |h|
    ensures p.lastRead.None? ==>
              p.aux.firstStep < |h| && p.firstSeen == h[p.aux.firstStep].now && K(h, p.aux.firstStep, uid) == ZERO
    ensures p.lastRead.Some? ==>
              p.aux.readStep < |h| && p.lastRead.value == h[p.aux.readStep].now && p.counters == K(h, p.aux.readStep, uid)
  {
    hide LogExact, LogChained, Sum, Incs, K;
  }

  lemma PendingSeen(h: History, uid: Uid, p: Pod)
    requires h != [] && ScopesInv(h, uid, p)
    ensures forall id :: id in p.pending ==> SeenIn(h, uid, id, p.aux.seen, p.aux.cleared, |h| - 1)
  {
    hide SeenIn;
  }

  /** An increase over the stretch between two steps, with the rise of the kernel's counters. */
  lemma SpanExact(h: History, uid: Uid, e: Entry)
    requires HistoryOk(h) && e.from <= e.to < |h| && uid in h[e.to].pods && e.since <= e.to
    requires e.inc.after == h[e.from].now && e.inc.at == h[e.to].now
    requires e.inc.delta == Minus(K(h, e.to, uid), K(h, e.from, uid)) != ZERO
    requires forall id :: id in e.inc.ids ==> SeenIn(h, uid, id, e.seen, e.since, e.to)
    ensures EntryExact(h, uid, e)
  {
    hide SeenIn, K;
    KMonotone(h, e.from, e.to, uid);
    assert WorldOk(h[e.from]);
    assert h[e.from].now <= h[e.to].now;
  }

  /** A read that records an increase keeps the counters' invariant. */
  lemma RisingReadInv(h: History, uid: Uid, p: Pod, e: Entry, q: Pod)
    requires HistoryOk(h) && h != [] && CountersInv(h, uid, p) && ScopesInv(h, uid, p)
    requires p.aux.firstStep < |h| && uid in h[p.aux.firstStep].pods && uid in h[|h| - 1].pods
    requires e.to == |h| - 1 && e.inc.at == h[e.to].now
    requires p.lastRead.None? ==>
               && e.from == p.aux.firstStep && e.inc.after == p.firstSeen && e.inc.ids == {}
               && e.inc.delta == K(h, e.to, uid) && e.inc.delta != ZERO
    requires p.lastRead.Some? ==>
               && e.from == p.aux.readStep && e.inc.after == p.lastRead.value && e.inc.ids == p.pending
               && Rose(p.counters, K(h, e.to, uid)) && e.inc.delta == Minus(K(h, e.to, uid), p.counters)
    requires q.firstSeen == p.firstSeen && q.lastRead == Some(h[e.to].now)
    requires q.counters == K(h, e.to, uid)
    requires q.increases == LastN(p.increases + [e.inc], MAX_INCREASES)
    requires e.since == p.aux.cleared && e.seen == p.aux.seen
    requires q.aux == Aux(p.aux.firstStep, e.to, p.aux.log + [e], if p.lastRead.None? then p.aux.cleared else e.to, p.aux.seen)
    ensures CountersInv(h, uid, q)
  {
    ReadEntryExact(h, uid, p, e);
    assert e.inc.after > 0 by {
      assert WorldOk(h[e.from]);
    }
    RecordedInv(h, uid, p, e, q);
  }

  /** Reading the pod's counters keeps their invariant: the case that records. */
  lemma RisingCase(h: History, uid: Uid, p: Pod)
    requires HistoryOk(h) && h != [] && CountersInv(h, uid, p) && ScopesInv(h, uid, p)
    requires p.aux.firstStep < |h| && uid in h[p.aux.firstStep].pods
    requires uid in h[|h| - 1].pods && h[|h| - 1].pods[uid].readable
    requires var c := h[|h| - 1].pods[uid].truth;
             if p.lastRead.None? then c != ZERO else Rose(p.counters, c)
    ensures CountersInv(h, uid, WithCountersRead(p, Some(h[|h| - 1].pods[uid]), h[|h| - 1].now, |h| - 1))
  {
    hide CountersInv, ScopesInv, HistoryOk;
    var n := |h| - 1;
    var now := h[n].now;
    var c := h[n].pods[uid].truth;
    var q := WithCountersRead(p, Some(h[n].pods[uid]), now, n);
    var e := if p.lastRead.None? then Entry(Increase(p.firstSeen, now, c, {}), p.aux.firstStep, n, p.aux.cleared, p.aux.seen)
             else Entry(Increase(p.lastRead.value, now, Minus(c, p.counters), p.pending), p.aux.readStep, n, p.aux.cleared, p.aux.seen);
    RisingReadInv(h, uid, p, e, q);
  }

  /** Reading the pod's counters keeps their invariant: the case that finds no rise. */
  lemma QuietCase(h: History, uid: Uid, p: Pod)
    requires HistoryOk(h) && h != [] && CountersInv(h, uid, p)
    requires p.aux.firstStep < |h| && uid in h[p.aux.firstStep].pods
    requires uid in h[|h| - 1].pods && h[|h| - 1].pods[uid].readable
    requires var c := h[|h| - 1].pods[uid].truth;
             if p.lastRead.None? then c == ZERO else !Rose(p.counters, c)
    ensures CountersInv(h, uid, WithCountersRead(p, Some(h[|h| - 1].pods[uid]), h[|h| - 1].now, |h| - 1))
  {
    hide HistoryOk, LogExact, LogChained, Incs;
    var n := |h| - 1;
    if p.lastRead.Some? {
      KMonotone(h, p.aux.readStep, n, uid);
    }
    QuietReadInv(h, uid, p, WithCountersRead(p, Some(h[n].pods[uid]), h[n].now, n));
  }

  lemma CountersReadInv(h: History, uid: Uid, p: Pod)
    requires HistoryOk(h) && h != [] && CountersInv(h, uid, p) && ScopesInv(h, uid, p)
    requires p.aux.firstStep < |h| && (uid in h[p.aux.firstStep].pods || uid !in h[|h| - 1].pods)
    ensures CountersInv(h, uid, WithCountersRead(p, Get(h[|h| - 1].pods, uid), h[|h| - 1].now, |h| - 1))
  {
    hide CountersInv, ScopesInv, HistoryOk;
    var w := h[|h| - 1];
    if uid !in w.pods || !w.pods[uid].readable {
      CountersFrame(h, uid, p, WithCountersRead(p, Get(w.pods, uid), w.now, |h| - 1));
    } else if (p.lastRead.None? && w.pods[uid].truth != ZERO) || (p.lastRead.Some? && Rose(p.counters, w.pods[uid].truth)) {
      RisingCase(h, uid, p);
    } else {
      QuietCase(h, uid, p);
    }
  }

  lemma ReadPodScopes(h: History, uid: Uid, p: Pod)
    requires HistoryOk(h) && h != [] && ScopesInv(h, uid, p)
    ensures ScopesInv(h, uid, ReadPod(p, Get(h[|h| - 1].pods, uid), h[|h| - 1].now, |h| - 1))
  {
    hide WithScopesRead, HistoryOk;
    ScopesReadInv(h, uid, p);
    var d := Get(h[|h| - 1].pods, uid);
    ReadScopesOnly(WithScopesRead(p, d, |h| - 1), d, h[|h| - 1].now, |h| - 1);
  }

  /** Reading the pod's own counters leaves the containers alone and at most clears the
      pending ones, noting the step. */
  lemma ReadScopesOnly(p: Pod, d: Option<PodDir>, now: Time, step: nat)
    ensures var q := WithCountersRead(p, d, now, step);
            && q.scopes == p.scopes
            && q.aux.seen == p.aux.seen
            && ((q.pending == p.pending && q.aux.cleared == p.aux.cleared) || (q.pending == {} && q.aux.cleared == step))
  {
  }

  lemma ReadPodCounters(h: History, uid: Uid, p: Pod)
    requires HistoryOk(h) && h != [] && CountersInv(h, uid, p) && ScopesInv(h, uid, p)
    requires p.aux.firstStep < |h| && (uid in h[p.aux.firstStep].pods || uid !in h[|h| - 1].pods)
    ensures CountersInv(h, uid, ReadPod(p, Get(h[|h| - 1].pods, uid), h[|h| - 1].now, |h| - 1))
  {
    var r := WithScopesRead(p, Get(h[|h| - 1].pods, uid), |h| - 1);
    ScopesReadInv(h, uid, p);
    CountersFrame(h, uid, p, r);
    CountersReadInv(h, uid, r);
  }

  /** A read keeps the invariant of the pod's record. */
  lemma ReadPodInv(h: History, uid: Uid, p: Pod)
    requires HistoryOk(h) && PodInv(h, uid, p)
    ensures PodInv(h, uid, ReadPod(p, Get(h[|h| - 1].pods, uid), h[|h| - 1].now, |h| - 1))
  {
    hide CountersInv, ScopesInv, HistoryOk, ReadPod, WorldOk;
    var w := h[|h| - 1];
    HistoryWorld(h, |h| - 1);
    CountersBound(h, uid, p);
    AliveOrDead(w, uid);
    ReadPodScopes(h, uid, p);
    ReadPodCounters(h, uid, p);
    ReadPodFrame(p, Get(w.pods, uid), w.now, |h| - 1);
  }

  lemma CountersBound(h: History, uid: Uid, p: Pod)
    requires CountersInv(h, uid, p)
    ensures p.aux.firstStep < |h|
  {
  }

  lemma AliveOrDead(w: World, uid: Uid)
    requires WorldOk(w)
    ensures !(uid in w.pods && uid in w.dead)
  {
  }

  /** Changes to containers, watches and the removal mark keep the invariant when what
      they leave is true. */
  lemma PodFrame(h: History, uid: Uid, p: Pod, q: Pod)
    requires PodInv(h, uid, p)
    requires q.firstSeen == p.firstSeen && q.lastRead == p.lastRead && q.counters == p.counters
    requires q.increases == p.increases && q.aux == p.aux && q.pending == p.pending
    requires forall id :: id in q.scopes ==>
               (id in p.scopes && q.scopes[id] == p.scopes[id]) ||
               ScopeSeen(h, uid, id, q.scopes[id], p.aux.seen.looks)
    requires q.removed == p.removed || (q.removed.Some? ==> uid in h[|h| - 1].dead)
    ensures PodInv(h, uid, q)
  {
    hide CountersInv, SeenIn, ScopeSeen;
    CountersBound(h, uid, p);
    CountersFrame(h, uid, p, q);
  }

  lemma FewerScopesInv(h: History, uid: Uid, p: Pod, q: Pod)
    requires PodInv(h, uid, p) && q == p.(scopes := q.scopes)
    requires forall id :: id in q.scopes ==> id in p.scopes && q.scopes[id] == p.scopes[id]
    ensures PodInv(h, uid, q)
  {
    PodFrame(h, uid, p, q);
  }

  lemma WatchesChangedInv(h: History, uid: Uid, w: World, p: Pod, q: Pod)
    requires PodInv(h, uid, p) && h[|h| - 1] == w && q == p.(wds := q.wds, removed := q.removed)
    requires q.removed == p.removed || uid !in w.pods
    ensures PodInv(h, uid, q)
  {
    PodFrame(h, uid, p, q);
  }

  lemma NewScopeInv(h: History, uid: Uid, p: Pod, id: Id)
    requires h != [] && PodInv(h, uid, p) && KnownAt(h[|h| - 1], uid, id)
    ensures var w := h[|h| - 1];
            var d := if uid in w.pods then Get(w.pods[uid].scopes, id) else None;
            PodInv(h, uid, p.(scopes := p.scopes[id := AdoptedScope(d, |h| - 1)]))
  {
    hide PodInv;
    var w := h[|h| - 1];
    var d := if uid in w.pods then Get(w.pods[uid].scopes, id) else None;
    PodFrame(h, uid, p, p.(scopes := p.scopes[id := AdoptedScope(d, |h| - 1)]));
  }

  /** A live record whose cgroup is gone may be marked removed. */
  lemma VanishedInv(h: History, uid: Uid, p: Pod, q: Pod)
    requires PodInv(h, uid, p) && uid !in h[|h| - 1].pods
    requires q == p || exists t :: q == p.(removed := Some(t))
    ensures PodInv(h, uid, q)
  {
    CountersFrame(h, uid, p, q);
  }

  /** Reading leaves a live pod's removal mark and its watches alone. */
  lemma ReadPodFrame(p: Pod, d: Option<PodDir>, now: Time, step: nat)
    ensures ReadPod(p, d, now, step).wds == p.wds
    ensures ReadPod(p, d, now, step).aux.firstStep == p.aux.firstStep
    ensures d.Some? ==> ReadPod(p, d, now, step).removed == p.removed
    ensures d.None? ==> ReadPod(p, d, now, step).removed.Some?
    ensures p.removed.Some? ==> ReadPod(p, d, now, step).removed == p.removed
  {
  }

  /** What a record says of a pod whose directory was just looked at. */
  predicate Current(p: Pod, d: PodDir, now: Time) {
    p.removed.None? && (d.readable ==> p.lastRead == Some(now) && p.counters == d.truth)
  }

  lemma FreshPodFrame(d: Option<PodDir>, since: Time, sinceStep: nat, now: Time, step: nat)
    ensures d.Some? <==> FreshPod(d, since, sinceStep, now, step).removed.None?
    ensures d.Some? ==> Current(FreshPod(d, since, sinceStep, now, step), d.value, now)
  {
  }

  /** After a read the record holds the kernel's counters of now. */
  lemma ReadPodCurrent(p: Pod, d: PodDir, now: Time, step: nat)
    requires p.removed.None?
    ensures Current(ReadPod(p, Some(d), now, step), d, now)
  {
  }

  /** A record that has not recorded anything yet. */
  lemma EmptyCounters(h: History, uid: Uid, p: Pod)
    requires p.aux.log == [] && p.increases == [] && p.counters == ZERO && p.aux.cleared < |h|
    requires p.aux.firstStep < |h| && p.firstSeen == h[p.aux.firstStep].now && K(h, p.aux.firstStep, uid) == ZERO
    requires p.lastRead.Some? ==>
               && p.aux.readStep == p.aux.firstStep && uid in h[p.aux.firstStep].pods
               && p.lastRead.value == p.firstSeen
    ensures CountersInv(h, uid, p)
  {
    assert Incs([]) == [];
  }

  /** A record that adoption gives its first increase. */
  lemma FirstCounters(h: History, uid: Uid, p: Pod, e: Entry)
    requires EntryExact(h, uid, e) && (e.inc.after == 0 || K(h, e.from, uid) == ZERO)
    requires e.inc.ids == {} && e.since == e.to && p.aux == Aux(e.to, e.to, [e], e.to, p.aux.seen) && p.increases == [e.inc] && p.counters == K(h, e.to, uid)
    requires p.firstSeen == h[e.to].now && p.lastRead == Some(p.firstSeen)
    ensures CountersInv(h, uid, p)
  {
    assert Incs([e]) == [e.inc];
    assert Sum([e][..0]) == ZERO;
  }

  /** Adoption establishes the invariant. Before the first rescan ended nothing is known
      of the time before; afterwards the pod did not exist at the last rescan. A pod
      whose counters cannot be read yet has counted nothing. */
  lemma FreshPodInv(h: History, uid: Uid, since: Time, sinceStep: nat)
    requires HistoryOk(h) && h != []
    requires uid in h[|h| - 1].pods || uid in h[|h| - 1].dead
    requires uid in h[|h| - 1].pods && !h[|h| - 1].pods[uid].readable ==> h[|h| - 1].pods[uid].truth == ZERO
    requires since != 0 && uid in h[|h| - 1].pods ==>
               sinceStep < |h| && h[sinceStep].now == since && uid !in h[sinceStep].pods
    ensures PodInv(h, uid, FreshPod(Get(h[|h| - 1].pods, uid), since, sinceStep, h[|h| - 1].now, |h| - 1))
  {
    hide CountersInv, ScopesInv, HistoryOk, FreshPod;
    var n := |h| - 1;
    var d := Get(h[n].pods, uid);
    var p := FreshPod(d, since, sinceStep, h[n].now, n);
    assert WorldOk(h[n]) by { HistoryWorld(h, n); }
    FreshPodFrame(d, since, sinceStep, h[n].now, n);
    FreshPodCounters(h, uid, since, sinceStep);
    FreshPodScopes(h, uid, since, sinceStep);
  }

  lemma HistoryWorld(h: History, n: nat)
    requires HistoryOk(h) && n < |h|
    ensures WorldOk(h[n])
  {
  }

  lemma FreshPodScopes(h: History, uid: Uid, since: Time, sinceStep: nat)
    requires h != []
    ensures ScopesInv(h, uid, FreshPod(Get(h[|h| - 1].pods, uid), since, sinceStep, h[|h| - 1].now, |h| - 1))
    ensures FreshPod(Get(h[|h| - 1].pods, uid), since, sinceStep, h[|h| - 1].now, |h| - 1).aux.firstStep == |h| - 1
  {
    hide SyncedScopes, ScopeSeen;
    SyncedSeen(h, uid, map[], {});
  }

  lemma FreshPodCounters(h: History, uid: Uid, since: Time, sinceStep: nat)
    requires HistoryOk(h) && h != []
    requires uid in h[|h| - 1].pods && !h[|h| - 1].pods[uid].readable ==> h[|h| - 1].pods[uid].truth == ZERO
    requires since != 0 && uid in h[|h| - 1].pods ==>
               sinceStep < |h| && h[sinceStep].now == since && uid !in h[sinceStep].pods
    ensures CountersInv(h, uid, FreshPod(Get(h[|h| - 1].pods, uid), since, sinceStep, h[|h| - 1].now, |h| - 1))
  {
    hide CountersInv, LogExact, LogChained;
    var n := |h| - 1;
    var now := h[n].now;
    var d := Get(h[n].pods, uid);
    var p := FreshPod(d, since, sinceStep, now, n);
    if d.Some? && d.value.readable && d.value.truth != ZERO {
      var e := Entry(Increase(since, now, d.value.truth, {}), if since == 0 then n else sinceStep, n, n, Sights(map[], {}));
      assert [] + [e] == [e] && [] + [e.inc] == [e.inc];
      assert EntryExact(h, uid, e);
      FirstCounters(h, uid, p, e);
    } else {
      EmptyCounters(h, uid, p);
    }
  }

  // ---- which containers a read names ---------------------------------------

  /** The container is tracked, can be read now, and one of its two kill counters is above what it
      was at the last step at which a read of the record could read it, or at its adoption. */
  ghost predicate RoseSinceLastRead(h: History, uid: Uid, p: Pod, id: Id)
    requires h != []
  {
    id in p.scopes && Readable(h[|h| - 1], uid, id) &&
    exists i: nat ::
      LastSeen(h, uid, id, p.scopes[id].adopted, p.aux.seen.looks, i) &&
      (h[|h| - 1].pods[uid].scopes[id].truth.kill > SeenScope(h[i], uid, id).kill ||
       h[|h| - 1].pods[uid].scopes[id].truth.group > SeenScope(h[i], uid, id).group)
  }

  lemma LastSeenOnce(h: History, uid: Uid, id: Id, adopted: nat, looks: set<nat>, i: nat, j: nat)
    requires LastSeen(h, uid, id, adopted, looks, i) && LastSeen(h, uid, id, adopted, looks, j)
    ensures i == j
  {
  }

  /** The containers the read finds risen are just those. */
  lemma RisenIff(h: History, uid: Uid, p: Pod, id: Id)
    requires h != [] && ScopesInv(h, uid, p)
    ensures var d := Get(h[|h| - 1].pods, uid);
            id in Risen(SyncedScopes(p.scopes, d, |h| - 1), d) <==> RoseSinceLastRead(h, uid, p, id)
  {
    hide LastSeen, SeenIn;
    if id in p.scopes {
      var s := p.scopes[id];
      assert ScopeSeen(h, uid, id, s, p.aux.seen.looks);
      forall i: nat | LastSeen(h, uid, id, s.adopted, p.aux.seen.looks, i) ensures i == s.step {
        LastSeenOnce(h, uid, id, s.adopted, p.aux.seen.looks, i, s.step);
      }
    }
  }

  /** After a read the tracked containers are those there are, as far as they could be listed, and
      the counters kept of each are the kernel's of now if they can be read, else the ones kept
      before. */
  lemma ReadScopesExact(p: Pod, w: World, uid: Uid, step: nat)
    ensures var q := ReadPod(p, Get(w.pods, uid), w.now, step);
            && q.aux.seen.looks == p.aux.seen.looks + {step}
            && (forall id :: id in q.scopes <==> Present(w, uid, id) && (id in p.scopes || w.pods[uid].listable))
            && (forall id :: id in q.scopes && Readable(w, uid, id) ==> q.scopes[id].counters == w.pods[uid].scopes[id].truth)
            && (forall id :: id in q.scopes && id in p.scopes && !Readable(w, uid, id) ==> q.scopes[id] == p.scopes[id])
            && (forall id :: id in q.scopes && id !in p.scopes && !Readable(w, uid, id) ==> q.scopes[id].counters == ZERO)
            && (forall id :: id in q.scopes ==> q.scopes[id].adopted == if id in p.scopes then p.scopes[id].adopted else step)
  {
    var d := Get(w.pods, uid);
    ReadScopesOnly(WithScopesRead(p, d, step), d, w.now, step);
  }

  /** The pod's own counters are above what the record has of them. */
  predicate PodRose(w: World, uid: Uid, p: Pod) {
    && uid in w.pods && w.pods[uid].readable && p.lastRead.Some?
    && (w.pods[uid].truth.oom > p.counters.oom || w.pods[uid].truth.kill > p.counters.kill
        || w.pods[uid].truth.group > p.counters.group)
  }

  /** A read that finds the pod risen records an increase that names exactly the containers pending
      and those that rose since their last read, and nothing is pending then; any other read leaves
      just those pending, and names none. */
  lemma ReadNames(h: History, uid: Uid, p: Pod)
    requires HistoryOk(h) && PodInv(h, uid, p)
    ensures var w := h[|h| - 1];
            var q := ReadPod(p, Get(w.pods, uid), w.now, |h| - 1);
            && (PodRose(w, uid, p) ==>
                  && q.pending == {} && q.increases != []
                  && forall id :: id in Last(q.increases).ids <==> id in p.pending || RoseSinceLastRead(h, uid, p, id))
            && (!PodRose(w, uid, p) ==>
                  && (forall id :: id in q.pending <==> id in p.pending || RoseSinceLastRead(h, uid, p, id))
                  && (q.increases == p.increases || (q.increases != [] && Last(q.increases).ids == {})))
  {
    hide HistoryOk, CountersInv, ScopesInv, RoseSinceLastRead, Risen, SyncedScopes, RereadScopes, Sightings;
    var d, n := Get(h[|h| - 1].pods, uid), |h| - 1;
    forall id ensures id in Risen(SyncedScopes(p.scopes, d, n), d) <==> RoseSinceLastRead(h, uid, p, id) {
      RisenIff(h, uid, p, id);
    }
  }

  /** The record after a read at the last step of `h`. */
  function AfterRead(h: History, uid: Uid, p: Pod): Pod
    requires h != []
  {
    ReadPod(p, Get(h[|h| - 1].pods, uid), h[|h| - 1].now, |h| - 1)
  }

  /** The record before each of a number of reads in turn, with the history up to that read. What
      happens to it in between leaves what is pending alone. */
  ghost predicate ReadsInTurn(uid: Uid, hs: seq<History>, ps: seq<Pod>) {
    && |hs| == |ps|
    && (forall k :: 0 <= k < |ps| ==> HistoryOk(hs[k]) && PodInv(hs[k], uid, ps[k]))
    && forall k :: 0 < k < |ps| ==> ps[k].pending == AfterRead(hs[k - 1], uid, ps[k - 1]).pending
  }

  /** The read numbered `k` finds the pod itself risen. */
  ghost predicate FindsPodRisen(uid: Uid, hs: seq<History>, ps: seq<Pod>, k: nat)
    requires ReadsInTurn(uid, hs, ps) && k < |ps|
  {
    PodRose(hs[k][|hs[k]| - 1], uid, ps[k])
  }

  ghost predicate FindsRisen(uid: Uid, hs: seq<History>, ps: seq<Pod>, k: nat, id: Id)
    requires ReadsInTurn(uid, hs, ps) && k < |ps|
  {
    RoseSinceLastRead(hs[k], uid, ps[k], id)
  }

  lemma {:induction false} PendingGathers(uid: Uid, hs: seq<History>, ps: seq<Pod>, k: nat, id: Id)
    requires ReadsInTurn(uid, hs, ps) && k < |ps|
    requires forall j: nat :: j < k ==> !FindsPodRisen(uid, hs, ps, j)
    ensures id in ps[k].pending <==> id in ps[0].pending || exists j: nat :: j < k && FindsRisen(uid, hs, ps, j, id)
  {
    hide HistoryOk, PodInv, RoseSinceLastRead, PodRose, ReadPod;
    if k > 0 {
      PendingGathers(uid, hs, ps, k - 1, id);
      assert !FindsPodRisen(uid, hs, ps, k - 1);
      HasLast(hs[k - 1], uid, ps[k - 1]);
      ReadNames(hs[k - 1], uid, ps[k - 1]);
      assert FindsRisen(uid, hs, ps, k - 1, id) <==> RoseSinceLastRead(hs[k - 1], uid, ps[k - 1], id);
    }
  }

  lemma HasLast(h: History, uid: Uid, p: Pod)
    requires PodInv(h, uid, p)
    ensures h != []
  {
  }

  /** Over any number of reads up to the next that finds the pod risen, the increase that one records
      names exactly what was pending at first and every container that any of the reads found above
      its own last read. */
  lemma EveryRiseIsNamed(uid: Uid, hs: seq<History>, ps: seq<Pod>, m: nat, id: Id)
    requires ReadsInTurn(uid, hs, ps) && |ps| == m + 1
    requires FindsPodRisen(uid, hs, ps, m) && forall j: nat :: j < m ==> !FindsPodRisen(uid, hs, ps, j)
    ensures hs[m] != [] && var q := AfterRead(hs[m], uid, ps[m]);
            && q.pending == {} && q.increases != []
            && (id in Last(q.increases).ids <==>
                  id in ps[0].pending || exists j: nat :: j <= m && FindsRisen(uid, hs, ps, j, id))
  {
    hide HistoryOk, PodInv, RoseSinceLastRead, PodRose, ReadPod;
    HasLast(hs[m], uid, ps[m]);
    PendingGathers(uid, hs, ps, m, id);
    ReadNames(hs[m], uid, ps[m]);
    assert FindsRisen(uid, hs, ps, m, id) <==> RoseSinceLastRead(hs[m], uid, ps[m], id);
  }

  // ---- what the published record proves ------------------------------------

  /** The published counters are the sum of every rise ever recorded, and the published
      increases are the last sixteen of them: each exact, in order, without overlap. */
  ghost predicate PublishedRight(h: History, uid: Uid, log: seq<Entry>, increases: seq<Increase>, counters: Counters) {
    && counters == Sum(log)
    && |increases| == (if |log| <= 16 then |log| else 16)
    && (forall k :: 0 <= k < |increases| ==>
          increases[k] == log[|log| - |increases| + k].inc && EntryExact(h, uid, log[|log| - |increases| + k]))
    && (forall k :: 0 < k < |increases| ==> increases[k - 1].at <= increases[k].after)
    && (forall k, l :: 0 <= k < l < |log| && log[k].inc.ids != {} ==> log[k].to <= log[l].since)
  }

  lemma PublishedIsRight(h: History, uid: Uid, p: Pod)
    requires PodInv(h, uid, p)
    ensures PublishedRight(h, uid, p.aux.log, p.increases, p.counters)
  {
    hide ScopesInv, K;
    LogPublished(h, uid, p.aux.log, p.increases);
  }

  lemma LogPublished(h: History, uid: Uid, log: seq<Entry>, increases: seq<Increase>)
    requires LogExact(h, uid, log) && LogChained(h, uid, log) && increases == LastN(Incs(log), MAX_INCREASES)
    ensures PublishedRight(h, uid, log, increases, Sum(log))
  {
    hide EntryExact, K, Sum, LastN, Incs, LogChained;
    TailOfLog(log, increases);
    var skip := |log| - |increases|;
    forall k | 0 < k < |increases| ensures increases[k - 1].at <= increases[k].after {
      ChainedAt(h, uid, log, skip + k);
      assert increases[k - 1] == log[skip + (k - 1)].inc;
    }
    forall k, l | 0 <= k < l < |log| && log[k].inc.ids != {} ensures log[k].to <= log[l].since {
      NamedOnce(h, uid, log, k, l);
    }
  }

  /** A container named for a rise is not named again for what was seen up to then. */
  lemma {:induction false} NamedOnce(h: History, uid: Uid, log: seq<Entry>, k: nat, l: nat)
    requires LogChained(h, uid, log) && k < l < |log| && log[k].inc.ids != {}
    ensures log[k].to <= log[l].since
  {
    hide K;
    if k + 1 < l {
      NamedOnce(h, uid, log, k, l - 1);
    }
  }

  lemma TailOfLog(log: seq<Entry>, increases: seq<Increase>)
    requires increases == LastN(Incs(log), MAX_INCREASES)
    ensures |increases| == if |log| <= MAX_INCREASES then |log| else MAX_INCREASES
    ensures forall k :: 0 <= k < |increases| ==> increases[k] == log[|log| - |increases| + k].inc
  {
  }

  lemma ChainedAt(h: History, uid: Uid, log: seq<Entry>, k: nat)
    requires LogChained(h, uid, log) && 0 < k < |log|
    ensures log[k - 1].inc.at <= log[k].inc.after
  {
    hide K;
  }

  lemma LogOrder(h: History, uid: Uid, log: seq<Entry>, k: nat)
    requires LogExact(h, uid, log)
    requires LogChained(h, uid, log) && k < |log|
    ensures log[k].to <= log[|log| - 1].to
    decreases |log| - k
  {
    if k + 1 < |log| {
      LogOrder(h, uid, log, k + 1);
    }
  }

  /** The entries before and after a point: the first `m` end by step `i`, the next, if
      any, does not. */
  lemma FindCut(log: seq<Entry>, i: nat) returns (m: nat)
    ensures m <= |log|
    ensures m > 0 ==> log[m - 1].to <= i
    ensures m < |log| ==> log[m].to > i
  {
    m := 0;
    while m < |log| && log[m].to <= i
      invariant m <= |log|
      invariant m > 0 ==> log[m - 1].to <= i
    {
      m := m + 1;
    }
  }

  /** The kernel's count at a step after the first `m` entries and before the next is
      at least what those entries left. */
  lemma CutBelow(h: History, uid: Uid, p: Pod, m: nat, i: nat)
    requires HistoryOk(h) && CountersInv(h, uid, p) && p.lastRead.Some?
    requires 0 < m <= |p.aux.log| && p.aux.log[m - 1].to <= i < |h| && uid in h[i].pods
    ensures Leq(K(h, p.aux.log[m - 1].to, uid), K(h, i, uid))
  {
    KMonotone(h, p.aux.log[m - 1].to, i, uid);
  }

  /** ... and at most what the next entry starts from. */
  lemma CutAbove(h: History, uid: Uid, p: Pod, m: nat, j: nat)
    requires HistoryOk(h) && CountersInv(h, uid, p) && p.lastRead.Some?
    requires m < |p.aux.log| && p.aux.firstStep <= j <= p.aux.log[m].from
    ensures Leq(K(h, j, uid), K(h, p.aux.log[m].from, uid))
  {
    LogOrder(h, uid, p.aux.log, m);
    AliveBetween(h, p.aux.firstStep, p.aux.log[m].from, p.aux.readStep, uid);
    KMonotone(h, j, p.aux.log[m].from, uid);
  }

  lemma CutAtEnd(h: History, uid: Uid, p: Pod, j: nat)
    requires HistoryOk(h) && CountersInv(h, uid, p) && p.lastRead.Some? && j <= p.aux.readStep
    ensures Leq(K(h, j, uid), p.counters)
    ensures p.aux.log == [] ==> p.counters == ZERO
    ensures p.aux.log != [] ==> p.counters == K(h, p.aux.log[|p.aux.log| - 1].to, uid)
  {
    KMonotone(h, j, p.aux.readStep, uid);
    if p.aux.log != [] {
      LogTotal(h, uid, p.aux.log);
    }
  }

  lemma AliveWhileWatched(h: History, uid: Uid, p: Pod, i: nat)
    requires HistoryOk(h) && CountersInv(h, uid, p) && p.lastRead.Some?
    requires p.aux.firstStep <= i <= p.aux.readStep
    ensures uid in h[i].pods
  {
    AliveBetween(h, p.aux.firstStep, i, p.aux.readStep, uid);
  }

  lemma NoneAfterLast(h: History, uid: Uid, p: Pod, i: nat, j: nat)
    requires HistoryOk(h) && CountersInv(h, uid, p) && p.lastRead.Some?
    requires p.aux.firstStep <= i <= j <= p.aux.readStep && uid in h[i].pods
    requires p.aux.log != [] ==> p.aux.log[|p.aux.log| - 1].to <= i
    ensures Leq(K(h, j, uid), K(h, i, uid))
  {
    CutAtEnd(h, uid, p, j);
    if p.aux.log != [] {
      CutBelow(h, uid, p, |p.aux.log|, i);
    }
  }

  lemma NoneBeforeFirst(h: History, uid: Uid, p: Pod, i: nat, j: nat)
    requires HistoryOk(h) && CountersInv(h, uid, p) && p.lastRead.Some?
    requires p.aux.firstStep <= i <= j && p.aux.log != [] && j <= p.aux.log[0].from
    ensures i == j || Leq(K(h, j, uid), K(h, i, uid))
  {
    CutAbove(h, uid, p, 0, j);
  }

  lemma NoneBetween(h: History, uid: Uid, p: Pod, m: nat, i: nat, j: nat)
    requires HistoryOk(h) && CountersInv(h, uid, p) && p.lastRead.Some?
    requires 0 < m < |p.aux.log| && j <= p.aux.log[m].from && p.aux.firstStep <= j
    requires p.aux.log[m - 1].to <= i < |h| && uid in h[i].pods
    ensures Leq(K(h, j, uid), K(h, i, uid))
  {
    CutAbove(h, uid, p, m, j);
    CutBelow(h, uid, p, m, i);
  }

  /** Between two steps of the watched stretch that no recorded increase overlaps, the
      kernel counted nothing: "no rise recorded" is evidence. */
  lemma NoRiseRecordedMeansNone(h: History, uid: Uid, p: Pod, i: nat, j: nat)
    requires HistoryOk(h) && CountersInv(h, uid, p) && p.lastRead.Some?
    requires p.aux.firstStep <= i <= j <= p.aux.readStep < |h|
    requires forall e :: e in p.aux.log ==> e.to <= i || j <= e.from
    ensures K(h, i, uid) == K(h, j, uid)
  {
    hide CountersInv, HistoryOk, K;
    AliveWhileWatched(h, uid, p, i);
    AliveWhileWatched(h, uid, p, j);
    KMonotone(h, i, j, uid);
    var m := FindCut(p.aux.log, i);
    if m == |p.aux.log| {
      NoneAfterLast(h, uid, p, i, j);
    } else {
      assert p.aux.log[m] in p.aux.log;
      if m == 0 {
        NoneBeforeFirst(h, uid, p, i, j);
      } else {
        NoneBetween(h, uid, p, m, i, j);
      }
    }
  }
}
