/**
 Status writes of the firewall reconciler: which are skipped, what a skipped write would have
 changed, how condition times move, and how often a settled object is written.
 */
module StatusNoop {
  import opened Prelude
  import opened JsonMerge
  import opened Seconds

  const REFRESH: int := 300 * SECOND

  const LAST_SYNCED: string := "lastSyncedAt"
  const CONDITIONS: string := "conditions"
  const TRANSITION: string := "lastTransitionTime"

  /** Times are written to the second, in UTC. */
  function Written(t: int): Json {
    Stamp(Floor(t), "")
  }

  datatype Condition = Condition(kind: string, status: string, reason: string, message: string, time: int)

  /** Empty texts and absent times are not written. */
  datatype Payload = Payload(generation: int, cidr: string, ip: string, family: string,
                             sync: Option<int>, expires: Option<int>, claimed: Option<int>,
                             conditions: seq<Condition>)

  // ---- rendering -----------------------------------------------------------

  /** The status.conditions entries that are objects. */
  function ObjectsOf(items: seq<Json>): seq<Fields> {
    if items == [] then []
    else (if items[0].Obj? then [items[0].fields] else []) + ObjectsOf(items[1..])
  }

  function ExistingConditions(status: Option<Fields>): seq<Fields> {
    if status.Some? && CONDITIONS in status.value && status.value[CONDITIONS].Arr?
    then ObjectsOf(status.value[CONDITIONS].items) else []
  }

  /** The time of the first condition of the same type, if all else about it is the same. */
  function Carried(prev: seq<Fields>, c: Condition): Option<Json> {
    if prev == [] then None
    else if Field(prev[0], "type") != Some(Str(c.kind)) then Carried(prev[1..], c)
    else if Field(prev[0], "status") != Some(Str(c.status)) || Field(prev[0], "reason") != Some(Str(c.reason))
            || Field(prev[0], "message") != Some(Str(c.message)) then None
    else
      var ts := Field(prev[0], TRANSITION);
      if ts.Some? && (ts.value.Stamp? || (ts.value.Str? && ts.value.s != "")) then ts else None
  }

  function CondFields(c: Condition, ts: Json): Fields {
    map["type" := Str(c.kind), "status" := Str(c.status), "reason" := Str(c.reason),
        "message" := Str(c.message), TRANSITION := ts]
  }

  function RenderCondition(c: Condition, prev: seq<Fields>): Json {
    var carried := Carried(prev, c);
    Obj(CondFields(c, if carried.Some? then carried.value else Written(c.time)))
  }

  function RenderConditions(cs: seq<Condition>, prev: seq<Fields>): (r: seq<Json>)
    ensures |r| == |cs|
  {
    seq(|cs|, i requires 0 <= i < |cs| => RenderCondition(cs[i], prev))
  }

  function TextField(k: string, s: string): Fields {
    if s == "" then map[] else map[k := Str(s)]
  }

  function TimeField(k: string, t: Option<int>): Fields {
    if t.None? then map[] else map[k := Written(t.value)]
  }

  /** The fields that hold no time of writing. */
  function FixedFields(p: Payload): Fields {
    map["observedGeneration" := Num(p.generation)]
    + TextField("normalizedCidr", p.cidr) + TextField("normalizedIp", p.ip) + TextField("family", p.family)
    + TimeField("expiresAt", p.expires) + TimeField("claimedAt", p.claimed)
  }

  function ConditionsField(cs: seq<Condition>, prev: seq<Fields>): Fields {
    if cs == [] then map[] else map[CONDITIONS := Arr(RenderConditions(cs, prev))]
  }

  function RenderStatus(p: Payload, prev: seq<Fields>): Fields {
    FixedFields(p) + TimeField(LAST_SYNCED, p.sync) + ConditionsField(p.conditions, prev)
  }

  // ---- the no-op test ------------------------------------------------------

  function WithoutTime(j: Json): Json {
    if j.Obj? then Obj(j.fields - {TRANSITION}) else j
  }

  predicate ConditionsEqualIgnoringTime(got: Json, want: Json) {
    && got.Arr? && want.Arr? && |got.items| == |want.items|
    && forall i :: 0 <= i < |got.items| ==>
         got.items[i].Obj? && want.items[i].Obj? && WithoutTime(got.items[i]) == WithoutTime(want.items[i])
  }

  predicate LastSyncedFresh(raw: Option<Json>, now: int) {
    raw.Some? && raw.value.Stamp? && -REFRESH < now - raw.value.instant < REFRESH
  }

  /** The comparison of one key the patch writes */
  predicate Agrees(ex: Fields, desired: Fields, k: string) {
    k in ex && k in desired
    && (if k == CONDITIONS then ConditionsEqualIgnoringTime(ex[k], desired[k]) else ex[k] == desired[k])
  }

  predicate StatusPatchIsNoop(existing: Option<Fields>, desired: Fields, syncedAt: int) {
    && existing.Some?
    && (forall k :: k in desired && k != LAST_SYNCED ==> Agrees(existing.value, desired, k))
    && (LAST_SYNCED in desired ==> LastSyncedFresh(Field(existing.value, LAST_SYNCED), syncedAt))
  }

  // ---- what a skipped write would have changed -----------------------------

  /** A status with the times no reader compares taken out. */
  function WithoutTimes(status: Fields): Fields {
    map k | k in status && k != LAST_SYNCED ::
      if k == CONDITIONS && status[k].Arr? then Arr(ItemsWithoutTime(status[k].items)) else status[k]
  }

  function ItemsWithoutTime(items: seq<Json>): seq<Json> {
    seq(|items|, i requires 0 <= i < |items| => WithoutTime(items[i]))
  }

  /** The status after the patch {"status": desired}. */
  function Patched(existing: Option<Fields>, desired: Fields): Fields {
    var r := MergePatch(if existing.Some? then Obj(existing.value) else Null, Obj(desired));
    if r.Obj? then r.fields else map[]
  }

  /** What the reconciler writes holds no null, no object outside the conditions, and only
      objects in them. */
  ghost predicate Flat(desired: Fields) {
    && (forall k :: k in desired ==> !desired[k].Null? && !desired[k].Obj?)
    && (CONDITIONS in desired ==>
          && desired[CONDITIONS].Arr?
          && forall i :: 0 <= i < |desired[CONDITIONS].items| ==> desired[CONDITIONS].items[i].Obj?)
  }

  lemma RenderedIsFlat(p: Payload, prev: seq<Fields>)
    ensures Flat(RenderStatus(p, prev))
  {
    hide FixedFields, ConditionsField;
    FixedIsFlat(p);
    ConditionsFlat(p.conditions, prev);
  }

  /** Flat, and without the two keys that are compared in their own way. */
  ghost predicate Plain(f: Fields) {
    Flat(f) && LAST_SYNCED !in f && CONDITIONS !in f
  }

  lemma PlainPlus(a: Fields, b: Fields)
    requires Plain(a) && Plain(b)
    ensures Plain(a + b)
  {
  }

  lemma PlainKey(k: string, s: string, t: Option<int>)
    requires k != LAST_SYNCED && k != CONDITIONS
    ensures Plain(TextField(k, s)) && Plain(TimeField(k, t))
  {
  }

  lemma FixedIsFlat(p: Payload)
    ensures Plain(FixedFields(p))
  {
    hide Plain, TextField, TimeField;
    assert "normalizedIp"[0] != LAST_SYNCED[0];
    PlainKey("normalizedCidr", p.cidr, None);
    PlainKey("normalizedIp", p.ip, None);
    PlainKey("family", p.family, None);
    PlainKey("expiresAt", "", p.expires);
    PlainKey("claimedAt", "", p.claimed);
    GenerationPlain(p.generation);
    var m := map["observedGeneration" := Num(p.generation)];
    var m1 := m + TextField("normalizedCidr", p.cidr);
    var m2 := m1 + TextField("normalizedIp", p.ip);
    var m3 := m2 + TextField("family", p.family);
    var m4 := m3 + TimeField("expiresAt", p.expires);
    PlainPlus(m, TextField("normalizedCidr", p.cidr));
    PlainPlus(m1, TextField("normalizedIp", p.ip));
    PlainPlus(m2, TextField("family", p.family));
    PlainPlus(m3, TimeField("expiresAt", p.expires));
    PlainPlus(m4, TimeField("claimedAt", p.claimed));
  }

  lemma GenerationPlain(n: int)
    ensures Plain(map["observedGeneration" := Num(n)])
  {
  }

  lemma ConditionsFlat(cs: seq<Condition>, prev: seq<Fields>)
    ensures Flat(ConditionsField(cs, prev)) && LAST_SYNCED !in ConditionsField(cs, prev)
  {
  }

  lemma PatchedFlat(existing: Option<Fields>, desired: Fields)
    requires Flat(desired)
    ensures Patched(existing, desired) == (if existing.Some? then existing.value else map[]) + desired
  {
    MergeFlat(if existing.Some? then existing.value else map[], desired);
  }

  lemma ConditionsEqualIff(got: Json, want: Json)
    requires want.Arr? && forall i :: 0 <= i < |want.items| ==> want.items[i].Obj?
    ensures ConditionsEqualIgnoringTime(got, want) <==>
            got.Arr? && ItemsWithoutTime(got.items) == ItemsWithoutTime(want.items)
  {
    if got.Arr? && ItemsWithoutTime(got.items) == ItemsWithoutTime(want.items) {
      assert |got.items| == |want.items|;
      forall i | 0 <= i < |got.items|
        ensures got.items[i].Obj? && WithoutTime(got.items[i]) == WithoutTime(want.items[i])
      {
        assert ItemsWithoutTime(got.items)[i] == ItemsWithoutTime(want.items)[i];
      }
    }
    if ConditionsEqualIgnoringTime(got, want) {
      assert ItemsWithoutTime(got.items) == ItemsWithoutTime(want.items);
    }
  }

  /** The key stays as it is under the patch, times aside. */
  predicate Stays(ex: Fields, desired: Fields, k: string) {
    var a, b := WithoutTimes(ex), WithoutTimes(ex + desired);
    k in a && k in b && a[k] == b[k]
  }

  lemma AgreesIff(ex: Fields, desired: Fields, k: string)
    requires Flat(desired) && k in desired && k != LAST_SYNCED
    ensures Agrees(ex, desired, k) <==> Stays(ex, desired, k)
  {
    if k == CONDITIONS && k in ex {
      ConditionsEqualIff(ex[k], desired[k]);
    }
  }

  lemma SameIff(ex: Fields, desired: Fields)
    ensures WithoutTimes(ex + desired) == WithoutTimes(ex) <==>
            forall k :: k in desired && k != LAST_SYNCED ==> Stays(ex, desired, k)
  {
    var a, b := WithoutTimes(ex + desired), WithoutTimes(ex);
    if forall k :: k in desired && k != LAST_SYNCED ==> Stays(ex, desired, k) {
      forall k | k in a ensures k in b && a[k] == b[k] {
        if k in desired {
          assert Stays(ex, desired, k);
        } else {
          assert (ex + desired)[k] == ex[k];
        }
      }
      assert forall k :: k in b ==> k in a;
      assert a == b;
    }
  }

  /** The test says "skip" exactly when there is a status, the patch would change nothing in it
      but the times, and its sync time, if one would be written, is not stale. */
  lemma NoopIff(existing: Option<Fields>, desired: Fields, syncedAt: int)
    requires Flat(desired)
    ensures StatusPatchIsNoop(existing, desired, syncedAt) <==>
            && existing.Some?
            && WithoutTimes(Patched(existing, desired)) == WithoutTimes(existing.value)
            && (LAST_SYNCED in desired ==> LastSyncedFresh(Field(existing.value, LAST_SYNCED), syncedAt))
  {
    hide WithoutTimes, Agrees, Stays, LastSyncedFresh, Flat, Patched, MergePatch;
    PatchedFlat(existing, desired);
    if existing.Some? {
      forall k | k in desired && k != LAST_SYNCED
        ensures Agrees(existing.value, desired, k) <==> Stays(existing.value, desired, k)
      {
        AgreesIff(existing.value, desired, k);
      }
      SameIff(existing.value, desired);
    }
  }

  // ---- after a write -------------------------------------------------------

  predicate SameContent(c: Condition, d: Condition) {
    c.kind == d.kind && c.status == d.status && c.reason == d.reason && c.message == d.message
  }

  /** Two payloads that differ in nothing but the time they were made at. */
  ghost predicate SamePayload(p: Payload, q: Payload) {
    && FixedFields(p) == FixedFields(q)
    && (p.sync.Some? <==> q.sync.Some?)
    && |p.conditions| == |q.conditions|
    && forall i :: 0 <= i < |p.conditions| ==> SameContent(p.conditions[i], q.conditions[i])
  }

  /** The status an object has once `p` has been written over `existing`. */
  function WrittenStatus(existing: Option<Fields>, p: Payload): Fields {
    Patched(existing, RenderStatus(p, ExistingConditions(existing)))
  }

  function SyncTime(p: Payload): int {
    if p.sync.Some? then p.sync.value else 0
  }

  /** What the reconciler does: nothing, or the patch. */
  function Write(existing: Option<Fields>, p: Payload): Option<Fields> {
    if StatusPatchIsNoop(existing, RenderStatus(p, ExistingConditions(existing)), SyncTime(p)) then existing
    else Some(WrittenStatus(existing, p))
  }

  /** `status` shows what `p` says, times of conditions aside. */
  ghost predicate Shows(status: Fields, p: Payload) {
    && (forall k :: k in FixedFields(p) ==> k in status && status[k] == FixedFields(p)[k])
    && (p.conditions != [] ==>
          && CONDITIONS in status && status[CONDITIONS].Arr?
          && |status[CONDITIONS].items| == |p.conditions|
          && forall i :: 0 <= i < |p.conditions| ==> ShowsCondition(status[CONDITIONS].items[i], p.conditions[i]))
  }

  ghost predicate ShowsCondition(j: Json, c: Condition) {
    j.Obj? && TRANSITION in j.fields && j.fields == CondFields(c, j.fields[TRANSITION])
  }

  lemma WriteShows(existing: Option<Fields>, p: Payload)
    ensures Shows(WrittenStatus(existing, p), p)
    ensures p.sync.Some? ==> Field(WrittenStatus(existing, p), LAST_SYNCED) == Some(Written(p.sync.value))
  {
    hide FixedFields, Carried, MergePatch, Patched;
    var prev := ExistingConditions(existing);
    RenderedIsFlat(p, prev);
    FixedIsFlat(p);
    ConditionsFlat(p.conditions, prev);
    PatchedFlat(existing, RenderStatus(p, prev));
  }

  /** What a payload puts under one key, the conditions and the sync time aside. */
  function Said(p: Payload, k: string): Option<Json> {
    if k == "observedGeneration" then Some(Num(p.generation))
    else if k == "normalizedCidr" then (if p.cidr == "" then None else Some(Str(p.cidr)))
    else if k == "normalizedIp" then (if p.ip == "" then None else Some(Str(p.ip)))
    else if k == "family" then (if p.family == "" then None else Some(Str(p.family)))
    else if k == "expiresAt" then ToTheSecond(p.expires)
    else if k == "claimedAt" then ToTheSecond(p.claimed)
    else None
  }

  /** A time is written as the last full second before it. */
  function ToTheSecond(t: Option<int>): Option<Json> {
    if t.None? then None else Some(Stamp(t.value - t.value % 1000000000, ""))
  }

  lemma FieldOfTime(key: string, t: Option<int>, k: string)
    ensures Field(TimeField(key, t), k) == if k == key then ToTheSecond(t) else None
  {
  }

  lemma FieldOfText(key: string, s: string, k: string)
    ensures Field(TextField(key, s), k) == if k == key && s != "" then Some(Str(s)) else None
  {
  }

  lemma FieldOfSum(a: Fields, b: Fields, k: string)
    ensures Field(a + b, k) == if Field(b, k).Some? then Field(b, k) else Field(a, k)
  {
  }

  lemma FieldOfGeneration(n: int, k: string)
    ensures Field(map["observedGeneration" := Num(n)], k) == if k == "observedGeneration" then Some(Num(n)) else None
  {
  }

  /** The six keys are told apart by length, by first or by last letter. */
  lemma KeysDiffer()
    ensures "observedGeneration" !in {"normalizedCidr", "normalizedIp", "family", "expiresAt", "claimedAt"}
    ensures "normalizedCidr" !in {"normalizedIp", "family", "expiresAt", "claimedAt"}
    ensures "normalizedIp" !in {"family", "expiresAt", "claimedAt"}
    ensures "family" !in {"expiresAt", "claimedAt"}
    ensures "expiresAt" != "claimedAt"
  {
    assert |"observedGeneration"| == 18 && |"normalizedCidr"| == 14 && |"normalizedIp"| == 12;
    assert |"family"| == 6 && |"expiresAt"| == 9 && |"claimedAt"| == 9;
    assert "expiresAt"[0] == 'e' && "claimedAt"[0] == 'c';
  }

  /** Every key of a payload's status holds what the payload says, and there is no other key. */
  lemma FixedFieldsSay(p: Payload, k: string)
    ensures Field(FixedFields(p), k) == Said(p, k)
  {
    hide TextField, TimeField, ToTheSecond, Field;
    FieldOfText("normalizedCidr", p.cidr, k);
    FieldOfText("normalizedIp", p.ip, k);
    FieldOfText("family", p.family, k);
    FieldOfTime("expiresAt", p.expires, k);
    FieldOfTime("claimedAt", p.claimed, k);
    FieldOfGeneration(p.generation, k);
    var m0 := map["observedGeneration" := Num(p.generation)];
    var m1 := m0 + TextField("normalizedCidr", p.cidr);
    var m2 := m1 + TextField("normalizedIp", p.ip);
    var m3 := m2 + TextField("family", p.family);
    var m4 := m3 + TimeField("expiresAt", p.expires);
    FieldOfSum(m0, TextField("normalizedCidr", p.cidr), k);
    FieldOfSum(m1, TextField("normalizedIp", p.ip), k);
    FieldOfSum(m2, TextField("family", p.family), k);
    FieldOfSum(m3, TimeField("expiresAt", p.expires), k);
    FieldOfSum(m4, TimeField("claimedAt", p.claimed), k);
    KeysDiffer();
  }

  /** What a condition puts under one key, its time aside. */
  function SaidOf(c: Condition, k: string): Option<Json> {
    if k == "type" then Some(Str(c.kind))
    else if k == "status" then Some(Str(c.status))
    else if k == "reason" then Some(Str(c.reason))
    else if k == "message" then Some(Str(c.message))
    else None
  }

  lemma CondFieldsSay(c: Condition, ts: Json, k: string)
    ensures Field(CondFields(c, ts), k) == if k == "lastTransitionTime" then Some(ts) else SaidOf(c, k)
  {
    assert |"lastTransitionTime"| == 18 && |"type"| == 4;
  }

  /** An entry of the list says of every field but the time what the condition says. */
  ghost predicate ItemSays(j: Json, c: Condition) {
    j.Obj? && forall k :: k != "lastTransitionTime" ==> Field(j.fields, k) == SaidOf(c, k)
  }

  /** The list has one entry for each condition, in order. */
  ghost predicate ListSays(list: Option<Json>, cs: seq<Condition>) {
    && list.Some? && list.value.Arr? && |list.value.items| == |cs|
    && forall i :: 0 <= i < |cs| ==> ItemSays(list.value.items[i], cs[i])
  }

  lemma WithoutTimeKey(f: Fields, k: string)
    ensures Field(WithoutTime(Obj(f)).fields, k) == if k == "lastTransitionTime" then None else Field(f, k)
  {
  }

  lemma SameByKey(a: Fields, b: Fields)
    ensures a == b <==> forall k :: Field(a, k) == Field(b, k)
  {
    if forall k :: Field(a, k) == Field(b, k) {
      forall k ensures (k in a <==> k in b) && (k in a ==> a[k] == b[k]) {
        assert Field(a, k) == Field(b, k);
      }
      assert a == b;
    }
  }

  lemma ItemSaysIff(j: Json, c: Condition, ts: Json)
    ensures ItemSays(j, c) <==> j.Obj? && WithoutTime(j) == WithoutTime(Obj(CondFields(c, ts)))
  {
    hide Field, WithoutTime, CondFields, SaidOf;
    if j.Obj? {
      var a, b := WithoutTimeObj(j.fields), WithoutTimeObj(CondFields(c, ts));
      forall k ensures Field(b.fields, k) == (if k == "lastTransitionTime" then None else SaidOf(c, k))
                       && Field(a.fields, k) == if k == "lastTransitionTime" then None else Field(j.fields, k)
      {
        WithoutTimeKey(j.fields, k);
        WithoutTimeKey(CondFields(c, ts), k);
        CondFieldsSay(c, ts, k);
      }
      SameByKey(a.fields, b.fields);
    }
  }

  function WithoutTimeObj(f: Fields): (j: Json)
    ensures j.Obj?
  {
    WithoutTime(Obj(f))
  }

  lemma ListSaysIff(list: Option<Json>, cs: seq<Condition>, prev: seq<Fields>)
    ensures ListSays(list, cs) <==> list.Some? && ConditionsEqualIgnoringTime(list.value, Arr(RenderConditions(cs, prev)))
  {
    hide WithoutTime, ItemSays, Carried, CondFields;
    if list.Some? && list.value.Arr? && |list.value.items| == |cs| {
      var got, want := list.value.items, RenderConditions(cs, prev);
      forall i | 0 <= i < |cs|
        ensures want[i].Obj? && (ItemSays(got[i], cs[i]) <==> got[i].Obj? && WithoutTime(got[i]) == WithoutTime(want[i]))
      {
        var carried := Carried(prev, cs[i]);
        ItemSaysIff(got[i], cs[i], if carried.Some? then carried.value else Written(cs[i].time));
      }
    }
  }

  /** The status says under every key what the payload says. */
  ghost predicate StatusSays(ex: Fields, p: Payload) {
    && (forall k :: Said(p, k).Some? ==> Field(ex, k) == Said(p, k))
    && (p.conditions != [] ==> ListSays(Field(ex, "conditions"), p.conditions))
  }

  /** Its time of writing is less than five minutes from `now`. */
  ghost predicate SyncedNear(ex: Fields, now: int) {
    var raw := Field(ex, "lastSyncedAt");
    raw.Some? && raw.value.Stamp? && now - 300000000000 < raw.value.instant < now + 300000000000
  }

  lemma AgreesSays(ex: Fields, p: Payload, prev: seq<Fields>)
    ensures (forall k :: k in RenderStatus(p, prev) && k != LAST_SYNCED ==> Agrees(ex, RenderStatus(p, prev), k)) <==>
            StatusSays(ex, p)
  {
    hide FixedFields, ListSays, ConditionsEqualIgnoringTime, RenderConditions, Said, Flat;
    var desired := RenderStatus(p, prev);
    FixedIsFlat(p);
    ListSaysIff(Field(ex, "conditions"), p.conditions, prev);
    forall k ensures Field(FixedFields(p), k) == Said(p, k) {
      FixedFieldsSay(p, k);
    }
    if forall k :: k in desired && k != LAST_SYNCED ==> Agrees(ex, desired, k) {
      forall k | Said(p, k).Some? ensures Field(ex, k) == Said(p, k) {
        assert k in FixedFields(p) && k in desired && desired[k] == FixedFields(p)[k];
        assert Agrees(ex, desired, k);
      }
      if p.conditions != [] {
        assert Agrees(ex, desired, CONDITIONS);
      }
    }
    if StatusSays(ex, p) {
      forall k | k in desired && k != LAST_SYNCED ensures Agrees(ex, desired, k) {
        if k != CONDITIONS {
          assert Field(FixedFields(p), k) == Said(p, k);
        }
      }
    }
  }

  /** A write is skipped exactly when there is a status, it says what the payload says, and, if a
      sync time would be written, the one there is less than five minutes away. */
  lemma SkippedIff(existing: Option<Fields>, p: Payload)
    ensures StatusPatchIsNoop(existing, RenderStatus(p, ExistingConditions(existing)), SyncTime(p)) <==>
            existing.Some? && StatusSays(existing.value, p) && (p.sync.Some? ==> SyncedNear(existing.value, p.sync.value))
  {
    hide Agrees, StatusSays, FixedFields, ExistingConditions;
    if existing.Some? {
      var prev := ExistingConditions(existing);
      AgreesSays(existing.value, p, prev);
      FixedIsFlat(p);
      ConditionsFlat(p.conditions, prev);
      assert LAST_SYNCED in RenderStatus(p, prev) <==> p.sync.Some?;
    }
  }

  lemma ShownItemSays(j: Json, c: Condition)
    requires ShowsCondition(j, c)
    ensures ItemSays(j, c)
  {
    hide CondFields, SaidOf, Field;
    forall k ensures k != "lastTransitionTime" ==> Field(j.fields, k) == SaidOf(c, k) {
      CondFieldsSay(c, j.fields[TRANSITION], k);
    }
  }

  lemma ShownSays(status: Fields, p: Payload)
    requires Shows(status, p)
    ensures StatusSays(status, p)
  {
    hide FixedFields, ItemSays, ShowsCondition, Said;
    forall k ensures Said(p, k).Some? ==> Field(status, k) == Said(p, k) {
      FixedFieldsSay(p, k);
    }
    if p.conditions != [] {
      forall i | 0 <= i < |p.conditions| ensures ItemSays(status[CONDITIONS].items[i], p.conditions[i]) {
        ShownItemSays(status[CONDITIONS].items[i], p.conditions[i]);
      }
    }
  }

  /** A write makes the status say what the payload says, stamps it with the payload's own second,
      and leaves every other key as it was. */
  lemma WriteSays(existing: Option<Fields>, p: Payload)
    ensures StatusSays(WrittenStatus(existing, p), p)
    ensures p.sync.Some? ==> Field(WrittenStatus(existing, p), "lastSyncedAt") == ToTheSecond(p.sync)
    ensures forall k ::
              Said(p, k).None? && (k == "conditions" ==> p.conditions == []) && (k == "lastSyncedAt" ==> p.sync.None?) ==>
              Field(WrittenStatus(existing, p), k) == if existing.Some? then Field(existing.value, k) else None
  {
    hide FixedFields, MergePatch, Patched, Shows, StatusSays, Said, RenderConditions, ExistingConditions;
    WriteShows(existing, p);
    ShownSays(WrittenStatus(existing, p), p);
    var prev := ExistingConditions(existing);
    RenderedIsFlat(p, prev);
    PatchedFlat(existing, RenderStatus(p, prev));
    forall k ensures Field(FixedFields(p), k) == Said(p, k) {
      FixedFieldsSay(p, k);
    }
  }

  /** Two payloads differ in nothing but times exactly when they say the same. */
  lemma SamePayloadIff(p: Payload, q: Payload)
    ensures SamePayload(p, q) <==>
            && (forall k :: Said(p, k) == Said(q, k)) && (p.sync.Some? <==> q.sync.Some?)
            && |p.conditions| == |q.conditions|
            && forall i, k :: 0 <= i < |p.conditions| ==> SaidOf(p.conditions[i], k) == SaidOf(q.conditions[i], k)
  {
    hide FixedFields, Said, Field;
    SameByKey(FixedFields(p), FixedFields(q));
    forall k ensures Field(FixedFields(p), k) == Said(p, k) && Field(FixedFields(q), k) == Said(q, k) {
      FixedFieldsSay(p, k);
      FixedFieldsSay(q, k);
    }
    if |p.conditions| == |q.conditions| {
      forall i | 0 <= i < |p.conditions|
        ensures SameContent(p.conditions[i], q.conditions[i]) <==>
                forall k :: SaidOf(p.conditions[i], k) == SaidOf(q.conditions[i], k)
      {
        SameContentIff(p.conditions[i], q.conditions[i]);
      }
    }
  }

  lemma SameContentIff(c: Condition, d: Condition)
    ensures SameContent(c, d) <==> forall k :: SaidOf(c, k) == SaidOf(d, k)
  {
    assert SaidOf(c, "type") == Some(Str(c.kind)) && SaidOf(d, "type") == Some(Str(d.kind));
    assert SaidOf(c, "status") == Some(Str(c.status)) && SaidOf(d, "status") == Some(Str(d.status));
    assert SaidOf(c, "reason") == Some(Str(c.reason)) && SaidOf(d, "reason") == Some(Str(d.reason));
    assert SaidOf(c, "message") == Some(Str(c.message)) && SaidOf(d, "message") == Some(Str(d.message));
  }

  /** On a status that shows it, a payload is skipped exactly while the sync time is fresh. */
  lemma ShownIsSkipped(status: Fields, p: Payload, q: Payload)
    requires Shows(status, p) && SamePayload(p, q)
    ensures StatusPatchIsNoop(Some(status), RenderStatus(q, ExistingConditions(Some(status))), SyncTime(q)) <==>
            (q.sync.Some? ==> LastSyncedFresh(Field(status, LAST_SYNCED), q.sync.value))
    ensures var desired := RenderStatus(q, ExistingConditions(Some(status)));
            forall k :: k in desired && k != LAST_SYNCED ==> Agrees(status, desired, k)
  {
    hide FixedFields, Carried, LastSyncedFresh, ExistingConditions;
    var prev := ExistingConditions(Some(status));
    var desired := RenderStatus(q, prev);
    FixedIsFlat(q);
    ConditionsFlat(q.conditions, prev);
    if q.conditions != [] {
      ShownConditions(status, p, q, prev);
    }
    assert LAST_SYNCED in desired <==> q.sync.Some?;
  }

  /** Writing a payload over a status that shows it changes nothing but times. */
  lemma ShownIsRefreshed(status: Fields, p: Payload, q: Payload)
    requires Shows(status, p) && SamePayload(p, q)
    ensures WithoutTimes(WrittenStatus(Some(status), q)) == WithoutTimes(status)
  {
    hide Shows, SamePayload, RenderStatus, Agrees, Stays, WithoutTimes, Flat, Patched;
    var desired := RenderStatus(q, ExistingConditions(Some(status)));
    RenderedIsFlat(q, ExistingConditions(Some(status)));
    PatchedFlat(Some(status), desired);
    ShownIsSkipped(status, p, q);
    forall k | k in desired && k != LAST_SYNCED ensures Stays(status, desired, k) {
      AgreesIff(status, desired, k);
    }
    SameIff(status, desired);
  }

  lemma ShownConditions(status: Fields, p: Payload, q: Payload, prev: seq<Fields>)
    requires Shows(status, p) && SamePayload(p, q) && q.conditions != []
    ensures ConditionsEqualIgnoringTime(status[CONDITIONS], Arr(RenderConditions(q.conditions, prev)))
  {
    hide FixedFields, Carried;
    var got, want := status[CONDITIONS].items, RenderConditions(q.conditions, prev);
    forall i | 0 <= i < |got| ensures got[i].Obj? && want[i].Obj? && WithoutTime(got[i]) == WithoutTime(want[i]) {
      assert ShowsCondition(got[i], p.conditions[i]);
      var ts := got[i].fields[TRANSITION];
      assert SameContent(p.conditions[i], q.conditions[i]);
      var ts2 := want[i].fields[TRANSITION];
      SameWithoutTime(p.conditions[i], q.conditions[i], ts, ts2);
    }
  }

  lemma SameWithoutTime(c: Condition, d: Condition, ts: Json, ts2: Json)
    requires SameContent(c, d)
    ensures WithoutTime(Obj(CondFields(c, ts))) == WithoutTime(Obj(CondFields(d, ts2)))
  {
    assert CondFields(c, ts) - {TRANSITION} == CondFields(d, ts2) - {TRANSITION};
  }

  /** After a write, the same payload is skipped by every up-to-date reconciler exactly while
      its clock is less than five minutes from the second the write was stamped with. */
  lemma AfterWriteSkipped(existing: Option<Fields>, p: Payload, q: Payload)
    requires SamePayload(p, q)
    ensures Write(Some(WrittenStatus(existing, p)), q) == Some(WrittenStatus(existing, p)) ||
            (q.sync.Some? && !(-300000000000 < q.sync.value - Floor(p.sync.value) < 300000000000))
    ensures var s := WrittenStatus(existing, p);
            StatusPatchIsNoop(Some(s), RenderStatus(q, ExistingConditions(Some(s))), SyncTime(q)) <==>
            (q.sync.Some? ==> -300000000000 < q.sync.value - Floor(p.sync.value) < 300000000000)
  {
    hide Shows, WrittenStatus, RenderStatus, StatusPatchIsNoop, SamePayload, ExistingConditions;
    WriteShows(existing, p);
    ShownIsSkipped(WrittenStatus(existing, p), p, q);
    assert p.sync.Some? <==> q.sync.Some? by { SameSync(p, q); }
  }

  lemma SameSync(p: Payload, q: Payload)
    requires SamePayload(p, q)
    ensures p.sync.Some? <==> q.sync.Some?
  {
  }

  // ---- how condition times move --------------------------------------------

  /** No two conditions of the list have the same type. */
  ghost predicate DistinctKinds(cs: seq<Condition>) {
    forall i, j :: 0 <= i < j < |cs| ==> cs[i].kind != cs[j].kind
  }

  function Stamped(cs: seq<Condition>, ts: seq<int>): (r: seq<Fields>)
    requires |ts| == |cs|
    ensures |r| == |cs|
  {
    seq(|cs|, i requires 0 <= i < |cs| => CondFields(cs[i], Stamp(ts[i], "")))
  }

  function Objects(fs: seq<Fields>): (r: seq<Json>)
    ensures |r| == |fs|
  {
    seq(|fs|, i requires 0 <= i < |fs| => Obj(fs[i]))
  }

  lemma {:induction false} ObjectsBack(fs: seq<Fields>)
    ensures ObjectsOf(Objects(fs)) == fs
  {
    if fs != [] {
      ObjectsBack(fs[1..]);
      assert Objects(fs)[1..] == Objects(fs[1..]);
      assert Objects(fs)[0] == Obj(fs[0]);
    }
  }

  /** The status has the conditions `cs`, stamped `ts`; with no conditions it has no list. */
  ghost predicate HasConditions(status: Option<Fields>, cs: seq<Condition>, ts: seq<int>) {
    && |ts| == |cs|
    && if cs == [] then status.None? || CONDITIONS !in status.value
       else status.Some? && CONDITIONS in status.value && status.value[CONDITIONS] == Arr(Objects(Stamped(cs, ts)))
  }

  lemma ConditionsBack(status: Option<Fields>, cs: seq<Condition>, ts: seq<int>)
    requires HasConditions(status, cs, ts)
    ensures ExistingConditions(status) == Stamped(cs, ts)
  {
    ObjectsBack(Stamped(cs, ts));
  }

  /** The time a condition gets: that of the one of its type before, if all else about it is the
      same, else its own. */
  function TimeFor(cs: seq<Condition>, ts: seq<int>, c: Condition): int
    requires |ts| == |cs|
  {
    if cs == [] then Floor(c.time)
    else if cs[0].kind != c.kind then TimeFor(cs[1..], ts[1..], c)
    else if SameContent(cs[0], c) then ts[0] else Floor(c.time)
  }

  function TimesFor(cs: seq<Condition>, ts: seq<int>, next: seq<Condition>): (r: seq<int>)
    requires |ts| == |cs|
    ensures |r| == |next|
  {
    seq(|next|, i requires 0 <= i < |next| => TimeFor(cs, ts, next[i]))
  }

  lemma WithoutTimeContent(c: Condition, d: Condition, ts: Json, ts2: Json)
    ensures WithoutTime(Obj(CondFields(c, ts))) == WithoutTime(Obj(CondFields(d, ts2))) ==> SameContent(c, d)
  {
    var a, b := CondFields(c, ts) - {TRANSITION}, CondFields(d, ts2) - {TRANSITION};
    if a == b {
      assert "type" in a && "status" in a && "reason" in a && "message" in a;
      assert a["type"] == b["type"] && a["status"] == b["status"];
      assert a["reason"] == b["reason"] && a["message"] == b["message"];
      assert a["type"] == Str(c.kind) && b["type"] == Str(d.kind);
      assert a["status"] == Str(c.status) && b["status"] == Str(d.status);
      assert a["reason"] == Str(c.reason) && b["reason"] == Str(d.reason);
      assert a["message"] == Str(c.message) && b["message"] == Str(d.message);
    }
  }

  lemma {:induction false} CarriedTime(cs: seq<Condition>, ts: seq<int>, c: Condition)
    requires |ts| == |cs|
    ensures RenderCondition(c, Stamped(cs, ts)) == Obj(CondFields(c, Stamp(TimeFor(cs, ts, c), "")))
  {
    hide CondFields;
    var prev := Stamped(cs, ts);
    if cs != [] {
      CarriedTime(cs[1..], ts[1..], c);
      assert prev[1..] == Stamped(cs[1..], ts[1..]) && prev[0] == CondFields(cs[0], Stamp(ts[0], ""));
      CondFieldsRead(cs[0], Stamp(ts[0], ""));
    }
  }

  lemma CondFieldsRead(c: Condition, ts: Json)
    ensures var f := CondFields(c, ts);
            && Field(f, "type") == Some(Str(c.kind)) && Field(f, "status") == Some(Str(c.status))
            && Field(f, "reason") == Some(Str(c.reason)) && Field(f, "message") == Some(Str(c.message))
            && Field(f, TRANSITION) == Some(ts)
  {
  }

  lemma RenderedTimes(cs: seq<Condition>, ts: seq<int>, next: seq<Condition>)
    requires |ts| == |cs|
    ensures RenderConditions(next, Stamped(cs, ts)) == Objects(Stamped(next, TimesFor(cs, ts, next)))
  {
    hide RenderCondition, CondFields;
    forall i | 0 <= i < |next|
      ensures RenderConditions(next, Stamped(cs, ts))[i] == Objects(Stamped(next, TimesFor(cs, ts, next)))[i]
    {
      CarriedTime(cs, ts, next[i]);
    }
  }

  /** The conditions of a status that was written, or that the write left alone. */
  lemma WrittenConditions(existing: Option<Fields>, p: Payload)
    ensures p.conditions != [] ==>
              && CONDITIONS in WrittenStatus(existing, p)
              && WrittenStatus(existing, p)[CONDITIONS] == Arr(RenderConditions(p.conditions, ExistingConditions(existing)))
    ensures p.conditions == [] ==>
              Field(WrittenStatus(existing, p), CONDITIONS) == if existing.Some? then Field(existing.value, CONDITIONS) else None
  {
    hide FixedFields, RenderConditions, ExistingConditions, Patched;
    var prev := ExistingConditions(existing);
    RenderedIsFlat(p, prev);
    FixedIsFlat(p);
    PatchedFlat(existing, RenderStatus(p, prev));
  }

  lemma {:induction false} TimeForOwn(cs: seq<Condition>, ts: seq<int>, i: nat, c: Condition)
    requires |ts| == |cs| && i < |cs| && DistinctKinds(cs) && SameContent(cs[i], c)
    ensures TimeFor(cs, ts, c) == ts[i]
  {
    if i > 0 {
      assert cs[0].kind != cs[i].kind;
      TimeForOwn(cs[1..], ts[1..], i - 1, c);
    }
  }

  /** A skipped write finds the very conditions it would have written. */
  lemma SkippedConditions(status: Fields, cs: seq<Condition>, ts: seq<int>, p: Payload)
    requires HasConditions(Some(status), cs, ts) && DistinctKinds(cs) && p.conditions != []
    requires StatusPatchIsNoop(Some(status), RenderStatus(p, ExistingConditions(Some(status))), SyncTime(p))
    ensures HasConditions(Some(status), p.conditions, TimesFor(cs, ts, p.conditions))
  {
    hide ExistingConditions, LastSyncedFresh, WithoutTime, RenderConditions, TimeFor, FixedFields, CondFields;
    var next := p.conditions;
    var prev := ExistingConditions(Some(status));
    ConditionsBack(Some(status), cs, ts);
    RenderedTimes(cs, ts, next);
    assert CONDITIONS in RenderStatus(p, prev) && RenderStatus(p, prev)[CONDITIONS] == Arr(RenderConditions(next, prev));
    assert Agrees(status, RenderStatus(p, prev), CONDITIONS);
    var got, want := status[CONDITIONS].items, RenderConditions(next, prev);
    forall i | 0 <= i < |next| ensures got[i] == want[i] {
      assert got[i] == Obj(CondFields(cs[i], Stamp(ts[i], "")));
      assert want[i] == Obj(CondFields(next[i], Stamp(TimeFor(cs, ts, next[i]), "")));
      assert WithoutTime(got[i]) == WithoutTime(want[i]);
      WithoutTimeContent(cs[i], next[i], Stamp(ts[i], ""), Stamp(TimeFor(cs, ts, next[i]), ""));
      TimeForOwn(cs, ts, i, next[i]);
      SameFields(cs[i], next[i], Stamp(ts[i], ""));
    }
    assert got == want;
  }

  lemma SameFields(c: Condition, d: Condition, ts: Json)
    requires SameContent(c, d)
    ensures CondFields(c, ts) == CondFields(d, ts)
  {
  }

  /** One step: the time of a condition stays while type, status, reason and message stay, and is
      the new condition's own when one of them changes or the type is new; skipped or written
      makes no difference. A payload without conditions leaves them as they are. */
  lemma TransitionStep(status: Option<Fields>, cs: seq<Condition>, ts: seq<int>, p: Payload)
    requires HasConditions(status, cs, ts) && DistinctKinds(cs)
    ensures p.conditions != [] ==> HasConditions(Write(status, p), p.conditions, TimesFor(cs, ts, p.conditions))
    ensures p.conditions == [] ==> HasConditions(Write(status, p), cs, ts)
  {
    hide RenderStatus, WrittenStatus, StatusPatchIsNoop, ExistingConditions, RenderConditions, Stamped, Objects;
    if StatusPatchIsNoop(status, RenderStatus(p, ExistingConditions(status)), SyncTime(p)) {
      NoopHasStatus(status, RenderStatus(p, ExistingConditions(status)), SyncTime(p));
      if p.conditions != [] {
        SkippedConditions(status.value, cs, ts, p);
      }
    } else {
      WrittenConditions(status, p);
      ConditionsBack(status, cs, ts);
      RenderedTimes(cs, ts, p.conditions);
    }
  }

  lemma NoopHasStatus(status: Option<Fields>, desired: Fields, syncedAt: int)
    requires StatusPatchIsNoop(status, desired, syncedAt)
    ensures status.Some?
  {
  }

  /** The status after a run of payloads, from none. */
  function AfterRun(ps: seq<Payload>): Option<Fields> {
    if ps == [] then None else Write(AfterRun(Front(ps)), Last(ps))
  }

  /** The conditions of the last payload that had any. */
  function LastConditions(ps: seq<Payload>): seq<Condition> {
    if ps == [] then []
    else if Last(ps).conditions != [] then Last(ps).conditions
    else LastConditions(Front(ps))
  }

  function OfKind(cs: seq<Condition>, kind: string): Option<Condition> {
    if cs == [] then None else if cs[0].kind == kind then Some(cs[0]) else OfKind(cs[1..], kind)
  }

  /** When the condition `c`, last written by the run, became what it is: the time of the payload
      that began the last stretch of payloads with just that condition among theirs, where
      payloads without conditions do not count. */
  function Since(ps: seq<Payload>, c: Condition): int {
    if ps == [] then c.time
    else if Last(ps).conditions == [] then Since(Front(ps), c)
    else
      var before := OfKind(LastConditions(Front(ps)), c.kind);
      if before.Some? && SameContent(before.value, c) then Since(Front(ps), before.value) else c.time
  }

  function SinceAll(ps: seq<Payload>): (r: seq<int>)
    ensures |r| == |LastConditions(ps)|
  {
    var cs := LastConditions(ps);
    seq(|cs|, i requires 0 <= i < |cs| => Floor(Since(ps, cs[i])))
  }

  lemma {:induction false} TimeForKind(cs: seq<Condition>, ts: seq<int>, c: Condition)
    requires |ts| == |cs|
    ensures var o := OfKind(cs, c.kind);
            if o.Some? && SameContent(o.value, c)
            then exists i :: 0 <= i < |cs| && cs[i] == o.value && TimeFor(cs, ts, c) == ts[i]
            else TimeFor(cs, ts, c) == Floor(c.time)
  {
    if cs != [] {
      TimeForKind(cs[1..], ts[1..], c);
      var o := OfKind(cs, c.kind);
      if cs[0].kind != c.kind && o.Some? && SameContent(o.value, c) {
        var i :| 0 <= i < |cs[1..]| && cs[1..][i] == o.value && TimeFor(cs[1..], ts[1..], c) == ts[1..][i];
        assert cs[i + 1] == o.value && ts[i + 1] == ts[1..][i];
      } else if cs[0].kind == c.kind {
        assert cs[0] == o.value;
      }
    }
  }

  /** Over every run of payloads, each with at most one condition of a type, the status holds the
      last conditions, each stamped with the time it became what it is. */
  lemma {:induction false} TransitionTimeOfRun(ps: seq<Payload>)
    requires forall p :: p in ps ==> DistinctKinds(p.conditions)
    ensures HasConditions(AfterRun(ps), LastConditions(ps), SinceAll(ps)) && DistinctKinds(LastConditions(ps))
  {
    hide Write, HasConditions, Floor;
    if ps == [] {
      NoConditions();
    } else {
      assert forall p :: p in Front(ps) ==> p in ps;
      assert Last(ps) in ps;
      TransitionTimeOfRun(Front(ps));
      var cs, ts, next := LastConditions(Front(ps)), SinceAll(Front(ps)), Last(ps).conditions;
      TransitionStep(AfterRun(Front(ps)), cs, ts, Last(ps));
      if next == [] {
        assert SinceAll(ps) == ts;
      } else {
        forall i | 0 <= i < |next| ensures TimesFor(cs, ts, next)[i] == SinceAll(ps)[i] {
          TimeForKind(cs, ts, next[i]);
        }
        assert TimesFor(cs, ts, next) == SinceAll(ps);
      }
    }
  }

  lemma NoConditions()
    ensures HasConditions(None, [], [])
  {
  }

  // ---- how often a settled object is written -------------------------------

  /** How many of a run of payloads are written. */
  function Writes(existing: Option<Fields>, qs: seq<Payload>): nat
    decreases |qs|
  {
    if qs == [] then 0
    else if StatusPatchIsNoop(existing, RenderStatus(qs[0], ExistingConditions(existing)), SyncTime(qs[0]))
    then Writes(existing, qs[1..])
    else 1 + Writes(Some(WrittenStatus(existing, qs[0])), qs[1..])
  }

  /** Reconciles of unchanged content by nodes on one clock: times never go back. */
  ghost predicate Settled(p: Payload, from: int, qs: seq<Payload>)
    decreases |qs|
  {
    qs == [] || (qs[0].sync.Some? && SamePayload(p, qs[0]) && from <= qs[0].sync.value
                 && Settled(p, qs[0].sync.value, qs[1..]))
  }

  function LastTime(from: int, qs: seq<Payload>): int {
    if qs == [] then from else SyncTime(qs[|qs| - 1])
  }

  lemma SamePayloadTrans(p: Payload, q: Payload, r: Payload)
    requires SamePayload(p, q) && SamePayload(p, r)
    ensures SamePayload(q, r)
  {
    forall i | 0 <= i < |q.conditions| ensures SameContent(q.conditions[i], r.conditions[i]) {
      assert SameContent(p.conditions[i], q.conditions[i]) && SameContent(p.conditions[i], r.conditions[i]);
    }
  }

  /** From a write at `w` on: each further write is nearly a refresh interval after the last. */
  lemma {:induction false} WritesAfter(status: Fields, p: Payload, w: int, qs: seq<Payload>)
    requires Shows(status, p) && Field(status, LAST_SYNCED) == Some(Written(w)) && Settled(p, w, qs)
    ensures Writes(Some(status), qs) * (REFRESH - SECOND) <= LastTime(w, qs) - w
    decreases |qs|
  {
    hide Shows, SamePayload, WrittenStatus, RenderStatus, StatusPatchIsNoop, ExistingConditions;
    if qs != [] {
      var t := qs[0].sync.value;
      ShownIsSkipped(status, p, qs[0]);
      if StatusPatchIsNoop(Some(status), RenderStatus(qs[0], ExistingConditions(Some(status))), SyncTime(qs[0])) {
        SettledEarlier(p, w, t, qs[1..]);
        WritesAfter(status, p, w, qs[1..]);
      } else {
        WriteShows(Some(status), qs[0]);
        SettledSame(p, qs[0], t, qs[1..]);
        WritesAfter(WrittenStatus(Some(status), qs[0]), qs[0], t, qs[1..]);
      }
    }
  }

  lemma SettledEarlier(p: Payload, from: int, t: int, qs: seq<Payload>)
    requires from <= t && Settled(p, t, qs)
    ensures Settled(p, from, qs) && LastTime(t, qs) >= LastTime(from, qs) >= from
  {
    LastTimeAfter(p, t, qs);
  }

  lemma {:induction false} LastTimeAfter(p: Payload, from: int, qs: seq<Payload>)
    requires Settled(p, from, qs)
    ensures LastTime(from, qs) >= from
    decreases |qs|
  {
    if qs != [] {
      LastTimeAfter(p, qs[0].sync.value, qs[1..]);
      if |qs| > 1 {
        assert qs[1..][|qs| - 2] == qs[|qs| - 1];
      }
    }
  }

  lemma {:induction false} SettledSame(p: Payload, q: Payload, from: int, qs: seq<Payload>)
    requires SamePayload(p, q) && Settled(p, from, qs)
    ensures Settled(q, from, qs)
    decreases |qs|
  {
    hide SamePayload;
    if qs != [] {
      SamePayloadTrans(p, q, qs[0]);
      SettledSame(p, q, qs[0].sync.value, qs[1..]);
    }
  }

  /** From any status: an object whose content does not change is written once, and after that
      at most once per refresh interval less a second, by all nodes together. */
  lemma {:induction false} SettledWrites(existing: Option<Fields>, p: Payload, from: int, qs: seq<Payload>)
    requires Settled(p, from, qs)
    ensures (Writes(existing, qs) - 1) * (REFRESH - SECOND) <= LastTime(from, qs) - from
    decreases |qs|
  {
    hide SamePayload, WrittenStatus, RenderStatus, StatusPatchIsNoop, ExistingConditions, Shows;
    LastTimeAfter(p, from, qs);
    if qs != [] {
      var t := qs[0].sync.value;
      if StatusPatchIsNoop(existing, RenderStatus(qs[0], ExistingConditions(existing)), SyncTime(qs[0])) {
        SettledEarlier(p, from, t, qs[1..]);
        SettledWrites(existing, p, from, qs[1..]);
      } else {
        WriteShows(existing, qs[0]);
        SettledSame(p, qs[0], t, qs[1..]);
        WritesAfter(WrittenStatus(existing, qs[0]), qs[0], t, qs[1..]);
      }
    }
  }

  /** Content without a sync time, as of pending peers, is written once at most. */
  lemma {:induction false} UnsyncedWrites(existing: Option<Fields>, p: Payload, qs: seq<Payload>)
    requires p.sync.None? && forall q :: q in qs ==> SamePayload(p, q)
    ensures Writes(existing, qs) <= 1
    ensures existing.Some? && Shows(existing.value, p) ==> Writes(existing, qs) == 0
    decreases |qs|
  {
    hide SamePayload, WrittenStatus, RenderStatus, StatusPatchIsNoop, ExistingConditions, Shows;
    if qs != [] {
      assert qs[0] in qs && forall q :: q in qs[1..] ==> q in qs;
      SameSync(p, qs[0]);
      if existing.Some? && Shows(existing.value, p) {
        ShownIsSkipped(existing.value, p, qs[0]);
      }
      UnsyncedWrites(existing, p, qs[1..]);
      var after := WrittenStatus(existing, qs[0]);
      WriteShows(existing, qs[0]);
      forall q | q in qs[1..] ensures SamePayload(qs[0], q) {
        SamePayloadTrans(p, qs[0], q);
      }
      UnsyncedWrites(Some(after), qs[0], qs[1..]);
    }
  }
}
