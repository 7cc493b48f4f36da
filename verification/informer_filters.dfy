/**
 Which object updates make the peer loop run: over any run of changes to an object, and over any
 run of updates of the nodes.
 */
module InformerFilters {
  import opened Prelude
  import opened JsonMerge
  import opened Seconds
  import opened StatusNoop

  // ---- custom objects ------------------------------------------------------

  datatype Meta = Meta(labels: map<string, string>, annotations: map<string, string>, deletion: Option<int>)

  /** A custom object; `deletion` is the instant of its deletionTimestamp. */
  datatype Object = Object(generation: int, meta: Meta, spec: Json, status: Option<Fields>)

  predicate MetadataChanged(o: Meta, n: Meta) {
    o.labels != n.labels || o.annotations != n.annotations || o.deletion != n.deletion
  }

  /** None is an object that cannot be read. */
  predicate CrdUpdateNeedsReconcile(o: Option<Object>, n: Option<Object>) {
    o.None? || n.None? || o.value.generation != n.value.generation || MetadataChanged(o.value.meta, n.value.meta)
  }

  /** What can happen to an object: a status write by some reconciler, made from the copy `view`
      it has of the status, or an edit of the spec or of the metadata. */
  datatype Change =
    | StatusWrite(payload: Payload, view: Option<Fields>)
    | SpecEdit(spec: Json)
    | MetaEdit(meta: Meta)

  /** The status after a write made from `view`. */
  function StatusAfter(status: Option<Fields>, p: Payload, view: Option<Fields>): Option<Fields> {
    var desired := RenderStatus(p, ExistingConditions(view));
    if StatusPatchIsNoop(view, desired, SyncTime(p)) then status else Some(Patched(status, desired))
  }

  /** The API server: a change of the spec bumps the generation, a write to the status subresource
      touches nothing else. */
  function Changed(o: Object, ch: Change): Object {
    match ch
    case StatusWrite(p, view) => o.(status := StatusAfter(o.status, p, view))
    case SpecEdit(spec) => if spec == o.spec then o else o.(spec := spec, generation := o.generation + 1)
    case MetaEdit(meta) => o.(meta := meta)
  }

  /** The versions of an object over a run of changes. */
  function Versions(o: Object, chs: seq<Change>): (vs: seq<Object>)
    ensures |vs| == |chs| + 1 && vs[0] == o
    decreases |chs|
  {
    if chs == [] then [o] else [o] + Versions(Changed(o, chs[0]), chs[1..])
  }

  /** How often the updates from one version to the next run the loop. */
  function Kicks(vs: seq<Object>): nat {
    if |vs| < 2 then 0
    else (if CrdUpdateNeedsReconcile(Some(vs[0]), Some(vs[1])) then 1 else 0) + Kicks(vs[1..])
  }

  /** How many of the changes give the object another spec, other labels, annotations or another
      deletion time. */
  function Edits(spec: Json, meta: Meta, chs: seq<Change>): nat
    decreases |chs|
  {
    if chs == [] then 0
    else
      match chs[0]
      case StatusWrite(_, _) => Edits(spec, meta, chs[1..])
      case SpecEdit(other) => (if other != spec then 1 else 0) + Edits(other, meta, chs[1..])
      case MetaEdit(other) => (if other != meta then 1 else 0) + Edits(spec, other, chs[1..])
  }

  /** Over every run of changes the loop is run once for each edit and for nothing else, whatever
      is written to the status in between, by whichever reconcilers and however old their copies.
      So a run without an edit never runs it, and one that never runs it has left spec and
      metadata as they were. */
  lemma {:induction false} KicksAreEdits(o: Object, chs: seq<Change>)
    ensures Kicks(Versions(o, chs)) == Edits(o.spec, o.meta, chs)
    ensures Kicks(Versions(o, chs)) == 0 ==> Last(Versions(o, chs)) == o.(status := Last(Versions(o, chs)).status)
    decreases |chs|
  {
    hide StatusAfter, RenderStatus, StatusPatchIsNoop, Patched;
    if chs != [] {
      var next := Changed(o, chs[0]);
      KicksAreEdits(next, chs[1..]);
      assert Versions(o, chs)[1..] == Versions(next, chs[1..]);
      assert Last(Versions(o, chs)) == Last(Versions(next, chs[1..]));
    }
  }

  // ---- versions the informer skips -----------------------------------------

  /** The generation never goes back, and tells the specs of an object's versions apart. */
  lemma {:induction false} GenerationTells(o: Object, chs: seq<Change>, i: nat, j: nat)
    requires i <= j <= |chs|
    ensures var vs := Versions(o, chs);
            vs[i].generation <= vs[j].generation && (vs[i].generation == vs[j].generation ==> vs[i].spec == vs[j].spec)
    decreases |chs|
  {
    hide StatusAfter;
    if j > 0 {
      var next := Changed(o, chs[0]);
      assert Versions(o, chs) == [o] + Versions(next, chs[1..]);
      if i > 0 {
        GenerationTells(next, chs[1..], i - 1, j - 1);
      } else {
        GenerationTells(next, chs[1..], 0, j - 1);
      }
    }
  }

  /** Indices of versions, in order. */
  ghost predicate Rising(ix: seq<nat>, n: nat) {
    (forall a :: 0 <= a < |ix| ==> ix[a] < n) && forall a, b :: 0 <= a < b < |ix| ==> ix[a] < ix[b]
  }

  function Picked(vs: seq<Object>, ix: seq<nat>): (r: seq<Object>)
    requires Rising(ix, |vs|)
    ensures |r| == |ix|
  {
    seq(|ix|, a requires 0 <= a < |ix| => vs[ix[a]])
  }

  /** An informer may skip versions: whichever it delivers, in order, if no update from one to the
      next runs the loop, the last has the spec and the metadata of the first. */
  lemma {:induction false} NoEditMissed(o: Object, chs: seq<Change>, ix: seq<nat>)
    requires ix != [] && Rising(ix, |chs| + 1) && Kicks(Picked(Versions(o, chs), ix)) == 0
    ensures var vs := Versions(o, chs);
            vs[Last(ix)].spec == vs[ix[0]].spec && vs[Last(ix)].meta == vs[ix[0]].meta
            && vs[Last(ix)].generation == vs[ix[0]].generation
    decreases |ix|
  {
    hide Versions;
    var vs := Versions(o, chs);
    if |ix| > 1 {
      var rest := ix[1..];
      assert Picked(vs, ix)[1..] == Picked(vs, rest);
      assert Picked(vs, ix)[0] == vs[ix[0]] && Picked(vs, ix)[1] == vs[ix[1]];
      NoEditMissed(o, chs, rest);
      GenerationTells(o, chs, ix[0], ix[1]);
    }
  }

  lemma {:induction false} UneditedVersion(o: Object, chs: seq<Change>, i: nat)
    requires Edits(o.spec, o.meta, chs) == 0 && i <= |chs|
    ensures var v := Versions(o, chs)[i]; v == o.(status := v.status)
    decreases |chs|
  {
    hide StatusAfter;
    if i > 0 {
      UneditedVersion(Changed(o, chs[0]), chs[1..], i - 1);
    }
  }

  /** And whichever versions of an unedited object it delivers, none runs the loop. */
  lemma {:induction false} SkippedWritesNeverKick(o: Object, chs: seq<Change>, ix: seq<nat>)
    requires Edits(o.spec, o.meta, chs) == 0 && Rising(ix, |chs| + 1)
    ensures Kicks(Picked(Versions(o, chs), ix)) == 0
    decreases |ix|
  {
    hide Versions, Edits;
    var vs := Versions(o, chs);
    if |ix| > 1 {
      assert Picked(vs, ix)[1..] == Picked(vs, ix[1..]);
      SkippedWritesNeverKick(o, chs, ix[1..]);
      UneditedVersion(o, chs, ix[0]);
      UneditedVersion(o, chs, ix[1]);
    }
  }

  // ---- an object left alone ------------------------------------------------

  /** Status writes of the payloads `qs`, one after another, each from the status there is. */
  function StatusWrites(status: Option<Fields>, qs: seq<Payload>): (chs: seq<Change>)
    ensures |chs| == |qs|
    decreases |qs|
  {
    if qs == [] then [] else [StatusWrite(qs[0], status)] + StatusWrites(Write(status, qs[0]), qs[1..])
  }

  lemma {:induction false} WritesEditNothing(spec: Json, meta: Meta, status: Option<Fields>, qs: seq<Payload>)
    ensures Edits(spec, meta, StatusWrites(status, qs)) == 0
    decreases |qs|
  {
    hide Write;
    if qs != [] {
      WritesEditNothing(spec, meta, Write(status, qs[0]), qs[1..]);
      assert StatusWrites(status, qs)[1..] == StatusWrites(Write(status, qs[0]), qs[1..]);
    }
  }

  /** How many versions differ from the one before. */
  function Rewrites(vs: seq<Object>): nat {
    if |vs| < 2 then 0 else (if vs[0] != vs[1] then 1 else 0) + Rewrites(vs[1..])
  }

  lemma {:induction false} RewritesAreWrites(o: Object, qs: seq<Payload>)
    ensures Rewrites(Versions(o, StatusWrites(o.status, qs))) <= Writes(o.status, qs)
    decreases |qs|
  {
    hide StatusPatchIsNoop, RenderStatus, ExistingConditions, Patched;
    if qs != [] {
      var chs := StatusWrites(o.status, qs);
      var next := Changed(o, chs[0]);
      assert next.status == Write(o.status, qs[0]);
      RewritesAreWrites(next, qs[1..]);
      assert chs[1..] == StatusWrites(next.status, qs[1..]);
      assert Versions(o, chs)[1..] == Versions(next, chs[1..]);
    }
  }

  /** Every version has the content of the first, times aside. */
  ghost predicate OnlyRefreshes(vs: seq<Object>) {
    vs != [] && forall i :: 0 <= i < |vs| ==>
      vs[i].status.Some? && vs[0].status.Some? && WithoutTimes(vs[i].status.value) == WithoutTimes(vs[0].status.value)
  }

  lemma {:induction false} Refreshes(o: Object, p: Payload, from: int, qs: seq<Payload>)
    requires o.status.Some? && Shows(o.status.value, p) && Settled(p, from, qs)
    ensures OnlyRefreshes(Versions(o, StatusWrites(o.status, qs)))
    decreases |qs|
  {
    hide StatusPatchIsNoop, RenderStatus, ExistingConditions, Patched, WithoutTimes, Shows, SamePayload;
    if qs != [] {
      var chs := StatusWrites(o.status, qs);
      var next := Changed(o, chs[0]);
      var q := qs[0];
      assert next.status == Write(o.status, q);
      if next.status == o.status {
        Refreshes(next, p, q.sync.value, qs[1..]);
      } else {
        WriteShows(o.status, q);
        SettledSame(p, q, q.sync.value, qs[1..]);
        ShownIsRefreshed(o.status.value, p, q);
        Refreshes(next, q, q.sync.value, qs[1..]);
      }
      assert chs[1..] == StatusWrites(next.status, qs[1..]);
      assert Versions(o, chs) == [o] + Versions(next, chs[1..]);
    }
  }

  /** An object that is left alone comes to rest, from any status: while reconcilers with
      up-to-date copies go on writing unchanged content, no update runs the loop, after the first
      write only times change, and the versions differ at most once per refresh interval less a
      second. */
  lemma {:induction false} ComesToRest(o: Object, p: Payload, from: int, qs: seq<Payload>) returns (first: nat)
    requires Settled(p, from, qs)
    ensures var vs := Versions(o, StatusWrites(o.status, qs));
            && Kicks(vs) == 0
            && (Rewrites(vs) - 1) * (REFRESH - SECOND) <= LastTime(from, qs) - from
            && first < |vs| && (forall i :: 0 <= i <= first ==> vs[i] == o)
            && (first + 1 < |vs| ==> OnlyRefreshes(vs[first + 1..]))
  {
    hide Settled, Writes, LastTime, Shows, OnlyRefreshes, Kicks, Rewrites, Versions, StatusWrites, Edits;
    var chs := StatusWrites(o.status, qs);
    KicksAreEdits(o, chs);
    WritesEditNothing(o.spec, o.meta, o.status, qs);
    RewritesAreWrites(o, qs);
    SettledWrites(o.status, p, from, qs);
    first := FirstWriteSettles(o, p, from, qs);
  }

  /** All versions up to the first write are the object as it was, all after it only refresh. */
  lemma {:induction false} FirstWriteSettles(o: Object, p: Payload, from: int, qs: seq<Payload>) returns (first: nat)
    requires Settled(p, from, qs)
    ensures var vs := Versions(o, StatusWrites(o.status, qs));
            && first < |vs| && (forall i :: 0 <= i <= first ==> vs[i] == o)
            && (first + 1 < |vs| ==> OnlyRefreshes(vs[first + 1..]))
    decreases |qs|
  {
    hide StatusPatchIsNoop, RenderStatus, ExistingConditions, Patched, OnlyRefreshes, Shows, SamePayload;
    first := 0;
    if qs != [] {
      var chs := StatusWrites(o.status, qs);
      var next := Changed(o, chs[0]);
      var q := qs[0];
      assert next.status == Write(o.status, q);
      assert chs[1..] == StatusWrites(next.status, qs[1..]);
      assert Versions(o, chs) == [o] + Versions(next, chs[1..]);
      if next == o {
        var later := FirstWriteSettles(next, p, q.sync.value, qs[1..]);
        first := later + 1;
        assert Versions(o, chs)[later + 2..] == Versions(next, chs[1..])[later + 1..];
      } else {
        WriteShows(o.status, q);
        SettledSame(p, q, q.sync.value, qs[1..]);
        Refreshes(next, q, q.sync.value, qs[1..]);
        assert Versions(o, chs)[1..] == Versions(next, chs[1..]);
      }
    }
  }

  // ---- nodes ---------------------------------------------------------------

  datatype Address = Address(kind: string, text: string)

  /** A node; `rest` is what else its status holds, which the kubelet's heartbeat moves. */
  datatype Node = Node(addresses: seq<Address>, spec: Json, meta: Meta, rest: Json)

  type Nodes = map<string, Node>

  predicate NodeUpdateNeedsReconcile(o: Option<Node>, n: Option<Node>) {
    || o.None? || n.None?
    || o.value.addresses != n.value.addresses || o.value.spec != n.value.spec
    || MetadataChanged(o.value.meta, n.value.meta)
  }

  /** An update of a node the informer knows, as it delivers it: versions it skips are not among
      the updates. */
  datatype NodeUpdate = NodeUpdate(name: string, node: Node)

  function Updated(nodes: Nodes, u: NodeUpdate): Nodes {
    if u.name in nodes then nodes[u.name := u.node] else nodes
  }

  function NodesAfter(nodes: Nodes, us: seq<NodeUpdate>): Nodes {
    if us == [] then nodes else Updated(NodesAfter(nodes, Front(us)), Last(us))
  }

  predicate NodeKicks(nodes: Nodes, u: NodeUpdate) {
    u.name in nodes && NodeUpdateNeedsReconcile(Some(nodes[u.name]), Some(u.node))
  }

  /** Some update of the run makes the loop run. */
  ghost predicate AnyKick(nodes: Nodes, us: seq<NodeUpdate>) {
    us != [] && (AnyKick(nodes, Front(us)) || NodeKicks(NodesAfter(nodes, Front(us)), Last(us)))
  }

  /** The peer addresses the loop makes of the nodes: their internal ones. */
  function InternalIps(nodes: Nodes): set<string> {
    set name, i | name in nodes && 0 <= i < |nodes[name].addresses| && nodes[name].addresses[i].kind == "InternalIP"
      :: nodes[name].addresses[i].text
  }

  /** The two differ in nothing but what heartbeats move. */
  ghost predicate SameButRest(a: Nodes, b: Nodes) {
    a.Keys == b.Keys && forall name :: name in a ==> b[name] == a[name].(rest := b[name].rest)
  }

  lemma SameIps(a: Nodes, b: Nodes)
    requires SameButRest(a, b)
    ensures InternalIps(a) == InternalIps(b)
  {
    forall name | name in a ensures a[name].addresses == b[name].addresses {
      assert b[name] == a[name].(rest := b[name].rest);
    }
  }

  /** No change of what the loop reads of the nodes is missed: over every run of node updates, if
      none runs the loop, the peer addresses, and all else but the rest of the nodes' status, are
      what they were at the start. */
  lemma {:induction false} NoNodeChangeMissed(nodes: Nodes, us: seq<NodeUpdate>)
    requires !AnyKick(nodes, us)
    ensures SameButRest(nodes, NodesAfter(nodes, us))
    ensures InternalIps(NodesAfter(nodes, us)) == InternalIps(nodes)
  {
    hide InternalIps;
    if us != [] {
      NoNodeChangeMissed(nodes, Front(us));
    }
    SameIps(nodes, NodesAfter(nodes, us));
  }

  /** And heartbeats, however many and of however many nodes, never run it. */
  lemma {:induction false} HeartbeatsNeverKick(nodes: Nodes, us: seq<NodeUpdate>)
    requires forall i :: 0 <= i < |us| && us[i].name in nodes ==> us[i].node == nodes[us[i].name].(rest := us[i].node.rest)
    ensures !AnyKick(nodes, us) && SameButRest(nodes, NodesAfter(nodes, us))
  {
    if us != [] {
      HeartbeatsNeverKick(nodes, Front(us));
      var before := NodesAfter(nodes, Front(us));
      if Last(us).name in nodes {
        assert Last(us) == us[|us| - 1];
        assert before[Last(us).name] == nodes[Last(us).name].(rest := before[Last(us).name].rest);
      }
    }
  }
}
