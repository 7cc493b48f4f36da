/** Recreating a snapshot's file tree under the ids the target server hands out. */
module FileNodeRestore {
  import opened Prelude
  import opened Subsequence

  type Id = string

  /** A snapshot node; `uploads` is whether re-uploading its body, if it has one, succeeds. */
  datatype Node = Node(id: Option<Id>, parent: Option<Id>, file: bool, uploads: bool)

  datatype Mode = Replace | MergeSkipDuplicates | MergeOverwrite

  /** How the server answers for one node: the id it would give a new node, None for an error;
      whether it would take an update; and whether the call raises, when what it did is not
      reported. */
  datatype Answer = Answer(choice: Option<Id>, updates: bool, raises: bool)

  class Target {
    /** id -> parent id */
    var nodes: map<Id, Option<Id>>

    /** A new node gets an id that is not in use. */
    method Create(parent: Option<Id>, choice: Option<Id>) returns (r: Option<Id>)
      modifies this
      ensures r == if choice.Some? && choice.value !in old(nodes) then choice else None
      ensures nodes == if r.Some? then old(nodes)[r.value := parent] else old(nodes)
    {
      if choice.None? || choice.value in nodes {
        return None;
      }
      nodes := nodes[choice.value := parent];
      return choice;
    }

    /** An update without a parent leaves the parent alone. */
    method Update(id: Id, parent: Option<Id>, ok: bool)
      requires id in nodes
      modifies this
      ensures nodes == if ok && parent.Some? then old(nodes)[id := parent] else old(nodes)
    {
      if ok && parent.Some? {
        nodes := nodes[id := parent];
      }
    }
  }

  /** Folders first, then files, each in snapshot order. */
  function Only(nodes: seq<Node>, files: bool): seq<Node> {
    if nodes == [] then []
    else Only(nodes[..|nodes| - 1], files) + (if nodes[|nodes| - 1].file == files then [nodes[|nodes| - 1]] else [])
  }

  function Order(nodes: seq<Node>): seq<Node> {
    Only(nodes, false) + Only(nodes, true)
  }

  lemma {:induction false} OrderLength(nodes: seq<Node>)
    ensures |Order(nodes)| == |nodes|
  {
    if nodes != [] {
      OrderLength(nodes[..|nodes| - 1]);
    }
  }

  lemma {:induction false} OnlyExact(nodes: seq<Node>, files: bool)
    ensures Sub(Only(nodes, files), nodes)
    ensures forall n :: multiset(Only(nodes, files))[n] == if n.file == files then multiset(nodes)[n] else 0
  {
    hide Sub;
    SubNone(nodes);
    if nodes != [] {
      var front, last := nodes[..|nodes| - 1], nodes[|nodes| - 1];
      OnlyExact(front, files);
      assert nodes == front + [last];
      if last.file == files {
        SubTake(Only(front, files), front, last);
      } else {
        SubSkip(Only(front, files), front, last);
        assert Only(nodes, files) == Only(front, files);
      }
    }
  }

  /** The order has every node of the snapshot as often as that does, all folders before all files,
      and folders and files each in the snapshot's own order. */
  lemma OrderExact(nodes: seq<Node>) returns (folders: seq<Node>, files: seq<Node>)
    ensures Order(nodes) == folders + files && multiset(Order(nodes)) == multiset(nodes)
    ensures Sub(folders, nodes) && Sub(files, nodes)
    ensures (forall n :: n in folders ==> !n.file) && forall n :: n in files ==> n.file
  {
    hide Sub, Only;
    folders, files := Only(nodes, false), Only(nodes, true);
    OnlyExact(nodes, false);
    OnlyExact(nodes, true);
    forall n | n in folders ensures !n.file {
      assert multiset(folders)[n] > 0;
    }
    forall n | n in files ensures n.file {
      assert multiset(files)[n] > 0;
    }
    assert multiset(Order(nodes)) == multiset(folders) + multiset(files);
  }

  ghost predicate Injective(m: map<Id, Id>) {
    forall a, b :: a in m && b in m && m[a] == m[b] ==> a == b
  }

  /** Where a node that is being restored goes. */
  function Remapped(n: Node, m: map<Id, Id>): Option<Id> {
    if n.parent.Some? && n.parent.value in m then Some(m[n.parent.value]) else None
  }

  datatype Counts = Counts(created: nat, updated: nat, skipped: nat, failed: nat)

  function Total(c: Counts): nat {
    c.created + c.updated + c.skipped + c.failed
  }

  /** How far a restore has come. `raised` says that an exception has left the loop. */
  datatype Progress = Progress(counts: Counts, remap: map<Id, Id>, nodes: map<Id, Option<Id>>, raised: bool)

  /** What one node makes of it. */
  function NodeDone(mode: Mode, before: set<Id>, n: Node, a: Answer, p: Progress): Progress {
    var parent := Remapped(n, p.remap);
    if !n.uploads then p.(counts := p.counts.(failed := p.counts.failed + 1))
    else if n.id.Some? && n.id.value in before && mode.MergeSkipDuplicates? then
      p.(counts := p.counts.(skipped := p.counts.skipped + 1), remap := p.remap[n.id.value := n.id.value])
    else if n.id.Some? && n.id.value in before && mode.MergeOverwrite? then
      var moved := if a.updates && parent.Some? then p.nodes[n.id.value := parent] else p.nodes;
      if a.raises then p.(nodes := moved, raised := true)
      else if a.updates then
        p.(counts := p.counts.(updated := p.counts.updated + 1), remap := p.remap[n.id.value := n.id.value], nodes := moved)
      else p.(counts := p.counts.(failed := p.counts.failed + 1))
    else if a.choice.None? || a.choice.value in p.nodes then
      if a.raises then p.(raised := true) else p.(counts := p.counts.(failed := p.counts.failed + 1))
    else
      var grown := p.nodes[a.choice.value := parent];
      if a.raises then p.(nodes := grown, raised := true)
      else
        p.(counts := p.counts.(created := p.counts.created + 1), nodes := grown,
           remap := if n.id.Some? then p.remap[n.id.value := a.choice.value] else p.remap)
  }

  /** What becomes of one node, outcome by outcome: which counter it raises, what its id is mapped
      to, and what changes on the target. `known` is that the target had its id from the start. */
  lemma NodeOutcome(mode: Mode, before: set<Id>, n: Node, a: Answer, p: Progress)
    requires !p.raised
    ensures var q := NodeDone(mode, before, n, a, p);
            var known := n.id.Some? && n.id.value in before && mode != Replace;
            var parent := if n.parent.Some? && n.parent.value in p.remap then Some(p.remap[n.parent.value]) else None;
            var took := a.choice.Some? && a.choice.value !in p.nodes;
            && q.raised == (n.uploads && a.raises && !(known && mode == MergeSkipDuplicates))
            && q.counts.created == p.counts.created + (if n.uploads && !known && took && !a.raises then 1 else 0)
            && q.counts.skipped == p.counts.skipped + (if n.uploads && known && mode == MergeSkipDuplicates then 1 else 0)
            && q.counts.updated ==
               p.counts.updated + (if n.uploads && known && mode == MergeOverwrite && a.updates && !a.raises then 1 else 0)
            && q.counts.failed ==
               p.counts.failed +
               (if !n.uploads then 1
                else if q.raised || (known && mode == MergeSkipDuplicates) then 0
                else if known then (if a.updates then 0 else 1)
                else if took then 0 else 1)
            && q.nodes == (if !n.uploads || (known && mode == MergeSkipDuplicates) then p.nodes
                           else if known then (if a.updates && parent.Some? then p.nodes[n.id.value := parent] else p.nodes)
                           else if took then p.nodes[a.choice.value := parent] else p.nodes)
            && q.remap == (if n.id.None? then p.remap
                           else if q.counts.created > p.counts.created then p.remap[n.id.value := a.choice.value]
                           else if q.counts.skipped > p.counts.skipped || q.counts.updated > p.counts.updated
                           then p.remap[n.id.value := n.id.value] else p.remap)
  {
  }

  /** The progress after the first `i` nodes, or where it was left. */
  function Restored(mode: Mode, nodes: map<Id, Option<Id>>, order: seq<Node>, answers: seq<Answer>, i: nat): Progress
    requires i <= |order| == |answers|
  {
    if i == 0 then Progress(Counts(0, 0, 0, 0), map[], nodes, false)
    else
      var p := Restored(mode, nodes, order, answers, i - 1);
      if p.raised then p else NodeDone(mode, nodes.Keys, order[i - 1], answers[i - 1], p)
  }

  lemma {:induction false} RaisedStays(mode: Mode, nodes: map<Id, Option<Id>>, order: seq<Node>, answers: seq<Answer>, i: nat, j: nat)
    requires i <= j <= |order| == |answers| && Restored(mode, nodes, order, answers, i).raised
    ensures Restored(mode, nodes, order, answers, j) == Restored(mode, nodes, order, answers, i)
    decreases j
  {
    if i < j {
      RaisedStays(mode, nodes, order, answers, i, j - 1);
    }
  }

  /** The map sends snapshot ids to nodes of the target, and to a node the target had before
      only if it has the same id. */
  ghost predicate MapOk(m: map<Id, Id>, before: set<Id>, now: map<Id, Option<Id>>) {
    && Injective(m)
    && before <= now.Keys
    && forall k :: k in m ==> m[k] in now && (m[k] in before ==> m[k] == k)
  }

  lemma MapFresh(m: map<Id, Id>, before: set<Id>, now: map<Id, Option<Id>>, sid: Id, id: Id, parent: Option<Id>)
    requires MapOk(m, before, now) && id !in now
    ensures MapOk(m[sid := id], before, now[id := parent])
  {
  }

  lemma MapSame(m: map<Id, Id>, before: set<Id>, now: map<Id, Option<Id>>, sid: Id)
    requires MapOk(m, before, now) && sid in before
    ensures MapOk(m[sid := sid], before, now)
  {
  }

  /** Ids earlier in the order. */
  ghost predicate Earlier(order: seq<Node>, i: nat, id: Id)
    requires i <= |order|
  {
    exists j :: 0 <= j < i && order[j].id == Some(id)
  }

  ghost predicate DistinctIds(order: seq<Node>) {
    forall i, j :: 0 <= i < j < |order| && order[i].id.Some? ==> order[i].id != order[j].id
  }

  /** The node at `i` is in the target, under the image of its snapshot parent exactly when that
      came earlier, else at the root. */
  ghost predicate Placed(order: seq<Node>, i: nat, m: map<Id, Id>, now: map<Id, Option<Id>>)
    requires i < |order|
  {
    order[i].id.Some? ==>
      && order[i].id.value in m && m[order[i].id.value] in now
      && var at := now[m[order[i].id.value]];
         match order[i].parent
         case None => at == None
         case Some(p) => if Earlier(order, i, p) then p in m && at == Some(m[p]) else at == None
  }

  ghost predicate AllPlaced(order: seq<Node>, n: nat, m: map<Id, Id>, now: map<Id, Option<Id>>)
    requires n <= |order|
  {
    && (forall k :: k in m <==> Earlier(order, n, k))
    && (forall k :: k in m ==> m[k] in now)
    && forall i :: 0 <= i < n ==> Placed(order, i, m, now)
  }

  /** Creating the next node keeps the nodes before it where they are. */
  lemma PlacedStep(order: seq<Node>, n: nat, m: map<Id, Id>, now: map<Id, Option<Id>>, id: Id)
    requires n < |order| && DistinctIds(order) && AllPlaced(order, n, m, now) && id !in now
    ensures var now2 := now[id := Remapped(order[n], m)];
            var m2 := if order[n].id.Some? then m[order[n].id.value := id] else m;
            AllPlaced(order, n + 1, m2, now2)
  {
    var node := order[n];
    var now2 := now[id := Remapped(node, m)];
    var m2 := if node.id.Some? then m[node.id.value := id] else m;
    assert node.id.Some? ==> !Earlier(order, n, node.id.value);
    forall k ensures k in m2 <==> Earlier(order, n + 1, k) {
      if k in m2 && k !in m {
        assert order[n].id == Some(k);
      }
    }
    forall i | 0 <= i < n ensures Placed(order, i, m2, now2) {
      assert Placed(order, i, m, now);
      if order[i].id.Some? {
        assert Earlier(order, n, order[i].id.value);
        if order[i].parent.Some? && Earlier(order, i, order[i].parent.value) {
          assert Earlier(order, n, order[i].parent.value);
        }
      }
    }
    assert Placed(order, n, m2, now2) by {
      if node.parent.Some? {
        assert node.parent.value in m <==> Earlier(order, n, node.parent.value);
      }
    }
  }

  /** `n` was created as `id`, under the image of its parent as far as the map has it. */
  ghost predicate NewNode(n: Node, m: map<Id, Id>, was: map<Id, Option<Id>>, m': map<Id, Id>, now: map<Id, Option<Id>>, id: Id) {
    && id !in was && now == was[id := Remapped(n, m)]
    && m' == if n.id.Some? then m[n.id.value := id] else m
  }

  /** One node: skipped, updated, created or failed, unless the call raises. */
  method RestoreNode(target: Target, mode: Mode, before: set<Id>,
                     n: Node, answer: Answer, c: Counts, m: map<Id, Id>)
    returns (c': Counts, m': map<Id, Id>, raised: bool, ghost id: Id)
    requires MapOk(m, before, target.nodes)
    modifies target
    ensures Progress(c', m', target.nodes, raised) == NodeDone(mode, before, n, answer, Progress(c, m, old(target.nodes), false))
    ensures Total(c') == Total(c) + (if raised then 0 else 1) && c.created <= c'.created <= c.created + 1
    ensures MapOk(m', before, target.nodes)
    ensures c'.created == c.created + 1 ==> NewNode(n, m, old(target.nodes), m', target.nodes, id)
  {
    hide MapOk;
    c', m', raised, id := c, m, false, "";
    if !n.uploads {
      c' := c.(failed := c.failed + 1);
      return;
    }
    var parent := Remapped(n, m);
    ghost var was := target.nodes;
    if n.id.Some? && n.id.value in before && !mode.Replace? {
      if mode.MergeSkipDuplicates? {
        MapSame(m, before, target.nodes, n.id.value);
        c', m' := c.(skipped := c.skipped + 1), m[n.id.value := n.id.value];
        return;
      }
      BeforeStays(m, before, was);
      target.Update(n.id.value, parent, answer.updates);
      SameKeys(m, before, was, target.nodes);
      if answer.raises {
        raised := true;
      } else if answer.updates {
        MapSame(m, before, target.nodes, n.id.value);
        c', m' := c.(updated := c.updated + 1), m[n.id.value := n.id.value];
      } else {
        c' := c.(failed := c.failed + 1);
      }
      return;
    }
    var r := target.Create(parent, answer.choice);
    if r.Some? {
      WiderTarget(m, before, was, r.value, parent);
    }
    if answer.raises {
      raised := true;
      return;
    }
    if r.None? {
      c' := c.(failed := c.failed + 1);
      return;
    }
    id := r.value;
    c' := c.(created := c.created + 1);
    if n.id.Some? {
      MapFresh(m, before, was, n.id.value, id, parent);
      m' := m[n.id.value := r.value];
    }
  }

  ghost predicate PlacedSoFar(order: seq<Node>, i: nat, created: nat, m: map<Id, Id>, now: map<Id, Option<Id>>) {
    i <= |order| && (created == i && DistinctIds(order) ==> AllPlaced(order, i, m, now))
  }

  lemma PlacedSoFarStep(order: seq<Node>, i: nat, c: Counts, m: map<Id, Id>, was: map<Id, Option<Id>>,
                        c': Counts, m': map<Id, Id>, now: map<Id, Option<Id>>, id: Id)
    requires i < |order| && PlacedSoFar(order, i, c.created, m, was) && c.created <= i
    requires c.created <= c'.created <= c.created + 1
    requires c'.created == c.created + 1 ==> NewNode(order[i], m, was, m', now, id)
    ensures PlacedSoFar(order, i + 1, c'.created, m', now)
  {
    hide AllPlaced, DistinctIds;
    if c'.created == i + 1 && DistinctIds(order) {
      PlacedStep(order, i, m, was, id);
    }
  }

  method RestoreInOrder(target: Target, mode: Mode, order: seq<Node>, answers: seq<Answer>)
    returns (c: Counts, m: map<Id, Id>, raised: bool)
    requires |answers| == |order|
    modifies target
    ensures Progress(c, m, target.nodes, raised) == Restored(mode, old(target.nodes), order, answers, |order|)
    ensures if raised then Total(c) < |order| else Total(c) == |order|
    ensures MapOk(m, old(target.nodes).Keys, target.nodes)
    ensures !raised ==> PlacedSoFar(order, |order|, c.created, m, target.nodes)
  {
    hide MapOk, PlacedSoFar, NewNode, Total, NodeDone;
    ghost var start := target.nodes;
    var existing := target.nodes.Keys;
    c, m, raised := Counts(0, 0, 0, 0), map[], false;
    Nothing(order, target.nodes);
    var i := 0;
    while i < |order|
      invariant 0 <= i <= |order| && Total(c) == i && c.created <= i && !raised
      invariant MapOk(m, existing, target.nodes)
      invariant PlacedSoFar(order, i, c.created, m, target.nodes)
      invariant Progress(c, m, target.nodes, false) == Restored(mode, start, order, answers, i)
    {
      ghost var was := target.nodes;
      ghost var id;
      var c1, m1;
      c1, m1, raised, id := RestoreNode(target, mode, existing, order[i], answers[i], c, m);
      if raised {
        RaisedStays(mode, start, order, answers, i + 1, |order|);
        return c1, m1, true;
      }
      PlacedSoFarStep(order, i, c, m, was, c1, m1, target.nodes, id);
      c, m, i := c1, m1, i + 1;
    }
  }

  /** Restore the nodes. In every mode and whatever fails, each node reached is counted once, all
      are reached unless a call raises, and no two snapshot ids end on one target node. When every
      node was created and the ids are distinct, each node stands under the image of its snapshot
      parent if that came before it, and at the root otherwise. */
  method Restore(target: Target, mode: Mode, nodes: seq<Node>, answers: seq<Answer>)
    returns (c: Counts, m: map<Id, Id>, raised: bool)
    requires |answers| == |nodes|
    modifies target
    ensures |Order(nodes)| == |nodes|
    ensures Progress(c, m, target.nodes, raised) == Restored(mode, old(target.nodes), Order(nodes), answers, |nodes|)
    ensures if raised then Total(c) < |nodes| else Total(c) == |nodes|
    ensures MapOk(m, old(target.nodes).Keys, target.nodes)
    ensures !raised ==> PlacedSoFar(Order(nodes), |nodes|, c.created, m, target.nodes)
  {
    hide MapOk, PlacedSoFar, Order, Restored;
    OrderLength(nodes);
    c, m, raised := RestoreInOrder(target, mode, Order(nodes), answers);
  }

  lemma Nothing(order: seq<Node>, now: map<Id, Option<Id>>)
    ensures MapOk(map[], now.Keys, now) && PlacedSoFar(order, 0, 0, map[], now)
    ensures Total(Counts(0, 0, 0, 0)) == 0
  {
  }

  lemma BeforeStays(m: map<Id, Id>, before: set<Id>, now: map<Id, Option<Id>>)
    requires MapOk(m, before, now)
    ensures before <= now.Keys
  {
  }

  lemma SameKeys(m: map<Id, Id>, before: set<Id>, was: map<Id, Option<Id>>, now: map<Id, Option<Id>>)
    requires MapOk(m, before, was) && was.Keys == now.Keys
    ensures MapOk(m, before, now)
  {
  }

  lemma WiderTarget(m: map<Id, Id>, before: set<Id>, was: map<Id, Option<Id>>, id: Id, parent: Option<Id>)
    requires MapOk(m, before, was)
    ensures MapOk(m, before, was[id := parent])
  {
  }

  // ---- when the order is right ---------------------------------------------

  ghost predicate HasFolder(nodes: seq<Node>, id: Option<Id>) {
    exists n :: n in nodes && !n.file && n.id == id
  }

  /** Every parent is a folder of the snapshot and is listed before its children. */
  ghost predicate ParentsFirst(nodes: seq<Node>) {
    nodes == [] ||
    (var front, last := nodes[..|nodes| - 1], nodes[|nodes| - 1];
     ParentsFirst(front) && (last.parent.Some? ==> HasFolder(front, last.parent)))
  }

  lemma ParentsSnoc(nodes: seq<Node>, x: Node)
    requires ParentsFirst(nodes) && (x.parent.Some? ==> HasFolder(nodes, x.parent))
    ensures ParentsFirst(nodes + [x])
  {
    assert (nodes + [x])[..|nodes|] == nodes;
  }

  lemma {:induction false} FoldersKept(nodes: seq<Node>, id: Option<Id>)
    requires HasFolder(nodes, id)
    ensures HasFolder(Only(nodes, false), id)
  {
    var front, last := nodes[..|nodes| - 1], nodes[|nodes| - 1];
    if last.file || last.id != id {
      assert HasFolder(front, id) by {
        var n :| n in nodes && !n.file && n.id == id;
        assert nodes == front + [last];
      }
      FoldersKept(front, id);
      var n :| n in Only(front, false) && !n.file && n.id == id;
      assert n in Only(nodes, false);
    } else {
      assert last in Only(nodes, false);
    }
  }

  lemma {:induction false} FoldersParents(nodes: seq<Node>)
    requires ParentsFirst(nodes)
    ensures ParentsFirst(Only(nodes, false))
    ensures forall n :: n in Only(nodes, true) && n.parent.Some? ==> HasFolder(Only(nodes, false), n.parent)
  {
    hide HasFolder;
    if nodes != [] {
      var front, last := nodes[..|nodes| - 1], nodes[|nodes| - 1];
      FoldersParents(front);
      if last.parent.Some? {
        FoldersKept(front, last.parent);
      }
      if !last.file {
        ParentsSnoc(Only(front, false), last);
        forall n | n in Only(nodes, true) && n.parent.Some? ensures HasFolder(Only(nodes, false), n.parent) {
          MoreFolders(Only(front, false), [last], n.parent);
        }
      } else {
        assert Only(nodes, false) == Only(front, false);
      }
    }
  }

  lemma MoreFolders(a: seq<Node>, b: seq<Node>, id: Option<Id>)
    requires HasFolder(a, id)
    ensures HasFolder(a + b, id)
  {
    var n :| n in a && !n.file && n.id == id;
    assert n in a + b;
  }

  lemma {:induction false} FilesAfter(a: seq<Node>, b: seq<Node>)
    requires ParentsFirst(a) && forall n :: n in b && n.parent.Some? ==> HasFolder(a, n.parent)
    ensures ParentsFirst(a + b)
  {
    if b == [] {
      assert a + b == a;
    } else {
      var front, last := b[..|b| - 1], b[|b| - 1];
      FilesAfter(a, front);
      if last.parent.Some? {
        MoreFolders(a, front, last.parent);
      }
      ParentsSnoc(a + front, last);
      assert a + b == (a + front) + [last];
    }
  }

  lemma {:induction false} ParentEarlier(order: seq<Node>, i: nat)
    requires ParentsFirst(order) && i < |order| && order[i].parent.Some?
    ensures Earlier(order, i, order[i].parent.value)
  {
    var front := order[..|order| - 1];
    if i < |front| {
      ParentEarlier(front, i);
      var j :| 0 <= j < i && front[j].id == Some(front[i].parent.value);
      assert order[j] == front[j];
    } else {
      var n :| n in front && !n.file && n.id == order[i].parent;
      var j :| 0 <= j < |front| && front[j] == n;
      assert order[j] == n;
    }
  }

  /** A snapshot that lists parents before children comes out as the same tree: every node
      under the image of its parent, the rootless at the root. */
  lemma TreeRestored(nodes: seq<Node>, m: map<Id, Id>, now: map<Id, Option<Id>>, i: nat)
    requires ParentsFirst(nodes) && AllPlaced(Order(nodes), |Order(nodes)|, m, now)
    requires i < |Order(nodes)| && Order(nodes)[i].id.Some?
    ensures var n := Order(nodes)[i];
            && n.id.value in m && m[n.id.value] in now
            && (n.parent.None? ==> now[m[n.id.value]] == None)
            && (n.parent.Some? ==> n.parent.value in m && now[m[n.id.value]] == Some(m[n.parent.value]))
  {
    var order := Order(nodes);
    FoldersParents(nodes);
    FilesAfter(Only(nodes, false), Only(nodes, true));
    assert Placed(order, i, m, now);
    if order[i].parent.Some? {
      ParentEarlier(order, i);
    }
  }

  /** A folder listed before its parent is created at the root: the order is the snapshot's own,
      it is not sorted. Here a restore of such a snapshot into an empty target, in any mode, where
      the server takes everything under the ids `a` and `b`. */
  lemma ChildListedFirst(mode: Mode, child: Id, parent: Id, a: Id, b: Id)
    requires child != parent && a != b
    ensures var nodes := [Node(Some(child), Some(parent), false, true), Node(Some(parent), None, false, true)];
            && Order(nodes) == nodes
            && Restored(mode, map[], nodes, [Answer(Some(a), true, false), Answer(Some(b), true, false)], 2) ==
               Progress(Counts(2, 0, 0, 0), map[child := a, parent := b], map[a := None, b := None], false)
  {
    var first, second := Node(Some(child), Some(parent), false, true), Node(Some(parent), None, false, true);
    var nodes := [first, second];
    assert nodes[..1] == [first] && [first][..0] == [];
    assert Only([first], false) == [first] && Only([first], true) == [];
    var answers := [Answer(Some(a), true, false), Answer(Some(b), true, false)];
    assert Restored(mode, map[], nodes, answers, 1) ==
           Progress(Counts(1, 0, 0, 0), map[child := a], map[a := None], false);
  }
}
