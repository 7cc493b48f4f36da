/**
 Emptying an account's file tree: depths by a memoised walk up the parents, deepest first,
 in batches, against a server that refuses to delete a folder with something in it.
 */
module FileNodeDestroy {
  import opened Prelude

  type Id = string

  /** Node -> parent; a parent that is no node of the account counts as none. */
  type Tree = map<Id, Option<Id>>

  predicate HasParent(t: Tree, n: Id) {
    n in t && t[n].Some? && t[n].value in t
  }

  /** Ranks that fall towards the root: the parents have no cycle. */
  ghost predicate Ranked(t: Tree, rank: map<Id, nat>) {
    && rank.Keys == t.Keys
    && forall n :: HasParent(t, n) ==> rank[t[n].value] < rank[n]
  }

  ghost predicate Acyclic(t: Tree) {
    exists rank :: Ranked(t, rank)
  }

  /** How many parents a node is below. */
  ghost function Height(t: Tree, rank: map<Id, nat>, n: Id): nat
    requires Ranked(t, rank) && n in t
    decreases rank[n]
  {
    if HasParent(t, n) then 1 + Height(t, rank, t[n].value) else 0
  }

  class DepthMemo {
    const tree: Tree
    var depth: map<Id, nat>

    constructor (tree: Tree)
      ensures this.tree == tree && depth == map[]
    {
      this.tree := tree;
      depth := map[];
    }

    /** What is in the memo is right, for every ranking there may be. */
    ghost predicate Right()
      reads this
    {
      && depth.Keys <= tree.Keys
      && forall rank, n :: Ranked(tree, rank) && n in depth ==> depth[n] == Height(tree, rank, n)
    }

    ghost predicate Above(n: Id, seen: set<Id>)
    {
      forall rank, m :: Ranked(tree, rank) && m in seen && m in tree && n in tree ==> rank[n] < rank[m]
    }

    /** `seen` holds the nodes the walk has come through; meeting one again is a cycle, and
        then the walk stops. */
    method Depth(n: Id, seen: set<Id>) returns (d: nat)
      requires n in tree && Right() && seen <= tree.Keys && Above(n, seen)
      modifies this`depth
      ensures Right() && old(depth.Keys) <= depth.Keys
      ensures forall rank :: Ranked(tree, rank) ==> d == Height(tree, rank, n)
      ensures n in depth || n in seen
      decreases |tree.Keys - seen|
    {
      if n in depth {
        return depth[n];
      }
      if n in seen {
        return 0;
      }
      assert tree.Keys - (seen + {n}) < tree.Keys - seen;
      Smaller(tree.Keys - (seen + {n}), tree.Keys - seen);
      if HasParent(tree, n) {
        d := Depth(tree[n].value, seen + {n});
        d := d + 1;
      } else {
        d := 0;
      }
      depth := depth[n := d];
    }

    /** Every node gets a depth, and on a tree without cycles the right one. */
    method AllDepths(nodes: seq<Id>)
      requires Right() && forall n :: n in nodes ==> n in tree
      modifies this`depth
      ensures Right() && forall n :: n in nodes ==> n in depth
    {
      for i := 0 to |nodes|
        invariant Right() && forall j :: 0 <= j < i ==> nodes[j] in depth
      {
        var d := Depth(nodes[i], {});
      }
    }
  }

  lemma Smaller(a: set<Id>, b: set<Id>)
    requires a < b
    ensures |a| < |b|
  {
    var x :| x in b && x !in a;
    assert a <= b - {x};
    SubsetSize(a, b - {x});
  }

  lemma {:induction false} SubsetSize(a: set<Id>, b: set<Id>)
    requires a <= b
    ensures |a| <= |b|
    decreases |a|
  {
    if a != {} {
      var x :| x in a;
      SubsetSize(a - {x}, b - {x});
    }
  }

  // ---- the order -----------------------------------------------------------

  lemma {:induction false} Deepest(ids: set<Id>, depth: map<Id, nat>) returns (n: Id)
    requires ids != {} && ids <= depth.Keys
    ensures n in ids && forall m :: m in ids ==> depth[m] <= depth[n]
    decreases |ids|
  {
    n :| n in ids;
    if ids != {n} {
      var rest := ids - {n};
      var m := Deepest(rest, depth);
      if depth[m] > depth[n] {
        n := m;
      }
    }
  }

  ghost predicate EachOnce(s: seq<Id>, ids: set<Id>) {
    && (forall n :: n in ids <==> n in s)
    && forall i, j :: 0 <= i < j < |s| ==> s[i] != s[j]
  }

  method DeepestFirst(ids: set<Id>, depth: map<Id, nat>) returns (ordered: seq<Id>)
    requires ids <= depth.Keys
    ensures EachOnce(ordered, ids) && forall i :: 0 <= i < |ordered| ==> ordered[i] in depth
    ensures forall i, j :: 0 <= i < j < |ordered| ==> depth[ordered[i]] >= depth[ordered[j]]
  {
    ordered := [];
    var rest := ids;
    while rest != {}
      invariant rest <= ids && EachOnce(ordered, ids - rest)
      invariant forall i :: 0 <= i < |ordered| ==> ordered[i] in depth
      invariant forall i, j :: 0 <= i < j < |ordered| ==> depth[ordered[i]] >= depth[ordered[j]]
      invariant forall i, m :: 0 <= i < |ordered| && m in rest ==> depth[ordered[i]] >= depth[m]
      decreases |rest|
    {
      ghost var top := Deepest(rest, depth);
      var n :| n in rest && forall m :: m in rest ==> depth[m] <= depth[n];
      ordered := ordered + [n];
      rest := rest - {n};
    }
    assert ids - rest == ids;
  }

  /** Every child comes before its parent. */
  ghost predicate ChildrenFirst(t: Tree, s: seq<Id>) {
    forall i, j :: 0 <= i < |s| && 0 <= j < |s| && HasParent(t, s[i]) && s[j] == t[s[i]].value ==> i < j
  }

  lemma OrderIsTopological(t: Tree, rank: map<Id, nat>, depth: map<Id, nat>, s: seq<Id>)
    requires Ranked(t, rank) && depth.Keys == t.Keys && EachOnce(s, t.Keys)
    requires forall n :: n in depth ==> depth[n] == Height(t, rank, n)
    requires forall i, j :: 0 <= i < j < |s| ==> depth[s[i]] >= depth[s[j]]
    ensures ChildrenFirst(t, s)
  {
    forall i, j | 0 <= i < |s| && 0 <= j < |s| && HasParent(t, s[i]) && s[j] == t[s[i]].value ensures i < j {
      assert s[i] in t.Keys && s[j] in t.Keys;
      assert Height(t, rank, s[i]) == 1 + Height(t, rank, s[j]);
      assert depth[s[i]] == depth[s[j]] + 1;
    }
  }

  // ---- the server ----------------------------------------------------------

  predicate HasChildren(t: Tree, n: Id) {
    exists c :: c in t && t[c] == Some(n)
  }

  /** One destroy: refused for an unknown node and for a folder with something in it. */
  function DestroyOne(t: Tree, n: Id): Tree {
    if n in t && !HasChildren(t, n) then t - {n} else t
  }

  function DestroyEach(t: Tree, ids: seq<Id>): Tree {
    if ids == [] then t else DestroyOne(DestroyEach(t, ids[..|ids| - 1]), ids[|ids| - 1])
  }

  lemma {:induction false} DestroyConcat(t: Tree, a: seq<Id>, b: seq<Id>)
    ensures DestroyEach(t, a + b) == DestroyEach(DestroyEach(t, a), b)
  {
    if b == [] {
      assert a + b == a;
    } else {
      assert (a + b)[..|a + b| - 1] == a + b[..|b| - 1];
      DestroyConcat(t, a, b[..|b| - 1]);
    }
  }

  function IdsOf(s: seq<Id>): set<Id> {
    set i | 0 <= i < |s| :: s[i]
  }

  /** Children first, no node is refused. */
  lemma {:induction false} NoneRefused(t: Tree, s: seq<Id>, k: nat)
    requires EachOnce(s, t.Keys) && ChildrenFirst(t, s) && k <= |s|
    ensures DestroyEach(t, s[..k]) == t - IdsOf(s[..k])
  {
    hide EachOnce, ChildrenFirst, HasChildren, IdsOf;
    if k == 0 {
      NoIds();
      assert s[..k] == [] && t - {} == t;
    } else {
      NoneRefused(t, s, k - 1);
      assert s[..k][..k - 1] == s[..k - 1];
      StillThere(t, s, k - 1);
      NoChildLeft(t, s, k - 1);
      assert s[..k] == s[..k - 1] + [s[k - 1]];
      IdsSnoc(s[..k - 1], s[k - 1]);
      MinusMinus(t, IdsOf(s[..k - 1]), s[k - 1]);
    }
  }

  lemma NoIds()
    ensures IdsOf([]) == {}
  {
  }

  lemma MinusMinus(t: Tree, a: set<Id>, n: Id)
    ensures t - a - {n} == t - (a + {n})
  {
  }

  lemma IdsSnoc(s: seq<Id>, n: Id)
    ensures IdsOf(s + [n]) == IdsOf(s) + {n}
  {
    var all := s + [n];
    forall m | m in IdsOf(s) ensures m in IdsOf(all) {
      var i :| 0 <= i < |s| && s[i] == m;
      assert all[i] == m;
    }
    assert all[|s|] == n;
  }

  lemma StillThere(t: Tree, s: seq<Id>, k: nat)
    requires EachOnce(s, t.Keys) && k < |s|
    ensures s[k] in t - IdsOf(s[..k])
  {
    assert s[k] in t.Keys;
  }

  lemma NoChildLeft(t: Tree, s: seq<Id>, k: nat)
    requires EachOnce(s, t.Keys) && ChildrenFirst(t, s) && k < |s|
    ensures !HasChildren(t - IdsOf(s[..k]), s[k])
  {
    assert forall j :: 0 <= j < k ==> s[..k][j] in IdsOf(s[..k]);
    forall c | c in t - IdsOf(s[..k]) ensures t[c] != Some(s[k]) {
      assert c in t.Keys && s[k] in t.Keys;
      var i :| 0 <= i < |s| && s[i] == c;
      assert forall j :: 0 <= j < k ==> s[j] == s[..k][j];
      assert t[c] == Some(s[k]) ==> HasParent(t, s[i]);
    }
  }

  /** Hence destroying them all, children first, leaves nothing. */
  lemma AllDestroyed(t: Tree, s: seq<Id>)
    requires EachOnce(s, t.Keys) && ChildrenFirst(t, s)
    ensures DestroyEach(t, s) == map[]
  {
    NoneRefused(t, s, |s|);
    assert s[..|s|] == s;
    forall n | n in t ensures n in IdsOf(s) {
      assert n in t.Keys;
    }
  }

  class Server {
    var nodes: Tree

    /** One FileNode/set call: it fails as a whole and does nothing, or tries each id in turn
        and tells how many it refused. */
    method Destroy(chunk: seq<Id>) returns (raised: bool, refused: nat)
      modifies this
      ensures raised ==> nodes == old(nodes)
      ensures !raised ==> nodes == DestroyEach(old(nodes), chunk)
      ensures !raised ==> refused <= |chunk| && |old(nodes)| == |nodes| + (|chunk| - refused)
    {
      raised := *;
      refused := 0;
      if raised {
        return;
      }
      for i := 0 to |chunk|
        invariant nodes == DestroyEach(old(nodes), chunk[..i])
        invariant refused <= i && |old(nodes)| == |nodes| + (i - refused)
      {
        assert chunk[..i + 1][..i] == chunk[..i];
        DestroyOneSize(nodes, chunk[i]);
        if chunk[i] in nodes && !HasChildren(nodes, chunk[i]) {
          nodes := nodes - {chunk[i]};
        } else {
          refused := refused + 1;
        }
      }
      assert chunk[..|chunk|] == chunk;
    }
  }

  lemma DestroyOneSize(t: Tree, n: Id)
    ensures n in t ==> |t - {n}| == |t| - 1
  {
    assert (t - {n}).Keys == t.Keys - {n};
    assert |t| == |t.Keys| && |t - {n}| == |(t - {n}).Keys|;
  }

  /** Destroy every node. The count is exact whatever fails; if no call fails as a whole and
      the parents have no cycle, nothing is left. */
  method DestroyTopologically(server: Server, listing: seq<Id>) returns (destroyed: nat, ghost raisedAny: bool)
    requires EachOnce(listing, server.nodes.Keys)
    modifies server
    ensures |old(server.nodes)| == |server.nodes| + destroyed
    ensures !raisedAny && Acyclic(old(server.nodes)) ==> server.nodes == map[]
  {
    hide EachOnce, Acyclic, DestroyEach;
    destroyed, raisedAny := 0, false;
    ghost var all := server.nodes;
    var ordered := PlanOrder(server.nodes, listing);
    var i := 0;
    DestroyNothing(all);
    assert ordered[..0] == [];
    while i < |ordered|
      invariant 0 <= i <= |ordered|
      invariant |all| == |server.nodes| + destroyed
      invariant !raisedAny ==> server.nodes == DestroyEach(all, ordered[..i])
    {
      var next := if i + 50 <= |ordered| then i + 50 else |ordered|;
      var raised, refused := server.Destroy(ordered[i..next]);
      if raised {
        raisedAny := true;
      } else {
        destroyed := destroyed + (next - i - refused);
        assert ordered[..next] == ordered[..i] + ordered[i..next];
        DestroyConcat(all, ordered[..i], ordered[i..next]);
      }
      i := next;
    }
    assert ordered[..|ordered|] == ordered;
    if Acyclic(all) {
      AllDestroyed(all, ordered);
    }
  }

  lemma DestroyNothing(t: Tree)
    ensures DestroyEach(t, []) == t
  {
  }

  /** The order in which a tree's nodes are destroyed: each once, and on a tree without cycles
      every child before its parent. */
  method PlanOrder(tree: Tree, listing: seq<Id>) returns (ordered: seq<Id>)
    requires EachOnce(listing, tree.Keys)
    ensures EachOnce(ordered, tree.Keys)
    ensures Acyclic(tree) ==> ChildrenFirst(tree, ordered)
  {
    var memo := new DepthMemo(tree);
    memo.AllDepths(listing);
    assert forall n :: n in tree.Keys ==> n in listing;
    ordered := DeepestFirst(tree.Keys, memo.depth);
    if Acyclic(tree) {
      ghost var rank :| Ranked(tree, rank);
      OrderIsTopological(tree, rank, memo.depth, ordered);
    }
  }
}
