/**
 * The checks computeLnProbability of the state-dependent
 * speciation-extinction process makes before it computes anything: a tree
 * that fails one of them has probability 0 (log probability -infinity).
 */
module SseValidity {
  import opened TreeArena

  function Age(t: Tree, i: nat): real
    requires i < |t.nodes|
  {
    t.nodes[i].age
  }

  /** Every node other than the root names a parent inside the arena: the
      part of a valid arena the checks need. */
  predicate ParentsInRange(nodes: seq<Node>, root: nat)
  {
    forall i :: 0 <= i < |nodes| && i != root ==> 0 <= nodes[i].parent < |nodes|
  }

  /** Node i, not the root, is older than its parent. */
  predicate OlderThanParent(nodes: seq<Node>, root: nat, i: nat)
    requires ParentsInRange(nodes, root) && i < |nodes| && i != root
  {
    nodes[i].age - nodes[nodes[i].parent].age > 0.0
  }

  /** No node is older than its parent. */
  predicate ChronologyOk(t: Tree)
    requires Valid(t)
  {
    forall i :: 0 <= i < |t.nodes| && i != t.root ==> !OlderThanParent(t.nodes, t.root, i)
  }

  /** Every sampled ancestor is a fossil on a branch of length zero. */
  predicate SampledAncestorsOk(nodes: seq<Node>)
  {
    forall i :: 0 <= i < |nodes| && nodes[i].sampledAncestor ==>
      nodes[i].fossil && nodes[i].branchLength <= 0.0
  }

  /** Conditioned on the root, the root must be a true bifurcation: neither
      of its children may be a sampled ancestor. */
  predicate RootChildrenOk(t: Tree, useOrigin: bool)
    requires Valid(t) && !IsTip(t, t.root)
  {
    useOrigin || (!t.nodes[Left(t, t.root)].sampledAncestor && !t.nodes[Right(t, t.root)].sampledAncestor)
  }

  /** The process's root age: the tree's root age when the process starts at
      an origin, the process age otherwise. */
  function RootAge(t: Tree, useOrigin: bool, originAge: real): real
    requires Valid(t)
  {
    if useOrigin then Age(t, t.root) else originAge
  }

  /** The root is no older than the process and sits at the process's root age. */
  predicate RootAgeOk(t: Tree, useOrigin: bool, originAge: real)
    requires Valid(t)
  {
    !(Age(t, t.root) > originAge || Age(t, t.root) != RootAge(t, useOrigin, originAge))
  }

  /** Neither child of the root is older than the root. */
  predicate RootChildrenYounger(t: Tree)
    requires Valid(t) && !IsTip(t, t.root)
  {
    var ra := Age(t, t.root);
    !(ra < Age(t, Left(t, t.root))) && !(ra < Age(t, Right(t, t.root)))
  }

  /** All the checks together: the trees with a non-zero probability. */
  predicate Admissible(t: Tree, useOrigin: bool, originAge: real)
    requires Valid(t) && !IsTip(t, t.root)
  {
    && ChronologyOk(t)
    && SampledAncestorsOk(t.nodes)
    && RootChildrenOk(t, useOrigin)
    && RootAgeOk(t, useOrigin, originAge)
    && RootChildrenYounger(t)
  }

  /** The first loop of computeLnProbability: no node older than its parent. */
  method CheckChronology(nodes: seq<Node>, root: nat) returns (ok: bool)
    requires ParentsInRange(nodes, root)
    ensures ok <==> forall i :: 0 <= i < |nodes| && i != root ==> !OlderThanParent(nodes, root, i)
  {
    for i := 0 to |nodes|
      invariant forall j :: 0 <= j < i && j != root ==> !OlderThanParent(nodes, root, j)
    {
      if i != root {
        var node := nodes[i];
        var parentAge := nodes[node.parent].age;
        if node.age - parentAge > 0.0 && !node.sampledAncestor {
          assert OlderThanParent(nodes, root, i);
          return false;
        } else if node.age - parentAge > 0.0 && node.sampledAncestor {
          assert OlderThanParent(nodes, root, i);
          return false;
        }
      }
    }
    return true;
  }

  /** The second loop: sampled ancestors are fossils with zero branch length. */
  method CheckSampledAncestors(nodes: seq<Node>) returns (ok: bool)
    ensures ok <==> SampledAncestorsOk(nodes)
  {
    for i := 0 to |nodes|
      invariant forall j :: 0 <= j < i && nodes[j].sampledAncestor ==> nodes[j].fossil && nodes[j].branchLength <= 0.0
    {
      if nodes[i].sampledAncestor {
        if !nodes[i].fossil {
          return false;
        } else if nodes[i].branchLength > 0.0 {
          return false;
        }
      }
    }
    return true;
  }

  /** The last loop: no child of the root older than the root. */
  method CheckRootChildren(t: Tree) returns (ok: bool)
    requires Valid(t) && !IsTip(t, t.root)
    ensures ok <==> RootChildrenYounger(t)
  {
    var ra := t.nodes[t.root].age;
    var c := t.nodes[t.root].children;
    for k := 0 to |c|
      invariant forall j :: 0 <= j < k ==> !(ra < t.nodes[c[j]].age)
    {
      if ra < t.nodes[c[k]].age {
        return false;
      }
    }
    return true;
  }

  /** The checks as computeLnProbability makes them, in order, returning at
      the first one that fails. */
  method CheckTree(t: Tree, useOrigin: bool, originAge: real) returns (ok: bool)
    requires Valid(t) && !IsTip(t, t.root)
    ensures ok <==> Admissible(t, useOrigin, originAge)
  {
    ok := CheckChronology(t.nodes, t.root);
    if !ok {
      return;
    }
    ok := CheckSampledAncestors(t.nodes);
    if !ok {
      return;
    }
    var root := t.nodes[t.root];
    if !useOrigin && (t.nodes[root.children[0]].sampledAncestor || t.nodes[root.children[1]].sampledAncestor) {
      return false;
    }
    var ra := root.age;
    if ra > originAge || ra != RootAge(t, useOrigin, originAge) {
      return false;
    }
    ok := CheckRootChildren(t);
  }

  /** The ages never increase on the way from a node to the root. */
  lemma {:induction false} AgesIncreaseTowardsRoot(t: Tree, i: nat, a: nat)
    requires Valid(t) && i < |t.nodes| && ChronologyOk(t) && a in AncestorsOrSelf(t, i)
    ensures a < |t.nodes| && Age(t, i) <= Age(t, a)
    decreases t.depth[i]
  {
    if a != i {
      assert i != t.root;
      var p := Parent(t, i);
      assert !OlderThanParent(t.nodes, t.root, i);
      AgesIncreaseTowardsRoot(t, p, a);
    }
  }

  /** Every node below a node is at most as old as it; in particular every
      node is at most as old as the root. */
  lemma SubtreeNoOlder(t: Tree, i: nat, m: nat)
    requires Valid(t) && i < |t.nodes| && ChronologyOk(t) && m in Subtree(t, i)
    ensures m < |t.nodes| && Age(t, m) <= Age(t, i)
  {
    SubtreeBelow(t, i, m);
    SubtreeIffAncestor(t, i, m);
    AgesIncreaseTowardsRoot(t, m, i);
  }

  /** The last check is implied by the first: in a tree whose ages are in
      chronological order no child of the root is older than the root. */
  lemma RootChildrenCheckRedundant(t: Tree)
    requires Valid(t) && !IsTip(t, t.root) && ChronologyOk(t)
    ensures RootChildrenYounger(t)
  {
    var l, r := Left(t, t.root), Right(t, t.root);
    assert !OlderThanParent(t.nodes, t.root, l) && !OlderThanParent(t.nodes, t.root, r);
  }

  /** Conditioned on the root, an admissible tree's root is exactly as old as
      the process; started at an origin, the root is no older than it. */
  lemma AdmissibleRootAge(t: Tree, useOrigin: bool, originAge: real)
    requires Valid(t) && !IsTip(t, t.root) && Admissible(t, useOrigin, originAge)
    ensures !useOrigin ==> Age(t, t.root) == originAge
    ensures Age(t, t.root) <= originAge
    ensures RootAge(t, useOrigin, originAge) == Age(t, t.root)
  {
  }
}
