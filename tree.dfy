/**
 * The rooted binary tree both likelihood engines walk, as an arena of nodes
 * addressed by dense integer index. Parent and child links are indices; the
 * root's parent is -1. `depth` records, per node, the number of edges to the
 * root: it makes the arena's acyclicity explicit and gives recursion towards
 * the root or towards the tips a measure that decreases.
 */
module TreeArena {

  datatype Node = Node(
    parent: int,
    children: seq<nat>,
    age: real,
    branchLength: real,
    sampledAncestor: bool,
    fossil: bool)

  datatype Tree = Tree(nodes: seq<Node>, root: nat, depth: seq<nat>)

  /** A well-formed arena: one root, every other node has a parent one level
      closer to the root, nodes are tips or bifurcations, and parent and child
      links agree in both directions. */
  predicate Valid(t: Tree)
  {
    var n := |t.nodes|;
    && t.root < n
    && |t.depth| == n
    && t.nodes[t.root].parent == -1
    && t.depth[t.root] == 0
    && (forall i {:trigger t.depth[i]} :: 0 <= i < n ==> t.depth[i] < n)
    && (forall i {:trigger t.nodes[i].parent} :: 0 <= i < n && i != t.root ==>
          0 <= t.nodes[i].parent < n && t.depth[i] == t.depth[t.nodes[i].parent] + 1
          && |t.nodes[t.nodes[i].parent].children| == 2
          && (t.nodes[t.nodes[i].parent].children[0] == i || t.nodes[t.nodes[i].parent].children[1] == i))
    && (forall i {:trigger t.nodes[i].children} :: 0 <= i < n ==>
          |t.nodes[i].children| == 0 ||
          (|t.nodes[i].children| == 2 && t.nodes[i].children[0] != t.nodes[i].children[1]))
    && (forall i, k {:trigger t.nodes[i].children[k]} :: 0 <= i < n && 0 <= k < |t.nodes[i].children| ==>
          t.nodes[i].children[k] < n && t.nodes[t.nodes[i].children[k]].parent == i)
  }

  function Size(t: Tree): nat { |t.nodes| }

  predicate IsNode(t: Tree, i: int) { 0 <= i < |t.nodes| }

  predicate IsTip(t: Tree, i: nat)
    requires i < |t.nodes|
  {
    |t.nodes[i].children| == 0
  }

  function Parent(t: Tree, i: nat): (p: nat)
    requires Valid(t) && i < |t.nodes| && i != t.root
    ensures p < |t.nodes| && t.depth[p] < t.depth[i]
  {
    t.nodes[i].parent
  }

  function Left(t: Tree, i: nat): (c: nat)
    requires Valid(t) && i < |t.nodes| && !IsTip(t, i)
    ensures c < |t.nodes| && c != t.root && t.depth[c] == t.depth[i] + 1
  {
    t.nodes[i].children[0]
  }

  function Right(t: Tree, i: nat): (c: nat)
    requires Valid(t) && i < |t.nodes| && !IsTip(t, i)
    ensures c < |t.nodes| && c != t.root && t.depth[c] == t.depth[i] + 1
    ensures c != Left(t, i)
  {
    t.nodes[i].children[1]
  }

  /** Node `i` and every node on its path to the root. */
  function AncestorsOrSelf(t: Tree, i: nat): (s: set<nat>)
    requires Valid(t) && i < |t.nodes|
    decreases t.depth[i]
  {
    if i == t.root then {i} else {i} + AncestorsOrSelf(t, Parent(t, i))
  }

  /** Node `i` and every node below it. */
  function Subtree(t: Tree, i: nat): (s: set<nat>)
    requires Valid(t) && i < |t.nodes|
    decreases |t.nodes| - t.depth[i]
  {
    if IsTip(t, i) then {i}
    else {i} + Subtree(t, Left(t, i)) + Subtree(t, Right(t, i))
  }

  /** Every node in a subtree lies in the arena and is no closer to the root
      than the subtree's top. */
  lemma {:induction false} SubtreeBelow(t: Tree, i: nat, m: nat)
    requires Valid(t) && i < |t.nodes| && m in Subtree(t, i)
    ensures m < |t.nodes| && t.depth[i] <= t.depth[m]
    ensures m != i ==> m != t.root && Parent(t, m) in Subtree(t, i)
    decreases |t.nodes| - t.depth[i]
  {
    if m != i {
      var l, r := Left(t, i), Right(t, i);
      if m in Subtree(t, l) {
        SubtreeBelow(t, l, m);
        if m == l { assert Parent(t, m) == i; }
      } else {
        SubtreeBelow(t, r, m);
        if m == r { assert Parent(t, m) == i; }
      }
    }
  }

  /** The two directions of the ancestor relation agree: `m` is below `i`
      exactly when `i` is on the path from `m` to the root. */
  lemma {:induction false} SubtreeIffAncestor(t: Tree, i: nat, m: nat)
    requires Valid(t) && i < |t.nodes| && m < |t.nodes|
    ensures m in Subtree(t, i) <==> i in AncestorsOrSelf(t, m)
    decreases t.depth[m]
  {
    if m == i {
      assert i in Subtree(t, i);
    } else if m == t.root {
      if m in Subtree(t, i) { SubtreeBelow(t, i, m); }
    } else {
      var p := Parent(t, m);
      SubtreeIffAncestor(t, i, p);
      if m in Subtree(t, i) {
        SubtreeBelow(t, i, m);
      }
      if i in AncestorsOrSelf(t, m) {
        assert i in AncestorsOrSelf(t, p);
        assert p in Subtree(t, i);
        ChildInSubtree(t, i, p, m);
      }
    }
  }

  /** The subtrees of a bifurcation's children lie inside its own. */
  lemma ChildrenSubtreesInside(t: Tree, p: nat)
    requires Valid(t) && p < |t.nodes| && !IsTip(t, p)
    ensures Subtree(t, Left(t, p)) <= Subtree(t, p)
    ensures Subtree(t, Right(t, p)) <= Subtree(t, p)
  {
  }

  /** Every non-root node is the left or the right child of its parent. */
  lemma ChildIsLeftOrRight(t: Tree, m: nat)
    requires Valid(t) && m < |t.nodes| && m != t.root
    ensures !IsTip(t, Parent(t, m))
    ensures m == Left(t, Parent(t, m)) || m == Right(t, Parent(t, m))
  {
  }

  /** The subtree of a child lies inside the subtree of its parent. */
  lemma ChildSubtreeInside(t: Tree, m: nat)
    requires Valid(t) && m < |t.nodes| && m != t.root
    ensures Subtree(t, m) <= Subtree(t, Parent(t, m))
  {
    ChildIsLeftOrRight(t, m);
    ChildrenSubtreesInside(t, Parent(t, m));
  }

  /** Subtrees nest: the subtree of any node below `i` lies inside `i`'s. */
  lemma {:induction false} SubtreeNested(t: Tree, i: nat, p: nat)
    requires Valid(t) && i < |t.nodes| && p in Subtree(t, i)
    ensures p < |t.nodes| && Subtree(t, p) <= Subtree(t, i)
    decreases |t.nodes| - t.depth[i]
  {
    SubtreeBelow(t, i, p);
    if p != i {
      var l, r := Left(t, i), Right(t, i);
      if p in Subtree(t, l) {
        SubtreeNested(t, l, p);
      } else {
        SubtreeNested(t, r, p);
      }
    }
  }

  /** A child of a node in a subtree is in that subtree. */
  lemma ChildInSubtree(t: Tree, i: nat, p: nat, m: nat)
    requires Valid(t) && i < |t.nodes| && p in Subtree(t, i)
    requires m < |t.nodes| && m != t.root && Parent(t, m) == p
    ensures m in Subtree(t, i)
  {
    ChildSubtreeInside(t, m);
    SubtreeNested(t, i, p);
    assert m in Subtree(t, m);
  }

  /** The whole arena hangs below the root. */
  lemma RootSubtreeIsEverything(t: Tree, m: nat)
    requires Valid(t) && m < |t.nodes|
    ensures m in Subtree(t, t.root)
  {
    RootIsAncestor(t, m);
    SubtreeIffAncestor(t, t.root, m);
  }

  lemma {:induction false} RootIsAncestor(t: Tree, m: nat)
    requires Valid(t) && m < |t.nodes|
    ensures t.root in AncestorsOrSelf(t, m)
    decreases t.depth[m]
  {
    if m != t.root { RootIsAncestor(t, Parent(t, m)); }
  }

  /** Two nodes on one path to the root at the same depth are the same node. */
  lemma {:induction false} AncestorAtDepthUnique(t: Tree, m: nat, a: nat, b: nat)
    requires Valid(t) && m < |t.nodes|
    requires a in AncestorsOrSelf(t, m) && b in AncestorsOrSelf(t, m)
    requires a < |t.nodes| && b < |t.nodes| && t.depth[a] == t.depth[b]
    ensures a == b
    decreases t.depth[m]
  {
    if m != t.root {
      var p := Parent(t, m);
      if a != m && b != m {
        AncestorAtDepthUnique(t, p, a, b);
      } else if a != m {
        AncestorDepth(t, p, a);
      } else if b != m {
        AncestorDepth(t, p, b);
      }
    }
  }

  lemma {:induction false} AncestorDepth(t: Tree, m: nat, a: nat)
    requires Valid(t) && m < |t.nodes| && a in AncestorsOrSelf(t, m)
    ensures a < |t.nodes| && t.depth[a] <= t.depth[m]
    decreases t.depth[m]
  {
    if a != m { AncestorDepth(t, Parent(t, m), a); }
  }

  /** The subtrees of a bifurcation's two children do not overlap. */
  lemma SiblingSubtreesDisjoint(t: Tree, i: nat, m: nat)
    requires Valid(t) && i < |t.nodes| && !IsTip(t, i)
    ensures !(m in Subtree(t, Left(t, i)) && m in Subtree(t, Right(t, i)))
  {
    var l, r := Left(t, i), Right(t, i);
    if m in Subtree(t, l) && m in Subtree(t, r) {
      SubtreeBelow(t, l, m);
      SubtreeIffAncestor(t, l, m);
      SubtreeIffAncestor(t, r, m);
      AncestorAtDepthUnique(t, m, l, r);
      assert false;
    }
  }

  /** A node lies outside the subtrees of its descendants other than itself. */
  lemma NotBelowChild(t: Tree, i: nat, c: nat)
    requires Valid(t) && i < |t.nodes| && !IsTip(t, i) && (c == Left(t, i) || c == Right(t, i))
    ensures i !in Subtree(t, c)
  {
    if i in Subtree(t, c) { SubtreeBelow(t, c, i); }
  }

  /** Below a non-root node there is no root. */
  lemma RootNotBelow(t: Tree, i: nat, j: nat)
    requires Valid(t) && i < |t.nodes| && i != t.root && j in Subtree(t, i)
    ensures j < |t.nodes| && j != t.root
  {
    SubtreeBelow(t, i, j);
  }
}
