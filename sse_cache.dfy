/**
 * The vectors and scaling factors the state-dependent speciation-extinction
 * process caches, two slots of each per node, and what the postorder
 * recomputation writes and leaves alone, on values: a recomputed subtree
 * holds its nodes' vectors, and only the active slots of the subtree's dirty
 * nodes change.
 */
module SseCache {
  import opened TreeArena
  import opened DirtyCache
  import opened SseVectors
  import opened SseValidity
  import opened SseModel

  /** node_partial_likelihoods[node][slot] and scaling_factors[node][slot]. */
  datatype Store = Store(partials: seq<seq<seq<real>>>, scalings: seq<seq<real>>)

  /** Two slots of each kind for every one of n nodes. */
  predicate Slots(s: Store, n: nat)
  {
    && |s.partials| == n && |s.scalings| == n
    && forall j :: 0 <= j < n ==> |s.partials[j]| == 2 && |s.scalings[j]| == 2
  }

  /** Two slots per node, and vectors of 2 ns entries. */
  predicate Shaped(s: Store, n: nat, ns: nat)
  {
    && Slots(s, n)
    && forall j, b :: 0 <= j < n && 0 <= b < 2 ==> |s.partials[j][b]| == 2 * ns
  }

  /** Every scaling factor is 0: without rescaling none is ever written but
      the root's, which is the sum of two of them. */
  predicate NoScaling(s: Store)
  {
    forall j, b :: 0 <= j < |s.scalings| && 0 <= b < |s.scalings[j]| ==> s.scalings[j][b] == 0.0
  }

  /** What resizeVectors allocates for n nodes: every entry 0. */
  function FreshStore(n: nat, ns: nat): (s: Store)
    ensures Shaped(s, n, ns) && NoScaling(s)
    ensures forall j, b :: 0 <= j < n && 0 <= b < 2 ==> s.partials[j][b] == Constant(2 * ns, 0.0)
  {
    Store(seq(n, _ => seq(2, _ => Constant(2 * ns, 0.0))), seq(n, _ => seq(2, _ => 0.0)))
  }

  /** Slot b of node j is the same in s and s2. */
  predicate SameSlot(s: Store, s2: Store, j: nat, b: Slot)
    requires j < |s.partials| && j < |s.scalings| && j < |s2.partials| && j < |s2.scalings|
    requires |s.partials[j]| == 2 && |s.scalings[j]| == 2 && |s2.partials[j]| == 2 && |s2.scalings[j]| == 2
  {
    s2.partials[j][b] == s.partials[j][b] && s2.scalings[j][b] == s.scalings[j][b]
  }

  /** Slot b of node j overwritten with the vector v and the factor c. */
  function Put(s: Store, j: nat, b: Slot, v: seq<real>, c: real): Store
    requires j < |s.partials| && j < |s.scalings| && |s.partials[j]| == 2 && |s.scalings[j]| == 2
  {
    Store(s.partials[j := s.partials[j][b := v]], s.scalings[j := s.scalings[j][b := c]])
  }

  /** Only slot b of node j may differ between s and s2. */
  ghost predicate SameBut(s: Store, s2: Store, n: nat, j: nat, b: Slot)
    requires Slots(s, n) && Slots(s2, n)
  {
    forall k: nat, c: Slot :: k < n && !(k == j && c == b) ==> SameSlot(s, s2, k, c)
  }

  /** Slot b of node j holds the node's vector and scaling factor. */
  ghost predicate HoldsAt(x: Process, s: Store, b: Slot, j: nat)
    requires WellFormed(x) && Slots(s, |x.tree.nodes|) && j < |x.tree.nodes| && j != x.tree.root
  {
    s.partials[j][b] == NodeVec(x, j) && s.scalings[j][b] == NodeScale(x, j)
  }

  /** The cache invariant's second half: every clean node other than the
      root holds in its active slot. The root's slot is rewritten by every
      computation of the root likelihood, clean or not. */
  ghost predicate Coherent(x: Process, f: Flags, s: Store)
    requires WellFormed(x) && Sized(f, |x.tree.nodes|) && Slots(s, |x.tree.nodes|)
  {
    forall j :: 0 <= j < |x.tree.nodes| && j != x.tree.root && !f.dirty[j] ==> HoldsAt(x, s, f.active[j], j)
  }

  /** Coherence inside the subtree of i. */
  ghost predicate CoherentBelow(x: Process, f: Flags, s: Store, i: nat)
    requires WellFormed(x) && Sized(f, |x.tree.nodes|) && Slots(s, |x.tree.nodes|) && i < |x.tree.nodes|
  {
    forall j :: j in Subtree(x.tree, i) && j < |x.tree.nodes| && j != x.tree.root && !f.dirty[j] ==>
      HoldsAt(x, s, f.active[j], j)
  }

  /** Every node of i's subtree holds in its slot `act`. */
  ghost predicate HoldsBelow(x: Process, s: Store, act: seq<Slot>, i: nat)
    requires WellFormed(x) && Slots(s, |x.tree.nodes|) && |act| == |x.tree.nodes| && i < |x.tree.nodes|
  {
    forall j :: j in Subtree(x.tree, i) && j < |x.tree.nodes| && j != x.tree.root ==> HoldsAt(x, s, act[j], j)
  }

  /** Every node other than the root holds in its slot `act`: the cache at a
      keep, for the process as it was then. */
  ghost predicate Kept(x: Process, act: seq<Slot>, s: Store)
    requires WellFormed(x) && Slots(s, |x.tree.nodes|) && |act| == |x.tree.nodes|
  {
    forall j :: 0 <= j < |x.tree.nodes| && j != x.tree.root ==> HoldsAt(x, s, act[j], j)
  }

  /** Only the active slots of the nodes of i's subtree that are dirty in d
      differ between s and s2. */
  ghost predicate KeptOutside(s: Store, s2: Store, t: Tree, d: seq<bool>, act: seq<Slot>, i: nat)
    requires Valid(t) && i < |t.nodes| && |d| == |t.nodes| && |act| == |t.nodes|
    requires Slots(s, |t.nodes|) && Slots(s2, |t.nodes|)
  {
    forall j: nat, b: Slot :: j < |t.nodes| && !(j in Subtree(t, i) && d[j] && b == act[j]) ==> SameSlot(s, s2, j, b)
  }

  // ---------------------------------------------------------------------
  // Writing one slot

  /** Writing a slot changes that slot alone and keeps the shapes. */
  lemma PutEffect(s: Store, n: nat, ns: nat, j: nat, b: Slot, v: seq<real>, c: real)
    requires Shaped(s, n, ns) && j < n && |v| == 2 * ns
    ensures Shaped(Put(s, j, b, v, c), n, ns) && SameBut(s, Put(s, j, b, v, c), n, j, b)
    ensures Put(s, j, b, v, c).partials[j][b] == v && Put(s, j, b, v, c).scalings[j][b] == c
    ensures NoScaling(s) && c == 0.0 ==> NoScaling(Put(s, j, b, v, c))
  {
  }

  /** A slot that the write did not touch keeps holding. */
  lemma HoldsElsewhere(x: Process, s: Store, s2: Store, j: nat, b: Slot, k: nat, c: Slot)
    requires WellFormed(x) && Slots(s, |x.tree.nodes|) && Slots(s2, |x.tree.nodes|)
    requires j < |x.tree.nodes| && k < |x.tree.nodes| && k != x.tree.root && !(k == j && c == b)
    requires SameBut(s, s2, |x.tree.nodes|, j, b) && HoldsAt(x, s, c, k)
    ensures HoldsAt(x, s2, c, k)
  {
    assert SameSlot(s, s2, k, c);
  }

  /** A slot outside what the recomputation of src's subtree writes keeps
      holding. */
  lemma KeptHolds(x: Process, s: Store, s2: Store, d: seq<bool>, act: seq<Slot>, src: nat, b: Slot, j: nat)
    requires WellFormed(x) && Slots(s, |x.tree.nodes|) && Slots(s2, |x.tree.nodes|)
    requires |d| == |act| == |x.tree.nodes| && src < |x.tree.nodes| && j < |x.tree.nodes| && j != x.tree.root
    requires KeptOutside(s, s2, x.tree, d, act, src)
    requires !(j in Subtree(x.tree, src) && d[j] && b == act[j]) && HoldsAt(x, s, b, j)
    ensures HoldsAt(x, s2, b, j)
  {
    assert SameSlot(s, s2, j, b);
  }

  /** A subtree that holds keeps holding while a disjoint subtree is
      recomputed. */
  lemma HoldsBelowKept(x: Process, s: Store, s2: Store, d: seq<bool>, act: seq<Slot>, src: nat, i: nat)
    requires WellFormed(x) && Slots(s, |x.tree.nodes|) && Slots(s2, |x.tree.nodes|)
    requires |d| == |act| == |x.tree.nodes| && src < |x.tree.nodes| && i < |x.tree.nodes|
    requires KeptOutside(s, s2, x.tree, d, act, src)
    requires forall j :: j in Subtree(x.tree, i) ==> j !in Subtree(x.tree, src)
    requires HoldsBelow(x, s, act, i)
    ensures HoldsBelow(x, s2, act, i)
  {
    forall j | j in Subtree(x.tree, i) && j < |x.tree.nodes| && j != x.tree.root
      ensures HoldsAt(x, s2, act[j], j)
    {
      KeptHolds(x, s, s2, d, act, src, act[j], j);
    }
  }

  /** A subtree that holds keeps holding while a slot outside it is written. */
  lemma HoldsBelowSameBut(x: Process, s: Store, s2: Store, act: seq<Slot>, b: Slot, n: nat, i: nat)
    requires WellFormed(x) && Slots(s, |x.tree.nodes|) && Slots(s2, |x.tree.nodes|) && |act| == |x.tree.nodes|
    requires n < |x.tree.nodes| && i < |x.tree.nodes| && n !in Subtree(x.tree, i)
    requires SameBut(s, s2, |x.tree.nodes|, n, b) && HoldsBelow(x, s, act, i)
    ensures HoldsBelow(x, s2, act, i)
  {
    forall j | j in Subtree(x.tree, i) && j < |x.tree.nodes| && j != x.tree.root
      ensures HoldsAt(x, s2, act[j], j)
    {
      HoldsElsewhere(x, s, s2, n, b, j, act[j]);
    }
  }

  /** Coherence of a subtree survives recomputing a disjoint subtree. */
  lemma CoherentBelowKept(x: Process, f: Flags, s: Store, s2: Store, d: seq<bool>, src: nat, i: nat)
    requires WellFormed(x) && Sized(f, |x.tree.nodes|) && Slots(s, |x.tree.nodes|) && Slots(s2, |x.tree.nodes|)
    requires |d| == |x.tree.nodes| && src < |x.tree.nodes| && i < |x.tree.nodes|
    requires KeptOutside(s, s2, x.tree, d, f.active, src)
    requires forall j :: j in Subtree(x.tree, i) ==> j !in Subtree(x.tree, src)
    requires CoherentBelow(x, f, s, i)
    ensures CoherentBelow(x, f, s2, i)
  {
    forall j | j in Subtree(x.tree, i) && j < |x.tree.nodes| && j != x.tree.root && !f.dirty[j]
      ensures HoldsAt(x, s2, f.active[j], j)
    {
      KeptHolds(x, s, s2, d, f.active, src, f.active[j], j);
    }
  }

  /** Coherence of a subtree depends only on the flags inside it. */
  lemma CoherentBelowInside(x: Process, f: Flags, f2: Flags, s: Store, i: nat, c: nat)
    requires WellFormed(x) && Sized(f, |x.tree.nodes|) && Sized(f2, |x.tree.nodes|) && Slots(s, |x.tree.nodes|)
    requires i < |x.tree.nodes| && c < |x.tree.nodes| && c in Subtree(x.tree, i)
    requires f2.active == f.active
    requires forall j :: j in Subtree(x.tree, c) ==> j < |x.tree.nodes| && f2.dirty[j] == f.dirty[j]
    requires CoherentBelow(x, f, s, i)
    ensures CoherentBelow(x, f2, s, c)
  {
    SubtreeNested(x.tree, i, c);
  }

  // ---------------------------------------------------------------------
  // The recomputation of one subtree

  /** A recomputation that finds its node clean: the whole subtree is clean,
      holds already, and nothing is written. */
  lemma CleanFill(x: Process, f: Flags, s: Store, i: nat)
    requires WellFormed(x) && Sized(f, |x.tree.nodes|) && Slots(s, |x.tree.nodes|)
    requires i < |x.tree.nodes| && i != x.tree.root && !f.dirty[i]
    requires ClosedBelow(x.tree, f, i) && CoherentBelow(x, f, s, i)
    ensures KeptOutside(s, s, x.tree, f.dirty, f.active, i)
    ensures HoldsBelow(x, s, f.active, i)
    ensures f.dirty == ClearSubtree(x.tree, f.dirty, i)
  {
    forall j | j in Subtree(x.tree, i) ensures j < |x.tree.nodes| && !f.dirty[j] {
      CleanTopCleanBelow(x.tree, f, i, j);
    }
  }

  /** The recomputation of a tip writes its own active slot. */
  lemma TipFill(x: Process, s0: Store, s1: Store, d: seq<bool>, act: seq<Slot>, i: nat)
    requires WellFormed(x) && Slots(s0, |x.tree.nodes|) && Slots(s1, |x.tree.nodes|)
    requires |d| == |act| == |x.tree.nodes| && i < |x.tree.nodes| && i != x.tree.root && IsTip(x.tree, i) && d[i]
    requires SameBut(s0, s1, |x.tree.nodes|, i, act[i]) && HoldsAt(x, s1, act[i], i)
    ensures KeptOutside(s0, s1, x.tree, d, act, i)
    ensures HoldsBelow(x, s1, act, i)
    ensures d[i := false] == ClearSubtree(x.tree, d, i)
  {
    var t := x.tree;
    assert Subtree(t, i) == {i};
    forall j: nat, b: Slot | j < |t.nodes| && !(j in Subtree(t, i) && d[j] && b == act[j])
      ensures SameSlot(s0, s1, j, b)
    {
      assert !(j == i && b == act[i]);
    }
  }

  /** Before the first child's recomputation: the node itself is marked
      clean, which the child's subtree does not see. */
  lemma FirstChildReady(x: Process, f: Flags, s: Store, i: nat)
    requires WellFormed(x) && Sized(f, |x.tree.nodes|) && Slots(s, |x.tree.nodes|)
    requires i < |x.tree.nodes| && !IsTip(x.tree, i)
    requires ClosedBelow(x.tree, f, i) && CoherentBelow(x, f, s, i)
    ensures ClosedBelow(x.tree, f.(dirty := f.dirty[i := false]), Left(x.tree, i))
    ensures CoherentBelow(x, f.(dirty := f.dirty[i := false]), s, Left(x.tree, i))
  {
    var t, L := x.tree, Left(x.tree, i);
    var f1 := f.(dirty := f.dirty[i := false]);
    NotBelowChild(t, i, L);
    ChildrenSubtreesInside(t, i);
    forall j | j in Subtree(t, L) ensures j < |t.nodes| && f1.dirty[j] == f.dirty[j] {
      SubtreeBelow(t, L, j);
    }
    ClosedBelowInside(t, f, f1, i, L);
    CoherentBelowInside(x, f, f1, s, i, L);
  }

  /** Before the second child's recomputation: the first child's touched
      nothing the second child's subtree sees. */
  lemma SecondChildReady(x: Process, f: Flags, s0: Store, s1: Store, i: nat)
    requires WellFormed(x) && Sized(f, |x.tree.nodes|) && Slots(s0, |x.tree.nodes|) && Slots(s1, |x.tree.nodes|)
    requires i < |x.tree.nodes| && !IsTip(x.tree, i)
    requires ClosedBelow(x.tree, f, i) && CoherentBelow(x, f, s0, i)
    requires KeptOutside(s0, s1, x.tree, f.dirty[i := false], f.active, Left(x.tree, i))
    ensures var f2 := f.(dirty := ClearSubtree(x.tree, f.dirty[i := false], Left(x.tree, i)));
      ClosedBelow(x.tree, f2, Right(x.tree, i)) && CoherentBelow(x, f2, s1, Right(x.tree, i))
  {
    var t, L, R := x.tree, Left(x.tree, i), Right(x.tree, i);
    var f2 := f.(dirty := ClearSubtree(t, f.dirty[i := false], L));
    NotBelowChild(t, i, R);
    ChildrenSubtreesInside(t, i);
    forall j | j in Subtree(t, R) ensures j < |t.nodes| && f2.dirty[j] == f.dirty[j] && j !in Subtree(t, L) {
      SubtreeBelow(t, R, j);
      SiblingSubtreesDisjoint(t, i, j);
    }
    ClosedBelowInside(t, f, f2, i, R);
    CoherentBelowInside(x, f, f2, s0, i, R);
    CoherentBelowKept(x, f2, s0, s1, f.dirty[i := false], L, R);
  }

  /** Before an internal node's own computation: both children hold. */
  lemma InternalFillReady(x: Process, s1: Store, s2: Store, d1: seq<bool>, act: seq<Slot>, i: nat)
    requires WellFormed(x) && Slots(s1, |x.tree.nodes|) && Slots(s2, |x.tree.nodes|)
    requires |d1| == |act| == |x.tree.nodes| && i < |x.tree.nodes| && !IsTip(x.tree, i)
    requires HoldsBelow(x, s1, act, Left(x.tree, i))
    requires KeptOutside(s1, s2, x.tree, d1, act, Right(x.tree, i))
    requires HoldsBelow(x, s2, act, Right(x.tree, i))
    ensures HoldsAt(x, s2, act[Left(x.tree, i)], Left(x.tree, i))
    ensures HoldsAt(x, s2, act[Right(x.tree, i)], Right(x.tree, i))
  {
    var t := x.tree;
    var L, R := Left(t, i), Right(t, i);
    assert L in Subtree(t, L) && R in Subtree(t, R);
    SiblingSubtreesDisjoint(t, i, L);
    KeptHolds(x, s1, s2, d1, act, R, act[L], L);
  }

  /** The end of an internal node's recomputation: its own slot was written
      after both children's subtrees were recomputed. */
  lemma InternalFillFrame(x: Process, s0: Store, s1: Store, s2: Store, s3: Store,
                          d: seq<bool>, d1: seq<bool>, act: seq<Slot>, i: nat)
    requires WellFormed(x) && Slots(s0, |x.tree.nodes|) && Slots(s1, |x.tree.nodes|)
    requires Slots(s2, |x.tree.nodes|) && Slots(s3, |x.tree.nodes|)
    requires |d| == |d1| == |act| == |x.tree.nodes| && i < |x.tree.nodes| && !IsTip(x.tree, i) && d[i]
    requires d1 == ClearSubtree(x.tree, d[i := false], Left(x.tree, i))
    requires KeptOutside(s0, s1, x.tree, d[i := false], act, Left(x.tree, i))
    requires KeptOutside(s1, s2, x.tree, d1, act, Right(x.tree, i))
    requires SameBut(s2, s3, |x.tree.nodes|, i, act[i])
    ensures KeptOutside(s0, s3, x.tree, d, act, i)
    ensures ClearSubtree(x.tree, d1, Right(x.tree, i)) == ClearSubtree(x.tree, d, i)
  {
    var t := x.tree;
    var L, R := Left(t, i), Right(t, i);
    ChildrenSubtreesInside(t, i);
    NotBelowChild(t, i, L);
    NotBelowChild(t, i, R);
    assert i in Subtree(t, i);
    forall j: nat, b: Slot | j < |t.nodes| && !(j in Subtree(t, i) && d[j] && b == act[j])
      ensures SameSlot(s0, s3, j, b)
    {
      SiblingSubtreesDisjoint(t, i, j);
      assert SameSlot(s0, s1, j, b);
      assert SameSlot(s1, s2, j, b);
      assert SameSlot(s2, s3, j, b);
    }
    forall j | 0 <= j < |d| ensures ClearSubtree(t, d1, R)[j] == ClearSubtree(t, d, i)[j] {
    }
  }

  /** The end of an internal node's recomputation: its own slot and both
      children's subtrees hold. */
  lemma InternalFillHolds(x: Process, s1: Store, s2: Store, s3: Store, d1: seq<bool>, act: seq<Slot>, i: nat)
    requires WellFormed(x) && Slots(s1, |x.tree.nodes|) && Slots(s2, |x.tree.nodes|) && Slots(s3, |x.tree.nodes|)
    requires |d1| == |act| == |x.tree.nodes| && i < |x.tree.nodes| && i != x.tree.root && !IsTip(x.tree, i)
    requires HoldsBelow(x, s1, act, Left(x.tree, i))
    requires KeptOutside(s1, s2, x.tree, d1, act, Right(x.tree, i))
    requires HoldsBelow(x, s2, act, Right(x.tree, i))
    requires SameBut(s2, s3, |x.tree.nodes|, i, act[i]) && HoldsAt(x, s3, act[i], i)
    ensures HoldsBelow(x, s3, act, i)
  {
    var t := x.tree;
    var L, R := Left(t, i), Right(t, i);
    forall j | j in Subtree(t, L) ensures j !in Subtree(t, R) {
      SiblingSubtreesDisjoint(t, i, j);
    }
    HoldsBelowKept(x, s1, s2, d1, act, R, L);
    NotBelowChild(t, i, L);
    NotBelowChild(t, i, R);
    HoldsBelowSameBut(x, s2, s3, act, act[i], i, L);
    HoldsBelowSameBut(x, s2, s3, act, act[i], i, R);
  }

  /** A dirty tip's slot written with its vector v and factor c: the tip
      holds, nothing else changed, and its flag is the only one cleared. */
  lemma TipFillDone(x: Process, s0: Store, d: seq<bool>, act: seq<Slot>, i: nat, v: seq<real>, c: real)
    requires WellFormed(x) && Shaped(s0, |x.tree.nodes|, x.numStates)
    requires |d| == |act| == |x.tree.nodes| && i < |x.tree.nodes| && i != x.tree.root && IsTip(x.tree, i) && d[i]
    requires v == NodeVec(x, i)
    requires x.useScaling ==> c == NodeScale(x, i)
    requires !x.useScaling ==> NoScaling(s0) && c == s0.scalings[i][act[i]]
    ensures KeptOutside(s0, Put(s0, i, act[i], v, c), x.tree, d, act, i)
    ensures HoldsBelow(x, Put(s0, i, act[i], v, c), act, i)
    ensures d[i := false] == ClearSubtree(x.tree, d, i)
  {
    var n := |x.tree.nodes|;
    PutEffect(s0, n, x.numStates, i, act[i], v, c);
    TipFill(x, s0, Put(s0, i, act[i], v, c), d, act, i);
  }

  /** A dirty internal node's slot written with its vector v and factor c
      after both children's subtrees: the whole subtree holds, only active
      slots of its dirty nodes changed, and its flags are cleared. */
  lemma InternalFillDone(x: Process, s0: Store, s1: Store, s2: Store, d: seq<bool>, d1: seq<bool>,
                         act: seq<Slot>, i: nat, v: seq<real>, c: real, s3: Store)
    requires WellFormed(x) && Slots(s0, |x.tree.nodes|) && Slots(s1, |x.tree.nodes|)
    requires Shaped(s2, |x.tree.nodes|, x.numStates)
    requires |d| == |d1| == |act| == |x.tree.nodes| && i < |x.tree.nodes| && i != x.tree.root
    requires !IsTip(x.tree, i) && d[i]
    requires d1 == ClearSubtree(x.tree, d[i := false], Left(x.tree, i))
    requires KeptOutside(s0, s1, x.tree, d[i := false], act, Left(x.tree, i))
    requires HoldsBelow(x, s1, act, Left(x.tree, i))
    requires KeptOutside(s1, s2, x.tree, d1, act, Right(x.tree, i))
    requires HoldsBelow(x, s2, act, Right(x.tree, i))
    requires v == NodeVec(x, i)
    requires x.useScaling ==> c == NodeScale(x, i)
    requires !x.useScaling ==> NoScaling(s2) && c == s2.scalings[i][act[i]]
    requires s3 == Put(s2, i, act[i], v, c)
    ensures Shaped(s3, |x.tree.nodes|, x.numStates)
    ensures KeptOutside(s0, s3, x.tree, d, act, i)
    ensures HoldsBelow(x, s3, act, i)
    ensures ClearSubtree(x.tree, d1, Right(x.tree, i)) == ClearSubtree(x.tree, d, i)
  {
    PutEffect(s2, |x.tree.nodes|, x.numStates, i, act[i], v, c);
    InternalFillFrame(x, s0, s1, s2, s3, d, d1, act, i);
    InternalFillHolds(x, s1, s2, s3, d1, act, i);
  }

  // ---------------------------------------------------------------------
  // The root

  /** Before the root's children are recomputed: the root's flag is left as
      it is, and each child's subtree is closed and coherent. */
  lemma RootChildReady(x: Process, f: Flags, s: Store, c: nat)
    requires WellFormed(x) && Sized(f, |x.tree.nodes|) && Slots(s, |x.tree.nodes|)
    requires Closed(x.tree, f) && Coherent(x, f, s)
    requires c < |x.tree.nodes|
    ensures ClosedBelow(x.tree, f, c) && CoherentBelow(x, f, s, c)
  {
    ClosedEverywhereBelow(x.tree, f, c);
  }

  /** Before the second child of the root: the first child's recomputation
      touched nothing the second child's subtree sees. */
  lemma RootSecondChildReady(x: Process, f: Flags, s0: Store, s1: Store)
    requires WellFormed(x) && Sized(f, |x.tree.nodes|) && Slots(s0, |x.tree.nodes|) && Slots(s1, |x.tree.nodes|)
    requires Closed(x.tree, f) && Coherent(x, f, s0)
    requires KeptOutside(s0, s1, x.tree, f.dirty, f.active, Left(x.tree, x.tree.root))
    ensures var f2 := f.(dirty := ClearSubtree(x.tree, f.dirty, Left(x.tree, x.tree.root)));
      ClosedBelow(x.tree, f2, Right(x.tree, x.tree.root)) && CoherentBelow(x, f2, s1, Right(x.tree, x.tree.root))
  {
    var t := x.tree;
    var L, R := Left(t, t.root), Right(t, t.root);
    var f2 := f.(dirty := ClearSubtree(t, f.dirty, L));
    forall j | j in Subtree(t, R) ensures j < |t.nodes| && f2.dirty[j] == f.dirty[j] && j !in Subtree(t, L) {
      SubtreeBelow(t, R, j);
      SiblingSubtreesDisjoint(t, t.root, j);
    }
    ClosedEverywhereBelow(t, f, t.root);
    ClosedBelowInside(t, f, f2, t.root, R);
    RootSubtreeIsEverything(t, R);
    CoherentBelowInside(x, f, f2, s0, t.root, R);
    CoherentBelowKept(x, f2, s0, s1, f.dirty, L, R);
  }

  /** After both children of the root: every node but the root is clean and
      holds in its active slot, and only active slots of nodes that were
      dirty changed. */
  lemma RootFillDone(x: Process, s0: Store, s1: Store, s2: Store, d: seq<bool>, d1: seq<bool>, act: seq<Slot>)
    requires WellFormed(x) && Slots(s0, |x.tree.nodes|) && Slots(s1, |x.tree.nodes|) && Slots(s2, |x.tree.nodes|)
    requires |d| == |d1| == |act| == |x.tree.nodes|
    requires d1 == ClearSubtree(x.tree, d, Left(x.tree, x.tree.root))
    requires KeptOutside(s0, s1, x.tree, d, act, Left(x.tree, x.tree.root))
    requires HoldsBelow(x, s1, act, Left(x.tree, x.tree.root))
    requires KeptOutside(s1, s2, x.tree, d1, act, Right(x.tree, x.tree.root))
    requires HoldsBelow(x, s2, act, Right(x.tree, x.tree.root))
    ensures forall j :: 0 <= j < |d| && j != x.tree.root ==> !ClearSubtree(x.tree, d1, Right(x.tree, x.tree.root))[j]
    ensures ClearSubtree(x.tree, d1, Right(x.tree, x.tree.root))[x.tree.root] == d[x.tree.root]
    ensures Kept(x, act, s2)
    ensures KeptOutside(s0, s2, x.tree, d, act, x.tree.root)
  {
    var t := x.tree;
    var L, R := Left(t, t.root), Right(t, t.root);
    forall j | j in Subtree(t, L) ensures j !in Subtree(t, R) {
      SiblingSubtreesDisjoint(t, t.root, j);
    }
    HoldsBelowKept(x, s1, s2, d1, act, R, L);
    forall j | 0 <= j < |d| ensures j == t.root || j in Subtree(t, L) || j in Subtree(t, R) {
      RootSubtreeIsEverything(t, j);
    }
    NotBelowChild(t, t.root, L);
    NotBelowChild(t, t.root, R);
    forall j: nat, b: Slot | j < |t.nodes| && !(j in Subtree(t, t.root) && d[j] && b == act[j])
      ensures SameSlot(s0, s2, j, b)
    {
      RootSubtreeIsEverything(t, j);
      SiblingSubtreesDisjoint(t, t.root, j);
      assert SameSlot(s0, s1, j, b);
      assert SameSlot(s1, s2, j, b);
    }
  }

  /** Writing the root's slot disturbs no other node. */
  lemma RootWriteKeeps(x: Process, s: Store, s2: Store, act: seq<Slot>, b: Slot)
    requires WellFormed(x) && Slots(s, |x.tree.nodes|) && Slots(s2, |x.tree.nodes|) && |act| == |x.tree.nodes|
    requires SameBut(s, s2, |x.tree.nodes|, x.tree.root, b) && Kept(x, act, s)
    ensures Kept(x, act, s2)
  {
    forall j | 0 <= j < |x.tree.nodes| && j != x.tree.root ensures HoldsAt(x, s2, act[j], j) {
      HoldsElsewhere(x, s, s2, x.tree.root, b, j, act[j]);
    }
  }

  /** A clean cache whose non-root nodes all hold is coherent. */
  lemma AllHoldCoherent(x: Process, f: Flags, s: Store)
    requires WellFormed(x) && Sized(f, |x.tree.nodes|) && Slots(s, |x.tree.nodes|)
    requires Kept(x, f.active, s)
    ensures Coherent(x, f, s)
  {
  }

  // ---------------------------------------------------------------------
  // The kept slots

  /** What a recomputation writes never reaches the slots chosen at the last
      keep: it writes active slots of dirty nodes, a dirty node is latched,
      and a latched node's active slot is the other one. */
  lemma KeptSurvivesFill(kx: Process, base: seq<Slot>, f: Flags, s: Store, s2: Store, src: nat)
    requires WellFormed(kx) && Sized(f, |kx.tree.nodes|) && Slots(s, |kx.tree.nodes|) && Slots(s2, |kx.tree.nodes|)
    requires src < |kx.tree.nodes| && Tracks(base, f) && Latched(f)
    requires KeptOutside(s, s2, kx.tree, f.dirty, f.active, src) && Kept(kx, base, s)
    ensures Kept(kx, base, s2)
  {
    forall j | 0 <= j < |kx.tree.nodes| && j != kx.tree.root ensures HoldsAt(kx, s2, base[j], j) {
      KeptHolds(kx, s, s2, f.dirty, f.active, src, base[j], j);
    }
  }

  /** The same for any tree with as many nodes as the kept one. */
  lemma KeptSurvivesFillOf(kx: Process, t: Tree, base: seq<Slot>, f: Flags, s: Store, s2: Store, src: nat)
    requires WellFormed(kx) && Valid(t) && |t.nodes| == |kx.tree.nodes|
    requires Sized(f, |t.nodes|) && Slots(s, |t.nodes|) && Slots(s2, |t.nodes|)
    requires src < |t.nodes| && Tracks(base, f) && Latched(f)
    requires KeptOutside(s, s2, t, f.dirty, f.active, src) && Kept(kx, base, s)
    ensures Kept(kx, base, s2)
  {
    forall j | 0 <= j < |kx.tree.nodes| && j != kx.tree.root ensures HoldsAt(kx, s2, base[j], j) {
      assert SameSlot(s, s2, j, base[j]);
    }
  }

  // ---------------------------------------------------------------------
  // A node's age changes

  /** Flagging a node keeps the cache coherent while the inputs stay as
      they are: a node left clean keeps its active slot. */
  lemma FlagDirtyKeepsCoherence(x: Process, f: Flags, s: Store, i: nat)
    requires WellFormed(x) && Sized(f, |x.tree.nodes|) && Slots(s, |x.tree.nodes|) && i < |x.tree.nodes|
    requires Closed(x.tree, f) && Coherent(x, f, s)
    ensures Coherent(x, FlagDirty(x.tree, f, i), s)
  {
    var g := FlagDirty(x.tree, f, i);
    forall j | 0 <= j < |x.tree.nodes| && j != x.tree.root && !g.dirty[j]
      ensures HoldsAt(x, s, g.active[j], j)
    {
      FlagDirtyExact(x.tree, f, i, j);
    }
  }

  /** Closure reads the links only, which a change of age leaves alone. */
  lemma AgeChangeKeepsClosed(t: Tree, f: Flags, n: nat, a: real)
    requires Valid(t) && Sized(f, |t.nodes|) && n < |t.nodes| && Closed(t, f)
    ensures Valid(WithAge(t, n, a)) && Closed(WithAge(t, n, a), f)
  {
    var t2 := WithAge(t, n, a);
    SameShapeValid(t, t2);
    forall j | 0 <= j < |t.nodes| && j != t.root && f.dirty[j] ensures f.dirty[Parent(t2, j)] {
      assert Parent(t2, j) == Parent(t, j);
    }
  }

  /** The events the tree reports when node n's age is set: n itself, then
      each of its children, whose branches end at n. */
  function FlagAgeChange(t: Tree, f: Flags, n: nat): (g: Flags)
    requires Valid(t) && Sized(f, |t.nodes|) && n < |t.nodes|
    ensures Sized(g, |t.nodes|)
  {
    var g1 := FlagDirty(t, f, n);
    if IsTip(t, n) then g1 else FlagDirty(t, FlagDirty(t, g1, Left(t, n)), Right(t, n))
  }

  /** Flagging after an age change keeps the cache invariant's closure, the
      latches in step with the kept slots, every dirty node latched, and
      changes nothing a following restore or touch would not. */
  lemma FlagAgeChangeKeeps(t: Tree, f: Flags, n: nat, base: seq<Slot>)
    requires Valid(t) && Sized(f, |t.nodes|) && Closed(t, f) && n < |t.nodes|
    ensures Closed(t, FlagAgeChange(t, f, n))
    ensures Restore(FlagAgeChange(t, f, n)) == Restore(f)
    ensures TouchAll(FlagAgeChange(t, f, n)) == TouchAll(f)
    ensures Tracks(base, f) ==> Tracks(base, FlagAgeChange(t, f, n))
    ensures Latched(f) ==> Latched(FlagAgeChange(t, f, n))
  {
    var g1 := FlagDirty(t, f, n);
    FlagDirtyKeepsClosed(t, f, n);
    RestoreAbsorbsFlag(t, f, n);
    TouchAbsorbsFlag(t, f, n);
    if Tracks(base, f) { FlagDirtyTracks(t, base, f, n); }
    if Latched(f) { FlagDirtyLatches(t, f, n); }
    if !IsTip(t, n) {
      var L, R := Left(t, n), Right(t, n);
      var g2 := FlagDirty(t, g1, L);
      FlagDirtyKeepsClosed(t, g1, L);
      FlagDirtyKeepsClosed(t, g2, R);
      RestoreAbsorbsFlag(t, g1, L);
      RestoreAbsorbsFlag(t, g2, R);
      TouchAbsorbsFlag(t, g1, L);
      TouchAbsorbsFlag(t, g2, R);
      if Tracks(base, f) {
        FlagDirtyTracks(t, base, g1, L);
        FlagDirtyTracks(t, base, g2, R);
      }
      if Latched(f) {
        FlagDirtyLatches(t, g1, L);
        FlagDirtyLatches(t, g2, R);
      }
    }
  }

  /** A node left clean by the flagging was clean before, kept its active
      slot, and is neither on n's path to the root nor on a child's. */
  lemma FlagAgeChangeClean(t: Tree, f: Flags, n: nat, j: nat)
    requires Valid(t) && Sized(f, |t.nodes|) && Closed(t, f) && n < |t.nodes| && j < |t.nodes|
    requires !FlagAgeChange(t, f, n).dirty[j]
    ensures !f.dirty[j] && FlagAgeChange(t, f, n).active[j] == f.active[j]
    ensures j !in AncestorsOrSelf(t, n)
    ensures !IsTip(t, n) ==> j !in AncestorsOrSelf(t, Left(t, n)) && j !in AncestorsOrSelf(t, Right(t, n))
    ensures !IsTip(t, n) ==> j != Left(t, n) && j != Right(t, n)
  {
    assert j in AncestorsOrSelf(t, j);
    var g1 := FlagDirty(t, f, n);
    FlagDirtyKeepsClosed(t, f, n);
    FlagDirtyExact(t, f, n, j);
    if !IsTip(t, n) {
      var L, R := Left(t, n), Right(t, n);
      var g2 := FlagDirty(t, g1, L);
      FlagDirtyKeepsClosed(t, g1, L);
      FlagDirtyExact(t, g1, L, j);
      FlagDirtyExact(t, g2, R, j);
    }
  }

  /** Setting node n's age and flagging n and its children keeps the cache
      coherent: every node left clean reads no age that changed. */
  lemma AgeChangeKeepsCoherence(x: Process, f: Flags, s: Store, n: nat, a: real)
    requires WellFormed(x) && Sized(f, |x.tree.nodes|) && Slots(s, |x.tree.nodes|) && n < |x.tree.nodes|
    requires Closed(x.tree, f) && Coherent(x, f, s)
    ensures WellFormed(x.(tree := WithAge(x.tree, n, a)))
    ensures Coherent(x.(tree := WithAge(x.tree, n, a)), FlagAgeChange(x.tree, f, n), s)
  {
    var t := x.tree;
    var y := x.(tree := WithAge(t, n, a));
    WithAgeIsVariant(x, n, a);
    var g := FlagAgeChange(t, f, n);
    forall j | 0 <= j < |t.nodes| && j != t.root && !g.dirty[j]
      ensures HoldsAt(y, s, g.active[j], j)
    {
      FlagAgeChangeClean(t, f, n, j);
      assert HoldsAt(x, s, f.active[j], j);
      SubtreeIffAncestor(t, j, n);
      ChildIsLeftOrRight(t, j);
      AgeChangeElsewhere(x, y, n, a, j);
    }
  }
}
