/**
 * The invariants of the state-dependent speciation-extinction process, on
 * the values of its fields: the inputs (tree, parameters), the flags and the
 * stored vectors, and what the last keep left. Each operation of the object
 * has a step lemma here saying which invariants it keeps.
 */
module SseInvariants {
  import opened TreeArena
  import opened DirtyCache
  import opened SseVectors
  import opened SseValidity
  import opened SseModel
  import opened SseCache

  // ---------------------------------------------------------------------
  // The object's invariants, on the values of its fields

  /** Shapes: well-formed inputs, one flag of each kind per slot of the
      store, vectors of 2 numStates entries, and no scaling factor written
      unless the process rescales. */
  ghost predicate Shapes(x: Process, f: Flags, s: Store)
  {
    && WellFormed(x)
    && DirtyCache.Sized(f, |f.dirty|)
    && Shaped(s, |f.dirty|, x.numStates)
    && (!x.useScaling ==> NoScaling(s))
  }

  /** The vectors are sized for the tree, as after resizeVectors. */
  predicate Fit(x: Process, f: Flags)
  {
    |f.dirty| == |x.tree.nodes|
  }

  /** Every node other than the root is computed. */
  predicate CleanButRoot(t: Tree, d: seq<bool>)
  {
    forall j :: 0 <= j < |d| && j != t.root ==> !d[j]
  }

  /** The slots chosen at the last keep, when the process kx of that time
      had every node computed, still hold what kx gives: every write since
      went to the other slot. */
  ghost predicate KeptOf(x: Process, f: Flags, s: Store, kx: Process, ka: seq<Slot>)
  {
    && Shapes(x, f, s) && Fit(x, f)
    && WellFormed(kx) && |kx.tree.nodes| == |x.tree.nodes| && kx.tree.root == x.tree.root
    && Tracks(ka, f) && Latched(f)
    && Kept(kx, ka, s)
  }

  /** The flag invariant: dirtiness closed towards the root, and, after a
      keep that found the cache complete, the kept slots intact. */
  ghost predicate TrackedOf(x: Process, f: Flags, s: Store, k: bool, kx: Process, ka: seq<Slot>)
  {
    && Shapes(x, f, s)
    && (Fit(x, f) ==> Closed(x.tree, f))
    && (k ==> KeptOf(x, f, s, kx, ka))
  }

  /** The cache invariant: the flag invariant, and every clean node other
      than the root holds its vector and scaling factor. */
  ghost predicate ConsistentOf(x: Process, f: Flags, s: Store, k: bool, kx: Process, ka: seq<Slot>)
  {
    && TrackedOf(x, f, s, k, kx, ka)
    && (Fit(x, f) ==> Coherent(x, f, s))
  }

  /** A tree-change event keeps both invariants while the inputs stay. */
  lemma FlagDirtyStep(x: Process, f: Flags, s: Store, k: bool, kx: Process, ka: seq<Slot>, n: nat)
    requires TrackedOf(x, f, s, k, kx, ka) && Fit(x, f) && n < |x.tree.nodes|
    ensures TrackedOf(x, FlagDirty(x.tree, f, n), s, k, kx, ka)
    ensures ConsistentOf(x, f, s, k, kx, ka) ==> ConsistentOf(x, FlagDirty(x.tree, f, n), s, k, kx, ka)
  {
    FlagDirtyKeepsClosed(x.tree, f, n);
    if k {
      FlagDirtyTracks(x.tree, ka, f, n);
      FlagDirtyLatches(x.tree, f, n);
    }
    if ConsistentOf(x, f, s, k, kx, ka) {
      FlagDirtyKeepsCoherence(x, f, s, n);
    }
  }

  /** New values of the parameters keep the flag invariant, which reads the
      tree alone. */
  lemma RatesStep(x: Process, f: Flags, s: Store, k: bool, kx: Process, ka: seq<Slot>, r: Rates)
    requires TrackedOf(x, f, s, k, kx, ka) && WellFormed(x.(rates := r))
    ensures TrackedOf(x.(rates := r), f, s, k, kx, ka)
  {
  }

  /** Setting node n's age, with n and its children flagged, keeps the flag
      invariant, and keeps the cache invariant of the process before the
      change. */
  lemma AgeStep(x: Process, f: Flags, s: Store, k: bool, kx: Process, ka: seq<Slot>, n: nat, a: real)
    requires TrackedOf(x, f, s, k, kx, ka) && Fit(x, f) && n < |x.tree.nodes|
    ensures TrackedOf(x.(tree := WithAge(x.tree, n, a)), FlagAgeChange(x.tree, f, n), s, k, kx, ka)
    ensures ConsistentOf(x, f, s, k, kx, ka) ==>
      ConsistentOf(x.(tree := WithAge(x.tree, n, a)), FlagAgeChange(x.tree, f, n), s, k, kx, ka)
  {
    var g := FlagAgeChange(x.tree, f, n);
    WithAgeIsVariant(x, n, a);
    FlagAgeChangeKeeps(x.tree, f, n, ka);
    AgeChangeKeepsClosed(x.tree, g, n, a);
    if ConsistentOf(x, f, s, k, kx, ka) {
      AgeChangeKeepsCoherence(x, f, s, n, a);
    }
  }

  /** A keep clears the flags. It keeps the flag invariant; when every node
      but the root was computed it keeps the cache invariant too, and the
      active slots become the kept ones. */
  lemma KeepStep(x: Process, f: Flags, s: Store, k: bool, kx: Process, ka: seq<Slot>)
    requires TrackedOf(x, f, s, k, kx, ka)
    ensures var ready := ConsistentOf(x, f, s, k, kx, ka) && Fit(x, f) && CleanButRoot(x.tree, f.dirty);
      && TrackedOf(x, Keep(f), s, ready, x, f.active)
      && (ready ==> ConsistentOf(x, Keep(f), s, true, x, f.active))
  {
    KeepStartsProposal(f);
    if ConsistentOf(x, f, s, k, kx, ka) && Fit(x, f) && CleanButRoot(x.tree, f.dirty) {
      assert Kept(x, f.active, s) by {
        forall j | 0 <= j < |x.tree.nodes| && j != x.tree.root ensures HoldsAt(x, s, f.active[j], j) {
          assert !f.dirty[j];
        }
      }
      AllHoldCoherent(x, Keep(f), s);
    }
  }

  /** The same process with other parameter values or other ages: the
      settings and the shape of the arena are the same. */
  predicate Retimed(x: Process, y: Process)
  {
    && y.numStates == x.numStates && y.useScaling == x.useScaling
    && |y.tree.nodes| == |x.tree.nodes| && y.tree.root == x.tree.root
  }

  /** The inputs once a parameter's new values r arrive, with the root aged
      to r's process age when `age`. */
  function NewInputs(x: Process, r: Rates, age: bool): (y: Process)
    requires x.tree.root < |x.tree.nodes|
    ensures Retimed(x, y) && y.rates == r
  {
    var x1 := x.(rates := r);
    if age then x1.(tree := WithAge(x1.tree, x1.tree.root, r.processAge)) else x1
  }

  /** The flags once the new values arrived: the root and its children
      flagged when the root was aged. */
  function NewFlags(t: Tree, f: Flags, age: bool): Flags
    requires Valid(t) && Sized(f, |f.dirty|) && (age ==> |f.dirty| == |t.nodes|)
  {
    if age then FlagAgeChange(t, f, t.root) else f
  }

  /** New values that keep the process well formed keep it well formed
      with the root aged too; the root's flags vanish under a restore or a
      touch. */
  lemma NewValuesStep(x: Process, f: Flags, r: Rates, age: bool)
    requires WellFormed(x.(rates := r)) && Sized(f, |f.dirty|)
    requires age ==> |f.dirty| == |x.tree.nodes| && Closed(x.tree, f)
    ensures WellFormed(NewInputs(x, r, age))
    ensures Restore(NewFlags(x.tree, f, age)) == Restore(f)
    ensures TouchAll(NewFlags(x.tree, f, age)) == TouchAll(f)
  {
    if age {
      WithAgeIsVariant(x.(rates := r), x.tree.root, r.processAge);
      FlagAgeChangeKeeps(x.tree, f, x.tree.root, f.active);
    }
  }

  /** A restore clears the flags and swaps every latched slot back. Whatever
      the inputs now are, the flag invariant holds; when they are those of
      the last keep, the slots are those chosen then and the cache invariant
      holds. */
  lemma RestoreStep(x: Process, y: Process, f: Flags, s: Store, k: bool, kx: Process, ka: seq<Slot>)
    requires TrackedOf(x, f, s, k, kx, ka) && WellFormed(y) && Retimed(x, y)
    ensures TrackedOf(y, Restore(f), s, k, kx, ka)
    ensures k && y == kx ==> ConsistentOf(y, Restore(f), s, k, kx, ka) && Restore(f).active == ka
  {
    if k {
      RestoreUndoes(ka, f);
      if y == kx {
        AllHoldCoherent(y, Restore(f), s);
      }
    }
  }

  /** A touch by a parameter flags every node and latches every slot: both
      invariants hold, whatever the inputs now are. */
  lemma TouchStep(x: Process, y: Process, f: Flags, s: Store, k: bool, kx: Process, ka: seq<Slot>)
    requires TrackedOf(x, f, s, k, kx, ka) && WellFormed(y) && Retimed(x, y)
    ensures ConsistentOf(y, TouchAll(f), s, k, kx, ka)
  {
    if Fit(y, f) {
      TouchAllClosed(y.tree, f);
    }
    if k {
      TouchAllTracks(ka, f);
    }
  }

  /** Freshly sized vectors: every node dirty, nothing kept. */
  lemma FreshStep(x: Process, n: nat, kx: Process, ka: seq<Slot>)
    requires WellFormed(x)
    ensures ConsistentOf(x, Fresh(n), FreshStore(n, x.numStates), false, kx, ka)
  {
  }

  /** The end of computeRootLikelihood: both root subtrees recomputed, then
      the root's slot written. Every node but the root is clean and holds,
      and the kept slots were not touched. */
  lemma RootStep(x: Process, f: Flags, s0: Store, s2: Store, s3: Store, d3: seq<bool>,
                 k: bool, kx: Process, ka: seq<Slot>)
    requires ConsistentOf(x, f, s0, k, kx, ka) && Fit(x, f)
    requires Shapes(x, f.(dirty := d3), s3) && |d3| == |f.dirty|
    requires CleanButRoot(x.tree, d3) && d3[x.tree.root] == f.dirty[x.tree.root]
    requires Slots(s2, |x.tree.nodes|) && Kept(x, f.active, s2)
    requires KeptOutside(s0, s2, x.tree, f.dirty, f.active, x.tree.root)
    requires SameBut(s2, s3, |x.tree.nodes|, x.tree.root, f.active[x.tree.root])
    ensures ConsistentOf(x, f.(dirty := d3), s3, k, kx, ka)
  {
    var t, g := x.tree, f.(dirty := d3);
    RootWriteKeeps(x, s2, s3, f.active, f.active[t.root]);
    AllHoldCoherent(x, g, s3);
    if k {
      KeptSurvivesFillOf(kx, t, ka, f, s0, s2, t.root);
      RootWriteKeeps(kx, s2, s3, ka, f.active[t.root]);
      assert Latched(g) by {
        forall j | 0 <= j < |g.dirty| && g.dirty[j] ensures g.changed[j] {
          assert j == t.root;
        }
      }
    }
  }
}
