/**
 * The state-dependent speciation-extinction process as an object: the tree
 * and the parameter values it reads, two vectors and two scaling factors per
 * node, and the dirty / changed / active flags that let a proposal recompute
 * only the nodes it touched and a rejection return to the vectors of the
 * last keep.
 *
 * The parameters' values arrive with the calls that change them: a touch or
 * a restore carries what the affecter's node now holds. Whether the process
 * uses cladogenetic events, serial sampling and an origin is fixed at
 * construction. Rescaling is a user setting read at every node computation;
 * here it is also fixed at construction.
 */
module SseEngine {
  import opened TreeArena
  import opened DirtyCache
  import opened SseVectors
  import opened SseValidity
  import opened SseModel
  import opened SseCache
  import opened SseInvariants

  /** The DAG node a touch, keep or restore comes from: the process age, any
      other parameter, or the tree itself. The first two carry the parameter
      values the process reads afterwards. */
  datatype Affecter = ProcessAge(r: Rates) | Parameter(r: Rates) | TreeValue


  class StateDependentSpeciationExtinctionProcess {
    const numStates: nat
    const useClado: bool
    const useOrigin: bool
    const useScaling: bool
    const condition: string
    const hasCharacterData: bool
    const tipStates: seq<TipState>
    const integrate: Integrator
    const ln: real -> real

    var tau: Tree
    var rates: Rates
    var activeLikelihood: seq<Slot>
    var changedNodes: seq<bool>
    var dirtyNodes: seq<bool>
    var nodePartialLikelihoods: seq<seq<seq<real>>>
    var scalingFactors: seq<seq<real>>

    /** Whether the last keep found every vector computed, and what the
        process and the active slots were then. */
    ghost var kept: bool
    ghost var keptTree: Tree
    ghost var keptRates: Rates
    ghost var keptActive: seq<Slot>

    /** The inputs of the likelihood as the process holds them now. */
    function Inputs(): Process
      reads this`tau, this`rates
    {
      Process(tau, numStates, useClado, useOrigin, useScaling, condition, rates, hasCharacterData, tipStates, integrate, ln)
    }

    /** The inputs as they were at the last keep. */
    ghost function KeptInputs(): Process
      reads this`keptTree, this`keptRates
    {
      Process(keptTree, numStates, useClado, useOrigin, useScaling, condition, keptRates, hasCharacterData, tipStates, integrate, ln)
    }

    function CacheFlags(): Flags
      reads this`dirtyNodes, this`changedNodes, this`activeLikelihood
    {
      Flags(dirtyNodes, changedNodes, activeLikelihood)
    }

    function Stored(): Store
      reads this`nodePartialLikelihoods, this`scalingFactors
    {
      Store(nodePartialLikelihoods, scalingFactors)
    }

    ghost predicate Valid()
      reads this`tau, this`rates, this`dirtyNodes, this`changedNodes, this`activeLikelihood
      reads this`nodePartialLikelihoods, this`scalingFactors
    {
      Shapes(Inputs(), CacheFlags(), Stored())
    }

    ghost predicate Fits()
      reads this`tau, this`dirtyNodes
    {
      |dirtyNodes| == |tau.nodes|
    }

    /** What walking the flags needs: a tree, and flags sized for it. */
    ghost predicate FlagsFit()
      reads this`tau, this`dirtyNodes, this`changedNodes, this`activeLikelihood
    {
      TreeArena.Valid(tau) && Sized(CacheFlags(), |tau.nodes|)
    }

    ghost predicate NonRootClean()
      reads this`tau, this`dirtyNodes
    {
      CleanButRoot(tau, dirtyNodes)
    }

    ghost predicate Tracked()
      reads this
    {
      TrackedOf(Inputs(), CacheFlags(), Stored(), kept, KeptInputs(), keptActive)
    }

    ghost predicate Consistent()
      reads this
    {
      ConsistentOf(Inputs(), CacheFlags(), Stored(), kept, KeptInputs(), keptActive)
    }

    /** The invariants of the fields from the invariants of their values. */
    lemma ConsistentHere(x: Process, f: Flags, s: Store, k: bool, kx: Process, ka: seq<Slot>)
      requires x == Inputs() && f == CacheFlags() && s == Stored()
      requires k == kept && kx == KeptInputs() && ka == keptActive
      requires ConsistentOf(x, f, s, k, kx, ka)
      ensures Consistent()
    {
    }

    /** A fresh process: vectors for five nodes, every node dirty, slot 0
        active, every entry 0. */
    constructor (t: Tree, ns: nat, clado: bool, origin: bool, scaling: bool, cdt: string, r: Rates,
                 hasData: bool, tips: seq<TipState>, integrator: Integrator, log: real -> real)
      requires WellFormed(Process(t, ns, clado, origin, scaling, cdt, r, hasData, tips, integrator, log))
      ensures Inputs() == Process(t, ns, clado, origin, scaling, cdt, r, hasData, tips, integrator, log)
      ensures CacheFlags() == Fresh(5) && Stored() == FreshStore(5, ns)
      ensures Consistent() && !kept
    {
      numStates := ns;
      useClado := clado;
      useOrigin := origin;
      useScaling := scaling;
      condition := cdt;
      hasCharacterData := hasData;
      tipStates := tips;
      integrate := integrator;
      ln := log;
      tau := t;
      rates := r;
      var f := Fresh(5);
      var s := FreshStore(5, ns);
      activeLikelihood, changedNodes, dirtyNodes := f.active, f.changed, f.dirty;
      nodePartialLikelihoods, scalingFactors := s.partials, s.scalings;
      kept := false;
      new;
      FreshStep(Process(t, ns, clado, origin, scaling, cdt, r, hasData, tips, integrator, log), 5, KeptInputs(), keptActive);
    }

    /** resizeVectors: flags and store for n nodes, every node dirty. Nothing
        is cached, so the cache invariant holds. */
    method ResizeVectors(n: nat)
      requires WellFormed(Inputs())
      modifies this`activeLikelihood, this`changedNodes, this`dirtyNodes
      modifies this`nodePartialLikelihoods, this`scalingFactors, this`kept
      ensures CacheFlags() == Fresh(n) && Stored() == FreshStore(n, numStates) && !kept
      ensures Consistent()
    {
      ghost var x, kx, ka := Inputs(), KeptInputs(), keptActive;
      TakeFresh(n);
      FreshStep(x, n, kx, ka);
      ConsistentHere(x, Fresh(n), FreshStore(n, numStates), false, kx, ka);
    }

    /** The fields resizeVectors writes. */
    method TakeFresh(n: nat)
      modifies this`activeLikelihood, this`changedNodes, this`dirtyNodes
      modifies this`nodePartialLikelihoods, this`scalingFactors, this`kept
      ensures CacheFlags() == Fresh(n) && Stored() == FreshStore(n, numStates) && !kept
      ensures Inputs() == old(Inputs()) && KeptInputs() == old(KeptInputs()) && keptActive == old(keptActive)
    {
      var f := Fresh(n);
      var s := FreshStore(n, numStates);
      activeLikelihood, changedNodes, dirtyNodes := f.active, f.changed, f.dirty;
      nodePartialLikelihoods, scalingFactors := s.partials, s.scalings;
      kept := false;
    }

    // -------------------------------------------------------------------
    // The dirty flags

    /** recursivelyFlagNodeDirty: flag node n and, unless already dirty, its
        path to the root. */
    method RecursivelyFlagNodeDirty(n: nat)
      requires FlagsFit() && n < |tau.nodes|
      modifies this`dirtyNodes, this`changedNodes, this`activeLikelihood
      ensures FlagsFit()
      ensures CacheFlags() == FlagDirty(tau, old(CacheFlags()), n)
      ensures Inputs() == old(Inputs())
      ensures Stored() == old(Stored()) && kept == old(kept) && KeptInputs() == old(KeptInputs()) && keptActive == old(keptActive)
      decreases tau.depth[n]
    {
      if !dirtyNodes[n] {
        if n != tau.root {
          RecursivelyFlagNodeDirty(Parent(tau, n));
        }
        MarkNode(n);
      }
    }

    /** One node flagged dirty; its slot swapped and latched unless it
        already was. */
    method MarkNode(n: nat)
      requires n < |dirtyNodes| && n < |changedNodes| && n < |activeLikelihood|
      modifies this`dirtyNodes, this`changedNodes, this`activeLikelihood
      ensures CacheFlags() == Mark(old(CacheFlags()), n)
      ensures Inputs() == old(Inputs())
      ensures Stored() == old(Stored()) && kept == old(kept) && KeptInputs() == old(KeptInputs()) && keptActive == old(keptActive)
    {
      dirtyNodes := dirtyNodes[n := true];
      if !changedNodes[n] {
        activeLikelihood := activeLikelihood[n := Flip(activeLikelihood[n])];
        changedNodes := changedNodes[n := true];
      }
    }

    /** fireTreeChangeEvent: the tree reports a change at node n. With the
        inputs as they are, every node left clean still holds. */
    method FireTreeChangeEvent(n: nat)
      requires Tracked() && Fits() && n < |tau.nodes|
      modifies this`dirtyNodes, this`changedNodes, this`activeLikelihood
      ensures Tracked() && Fits()
      ensures CacheFlags() == FlagDirty(tau, old(CacheFlags()), n)
      ensures old(Consistent()) ==> Consistent()
    {
      ghost var x, f, s, k, kx, ka := Inputs(), CacheFlags(), Stored(), kept, KeptInputs(), keptActive;
      RecursivelyFlagNodeDirty(n);
      FireDone(x, f, s, k, kx, ka, n);
    }

    /** The end of a tree change event. */
    lemma FireDone(x: Process, f: Flags, s: Store, k: bool, kx: Process, ka: seq<Slot>, n: nat)
      requires Inputs() == x && Stored() == s && kept == k && KeptInputs() == kx && keptActive == ka
      requires TreeArena.Valid(x.tree) && Sized(f, |x.tree.nodes|) && n < |x.tree.nodes|
      requires CacheFlags() == FlagDirty(x.tree, f, n)
      ensures TrackedOf(x, f, s, k, kx, ka) ==> Tracked() && Fits() && (ConsistentOf(x, f, s, k, kx, ka) ==> Consistent())
    {
      if TrackedOf(x, f, s, k, kx, ka) {
        FlagDirtyStep(x, f, s, k, kx, ka, n);
      }
    }

    /** The flags an age change at node n raises: node n and each child of
        n, with their paths to the root. */
    method FlagAgeChangeEvents(n: nat)
      requires FlagsFit() && n < |tau.nodes|
      modifies this`dirtyNodes, this`changedNodes, this`activeLikelihood
      ensures FlagsFit()
      ensures CacheFlags() == FlagAgeChange(tau, old(CacheFlags()), n)
    {
      RecursivelyFlagNodeDirty(n);
      if !IsTip(tau, n) {
        RecursivelyFlagNodeDirty(Left(tau, n));
        RecursivelyFlagNodeDirty(Right(tau, n));
      }
    }

    /** The tree's setAge on node n as this process sees it: the tree reports
        a change at n and at each child of n, whose branches end at n (each
        report is a fireTreeChangeEvent, which flags the node and its path to
        the root), and the age changes. AgeStep states what this keeps. */
    method SetNodeAge(n: nat, a: real)
      requires FlagsFit() && n < |tau.nodes|
      modifies this`tau, this`dirtyNodes, this`changedNodes, this`activeLikelihood
      ensures tau == WithAge(old(tau), n, a)
      ensures CacheFlags() == FlagAgeChange(old(tau), old(CacheFlags()), n)
      ensures FlagsFit()
    {
      FlagAgeChangeEvents(n);
      SameShapeValid(tau, WithAge(tau, n, a));
      tau := WithAge(tau, n, a);
    }

    /** keepSpecialization: clear every flag. When every node but the root
        was computed, the cache invariant survives and the active slots
        become the ones a later restore returns to. */
    method KeepSpecialization()
      requires Tracked()
      modifies this`dirtyNodes, this`changedNodes, this`kept, this`keptTree, this`keptRates, this`keptActive
      ensures Tracked()
      ensures CacheFlags() == Keep(old(CacheFlags()))
      ensures kept == old(Consistent() && Fits() && NonRootClean())
      ensures kept ==> Consistent() && KeptInputs() == Inputs() && keptActive == activeLikelihood
    {
      ghost var x, f, s, k, kx, ka := Inputs(), CacheFlags(), Stored(), kept, KeptInputs(), keptActive;
      KeepCondition();
      TakeKeep(ConsistentOf(x, f, s, k, kx, ka) && Fit(x, f) && CleanButRoot(x.tree, f.dirty));
      KeepDone(x, f, s, k, kx, ka);
    }

    /** The fields a keep writes: the inputs and active slots it keeps, and
        whether the cache held. */
    method TakeKeep(ghost holds: bool)
      modifies this`dirtyNodes, this`changedNodes, this`kept, this`keptTree, this`keptRates, this`keptActive
      ensures kept == holds && KeptInputs() == Inputs() && keptActive == activeLikelihood
      ensures Inputs() == old(Inputs()) && Stored() == old(Stored())
      ensures CacheFlags() == Keep(old(CacheFlags()))
    {
      kept := holds;
      keptTree, keptRates, keptActive := tau, rates, activeLikelihood;
      ClearFlags();
    }

    /** Both flag vectors cleared, the active slots left as they are. */
    method ClearFlags()
      modifies this`dirtyNodes, this`changedNodes
      ensures CacheFlags() == Keep(old(CacheFlags()))
    {
      dirtyNodes := AllClear(|dirtyNodes|);
      changedNodes := AllClear(|changedNodes|);
    }

    /** What a keep asks of the cache, in terms of the values of the fields. */
    lemma KeepCondition()
      ensures Consistent() && Fits() && NonRootClean()
        <==> ConsistentOf(Inputs(), CacheFlags(), Stored(), kept, KeptInputs(), keptActive)
             && Fit(Inputs(), CacheFlags()) && CleanButRoot(Inputs().tree, CacheFlags().dirty)
    {
    }

    /** The end of a keep. */
    lemma KeepDone(x: Process, f: Flags, s: Store, k: bool, kx: Process, ka: seq<Slot>)
      requires Inputs() == x && CacheFlags() == Keep(f) && Stored() == s
      requires KeptInputs() == x && keptActive == f.active
      ensures TrackedOf(x, f, s, k, kx, ka) && kept == (ConsistentOf(x, f, s, k, kx, ka) && Fit(x, f) && CleanButRoot(x.tree, f.dirty)) ==>
        Tracked() && (kept ==> Consistent())
    {
      if TrackedOf(x, f, s, k, kx, ka) {
        KeepStep(x, f, s, k, kx, ka);
      }
    }

    /** restoreSpecialization: the affecter's old value is back; when it is
        the process age and the process has no origin, the root takes that
        age. Then every flag is cleared and every latched slot swapped back.
        When the inputs are back to those of the last keep, the cache holds
        again, in the slots chosen then. */
    method RestoreSpecialization(affecter: Affecter)
      requires Tracked()
      requires affecter.ProcessAge? && !useOrigin ==> Fits()
      requires !affecter.TreeValue? ==> WellFormed(Inputs().(rates := affecter.r))
      modifies this`tau, this`rates, this`dirtyNodes, this`changedNodes, this`activeLikelihood
      ensures Tracked() && kept == old(kept)
      ensures rates == if affecter.TreeValue? then old(rates) else affecter.r
      ensures tau == if affecter.ProcessAge? && !useOrigin then WithAge(old(tau), old(tau).root, affecter.r.processAge) else old(tau)
      ensures CacheFlags() == Restore(old(CacheFlags()))
      ensures kept && Inputs() == KeptInputs() ==> Consistent() && activeLikelihood == keptActive
    {
      ghost var x, f, s, k, kx, ka := Inputs(), CacheFlags(), Stored(), kept, KeptInputs(), keptActive;
      if !affecter.TreeValue? {
        TakeValues(affecter);
      }
      RestoreFlags();
      RestoreDone(x, f, s, k, kx, ka, if affecter.TreeValue? then rates else affecter.r, !affecter.TreeValue?, affecter.ProcessAge? && !useOrigin);
    }

    /** The new values of affecter arrive: the parameter values and, for the
        process age without an origin, the root's age, which the tree sets
        and reports as setAge does. */
    method TakeValues(affecter: Affecter)
      requires !affecter.TreeValue?
      requires TreeArena.Valid(tau) && Sized(CacheFlags(), |dirtyNodes|)
      requires affecter.ProcessAge? && !useOrigin ==> Fits()
      modifies this`tau, this`rates, this`dirtyNodes, this`changedNodes, this`activeLikelihood
      ensures rates == affecter.r
      ensures tau == if affecter.ProcessAge? && !useOrigin then WithAge(old(tau), old(tau).root, affecter.r.processAge) else old(tau)
      ensures Inputs() == NewInputs(old(Inputs()), affecter.r, affecter.ProcessAge? && !useOrigin)
      ensures CacheFlags() == NewFlags(old(tau), old(CacheFlags()), affecter.ProcessAge? && !useOrigin)
      ensures Stored() == old(Stored()) && kept == old(kept) && KeptInputs() == old(KeptInputs()) && keptActive == old(keptActive)
    {
      rates := affecter.r;
      if affecter.ProcessAge? && !useOrigin {
        SetNodeAge(tau.root, affecter.r.processAge);
      }
    }

    /** The end of a restore: the flag invariant whatever the inputs; the
        cache invariant when they are those of the last keep. */
    lemma RestoreDone(x: Process, f: Flags, s: Store, k: bool, kx: Process, ka: seq<Slot>, r: Rates, touched: bool, age: bool)
      requires x.tree.root < |x.tree.nodes| && TreeArena.Valid(x.tree) && Sized(f, |f.dirty|)
      requires age ==> touched && |f.dirty| == |x.tree.nodes|
      requires Inputs() == (if touched then NewInputs(x, r, age) else x)
      requires CacheFlags() == Restore(NewFlags(x.tree, f, age)) && Stored() == s
      requires kept == k && KeptInputs() == kx && keptActive == ka
      ensures TrackedOf(x, f, s, k, kx, ka) && (touched ==> WellFormed(x.(rates := r))) ==>
        CacheFlags() == Restore(f) && Tracked() && (kept && Inputs() == KeptInputs() ==> Consistent() && activeLikelihood == keptActive)
    {
      if TrackedOf(x, f, s, k, kx, ka) && (touched ==> WellFormed(x.(rates := r))) {
        if touched {
          NewValuesStep(x, f, r, age);
        }
        RestoreStep(x, Inputs(), f, s, k, kx, ka);
      }
    }

    /** The end of a touch by a parameter: the cache invariant, whatever the
        inputs. */
    lemma TouchDone(x: Process, f: Flags, s: Store, k: bool, kx: Process, ka: seq<Slot>, r: Rates, age: bool)
      requires x.tree.root < |x.tree.nodes| && TreeArena.Valid(x.tree) && Sized(f, |f.dirty|)
      requires age ==> |f.dirty| == |x.tree.nodes|
      requires Inputs() == NewInputs(x, r, age)
      requires CacheFlags() == TouchAll(NewFlags(x.tree, f, age)) && Stored() == s
      requires kept == k && KeptInputs() == kx && keptActive == ka
      ensures TrackedOf(x, f, s, k, kx, ka) && WellFormed(x.(rates := r)) ==> CacheFlags() == TouchAll(f) && Consistent()
    {
      if TrackedOf(x, f, s, k, kx, ka) && WellFormed(x.(rates := r)) {
        NewValuesStep(x, f, r, age);
        TouchStep(x, Inputs(), f, s, k, kx, ka);
      }
    }

    /** The loop of a restore: every flag cleared, every latched slot
        swapped back. */
    method RestoreFlags()
      requires |changedNodes| == |activeLikelihood|
      modifies this`dirtyNodes, this`changedNodes, this`activeLikelihood
      ensures CacheFlags() == Restore(old(CacheFlags()))
      ensures Inputs() == old(Inputs())
      ensures Stored() == old(Stored()) && kept == old(kept) && KeptInputs() == old(KeptInputs()) && keptActive == old(keptActive)
    {
      dirtyNodes := AllClear(|dirtyNodes|);
      var index := 0;
      while index < |changedNodes|
        modifies this`changedNodes, this`activeLikelihood
        invariant index <= |changedNodes| == |old(changedNodes)| == |activeLikelihood|
        invariant forall j :: 0 <= j < index ==>
          !changedNodes[j] && activeLikelihood[j] == (if old(changedNodes)[j] then Flip(old(activeLikelihood)[j]) else old(activeLikelihood)[j])
        invariant forall j :: index <= j < |changedNodes| ==>
          changedNodes[j] == old(changedNodes)[j] && activeLikelihood[j] == old(activeLikelihood)[j]
      {
        if changedNodes[index] {
          activeLikelihood := activeLikelihood[index := if activeLikelihood[index] == 0 then 1 else 0];
        }
        changedNodes := changedNodes[index := false];
        index := index + 1;
      }
      assert CacheFlags() == Restore(old(CacheFlags()));
    }

    /** touchSpecialization: a touch by the tree changes nothing here, the
        tree reports its own changes. A touch by a parameter brings its new
        value (and, for the process age without an origin, the root's new
        age), then flags every node dirty and swaps every slot not yet
        swapped. With every node dirty the cache invariant holds whatever
        the new inputs. */
    method TouchSpecialization(affecter: Affecter)
      requires Tracked()
      requires affecter.ProcessAge? && !useOrigin ==> Fits()
      requires !affecter.TreeValue? ==> WellFormed(Inputs().(rates := affecter.r))
      modifies this`tau, this`rates, this`dirtyNodes, this`changedNodes, this`activeLikelihood
      ensures kept == old(kept)
      ensures affecter.TreeValue? ==> Tracked() && CacheFlags() == old(CacheFlags()) && Inputs() == old(Inputs())
      ensures !affecter.TreeValue? ==> Consistent() && CacheFlags() == TouchAll(old(CacheFlags())) && rates == affecter.r
      ensures tau == if affecter.ProcessAge? && !useOrigin then WithAge(old(tau), old(tau).root, affecter.r.processAge) else old(tau)
    {
      if !affecter.TreeValue? {
        TouchByParameter(affecter);
      }
    }

    /** A touch by a parameter: its new values, then every node flagged. */
    method TouchByParameter(affecter: Affecter)
      requires Tracked() && !affecter.TreeValue?
      requires affecter.ProcessAge? && !useOrigin ==> Fits()
      requires WellFormed(Inputs().(rates := affecter.r))
      modifies this`tau, this`rates, this`dirtyNodes, this`changedNodes, this`activeLikelihood
      ensures Consistent() && CacheFlags() == TouchAll(old(CacheFlags())) && rates == affecter.r
      ensures tau == if affecter.ProcessAge? && !useOrigin then WithAge(old(tau), old(tau).root, affecter.r.processAge) else old(tau)
    {
      ghost var x, f, s, k, kx, ka := Inputs(), CacheFlags(), Stored(), kept, KeptInputs(), keptActive;
      TakeValues(affecter);
      FlagAllDirty();
      TouchDone(x, f, s, k, kx, ka, affecter.r, affecter.ProcessAge? && !useOrigin);
    }

    /** The two loops of a touch by a parameter: every node dirty, every slot
        not yet swapped swapped and latched. */
    method FlagAllDirty()
      modifies this`dirtyNodes, this`changedNodes, this`activeLikelihood
      requires |changedNodes| == |activeLikelihood|
      ensures CacheFlags() == TouchAll(old(CacheFlags()))
      ensures Inputs() == old(Inputs())
      ensures Stored() == old(Stored()) && kept == old(kept) && KeptInputs() == old(KeptInputs()) && keptActive == old(keptActive)
    {
      var i := 0;
      while i < |dirtyNodes|
        modifies this`dirtyNodes
        invariant i <= |dirtyNodes| == |old(dirtyNodes)|
        invariant forall j :: 0 <= j < i ==> dirtyNodes[j]
      {
        dirtyNodes := dirtyNodes[i := true];
        i := i + 1;
      }
      var index := 0;
      while index < |changedNodes|
        modifies this`changedNodes, this`activeLikelihood
        invariant index <= |changedNodes| == |old(changedNodes)| == |activeLikelihood|
        invariant forall j :: 0 <= j < index ==>
          changedNodes[j] && activeLikelihood[j] == (if old(changedNodes)[j] then old(activeLikelihood)[j] else Flip(old(activeLikelihood)[j]))
        invariant forall j :: index <= j < |changedNodes| ==>
          changedNodes[j] == old(changedNodes)[j] && activeLikelihood[j] == old(activeLikelihood)[j]
      {
        if !changedNodes[index] {
          activeLikelihood := activeLikelihood[index := if activeLikelihood[index] == 0 then 1 else 0];
          changedNodes := changedNodes[index := true];
        }
        index := index + 1;
      }
      assert CacheFlags() == TouchAll(old(CacheFlags()));
    }

    // -------------------------------------------------------------------
    // The likelihood

    /** Write vector v and factor c to node j's active slot. */
    method StoreNodeLikelihood(j: nat, v: seq<real>, c: real)
      requires Valid() && j < |dirtyNodes| && |v| == 2 * numStates
      requires !useScaling ==> c == 0.0
      modifies this`nodePartialLikelihoods, this`scalingFactors
      ensures Valid()
      ensures Stored() == Put(old(Stored()), j, activeLikelihood[j], v, c)
    {
      var b := activeLikelihood[j];
      PutEffect(Stored(), |dirtyNodes|, numStates, j, b, v, c);
      nodePartialLikelihoods := nodePartialLikelihoods[j := nodePartialLikelihoods[j][b := v]];
      scalingFactors := scalingFactors[j := scalingFactors[j][b := c]];
    }

    /** computeNodeProbability: recompute the dirty part of node i's subtree
        in postorder. Afterwards the whole subtree is clean and holds its
        vectors and scaling factors; only the active slots of the nodes that
        were dirty were written. */
    method ComputeNodeProbability(nodeIndex: nat)
      requires Valid() && Fits()
      requires nodeIndex < |tau.nodes| && nodeIndex != tau.root
      requires ClosedBelow(tau, CacheFlags(), nodeIndex)
      requires CoherentBelow(Inputs(), CacheFlags(), Stored(), nodeIndex)
      modifies this`dirtyNodes, this`nodePartialLikelihoods, this`scalingFactors
      ensures Valid() && Fits()
      ensures dirtyNodes == ClearSubtree(tau, old(dirtyNodes), nodeIndex)
      ensures HoldsBelow(Inputs(), Stored(), activeLikelihood, nodeIndex)
      ensures KeptOutside(old(Stored()), Stored(), tau, old(dirtyNodes), activeLikelihood, nodeIndex)
      decreases |tau.nodes| - tau.depth[nodeIndex], 2
    {
      if dirtyNodes[nodeIndex] {
        if IsTip(tau, nodeIndex) {
          ComputeTipProbability(nodeIndex);
        } else {
          ComputeInternalNodeProbability(nodeIndex);
        }
      } else {
        CleanFill(Inputs(), CacheFlags(), Stored(), nodeIndex);
      }
    }

    /** The dirty tip case of computeNodeProbability: clear its flag, start
        from the tip's observation, integrate along the branch and rescale. */
    method ComputeTipProbability(nodeIndex: nat)
      requires Valid() && Fits()
      requires nodeIndex < |tau.nodes| && nodeIndex != tau.root
      requires dirtyNodes[nodeIndex] && IsTip(tau, nodeIndex)
      modifies this`dirtyNodes, this`nodePartialLikelihoods, this`scalingFactors
      ensures Valid() && Fits()
      ensures dirtyNodes == ClearSubtree(tau, old(dirtyNodes), nodeIndex)
      ensures HoldsBelow(Inputs(), Stored(), activeLikelihood, nodeIndex)
      ensures KeptOutside(old(Stored()), Stored(), tau, old(dirtyNodes), activeLikelihood, nodeIndex)
    {
      ghost var d := dirtyNodes;
      ghost var s0 := Stored();
      dirtyNodes := dirtyNodes[nodeIndex := false];
      var b := activeLikelihood[nodeIndex];
      var start := TipProbability(Inputs(), nodeIndex, nodePartialLikelihoods[nodeIndex][b]);
      var v, sc := FinishNode(Inputs(), nodeIndex, start, 0.0, 0.0);
      var c := if useScaling then sc else scalingFactors[nodeIndex][b];
      TipFillDone(Inputs(), s0, d, activeLikelihood, nodeIndex, v, c);
      StoreNodeLikelihood(nodeIndex, v, c);
    }

    /** The dirty internal node case of computeNodeProbability: clear its
        flag, compute the left subtree, then the right one, then merge both
        children's vectors, integrate along the branch and rescale. */
    method ComputeInternalNodeProbability(nodeIndex: nat)
      requires Valid() && Fits()
      requires nodeIndex < |tau.nodes| && nodeIndex != tau.root
      requires dirtyNodes[nodeIndex] && !IsTip(tau, nodeIndex)
      requires ClosedBelow(tau, CacheFlags(), nodeIndex)
      requires CoherentBelow(Inputs(), CacheFlags(), Stored(), nodeIndex)
      modifies this`dirtyNodes, this`nodePartialLikelihoods, this`scalingFactors
      ensures Valid() && Fits()
      ensures dirtyNodes == ClearSubtree(tau, old(dirtyNodes), nodeIndex)
      ensures HoldsBelow(Inputs(), Stored(), activeLikelihood, nodeIndex)
      ensures KeptOutside(old(Stored()), Stored(), tau, old(dirtyNodes), activeLikelihood, nodeIndex)
      decreases |tau.nodes| - tau.depth[nodeIndex], 1
    {
      ghost var d, s0 := dirtyNodes, Stored();
      ghost var s1, d1 := ComputeInternalSubtrees(nodeIndex);
      StoreInternalNode(nodeIndex, s0, s1, d, d1);
    }

    /** The flag of an internal node cleared, then its left subtree and its
        right subtree computed; s1 and d1 are the store and the dirty flags
        between the two. */
    method ComputeInternalSubtrees(nodeIndex: nat) returns (ghost s1: Store, ghost d1: seq<bool>)
      requires Valid() && Fits()
      requires nodeIndex < |tau.nodes| && nodeIndex != tau.root
      requires dirtyNodes[nodeIndex] && !IsTip(tau, nodeIndex)
      requires ClosedBelow(tau, CacheFlags(), nodeIndex)
      requires CoherentBelow(Inputs(), CacheFlags(), Stored(), nodeIndex)
      modifies this`dirtyNodes, this`nodePartialLikelihoods, this`scalingFactors
      ensures Valid() && Fits() && Slots(s1, |tau.nodes|)
      ensures d1 == ClearSubtree(tau, old(dirtyNodes)[nodeIndex := false], Left(tau, nodeIndex))
      ensures dirtyNodes == ClearSubtree(tau, d1, Right(tau, nodeIndex))
      ensures KeptOutside(old(Stored()), s1, tau, old(dirtyNodes)[nodeIndex := false], activeLikelihood, Left(tau, nodeIndex))
      ensures HoldsBelow(Inputs(), s1, activeLikelihood, Left(tau, nodeIndex))
      ensures KeptOutside(s1, Stored(), tau, d1, activeLikelihood, Right(tau, nodeIndex))
      ensures HoldsBelow(Inputs(), Stored(), activeLikelihood, Right(tau, nodeIndex))
      decreases |tau.nodes| - tau.depth[nodeIndex], 0
    {
      ghost var s0 := Stored();
      FirstChildReady(Inputs(), CacheFlags(), s0, nodeIndex);
      dirtyNodes := dirtyNodes[nodeIndex := false];
      var left := Left(tau, nodeIndex);
      ComputeNodeProbability(left);
      s1, d1 := Stored(), dirtyNodes;
      var right := Right(tau, nodeIndex);
      SecondChildReady(Inputs(), old(CacheFlags()), s0, s1, nodeIndex);
      ComputeNodeProbability(right);
    }

    /** An internal node's own step, once both its subtrees hold: merge the
        children's vectors, integrate along the branch, rescale and store. */
    method StoreInternalNode(nodeIndex: nat, ghost s0: Store, ghost s1: Store, ghost d: seq<bool>, ghost d1: seq<bool>)
      requires Valid() && Fits() && Slots(s0, |tau.nodes|) && Slots(s1, |tau.nodes|)
      requires nodeIndex < |tau.nodes| && nodeIndex != tau.root && !IsTip(tau, nodeIndex)
      requires |d| == |tau.nodes| && d[nodeIndex]
      requires d1 == ClearSubtree(tau, d[nodeIndex := false], Left(tau, nodeIndex))
      requires KeptOutside(s0, s1, tau, d[nodeIndex := false], activeLikelihood, Left(tau, nodeIndex))
      requires HoldsBelow(Inputs(), s1, activeLikelihood, Left(tau, nodeIndex))
      requires KeptOutside(s1, Stored(), tau, d1, activeLikelihood, Right(tau, nodeIndex))
      requires HoldsBelow(Inputs(), Stored(), activeLikelihood, Right(tau, nodeIndex))
      modifies this`nodePartialLikelihoods, this`scalingFactors
      ensures Valid() && Fits()
      ensures ClearSubtree(tau, d1, Right(tau, nodeIndex)) == ClearSubtree(tau, d, nodeIndex)
      ensures HoldsBelow(Inputs(), Stored(), activeLikelihood, nodeIndex)
      ensures KeptOutside(s0, Stored(), tau, d, activeLikelihood, nodeIndex)
    {
      var v, c := InternalStep(Inputs(), tau, Stored(), activeLikelihood, nodeIndex, s0, s1, d, d1);
      StoreNodeLikelihood(nodeIndex, v, c);
    }

    /** computeRootLikelihood: compute both root subtrees, merge the
        children's vectors at the root (integrated to the origin when the
        process has one), sum them against the root frequencies, and add the
        children's scaling factors. The root's own flag stays as it was;
        every other node is clean and holds afterwards. */
    method ComputeRootLikelihood() returns (r: real)
      requires Consistent() && Fits()
      modifies this`dirtyNodes, this`nodePartialLikelihoods, this`scalingFactors
      ensures Consistent() && Fits() && NonRootClean()
      ensures dirtyNodes[tau.root] == old(dirtyNodes[tau.root])
      ensures r == RootLnLikelihood(Inputs())
    {
      ghost var x, f, s0, k, kx, ka := Inputs(), CacheFlags(), Stored(), kept, KeptInputs(), keptActive;
      ComputeRootSubtrees();
      r := StoreRootLikelihood(x, f, s0, k, kx, ka);
    }

    /** The root's own step of computeRootLikelihood, once both subtrees
        hold: merge, store, and take the log. */
    method StoreRootLikelihood(ghost x: Process, ghost f: Flags, ghost s0: Store,
                               ghost k: bool, ghost kx: Process, ghost ka: seq<Slot>) returns (r: real)
      requires Inputs() == x && kept == k && KeptInputs() == kx && keptActive == ka
      requires activeLikelihood == f.active && changedNodes == f.changed
      requires ConsistentOf(x, f, s0, k, kx, ka) && Fit(x, f) && Valid() && Fits()
      requires CleanButRoot(tau, dirtyNodes) && dirtyNodes[tau.root] == f.dirty[tau.root]
      requires Kept(Inputs(), activeLikelihood, Stored())
      requires KeptOutside(s0, Stored(), tau, f.dirty, activeLikelihood, tau.root)
      modifies this`nodePartialLikelihoods, this`scalingFactors
      ensures Consistent() && Fits() && NonRootClean()
      ensures r == RootLnLikelihood(Inputs())
    {
      ghost var s2 := Stored();
      var root := tau.root;
      var v, sc, prob := RootValue(Inputs(), Stored(), activeLikelihood);
      StoreNodeLikelihood(root, v, sc);
      RootDone(x, f, s0, s2, k, kx, ka, v, sc);
      r := ln(prob) + sc;
    }

    /** The two root subtrees of computeRootLikelihood: afterwards every node
        but the root is clean and holds, and no slot outside the written
        ones changed. */
    method ComputeRootSubtrees()
      requires Consistent() && Fits()
      modifies this`dirtyNodes, this`nodePartialLikelihoods, this`scalingFactors
      ensures Valid() && Fits()
      ensures CleanButRoot(tau, dirtyNodes) && dirtyNodes[tau.root] == old(dirtyNodes[tau.root])
      ensures Kept(Inputs(), activeLikelihood, Stored())
      ensures KeptOutside(old(Stored()), Stored(), tau, old(dirtyNodes), activeLikelihood, tau.root)
    {
      ghost var f, s0 := CacheFlags(), Stored();
      var root := tau.root;
      var left := Left(tau, root);
      RootChildReady(Inputs(), f, s0, left);
      ComputeNodeProbability(left);
      ghost var s1 := Stored();
      ghost var d1 := dirtyNodes;
      var right := Right(tau, root);
      RootSecondChildReady(Inputs(), f, s0, s1);
      ComputeNodeProbability(right);
      RootFillDone(Inputs(), s0, s1, Stored(), f.dirty, d1, activeLikelihood);
    }

    /** The end of computeRootLikelihood: with every node but the root clean
        and holding, the root's slot written, the cache invariant holds. */
    lemma RootDone(x: Process, f: Flags, s0: Store, s2: Store, k: bool, kx: Process, ka: seq<Slot>, v: seq<real>, c: real)
      requires Inputs() == x && kept == k && KeptInputs() == kx && keptActive == ka
      requires activeLikelihood == f.active && changedNodes == f.changed
      ensures ConsistentOf(x, f, s0, k, kx, ka) && Fit(x, f) && Valid() && Fits()
        && CleanButRoot(x.tree, dirtyNodes) && dirtyNodes[x.tree.root] == f.dirty[x.tree.root]
        && Shaped(s2, |x.tree.nodes|, x.numStates) && Kept(x, f.active, s2)
        && KeptOutside(s0, s2, x.tree, f.dirty, f.active, x.tree.root)
        && |v| == 2 * x.numStates && Stored() == Put(s2, x.tree.root, f.active[x.tree.root], v, c)
        ==> Consistent()
    {
      if && ConsistentOf(x, f, s0, k, kx, ka) && Fit(x, f) && Valid() && Fits()
         && CleanButRoot(x.tree, dirtyNodes) && dirtyNodes[x.tree.root] == f.dirty[x.tree.root]
         && Shaped(s2, |x.tree.nodes|, x.numStates) && Kept(x, f.active, s2)
         && KeptOutside(s0, s2, x.tree, f.dirty, f.active, x.tree.root)
         && |v| == 2 * x.numStates && Stored() == Put(s2, x.tree.root, f.active[x.tree.root], v, c)
      {
        PutEffect(s2, |x.tree.nodes|, x.numStates, x.tree.root, f.active[x.tree.root], v, c);
        RootStep(x, f, s0, s2, Stored(), dirtyNodes, k, kx, ka);
      }
    }

    /** computeLnProbability: a tree that fails the chronology and shape
        checks has probability 0; otherwise resize the vectors when the tree
        has a different number of nodes, condition on survival when asked
        to, and add the root likelihood and the tree-shape term. */
    method ComputeLnProbability(lnProbTreeShape: real) returns (r: LnValue)
      requires Consistent()
      modifies this`activeLikelihood, this`changedNodes, this`dirtyNodes
      modifies this`nodePartialLikelihoods, this`scalingFactors, this`kept
      ensures Consistent()
      ensures r == LnProbability(Inputs(), lnProbTreeShape)
      ensures r.Finite? ==> Fits() && NonRootClean()
      ensures r.NegInfinity? ==> CacheFlags() == old(CacheFlags()) && Stored() == old(Stored()) && kept == old(kept)
    {
      var ok := CheckTree(tau, useOrigin, rates.processAge);
      if !ok {
        return NegInfinity;
      }
      var lnProb := ComputeLnProbabilityTimes();
      r := Finite(lnProb + lnProbTreeShape);
    }

    /** The log probability of an admissible tree, before the tree-shape
        term: vectors fitted to the tree, the survival conditioning and the
        root likelihood. */
    method ComputeLnProbabilityTimes() returns (lnProb: real)
      requires Consistent()
      modifies this`activeLikelihood, this`changedNodes, this`dirtyNodes
      modifies this`nodePartialLikelihoods, this`scalingFactors, this`kept
      ensures Consistent() && Fits() && NonRootClean()
      ensures Inputs() == old(Inputs())
      ensures lnProb == LnProbTimes(Inputs())
    {
      FitVectors();
      var conditioning := ConditionOnSurvival(Inputs());
      var rootLikelihood := ComputeRootLikelihood();
      lnProb := conditioning + rootLikelihood;
    }

    /** Vectors for as many nodes as the tree has, fresh ones when the
        number of nodes changed. */
    method FitVectors()
      requires Consistent()
      modifies this`activeLikelihood, this`changedNodes, this`dirtyNodes
      modifies this`nodePartialLikelihoods, this`scalingFactors, this`kept
      ensures Consistent() && Fits()
    {
      if |tau.nodes| != |dirtyNodes| {
        ResizeVectors(|tau.nodes|);
      }
    }
  }

  // ---------------------------------------------------------------------
  // The arithmetic of one node, on the inputs

  /** The tip case of computeNodeProbability: rho and 1 - rho, or for a
      fossil under serial sampling the sampling rates and the extinction
      probabilities at the fossil's age; then the tip loop over the tip's
      observed states. */
  method TipProbability(x: Process, j: nat, buf: seq<real>) returns (v: seq<real>)
    requires WellFormed(x) && j < |x.tree.nodes| && |buf| == 2 * x.numStates
    ensures v == TipStart(x, j)
  {
    var ns, rho := x.numStates, x.rates.samplingProbability;
    var o := TipObservation(x, j);
    if x.rates.serialSampling.Some? && x.tree.nodes[j].fossil {
      var extinction := ExtinctionProbabilities(x, 0.0, Age(x.tree, j));
      FossilTipStart(x, j);
      v := TipLikelihood(buf, ns, x.rates.serialSampling.value, extinction, o.observed, o.gap);
      assert v == TipStart(x, j);
    } else {
      PlainTipStart(x, j);
      v := TipLikelihood(buf, ns, Constant(ns, rho), Constant(ns, 1.0 - rho), o.observed, o.gap);
      assert v == TipStart(x, j);
    }
  }

  /** An internal node's step on the values of the cache: with both of its
      subtrees holding in s, the vector and factor it computes make its whole
      subtree hold once written, and change nothing outside it. */
  method InternalStep(x: Process, t: Tree, s: Store, act: seq<Slot>, i: nat,
                      ghost s0: Store, ghost s1: Store, ghost d: seq<bool>, ghost d1: seq<bool>)
    returns (v: seq<real>, c: real)
    requires t == x.tree && WellFormed(x) && Shaped(s, |t.nodes|, x.numStates) && (!x.useScaling ==> NoScaling(s))
    requires Slots(s0, |t.nodes|) && Slots(s1, |t.nodes|) && |act| == |t.nodes|
    requires i < |t.nodes| && i != t.root && !IsTip(t, i)
    requires |d| == |t.nodes| && d[i]
    requires d1 == ClearSubtree(t, d[i := false], Left(t, i))
    requires KeptOutside(s0, s1, t, d[i := false], act, Left(t, i))
    requires HoldsBelow(x, s1, act, Left(t, i))
    requires KeptOutside(s1, s, t, d1, act, Right(t, i))
    requires HoldsBelow(x, s, act, Right(t, i))
    ensures |v| == 2 * x.numStates && (!x.useScaling ==> c == 0.0)
    ensures ClearSubtree(t, d1, Right(t, i)) == ClearSubtree(t, d, i)
    ensures HoldsBelow(x, Put(s, i, act[i], v, c), act, i)
    ensures KeptOutside(s0, Put(s, i, act[i], v, c), t, d, act, i)
  {
    InternalFillReady(x, s1, s, d1, act, i);
    v, c := InternalValue(x, s, act, i);
    InternalFillDone(x, s0, s1, s, d, d1, act, i, v, c, Put(s, i, act[i], v, c));
  }

  /** An internal node's vector and scaling factor, from its children's
      slots; without rescaling the node keeps the factor it had. */
  method InternalValue(x: Process, s: Store, act: seq<Slot>, i: nat) returns (v: seq<real>, c: real)
    requires WellFormed(x) && Shaped(s, |x.tree.nodes|, x.numStates) && |act| == |x.tree.nodes|
    requires i < |x.tree.nodes| && i != x.tree.root && !IsTip(x.tree, i)
    requires HoldsAt(x, s, act[Left(x.tree, i)], Left(x.tree, i))
    requires HoldsAt(x, s, act[Right(x.tree, i)], Right(x.tree, i))
    ensures v == NodeVec(x, i)
    ensures x.useScaling ==> c == NodeScale(x, i)
    ensures !x.useScaling ==> c == s.scalings[i][act[i]]
  {
    var t := x.tree;
    var left, right := Left(t, i), Right(t, i);
    var b, bl, br := act[i], act[left], act[right];
    var start := MergeAt(x, i, s.partials[left][bl], s.partials[right][br], s.partials[i][b], false);
    var sc;
    v, sc := FinishNode(x, i, start, s.scalings[left][bl], s.scalings[right][br]);
    c := if x.useScaling then sc else s.scalings[i][b];
  }

  /** The root's vector, scaling factor and probability, from its
      children's slots. */
  method RootValue(x: Process, s: Store, act: seq<Slot>) returns (v: seq<real>, sc: real, prob: real)
    requires WellFormed(x) && Shaped(s, |x.tree.nodes|, x.numStates) && |act| == |x.tree.nodes|
    requires Kept(x, act, s)
    ensures v == RootVec(x) && sc == RootScale(x)
    ensures prob == RootProbability(RootFrequencies(x), RootVec(x), x.numStates, x.numStates)
  {
    var t := x.tree;
    var root, left, right := t.root, Left(t, t.root), Right(t, t.root);
    assert HoldsAt(x, s, act[left], left) && HoldsAt(x, s, act[right], right);
    v := RootVector(x, s.partials[left][act[left]], s.partials[right][act[right]], s.partials[root][act[root]]);
    prob := SumRootProbability(RootFrequencies(x), v, x.numStates);
    sc := s.scalings[left][act[left]] + s.scalings[right][act[right]];
  }

  /** The survival conditioning of computeLnProbability: one initial
      lineage with an origin, two without. */
  method ConditionOnSurvival(x: Process) returns (c: real)
    requires WellFormed(x)
    ensures c == SurvivalConditioning(x)
  {
    var numInitialLineages := 2.0;
    if x.useOrigin {
      numInitialLineages := 1.0;
    }
    c := 0.0;
    if x.condition == "survival" {
      var survival := SurvivalProbability(x, 0.0, x.rates.processAge);
      c := -numInitialLineages * x.ln(survival);
    }
  }

  /** The merge at node j of its children's vectors lv and rv: a speciation
      event at an internal node, none at the root, and with a sampled-ancestor
      child one exactly when there is no serial sampling. */
  method MergeAt(x: Process, j: nat, lv: seq<real>, rv: seq<real>, buf: seq<real>, atRoot: bool) returns (v: seq<real>)
    requires WellFormed(x) && j < |x.tree.nodes| && !IsTip(x.tree, j) && |buf| == 2 * x.numStates
    requires lv == NodeVec(x, Left(x.tree, j)) && rv == NodeVec(x, Right(x.tree, j))
    ensures v == Combined(x, j, atRoot)
  {
    var t := x.tree;
    var speciationNode := !atRoot;
    if t.nodes[Left(t, j)].sampledAncestor || t.nodes[Right(t, j)].sampledAncestor {
      speciationNode := x.rates.serialSampling.None?;
    }
    v := MergeDescendants(buf, lv, rv, x.numStates, x.useClado, x.rates.events, x.rates.speciation, speciationNode);
  }

  /** The end of computeNodeProbability: integrate the node's start vector
      along its branch unless the node is a sampled ancestor, then, when the
      process rescales, rescale it and record the log of the divisor plus
      the children's factors sl and sr. */
  method FinishNode(x: Process, j: nat, start: seq<real>, sl: real, sr: real) returns (v: seq<real>, sc: real)
    requires WellFormed(x) && j < |x.tree.nodes| && j != x.tree.root
    requires start == if IsTip(x.tree, j) then TipStart(x, j) else Combined(x, j, false)
    requires !IsTip(x.tree, j) ==> sl == NodeScale(x, Left(x.tree, j)) && sr == NodeScale(x, Right(x.tree, j))
    ensures v == NodeVec(x, j)
    ensures x.useScaling ==> sc == NodeScale(x, j)
  {
    var t := x.tree;
    var w := start;
    if !t.nodes[j].sampledAncestor {
      w := NumericallyIntegrateProcess(x, w, t.nodes[j].age, t.nodes[Parent(t, j)].age);
    }
    assert w == Unscaled(x, j);
    v, sc := w, 0.0;
    if x.useScaling {
      v, sc := RescaleSpeciation(w, x.numStates, x.ln);
      if !IsTip(t, j) {
        sc := sc + (sl + sr);
      }
    }
  }

  /** numericallyIntegrateProcess: the integrator, then the clamping loop. */
  method NumericallyIntegrateProcess(x: Process, likelihoods: seq<real>, beginAge: real, endAge: real) returns (v: seq<real>)
    requires WellFormed(x)
    ensures v == Integrated(x, likelihoods, beginAge, endAge)
  {
    var raw := x.integrate(x.rates, likelihoods, beginAge, endAge);
    v := ClampNegatives(raw);
  }

  /** pExtinction: integrate the initial state, 1 - rho extinct and rho
      sampled in every state. */
  method ExtinctionProbabilities(x: Process, start: real, end: real) returns (v: seq<real>)
    requires WellFormed(x)
    ensures v == PExtinction(x, start, end)
  {
    var ns, rho := x.numStates, x.rates.samplingProbability;
    var initialState := StartingState(ns, rho);
    v := NumericallyIntegrateProcess(x, initialState, start, end);
  }

  /** The loop of pExtinction that sets 1 - rho in the extinction entries
      and rho in the others. */
  method StartingState(ns: nat, rho: real) returns (initialState: seq<real>)
    ensures initialState == InitialState(ns, rho)
  {
    initialState := Constant(2 * ns, 0.0);
    for i := 0 to ns
      invariant |initialState| == 2 * ns
      invariant forall k :: 0 <= k < i ==> initialState[k] == 1.0 - rho
      invariant forall k :: ns <= k < ns + i ==> initialState[k] == rho
    {
      initialState := initialState[i := 1.0 - rho][ns + i := rho];
    }
  }

  /** pSurvival: one less the extinction probabilities averaged over the
      root frequencies. */
  method SurvivalProbability(x: Process, start: real, end: real) returns (p: real)
    requires WellFormed(x)
    ensures p == PSurvival(x, start, end)
  {
    var initialState := ExtinctionProbabilities(x, start, end);
    var prob := AverageExtinction(RootFrequencies(x), initialState, x.numStates);
    p := 1.0 - prob;
  }

  /** The loop of pSurvival: the extinction entries weighted by the root
      frequencies. */
  method AverageExtinction(freqs: seq<real>, v: seq<real>, ns: nat) returns (prob: real)
    requires |freqs| == ns && |v| == 2 * ns
    ensures prob == ExtinctionMass(freqs, v, ns, ns)
  {
    prob := 0.0;
    for i := 0 to ns
      invariant prob == ExtinctionMass(freqs, v, ns, i)
    {
      prob := prob + freqs[i] * v[i];
    }
  }

  /** The root's vector: the merge of its children's vectors lv and rv,
      integrated from the root's age to the process age when the process
      starts at an origin. */
  method RootVector(x: Process, lv: seq<real>, rv: seq<real>, buf: seq<real>) returns (v: seq<real>)
    requires WellFormed(x) && |buf| == 2 * x.numStates
    requires lv == NodeVec(x, Left(x.tree, x.tree.root)) && rv == NodeVec(x, Right(x.tree, x.tree.root))
    ensures v == RootVec(x)
  {
    v := MergeAt(x, x.tree.root, lv, rv, buf, true);
    if x.useOrigin {
      v := NumericallyIntegrateProcess(x, v, x.tree.nodes[x.tree.root].age, x.rates.processAge);
    }
  }
}
