/**
 * The likelihood of the state-dependent speciation-extinction process as
 * functions of the tree, the parameters and the tips' characters: the vector
 * each branch carries at its older end, the per-node scaling factors, the
 * root likelihood and the log probability computeLnProbability returns.
 *
 * The ODE integrator and the natural logarithm are parameters. The
 * integrator is called with the parameter values (`Rates`) it would read;
 * the anagenetic rate matrix and the clock rate reach it only through it
 * and are not modelled.
 */
module SseModel {
  import opened TreeArena
  import opened SseVectors
  import opened SseValidity

  datatype Option<T> = None | Some(value: T)

  /** The values of the process's parameters that the likelihood reads. */
  datatype Rates = Rates(
    extinction: seq<real>,
    speciation: seq<real>,
    events: seq<CladoEvent>,
    serialSampling: Option<seq<real>>,
    samplingProbability: real,
    rootFrequencies: Option<seq<real>>,
    processAge: real)

  /** A tip's character: the set of states it is compatible with, and
      whether it is missing or a gap. */
  datatype TipState = TipState(observed: seq<bool>, gap: bool)

  type Integrator = (Rates, seq<real>, real, real) -> seq<real>

  datatype Process = Process(
    tree: Tree,
    numStates: nat,
    useClado: bool,
    useOrigin: bool,
    useScaling: bool,
    condition: string,
    rates: Rates,
    hasCharacterData: bool,
    tipStates: seq<TipState>,
    integrate: Integrator,
    ln: real -> real)

  /** What the computations need: a bifurcating tree with a bifurcating
      root, parameters sized for the states, and an integrator that keeps
      the length of the vector it integrates. */
  ghost predicate WellFormed(x: Process)
  {
    && Valid(x.tree) && !IsTip(x.tree, x.tree.root)
    && (!x.useClado ==> |x.rates.speciation| == x.numStates)
    && EventsFit(x.rates.events, x.numStates)
    && (x.rates.serialSampling.Some? ==> |x.rates.serialSampling.value| == x.numStates)
    && (x.rates.rootFrequencies.Some? ==> |x.rates.rootFrequencies.value| == x.numStates)
    && (x.hasCharacterData ==>
          |x.tipStates| == |x.tree.nodes| &&
          forall i :: 0 <= i < |x.tipStates| ==> |x.tipStates[i].observed| == x.numStates)
    && (forall r, v, b, e :: |x.integrate(r, v, b, e)| == |v|)
  }

  /** getRootFrequencies: the root frequencies when given, uniform otherwise. */
  function RootFrequencies(x: Process): (f: seq<real>)
    requires WellFormed(x)
    ensures |f| == x.numStates
  {
    match x.rates.rootFrequencies
    case Some(pi) => pi
    case None => seq(x.numStates, i requires 0 <= i < x.numStates => 1.0 / (x.numStates as real))
  }

  /** numericallyIntegrateProcess: the integrator, then every negative entry
      replaced by 0. */
  function Integrated(x: Process, v: seq<real>, beginAge: real, endAge: real): (w: seq<real>)
    requires WellFormed(x)
    ensures |w| == |v|
    ensures forall k :: 0 <= k < |w| ==> w[k] >= 0.0
  {
    Clamp(x.integrate(x.rates, v, beginAge, endAge))
  }

  /** The state pExtinction starts from: no lineage extinct yet except the
      unsampled ones. */
  function InitialState(ns: nat, rho: real): (v: seq<real>)
    ensures |v| == 2 * ns
  {
    seq(2 * ns, k requires 0 <= k < 2 * ns => if k < ns then 1.0 - rho else rho)
  }

  /** pExtinction(start, end). */
  function PExtinction(x: Process, start: real, end: real): (v: seq<real>)
    requires WellFormed(x)
    ensures |v| == 2 * x.numStates
  {
    Integrated(x, InitialState(x.numStates, x.rates.samplingProbability), start, end)
  }

  /** Σ_{i < k} freqs[i] · v[i]: the extinction probability averaged over
      the states. */
  function ExtinctionMass(freqs: seq<real>, v: seq<real>, ns: nat, k: nat): real
    requires |freqs| == ns && |v| == 2 * ns && k <= ns
  {
    if k == 0 then 0.0 else ExtinctionMass(freqs, v, ns, k - 1) + freqs[k - 1] * v[k - 1]
  }

  /** pSurvival(start, end). */
  function PSurvival(x: Process, start: real, end: real): real
    requires WellFormed(x)
  {
    1.0 - ExtinctionMass(RootFrequencies(x), PExtinction(x, start, end), x.numStates, x.numStates)
  }

  /** A tip's observation: its character when the process has data,
      otherwise a gap compatible with every state. */
  function TipObservation(x: Process, i: nat): (o: TipState)
    requires WellFormed(x) && i < |x.tree.nodes|
    ensures |o.observed| == x.numStates
  {
    if x.hasCharacterData then x.tipStates[i] else TipState(seq(x.numStates, _ => true), true)
  }

  /** A fossil tip under serial sampling. */
  predicate FossilSampled(x: Process, i: nat)
    requires i < |x.tree.nodes|
  {
    x.rates.serialSampling.Some? && x.tree.nodes[i].fossil
  }

  /** The vector a tip starts its branch with: sampling probability rho and
      extinction 1 - rho, or for a fossil under serial sampling the sampling
      rates and the extinction probability at the fossil's age. */
  function TipStart(x: Process, i: nat): (v: seq<real>)
    requires WellFormed(x) && i < |x.tree.nodes|
    ensures |v| == 2 * x.numStates
  {
    var ns, rho := x.numStates, x.rates.samplingProbability;
    var o := TipObservation(x, i);
    if FossilSampled(x, i) then
      TipVector(ns, x.rates.serialSampling.value, PExtinction(x, 0.0, Age(x.tree, i)), o.observed, o.gap)
    else
      PlainStart(ns, rho, o)
  }

  /** The vector of a tip that is not a sampled fossil: rho where its
      character allows the state, 1 - rho for extinction. */
  function PlainStart(ns: nat, rho: real, o: TipState): (v: seq<real>)
    requires |o.observed| == ns
    ensures |v| == 2 * ns
  {
    TipVector(ns, Constant(ns, rho), Constant(ns, 1.0 - rho), o.observed, o.gap)
  }

  /** n copies of c. */
  function Constant(n: nat, c: real): (v: seq<real>)
    ensures |v| == n && forall k :: 0 <= k < n ==> v[k] == c
  {
    seq(n, _ => c)
  }

  /** Whether the merge at node i counts a speciation event: at an internal
      node yes, at the root no, unless a child is a sampled ancestor, in
      which case exactly when there is no serial sampling. */
  predicate SpeciationNode(x: Process, i: nat, atRoot: bool)
    requires WellFormed(x) && i < |x.tree.nodes| && !IsTip(x.tree, i)
  {
    var t := x.tree;
    if t.nodes[Left(t, i)].sampledAncestor || t.nodes[Right(t, i)].sampledAncestor then
      x.rates.serialSampling.None?
    else !atRoot
  }

  /** The merge of node i's children's vectors. */
  function Combined(x: Process, i: nat, atRoot: bool): (v: seq<real>)
    requires WellFormed(x) && i < |x.tree.nodes| && !IsTip(x.tree, i)
    ensures |v| == 2 * x.numStates
    decreases |x.tree.nodes| - x.tree.depth[i], 0
  {
    var t := x.tree;
    Merge(NodeVec(x, Left(t, i)), NodeVec(x, Right(t, i)), x.numStates, x.useClado,
          x.rates.events, x.rates.speciation, SpeciationNode(x, i, atRoot))
  }

  /** The vector at the older end of node i's branch before rescaling: the
      tip's or the merged vector, integrated from the node's age to its
      parent's unless the node is a sampled ancestor. */
  function Unscaled(x: Process, i: nat): (v: seq<real>)
    requires WellFormed(x) && i < |x.tree.nodes| && i != x.tree.root
    ensures |v| == 2 * x.numStates
    decreases |x.tree.nodes| - x.tree.depth[i], 1
  {
    var t := x.tree;
    var start := if IsTip(t, i) then TipStart(x, i) else Combined(x, i, false);
    if t.nodes[i].sampledAncestor then start
    else Integrated(x, start, Age(t, i), Age(t, Parent(t, i)))
  }

  /** What computeNodeProbability leaves in node i's active buffer. */
  function NodeVec(x: Process, i: nat): (v: seq<real>)
    requires WellFormed(x) && i < |x.tree.nodes| && i != x.tree.root
    ensures |v| == 2 * x.numStates
    decreases |x.tree.nodes| - x.tree.depth[i], 2
  {
    if x.useScaling then Rescaled(Unscaled(x, i), x.numStates) else Unscaled(x, i)
  }

  /** What computeNodeProbability leaves in node i's active scaling factor:
      with scaling, the log of the divisor plus the children's factors;
      without, the factor is never written and stays 0. */
  function NodeScale(x: Process, i: nat): real
    requires WellFormed(x) && i < |x.tree.nodes| && i != x.tree.root
    decreases |x.tree.nodes| - x.tree.depth[i]
  {
    var t := x.tree;
    if !x.useScaling then 0.0
    else
      x.ln(Divisor(Unscaled(x, i), x.numStates))
      + (if IsTip(t, i) then 0.0 else NodeScale(x, Left(t, i)) + NodeScale(x, Right(t, i)))
  }

  /** The root's vector: the merge of its children, integrated from the
      root age to the origin when the process starts at an origin. */
  function RootVec(x: Process): (v: seq<real>)
    requires WellFormed(x)
    ensures |v| == 2 * x.numStates
  {
    var t := x.tree;
    var m := Combined(x, t.root, true);
    if x.useOrigin then Integrated(x, m, RootAge(t, x.useOrigin, x.rates.processAge), x.rates.processAge)
    else m
  }

  /** The root's scaling factor: the sum of its children's. */
  function RootScale(x: Process): real
    requires WellFormed(x)
  {
    NodeScale(x, Left(x.tree, x.tree.root)) + NodeScale(x, Right(x.tree, x.tree.root))
  }

  /** computeRootLikelihood. */
  function RootLnLikelihood(x: Process): real
    requires WellFormed(x)
  {
    x.ln(RootProbability(RootFrequencies(x), RootVec(x), x.numStates, x.numStates)) + RootScale(x)
  }

  /** One lineage starts at an origin, two at a root. */
  function InitialLineages(x: Process): real
  {
    if x.useOrigin then 1.0 else 2.0
  }

  /** The log probability of the times: the survival conditioning, when
      asked for, and the root likelihood. */
  function LnProbTimes(x: Process): real
    requires WellFormed(x)
  {
    SurvivalConditioning(x) + RootLnLikelihood(x)
  }

  /** Conditioning on survival: minus the log probability that every
      initial lineage survives to the present, or nothing. */
  function SurvivalConditioning(x: Process): real
    requires WellFormed(x)
  {
    if x.condition == "survival" then -InitialLineages(x) * x.ln(PSurvival(x, 0.0, x.rates.processAge)) else 0.0
  }

  /** A log probability, which may be -infinity. */
  datatype LnValue = NegInfinity | Finite(value: real)

  /** computeLnProbability, given the tree-shape term lnProbTreeShape. */
  function LnProbability(x: Process, lnProbTreeShape: real): LnValue
    requires WellFormed(x)
  {
    if !Admissible(x.tree, x.useOrigin, x.rates.processAge) then NegInfinity
    else Finite(LnProbTimes(x) + lnProbTreeShape)
  }

  // ---------------------------------------------------------------------
  // Tips and merges

  /** A tip that is not a sampled fossil starts with 1 - rho in every
      extinction entry, and rho in the speciation entry of every state its
      character allows (every state when it is missing or a gap), 0 in the
      others. */
  lemma TipStartWithoutFossils(x: Process, i: nat, j: nat)
    requires WellFormed(x) && i < |x.tree.nodes| && !FossilSampled(x, i) && j < x.numStates
    ensures TipStart(x, i)[j] == 1.0 - x.rates.samplingProbability
    ensures TipStart(x, i)[x.numStates + j] ==
      if TipObservation(x, i).observed[j] || TipObservation(x, i).gap then x.rates.samplingProbability else 0.0
  {
  }

  /** Without character data every tip is compatible with every state. */
  lemma NoDataTipsSeeEverything(x: Process, i: nat, j: nat)
    requires WellFormed(x) && i < |x.tree.nodes| && !x.hasCharacterData && !FossilSampled(x, i) && j < x.numStates
    ensures TipStart(x, i)[x.numStates + j] == x.rates.samplingProbability
  {
  }

  /** At the root, with neither child a sampled ancestor, the merge is not
      a speciation event: it carries no speciation rate (each speciation
      entry is then the plain product of the children's, PlainMergeEntry). */
  lemma RootMergeWithoutRate(x: Process)
    requires WellFormed(x)
    requires !x.tree.nodes[Left(x.tree, x.tree.root)].sampledAncestor
    requires !x.tree.nodes[Right(x.tree, x.tree.root)].sampledAncestor
    ensures !SpeciationNode(x, x.tree.root, true)
    ensures Combined(x, x.tree.root, true)
      == Merge(NodeVec(x, Left(x.tree, x.tree.root)), NodeVec(x, Right(x.tree, x.tree.root)),
               x.numStates, x.useClado, x.rates.events, x.rates.speciation, false)
  {
  }

  /** At an internal node other than the root, with neither child a sampled
      ancestor, the merge is a speciation event: it multiplies in the
      speciation rate (RateMergeEntry). */
  lemma InternalMergeWithRate(x: Process, n: nat)
    requires WellFormed(x) && n < |x.tree.nodes| && !IsTip(x.tree, n)
    requires !x.tree.nodes[Left(x.tree, n)].sampledAncestor && !x.tree.nodes[Right(x.tree, n)].sampledAncestor
    ensures SpeciationNode(x, n, false)
    ensures Combined(x, n, false)
      == Merge(NodeVec(x, Left(x.tree, n)), NodeVec(x, Right(x.tree, n)),
               x.numStates, x.useClado, x.rates.events, x.rates.speciation, true)
  {
  }

  /** With a sampled-ancestor child, the merge counts a speciation event
      exactly when there is no serial sampling, at the root as elsewhere. */
  lemma SampledAncestorMerge(x: Process, n: nat, atRoot: bool)
    requires WellFormed(x) && n < |x.tree.nodes| && !IsTip(x.tree, n)
    requires x.tree.nodes[Left(x.tree, n)].sampledAncestor || x.tree.nodes[Right(x.tree, n)].sampledAncestor
    ensures SpeciationNode(x, n, atRoot) <==> x.rates.serialSampling.None?
  {
  }

  /** A speciation entry of a merge without cladogenesis at a node that is
      not a speciation node. */
  lemma PlainMergeEntry(L: seq<real>, R: seq<real>, ns: nat, events: seq<CladoEvent>, lambda: seq<real>, i: nat)
    requires |L| == 2 * ns && |R| == 2 * ns && EventsFit(events, ns) && i < ns
    ensures Merge(L, R, ns, false, events, lambda, false)[ns + i] == L[ns + i] * R[ns + i]
  {
    var a, b := L[ns + i], R[ns + i];
    assert Merge(L, R, ns, false, events, lambda, false)[ns + i]
      == MergedEntry(L, R, ns, false, events, lambda, false, i);
    assert MergedEntry(L, R, ns, false, events, lambda, false, i) == a * b * 1.0;
  }

  /** A speciation entry of a merge without cladogenesis at a speciation
      node. */
  lemma RateMergeEntry(L: seq<real>, R: seq<real>, ns: nat, events: seq<CladoEvent>, lambda: seq<real>, i: nat)
    requires |L| == 2 * ns && |R| == 2 * ns && EventsFit(events, ns) && |lambda| == ns && i < ns
    ensures Merge(L, R, ns, false, events, lambda, true)[ns + i] == L[ns + i] * R[ns + i] * lambda[i]
  {
    assert Merge(L, R, ns, false, events, lambda, true)[ns + i]
      == MergedEntry(L, R, ns, false, events, lambda, true, i);
  }

  /** Every merged vector's extinction part is its left child's. */
  lemma CombinedKeepsLeftExtinction(x: Process, n: nat, atRoot: bool, i: nat)
    requires WellFormed(x) && n < |x.tree.nodes| && !IsTip(x.tree, n) && i < x.numStates
    ensures Combined(x, n, atRoot)[i] == NodeVec(x, Left(x.tree, n))[i]
  {
  }

  /** Every branch that is integrated ends non-negative, and so does the
      root's vector when it is integrated from the origin. */
  lemma IntegratedBranchesNonNegative(x: Process, i: nat, k: nat)
    requires WellFormed(x) && i < |x.tree.nodes| && i != x.tree.root
    requires !x.tree.nodes[i].sampledAncestor && k < 2 * x.numStates
    ensures Unscaled(x, i)[k] >= 0.0
  {
  }

  // ---------------------------------------------------------------------
  // What a node's vector depends on

  /** The tree with node n's age set to a. */
  function WithAge(t: Tree, n: nat, a: real): (t2: Tree)
    requires n < |t.nodes|
    ensures |t2.nodes| == |t.nodes| && t2.root == t.root && t2.depth == t.depth
  {
    t.(nodes := t.nodes[n := t.nodes[n].(age := a)])
  }

  /** Two arenas with the same links. */
  predicate SameShape(t: Tree, t2: Tree)
  {
    && |t2.nodes| == |t.nodes| && t2.root == t.root && t2.depth == t.depth
    && forall i :: 0 <= i < |t.nodes| ==>
         t2.nodes[i].parent == t.nodes[i].parent && t2.nodes[i].children == t.nodes[i].children
  }

  /** Validity depends on the links only. */
  lemma SameShapeValid(t: Tree, t2: Tree)
    requires Valid(t) && SameShape(t, t2)
    ensures Valid(t2)
  {
    var n := |t.nodes|;
    forall i | 0 <= i < n && i != t2.root
      ensures 0 <= t2.nodes[i].parent < n && t2.depth[i] == t2.depth[t2.nodes[i].parent] + 1
      ensures |t2.nodes[t2.nodes[i].parent].children| == 2
      ensures t2.nodes[t2.nodes[i].parent].children[0] == i || t2.nodes[t2.nodes[i].parent].children[1] == i
    {
      var p := t.nodes[i].parent;
      assert t2.nodes[p].children == t.nodes[p].children;
    }
    forall i, k | 0 <= i < n && 0 <= k < |t2.nodes[i].children|
      ensures t2.nodes[i].children[k] < n && t2.nodes[t2.nodes[i].children[k]].parent == i
    {
      var c := t.nodes[i].children[k];
      assert t2.nodes[c].parent == t.nodes[c].parent;
    }
    forall i | 0 <= i < n
      ensures |t2.nodes[i].children| == 0 ||
        (|t2.nodes[i].children| == 2 && t2.nodes[i].children[0] != t2.nodes[i].children[1])
    {
      assert t2.nodes[i].children == t.nodes[i].children;
    }
  }

  /** y is x with node n's age set to a. */
  ghost predicate AgeVariant(x: Process, y: Process, n: nat, a: real)
  {
    && WellFormed(x) && n < |x.tree.nodes|
    && y == x.(tree := WithAge(x.tree, n, a)) && WellFormed(y)
  }

  /** Changing an age keeps the process well formed. */
  lemma WithAgeIsVariant(x: Process, n: nat, a: real)
    requires WellFormed(x) && n < |x.tree.nodes|
    ensures AgeVariant(x, x.(tree := WithAge(x.tree, n, a)), n, a)
  {
    var t2 := WithAge(x.tree, n, a);
    SameShapeValid(x.tree, t2);
  }

  /** A tip that is not a sampled fossil: TipStart unfolded once. */
  lemma PlainTipStart(x: Process, j: nat)
    requires WellFormed(x) && j < |x.tree.nodes| && !FossilSampled(x, j)
    ensures TipStart(x, j) == PlainStart(x.numStates, x.rates.samplingProbability, TipObservation(x, j))
    ensures TipStart(x, j) == TipVector(x.numStates, Constant(x.numStates, x.rates.samplingProbability),
      Constant(x.numStates, 1.0 - x.rates.samplingProbability), TipObservation(x, j).observed, TipObservation(x, j).gap)
  {
  }

  /** A sampled fossil tip: TipStart unfolded once. */
  lemma FossilTipStart(x: Process, j: nat)
    requires WellFormed(x) && j < |x.tree.nodes| && FossilSampled(x, j)
    ensures TipStart(x, j) == TipVector(x.numStates, x.rates.serialSampling.value,
      PExtinction(x, 0.0, Age(x.tree, j)), TipObservation(x, j).observed, TipObservation(x, j).gap)
  {
  }

  /** A tip other than n starts with the same vector. */
  lemma TipStartElsewhere(x: Process, y: Process, n: nat, a: real, j: nat)
    requires AgeVariant(x, y, n, a) && j < |x.tree.nodes| && j != n
    ensures TipStart(y, j) == TipStart(x, j)
  {
    assert y.numStates == x.numStates && y.rates == x.rates;
    assert Age(y.tree, j) == Age(x.tree, j);
    assert TipObservation(y, j) == TipObservation(x, j);
    if FossilSampled(x, j) {
      assert FossilSampled(y, j);
      assert PExtinction(y, 0.0, Age(y.tree, j)) == PExtinction(x, 0.0, Age(x.tree, j));
      FossilTipStart(x, j);
      FossilTipStart(y, j);
    } else {
      assert !FossilSampled(y, j);
      PlainTipStart(x, j);
      PlainTipStart(y, j);
    }
  }

  /** Node j's merge is the same when its children's vectors are. */
  lemma CombinedElsewhere(x: Process, y: Process, n: nat, a: real, j: nat)
    requires AgeVariant(x, y, n, a) && j < |x.tree.nodes| && !IsTip(x.tree, j)
    requires Left(y.tree, j) == Left(x.tree, j) && Right(y.tree, j) == Right(x.tree, j)
    requires NodeVec(y, Left(x.tree, j)) == NodeVec(x, Left(x.tree, j))
    requires NodeVec(y, Right(x.tree, j)) == NodeVec(x, Right(x.tree, j))
    ensures Combined(y, j, false) == Combined(x, j, false)
  {
    assert SpeciationNode(y, j, false) == SpeciationNode(x, j, false);
  }

  /** Node j's branch is the same when it starts with the same vector and
      neither of its ends moved. */
  lemma UnscaledElsewhere(x: Process, y: Process, n: nat, a: real, j: nat)
    requires AgeVariant(x, y, n, a) && j < |x.tree.nodes| && j != x.tree.root
    requires j != n && Parent(x.tree, j) != n && Parent(y.tree, j) == Parent(x.tree, j)
    requires IsTip(x.tree, j) || Combined(y, j, false) == Combined(x, j, false)
    ensures Unscaled(y, j) == Unscaled(x, j)
  {
    if IsTip(x.tree, j) {
      TipStartElsewhere(x, y, n, a, j);
    }
    assert Age(y.tree, j) == Age(x.tree, j);
    assert Age(y.tree, Parent(y.tree, j)) == Age(x.tree, Parent(x.tree, j));
  }

  /** A subtree that neither contains n nor hangs directly below n reads no
      age that a change of n's age touches. */
  lemma {:induction false} AgeChangeElsewhere(x: Process, y: Process, n: nat, a: real, j: nat)
    requires AgeVariant(x, y, n, a)
    requires j < |x.tree.nodes| && j != x.tree.root
    requires n !in Subtree(x.tree, j) && Parent(x.tree, j) != n
    ensures Unscaled(y, j) == Unscaled(x, j)
    ensures NodeVec(y, j) == NodeVec(x, j)
    ensures NodeScale(y, j) == NodeScale(x, j)
    decreases |x.tree.nodes| - x.tree.depth[j]
  {
    var t := x.tree;
    assert j in Subtree(t, j);
    assert Parent(y.tree, j) == Parent(t, j);
    if !IsTip(t, j) {
      var l, r := Left(t, j), Right(t, j);
      assert Left(y.tree, j) == l && Right(y.tree, j) == r;
      ChildrenSubtreesInside(t, j);
      assert Parent(t, l) == j && Parent(t, r) == j;
      AgeChangeElsewhere(x, y, n, a, l);
      AgeChangeElsewhere(x, y, n, a, r);
      CombinedElsewhere(x, y, n, a, j);
    }
    UnscaledElsewhere(x, y, n, a, j);
    ScaleElsewhere(x, y, n, a, j);
  }

  /** NodeScale unfolded once for an age variant: the same divisor and the
      same children's factors give the same factor. */
  lemma ScaleElsewhere(x: Process, y: Process, n: nat, a: real, j: nat)
    requires AgeVariant(x, y, n, a) && j < |x.tree.nodes| && j != x.tree.root
    requires Unscaled(y, j) == Unscaled(x, j)
    requires !IsTip(x.tree, j) ==>
      NodeScale(y, Left(x.tree, j)) == NodeScale(x, Left(x.tree, j))
      && NodeScale(y, Right(x.tree, j)) == NodeScale(x, Right(x.tree, j))
    ensures NodeScale(y, j) == NodeScale(x, j)
  {
    WithAgeLinks(x.tree, n, a, j);
  }

  /** Changing an age changes no link. */
  lemma WithAgeLinks(t: Tree, n: nat, a: real, j: nat)
    requires Valid(t) && n < |t.nodes| && Valid(WithAge(t, n, a)) && j < |t.nodes|
    ensures IsTip(WithAge(t, n, a), j) == IsTip(t, j)
    ensures !IsTip(t, j) ==> Left(WithAge(t, n, a), j) == Left(t, j) && Right(WithAge(t, n, a), j) == Right(t, j)
    ensures j != t.root ==> Parent(WithAge(t, n, a), j) == Parent(t, j)
  {
  }
}
