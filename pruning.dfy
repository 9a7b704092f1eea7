/**
 * Felsenstein pruning on values: the partial likelihood vector every node of
 * the tree should hold, the per-pattern likelihood at the root, and the log
 * probability of the data. The pruning engine's buffer is proved to agree
 * with these functions for every clean node.
 */
module Pruning {
  import opened TreeArena
  import opened DirtyCache
  import opened BufferLayout
  import opened StateBits
  import opened SitePatterns

  /** Everything a likelihood computation reads. `probs[i]` is the row-major
      transition-probability matrix of node i's branch, as the model's
      updateTransitionProbabilities(i, branch length) provides it;
      `charMatrix`/`gapMatrix` are indexed by tip and pattern; `freqs` are the
      root frequencies. */
  datatype Inputs = Inputs(
    tree: Tree,
    numChars: nat,
    probs: seq<seq<real>>,
    charMatrix: seq<seq<nat>>,
    gapMatrix: seq<seq<bool>>,
    numPatterns: nat,
    freqs: seq<real>)

  predicate WellFormed(x: Inputs)
  {
    && Valid(x.tree)
    && !IsTip(x.tree, x.tree.root)
    && |x.probs| == |x.tree.nodes|
    && (forall i :: 0 <= i < |x.probs| ==> |x.probs[i]| == x.numChars * x.numChars)
    && |x.gapMatrix| == |x.charMatrix|
    && (forall i :: 0 <= i < |x.tree.nodes| && IsTip(x.tree, i) ==> i < |x.charMatrix|)
    && (forall t :: 0 <= t < |x.charMatrix| ==>
          |x.charMatrix[t]| == x.numPatterns && |x.gapMatrix[t]| == x.numPatterns)
    && (forall t, p :: 0 <= t < |x.charMatrix| && 0 <= p < x.numPatterns ==>
          x.charMatrix[t][p] < Pow2(x.numChars))
    && |x.freqs| == x.numChars
  }

  function LayoutOf(x: Inputs): Layout
  {
    Layout(|x.tree.nodes|, x.numPatterns, x.numChars)
  }

  /** Σ_k L[k] · R[k] · w[k]. */
  function Dot3(w: seq<real>, L: seq<real>, R: seq<real>): real
    requires |L| == |w| && |R| == |w|
  {
    if |w| == 0 then 0.0
    else
      var n := |w| - 1;
      Dot3(w[..n], L[..n], R[..n]) + L[n] * R[n] * w[n]
  }

  /** A tip's vector at one pattern: entry c1 is the probability, under the
      row-major C x C matrix m, of ending in any state of the observed set
      `val`, or in any state at all for a gap. */
  function TipRow(m: seq<real>, C: nat, val: nat, gap: bool): (v: seq<real>)
    requires |m| == C * C
    ensures |v| == C
  {
    seq(C, c1 requires 0 <= c1 < C => if gap then RowSum(Row(m, C, c1)) else MaskedSum(val, Row(m, C, c1)))
  }

  /** An internal node's vector from its children's: entry c1 is
      Σ_c2 m[c1][c2] · L[c2] · R[c2]. */
  function Combine(m: seq<real>, C: nat, L: seq<real>, R: seq<real>): (v: seq<real>)
    requires |m| == C * C && |L| == C && |R| == C
    ensures |v| == C
  {
    seq(C, c1 requires 0 <= c1 < C => Dot3(Row(m, C, c1), L, R))
  }

  /** The partial likelihood vector of node i at pattern p: entry c1 is the
      probability of the data below i given state c1 at the top of i's
      branch. */
  function Partial(x: Inputs, i: nat, p: nat): (v: seq<real>)
    requires WellFormed(x) && i < |x.tree.nodes| && p < x.numPatterns
    ensures |v| == x.numChars
    decreases |x.tree.nodes| - x.tree.depth[i]
  {
    if IsTip(x.tree, i) then
      TipRow(x.probs[i], x.numChars, x.charMatrix[i][p], x.gapMatrix[i][p])
    else
      Combine(x.probs[i], x.numChars, Partial(x, Left(x.tree, i), p), Partial(x, Right(x.tree, i), p))
  }

  /** Likelihood of pattern p: both root children combined with the root
      frequencies. */
  function RootLikelihood(x: Inputs, p: nat): real
    requires WellFormed(x) && p < x.numPatterns
  {
    var t := x.tree;
    Dot3(x.freqs, Partial(x, Left(t, t.root), p), Partial(x, Right(t, t.root), p))
  }

  /** log of every pattern's likelihood, `ln` standing for the logarithm. */
  function PatternLnLikelihoods(x: Inputs, ln: real -> real): (v: seq<real>)
    requires WellFormed(x)
    ensures |v| == x.numPatterns
  {
    seq(x.numPatterns, p requires 0 <= p < x.numPatterns => ln(RootLikelihood(x, p)))
  }

  /** The log probability computeRootLikelihood computes: one log term per
      pattern, whatever the pattern's multiplicity. */
  function LnProbAsWritten(x: Inputs, ln: real -> real): real
    requires WellFormed(x)
  {
    SumReal(PatternLnLikelihoods(x, ln))
  }

  /** The log probability of the alignment: every pattern's log term weighted
      by the number of sites that share it. */
  function LnProb(x: Inputs, counts: seq<nat>, ln: real -> real): real
    requires WellFormed(x) && |counts| == x.numPatterns
  {
    Weighted(counts, PatternLnLikelihoods(x, ln))
  }

  // ---------------------------------------------------------------------
  // The buffer

  /** The buffer entry (b, n, p, c). */
  function Entry(buf: seq<real>, l: Layout, b: nat, n: nat, p: nat, c: nat): real
    requires |buf| == BufferSize(l) && InRange(l, b, n, p, c)
  {
    OffsetInBuffer(l, b, n, p, c);
    buf[Offset(l, b, n, p, c)]
  }

  /** Buffer `b` of node i holds the node's partial likelihoods. */
  predicate NodeHolds(x: Inputs, buf: seq<real>, b: nat, i: nat)
    requires WellFormed(x) && |buf| == BufferSize(LayoutOf(x)) && b < 2 && i < |x.tree.nodes|
  {
    forall p, c :: 0 <= p < x.numPatterns && 0 <= c < x.numChars ==>
      Entry(buf, LayoutOf(x), b, i, p, c) == Partial(x, i, p)[c]
  }

  /** Every clean node other than the root holds its partial likelihoods in
      its active buffer. (The root's value is the cached log probability.) */
  predicate Coherent(x: Inputs, f: Flags, buf: seq<real>)
    requires WellFormed(x) && Sized(f, |x.tree.nodes|) && |buf| == BufferSize(LayoutOf(x))
  {
    forall i :: 0 <= i < |x.tree.nodes| && i != x.tree.root && !f.dirty[i] ==>
      NodeHolds(x, buf, f.active[i], i)
  }

  /** Coherence restricted to the subtree of `i`. */
  predicate CoherentBelow(x: Inputs, f: Flags, buf: seq<real>, i: nat)
    requires WellFormed(x) && Sized(f, |x.tree.nodes|) && |buf| == BufferSize(LayoutOf(x))
    requires i < |x.tree.nodes|
  {
    forall j :: j in Subtree(x.tree, i) && j < |x.tree.nodes| && j != x.tree.root && !f.dirty[j] ==>
      NodeHolds(x, buf, f.active[j], j)
  }

  /** Two buffers agree everywhere except in block (b, i). */
  ghost predicate SameBut(l: Layout, a: seq<real>, a2: seq<real>, b: nat, i: nat)
    requires |a| == BufferSize(l) && |a2| == BufferSize(l)
  {
    forall b2, j, p, c :: InRange(l, b2, j, p, c) && !(b2 == b && j == i) ==>
      Entry(a2, l, b2, j, p, c) == Entry(a, l, b2, j, p, c)
  }

  /** Writing one entry changes that entry and no other. */
  lemma EntryUpdate(l: Layout, buf: seq<real>, b: nat, n: nat, p: nat, c: nat, v: real)
    requires |buf| == BufferSize(l) && InRange(l, b, n, p, c)
    ensures Offset(l, b, n, p, c) < |buf|
    ensures Entry(buf[Offset(l, b, n, p, c) := v], l, b, n, p, c) == v
    ensures forall b2, n2, p2, c2 :: InRange(l, b2, n2, p2, c2) && !(b2 == b && n2 == n && p2 == p && c2 == c) ==>
              Entry(buf[Offset(l, b, n, p, c) := v], l, b2, n2, p2, c2) == Entry(buf, l, b2, n2, p2, c2)
  {
    OffsetInBuffer(l, b, n, p, c);
    var o := Offset(l, b, n, p, c);
    var buf2 := buf[o := v];
    forall b2, n2, p2, c2 | InRange(l, b2, n2, p2, c2) && !(b2 == b && n2 == n && p2 == p && c2 == c)
      ensures Entry(buf2, l, b2, n2, p2, c2) == Entry(buf, l, b2, n2, p2, c2)
    {
      var o2 := Offset(l, b2, n2, p2, c2);
      OffsetInBuffer(l, b2, n2, p2, c2);
      if o2 == o {
        OffsetInjective(l, b2, n2, p2, c2, b, n, p, c);
      }
      assert buf2[o2] == buf[o2];
    }
  }

  // ---------------------------------------------------------------------
  // Locality

  /** Two inputs agree on everything node i's partial likelihoods at
      patterns p and q read: the matrices of i's subtree and the tips'
      characters. */
  predicate AgreeBelow(x: Inputs, p: nat, y: Inputs, q: nat, i: nat)
    requires WellFormed(x) && WellFormed(y) && i < |x.tree.nodes|
    requires p < x.numPatterns && q < y.numPatterns
  {
    && x.tree == y.tree && x.numChars == y.numChars
    && (forall j :: j in Subtree(x.tree, i) ==> j < |x.tree.nodes| && x.probs[j] == y.probs[j])
    && (forall j :: j in Subtree(x.tree, i) && j < |x.tree.nodes| && IsTip(x.tree, j) ==>
          x.charMatrix[j][p] == y.charMatrix[j][q] && x.gapMatrix[j][p] == y.gapMatrix[j][q])
  }

  /** A node's partial likelihoods depend only on its own subtree. */
  lemma {:induction false} PartialDependsOnSubtree(x: Inputs, p: nat, y: Inputs, q: nat, i: nat)
    requires WellFormed(x) && WellFormed(y) && i < |x.tree.nodes|
    requires p < x.numPatterns && q < y.numPatterns
    requires AgreeBelow(x, p, y, q, i)
    ensures Partial(x, i, p) == Partial(y, i, q)
    decreases |x.tree.nodes| - x.tree.depth[i]
  {
    var t := x.tree;
    assert i in Subtree(t, i);
    if !IsTip(t, i) {
      var l, r := Left(t, i), Right(t, i);
      ChildrenSubtreesInside(t, i);
      PartialDependsOnSubtree(x, p, y, q, l);
      PartialDependsOnSubtree(x, p, y, q, r);
    }
  }

  /** Changing the matrix of node n leaves every node whose subtree avoids n
      unchanged. */
  lemma PartialUnaffected(x: Inputs, n: nat, m: seq<real>, j: nat, p: nat)
    requires WellFormed(x) && n < |x.tree.nodes| && |m| == x.numChars * x.numChars
    requires j < |x.tree.nodes| && p < x.numPatterns && n !in Subtree(x.tree, j)
    ensures WellFormed(x.(probs := x.probs[n := m]))
    ensures Partial(x.(probs := x.probs[n := m]), j, p) == Partial(x, j, p)
  {
    var y := x.(probs := x.probs[n := m]);
    forall k | k in Subtree(x.tree, j) ensures k < |x.tree.nodes| && x.probs[k] == y.probs[k] {
      SubtreeBelow(x.tree, j, k);
    }
    PartialDependsOnSubtree(y, p, x, p, j);
  }

  /** A branch change at node n followed by recursivelyFlagNodeDirty(n)
      keeps the cache coherent: every node still clean afterwards is off
      n's path to the root, so its subtree avoids n and its buffer is
      untouched. */
  lemma BranchChangeKeepsCoherence(x: Inputs, f: Flags, buf: seq<real>, n: nat, m: seq<real>)
    requires WellFormed(x) && Sized(f, |x.tree.nodes|) && |buf| == BufferSize(LayoutOf(x))
    requires Closed(x.tree, f) && Coherent(x, f, buf)
    requires n < |x.tree.nodes| && |m| == x.numChars * x.numChars
    ensures WellFormed(x.(probs := x.probs[n := m]))
    ensures Coherent(x.(probs := x.probs[n := m]), FlagDirty(x.tree, f, n), buf)
  {
    var y := x.(probs := x.probs[n := m]);
    var t := x.tree;
    var g := FlagDirty(t, f, n);
    assert WellFormed(y);
    forall i | 0 <= i < |t.nodes| && i != t.root && !g.dirty[i]
      ensures NodeHolds(y, buf, g.active[i], i)
    {
      FlagDirtyMarksPath(t, f, n, i);
      FlagDirtyExact(t, f, n, i);
      SubtreeIffAncestor(t, i, n);
      assert NodeHolds(x, buf, f.active[i], i);
      forall p | 0 <= p < y.numPatterns ensures Partial(y, i, p) == Partial(x, i, p) {
        PartialUnaffected(x, n, m, i, p);
      }
    }
  }

  /** The whole cache invariant after a branch change at n and the flagging
      it causes: closed, coherent, and the root dirty. */
  lemma BranchChangeKeepsInvariant(x: Inputs, f: Flags, buf: seq<real>, n: nat, m: seq<real>)
    requires WellFormed(x) && Sized(f, |x.tree.nodes|) && |buf| == BufferSize(LayoutOf(x))
    requires Closed(x.tree, f) && Coherent(x, f, buf)
    requires n < |x.tree.nodes| && |m| == x.numChars * x.numChars
    ensures WellFormed(x.(probs := x.probs[n := m]))
    ensures Closed(x.tree, FlagDirty(x.tree, f, n))
    ensures Coherent(x.(probs := x.probs[n := m]), FlagDirty(x.tree, f, n), buf)
    ensures FlagDirty(x.tree, f, n).dirty[x.tree.root]
  {
    BranchChangeKeepsCoherence(x, f, buf, n, m);
    FlagDirtyKeepsClosed(x.tree, f, n);
    RootIsAncestor(x.tree, n);
    FlagDirtyMarksPath(x.tree, f, n, x.tree.root);
  }

  /** keepSpecialization clears the flags; when the root was clean, and so
      by the cache invariant every node, the cache stays coherent. */
  lemma KeepKeepsInvariant(x: Inputs, f: Flags, buf: seq<real>)
    requires WellFormed(x) && Sized(f, |x.tree.nodes|) && |buf| == BufferSize(LayoutOf(x))
    requires Closed(x.tree, f) && Coherent(x, f, buf) && !f.dirty[x.tree.root]
    ensures Sized(Keep(f), |x.tree.nodes|)
    ensures Closed(x.tree, Keep(f)) && Coherent(x, Keep(f), buf) && !Keep(f).dirty[x.tree.root]
  {
    CleanRootCleanTree(x.tree, f);
  }

  /** After a touch by any parameter other than the tree every node is
      dirty, so the cache is closed and coherent whatever the new inputs
      are. */
  lemma TouchKeepsInvariant(y: Inputs, f: Flags, buf: seq<real>)
    requires WellFormed(y) && Sized(f, |y.tree.nodes|) && |buf| == BufferSize(LayoutOf(y))
    ensures Sized(TouchAll(f), |y.tree.nodes|)
    ensures Closed(y.tree, TouchAll(f)) && Coherent(y, TouchAll(f), buf) && TouchAll(f).dirty[y.tree.root]
  {
    TouchAllClosed(y.tree, f);
  }

  /** Every node other than the root holds its partial likelihoods in buffer
      act[i]. */
  predicate AllHold(x: Inputs, act: seq<Slot>, buf: seq<real>)
    requires WellFormed(x) && |act| == |x.tree.nodes| && |buf| == BufferSize(LayoutOf(x))
  {
    forall i :: 0 <= i < |x.tree.nodes| && i != x.tree.root ==> NodeHolds(x, buf, act[i], i)
  }

  /** What a restore returns to is intact: the active buffers are the kept
      ones `ka` swapped at the latched nodes, every dirty node is latched,
      every node but the root holds its partial likelihoods for the kept
      inputs kx in its kept buffer, and `lnk` is the log probability of kx. */
  ghost predicate RestorePoint(kx: Inputs, f: Flags, ka: seq<Slot>, buf: seq<real>, counts: seq<nat>, lnk: real,
                            ln: real -> real)
  {
    && WellFormed(kx) && |counts| == kx.numPatterns
    && Sized(f, |kx.tree.nodes|) && |buf| == BufferSize(LayoutOf(kx))
    && Tracks(ka, f) && Latched(f)
    && AllHold(kx, ka, buf)
    && lnk == LnProb(kx, counts, ln)
  }

  /** A keep that finds the root clean finds every node clean and holding:
      the active buffers, the inputs and their log probability become what
      a restore returns to. */
  lemma KeepRecordsCache(x: Inputs, f: Flags, buf: seq<real>, counts: seq<nat>, ln: real -> real)
    requires WellFormed(x) && Sized(f, |x.tree.nodes|) && |buf| == BufferSize(LayoutOf(x)) && |counts| == x.numPatterns
    requires Closed(x.tree, f) && Coherent(x, f, buf) && !f.dirty[x.tree.root]
    ensures RestorePoint(x, Keep(f), f.active, buf, counts, LnProb(x, counts, ln), ln)
  {
    CleanRootCleanTree(x.tree, f);
  }

  /** A branch event keeps what a restore returns to intact: the nodes it
      swaps are latched. */
  lemma KeptFlagStep(kx: Inputs, f: Flags, ka: seq<Slot>, buf: seq<real>, counts: seq<nat>, lnk: real,
                     ln: real -> real, n: nat)
    requires RestorePoint(kx, f, ka, buf, counts, lnk, ln) && Closed(kx.tree, f) && n < |kx.tree.nodes|
    ensures RestorePoint(kx, FlagDirty(kx.tree, f, n), ka, buf, counts, lnk, ln)
  {
    FlagDirtyTracks(kx.tree, ka, f, n);
    FlagDirtyLatches(kx.tree, f, n);
  }

  /** A touch keeps what a restore returns to intact: it latches every
      node. */
  lemma KeptTouchStep(kx: Inputs, f: Flags, ka: seq<Slot>, buf: seq<real>, counts: seq<nat>, lnk: real,
                      ln: real -> real)
    requires RestorePoint(kx, f, ka, buf, counts, lnk, ln)
    ensures RestorePoint(kx, TouchAll(f), ka, buf, counts, lnk, ln)
  {
    TouchAllTracks(ka, f);
  }

  /** restoreSpecialization on flags that keep `ka` intact: the kept buffers
      are active again, every flag is clear, and the cache invariant holds
      for the kept inputs. */
  lemma RestoreReturnsToKeep(kx: Inputs, f: Flags, ka: seq<Slot>, buf: seq<real>, counts: seq<nat>, lnk: real,
                             ln: real -> real)
    requires RestorePoint(kx, f, ka, buf, counts, lnk, ln)
    ensures Restore(f).active == ka && RestorePoint(kx, Restore(f), ka, buf, counts, lnk, ln)
    ensures Closed(kx.tree, Restore(f)) && Coherent(kx, Restore(f), buf)
  {
    RestoreUndoes(ka, f);
  }
}
