/**
 * The site-homogeneous character evolution model: a tree, an alignment and
 * the per-branch transition probabilities, with the partial likelihoods kept
 * in one flat double buffer and recomputed only where a node is dirty.
 *
 * The matrices updateTransitionProbabilities(i, branch length) writes, and
 * the root frequencies, are the fields `transitionProbs` and
 * `rootFrequencies`: what the model's parameters currently give. A branch
 * change event carries the new matrix of its node, a touch by another
 * parameter carries all of them.
 */
module PruningEngine {
  import opened TreeArena
  import opened DirtyCache
  import opened BufferLayout
  import opened StateBits
  import opened SitePatterns
  import opened SiteData
  import opened Pruning
  import opened PruningData
  import opened CacheFrames
  import opened PatternCompression

  class SiteHomogeneousCharEvoModel {
    const tau: Tree
    const numChars: nat
    const numSites: nat
    const compressed: bool
    /** The character type's string value, which compress uses as a site key. */
    const text: Cell -> string
    /** The natural logarithm. */
    const ln: real -> real

    var transitionProbs: seq<seq<real>>
    var rootFrequencies: seq<real>
    /** The alignment: `value[i]` is the data of the taxon at tip i. */
    var value: seq<seq<Cell>>

    var lnProb: real
    var partialLikelihoods: array<real>
    var activeLikelihood: seq<Slot>
    var charMatrix: seq<seq<nat>>
    var gapMatrix: seq<seq<bool>>
    var patternCounts: seq<nat>
    var numPatterns: nat
    var changedNodes: seq<bool>
    var dirtyNodes: seq<bool>
    var activeLikelihoodOffset: nat
    var nodeOffset: nat
    var siteOffset: nat

    /** What the last keep found, when it found the whole cache computed:
        the matrices and root frequencies it was computed for, the active
        buffer of every node, and the log probability. */
    ghost var kept: bool
    ghost var keptProbs: seq<seq<real>>
    ghost var keptFreqs: seq<real>
    ghost var keptActive: seq<Slot>
    ghost var keptLnProb: real

    ghost function CacheFlags(): Flags
      reads this`dirtyNodes, this`changedNodes, this`activeLikelihood
    {
      Flags(dirtyNodes, changedNodes, activeLikelihood)
    }

    ghost function Shape(): Layout
      reads this`numPatterns
    {
      Layout(|tau.nodes|, numPatterns, numChars)
    }

    ghost function CurrentInputs(): Inputs
      reads this`transitionProbs, this`charMatrix, this`gapMatrix, this`numPatterns, this`rootFrequencies
    {
      Inputs(tau, numChars, transitionProbs, charMatrix, gapMatrix, numPatterns, rootFrequencies)
    }

    /** Shapes: one flag of each kind per node, one matrix per node, the
        buffer and its offsets sized for the current number of patterns. */
    ghost predicate Valid()
      reads this`dirtyNodes, this`changedNodes, this`activeLikelihood
      reads this`transitionProbs, this`rootFrequencies, this`numPatterns, this`partialLikelihoods
      reads this`activeLikelihoodOffset, this`nodeOffset, this`siteOffset
    {
      && Sized(CacheFlags(), |tau.nodes|)
      && Shaped()
    }

    /** The shape part of Valid that the flags do not enter. */
    ghost predicate Shaped()
      reads this`transitionProbs, this`rootFrequencies, this`numPatterns, this`partialLikelihoods
      reads this`activeLikelihoodOffset, this`nodeOffset, this`siteOffset
    {
      ParamsShaped(transitionProbs, rootFrequencies) && BufferShaped()
    }

    /** One C x C matrix per node and C root frequencies. */
    ghost predicate ParamsShaped(probs: seq<seq<real>>, freqs: seq<real>)
    {
      && |probs| == |tau.nodes|
      && (forall i :: 0 <= i < |probs| ==> |probs[i]| == numChars * numChars)
      && |freqs| == numChars
    }

    /** The buffer and its offsets sized for the current number of patterns. */
    ghost predicate BufferShaped()
      reads this`numPatterns, this`partialLikelihoods
      reads this`activeLikelihoodOffset, this`nodeOffset, this`siteOffset
    {
      && TreeArena.Valid(tau) && !IsTip(tau, tau.root)
      && partialLikelihoods.Length == BufferSize(Shape())
      && activeLikelihoodOffset == ActiveOffset(Shape())
      && nodeOffset == NodeOffset(Shape())
      && siteOffset == SiteOffset(Shape())
    }

    /** The data are compressed: the matrices and counts are what compress
        makes of `value`. */
    ghost predicate Compressed()
      reads this`value, this`charMatrix, this`gapMatrix, this`numPatterns, this`patternCounts
    {
      && AlignmentFits(tau, numChars, value, numSites)
      && charMatrix == TipStates(value, text, numSites, compressed)
      && gapMatrix == TipGaps(value, text, numSites, compressed)
      && numPatterns == |Selected(value, text, numSites, compressed)|
      && patternCounts == PatternCountsOf(value, text, numSites, compressed)
    }

    ghost predicate Ready()
      reads this`transitionProbs, this`rootFrequencies, this`numPatterns, this`partialLikelihoods
      reads this`activeLikelihoodOffset, this`nodeOffset, this`siteOffset
      reads this`value, this`charMatrix, this`gapMatrix, this`patternCounts
    {
      Shaped() && Compressed()
    }

    /** With compressed data the inputs are those of the alignment. */
    lemma ReadyInputs()
      requires Ready()
      ensures DataFits(tau, numChars, transitionProbs, value, numSites, rootFrequencies)
      ensures CurrentInputs() == InputsOf(tau, numChars, transitionProbs, value, text, numSites, compressed, rootFrequencies)
      ensures WellFormed(CurrentInputs()) && |patternCounts| == numPatterns
    {
    }

    /** Compressed data: what the likelihood computations need. */
    ghost predicate Loaded()
      reads this`transitionProbs, this`rootFrequencies, this`numPatterns, this`partialLikelihoods
      reads this`activeLikelihoodOffset, this`nodeOffset, this`siteOffset
      reads this`value, this`charMatrix, this`gapMatrix, this`patternCounts
    {
      && Ready()
      && WellFormed(CurrentInputs())
      && |patternCounts| == numPatterns
    }

    /** What the likelihood computations need of the data: shapes and
        well-formed inputs, compressed or not. */
    ghost predicate Computable()
      reads this`transitionProbs, this`rootFrequencies, this`numPatterns, this`partialLikelihoods
      reads this`activeLikelihoodOffset, this`nodeOffset, this`siteOffset
      reads this`charMatrix, this`gapMatrix, this`patternCounts
    {
      && Shaped()
      && WellFormed(CurrentInputs())
      && |patternCounts| == numPatterns
    }

    /** The cache invariant on the buffer: dirtiness is closed towards the
        root and every clean node holds its partial likelihoods in its
        active buffer. */
    ghost predicate Cached()
      reads this, partialLikelihoods
    {
      && Loaded()
      && Sized(CacheFlags(), |tau.nodes|)
      && Closed(tau, CacheFlags())
      && Coherent(CurrentInputs(), CacheFlags(), partialLikelihoods[..])
    }

    /** The whole cache invariant: Cached, and a clean root means the cached
        log probability is current. */
    ghost predicate Consistent()
      reads this, partialLikelihoods
    {
      && Cached()
      && (!dirtyNodes[tau.root] ==> lnProb == LnProb(CurrentInputs(), patternCounts, ln))
    }

    ghost function KeptInputs(): Inputs
      reads this`keptProbs, this`charMatrix, this`gapMatrix, this`numPatterns, this`keptFreqs
    {
      Inputs(tau, numChars, keptProbs, charMatrix, gapMatrix, numPatterns, keptFreqs)
    }

    /** What a restore returns to is still in the buffer: the active buffers
        are the kept ones swapped at the latched nodes, every dirty node is
        latched, every node but the root holds its partial likelihoods for
        the kept inputs in its kept buffer, and the kept log probability is
        that of the kept inputs. */
    ghost predicate KeptIntact()
      reads this, partialLikelihoods
    {
      && Compressed()
      && ParamsShaped(keptProbs, keptFreqs)
      && RestorePoint(KeptInputs(), CacheFlags(), keptActive, partialLikelihoods[..], patternCounts, keptLnProb, ln)
    }

    /** Valid, and KeptIntact since a keep that found the cache computed. */
    ghost predicate Tracked()
      reads this, partialLikelihoods
    {
      Valid() && (kept ==> KeptIntact())
    }

    /** With every node dirty nothing is cached, so the invariant holds
        whatever the inputs and the buffer. */
    lemma AllDirtyConsistent()
      requires Ready() && Sized(CacheFlags(), |tau.nodes|)
      requires forall j :: 0 <= j < |dirtyNodes| ==> dirtyNodes[j]
      ensures Consistent()
    {
      ReadyInputs();
    }

    /** A fresh model: every node dirty, buffer 0 active, no data yet, the
        buffer sized for one pattern per site. */
    constructor (t: Tree, nc: nat, nSites: nat, c: bool, txt: Cell -> string, log: real -> real,
                 probs: seq<seq<real>>, freqs: seq<real>)
      requires TreeArena.Valid(t) && !IsTip(t, t.root)
      requires |probs| == |t.nodes| && (forall i :: 0 <= i < |probs| ==> |probs[i]| == nc * nc)
      requires |freqs| == nc
      ensures Tracked() && !kept && fresh(partialLikelihoods)
      ensures tau == t && numChars == nc && numSites == nSites && compressed == c
      ensures text == txt && ln == log && transitionProbs == probs && rootFrequencies == freqs
      ensures CacheFlags() == Fresh(|t.nodes|)
      ensures numPatterns == nSites && value == [] && charMatrix == [] && gapMatrix == [] && patternCounts == []
    {
      tau := t;
      numChars := nc;
      numSites := nSites;
      compressed := c;
      text := txt;
      ln := log;
      transitionProbs := probs;
      rootFrequencies := freqs;
      value := [];
      lnProb := 0.0;
      var l := Layout(|t.nodes|, nSites, nc);
      partialLikelihoods := new real[BufferSize(l)];
      activeLikelihood := seq(|t.nodes|, _ => 0);
      charMatrix := [];
      gapMatrix := [];
      patternCounts := [];
      numPatterns := nSites;
      changedNodes := seq(|t.nodes|, _ => false);
      dirtyNodes := seq(|t.nodes|, _ => true);
      activeLikelihoodOffset, nodeOffset, siteOffset := ActiveOffset(l), NodeOffset(l), SiteOffset(l);
      kept, keptProbs, keptFreqs, keptActive, keptLnProb := false, probs, freqs, activeLikelihood, 0.0;
    }

    /** setValue: store the alignment, then compress it. */
    method SetValue(v: seq<seq<Cell>>)
      requires TreeArena.Valid(tau) && !IsTip(tau, tau.root)
      requires AlignmentFits(tau, numChars, v, numSites)
      modifies this`value, this`charMatrix, this`gapMatrix, this`patternCounts, this`numPatterns
      modifies this`partialLikelihoods, this`activeLikelihoodOffset, this`nodeOffset, this`siteOffset, this`kept
      ensures value == v && Compressed() && BufferShaped() && fresh(partialLikelihoods) && !kept
    {
      value := v;
      Compress();
    }

    /** compress: the pattern counts, and the tips' states and gap flags at
        the kept sites (the first site of every key when compressing, every
        site otherwise); then a buffer and offsets sized for the new number
        of patterns. */
    method Compress()
      requires TreeArena.Valid(tau) && !IsTip(tau, tau.root)
      requires AlignmentFits(tau, numChars, value, numSites)
      modifies this`charMatrix, this`gapMatrix, this`patternCounts, this`numPatterns
      modifies this`partialLikelihoods, this`activeLikelihoodOffset, this`nodeOffset, this`siteOffset, this`kept
      ensures Compressed() && BufferShaped() && fresh(partialLikelihoods) && !kept
    {
      StorePatterns();
      ResizeBuffer();
      kept := false;
    }

    /** The data part of compress. */
    method StorePatterns()
      requires AlignmentFits(tau, numChars, value, numSites)
      modifies this`charMatrix, this`gapMatrix, this`patternCounts, this`numPatterns
      ensures Compressed()
    {
      var counts, n, states, gaps := CompressData(tau, numChars, value, text, numSites, compressed);
      patternCounts, numPatterns, charMatrix, gapMatrix := counts, n, states, gaps;
    }

    /** A new buffer, and its offsets, for the current number of patterns. */
    method ResizeBuffer()
      requires TreeArena.Valid(tau) && !IsTip(tau, tau.root)
      modifies this`partialLikelihoods, this`activeLikelihoodOffset, this`nodeOffset, this`siteOffset
      ensures BufferShaped() && fresh(partialLikelihoods)
    {
      var l := Layout(|tau.nodes|, numPatterns, numChars);
      partialLikelihoods := new real[BufferSize(l)];
      activeLikelihoodOffset, nodeOffset, siteOffset := ActiveOffset(l), NodeOffset(l), SiteOffset(l);
    }

    // -------------------------------------------------------------------
    // The dirty flags

    /** Flag node n and, unless already dirty, its path to the root. */
    method RecursivelyFlagNodeDirty(n: nat)
      requires Valid() && n < |tau.nodes|
      modifies this`dirtyNodes, this`changedNodes, this`activeLikelihood
      ensures Valid()
      ensures CacheFlags() == FlagDirty(tau, old(CacheFlags()), n)
      decreases tau.depth[n]
    {
      if !dirtyNodes[n] {
        if n != tau.root {
          RecursivelyFlagNodeDirty(Parent(tau, n));
        }
        MarkNode(n);
      }
    }

    /** One node flagged dirty; its buffer swapped and latched unless it
        already was. */
    method MarkNode(n: nat)
      requires n < |dirtyNodes| && n < |changedNodes| && n < |activeLikelihood|
      modifies this`dirtyNodes, this`changedNodes, this`activeLikelihood
      ensures CacheFlags() == Mark(old(CacheFlags()), n)
    {
      dirtyNodes := dirtyNodes[n := true];
      if !changedNodes[n] {
        activeLikelihood := activeLikelihood[n := Flip(activeLikelihood[n])];
        changedNodes := changedNodes[n := true];
      }
    }

    /** The tree reports that node n's branch changed; `m` is the matrix the
        model now gives for it. The invariant survives: every node left
        clean has n outside its subtree; and with the root now dirty, the
        cached log probability is not relied on, whatever it was. */
    method FireTreeChangeEvent(n: nat, m: seq<real>)
      requires Cached() && Tracked() && n < |tau.nodes| && |m| == numChars * numChars
      modifies this`dirtyNodes, this`changedNodes, this`activeLikelihood, this`transitionProbs
      ensures Consistent() && Tracked()
      ensures transitionProbs == old(transitionProbs)[n := m]
      ensures CacheFlags() == FlagDirty(tau, old(CacheFlags()), n)
      ensures dirtyNodes[tau.root]
    {
      transitionProbs := transitionProbs[n := m];
      RecursivelyFlagNodeDirty(n);
      BranchChangeDone(n);
    }

    /** The end of a tree-change event at node n, whose matrix is now
        transitionProbs[n]. */
    twostate lemma BranchChangeDone(n: nat)
      requires old(Cached() && Tracked()) && n < |tau.nodes| && n < |transitionProbs|
      requires |transitionProbs[n]| == numChars * numChars
      requires transitionProbs == old(transitionProbs)[n := transitionProbs[n]]
      requires CacheFlags() == FlagDirty(tau, old(CacheFlags()), n)
      requires unchanged(this`numPatterns, this`partialLikelihoods, this`activeLikelihoodOffset, this`nodeOffset, this`siteOffset)
      requires unchanged(this`value, this`charMatrix, this`gapMatrix, this`patternCounts, this`rootFrequencies)
      requires unchanged(this`kept, this`keptProbs, this`keptFreqs, this`keptActive, this`keptLnProb)
      requires unchanged(partialLikelihoods)
      ensures Consistent() && Tracked() && dirtyNodes[tau.root]
    {
      ghost var x, f, buf, m := old(CurrentInputs()), old(CacheFlags()), partialLikelihoods[..], transitionProbs[n];
      assert buf == old(partialLikelihoods[..]) && CurrentInputs() == x.(probs := x.probs[n := m]);
      BranchChangeKeepsInvariant(x, f, buf, n, m);
      assert Shaped() && Compressed() && Loaded();
      if kept {
        assert KeptInputs() == old(KeptInputs());
        KeptFlagStep(KeptInputs(), f, keptActive, buf, patternCounts, keptLnProb, ln, n);
      }
    }

    /** Accept: clear every flag. When the root was clean, i.e. the whole
        cache was computed, the invariant survives, and the current inputs,
        active buffers and log probability become what a restore returns
        to. */
    method KeepSpecialization()
      requires Valid()
      modifies this`dirtyNodes, this`changedNodes
      modifies this`kept, this`keptProbs, this`keptFreqs, this`keptActive, this`keptLnProb
      ensures Tracked()
      ensures CacheFlags() == Keep(old(CacheFlags()))
      ensures kept == old(Consistent() && !dirtyNodes[tau.root])
      ensures kept ==> Consistent() && KeptInputs() == CurrentInputs() && keptActive == activeLikelihood && keptLnProb == lnProb
    {
      ghost var wasClean := Consistent() && !dirtyNodes[tau.root];
      KeepFlags();
      RecordKeep(wasClean, transitionProbs, rootFrequencies, activeLikelihood, lnProb);
      KeepDone();
    }

    ghost method RecordKeep(k: bool, probs: seq<seq<real>>, freqs: seq<real>, act: seq<Slot>, lnk: real)
      modifies this`kept, this`keptProbs, this`keptFreqs, this`keptActive, this`keptLnProb
      ensures kept == k && keptProbs == probs && keptFreqs == freqs && keptActive == act && keptLnProb == lnk
    {
      kept, keptProbs, keptFreqs, keptActive, keptLnProb := k, probs, freqs, act, lnk;
    }

    /** The flag-clearing loops of a keep. */
    method KeepFlags()
      modifies this`dirtyNodes, this`changedNodes
      ensures CacheFlags() == Keep(old(CacheFlags()))
    {
      dirtyNodes := AllClear(|dirtyNodes|);
      changedNodes := AllClear(|changedNodes|);
    }

    /** The end of a keep. */
    twostate lemma KeepDone()
      requires old(Valid()) && CacheFlags() == Keep(old(CacheFlags()))
      requires kept == old(Consistent() && !dirtyNodes[tau.root])
      requires keptProbs == transitionProbs && keptFreqs == rootFrequencies && keptActive == activeLikelihood && keptLnProb == lnProb
      requires unchanged(this`numPatterns, this`partialLikelihoods, this`activeLikelihoodOffset, this`nodeOffset, this`siteOffset)
      requires unchanged(this`value, this`charMatrix, this`gapMatrix, this`patternCounts, this`rootFrequencies)
      requires unchanged(this`transitionProbs, this`activeLikelihood, this`lnProb, partialLikelihoods)
      ensures Tracked()
      ensures kept ==> Consistent() && KeptInputs() == CurrentInputs()
    {
      ghost var x, f, buf := old(CurrentInputs()), old(CacheFlags()), partialLikelihoods[..];
      assert Valid() && CurrentInputs() == x && buf == old(partialLikelihoods[..]);
      if kept {
        assert KeptInputs() == x && Loaded();
        KeepKeepsInvariant(x, f, buf);
        KeepRecordsCache(x, f, buf, patternCounts, ln);
      }
    }

    /** Reject: the model's parameters are restored, so their matrices and
        frequencies arrive; clear every flag and swap back every latched
        buffer. The buffers are then those of the last keep, and when the
        restored values are the kept ones every node holds again. The
        cached log probability is left as it is: it is current only when no
        computation ran since the keep. */
    method RestoreSpecialization(probs: seq<seq<real>>, freqs: seq<real>)
      requires Tracked() && ParamsShaped(probs, freqs)
      modifies this`dirtyNodes, this`changedNodes, this`activeLikelihood, this`transitionProbs, this`rootFrequencies
      ensures Tracked()
      ensures CacheFlags() == Restore(old(CacheFlags()))
      ensures transitionProbs == probs && rootFrequencies == freqs && lnProb == old(lnProb)
      ensures kept ==> activeLikelihood == keptActive
      ensures kept && probs == keptProbs && freqs == keptFreqs ==> Cached()
      ensures kept && probs == keptProbs && freqs == keptFreqs && lnProb == keptLnProb ==> Consistent()
    {
      transitionProbs, rootFrequencies := probs, freqs;
      RestoreFlags();
      RestoreDone();
    }

    /** The end of a restore: the buffers of the last keep are active again,
        and hold when the values are back to the kept ones. */
    twostate lemma RestoreDone()
      requires old(Tracked()) && ParamsShaped(transitionProbs, rootFrequencies)
      requires CacheFlags() == Restore(old(CacheFlags()))
      requires unchanged(this`numPatterns, this`partialLikelihoods, this`activeLikelihoodOffset, this`nodeOffset, this`siteOffset)
      requires unchanged(this`value, this`charMatrix, this`gapMatrix, this`patternCounts)
      requires unchanged(this`kept, this`keptProbs, this`keptFreqs, this`keptActive, this`keptLnProb)
      requires unchanged(partialLikelihoods)
      ensures Tracked()
      ensures kept ==> activeLikelihood == keptActive
      ensures kept && transitionProbs == keptProbs && rootFrequencies == keptFreqs ==> Cached()
      ensures kept && transitionProbs == keptProbs && rootFrequencies == keptFreqs && lnProb == keptLnProb ==> Consistent()
    {
      ghost var f, buf := old(CacheFlags()), partialLikelihoods[..];
      assert BufferShaped();
      if kept {
        assert Compressed() && KeptInputs() == old(KeptInputs()) && buf == old(partialLikelihoods[..]);
        RestoreReturnsToKeep(KeptInputs(), f, keptActive, buf, patternCounts, keptLnProb, ln);
        if transitionProbs == keptProbs && rootFrequencies == keptFreqs {
          assert CurrentInputs() == KeptInputs();
        }
      }
    }

    /** The two loops of restoreSpecialization. */
    method RestoreFlags()
      requires Sized(CacheFlags(), |tau.nodes|)
      modifies this`dirtyNodes, this`changedNodes, this`activeLikelihood
      ensures Sized(CacheFlags(), |tau.nodes|)
      ensures CacheFlags() == Restore(old(CacheFlags()))
    {
      assert |changedNodes| == |activeLikelihood| == |dirtyNodes|;
      dirtyNodes := AllClear(|dirtyNodes|);
      var index := 0;
      while index < |changedNodes|
        modifies this`changedNodes, this`activeLikelihood
        invariant index <= |changedNodes| == |old(changedNodes)| == |activeLikelihood|
        invariant forall j :: 0 <= j < index ==>
          !changedNodes[j] && activeLikelihood[j] == (if old(changedNodes)[j] then Flip(old(activeLikelihood)[j]) else old(activeLikelihood)[j])
        invariant forall j :: index <= j < |changedNodes| ==>
          changedNodes[j] == old(changedNodes)[j] && activeLikelihood[j] == old(activeLikelihood)[j]
      {
        if changedNodes[index] {
          activeLikelihood := activeLikelihood[index := if activeLikelihood[index] == 0 then 1 else 0];
        }
        changedNodes := changedNodes[index := false];
        index := index + 1;
      }
      ghost var g := Restore(old(CacheFlags()));
      assert dirtyNodes == g.dirty && changedNodes == g.changed && activeLikelihood == g.active;
    }

    /** A touch. By the tree: nothing, the tree reports its own changes as
        events. By any other parameter: its new matrices and frequencies
        arrive, every node is dirty and every buffer not yet swapped is
        swapped and latched; the invariant holds whatever the new values. */
    method TouchSpecialization(affecterIsTree: bool, probs: seq<seq<real>>, freqs: seq<real>)
      requires Tracked() && ParamsShaped(probs, freqs)
      modifies this`dirtyNodes, this`changedNodes, this`activeLikelihood, this`transitionProbs, this`rootFrequencies
      ensures Tracked()
      ensures !affecterIsTree && Compressed() ==> Consistent()
      ensures affecterIsTree ==>
        CacheFlags() == old(CacheFlags()) && transitionProbs == old(transitionProbs) && rootFrequencies == old(rootFrequencies)
      ensures !affecterIsTree ==>
        CacheFlags() == TouchAll(old(CacheFlags())) && transitionProbs == probs && rootFrequencies == freqs
    {
      if !affecterIsTree {
        transitionProbs, rootFrequencies := probs, freqs;
        FlagAllDirty();
        TouchDone();
      }
    }

    /** The end of a touch by a parameter other than the tree. */
    twostate lemma TouchDone()
      requires old(Tracked()) && ParamsShaped(transitionProbs, rootFrequencies)
      requires CacheFlags() == TouchAll(old(CacheFlags()))
      requires forall j :: 0 <= j < |dirtyNodes| ==> dirtyNodes[j]
      requires unchanged(this`numPatterns, this`partialLikelihoods, this`activeLikelihoodOffset, this`nodeOffset, this`siteOffset)
      requires unchanged(this`value, this`charMatrix, this`gapMatrix, this`patternCounts)
      requires unchanged(this`kept, this`keptProbs, this`keptFreqs, this`keptActive, this`keptLnProb)
      requires unchanged(partialLikelihoods)
      ensures Tracked() && (Compressed() ==> Consistent())
    {
      ghost var f, buf := old(CacheFlags()), partialLikelihoods[..];
      assert Shaped();
      if Compressed() {
        AllDirtyConsistent();
      }
      if kept {
        assert KeptInputs() == old(KeptInputs()) && buf == old(partialLikelihoods[..]);
        KeptTouchStep(KeptInputs(), f, keptActive, buf, patternCounts, keptLnProb, ln);
      }
    }

    /** The two loops of a touch by a parameter other than the tree. */
    method FlagAllDirty()
      requires Sized(CacheFlags(), |tau.nodes|)
      modifies this`dirtyNodes, this`changedNodes, this`activeLikelihood
      ensures CacheFlags() == TouchAll(old(CacheFlags()))
      ensures Sized(CacheFlags(), |tau.nodes|) && forall j :: 0 <= j < |dirtyNodes| ==> dirtyNodes[j]
    {
      var i := 0;
      while i < |dirtyNodes|
        modifies this`dirtyNodes
        invariant i <= |dirtyNodes| == |old(dirtyNodes)|
        invariant forall j :: 0 <= j < i ==> dirtyNodes[j]
        invariant forall j :: i <= j < |dirtyNodes| ==> dirtyNodes[j] == old(dirtyNodes)[j]
      {
        dirtyNodes := dirtyNodes[i := true];
        i := i + 1;
      }
      var index := 0;
      while index < |changedNodes|
        modifies this`changedNodes, this`activeLikelihood
        invariant index <= |changedNodes| == |old(changedNodes)| == |activeLikelihood|
        invariant forall j :: 0 <= j < index ==>
          changedNodes[j] && activeLikelihood[j] == (if old(changedNodes)[j] then old(activeLikelihood)[j] else Flip(old(activeLikelihood)[j]))
        invariant forall j :: index <= j < |changedNodes| ==>
          changedNodes[j] == old(changedNodes)[j] && activeLikelihood[j] == old(activeLikelihood)[j]
      {
        if !changedNodes[index] {
          activeLikelihood := activeLikelihood[index := if activeLikelihood[index] == 0 then 1 else 0];
          changedNodes := changedNodes[index := true];
        }
        index := index + 1;
      }
      ghost var g := TouchAll(old(CacheFlags()));
      assert dirtyNodes == g.dirty && changedNodes == g.changed && activeLikelihood == g.active;
    }
    // -------------------------------------------------------------------
    // The likelihood computations

    /** computeTipLikelihood: every pattern's row of the tip's active block
        becomes its tip entries; nothing else in the buffer changes. */
    method ComputeTipLikelihood(nodeIndex: nat)
      requires Computable() && |activeLikelihood| == |tau.nodes|
      requires nodeIndex < |tau.nodes| && IsTip(tau, nodeIndex)
      modifies partialLikelihoods
      ensures NodeHolds(CurrentInputs(), partialLikelihoods[..], activeLikelihood[nodeIndex], nodeIndex)
      ensures SameBut(Shape(), old(partialLikelihoods[..]), partialLikelihoods[..], activeLikelihood[nodeIndex], nodeIndex)
    {
      ghost var x := CurrentInputs();
      var b := activeLikelihood[nodeIndex];
      var site := 0;
      while site != numPatterns
        invariant site <= numPatterns
        invariant SameBut(Shape(), old(partialLikelihoods[..]), partialLikelihoods[..], b, nodeIndex)
        invariant forall q :: 0 <= q < site ==> RowHolds(x, partialLikelihoods[..], b, nodeIndex, q)
      {
        ghost var before := partialLikelihoods[..];
        ComputeTipPattern(nodeIndex, b, site);
        RowWritten(x, old(partialLikelihoods[..]), before, partialLikelihoods[..], b, nodeIndex, site);
        site := site + 1;
      }
      RowsHold(x, partialLikelihoods[..], b, nodeIndex);
    }

    /** One pattern of computeTipLikelihood: for a gap every terminal state
        counts, otherwise the states of the observed set. */
    method ComputeTipPattern(nodeIndex: nat, b: Slot, site: nat)
      requires Computable() && nodeIndex < |tau.nodes| && IsTip(tau, nodeIndex) && site < numPatterns
      modifies partialLikelihoods
      ensures RowHolds(CurrentInputs(), partialLikelihoods[..], b, nodeIndex, site)
      ensures SameButRow(Shape(), old(partialLikelihoods[..]), partialLikelihoods[..], b, nodeIndex, site)
    {
      ghost var x := CurrentInputs();
      var pSite := b * activeLikelihoodOffset + nodeIndex * nodeOffset + site * siteOffset;
      assert LayoutOf(x) == Shape();
      assert pSite == Offset(Shape(), b, nodeIndex, site, 0);
      assert partialLikelihoods.Length == BufferSize(Shape());
      var tp, val, gap := transitionProbs[nodeIndex], charMatrix[nodeIndex][site], gapMatrix[nodeIndex][site];
      assert |tp| == numChars * numChars && val < Pow2(numChars);
      assert Partial(x, nodeIndex, site) == TipRow(tp, numChars, val, gap);
      FillTipRow(tp, numChars, val, gap, partialLikelihoods, Shape(), b, nodeIndex, site, pSite);
    }

    /** computeInternalNodeLikelihood: every pattern's row of the node's
        active block combines both children's rows through the node's
        transition-probability matrix; nothing else in the buffer changes. */
    method ComputeInternalNodeLikelihood(nodeIndex: nat, left: nat, right: nat)
      requires Computable() && |activeLikelihood| == |tau.nodes|
      requires nodeIndex < |tau.nodes| && !IsTip(tau, nodeIndex)
      requires left == Left(tau, nodeIndex) && right == Right(tau, nodeIndex)
      requires NodeHolds(CurrentInputs(), partialLikelihoods[..], activeLikelihood[left], left)
      requires NodeHolds(CurrentInputs(), partialLikelihoods[..], activeLikelihood[right], right)
      modifies partialLikelihoods
      ensures NodeHolds(CurrentInputs(), partialLikelihoods[..], activeLikelihood[nodeIndex], nodeIndex)
      ensures SameBut(Shape(), old(partialLikelihoods[..]), partialLikelihoods[..], activeLikelihood[nodeIndex], nodeIndex)
    {
      ghost var x := CurrentInputs();
      var b, bl, br := activeLikelihood[nodeIndex], activeLikelihood[left], activeLikelihood[right];
      for site := 0 to numPatterns
        invariant SameBut(Shape(), old(partialLikelihoods[..]), partialLikelihoods[..], b, nodeIndex)
        invariant forall q :: 0 <= q < site ==> RowHolds(x, partialLikelihoods[..], b, nodeIndex, q)
      {
        ghost var before := partialLikelihoods[..];
        HoldsElsewhere(x, old(partialLikelihoods[..]), before, b, nodeIndex, bl, left);
        HoldsElsewhere(x, old(partialLikelihoods[..]), before, b, nodeIndex, br, right);
        HoldsRow(x, before, bl, left, site);
        HoldsRow(x, before, br, right, site);
        ComputeInternalPattern(nodeIndex, left, right, b, bl, br, site);
        RowWritten(x, old(partialLikelihoods[..]), before, partialLikelihoods[..], b, nodeIndex, site);
      }
      RowsHold(x, partialLikelihoods[..], b, nodeIndex);
    }

    /** One pattern of computeInternalNodeLikelihood. */
    method ComputeInternalPattern(nodeIndex: nat, left: nat, right: nat, b: Slot, bl: Slot, br: Slot, site: nat)
      requires Computable() && nodeIndex < |tau.nodes| && !IsTip(tau, nodeIndex) && site < numPatterns
      requires left == Left(tau, nodeIndex) && right == Right(tau, nodeIndex)
      requires RowHolds(CurrentInputs(), partialLikelihoods[..], bl, left, site)
      requires RowHolds(CurrentInputs(), partialLikelihoods[..], br, right, site)
      modifies partialLikelihoods
      ensures RowHolds(CurrentInputs(), partialLikelihoods[..], b, nodeIndex, site)
      ensures SameButRow(Shape(), old(partialLikelihoods[..]), partialLikelihoods[..], b, nodeIndex, site)
    {
      ghost var x := CurrentInputs();
      var pSite := b * activeLikelihoodOffset + nodeIndex * nodeOffset + site * siteOffset;
      var pLeft := bl * activeLikelihoodOffset + left * nodeOffset + site * siteOffset;
      var pRight := br * activeLikelihoodOffset + right * nodeOffset + site * siteOffset;
      assert LayoutOf(x) == Shape();
      assert pSite == Offset(Shape(), b, nodeIndex, site, 0);
      assert pLeft == Offset(Shape(), bl, left, site, 0) && pRight == Offset(Shape(), br, right, site, 0);
      assert partialLikelihoods.Length == BufferSize(Shape());
      assert left != nodeIndex && right != nodeIndex;
      var tp := transitionProbs[nodeIndex];
      ghost var vl, vr := Partial(x, left, site), Partial(x, right, site);
      assert Partial(x, nodeIndex, site) == Combine(tp, numChars, vl, vr);
      FillCombinedRow(tp, numChars, partialLikelihoods, Shape(), b, nodeIndex, bl, left, br, right,
                      site, pSite, pLeft, pRight, vl, vr);
    }

    /** computeRootLikelihood: the log probability from both root children's
        rows and the root frequencies, each pattern's term weighted by its
        multiplicity (see Findings in the README: the source adds the terms
        unweighted). */
    method ComputeRootLikelihood(root: nat, left: nat, right: nat)
      requires Computable() && |activeLikelihood| == |tau.nodes|
      requires root == tau.root && left == Left(tau, root) && right == Right(tau, root)
      requires NodeHolds(CurrentInputs(), partialLikelihoods[..], activeLikelihood[left], left)
      requires NodeHolds(CurrentInputs(), partialLikelihoods[..], activeLikelihood[right], right)
      modifies this`lnProb
      ensures lnProb == LnProb(CurrentInputs(), patternCounts, ln)
    {
      var pLeft := activeLikelihood[left] * activeLikelihoodOffset + left * nodeOffset;
      var pRight := activeLikelihood[right] * activeLikelihoodOffset + right * nodeOffset;
      OffsetRowStart(Shape(), activeLikelihood[left], left);
      OffsetRowStart(Shape(), activeLikelihood[right], right);
      lnProb := RootLnLikelihood(CurrentInputs(), rootFrequencies, partialLikelihoods, activeLikelihood[left], activeLikelihood[right],
                                 patternCounts, ln, pLeft, pRight, siteOffset, numPatterns);
    }

    /** fillLikelihoodVector: recompute the dirty part of node i's subtree in
        postorder. Afterwards the whole subtree is clean and holds its partial
        likelihoods; only the active blocks of the nodes that were dirty were
        written. */
    method FillLikelihoodVector(nodeIndex: nat)
      requires Computable() && Sized(CacheFlags(), |tau.nodes|)
      requires nodeIndex < |tau.nodes| && nodeIndex != tau.root
      requires ClosedBelow(tau, CacheFlags(), nodeIndex)
      requires CoherentBelow(CurrentInputs(), CacheFlags(), partialLikelihoods[..], nodeIndex)
      modifies this`dirtyNodes, partialLikelihoods
      ensures |dirtyNodes| == |tau.nodes|
      ensures dirtyNodes == ClearSubtree(tau, old(dirtyNodes), nodeIndex)
      ensures HoldsBelow(CurrentInputs(), partialLikelihoods[..], activeLikelihood, nodeIndex)
      ensures KeptOutside(Shape(), old(partialLikelihoods[..]), partialLikelihoods[..], tau, old(dirtyNodes), activeLikelihood, nodeIndex)
      decreases |tau.nodes| - tau.depth[nodeIndex], 1
    {
      if dirtyNodes[nodeIndex] {
        if IsTip(tau, nodeIndex) {
          ghost var x := CurrentInputs();
          ghost var f := CacheFlags();
          ghost var a0 := partialLikelihoods[..];
          dirtyNodes := dirtyNodes[nodeIndex := false];
          ComputeTipLikelihood(nodeIndex);
          TipFill(x, a0, partialLikelihoods[..], f.dirty, activeLikelihood, nodeIndex);
        } else {
          FillInternalLikelihood(nodeIndex);
        }
      } else {
        CleanFill(CurrentInputs(), CacheFlags(), partialLikelihoods[..], nodeIndex);
      }
    }

    /** The dirty internal node case of fillLikelihoodVector: clear its
        flag, fill the left subtree, then the right one, then the node. */
    method FillInternalLikelihood(nodeIndex: nat)
      requires Computable() && Sized(CacheFlags(), |tau.nodes|)
      requires nodeIndex < |tau.nodes| && nodeIndex != tau.root
      requires dirtyNodes[nodeIndex] && !IsTip(tau, nodeIndex)
      requires ClosedBelow(tau, CacheFlags(), nodeIndex)
      requires CoherentBelow(CurrentInputs(), CacheFlags(), partialLikelihoods[..], nodeIndex)
      modifies this`dirtyNodes, partialLikelihoods
      ensures |dirtyNodes| == |tau.nodes|
      ensures dirtyNodes == ClearSubtree(tau, old(dirtyNodes), nodeIndex)
      ensures HoldsBelow(CurrentInputs(), partialLikelihoods[..], activeLikelihood, nodeIndex)
      ensures KeptOutside(Shape(), old(partialLikelihoods[..]), partialLikelihoods[..], tau, old(dirtyNodes), activeLikelihood, nodeIndex)
      decreases |tau.nodes| - tau.depth[nodeIndex], 0
    {
      ghost var x := CurrentInputs();
      ghost var f := CacheFlags();
      ghost var a0 := partialLikelihoods[..];
      dirtyNodes := dirtyNodes[nodeIndex := false];
      var left := Left(tau, nodeIndex);
      FirstChildReady(x, f, a0, nodeIndex);
      FillLikelihoodVector(left);
      ghost var a1 := partialLikelihoods[..];
      ghost var d1 := dirtyNodes;
      var right := Right(tau, nodeIndex);
      SecondChildReady(x, f, a0, a1, nodeIndex);
      FillLikelihoodVector(right);
      ghost var a2 := partialLikelihoods[..];
      InternalFillReady(x, a1, a2, d1, activeLikelihood, nodeIndex);
      ComputeInternalNodeLikelihood(nodeIndex, left, right);
      InternalFillFrame(x, a0, a1, a2, partialLikelihoods[..], f.dirty, d1, activeLikelihood, nodeIndex);
      InternalFillHolds(x, a1, a2, partialLikelihoods[..], d1, activeLikelihood, nodeIndex);
    }

    /** computeLnProbability: when the root is dirty, fill both root
        subtrees and recompute the log probability; otherwise return the
        cached value. Either way the whole cache is clean afterwards; the
        result is the log probability of the data after a recomputation, or
        when the cached value was current. */
    method ComputeLnProbability() returns (r: real)
      requires Cached() && Tracked()
      modifies this`dirtyNodes, this`lnProb, partialLikelihoods
      ensures Cached() && Tracked()
      ensures forall j :: 0 <= j < |dirtyNodes| ==> !dirtyNodes[j]
      ensures r == lnProb
      ensures old(dirtyNodes[tau.root] || Consistent()) ==> Consistent() && r == LnProb(CurrentInputs(), patternCounts, ln)
      ensures old(!dirtyNodes[tau.root]) ==>
        lnProb == old(lnProb) && dirtyNodes == old(dirtyNodes) && partialLikelihoods[..] == old(partialLikelihoods[..])
      ensures Consistent() && SymbolPerCell(text) ==>
        r == LnProbAsWritten(InputsOf(tau, numChars, transitionProbs, value, text, numSites, false, rootFrequencies), ln)
    {
      if dirtyNodes[tau.root] {
        RecomputeRoot();
      } else {
        CleanRootCleanTree(tau, CacheFlags());
      }
      r := lnProb;
      if SymbolPerCell(text) {
        AsWrittenAgrees();
      }
    }

    /** The dirty-root branch of computeLnProbability. */
    method RecomputeRoot()
      requires Cached() && Tracked() && dirtyNodes[tau.root]
      modifies this`dirtyNodes, this`lnProb, partialLikelihoods
      ensures Consistent() && Tracked()
      ensures forall j :: 0 <= j < |dirtyNodes| ==> !dirtyNodes[j]
      ensures lnProb == LnProb(CurrentInputs(), patternCounts, ln)
    {
      ghost var x := CurrentInputs();
      FillRootSubtrees();
      assert CurrentInputs() == x;
      ComputeRootLikelihood(tau.root, Left(tau, tau.root), Right(tau, tau.root));
      RecomputeDone();
    }

    /** The end of a recomputation from the root. */
    twostate lemma RecomputeDone()
      requires old(Cached() && Tracked())
      requires unchanged(this`numPatterns, this`partialLikelihoods, this`activeLikelihoodOffset, this`nodeOffset, this`siteOffset)
      requires unchanged(this`value, this`charMatrix, this`gapMatrix, this`patternCounts, this`rootFrequencies)
      requires unchanged(this`kept, this`keptProbs, this`keptFreqs, this`keptActive, this`keptLnProb)
      requires unchanged(this`transitionProbs, this`changedNodes, this`activeLikelihood)
      requires |dirtyNodes| == |tau.nodes| && forall j :: 0 <= j < |dirtyNodes| ==> !dirtyNodes[j]
      requires forall j :: 0 <= j < |tau.nodes| && j != tau.root ==>
        NodeHolds(old(CurrentInputs()), partialLikelihoods[..], activeLikelihood[j], j)
      requires WrittenOnlyDirty(Shape(), old(partialLikelihoods[..]), partialLikelihoods[..], old(dirtyNodes), activeLikelihood)
      requires lnProb == LnProb(old(CurrentInputs()), patternCounts, ln)
      ensures Consistent() && Tracked()
    {
      ghost var x, f, a0 := old(CurrentInputs()), old(CacheFlags()), old(partialLikelihoods[..]);
      assert CurrentInputs() == x && Loaded();
      AllCleanCoherent(x, CacheFlags(), partialLikelihoods[..]);
      if kept {
        assert KeptInputs() == old(KeptInputs());
        KeptSlotsSurvive(KeptInputs(), f, CacheFlags(), keptActive, a0, partialLikelihoods[..], patternCounts, keptLnProb, ln);
      }
    }

    /** Both root subtrees filled: the whole tree is clean and every node but
        the root holds its partial likelihoods. */
    method FillRootSubtrees()
      requires Cached() && dirtyNodes[tau.root]
      modifies this`dirtyNodes, partialLikelihoods
      ensures |dirtyNodes| == |tau.nodes|
      ensures forall j :: 0 <= j < |dirtyNodes| ==> !dirtyNodes[j]
      ensures forall j :: 0 <= j < |tau.nodes| && j != tau.root ==>
        NodeHolds(old(CurrentInputs()), partialLikelihoods[..], activeLikelihood[j], j)
      ensures WrittenOnlyDirty(Shape(), old(partialLikelihoods[..]), partialLikelihoods[..], old(dirtyNodes), activeLikelihood)
    {
      var rootIndex := tau.root;
      ghost var x := CurrentInputs();
      ghost var f := CacheFlags();
      ghost var a0 := partialLikelihoods[..];
      dirtyNodes := dirtyNodes[rootIndex := false];
      ClosedEverywhereBelow(tau, f, rootIndex);
      var left := Left(tau, rootIndex);
      FirstChildReady(x, f, a0, rootIndex);
      FillLikelihoodVector(left);
      ghost var a1 := partialLikelihoods[..];
      ghost var d1 := dirtyNodes;
      var right := Right(tau, rootIndex);
      SecondChildReady(x, f, a0, a1, rootIndex);
      FillLikelihoodVector(right);
      RootFillDone(x, a1, partialLikelihoods[..], f.dirty, d1, activeLikelihood);
      RootFillFrame(x, a0, a1, partialLikelihoods[..], f.dirty, d1, activeLikelihood);
    }

    /** With one symbol per character, the weighted log probability of the
        compressed data is the as-written sum over the uncompressed sites. */
    lemma AsWrittenAgrees()
      requires Loaded() && SymbolPerCell(text)
      ensures LnProb(CurrentInputs(), patternCounts, ln)
           == LnProbAsWritten(InputsOf(tau, numChars, transitionProbs, value, text, numSites, false, rootFrequencies), ln)
    {
      ReadyInputs();
      CompressionKeepsLnProb(tau, numChars, transitionProbs, value, text, numSites, rootFrequencies, ln);
    }
  }

  /** The site loop of computeRootLikelihood, walking both children's rows
      from `pLeft` and `pRight` one siteOffset at a time. */
  method RootLnLikelihood(ghost x: Inputs, f: seq<real>, a: array<real>, bl: Slot, br: Slot, counts: seq<nat>,
                          ln: real -> real, pLeft: nat, pRight: nat, siteOffset: nat, numPatterns: nat)
    returns (lnProb: real)
    requires WellFormed(x) && a.Length == BufferSize(LayoutOf(x)) && f == x.freqs
    requires numPatterns == x.numPatterns && |counts| == numPatterns && siteOffset == SiteOffset(LayoutOf(x))
    requires NodeHolds(x, a[..], bl, Left(x.tree, x.tree.root)) && NodeHolds(x, a[..], br, Right(x.tree, x.tree.root))
    requires pLeft == Offset(LayoutOf(x), bl, Left(x.tree, x.tree.root), 0, 0)
    requires pRight == Offset(LayoutOf(x), br, Right(x.tree, x.tree.root), 0, 0)
    ensures lnProb == LnProb(x, counts, ln)
  {
    ghost var l := LayoutOf(x);
    ghost var L, R := Left(x.tree, x.tree.root), Right(x.tree, x.tree.root);
    ghost var v := PatternLnLikelihoods(x, ln);
    lnProb := 0.0;
    var pSiteLeft, pSiteRight := pLeft, pRight;
    for site := 0 to numPatterns
      invariant lnProb == Weighted(counts[..site], v[..site])
      invariant pSiteLeft == Offset(l, bl, L, site, 0) && pSiteRight == Offset(l, br, R, site, 0)
    {
      lnProb, pSiteLeft, pSiteRight := RootStep(x, f, a, bl, br, counts, ln, site, lnProb, pSiteLeft, pSiteRight, siteOffset);
    }
    assert counts[..numPatterns] == counts && v[..numPatterns] == v;
  }

  /** One iteration of that loop: add pattern `site`'s weighted log
      likelihood and move both row pointers to the next pattern. */
  method RootStep(ghost x: Inputs, f: seq<real>, a: array<real>, bl: Slot, br: Slot, counts: seq<nat>,
                  ln: real -> real, site: nat, acc: real, lo: nat, ro: nat, siteOffset: nat)
    returns (acc2: real, lo2: nat, ro2: nat)
    requires WellFormed(x) && a.Length == BufferSize(LayoutOf(x)) && f == x.freqs
    requires site < x.numPatterns && |counts| == x.numPatterns && siteOffset == SiteOffset(LayoutOf(x))
    requires NodeHolds(x, a[..], bl, Left(x.tree, x.tree.root)) && NodeHolds(x, a[..], br, Right(x.tree, x.tree.root))
    requires lo == Offset(LayoutOf(x), bl, Left(x.tree, x.tree.root), site, 0)
    requires ro == Offset(LayoutOf(x), br, Right(x.tree, x.tree.root), site, 0)
    requires acc == Weighted(counts[..site], PatternLnLikelihoods(x, ln)[..site])
    ensures acc2 == Weighted(counts[..site + 1], PatternLnLikelihoods(x, ln)[..site + 1])
    ensures lo2 == Offset(LayoutOf(x), bl, Left(x.tree, x.tree.root), site + 1, 0)
    ensures ro2 == Offset(LayoutOf(x), br, Right(x.tree, x.tree.root), site + 1, 0)
  {
    ghost var L, R := Left(x.tree, x.tree.root), Right(x.tree, x.tree.root);
    HoldsRow(x, a[..], bl, L, site);
    HoldsRow(x, a[..], br, R, site);
    var tmp := RootSum(f, a, LayoutOf(x), bl, L, br, R, site, lo, ro, Partial(x, L, site), Partial(x, R, site));
    assert tmp == RootLikelihood(x, site);
    assert ln(tmp) == PatternLnLikelihoods(x, ln)[site];
    acc2 := AddWeighted(counts, PatternLnLikelihoods(x, ln), site, acc, ln(tmp));
    lo2, ro2 := NextRows(LayoutOf(x), bl, br, Left(x.tree, x.tree.root), Right(x.tree, x.tree.root), site, lo, ro, siteOffset);
  }

  /** `acc` plus the next weighted term: Σ_{k <= site} counts[k] · vals[k]. */
  method AddWeighted(counts: seq<nat>, ghost vals: seq<real>, site: nat, acc: real, term: real) returns (acc2: real)
    requires |counts| == |vals| && site < |counts|
    requires acc == Weighted(counts[..site], vals[..site]) && term == vals[site]
    ensures acc2 == Weighted(counts[..site + 1], vals[..site + 1])
  {
    WeightedAccumulate(counts, vals, site, acc, term);
    acc2 := acc + counts[site] as real * term;
  }

  /** Both children's row pointers advanced by one pattern. */
  method NextRows(ghost l: Layout, ghost bl: nat, ghost br: nat, ghost L: nat, ghost R: nat, ghost site: nat,
                  lo: nat, ro: nat, siteOffset: nat) returns (lo2: nat, ro2: nat)
    requires siteOffset == SiteOffset(l) && lo == Offset(l, bl, L, site, 0) && ro == Offset(l, br, R, site, 0)
    ensures lo2 == Offset(l, bl, L, site + 1, 0) && ro2 == Offset(l, br, R, site + 1, 0)
  {
    OffsetNextRow(l, bl, L, site);
    OffsetNextRow(l, br, R, site);
    lo2, ro2 := lo + siteOffset, ro + siteOffset;
  }

  /** Σ_s f[s] · L[s] · R[s] for the root's children's rows at one pattern,
      read from the buffer `a`. */
  method RootSum(f: seq<real>, a: array<real>, ghost l: Layout, bl: Slot, ghost L: nat, br: Slot, ghost R: nat, site: nat,
                 lo: nat, ro: nat, ghost vl: seq<real>, ghost vr: seq<real>) returns (tmp: real)
    requires a.Length == BufferSize(l) && L < l.numNodes && R < l.numNodes && site < l.numPatterns
    requires |f| == l.numChars && |vl| == l.numChars && |vr| == l.numChars
    requires RowIs(l, a[..], bl, L, site, vl) && RowIs(l, a[..], br, R, site, vr)
    requires lo == Offset(l, bl, L, site, 0) && ro == Offset(l, br, R, site, 0)
    ensures tmp == Dot3(f, vl, vr)
  {
    RowIsSlice(l, a[..], bl, L, site, vl);
    RowIsSlice(l, a[..], br, R, site, vr);
    assert a[..][lo .. lo + |f|] == a[lo .. lo + |f|];
    assert a[..][ro .. ro + |f|] == a[ro .. ro + |f|];
    tmp := Dot3At(f, 0, |f|, a, lo, ro);
    assert f[0 .. |f|] == f;
  }

  /** The start-state loop of computeTipLikelihood for one pattern: row
      `site` of block (b, i), starting at pSite, becomes the tip row for the
      observed set `val` (or for a gap); nothing else changes. */
  method FillTipRow(tp: seq<real>, numChars: nat, val: nat, gap: bool, a: array<real>, ghost l: Layout,
                    b: Slot, i: nat, site: nat, pSite: nat)
    requires |tp| == numChars * numChars && val < Pow2(numChars) && numChars == l.numChars
    requires a.Length == BufferSize(l) && i < l.numNodes && site < l.numPatterns && pSite == Offset(l, b, i, site, 0)
    modifies a
    ensures RowIs(l, a[..], b, i, site, TipRow(tp, numChars, val, gap))
    ensures SameButRow(l, old(a[..]), a[..], b, i, site)
  {
    ghost var want := TipRow(tp, numChars, val, gap);
    RowPrefixStart(l, a[..], b, i, site, want);
    for c1 := 0 to numChars
      invariant RowPrefix(l, old(a[..]), a[..], b, i, site, want, c1)
    {
      var tmp := TipSum(tp, numChars, c1, gap, val);
      ghost var prev := a[..];
      OffsetStep(l, b, i, site, c1);
      RowPrefixStep(l, old(a[..]), prev, b, i, site, want, c1);
      a[pSite + c1] := tmp;
      assert a[..] == prev[Offset(l, b, i, site, c1) := tmp];
    }
    RowPrefixComplete(l, old(a[..]), a[..], b, i, site, want);
  }

  /** The start-state loop of computeInternalNodeLikelihood for one pattern:
      row `site` of block (b, i) becomes the children's rows (vl at pLeft,
      vr at pRight) combined through the matrix tp; nothing else changes. */
  method FillCombinedRow(tp: seq<real>, numChars: nat, a: array<real>, ghost l: Layout, b: Slot, i: nat,
                         bl: Slot, L: nat, br: Slot, R: nat, site: nat, pSite: nat, pLeft: nat, pRight: nat,
                         ghost vl: seq<real>, ghost vr: seq<real>)
    requires |tp| == numChars * numChars && numChars == l.numChars && a.Length == BufferSize(l)
    requires i < l.numNodes && L < l.numNodes && R < l.numNodes && L != i && R != i && site < l.numPatterns
    requires |vl| == numChars && |vr| == numChars
    requires RowIs(l, a[..], bl, L, site, vl) && RowIs(l, a[..], br, R, site, vr)
    requires pSite == Offset(l, b, i, site, 0) && pLeft == Offset(l, bl, L, site, 0) && pRight == Offset(l, br, R, site, 0)
    modifies a
    ensures RowIs(l, a[..], b, i, site, Combine(tp, numChars, vl, vr))
    ensures SameButRow(l, old(a[..]), a[..], b, i, site)
  {
    ghost var want := Combine(tp, numChars, vl, vr);
    RowPrefixStart(l, a[..], b, i, site, want);
    for c1 := 0 to numChars
      invariant RowPrefix(l, old(a[..]), a[..], b, i, site, want, c1)
    {
      ghost var prev := a[..];
      RowPrefixKeeps(l, old(a[..]), prev, b, i, site, want, c1, bl, L, vl);
      RowPrefixKeeps(l, old(a[..]), prev, b, i, site, want, c1, br, R, vr);
      RowIsSlice(l, prev, bl, L, site, vl);
      RowIsSlice(l, prev, br, R, site, vr);
      assert a[pLeft .. pLeft + numChars] == vl && a[pRight .. pRight + numChars] == vr;
      var sum := TransitionDot(tp, numChars, c1, a, pLeft, pRight);
      OffsetStep(l, b, i, site, c1);
      RowPrefixStep(l, old(a[..]), prev, b, i, site, want, c1);
      a[pSite + c1] := sum;
      assert a[..] == prev[Offset(l, b, i, site, c1) := sum];
    }
    RowPrefixComplete(l, old(a[..]), a[..], b, i, site, want);
  }

  /** The terminal-state loop of computeInternalNodeLikelihood:
      Σ_c2 P[c1][c2] · L[c2] · R[c2], the child rows starting at `lo` and
      `ro` in the buffer. */
  method TransitionDot(tp: seq<real>, numChars: nat, c1: nat, a: array<real>, lo: nat, ro: nat) returns (sum: real)
    requires |tp| == numChars * numChars && c1 < numChars
    requires lo + numChars <= a.Length && ro + numChars <= a.Length
    ensures sum == Dot3(Row(tp, numChars, c1), a[lo .. lo + numChars], a[ro .. ro + numChars])
  {
    RowInMatrix(numChars, c1);
    sum := Dot3At(tp, c1 * numChars, numChars, a, lo, ro);
  }

  /** Σ_k a[lo + k] · a[ro + k] · w[start + k] for k < n, accumulated in the
      order of the source's pointer walks. */
  method Dot3At(w: seq<real>, start: nat, n: nat, a: array<real>, lo: nat, ro: nat) returns (sum: real)
    requires start + n <= |w| && lo + n <= a.Length && ro + n <= a.Length
    ensures sum == Dot3(w[start .. start + n], a[lo .. lo + n], a[ro .. ro + n])
  {
    sum := 0.0;
    for k := 0 to n
      invariant sum == Dot3(w[start .. start + k], a[lo .. lo + k], a[ro .. ro + k])
    {
      assert w[start .. start + k + 1][..k] == w[start .. start + k];
      assert a[lo .. lo + k + 1][..k] == a[lo .. lo + k];
      assert a[ro .. ro + k + 1][..k] == a[ro .. ro + k];
      sum := sum + a[lo + k] * a[ro + k] * w[start + k];
    }
  }
}
