/**
 * The pruning inputs compress builds from an alignment, and what compression
 * does to the log probability. With pattern counts as weights the log
 * probability is the same with and without compression; summing one log term
 * per pattern, as computeRootLikelihood does, is not.
 */
module PruningData {
  import opened TreeArena
  import opened StateBits
  import opened BufferLayout
  import opened SitePatterns
  import opened SiteData
  import opened Pruning

  /** Data that fit the tree: the tips are the nodes 0 .. |align| - 1,
      `align[i]` is the data of the taxon at tip i, every tip has one
      character per site, and every state set fits in the number of
      states. */
  predicate AlignmentFits(t: Tree, numChars: nat, align: seq<seq<Cell>>, numSites: nat)
  {
    && |align| <= |t.nodes|
    && (forall i :: 0 <= i < |t.nodes| ==> (IsTip(t, i) <==> i < |align|))
    && Rectangular(align, numSites)
    && (forall tip, s :: 0 <= tip < |align| && 0 <= s < numSites ==> align[tip][s].state < Pow2(numChars))
  }

  /** What the model holds besides the data: the tree, the number of states,
      the branch matrices and the root frequencies, with data that fit them. */
  predicate DataFits(t: Tree, numChars: nat, probs: seq<seq<real>>, align: seq<seq<Cell>>,
                     numSites: nat, freqs: seq<real>)
  {
    && Valid(t) && !IsTip(t, t.root)
    && |probs| == |t.nodes|
    && (forall i :: 0 <= i < |probs| ==> |probs[i]| == numChars * numChars)
    && AlignmentFits(t, numChars, align, numSites)
    && |freqs| == numChars
  }

  /** The tips' states at the kept sites: compress's charMatrix. */
  function TipStates(align: seq<seq<Cell>>, text: Cell -> string, numSites: nat, compressed: bool): (m: seq<seq<nat>>)
    requires Rectangular(align, numSites)
    ensures |m| == |align|
  {
    var sel := Selected(align, text, numSites, compressed);
    seq(|align|, tip requires 0 <= tip < |align| => StatesAt(align[tip], sel))
  }

  /** The tips' gap flags at the kept sites: compress's gapMatrix. */
  function TipGaps(align: seq<seq<Cell>>, text: Cell -> string, numSites: nat, compressed: bool): (m: seq<seq<bool>>)
    requires Rectangular(align, numSites)
    ensures |m| == |align|
  {
    var sel := Selected(align, text, numSites, compressed);
    seq(|align|, tip requires 0 <= tip < |align| => GapsAt(align[tip], sel))
  }

  /** The inputs after compress: tip columns restricted to the kept sites. */
  function InputsOf(t: Tree, numChars: nat, probs: seq<seq<real>>, align: seq<seq<Cell>>,
                    text: Cell -> string, numSites: nat, compressed: bool, freqs: seq<real>): (x: Inputs)
    requires DataFits(t, numChars, probs, align, numSites, freqs)
    ensures WellFormed(x)
    ensures x.numPatterns == |Selected(align, text, numSites, compressed)|
  {
    Inputs(t, numChars, probs, TipStates(align, text, numSites, compressed), TipGaps(align, text, numSites, compressed),
           |Selected(align, text, numSites, compressed)|, freqs)
  }

  /** A new branch matrix leaves the compressed data as they are. */
  lemma MatrixChangeKeepsData(t: Tree, numChars: nat, probs: seq<seq<real>>, align: seq<seq<Cell>>,
                              text: Cell -> string, numSites: nat, compressed: bool, freqs: seq<real>,
                              n: nat, m: seq<real>)
    requires DataFits(t, numChars, probs, align, numSites, freqs)
    requires n < |probs| && |m| == numChars * numChars
    ensures DataFits(t, numChars, probs[n := m], align, numSites, freqs)
    ensures InputsOf(t, numChars, probs[n := m], align, text, numSites, compressed, freqs)
         == InputsOf(t, numChars, probs, align, text, numSites, compressed, freqs).(probs := probs[n := m])
  {
  }

  /** Root likelihood of kept pattern p equals that of the site it was
      taken from, computed without compression. */
  lemma PatternIsItsSite(t: Tree, numChars: nat, probs: seq<seq<real>>, align: seq<seq<Cell>>,
                         text: Cell -> string, numSites: nat, freqs: seq<real>, p: nat)
    requires DataFits(t, numChars, probs, align, numSites, freqs)
    requires p < |Selected(align, text, numSites, true)|
    ensures var x := InputsOf(t, numChars, probs, align, text, numSites, true, freqs);
            var u := InputsOf(t, numChars, probs, align, text, numSites, false, freqs);
            Selected(align, text, numSites, true)[p] < u.numPatterns
            && RootLikelihood(x, p) == RootLikelihood(u, Selected(align, text, numSites, true)[p])
  {
    var x := InputsOf(t, numChars, probs, align, text, numSites, true, freqs);
    var u := InputsOf(t, numChars, probs, align, text, numSites, false, freqs);
    var s := Selected(align, text, numSites, true)[p];
    SameColumnsSameRoot(x, p, u, s);
  }

  /** Sites whose columns agree have the same root likelihood. */
  lemma SameColumnsSameRoot(x: Inputs, p: nat, y: Inputs, q: nat)
    requires WellFormed(x) && WellFormed(y) && p < x.numPatterns && q < y.numPatterns
    requires x.tree == y.tree && x.numChars == y.numChars && x.probs == y.probs && x.freqs == y.freqs
    requires |x.charMatrix| == |y.charMatrix|
    requires forall tip :: 0 <= tip < |x.charMatrix| ==>
               x.charMatrix[tip][p] == y.charMatrix[tip][q] && x.gapMatrix[tip][p] == y.gapMatrix[tip][q]
    ensures RootLikelihood(x, p) == RootLikelihood(y, q)
  {
    var t := x.tree;
    var l, r := Left(t, t.root), Right(t, t.root);
    forall j | j in Subtree(t, l) ensures j < |t.nodes| { SubtreeBelow(t, l, j); }
    forall j | j in Subtree(t, r) ensures j < |t.nodes| { SubtreeBelow(t, r, j); }
    PartialDependsOnSubtree(x, p, y, q, l);
    PartialDependsOnSubtree(x, p, y, q, r);
  }

  /** Compression does not change the log probability when every pattern is
      weighted by its count: it equals the per-site sum over the
      uncompressed alignment. */
  lemma CompressionKeepsLnProb(t: Tree, numChars: nat, probs: seq<seq<real>>, align: seq<seq<Cell>>,
                               text: Cell -> string, numSites: nat, freqs: seq<real>, ln: real -> real)
    requires DataFits(t, numChars, probs, align, numSites, freqs)
    requires SymbolPerCell(text)
    ensures var x := InputsOf(t, numChars, probs, align, text, numSites, true, freqs);
            var u := InputsOf(t, numChars, probs, align, text, numSites, false, freqs);
            LnProb(x, PatternCountsOf(align, text, numSites, true), ln)
            == LnProb(u, PatternCountsOf(align, text, numSites, false), ln)
            == LnProbAsWritten(u, ln)
  {
    var x := InputsOf(t, numChars, probs, align, text, numSites, true, freqs);
    var u := InputsOf(t, numChars, probs, align, text, numSites, false, freqs);
    var keys := Keys(align, text, numSites);
    var h := PatternLnLikelihoods(u, ln);
    var vals := PatternLnLikelihoods(x, ln);
    forall p | 0 <= p < |vals| ensures vals[p] == h[Firsts(keys)[p]] {
      PatternIsItsSite(t, numChars, probs, align, text, numSites, freqs, p);
    }
    assert PatternValues(keys, h, vals);
    forall s, s2 | 0 <= s < |keys| && 0 <= s2 < |keys| && keys[s] == keys[s2] ensures h[s] == h[s2] {
      KeyDeterminesColumn(align, text, numSites, s, s2);
      SameColumnsSameRoot(u, s, u, s2);
    }
    assert KeyDetermined(keys, h);
    WeightedEqualsSiteSum(keys, h, vals);
    UncompressedIsSiteSum(h);
  }

  // ---------------------------------------------------------------------
  // A two-site example

  /** Two tips below a root, every branch certain to keep its state. */
  function CherryTree(): Tree
  {
    Tree([Node(2, [], 0.0, 1.0, false, false),
          Node(2, [], 0.0, 1.0, false, false),
          Node(-1, [0, 1], 1.0, 0.0, false, false)], 2, [1, 1, 0])
  }

  function CherryAlignment(): seq<seq<Cell>>
  {
    [[Cell(1, false), Cell(1, false)], [Cell(1, false), Cell(1, false)]]
  }

  function CherryProbs(): seq<seq<real>> { [[1.0], [1.0], [1.0]] }

  function SameSymbol(c: Cell): string { "A" }

  lemma CherryFits()
    ensures DataFits(CherryTree(), 1, CherryProbs(), CherryAlignment(), 2, [0.5])
  {
    var t := CherryTree();
    var align := CherryAlignment();
    assert Valid(t);
    assert Pow2(1) == 2;
    assert Rectangular(align, 2);
    forall tip, s | 0 <= tip < 2 && 0 <= s < 2 ensures align[tip][s].state < Pow2(1) {
      assert align[tip][s] == Cell(1, false);
    }
    assert IsTip(t, 0) && IsTip(t, 1) && !IsTip(t, 2);
    forall i | 0 <= i < |t.nodes| ensures IsTip(t, i) <==> i < 2 {
      assert i == 0 || i == 1 || i == 2;
    }
  }

  lemma CherryCompresses()
    ensures Selected(CherryAlignment(), SameSymbol, 2, true) == [0]
    ensures PatternCountsOf(CherryAlignment(), SameSymbol, 2, true) == [2]
  {
    var align := CherryAlignment();
    var keys := Keys(align, SameSymbol, 2);
    assert KeyPrefix(align, SameSymbol, 0, 2) == "AA";
    assert KeyPrefix(align, SameSymbol, 1, 2) == "AA";
    assert keys == ["AA", "AA"];
    assert keys[..1] == ["AA"];
    assert Distinct(keys[..1]) == ["AA"];
    assert Firsts(keys[..1]) == [0];
    assert Counts(keys[..1]) == [1];
  }

  /** Every pattern of either form of the example has likelihood 1/2. */
  lemma CherryLikelihood(x: Inputs, p: nat)
    requires WellFormed(x) && x.tree == CherryTree() && x.probs == CherryProbs() && x.freqs == [0.5]
    requires |x.charMatrix| == 2 && p < x.numPatterns && x.charMatrix[0][p] == 1 && x.charMatrix[1][p] == 1
    requires !x.gapMatrix[0][p] && !x.gapMatrix[1][p]
    ensures RootLikelihood(x, p) == 0.5
  {
    assert HasState(1, 0);
    assert Row(x.probs[0], 1, 0) == [1.0] && Row(x.probs[1], 1, 0) == [1.0];
    assert MaskedSum(1, [1.0]) == 1.0;
    assert Partial(x, 0, p) == [1.0];
    assert Partial(x, 1, p) == [1.0];
    assert Left(x.tree, 2) == 0 && Right(x.tree, 2) == 1;
    assert Dot3([0.5], [1.0], [1.0]) == 0.5;
  }

  /** With one state, two identical sites and root frequency 1/2, both sites
      have likelihood 1/2. Compressed they form one pattern of count two; the
      sum computeRootLikelihood forms then holds one log term where the
      uncompressed alignment has two. */
  lemma UnweightedRootSumDependsOnCompression(ln: real -> real)
    requires ln(0.5) != 0.0
    ensures DataFits(CherryTree(), 1, CherryProbs(), CherryAlignment(), 2, [0.5])
    ensures var x := InputsOf(CherryTree(), 1, CherryProbs(), CherryAlignment(), SameSymbol, 2, true, [0.5]);
            var u := InputsOf(CherryTree(), 1, CherryProbs(), CherryAlignment(), SameSymbol, 2, false, [0.5]);
            LnProbAsWritten(x, ln) != LnProbAsWritten(u, ln)
            && LnProb(x, PatternCountsOf(CherryAlignment(), SameSymbol, 2, true), ln) == LnProbAsWritten(u, ln)
  {
    CherryFits();
    CherryCompresses();
    var x := InputsOf(CherryTree(), 1, CherryProbs(), CherryAlignment(), SameSymbol, 2, true, [0.5]);
    var u := InputsOf(CherryTree(), 1, CherryProbs(), CherryAlignment(), SameSymbol, 2, false, [0.5]);
    assert x.numPatterns == 1 && u.numPatterns == 2;
    CherryLikelihood(x, 0);
    CherryLikelihood(u, 0);
    CherryLikelihood(u, 1);
    assert PatternLnLikelihoods(x, ln) == [ln(0.5)];
    assert PatternLnLikelihoods(u, ln) == [ln(0.5), ln(0.5)];
    ExampleSums(ln(0.5));
  }

  lemma ExampleSums(a: real)
    ensures SumReal([a]) == a && SumReal([a, a]) == a + a
    ensures Weighted([2], [a]) == a + a
  {
    assert [a][..0] == [];
    assert [a, a][..1] == [a];
    var c: seq<nat> := [2];
    assert c[..0] == [];
  }
}
