/**
 * The flat partial-likelihood buffer of the pruning engine. It holds two
 * copies (buffer 0 and buffer 1) of one block per node; a node's block holds
 * one row per site pattern; a row holds one entry per character state. The
 * entry (buffer, node, pattern, state) sits at
 *   buffer * activeLikelihoodOffset + node * nodeOffset + pattern * siteOffset + state
 * with activeLikelihoodOffset = N * P * C, nodeOffset = P * C and
 * siteOffset = C, for N nodes, P patterns and C states.
 */
module BufferLayout {

  datatype Layout = Layout(numNodes: nat, numPatterns: nat, numChars: nat)

  function ActiveOffset(l: Layout): nat { l.numNodes * l.numPatterns * l.numChars }
  function NodeOffset(l: Layout): nat { l.numPatterns * l.numChars }
  function SiteOffset(l: Layout): nat { l.numChars }

  /** Number of entries the buffer is allocated with. */
  function BufferSize(l: Layout): nat { 2 * l.numNodes * l.numPatterns * l.numChars }

  predicate InRange(l: Layout, b: nat, n: nat, p: nat, c: nat)
  {
    b < 2 && n < l.numNodes && p < l.numPatterns && c < l.numChars
  }

  function Offset(l: Layout, b: nat, n: nat, p: nat, c: nat): nat
  {
    b * ActiveOffset(l) + n * NodeOffset(l) + p * SiteOffset(l) + c
  }

  // ---------------------------------------------------------------------
  // Mixed-radix arithmetic

  lemma MulMono(a: int, b: int, w: nat)
    requires a <= b
    ensures a * w <= b * w
  {
    assert b * w == a * w + (b - a) * w;
  }

  /** A digit below the radix cannot carry into the next place. */
  lemma DigitBound(q: int, r: nat, bound: int, w: nat)
    requires q < bound && r < w
    ensures q * w + r < bound * w
  {
    MulMono(q + 1, bound, w);
    assert (q + 1) * w == q * w + w;
  }

  /** Digits in a mixed radix are unique. */
  lemma DigitsUnique(q1: int, r1: nat, q2: int, r2: nat, w: nat)
    requires r1 < w && r2 < w && q1 * w + r1 == q2 * w + r2
    ensures q1 == q2 && r1 == r2
  {
    if q1 < q2 {
      DigitBound(q1, r1, q2, w);
      assert false;
    } else if q2 < q1 {
      DigitBound(q2, r2, q1, w);
      assert false;
    }
  }

  /** The source's sum of offsets is the mixed-radix number with digits
      (buffer, node, pattern, state). */
  lemma OffsetNested(l: Layout, b: nat, n: nat, p: nat, c: nat)
    ensures Offset(l, b, n, p, c)
         == ((b * l.numNodes + n) * l.numPatterns + p) * l.numChars + c
  {
    var N, P, C := l.numNodes, l.numPatterns, l.numChars;
    calc {
      ((b * N + n) * P + p) * C;
      (b * N + n) * P * C + p * C;
      { assert (b * N + n) * P == b * N * P + n * P; }
      (b * N * P + n * P) * C + p * C;
      b * N * P * C + n * P * C + p * C;
      { assert b * N * P * C == b * (N * P * C);
        assert n * P * C == n * (P * C); }
      b * (N * P * C) + n * (P * C) + p * C;
    }
  }

  /** A node's block starts at buffer * activeLikelihoodOffset + node * nodeOffset. */
  lemma OffsetRowStart(l: Layout, b: nat, n: nat)
    ensures Offset(l, b, n, 0, 0) == b * ActiveOffset(l) + n * NodeOffset(l)
  {
  }

  /** The next pattern's row starts siteOffset further on. */
  lemma OffsetNextRow(l: Layout, b: nat, n: nat, p: nat)
    ensures Offset(l, b, n, p + 1, 0) == Offset(l, b, n, p, 0) + SiteOffset(l)
  {
    assert (p + 1) * SiteOffset(l) == p * SiteOffset(l) + SiteOffset(l);
  }

  /** Every entry lies inside the allocated buffer. */
  lemma OffsetInBuffer(l: Layout, b: nat, n: nat, p: nat, c: nat)
    requires InRange(l, b, n, p, c)
    ensures Offset(l, b, n, p, c) < BufferSize(l)
  {
    var N, P, C := l.numNodes, l.numPatterns, l.numChars;
    OffsetNested(l, b, n, p, c);
    DigitBound(b, n, 2, N);
    DigitBound(b * N + n, p, 2 * N, P);
    DigitBound((b * N + n) * P + p, c, 2 * N * P, C);
  }

  /** Distinct entries never share a position. */
  lemma OffsetInjective(l: Layout, b1: nat, n1: nat, p1: nat, c1: nat, b2: nat, n2: nat, p2: nat, c2: nat)
    requires InRange(l, b1, n1, p1, c1) && InRange(l, b2, n2, p2, c2)
    requires Offset(l, b1, n1, p1, c1) == Offset(l, b2, n2, p2, c2)
    ensures b1 == b2 && n1 == n2 && p1 == p2 && c1 == c2
  {
    var N, P, C := l.numNodes, l.numPatterns, l.numChars;
    OffsetNested(l, b1, n1, p1, c1);
    OffsetNested(l, b2, n2, p2, c2);
    DigitsUnique((b1 * N + n1) * P + p1, c1, (b2 * N + n2) * P + p2, c2, C);
    DigitsUnique(b1 * N + n1, p1, b2 * N + n2, p2, P);
    DigitsUnique(b1, n1, b2, n2, N);
  }

  // ---------------------------------------------------------------------
  // Rows of a transition-probability matrix

  /** The row-major C x C matrix the model hands out has room for row `c1`. */
  lemma RowInMatrix(numChars: nat, c1: nat)
    requires c1 < numChars
    ensures c1 * numChars + numChars <= numChars * numChars
  {
    MulMono(c1 + 1, numChars, numChars);
    assert (c1 + 1) * numChars == c1 * numChars + numChars;
  }

  /** Row `c1` of a row-major C x C matrix. */
  function Row(m: seq<real>, numChars: nat, c1: nat): (r: seq<real>)
    requires |m| == numChars * numChars && c1 < numChars
    ensures |r| == numChars
  {
    RowInMatrix(numChars, c1);
    m[c1 * numChars .. c1 * numChars + numChars]
  }
}
