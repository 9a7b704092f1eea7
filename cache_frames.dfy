/**
 * What the postorder recomputation of the pruning engine writes and what it
 * leaves alone, on values: a filled subtree holds its partial likelihoods, and
 * the buffer changes only in the active blocks of the subtree's dirty nodes.
 */
module CacheFrames {
  import opened TreeArena
  import opened DirtyCache
  import opened BufferLayout
  import opened Pruning

  /** One pattern's row of buffer `b` of node i holds the node's partial
      likelihoods at that pattern. */
  predicate RowHolds(x: Inputs, buf: seq<real>, b: nat, i: nat, p: nat)
    requires WellFormed(x) && |buf| == BufferSize(LayoutOf(x)) && b < 2 && i < |x.tree.nodes|
    requires p < x.numPatterns
  {
    RowIs(LayoutOf(x), buf, b, i, p, Partial(x, i, p))
  }

  /** Row p of block (b, i) holds the vector v. */
  predicate RowIs(l: Layout, buf: seq<real>, b: nat, i: nat, p: nat, v: seq<real>)
    requires |buf| == BufferSize(l) && b < 2 && i < l.numNodes && p < l.numPatterns && |v| == l.numChars
  {
    forall c :: 0 <= c < l.numChars ==> Entry(buf, l, b, i, p, c) == v[c]
  }

  /** Two buffers agree everywhere except in row p of block (b, i). */
  ghost predicate SameButRow(l: Layout, a: seq<real>, a2: seq<real>, b: nat, i: nat, p: nat)
    requires |a| == BufferSize(l) && |a2| == BufferSize(l)
  {
    forall b2, j, q, c :: InRange(l, b2, j, q, c) && !(b2 == b && j == i && q == p) ==>
      Entry(a2, l, b2, j, q, c) == Entry(a, l, b2, j, q, c)
  }

  /** Every node of i's subtree holds its partial likelihoods in its active
      buffer. */
  ghost predicate HoldsBelow(x: Inputs, buf: seq<real>, act: seq<Slot>, i: nat)
    requires WellFormed(x) && |buf| == BufferSize(LayoutOf(x)) && |act| == |x.tree.nodes|
    requires i < |x.tree.nodes|
  {
    forall j :: j in Subtree(x.tree, i) && j < |x.tree.nodes| ==> NodeHolds(x, buf, act[j], j)
  }

  /** Only the active blocks of the nodes of i's subtree that are dirty in `d`
      differ between a and a2. */
  ghost predicate KeptOutside(l: Layout, a: seq<real>, a2: seq<real>, t: Tree, d: seq<bool>, act: seq<Slot>, i: nat)
    requires |a| == BufferSize(l) && |a2| == BufferSize(l) && Valid(t) && i < |t.nodes|
    requires l.numNodes == |t.nodes| == |d| == |act|
  {
    forall b: nat, j: nat, p: nat, c: nat :: InRange(l, b, j, p, c) && !(j in Subtree(t, i) && d[j] && b == act[j]) ==>
      Entry(a2, l, b, j, p, c) == Entry(a, l, b, j, p, c)
  }

  // ---------------------------------------------------------------------
  // Rows and blocks

  /** A row holding v is the slice of the buffer the row starts at. */
  lemma RowIsSlice(l: Layout, buf: seq<real>, b: nat, i: nat, p: nat, v: seq<real>)
    requires |buf| == BufferSize(l) && b < 2 && i < l.numNodes && p < l.numPatterns && |v| == l.numChars
    requires RowIs(l, buf, b, i, p, v)
    ensures Offset(l, b, i, p, 0) + l.numChars <= |buf|
    ensures buf[Offset(l, b, i, p, 0) .. Offset(l, b, i, p, 0) + l.numChars] == v
  {
    var o := Offset(l, b, i, p, 0);
    var C := l.numChars;
    if C == 0 {
      ZeroWidthOffset(l, b, i, p);
      assert buf[o .. o + C] == [];
    } else {
      OffsetInBuffer(l, b, i, p, C - 1);
      OffsetStep(l, b, i, p, C - 1);
      var row := buf[o .. o + C];
      forall c | 0 <= c < C ensures row[c] == v[c] {
        OffsetStep(l, b, i, p, c);
        assert row[c] == buf[Offset(l, b, i, p, c)];
        assert Entry(buf, l, b, i, p, c) == v[c];
      }
      assert row == v;
    }
  }

  /** Entries of a row are consecutive. */
  lemma OffsetStep(l: Layout, b: nat, i: nat, p: nat, c: nat)
    ensures Offset(l, b, i, p, c) == Offset(l, b, i, p, 0) + c
  {
  }

  /** Without states there is nothing to offset. */
  lemma ZeroWidthOffset(l: Layout, b: nat, i: nat, p: nat)
    requires l.numChars == 0
    ensures Offset(l, b, i, p, 0) == 0 == BufferSize(l)
  {
    assert ActiveOffset(l) == 0;
  }

  /** The first k entries of row p of block (b, i) hold `want`, and
      nothing else differs from a0. */
  ghost predicate RowPrefix(l: Layout, a0: seq<real>, a: seq<real>, b: nat, i: nat, p: nat, want: seq<real>, k: nat)
    requires |a0| == |a| == BufferSize(l) && k <= |want| == l.numChars
  {
    && (forall c :: 0 <= c < k && InRange(l, b, i, p, c) ==> Entry(a, l, b, i, p, c) == want[c])
    && (forall b2: nat, j: nat, q: nat, c: nat :: InRange(l, b2, j, q, c) && !(b2 == b && j == i && q == p && c < k) ==>
          Entry(a, l, b2, j, q, c) == Entry(a0, l, b2, j, q, c))
  }

  lemma RowPrefixStart(l: Layout, a: seq<real>, b: nat, i: nat, p: nat, want: seq<real>)
    requires |a| == BufferSize(l) && |want| == l.numChars
    ensures RowPrefix(l, a, a, b, i, p, want, 0)
  {
  }

  /** Writing entry k of the row extends the prefix by one. */
  lemma RowPrefixStep(l: Layout, a0: seq<real>, a: seq<real>, b: nat, i: nat, p: nat, want: seq<real>, k: nat)
    requires |a0| == |a| == BufferSize(l) && k < |want| == l.numChars && InRange(l, b, i, p, k)
    requires RowPrefix(l, a0, a, b, i, p, want, k)
    ensures Offset(l, b, i, p, k) < |a|
    ensures RowPrefix(l, a0, a[Offset(l, b, i, p, k) := want[k]], b, i, p, want, k + 1)
  {
    EntryUpdate(l, a, b, i, p, k, want[k]);
  }

  /** Rows of other nodes survive a partial write of row p of node i. */
  lemma RowPrefixKeeps(l: Layout, a0: seq<real>, a: seq<real>, b: nat, i: nat, p: nat, want: seq<real>, k: nat,
                       b2: nat, j: nat, v: seq<real>)
    requires |a0| == |a| == BufferSize(l) && k <= |want| == l.numChars && |v| == l.numChars
    requires b2 < 2 && j < l.numNodes && j != i && p < l.numPatterns
    requires RowPrefix(l, a0, a, b, i, p, want, k) && RowIs(l, a0, b2, j, p, v)
    ensures RowIs(l, a, b2, j, p, v)
  {
    forall c | 0 <= c < l.numChars ensures Entry(a, l, b2, j, p, c) == v[c] {
      assert InRange(l, b2, j, p, c);
    }
  }

  /** A complete row. */
  lemma RowPrefixComplete(l: Layout, a0: seq<real>, a: seq<real>, b: nat, i: nat, p: nat, want: seq<real>)
    requires |a0| == |a| == BufferSize(l) && b < 2 && i < l.numNodes && p < l.numPatterns && |want| == l.numChars
    requires RowPrefix(l, a0, a, b, i, p, want, l.numChars)
    ensures RowIs(l, a, b, i, p, want) && SameButRow(l, a0, a, b, i, p)
  {
    forall c | 0 <= c < l.numChars ensures Entry(a, l, b, i, p, c) == want[c] {
      assert InRange(l, b, i, p, c);
    }
  }

  /** A block that holds holds at every row. */
  lemma HoldsRow(x: Inputs, buf: seq<real>, b: nat, i: nat, p: nat)
    requires WellFormed(x) && |buf| == BufferSize(LayoutOf(x)) && b < 2 && i < |x.tree.nodes|
    requires p < x.numPatterns && NodeHolds(x, buf, b, i)
    ensures RowHolds(x, buf, b, i, p)
  {
  }

  /** A block holds once each of its rows does. */
  lemma RowsHold(x: Inputs, buf: seq<real>, b: nat, i: nat)
    requires WellFormed(x) && |buf| == BufferSize(LayoutOf(x)) && b < 2 && i < |x.tree.nodes|
    requires forall p :: 0 <= p < x.numPatterns ==> RowHolds(x, buf, b, i, p)
    ensures NodeHolds(x, buf, b, i)
  {
    forall p, c | 0 <= p < x.numPatterns && 0 <= c < x.numChars
      ensures Entry(buf, LayoutOf(x), b, i, p, c) == Partial(x, i, p)[c]
    {
      assert RowHolds(x, buf, b, i, p);
    }
  }

  /** Writing row p of block (b, i) keeps every other row of the block and
      accumulates into a write of the whole block. */
  lemma RowWritten(x: Inputs, a0: seq<real>, a: seq<real>, a2: seq<real>, b: nat, i: nat, p: nat)
    requires WellFormed(x) && b < 2 && i < |x.tree.nodes| && p < x.numPatterns
    requires |a0| == |a| == |a2| == BufferSize(LayoutOf(x))
    requires SameBut(LayoutOf(x), a0, a, b, i) && SameButRow(LayoutOf(x), a, a2, b, i, p)
    requires forall q :: 0 <= q < p ==> RowHolds(x, a, b, i, q)
    requires RowHolds(x, a2, b, i, p)
    ensures SameBut(LayoutOf(x), a0, a2, b, i)
    ensures forall q :: 0 <= q <= p ==> RowHolds(x, a2, b, i, q)
  {
    var l := LayoutOf(x);
    forall q | 0 <= q < p ensures RowHolds(x, a2, b, i, q) {
      assert RowHolds(x, a, b, i, q);
      forall c | 0 <= c < x.numChars ensures Entry(a2, l, b, i, q, c) == Entry(a, l, b, i, q, c) {
        assert InRange(l, b, i, q, c);
      }
    }
  }

  /** A block other than the one written keeps holding. */
  lemma HoldsElsewhere(x: Inputs, a: seq<real>, a2: seq<real>, b: nat, i: nat, b2: nat, j: nat)
    requires WellFormed(x) && |a| == |a2| == BufferSize(LayoutOf(x))
    requires b < 2 && i < |x.tree.nodes| && b2 < 2 && j < |x.tree.nodes| && !(b == b2 && i == j)
    requires SameBut(LayoutOf(x), a, a2, b, i) && NodeHolds(x, a, b2, j)
    ensures NodeHolds(x, a2, b2, j)
  {
    var l := LayoutOf(x);
    forall p, c | 0 <= p < x.numPatterns && 0 <= c < x.numChars
      ensures Entry(a2, l, b2, j, p, c) == Partial(x, j, p)[c]
    {
      assert InRange(l, b2, j, p, c);
    }
  }

  /** A row other than the one written keeps holding. */
  lemma RowElsewhere(x: Inputs, a: seq<real>, a2: seq<real>, b: nat, i: nat, p: nat, b2: nat, j: nat)
    requires WellFormed(x) && |a| == |a2| == BufferSize(LayoutOf(x))
    requires b < 2 && i < |x.tree.nodes| && b2 < 2 && j < |x.tree.nodes| && j != i && p < x.numPatterns
    requires SameButRow(LayoutOf(x), a, a2, b, i, p) && RowHolds(x, a, b2, j, p)
    ensures RowHolds(x, a2, b2, j, p)
  {
    var l := LayoutOf(x);
    forall c | 0 <= c < x.numChars ensures Entry(a2, l, b2, j, p, c) == Partial(x, j, p)[c] {
      assert InRange(l, b2, j, p, c);
    }
  }

  // ---------------------------------------------------------------------
  // A fill's frame

  /** A node's block in a buffer the fill of s kept, outside what the fill
      writes, keeps holding. */
  lemma KeptHolds(x: Inputs, a: seq<real>, a2: seq<real>, d: seq<bool>, act: seq<Slot>, s: nat, j: nat)
    requires WellFormed(x) && |a| == |a2| == BufferSize(LayoutOf(x))
    requires |d| == |act| == |x.tree.nodes| && s < |x.tree.nodes| && j < |x.tree.nodes|
    requires KeptOutside(LayoutOf(x), a, a2, x.tree, d, act, s)
    requires j !in Subtree(x.tree, s) && NodeHolds(x, a, act[j], j)
    ensures NodeHolds(x, a2, act[j], j)
  {
    var l := LayoutOf(x);
    forall p, c | 0 <= p < x.numPatterns && 0 <= c < x.numChars
      ensures Entry(a2, l, act[j], j, p, c) == Partial(x, j, p)[c]
    {
      assert InRange(l, act[j], j, p, c);
    }
  }

  /** A filled subtree keeps holding while a disjoint subtree is filled. */
  lemma HoldsBelowKept(x: Inputs, a: seq<real>, a2: seq<real>, d: seq<bool>, act: seq<Slot>, s: nat, i: nat)
    requires WellFormed(x) && |a| == |a2| == BufferSize(LayoutOf(x))
    requires |d| == |act| == |x.tree.nodes| && s < |x.tree.nodes| && i < |x.tree.nodes|
    requires KeptOutside(LayoutOf(x), a, a2, x.tree, d, act, s)
    requires forall j :: j in Subtree(x.tree, i) ==> j !in Subtree(x.tree, s)
    requires HoldsBelow(x, a, act, i)
    ensures HoldsBelow(x, a2, act, i)
  {
    forall j | j in Subtree(x.tree, i) && j < |x.tree.nodes| ensures NodeHolds(x, a2, act[j], j) {
      KeptHolds(x, a, a2, d, act, s, j);
    }
  }

  /** A filled subtree keeps holding while a block outside it is written. */
  lemma HoldsBelowSameBut(x: Inputs, a: seq<real>, a2: seq<real>, act: seq<Slot>, b: nat, n: nat, i: nat)
    requires WellFormed(x) && |a| == |a2| == BufferSize(LayoutOf(x)) && |act| == |x.tree.nodes|
    requires b < 2 && n < |x.tree.nodes| && i < |x.tree.nodes| && n !in Subtree(x.tree, i)
    requires SameBut(LayoutOf(x), a, a2, b, n) && HoldsBelow(x, a, act, i)
    ensures HoldsBelow(x, a2, act, i)
  {
    forall j | j in Subtree(x.tree, i) && j < |x.tree.nodes| ensures NodeHolds(x, a2, act[j], j) {
      HoldsElsewhere(x, a, a2, b, n, act[j], j);
    }
  }

  /** Coherence of a subtree survives filling a disjoint subtree. */
  lemma CoherentBelowKept(x: Inputs, f: Flags, a: seq<real>, a2: seq<real>, d: seq<bool>, s: nat, i: nat)
    requires WellFormed(x) && Sized(f, |x.tree.nodes|) && |a| == |a2| == BufferSize(LayoutOf(x))
    requires |d| == |x.tree.nodes| && s < |x.tree.nodes| && i < |x.tree.nodes|
    requires KeptOutside(LayoutOf(x), a, a2, x.tree, d, f.active, s)
    requires forall j :: j in Subtree(x.tree, i) ==> j !in Subtree(x.tree, s)
    requires CoherentBelow(x, f, a, i)
    ensures CoherentBelow(x, f, a2, i)
  {
    forall j | j in Subtree(x.tree, i) && j < |x.tree.nodes| && j != x.tree.root && !f.dirty[j]
      ensures NodeHolds(x, a2, f.active[j], j)
    {
      KeptHolds(x, a, a2, d, f.active, s, j);
    }
  }

  /** Coherence of a subtree depends only on the flags inside it. */
  lemma CoherentBelowInside(x: Inputs, f: Flags, f2: Flags, buf: seq<real>, i: nat, c: nat)
    requires WellFormed(x) && Sized(f, |x.tree.nodes|) && Sized(f2, |x.tree.nodes|)
    requires |buf| == BufferSize(LayoutOf(x)) && i < |x.tree.nodes| && c < |x.tree.nodes| && c in Subtree(x.tree, i)
    requires f2.active == f.active
    requires forall j :: j in Subtree(x.tree, c) ==> j < |x.tree.nodes| && f2.dirty[j] == f.dirty[j]
    requires CoherentBelow(x, f, buf, i)
    ensures CoherentBelow(x, f2, buf, c)
  {
    SubtreeNested(x.tree, i, c);
  }

  /** The end of a fill for an internal node: its own block was written
      after both children's subtrees were filled. */
  lemma InternalFillFrame(x: Inputs, a0: seq<real>, a1: seq<real>, a2: seq<real>, a3: seq<real>,
                          d: seq<bool>, d1: seq<bool>, act: seq<Slot>, i: nat)
    requires WellFormed(x) && |a0| == |a1| == |a2| == |a3| == BufferSize(LayoutOf(x))
    requires |d| == |d1| == |act| == |x.tree.nodes| && i < |x.tree.nodes| && !IsTip(x.tree, i) && d[i]
    requires d1 == ClearSubtree(x.tree, d[i := false], Left(x.tree, i))
    requires KeptOutside(LayoutOf(x), a0, a1, x.tree, d[i := false], act, Left(x.tree, i))
    requires KeptOutside(LayoutOf(x), a1, a2, x.tree, d1, act, Right(x.tree, i))
    requires SameBut(LayoutOf(x), a2, a3, act[i], i)
    ensures KeptOutside(LayoutOf(x), a0, a3, x.tree, d, act, i)
    ensures ClearSubtree(x.tree, d1, Right(x.tree, i)) == ClearSubtree(x.tree, d, i)
  {
    var t, l := x.tree, LayoutOf(x);
    var L, R := Left(t, i), Right(t, i);
    forall b: nat, j: nat, p: nat, c: nat | InRange(l, b, j, p, c) && !(j in Subtree(t, i) && d[j] && b == act[j])
      ensures Entry(a3, l, b, j, p, c) == Entry(a0, l, b, j, p, c)
    {
      SiblingSubtreesDisjoint(t, i, j);
      if j in Subtree(t, L) {
        NotBelowChild(t, i, L);
        assert Entry(a1, l, b, j, p, c) == Entry(a0, l, b, j, p, c);
      }
    }
    forall j | 0 <= j < |d| ensures ClearSubtree(t, d1, R)[j] == ClearSubtree(t, d, i)[j] {
      NotBelowChild(t, i, L);
      NotBelowChild(t, i, R);
    }
  }

  /** Before an internal node's own computation: both children hold. */
  lemma InternalFillReady(x: Inputs, a1: seq<real>, a2: seq<real>, d1: seq<bool>, act: seq<Slot>, i: nat)
    requires WellFormed(x) && |a1| == |a2| == BufferSize(LayoutOf(x))
    requires |d1| == |act| == |x.tree.nodes| && i < |x.tree.nodes| && !IsTip(x.tree, i)
    requires HoldsBelow(x, a1, act, Left(x.tree, i))
    requires KeptOutside(LayoutOf(x), a1, a2, x.tree, d1, act, Right(x.tree, i))
    requires HoldsBelow(x, a2, act, Right(x.tree, i))
    ensures NodeHolds(x, a2, act[Left(x.tree, i)], Left(x.tree, i))
    ensures NodeHolds(x, a2, act[Right(x.tree, i)], Right(x.tree, i))
  {
    var t := x.tree;
    var L, R := Left(t, i), Right(t, i);
    assert L in Subtree(t, L) && R in Subtree(t, R);
    SiblingSubtreesDisjoint(t, i, L);
    KeptHolds(x, a1, a2, d1, act, R, L);
  }

  /** The end of a fill for an internal node: its own block and both
      children's subtrees hold. */
  lemma InternalFillHolds(x: Inputs, a1: seq<real>, a2: seq<real>, a3: seq<real>,
                          d1: seq<bool>, act: seq<Slot>, i: nat)
    requires WellFormed(x) && |a1| == |a2| == |a3| == BufferSize(LayoutOf(x))
    requires |d1| == |act| == |x.tree.nodes| && i < |x.tree.nodes| && !IsTip(x.tree, i)
    requires HoldsBelow(x, a1, act, Left(x.tree, i))
    requires KeptOutside(LayoutOf(x), a1, a2, x.tree, d1, act, Right(x.tree, i))
    requires HoldsBelow(x, a2, act, Right(x.tree, i))
    requires SameBut(LayoutOf(x), a2, a3, act[i], i) && NodeHolds(x, a3, act[i], i)
    ensures HoldsBelow(x, a3, act, i)
  {
    var t := x.tree;
    var L, R := Left(t, i), Right(t, i);
    forall j | j in Subtree(t, L) ensures j !in Subtree(t, R) {
      SiblingSubtreesDisjoint(t, i, j);
    }
    HoldsBelowKept(x, a1, a2, d1, act, R, L);
    NotBelowChild(t, i, L);
    NotBelowChild(t, i, R);
    HoldsBelowSameBut(x, a2, a3, act, act[i], i, L);
    HoldsBelowSameBut(x, a2, a3, act, act[i], i, R);
  }

  /** The fill of a tip writes its own block. */
  lemma TipFill(x: Inputs, a0: seq<real>, a1: seq<real>, d: seq<bool>, act: seq<Slot>, i: nat)
    requires WellFormed(x) && |a0| == |a1| == BufferSize(LayoutOf(x))
    requires |d| == |act| == |x.tree.nodes| && i < |x.tree.nodes| && IsTip(x.tree, i) && d[i]
    requires SameBut(LayoutOf(x), a0, a1, act[i], i) && NodeHolds(x, a1, act[i], i)
    ensures KeptOutside(LayoutOf(x), a0, a1, x.tree, d, act, i)
    ensures HoldsBelow(x, a1, act, i)
    ensures d[i := false] == ClearSubtree(x.tree, d, i)
  {
    var t, l := x.tree, LayoutOf(x);
    assert Subtree(t, i) == {i};
    forall b: nat, j: nat, p: nat, c: nat | InRange(l, b, j, p, c) && !(j in Subtree(t, i) && d[j] && b == act[j])
      ensures Entry(a1, l, b, j, p, c) == Entry(a0, l, b, j, p, c)
    {
      assert !(b == act[i] && j == i);
    }
    forall j | 0 <= j < |d| ensures d[i := false][j] == ClearSubtree(t, d, i)[j] {
    }
  }

  /** A fill that finds its node clean: the whole subtree is clean, holds
      already, and nothing is written. */
  lemma CleanFill(x: Inputs, f: Flags, a: seq<real>, i: nat)
    requires WellFormed(x) && Sized(f, |x.tree.nodes|) && |a| == BufferSize(LayoutOf(x))
    requires i < |x.tree.nodes| && i != x.tree.root && !f.dirty[i]
    requires ClosedBelow(x.tree, f, i) && CoherentBelow(x, f, a, i)
    ensures KeptOutside(LayoutOf(x), a, a, x.tree, f.dirty, f.active, i)
    ensures HoldsBelow(x, a, f.active, i)
    ensures f.dirty == ClearSubtree(x.tree, f.dirty, i)
  {
    forall j | j in Subtree(x.tree, i) ensures j < |x.tree.nodes| && !f.dirty[j] && j != x.tree.root {
      CleanTopCleanBelow(x.tree, f, i, j);
      RootNotBelow(x.tree, i, j);
    }
  }

  /** Before the first child's fill: the node itself is marked clean, which
      the child's subtree does not see. */
  lemma FirstChildReady(x: Inputs, f: Flags, buf: seq<real>, i: nat)
    requires WellFormed(x) && Sized(f, |x.tree.nodes|) && |buf| == BufferSize(LayoutOf(x))
    requires i < |x.tree.nodes| && !IsTip(x.tree, i)
    requires ClosedBelow(x.tree, f, i) && CoherentBelow(x, f, buf, i)
    ensures ClosedBelow(x.tree, f.(dirty := f.dirty[i := false]), Left(x.tree, i))
    ensures CoherentBelow(x, f.(dirty := f.dirty[i := false]), buf, Left(x.tree, i))
  {
    var t, L := x.tree, Left(x.tree, i);
    var f1 := f.(dirty := f.dirty[i := false]);
    NotBelowChild(t, i, L);
    ChildrenSubtreesInside(t, i);
    forall j | j in Subtree(t, L) ensures j < |t.nodes| && f1.dirty[j] == f.dirty[j] {
      SubtreeBelow(t, L, j);
    }
    ClosedBelowInside(t, f, f1, i, L);
    CoherentBelowInside(x, f, f1, buf, i, L);
  }

  /** Before the second child's fill: the first child's fill touched
      nothing the second child's subtree sees. */
  lemma SecondChildReady(x: Inputs, f: Flags, a0: seq<real>, a1: seq<real>, i: nat)
    requires WellFormed(x) && Sized(f, |x.tree.nodes|) && |a0| == |a1| == BufferSize(LayoutOf(x))
    requires i < |x.tree.nodes| && !IsTip(x.tree, i)
    requires ClosedBelow(x.tree, f, i) && CoherentBelow(x, f, a0, i)
    requires KeptOutside(LayoutOf(x), a0, a1, x.tree, f.dirty[i := false], f.active, Left(x.tree, i))
    ensures var f2 := f.(dirty := ClearSubtree(x.tree, f.dirty[i := false], Left(x.tree, i)));
      ClosedBelow(x.tree, f2, Right(x.tree, i)) && CoherentBelow(x, f2, a1, Right(x.tree, i))
  {
    var t, L, R := x.tree, Left(x.tree, i), Right(x.tree, i);
    var f2 := f.(dirty := ClearSubtree(t, f.dirty[i := false], L));
    NotBelowChild(t, i, R);
    ChildrenSubtreesInside(t, i);
    forall j | j in Subtree(t, R) ensures j < |t.nodes| && f2.dirty[j] == f.dirty[j] && j !in Subtree(t, L) {
      SubtreeBelow(t, R, j);
      SiblingSubtreesDisjoint(t, i, j);
    }
    ClosedBelowInside(t, f, f2, i, R);
    CoherentBelowInside(x, f, f2, a0, i, R);
    CoherentBelowKept(x, f2, a0, a1, f.dirty[i := false], L, R);
  }

  /** The cache after filling both subtrees of the root: every node clean,
      and every node other than the root holding. */
  lemma RootFillDone(x: Inputs, a1: seq<real>, a2: seq<real>, d: seq<bool>, d1: seq<bool>, act: seq<Slot>)
    requires WellFormed(x) && |a1| == |a2| == BufferSize(LayoutOf(x))
    requires |d| == |d1| == |act| == |x.tree.nodes|
    requires d1 == ClearSubtree(x.tree, d[x.tree.root := false], Left(x.tree, x.tree.root))
    requires HoldsBelow(x, a1, act, Left(x.tree, x.tree.root))
    requires KeptOutside(LayoutOf(x), a1, a2, x.tree, d1, act, Right(x.tree, x.tree.root))
    requires HoldsBelow(x, a2, act, Right(x.tree, x.tree.root))
    ensures forall j :: 0 <= j < |d| ==> !ClearSubtree(x.tree, d1, Right(x.tree, x.tree.root))[j]
    ensures HoldsBelow(x, a2, act, Left(x.tree, x.tree.root))
    ensures forall j :: 0 <= j < |x.tree.nodes| && j != x.tree.root ==> NodeHolds(x, a2, act[j], j)
  {
    var t := x.tree;
    var L, R := Left(t, t.root), Right(t, t.root);
    forall j | j in Subtree(t, L) ensures j !in Subtree(t, R) {
      SiblingSubtreesDisjoint(t, t.root, j);
    }
    HoldsBelowKept(x, a1, a2, d1, act, R, L);
    forall j | 0 <= j < |d| ensures j == t.root || j in Subtree(t, L) || j in Subtree(t, R) {
      RootSubtreeIsEverything(t, j);
    }
  }

  /** A clean tree whose non-root nodes all hold satisfies the cache
      invariant's closure and coherence parts. */
  lemma AllCleanCoherent(x: Inputs, f: Flags, buf: seq<real>)
    requires WellFormed(x) && Sized(f, |x.tree.nodes|) && |buf| == BufferSize(LayoutOf(x))
    requires forall j :: 0 <= j < |f.dirty| ==> !f.dirty[j]
    requires forall j :: 0 <= j < |x.tree.nodes| && j != x.tree.root ==> NodeHolds(x, buf, f.active[j], j)
    ensures Closed(x.tree, f) && Coherent(x, f, buf)
  {
  }

  /** Only the active blocks of the nodes dirty in `d` differ between a and
      a2. */
  ghost predicate WrittenOnlyDirty(l: Layout, a: seq<real>, a2: seq<real>, d: seq<bool>, act: seq<Slot>)
    requires |a| == |a2| == BufferSize(l) && |d| == |act| == l.numNodes
  {
    forall b: nat, j: nat, p: nat, c: nat :: InRange(l, b, j, p, c) && !(d[j] && b == act[j]) ==>
      Entry(a2, l, b, j, p, c) == Entry(a, l, b, j, p, c)
  }

  /** Both root fills together write only the active blocks of the nodes
      that were dirty before them. */
  lemma RootFillFrame(x: Inputs, a0: seq<real>, a1: seq<real>, a2: seq<real>, d: seq<bool>, d1: seq<bool>,
                      act: seq<Slot>)
    requires WellFormed(x) && |a0| == |a1| == |a2| == BufferSize(LayoutOf(x))
    requires |d| == |d1| == |act| == |x.tree.nodes|
    requires d1 == ClearSubtree(x.tree, d[x.tree.root := false], Left(x.tree, x.tree.root))
    requires KeptOutside(LayoutOf(x), a0, a1, x.tree, d[x.tree.root := false], act, Left(x.tree, x.tree.root))
    requires KeptOutside(LayoutOf(x), a1, a2, x.tree, d1, act, Right(x.tree, x.tree.root))
    ensures WrittenOnlyDirty(LayoutOf(x), a0, a2, d, act)
  {
    var t, l := x.tree, LayoutOf(x);
    var L, R := Left(t, t.root), Right(t, t.root);
    NotBelowChild(t, t.root, L);
    NotBelowChild(t, t.root, R);
    forall b: nat, j: nat, p: nat, c: nat | InRange(l, b, j, p, c) && !(d[j] && b == act[j])
      ensures Entry(a2, l, b, j, p, c) == Entry(a0, l, b, j, p, c)
    {
      SiblingSubtreesDisjoint(t, t.root, j);
    }
  }

  /** What a restore returns to survives a computation that writes only the
      active blocks of dirty nodes and then clears every flag: a dirty node
      is latched, so the block written is the other one of its kept
      buffer. */
  lemma KeptSlotsSurvive(kx: Inputs, f: Flags, g: Flags, ka: seq<Slot>, a: seq<real>, a2: seq<real>, counts: seq<nat>,
                         lnk: real, ln: real -> real)
    requires RestorePoint(kx, f, ka, a, counts, lnk, ln) && |a2| == |a|
    requires WrittenOnlyDirty(LayoutOf(kx), a, a2, f.dirty, f.active)
    requires g.changed == f.changed && g.active == f.active && |g.dirty| == |f.dirty|
    requires forall j :: 0 <= j < |g.dirty| ==> !g.dirty[j]
    ensures RestorePoint(kx, g, ka, a2, counts, lnk, ln)
  {
    var l := LayoutOf(kx);
    forall j, p, c | 0 <= j < |kx.tree.nodes| && j != kx.tree.root && 0 <= p < kx.numPatterns && 0 <= c < kx.numChars
      ensures Entry(a2, l, ka[j], j, p, c) == Partial(kx, j, p)[c]
    {
      assert InRange(l, ka[j], j, p, c);
      assert NodeHolds(kx, a, ka[j], j);
    }
  }
}
