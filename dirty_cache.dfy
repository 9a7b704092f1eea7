/**
 * The per-node cache protocol shared by both likelihood engines. Every node
 * owns two partial-likelihood buffers; `active` says which one holds the
 * current value, `dirty` says the current value must be recomputed, and
 * `changed` latches that the active buffer was already swapped during the
 * current proposal, so that a rejected proposal can swap it back.
 *
 * This module states the protocol on values; the engines' methods are proved
 * to update their fields exactly as these functions say.
 */
module DirtyCache {
  import opened TreeArena

  /** Index of one of the two buffers of a node. */
  type Slot = x: nat | x < 2

  function Flip(s: Slot): (r: Slot)
    ensures r != s
  {
    1 - s
  }

  datatype Flags = Flags(dirty: seq<bool>, changed: seq<bool>, active: seq<Slot>)

  predicate Sized(f: Flags, n: nat)
  {
    |f.dirty| == n && |f.changed| == n && |f.active| == n
  }

  /** The cache invariant: a dirty node has a dirty parent, so a clean node
      has a clean subtree. */
  predicate Closed(t: Tree, f: Flags)
    requires Valid(t) && Sized(f, |t.nodes|)
  {
    forall j :: 0 <= j < |t.nodes| && j != t.root && f.dirty[j] ==> f.dirty[Parent(t, j)]
  }

  /** Node j, when dirty and not the root, has a dirty parent. */
  predicate DirtyUp(t: Tree, f: Flags, j: nat)
    requires Valid(t) && Sized(f, |t.nodes|)
  {
    j < |t.nodes| && j != t.root && f.dirty[j] ==> f.dirty[Parent(t, j)]
  }

  /** The cache invariant inside the subtree of `i`. */
  predicate ClosedBelow(t: Tree, f: Flags, i: nat)
    requires Valid(t) && Sized(f, |t.nodes|) && i < |t.nodes|
  {
    forall j :: j in Subtree(t, i) && j != i ==> DirtyUp(t, f, j)
  }

  /** The active buffers relative to `base`, the buffers chosen at the last
      keep or restore: a node's buffer is swapped exactly when it is latched. */
  predicate Tracks(base: seq<Slot>, f: Flags)
  {
    |f.changed| == |f.active| == |base|
    && forall j :: 0 <= j < |base| ==> f.active[j] == (if f.changed[j] then Flip(base[j]) else base[j])
  }

  /** Flags of a freshly sized engine: everything dirty, nothing latched,
      buffer 0 active. */
  function Fresh(n: nat): (f: Flags)
    ensures Sized(f, n)
  {
    Flags(seq(n, _ => true), seq(n, _ => false), seq(n, _ => 0))
  }

  /** Node `j` is left exactly as it was. */
  predicate SameAt(f: Flags, g: Flags, j: nat)
    requires j < |f.dirty| && j < |f.changed| && j < |f.active|
    requires j < |g.dirty| && j < |g.changed| && j < |g.active|
  {
    g.dirty[j] == f.dirty[j] && g.changed[j] == f.changed[j] && g.active[j] == f.active[j]
  }

  /** Node `j` is flagged: now dirty and latched, its buffer swapped unless it
      was latched already. */
  predicate MarkedAt(f: Flags, g: Flags, j: nat)
    requires j < |f.dirty| && j < |f.changed| && j < |f.active|
    requires j < |g.dirty| && j < |g.changed| && j < |g.active|
  {
    g.dirty[j] && g.changed[j]
    && g.active[j] == (if f.changed[j] then f.active[j] else Flip(f.active[j]))
  }

  /** Flag one node: set its dirty flag and swap its buffer once. */
  function Mark(f: Flags, i: nat): (g: Flags)
    requires i < |f.dirty| && i < |f.changed| && i < |f.active|
    ensures |g.dirty| == |f.dirty| && |g.changed| == |f.changed| && |g.active| == |f.active|
  {
    if f.changed[i] then f.(dirty := f.dirty[i := true])
    else Flags(f.dirty[i := true], f.changed[i := true], f.active[i := Flip(f.active[i])])
  }

  /** The effect of `recursivelyFlagNodeDirty(i)`: nothing when `i` is dirty;
      otherwise flag the parent's path first, then `i` itself. */
  function FlagDirty(t: Tree, f: Flags, i: nat): (g: Flags)
    requires Valid(t) && Sized(f, |t.nodes|) && i < |t.nodes|
    ensures Sized(g, |t.nodes|) && g.dirty[i]
    decreases t.depth[i]
  {
    if f.dirty[i] then f
    else
      var f1 := if i == t.root then f else FlagDirty(t, f, Parent(t, i));
      Mark(f1, i)
  }

  /** The effect of a touch by a non-tree parameter: every node dirty, every
      node not yet latched swapped and latched. */
  function TouchAll(f: Flags): (g: Flags)
    requires |f.changed| == |f.active|
  {
    Flags(seq(|f.dirty|, _ => true), seq(|f.changed|, _ => true),
          seq(|f.active|, j requires 0 <= j < |f.active| =>
                if f.changed[j] then f.active[j] else Flip(f.active[j])))
  }

  /** The effect of `keepSpecialization`: clear both flag vectors. */
  function Keep(f: Flags): (g: Flags)
  {
    Flags(seq(|f.dirty|, _ => false), seq(|f.changed|, _ => false), f.active)
  }

  /** The effect of `restoreSpecialization`: clear the flags and swap back
      every latched buffer. */
  function Restore(f: Flags): (g: Flags)
    requires |f.changed| == |f.active|
  {
    Flags(seq(|f.dirty|, _ => false), seq(|f.changed|, _ => false),
          seq(|f.active|, j requires 0 <= j < |f.active| =>
                if f.changed[j] then Flip(f.active[j]) else f.active[j]))
  }

  // ---------------------------------------------------------------------
  // Flagging a node

  /** Under the cache invariant a dirty node's whole path to the root is
      dirty: this is why flagging may stop at the first dirty node. */
  lemma {:induction false} DirtyPathToRoot(t: Tree, f: Flags, i: nat, j: nat)
    requires Valid(t) && Sized(f, |t.nodes|) && Closed(t, f)
    requires i < |t.nodes| && f.dirty[i] && j in AncestorsOrSelf(t, i)
    ensures j < |t.nodes| && f.dirty[j]
    decreases t.depth[i]
  {
    if i != t.root && j != i {
      DirtyPathToRoot(t, f, Parent(t, i), j);
    }
  }

  lemma {:induction false} AncestorsInArena(t: Tree, i: nat, j: nat)
    requires Valid(t) && i < |t.nodes| && j in AncestorsOrSelf(t, i)
    ensures j < |t.nodes| && t.depth[j] <= t.depth[i]
    ensures j != t.root ==> Parent(t, j) in AncestorsOrSelf(t, i)
    decreases t.depth[i]
  {
    if i != t.root && j != i {
      AncestorsInArena(t, Parent(t, i), j);
    }
  }

  /** Flagging changes exactly the clean nodes on the path from `i` to the
      root, each of them as `MarkedAt` describes, and leaves every other node
      as it was. */
  lemma {:induction false} FlagDirtyExact(t: Tree, f: Flags, i: nat, j: nat)
    requires Valid(t) && Sized(f, |t.nodes|) && Closed(t, f)
    requires i < |t.nodes| && j < |t.nodes|
    ensures var g := FlagDirty(t, f, i);
      if !f.dirty[j] && j in AncestorsOrSelf(t, i) then MarkedAt(f, g, j) else SameAt(f, g, j)
    decreases t.depth[i]
  {
    var g := FlagDirty(t, f, i);
    if f.dirty[i] {
      if j in AncestorsOrSelf(t, i) { DirtyPathToRoot(t, f, i, j); }
    } else if i == t.root {
      assert AncestorsOrSelf(t, i) == {i};
    } else {
      var p := Parent(t, i);
      var f1 := FlagDirty(t, f, p);
      assert g == Mark(f1, i);
      assert AncestorsOrSelf(t, i) == {i} + AncestorsOrSelf(t, p);
      if j == i {
        if i in AncestorsOrSelf(t, p) { AncestorsInArena(t, p, i); }
        FlagDirtyExact(t, f, p, i);
      } else {
        FlagDirtyExact(t, f, p, j);
      }
    }
  }

  /** After flagging, a node is dirty exactly when it was dirty before or lies
      on the path from `i` to the root. */
  lemma FlagDirtyMarksPath(t: Tree, f: Flags, i: nat, j: nat)
    requires Valid(t) && Sized(f, |t.nodes|) && Closed(t, f)
    requires i < |t.nodes| && j < |t.nodes|
    ensures FlagDirty(t, f, i).dirty[j] <==> f.dirty[j] || j in AncestorsOrSelf(t, i)
  {
    FlagDirtyExact(t, f, i, j);
  }

  /** Flagging keeps the cache invariant. */
  lemma FlagDirtyKeepsClosed(t: Tree, f: Flags, i: nat)
    requires Valid(t) && Sized(f, |t.nodes|) && Closed(t, f) && i < |t.nodes|
    ensures Closed(t, FlagDirty(t, f, i))
  {
    var g := FlagDirty(t, f, i);
    forall j | 0 <= j < |t.nodes| && j != t.root && g.dirty[j]
      ensures g.dirty[Parent(t, j)]
    {
      var p := Parent(t, j);
      FlagDirtyMarksPath(t, f, i, j);
      FlagDirtyMarksPath(t, f, i, p);
      if j in AncestorsOrSelf(t, i) { AncestorsInArena(t, i, j); }
    }
  }

  /** Flagging a node that is already dirty changes nothing; in particular
      flagging twice is flagging once. */
  lemma FlagDirtyIdempotent(t: Tree, f: Flags, i: nat)
    requires Valid(t) && Sized(f, |t.nodes|) && i < |t.nodes|
    ensures FlagDirty(t, FlagDirty(t, f, i), i) == FlagDirty(t, f, i)
  {
  }

  /** A buffer is swapped only on a node that was not latched, and that node
      is latched afterwards; latches are never cleared by flagging. */
  lemma {:induction false} FlagDirtySwapsOnce(t: Tree, f: Flags, i: nat, j: nat)
    requires Valid(t) && Sized(f, |t.nodes|) && i < |t.nodes| && j < |t.nodes|
    ensures var g := FlagDirty(t, f, i);
      && (f.changed[j] ==> g.changed[j] && g.active[j] == f.active[j])
      && (g.active[j] != f.active[j] ==> !f.changed[j] && g.changed[j])
      && (f.dirty[j] ==> g.dirty[j])
    decreases t.depth[i]
  {
    if !f.dirty[i] {
      var f1 := if i == t.root then f else FlagDirty(t, f, Parent(t, i));
      if i != t.root {
        FlagDirtySwapsOnce(t, f, Parent(t, i), j);
      }
      assert FlagDirty(t, f, i) == Mark(f1, i);
      var g := Mark(f1, i);
      if j != i {
        assert g.dirty[j] == f1.dirty[j] && g.changed[j] == f1.changed[j] && g.active[j] == f1.active[j];
      } else if f1.changed[i] {
        assert g.changed[i] && g.active[i] == f1.active[i];
      } else {
        assert !f.changed[i] && g.changed[i];
      }
    }
  }

  /** Flagging keeps the active buffers in step with the latches. */
  lemma {:induction false} FlagDirtyTracks(t: Tree, base: seq<Slot>, f: Flags, i: nat)
    requires Valid(t) && Sized(f, |t.nodes|) && i < |t.nodes| && Tracks(base, f)
    ensures Tracks(base, FlagDirty(t, f, i))
    decreases t.depth[i]
  {
    if !f.dirty[i] {
      var f1 := if i == t.root then f else FlagDirty(t, f, Parent(t, i));
      if i != t.root { FlagDirtyTracks(t, base, f, Parent(t, i)); }
      var g := Mark(f1, i);
      forall j | 0 <= j < |base|
        ensures g.active[j] == (if g.changed[j] then Flip(base[j]) else base[j])
      {
        if j == i && !f1.changed[i] {
          assert f1.active[i] == base[i];
        }
      }
    }
  }

  // ---------------------------------------------------------------------
  // Touch, keep and restore

  lemma TouchAllEffect(f: Flags, j: nat)
    requires |f.changed| == |f.active| && j < |f.dirty| && j < |f.active|
    ensures MarkedAt(f, TouchAll(f), j)
  {
  }

  lemma TouchAllTracks(base: seq<Slot>, f: Flags)
    requires Tracks(base, f)
    ensures Tracks(base, TouchAll(f))
  {
    var g := TouchAll(f);
    forall j | 0 <= j < |base|
      ensures g.active[j] == (if g.changed[j] then Flip(base[j]) else base[j])
    {
      if !f.changed[j] { assert f.active[j] == base[j]; }
    }
  }

  lemma TouchAllClosed(t: Tree, f: Flags)
    requires Valid(t) && Sized(f, |t.nodes|)
    ensures Sized(TouchAll(f), |t.nodes|) && Closed(t, TouchAll(f))
  {
  }

  /** Keeping accepts the proposal: the active buffers stay and become the new
      base, and no node is dirty or latched. */
  lemma KeepStartsProposal(f: Flags)
    requires |f.changed| == |f.active|
    ensures Keep(f).active == f.active && Tracks(f.active, Keep(f))
    ensures forall j :: 0 <= j < |f.dirty| ==> !Keep(f).dirty[j]
    ensures forall j :: 0 <= j < |f.changed| ==> !Keep(f).changed[j]
  {
  }

  lemma {:induction false} FlipFlip(s: Slot)
    ensures Flip(Flip(s)) == s
  {
  }

  /** Restoring rejects the proposal: every buffer returns to the base, no
      node is left dirty or latched. */
  lemma RestoreUndoes(base: seq<Slot>, f: Flags)
    requires Tracks(base, f)
    ensures Restore(f).active == base
    ensures forall j :: 0 <= j < |f.dirty| ==> !Restore(f).dirty[j]
    ensures forall j :: 0 <= j < |f.changed| ==> !Restore(f).changed[j]
  {
    var g := Restore(f);
    forall j | 0 <= j < |base| ensures g.active[j] == base[j]
    {
      if f.changed[j] { FlipFlip(base[j]); }
    }
  }

  /** Every dirty node is latched: flagging sets both, keep and restore
      clear both, and only the recomputation clears a dirty flag alone. */
  predicate Latched(f: Flags)
  {
    forall j :: 0 <= j < |f.dirty| && j < |f.changed| && f.dirty[j] ==> f.changed[j]
  }

  /** Flagging keeps every dirty node latched. */
  lemma FlagDirtyLatches(t: Tree, f: Flags, i: nat)
    requires Valid(t) && Sized(f, |t.nodes|) && Closed(t, f) && Latched(f) && i < |t.nodes|
    ensures Latched(FlagDirty(t, f, i))
  {
    var g := FlagDirty(t, f, i);
    forall j | 0 <= j < |g.dirty| && g.dirty[j] ensures g.changed[j] {
      FlagDirtyExact(t, f, i, j);
    }
  }

  /** A restore right after a node is flagged leaves what the restore alone
      would: it swaps back exactly the buffers the flagging swapped. */
  lemma RestoreAbsorbsFlag(t: Tree, f: Flags, i: nat)
    requires Valid(t) && Sized(f, |t.nodes|) && Closed(t, f) && i < |t.nodes|
    ensures Restore(FlagDirty(t, f, i)) == Restore(f)
  {
    var g := FlagDirty(t, f, i);
    var r, r2 := Restore(g), Restore(f);
    forall j | 0 <= j < |t.nodes| ensures r.active[j] == r2.active[j] {
      FlagDirtyExact(t, f, i, j);
      FlipFlip(f.active[j]);
    }
  }

  /** A touch right after a node is flagged leaves what the touch alone
      would. */
  lemma TouchAbsorbsFlag(t: Tree, f: Flags, i: nat)
    requires Valid(t) && Sized(f, |t.nodes|) && Closed(t, f) && i < |t.nodes|
    ensures TouchAll(FlagDirty(t, f, i)) == TouchAll(f)
  {
    var g := FlagDirty(t, f, i);
    var r, r2 := TouchAll(g), TouchAll(f);
    forall j | 0 <= j < |t.nodes| ensures r.active[j] == r2.active[j] {
      FlagDirtyExact(t, f, i, j);
    }
  }

  // ---------------------------------------------------------------------
  // A whole proposal

  /** What can happen to the engine between a keep or restore and the next:
      the tree reports a changed node, or another parameter touches it. */
  datatype Event = TreeChange(node: nat) | ParameterTouch

  predicate EventsFit(t: Tree, events: seq<Event>)
  {
    forall e :: e in events && e.TreeChange? ==> e.node < |t.nodes|
  }

  function Step(t: Tree, f: Flags, e: Event): (g: Flags)
    requires Valid(t) && Sized(f, |t.nodes|)
    requires e.TreeChange? ==> e.node < |t.nodes|
    ensures Sized(g, |t.nodes|)
  {
    match e
    case TreeChange(n) => FlagDirty(t, f, n)
    case ParameterTouch => TouchAll(f)
  }

  function Run(t: Tree, f: Flags, events: seq<Event>): (g: Flags)
    requires Valid(t) && Sized(f, |t.nodes|) && EventsFit(t, events)
    ensures Sized(g, |t.nodes|)
    decreases |events|
  {
    if |events| == 0 then f
    else Run(t, Step(t, f, events[0]), events[1..])
  }

  /** Over any proposal every buffer is swapped at most once relative to the
      base, exactly on the latched nodes, and the cache invariant holds
      throughout. */
  lemma {:induction false} RunTracks(t: Tree, base: seq<Slot>, f: Flags, events: seq<Event>)
    requires Valid(t) && Sized(f, |t.nodes|) && EventsFit(t, events)
    requires Tracks(base, f) && Closed(t, f)
    ensures Tracks(base, Run(t, f, events)) && Closed(t, Run(t, f, events))
    decreases |events|
  {
    if |events| > 0 {
      var e := events[0];
      assert e in events;
      match e {
        case TreeChange(n) =>
          FlagDirtyTracks(t, base, f, n);
          FlagDirtyKeepsClosed(t, f, n);
        case ParameterTouch =>
          TouchAllTracks(base, f);
          TouchAllClosed(t, f);
      }
      assert forall x :: x in events[1..] ==> x in events;
      RunTracks(t, base, Step(t, f, e), events[1..]);
    }
  }

  /** Restore is an exact undo: after a keep, any sequence of tree changes
      and touches followed by a restore gives back the flags the keep left. */
  lemma ProposalRollback(t: Tree, f: Flags, events: seq<Event>)
    requires Valid(t) && Sized(f, |t.nodes|) && EventsFit(t, events)
    ensures Restore(Run(t, Keep(f), events)) == Keep(f)
  {
    var k := Keep(f);
    assert Tracks(k.active, k);
    RunTracks(t, k.active, k, events);
    var g := Run(t, k, events);
    RestoreUndoes(k.active, g);
  }

  // ---------------------------------------------------------------------
  // Clean subtrees

  /** The dirty flags once i's whole subtree is clean. */
  function ClearSubtree(t: Tree, d: seq<bool>, i: nat): (d2: seq<bool>)
    requires Valid(t) && i < |t.nodes|
    ensures |d2| == |d|
  {
    seq(|d|, j requires 0 <= j < |d| => d[j] && j !in Subtree(t, i))
  }

  /** Under the cache invariant a clean node has a clean subtree: this is why
      the recomputation may stop at the first clean node. */
  lemma {:induction false} CleanTopCleanBelow(t: Tree, f: Flags, i: nat, j: nat)
    requires Valid(t) && Sized(f, |t.nodes|) && i < |t.nodes| && ClosedBelow(t, f, i)
    requires !f.dirty[i] && j in Subtree(t, i)
    ensures j < |t.nodes| && !f.dirty[j]
    decreases if j < |t.depth| then t.depth[j] else 0
  {
    SubtreeBelow(t, i, j);
    if j != i {
      var p := Parent(t, j);
      CleanTopCleanBelow(t, f, i, p);
      assert DirtyUp(t, f, j);
    }
  }

  lemma ClosedEverywhereBelow(t: Tree, f: Flags, i: nat)
    requires Valid(t) && Sized(f, |t.nodes|) && i < |t.nodes| && Closed(t, f)
    ensures ClosedBelow(t, f, i)
  {
  }

  /** Closure of a subtree depends only on the flags inside it. */
  lemma ClosedBelowInside(t: Tree, f: Flags, f2: Flags, i: nat, c: nat)
    requires Valid(t) && Sized(f, |t.nodes|) && Sized(f2, |t.nodes|)
    requires i < |t.nodes| && !IsTip(t, i) && (c == Left(t, i) || c == Right(t, i))
    requires forall j :: j in Subtree(t, c) ==> j < |t.nodes| && f2.dirty[j] == f.dirty[j]
    requires ClosedBelow(t, f, i)
    ensures ClosedBelow(t, f2, c)
  {
    ChildrenSubtreesInside(t, i);
    NotBelowChild(t, i, c);
    forall j | j in Subtree(t, c) && j != c ensures DirtyUp(t, f2, j) {
      SubtreeBelow(t, c, j);
      assert DirtyUp(t, f, j);
    }
  }

  /** Under the cache invariant a clean root means a clean tree. */
  lemma CleanRootCleanTree(t: Tree, f: Flags)
    requires Valid(t) && Sized(f, |t.nodes|) && Closed(t, f) && !f.dirty[t.root]
    ensures forall j :: 0 <= j < |f.dirty| ==> !f.dirty[j]
  {
    forall j | 0 <= j < |f.dirty| ensures !f.dirty[j] {
      RootSubtreeIsEverything(t, j);
      ClosedEverywhereBelow(t, f, t.root);
      CleanTopCleanBelow(t, f, t.root, j);
    }
  }

  /** The flag-clearing loop of keep and of restore: n nodes, none flagged. */
  method AllClear(n: nat) returns (r: seq<bool>)
    ensures r == seq(n, _ => false)
  {
    r := [];
    while |r| < n
      invariant |r| <= n && forall j :: 0 <= j < |r| ==> !r[j]
    {
      r := r + [false];
    }
  }
}
