/**
 * The per-node vectors of the state-dependent speciation-extinction process.
 * A vector has 2 * ns entries for ns character states: entries 0 .. ns-1 are
 * extinction probabilities E, entries ns .. 2ns-1 the probabilities D of the
 * observed lineage. This module holds the loops of computeNodeProbability,
 * computeRootLikelihood, numericallyIntegrateProcess and
 * calculateTotalSpeciationRatePerState, each proved against a function, and
 * the properties of those functions.
 */
module SseVectors {

  /** One entry of the cladogenetic event map: a lineage in state `ancestor`
      splits into daughters in states `left` and `right` at rate `rate`. The
      map is kept as a sequence in the map's key order. */
  datatype CladoEvent = CladoEvent(ancestor: nat, left: nat, right: nat, rate: real)

  predicate EventsFit(events: seq<CladoEvent>, ns: nat)
  {
    forall k :: 0 <= k < |events| ==> events[k].ancestor < ns && events[k].left < ns && events[k].right < ns
  }

  /** Σ over the events with ancestor state a of rate · L[ns + left] · R[ns + right]. */
  function CladoSum(events: seq<CladoEvent>, a: nat, L: seq<real>, R: seq<real>, ns: nat): real
    requires EventsFit(events, ns) && |L| == 2 * ns && |R| == 2 * ns
  {
    if |events| == 0 then 0.0
    else
      var n := |events| - 1;
      var e := events[n];
      CladoSum(events[..n], a, L, R, ns) + (if e.ancestor == a then e.rate * (L[ns + e.left] * R[ns + e.right]) else 0.0)
  }

  /** Σ of the rates of the events with ancestor state a. */
  function TotalRate(events: seq<CladoEvent>, a: nat): real
  {
    if |events| == 0 then 0.0
    else
      var n := |events| - 1;
      TotalRate(events[..n], a) + (if events[n].ancestor == a then events[n].rate else 0.0)
  }

  /** The total speciation rate of every state: the event-map rates leaving
      it with cladogenesis, its speciation rate without. */
  function TotalSpeciationRates(useClado: bool, events: seq<CladoEvent>, lambda: seq<real>, ns: nat): (r: seq<real>)
    requires !useClado ==> |lambda| == ns
    ensures |r| == ns
  {
    seq(ns, a requires 0 <= a < ns => if useClado then TotalRate(events, a) else lambda[a])
  }

  /** The speciation entry i of a merged vector. With cladogenesis at a
      speciation node, the event sum; otherwise the product of the children's
      entries, times the speciation rate at a speciation node. */
  function MergedEntry(L: seq<real>, R: seq<real>, ns: nat, useClado: bool, events: seq<CladoEvent>,
                       lambda: seq<real>, speciationNode: bool, i: nat): real
    requires |L| == 2 * ns && |R| == 2 * ns && EventsFit(events, ns) && i < ns
    requires speciationNode && !useClado ==> |lambda| == ns
  {
    if useClado && speciationNode then CladoSum(events, i, L, R, ns)
    else L[ns + i] * R[ns + i] * (if speciationNode then lambda[i] else 1.0)
  }

  /** Merging two children's vectors: the extinction part is the left
      child's, the speciation part is MergedEntry. */
  function Merge(L: seq<real>, R: seq<real>, ns: nat, useClado: bool, events: seq<CladoEvent>,
                 lambda: seq<real>, speciationNode: bool): (v: seq<real>)
    requires |L| == 2 * ns && |R| == 2 * ns && EventsFit(events, ns)
    requires speciationNode && !useClado ==> |lambda| == ns
    ensures |v| == 2 * ns
  {
    seq(2 * ns, k requires 0 <= k < 2 * ns =>
      if k < ns then L[k] else MergedEntry(L, R, ns, useClado, events, lambda, speciationNode, k - ns))
  }

  /** A tip's vector: extinction probabilities as given; the sampling
      probability of every state compatible with the observation, 0 for the
      others. A gap or missing character is compatible with every state. */
  function TipVector(ns: nat, sampling: seq<real>, extinction: seq<real>, observed: seq<bool>, gap: bool): (v: seq<real>)
    requires |sampling| >= ns && |extinction| >= ns && |observed| == ns
    ensures |v| == 2 * ns
  {
    seq(2 * ns, k requires 0 <= k < 2 * ns =>
      if k < ns then extinction[k] else if observed[k - ns] || gap then sampling[k - ns] else 0.0)
  }

  /** Negative entries, which only rounding in the integrator produces,
      replaced by 0. */
  function Clamp(v: seq<real>): (w: seq<real>)
    ensures |w| == |v|
  {
    seq(|v|, k requires 0 <= k < |v| => if v[k] < 0.0 then 0.0 else v[k])
  }

  /** The largest of 0 and the first k speciation entries. */
  function MaxPrefix(v: seq<real>, ns: nat, k: nat): real
    requires |v| == 2 * ns && k <= ns
  {
    if k == 0 then 0.0
    else
      var m := MaxPrefix(v, ns, k - 1);
      if v[ns + k - 1] > m then v[ns + k - 1] else m
  }

  function MaxSpeciation(v: seq<real>, ns: nat): real
    requires |v| == 2 * ns
  {
    MaxPrefix(v, ns, ns)
  }

  /** The rescaling divisor: the largest speciation entry times ns. */
  function Divisor(v: seq<real>, ns: nat): real
    requires |v| == 2 * ns
  {
    MaxSpeciation(v, ns) * (ns as real)
  }

  /** The vector after rescaling: speciation entries divided by the divisor.
      A zero divisor leaves the vector as it is. */
  function Rescaled(v: seq<real>, ns: nat): (w: seq<real>)
    requires |v| == 2 * ns
    ensures |w| == 2 * ns
  {
    var m := Divisor(v, ns);
    if m == 0.0 then v
    else seq(2 * ns, k requires 0 <= k < 2 * ns => if k < ns then v[k] else v[k] / m)
  }

  /** Σ_i freqs[i] · v[ns + i]: the probability of the data at the root. */
  function RootProbability(freqs: seq<real>, v: seq<real>, ns: nat, k: nat): real
    requires |freqs| == ns && |v| == 2 * ns && k <= ns
  {
    if k == 0 then 0.0 else RootProbability(freqs, v, ns, k - 1) + freqs[k - 1] * v[ns + k - 1]
  }

  // ---------------------------------------------------------------------
  // The loops

  /** The event loop of the merge for one state i. */
  method SumEvents(events: seq<CladoEvent>, i: nat, L: seq<real>, R: seq<real>, ns: nat) returns (likeSum: real)
    requires EventsFit(events, ns) && |L| == 2 * ns && |R| == 2 * ns
    ensures likeSum == CladoSum(events, i, L, R, ns)
  {
    likeSum := 0.0;
    for k := 0 to |events|
      invariant likeSum == CladoSum(events[..k], i, L, R, ns)
    {
      assert events[..k + 1][..k] == events[..k];
      var e := events[k];
      if i == e.ancestor {
        var likelihoods := L[ns + e.left] * R[ns + e.right];
        likeSum := likeSum + e.rate * likelihoods;
      }
    }
    assert events[..|events|] == events;
  }

  /** The merge loop of computeNodeProbability and computeRootLikelihood:
      overwrite the node's vector `buf` with its children's merge. */
  method MergeDescendants(buf: seq<real>, L: seq<real>, R: seq<real>, ns: nat, useClado: bool,
                          events: seq<CladoEvent>, lambda: seq<real>, speciationNode: bool) returns (v: seq<real>)
    requires |buf| == 2 * ns && |L| == 2 * ns && |R| == 2 * ns && EventsFit(events, ns)
    requires speciationNode && !useClado ==> |lambda| == ns
    ensures v == Merge(L, R, ns, useClado, events, lambda, speciationNode)
  {
    v := buf;
    for i := 0 to ns
      invariant |v| == 2 * ns
      invariant forall k :: 0 <= k < i ==> v[k] == L[k]
      invariant forall k :: 0 <= k < i ==> v[ns + k] == MergedEntry(L, R, ns, useClado, events, lambda, speciationNode, k)
    {
      v := v[i := L[i]];
      if useClado && speciationNode {
        var likeSum := SumEvents(events, i, L, R, ns);
        v := v[ns + i := likeSum];
      } else {
        v := v[ns + i := L[ns + i] * R[ns + i]];
        v := v[ns + i := v[ns + i] * (if speciationNode then lambda[i] else 1.0)];
      }
    }
    ghost var want := Merge(L, R, ns, useClado, events, lambda, speciationNode);
    forall k | 0 <= k < 2 * ns ensures v[k] == want[k] {
      if k >= ns { assert v[ns + (k - ns)] == want[k]; }
    }
  }

  /** The tip loop of computeNodeProbability. */
  method TipLikelihood(buf: seq<real>, ns: nat, sampling: seq<real>, extinction: seq<real>,
                       observed: seq<bool>, gap: bool) returns (v: seq<real>)
    requires |buf| == 2 * ns && |sampling| >= ns && |extinction| >= ns && |observed| == ns
    ensures v == TipVector(ns, sampling, extinction, observed, gap)
  {
    v := buf;
    for j := 0 to ns
      invariant |v| == 2 * ns
      invariant forall k :: 0 <= k < j ==> v[k] == extinction[k]
      invariant forall k :: 0 <= k < j ==> v[ns + k] == if observed[k] || gap then sampling[k] else 0.0
    {
      v := v[j := extinction[j]];
      if observed[j] || gap {
        v := v[ns + j := sampling[j]];
      } else {
        v := v[ns + j := 0.0];
      }
    }
    ghost var want := TipVector(ns, sampling, extinction, observed, gap);
    forall k | 0 <= k < 2 * ns ensures v[k] == want[k] {
      if k >= ns { assert v[ns + (k - ns)] == want[k]; }
    }
  }

  /** The clamping loop at the end of numericallyIntegrateProcess. */
  method ClampNegatives(likelihoods: seq<real>) returns (v: seq<real>)
    ensures v == Clamp(likelihoods)
    ensures forall k :: 0 <= k < |v| ==> v[k] >= 0.0
  {
    v := likelihoods;
    for i := 0 to |v|
      invariant |v| == |likelihoods|
      invariant forall k :: 0 <= k < i ==> v[k] == Clamp(likelihoods)[k]
      invariant forall k :: i <= k < |v| ==> v[k] == likelihoods[k]
    {
      v := v[i := if v[i] < 0.0 then 0.0 else v[i]];
    }
  }

  /** The search for the largest speciation entry, starting from 0. */
  method FindMaxSpeciation(likelihoods: seq<real>, ns: nat) returns (max: real)
    requires |likelihoods| == 2 * ns
    ensures max == MaxSpeciation(likelihoods, ns)
  {
    max := 0.0;
    for i := 0 to ns
      invariant max == MaxPrefix(likelihoods, ns, i)
    {
      if likelihoods[ns + i] > max {
        max := likelihoods[ns + i];
      }
    }
  }

  /** Divide the speciation entries by a non-zero divisor. */
  method DivideSpeciation(likelihoods: seq<real>, ns: nat, max: real) returns (v: seq<real>)
    requires |likelihoods| == 2 * ns && max != 0.0
    ensures |v| == 2 * ns
    ensures forall k :: 0 <= k < ns ==> v[k] == likelihoods[k]
    ensures forall k :: ns <= k < 2 * ns ==> v[k] == likelihoods[k] / max
  {
    v := likelihoods;
    for i := 0 to ns
      invariant |v| == 2 * ns
      invariant forall k :: 0 <= k < ns ==> v[k] == likelihoods[k]
      invariant forall k :: ns <= k < ns + i ==> v[k] == likelihoods[k] / max
      invariant forall k :: ns + i <= k < 2 * ns ==> v[k] == likelihoods[k]
    {
      v := v[ns + i := v[ns + i] / max];
    }
  }

  lemma DividedIsRescaled(likelihoods: seq<real>, ns: nat, v: seq<real>)
    requires |likelihoods| == 2 * ns && |v| == 2 * ns && Divisor(likelihoods, ns) != 0.0
    requires forall k :: 0 <= k < ns ==> v[k] == likelihoods[k]
    requires forall k :: ns <= k < 2 * ns ==> v[k] == likelihoods[k] / Divisor(likelihoods, ns)
    ensures v == Rescaled(likelihoods, ns)
  {
    var w := Rescaled(likelihoods, ns);
    forall k | 0 <= k < 2 * ns ensures v[k] == w[k] {
    }
  }

  /** The rescaling step of computeNodeProbability: find the largest
      speciation entry, multiply it by ns, divide the speciation entries by
      it and record its logarithm. */
  method RescaleSpeciation(likelihoods: seq<real>, ns: nat, ln: real -> real) returns (v: seq<real>, scale: real)
    requires |likelihoods| == 2 * ns
    ensures v == Rescaled(likelihoods, ns)
    ensures scale == ln(Divisor(likelihoods, ns))
  {
    var max := FindMaxSpeciation(likelihoods, ns);
    max := max * (ns as real);
    assert max == Divisor(likelihoods, ns);
    v := likelihoods;
    if max != 0.0 {
      v := DivideSpeciation(likelihoods, ns, max);
      DividedIsRescaled(likelihoods, ns, v);
    }
    scale := ln(max);
  }

  /** The summing loop at the end of computeRootLikelihood. */
  method SumRootProbability(freqs: seq<real>, v: seq<real>, ns: nat) returns (prob: real)
    requires |freqs| == ns && |v| == 2 * ns
    ensures prob == RootProbability(freqs, v, ns, ns)
  {
    prob := 0.0;
    for i := 0 to ns
      invariant prob == RootProbability(freqs, v, ns, i)
    {
      prob := prob + freqs[i] * v[ns + i];
    }
  }

  /** calculateTotalSpeciationRatePerState: accumulate every event's rate on
      its ancestor state, or copy the speciation rates. */
  method CalculateTotalSpeciationRatePerState(useClado: bool, events: seq<CladoEvent>, lambda: seq<real>, ns: nat)
    returns (totalRates: seq<real>)
    requires !useClado ==> |lambda| == ns
    requires useClado ==> EventsFit(events, ns)
    ensures totalRates == TotalSpeciationRates(useClado, events, lambda, ns)
  {
    totalRates := seq(ns, _ => 0.0);
    if useClado {
      for k := 0 to |events|
        invariant |totalRates| == ns
        invariant forall a :: 0 <= a < ns ==> totalRates[a] == TotalRate(events[..k], a)
      {
        assert events[..k + 1][..k] == events[..k];
        var a := events[k].ancestor;
        totalRates := totalRates[a := totalRates[a] + events[k].rate];
      }
      assert events[..|events|] == events;
    } else {
      for i := 0 to ns
        invariant |totalRates| == ns
        invariant forall a :: 0 <= a < i ==> totalRates[a] == lambda[a]
        invariant forall a :: i <= a < ns ==> totalRates[a] == 0.0
      {
        totalRates := totalRates[i := totalRates[i] + lambda[i]];
      }
    }
  }

  // ---------------------------------------------------------------------
  // Properties

  /** The event map whose only events keep the ancestor's state in both
      daughters, at the state's speciation rate. */
  function DiagonalEvents(lambda: seq<real>, k: nat): (e: seq<CladoEvent>)
    requires k <= |lambda|
    ensures |e| == k && EventsFit(e, |lambda|)
    ensures forall j :: 0 <= j < k ==> e[j] == CladoEvent(j, j, j, lambda[j])
  {
    seq(k, j requires 0 <= j < k => CladoEvent(j, j, j, lambda[j]))
  }

  lemma {:induction false} DiagonalSum(lambda: seq<real>, k: nat, a: nat, L: seq<real>, R: seq<real>)
    requires k <= |lambda| && a < |lambda| && |L| == 2 * |lambda| && |R| == 2 * |lambda|
    ensures CladoSum(DiagonalEvents(lambda, k), a, L, R, |lambda|)
         == if a < k then lambda[a] * (L[|lambda| + a] * R[|lambda| + a]) else 0.0
    ensures TotalRate(DiagonalEvents(lambda, k), a) == if a < k then lambda[a] else 0.0
  {
    if k > 0 {
      assert DiagonalEvents(lambda, k)[..k - 1] == DiagonalEvents(lambda, k - 1);
      DiagonalSum(lambda, k - 1, a, L, R);
    }
  }

  /** Cladogenesis generalises anagenetic speciation: with the event map
      that keeps the state in both daughters at the speciation rate, the
      cladogenetic merge equals the merge by speciation rates, and the total
      speciation rates are the speciation rates. */
  lemma DiagonalEventsAgree(L: seq<real>, R: seq<real>, lambda: seq<real>)
    requires |L| == 2 * |lambda| && |R| == 2 * |lambda|
    ensures Merge(L, R, |lambda|, true, DiagonalEvents(lambda, |lambda|), lambda, true)
         == Merge(L, R, |lambda|, false, [], lambda, true)
    ensures TotalSpeciationRates(true, DiagonalEvents(lambda, |lambda|), lambda, |lambda|) == lambda
  {
    var ns := |lambda|;
    var events := DiagonalEvents(lambda, ns);
    forall a | 0 <= a < ns
      ensures CladoSum(events, a, L, R, ns) == L[ns + a] * R[ns + a] * lambda[a]
      ensures TotalRate(events, a) == lambda[a]
    {
      DiagonalSum(lambda, ns, a, L, R);
    }
    var m1 := Merge(L, R, ns, true, events, lambda, true);
    var m2 := Merge(L, R, ns, false, [], lambda, true);
    forall k | 0 <= k < 2 * ns ensures m1[k] == m2[k] {
      if k >= ns {
        assert m1[k] == MergedEntry(L, R, ns, true, events, lambda, true, k - ns);
        assert m2[k] == MergedEntry(L, R, ns, false, [], lambda, true, k - ns);
      }
    }
  }

  /** Every event's contribution is its rate times a product of two child
      entries; with child entries in [0, 1] and non-negative rates the event
      sum lies between 0 and the state's total speciation rate. */
  lemma {:induction false} CladoSumBounded(events: seq<CladoEvent>, a: nat, L: seq<real>, R: seq<real>, ns: nat)
    requires EventsFit(events, ns) && |L| == 2 * ns && |R| == 2 * ns
    requires forall k :: 0 <= k < |events| ==> events[k].rate >= 0.0
    requires forall k :: ns <= k < 2 * ns ==> 0.0 <= L[k] <= 1.0 && 0.0 <= R[k] <= 1.0
    ensures 0.0 <= CladoSum(events, a, L, R, ns) <= TotalRate(events, a)
  {
    if |events| > 0 {
      var n := |events| - 1;
      CladoSumBounded(events[..n], a, L, R, ns);
      LastEventBounded(events, a, L, R, ns);
    }
  }

  /** The last event adds between 0 and its own rate to the event sum, and
      exactly its rate to the total rate. */
  lemma LastEventBounded(events: seq<CladoEvent>, a: nat, L: seq<real>, R: seq<real>, ns: nat)
    requires |events| > 0 && EventsFit(events, ns) && |L| == 2 * ns && |R| == 2 * ns
    requires events[|events| - 1].rate >= 0.0
    requires forall k :: ns <= k < 2 * ns ==> 0.0 <= L[k] <= 1.0 && 0.0 <= R[k] <= 1.0
    ensures var prefix := events[..|events| - 1];
      0.0 <= CladoSum(events, a, L, R, ns) - CladoSum(prefix, a, L, R, ns)
          <= TotalRate(events, a) - TotalRate(prefix, a)
  {
    var prefix := events[..|events| - 1];
    var e := events[|events| - 1];
    if e.ancestor == a {
      var r, x, y := e.rate, L[ns + e.left], R[ns + e.right];
      EventBounded(r, x, y);
      assert CladoSum(events, a, L, R, ns) - CladoSum(prefix, a, L, R, ns) == r * (x * y);
      assert TotalRate(events, a) - TotalRate(prefix, a) == r;
    } else {
      assert CladoSum(events, a, L, R, ns) == CladoSum(prefix, a, L, R, ns);
      assert TotalRate(events, a) == TotalRate(prefix, a);
    }
  }

  /** One event contributes between 0 and its rate. */
  lemma EventBounded(r: real, x: real, y: real)
    requires r >= 0.0 && 0.0 <= x <= 1.0 && 0.0 <= y <= 1.0
    ensures 0.0 <= r * (x * y) <= r
  {
    ProductInUnit(x, y);
    ScaleBelow(r, x * y);
  }

  lemma ProductInUnit(x: real, y: real)
    requires 0.0 <= x <= 1.0 && 0.0 <= y <= 1.0
    ensures 0.0 <= x * y <= 1.0
  {
    assert 0.0 <= x * y;
    assert x * y <= x;
  }

  lemma ScaleBelow(r: real, p: real)
    requires r >= 0.0 && 0.0 <= p <= 1.0
    ensures 0.0 <= r * p <= r
  {
    assert 0.0 <= r * p;
    assert r - r * p == r * (1.0 - p);
    assert 0.0 <= r * (1.0 - p);
  }

  /** Clamping keeps every entry that was not negative, makes every entry
      non-negative, and clamping twice is clamping once. */
  lemma ClampProjects(v: seq<real>)
    ensures forall k :: 0 <= k < |v| ==> Clamp(v)[k] >= 0.0
    ensures forall k :: 0 <= k < |v| && v[k] >= 0.0 ==> Clamp(v)[k] == v[k]
    ensures Clamp(Clamp(v)) == Clamp(v)
  {
  }

  /** A gap is the observation of every state. */
  lemma GapIsFullObservation(ns: nat, sampling: seq<real>, extinction: seq<real>, observed: seq<bool>)
    requires |sampling| >= ns && |extinction| >= ns && |observed| == ns
    ensures TipVector(ns, sampling, extinction, observed, true)
         == TipVector(ns, sampling, extinction, seq(ns, _ => true), false)
  {
  }

  /** The observation of state k alone. */
  function SingleState(ns: nat, k: nat): (o: seq<bool>)
    ensures |o| == ns
  {
    seq(ns, j => j == k)
  }

  /** Σ over the single-state observations k < n of a tip's speciation entry j. */
  function SumOfSingles(ns: nat, sampling: seq<real>, extinction: seq<real>, j: nat, n: nat): real
    requires |sampling| >= ns && |extinction| >= ns && j < ns
  {
    if n == 0 then 0.0
    else SumOfSingles(ns, sampling, extinction, j, n - 1) + TipVector(ns, sampling, extinction, SingleState(ns, n - 1), false)[ns + j]
  }

  lemma {:induction false} SumOfSinglesPrefix(ns: nat, sampling: seq<real>, extinction: seq<real>, j: nat, n: nat)
    requires |sampling| >= ns && |extinction| >= ns && j < ns
    ensures SumOfSingles(ns, sampling, extinction, j, n) == if j < n then sampling[j] else 0.0
  {
    if n > 0 {
      SumOfSinglesPrefix(ns, sampling, extinction, j, n - 1);
    }
  }

  /** A fully ambiguous tip's speciation entries are the sums, over all
      states, of the entries of the tips that observe that state alone. */
  lemma AmbiguousTipIsSumOfSingles(ns: nat, sampling: seq<real>, extinction: seq<real>, j: nat)
    requires |sampling| >= ns && |extinction| >= ns && j < ns
    ensures TipVector(ns, sampling, extinction, seq(ns, _ => true), false)[ns + j]
         == SumOfSingles(ns, sampling, extinction, j, ns)
  {
    SumOfSinglesPrefix(ns, sampling, extinction, j, ns);
  }

  /** The running maximum bounds every entry it has seen and is one of them
      or 0. */
  lemma {:induction false} MaxPrefixIsMax(v: seq<real>, ns: nat, k: nat)
    requires |v| == 2 * ns && k <= ns
    ensures MaxPrefix(v, ns, k) >= 0.0
    ensures forall j :: ns <= j < ns + k ==> v[j] <= MaxPrefix(v, ns, k)
    ensures MaxPrefix(v, ns, k) == 0.0 || exists j :: ns <= j < ns + k && v[j] == MaxPrefix(v, ns, k)
  {
    if k > 0 {
      MaxPrefixIsMax(v, ns, k - 1);
      var m := MaxPrefix(v, ns, k - 1);
      var x := v[ns + k - 1];
      assert MaxPrefix(v, ns, k) == if x > m then x else m;
    }
  }

  /** After rescaling with a non-zero divisor every speciation entry is at
      most 1/ns, the largest is exactly 1/ns, the extinction entries are
      untouched, and multiplying back by the divisor recovers the original
      entries: rescaling loses nothing that the recorded factor does not
      restore. */
  lemma RescaledMeaning(v: seq<real>, ns: nat)
    requires |v| == 2 * ns && Divisor(v, ns) != 0.0
    ensures ns > 0 && Divisor(v, ns) > 0.0
    ensures forall k :: 0 <= k < ns ==> Rescaled(v, ns)[k] == v[k]
    ensures forall j :: ns <= j < 2 * ns ==> Rescaled(v, ns)[j] * Divisor(v, ns) == v[j]
    ensures forall j :: ns <= j < 2 * ns ==> Rescaled(v, ns)[j] <= 1.0 / (ns as real)
    ensures exists j :: ns <= j < 2 * ns && Rescaled(v, ns)[j] == 1.0 / (ns as real)
  {
    MaxPrefixIsMax(v, ns, ns);
    PositiveDivisor(MaxSpeciation(v, ns), ns as real);
    forall j | ns <= j < 2 * ns
      ensures Rescaled(v, ns)[j] * Divisor(v, ns) == v[j]
      ensures Rescaled(v, ns)[j] <= 1.0 / (ns as real)
    {
      RescaledEntry(v, ns, j);
    }
    var j :| ns <= j < 2 * ns && v[j] == MaxPrefix(v, ns, ns);
    RescaledEntry(v, ns, j);
  }

  /** One speciation entry after rescaling. */
  lemma RescaledEntry(v: seq<real>, ns: nat, j: nat)
    requires |v| == 2 * ns && Divisor(v, ns) != 0.0 && ns <= j < 2 * ns
    ensures Rescaled(v, ns)[j] * Divisor(v, ns) == v[j]
    ensures Rescaled(v, ns)[j] <= 1.0 / (ns as real)
    ensures v[j] == MaxSpeciation(v, ns) ==> Rescaled(v, ns)[j] == 1.0 / (ns as real)
  {
    MaxPrefixIsMax(v, ns, ns);
    var m, n := MaxSpeciation(v, ns), ns as real;
    PositiveDivisor(m, n);
    var x := v[j];
    assert Rescaled(v, ns)[j] == x / (m * n);
    DivideBelow(x, m, n);
  }

  lemma PositiveDivisor(m: real, n: real)
    requires m >= 0.0 && n >= 0.0 && m * n != 0.0
    ensures m > 0.0 && n > 0.0 && m * n > 0.0
  {
  }

  lemma DivideBelow(x: real, m: real, n: real)
    requires x <= m && m > 0.0 && n > 0.0
    ensures x / (m * n) <= 1.0 / n
    ensures (x / (m * n)) * (m * n) == x
    ensures x == m ==> x / (m * n) == 1.0 / n
  {
    assert x / (m * n) == (x / m) / n;
    assert x / m <= 1.0;
  }
}
