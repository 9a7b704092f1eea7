/**
 * Observed character states as bitmasks: bit k of a tip's state is on when
 * state k is compatible with the observation, so an ambiguous observation
 * has several bits on. The tip likelihood sums transition probabilities over
 * the set bits; simulation turns a one-hot state back into its index.
 */
module StateBits {
  import opened BufferLayout

  function Pow2(k: nat): (r: nat)
    ensures r >= 1
  {
    if k == 0 then 1 else 2 * Pow2(k - 1)
  }

  /** Bit `k` of the state set `v` is on. */
  predicate HasState(v: nat, k: nat)
  {
    (v / Pow2(k)) % 2 == 1
  }

  /** Σ row[k] over the states k of `v`. */
  function MaskedSum(v: nat, row: seq<real>): real
  {
    if |row| == 0 then 0.0
    else
      var n := |row| - 1;
      MaskedSum(v, row[..n]) + (if HasState(v, n) then row[n] else 0.0)
  }

  /** Σ row[k] over all states. */
  function RowSum(row: seq<real>): real
  {
    if |row| == 0 then 0.0 else RowSum(row[..|row| - 1]) + row[|row| - 1]
  }

  // ---------------------------------------------------------------------
  // Arithmetic on powers of two

  lemma {:induction false} Pow2Mono(j: nat, k: nat)
    requires j <= k
    ensures Pow2(j) <= Pow2(k)
    decreases k
  {
    if j < k { Pow2Mono(j, k - 1); }
  }

  lemma {:induction false} Pow2Add(j: nat, k: nat)
    ensures Pow2(j + k) == Pow2(j) * Pow2(k)
    decreases k
  {
    if k > 0 {
      Pow2Add(j, k - 1);
      assert Pow2(j + k) == 2 * Pow2(j + k - 1);
      assert Pow2(j) * Pow2(k) == Pow2(j) * (2 * Pow2(k - 1));
    }
  }

  /** Quotient and remainder are determined by a decomposition
      a == q * d + r with 0 <= r < d. */
  lemma DivUnique(a: int, d: nat, q: int, r: nat)
    requires 0 < d && r < d && a == q * d + r
    ensures a / d == q && a % d == r
  {
    assert a == (a / d) * d + a % d;
    DigitsUnique(a / d, a % d, q, r, d);
  }

  lemma DivDiv(a: nat, b: nat, c: nat)
    requires b > 0 && c > 0
    ensures (a / b) / c == a / (b * c)
  {
    var q, r := a / b, a % b;
    var q2, r2 := q / c, q % c;
    DivParts(a, b, c, q, r, q2, r2);
    DivUnique(a, b * c, q2, r2 * b + r);
  }

  lemma DivParts(a: nat, b: nat, c: nat, q: int, r: nat, q2: int, r2: nat)
    requires b > 0 && c > 0 && r < b && r2 < c
    requires a == q * b + r && q == q2 * c + r2
    ensures a == q2 * (b * c) + (r2 * b + r) && r2 * b + r < b * c
  {
    assert q * b == q2 * c * b + r2 * b;
    assert q2 * c * b == q2 * (b * c);
    MulMono(r2, c - 1, b);
    assert (c - 1) * b == c * b - b;
  }

  /** Shifting right by one more bit. */
  lemma ShiftStep(v: nat, d: nat)
    ensures (v / Pow2(d)) / 2 == v / Pow2(d + 1)
  {
    DivDiv(v, Pow2(d), 2);
    assert Pow2(d + 1) == Pow2(d) * 2;
  }

  /** A state set below 2^d has no state at index d or above. */
  lemma HighStatesOff(v: nat, d: nat, k: nat)
    requires v < Pow2(d) && d <= k
    ensures !HasState(v, k)
  {
    Pow2Mono(d, k);
    DivUnique(v, Pow2(k), 0, v);
  }

  /** Only the states below the prefix length contribute once all higher
      states are off. */
  lemma {:induction false} MaskedSumPrefix(v: nat, row: seq<real>, d: nat)
    requires d <= |row| && v < Pow2(d)
    ensures MaskedSum(v, row[..d]) == MaskedSum(v, row)
    decreases |row|
  {
    if |row| > d {
      var n := |row| - 1;
      HighStatesOff(v, d, n);
      assert row[..n][..d] == row[..d];
      MaskedSumPrefix(v, row[..n], d);
      assert MaskedSum(v, row) == MaskedSum(v, row[..n]);
    } else {
      assert row[..d] == row;
    }
  }

  /** When every state considered is on, the masked sum is the plain sum. */
  lemma {:induction false} AllStatesSum(v: nat, row: seq<real>)
    requires forall k :: 0 <= k < |row| ==> HasState(v, k)
    ensures MaskedSum(v, row) == RowSum(row)
  {
    if |row| > 0 {
      AllStatesSum(v, row[..|row| - 1]);
    }
  }

  /** The mask with all C states on, 2^C - 1, has every state k < C. */
  lemma FullMaskHasAll(numChars: nat, k: nat)
    requires k < numChars
    ensures HasState(Pow2(numChars) - 1, k)
  {
    var m := numChars - k;
    Pow2Add(k, m);
    assert Pow2(numChars) - 1 == (Pow2(m) - 1) * Pow2(k) + (Pow2(k) - 1);
    DivUnique(Pow2(numChars) - 1, Pow2(k), Pow2(m) - 1, Pow2(k) - 1);
    DivUnique(Pow2(m) - 1, 2, Pow2(m - 1) - 1, 1);
  }

  /** A gap, which sums over all states, is the observation of the full
      state set. */
  lemma GapIsFullSet(row: seq<real>)
    ensures MaskedSum(Pow2(|row|) - 1, row) == RowSum(row)
  {
    var full := Pow2(|row|) - 1;
    forall k | 0 <= k < |row| ensures HasState(full, k) {
      FullMaskHasAll(|row|, k);
    }
    AllStatesSum(full, row);
  }

  // ---------------------------------------------------------------------
  // The loops of the tip likelihood

  /** The observed-state loop of computeTipLikelihood: shift the state set
      right one bit at a time and add the transition probability of every
      state whose bit is on. `row` starts at `tp[start]`. */
  method ObservedStateSum(val: nat, tp: seq<real>, start: nat, numChars: nat) returns (tmp: real)
    requires start + numChars <= |tp| && val < Pow2(numChars)
    ensures tmp == MaskedSum(val, tp[start .. start + numChars])
  {
    ghost var row := tp[start .. start + numChars];
    var v := val;
    var d := 0;
    tmp := 0.0;
    while v != 0
      invariant d <= numChars
      invariant v == val / Pow2(d)
      invariant tmp == MaskedSum(val, row[..d])
      decreases v
    {
      if d == numChars {
        Pow2Mono(numChars, d);
        DivUnique(val, Pow2(d), 0, val);
        assert false;
      }
      assert row[..d + 1][..d] == row[..d];
      if v % 2 == 1 {
        tmp := tmp + tp[start + d];
      }
      ShiftStep(val, d);
      v := v / 2;
      d := d + 1;
    }
    DivUnique(val, Pow2(d), 0, val % Pow2(d));
    MaskedSumPrefix(val, row, d);
  }

  /** The gap loop of computeTipLikelihood: every terminal state counts. */
  method GapSum(tp: seq<real>, start: nat, numChars: nat) returns (tmp: real)
    requires start + numChars <= |tp|
    ensures tmp == RowSum(tp[start .. start + numChars])
  {
    ghost var row := tp[start .. start + numChars];
    tmp := 0.0;
    for c2 := 0 to numChars
      invariant tmp == RowSum(row[..c2])
    {
      assert row[..c2 + 1][..c2] == row[..c2];
      tmp := tmp + tp[start + c2];
    }
    assert row[..numChars] == row;
  }

  /** One entry of computeTipLikelihood: the gap sum or the observed-state
      sum over row c1 of the transition-probability matrix. */
  method TipSum(tp: seq<real>, numChars: nat, c1: nat, gap: bool, val: nat) returns (tmp: real)
    requires |tp| == numChars * numChars && c1 < numChars && val < Pow2(numChars)
    ensures tmp == if gap then RowSum(Row(tp, numChars, c1)) else MaskedSum(val, Row(tp, numChars, c1))
  {
    RowInMatrix(numChars, c1);
    if gap {
      tmp := GapSum(tp, c1 * numChars, numChars);
    } else {
      tmp := ObservedStateSum(val, tp, c1 * numChars, numChars);
    }
  }

  // ---------------------------------------------------------------------
  // One-hot decoding

  /** The decoding loop of simulate: shift a one-hot state right until only
      the lowest bit is left, counting the shifts. The source loops forever
      on the empty set, hence the precondition. */
  method DecodeOneHot(state: nat) returns (p: nat)
    requires state >= 1
    ensures Pow2(p) <= state < Pow2(p + 1)
    ensures forall k :: state == Pow2(k) ==> p == k
  {
    var s := state;
    p := 0;
    while s != 1
      invariant s >= 1 && s == state / Pow2(p)
      decreases s
    {
      ShiftStep(state, p);
      s := s / 2;
      p := p + 1;
    }
    DivUnique(state, Pow2(p), 1, state % Pow2(p));
    forall k | state == Pow2(k) ensures p == k {
      BracketUnique(state, p, k);
    }
  }

  /** The bracket 2^p <= v < 2^(p+1) fixes p; in particular a one-hot state
      2^k decodes to k. */
  lemma BracketUnique(v: nat, p: nat, k: nat)
    requires Pow2(p) <= v < Pow2(p + 1) && v == Pow2(k)
    ensures p == k
  {
    if k < p {
      Pow2Mono(k + 1, p);
      assert false;
    } else if p < k {
      Pow2Mono(p + 1, k);
      assert false;
    }
  }
}
