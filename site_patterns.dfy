/**
 * Site-pattern compression on values. Every alignment site has a key (the
 * concatenation of the tips' characters at that site); compression keeps the
 * first site of every distinct key, in site order, and counts how many sites
 * share each key. The functions are defined site by site, in the order the
 * compressing loop visits the sites, so that the loop can be proved against
 * them directly.
 */
module SitePatterns {


  /** Distinct keys in order of first occurrence. */
  function Distinct<K(==)>(keys: seq<K>): (d: seq<K>)
    ensures |d| <= |keys|
  {
    if |keys| == 0 then []
    else
      var d := Distinct(keys[..|keys| - 1]);
      if keys[|keys| - 1] in d then d else d + [keys[|keys| - 1]]
  }

  /** Position of `k` in `d`. */
  function IndexOf<K(==)>(d: seq<K>, k: K): (p: nat)
    requires k in d
    ensures p < |d| && d[p] == k
    ensures forall q :: 0 <= q < p ==> d[q] != k
  {
    if d[0] == k then 0 else 1 + IndexOf(d[1..], k)
  }

  /** Appending a new key leaves the positions of the old ones. */
  lemma {:induction false} IndexOfAppend<K>(d: seq<K>, k: K, j: K)
    requires k !in d && (j in d || j == k)
    ensures IndexOf(d + [k], j) == if j == k then |d| else IndexOf(d, j)
  {
    if d != [] && d[0] != j {
      assert (d + [k])[1..] == d[1..] + [k];
      IndexOfAppend(d[1..], k, j);
    }
  }

  /** The first site of every distinct key, in site order. */
  function Firsts<K(==)>(keys: seq<K>): (f: seq<nat>)
    ensures |f| == |Distinct(keys)|
    ensures forall p :: 0 <= p < |f| ==> f[p] < |keys|
  {
    if |keys| == 0 then []
    else
      var f := Firsts(keys[..|keys| - 1]);
      if keys[|keys| - 1] in Distinct(keys[..|keys| - 1]) then f else f + [|keys| - 1]
  }

  /** Multiplicity of every distinct key, accumulated site by site. */
  function Counts<K(==)>(keys: seq<K>): (c: seq<nat>)
    ensures |c| == |Distinct(keys)|
  {
    if |keys| == 0 then []
    else
      var c := Counts(keys[..|keys| - 1]);
      var d := Distinct(keys[..|keys| - 1]);
      var k := keys[|keys| - 1];
      if k in d then c[IndexOf(d, k) := c[IndexOf(d, k)] + 1] else c + [1]
  }

  /** Number of sites whose key is `k`. */
  function Occurrences<K(==)>(keys: seq<K>, k: K): nat
  {
    if |keys| == 0 then 0
    else Occurrences(keys[..|keys| - 1], k) + (if keys[|keys| - 1] == k then 1 else 0)
  }

  /** Whether site `s` is the first with its key. */
  predicate IsFirst<K(==)>(keys: seq<K>, s: nat)
    requires s < |keys|
  {
    keys[s] !in keys[..s]
  }

  function Sum(c: seq<nat>): nat
  {
    if |c| == 0 then 0 else Sum(c[..|c| - 1]) + c[|c| - 1]
  }

  function SumReal(h: seq<real>): real
  {
    if |h| == 0 then 0.0 else SumReal(h[..|h| - 1]) + h[|h| - 1]
  }

  /** Σ_p counts[p] · vals[p]: a per-pattern quantity summed over the
      compressed patterns with their multiplicities. */
  function Weighted(counts: seq<nat>, vals: seq<real>): real
    requires |counts| == |vals|
  {
    if |counts| == 0 then 0.0
    else
      var n := |counts| - 1;
      Weighted(counts[..n], vals[..n]) + counts[n] as real * vals[n]
  }

  // ---------------------------------------------------------------------

  lemma {:induction false} DistinctMembers<K>(keys: seq<K>, k: K)
    ensures k in Distinct(keys) <==> k in keys
  {
    if |keys| > 0 {
      var pre := keys[..|keys| - 1];
      DistinctMembers(pre, k);
      assert keys == pre + [keys[|keys| - 1]];
    }
  }

  /** The compressed patterns have no repeated key. */
  lemma {:induction false} DistinctIsDistinct<K>(keys: seq<K>)
    ensures forall p, q :: 0 <= p < q < |Distinct(keys)| ==> Distinct(keys)[p] != Distinct(keys)[q]
  {
    if |keys| > 0 {
      DistinctIsDistinct(keys[..|keys| - 1]);
    }
  }

  lemma {:induction false} DistinctSetSize<K>(d: seq<K>)
    requires forall p, q :: 0 <= p < q < |d| ==> d[p] != d[q]
    ensures |set k | k in d| == |d|
  {
    if |d| > 0 {
      var pre := d[..|d| - 1];
      DistinctSetSize(pre);
      assert (set k | k in d) == (set k | k in pre) + {d[|d| - 1]};
      assert d[|d| - 1] !in pre;
    }
  }

  /** The number of patterns is the number of distinct keys. */
  lemma NumPatterns<K>(keys: seq<K>)
    ensures |Distinct(keys)| == |set k | k in keys|
  {
    var d := Distinct(keys);
    DistinctIsDistinct(keys);
    DistinctSetSize(d);
    var sd, sk := set k | k in d, set k | k in keys;
    forall k | k in sd ensures k in sk { DistinctMembers(keys, k); }
    forall k | k in sk ensures k in sd { DistinctMembers(keys, k); }
    assert sd == sk;
  }

  /** The first sites carry the pattern keys, rise strictly, and are exactly
      the sites whose key did not occur earlier. */
  lemma {:induction false} FirstsMeaning<K>(keys: seq<K>)
    ensures forall p :: 0 <= p < |Firsts(keys)| ==> keys[Firsts(keys)[p]] == Distinct(keys)[p]
    ensures forall p, q :: 0 <= p < q < |Firsts(keys)| ==> Firsts(keys)[p] < Firsts(keys)[q]
    ensures forall s :: 0 <= s < |keys| ==> (IsFirst(keys, s) <==> s in Firsts(keys))
  {
    if |keys| > 0 {
      var n := |keys| - 1;
      var pre := keys[..n];
      FirstsMeaning(pre);
      DistinctMembers(pre, keys[n]);
      assert keys[..n] == pre;
      forall s | 0 <= s < n ensures IsFirst(keys, s) == IsFirst(pre, s)
      {
        assert keys[..s] == pre[..s];
      }
    }
  }

  /** Each pattern's count is the number of sites sharing its key. */
  lemma {:induction false} CountsMeaning<K>(keys: seq<K>)
    ensures forall p :: 0 <= p < |Counts(keys)| ==> Counts(keys)[p] == Occurrences(keys, Distinct(keys)[p])
  {
    if |keys| > 0 {
      var n := |keys| - 1;
      var pre := keys[..n];
      CountsMeaning(pre);
      DistinctIsDistinct(pre);
      var d := Distinct(pre);
      if keys[n] !in d {
        DistinctMembers(pre, keys[n]);
        OccurrencesAbsent(pre, keys[n]);
      }
    }
  }

  lemma {:induction false} OccurrencesAbsent<K>(keys: seq<K>, k: K)
    requires k !in keys
    ensures Occurrences(keys, k) == 0
  {
    if |keys| > 0 {
      assert keys == keys[..|keys| - 1] + [keys[|keys| - 1]];
      OccurrencesAbsent(keys[..|keys| - 1], k);
    }
  }

  lemma {:induction false} SumIncrement(c: seq<nat>, p: nat)
    requires p < |c|
    ensures Sum(c[p := c[p] + 1]) == Sum(c) + 1
  {
    var n := |c| - 1;
    if p < n {
      assert c[p := c[p] + 1][..n] == c[..n][p := c[p] + 1];
      SumIncrement(c[..n], p);
    } else {
      assert c[p := c[p] + 1][..n] == c[..n];
    }
  }

  lemma CountsSumStep<K>(keys: seq<K>)
    requires |keys| > 0
    ensures Sum(Counts(keys)) == Sum(Counts(keys[..|keys| - 1])) + 1
  {
    var pre := keys[..|keys| - 1];
    var d := Distinct(pre);
    var c := Counts(pre);
    var k := keys[|keys| - 1];
    if k in d {
      var p := IndexOf(d, k);
      var c2 := c[p := c[p] + 1];
      assert Counts(keys) == c2;
      SumIncrement(c, p);
      assert Sum(c2) == Sum(c) + 1;
    } else {
      assert (c + [1])[..|c|] == c;
    }
  }

  /** Every site is counted once: the counts add up to the number of sites. */
  lemma {:induction false} CountsSum<K>(keys: seq<K>)
    ensures Sum(Counts(keys)) == |keys|
  {
    if |keys| > 0 {
      CountsSum(keys[..|keys| - 1]);
      CountsSumStep(keys);
    }
  }

  /** Every pattern occurs at least once. */
  lemma {:induction false} CountsPositive<K>(keys: seq<K>)
    ensures forall p :: 0 <= p < |Counts(keys)| ==> Counts(keys)[p] >= 1
  {
    if |keys| > 0 { CountsPositive(keys[..|keys| - 1]); }
  }

  lemma {:induction false} WeightedBump(counts: seq<nat>, vals: seq<real>, p: nat)
    requires |counts| == |vals| && p < |counts|
    ensures Weighted(counts[p := counts[p] + 1], vals) == Weighted(counts, vals) + vals[p]
  {
    var n := |counts| - 1;
    var c2 := counts[p := counts[p] + 1];
    if p < n {
      assert c2[..n] == counts[..n][p := counts[p] + 1];
      WeightedBump(counts[..n], vals[..n], p);
    } else {
      assert c2[..n] == counts[..n];
    }
  }

  /** The values a per-site quantity takes on the compressed patterns. */
  predicate PatternValues<K(==)>(keys: seq<K>, h: seq<real>, vals: seq<real>)
  {
    |h| == |keys| && |vals| == |Firsts(keys)|
    && forall p :: 0 <= p < |vals| ==> vals[p] == h[Firsts(keys)[p]]
  }

  /** Equal keys give equal values. */
  predicate KeyDetermined<K(==)>(keys: seq<K>, h: seq<real>)
    requires |h| == |keys|
  {
    forall s, s' :: 0 <= s < |keys| && 0 <= s' < |keys| && keys[s] == keys[s'] ==> h[s] == h[s']
  }

  lemma KeyDeterminedPrefix<K>(keys: seq<K>, h: seq<real>, n: nat)
    requires |h| == |keys| && KeyDetermined(keys, h) && n <= |keys|
    ensures KeyDetermined(keys[..n], h[..n])
  {
    var ks, hs := keys[..n], h[..n];
    forall s, s' | 0 <= s < n && 0 <= s' < n && ks[s] == ks[s'] ensures hs[s] == hs[s']
    {
      assert keys[s] == ks[s] && keys[s'] == ks[s'];
    }
  }

  /** Extending both prefixes by one position adds that position's term:
      the accumulation step of a weighted sum. */
  lemma WeightedAccumulate(counts: seq<nat>, vals: seq<real>, k: nat, acc: real, term: real)
    requires |counts| == |vals| && k < |counts|
    requires acc == Weighted(counts[..k], vals[..k]) && term == vals[k]
    ensures acc + counts[k] as real * term == Weighted(counts[..k + 1], vals[..k + 1])
  {
    assert counts[..k + 1][..k] == counts[..k];
    assert vals[..k + 1][..k] == vals[..k];
  }

  lemma WeightedAppendOne(c: seq<nat>, vals: seq<real>)
    requires |vals| == |c| + 1
    ensures Weighted(c + [1], vals) == Weighted(c, vals[..|c|]) + vals[|c|]
  {
    assert (c + [1])[..|c|] == c;
  }

  /** One more site whose key was already seen: its count goes up by one. */
  lemma WeightedStepOld<K>(keys: seq<K>, h: seq<real>, vals: seq<real>)
    requires PatternValues(keys, h, vals) && KeyDetermined(keys, h) && |keys| > 0
    requires keys[|keys| - 1] in Distinct(keys[..|keys| - 1])
    ensures PatternValues(keys[..|keys| - 1], h[..|keys| - 1], vals)
    ensures Weighted(Counts(keys), vals) == Weighted(Counts(keys[..|keys| - 1]), vals) + h[|keys| - 1]
  {
    var n := |keys| - 1;
    var pre := keys[..n];
    var d := Distinct(pre);
    var f := Firsts(pre);
    var p := IndexOf(d, keys[n]);
    var c := Counts(pre);
    assert Firsts(keys) == f;
    FirstsMeaning(pre);
    assert keys[f[p]] == keys[n];
    var c2 := c[p := c[p] + 1];
    assert Counts(keys) == c2;
    WeightedBump(c, vals, p);
  }

  /** One more site with a new key: it opens a pattern with count one. */
  lemma WeightedStepNew<K>(keys: seq<K>, h: seq<real>, vals: seq<real>)
    requires PatternValues(keys, h, vals) && |keys| > 0
    requires keys[|keys| - 1] !in Distinct(keys[..|keys| - 1])
    ensures |vals| > 0
    ensures PatternValues(keys[..|keys| - 1], h[..|keys| - 1], vals[..|vals| - 1])
    ensures Weighted(Counts(keys), vals) == Weighted(Counts(keys[..|keys| - 1]), vals[..|vals| - 1]) + h[|keys| - 1]
  {
    var n := |keys| - 1;
    var f := Firsts(keys[..n]);
    assert Firsts(keys) == f + [n];
    WeightedAppendOne(Counts(keys[..n]), vals);
  }

  /** A quantity that depends on a site only through its key may be summed
      over the compressed patterns, weighted by their counts, instead of over
      all sites. */
  lemma {:induction false} WeightedEqualsSiteSum<K>(keys: seq<K>, h: seq<real>, vals: seq<real>)
    requires PatternValues(keys, h, vals) && KeyDetermined(keys, h)
    ensures Weighted(Counts(keys), vals) == SumReal(h)
  {
    if |keys| > 0 {
      var n := |keys| - 1;
      if keys[n] in Distinct(keys[..n]) {
        WeightedStepOld(keys, h, vals);
        KeyDeterminedPrefix(keys, h, n);
        WeightedEqualsSiteSum(keys[..n], h[..n], vals);
      } else {
        WeightedStepNew(keys, h, vals);
        KeyDeterminedPrefix(keys, h, n);
        WeightedEqualsSiteSum(keys[..n], h[..n], vals[..|vals| - 1]);
      }
    }
  }

  /** Without compression every site is its own pattern with count one. */
  function Uncompressed(numSites: nat): (r: (seq<nat>, seq<nat>))
    ensures |r.0| == |r.1| == numSites
    ensures forall s :: 0 <= s < numSites ==> r.0[s] == 1 && r.1[s] == s
  {
    (seq(numSites, _ => 1), seq(numSites, s => s))
  }

  lemma {:induction false} UncompressedIsSiteSum(h: seq<real>)
    ensures Weighted(Uncompressed(|h|).0, h) == SumReal(h)
  {
    if |h| > 0 {
      var n := |h| - 1;
      UncompressedIsSiteSum(h[..n]);
      assert Uncompressed(|h|).0[..n] == Uncompressed(n).0;
    }
  }
}
