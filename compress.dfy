/**
 * The loops of compress: the key of every site, the pattern map with its
 * counts and first-occurrence flags, and each tip's column restricted to the
 * flagged sites. Each loop is proved against the value-level definitions of
 * SitePatterns and SiteData, so that the properties proved there (counts sum
 * to the number of sites, one pattern per distinct key, ...) hold of what
 * compress stores.
 */
module PatternCompression {
  import opened TreeArena
  import opened SitePatterns
  import opened SiteData
  import opened PruningData

  /** The sites whose flag is set, in site order. */
  function Flagged(u: seq<bool>): (sel: seq<nat>)
    ensures forall p :: 0 <= p < |sel| ==> sel[p] < |u| && u[sel[p]]
  {
    if |u| == 0 then []
    else if u[|u| - 1] then Flagged(u[..|u| - 1]) + [|u| - 1]
    else Flagged(u[..|u| - 1])
  }

  /** Flagging exactly the first occurrences selects the compressed sites. */
  lemma {:induction false} FlaggedFirsts(keys: seq<string>, u: seq<bool>)
    requires |u| == |keys|
    requires forall s :: 0 <= s < |keys| ==> u[s] == IsFirst(keys, s)
    ensures Flagged(u) == Firsts(keys)
  {
    if |keys| > 0 {
      var n := |keys| - 1;
      var pre := keys[..n];
      forall s | 0 <= s < n ensures u[..n][s] == IsFirst(pre, s) {
        assert pre[..s] == keys[..s];
      }
      FlaggedFirsts(pre, u[..n]);
      DistinctMembers(pre, keys[n]);
    }
  }

  /** Flagging every site selects every site. */
  lemma {:induction false} FlaggedAll(n: nat)
    ensures Flagged(seq(n, _ => true)) == Uncompressed(n).1
  {
    if n > 0 {
      assert seq(n, _ => true)[..n - 1] == seq(n - 1, _ => true);
      FlaggedAll(n - 1);
      assert Uncompressed(n).1 == Uncompressed(n - 1).1 + [n - 1];
    }
  }

  /** The string of a site: the tips' string values, in node order. */
  method SiteKey(t: Tree, numChars: nat, align: seq<seq<Cell>>, text: Cell -> string, numSites: nat, site: nat)
    returns (pattern: string)
    requires AlignmentFits(t, numChars, align, numSites) && site < numSites
    ensures pattern == Keys(align, text, numSites)[site]
  {
    pattern := "";
    var i := 0;
    while i < |t.nodes|
      invariant i <= |t.nodes|
      invariant pattern == KeyPrefix(align, text, site, if i < |align| then i else |align|)
    {
      if IsTip(t, i) {
        pattern := pattern + text(align[i][site]);
      }
      i := i + 1;
    }
  }

  /** `patterns` maps every key of `d`, and nothing else, to its position. */
  ghost predicate IndexMap(patterns: map<string, nat>, d: seq<string>)
  {
    && (forall k :: k in patterns <==> k in d)
    && (forall k :: k in patterns ==> k in d && patterns[k] == IndexOf(d, k))
  }

  /** A new key enters the map at the next free position. */
  lemma IndexMapAdd(patterns: map<string, nat>, d: seq<string>, k: string)
    requires IndexMap(patterns, d) && k !in d
    ensures IndexMap(patterns[k := |d|], d + [k])
  {
    forall j | j in patterns[k := |d|] ensures patterns[k := |d|][j] == IndexOf(d + [k], j) {
      IndexOfAppend(d, k, j);
    }
  }

  /** Distinct, one site further. */
  lemma DistinctStep<K>(keys: seq<K>, site: nat)
    requires site < |keys|
    ensures var d := Distinct(keys[..site]);
            Distinct(keys[..site + 1]) == if keys[site] in d then d else d + [keys[site]]
  {
    var next := keys[..site + 1];
    assert next[..|next| - 1] == keys[..site];
  }

  /** Counts, one site further. */
  lemma CountsStep<K>(keys: seq<K>, site: nat, d: seq<K>, c: seq<nat>)
    requires site < |keys| && d == Distinct(keys[..site]) && c == Counts(keys[..site])
    ensures keys[site] in d ==> Counts(keys[..site + 1]) == c[IndexOf(d, keys[site]) := c[IndexOf(d, keys[site])] + 1]
    ensures keys[site] !in d ==> Counts(keys[..site + 1]) == c + [1]
  {
    var next := keys[..site + 1];
    assert next[..|next| - 1] == keys[..site];
  }

  /** One more site, recorded as RecordKey records it, extends the distinct
      keys and their counts as Distinct and Counts do; the site opens a new
      pattern exactly when it is the first with its key. */
  lemma SiteStep<K>(keys: seq<K>, site: nat, seen: seq<K>, counts: seq<nat>,
                    isNew: bool, seen2: seq<K>, counts2: seq<nat>)
    requires site < |keys| && seen == Distinct(keys[..site]) && counts == Counts(keys[..site])
    requires isNew <==> keys[site] !in seen
    requires seen2 == if isNew then seen + [keys[site]] else seen
    requires counts2 == if isNew then counts + [1]
                        else counts[IndexOf(seen, keys[site]) := counts[IndexOf(seen, keys[site])] + 1]
    ensures seen2 == Distinct(keys[..site + 1]) && counts2 == Counts(keys[..site + 1])
    ensures isNew <==> IsFirst(keys, site)
  {
    DistinctStep(keys, site);
    CountsStep(keys, site, seen, counts);
    DistinctMembers(keys[..site], keys[site]);
  }

  /** One site of the compressing loop: a key already in the map adds one to
      its pattern's count; a new key opens a pattern with count one at the
      next index. */
  method RecordKey(patterns: map<string, nat>, counts: seq<nat>, numPatterns: nat, pattern: string,
                   ghost seen: seq<string>)
    returns (patterns2: map<string, nat>, counts2: seq<nat>, isNew: bool, ghost seen2: seq<string>)
    requires IndexMap(patterns, seen) && |counts| == |seen| && numPatterns == |counts|
    ensures isNew <==> pattern !in seen
    ensures seen2 == if isNew then seen + [pattern] else seen
    ensures counts2 == if isNew then counts + [1]
                       else counts[IndexOf(seen, pattern) := counts[IndexOf(seen, pattern)] + 1]
    ensures IndexMap(patterns2, seen2)
  {
    if pattern in patterns {
      var index := patterns[pattern];
      patterns2, counts2, isNew, seen2 := patterns, counts[index := counts[index] + 1], false, seen;
    } else {
      IndexMapAdd(patterns, seen, pattern);
      patterns2, counts2, isNew, seen2 := patterns[pattern := numPatterns], counts + [1], true, seen + [pattern];
    }
  }

  /** What the compressing loop knows after `site` sites. */
  ghost predicate Scanned(keys: seq<string>, site: nat, patterns: map<string, nat>, counts: seq<nat>,
                          numPatterns: nat, unique: seq<bool>, seen: seq<string>)
  {
    && site <= |keys| && |unique| == |keys|
    && seen == Distinct(keys[..site]) && counts == Counts(keys[..site]) && numPatterns == |counts|
    && IndexMap(patterns, seen)
    && (forall s :: 0 <= s < site ==> unique[s] == IsFirst(keys, s))
  }

  /** The body of the compressing loop: the site's key, then RecordKey. */
  method ScanSite(t: Tree, numChars: nat, align: seq<seq<Cell>>, text: Cell -> string, numSites: nat, site: nat,
                  patterns: map<string, nat>, counts: seq<nat>, numPatterns: nat, unique: seq<bool>,
                  ghost keys: seq<string>, ghost seen: seq<string>)
    returns (patterns2: map<string, nat>, counts2: seq<nat>, numPatterns2: nat, unique2: seq<bool>,
             ghost seen2: seq<string>)
    requires AlignmentFits(t, numChars, align, numSites) && keys == Keys(align, text, numSites)
    requires site < numSites && Scanned(keys, site, patterns, counts, numPatterns, unique, seen)
    ensures Scanned(keys, site + 1, patterns2, counts2, numPatterns2, unique2, seen2)
  {
    var pattern := SiteKey(t, numChars, align, text, numSites, site);
    patterns2, counts2, numPatterns2, unique2, seen2 :=
      RecordSite(site, pattern, patterns, counts, numPatterns, unique, keys, seen);
  }

  /** RecordKey on the key of site `site`, and the site's flag. */
  method RecordSite(site: nat, pattern: string, patterns: map<string, nat>, counts: seq<nat>, numPatterns: nat,
                    unique: seq<bool>, ghost keys: seq<string>, ghost seen: seq<string>)
    returns (patterns2: map<string, nat>, counts2: seq<nat>, numPatterns2: nat, unique2: seq<bool>,
             ghost seen2: seq<string>)
    requires site < |keys| && pattern == keys[site] && Scanned(keys, site, patterns, counts, numPatterns, unique, seen)
    ensures Scanned(keys, site + 1, patterns2, counts2, numPatterns2, unique2, seen2)
  {
    var isNew;
    patterns2, counts2, isNew, seen2 := RecordKey(patterns, counts, numPatterns, pattern, seen);
    numPatterns2 := if isNew then numPatterns + 1 else numPatterns;
    unique2 := unique[site := isNew];
    ScannedStep(keys, site, patterns, counts, numPatterns, unique, seen, isNew, patterns2, counts2, seen2);
  }

  /** RecordKey's effect on one more key keeps Scanned. */
  lemma ScannedStep(keys: seq<string>, site: nat, patterns: map<string, nat>, counts: seq<nat>,
                    numPatterns: nat, unique: seq<bool>, seen: seq<string>,
                    isNew: bool, patterns2: map<string, nat>, counts2: seq<nat>, seen2: seq<string>)
    requires site < |keys| && Scanned(keys, site, patterns, counts, numPatterns, unique, seen)
    requires isNew <==> keys[site] !in seen
    requires seen2 == if isNew then seen + [keys[site]] else seen
    requires counts2 == if isNew then counts + [1]
                        else counts[IndexOf(seen, keys[site]) := counts[IndexOf(seen, keys[site])] + 1]
    requires IndexMap(patterns2, seen2)
    ensures Scanned(keys, site + 1, patterns2, counts2, if isNew then numPatterns + 1 else numPatterns,
                    unique[site := isNew], seen2)
  {
    SiteStep(keys, site, seen, counts, isNew, seen2, counts2);
  }

  /**
   * The compressing site loop: a map from each key seen so far to its
   * pattern index, a count per pattern, and a flag per site saying whether
   * it is the first with its key.
   */
  method FindPatterns(t: Tree, numChars: nat, align: seq<seq<Cell>>, text: Cell -> string, numSites: nat)
    returns (counts: seq<nat>, unique: seq<bool>, numPatterns: nat)
    requires AlignmentFits(t, numChars, align, numSites)
    ensures counts == Counts(Keys(align, text, numSites)) && numPatterns == |counts|
    ensures |unique| == numSites
    ensures forall s :: 0 <= s < numSites ==> unique[s] == IsFirst(Keys(align, text, numSites), s)
  {
    ghost var keys := Keys(align, text, numSites);
    ghost var seen: seq<string> := [];
    var patterns: map<string, nat> := map[];
    counts, numPatterns := [], 0;
    unique := seq(numSites, _ => true);
    var site := 0;
    while site < numSites
      invariant Scanned(keys, site, patterns, counts, numPatterns, unique, seen)
    {
      patterns, counts, numPatterns, unique, seen :=
        ScanSite(t, numChars, align, text, numSites, site, patterns, counts, numPatterns, unique, keys, seen);
      site := site + 1;
    }
    assert keys[..numSites] == keys;
  }

  /** One tip's states and gap flags at the flagged sites, in site order. */
  method SelectSites(column: seq<Cell>, unique: seq<bool>) returns (states: seq<nat>, gaps: seq<bool>)
    requires |column| == |unique|
    ensures states == StatesAt(column, Flagged(unique)) && gaps == GapsAt(column, Flagged(unique))
  {
    states, gaps := [], [];
    var site := 0;
    while site < |unique|
      invariant site <= |unique|
      invariant states == StatesAt(column, Flagged(unique[..site]))
      invariant gaps == GapsAt(column, Flagged(unique[..site]))
    {
      assert unique[..site + 1][..site] == unique[..site];
      if unique[site] {
        states := states + [column[site].state];
        gaps := gaps + [column[site].gap];
      }
      site := site + 1;
    }
    assert unique[..site] == unique;
  }

  /** The tip loop of compress: every tip node's column, cut to the flagged
      sites; every other node is skipped. */
  method TipColumns(t: Tree, numChars: nat, align: seq<seq<Cell>>, unique: seq<bool>)
    returns (charMatrix: seq<seq<nat>>, gapMatrix: seq<seq<bool>>)
    requires AlignmentFits(t, numChars, align, |unique|)
    ensures |charMatrix| == |align| && |gapMatrix| == |align|
    ensures forall tip :: 0 <= tip < |align| ==>
              charMatrix[tip] == StatesAt(align[tip], Flagged(unique)) && gapMatrix[tip] == GapsAt(align[tip], Flagged(unique))
  {
    charMatrix := seq(|align|, _ => []);
    gapMatrix := seq(|align|, _ => []);
    var i := 0;
    while i < |t.nodes|
      invariant i <= |t.nodes|
      invariant |charMatrix| == |align| && |gapMatrix| == |align|
      invariant forall tip :: 0 <= tip < |align| && tip < i ==>
                  charMatrix[tip] == StatesAt(align[tip], Flagged(unique)) && gapMatrix[tip] == GapsAt(align[tip], Flagged(unique))
    {
      if IsTip(t, i) {
        var states, gaps := SelectSites(align[i], unique);
        charMatrix := charMatrix[i := states];
        gapMatrix := gapMatrix[i := gaps];
      }
      i := i + 1;
    }
  }

  /** The data part of compress: the pattern counts and number of patterns,
      then every tip's states and gap flags at the kept sites. */
  method CompressData(t: Tree, numChars: nat, align: seq<seq<Cell>>, text: Cell -> string, numSites: nat,
                      compressed: bool)
    returns (patternCounts: seq<nat>, numPatterns: nat, charMatrix: seq<seq<nat>>, gapMatrix: seq<seq<bool>>)
    requires AlignmentFits(t, numChars, align, numSites)
    ensures patternCounts == PatternCountsOf(align, text, numSites, compressed)
    ensures numPatterns == |Selected(align, text, numSites, compressed)|
    ensures charMatrix == TipStates(align, text, numSites, compressed)
    ensures gapMatrix == TipGaps(align, text, numSites, compressed)
  {
    var unique: seq<bool>;
    if compressed {
      patternCounts, unique, numPatterns := FindPatterns(t, numChars, align, text, numSites);
      FlaggedFirsts(Keys(align, text, numSites), unique);
    } else {
      numPatterns := numSites;
      patternCounts := seq(numSites, _ => 1);
      unique := seq(numSites, _ => true);
      FlaggedAll(numSites);
    }
    ghost var sel := Selected(align, text, numSites, compressed);
    assert Flagged(unique) == sel;
    charMatrix, gapMatrix := TipColumns(t, numChars, align, unique);
  }
}
