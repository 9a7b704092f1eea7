/**
 * The character data the pruning engine compresses. `align[t][s]` is the
 * character of tip `t` at site `s`; tips are the nodes 0 .. |align| - 1 of the
 * tree, in the order the tree lists its nodes. A site's key is the
 * concatenation of the tips' string values in that order; `text` is the
 * character type's string rendering of one character.
 */
module SiteData {
  import opened SitePatterns

  /** A character: its state set as a bitmask, and whether it is a gap. */
  datatype Cell = Cell(state: nat, gap: bool)

  predicate Rectangular(align: seq<seq<Cell>>, numSites: nat)
  {
    forall t :: 0 <= t < |align| ==> |align[t]| == numSites
  }

  /** Concatenated string values of tips 0 .. k-1 at site `s`. */
  function KeyPrefix(align: seq<seq<Cell>>, text: Cell -> string, s: nat, k: nat): string
    requires k <= |align| && forall t :: 0 <= t < k ==> s < |align[t]|
  {
    if k == 0 then "" else KeyPrefix(align, text, s, k - 1) + text(align[k - 1][s])
  }

  function Keys(align: seq<seq<Cell>>, text: Cell -> string, numSites: nat): (keys: seq<string>)
    requires Rectangular(align, numSites)
    ensures |keys| == numSites
  {
    seq(numSites, s requires 0 <= s < numSites => KeyPrefix(align, text, s, |align|))
  }

  /** The sites compress keeps, in site order: the first site of every key
      when compressing, every site otherwise. */
  function Selected(align: seq<seq<Cell>>, text: Cell -> string, numSites: nat, compressed: bool): (sel: seq<nat>)
    requires Rectangular(align, numSites)
    ensures forall p :: 0 <= p < |sel| ==> sel[p] < numSites
  {
    if compressed then Firsts(Keys(align, text, numSites)) else Uncompressed(numSites).1
  }

  /** Multiplicity of every kept site. */
  function PatternCountsOf(align: seq<seq<Cell>>, text: Cell -> string, numSites: nat, compressed: bool): (c: seq<nat>)
    requires Rectangular(align, numSites)
    ensures |c| == |Selected(align, text, numSites, compressed)|
  {
    if compressed then Counts(Keys(align, text, numSites)) else Uncompressed(numSites).0
  }

  /** A tip's states at the kept sites. */
  function StatesAt(column: seq<Cell>, sel: seq<nat>): (r: seq<nat>)
    requires forall p :: 0 <= p < |sel| ==> sel[p] < |column|
    ensures |r| == |sel|
  {
    seq(|sel|, p requires 0 <= p < |sel| => column[sel[p]].state)
  }

  /** A tip's gap flags at the kept sites. */
  function GapsAt(column: seq<Cell>, sel: seq<nat>): (r: seq<bool>)
    requires forall p :: 0 <= p < |sel| ==> sel[p] < |column|
    ensures |r| == |sel|
  {
    seq(|sel|, p requires 0 <= p < |sel| => column[sel[p]].gap)
  }

  // ---------------------------------------------------------------------

  /** Every character renders as exactly one symbol, and distinct
      characters render differently. */
  ghost predicate SymbolPerCell(text: Cell -> string)
  {
    (forall c :: |text(c)| == 1)
    && (forall c, d :: text(c) == text(d) ==> c == d)
  }

  lemma {:induction false} KeyPrefixSymbols(align: seq<seq<Cell>>, text: Cell -> string, s: nat, k: nat)
    requires k <= |align| && forall t :: 0 <= t < k ==> s < |align[t]|
    requires SymbolPerCell(text)
    ensures |KeyPrefix(align, text, s, k)| == k
    ensures forall t :: 0 <= t < k ==> KeyPrefix(align, text, s, k)[t] == text(align[t][s])[0]
  {
    if k > 0 {
      KeyPrefixSymbols(align, text, s, k - 1);
    }
  }

  /** With one symbol per character, a site's key determines the whole
      column: sites that share a key share every tip's character. */
  lemma KeyDeterminesColumn(align: seq<seq<Cell>>, text: Cell -> string, numSites: nat, s: nat, s2: nat)
    requires Rectangular(align, numSites) && SymbolPerCell(text)
    requires s < numSites && s2 < numSites
    requires Keys(align, text, numSites)[s] == Keys(align, text, numSites)[s2]
    ensures forall t :: 0 <= t < |align| ==> align[t][s] == align[t][s2]
  {
    KeyPrefixSymbols(align, text, s, |align|);
    KeyPrefixSymbols(align, text, s2, |align|);
    forall t | 0 <= t < |align| ensures align[t][s] == align[t][s2]
    {
      var a, b := text(align[t][s]), text(align[t][s2]);
      assert a[0] == b[0];
      assert a == [a[0]] && b == [b[0]];
    }
  }

  /** Without the one-symbol condition the key is ambiguous: two different
      columns can share it. */
  lemma AmbiguousKeys()
    ensures var text := (c: Cell) => if c.state == 1 then "A" else if c.state == 2 then "AA" else "";
            var align := [[Cell(1, false), Cell(2, false)], [Cell(2, false), Cell(1, false)]];
            Keys(align, text, 2)[0] == Keys(align, text, 2)[1] && align[0][0] != align[0][1]
  {
    var text := (c: Cell) => if c.state == 1 then "A" else if c.state == 2 then "AA" else "";
    var align := [[Cell(1, false), Cell(2, false)], [Cell(2, false), Cell(1, false)]];
    assert KeyPrefix(align, text, 0, 2) == "AAA";
    assert KeyPrefix(align, text, 1, 2) == "AAA";
  }
}
