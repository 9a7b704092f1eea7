/**
 * An amino-acid character: a set of possible residues, stored as one flag per
 * residue in the fixed label order "ARNDCQEGHILKMFPSTWYV". A parsed character
 * sets the flag of its residue (upper or lower case); any other character,
 * such as '?' or '-', sets every flag, meaning fully ambiguous. The letter
 * 'n' is not such a character: it is the residue N. Reading the state back
 * gives the residue's label, or '?' when several residues are possible.
 */
module AminoAcid {

  const Labels: string := "ARNDCQEGHILKMFPSTWYV"
  const NumStates: nat := 20

  /** C `toupper` in the default locale: only 'a'..'z' change. */
  function ToUpper(c: char): (u: char)
    ensures 'a' <= c <= 'z' ==> 'A' <= u <= 'Z' && u as int == c as int - 32
    ensures !('a' <= c <= 'z') ==> u == c
  {
    if 'a' <= c <= 'z' then (c as int - 32) as char else c
  }

  function ToLower(c: char): char
  {
    if 'A' <= c <= 'Z' then (c as int + 32) as char else c
  }

  /** Number of set flags. */
  function CountSet(v: seq<bool>): (n: nat)
    ensures n <= |v|
  {
    if |v| == 0 then 0 else CountSet(v[..|v| - 1]) + (if v[|v| - 1] then 1 else 0)
  }

  /** Index of the last set flag, or -1. */
  function LastSet(v: seq<bool>): (k: int)
    ensures -1 <= k < |v|
    ensures k >= 0 ==> v[k]
    ensures k >= 0 <==> CountSet(v) >= 1
  {
    if |v| == 0 then -1 else if v[|v| - 1] then |v| - 1 else LastSet(v[..|v| - 1])
  }

  /** The flags `addState(s)` leaves when applied to flags `v`. */
  function AddStateSpec(v: seq<bool>, s: char): (r: seq<bool>)
    requires |v| == NumStates
    ensures |r| == NumStates
  {
    var c := ToUpper(s);
    if c in Labels then seq(NumStates, i requires 0 <= i < NumStates => v[i] || Labels[i] == c)
    else seq(NumStates, _ => true)
  }

  function NoFlags(): (r: seq<bool>)
    ensures |r| == NumStates
  {
    seq(NumStates, _ => false)
  }

  /** The flags `setState(s)` leaves: they depend on `s` alone. */
  function SetStateSpec(s: char): (r: seq<bool>)
    ensures |r| == NumStates
  {
    AddStateSpec(NoFlags(), s)
  }

  /** What `getState` returns for flags with at least one set. */
  function GetStateSpec(v: seq<bool>): char
    requires |v| == NumStates && CountSet(v) >= 1
  {
    if CountSet(v) > 1 then '?' else Labels[LastSet(v)]
  }

  class AminoAcidState {
    var value: seq<bool>

    predicate Valid()
      reads this
    {
      |value| == NumStates && CountSet(value) >= 1
    }

    /** The default character is 'n', read as the residue N. */
    constructor Default()
      ensures value == SetStateSpec('n') && Valid()
    {
      value := NoFlags();
      new;
      SetState('n');
    }

    constructor FromChar(s: char)
      ensures value == SetStateSpec(s) && Valid()
    {
      value := NoFlags();
      new;
      SetState(s);
    }

    constructor Copy(other: AminoAcidState)
      ensures value == other.value
      ensures other.Valid() ==> Valid()
    {
      value := other.value;
    }

    /** Clear every flag, then add `s`. */
    method SetState(s: char)
      requires |value| == NumStates
      modifies this
      ensures value == SetStateSpec(s) && Valid()
    {
      var i := 0;
      while i < NumStates
        invariant 0 <= i <= NumStates && |value| == NumStates
        invariant forall j :: 0 <= j < i ==> !value[j]
      {
        value := value[i := false];
        i := i + 1;
      }
      assert value == NoFlags();
      AddState(s);
      SetStateIsValid(s);
    }

    /** Set the flag of every label equal to `toupper(s)`; with no match, set
        every flag. */
    method AddState(s: char)
      requires |value| == NumStates
      modifies this
      ensures value == AddStateSpec(old(value), s)
    {
      var c := ToUpper(s);
      var numMatches := 0;
      var i := 0;
      while i < NumStates
        invariant 0 <= i <= NumStates && |value| == NumStates
        invariant forall j :: 0 <= j < i ==> value[j] == (old(value)[j] || Labels[j] == c)
        invariant forall j :: i <= j < NumStates ==> value[j] == old(value)[j]
        invariant (numMatches == 0) == (c !in Labels[..i])
      {
        if c == Labels[i] {
          value := value[i := true];
          numMatches := numMatches + 1;
        }
        assert Labels[..i + 1] == Labels[..i] + [Labels[i]];
        i := i + 1;
      }
      assert Labels[..NumStates] == Labels;
      if numMatches == 0 {
        i := 0;
        while i < NumStates
          invariant 0 <= i <= NumStates && |value| == NumStates
          invariant forall j :: 0 <= j < i ==> value[j]
        {
          value := value[i := true];
          i := i + 1;
        }
      }
    }

    /** The label of the set flag, or '?' when more than one is set. */
    method GetState() returns (c: char)
      requires Valid()
      ensures c == GetStateSpec(value)
    {
      c := '?';
      var numMatches := 0;
      var i := 0;
      while i < NumStates
        invariant 0 <= i <= NumStates
        invariant numMatches == CountSet(value[..i])
        invariant LastSet(value[..i]) >= 0 ==> c == Labels[LastSet(value[..i])]
      {
        assert value[..i + 1][..i] == value[..i];
        if value[i] {
          c := Labels[i];
          numMatches := numMatches + 1;
        }
        i := i + 1;
      }
      assert value[..NumStates] == value;
      if numMatches > 1 {
        c := '?';
      }
    }

    /** `operator==`: every flag agrees. */
    method Equals(x: AminoAcidState) returns (b: bool)
      requires |value| == NumStates && |x.value| == NumStates
      ensures b <==> value == x.value
    {
      var i := 0;
      while i < NumStates
        invariant 0 <= i <= NumStates
        invariant value[..i] == x.value[..i]
      {
        if value[i] != x.value[i] {
          return false;
        }
        assert value[..i + 1] == value[..i] + [value[i]];
        assert x.value[..i + 1] == x.value[..i] + [x.value[i]];
        i := i + 1;
      }
      assert value == value[..NumStates];
      assert x.value == x.value[..NumStates];
      return true;
    }

    /** `operator!=`: the negation of `operator==`. */
    method NotEquals(x: AminoAcidState) returns (b: bool)
      requires |value| == NumStates && |x.value| == NumStates
      ensures b <==> value != x.value
    {
      var e := Equals(x);
      b := !e;
    }
  }

  // ---------------------------------------------------------------------
  // Properties of the parser and the serialiser

  /** With exactly one flag set, `LastSet` names it and no other flag is set. */
  lemma {:induction false} SingleFlag(v: seq<bool>, j: nat)
    requires CountSet(v) == 1 && j < |v| && v[j]
    ensures LastSet(v) == j
  {
    var w := v[..|v| - 1];
    if j < |v| - 1 {
      assert w[j];
      if v[|v| - 1] {
        CountSetPositive(w, j);
      }
      SingleFlag(w, j);
    }
  }

  lemma {:induction false} CountSetPositive(v: seq<bool>, j: nat)
    requires j < |v| && v[j]
    ensures CountSet(v) >= 1
  {
    if j < |v| - 1 { CountSetPositive(v[..|v| - 1], j); }
  }

  lemma {:induction false} CountSetTwo(v: seq<bool>, j: nat, k: nat)
    requires j < k < |v| && v[j] && v[k]
    ensures CountSet(v) >= 2
  {
    var w := v[..|v| - 1];
    if k < |v| - 1 {
      CountSetTwo(w, j, k);
    } else {
      assert w[j];
      CountSetPositive(w, j);
    }
  }

  lemma {:induction false} CountSetAll(v: seq<bool>)
    requires forall i :: 0 <= i < |v| ==> v[i]
    ensures CountSet(v) == |v|
  {
    if |v| > 0 { CountSetAll(v[..|v| - 1]); }
  }

  /** The labels are pairwise distinct upper-case letters. */
  lemma LabelsDistinct()
    ensures forall i, j :: 0 <= i < j < NumStates ==> Labels[i] != Labels[j]
    ensures forall i :: 0 <= i < NumStates ==> 'A' <= Labels[i] <= 'Z'
  {
  }

  /** A character that matches a label sets exactly that label's flag. */
  lemma SetStateMatches(s: char, i: nat)
    requires i < NumStates && ToUpper(s) == Labels[i]
    ensures forall j :: 0 <= j < NumStates ==> SetStateSpec(s)[j] == (j == i)
    ensures CountSet(SetStateSpec(s)) == 1
  {
    LabelsDistinct();
    var v := SetStateSpec(s);
    CountSetOne(v, i);
  }

  lemma {:induction false} CountSetOne(v: seq<bool>, i: nat)
    requires i < |v| && v[i] && forall j :: 0 <= j < |v| && j != i ==> !v[j]
    ensures CountSet(v) == 1
  {
    var w := v[..|v| - 1];
    if i < |v| - 1 {
      CountSetOne(w, i);
    } else {
      CountSetNone(w);
    }
  }

  lemma {:induction false} CountSetNone(v: seq<bool>)
    requires forall j :: 0 <= j < |v| ==> !v[j]
    ensures CountSet(v) == 0
  {
    if |v| > 0 { CountSetNone(v[..|v| - 1]); }
  }

  /** `addState` never clears a flag, and sets a flag exactly when its label
      matches `toupper(s)` (or, with no match, sets them all). */
  lemma AddStateMonotone(v: seq<bool>, s: char, i: nat)
    requires |v| == NumStates && i < NumStates
    ensures v[i] ==> AddStateSpec(v, s)[i]
    ensures ToUpper(s) in Labels ==> (AddStateSpec(v, s)[i] <==> v[i] || Labels[i] == ToUpper(s))
  {
  }

  /** A character matching no label makes the state fully ambiguous. */
  lemma NoMatchIsAmbiguous(s: char)
    requires ToUpper(s) !in Labels
    ensures forall i :: 0 <= i < NumStates ==> SetStateSpec(s)[i]
    ensures CountSet(SetStateSpec(s)) == NumStates
    ensures GetStateSpec(SetStateSpec(s)) == '?'
  {
    CountSetAll(SetStateSpec(s));
  }

  /** After any `setState` at least one flag is set, so `getState` has a
      defined answer. */
  lemma SetStateIsValid(s: char)
    ensures CountSet(SetStateSpec(s)) >= 1
  {
    var c := ToUpper(s);
    if c in Labels {
      var i :| 0 <= i < NumStates && Labels[i] == c;
      SetStateMatches(s, i);
    } else {
      NoMatchIsAmbiguous(s);
    }
  }

  /** `getState` answers '?' exactly when more than one flag is set, and
      otherwise the label of the one set flag. */
  lemma GetStateMeaning(v: seq<bool>)
    requires |v| == NumStates && CountSet(v) >= 1
    ensures GetStateSpec(v) == '?' <==> CountSet(v) > 1
    ensures CountSet(v) == 1 ==> exists i :: 0 <= i < NumStates && v[i] && GetStateSpec(v) == Labels[i]
  {
    LabelsDistinct();
  }

  /** Reading back a parsed label gives the label in upper case, whichever
      case it was written in. */
  lemma RoundTrip(i: nat)
    requires i < NumStates
    ensures CountSet(SetStateSpec(Labels[i])) == 1
    ensures GetStateSpec(SetStateSpec(Labels[i])) == Labels[i]
    ensures CountSet(SetStateSpec(ToLower(Labels[i]))) == 1
    ensures GetStateSpec(SetStateSpec(ToLower(Labels[i]))) == Labels[i]
  {
    LabelsDistinct();
    var u := Labels[i];
    var l := ToLower(u);
    assert ToUpper(u) == u && ToUpper(l) == u;
    SetStateMatches(u, i);
    SingleFlag(SetStateSpec(u), i);
    SetStateMatches(l, i);
    SingleFlag(SetStateSpec(l), i);
  }

  /** Parsing a state's own label gives that state back: the serialiser is a
      left inverse of the parser on unambiguous states. */
  lemma ParseOfGetState(v: seq<bool>)
    requires |v| == NumStates && CountSet(v) == 1
    ensures SetStateSpec(GetStateSpec(v)) == v
  {
    var i := LastSet(v);
    LabelsDistinct();
    SetStateMatches(Labels[i], i);
    forall j | 0 <= j < NumStates ensures v[j] == (j == i)
    {
      if j != i && v[j] {
        if j < i { CountSetTwo(v, j, i); } else { CountSetTwo(v, i, j); }
      }
    }
  }

  /** The default state reads back as 'N', not '?'. */
  lemma DefaultIsN()
    ensures CountSet(SetStateSpec('n')) == 1
    ensures GetStateSpec(SetStateSpec('n')) == 'N'
  {
    assert Labels[2] == 'N';
    RoundTrip(2);
  }
}
