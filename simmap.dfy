/**
 * The bookkeeping of a stochastic character map along one branch of the
 * state-dependent speciation-extinction process, and the SIMMAP text it
 * writes for the branch: "{" then the (state,duration) segments of the
 * branch from the most recent back to the oldest, joined by ':', then "}".
 * The states and durations themselves are drawn at random and are inputs
 * here; how a state index or a duration is printed is a parameter.
 */
module Simmap {

  /** Σ of the durations recorded so far. */
  function Sum(times: seq<real>): real
  {
    if |times| == 0 then 0.0 else Sum(times[..|times| - 1]) + times[|times| - 1]
  }

  /** The accumulating loop that adds up the recorded durations. */
  method SumTimes(times: seq<real>) returns (total: real)
    ensures total == Sum(times)
  {
    total := 0.0;
    for j := 0 to |times|
      invariant total == Sum(times[..j])
    {
      assert times[..j + 1][..j] == times[..j];
      total := total + times[j];
    }
    assert times[..|times|] == times;
  }

  /** A state change at the end of the current time slice: the new state is
      recorded with the time elapsed since the previous change. The recorded
      durations then add up to the end of the slice. */
  method RecordTransition(states: seq<nat>, times: seq<real>, currentDtEnd: real, newState: nat)
    returns (states': seq<nat>, times': seq<real>)
    ensures states' == states + [newState]
    ensures |times'| == |times| + 1 && times'[..|times|] == times
    ensures Sum(times') == currentDtEnd
  {
    var transitionTimesSum := SumTimes(times);
    var timeSinceLastTransition := currentDtEnd - transitionTimesSum;
    times' := times + [timeSinceLastTransition];
    states' := states + [newState];
    assert times'[..|times|] == times;
  }

  /** The length of the final state on the branch: the branch length less
      every earlier duration, so that the durations cover the branch exactly. */
  method CloseHistory(times: seq<real>, branchLength: real) returns (times': seq<real>)
    ensures |times'| == |times| + 1 && times'[..|times|] == times
    ensures times'[|times|] == branchLength - Sum(times)
    ensures Sum(times') == branchLength
  {
    var transitionTimesSum := SumTimes(times);
    times' := times + [branchLength - transitionTimesSum];
    assert times'[..|times|] == times;
  }

  /** The durations of a branch whose changes happened at the increasing
      slice ends `ends`, closed at `branchLength`: each change contributes
      the time since the previous one, and they add up to the branch
      length. */
  lemma {:induction false} RecordedDurations(times: seq<real>, ends: seq<real>)
    requires |times| == |ends|
    requires forall k :: 0 <= k < |times| ==> Sum(times[..k + 1]) == ends[k]
    ensures forall k :: 0 < k < |times| ==> times[k] == ends[k] - ends[k - 1]
    ensures |times| > 0 ==> times[0] == ends[0]
  {
    forall k | 0 < k < |times|
      ensures times[k] == ends[k] - ends[k - 1]
    {
      assert times[..k + 1][..k] == times[..k];
      assert Sum(times[..k + 1]) == Sum(times[..k]) + times[k];
      assert Sum(times[..(k - 1) + 1]) == ends[k - 1];
    }
    if |times| > 0 {
      assert times[..1][..0] == times[..0];
      assert Sum(times[..1]) == Sum(times[..0]) + times[0];
      assert Sum(times[..0 + 1]) == ends[0];
    }
  }

  // ---------------------------------------------------------------------
  // The SIMMAP text

  /** Parts joined by a separator. */
  function Join(parts: seq<string>, sep: char): string
  {
    if |parts| == 0 then ""
    else if |parts| == 1 then parts[0]
    else Join(parts[..|parts| - 1], sep) + [sep] + parts[|parts| - 1]
  }

  function Reverse<T>(s: seq<T>): (r: seq<T>)
    ensures |r| == |s|
    ensures forall k :: 0 <= k < |s| ==> r[k] == s[|s| - 1 - k]
  {
    if |s| == 0 then [] else [s[|s| - 1]] + Reverse(s[..|s| - 1])
  }

  /** One "state,duration" segment. */
  function Segment(state: nat, time: real, stateText: nat -> string, timeText: real -> string): string
  {
    stateText(state) + "," + timeText(time)
  }

  function Segments(states: seq<nat>, times: seq<real>, stateText: nat -> string, timeText: real -> string): (segs: seq<string>)
    requires |times| <= |states|
    ensures |segs| == |times|
  {
    seq(|times|, i requires 0 <= i < |times| => Segment(states[i], times[i], stateText, timeText))
  }

  /** The SIMMAP text of a branch: its segments, the most recent first. */
  function SimmapText(states: seq<nat>, times: seq<real>, stateText: nat -> string, timeText: real -> string): string
    requires |times| <= |states|
  {
    "{" + Join(Reverse(Segments(states, times, stateText, timeText)), ':') + "}"
  }

  /** The loop that writes the text, from the last segment down to the first,
      with ':' after every segment but the first one recorded. */
  method MakeSimmapString(states: seq<nat>, times: seq<real>, stateText: nat -> string, timeText: real -> string)
    returns (simmap: string)
    requires |times| <= |states|
    ensures simmap == SimmapText(states, times, stateText, timeText)
  {
    ghost var segs := Segments(states, times, stateText, timeText);
    simmap := "{";
    var i := |times|;
    while i > 0
      invariant 0 <= i <= |segs|
      invariant simmap == "{" + Partial(segs, i)
    {
      var segment := stateText(states[i - 1]) + "," + timeText(times[i - 1]);
      PartialStep(segs, i);
      simmap := simmap + segment;
      if i != 1 {
        simmap := simmap + ":";
      }
      i := i - 1;
    }
    simmap := simmap + "}";
    assert segs[0..] == segs;
  }

  /** The text written once the segments from index i on are done. */
  function Partial(segs: seq<string>, i: nat): string
    requires i <= |segs|
  {
    Join(Reverse(segs[i..]), ':') + (if 0 < i < |segs| then ":" else "")
  }

  lemma PartialStep(segs: seq<string>, i: nat)
    requires 0 < i <= |segs|
    ensures Partial(segs, i - 1) == Partial(segs, i) + segs[i - 1] + (if i != 1 then ":" else "")
  {
    assert segs[i - 1..] == [segs[i - 1]] + segs[i..];
    ReverseCons(segs[i - 1], segs[i..]);
    JoinSnoc(Reverse(segs[i..]), segs[i - 1], ':');
  }

  lemma ReverseCons<T>(x: T, s: seq<T>)
    ensures Reverse([x] + s) == Reverse(s) + [x]
  {
    var r := Reverse([x] + s);
    assert |r| == |Reverse(s) + [x]|;
    forall k | 0 <= k < |r| ensures r[k] == (Reverse(s) + [x])[k] {
    }
  }

  lemma JoinSnoc(parts: seq<string>, p: string, sep: char)
    ensures Join(parts + [p], sep) == if |parts| == 0 then p else Join(parts, sep) + [sep] + p
  {
    assert (parts + [p])[..|parts|] == parts;
  }

  // ---------------------------------------------------------------------
  // Reading the text back

  /** The position of the last occurrence of c in s, or -1. */
  function LastIndexOf(s: string, c: char): (k: int)
    ensures -1 <= k < |s|
    ensures k >= 0 ==> s[k] == c && forall j :: k < j < |s| ==> s[j] != c
    ensures k == -1 ==> forall j :: 0 <= j < |s| ==> s[j] != c
  {
    if |s| == 0 then -1
    else if s[|s| - 1] == c then |s| - 1
    else LastIndexOf(s[..|s| - 1], c)
  }

  /** s cut at every occurrence of c. */
  function Split(s: string, c: char): (parts: seq<string>)
    ensures |parts| >= 1
    decreases |s|
  {
    var k := LastIndexOf(s, c);
    if k < 0 then [s] else Split(s[..k], c) + [s[k + 1..]]
  }

  /** Splitting at the separator undoes joining, when no part contains it. */
  lemma {:induction false} SplitJoin(parts: seq<string>, c: char)
    requires |parts| >= 1
    requires forall i :: 0 <= i < |parts| ==> c !in parts[i]
    ensures Split(Join(parts, c), c) == parts
  {
    var n := |parts| - 1;
    if n == 0 {
      assert LastIndexOf(parts[0], c) == -1;
    } else {
      var front := Join(parts[..n], c);
      var s := front + [c] + parts[n];
      assert Join(parts, c) == s;
      var k := LastIndexOf(s, c);
      assert s[|front|] == c;
      assert k == |front|;
      assert s[..k] == front;
      assert s[k + 1..] == parts[n];
      SplitJoin(parts[..n], c);
      assert parts[..n] + [parts[n]] == parts;
    }
  }

  /** The SIMMAP text is its segments, the most recent first, between
      braces: reading the text between the braces and cutting it at ':'
      gives back exactly the recorded segments in reverse order, provided
      the printed states and durations never contain ':'. */
  lemma SimmapTextReadsBack(states: seq<nat>, times: seq<real>, stateText: nat -> string, timeText: real -> string)
    requires 0 < |times| <= |states|
    requires forall x :: ':' !in stateText(x)
    requires forall y :: ':' !in timeText(y)
    ensures var text := SimmapText(states, times, stateText, timeText);
      |text| >= 2 && text[0] == '{' && text[|text| - 1] == '}'
      && Split(text[1..|text| - 1], ':') == Reverse(Segments(states, times, stateText, timeText))
  {
    var segs := Segments(states, times, stateText, timeText);
    var body := Join(Reverse(segs), ':');
    var text := SimmapText(states, times, stateText, timeText);
    assert text == "{" + body + "}";
    assert text[1..|text| - 1] == body;
    forall i | 0 <= i < |segs| ensures ':' !in segs[i] {
      assert segs[i] == stateText(states[i]) + "," + timeText(times[i]);
      assert ':' !in stateText(states[i]);
      assert ':' !in timeText(times[i]);
    }
    SplitJoin(Reverse(segs), ':');
  }
}
