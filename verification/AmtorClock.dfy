/** The bit clock of amtor-decoder.cpp: the sliced signal arrives as about ten fragments for each bit. */
module AmtorClock {
  /** amtorOldFragment and fragmentCount. */
  datatype Clock = Clock(level: bool, count: nat)

  function Tick(c: Clock, f: bool): Clock {
    if f != c.level then Clock(f, 5)
    else if c.count + 1 >= 10 then Clock(f, 0)
    else Clock(f, c.count + 1)
  }

  /** The bit that a fragment completes, if it does. */
  function Completed(c: Clock, f: bool): seq<bool> {
    if f == c.level && c.count + 1 >= 10 then [f] else []
  }

  function ClockAfter(c: Clock, fragments: seq<bool>): Clock
    decreases |fragments|
  {
    if fragments == [] then c else ClockAfter(Tick(c, fragments[0]), fragments[1..])
  }

  function Recovered(c: Clock, fragments: seq<bool>): seq<bool>
    decreases |fragments|
  {
    if fragments == [] then [] else Completed(c, fragments[0]) + Recovered(Tick(c, fragments[0]), fragments[1..])
  }

  function Times(b: bool, n: nat): (s: seq<bool>)
    ensures |s| == n
  {
    if n == 0 then [] else [b] + Times(b, n - 1)
  }

  /** A stretch of the signal at one level: how many bits were sent, and how many fragments were seen of it. */
  datatype Run = Run(level: bool, bits: nat, length: nat)

  predicate InTime(r: Run) {
    r.length >= 1 && 10 * r.bits <= r.length + 4 && r.length <= 10 * r.bits + 5
  }

  /** Every run begins with a transition. */
  predicate Alternate(runs: seq<Run>, level: bool) {
    runs == [] || (runs[0].level != level && Alternate(runs[1..], runs[0].level))
  }

  function BitsSent(runs: seq<Run>): seq<bool> {
    if runs == [] then [] else Times(runs[0].level, runs[0].bits) + BitsSent(runs[1..])
  }

  function FragmentsSeen(runs: seq<Run>): seq<bool> {
    if runs == [] then [] else Times(runs[0].level, runs[0].length) + FragmentsSeen(runs[1..])
  }

  lemma {:induction false} RecoveredConcat(c: Clock, a: seq<bool>, b: seq<bool>)
    ensures Recovered(c, a + b) == Recovered(c, a) + Recovered(ClockAfter(c, a), b)
    ensures ClockAfter(c, a + b) == ClockAfter(ClockAfter(c, a), b)
    decreases |a|
  {
    if a == [] {
      assert a + b == b;
    } else {
      assert (a + b)[0] == a[0] && (a + b)[1..] == a[1..] + b;
      RecoveredConcat(Tick(c, a[0]), a[1..], b);
    }
  }

  lemma {:induction false} SteadyLevel(c: Clock, n: nat)
    requires c.count < 10
    ensures Recovered(c, Times(c.level, n)) == Times(c.level, (c.count + n) / 10)
    ensures ClockAfter(c, Times(c.level, n)) == Clock(c.level, (c.count + n) % 10)
    decreases n
  {
    if n > 0 {
      SteadyLevel(Tick(c, c.level), n - 1);
    }
  }

  /** A run begun by a transition gives (length + 4) / 10 bits, wherever the clock was. */
  lemma RunIsCounted(c: Clock, level: bool, length: nat)
    requires level != c.level && length > 0
    ensures Recovered(c, Times(level, length)) == Times(level, (length + 4) / 10)
    ensures ClockAfter(c, Times(level, length)).level == level
  {
    SteadyLevel(Clock(level, 5), length - 1);
  }

  /** So a run is taken for the right number of bits exactly if it is in time. */
  lemma RightIffInTime(c: Clock, r: Run)
    requires r.level != c.level && r.length > 0
    ensures Recovered(c, Times(r.level, r.length)) == Times(r.level, r.bits) <==> InTime(r)
  {
    RunIsCounted(c, r.level, r.length);
    if Times(r.level, (r.length + 4) / 10) == Times(r.level, r.bits) {
      assert |Times(r.level, (r.length + 4) / 10)| == |Times(r.level, r.bits)|;
    }
  }

  /** Runs in time are recovered as the bits that were sent. */
  lemma {:induction false} BitsAreRecovered(c: Clock, runs: seq<Run>)
    requires Alternate(runs, c.level) && forall i :: 0 <= i < |runs| ==> InTime(runs[i])
    ensures Recovered(c, FragmentsSeen(runs)) == BitsSent(runs)
    decreases |runs|
  {
    if runs != [] {
      var first := Times(runs[0].level, runs[0].length);
      RunIsCounted(c, runs[0].level, runs[0].length);
      RightIffInTime(c, runs[0]);
      RecoveredConcat(c, first, FragmentsSeen(runs[1..]));
      BitsAreRecovered(ClockAfter(c, first), runs[1..]);
    }
  }
}
