/** How cw-decoder.cpp follows the speed of the sender.  Lengths are in microseconds. */
module CwTracking {
  import opened MovingAverage
  import opened Modulo

  const DOT_MAGIC := 1200000
  const WINDOW := 8

  /** What speedAdjust derives from the speed that the user has set. */
  datatype Band = Band(lower: int, upper: int, dotMin: int, dotMax: int)

  function BandOf(wpm: int): Band
    requires 1 <= wpm <= DOT_MAGIC
  {
    var lower, upper := wpm - wpm / 2, wpm + wpm / 2;
    Band(lower, upper, DOT_MAGIC / upper, DOT_MAGIC / lower)
  }

  /** What follows the sender, with the window of thresholdFilter. */
  datatype Pace = Pace(threshold: int, dot: int, dash: int, speed: int, spike: int, window: seq<real>)

  /** A conversion to int32_t, towards zero. */
  function Truncated(x: real): int {
    if x >= 0.0 then x.Floor else -(-x).Floor
  }

  function StartPace(wpm: int): Pace
    requires 1 <= wpm <= DOT_MAGIC
  {
    var dot := DOT_MAGIC / wpm;
    Pace(2 * dot, dot, 3 * dot, wpm, dot / 3, Repeat((2 * dot) as real, WINDOW))
  }

  function MeanOfDotDash(p: Pace, b: Band, dot: int, dash: int): int {
    ((if 3 * b.dotMin < dash < 3 * b.dotMax then dash else p.dash)
     + (if b.dotMin < dot < b.dotMax then dot else p.dot)) / 2
  }

  function NewThreshold(p: Pace, b: Band, prev: int, curr: int): int {
    if prev > 0 && curr > 0 && 2 * prev < curr < 4 * prev then MeanOfDotDash(p, b, prev, curr)
    else if prev > 0 && curr > 0 && 2 * curr < prev < 4 * curr then MeanOfDotDash(p, b, curr, prev)
    else -1
  }

  /** The pace with a window of thresholds. */
  function PaceOf(window: seq<real>): Pace
    requires |window| == WINDOW && Truncated(Sum(window) / WINDOW as real) / 2 != 0
  {
    var threshold := Truncated(Sum(window) / WINDOW as real);
    var dot := threshold / 2;
    Pace(threshold, dot, 3 * dot, Int16(DOT_MAGIC / dot), dot / 3, window)
  }

  predicate WindowFits(window: seq<real>, b: Band) {
    |window| == WINDOW && forall i :: 0 <= i < WINDOW ==> (2 * b.dotMin) as real <= window[i] <= (2 * b.dotMax) as real
  }

  predicate InBand(p: Pace, b: Band) {
    && b.lower >= 1 && 1 <= b.dotMin <= b.dotMax == DOT_MAGIC / b.lower
    && b.dotMin <= p.dot <= b.dotMax && p.dash == 3 * p.dot
    && 2 * b.dotMin <= p.threshold <= 2 * b.dotMax
    && p.spike == p.dot / 3 && (p.speed == Int16(DOT_MAGIC / p.dot) || p.speed >= b.lower)
    && WindowFits(p.window, b)
  }

  function Track(p: Pace, b: Band, prev: int, curr: int): Pace
    requires InBand(p, b)
  {
    var t := NewThreshold(p, b, prev, curr);
    if t > 0 then
      TrackIsInBand(p, b, prev, curr, t);
      PaceOf(p.window[1..] + [t as real])
    else p
  }

  lemma TrackIsInBand(p: Pace, b: Band, prev: int, curr: int, t: int)
    requires InBand(p, b) && t == NewThreshold(p, b, prev, curr) > 0
    ensures var w := p.window[1..] + [t as real];
            Truncated(Sum(w) / WINDOW as real) / 2 != 0 && InBand(PaceOf(w), b)
  {
    var w := p.window[1..] + [t as real];
    ThresholdFits(p, b, prev, curr);
    WindowMoves(p.window, b, t);
    MeanOfWindow(w, b);
  }

  lemma ThresholdFits(p: Pace, b: Band, prev: int, curr: int)
    requires 1 <= b.dotMin <= p.dot <= b.dotMax && p.dash == 3 * p.dot && NewThreshold(p, b, prev, curr) > 0
    ensures 2 * b.dotMin <= NewThreshold(p, b, prev, curr) <= 2 * b.dotMax
  {
  }

  lemma WindowMoves(window: seq<real>, b: Band, t: int)
    requires WindowFits(window, b) && 2 * b.dotMin <= t <= 2 * b.dotMax
    ensures WindowFits(window[1..] + [t as real], b)
  {
  }

  lemma MeanOfWindow(w: seq<real>, b: Band)
    requires WindowFits(w, b) && 0 <= b.dotMin
    ensures 2 * b.dotMin <= Truncated(Sum(w) / WINDOW as real) <= 2 * b.dotMax
  {
    SumBetween(w, (2 * b.dotMin) as real, (2 * b.dotMax) as real);
    MeanBetween(Sum(w), 2 * b.dotMin, 2 * b.dotMax);
  }

  lemma MeanBetween(sum: real, low: int, high: int)
    requires 0 <= low && WINDOW as real * low as real <= sum <= WINDOW as real * high as real
    ensures low <= Truncated(sum / WINDOW as real) <= high
  {
    var mean := sum / WINDOW as real;
    assert low as real <= mean <= high as real;
  }

  /** Setting the speed puts the pace into its band. */
  lemma StartIsInBand(wpm: int)
    requires 1 <= wpm && wpm + wpm / 2 <= DOT_MAGIC
    ensures InBand(StartPace(wpm), BandOf(wpm))
  {
    var b := BandOf(wpm);
    QuotientFalls(DOT_MAGIC, b.lower, wpm);
    QuotientFalls(DOT_MAGIC, wpm, b.upper);
    assert DOT_MAGIC / b.upper >= 1;
  }

  /** The quotient is the largest factor that fits. */
  lemma Largest(a: nat, x: int, q: int)
    requires 0 < x && q * x <= a
    ensures q <= a / x
  {
    var p := a / x;
    assert p * x + a % x == a;
    assert x * (q - p) == q * x - p * x;
    Scale(x, q - p);
  }

  lemma QuotientFalls(a: nat, x: int, y: int)
    requires 0 < x <= y
    ensures 0 <= a / y <= a / x
  {
    var q := a / y;
    assert q * y <= a;
    ProductFalls(q, x, y);
    Largest(a, x, q);
  }

  lemma ProductFalls(q: int, x: int, y: int)
    requires 0 <= q && x <= y
    ensures q * x <= q * y
  {
  }

  /** The shown speed is that of the dots exactly if they are at least 37 microseconds long. */
  lemma SpeedFits(dot: int)
    requires dot >= 1
    ensures Int16(DOT_MAGIC / dot) == DOT_MAGIC / dot <==> dot >= 37
  {
    if dot >= 37 {
      QuotientFalls(DOT_MAGIC, 37, dot);
    } else {
      QuotientFalls(DOT_MAGIC, dot, 36);
      QuotientFalls(DOT_MAGIC, 1, dot);
    }
  }

  /** A pace in its band is no slower than the lower bound of the band, and no faster than its shortest dots; the
      shown speed may wrap around if these are shorter than 37 microseconds. */
  lemma SpeedIsInBand(p: Pace, b: Band)
    requires InBand(p, b)
    ensures b.lower <= DOT_MAGIC / p.dot <= DOT_MAGIC / b.dotMin
    ensures b.dotMin >= 37 ==> p.speed >= b.lower
  {
    SpeedFits(p.dot);
    QuotientFalls(DOT_MAGIC, p.dot, b.dotMax);
    QuotientFalls(DOT_MAGIC, b.dotMin, p.dot);
    Twice(DOT_MAGIC, b.lower);
  }

  lemma Twice(a: nat, x: int)
    requires 0 < x && a / x > 0
    ensures a / (a / x) >= x
  {
    var q := a / x;
    assert x * q <= a;
    Largest(a, q, x);
  }

  // ----- following a sender

  /** The pace after some tones. */
  function Followed(p: Pace, b: Band, prev: int, tones: seq<int>): (q: Pace)
    requires InBand(p, b)
    ensures InBand(q, b)
  {
    if tones == [] then p
    else
      var n := |tones|;
      var before := Followed(p, b, prev, tones[..n - 1]);
      var last := if n == 1 then prev else tones[n - 2];
      TrackStaysInBand(before, b, last, tones[n - 1]);
      Track(before, b, last, tones[n - 1])
  }

  lemma TrackStaysInBand(p: Pace, b: Band, prev: int, curr: int)
    requires InBand(p, b)
    ensures InBand(Track(p, b, prev, curr), b)
  {
    var t := NewThreshold(p, b, prev, curr);
    if t > 0 {
      TrackIsInBand(p, b, prev, curr, t);
    }
  }

  /** Dots of length x and dashes three times as long take turns. */
  predicate Regular(tones: seq<int>, x: int) {
    forall i {:trigger tones[i]} :: 0 <= i < |tones| ==> tones[i] == if i % 2 == 0 then x else 3 * x
  }

  /** The youngest k thresholds of the window are twice x. */
  predicate Settled(p: Pace, k: int, x: int) {
    |p.window| == WINDOW && forall i :: 0 <= i < WINDOW && WINDOW - k <= i ==> p.window[i] == (2 * x) as real
  }

  /** The pace is what its window says; it was not set by the user. */
  predicate Computed(p: Pace) {
    && |p.window| == WINDOW && Truncated(Sum(p.window) / WINDOW as real) / 2 != 0
    && p == PaceOf(p.window)
  }

  lemma OneMoreSettled(p: Pace, b: Band, prev: int, curr: int, k: int, x: int, q: Pace)
    requires InBand(p, b) && Settled(p, k, x) && b.dotMin < x < b.dotMax
    requires (prev == x && curr == 3 * x) || (prev == 3 * x && curr == x)
    requires q == Track(p, b, prev, curr)
    ensures Settled(q, k + 1, x) && Computed(q)
  {
    assert NewThreshold(p, b, prev, curr) == 2 * x;
    TrackIsInBand(p, b, prev, curr, 2 * x);
  }

  lemma LastTwo(tones: seq<int>, x: int)
    requires Regular(tones, x) && |tones| > 1
    ensures var a, c := tones[|tones| - 2], tones[|tones| - 1]; (a == x && c == 3 * x) || (a == 3 * x && c == x)
  {
    var n := |tones|;
    assert tones[n - 1] == if (n - 1) % 2 == 0 then x else 3 * x;
    assert tones[n - 2] == if (n - 2) % 2 == 0 then x else 3 * x;
  }

  lemma FollowedFurther(p: Pace, b: Band, prev: int, tones: seq<int>)
    requires InBand(p, b) && |tones| > 1
    ensures Followed(p, b, prev, tones)
            == Track(Followed(p, b, prev, tones[..|tones| - 1]), b, tones[|tones| - 2], tones[|tones| - 1])
  {
  }

  lemma {:induction false} WindowSettles(p: Pace, b: Band, prev: int, tones: seq<int>, x: int, q: Pace)
    requires InBand(p, b) && Regular(tones, x) && b.dotMin < x < b.dotMax && tones != []
    requires q == Followed(p, b, prev, tones)
    ensures Settled(q, |tones| - 1, x) && (|tones| > 1 ==> Computed(q))
    decreases |tones|
  {
    var n := |tones|;
    if n > 1 {
      var front := tones[..n - 1];
      var before := Followed(p, b, prev, front);
      WindowSettles(p, b, prev, front, x, before);
      LastTwo(tones, x);
      FollowedFurther(p, b, prev, tones);
      OneMoreSettled(before, b, tones[n - 2], tones[n - 1], n - 2, x, q);
    }
  }

  /** A sender whose dots are within the band is followed exactly from the ninth of its alternating tones on,
      whatever the pace was before. */
  lemma LocksOn(p: Pace, b: Band, prev: int, tones: seq<int>, x: int, q: Pace)
    requires InBand(p, b) && Regular(tones, x) && b.dotMin < x < b.dotMax && |tones| > WINDOW
    requires q == Followed(p, b, prev, tones)
    ensures q.dot == x && q.threshold == 2 * x && Locked(q, b)
  {
    WindowSettles(p, b, prev, tones, x, q);
    SettledPace(q, x);
  }

  /** The sender may be slower or faster than the speed that was set, by half of it. */
  lemma LocksOnWithinHalf(wpm: int, p: Pace, prev: int, tones: seq<int>, x: int, q: Pace)
    requires 1 <= wpm && wpm + wpm / 2 <= 1200000 && InBand(p, BandOf(wpm)) && Regular(tones, x) && |tones| > 8
    requires 1200000 / (wpm + wpm / 2) < x < 1200000 / (wpm - wpm / 2) && q == Followed(p, BandOf(wpm), prev, tones)
    ensures q.dot == x && q.threshold == 2 * x && Locked(q, BandOf(wpm))
  {
    LocksOn(p, BandOf(wpm), prev, tones, x, q);
  }

  /** Two tones set a threshold exactly if one is between two and four times as long as the other; it is their mean, if
      both are within the band. */
  lemma PairIsAccepted(p: Pace, b: Band, prev: int, curr: int)
    requires 1 <= b.dotMin <= p.dot && p.dash == 3 * p.dot
    ensures NewThreshold(p, b, prev, curr) > 0
       <==> 0 < prev && 0 < curr && (2 * prev < curr < 4 * prev || 2 * curr < prev < 4 * curr)
    ensures NewThreshold(p, b, prev, curr) > 0 && b.dotMin < (if prev < curr then prev else curr) < b.dotMax
            && 3 * b.dotMin < (if prev < curr then curr else prev) < 3 * b.dotMax ==>
              NewThreshold(p, b, prev, curr) == (prev + curr) / 2
  {
  }

  /** Two paces that differ at most in the speed that is shown. */
  predicate SamePace(p: Pace, q: Pace) {
    p == q.(speed := p.speed)
  }

  /** The decoder follows the sender: its window holds nothing but twice the dot. */
  predicate Locked(p: Pace, b: Band) {
    && InBand(p, b) && b.dotMin < p.dot < b.dotMax && p.threshold == 2 * p.dot
    && forall i :: 0 <= i < WINDOW ==> p.window[i] == (2 * p.dot) as real
  }

  /** Once it does, the tones of this sender change nothing but the speed that is shown. */
  lemma LockedStays(p: Pace, b: Band, prev: int, curr: int)
    requires Locked(p, b) && (curr == p.dot || curr == 3 * p.dot)
    requires prev <= 0 || prev == p.dot || prev == 3 * p.dot
    ensures SamePace(Track(p, b, prev, curr), p)
  {
    var t := NewThreshold(p, b, prev, curr);
    if t > 0 {
      assert t == 2 * p.dot;
      var w := p.window[1..] + [t as real];
      assert w == p.window;
      TrackIsInBand(p, b, prev, curr, t);
      SettledPace(PaceOf(w), p.dot);
    }
  }

  lemma SettledPace(q: Pace, x: int)
    requires Settled(q, WINDOW, x) && Computed(q) && x >= 0
    ensures q.dot == x && q.threshold == 2 * x
  {
    SumBetween(q.window, (2 * x) as real, (2 * x) as real);
    MeanBetween(Sum(q.window), 2 * x, 2 * x);
  }
}
