/** The automatic gain control of agchandler.cpp: a peak over a sliding window, searched again only when it has to be,
    and two averages that follow it. */
module AgcHandler {
  import Modulo
  import opened MovingAverage

  datatype Mode = Off | Slow | Fast

  /** window holds the last magnitudes, the oldest first. */
  datatype Agc = Agc(window: seq<real>, peak: real, attack: real, decay: real, hang: int)

  function Max(a: real, b: real): real {
    if a >= b then a else b
  }

  function Greatest(s: seq<real>): real
    requires s != []
  {
    if |s| == 1 then s[0] else Max(Greatest(s[..|s| - 1]), s[|s| - 1])
  }

  /** setMode */
  function HangInterval(rate: int, mode: Mode): int {
    Modulo.Int16(if mode.Slow? then rate / 2 else rate / 8)
  }

  function Moved(window: seq<real>, mag: real): seq<real>
    requires window != []
  {
    window[1..] + [mag]
  }

  function NextPeak(window: seq<real>, peak: real, mag: real): real
    requires window != []
  {
    if mag >= peak then mag else if window[0] >= peak then Greatest(Moved(window, mag)) else peak
  }

  function NextAttack(a: Agc, peak: real, rate: int): real {
    DecayingAverage(a.attack, peak, if peak > a.attack then (rate / 500) as real else (rate / 100) as real)
  }

  /** doAgc, for a sample of this magnitude. */
  function Next(a: Agc, rate: int, mode: Mode, mag: real): Agc
    requires a.window != [] && rate >= 0
  {
    if mode.Off? then a.(window := Moved(a.window, mag))
    else
      var peak := NextPeak(a.window, a.peak, mag);
      var b := Agc(Moved(a.window, mag), peak, NextAttack(a, peak, rate), a.decay, a.hang);
      if peak > a.decay then b.(decay := DecayingAverage(a.decay, peak, (rate / 200) as real), hang := 0)
      else if a.hang < HangInterval(rate, mode) then b.(hang := a.hang + 1)
      else b.(decay := DecayingAverage(a.decay, peak, (rate / 100) as real))
  }

  lemma {:induction false} GreatestIsBound(s: seq<real>)
    requires s != []
    ensures Greatest(s) in s && forall i :: 0 <= i < |s| ==> s[i] <= Greatest(s)
  {
    if |s| > 1 {
      GreatestIsBound(s[..|s| - 1]);
    }
  }

  /** The greatest is the one member that no other exceeds. */
  lemma GreatestIs(s: seq<real>, x: real)
    requires x in s && forall i :: 0 <= i < |s| ==> s[i] <= x
    ensures Greatest(s) == x
  {
    GreatestIsBound(s);
  }

  /** However seldom the window is searched, the peak is its greatest magnitude. */
  lemma PeakIsGreatest(window: seq<real>, peak: real, mag: real)
    requires window != [] && peak == Greatest(window)
    ensures NextPeak(window, peak, mag) == Greatest(Moved(window, mag))
  {
    var moved := Moved(window, mag);
    GreatestIsBound(window);
    assert moved[|moved| - 1] == mag;
    if mag >= peak {
      assert forall i :: 0 <= i < |moved| ==> moved[i] <= mag;
      GreatestIs(moved, mag);
    } else if window[0] < peak {
      var k :| 0 <= k < |window| && window[k] == peak;
      assert moved[k - 1] == peak;
      GreatestIs(moved, peak);
    }
  }

  lemma AverageBetween(before: real, input: real, weight: real, low: real, high: real)
    requires low <= before <= high && low <= input <= high
    ensures low <= DecayingAverage(before, input, weight) <= high
  {
    if weight > 1.0 {
      var u := 1.0 / weight;
      assert 0.0 < u < 1.0;
      Mixed(before, input, u, low, high);
    }
  }

  lemma Product(x: real, y: real)
    requires x >= 0.0 && y >= 0.0
    ensures x * y >= 0.0
  {
  }

  lemma Mixed(a: real, b: real, u: real, low: real, high: real)
    requires 0.0 <= u <= 1.0 && low <= a <= high && low <= b <= high
    ensures low <= b * u + a * (1.0 - u) <= high
  {
    Product(b - low, u);
    Product(a - low, 1.0 - u);
    Product(high - b, u);
    Product(high - a, 1.0 - u);
  }

  // ----- runs

  datatype Event = Sample(mag: real) | Switch(mode: Mode)

  datatype Running = Running(agc: Agc, mode: Mode)

  function React(r: Running, rate: int, e: Event): Running
    requires r.agc.window != [] && rate >= 0
  {
    match e
    case Sample(mag) => r.(agc := Next(r.agc, rate, r.mode, mag))
    case Switch(mode) => Running(r.agc.(hang := 0), mode)
  }

  function After(r: Running, rate: int, events: seq<Event>): (t: Running)
    requires r.agc.window != [] && rate >= 0
    ensures |t.agc.window| == |r.agc.window|
  {
    if events == [] then r else React(After(r, rate, events[..|events| - 1]), rate, events[|events| - 1])
  }

  /** The magnitudes among the events. */
  function Mags(events: seq<Event>): seq<real> {
    if events == [] then [] else
    Mags(events[..|events| - 1]) + (match events[|events| - 1] case Sample(mag) => [mag] case Switch(_) => [])
  }

  /** The control is on, and is only switched between slow and fast. */
  predicate NeverOff(r: Running, events: seq<Event>) {
    !r.mode.Off? && forall i :: 0 <= i < |events| ==> (events[i].Switch? ==> !events[i].mode.Off?)
  }

  /** The last magnitudes, as many as the window holds. */
  function Recent(r: Running, events: seq<Event>): (s: seq<real>)
    ensures |s| == |r.agc.window|
  {
    (r.agc.window + Mags(events))[|Mags(events)|..]
  }

  lemma RecentMoves(window: seq<real>, mags: seq<real>, mag: real)
    requires window != []
    ensures (window + (mags + [mag]))[|mags| + 1..] == Moved((window + mags)[|mags|..], mag)
  {
  }

  lemma {:induction false} WindowIsRecent(r: Running, rate: int, events: seq<Event>)
    requires r.agc.window != [] && rate >= 0
    ensures After(r, rate, events).agc.window == Recent(r, events)
  {
    if events == [] {
      assert r.agc.window + [] == r.agc.window;
    } else {
      var front := events[..|events| - 1];
      WindowIsRecent(r, rate, front);
      match events[|events| - 1]
      case Sample(mag) => RecentMoves(r.agc.window, Mags(front), mag);
      case Switch(_) => assert Mags(front) + [] == Mags(front);
    }
  }

  lemma {:induction false} StaysOn(r: Running, rate: int, events: seq<Event>)
    requires r.agc.window != [] && rate >= 0 && NeverOff(r, events)
    ensures !After(r, rate, events).mode.Off?
  {
    if events != [] {
      StaysOn(r, rate, events[..|events| - 1]);
    }
  }

  /** On a run that starts with the right peak and is never switched off, the peak is after every sample the greatest
      of the last magnitudes. */
  lemma {:induction false} PeakAlways(r: Running, rate: int, events: seq<Event>)
    requires r.agc.window != [] && rate >= 0 && r.agc.peak == Greatest(r.agc.window) && NeverOff(r, events)
    ensures After(r, rate, events).agc.peak == Greatest(Recent(r, events))
  {
    WindowIsRecent(r, rate, events);
    if events == [] {
      assert Recent(r, []) == r.agc.window;
    } else {
      var front := events[..|events| - 1];
      WindowIsRecent(r, rate, front);
      StaysOn(r, rate, front);
      PeakAlways(r, rate, front);
      var before := After(r, rate, front).agc;
      if events[|events| - 1].Sample? {
        PeakIsGreatest(before.window, before.peak, events[|events| - 1].mag);
      }
    }
  }

  predicate Between(s: seq<real>, low: real, high: real) {
    forall i :: 0 <= i < |s| ==> low <= s[i] <= high
  }

  lemma NextBetween(a: Agc, rate: int, mode: Mode, mag: real, low: real, high: real)
    requires a.window != [] && rate >= 0 && !mode.Off?
    requires low <= a.attack <= high && low <= a.decay <= high && low <= NextPeak(a.window, a.peak, mag) <= high
    ensures var b := Next(a, rate, mode, mag); low <= b.attack <= high && low <= b.decay <= high
  {
    var peak := NextPeak(a.window, a.peak, mag);
    AverageBetween(a.attack, peak, if peak > a.attack then (rate / 500) as real else (rate / 100) as real, low, high);
    AverageBetween(a.decay, peak, if peak > a.decay then (rate / 200) as real else (rate / 100) as real, low, high);
  }

  /** Both averages stay within the range of what they began with and the magnitudes seen. */
  lemma {:induction false} AveragesStay(r: Running, rate: int, events: seq<Event>, low: real, high: real)
    requires r.agc.window != [] && rate >= 0 && r.agc.peak == Greatest(r.agc.window) && NeverOff(r, events)
    requires Between(r.agc.window, low, high) && Between(Mags(events), low, high)
    requires low <= r.agc.attack <= high && low <= r.agc.decay <= high
    ensures var b := After(r, rate, events).agc;
            low <= b.attack <= high && low <= b.decay <= high && low <= b.peak <= high
  {
    PeakAlways(r, rate, events);
    GreatestIsBound(Recent(r, events));
    if events != [] {
      var front, last := events[..|events| - 1], events[|events| - 1];
      assert Between(Mags(front), low, high) by {
        assert forall i :: 0 <= i < |Mags(front)| ==> Mags(front)[i] == Mags(events)[i];
      }
      AveragesStay(r, rate, front, low, high);
      StaysOn(r, rate, front);
      var before := After(r, rate, front);
      if last.Sample? {
        NextBetween(before.agc, rate, before.mode, last.mag, low, high);
      }
    }
  }

  // ----- the 16-bit hang interval

  /** Half of the rate fits up to a rate of 65535, an eighth of it up to 262143. */
  lemma HangIntervalFits(rate: int)
    requires 0 <= rate < 0x8000_0000
    ensures HangInterval(rate, Slow) == rate / 2 <==> rate <= 65535
    ensures HangInterval(rate, Fast) == rate / 8 <==> rate <= 262143
  {
  }

  // ----- how the averages follow the peak

  /** An average has covered one part in n of the way to the peak, or all of it. */
  predicate Covers(before: real, after: real, peak: real, n: int) {
    if n <= 1 then after == peak else n as real * (after - before) == peak - before
  }

  lemma AverageCovers(before: real, input: real, n: int)
    ensures Covers(before, DecayingAverage(before, input, n as real), input, n)
  {
    if n > 1 {
      var w := n as real;
      var u := 1.0 / w;
      assert w * u == 1.0;
      ShareOfWay(before, input, w, u);
    }
  }

  lemma ShareOfWay(a: real, b: real, w: real, u: real)
    requires w * u == 1.0
    ensures w * (b * u + a * (1.0 - u) - a) == b - a
  {
    assert b * u + a * (1.0 - u) - a == u * (b - a);
    assert w * (u * (b - a)) == (w * u) * (b - a);
  }

  /** Rising, the averages cover a five-hundredth and a two-hundredth of the rate, falling a hundredth; a rise of the
      decay average begins the hang time. */
  lemma AveragesFollow(a: Agc, rate: int, mode: Mode, mag: real, b: Agc)
    requires a.window != [] && rate >= 0 && !mode.Off? && b == Next(a, rate, mode, mag)
    ensures b.peak > a.attack ==> Covers(a.attack, b.attack, b.peak, rate / 500)
    ensures b.peak <= a.attack ==> Covers(a.attack, b.attack, b.peak, rate / 100)
    ensures b.peak > a.decay ==> Covers(a.decay, b.decay, b.peak, rate / 200) && b.hang == 0
  {
    AverageCovers(a.attack, b.peak, if b.peak > a.attack then rate / 500 else rate / 100);
    AverageCovers(a.decay, b.peak, rate / 200);
  }

  /** Samples only, none of which lifts the peak above the decay average. */
  predicate NoRise(r: Running, rate: int, events: seq<Event>)
    requires r.agc.window != [] && rate >= 0
  {
    events == [] ||
    (var front := events[..|events| - 1];
     && NoRise(r, rate, front) && events[|events| - 1].Sample?
     && After(r, rate, events).agc.peak <= After(r, rate, front).agc.decay)
  }

  /** After a rise, or after the mode was set, the decay average stays as it is for as many samples as the hang interval
      holds, and falls towards the peak with every further one. */
  lemma {:induction false} HangHolds(r: Running, rate: int, events: seq<Event>, t: Running)
    requires r.agc.window != [] && rate >= 0 && !r.mode.Off? && r.agc.hang == 0
    requires NoRise(r, rate, events) && t == After(r, rate, events)
    ensures t.mode == r.mode
    ensures |events| <= HangInterval(rate, r.mode) ==> t.agc.hang == |events| && t.agc.decay == r.agc.decay
    ensures |events| > HangInterval(rate, r.mode) && events != [] ==>
              Covers(After(r, rate, events[..|events| - 1]).agc.decay, t.agc.decay, t.agc.peak, rate / 100)
    ensures |events| > HangInterval(rate, r.mode) ==> t.agc.hang >= HangInterval(rate, r.mode)
    decreases |events|
  {
    if events != [] {
      var front := events[..|events| - 1];
      var before := After(r, rate, front);
      HangHolds(r, rate, front, before);
      AverageCovers(before.agc.decay, t.agc.peak, rate / 100);
    }
  }

  /** Setting the mode begins the hang time anew. */
  lemma SwitchHolds(r: Running, rate: int, mode: Mode, events: seq<Event>, t: Running)
    requires r.agc.window != [] && rate >= 0 && !mode.Off? && |events| <= HangInterval(rate, mode)
    requires NoRise(React(r, rate, Switch(mode)), rate, events)
    requires t == After(React(r, rate, Switch(mode)), rate, events)
    ensures t.mode == mode && t.agc.decay == r.agc.decay
  {
    HangHolds(React(r, rate, Switch(mode)), rate, events, t);
  }

  // ----- the handler

  class Handler {
    const sampleRate: nat
    /** gain_for: a power law, left open here. */
    const gainFor: real -> real
    var mode: Mode
    var currentPeak: real
    var attackAverage: real
    var decayAverage: real
    var hangTime: int
    var hangInterval: int
    const buffer: array<real>
    var bufferP: nat
    /** The last magnitudes, the oldest first. */
    ghost var recent: seq<real>

    ghost predicate Valid()
      reads this, buffer
    {
      && bufferP < buffer.Length && recent == buffer[bufferP..] + buffer[..bufferP]
      && (!mode.Off? ==> hangInterval == HangInterval(sampleRate, mode))
    }

    ghost function State(): Agc
      reads this
    {
      Agc(recent, currentPeak, attackAverage, decayAverage, hangTime)
    }

    /** The window and agcHangtime hold what the memory held. */
    constructor (rate: nat, gain: real -> real)
      requires rate >= 50
      ensures Valid() && fresh(buffer) && buffer.Length == rate / 50 && sampleRate == rate && gainFor == gain
      ensures mode == Off && currentPeak == 0.0 && attackAverage == decayAverage == 1.0
    {
      sampleRate, gainFor := rate, gain;
      mode := Off;
      currentPeak, attackAverage, decayAverage := 0.0, 1.0, 1.0;
      buffer := new real[rate / 50];
      bufferP := 0;
      new;
      recent := buffer[..];
    }

    /** setMode */
    method SetMode(m: Mode)
      requires Valid()
      modifies `mode, `hangTime, `hangInterval
      ensures Valid() && mode == m && State() == old(State()).(hang := 0)
    {
      mode := m;
      hangTime := 0;
      hangInterval := Modulo.Int16(if m.Slow? then sampleRate / 2 else sampleRate / 8);
    }

    /** The magnitude takes the place of the oldest. */
    method Put(mag: real) returns (oldest: real)
      requires Valid()
      modifies `bufferP, `recent, buffer
      ensures Valid() && oldest == old(recent)[0] && recent == Moved(old(recent), mag)
    {
      ghost var before := buffer[..];
      oldest := buffer[bufferP];
      buffer[bufferP] := mag;
      bufferP := (bufferP + 1) % buffer.Length;
      recent := Moved(recent, mag);
      Advanced(before, old(bufferP), mag, buffer[..], bufferP);
    }

    /** The search for the greatest magnitude. */
    method Search(mag: real) returns (peak: real)
      requires Valid() && mag in recent
      ensures peak == Greatest(recent)
    {
      peak := mag;
      for i := 0 to buffer.Length
        invariant forall j :: 0 <= j < i ==> buffer[j] <= peak
        invariant peak >= mag && peak in recent
      {
        if buffer[i] >= peak {
          peak := buffer[i];
          InWindow(buffer[..], bufferP, i);
        }
      }
      forall k | 0 <= k < |recent|
        ensures recent[k] <= peak
      {
      }
      GreatestIs(recent, peak);
    }

    method UpdatePeak(mag: real)
      requires Valid()
      modifies `currentPeak, `bufferP, `recent, buffer
      ensures Valid() && recent == Moved(old(recent), mag)
      ensures currentPeak == if mode.Off? then old(currentPeak) else NextPeak(old(recent), old(currentPeak), mag)
    {
      var oldest := Put(mag);
      if mode.Off? {
        return;
      }
      if mag >= currentPeak {
        currentPeak := mag;
      } else if oldest >= currentPeak {
        assert recent[|recent| - 1] == mag;
        currentPeak := Search(mag);
      }
    }

    method UpdateAttack()
      modifies `attackAverage
      ensures attackAverage == DecayingAverage(old(attackAverage), currentPeak,
                                               if currentPeak > old(attackAverage) then (sampleRate / 500) as real
                                               else (sampleRate / 100) as real)
    {
      if currentPeak > attackAverage {
        attackAverage := DecayingAverage(attackAverage, currentPeak, (sampleRate / 500) as real);
      } else {
        attackAverage := DecayingAverage(attackAverage, currentPeak, (sampleRate / 100) as real);
      }
    }

    /** doAgc */
    method DoAgc(mag: real) returns (gain: real)
      requires Valid()
      modifies `currentPeak, `attackAverage, `decayAverage, `hangTime, `bufferP, `recent, buffer
      ensures Valid() && State() == Next(old(State()), sampleRate, mode, mag)
      ensures gain == if mode.Off? then 1.0 else gainFor(Max(attackAverage, decayAverage))
    {
      UpdatePeak(mag);
      if mode.Off? {
        return 1.0;
      }
      UpdateAttack();
      if currentPeak > decayAverage {
        decayAverage := DecayingAverage(decayAverage, currentPeak, (sampleRate / 200) as real);
        hangTime := 0;
      } else if hangTime < hangInterval {
        hangTime := hangTime + 1;
      } else {
        decayAverage := DecayingAverage(decayAverage, currentPeak, (sampleRate / 100) as real);
      }
      if attackAverage > decayAverage {
        gain := gainFor(attackAverage);
      } else {
        gain := gainFor(decayAverage);
      }
    }
  }

  lemma InWindow(s: seq<real>, p: nat, i: nat)
    requires p < |s| && i < |s|
    ensures s[i] in s[p..] + s[..p]
  {
    var w := s[p..] + s[..p];
    assert s[i] == if i < p then w[|s| - p + i] else w[i - p];
  }
}
