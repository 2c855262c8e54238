/** The tone state machine of cw-decoder.cpp, on values.  Times are in microseconds. */
module CwMachine {
  import opened MovingAverage
  import opened CwTracking

  const CAPACITY := 32
  const TICK := 500
  const SPACES := 16

  datatype Mode = Idle | InTone | AfterTone | EndOfLetter

  /** What cw_addText is given: the letter with these dots and dashes, or a blank. */
  datatype Shown = Letter(symbols: seq<char>) | Blank

  datatype Settings = Settings(band: Band, tracking: bool, squelch: int)

  /** symbols is what dataBuffer holds up to cwCurrent, spaces the window of spaceFilter. */
  datatype Keyer =
    Keyer(mode: Mode, previous: Mode, now: int, toneStart: int, toneEnd: int, symbols: seq<char>, lastTone: int,
          space: int, spaces: seq<real>, peak: real, noise: real, pace: Pace, text: seq<Shown>)

  predicate Fits(k: Keyer, b: Band) {
    && InBand(k.pace, b) && |k.symbols| < CAPACITY && |k.spaces| == SPACES
    && (k.previous.Idle? || k.previous.InTone?)
  }

  /** A tone may begin. */
  predicate Strong(k: Keyer, s: Settings, value: real) {
    value > 0.67 * k.peak && value > s.squelch as real * k.noise
  }

  function Tick(k: Keyer, value: real): Keyer {
    k.(now := k.now + TICK, peak := DecayingAverage(k.peak, value, if value > k.peak then 50.0 else 500.0))
  }

  function Quieter(k: Keyer, value: real): Keyer {
    k.(noise := DecayingAverage(k.noise, value, 500.0))
  }

  /** A tone that has ended and is no spike. */
  function ToneRead(k: Keyer, s: Settings): Keyer
    requires Fits(k, s.band)
  {
    var length := k.toneEnd - k.toneStart;
    var symbols := k.symbols + [if length <= k.pace.threshold then '.' else '_'];
    if |symbols| >= CAPACITY then k.(symbols := [], mode := Idle)
    else
      k.(symbols := symbols, mode := AfterTone, lastTone := length,
         pace := if s.tracking then Track(k.pace, s.band, k.lastTone, length) else k.pace)
  }

  function SpaceRead(k: Keyer): Keyer
    requires |k.spaces| == SPACES
  {
    var spaces := k.spaces[1..] + [(k.now - k.toneEnd) as real];
    k.(spaces := spaces, space := Truncated(Sum(spaces) / SPACES as real), mode := InTone, toneStart := k.now,
       previous := InTone)
  }

  function InSilence(k: Keyer, s: Settings, value: real): Keyer {
    if Strong(k, s, value) then k.(previous := Idle, mode := InTone, now := 0, toneStart := 0, symbols := [])
    else Quieter(k, value)
  }

  function DuringTone(k: Keyer, s: Settings, value: real): Keyer
    requires Fits(k, s.band)
  {
    if value > 0.33 * k.peak then k
    else if k.now - k.toneStart < k.pace.spike then k.(toneEnd := k.now, mode := k.previous)
    else ToneRead(Quieter(k.(toneEnd := k.now), value), s)
  }

  function BetweenTones(k: Keyer, s: Settings, value: real): Keyer
    requires |k.spaces| == SPACES
  {
    if Strong(k, s, value) then SpaceRead(k)
    else if k.now - k.toneEnd >= k.pace.dot + k.space then
      Quieter(k, value).(text := k.text + [Letter(k.symbols)], symbols := [], mode := EndOfLetter)
    else Quieter(k, value)
  }

  function AfterLetter(k: Keyer, s: Settings, value: real): Keyer {
    if Strong(k, s, value) then k.(mode := InTone, toneStart := k.now, previous := InTone)
    else if k.now - k.toneEnd > 2 * (k.space + k.pace.dot) then
      Quieter(k, value).(text := k.text + [Blank], mode := Idle)
    else Quieter(k, value)
  }

  /** processSample, from the amplitude of the filtered sample on. */
  function Step(before: Keyer, s: Settings, value: real): Keyer
    requires Fits(before, s.band)
  {
    var k := Tick(before, value);
    match k.mode
    case Idle => InSilence(k, s, value)
    case InTone => DuringTone(k, s, value)
    case AfterTone => BetweenTones(k, s, value)
    case EndOfLetter => AfterLetter(k, s, value)
  }

  lemma StepFits(k: Keyer, s: Settings, value: real)
    requires Fits(k, s.band)
    ensures Fits(Step(k, s, value), s.band)
  {
    TrackStaysInBand(k.pace, s.band, k.lastTone, k.now + TICK - k.toneStart);
  }

  /** speedAdjust */
  function Reset(k: Keyer, wpm: int): Keyer
    requires 1 <= wpm <= DOT_MAGIC
  {
    k.(pace := StartPace(wpm), toneStart := 0, toneEnd := 0, mode := Idle, symbols := [], text := [])
  }

  /** setup_cwDecoder; currentTime and lengthofPreviousTone are whatever the memory held. */
  function Start(wpm: int, time: int, tone: int): Keyer
    requires 1 <= wpm <= DOT_MAGIC
  {
    var dot := DOT_MAGIC / wpm;
    Keyer(Idle, Idle, time, 0, 0, [], tone, dot, Repeat(dot as real, SPACES), 0.0, 0.0, StartPace(wpm), [])
  }

  // ----- runs

  datatype Event = Sample(value: real) | SetSpeed(wpm: int) | ToggleTracking | SetSquelch(squelch: int)

  /** The decoder, and the speed that the user has set. */
  datatype Receiver = Receiver(keyer: Keyer, wpm: int, tracking: bool, squelch: int)

  /** A speed that the arithmetic can stand: the spin box that sets it allows 0, which would divide by zero. */
  predicate Settable(wpm: int) {
    1 <= wpm && wpm + wpm / 2 <= DOT_MAGIC
  }

  /** wpm / 2, rounded towards zero. */
  function Half(wpm: int): int {
    if wpm >= 0 then wpm / 2 else -(-wpm / 2)
  }

  /** speedAdjust divides by the speed and by both bounds. */
  predicate Divides(wpm: int) {
    wpm != 0 && wpm - Half(wpm) != 0 && wpm + Half(wpm) != 0
  }

  /** Of the speeds from 0 upwards only 0 divides by zero; of those of 16 bits all from 1 upwards are fit. */
  lemma OnlyZeroFails(wpm: int)
    ensures Divides(wpm) <==> wpm != 0
    ensures 0 <= wpm ==> (Divides(wpm) <==> wpm >= 1)
    ensures -0x8000 <= wpm < 0x8000 ==> (Settable(wpm) <==> wpm >= 1)
  {
  }

  predicate Sound(r: Receiver) {
    Settable(r.wpm) && Fits(r.keyer, BandOf(r.wpm))
  }

  lemma StartIsSound(wpm: int, time: int, tone: int, squelch: int)
    requires Settable(wpm)
    ensures Sound(Receiver(Start(wpm, time, tone), wpm, true, squelch))
  {
    StartIsInBand(wpm);
  }

  /** A decoder just set up. */
  function Begin(wpm: int, time: int, tone: int, squelch: int): (r: Receiver)
    requires Settable(wpm)
    ensures Sound(r)
  {
    StartIsSound(wpm, time, tone, squelch);
    Receiver(Start(wpm, time, tone), wpm, true, squelch)
  }

  function Next(r: Receiver, e: Event): Receiver
    requires Sound(r) && (e.SetSpeed? ==> Settable(e.wpm))
  {
    match e
    case Sample(value) => r.(keyer := Step(r.keyer, Settings(BandOf(r.wpm), r.tracking, r.squelch), value))
    case SetSpeed(wpm) => r.(keyer := Reset(r.keyer, wpm), wpm := wpm)
    case ToggleTracking => r.(keyer := Reset(r.keyer, r.wpm), tracking := !r.tracking)
    case SetSquelch(squelch) => r.(squelch := squelch)
  }

  function After(r: Receiver, events: seq<Event>): (t: Receiver)
    requires Sound(r) && AllSettable(events)
    ensures Sound(t)
    decreases |events|
  {
    if events == [] then r
    else
      var before := After(r, events[..|events| - 1]);
      NextIsSound(before, events[|events| - 1]);
      Next(before, events[|events| - 1])
  }

  lemma NextIsSound(r: Receiver, e: Event)
    requires Sound(r) && (e.SetSpeed? ==> Settable(e.wpm))
    ensures Sound(Next(r, e))
  {
    match e
    case Sample(value) => StepFits(r.keyer, Settings(BandOf(r.wpm), r.tracking, r.squelch), value);
    case SetSpeed(wpm) => StartIsInBand(wpm);
    case ToggleTracking => StartIsInBand(r.wpm);
    case SetSquelch(_) =>
  }

  predicate AllSettable(events: seq<Event>) {
    forall i :: 0 <= i < |events| && events[i].SetSpeed? ==> Settable(events[i].wpm)
  }

  /** The dots lie in the band of the speed that is set, the dashes are three times as long, the threshold lies
      between twice the shortest and twice the longest dot, the speed is not below the lower bound, and the buffer has
      room for another symbol. */
  predicate Bounded(t: Receiver)
    requires Sound(t)
  {
    var p, b := t.keyer.pace, BandOf(t.wpm);
    && 1 <= b.dotMin <= p.dot <= b.dotMax && p.dash == 3 * p.dot
    && 2 * b.dotMin <= p.threshold <= 2 * b.dotMax
    && t.wpm - t.wpm / 2 <= DOT_MAGIC / p.dot && (b.dotMin >= 37 ==> p.speed >= t.wpm - t.wpm / 2)
    && |t.keyer.symbols| < CAPACITY
  }

  /** Whatever is received and set, it stays so, and nothing is divided by zero. */
  lemma AlwaysInBand(r: Receiver, events: seq<Event>)
    requires Sound(r) && AllSettable(events)
    ensures Bounded(After(r, events))
  {
    var t := After(r, events);
    SpeedIsInBand(t.keyer.pace, BandOf(t.wpm));
  }

  /** So it is for every run of a decoder just set up. */
  lemma AlwaysInBandFromStart(wpm: int, time: int, tone: int, squelch: int, events: seq<Event>)
    requires Settable(wpm) && AllSettable(events)
    ensures Bounded(After(Begin(wpm, time, tone, squelch), events))
  {
    AlwaysInBand(Begin(wpm, time, tone, squelch), events);
  }

  // ----- spikes

  function Steps(k: Keyer, s: Settings, values: seq<real>): (t: Keyer)
    requires Fits(k, s.band)
    ensures Fits(t, s.band)
    decreases |values|
  {
    if values == [] then k
    else
      StepFits(k, s, values[0]);
      Steps(Step(k, s, values[0]), s, values[1..])
  }

  /** An amplitude that does not keep a tone up. */
  predicate Weak(k: Keyer, value: real) {
    0.0 <= value <= 0.33 * Tick(k, value).peak
  }

  predicate AllWeak(k: Keyer, s: Settings, values: seq<real>)
    requires Fits(k, s.band)
    decreases |values|
  {
    values == [] ||
    (Weak(k, values[0]) && (StepFits(k, s, values[0]); AllWeak(Step(k, s, values[0]), s, values[1..])))
  }

  /** A tone that has just ended is too short to be an element. */
  predicate Spike(k: Keyer) {
    k.mode.InTone? && k.now + TICK - k.toneStart < k.pace.spike
  }

  /** Another symbol has been read, or one too many for a letter. */
  predicate ElementRead(k: Keyer, t: Keyer) {
    || (t.mode.AfterTone? && |t.symbols| == |k.symbols| + 1 && k.symbols <= t.symbols)
    || (t.mode.Idle? && t.symbols == [] && |k.symbols| == CAPACITY - 1)
  }

  predicate ReadAfter(k: Keyer, s: Settings, values: seq<real>, j: nat)
    requires Fits(k, s.band) && j <= |values|
  {
    ElementRead(k, Steps(k, s, values[..j]))
  }

  lemma OneStep(k: Keyer, s: Settings, values: seq<real>, j: nat)
    requires Fits(k, s.band) && 0 < j <= |values|
    ensures Fits(Step(k, s, values[0]), s.band)
    ensures Steps(k, s, values[..j]) == Steps(Step(k, s, values[0]), s, values[1..][..j - 1])
  {
    StepFits(k, s, values[0]);
    assert values[..j][1..] == values[1..][..j - 1];
  }

  /** A tone that follows another and ends is read as an element at once, or is held for another sample. */
  lemma WeakStep(k: Keyer, s: Settings, value: real)
    requires Fits(k, s.band) && k.mode.InTone? && k.previous.InTone? && Weak(k, value)
    ensures var t := Step(k, s, value);
            if Spike(k) then t == Tick(k, value).(toneEnd := k.now + TICK) else ElementRead(k, t)
  {
  }

  /** Held for long enough, a spike that follows a tone is read as an element. */
  lemma {:induction false} SpikeIsRead(k: Keyer, s: Settings, values: seq<real>) returns (j: nat)
    requires Fits(k, s.band) && k.mode.InTone? && k.previous.InTone? && AllWeak(k, s, values) && values != []
    requires k.now + TICK * |values| - k.toneStart >= k.pace.spike
    ensures 0 < j <= |values| && ReadAfter(k, s, values, j)
    decreases |values|
  {
    WeakStep(k, s, values[0]);
    if Spike(k) {
      StepFits(k, s, values[0]);
      j := SpikeIsRead(Step(k, s, values[0]), s, values[1..]);
      j := j + 1;
    } else {
      j := 1;
    }
    OneStep(k, s, values, j);
  }

  lemma IdleStep(k: Keyer, s: Settings, value: real)
    requires Fits(k, s.band) && Weak(k, value) && (k.mode.Idle? || (Spike(k) && k.previous.Idle?))
    ensures var t := Step(k, s, value); t.mode.Idle? && t.symbols == k.symbols && t.text == k.text
  {
  }

  /** A spike that comes out of silence is forgotten. */
  lemma {:induction false} SpikeIsForgotten(k: Keyer, s: Settings, values: seq<real>, j: nat)
    requires Fits(k, s.band) && AllWeak(k, s, values) && 0 < j <= |values|
    requires k.mode.Idle? || (Spike(k) && k.previous.Idle?)
    ensures var t := Steps(k, s, values[..j]); t.mode.Idle? && t.symbols == k.symbols && t.text == k.text
    decreases j
  {
    IdleStep(k, s, values[0]);
    OneStep(k, s, values, j);
    if j > 1 {
      SpikeIsForgotten(Step(k, s, values[0]), s, values[1..], j - 1);
    }
  }

  /** A tone shorter than the spike length leaves a symbol in the end exactly if cwPreviousState says that it follows a
      tone: it says so after every tone but one out of silence, for it is set after cwState. */
  lemma SpikesStick(k: Keyer, s: Settings, values: seq<real>)
    requires Fits(k, s.band) && Spike(k) && AllWeak(k, s, values)
    requires k.now + TICK * |values| - k.toneStart >= k.pace.spike
    ensures k.previous.InTone? <==> exists j :: 0 < j <= |values| && ReadAfter(k, s, values, j)
  {
    if k.previous.InTone? {
      var j := SpikeIsRead(k, s, values);
    } else if j :| 0 < j <= |values| && ReadAfter(k, s, values, j) {
      SpikeIsForgotten(k, s, values, j);
    }
  }

  // ----- such a tone is met

  lemma OneMore(r: Receiver, events: seq<Event>, e: Event)
    requires Sound(r) && AllSettable(events) && (e.SetSpeed? ==> Settable(e.wpm))
    ensures AllSettable(events + [e]) && Sound(After(r, events))
    ensures After(r, events + [e]) == Next(After(r, events), e)
  {
    assert (events + [e])[..|events|] == events;
  }

  /** A steady tone of amplitude 1 that has lasted for n samples, with tracking off. */
  predicate Held(r: Receiver, wpm: int, n: nat)
    requires Settable(wpm)
  {
    var k := r.keyer;
    && k.mode.InTone? && k.toneStart == 0 && k.now == TICK * n && 0.0 <= k.peak <= 1.0 && k.noise == 0.0
    && k.symbols == [] && k.pace == StartPace(wpm) && !r.tracking && r.wpm == wpm
  }

  lemma PeakStays(before: real, value: real, weight: real)
    requires 0.0 <= before <= 1.0 && 0.0 <= value <= 1.0 && (weight == 50.0 || weight == 500.0)
    ensures 0.0 <= DecayingAverage(before, value, weight) <= 1.0
  {
  }

  lemma ToneBegins(r: Receiver, wpm: int)
    requires Sound(r) && Settable(wpm) && r.keyer.mode.Idle? && r.keyer.peak == 0.0 && r.keyer.noise == 0.0
    requires r.keyer.pace == StartPace(wpm) && !r.tracking && r.wpm == wpm
    ensures Held(Next(r, Sample(1.0)), wpm, 0)
  {
  }

  lemma ToneLasts(r: Receiver, wpm: int, n: nat)
    requires Sound(r) && Settable(wpm) && Held(r, wpm, n)
    ensures Held(Next(r, Sample(1.0)), wpm, n + 1)
  {
    PeakStays(r.keyer.peak, 1.0, 50.0);
    PeakStays(r.keyer.peak, 1.0, 500.0);
  }

  /** Long enough, it is read; and the next sample begins another. */
  lemma ToneEnds(r: Receiver, wpm: int, n: nat)
    requires Sound(r) && Settable(wpm) && Held(r, wpm, n) && TICK * (n + 1) >= StartPace(wpm).spike
    ensures var t := Next(r, Sample(0.0));
            && t.keyer.mode.AfterTone? && 0.0 <= t.keyer.peak <= 1.0 && t.keyer.noise == 0.0
            && t.keyer.pace == StartPace(wpm)
  {
    PeakStays(r.keyer.peak, 0.0, 50.0);
    PeakStays(r.keyer.peak, 0.0, 500.0);
  }

  lemma ToneFollows(r: Receiver)
    requires Sound(r) && r.keyer.mode.AfterTone? && 0.0 <= r.keyer.peak <= 1.0 && r.keyer.noise == 0.0
    requires r.keyer.pace.spike > TICK
    ensures var k := Next(r, Sample(1.0)).keyer; Spike(k) && k.previous.InTone?
  {
    PeakStays(r.keyer.peak, 1.0, 50.0);
    PeakStays(r.keyer.peak, 1.0, 500.0);
  }

  /** A tone held for n samples behind the first, by a decoder just set up. */
  lemma {:induction false} ToneIsHeld(wpm: int, time: int, tone: int, squelch: int, n: nat) returns (events: seq<Event>)
    requires Settable(wpm)
    ensures AllSettable(events) && Held(After(Begin(wpm, time, tone, squelch), events), wpm, n)
    decreases n
  {
    var r := Begin(wpm, time, tone, squelch);
    if n == 0 {
      OneMore(r, [], ToggleTracking);
      assert [] + [ToggleTracking] == [ToggleTracking];
      OneMore(r, [ToggleTracking], Sample(1.0));
      ToneBegins(After(r, [ToggleTracking]), wpm);
      events := [ToggleTracking] + [Sample(1.0)];
    } else {
      var before := ToneIsHeld(wpm, time, tone, squelch, n - 1);
      OneMore(r, before, Sample(1.0));
      ToneLasts(After(r, before), wpm, n - 1);
      events := before + [Sample(1.0)];
    }
  }

  /** At every speed whose spikes are longer than a sample, a run of a decoder just set up leads to a tone that is still
      a spike and follows another tone, so that SpikesStick applies. */
  lemma SpikesAreMet(wpm: int, time: int, tone: int, squelch: int) returns (events: seq<Event>)
    requires Settable(wpm) && StartPace(wpm).spike > TICK
    ensures AllSettable(events)
    ensures var k := After(Begin(wpm, time, tone, squelch), events).keyer; Spike(k) && k.previous.InTone?
  {
    var r, n := Begin(wpm, time, tone, squelch), StartPace(wpm).spike / TICK;
    var held := ToneIsHeld(wpm, time, tone, squelch, n);
    OneMore(r, held, Sample(0.0));
    ToneEnds(After(r, held), wpm, n);
    events := held + [Sample(0.0)];
    OneMore(r, events, Sample(1.0));
    ToneFollows(After(r, events));
    events := events + [Sample(1.0)];
  }
}
