/** What cw-decoder.cpp makes of a sender: from the amplitudes of the samples to the letters that are shown. */
module CwLetters {
  import opened CwMachine
  import opened CwTracking
  import opened MovingAverage

  /** What the decoder is up to, and the sender: the settings, the pace at which tones are told apart, the greatest
      amplitude of a tone, and the least and the greatest gap within a letter. */
  datatype Air = Air(s: Settings, p: Pace, level: real, low: int, high: int)

  /** A tone with the silence behind it, counted in samples. */
  datatype Mark = Mark(dash: bool, tone: seq<real>, gap: nat)

  /** A letter, and whether a word ends with it. */
  datatype Sign = Sign(marks: seq<Mark>, ends: bool)

  // ----- the sender

  predicate Loud(e: Air, value: real) {
    0.67 * e.level < value <= e.level
  }

  /** A tone is a dot or a dash by its length, and no spike. */
  predicate Keyed(e: Air, m: Mark) {
    && m.tone != [] && (forall i :: 0 <= i < |m.tone| ==> Loud(e, m.tone[i]))
    && TICK * |m.tone| >= e.p.spike && (m.dash <==> TICK * |m.tone| > e.p.threshold)
  }

  /** A tone that tracking does not change the pace for. */
  predicate InPace(e: Air, length: int) {
    e.s.tracking ==> length == e.p.dot || length == 3 * e.p.dot
  }

  predicate WithinLetter(e: Air, gap: nat) {
    e.low <= TICK * gap <= e.high && 1 <= gap && TICK * (gap - 1) < e.p.dot + e.low
  }

  predicate BehindLetter(e: Air, gap: nat, ends: bool) {
    && 1 <= gap && e.p.dot + e.high <= TICK * (gap - 1)
    && if ends then TICK * (gap - 1) > 2 * (e.p.dot + e.high) else TICK * (gap - 1) <= 2 * (e.p.dot + e.low)
  }

  predicate Proper(e: Air, sign: Sign) {
    && 0 < |sign.marks| < 32
    && (forall i :: 0 <= i < |sign.marks| ==> Keyed(e, sign.marks[i]) && InPace(e, TICK * |sign.marks[i].tone|))
    && (forall i :: 0 <= i < |sign.marks| - 1 ==> WithinLetter(e, sign.marks[i].gap))
    && BehindLetter(e, sign.marks[|sign.marks| - 1].gap, sign.ends)
  }

  function Symbol(dash: bool): char {
    if dash then '_' else '.'
  }

  /** The dots and dashes that were keyed. */
  function Symbols(marks: seq<Mark>): (t: seq<char>)
    ensures |t| == |marks|
  {
    if marks == [] then [] else Symbols(marks[..|marks| - 1]) + [Symbol(marks[|marks| - 1].dash)]
  }

  function Samples(m: Mark): seq<real> {
    m.tone + Repeat(0.0, m.gap)
  }

  function AllSamples(marks: seq<Mark>): seq<real> {
    if marks == [] then [] else AllSamples(marks[..|marks| - 1]) + Samples(marks[|marks| - 1])
  }

  function Message(signs: seq<Sign>): seq<real> {
    if signs == [] then [] else Message(signs[..|signs| - 1]) + AllSamples(signs[|signs| - 1].marks)
  }

  /** One letter for each that was keyed, and a blank behind each word. */
  function Text(signs: seq<Sign>): seq<Shown> {
    if signs == [] then []
    else
      var last := signs[|signs| - 1];
      Text(signs[..|signs| - 1]) + [Letter(Symbols(last.marks))] + if last.ends then [Blank] else []
  }

  // ----- the decoder

  predicate Level(k: Keyer, e: Air) {
    0.0 <= k.peak <= e.level && 0.0 < e.level && 0.0 <= k.noise && e.s.squelch as real * k.noise < 0.67 * e.level
  }

  predicate Spaced(k: Keyer, e: Air) {
    && 0 <= e.low <= k.space <= e.high && |k.spaces| == SPACES
    && forall i :: 0 <= i < SPACES ==> e.low as real <= k.spaces[i] <= e.high as real
  }

  predicate Steady(k: Keyer, e: Air) {
    SamePace(k.pace, e.p) && (e.s.tracking ==> Locked(e.p, e.s.band) && (k.lastTone <= 0 || InPace(e, k.lastTone)))
  }

  predicate Good(k: Keyer, e: Air) {
    Fits(k, e.s.band) && Level(k, e) && Spaced(k, e) && Steady(k, e) && e.p.dot + e.low >= TICK
  }

  // ----- one sample

  lemma TickKeepsLevel(k: Keyer, e: Air, value: real)
    requires Level(k, e) && 0.0 <= value <= e.level
    ensures Level(Tick(k, value), e)
  {
    PeakMoves(k.peak, value, e.level, 50.0);
    PeakMoves(k.peak, value, e.level, 500.0);
  }

  lemma PeakMoves(before: real, value: real, level: real, weight: real)
    requires 0.0 <= before <= level && 0.0 <= value <= level && (weight == 50.0 || weight == 500.0)
    ensures 0.0 <= DecayingAverage(before, value, weight) <= level
  {
  }

  lemma ScaledDown(squelch: real, noise: real, less: real, bound: real)
    requires 0.0 <= less <= noise && squelch * noise < bound && 0.0 < bound
    ensures squelch * less < bound
  {
    if squelch > 0.0 {
      assert squelch * (noise - less) >= 0.0;
    } else {
      assert squelch * less <= 0.0;
    }
  }

  lemma QuieterKeepsLevel(k: Keyer, e: Air)
    requires Level(k, e)
    ensures Level(Quieter(k, 0.0), e)
  {
    var less := DecayingAverage(k.noise, 0.0, 500.0);
    assert 0.0 <= less <= k.noise;
    ScaledDown(e.s.squelch as real, k.noise, less, 0.67 * e.level);
  }

  lemma LoudIsStrong(k: Keyer, e: Air, value: real)
    requires Level(k, e) && Loud(e, value)
    ensures Level(Tick(k, value), e) && Strong(Tick(k, value), e.s, value) && value > 0.33 * Tick(k, value).peak
  {
    TickKeepsLevel(k, e, value);
  }

  lemma SilenceIsWeak(k: Keyer, e: Air)
    requires Level(k, e)
    ensures Level(Tick(k, 0.0), e) && !Strong(Tick(k, 0.0), e.s, 0.0) && !(0.0 > 0.33 * Tick(k, 0.0).peak)
  {
    TickKeepsLevel(k, e, 0.0);
  }

  // ----- tones

  /** Within a tone that began n samples ago. */
  predicate Sounding(k: Keyer, e: Air, n: nat, symbols: seq<char>, text: seq<Shown>) {
    k.mode.InTone? && k.now == k.toneStart + TICK * n && k.symbols == symbols && k.text == text && Good(k, e)
  }

  /** The symbols of the letter that is being received. */
  function SoFar(k: Keyer): seq<char> {
    if k.mode.AfterTone? then k.symbols else []
  }

  /** A tone may begin: behind another of the same letter it does so in time. */
  predicate Open(k: Keyer, e: Air) {
    && Good(k, e) && !k.mode.InTone? && (k.mode.EndOfLetter? ==> k.symbols == [])
    && (k.mode.AfterTone? ==> e.low <= k.now + TICK - k.toneEnd <= e.high)
  }

  lemma MeanWithin(sum: real, low: int, high: int)
    requires 0 <= low && SPACES as real * low as real <= sum <= SPACES as real * high as real
    ensures low <= Truncated(sum / SPACES as real) <= high
  {
    var mean := sum / SPACES as real;
    assert low as real <= mean <= high as real;
  }

  lemma SpaceStaysWithin(k: Keyer, e: Air)
    requires Spaced(k, e) && e.low <= k.now - k.toneEnd <= e.high
    ensures Spaced(SpaceRead(k), e)
  {
    var spaces := k.spaces[1..] + [(k.now - k.toneEnd) as real];
    SumBetween(spaces, e.low as real, e.high as real);
    MeanWithin(Sum(spaces), e.low, e.high);
  }

  lemma ToneBegins(k: Keyer, e: Air, value: real)
    requires Open(k, e) && Loud(e, value)
    ensures Sounding(Step(k, e.s, value), e, 0, SoFar(k), k.text)
  {
    LoudIsStrong(k, e, value);
    StepFits(k, e.s, value);
    if k.mode.AfterTone? {
      SpaceStaysWithin(Tick(k, value), e);
    }
  }

  lemma ToneLasts(k: Keyer, e: Air, value: real, n: nat)
    requires Sounding(k, e, n, k.symbols, k.text) && Loud(e, value)
    ensures Sounding(Step(k, e.s, value), e, n + 1, k.symbols, k.text)
  {
    LoudIsStrong(k, e, value);
    StepFits(k, e.s, value);
  }

  /** A tone has just been read. */
  predicate Read(k: Keyer, e: Air, symbols: seq<char>, text: seq<Shown>) {
    k.mode.AfterTone? && k.toneEnd == k.now && k.symbols == symbols && k.text == text && Good(k, e)
  }

  lemma ToneEnds(k: Keyer, e: Air, n: nat, dash: bool)
    requires Sounding(k, e, n, k.symbols, k.text) && |k.symbols| + 1 < CAPACITY && InPace(e, TICK * (n + 1))
    requires TICK * (n + 1) >= e.p.spike && (dash <==> TICK * (n + 1) > e.p.threshold)
    ensures Read(Step(k, e.s, 0.0), e, k.symbols + [Symbol(dash)], k.text)
  {
    SilenceIsWeak(k, e);
    QuieterKeepsLevel(Tick(k, 0.0), e);
    StepFits(k, e.s, 0.0);
    if e.s.tracking {
      LockedStays(k.pace, e.s.band, k.lastTone, TICK * (n + 1));
    }
  }

  // ----- runs of samples

  lemma {:induction false} StepsConcat(k: Keyer, s: Settings, a: seq<real>, b: seq<real>)
    requires Fits(k, s.band)
    ensures Steps(k, s, a + b) == Steps(Steps(k, s, a), s, b)
    decreases |a|
  {
    if a == [] {
      assert a + b == b;
    } else {
      StepFits(k, s, a[0]);
      assert (a + b)[1..] == a[1..] + b;
      StepsConcat(Step(k, s, a[0]), s, a[1..], b);
    }
  }

  lemma OneSample(k: Keyer, s: Settings, value: real)
    requires Fits(k, s.band)
    ensures Steps(k, s, [value]) == Step(k, s, value)
  {
    StepFits(k, s, value);
    assert [value][1..] == [];
  }

  lemma LastStep(k: Keyer, s: Settings, values: seq<real>, value: real)
    requires Fits(k, s.band)
    ensures Steps(k, s, values + [value]) == Step(Steps(k, s, values), s, value)
  {
    StepsConcat(k, s, values, [value]);
    OneSample(Steps(k, s, values), s, value);
  }

  lemma {:induction false} ToneIsHeard(k: Keyer, e: Air, tone: seq<real>)
    requires Open(k, e) && tone != [] && forall i :: 0 <= i < |tone| ==> Loud(e, tone[i])
    ensures Sounding(Steps(k, e.s, tone), e, |tone| - 1, SoFar(k), k.text)
    decreases |tone|
  {
    var front, last := tone[..|tone| - 1], tone[|tone| - 1];
    assert tone == front + [last];
    LastStep(k, e.s, front, last);
    if front == [] {
      ToneBegins(k, e, last);
    } else {
      ToneIsHeard(k, e, front);
      ToneLasts(Steps(k, e.s, front), e, last, |front| - 1);
    }
  }

  /** A tone and the first sample of the silence behind it. */
  lemma ToneIsRead(k: Keyer, e: Air, m: Mark)
    requires Open(k, e) && Keyed(e, m) && InPace(e, TICK * |m.tone|) && |SoFar(k)| + 1 < CAPACITY
    ensures Read(Steps(k, e.s, m.tone + [0.0]), e, SoFar(k) + [Symbol(m.dash)], k.text)
  {
    ToneIsHeard(k, e, m.tone);
    LastStep(k, e.s, m.tone, 0.0);
    ToneEnds(Steps(k, e.s, m.tone), e, |m.tone| - 1, m.dash);
  }

  // ----- silence

  /** What has become of a letter after n more samples of silence. */
  predicate Silent(t: Keyer, e: Air, n: nat, space: int, symbols: seq<char>, text: seq<Shown>) {
    && Good(t, e) && t.now == t.toneEnd + TICK * n && t.space == space
    && if TICK * n < e.p.dot + space then t.mode.AfterTone? && t.symbols == symbols && t.text == text
       else if TICK * n <= 2 * (space + e.p.dot) then
         t.mode.EndOfLetter? && t.symbols == [] && t.text == text + [Letter(symbols)]
       else t.mode.Idle? && t.symbols == [] && t.text == text + [Letter(symbols)] + [Blank]
  }

  lemma SilenceLasts(t: Keyer, e: Air, n: nat, space: int, symbols: seq<char>, text: seq<Shown>)
    requires Silent(t, e, n, space, symbols, text)
    ensures Silent(Step(t, e.s, 0.0), e, n + 1, space, symbols, text)
  {
    SilenceIsWeak(t, e);
    QuieterKeepsLevel(Tick(t, 0.0), e);
    StepFits(t, e.s, 0.0);
  }

  lemma {:induction false} SilenceIsHeard(k: Keyer, e: Air, n: nat, symbols: seq<char>, text: seq<Shown>)
    requires Read(k, e, symbols, text)
    ensures Silent(Steps(k, e.s, Repeat(0.0, n)), e, n, k.space, symbols, text)
    decreases n
  {
    if n > 0 {
      SilenceIsHeard(k, e, n - 1, symbols, text);
      LastStep(k, e.s, Repeat(0.0, n - 1), 0.0);
      SilenceLasts(Steps(k, e.s, Repeat(0.0, n - 1)), e, n - 1, k.space, symbols, text);
    }
  }

  lemma {:induction false} SilenceBegins(n: nat)
    requires n > 0
    ensures Repeat(0.0, n) == [0.0] + Repeat(0.0, n - 1)
  {
  }

  lemma MarkIsHeard(k: Keyer, e: Air, m: Mark, t: Keyer)
    requires Open(k, e) && Keyed(e, m) && InPace(e, TICK * |m.tone|) && |SoFar(k)| + 1 < CAPACITY && m.gap > 0
    requires t == Steps(k, e.s, Samples(m))
    ensures Silent(t, e, m.gap - 1, t.space, SoFar(k) + [Symbol(m.dash)], k.text)
  {
    SilenceBegins(m.gap);
    assert Samples(m) == (m.tone + [0.0]) + Repeat(0.0, m.gap - 1);
    ToneIsRead(k, e, m);
    StepsConcat(k, e.s, m.tone + [0.0], Repeat(0.0, m.gap - 1));
    SilenceIsHeard(Steps(k, e.s, m.tone + [0.0]), e, m.gap - 1, SoFar(k) + [Symbol(m.dash)], k.text);
  }

  // ----- letters

  /** No letter has been begun. */
  predicate Ready(k: Keyer, e: Air) {
    Good(k, e) && (k.mode.Idle? || (k.mode.EndOfLetter? && k.symbols == []))
  }

  predicate Begun(e: Air, marks: seq<Mark>) {
    forall i :: 0 <= i < |marks| ==>
      Keyed(e, marks[i]) && InPace(e, TICK * |marks[i].tone|) && WithinLetter(e, marks[i].gap)
  }

  lemma NextMarkIsRead(k: Keyer, e: Air, m: Mark, t: Keyer)
    requires Open(k, e) && Keyed(e, m) && InPace(e, TICK * |m.tone|) && WithinLetter(e, m.gap)
    requires |SoFar(k)| + 1 < CAPACITY && t == Steps(k, e.s, Samples(m))
    ensures Open(t, e) && SoFar(t) == SoFar(k) + [Symbol(m.dash)] && t.text == k.text
  {
    MarkIsHeard(k, e, m, t);
  }

  lemma {:induction false} MarksAreRead(k: Keyer, e: Air, marks: seq<Mark>, t: Keyer)
    requires Ready(k, e) && Begun(e, marks) && |marks| + 1 < CAPACITY && t == Steps(k, e.s, AllSamples(marks))
    ensures Open(t, e) && SoFar(t) == Symbols(marks) && t.text == k.text
    decreases |marks|
  {
    if marks != [] {
      var front, m := marks[..|marks| - 1], marks[|marks| - 1];
      var before := Steps(k, e.s, AllSamples(front));
      MarksAreRead(k, e, front, before);
      StepsConcat(k, e.s, AllSamples(front), Samples(m));
      NextMarkIsRead(before, e, m, t);
    }
  }

  lemma LastMarkIsRead(k: Keyer, e: Air, m: Mark, ends: bool, t: Keyer)
    requires Open(k, e) && Keyed(e, m) && InPace(e, TICK * |m.tone|) && BehindLetter(e, m.gap, ends)
    requires |SoFar(k)| + 1 < CAPACITY && t == Steps(k, e.s, Samples(m))
    ensures Ready(t, e)
    ensures t.text == k.text + [Letter(SoFar(k) + [Symbol(m.dash)])] + if ends then [Blank] else []
  {
    MarkIsHeard(k, e, m, t);
  }

  /** A letter, from its first tone to the next letter or word. */
  lemma LetterIsRead(k: Keyer, e: Air, sign: Sign, t: Keyer)
    requires Ready(k, e) && Proper(e, sign) && t == Steps(k, e.s, AllSamples(sign.marks))
    ensures Ready(t, e) && t.text == k.text + [Letter(Symbols(sign.marks))] + if sign.ends then [Blank] else []
  {
    var marks := sign.marks;
    var front, m := marks[..|marks| - 1], marks[|marks| - 1];
    var before := Steps(k, e.s, AllSamples(front));
    MarksAreRead(k, e, front, before);
    StepsConcat(k, e.s, AllSamples(front), Samples(m));
    LastMarkIsRead(before, e, m, sign.ends, t);
  }

  predicate AllProper(e: Air, signs: seq<Sign>) {
    forall i :: 0 <= i < |signs| ==> Proper(e, signs[i])
  }

  lemma Regroup(a: seq<Shown>, b: seq<Shown>, c: seq<Shown>, d: seq<Shown>)
    ensures a + (b + c + d) == a + b + c + d
  {
  }

  /** Whatever is keyed is shown: for each letter exactly one with its dots and dashes, and a blank behind each word. */
  lemma {:induction false} MessageIsRead(k: Keyer, e: Air, signs: seq<Sign>, t: Keyer)
    requires Ready(k, e) && AllProper(e, signs) && t == Steps(k, e.s, Message(signs))
    ensures Ready(t, e) && t.text == k.text + Text(signs)
    decreases |signs|
  {
    if signs == [] {
      assert k.text + Text(signs) == k.text;
    } else {
      var front, sign := signs[..|signs| - 1], signs[|signs| - 1];
      var before := Steps(k, e.s, Message(front));
      MessageIsRead(k, e, front, before);
      StepsConcat(k, e.s, Message(front), AllSamples(sign.marks));
      LetterIsRead(before, e, sign, t);
      Regroup(k.text, Text(front), [Letter(Symbols(sign.marks))], if sign.ends then [Blank] else []);
    }
  }

  // ----- senders that keep time

  /** Dots and gaps of c samples, dashes and the space between letters three times, that between words seven times as
      long. */
  predicate InTime(sign: Sign, c: nat, level: real) {
    && 0 < |sign.marks| < 32
    && (forall i :: 0 <= i < |sign.marks| ==> MarkInTime(sign.marks[i], c, level))
    && (forall i :: 0 <= i < |sign.marks| - 1 ==> sign.marks[i].gap == c)
    && sign.marks[|sign.marks| - 1].gap == if sign.ends then 7 * c else 3 * c
  }

  predicate MarkInTime(m: Mark, c: nat, level: real) {
    && |m.tone| == (if m.dash then 3 * c else c)
    && forall i :: 0 <= i < |m.tone| ==> 0.67 * level < m.tone[i] <= level
  }

  predicate AllInTime(signs: seq<Sign>, c: nat, level: real) {
    forall i :: 0 <= i < |signs| ==> InTime(signs[i], c, level)
  }

  /** The spaces that the decoder has seen fit to dots of length x. */
  predicate Tolerates(e: Air, x: int) {
    && e.low <= x <= e.high && 0 <= e.low && e.p.spike <= x <= e.p.threshold < 3 * x
    && x - TICK < e.p.dot + e.low && e.p.dot + e.high <= 3 * x - TICK <= 2 * (e.p.dot + e.low)
    && 2 * (e.p.dot + e.high) < 7 * x - TICK && (e.s.tracking ==> x == e.p.dot)
  }

  lemma InTimeIsProper(e: Air, sign: Sign, c: nat)
    requires InTime(sign, c, e.level) && Tolerates(e, TICK * c) && c > 0
    ensures Proper(e, sign)
  {
    forall i | 0 <= i < |sign.marks|
      ensures Keyed(e, sign.marks[i]) && InPace(e, TICK * |sign.marks[i].tone|)
    {
      assert MarkInTime(sign.marks[i], c, e.level);
    }
  }

  /** A decoder with tracking off, just set up for dots of length d, reads every sender whose dots are between two and
      four thirds as long, give or take a sample. */
  predicate Near(d: int, x: int) {
    x >= 500 && 2 * d + 500 <= 3 * x <= 4 * d + 500
  }

  lemma NearIsTolerated(e: Air, d: int, x: int)
    requires Near(d, x) && e.p.dot == d && e.p.threshold == 2 * d && e.p.spike == d / 3 && !e.s.tracking
    requires e.low == (if x < d then x else d) && e.high == (if x < d then d else x)
    ensures Tolerates(e, x) && d + e.low >= TICK
  {
  }

  lemma {:induction false} SendersInTimeAreProper(e: Air, signs: seq<Sign>, c: nat)
    requires AllInTime(signs, c, e.level) && Tolerates(e, TICK * c) && c > 0
    ensures AllProper(e, signs)
  {
    forall i | 0 <= i < |signs|
      ensures Proper(e, signs[i])
    {
      InTimeIsProper(e, signs[i], c);
    }
  }

  /** A decoder that has locked on to a sender, as LocksOn says it does, reads all that is sent from the next letter
      on. */
  lemma LockedSenderIsRead(k: Keyer, e: Air, signs: seq<Sign>, c: nat, t: Keyer)
    requires Ready(k, e) && Locked(e.p, e.s.band) && e.p.dot == TICK * c && AllInTime(signs, c, e.level)
    requires e.low <= TICK * c && TICK * (c - 1) <= 2 * e.low
    requires TICK * c <= e.high <= TICK * (2 * c - 1)
    requires t == Steps(k, e.s, Message(signs))
    ensures Ready(t, e) && t.text == k.text + Text(signs)
  {
    SendersInTimeAreProper(e, signs, c);
    MessageIsRead(k, e, signs, t);
  }

  // ----- from the start

  function Heard(values: seq<real>): seq<Event> {
    seq(|values|, i requires 0 <= i < |values| => Sample(values[i]))
  }

  lemma OneMoreSample(r: Receiver, events: seq<Event>, t: Receiver, k: Keyer, s: Settings, value: real)
    requires Sound(r) && AllSettable(events) && Fits(k, s.band) && Settable(t.wpm)
    requires After(r, events) == t.(keyer := k) && s == Settings(BandOf(t.wpm), t.tracking, t.squelch)
    ensures AllSettable(events + [Sample(value)])
    ensures After(r, events + [Sample(value)]) == t.(keyer := Step(k, s, value))
  {
    OneMore(r, events, Sample(value));
  }

  lemma HeardConcat(values: seq<real>, value: real)
    ensures Heard(values + [value]) == Heard(values) + [Sample(value)]
  {
  }

  lemma {:induction false} SamplesAreSteps(r: Receiver, events: seq<Event>, values: seq<real>, t: Receiver, s: Settings)
    requires Sound(r) && Sound(t) && AllSettable(events) && t == After(r, events)
    requires s == Settings(BandOf(t.wpm), t.tracking, t.squelch)
    ensures AllSettable(events + Heard(values))
    ensures After(r, events + Heard(values)) == t.(keyer := Steps(t.keyer, s, values))
    decreases |values|
  {
    if values == [] {
      assert events + Heard(values) == events;
    } else {
      var front, last := values[..|values| - 1], values[|values| - 1];
      assert values == front + [last];
      SamplesAreSteps(r, events, front, t, s);
      OneMoreSample(r, events + Heard(front), t, Steps(t.keyer, s, front), s, last);
      HeardConcat(front, last);
      assert events + Heard(values) == (events + Heard(front)) + [Sample(last)];
      LastStep(t.keyer, s, front, last);
    }
  }

  /** A decoder just set up with tracking switched off reads every sender whose dots are between two and four thirds as
      long as its own, give or take a sample. */
  lemma SenderIsRead(wpm: int, time: int, tone: int, squelch: int, level: real, signs: seq<Sign>, c: nat)
    requires Settable(wpm) && level > 0.0 && AllInTime(signs, c, level) && Near(1200000 / wpm, 500 * c)
    ensures AllSettable([ToggleTracking] + Heard(Message(signs)))
    ensures After(Begin(wpm, time, tone, squelch), [ToggleTracking] + Heard(Message(signs))).keyer.text == Text(signs)
  {
    var r, d, x := Begin(wpm, time, tone, squelch), DOT_MAGIC / wpm, TICK * c;
    OneMore(r, [], ToggleTracking);
    assert [] + [ToggleTracking] == [ToggleTracking];
    var t := After(r, [ToggleTracking]);
    var e := Air(Settings(BandOf(wpm), false, squelch), StartPace(wpm), level, if x < d then x else d,
                 if x < d then d else x);
    SamplesAreSteps(r, [ToggleTracking], Message(signs), t, e.s);
    NearIsTolerated(e, d, x);
    SendersInTimeAreProper(e, signs, c);
    MessageIsRead(t.keyer, e, signs, Steps(t.keyer, e.s, Message(signs)));
    assert [] + Text(signs) == Text(signs);
  }

  lemma StartIsReady(r: Receiver, wpm: int, e: Air)
    requires Settable(wpm) && e.level > 0.0 && e.p == StartPace(wpm) && e.s.band == BandOf(wpm)
    requires e.low == e.high == e.p.dot && e.p.dot >= TICK && e.s.band.dotMin < e.p.dot < e.s.band.dotMax
    requires Sound(r) && r.wpm == wpm && r.keyer == Start(wpm, r.keyer.now, r.keyer.lastTone) && r.keyer.lastTone <= 0
    ensures Ready(r.keyer, e) && Locked(e.p, e.s.band)
  {
    StartIsInBand(wpm);
  }

  /** With tracking on, so does one whose speed is set to that of the sender, if no tone has been received before. */
  lemma TrackedSenderIsRead(wpm: int, time: int, tone: int, squelch: int, level: real, signs: seq<Sign>, c: nat)
    requires Settable(wpm) && level > 0.0 && AllInTime(signs, c, level) && 1200000 / wpm == 500 * c
    requires BandOf(wpm).dotMin < 500 * c < BandOf(wpm).dotMax && tone <= 0
    ensures AllSettable(Heard(Message(signs)))
    ensures After(Begin(wpm, time, tone, squelch), Heard(Message(signs))).keyer.text == Text(signs)
  {
    var r, x := Begin(wpm, time, tone, squelch), TICK * c;
    var e := Air(Settings(BandOf(wpm), true, squelch), StartPace(wpm), level, x, x);
    SamplesAreSteps(r, [], Message(signs), r, e.s);
    assert [] + Heard(Message(signs)) == Heard(Message(signs));
    StartIsReady(r, wpm, e);
    LockedSenderIsRead(r.keyer, e, signs, c, Steps(r.keyer, e.s, Message(signs)));
    assert [] + Text(signs) == Text(signs);
  }

  // ----- what one sample does

  /** The peak rises by a fiftieth of the difference and falls by a five-hundredth; the noise moves by a
      five-hundredth, and in silence alone; a tone begins exactly at a sample that is louder than two thirds of the
      peak and than the noise allows, and lasts as long as the samples are louder than a third. */
  lemma SampleIsWeighed(k: Keyer, s: Settings, value: real, t: Keyer)
    requires Fits(k, s.band) && t == Step(k, s, value)
    ensures value > k.peak ==> 50.0 * (t.peak - k.peak) == value - k.peak
    ensures value <= k.peak ==> 500.0 * (t.peak - k.peak) == value - k.peak
    ensures t.noise == k.noise || 500.0 * (t.noise - k.noise) == value - k.noise
    ensures t.mode.InTone? && !k.mode.InTone? ==> t.noise == k.noise
    ensures !k.mode.InTone? ==>
              (t.mode.InTone? <==> 100.0 * value > 67.0 * t.peak && value > s.squelch as real * k.noise)
    ensures k.mode.InTone? && k.previous.Idle? ==> (t.mode.InTone? <==> 100.0 * value > 33.0 * t.peak)
    ensures !k.mode.InTone? && t.mode.InTone? ==> (t.previous.Idle? <==> k.mode.Idle?)
  {
  }

  /** A change of the speed or of tracking drops what was shown and what was being received, and the pace is that of the
      speed, dots of 1.2 seconds by the words a minute; another squelch changes nothing else. */
  lemma SettingStartsAnew(r: Receiver, e: Event, t: Receiver)
    requires Sound(r) && (e.SetSpeed? ==> Settable(e.wpm)) && !e.Sample? && t == Next(r, e)
    ensures e.SetSquelch? ==> t == r.(squelch := e.squelch)
    ensures !e.SetSquelch? ==> t.keyer.mode.Idle? && t.keyer.symbols == [] && t.keyer.text == []
    ensures !e.SetSquelch? ==> t.keyer.pace.dot == 1200000 / t.wpm && t.keyer.pace.threshold == 2 * t.keyer.pace.dot
    ensures t.wpm == (if e.SetSpeed? then e.wpm else r.wpm) && t.tracking == (e.ToggleTracking? != r.tracking)
  {
  }

  /** The youngest n gaps in the window were of length g. */
  predicate Learnt(k: Keyer, n: nat, g: int) {
    |k.spaces| == SPACES && forall i :: 0 <= i < SPACES && SPACES - n <= i ==> k.spaces[i] == g as real
  }

  /** A gap within a letter is learnt when the next tone begins; sixteen alike are the space that the decoder reckons
      with.  Nothing else changes it. */
  lemma GapIsLearnt(k: Keyer, s: Settings, value: real, n: nat, g: int, t: Keyer)
    requires Fits(k, s.band) && t == Step(k, s, value) && Learnt(k, n, g) && 0 <= g
    ensures !(k.mode.AfterTone? && t.mode.InTone?) ==> t.spaces == k.spaces && t.space == k.space
    ensures k.mode.AfterTone? && t.mode.InTone? && k.now + 500 - k.toneEnd == g ==> Learnt(t, n + 1, g)
    ensures k.mode.AfterTone? && t.mode.InTone? && k.now + 500 - k.toneEnd == g && n >= 15 ==> t.space == g
  {
    if k.mode.AfterTone? && t.mode.InTone? && k.now + 500 - k.toneEnd == g {
      GapEnters(k.spaces, n, g, t.spaces);
      if n >= 15 {
        SumBetween(t.spaces, g as real, g as real);
        MeanWithin(Sum(t.spaces), g, g);
      }
    }
  }

  lemma GapEnters(spaces: seq<real>, n: nat, g: int, after: seq<real>)
    requires |spaces| == SPACES && after == spaces[1..] + [g as real]
    requires forall i :: 0 <= i < SPACES && SPACES - n <= i ==> spaces[i] == g as real
    ensures forall i :: 0 <= i < SPACES && SPACES - (n + 1) <= i ==> after[i] == g as real
  {
  }
}
