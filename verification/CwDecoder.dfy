/** The tone detector of cw-decoder.cpp as it runs, one call for each sample. */
module CwDecoder {
  import opened CwMachine
  import opened CwTracking
  import Modulo
  import opened MovingAverage

  class Decoder {
    var defaultSpeed: int
    var tracking: bool
    var squelch: int
    var band: Band

    var dotLength: int
    var dashLength: int
    var threshold: int
    var speed: int
    var noiseSpike: int
    const thresholdFilter: Average
    const spaceFilter: Average
    var spaceLength: int

    var mode: Mode
    var previous: Mode
    var currentTime: int
    var toneStart: int
    var toneEnd: int
    var previousTone: int
    const dataBuffer: array<char>
    var current: nat
    var agcPeak: real
    var noiseLevel: real
    var text: seq<Shown>

    ghost predicate Built()
      reads this, thresholdFilter, spaceFilter, thresholdFilter.vec, spaceFilter.vec
    {
      && thresholdFilter != spaceFilter && thresholdFilter.vec != spaceFilter.vec
      && thresholdFilter.Valid() && spaceFilter.Valid()
      && dataBuffer.Length == CAPACITY && current < CAPACITY
    }

    ghost predicate PaceIs(p: Pace)
      reads this, thresholdFilter
    {
      p == Pace(threshold, dotLength, dashLength, speed, noiseSpike, thresholdFilter.recent)
    }

    /** What all the fields amount to. */
    ghost predicate Represents(k: Keyer)
      requires current <= dataBuffer.Length
      reads this, thresholdFilter, spaceFilter, dataBuffer
    {
      k == Keyer(mode, previous, currentTime, toneStart, toneEnd, dataBuffer[..current], previousTone, spaceLength,
                 spaceFilter.recent, agcPeak, noiseLevel,
                 Pace(threshold, dotLength, dashLength, speed, noiseSpike, thresholdFilter.recent), text)
    }

    /** getMeanofDotDash */
    function MeanOf(dot: int, dash: int, ghost p: Pace): (mean: int)
      requires p.dot == dotLength && p.dash == dashLength
      reads this
      ensures mean == MeanOfDotDash(p, band, dot, dash)
    {
      ((if 3 * band.dotMin < dash < 3 * band.dotMax then dash else dashLength)
       + (if band.dotMin < dot < band.dotMax then dot else dotLength)) / 2
    }

    /** newThreshold */
    function Threshold(prev: int, curr: int, ghost p: Pace): (t: int)
      requires p.dot == dotLength && p.dash == dashLength
      reads this
      ensures t == NewThreshold(p, band, prev, curr)
    {
      if prev > 0 && curr > 0 && 2 * prev < curr < 4 * prev then MeanOf(prev, curr, p)
      else if prev > 0 && curr > 0 && 2 * curr < prev < 4 * curr then MeanOf(curr, prev, p)
      else -1
    }

    /** The tracking at the end of a tone. */
    method FollowSender(length: int, ghost p: Pace)
      requires thresholdFilter.Valid() && PaceIs(p) && InBand(p, band)
      modifies `threshold, `dotLength, `dashLength, `speed, `noiseSpike, thresholdFilter, thresholdFilter.vec
      ensures thresholdFilter.Valid() && PaceIs(Track(p, band, previousTone, length))
    {
      var t := Threshold(previousTone, length, p);
      if t > 0 {
        TrackIsInBand(p, band, previousTone, length, t);
        var mean := thresholdFilter.Filter(t as real);
        threshold := Truncated(mean);
        dotLength := threshold / 2;
        dashLength := 3 * dotLength;
        speed := Modulo.Int16(DOT_MAGIC / dotLength);
        noiseSpike := dotLength / 3;
      }
    }

    /** The part of speedAdjust that sets the pace. */
    method AdjustPace()
      requires Settable(defaultSpeed) && thresholdFilter.Valid() && |thresholdFilter.recent| == WINDOW
      modifies `band, `dotLength, `dashLength, `threshold, `speed, `noiseSpike, thresholdFilter, thresholdFilter.vec
      ensures thresholdFilter.Valid() && band == BandOf(defaultSpeed) && PaceIs(StartPace(defaultSpeed))
    {
      speed := defaultSpeed;
      var range := speed / 2;
      var lower, upper := defaultSpeed - range, defaultSpeed + range;
      dotLength := DOT_MAGIC / defaultSpeed;
      threshold := 2 * dotLength;
      band := Band(lower, upper, DOT_MAGIC / upper, DOT_MAGIC / lower);
      dashLength := 3 * dotLength;
      noiseSpike := dotLength / 3;
      thresholdFilter.Clear((2 * dotLength) as real);
    }

    /** The rest of it. */
    method Restart(ghost k: Keyer)
      requires current <= dataBuffer.Length && Represents(k)
      modifies `toneStart, `toneEnd, `mode, `current, `text
      ensures current == 0 && Represents(k.(toneStart := 0, toneEnd := 0, mode := Idle, symbols := [], text := []))
    {
      toneStart, toneEnd := 0, 0;
      mode := Idle;
      current := 0;
      text := [];
    }

    /** speedAdjust */
    method SpeedAdjust(ghost k: Keyer)
      requires Built() && Settable(defaultSpeed) && Represents(k) && |k.pace.window| == WINDOW
      modifies `band, `dotLength, `dashLength, `threshold, `speed, `noiseSpike, `toneStart, `toneEnd, `mode, `current,
               `text, thresholdFilter, thresholdFilter.vec
      ensures Built() && Represents(Reset(k, defaultSpeed)) && band == BandOf(defaultSpeed)
    {
      AdjustPace();
      Restart(k.(pace := StartPace(defaultSpeed)));
    }

    /** cw_setWordsperMinute */
    method SetWordsPerMinute(n: int, ghost k: Keyer)
      requires Built() && Settable(n) && Represents(k) && |k.pace.window| == WINDOW
      modifies `defaultSpeed, `band, `dotLength, `dashLength, `threshold, `speed, `noiseSpike, `toneStart, `toneEnd,
               `mode, `current, `text, thresholdFilter, thresholdFilter.vec
      ensures Built() && Represents(Reset(k, n)) && band == BandOf(n) && defaultSpeed == n
    {
      defaultSpeed := n;
      SpeedAdjust(k);
    }

    /** cw_setTracking */
    method SetTracking(ghost k: Keyer)
      requires Built() && Settable(defaultSpeed) && Represents(k) && |k.pace.window| == WINDOW
      modifies `tracking, `band, `dotLength, `dashLength, `threshold, `speed, `noiseSpike, `toneStart, `toneEnd, `mode,
               `current, `text, thresholdFilter, thresholdFilter.vec
      ensures Built() && Represents(Reset(k, defaultSpeed)) && band == BandOf(defaultSpeed)
      ensures tracking != old(tracking)
    {
      tracking := !tracking;
      SpeedAdjust(k);
    }

    constructor ()
      ensures Built() && |thresholdFilter.recent| == WINDOW && |spaceFilter.recent| == SPACES
      ensures fresh(thresholdFilter) && fresh(spaceFilter) && fresh(thresholdFilter.vec) && fresh(spaceFilter.vec)
      ensures fresh(dataBuffer)
    {
      thresholdFilter := new Average(WINDOW);
      spaceFilter := new Average(SPACES);
      dataBuffer := new char[CAPACITY];
      current := 0;
    }

    method ClearState(wpm: int, squelchLevel: int)
      modifies `defaultSpeed, `tracking, `squelch, `mode, `previous, `current, `agcPeak, `noiseLevel, `toneStart,
               `toneEnd, `text
      ensures defaultSpeed == wpm && tracking && squelch == squelchLevel && mode == previous == Idle && current == 0
      ensures agcPeak == noiseLevel == 0.0 && toneStart == toneEnd == 0 && text == []
    {
      defaultSpeed, tracking, squelch := wpm, true, squelchLevel;
      mode, previous, current := Idle, Idle, 0;
      agcPeak, noiseLevel := 0.0, 0.0;
      toneStart, toneEnd := 0, 0;
      text := [];
    }

    method ClearSpaces(dot: int)
      requires spaceFilter.Valid()
      modifies `spaceLength, spaceFilter, spaceFilter.vec
      ensures spaceFilter.Valid()
      ensures spaceLength == dot && spaceFilter.recent == Repeat(dot as real, |old(spaceFilter.recent)|)
    {
      spaceLength := dot;
      spaceFilter.Clear(dot as real);
    }

    /** setup_cwDecoder */
    method Setup(wpm: int, squelchLevel: int)
      requires Built() && |thresholdFilter.recent| == WINDOW && |spaceFilter.recent| == SPACES && Settable(wpm)
      modifies `defaultSpeed, `tracking, `squelch, `mode, `previous, `current, `agcPeak, `noiseLevel, `toneStart,
               `toneEnd, `text, `band, `dotLength, `dashLength, `threshold, `speed, `noiseSpike, `spaceLength,
               thresholdFilter, thresholdFilter.vec, spaceFilter, spaceFilter.vec
      ensures Built() && Represents(Start(wpm, currentTime, previousTone)) && band == BandOf(wpm)
      ensures defaultSpeed == wpm && tracking && squelch == squelchLevel
    {
      ClearState(wpm, squelchLevel);
      AdjustPace();
      ClearSpaces(dotLength);
    }

    predicate StrongNow(value: real)
      reads this
    {
      value > 0.67 * agcPeak && value > squelch as real * noiseLevel
    }

    method AddSymbol(c: char, ghost k: Keyer)
      requires current < dataBuffer.Length && Represents(k)
      modifies `current, dataBuffer
      ensures current == old(current) + 1 <= dataBuffer.Length && Represents(k.(symbols := k.symbols + [c]))
    {
      dataBuffer[current] := c;
      current := current + 1;
      assert dataBuffer[..current] == old(dataBuffer[..current]) + [c];
    }

    /** Too many symbols for a letter. */
    method Overrun(ghost k: Keyer)
      requires current <= dataBuffer.Length && Represents(k)
      modifies `current, `mode
      ensures current == 0 && Represents(k.(symbols := [], mode := Idle))
    {
      current := 0;
      mode := Idle;
    }

    method Terminate()
      requires current < dataBuffer.Length
      modifies dataBuffer
      ensures dataBuffer[..current] == old(dataBuffer[..current])
    {
      dataBuffer[current] := 0 as char;
    }

    method FinishTone(length: int, ghost k: Keyer)
      requires thresholdFilter != spaceFilter
      requires thresholdFilter.Valid() && current < dataBuffer.Length && Represents(k) && InBand(k.pace, band)
      modifies `mode, `threshold, `dotLength, `dashLength, `speed, `noiseSpike, `previousTone,
               thresholdFilter, thresholdFilter.vec, dataBuffer
      ensures thresholdFilter.Valid()
      ensures Represents(k.(mode := AfterTone, lastTone := length,
                            pace := if tracking then Track(k.pace, band, k.lastTone, length) else k.pace))
    {
      Terminate();
      mode := AfterTone;
      Follow(length, k.pace);
      previousTone := length;
    }

    method Follow(length: int, ghost p: Pace)
      requires thresholdFilter.Valid() && PaceIs(p) && InBand(p, band)
      modifies `threshold, `dotLength, `dashLength, `speed, `noiseSpike, thresholdFilter, thresholdFilter.vec
      ensures thresholdFilter.Valid()
      ensures PaceIs(if tracking then Track(p, band, previousTone, length) else p)
    {
      if tracking {
        FollowSender(length, p);
      }
    }

    /** A tone that has ended and is no spike. */
    method ReadTone(ghost k: Keyer)
      requires thresholdFilter != spaceFilter
      requires thresholdFilter.Valid() && current < CAPACITY == dataBuffer.Length && Represents(k) && Fits(k, band)
      modifies `current, `mode, `threshold, `dotLength, `dashLength, `speed, `noiseSpike, `previousTone,
               thresholdFilter, thresholdFilter.vec, dataBuffer
      ensures thresholdFilter.Valid() && current < CAPACITY
      ensures Represents(ToneRead(k, Settings(band, tracking, squelch)))
    {
      var length := toneEnd - toneStart;
      var c := if length <= threshold then '.' else '_';
      ghost var added := k.(symbols := k.symbols + [c]);
      AddSymbol(c, k);
      if current >= CAPACITY {
        Overrun(added);
      } else {
        FinishTone(length, added);
      }
    }

    method MeasureSpace(ghost k: Keyer, ghost spaces: seq<real>)
      requires thresholdFilter != spaceFilter && |k.spaces| == SPACES
      requires spaceFilter.Valid() && current <= dataBuffer.Length && Represents(k)
      requires spaces == k.spaces[1..] + [(k.now - k.toneEnd) as real]
      modifies `spaceLength, spaceFilter, spaceFilter.vec
      ensures spaceFilter.Valid()
      ensures Represents(k.(spaces := spaces, space := Truncated(Sum(spaces) / SPACES as real)))
    {
      var mean := spaceFilter.Filter((currentTime - toneEnd) as real);
      spaceLength := Truncated(mean);
    }

    /** A tone that follows a space within a letter. */
    method ReadSpace(ghost k: Keyer)
      requires thresholdFilter != spaceFilter && |k.spaces| == SPACES
      requires spaceFilter.Valid() && current <= dataBuffer.Length && Represents(k)
      modifies `spaceLength, `mode, `previous, `toneStart, spaceFilter, spaceFilter.vec
      ensures spaceFilter.Valid() && Represents(SpaceRead(k))
    {
      MeasureSpace(k, k.spaces[1..] + [(k.now - k.toneEnd) as real]);
      mode := InTone;
      toneStart := currentTime;
      previous := mode;
    }

    method BeQuieter(value: real, ghost k: Keyer)
      requires current <= dataBuffer.Length && Represents(k)
      modifies `noiseLevel
      ensures Represents(Quieter(k, value))
    {
      noiseLevel := DecayingAverage(noiseLevel, value, 500.0);
    }

    method Count(value: real, ghost k: Keyer)
      requires current <= dataBuffer.Length && Represents(k)
      modifies `currentTime, `agcPeak
      ensures Represents(Tick(k, value))
    {
      agcPeak := DecayingAverage(agcPeak, value, if value > agcPeak then 50.0 else 500.0);
      currentTime := currentTime + TICK;
    }

    /** MODE_IDLE */
    method WaitForTone(value: real, ghost k: Keyer)
      requires current <= dataBuffer.Length && Represents(k) && k.mode.Idle?
      modifies `mode, `previous, `currentTime, `current, `toneStart, `noiseLevel
      ensures current <= old(current) && Represents(InSilence(k, Settings(band, tracking, squelch), value))
    {
      if StrongNow(value) {
        previous := mode;
        mode := InTone;
        currentTime := 0;
        current := 0;
        toneStart := currentTime;
      } else {
        BeQuieter(value, k);
      }
    }

    /** MODE_IN_TONE */
    method WatchTone(value: real, ghost k: Keyer)
      requires thresholdFilter != spaceFilter
      requires thresholdFilter.Valid() && current < CAPACITY == dataBuffer.Length && Represents(k) && Fits(k, band)
      modifies `current, `mode, `toneEnd, `threshold, `dotLength, `dashLength, `speed, `noiseSpike, `previousTone,
               `noiseLevel, thresholdFilter, thresholdFilter.vec, dataBuffer
      ensures thresholdFilter.Valid() && current < CAPACITY
      ensures Represents(DuringTone(k, Settings(band, tracking, squelch), value))
    {
      if value > 0.33 * agcPeak {
        return;
      }
      toneEnd := currentTime;
      if toneEnd - toneStart < noiseSpike {
        mode := previous;
      } else {
        ghost var ended := k.(toneEnd := k.now);
        BeQuieter(value, ended);
        ReadTone(Quieter(ended, value));
      }
    }

    /** MODE_AFTER_TONE */
    method WatchSpace(value: real, ghost k: Keyer)
      requires thresholdFilter != spaceFilter
      requires spaceFilter.Valid() && current <= dataBuffer.Length && Represents(k) && |k.spaces| == SPACES
      modifies `current, `mode, `previous, `toneStart, `noiseLevel, `spaceLength, `text, spaceFilter, spaceFilter.vec
      ensures spaceFilter.Valid() && current <= old(current)
      ensures Represents(BetweenTones(k, Settings(band, tracking, squelch), value))
    {
      if StrongNow(value) {
        ReadSpace(k);
      } else {
        BeQuieter(value, k);
        if currentTime - toneEnd >= dotLength + spaceLength {
          text := text + [Letter(dataBuffer[..current])];
          current := 0;
          mode := EndOfLetter;
        }
      }
    }

    /** MODE_END_OF_LETTER */
    method WatchSilence(value: real, ghost k: Keyer)
      requires current <= dataBuffer.Length && Represents(k)
      modifies `mode, `previous, `toneStart, `noiseLevel, `text
      ensures Represents(AfterLetter(k, Settings(band, tracking, squelch), value))
    {
      if StrongNow(value) {
        mode := InTone;
        toneStart := currentTime;
        previous := mode;
      } else {
        BeQuieter(value, k);
        if currentTime - toneEnd > 2 * (spaceLength + dotLength) {
          text := text + [Blank];
          mode := Idle;
        }
      }
    }

    /** processSample, from the amplitude of the filtered sample on. */
    method ProcessSample(value: real, ghost k: Keyer)
      requires Built() && Represents(k) && Fits(k, band)
      modifies `current, `mode, `previous, `currentTime, `toneStart, `toneEnd, `threshold, `dotLength, `dashLength,
               `speed, `noiseSpike, `previousTone, `spaceLength, `agcPeak, `noiseLevel, `text,
               thresholdFilter, thresholdFilter.vec, spaceFilter, spaceFilter.vec, dataBuffer
      ensures Built() && Represents(Step(k, Settings(band, tracking, squelch), value))
    {
      Count(value, k);
      ghost var t := Tick(k, value);
      match mode
      case Idle => WaitForTone(value, t);
      case InTone => WatchTone(value, t);
      case AfterTone => WatchSpace(value, t);
      case EndOfLetter => WatchSilence(value, t);
    }
  }
}
