/** The ring buffer of ringbuffer.h between one writer and one reader: every look at the other side's index,
    every element copied and every index published is a step of its own, and the steps of the two sides may be
    interleaved in any way.  Memory is taken to be sequentially consistent. */
module RingProtocol {
  import opened RingBuffer

  datatype Writer<T> = WriterIdle | Writing(data: seq<T>, done: nat)

  datatype Reader<T> = ReaderIdle | Reading(count: nat, got: seq<T>) | Skipping(asked: nat, again: bool)

  /** What the reader has been through. */
  datatype Event<T> = Got(data: seq<T>) | Peeked(data: seq<T>) | Skipped(count: nat)

  /** written is all that has been published, log what has become of it. */
  datatype State<T> = State(n: nat, buf: seq<T>, w: nat, r: nat, writer: Writer<T>, reader: Reader<T>,
                            written: seq<T>, log: seq<Event<T>>)

  datatype Step<T> =
    | StartWrite(data: seq<T>) | CopyIn | Publish
    | StartRead(count: nat) | CopyOut | FinishRead | FinishPeek
    | StartSkip(count: nat) | FinishSkip

  /** GetRingBufferReadAvailable, see MaskedFill. */
  function Available<T>(s: State<T>): nat
    requires s.r <= s.w + 2 * s.n
  {
    if s.w >= s.r then s.w - s.r else s.w + 2 * s.n - s.r
  }

  function Least(a: nat, b: nat): nat {
    if a < b then a else b
  }

  ghost predicate Enabled<T>(s: State<T>, step: Step<T>) {
    match step
    case StartWrite(_) => s.writer.WriterIdle?
    case CopyIn => s.writer.Writing? && s.writer.done < |s.writer.data|
    case Publish => s.writer.Writing? && s.writer.done == |s.writer.data|
    case StartRead(_) => s.reader.ReaderIdle?
    case CopyOut => s.reader.Reading? && |s.reader.got| < s.reader.count
    case FinishRead => s.reader.Reading? && |s.reader.got| == s.reader.count
    case FinishPeek => s.reader.Reading? && |s.reader.got| == s.reader.count
    case StartSkip(_) => s.reader.ReaderIdle?
    case FinishSkip => s.reader.Skipping?
  }

  /** Writing: look at readIndex; copy; publish writeIndex.  Reading: look at writeIndex; copy; publish readIndex.
      Peeking does not publish.  Skipping looks at writeIndex, and looks again if it was asked for more. */
  function Next<T>(s: State<T>, step: Step<T>): State<T>
    requires Enabled(s, step) && Inv(s)
  {
    match step
    case StartWrite(data) => s.(writer := Writing(data[..Least(|data|, s.n - Available(s))], 0))
    case CopyIn =>
      s.(buf := s.buf[Slot(s.w + s.writer.done, s.n) := s.writer.data[s.writer.done]],
         writer := Writing(s.writer.data, s.writer.done + 1))
    case Publish =>
      s.(w := Wrap(s.w + |s.writer.data|, s.n), writer := WriterIdle, written := s.written + s.writer.data)
    case StartRead(count) => s.(reader := Reading(Least(count, Available(s)), []))
    case CopyOut => s.(reader := Reading(s.reader.count, s.reader.got + [s.buf[Slot(s.r + |s.reader.got|, s.n)]]))
    case FinishRead => Advanced(s, Got(s.reader.got))
    case FinishPeek => s.(reader := ReaderIdle, log := s.log + [Peeked(s.reader.got)])
    case StartSkip(count) => s.(reader := Skipping(count, count > Available(s)))
    case FinishSkip => Advanced(s, Skipped(SkipCount(s)))
  }

  /** AdvanceRingBufferReadIndex */
  function Advanced<T>(s: State<T>, e: Event<T>): State<T> {
    s.(r := Wrap(s.r + Size(e), s.n), reader := ReaderIdle, log := s.log + [e])
  }

  function SkipCount<T>(s: State<T>): nat
    requires s.reader.Skipping? && s.r <= s.w + 2 * s.n
  {
    if s.reader.again then Available(s) else s.reader.asked
  }

  // ----- what has been read

  function Size<T>(e: Event<T>): nat {
    match e
    case Got(data) => |data|
    case Peeked(_) => 0
    case Skipped(count) => count
  }

  function Consumed<T>(log: seq<Event<T>>): nat {
    if log == [] then 0 else Consumed(log[..|log| - 1]) + Size(log[|log| - 1])
  }

  /** Everything delivered is what was written at that place. */
  ghost predicate Faithful<T>(log: seq<Event<T>>, written: seq<T>) {
    log == [] ||
    (var last := log[|log| - 1];
     var before := log[..|log| - 1];
     && Faithful(before, written)
     && (last.Got? || last.Peeked? ==> Consumed(before) + |last.data| <= |written|
                                       && last.data == written[Consumed(before)..Consumed(before) + |last.data|]))
  }

  ghost predicate Unread<T>(s: State<T>, i: int)
    requires 0 <= i && Consumed(s.log) + i < |s.written| <= Consumed(s.log) + s.n && |s.buf| == s.n && s.r < 2 * s.n
  {
    s.buf[Slot(s.r + i, s.n)] == s.written[Consumed(s.log) + i]
  }

  ghost predicate Put<T>(s: State<T>, j: int)
    requires s.writer.Writing? && 0 <= j < |s.writer.data| <= s.n == |s.buf| && s.w < 2 * s.n
  {
    s.buf[Slot(s.w + j, s.n)] == s.writer.data[j]
  }

  ghost predicate Inv<T>(s: State<T>) {
    var consumed := Consumed(s.log);
    && s.n > 0 && |s.buf| == s.n && s.w < 2 * s.n && s.r < 2 * s.n
    && consumed <= |s.written| <= consumed + s.n
    && s.w == Wrap(s.r + (|s.written| - consumed), s.n)
    && (forall i {:trigger Unread(s, i)} :: 0 <= i < |s.written| - consumed ==> Unread(s, i))
    && (s.writer.Writing? ==>
          && s.writer.done <= |s.writer.data| && |s.written| + |s.writer.data| <= consumed + s.n
          && forall j {:trigger Put(s, j)} :: 0 <= j < s.writer.done ==> Put(s, j))
    && (s.reader.Reading? ==>
          && |s.reader.got| <= s.reader.count && consumed + s.reader.count <= |s.written|
          && s.reader.got == s.written[consumed..consumed + |s.reader.got|])
    && (s.reader.Skipping? && !s.reader.again ==> consumed + s.reader.asked <= |s.written|)
    && Faithful(s.log, s.written)
  }

  function Init<T>(n: nat, z: T): (s: State<T>)
    requires n > 0
    ensures Inv(s)
  {
    State(n, seq(n, _ => z), 0, 0, WriterIdle, ReaderIdle, [], [])
  }

  /** What either side takes for the fill is the fill. */
  lemma AvailableIsFill<T>(s: State<T>)
    requires Inv(s)
    ensures Available(s) == |s.written| - Consumed(s.log) <= s.n
  {
  }

  /** Whatever the other side is doing, a write takes all of the data or fills the buffer, a read all that was asked for
      or empties it, and both keep hold of as much until they are done; a skip that need not look again takes exactly
      what was asked for. */
  lemma NothingIsHeldBack<T>(s: State<T>, step: Step<T>, t: State<T>)
    requires Inv(s) && Enabled(s, step) && t == Next(s, step)
    ensures var fill := |s.written| - Consumed(s.log);
            && (step.StartWrite? ==> t.writer.Writing? && t.writer.data <= step.data
                                     && (t.writer.data == step.data || |t.writer.data| + fill == s.n))
            && (step.StartRead? ==> t.reader.Reading? && t.reader.count <= step.count
                                    && (t.reader.count == step.count || t.reader.count == fill))
            && (step.FinishSkip? && !s.reader.again ==> t.log == s.log + [Skipped(s.reader.asked)])
    ensures step.FinishRead? || step.FinishPeek? ==> |s.reader.got| == s.reader.count
    ensures step.FinishRead? ==> t.log == s.log + [Got(s.reader.got)]
    ensures step.FinishPeek? ==> t.log == s.log + [Peeked(s.reader.got)]
    ensures step.Publish? ==> t.written == s.written + s.writer.data
  {
    AvailableIsFill(s);
  }

  /** An element is never copied over one that has not been read, whatever the reader is doing. */
  lemma NothingUnreadIsOverwritten<T>(s: State<T>, i: nat)
    requires Inv(s) && Enabled(s, CopyIn) && i < |s.written| - Consumed(s.log)
    ensures Slot(s.w + s.writer.done, s.n) != Slot(s.r + i, s.n)
  {
  }

  lemma {:induction false} FaithfulGrows<T>(log: seq<Event<T>>, written: seq<T>, more: seq<T>)
    requires Faithful(log, written)
    ensures Faithful(log, written + more)
    decreases |log|
  {
    if log != [] {
      FaithfulGrows(log[..|log| - 1], written, more);
    }
  }

  lemma LogGrows<T>(log: seq<Event<T>>, e: Event<T>, written: seq<T>)
    requires Faithful(log, written)
    requires e.Got? || e.Peeked? ==> Consumed(log) + |e.data| <= |written|
                                     && e.data == written[Consumed(log)..Consumed(log) + |e.data|]
    ensures Consumed(log + [e]) == Consumed(log) + Size(e) && Faithful(log + [e], written)
  {
    var all := log + [e];
    assert all[..|all| - 1] == log && all[|all| - 1] == e;
  }

  // ----- every step keeps the invariant

  lemma StartWriteIsFine<T>(s: State<T>, data: seq<T>)
    requires Inv(s) && Enabled(s, StartWrite(data))
    ensures Inv(Next(s, StartWrite(data)))
  {
    var t := Next(s, StartWrite(data));
    AvailableIsFill(s);
    forall i | 0 <= i < |t.written| - Consumed(t.log)
      ensures Unread(t, i)
    {
      assert Unread(s, i);
    }
  }

  lemma CopyInIsFine<T>(s: State<T>)
    requires Inv(s) && Enabled(s, CopyIn)
    ensures Inv(Next(s, CopyIn))
  {
    var t := Next(s, CopyIn);
    forall i | 0 <= i < |t.written| - Consumed(t.log)
      ensures Unread(t, i)
    {
      assert Unread(s, i);
      NothingUnreadIsOverwritten(s, i);
    }
    forall j | 0 <= j < t.writer.done
      ensures Put(t, j)
    {
      PutStays(s, j);
    }
  }

  lemma PutStays<T>(s: State<T>, j: nat)
    requires Inv(s) && Enabled(s, CopyIn) && j <= s.writer.done
    ensures Put(Next(s, CopyIn), j)
  {
    assert j < s.writer.done ==> Put(s, j);
  }

  lemma PutBecomesUnread<T>(s: State<T>, t: State<T>, i: nat)
    requires Inv(s) && Enabled(s, Publish) && t == Next(s, Publish)
    requires |s.written| <= Consumed(s.log) + i < |t.written|
    ensures Unread(t, i)
  {
    var j := i - (|s.written| - Consumed(s.log));
    assert Put(s, j);
    assert Slot(s.r + i, s.n) == Slot(s.w + j, s.n);
  }

  lemma PublishIsFine<T>(s: State<T>)
    requires Inv(s) && Enabled(s, Publish)
    ensures Inv(Next(s, Publish))
  {
    var t := Next(s, Publish);
    FaithfulGrows(s.log, s.written, s.writer.data);
    forall i | 0 <= i < |t.written| - Consumed(t.log)
      ensures Unread(t, i)
    {
      if i < |s.written| - Consumed(s.log) {
        assert Unread(s, i);
      } else {
        PutBecomesUnread(s, t, i);
      }
    }
    if s.reader.Reading? {
      assert t.written[Consumed(t.log)..Consumed(t.log) + |s.reader.got|] == s.reader.got;
    }
  }

  lemma StartReadIsFine<T>(s: State<T>, step: Step<T>)
    requires Inv(s) && Enabled(s, step) && (step.StartRead? || step.StartSkip?)
    ensures Inv(Next(s, step))
  {
    var t := Next(s, step);
    AvailableIsFill(s);
    SameMemory(s, t);
  }

  /** Nothing that the memory holds depends on the reader's state. */
  lemma SameMemory<T>(s: State<T>, t: State<T>)
    requires Inv(s) && t == s.(reader := t.reader, log := t.log) && Consumed(t.log) == Consumed(s.log)
    ensures forall i {:trigger Unread(t, i)} :: 0 <= i < |t.written| - Consumed(t.log) ==> Unread(t, i)
    ensures t.writer.Writing? ==> forall j {:trigger Put(t, j)} :: 0 <= j < t.writer.done ==> Put(t, j)
  {
    forall i | 0 <= i < |t.written| - Consumed(t.log)
      ensures Unread(t, i)
    {
      assert Unread(s, i);
    }
    if t.writer.Writing? {
      forall j | 0 <= j < t.writer.done
        ensures Put(t, j)
      {
        assert Put(s, j);
      }
    }
  }

  lemma CopyOutIsFine<T>(s: State<T>)
    requires Inv(s) && Enabled(s, CopyOut)
    ensures Inv(Next(s, CopyOut))
  {
    var t, k := Next(s, CopyOut), |s.reader.got|;
    assert Unread(s, k);
    SameMemory(s, t);
    var c := Consumed(s.log);
    assert s.written[c..c + k] + [s.written[c + k]] == s.written[c..c + k + 1];
  }

  lemma FinishPeekIsFine<T>(s: State<T>)
    requires Inv(s) && Enabled(s, FinishPeek)
    ensures Inv(Next(s, FinishPeek))
  {
    LogGrows(s.log, Peeked(s.reader.got), s.written);
    SameMemory(s, Next(s, FinishPeek));
  }

  lemma UnreadMovesUp<T>(s: State<T>, t: State<T>, k: nat, i: nat)
    requires s.n > 0 && |s.buf| == s.n && s.r < 2 * s.n && t.r == Wrap(s.r + k, s.n)
    requires t.buf == s.buf && t.written == s.written && t.n == s.n && Consumed(t.log) == Consumed(s.log) + k
    requires Consumed(t.log) + i < |s.written| <= Consumed(s.log) + s.n && Unread(s, k + i)
    ensures Unread(t, i)
  {
  }

  lemma AdvanceIsFine<T>(s: State<T>, e: Event<T>)
    requires Inv(s) && Size(e) <= |s.written| - Consumed(s.log)
    requires Faithful(s.log + [e], s.written) && Consumed(s.log + [e]) == Consumed(s.log) + Size(e)
    ensures Inv(Advanced(s, e))
  {
    var t := Advanced(s, e);
    forall i | 0 <= i < |t.written| - Consumed(t.log)
      ensures Unread(t, i)
    {
      assert Unread(s, Size(e) + i);
      UnreadMovesUp(s, t, Size(e), i);
    }
    if t.writer.Writing? {
      forall j | 0 <= j < t.writer.done
        ensures Put(t, j)
      {
        assert Put(s, j);
      }
    }
  }

  lemma FinishReadIsFine<T>(s: State<T>)
    requires Inv(s) && Enabled(s, FinishRead)
    ensures Inv(Next(s, FinishRead))
  {
    LogGrows(s.log, Got(s.reader.got), s.written);
    AdvanceIsFine(s, Got(s.reader.got));
  }

  lemma FinishSkipIsFine<T>(s: State<T>)
    requires Inv(s) && Enabled(s, FinishSkip)
    ensures Inv(Next(s, FinishSkip))
  {
    AvailableIsFill(s);
    LogGrows(s.log, Skipped(SkipCount(s)), s.written);
    AdvanceIsFine(s, Skipped(SkipCount(s)));
  }

  lemma NextIsFine<T>(s: State<T>, step: Step<T>)
    requires Inv(s) && Enabled(s, step)
    ensures Inv(Next(s, step))
  {
    match step
    case StartWrite(data) => StartWriteIsFine(s, data);
    case CopyIn => CopyInIsFine(s);
    case Publish => PublishIsFine(s);
    case StartRead(_) => StartReadIsFine(s, step);
    case CopyOut => CopyOutIsFine(s);
    case FinishRead => FinishReadIsFine(s);
    case FinishPeek => FinishPeekIsFine(s);
    case StartSkip(_) => StartReadIsFine(s, step);
    case FinishSkip => FinishSkipIsFine(s);
  }

  // ----- runs

  /** The steps can be taken one after the other. */
  ghost predicate Possible<T>(s: State<T>, steps: seq<Step<T>>)
    requires Inv(s)
    decreases |steps|
  {
    steps == [] ||
    (Enabled(s, steps[0]) && (NextIsFine(s, steps[0]); Possible(Next(s, steps[0]), steps[1..])))
  }

  ghost function After<T>(s: State<T>, steps: seq<Step<T>>): (t: State<T>)
    requires Inv(s) && Possible(s, steps)
    ensures Inv(t)
    decreases |steps|
  {
    if steps == [] then s else
    NextIsFine(s, steps[0]);
    After(Next(s, steps[0]), steps[1..])
  }

  /** All that getDataFromBuffer has delivered, in order. */
  function Delivered<T>(log: seq<Event<T>>): seq<T> {
    if log == [] then [] else
    Delivered(log[..|log| - 1]) + (match log[|log| - 1] case Got(data) => data case _ => [])
  }

  lemma {:induction false} DeliveredIsPrefix<T>(log: seq<Event<T>>, written: seq<T>)
    requires Faithful(log, written) && Consumed(log) <= |written| && forall k :: 0 <= k < |log| ==> !log[k].Skipped?
    ensures Delivered(log) == written[..Consumed(log)]
    decreases |log|
  {
    if log != [] {
      DeliveredIsPrefix(log[..|log| - 1], written);
    }
  }

  /** In every interleaving of one writer and one reader: the buffer holds no more than it has room for, and
      unless the reader skips, what it has got is a prefix of what was written. */
  lemma FifoAlways<T>(n: nat, z: T, steps: seq<Step<T>>, s: State<T>)
    requires n > 0 && Possible(Init(n, z), steps) && s == After(Init(n, z), steps)
    ensures Consumed(s.log) <= |s.written| <= Consumed(s.log) + n
    ensures Faithful(s.log, s.written)
    ensures (forall k :: 0 <= k < |s.log| ==> !s.log[k].Skipped?) ==> Delivered(s.log) <= s.written
  {
    SizeStays(Init(n, z), steps);
    if forall k :: 0 <= k < |s.log| ==> !s.log[k].Skipped? {
      DeliveredIsPrefix(s.log, s.written);
    }
  }

  lemma {:induction false} SizeStays<T>(s: State<T>, steps: seq<Step<T>>)
    requires Inv(s) && Possible(s, steps)
    ensures After(s, steps).n == s.n
    decreases |steps|
  {
    if steps != [] {
      NextIsFine(s, steps[0]);
      SizeStays(Next(s, steps[0]), steps[1..]);
    }
  }

  // ----- skipDataInBuffer looks at the fill twice

  predicate WriterOnly<T>(steps: seq<Step<T>>) {
    forall i :: 0 <= i < |steps| ==> steps[i].StartWrite? || steps[i].CopyIn? || steps[i].Publish?
  }

  /** Begun here, the skip may drop more than it is asked to, if the writer goes on in between. */
  ghost predicate MayOvershoot<T(!new)>(s: State<T>, asked: nat)
    requires Inv(s) && s.reader.ReaderIdle?
  {
    StartReadIsFine(s, StartSkip(asked));
    exists steps :: Overshoots(Next(s, StartSkip(asked)), asked, steps)
  }

  ghost predicate Overshoots<T>(s: State<T>, asked: nat, steps: seq<Step<T>>)
    requires Inv(s)
  {
    WriterOnly(steps) && Possible(s, steps) && After(s, steps).reader.Skipping? && SkipCount(After(s, steps)) > asked
  }

  lemma {:induction false} WriterLeavesReader<T>(s: State<T>, steps: seq<Step<T>>)
    requires Inv(s) && WriterOnly(steps) && Possible(s, steps)
    ensures After(s, steps).reader == s.reader && After(s, steps).n == s.n
    decreases |steps|
  {
    if steps != [] {
      NextIsFine(s, steps[0]);
      assert WriterOnly(steps[1..]);
      WriterLeavesReader(Next(s, steps[0]), steps[1..]);
    }
  }

  lemma OneMoreStep<T>(s: State<T>, step: Step<T>, t: State<T>, steps: seq<Step<T>>)
    requires Inv(s) && Enabled(s, step) && t == Next(s, step) && Inv(t)
    requires Possible(t, steps)
    ensures Possible(s, [step] + steps) && After(s, [step] + steps) == After(t, steps)
  {
    var all := [step] + steps;
    assert all[0] == step && all[1..] == steps;
  }

  /** How the writer comes on: an empty write, no write, a write under way. */
  function Rank<T>(w: Writer<T>): nat {
    match w
    case WriterIdle => 1
    case Writing(data, _) => if data == [] then 2 else 0
  }

  function ToCopy<T>(w: Writer<T>): int {
    match w
    case WriterIdle => 0
    case Writing(data, done) => |data| - done
  }

  /** The next step of a writer that wants to fill the buffer. */
  function Filling<T>(s: State<T>, z: T): Step<T>
    requires Inv(s)
  {
    match s.writer
    case WriterIdle => StartWrite(seq(s.n, _ => z))
    case Writing(data, done) => if done < |data| then CopyIn else Publish
  }

  lemma FillingGoesOn<T>(s: State<T>, z: T, t: State<T>)
    requires Inv(s) && (s.writer.Writing? || Available(s) < s.n) && t == Next(s, Filling(s, z))
    ensures Inv(t) && t.n == s.n && Available(s) <= Available(t) <= s.n
    ensures Available(t) > Available(s) || Rank(t.writer) < Rank(s.writer)
            || (Rank(t.writer) == Rank(s.writer) && 0 <= ToCopy(t.writer) < ToCopy(s.writer))
  {
    NextIsFine(s, Filling(s, z));
    AvailableIsFill(s);
    AvailableIsFill(t);
  }

  /** A writer that nobody stops fills the buffer. */
  lemma {:induction false} FillUp<T>(s: State<T>, z: T) returns (steps: seq<Step<T>>)
    requires Inv(s)
    ensures WriterOnly(steps) && Possible(s, steps) && Available(After(s, steps)) == s.n
    decreases s.n - Available(s), Rank(s.writer), ToCopy(s.writer)
  {
    AvailableIsFill(s);
    if s.writer.WriterIdle? && Available(s) == s.n {
      steps := [];
    } else {
      var step := Filling(s, z);
      var t := Next(s, step);
      FillingGoesOn(s, z, t);
      var rest := FillUp(t, z);
      OneMoreStep(s, step, t, rest);
      steps := [step] + rest;
    }
  }

  /** A skip may drop more than it is asked to exactly if it is asked for more than there is and less than the buffer
      holds. */
  lemma SkipMayOvershoot<T(!new)>(s: State<T>, asked: nat, z: T)
    requires Inv(s) && s.reader.ReaderIdle?
    ensures MayOvershoot(s, asked) <==> Available(s) < asked < s.n
  {
    StartReadIsFine(s, StartSkip(asked));
    var s1 := Next(s, StartSkip(asked));
    if Available(s) < asked < s.n {
      var steps := FillUp(s1, z);
      WriterLeavesReader(s1, steps);
      assert Overshoots(s1, asked, steps);
    }
    if steps :| Overshoots(s1, asked, steps) {
      WriterLeavesReader(s1, steps);
      AvailableIsFill(After(s1, steps));
    }
  }

  /** It happens in a run from the start whenever there is room for it. */
  lemma SkipOvershootsFromStart<T(!new)>(n: nat, asked: nat, z: T)
    requires 0 < asked < n
    ensures MayOvershoot(Init(n, z), asked)
  {
    SkipMayOvershoot(Init(n, z), asked, z);
  }
}
