/** The spool of printer.cpp: output_msg and run, one thread each, hand messages over through slots that two
    semaphores count.  Every byte copied, every index moved and every semaphore operation is a step of its own, and
    the steps of the two threads may be interleaved in any way. */
module Spool {
  import opened Modulo

  /** The bytes of a block, and its level and time. */
  datatype Message<B, T> = Message(text: seq<B>, tag: T)

  /** An entry of theData: blk_txt has room for ROOM bytes, of which the first len count. */
  datatype Slot<B, T> = Slot(text: seq<B>, len: nat, tag: T)

  const ROOM := 255

  datatype Producer<B, T> =
    | Idle | Filling(msg: Message<B, T>, copied: nat) | Measured(msg: Message<B, T>) | Filled | Moved

  datatype Consumer<B, T> =
    | Waiting | Held | Reading(len: nat, tag: T, got: seq<B>) | Done | Passed

  /** sent is what output_msg has got a slot for, log what process_msg has been given. */
  datatype State<B, T> =
    State(n: nat, slots: seq<Slot<B, T>>, nextIn: nat, nextOut: nat, free: nat, used: nat,
          producer: Producer<B, T>, consumer: Consumer<B, T>, sent: seq<Message<B, T>>, log: seq<Message<B, T>>)

  datatype Step<B, T> =
    | AcquireFree(msg: Message<B, T>) | CopyByte | SetLength | SetTag | MoveIn | ReleaseUsed
    | AcquireUsed | Call | ReadByte | Return | MoveOut | ReleaseFree

  /** x modulo n, for x below 2 * n. */
  function Place(x: nat, n: nat): nat {
    if x < n then x else x - n
  }

  lemma PlaceIsRemainder(x: nat, n: nat)
    requires x < n
    ensures Place(x + 1, n) == (x + 1) % n < n
  {
    Next(x, n);
  }

  predicate Enabled<B, T>(s: State<B, T>, step: Step<B, T>) {
    match step
    case AcquireFree(msg) => s.producer.Idle? && s.free > 0 && |msg.text| <= ROOM
    case CopyByte => s.producer.Filling? && s.producer.copied < |s.producer.msg.text|
    case SetLength => s.producer.Filling? && s.producer.copied == |s.producer.msg.text|
    case SetTag => s.producer.Measured?
    case MoveIn => s.producer.Filled?
    case ReleaseUsed => s.producer.Moved?
    case AcquireUsed => s.consumer.Waiting? && s.used > 0
    case Call => s.consumer.Held?
    case ReadByte => s.consumer.Reading? && |s.consumer.got| < s.consumer.len
    case Return => s.consumer.Reading? && |s.consumer.got| == s.consumer.len
    case MoveOut => s.consumer.Done?
    case ReleaseFree => s.consumer.Passed?
  }

  function Take<B, T>(s: State<B, T>, step: Step<B, T>): State<B, T>
    requires Enabled(s, step) && Inv(s)
  {
    var there := s.slots[s.nextIn];
    var here := s.slots[s.nextOut];
    match step
    case AcquireFree(msg) => s.(free := s.free - 1, producer := Filling(msg, 0), sent := s.sent + [msg])
    case CopyByte =>
      var k := s.producer.copied;
      s.(slots := s.slots[s.nextIn := there.(text := there.text[k := s.producer.msg.text[k]])],
         producer := Filling(s.producer.msg, k + 1))
    case SetLength =>
      s.(slots := s.slots[s.nextIn := there.(len := |s.producer.msg.text|)], producer := Measured(s.producer.msg))
    case SetTag => s.(slots := s.slots[s.nextIn := there.(tag := s.producer.msg.tag)], producer := Filled)
    case MoveIn => s.(nextIn := Place(s.nextIn + 1, s.n), producer := Moved)
    case ReleaseUsed => s.(used := s.used + 1, producer := Idle)
    case AcquireUsed => s.(used := s.used - 1, consumer := Held)
    case Call => s.(consumer := Reading(here.len, here.tag, []))
    case ReadByte => s.(consumer := s.consumer.(got := s.consumer.got + [here.text[|s.consumer.got|]]))
    case Return => s.(consumer := Done, log := s.log + [Message(s.consumer.got, s.consumer.tag)])
    case MoveOut => s.(nextOut := Place(s.nextOut + 1, s.n), consumer := Passed)
    case ReleaseFree => s.(free := s.free + 1, consumer := Waiting)
  }

  function One(b: bool): nat {
    if b then 1 else 0
  }

  /** The producer, or the consumer, is at work on a slot. */
  predicate Busy<B, T>(p: Producer<B, T>) {
    p.Filling? || p.Measured? || p.Filled?
  }

  predicate Emptying<B, T>(c: Consumer<B, T>) {
    c.Held? || c.Reading?
  }

  /** How many messages the producer has put down, and how many the consumer has left. */
  function In<B, T>(s: State<B, T>): int {
    |s.sent| - One(Busy(s.producer))
  }

  function Out<B, T>(s: State<B, T>): int {
    |s.log| - One(s.consumer.Done?)
  }

  ghost predicate Stored<B, T>(slot: Slot<B, T>, msg: Message<B, T>) {
    |msg.text| == slot.len <= |slot.text| && slot.tag == msg.tag && slot.text[..slot.len] == msg.text
  }

  /** The j-th slot from nextOut on holds its message. */
  ghost predicate Kept<B, T>(s: State<B, T>, j: int)
    requires 0 <= j < In(s) - Out(s) <= s.n == |s.slots| && s.nextOut < s.n && Out(s) >= 0
  {
    Stored(s.slots[Place(s.nextOut + j, s.n)], s.sent[Out(s) + j])
  }

  ghost predicate Shaped<B, T>(s: State<B, T>) {
    && s.n > 0 && |s.slots| == s.n && s.nextIn < s.n && s.nextOut < s.n
    && (forall i :: 0 <= i < s.n ==> |s.slots[i].text| == ROOM)
    && (forall i :: 0 <= i < |s.sent| ==> |s.sent[i].text| <= ROOM)
  }

  /** Every slot is free, used, or in the hands of one of the two. */
  ghost predicate Counted<B, T>(s: State<B, T>) {
    && s.free + s.used + One(!s.producer.Idle?) + One(!s.consumer.Waiting?) == s.n
    && s.used + |s.log| + One(Emptying(s.consumer)) == |s.sent| - One(!s.producer.Idle?)
    && Out(s) >= 0
    && s.nextIn == Place(s.nextOut + (In(s) - Out(s)), s.n)
  }

  ghost predicate PartlyFilled<B, T>(s: State<B, T>)
    requires Shaped(s)
  {
    match s.producer
    case Filling(msg, k) =>
      s.sent != [] && msg == s.sent[|s.sent| - 1] && k <= |msg.text| && s.slots[s.nextIn].text[..k] == msg.text[..k]
    case Measured(msg) =>
      && s.sent != [] && msg == s.sent[|s.sent| - 1]
      && s.slots[s.nextIn].text[..|msg.text|] == msg.text && s.slots[s.nextIn].len == |msg.text|
    case Filled => s.sent != [] && Stored(s.slots[s.nextIn], s.sent[|s.sent| - 1])
    case _ => true
  }

  ghost predicate PartlyRead<B, T>(s: State<B, T>) {
    s.consumer.Reading? ==>
      && |s.log| < |s.sent|
      && var msg := s.sent[|s.log|];
         && s.consumer.len == |msg.text| && s.consumer.tag == msg.tag
         && |s.consumer.got| <= s.consumer.len && s.consumer.got == msg.text[..|s.consumer.got|]
  }

  ghost predicate Inv<B, T>(s: State<B, T>) {
    && Shaped(s) && Counted(s) && PartlyFilled(s) && PartlyRead(s)
    && (forall j {:trigger Kept(s, j)} :: 0 <= j < In(s) - Out(s) ==> Kept(s, j))
    && s.log <= s.sent
  }

  function Init<B, T>(n: nat, b: B, t: T): (s: State<B, T>)
    requires n > 0
    ensures Inv(s)
  {
    State(n, seq(n, _ => Slot(seq(ROOM, _ => b), 0, t)), 0, 0, n, 0, Idle, Waiting, [], [])
  }

  /** The slot that is being filled is none of those that are waiting or being read. */
  lemma NoSlotIsShared<B, T>(s: State<B, T>, j: int)
    requires Inv(s) && Busy(s.producer) && 0 <= j < In(s) - Out(s)
    ensures s.nextIn != Place(s.nextOut + j, s.n)
  {
  }

  /** What the thread of the printer does. */
  predicate OfPrinter<B, T>(step: Step<B, T>) {
    match step
    case AcquireUsed | Call | ReadByte | Return | MoveOut | ReleaseFree => true
    case _ => false
  }

  /** While a message waits for a slot, the printer has something to do. */
  lemma NeverStuck<B, T>(s: State<B, T>)
    requires Inv(s) && s.producer.Idle? && s.free == 0
    ensures exists step: Step<B, T> :: OfPrinter(step) && Enabled(s, step)
  {
    var step: Step<B, T> := match s.consumer
      case Waiting => AcquireUsed
      case Held => Call
      case Reading(len, _, got) => if |got| < len then ReadByte else Return
      case Done => MoveOut
      case Passed => ReleaseFree;
    assert OfPrinter(step) && Enabled(s, step);
  }

  // ----- every step keeps the invariant

  /** The slots stay as they are. */
  lemma KeptStays<B, T>(s: State<B, T>, t: State<B, T>)
    requires Inv(s) && t.slots == s.slots && t.n == s.n && t.nextOut == s.nextOut && s.sent <= t.sent
    requires In(t) == In(s) && Out(t) == Out(s)
    ensures forall j {:trigger Kept(t, j)} :: 0 <= j < In(t) - Out(t) ==> Kept(t, j)
  {
    forall j | 0 <= j < In(t) - Out(t)
      ensures Kept(t, j)
    {
      assert Kept(s, j);
    }
  }

  lemma AcquireFreeIsFine<B, T>(s: State<B, T>, msg: Message<B, T>)
    requires Inv(s) && Enabled(s, AcquireFree(msg))
    ensures Inv(Take(s, AcquireFree(msg)))
  {
    KeptStays(s, Take(s, AcquireFree(msg)));
  }

  /** Only the slot at nextIn is written. */
  lemma OthersStay<B, T>(s: State<B, T>, t: State<B, T>, x: Slot<B, T>)
    requires Inv(s) && Busy(s.producer) && Busy(t.producer)
    requires t == s.(slots := s.slots[s.nextIn := x], producer := t.producer)
    ensures forall j {:trigger Kept(t, j)} :: 0 <= j < In(t) - Out(t) ==> Kept(t, j)
  {
    forall j | 0 <= j < In(t) - Out(t)
      ensures Kept(t, j)
    {
      assert Kept(s, j);
      NoSlotIsShared(s, j);
    }
  }

  lemma CopyByteIsFine<B, T>(s: State<B, T>)
    requires Inv(s) && Enabled(s, CopyByte)
    ensures Inv(Take(s, CopyByte))
  {
    var t, k := Take(s, CopyByte), s.producer.copied;
    OthersStay(s, t, t.slots[s.nextIn]);
    assert t.slots[t.nextIn].text[..k + 1] == s.slots[s.nextIn].text[..k] + [s.producer.msg.text[k]];
  }

  lemma SetIsFine<B, T>(s: State<B, T>, step: Step<B, T>)
    requires Inv(s) && Enabled(s, step) && (step.SetLength? || step.SetTag?)
    ensures Inv(Take(s, step))
  {
    var t := Take(s, step);
    OthersStay(s, t, t.slots[s.nextIn]);
  }

  lemma PutDown<B, T>(s: State<B, T>, t: State<B, T>, j: int)
    requires Inv(s) && Enabled(s, MoveIn) && t == Take(s, MoveIn) && 0 <= j < In(t) - Out(t)
    ensures Kept(t, j)
  {
    if j < In(s) - Out(s) {
      assert Kept(s, j);
    }
  }

  lemma MoveInIsFine<B, T>(s: State<B, T>)
    requires Inv(s) && Enabled(s, MoveIn)
    ensures Inv(Take(s, MoveIn))
  {
    var t := Take(s, MoveIn);
    forall j | 0 <= j < In(t) - Out(t)
      ensures Kept(t, j)
    {
      PutDown(s, t, j);
    }
  }

  lemma HandOverIsFine<B, T>(s: State<B, T>, step: Step<B, T>)
    requires Inv(s) && Enabled(s, step) && (step.ReleaseUsed? || step.AcquireUsed? || step.ReleaseFree?)
    ensures Inv(Take(s, step))
  {
    KeptStays(s, Take(s, step));
  }

  lemma ReadIsFine<B, T>(s: State<B, T>, step: Step<B, T>)
    requires Inv(s) && Enabled(s, step) && (step.Call? || step.ReadByte?)
    ensures Inv(Take(s, step))
  {
    assert Kept(s, 0);
    KeptStays(s, Take(s, step));
  }

  lemma ReturnIsFine<B, T>(s: State<B, T>)
    requires Inv(s) && Enabled(s, Return)
    ensures Inv(Take(s, Return))
  {
    var t := Take(s, Return);
    assert t.log[|s.log|] == s.sent[|s.log|];
    KeptStays(s, t);
  }

  lemma PickedUp<B, T>(s: State<B, T>, t: State<B, T>, j: int)
    requires Inv(s) && Enabled(s, MoveOut) && t == Take(s, MoveOut) && 0 <= j < In(t) - Out(t)
    ensures Kept(t, j)
  {
    assert Kept(s, j + 1);
  }

  lemma MoveOutIsFine<B, T>(s: State<B, T>)
    requires Inv(s) && Enabled(s, MoveOut)
    ensures Inv(Take(s, MoveOut))
  {
    var t := Take(s, MoveOut);
    forall j | 0 <= j < In(t) - Out(t)
      ensures Kept(t, j)
    {
      PickedUp(s, t, j);
    }
  }

  lemma TakeIsFine<B, T>(s: State<B, T>, step: Step<B, T>)
    requires Inv(s) && Enabled(s, step)
    ensures Inv(Take(s, step))
  {
    match step
    case AcquireFree(msg) => AcquireFreeIsFine(s, msg);
    case CopyByte => CopyByteIsFine(s);
    case SetLength => SetIsFine(s, step);
    case SetTag => SetIsFine(s, step);
    case MoveIn => MoveInIsFine(s);
    case ReleaseUsed => HandOverIsFine(s, step);
    case AcquireUsed => HandOverIsFine(s, step);
    case Call => ReadIsFine(s, step);
    case ReadByte => ReadIsFine(s, step);
    case Return => ReturnIsFine(s);
    case MoveOut => MoveOutIsFine(s);
    case ReleaseFree => HandOverIsFine(s, step);
  }

  // ----- runs

  /** The steps can be taken one after the other. */
  ghost predicate Possible<B, T>(s: State<B, T>, steps: seq<Step<B, T>>)
    requires Inv(s)
    decreases |steps|
  {
    steps == [] ||
    (Enabled(s, steps[0]) && (TakeIsFine(s, steps[0]); Possible(Take(s, steps[0]), steps[1..])))
  }

  ghost function After<B, T>(s: State<B, T>, steps: seq<Step<B, T>>): (t: State<B, T>)
    requires Inv(s) && Possible(s, steps)
    ensures Inv(t)
    decreases |steps|
  {
    if steps == [] then s else
    TakeIsFine(s, steps[0]);
    After(Take(s, steps[0]), steps[1..])
  }

  function SubmittedBy<B, T>(step: Step<B, T>): seq<Message<B, T>> {
    if step.AcquireFree? then [step.msg] else []
  }

  /** The messages that the steps submit. */
  function Submitted<B, T>(steps: seq<Step<B, T>>): seq<Message<B, T>> {
    if steps == [] then [] else SubmittedBy(steps[0]) + Submitted(steps[1..])
  }

  lemma StepSends<B, T>(s: State<B, T>, step: Step<B, T>, t: State<B, T>)
    requires Inv(s) && Enabled(s, step) && t == Take(s, step)
    ensures t.n == s.n && t.sent == s.sent + SubmittedBy(step)
  {
    assert s.sent + [] == s.sent;
  }

  lemma Regroup<M>(a: seq<M>, b: seq<M>, c: seq<M>, ab: seq<M>)
    requires ab == a + b
    ensures ab + c == a + (b + c)
  {
  }

  lemma {:induction false} SentIsSubmitted<B, T>(s: State<B, T>, steps: seq<Step<B, T>>)
    requires Inv(s) && Possible(s, steps)
    ensures After(s, steps).n == s.n && After(s, steps).sent == s.sent + Submitted(steps)
    decreases |steps|
  {
    if steps == [] {
      assert s.sent + [] == s.sent;
    } else {
      TakeIsFine(s, steps[0]);
      var t := Take(s, steps[0]);
      StepSends(s, steps[0], t);
      Regroup(s.sent, SubmittedBy(steps[0]), Submitted(steps[1..]), t.sent);
      SentIsSubmitted(t, steps[1..]);
    }
  }

  /** In every interleaving: the printer is given the messages that were submitted, unchanged and in that order, it
      is never more than the slots behind, and no slot is lost. */
  lemma SpoolInOrder<B, T>(n: nat, b: B, t: T, steps: seq<Step<B, T>>, s: State<B, T>)
    requires n > 0 && Possible(Init(n, b, t), steps) && s == After(Init(n, b, t), steps)
    ensures s.log <= Submitted(steps) && |Submitted(steps)| <= |s.log| + n
    ensures s.free + s.used + One(!s.producer.Idle?) + One(!s.consumer.Waiting?) == n
  {
    SentIsSubmitted(Init(n, b, t), steps);
  }

  // ----- no message stays behind

  /** The printer's steps for the messages from i on. */
  function Steps<B, T>(messages: seq<Message<B, T>>, i: nat): nat
    decreases |messages| - i
  {
    if i >= |messages| then 0 else |messages[i].text| + 5 + Steps(messages, i + 1)
  }

  function Filler<B, T>(p: Producer<B, T>): int {
    match p
    case Idle => 0
    case Filling(msg, k) => |msg.text| - k + 4
    case Measured(_) => 3
    case Filled => 2
    case Moved => 1
  }

  /** len is the length of the message at hand. */
  function Reader<B, T>(c: Consumer<B, T>, len: nat): int {
    match c
    case Waiting => 0
    case Held => len + 4
    case Reading(n, _, got) => n - |got| + 3
    case Done => 2
    case Passed => 1
  }

  /** How many steps are left for what has been submitted. */
  function Work<B, T>(s: State<B, T>): int {
    var len := if |s.log| < |s.sent| then |s.sent[|s.log|].text| else 0;
    Filler(s.producer) + Reader(s.consumer, len) + Steps(s.sent, |s.log| + One(Emptying(s.consumer)))
  }

  lemma WorkFalls<B, T>(s: State<B, T>, step: Step<B, T>)
    requires Inv(s) && Enabled(s, step) && !step.AcquireFree?
    ensures Work(Take(s, step)) == Work(s) - 1
  {
    if step.Call? {
      assert Kept(s, 0);
    }
  }

  /** Without new messages something can be done as long as not all that was submitted is printed and not all slots
      are free again. */
  lemma WorkIsLeft<B, T>(s: State<B, T>)
    requires Inv(s)
    ensures Work(s) >= 0
    ensures Work(s) == 0 <==> s.log == s.sent && s.free == s.n
    ensures Work(s) > 0 ==> exists step: Step<B, T> :: !step.AcquireFree? && Enabled(s, step)
  {
    if !s.producer.Idle? {
      var step: Step<B, T> := match s.producer
        case Filling(msg, k) => if k < |msg.text| then CopyByte else SetLength
        case Measured(_) => SetTag
        case Filled => MoveIn
        case _ => ReleaseUsed;
      assert !step.AcquireFree? && Enabled(s, step);
    } else if !s.consumer.Waiting? || s.used > 0 {
      var step: Step<B, T> := match s.consumer
        case Waiting => AcquireUsed
        case Held => Call
        case Reading(len, _, got) => if |got| < len then ReadByte else Return
        case Done => MoveOut
        case Passed => ReleaseFree;
      assert !step.AcquireFree? && Enabled(s, step);
    }
  }

  ghost predicate NoneSubmitted<B, T>(steps: seq<Step<B, T>>) {
    forall i :: 0 <= i < |steps| ==> !steps[i].AcquireFree?
  }

  lemma {:induction false} WorkIsDone<B, T>(s: State<B, T>, steps: seq<Step<B, T>>)
    requires Inv(s) && Possible(s, steps) && NoneSubmitted(steps)
    ensures Work(After(s, steps)) == Work(s) - |steps|
    decreases |steps|
  {
    if steps != [] {
      TakeIsFine(s, steps[0]);
      WorkFalls(s, steps[0]);
      WorkIsDone(Take(s, steps[0]), steps[1..]);
    }
  }

  /** Once nothing more is submitted, any schedule of the two threads comes to its end, no thread waits before, and
      then everything submitted has been printed and every slot is free. */
  lemma EverythingIsPrinted<B, T>(n: nat, b: B, t: T, steps: seq<Step<B, T>>, more: seq<Step<B, T>>, s: State<B, T>,
                                  u: State<B, T>)
    requires n > 0 && Possible(Init(n, b, t), steps) && s == After(Init(n, b, t), steps)
    requires Possible(s, more) && NoneSubmitted(more) && u == After(s, more)
    ensures |more| <= Work(s)
    ensures |more| == Work(s) <==> u.log == Submitted(steps) && u.free == n
    ensures |more| < Work(s) ==> exists step: Step<B, T> :: !step.AcquireFree? && Enabled(u, step)
  {
    SentIsSubmitted(Init(n, b, t), steps);
    WorkIsDone(s, more);
    WorkIsLeft(u);
    SentIsSubmitted(s, more);
    NothingSubmitted(more);
    assert s.sent + [] == s.sent;
  }

  lemma {:induction false} NothingSubmitted<B, T>(steps: seq<Step<B, T>>)
    requires NoneSubmitted(steps)
    ensures Submitted(steps) == []
  {
    if steps != [] {
      NothingSubmitted(steps[1..]);
    }
  }
}
