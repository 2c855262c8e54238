/** The receiver of amtor-decoder.cpp as it runs: one call for each fragment of the signal. */
module AmtorDecoder {
  import opened AmtorClock
  import opened AmtorLine
  import opened AmtorReceiver
  import opened AmtorText
  import opened AmtorWords
  import opened Bits

  const SCRAPPED: nat := 0xFF

  // ----- the queue

  /** What the queue holds for word k of those that it was given. */
  function Mark(fed: seq<nat>, k: int): nat
    requires k < |fed|
  {
    if k < 0 then BETA else if k >= 5 && k + 1 < |fed| && Fresh(fed, k - 5) then SCRAPPED else fed[k]
  }

  /** Cell j from the read position on. */
  predicate Cell(queue: seq<nat>, qp: nat, fed: seq<nat>, j: nat)
    requires |queue| == 10 && j < 6
  {
    queue[(qp + j) % 10] == Mark(fed, |fed| - 6 + j)
  }

  /** Six of the ten cells matter. */
  predicate Holds(queue: seq<nat>, qp: nat, fed: seq<nat>) {
    && |queue| == 10 && qp < 10
    && (forall k :: 0 <= k < |fed| ==> fed[k] < 128)
    && (forall j {:trigger Cell(queue, qp, fed, j)} :: 0 <= j < 6 ==> Cell(queue, qp, fed, j))
  }

  lemma {:induction false} FreshStays(fed: seq<nat>, w: nat, k: nat)
    requires k < |fed|
    ensures Fresh(fed + [w], k) == Fresh(fed, k)
    decreases k
  {
    if k >= 5 {
      FreshStays(fed, w, k - 5);
    }
  }

  /** The first cell tells whether its word is to be handed on. */
  lemma HeadTells(queue: seq<nat>, qp: nat, fed: seq<nat>)
    requires Holds(queue, qp, fed)
    ensures var head := queue[qp];
            && (Phasing(head) || head == SCRAPPED <==> !(|fed| >= 6 && Fresh(fed, |fed| - 6)))
            && (|fed| >= 6 && Fresh(fed, |fed| - 6) ==>
                  head == fed[|fed| - 6] && queue[(qp + 5) % 10] == fed[|fed| - 1])
  {
    assert Cell(queue, qp, fed, 0) && Cell(queue, qp, fed, 5);
  }

  /** The queue after another word. */
  function Entered(queue: seq<nat>, qp: nat, w: nat, used: bool): (q: seq<nat>)
    requires |queue| == 10 && qp < 10
    ensures |q| == 10
  {
    (if used then queue[(qp + 5) % 10 := SCRAPPED] else queue)[((qp + 1) % 10 + 5) % 10 := w]
  }

  lemma EnteredAt(queue: seq<nat>, qp: nat, w: nat, used: bool, j: nat)
    requires |queue| == 10 && qp < 10 && j < 6
    ensures Entered(queue, qp, w, used)[((qp + 1) % 10 + j) % 10]
            == if j == 5 then w else if j == 4 && used then SCRAPPED else queue[(qp + (j + 1)) % 10]
  {
  }

  lemma MarkMoves(fed: seq<nat>, w: nat, k: int)
    requires k <= |fed|
    ensures Mark(fed + [w], k)
            == if k == |fed| then w
               else if k == |fed| - 1 && k >= 5 && Fresh(fed, k - 5) then SCRAPPED
               else Mark(fed, k)
  {
    if 5 <= k <= |fed| {
      FreshStays(fed, w, k - 5);
    }
  }

  lemma CellMoves(queue: seq<nat>, qp: nat, fed: seq<nat>, w: nat, used: bool, j: nat)
    requires Holds(queue, qp, fed) && j < 6
    requires used <==> |fed| >= 6 && Fresh(fed, |fed| - 6)
    ensures Cell(Entered(queue, qp, w, used), (qp + 1) % 10, fed + [w], j)
  {
    EnteredAt(queue, qp, w, used, j);
    MarkMoves(fed, w, |fed| - 5 + j);
    if j < 5 {
      assert Cell(queue, qp, fed, j + 1);
    }
  }

  lemma WordEnters(queue: seq<nat>, qp: nat, fed: seq<nat>, w: nat, used: bool)
    requires Holds(queue, qp, fed) && w < 128
    requires used <==> |fed| >= 6 && Fresh(fed, |fed| - 6)
    ensures Holds(Entered(queue, qp, w, used), (qp + 1) % 10, fed + [w])
  {
    var q, p, f := Entered(queue, qp, w, used), (qp + 1) % 10, fed + [w];
    forall j | 0 <= j < 6
      ensures Cell(q, p, f, j)
    {
      CellMoves(queue, qp, fed, w, used, j);
    }
  }

  lemma EmptyHolds(queue: seq<nat>)
    requires |queue| == 10 && forall i :: 0 <= i < 10 ==> queue[i] == BETA
    ensures Holds(queue, 0, [])
  {
  }

  // ----- the decoder

  class Decoder {
    const strict: bool
    var oldFragment: bool
    var fragmentCount: nat
    var shiftReg: nat
    var bitCount: nat
    var phase: Phase
    const queue: array<nat>
    var qp: nat
    var letterShift: bool
    var text: seq<char>

    ghost var seen: seq<bool>
    ghost var reg: seq<bool>
    ghost var receiver: Receiver

    /** The state machine, the queue and the screen. */
    ghost predicate Receiving()
      reads this, queue
    {
      && phase == receiver.phase
      && (phase.X3? || phase.X4? || phase.X5? ==> Holds(queue[..], qp, receiver.fed))
      && queue.Length == 10 && qp < 10
      && Screen(letterShift, text) == ShowAll(Screen(true, []), receiver.out)
    }

    ghost predicate Collecting()
      reads this
    {
      bitCount == |reg| <= 6 && shiftReg == Value(reg)
    }

    ghost predicate Valid()
      reads this, queue
    {
      && Receiving() && Collecting()
      && Clock(oldFragment, fragmentCount) == ClockAfter(Clock(false, 0), seen)
      && reg == RegAfter([], Recovered(Clock(false, 0), seen))
      && receiver == Decoded(strict, seen)
    }

    constructor (strictFec: bool)
      ensures Valid() && fresh(queue)
      ensures strict == strictFec && seen == [] && text == []
    {
      strict := strictFec;
      oldFragment, fragmentCount := false, 0;
      shiftReg, bitCount := 0, 0;
      phase, qp := X0, 0;
      queue := new nat[10];
      letterShift, text := true, [];
      seen, reg, receiver := [], [], Receiver(X0, [], []);
    }

    /** HandleChar */
    method HandleChar(val: nat)
      modifies `letterShift, `text
      ensures Screen(letterShift, text) == Show(Screen(old(letterShift), old(text)), Char(val))
    {
      if val == LETTERS {
        letterShift := true;
        return;
      }
      if val == FIGURES {
        letterShift := false;
        return;
      }
      var i := 0;
      while Table(i).key != 0
        invariant i <= 33 && forall j :: 0 <= j < i ==> Table(j).key != val
        invariant letterShift == old(letterShift) && text == old(text)
        decreases 33 - i
      {
        if Table(i).key == val {
          KeysDiffer(i);
          text := text + [if letterShift then Table(i).letter else Table(i).digit];
          return;
        }
        i := i + 1;
      }
      NoRow(val, i);
      text := text + ['?'];
    }

    /** The queue after addBytetoMessage has handed on the word at its head, if at all. */
    method Skip(val: nat)
      requires queue.Length == 10 && qp < 10
      modifies `qp, queue
      ensures queue[..] == old(Entered(queue[..], qp, val, false)) && qp == (old(qp) + 1) % 10
    {
      qp := (qp + 1) % 10;
      queue[(qp + 5) % 10] := val;
    }

    method ScrapAndSkip(val: nat)
      requires queue.Length == 10 && qp < 10
      modifies `qp, queue
      ensures queue[..] == old(Entered(queue[..], qp, val, true)) && qp == (old(qp) + 1) % 10
    {
      queue[(qp + 5) % 10] := SCRAPPED;
      qp := (qp + 1) % 10;
      queue[(qp + 5) % 10] := val;
    }

    /** addBytetoMessage */
    method AddByteToMessage(val: nat)
      requires queue.Length == 10 && Holds(queue[..], qp, receiver.fed) && val < 128
      requires Screen(letterShift, text) == ShowAll(Screen(true, []), receiver.out)
      modifies `qp, `letterShift, `text, `receiver, queue
      ensures receiver == Add(strict, old(receiver), val)
      ensures Holds(queue[..], qp, receiver.fed)
      ensures Screen(letterShift, text) == ShowAll(Screen(true, []), receiver.out)
    {
      var used := HandOn(receiver.fed, receiver.out);
      MoveOn(val, used, receiver.fed);
      receiver := Add(strict, receiver, val);
    }

    method MoveOn(val: nat, used: bool, ghost fed: seq<nat>)
      requires queue.Length == 10 && Holds(queue[..], qp, fed) && val < 128
      requires used <==> |fed| >= 6 && Fresh(fed, |fed| - 6)
      modifies `qp, queue
      ensures Holds(queue[..], qp, fed + [val])
    {
      WordEnters(queue[..], qp, fed, val, used);
      if used {
        ScrapAndSkip(val);
      } else {
        Skip(val);
      }
    }

    /** The word at the head of the queue, if it is a first copy. */
    method HandOn(ghost fed: seq<nat>, ghost out: seq<Event>) returns (used: bool)
      requires queue.Length == 10 && Holds(queue[..], qp, fed)
      requires Screen(letterShift, text) == ShowAll(Screen(true, []), out)
      modifies `letterShift, `text
      ensures used <==> |fed| >= 6 && Fresh(fed, |fed| - 6)
      ensures Screen(letterShift, text) == ShowAll(Screen(true, []), out + Released(strict, fed))
    {
      HeadTells(queue[..], qp, fed);
      var head := queue[qp];
      if head == ALPHA || head == BETA || head == SCRAPPED {
        NoneReleased(strict, fed, out);
        return false;
      }
      var shown := if head == queue[(qp + 5) % 10] || !strict then head else 0x78;
      OneReleased(strict, fed, out, shown);
      HandleChar(shown);
      used := true;
    }

    /** initMessage */
    method InitMessage()
      requires queue.Length == 10
      modifies `qp, queue
      ensures Holds(queue[..], qp, [])
    {
      for i := 0 to 10
        invariant forall j :: 0 <= j < i ==> queue[j] == BETA
      {
        queue[i] := BETA;
      }
      qp := 0;
      EmptyHolds(queue[..]);
    }

    /** flushBuffer */
    method FlushBuffer()
      modifies `text, `receiver
      requires Screen(letterShift, text) == ShowAll(Screen(true, []), receiver.out)
      ensures receiver == old(receiver).(out := old(receiver).out + [Flush]) && text == old(text) + "    "
      ensures Screen(letterShift, text) == ShowAll(Screen(true, []), receiver.out)
    {
      LastShown(Screen(true, []), receiver.out, Flush);
      text := text + [' '];
      text := text + [' '];
      text := text + [' '];
      text := text + [' '];
      receiver := receiver.(out := receiver.out + [Flush]);
    }

    /** A word of a message: the state machine moves first. */
    method Accept(val: nat, next: Phase)
      requires Receiving() && Holds(queue[..], qp, receiver.fed) && val < 128
      modifies `phase, `qp, `letterShift, `text, `receiver, queue
      ensures Receiving() && receiver == Add(strict, old(receiver).(phase := next), val)
    {
      phase := next;
      receiver := receiver.(phase := next);
      AddByteToMessage(val);
    }

    method Await(next: Phase)
      requires Receiving() && (next.X0? || next.X1? || next.X2?)
      modifies `phase, `receiver
      ensures Receiving() && receiver == old(receiver).(phase := next)
    {
      phase := next;
      receiver := receiver.(phase := next);
    }

    method Begin(val: nat)
      requires Receiving() && val < 128
      modifies `phase, `qp, `letterShift, `text, `receiver, queue
      ensures Receiving() && receiver == Add(strict, Receiver(X3, [], old(receiver).out), val)
    {
      InitMessage();
      receiver := receiver.(fed := []);
      Accept(val, X3);
    }

    method End()
      requires Receiving()
      modifies `phase, `text, `receiver
      ensures Receiving() && receiver == old(receiver).(phase := X0, out := old(receiver).out + [Flush])
    {
      Await(X0);
      FlushBuffer();
    }

    /** decoder */
    method Decode(val: nat)
      requires Receiving() && val < 128
      modifies `phase, `qp, `letterShift, `text, `receiver, queue
      ensures Receiving() && receiver == Take(strict, old(receiver), val)
    {
      match phase
      case X0 =>
        if val == ALPHA {
          Await(X1);
        }
        if val == BETA {
          Await(X2);
        }
      case X1 =>
        if val == BETA {
          Await(X2);
        } else {
          Begin(val);
        }
      case X2 =>
        if val == ALPHA {
          Await(X1);
        }
      case X3 =>
        Accept(val, if val == ALPHA then X4 else if val == BETA then X5 else X3);
      case X4 =>
        Accept(val, if val == BETA then X6 else X3);
      case X5 =>
        Accept(val, if val == ALPHA then X6 else X3);
      case X6 =>
        End();
    }

    /** validate */
    static method Validate(bits: nat, cnt: nat) returns (valid: bool)
      ensures valid <==> LowOnes(bits, 7) == cnt
    {
      var ones, rest := 0, bits;
      for i := 0 to 7
        invariant ones + LowOnes(rest, 7 - i) == LowOnes(bits, 7)
      {
        if rest % 2 == 1 {
          ones := ones + 1;
        }
        rest := rest / 2;
      }
      valid := ones == cnt;
    }

    /** Seven bits have been collected. */
    method CheckWord()
      requires Receiving() && bitCount == |reg| == 7 && shiftReg == Value(reg)
      modifies `shiftReg, `bitCount, `reg, `phase, `qp, `letterShift, `text, `receiver, queue
      ensures Receiving() && Collecting()
      ensures reg == if Ones(old(reg)) == 4 then [] else old(reg)[1..]
      ensures receiver == if Ones(old(reg)) == 4 then Take(strict, old(receiver), Value(old(reg))) else old(receiver)
    {
      FullRegister(reg);
      var valid := Validate(shiftReg, 4);
      if valid {
        Decode(shiftReg);
        bitCount, shiftReg := 0, 0;
        reg := [];
      } else {
        bitCount := bitCount - 1;
        shiftReg := shiftReg % 64;
        reg := reg[1..];
      }
    }

    /** addfullBit */
    method AddFullBit(bit: bool)
      requires Receiving() && Collecting()
      modifies `shiftReg, `bitCount, `reg, `phase, `qp, `letterShift, `text, `receiver, queue
      ensures Receiving() && Collecting()
      ensures reg == Shifted(old(reg), bit)
      ensures receiver == TakeAll(strict, old(receiver), WordRead(old(reg), bit))
    {
      shiftReg := 2 * shiftReg + One(bit);
      bitCount := bitCount + 1;
      TakeOne(strict, receiver, Value(reg + [bit]));
      assert (reg + [bit])[..|reg|] == reg;
      reg := reg + [bit];
      if bitCount >= 7 {
        CheckWord();
      }
    }

    /** addbitfragment */
    method AddBitFragment(bf: bool)
      requires Valid()
      modifies this, queue
      ensures Valid() && seen == old(seen) + [bf] && Screen(letterShift, text) == Shown(strict, seen)
    {
      ghost var was := seen;
      FragmentSeen(strict, was, bf);
      seen := seen + [bf];
      if bf != oldFragment {
        fragmentCount := 5;
        oldFragment := bf;
        return;
      }
      fragmentCount := fragmentCount + 1;
      if fragmentCount >= 10 {
        AddFullBit(bf);
        fragmentCount := 0;
      }
    }
  }

  /** Masking a full register drops its oldest bit. */
  lemma FullRegister(all: seq<bool>)
    requires |all| == 7
    ensures Value(all) < 128 && LowOnes(Value(all), 7) == Ones(all)
    ensures Value(all[1..]) == Value(all) % 64
  {
    OldestIsDropped(all, all[1..], 7);
    RegisterOnes(all, 7);
  }

  lemma RegisterOnes(all: seq<bool>, n: nat)
    requires |all| == n
    ensures LowOnes(Value(all), n) == Ones(all)
  {
    BitsOfValue(all);
  }

  lemma OldestIsDropped(all: seq<bool>, rest: seq<bool>, n: nat)
    requires |all| == n == 7 && rest == all[1..]
    ensures Value(all) < 128 && Value(rest) == Value(all) % 64
  {
    Powers(n);
    BitsOfValue(rest);
    DropOldest(all);
    LowSix(Value(all), Value(rest), all[0]);
  }

  lemma LowSix(v: nat, low: nat, oldest: bool)
    requires low < 64 && v == low + (if oldest then 64 else 0)
    ensures v < 128 && low == v % 64
  {
  }

  lemma Powers(n: nat)
    requires n == 7
    ensures Pow2(n - 1) == 64 && Pow2(n) == 128
  {
    assert Pow2(n - 6) == 2 && Pow2(n - 5) == 4 && Pow2(n - 4) == 8;
    assert Pow2(n - 3) == 16 && Pow2(n - 2) == 32;
  }

  lemma TakeOne(strict: bool, r: Receiver, w: nat)
    ensures TakeAll(strict, r, [w]) == Take(strict, r, w)
  {
    assert [w][..0] == [];
  }

  /** What another fragment does to the clock, the register and the receiver. */
  lemma FragmentSeen(strict: bool, seen: seq<bool>, bf: bool)
    ensures var start := Clock(false, 0);
            var clock, reg := ClockAfter(start, seen), RegAfter([], Recovered(start, seen));
            var bits := Completed(clock, bf);
            && ClockAfter(start, seen + [bf]) == Tick(clock, bf)
            && (bits == [] ==> RegAfter([], Recovered(start, seen + [bf])) == reg
                               && Decoded(strict, seen + [bf]) == Decoded(strict, seen))
            && (bits == [bf] ==> RegAfter([], Recovered(start, seen + [bf])) == Shifted(reg, bf)
                                 && Decoded(strict, seen + [bf])
                                    == TakeAll(strict, Decoded(strict, seen), WordRead(reg, bf)))
  {
    var start := Clock(false, 0);
    var clock, sofar := ClockAfter(start, seen), Recovered(start, seen);
    RecoveredConcat(start, seen, [bf]);
    OneTick(clock, bf);
    if Completed(clock, bf) == [] {
      assert sofar + [] == sofar;
    } else {
      BitRead(sofar, bf);
      TakeConcat(strict, Receiver(X0, [], []), WordsRead([], sofar), WordRead(RegAfter([], sofar), bf));
    }
  }

  lemma OneTick(c: Clock, f: bool)
    ensures ClockAfter(c, [f]) == Tick(c, f) && Recovered(c, [f]) == Completed(c, f)
  {
    assert [f][1..] == [];
  }

  lemma BitRead(bits: seq<bool>, b: bool)
    ensures RegAfter([], bits + [b]) == Shifted(RegAfter([], bits), b)
    ensures WordsRead([], bits + [b]) == WordsRead([], bits) + WordRead(RegAfter([], bits), b)
  {
    assert (bits + [b])[..|bits|] == bits;
  }

  lemma NoneReleased(strict: bool, fed: seq<nat>, out: seq<Event>)
    requires !(|fed| >= 6 && Fresh(fed, |fed| - 6))
    ensures out + Released(strict, fed) == out
  {
  }

  lemma OneReleased(strict: bool, fed: seq<nat>, out: seq<Event>, w: nat)
    requires |fed| >= 6 && Fresh(fed, |fed| - 6) && w == Chosen(strict, fed, |fed| - 6)
    ensures ShowAll(Screen(true, []), out + Released(strict, fed)) == Show(ShowAll(Screen(true, []), out), Char(w))
  {
    LastShown(Screen(true, []), out, Char(w));
  }

  lemma LastShown(s: Screen, events: seq<Event>, e: Event)
    ensures ShowAll(s, events + [e]) == Show(ShowAll(s, events), e)
  {
    assert (events + [e])[..|events|] == events;
  }

  lemma NoRow(w: nat, i: nat)
    requires i <= 33 && Table(i).key == 0
    requires forall j :: 0 <= j < i ==> Table(j).key != w
    ensures RowOf(w) == 33
  {
    RowHasKey(w);
    assert i == 33;
  }

  lemma RowHasKey(w: nat)
    ensures RowOf(w) < 33 ==> Table(RowOf(w)).key == w
  {
  }
}
